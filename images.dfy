/**
 * Frames and the per-pixel RenderScript intrinsics the viewfinder composites with.
 *
 * An RGBA image is held column-major, `img[x][y]`, with `x` the column (0 <= x < width)
 * and `y` the row (0 <= y < height), matching the (x, y) argument order of
 * `Allocation.Copy2DRangeFrom`.
 */
module Images {

  /** One RGBA_8888 pixel of the previous-frame and output allocations. */
  datatype Rgba = Rgba(r: bv8, g: bv8, b: bv8, a: bv8)

  /** One raw YUV_420_888 camera frame; its layout is opaque to the compositor. */
  datatype YuvFrame = YuvFrame(bytes: seq<bv8>)

  /** The content of an input allocation that has not received any buffer yet. */
  const Blank: YuvFrame := YuvFrame([])

  type Image = seq<seq<Rgba>>

  /** `img` is a `width` x `height` image. */
  ghost predicate IsImage(img: Image, width: nat, height: nat)
  {
    |img| == width && forall x :: 0 <= x < width ==> |img[x]| == height
  }

  /**
   * The three script intrinsics, as the functions they apply to each output pixel.
   * yuvToRgb sees the whole frame, since one RGB pixel depends on a shared chroma sample;
   * colorMatrix is the fixed half-intensity matrix; blendDstOver(src, dst) draws dst over src.
   */
  datatype Intrinsics = Intrinsics(
    yuvToRgb: (YuvFrame, int, int) -> Rgba,
    colorMatrix: Rgba -> Rgba,
    blendDstOver: (Rgba, Rgba) -> Rgba)

  /** ScriptIntrinsicYuvToRGB.ForEach: the frame converted to RGBA. */
  function Convert(fx: Intrinsics, frame: YuvFrame, width: nat, height: nat): (img: Image)
    ensures IsImage(img, width, height)
  {
    seq(width, x => seq(height, y => fx.yuvToRgb(frame, x, y)))
  }

  /** ScriptIntrinsicColorMatrix.ForEach applied to every pixel of `src`. */
  function ApplyMatrix(fx: Intrinsics, src: Image, width: nat, height: nat): (img: Image)
    requires IsImage(src, width, height)
    ensures IsImage(img, width, height)
  {
    seq(width, x requires 0 <= x < width =>
      seq(height, y requires 0 <= y < height => fx.colorMatrix(src[x][y])))
  }

  /** ScriptIntrinsicBlend.ForEachDstOver(src, dst): the new content of `dst`. */
  function BlendDstOver(fx: Intrinsics, src: Image, dst: Image, width: nat, height: nat): (img: Image)
    requires IsImage(src, width, height) && IsImage(dst, width, height)
    ensures IsImage(img, width, height)
  {
    seq(width, x requires 0 <= x < width =>
      seq(height, y requires 0 <= y < height => fx.blendDstOver(src[x][y], dst[x][y])))
  }

  /** The rectangle of `w` columns from `xoff` and `h` rows from `yoff` lies inside a `width` x `height` image. */
  predicate RectWithin(xoff: int, yoff: int, w: int, h: int, width: nat, height: nat)
  {
    0 <= xoff && 0 <= yoff && 0 <= w && 0 <= h && xoff + w <= width && yoff + h <= height
  }

  predicate InRect(x: int, y: int, xoff: int, yoff: int, w: int, h: int)
  {
    xoff <= x < xoff + w && yoff <= y < yoff + h
  }

  /**
   * Allocation.Copy2DRangeFrom(xoff, yoff, w, h, src, srcX, srcY): the new content of `dst`,
   * whose rectangle at (xoff, yoff) takes the same-sized rectangle of `src` at (srcX, srcY).
   */
  function CopyRect(dst: Image, xoff: int, yoff: int, w: int, h: int, src: Image, srcX: int, srcY: int,
                    width: nat, height: nat): (img: Image)
    requires IsImage(dst, width, height) && IsImage(src, width, height)
    requires RectWithin(xoff, yoff, w, h, width, height) && RectWithin(srcX, srcY, w, h, width, height)
    ensures IsImage(img, width, height)
  {
    seq(width, x requires 0 <= x < width =>
      seq(height, y requires 0 <= y < height =>
        if InRect(x, y, xoff, yoff, w, h) then src[x - xoff + srcX][y - yoff + srcY] else dst[x][y]))
  }
}
