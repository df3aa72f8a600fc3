/**
 * The RenderScript allocations the processor works on, updated in place: the two RGBA
 * allocations as 2D arrays, the camera's input allocation as a queue of frames, the
 * rectangular copy between allocations, and the intrinsics' ForEach launches.
 */
module Allocations {
  import opened Images

  /** The content of an RGBA allocation as an image. */
  ghost function Grid(a: array2<Rgba>): (img: Image)
    reads a
    ensures IsImage(img, a.Length0, a.Length1)
    ensures forall x, y :: 0 <= x < a.Length0 && 0 <= y < a.Length1 ==> img[x][y] == a[x, y]
  {
    seq(a.Length0, x requires 0 <= x < a.Length0 reads a =>
      seq(a.Length1, y requires 0 <= y < a.Length1 reads a => a[x, y]))
  }

  /** An allocation whose every cell agrees with `img` holds `img`. */
  lemma GridIs(a: array2<Rgba>, img: Image)
    requires IsImage(img, a.Length0, a.Length1)
    requires forall x, y :: 0 <= x < a.Length0 && 0 <= y < a.Length1 ==> a[x, y] == img[x][y]
    ensures Grid(a) == img
  {
    var g := Grid(a);
    forall x | 0 <= x < a.Length0
      ensures g[x] == img[x]
    {
      assert forall y :: 0 <= y < a.Length1 ==> g[x][y] == img[x][y];
    }
  }

  /**
   * `dst.Copy2DRangeFrom(xoff, yoff, w, h, src, srcX, srcY)`: copies the `w` x `h` rectangle
   * of `src` at (srcX, srcY) into `dst` at (xoff, yoff). A rectangle that does not fit either
   * allocation is refused (`ok` false) and nothing is copied.
   */
  method Copy2DRangeFrom(dst: array2<Rgba>, xoff: int, yoff: int, w: int, h: int,
                         src: array2<Rgba>, srcX: int, srcY: int) returns (ok: bool)
    requires src != dst
    requires src.Length0 == dst.Length0 && src.Length1 == dst.Length1
    modifies dst
    ensures ok == (RectWithin(xoff, yoff, w, h, dst.Length0, dst.Length1) &&
                   RectWithin(srcX, srcY, w, h, dst.Length0, dst.Length1))
    ensures ok ==> Grid(dst) == CopyRect(old(Grid(dst)), xoff, yoff, w, h, Grid(src), srcX, srcY,
                                         dst.Length0, dst.Length1)
    ensures !ok ==> Grid(dst) == old(Grid(dst))
  {
    ok := RectWithin(xoff, yoff, w, h, dst.Length0, dst.Length1) &&
          RectWithin(srcX, srcY, w, h, dst.Length0, dst.Length1);
    if !ok {
      return;
    }
    for i := 0 to w
      invariant forall x, y :: 0 <= x < dst.Length0 && 0 <= y < dst.Length1 ==>
        dst[x, y] == if InRect(x, y, xoff, yoff, i, h) then src[x - xoff + srcX, y - yoff + srcY] else old(dst[x, y])
    {
      for j := 0 to h
        invariant forall x, y :: 0 <= x < dst.Length0 && 0 <= y < dst.Length1 ==>
          dst[x, y] ==
            if InRect(x, y, xoff, yoff, i, h) || InRect(x, y, xoff + i, yoff, 1, j)
            then src[x - xoff + srcX, y - yoff + srcY] else old(dst[x, y])
      {
        dst[xoff + i, yoff + j] := src[srcX + i, srcY + j];
      }
    }
    GridIs(dst, CopyRect(old(Grid(dst)), xoff, yoff, w, h, Grid(src), srcX, srcY, dst.Length0, dst.Length1));
  }

  /** `mHdrYuvToRGBScript.ForEach(dst)` with the input allocation holding `frame`. */
  method YuvToRgbForEach(fx: Intrinsics, frame: YuvFrame, dst: array2<Rgba>)
    modifies dst
    ensures Grid(dst) == Convert(fx, frame, dst.Length0, dst.Length1)
  {
    for x := 0 to dst.Length0
      invariant forall i, j :: 0 <= i < x && 0 <= j < dst.Length1 ==> dst[i, j] == fx.yuvToRgb(frame, i, j)
    {
      for y := 0 to dst.Length1
        invariant forall i, j :: 0 <= i < x && 0 <= j < dst.Length1 ==> dst[i, j] == fx.yuvToRgb(frame, i, j)
        invariant forall j :: 0 <= j < y ==> dst[x, j] == fx.yuvToRgb(frame, x, j)
      {
        dst[x, y] := fx.yuvToRgb(frame, x, y);
      }
    }
    GridIs(dst, Convert(fx, frame, dst.Length0, dst.Length1));
  }

  /** `mHdrColorMatrixScript.ForEach(src, dst)`. */
  method ColorMatrixForEach(fx: Intrinsics, src: array2<Rgba>, dst: array2<Rgba>)
    requires src != dst
    requires src.Length0 == dst.Length0 && src.Length1 == dst.Length1
    modifies dst
    ensures Grid(dst) == ApplyMatrix(fx, Grid(src), dst.Length0, dst.Length1)
  {
    for x := 0 to dst.Length0
      invariant forall i, j :: 0 <= i < x && 0 <= j < dst.Length1 ==> dst[i, j] == fx.colorMatrix(src[i, j])
    {
      for y := 0 to dst.Length1
        invariant forall i, j :: 0 <= i < x && 0 <= j < dst.Length1 ==> dst[i, j] == fx.colorMatrix(src[i, j])
        invariant forall j :: 0 <= j < y ==> dst[x, j] == fx.colorMatrix(src[x, j])
      {
        dst[x, y] := fx.colorMatrix(src[x, y]);
      }
    }
    GridIs(dst, ApplyMatrix(fx, Grid(src), dst.Length0, dst.Length1));
  }

  /** `mHdrBlendScript.ForEachDstOver(src, dst)`. */
  method BlendForEachDstOver(fx: Intrinsics, src: array2<Rgba>, dst: array2<Rgba>)
    requires src != dst
    requires src.Length0 == dst.Length0 && src.Length1 == dst.Length1
    modifies dst
    ensures Grid(dst) == BlendDstOver(fx, Grid(src), old(Grid(dst)), dst.Length0, dst.Length1)
  {
    for x := 0 to dst.Length0
      invariant forall i, j :: 0 <= i < dst.Length0 && 0 <= j < dst.Length1 ==>
        dst[i, j] == if i < x then fx.blendDstOver(src[i, j], old(dst[i, j])) else old(dst[i, j])
    {
      for y := 0 to dst.Length1
        invariant forall i, j :: 0 <= i < dst.Length0 && 0 <= j < dst.Length1 ==>
          dst[i, j] == if i < x || (i == x && j < y) then fx.blendDstOver(src[i, j], old(dst[i, j])) else old(dst[i, j])
      {
        dst[x, y] := fx.blendDstOver(src[x, y], dst[x, y]);
      }
    }
    GridIs(dst, BlendDstOver(fx, Grid(src), old(Grid(dst)), dst.Length0, dst.Length1));
  }

  /**
   * The camera's YUV input allocation: `frames` is every buffer the camera has queued,
   * oldest first, and the first `next` of them have been received; the allocation shows
   * the last one received.
   */
  class InputAllocation {
    var frames: seq<YuvFrame>
    var next: nat

    ghost predicate Valid()
      reads this
    {
      next <= |frames|
    }

    constructor ()
      ensures Valid() && frames == [] && next == 0
    {
      frames := [];
      next := 0;
    }

    /** The frame the allocation currently holds. */
    function Current(): YuvFrame
      reads this
      requires Valid()
    {
      if next == 0 then Blank else frames[next - 1]
    }

    /** The camera queues a new buffer (the event that triggers the listener). */
    method Enqueue(f: YuvFrame)
      requires Valid()
      modifies this`frames
      ensures Valid() && frames == old(frames) + [f]
    {
      frames := frames + [f];
    }

    /** `IoReceive`: takes the oldest queued buffer; with none queued it fails and nothing changes. */
    method IoReceive() returns (ok: bool)
      requires Valid()
      modifies this`next
      ensures Valid()
      ensures ok == (old(next) < |frames|)
      ensures next == if ok then old(next) + 1 else old(next)
      ensures ok ==> Current() == frames[old(next)]
      ensures !ok ==> Current() == old(Current())
    {
      ok := next < |frames|;
      if ok {
        next := next + 1;
      }
    }
  }
}
