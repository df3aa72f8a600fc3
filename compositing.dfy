/**
 * The compositing pass of one ProcessingTask cycle, as a function of the previous-frame
 * and output images: the mode dispatch, the split-screen cut points and what each mode
 * leaves untouched.
 */
module Compositing {
  import opened Images
  import opened Bookkeeping

  const ModeNormal: int := 0
  const ModeHdr: int := 2

  /**
   * The cut point of the first split-screen copy, `(counter & 1) == 0 ? 0 : width / 2`.
   * Euclidean `%` gives 1 for every odd counter, negative ones included, as `& 1` does.
   */
  function FirstCut(counter: int, width: nat): (cut: nat)
    ensures cut == 0 || cut == width / 2
    ensures cut + width / 2 <= width
  {
    if counter % 2 == 0 then 0 else width / 2
  }

  /** The cut point of the second split-screen copy, `(counter & 1) == 1 ? 0 : width / 2`: always the other half. */
  function SecondCut(counter: int, width: nat): (cut: nat)
    ensures cut + width / 2 <= width
    ensures (FirstCut(counter, width) == 0 && cut == width / 2) || (FirstCut(counter, width) == width / 2 && cut == 0)
  {
    if counter % 2 == 1 then 0 else width / 2
  }

  /** Consecutive counters put the first copy where the previous cycle put the second one. */
  lemma CutsSwapBetweenCycles(counter: int, width: nat)
    ensures FirstCut(counter + 1, width) == SecondCut(counter, width)
    ensures SecondCut(counter + 1, width) == FirstCut(counter, width)
  {
  }

  /** Two's-complement 32-bit wrap-around, the value an `int` field really holds. */
  function Wrap32(c: int): (w: int)
    ensures -0x8000_0000 <= w < 0x8000_0000
    ensures (c - w) % 0x1_0000_0000 == 0
  {
    (c + 0x8000_0000) % 0x1_0000_0000 - 0x8000_0000
  }

  /** An overflowing frame counter keeps its parity, so the cut points do not depend on its width. */
  lemma ParitySurvivesWrap(c: int, width: nat)
    ensures Wrap32(c) % 2 == c % 2
    ensures FirstCut(Wrap32(c), width) == FirstCut(c, width)
    ensures SecondCut(Wrap32(c), width) == SecondCut(c, width)
  {
    var m := (c + 0x8000_0000) / 0x1_0000_0000 * 0x8000_0000;
    assert Wrap32(c) == c - 2 * m;
    EvenShiftKeepsParity(c, m);
  }

  lemma EvenShiftKeepsParity(c: int, m: int)
    ensures (c - 2 * m) % 2 == c % 2
  {
  }

  /** The previous-frame buffer and the output buffer. */
  datatype Buffers = Buffers(prev: Image, out: Image)

  ghost predicate IsFrameSet(b: Buffers, width: nat, height: nat)
  {
    IsImage(b.prev, width, height) && IsImage(b.out, width, height)
  }

  /**
   * The pass that ProcessingTask.Run runs on `frame`, the newest input, with `counter` the
   * frame counter after `counter += pending - 1`: mode 0 converts the input into the output;
   * mode 2 writes the colour-matrixed previous frame into the output, converts the input into
   * the previous-frame buffer, and draws the darkened previous frame over the new one
   * (dst-over); every other mode copies one half of the old previous frame, converts, and
   * copies the other half of the new previous frame.
   */
  function Composite(mode: int, counter: int, frame: YuvFrame, b: Buffers, fx: Intrinsics,
                     width: nat, height: nat): (r: Buffers)
    requires IsFrameSet(b, width, height)
    ensures IsFrameSet(r, width, height)
    // normal mode: output is the converted input, the previous frame is left alone
    ensures mode == ModeNormal ==> r.prev == b.prev && r.out == Convert(fx, frame, width, height)
    // every other mode: the previous-frame buffer ends holding the converted input
    ensures mode != ModeNormal ==> r.prev == Convert(fx, frame, width, height)
  {
    if mode != ModeNormal then
      var out1 :=
        if mode == ModeHdr then ApplyMatrix(fx, b.prev, width, height)
        else
          var cut := FirstCut(counter, width);
          CopyRect(b.out, cut, 0, width / 2, height, b.prev, cut, 0, width, height);
      var prev1 := Convert(fx, frame, width, height);
      var out2 :=
        if mode == ModeHdr then BlendDstOver(fx, prev1, out1, width, height)
        else
          var cut := SecondCut(counter, width);
          CopyRect(out1, cut, 0, width / 2, height, prev1, cut, 0, width, height);
      Buffers(prev1, out2)
    else
      Buffers(b.prev, Convert(fx, frame, width, height))
  }

  /** In HDR mode each output pixel is the darkened previous pixel drawn over the new one (dst-over). */
  lemma HdrPass(counter: int, frame: YuvFrame, b: Buffers, fx: Intrinsics, width: nat, height: nat)
    requires IsFrameSet(b, width, height)
    ensures var r := Composite(ModeHdr, counter, frame, b, fx, width, height);
      forall x, y :: 0 <= x < width && 0 <= y < height ==>
        r.out[x][y] == fx.blendDstOver(fx.yuvToRgb(frame, x, y), fx.colorMatrix(b.prev[x][y]))
  {
  }

  /**
   * In split-screen mode the output holds the old previous frame in the half at the first
   * cut, the newly converted frame in the half at the second cut, and, for an odd width,
   * its old content in the last column.
   */
  lemma SplitPass(mode: int, counter: int, frame: YuvFrame, b: Buffers, fx: Intrinsics, width: nat, height: nat)
    requires mode != ModeNormal && mode != ModeHdr
    requires IsFrameSet(b, width, height)
    ensures var r := Composite(mode, counter, frame, b, fx, width, height);
      var first, second := FirstCut(counter, width), SecondCut(counter, width);
      forall x, y :: 0 <= x < width && 0 <= y < height ==>
        (first <= x < first + width / 2 ==> r.out[x][y] == b.prev[x][y]) &&
        (second <= x < second + width / 2 ==> r.out[x][y] == fx.yuvToRgb(frame, x, y)) &&
        (2 * (width / 2) <= x ==> r.out[x][y] == b.out[x][y])
  {
  }

  /**
   * The pass as the source writes it, which reads the mode field again for its second step:
   * `first` is the mode seen by the tests before the conversion, `second` the mode seen by
   * the test after it. A mode change between the two reads mixes two passes.
   */
  function CompositeRereadingMode(first: int, second: int, counter: int, frame: YuvFrame, b: Buffers,
                                  fx: Intrinsics, width: nat, height: nat): (r: Buffers)
    requires IsFrameSet(b, width, height)
    ensures IsFrameSet(r, width, height)
    ensures first == second ==> r == Composite(first, counter, frame, b, fx, width, height)
  {
    if first != ModeNormal then
      var out1 :=
        if first == ModeHdr then ApplyMatrix(fx, b.prev, width, height)
        else
          var cut := FirstCut(counter, width);
          CopyRect(b.out, cut, 0, width / 2, height, b.prev, cut, 0, width, height);
      var prev1 := Convert(fx, frame, width, height);
      var out2 :=
        if second == ModeHdr then BlendDstOver(fx, prev1, out1, width, height)
        else
          var cut := SecondCut(counter, width);
          CopyRect(out1, cut, 0, width / 2, height, prev1, cut, 0, width, height);
      Buffers(prev1, out2)
    else
      Buffers(b.prev, Convert(fx, frame, width, height))
  }

  /**
   * A switch from HDR to split screen between the two reads: on a 2 x 1 frame whose three
   * intrinsics return distinct pixels, the output matches the pass of no mode at all
   * (darkened previous frame on the left, new frame on the right).
   */
  lemma TornModeSwitch(mode: int)
    ensures var fx := Intrinsics((f: YuvFrame, x: int, y: int) => Rgba(1, 1, 1, 1), (p: Rgba) => Rgba(2, 2, 2, 2),
                                 (s: Rgba, d: Rgba) => Rgba(3, 3, 3, 3));
      var zero := Rgba(0, 0, 0, 0);
      var b := Buffers([[zero], [zero]], [[zero], [zero]]);
      CompositeRereadingMode(ModeHdr, 1, 0, Blank, b, fx, 2, 1).out !=
        Composite(mode, 0, Blank, b, fx, 2, 1).out
  {
    var fx := Intrinsics((f: YuvFrame, x: int, y: int) => Rgba(1, 1, 1, 1), (p: Rgba) => Rgba(2, 2, 2, 2),
                         (s: Rgba, d: Rgba) => Rgba(3, 3, 3, 3));
    var zero := Rgba(0, 0, 0, 0);
    var b := Buffers([[zero], [zero]], [[zero], [zero]]);
    var torn := CompositeRereadingMode(ModeHdr, 1, 0, Blank, b, fx, 2, 1);
    assert torn.out[0][0] == Rgba(2, 2, 2, 2);
    var r := Composite(mode, 0, Blank, b, fx, 2, 1);
    if mode == ModeNormal {
      assert r.out[0][0] == Rgba(1, 1, 1, 1);
    } else if mode == ModeHdr {
      HdrPass(0, Blank, b, fx, 2, 1);
      assert r.out[0][0] == Rgba(3, 3, 3, 3);
    } else {
      SplitPass(mode, 0, Blank, b, fx, 2, 1);
      assert r.out[0][0] == zero;
    }
  }

  /** Normal mode is idempotent: re-running it on an unchanged input gives the same output. */
  lemma NormalIdempotent(counter: int, counter': int, frame: YuvFrame, b: Buffers, fx: Intrinsics,
                         width: nat, height: nat)
    requires IsFrameSet(b, width, height)
    ensures var once := Composite(ModeNormal, counter, frame, b, fx, width, height);
      Composite(ModeNormal, counter', frame, once, fx, width, height) == once
  {
  }

  /**
   * Two split-screen cycles with consecutive counters, converting `f1` then `f2`: the output
   * then shows `f2` in the half where the first cycle had put the older frame, and `f1` in the other.
   */
  lemma SplitTwoCycles(mode: int, counter: int, f1: YuvFrame, f2: YuvFrame, b: Buffers, fx: Intrinsics,
                       width: nat, height: nat)
    requires mode != ModeNormal && mode != ModeHdr
    requires IsFrameSet(b, width, height)
    ensures var b1 := Composite(mode, counter, f1, b, fx, width, height);
      var b2 := Composite(mode, counter + 1, f2, b1, fx, width, height);
      var older, newer := FirstCut(counter, width), SecondCut(counter, width);
      forall x, y :: 0 <= x < width && 0 <= y < height ==>
        (older <= x < older + width / 2 ==> b2.out[x][y] == fx.yuvToRgb(f2, x, y)) &&
        (newer <= x < newer + width / 2 ==> b2.out[x][y] == fx.yuvToRgb(f1, x, y))
  {
    var b1 := Composite(mode, counter, f1, b, fx, width, height);
    SplitPass(mode, counter, f1, b, fx, width, height);
    SplitPass(mode, counter + 1, f2, b1, fx, width, height);
    CutsSwapBetweenCycles(counter, width);
  }

  /**
   * With one buffer per cycle, the split-screen side the first copy writes alternates: the
   * (k+2)-th cycle's first cut is the (k+1)-th cycle's second cut.
   */
  lemma SplitSidesAlternate(b: Book, k: nat, width: nat)
    requires b.pending == 0
    ensures var c := PassCounter(Step(Replay(b, OneFrameCycles(k)), BufferAvailable));
      var c' := PassCounter(Step(Replay(b, OneFrameCycles(k + 1)), BufferAvailable));
      c' == c + 1 && FirstCut(c', width) == SecondCut(c, width) && SecondCut(c', width) == FirstCut(c, width)
  {
    OneFrameCyclesAdvance(b, k);
    OneFrameCyclesAdvance(b, k + 1);
    CutsSwapBetweenCycles(b.counter + k, width);
  }
}
