/**
 * ViewfinderProcessor and its ProcessingTask: the listener that counts incoming camera
 * buffers, and the handler callback that drains them and runs one compositing pass into
 * the output allocation.
 *
 * Each callback runs as one atomic method call; the handler thread, `Post`,
 * `RemoveCallbacks` and the `lock` regions are not modelled.
 */
module Viewfinder {
  import opened Images
  import opened Bookkeeping
  import opened Compositing
  import opened Allocations

  class ViewfinderProcessor {
    const inputHdr: InputAllocation
    const prev: array2<Rgba>
    const output: array2<Rgba>
    const fx: Intrinsics
    const width: nat
    const height: nat
    var hdrTask: ProcessingTask?
    var mode: int

    ghost predicate Valid()
      reads this, hdrTask, inputHdr
    {
      hdrTask != null && hdrTask.parent == this && hdrTask.input == inputHdr &&
      hdrTask.width == width && hdrTask.height == height && hdrTask.Valid()
    }

    /**
     * Creates the input allocation, the previous-frame and output allocations of
     * `width` x `height` RGBA pixels, the processing task, and selects normal mode.
     */
    constructor (fx: Intrinsics, width: nat, height: nat)
      ensures Valid() && fresh(inputHdr) && fresh(prev) && fresh(output) && fresh(hdrTask)
      ensures this.fx == fx && this.width == width && this.height == height
      ensures prev.Length0 == width && prev.Length1 == height
      ensures output.Length0 == width && output.Length1 == height
      ensures inputHdr.frames == [] && inputHdr.next == 0
      ensures hdrTask.pendingFrames == 0 && hdrTask.frameCounter == 0
      ensures mode == ModeNormal
    {
      inputHdr := new InputAllocation();
      prev := new Rgba[width, height];
      output := new Rgba[width, height];
      this.fx := fx;
      this.width := width;
      this.height := height;
      new;
      hdrTask := new ProcessingTask(this, inputHdr, width, height);
      SetRenderMode(ModeNormal);
    }

    /** Selects the pass the next cycle runs; any integer is accepted and stored as is. */
    method SetRenderMode(mode: int)
      requires Valid()
      modifies this`mode
      ensures Valid() && this.mode == mode
    {
      this.mode := mode;
    }
  }

  class ProcessingTask {
    var pendingFrames: nat
    var frameCounter: int
    const width: nat
    const height: nat
    const input: InputAllocation
    const parent: ViewfinderProcessor

    /**
     * Buffers announced but not yet received are queued in the input allocation, the frame
     * counter equals the number of buffers received so far, and the parent's two RGBA
     * allocations are distinct and of the processing task's dimensions.
     */
    ghost predicate Valid()
      reads this, input
    {
      input.Valid() && input.next + pendingFrames <= |input.frames| &&
      frameCounter == input.next &&
      BuffersFit()
    }

    /** The parent's two RGBA allocations are distinct and of the processing task's dimensions. */
    ghost predicate BuffersFit()
    {
      parent.prev != parent.output &&
      parent.prev.Length0 == width && parent.prev.Length1 == height &&
      parent.output.Length0 == width && parent.output.Length1 == height
    }

    /** The processing task's bookkeeping as a value. */
    function BookOf(): (b: Book)
      reads this, input
    {
      Book(pendingFrames, frameCounter, input.next)
    }

    constructor (parent: ViewfinderProcessor, input: InputAllocation, width: nat, height: nat)
      requires input.Valid() && input.next == 0
      requires parent.prev != parent.output
      requires parent.prev.Length0 == width && parent.prev.Length1 == height
      requires parent.output.Length0 == width && parent.output.Length1 == height
      ensures Valid()
      ensures this.parent == parent && this.input == input && this.width == width && this.height == height
      ensures pendingFrames == 0 && frameCounter == 0
    {
      this.parent := parent;
      this.input := input;
      this.width := width;
      this.height := height;
      pendingFrames := 0;
      frameCounter := 0;
    }

    /** The input allocation has queued one more buffer than the processing task has been told about. */
    method OnBufferAvailable()
      requires Valid() && input.next + pendingFrames < |input.frames|
      modifies this`pendingFrames
      ensures Valid()
      ensures BookOf() == Step(old(BookOf()), BufferAvailable)
      ensures pendingFrames == old(pendingFrames) + 1 && frameCounter == old(frameCounter)
    {
      pendingFrames := pendingFrames + 1;
    }

    /**
     * One cycle: take the pending count and zero it, receive that many buffers so that the
     * newest announced one is in the input allocation, and run the pass the parent's mode
     * selects (see Compositing.Composite) with the counter at `counter + pending - 1`.
     */
    method Run()
      requires Valid()
      modifies this, input, parent.prev, parent.output
      ensures Valid()
      ensures BookOf() == Step(old(BookOf()), RunCycle)
      ensures pendingFrames == 0 && frameCounter == old(frameCounter) + old(pendingFrames)
      // exactly `pending` buffers are received, and the newest announced one is composited
      ensures input.frames == old(input.frames) && input.next == old(input.next) + old(pendingFrames)
      ensures input.Current() == if old(pendingFrames) == 0 then old(input.Current())
                                 else input.frames[old(input.next) + old(pendingFrames) - 1]
      // the counter the pass sees is the index of the frame it composites
      ensures PassCounter(old(BookOf())) == input.next - 1
      ensures Buffers(Grid(parent.prev), Grid(parent.output)) ==
        Composite(parent.mode, PassCounter(old(BookOf())), input.Current(),
                  Buffers(old(Grid(parent.prev)), old(Grid(parent.output))), parent.fx, width, height)
    {
      var pending := TakePending();
      ReceiveFrames(pending);
      ghost var frame := input.Current();
      frameCounter := frameCounter + (pending as int - 1);

      ghost var before := Buffers(Grid(parent.prev), Grid(parent.output));
      assert before == Buffers(old(Grid(parent.prev)), old(Grid(parent.output)));
      assert frameCounter == PassCounter(old(BookOf()));
      RunPass(parent.mode, frameCounter, input.Current());
      frameCounter := frameCounter + 1;
      assert input.Current() == frame;
    }

    /** The locked region of Run: reads the pending count and zeroes it. */
    method TakePending() returns (pending: nat)
      modifies this`pendingFrames
      ensures pending == old(pendingFrames) && pendingFrames == 0
    {
      pending := pendingFrames;
      pendingFrames := 0;
    }

    /** Calls `IoReceive` `n` times on the input allocation, which holds at least `n` more buffers. */
    method ReceiveFrames(n: nat)
      requires input.Valid() && input.next + n <= |input.frames|
      modifies input`next
      ensures input.Valid() && input.next == old(input.next) + n
      ensures input.Current() == if n == 0 then old(input.Current()) else input.frames[old(input.next) + n - 1]
    {
      for i := 0 to n
        invariant input.Valid() && input.next == old(input.next) + i
      {
        var ok := input.IoReceive();
        assert ok;
      }
    }

    /**
     * The processing pass of a cycle: `mode` is the parent's mode read once, `counter` the
     * adjusted frame counter and `frame` the newest received input.
     */
    method RunPass(mode: int, counter: int, frame: YuvFrame)
      requires BuffersFit()
      modifies parent.prev, parent.output
      ensures Buffers(Grid(parent.prev), Grid(parent.output)) ==
        Composite(mode, counter, frame, Buffers(old(Grid(parent.prev)), old(Grid(parent.output))),
                  parent.fx, width, height)
    {
      ghost var b := Buffers(Grid(parent.prev), Grid(parent.output));
      if mode != ModeNormal {
        if mode == ModeHdr {
          ColorMatrixForEach(parent.fx, parent.prev, parent.output);
        } else {
          var cut := FirstCut(counter, width);
          var ok := Copy2DRangeFrom(parent.output, cut, 0, width / 2, height, parent.prev, cut, 0);
          assert ok;
        }
        ghost var out1 := Grid(parent.output);

        YuvToRgbForEach(parent.fx, frame, parent.prev);
        assert Grid(parent.output) == out1;

        if mode == ModeHdr {
          BlendForEachDstOver(parent.fx, parent.prev, parent.output);
        } else {
          var cut := SecondCut(counter, width);
          var ok := Copy2DRangeFrom(parent.output, cut, 0, width / 2, height, parent.prev, cut, 0);
          assert ok;
        }
      } else {
        YuvToRgbForEach(parent.fx, frame, parent.output);
        assert Grid(parent.prev) == b.prev;
      }
    }
  }
}
