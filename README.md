# HDR viewfinder frame processor: a Dafny model

This project models the frame-processing core of the HDR viewfinder's `ViewfinderProcessor`
(C#, RenderScript). The camera queues YUV buffers into an input allocation and calls the
`ProcessingTask` listener once per buffer. `OnBufferAvailable` counts each buffer as
pending. The handler thread later runs `Run`, which:

- zeroes the pending count;
- calls `IoReceive` once per pending buffer, so only the newest one is kept;
- adjusts the frame counter;
- runs one compositing pass into the output allocation, chosen by the render mode:
  - mode 0 (normal): the input is converted to RGBA straight into the output.
  - mode 2 (HDR): the previous frame is darkened into the output, the input is converted
    into the previous-frame allocation, and the darkened previous frame is drawn over the new
    one (dst-over).
  - any other mode (split screen): half of the old previous frame is copied, the input is
    converted, and the other half of the new one is copied. The halves swap with the
    counter's parity.

Layout:

- `images.dfy` (`Images`): pixels, frames, images as `seq<seq<Rgba>>` indexed `[x][y]`,
  and the intrinsics as per-pixel functions. It also defines the specification functions
  `Convert`, `ApplyMatrix`, `BlendDstOver` and `CopyRect`.
- `allocations.dfy` (`Allocations`): the RGBA allocations as `array2<Rgba>`.
  `Copy2DRangeFrom` and the intrinsics' `ForEach` launches update them in place. Each one is
  proved to leave the array equal to its specification function. `InputAllocation` is the
  camera's buffer queue, with `IoReceive`.
- `bookkeeping.dfy` (`Bookkeeping`): the pending count, the frame counter and the number of
  received buffers, as a value. It also proves lemmas about sequences of callbacks.
- `compositing.dfy` (`Compositing`): the mode constants, the cut points and `Composite`,
  the pass as a function of the previous-frame and output images. It also holds the
  per-mode lemmas and the mode-re-read finding.
- `viewfinder.dfy` (`Viewfinder`): the classes `ViewfinderProcessor` and `ProcessingTask`.
  `OnBufferAvailable` and `Run` are tied to `Bookkeeping.Step` and to
  `Compositing.Composite`.

In every mode the frame counter grows by exactly 1 per cycle, at line 161; the passes
themselves never change it. Line 126 first adds `pending - 1`, so one `Run` adds exactly
`pending` to the counter. The model follows the code here. The class invariant
`ProcessingTask.Valid` records that the counter always equals the number of buffers
received. So the counter a pass sees is the index of the frame it converts. In split
screen, a frame with an even index is written to the right half and one with an odd index
to the left half.

## Model

| member | source | states |
|---|---|---|
| `Viewfinder.ViewfinderProcessor.constructor` | ViewfinderProcessor.cs:31-60 | The input allocation starts empty, the two RGBA allocations are fresh and distinct, each `width` x `height`, the processing task starts with nothing pending and a counter of 0, and the mode is normal. |
| `Viewfinder.ViewfinderProcessor.SetRenderMode` | ViewfinderProcessor.cs:72-75 | Stores the mode as given, with no validation; nothing else changes. |
| `Viewfinder.ProcessingTask.constructor` | ViewfinderProcessor.cs:91-97 | The processing task keeps its parent, input and dimensions, starts with 0 pending and a counter of 0, and satisfies its invariant. |
| `Viewfinder.ProcessingTask.OnBufferAvailable` | ViewfinderProcessor.cs:99-106 | The pending count grows by exactly one and the counter is unchanged. This is `Step(_, BufferAvailable)`, and the invariant is kept. |
| `Viewfinder.ProcessingTask.Run` | ViewfinderProcessor.cs:108-164 | Ends with 0 pending and receives exactly the old pending count of buffers. The newest announced buffer is the one converted. The counter grows by the old pending count (unchanged when none were pending). The two RGBA allocations end as `Composite` of their old contents, with the mode read once and the counter `counter + pending - 1`. That counter is the index of the converted frame. The invariant is kept. |
| `Viewfinder.ProcessingTask.TakePending` | ViewfinderProcessor.cs:111-119 | Returns the pending count and leaves it at zero. |
| `Viewfinder.ProcessingTask.ReceiveFrames` | ViewfinderProcessor.cs:121-125 | Advances the input exactly `n` buffers. None of the receives fails. The allocation then holds the n-th of the queued buffers, or its old frame when `n` is 0. |
| `Viewfinder.ProcessingTask.RunPass` | ViewfinderProcessor.cs:128-160 | Leaves the previous-frame and output allocations equal to `Composite` of their old contents. Both split-screen copies are proved in range. |
| `Allocations.Copy2DRangeFrom` | ViewfinderProcessor.cs:140-141 | Succeeds exactly when the rectangle fits both allocations. The destination then equals `CopyRect` of its old content: the rectangle comes from the source and every other cell is unchanged. On failure nothing changes. |
| `Allocations.YuvToRgbForEach` | ViewfinderProcessor.cs:144 | The destination holds the converted input frame, cell by cell. |
| `Allocations.ColorMatrixForEach` | ViewfinderProcessor.cs:135 | The destination holds the colour matrix applied to each source pixel. |
| `Allocations.BlendForEachDstOver` | ViewfinderProcessor.cs:148 | Each destination pixel becomes blend(source pixel, its old value). |
| `Allocations.InputAllocation.IoReceive` | ViewfinderProcessor.cs:124 | Takes the oldest queued buffer, which becomes the frame the conversion reads. It fails, changing nothing, exactly when none is queued; the allocation then keeps the frame it held. |
| `Allocations.InputAllocation.constructor` | ViewfinderProcessor.cs:37-38 | The input allocation starts with no buffer queued or received. |
| `Bookkeeping.Step` | ViewfinderProcessor.cs:99-161 | Each callback grows pending + received by 1 for an arrival and by 0 for a run. It keeps counter - received fixed. A run ends with 0 pending and the counter raised by the pending count. |
| `Bookkeeping.ReplayConserves` | ViewfinderProcessor.cs:103-126 | Over any sequence of callbacks, pending + received grows by exactly the number of arrivals, so no buffer is lost or received twice. The counter moves exactly with the received count. |
| `Bookkeeping.ReplayBurst` | ViewfinderProcessor.cs:99-106 | n arrivals in a row raise the pending count by n and touch nothing else. |
| `Bookkeeping.BurstThenRun` | ViewfinderProcessor.cs:111-126 | Coalescing: one run after n arrivals receives all of them, leaves 0 pending and advances the counter by n. Its pass sees the counter of the newest buffer. |
| `Bookkeeping.OneFrameCyclesAdvance` | ViewfinderProcessor.cs:122-161 | With one buffer per cycle, k cycles advance the counter and the received count by k. The next cycle's pass sees `counter + k`. |
| `Compositing.FirstCut` | ViewfinderProcessor.cs:139 | The first cut point is 0 or `width / 2`, and the copied half `[cut, cut + width/2)` lies inside the frame. |
| `Compositing.SecondCut` | ViewfinderProcessor.cs:152 | The second cut point is the opposite of the first: one of them is 0 and the other is `width / 2`. The copied half lies inside the frame. |
| `Compositing.CutsSwapBetweenCycles` | ViewfinderProcessor.cs:139-152 | Counters c and c+1 exchange the two cut points. |
| `Compositing.Wrap32` | ViewfinderProcessor.cs:84 | The 32-bit value of the counter field lies in the int range and is congruent to the unbounded value modulo 2^32. |
| `Compositing.ParitySurvivesWrap` | ViewfinderProcessor.cs:139-152 | Parity, and so both cut points, is the same for the wrapped and the unbounded counter, so overflow never changes which half is written. |
| `Compositing.Composite` | ViewfinderProcessor.cs:131-160 | Normal mode writes the converted input to the output and leaves the previous frame untouched. Every other mode leaves the previous-frame buffer holding the converted input. Both buffers keep their dimensions. |
| `Compositing.HdrPass` | ViewfinderProcessor.cs:133-148 | In HDR mode each output pixel is blend(new converted pixel, colour-matrixed old previous pixel). |
| `Compositing.SplitPass` | ViewfinderProcessor.cs:137-155 | In split mode: the half at the first cut holds the old previous frame; the half at the second cut holds the new converted frame; columns from `2*(width/2)` keep their old output. |
| `Compositing.CompositeRereadingMode` | ViewfinderProcessor.cs:131-155 | The pass as written, with the mode read again at line 146. When both reads agree it is exactly `Composite`. |
| `Compositing.TornModeSwitch` | ViewfinderProcessor.cs:133-148 | A switch from HDR to split between the two reads produces an output that no mode's pass produces. |
| `Compositing.NormalIdempotent` | ViewfinderProcessor.cs:157-160 | Re-running normal mode on an unchanged input leaves both buffers as they were. |
| `Compositing.SplitTwoCycles` | ViewfinderProcessor.cs:126-161 | Two split-screen cycles with consecutive counters converting f1 then f2: f2 lands in the half where the first cycle put the older frame, and f1 in the other. |
| `Compositing.SplitSidesAlternate` | ViewfinderProcessor.cs:122-161 | With one buffer per cycle, successive cycles see consecutive counters. Each cycle's first cut is the previous cycle's second cut, so the sides swap every cycle. |

## Left out

- The handler thread: `HandlerThread`, `Handler.Post`, `RemoveCallbacks` and the `lock`
  regions are not modelled. Each callback is one atomic method call, so the coalescing of
  posted runs shows only as the pending count.
- The intrinsics' arithmetic: the YUV to RGBA conversion, the fixed 0.5 colour matrix and
  the dst-over blend formula are uninterpreted per-pixel functions, fixed at construction.
  That uniform input darkens to half intensity is therefore not proved.
- Allocation types and formats, and the surfaces: `GetInputHdrSurface`, `SetOutputSurface`
  and the listener registration in the processing task constructor are not modelled. `IoSend`
  publishes the output and changes no modelled state; the output after `Run` is what it
  publishes.
- Failures of the intrinsics or of RenderScript itself are not modelled. The two failures
  the model does have, an `IoReceive` with nothing queued and an out-of-range
  `Copy2DRangeFrom`, are proved never to happen in `Run`.
- `Viewfinder.ProcessingTask.OnBufferAvailable`: requires that the input allocation has a
  queued buffer the processing task was not yet told about. This is the event the callback reports;
  a callback without a buffer is not modelled.
- `Allocations.InputAllocation.Enqueue` stands for the camera queueing a buffer. It is not
  part of the source.
- `Allocations.Copy2DRangeFrom`: takes the source and destination to be distinct
  allocations of the same dimensions, as the two RGBA allocations are. Overlapping copies
  within one allocation are not modelled.
- `Viewfinder.ProcessingTask.Run`: the frame counter is an unbounded integer. The field's
  32-bit wrap-around is not modelled in `Run`; `Compositing.ParitySurvivesWrap` shows it
  cannot change a cut point.
- `Viewfinder.ProcessingTask.Run`: reads the mode once per pass. The source reads it again
  at line 146, which matters only when another thread changes it mid-pass (see Findings).

## Findings

| source | as written | input that shows it | evidently intended | confidence | as-written member | corrected member |
|---|---|---|---|---|---|---|
| ViewfinderProcessor.cs:131-148 | `Run` reads `mMode` without the lock before converting (lines 131, 133) and again after (line 146) | `SetRenderMode(1)` from another thread while a mode-2 cycle is between lines 144 and 146: the output gets the darkened previous frame in one half and the new frame in the other, a picture no mode produces | the mode is read once per cycle and one pass is applied consistently | medium, not executed | `Compositing.CompositeRereadingMode` (shown by `Compositing.TornModeSwitch`) | `Compositing.Composite` (with `Compositing.HdrPass`, `Compositing.SplitPass`; used by `Viewfinder.ProcessingTask.RunPass`) |
