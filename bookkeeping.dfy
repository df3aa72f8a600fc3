/**
 * The frame bookkeeping of ViewfinderProcessor.ProcessingTask as a value: how many
 * buffers were announced but not yet drained, the frame counter, and how many buffers
 * the input allocation has received. A ProcessingTask's fields follow `Step` on every
 * callback (see Viewfinder.ProcessingTask), so what is proved here about sequences of
 * callbacks holds of the object.
 */
module Bookkeeping {

  datatype Book = Book(pending: nat, counter: int, received: nat)

  /** The two callbacks the processing task receives: a new input buffer is available, or the handler runs it. */
  datatype Event = BufferAvailable | RunCycle

  /** The frame counter the compositing pass of a cycle started in `b` sees (after `counter += pending - 1`). */
  function PassCounter(b: Book): int
  {
    b.counter + b.pending - 1
  }

  /**
   * One callback. OnBufferAvailable counts one more pending buffer; Run receives every
   * pending buffer, zeroes the count and adds `pending - 1`, then 1, to the counter.
   */
  function Step(b: Book, e: Event): (r: Book)
    ensures r.pending + r.received == b.pending + b.received + (if e == BufferAvailable then 1 else 0)
    ensures r.counter - r.received == b.counter - b.received
    ensures e == BufferAvailable ==> r.counter == b.counter && r.received == b.received
    ensures e == RunCycle ==> r.pending == 0 && r.counter == b.counter + b.pending
  {
    match e
    case BufferAvailable => b.(pending := b.pending + 1)
    case RunCycle => Book(0, PassCounter(b) + 1, b.received + b.pending)
  }

  /** The bookkeeping after the callbacks `events`, oldest first. */
  function Replay(b: Book, events: seq<Event>): Book
    decreases |events|
  {
    if events == [] then b else Step(Replay(b, events[..|events| - 1]), events[|events| - 1])
  }

  /** How many input buffers `events` announces. */
  function Arrivals(events: seq<Event>): (n: nat)
    ensures n <= |events|
    decreases |events|
  {
    if events == [] then 0
    else Arrivals(events[..|events| - 1]) + (if events[|events| - 1] == BufferAvailable then 1 else 0)
  }

  /**
   * No announced buffer is lost or received twice: pending plus received grows by exactly
   * the number of announcements, and the frame counter moves exactly as the received count does.
   */
  lemma {:induction false} ReplayConserves(b: Book, events: seq<Event>)
    ensures Replay(b, events).pending + Replay(b, events).received == b.pending + b.received + Arrivals(events)
    ensures Replay(b, events).counter - Replay(b, events).received == b.counter - b.received
    decreases |events|
  {
    if events != [] {
      ReplayConserves(b, events[..|events| - 1]);
    }
  }

  /** `n` BufferAvailable callbacks in a row. */
  function Burst(n: nat): (events: seq<Event>)
    ensures |events| == n && forall i :: 0 <= i < n ==> events[i] == BufferAvailable
  {
    seq(n, _ => BufferAvailable)
  }

  lemma {:induction false} ReplayBurst(b: Book, n: nat)
    ensures Replay(b, Burst(n)) == b.(pending := b.pending + n)
  {
    if n > 0 {
      assert Burst(n)[..n - 1] == Burst(n - 1);
      ReplayBurst(b, n - 1);
    }
  }

  /**
   * Coalescing: however many buffers arrive before the handler runs the processing task, that one
   * cycle receives all of them (so the newest is the one it composites), ends with nothing
   * pending, and advances the counter by their number.
   */
  lemma BurstThenRun(b: Book, n: nat)
    ensures Replay(b, Burst(n) + [RunCycle]) == Book(0, b.counter + b.pending + n, b.received + b.pending + n)
    ensures PassCounter(Replay(b, Burst(n))) == b.counter + b.pending + n - 1
  {
    var events := Burst(n) + [RunCycle];
    assert events[..|events| - 1] == Burst(n);
    ReplayBurst(b, n);
  }

  /** `n` cycles, each announced by exactly one buffer. */
  function OneFrameCycles(n: nat): (events: seq<Event>)
    ensures |events| == 2 * n
    ensures forall i :: 0 <= i < n ==> events[2 * i] == BufferAvailable && events[2 * i + 1] == RunCycle
  {
    if n == 0 then [] else OneFrameCycles(n - 1) + [BufferAvailable, RunCycle]
  }

  /**
   * With one buffer per cycle, k cycles from a drained state advance the counter and the
   * received count by k, and the (k+1)-th cycle's pass sees the counter `counter + k`.
   */
  lemma {:induction false} OneFrameCyclesAdvance(b: Book, k: nat)
    requires b.pending == 0
    ensures Replay(b, OneFrameCycles(k)) == Book(0, b.counter + k, b.received + k)
    ensures PassCounter(Step(Replay(b, OneFrameCycles(k)), BufferAvailable)) == b.counter + k
  {
    if k > 0 {
      var events := OneFrameCycles(k);
      var prefix := OneFrameCycles(k - 1);
      assert events[..|events| - 1] == prefix + [BufferAvailable];
      assert (prefix + [BufferAvailable])[..|prefix|] == prefix;
      OneFrameCyclesAdvance(b, k - 1);
    }
  }
}
