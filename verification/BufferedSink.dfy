/** A buffered sink: one writer, and a timer that flushes beside it. */
module BufferedSink {

  datatype Thread = Writer | Timer

  /**
    * The buffer, the batches swapped out in swap order, the batch each thread is writing, the counters,
    * everything accepted, whether the writer still owes a flush, and whether the sink was closed with
    * nothing accepted since.
    */
  datatype State<R> = State(
    buffer: seq<R>, swapped: seq<seq<R>>, writing: map<Thread, seq<R>>,
    output: int, errors: int, accepted: seq<R>, owes: bool, closed: bool)

  /** A flush is a swap under the lock, then the write of the batch outside it. */
  datatype Event<R> =
    | Append(record: R)
    | Swap(thread: Thread)
    | Done(thread: Thread, ok: bool)
    | Close

  function Start<R>(): (s: State<R>) {
    State([], [], map[], 0, 0, [], false, false)
  }

  predicate WriterFree<R>(s: State<R>) {
    !s.owes && Writer !in s.writing
  }

  predicate Enabled<R>(s: State<R>, e: Event<R>) {
    match e
    case Append(_) => WriterFree(s)
    case Swap(t) => t !in s.writing
    case Done(t, _) => t in s.writing
    case Close => WriterFree(s)
  }

  function Step<R>(batch: int, s: State<R>, e: Event<R>): (t: State<R>)
    requires Enabled(s, e)
  {
    match e
    case Append(r) =>
      var buffer := s.buffer + [r];
      s.(buffer := buffer, accepted := s.accepted + [r], owes := |buffer| >= batch, closed := false)
    case Swap(th) =>
      var owes := s.owes && th.Timer?;
      if s.buffer == [] then s.(owes := owes)
      else s.(buffer := [], swapped := s.swapped + [s.buffer], writing := s.writing[th := s.buffer], owes := owes)
    case Done(th, ok) =>
      var n := |s.writing[th]|;
      s.(writing := s.writing - {th},
         output := s.output + (if ok then n else 0), errors := s.errors + (if ok then 0 else n))
    case Close => s.(closed := true, owes := true)
  }

  predicate Runs<R>(batch: int, s: State<R>, es: seq<Event<R>>)
    decreases es
  {
    es == [] || (Enabled(s, es[0]) && Runs(batch, Step(batch, s, es[0]), es[1..]))
  }

  function After<R>(batch: int, s: State<R>, es: seq<Event<R>>): (t: State<R>)
    requires Runs(batch, s, es)
    decreases es
  {
    if es == [] then s else After(batch, Step(batch, s, es[0]), es[1..])
  }

  function Concat<R>(batches: seq<seq<R>>): (r: seq<R>) {
    if batches == [] then [] else Concat(batches[..|batches| - 1]) + batches[|batches| - 1]
  }

  lemma ConcatSnoc<R>(batches: seq<seq<R>>, b: seq<R>)
    ensures Concat(batches + [b]) == Concat(batches) + b
  {
    assert (batches + [b])[..|batches|] == batches;
  }

  function InFlight<R>(s: State<R>): (n: nat) {
    (if Writer in s.writing then |s.writing[Writer]| else 0) + (if Timer in s.writing then |s.writing[Timer]| else 0)
  }

  ghost predicate Inv<R>(batch: int, s: State<R>) {
    && Concat(s.swapped) + s.buffer == s.accepted
    && |s.buffer| <= batch && (!s.owes ==> |s.buffer| < batch)
    && s.output + s.errors + InFlight(s) + |s.buffer| == |s.accepted|
    && (s.closed && !s.owes ==> s.buffer == [])
  }

  lemma AppendKeeps<R>(batch: int, s: State<R>, r: R)
    requires batch >= 1 && Inv(batch, s) && Enabled(s, Append(r))
    ensures Inv(batch, Step(batch, s, Append(r)))
  {
    assert Concat(s.swapped) + (s.buffer + [r]) == Concat(s.swapped) + s.buffer + [r];
  }

  lemma SwapKeeps<R>(batch: int, s: State<R>, th: Thread)
    requires batch >= 1 && Inv(batch, s) && Enabled(s, Swap(th)) && s.buffer != []
    ensures Inv(batch, Step(batch, s, Swap(th)))
  {
    var t := Step(batch, s, Swap(th));
    ConcatSnoc(s.swapped, s.buffer);
    assert Concat(t.swapped) + t.buffer == Concat(t.swapped);
    var other := if th.Writer? then Timer else Writer;
    assert other in t.writing <==> other in s.writing;
    assert InFlight(t) == InFlight(s) + |s.buffer|;
  }

  lemma DoneKeeps<R>(batch: int, s: State<R>, th: Thread, ok: bool)
    requires batch >= 1 && Inv(batch, s) && Enabled(s, Done(th, ok))
    ensures Inv(batch, Step(batch, s, Done(th, ok)))
  {
    var t := Step(batch, s, Done(th, ok));
    assert InFlight(t) == InFlight(s) - |s.writing[th]|;
  }

  lemma StepKeeps<R>(batch: int, s: State<R>, e: Event<R>)
    requires batch >= 1 && Inv(batch, s) && Enabled(s, e)
    ensures Inv(batch, Step(batch, s, e))
  {
    match e
    case Append(r) => AppendKeeps(batch, s, r);
    case Swap(th) =>
      if s.buffer != [] {
        SwapKeeps(batch, s, th);
      }
    case Done(th, ok) => DoneKeeps(batch, s, th, ok);
    case Close =>
  }

  lemma {:induction false} RunKeeps<R>(batch: int, s: State<R>, es: seq<Event<R>>)
    requires batch >= 1 && Inv(batch, s) && Runs(batch, s, es)
    ensures Inv(batch, After(batch, s, es))
    decreases es
  {
    if es != [] {
      StepKeeps(batch, s, es[0]);
      RunKeeps(batch, Step(batch, s, es[0]), es[1..]);
    }
  }

  /**
    * In every interleaving of the writer with the timer: the batches in swap order followed by the
    * buffer are the accepted records in order, the buffer stays within the batch size, and every
    * accepted record is delivered, failed, being written or buffered. Once closed, with nothing
    * accepted since and no flush owed or in flight, every accepted record is counted as output or error.
    */
  lemma NothingLost<R>(batch: int, es: seq<Event<R>>)
    requires batch >= 1 && Runs(batch, Start<R>(), es)
    ensures var s := After(batch, Start<R>(), es);
            && Concat(s.swapped) + s.buffer == s.accepted
            && |s.buffer| <= batch
            && s.output + s.errors + InFlight(s) + |s.buffer| == |s.accepted|
            && (s.closed && !s.owes && s.writing == map[] ==>
                  Concat(s.swapped) == s.accepted && s.output + s.errors == |s.accepted|)
  {
    assert Inv(batch, Start<R>());
    RunKeeps(batch, Start<R>(), es);
    var s := After(batch, Start<R>(), es);
    assert s.buffer == [] ==> Concat(s.swapped) + s.buffer == Concat(s.swapped);
  }

  // ----- the sink object, one call at a time

  class Sink<R> {
    const batchSize: int
    var buffer: seq<R>
    var outputCount: int
    var errorCount: int
    ghost var swapped: seq<seq<R>>
    ghost var accepted: seq<R>
    ghost var closed: bool

    ghost function Now(): (s: State<R>)
      reads this
    {
      State(buffer, swapped, map[], outputCount, errorCount, accepted, false, closed)
    }

    /** A batch size of 0 stands for 1000. */
    constructor (batchSize: int)
      ensures this.batchSize == (if batchSize == 0 then 1000 else batchSize) && Now() == Start()
    {
      this.batchSize := if batchSize == 0 then 1000 else batchSize;
      buffer, outputCount, errorCount := [], 0, 0;
      swapped, accepted, closed := [], [], false;
    }

    /** `ok` is what the batch write will answer. */
    method Flush(ok: bool) returns (failed: bool)
      modifies this
      ensures var s := Step(batchSize, old(Now()), Swap(Writer));
              Now() == if old(buffer) == [] then s else Step(batchSize, s, Done(Writer, ok))
      ensures failed <==> old(buffer) != [] && !ok
      ensures buffer == [] && accepted == old(accepted)
      ensures outputCount == old(outputCount) + if ok then |old(buffer)| else 0
      ensures errorCount == old(errorCount) + if ok then 0 else |old(buffer)|
    {
      if buffer == [] {
        return false;
      }
      var records := buffer;
      buffer, swapped := [], swapped + [records];
      if !ok {
        errorCount := errorCount + |records|;
      } else {
        outputCount := outputCount + |records|;
      }
      assert map[Writer := records] - {Writer} == map[];
      return !ok;
    }

    method Write(record: R, ok: bool) returns (failed: bool)
      modifies this
      ensures var s := Step(batchSize, old(Now()), Append(record));
              if s.owes then
                Now() == Step(batchSize, Step(batchSize, s, Swap(Writer)), Done(Writer, ok)) && failed == !ok
              else Now() == s && !failed
      ensures buffer == if |old(buffer)| + 1 >= batchSize then [] else old(buffer) + [record]
      ensures accepted == old(accepted) + [record]
    {
      buffer, accepted, closed := buffer + [record], accepted + [record], false;
      failed := false;
      if |buffer| >= batchSize {
        failed := Flush(ok);
      }
    }

    method CloseSink(ok: bool) returns (failed: bool)
      modifies this
      ensures closed && buffer == [] && (failed <==> old(buffer) != [] && !ok)
      ensures var s := Step(batchSize, Step(batchSize, old(Now()), Close), Swap(Writer));
              Now() == if old(buffer) == [] then s else Step(batchSize, s, Done(Writer, ok))
    {
      closed := true;
      failed := Flush(ok);
    }
  }
}
