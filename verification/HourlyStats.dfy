/** Hourly statistics of a realtime pipeline: samples added up, buckets emitted. */
module HourlyStats {

  datatype Totals = Totals(collected: int, processed: int, collectionErrors: int, processingErrors: int)

  type StageCounts = map<string, int>

  datatype Sample = Sample(totals: Totals, stages: StageCounts)

  const NOTHING := Totals(0, 0, 0, 0)

  function Plus(a: Totals, b: Totals): (r: Totals) {
    Totals(a.collected + b.collected, a.processed + b.processed,
           a.collectionErrors + b.collectionErrors, a.processingErrors + b.processingErrors)
  }

  function Count(m: StageCounts, name: string): (n: int) {
    if name in m then m[name] else 0
  }

  function Merge(m: StageCounts, d: StageCounts): (r: StageCounts) {
    map name | name in m.Keys + d.Keys :: Count(m, name) + Count(d, name)
  }

  /** The hour a time (in seconds) falls in. */
  function Hour(at: nat): (h: nat) {
    at / 3600
  }

  /** A bucket holds its own totals but only a reference to the stage counts, here a place in `State.maps`. */
  datatype Bucket = Bucket(hour: nat, totals: Totals, samples: nat, stages: nat)

  /** The last of `maps` is the one in use; the buckets emitted are never taken back. */
  datatype State = State(
    hour: nat, totals: Totals, samples: nat, maps: seq<StageCounts>, emitted: seq<Bucket>, clock: nat)

  datatype Event = Add(sample: Sample, at: nat) | Flush(at: nat)

  function Start(at: nat): (s: State) {
    State(Hour(at), NOTHING, 0, [map[]], [], at)
  }

  function FlushNow(s: State): (t: State)
    requires s.maps != []
  {
    if s.samples == 0 then s
    else s.(emitted := s.emitted + [Bucket(s.hour, s.totals, s.samples, |s.maps| - 1)])
  }

  function ResetTo(s: State, hour: nat): (t: State) {
    s.(hour := hour, totals := NOTHING, samples := 0, maps := s.maps + [map[]])
  }

  function Accumulate(s: State, x: Sample): (t: State)
    requires s.maps != []
  {
    var last := |s.maps| - 1;
    s.(totals := Plus(s.totals, x.totals), samples := s.samples + 1,
       maps := s.maps[last := Merge(s.maps[last], x.stages)])
  }

  function Step(s: State, e: Event): (t: State)
    requires s.maps != []
    ensures t.maps != []
  {
    match e
    case Add(x, at) =>
      var s1 := if Hour(at) == s.hour then s else ResetTo(FlushNow(s), Hour(at));
      Accumulate(s1, x).(clock := at)
    case Flush(at) => FlushNow(s).(clock := at)
  }

  function After(at: nat, es: seq<Event>): (s: State)
    ensures s.maps != []
  {
    if es == [] then Start(at) else Step(After(at, es[..|es| - 1]), es[|es| - 1])
  }

  /** Times never go back. */
  ghost predicate Timely(at: nat, es: seq<Event>) {
    && (forall i :: 0 <= i < |es| ==> at <= es[i].at)
    && (forall i, j :: 0 <= i < j < |es| ==> es[i].at <= es[j].at)
  }

  // ----- what an hour's additions come to

  predicate Counts(e: Event, h: nat) {
    e.Add? && Hour(e.at) == h
  }

  function SumTotals(es: seq<Event>, h: nat): (r: Totals) {
    if es == [] then NOTHING
    else
      var t := SumTotals(es[..|es| - 1], h);
      if Counts(es[|es| - 1], h) then Plus(t, es[|es| - 1].sample.totals) else t
  }

  function SumStages(es: seq<Event>, h: nat): (r: StageCounts) {
    if es == [] then map[]
    else
      var m := SumStages(es[..|es| - 1], h);
      if Counts(es[|es| - 1], h) then Merge(m, es[|es| - 1].sample.stages) else m
  }

  function Samples(es: seq<Event>, h: nat): (n: nat) {
    if es == [] then 0 else Samples(es[..|es| - 1], h) + if Counts(es[|es| - 1], h) then 1 else 0
  }

  /** A quantity of the hour's samples, added up. */
  function SumBy(es: seq<Event>, h: nat, get: Sample -> int): (n: int) {
    if es == [] then 0
    else
      SumBy(es[..|es| - 1], h, get) + if Counts(es[|es| - 1], h) then get(es[|es| - 1].sample) else 0
  }

  /** The sums of an hour, quantity by quantity. */
  lemma {:induction false} SumsByQuantity(es: seq<Event>, h: nat)
    ensures var t := SumTotals(es, h);
            && t.collected == SumBy(es, h, (x: Sample) => x.totals.collected)
            && t.processed == SumBy(es, h, (x: Sample) => x.totals.processed)
            && t.collectionErrors == SumBy(es, h, (x: Sample) => x.totals.collectionErrors)
            && t.processingErrors == SumBy(es, h, (x: Sample) => x.totals.processingErrors)
  {
    if es != [] {
      SumsByQuantity(es[..|es| - 1], h);
    }
  }

  /** The stage counts of an hour, stage by stage: the stages its samples name, each with its counts added up. */
  lemma {:induction false} SumsByStage(es: seq<Event>, h: nat, name: string)
    ensures name in SumStages(es, h) <==>
            exists i :: 0 <= i < |es| && Counts(es[i], h) && name in es[i].sample.stages
    ensures name in SumStages(es, h) ==>
              SumStages(es, h)[name] ==
              SumBy(es, h, (x: Sample) => if name in x.stages then x.stages[name] else 0)
    ensures name !in SumStages(es, h) ==>
              SumBy(es, h, (x: Sample) => if name in x.stages then x.stages[name] else 0) == 0
  {
    if es != [] {
      var front, last := es[..|es| - 1], |es| - 1;
      SumsByStage(front, h, name);
      if exists i :: 0 <= i < |front| && Counts(front[i], h) && name in front[i].sample.stages {
        var i :| 0 <= i < |front| && Counts(front[i], h) && name in front[i].sample.stages;
        assert Counts(es[i], h) && name in es[i].sample.stages;
      }
      if exists i :: 0 <= i < |es| && Counts(es[i], h) && name in es[i].sample.stages {
        var i :| 0 <= i < |es| && Counts(es[i], h) && name in es[i].sample.stages;
        assert i < last ==> Counts(front[i], h) && name in front[i].sample.stages;
      }
    }
  }

  // ----- what every run keeps

  /** The k-th bucket is the last one of its hour and holds the hour's sums. */
  ghost predicate Final(s: State, es: seq<Event>, h: nat, k: int) {
    && 0 <= k < |s.emitted|
    && var b := s.emitted[k];
       && b.hour == h && b.totals == SumTotals(es, h) && b.samples == Samples(es, h)
       && b.stages < |s.maps| && s.maps[b.stages] == SumStages(es, h)
       && forall j :: k < j < |s.emitted| ==> s.emitted[j].hour > h
  }

  ghost predicate Closes(s: State, es: seq<Event>, h: nat) {
    exists k :: Final(s, es, h, k)
  }

  ghost predicate CurrentInv(s: State, es: seq<Event>)
    requires s.maps != []
  {
    && s.totals == SumTotals(es, s.hour) && s.samples == Samples(es, s.hour)
    && s.maps[|s.maps| - 1] == SumStages(es, s.hour)
    && s.hour <= Hour(s.clock)
    && forall h :: h > s.hour ==> Samples(es, h) == 0 && SumTotals(es, h) == NOTHING && SumStages(es, h) == map[]
  }

  ghost predicate EmittedInv(s: State, es: seq<Event>) {
    && (forall i :: 0 <= i < |s.emitted| ==>
          && s.emitted[i].hour <= s.hour && Samples(es, s.emitted[i].hour) > 0
          && (if s.emitted[i].hour == s.hour then s.emitted[i].stages == |s.maps| - 1
              else s.emitted[i].stages < |s.maps| - 1))
    && (forall i, j :: 0 <= i < |s.emitted| && 0 <= j < |s.emitted| && s.emitted[i].hour == s.emitted[j].hour ==>
          s.emitted[i].stages == s.emitted[j].stages)
  }

  ghost predicate ClosedInv(s: State, es: seq<Event>) {
    forall h: nat :: h < s.hour && Samples(es, h) > 0 ==> Closes(s, es, h)
  }

  ghost predicate Inv(s: State, es: seq<Event>) {
    s.maps != [] && CurrentInv(s, es) && EmittedInv(s, es) && ClosedInv(s, es)
  }

  lemma SumsSnoc(es: seq<Event>, e: Event, h: nat)
    ensures Samples(es + [e], h) == Samples(es, h) + if Counts(e, h) then 1 else 0
    ensures SumTotals(es + [e], h) ==
            if Counts(e, h) then Plus(SumTotals(es, h), e.sample.totals) else SumTotals(es, h)
    ensures SumStages(es + [e], h) ==
            if Counts(e, h) then Merge(SumStages(es, h), e.sample.stages) else SumStages(es, h)
  {
    assert (es + [e])[..|es|] == es;
  }

  lemma FlushClosed(s: State, es: seq<Event>)
    requires Inv(s, es) && s.samples > 0
    ensures Final(FlushNow(s), es, s.hour, |s.emitted|)
    ensures ClosedInv(FlushNow(s), es) && EmittedInv(FlushNow(s), es)
  {
    var t := FlushNow(s);
    forall h: nat | h < s.hour && Samples(es, h) > 0
      ensures Closes(t, es, h)
    {
      assert Closes(s, es, h);
      var k :| Final(s, es, h, k);
      assert Final(t, es, h, k);
    }
  }

  lemma FlushedInv(s: State, es: seq<Event>)
    requires Inv(s, es)
    ensures Inv(FlushNow(s), es)
  {
    if s.samples > 0 {
      FlushClosed(s, es);
    }
  }

  /** Two histories with the same additions. */
  ghost predicate SameSums(es: seq<Event>, fs: seq<Event>) {
    forall h: nat ::
      Samples(es, h) == Samples(fs, h) && SumTotals(es, h) == SumTotals(fs, h) && SumStages(es, h) == SumStages(fs, h)
  }

  lemma InvSameSums(s: State, es: seq<Event>, fs: seq<Event>)
    requires Inv(s, es) && SameSums(es, fs)
    ensures Inv(s, fs)
  {
    forall h: nat | h < s.hour && Samples(fs, h) > 0
      ensures Closes(s, fs, h)
    {
      assert Closes(s, es, h);
      var k :| Final(s, es, h, k);
      assert Final(s, fs, h, k);
    }
  }

  lemma FlushKeeps(s: State, es: seq<Event>, at: nat)
    requires Inv(s, es) && s.clock <= at
    ensures Inv(Step(s, Flush(at)), es + [Flush(at)])
  {
    FlushedInv(s, es);
    TimePasses(FlushNow(s), es, at);
    forall h: nat
      ensures Samples(es + [Flush(at)], h) == Samples(es, h) && SumTotals(es + [Flush(at)], h) == SumTotals(es, h)
      ensures SumStages(es + [Flush(at)], h) == SumStages(es, h)
    {
      SumsSnoc(es, Flush(at), h);
    }
    InvSameSums(Step(s, Flush(at)), es, es + [Flush(at)]);
  }

  /** Opening a later hour: the old one is closed, the new one is empty. */
  lemma RollKeeps(s: State, es: seq<Event>, hour: nat)
    requires Inv(s, es) && hour > s.hour && hour <= Hour(s.clock)
    ensures Inv(ResetTo(FlushNow(s), hour), es)
  {
    var f := FlushNow(s);
    var t := ResetTo(f, hour);
    if s.samples > 0 {
      FlushClosed(s, es);
    }
    forall h: nat | h < t.hour && Samples(es, h) > 0
      ensures Closes(t, es, h)
    {
      if h < s.hour {
        assert Closes(f, es, h);
        var k :| Final(f, es, h, k);
        assert Final(t, es, h, k);
      } else {
        assert h == s.hour;
        assert Final(t, es, h, |s.emitted|);
      }
    }
  }

  lemma AccumulateKeeps(s: State, es: seq<Event>, e: Event)
    requires Inv(s, es) && e.Add? && Hour(e.at) == s.hour && s.clock <= e.at
    ensures Inv(Accumulate(s, e.sample).(clock := e.at), es + [e])
  {
    var t := Accumulate(s, e.sample).(clock := e.at);
    forall h: nat
      ensures Samples(es + [e], h) == Samples(es, h) + if h == s.hour then 1 else 0
      ensures h != s.hour ==> SumTotals(es + [e], h) == SumTotals(es, h) && SumStages(es + [e], h) == SumStages(es, h)
    {
      SumsSnoc(es, e, h);
    }
    SumsSnoc(es, e, s.hour);
    forall h: nat | h < t.hour && Samples(es + [e], h) > 0
      ensures Closes(t, es + [e], h)
    {
      assert Closes(s, es, h);
      var k :| Final(s, es, h, k);
      assert s.emitted[k].stages < |s.maps| - 1;
      assert Final(t, es + [e], h, k);
    }
  }

  lemma HourMonotone(a: nat, b: nat)
    requires a <= b
    ensures Hour(a) <= Hour(b)
  {
  }

  lemma TimePasses(s: State, es: seq<Event>, at: nat)
    requires Inv(s, es) && s.clock <= at
    ensures Inv(s.(clock := at), es)
  {
    var t := s.(clock := at);
    HourMonotone(s.clock, at);
    forall h: nat | h < t.hour && Samples(es, h) > 0
      ensures Closes(t, es, h)
    {
      assert Closes(s, es, h);
      var k :| Final(s, es, h, k);
      assert Final(t, es, h, k);
    }
  }

  lemma AddLater(s: State, es: seq<Event>, e: Event)
    requires Inv(s, es) && e.Add? && s.clock == e.at && Hour(e.at) != s.hour
    ensures Inv(Step(s, e), es + [e])
  {
    RollKeeps(s, es, Hour(e.at));
    AccumulateKeeps(ResetTo(FlushNow(s), Hour(e.at)), es, e);
  }

  /** The clock before a step does not matter to it. */
  lemma StepClock(s: State, e: Event, at: nat)
    requires s.maps != []
    ensures Step(s.(clock := at), e) == Step(s, e)
  {
  }

  lemma StepKeeps(s: State, es: seq<Event>, e: Event)
    requires Inv(s, es) && s.clock <= e.at
    ensures Inv(Step(s, e), es + [e])
  {
    if e.Flush? {
      FlushKeeps(s, es, e.at);
    } else if Hour(e.at) == s.hour {
      AccumulateKeeps(s, es, e);
    } else {
      TimePasses(s, es, e.at);
      AddLater(s.(clock := e.at), es, e);
      StepClock(s, e, e.at);
    }
  }

  lemma {:induction false} RunKeeps(at: nat, es: seq<Event>)
    requires Timely(at, es)
    ensures Inv(After(at, es), es) && After(at, es).clock == if es == [] then at else es[|es| - 1].at
  {
    if es != [] {
      var front, e := es[..|es| - 1], es[|es| - 1];
      RunKeeps(at, front);
      assert es == front + [e];
      StepKeeps(After(at, front), front, e);
    }
  }

  /**
    * In every run: the last bucket emitted for a closed hour with additions holds exactly the sums of
    * that hour's additions; an hour without additions has no bucket; and every bucket of an hour, last
    * or not, shows a reader the stage counts of the whole hour so far, since all share one map.
    */
  lemma LastBucketIsExact(at: nat, es: seq<Event>, h: nat)
    requires Timely(at, es)
    ensures var s := After(at, es);
            && (h < s.hour && Samples(es, h) > 0 ==> exists k :: Final(s, es, h, k))
            && (Samples(es, h) == 0 ==> forall i :: 0 <= i < |s.emitted| ==> s.emitted[i].hour != h)
            && (forall i :: 0 <= i < |s.emitted| ==> ShowsWholeHour(s, es, s.emitted[i]))
  {
    RunKeeps(at, es);
    var s := After(at, es);
    assert h < s.hour && Samples(es, h) > 0 ==> Closes(s, es, h);
    forall i | 0 <= i < |s.emitted|
      ensures ShowsWholeHour(s, es, s.emitted[i])
    {
      var b := s.emitted[i];
      if b.hour < s.hour {
        assert Closes(s, es, b.hour);
        var k :| Final(s, es, b.hour, k);
        assert s.emitted[k].stages == b.stages;
      }
    }
  }

  ghost predicate ShowsWholeHour(s: State, es: seq<Event>, b: Bucket) {
    b.stages < |s.maps| && s.maps[b.stages] == SumStages(es, b.hour)
  }

  // ----- buckets are snapshots

  /** The bucket holds the sums of its hour before the event at place `n`, a flush or an addition to a later hour. */
  ghost predicate SnapshotAt(es: seq<Event>, n: nat, b: Bucket) {
    && n < |es| && (es[n].Flush? || Hour(es[n].at) > b.hour)
    && b.totals == SumTotals(es[..n], b.hour) && b.samples == Samples(es[..n], b.hour) && b.samples > 0
  }

  ghost predicate Snapshots(es: seq<Event>, places: seq<nat>, bs: seq<Bucket>) {
    && |places| == |bs|
    && (forall i, j :: 0 <= i < j < |places| ==> places[i] < places[j])
    && (forall i :: 0 <= i < |places| ==> SnapshotAt(es, places[i], bs[i]))
  }

  lemma SnapshotsLater(es: seq<Event>, e: Event, places: seq<nat>, bs: seq<Bucket>)
    requires Snapshots(es, places, bs)
    ensures Snapshots(es + [e], places, bs)
  {
    forall i | 0 <= i < |places|
      ensures SnapshotAt(es + [e], places[i], bs[i])
    {
      assert SnapshotAt(es, places[i], bs[i]);
      assert (es + [e])[..places[i]] == es[..places[i]];
    }
  }

  lemma SnapshotAdded(es: seq<Event>, e: Event, places: seq<nat>, bs: seq<Bucket>, b: Bucket)
    requires Snapshots(es, places, bs) && SnapshotAt(es + [e], |es|, b)
    ensures Snapshots(es + [e], places + [|es|], bs + [b])
  {
    SnapshotsLater(es, e, places, bs);
    assert forall i :: 0 <= i < |places| ==> SnapshotAt(es, places[i], bs[i]);
  }

  /** The event emits a bucket: a flush or a change of hour, with something to emit. */
  predicate Emits(s: State, e: Event) {
    s.samples > 0 && (e.Flush? || Hour(e.at) != s.hour)
  }

  lemma StepEmits(s: State, e: Event)
    requires s.maps != []
    ensures Step(s, e).emitted ==
            s.emitted + if Emits(s, e) then [Bucket(s.hour, s.totals, s.samples, |s.maps| - 1)] else []
  {
  }

  lemma HourForward(at: nat, es: seq<Event>)
    requires Timely(at, es) && es != []
    ensures var s := After(at, es[..|es| - 1]); Inv(s, es[..|es| - 1]) && s.hour <= Hour(es[|es| - 1].at)
  {
    var front := es[..|es| - 1];
    RunKeeps(at, front);
    HourMonotone(After(at, front).clock, es[|es| - 1].at);
  }

  /**
    * In every run each bucket, in the order of emission, holds the sums of its hour up to the event
    * that emitted it: the buckets of one hour are cumulative.
    */
  lemma {:induction false} BucketsAreSnapshots(at: nat, es: seq<Event>) returns (places: seq<nat>)
    requires Timely(at, es)
    ensures Snapshots(es, places, After(at, es).emitted)
  {
    if es == [] {
      return [];
    }
    var front, e := es[..|es| - 1], es[|es| - 1];
    assert es == front + [e];
    var s := After(at, front);
    HourForward(at, es);
    StepEmits(s, e);
    places := BucketsAreSnapshots(at, front);
    if Emits(s, e) {
      var b := Bucket(s.hour, s.totals, s.samples, |s.maps| - 1);
      assert SnapshotAt(es, |front|, b);
      SnapshotAdded(front, e, places, s.emitted, b);
      places := places + [|front|];
    } else {
      SnapshotsLater(front, e, places, s.emitted);
      assert s.emitted + [] == s.emitted;
    }
  }

  // ----- when the buckets of an hour may be added up

  /** The samples of all buckets of an hour together. */
  function BucketSamples(bs: seq<Bucket>, h: nat): (n: nat) {
    if bs == [] then 0
    else BucketSamples(bs[..|bs| - 1], h) + if bs[|bs| - 1].hour == h then bs[|bs| - 1].samples else 0
  }

  /** The addition at place `i` belongs to the hour, and up to place `j` no later hour has begun. */
  ghost predicate OpenSince(es: seq<Event>, h: nat, i: int, j: int) {
    && 0 <= i < j <= |es| && Counts(es[i], h)
    && forall k :: i < k < j ==> !(es[k].Add? && Hour(es[k].at) > h)
  }

  ghost predicate OpenFlush(es: seq<Event>, h: nat, i: int, j: int) {
    OpenSince(es, h, i, j) && j < |es| && es[j].Flush?
  }

  /** A flush stands between an addition to the hour and the first addition to a later one. */
  ghost predicate FlushedOpen(es: seq<Event>, h: nat) {
    exists i, j :: OpenFlush(es, h, i, j)
  }

  lemma {:induction false} CountedSamples(es: seq<Event>, h: nat)
    ensures Samples(es, h) > 0 <==> exists i :: 0 <= i < |es| && Counts(es[i], h)
  {
    if es != [] {
      var front := es[..|es| - 1];
      CountedSamples(front, h);
      if exists i :: 0 <= i < |front| && Counts(front[i], h) {
        var i :| 0 <= i < |front| && Counts(front[i], h);
        assert Counts(es[i], h);
      }
      if exists i :: 0 <= i < |es| && Counts(es[i], h) {
        var i :| 0 <= i < |es| && Counts(es[i], h);
        assert i < |front| ==> Counts(front[i], h);
      }
    }
  }

  /** The open hour is the hour of the start, or some addition opened it. */
  lemma {:induction false} OpenedBy(at: nat, es: seq<Event>)
    ensures After(at, es).hour == Hour(at) || Samples(es, After(at, es).hour) > 0
  {
    if es != [] {
      OpenedBy(at, es[..|es| - 1]);
    }
  }

  /** The hour stands open, with something added, exactly when it is the current one and has samples. */
  lemma OpenExactly(at: nat, es: seq<Event>, h: nat)
    requires Timely(at, es)
    ensures (exists i :: OpenSince(es, h, i, |es|)) <==> h == After(at, es).hour && Samples(es, h) > 0
  {
    RunKeeps(at, es);
    var s := After(at, es);
    CountedSamples(es, h);
    if h == s.hour && Samples(es, h) > 0 {
      var i :| 0 <= i < |es| && Counts(es[i], h);
      forall k | i < k < |es| && es[k].Add?
        ensures Hour(es[k].at) <= h
      {
        CountedSamples(es, Hour(es[k].at));
        assert Counts(es[k], Hour(es[k].at));
      }
      assert OpenSince(es, h, i, |es|);
    }
    if exists i :: OpenSince(es, h, i, |es|) {
      var i :| OpenSince(es, h, i, |es|);
      OpenedBy(at, es);
      CountedSamples(es, s.hour);
      HourMonotone(at, es[i].at);
      if s.hour > h {
        var k :| 0 <= k < |es| && Counts(es[k], s.hour);
        NotBefore(at, es, i, k);
      }
    }
  }

  lemma NotBefore(at: nat, es: seq<Event>, i: nat, k: nat)
    requires Timely(at, es) && i < |es| && k < |es| && Hour(es[i].at) < Hour(es[k].at)
    ensures i < k
  {
    if k < i {
      HourMonotone(es[k].at, es[i].at);
    }
  }

  lemma FlushedOpenSnoc(at: nat, es: seq<Event>, e: Event, h: nat)
    requires Timely(at, es)
    ensures FlushedOpen(es + [e], h) <==>
            FlushedOpen(es, h) || (e.Flush? && h == After(at, es).hour && Samples(es, h) > 0)
  {
    var all := es + [e];
    OpenExactly(at, es, h);
    forall i, j | OpenFlush(es, h, i, j)
      ensures OpenFlush(all, h, i, j)
    {
    }
    forall i, j | OpenFlush(all, h, i, j)
      ensures OpenFlush(es, h, i, j) || (j == |es| && OpenSince(es, h, i, |es|))
    {
      assert forall k :: i <= k < j ==> all[k] == es[k];
    }
    if e.Flush? && exists i :: OpenSince(es, h, i, |es|) {
      var i :| OpenSince(es, h, i, |es|);
      assert forall k :: i <= k < |es| ==> all[k] == es[k];
      assert OpenFlush(all, h, i, |es|);
    }
  }

  lemma FlushedHasSamples(es: seq<Event>, h: nat)
    requires FlushedOpen(es, h)
    ensures Samples(es, h) > 0
  {
    var i, j :| OpenFlush(es, h, i, j);
    CountedSamples(es, h);
  }

  /** What the buckets of an hour add up to, before it, while it is open and once it is closed. */
  ghost predicate BucketSum(s: State, es: seq<Event>, h: nat) {
    var n := BucketSamples(s.emitted, h);
    if h > s.hour then n == 0 && !FlushedOpen(es, h)
    else if h == s.hour then FlushedOpen(es, h) <==> n > 0
    else n >= Samples(es, h) && (FlushedOpen(es, h) <==> n > Samples(es, h))
  }

  lemma BucketSamplesMore(bs: seq<Bucket>, b: Bucket, h: nat)
    ensures BucketSamples(bs + [b], h) == BucketSamples(bs, h) + if b.hour == h then b.samples else 0
  {
    assert (bs + [b])[..|bs|] == bs;
  }

  /** What the sums need to know of the state. */
  lemma HourFacts(at: nat, es: seq<Event>, e: Event, h: nat)
    requires Timely(at, es + [e])
    ensures var s := After(at, es);
            && s.samples == Samples(es, s.hour) && s.hour <= Hour(e.at) && (h > s.hour ==> Samples(es, h) == 0)
  {
    assert (es + [e])[..|es|] == es;
    HourForward(at, es + [e]);
  }

  lemma SumFlush(at: nat, es: seq<Event>, e: Event, h: nat)
    requires Timely(at, es + [e]) && Timely(at, es) && BucketSum(After(at, es), es, h) && e.Flush?
    ensures BucketSum(Step(After(at, es), e), es + [e], h)
  {
    var s := After(at, es);
    HourFacts(at, es, e, h);
    BucketSamplesMore(s.emitted, Bucket(s.hour, s.totals, s.samples, |s.maps| - 1), h);
    FlushedOpenSnoc(at, es, e, h);
    SumsSnoc(es, e, h);
  }

  lemma SumSameHour(at: nat, es: seq<Event>, e: Event, h: nat)
    requires Timely(at, es + [e]) && Timely(at, es) && BucketSum(After(at, es), es, h)
    requires e.Add? && Hour(e.at) == After(at, es).hour
    ensures BucketSum(Step(After(at, es), e), es + [e], h)
  {
    FlushedOpenSnoc(at, es, e, h);
    SumsSnoc(es, e, h);
  }

  lemma SumLaterHour(at: nat, es: seq<Event>, e: Event, h: nat)
    requires Timely(at, es + [e]) && Timely(at, es) && BucketSum(After(at, es), es, h)
    requires e.Add? && Hour(e.at) != After(at, es).hour
    ensures BucketSum(Step(After(at, es), e), es + [e], h)
  {
    var s := After(at, es);
    HourFacts(at, es, e, h);
    BucketSamplesMore(s.emitted, Bucket(s.hour, s.totals, s.samples, |s.maps| - 1), h);
    FlushedOpenSnoc(at, es, e, h);
    SumsSnoc(es, e, h);
    if FlushedOpen(es, h) {
      FlushedHasSamples(es, h);
    }
  }

  lemma {:induction false} RunSum(at: nat, es: seq<Event>, h: nat)
    requires Timely(at, es)
    ensures BucketSum(After(at, es), es, h)
  {
    if es != [] {
      var front, e := es[..|es| - 1], es[|es| - 1];
      assert es == front + [e];
      RunSum(at, front, h);
      if e.Flush? {
        SumFlush(at, front, e, h);
      } else if Hour(e.at) == After(at, front).hour {
        SumSameHour(at, front, e, h);
      } else {
        SumLaterHour(at, front, e, h);
      }
    }
  }

  /** The totals of all buckets of an hour together. */
  function BucketTotals(bs: seq<Bucket>, h: nat): (t: Totals) {
    if bs == [] then NOTHING
    else
      var t := BucketTotals(bs[..|bs| - 1], h);
      if bs[|bs| - 1].hour == h then Plus(t, bs[|bs| - 1].totals) else t
  }

  lemma BucketTotalsMore(bs: seq<Bucket>, b: Bucket, h: nat)
    ensures BucketTotals(bs + [b], h) ==
            if b.hour == h then Plus(BucketTotals(bs, h), b.totals) else BucketTotals(bs, h)
  {
    assert (bs + [b])[..|bs|] == bs;
  }

  lemma {:induction false} NothingAdded(es: seq<Event>, h: nat)
    requires Samples(es, h) == 0
    ensures SumTotals(es, h) == NOTHING
  {
    if es != [] {
      NothingAdded(es[..|es| - 1], h);
    }
  }

  /** Without a flush of the open hour, its buckets hold nothing before it closes and its sums after. */
  ghost predicate TotalsSum(s: State, es: seq<Event>, h: nat) {
    !FlushedOpen(es, h) ==> BucketTotals(s.emitted, h) == if h < s.hour then SumTotals(es, h) else NOTHING
  }

  lemma TotalsFact(at: nat, es: seq<Event>, e: Event)
    requires Timely(at, es + [e])
    ensures After(at, es).totals == SumTotals(es, After(at, es).hour)
  {
    assert (es + [e])[..|es|] == es;
    HourForward(at, es + [e]);
  }

  lemma TotalsStep(at: nat, es: seq<Event>, e: Event, h: nat)
    requires Timely(at, es + [e]) && Timely(at, es) && TotalsSum(After(at, es), es, h)
    ensures TotalsSum(Step(After(at, es), e), es + [e], h)
  {
    var s := After(at, es);
    HourFacts(at, es, e, h);
    TotalsFact(at, es, e);
    StepEmits(s, e);
    BucketTotalsMore(s.emitted, Bucket(s.hour, s.totals, s.samples, |s.maps| - 1), h);
    assert s.emitted + [] == s.emitted;
    FlushedOpenSnoc(at, es, e, h);
    SumsSnoc(es, e, h);
    if Samples(es, h) == 0 {
      NothingAdded(es, h);
    }
  }

  lemma {:induction false} RunTotals(at: nat, es: seq<Event>, h: nat)
    requires Timely(at, es)
    ensures TotalsSum(After(at, es), es, h)
  {
    if es != [] {
      var front, e := es[..|es| - 1], es[|es| - 1];
      assert es == front + [e];
      RunTotals(at, front, h);
      TotalsStep(at, front, e, h);
    }
  }

  /**
    * The buckets of a closed hour add up to its additions if and only if no flush came between an
    * addition to that hour and the first addition to a later one, totals included; otherwise they count
    * more samples than there were.
    */
  lemma AddsUpExactly(at: nat, es: seq<Event>, h: nat)
    requires Timely(at, es) && h < After(at, es).hour
    ensures var bs := After(at, es).emitted;
            && BucketSamples(bs, h) >= Samples(es, h)
            && (BucketSamples(bs, h) == Samples(es, h) <==> !FlushedOpen(es, h))
            && (!FlushedOpen(es, h) ==> BucketTotals(bs, h) == SumTotals(es, h))
  {
    RunSum(at, es, h);
    RunTotals(at, es, h);
  }

  lemma StepTwice(x: Sample)
    ensures var s := Step(Step(Step(Start(0), Add(x, 0)), Flush(0)), Add(x, 3600));
            && s.hour == 1 && |s.emitted| == 2 && s.emitted[0].hour == s.emitted[1].hour == 0
            && s.emitted[0].samples == s.emitted[1].samples == 1
  {
    var s1 := Step(Start(0), Add(x, 0));
    assert s1.hour == 0 && s1.samples == 1 && s1.emitted == [];
    var s2 := Step(s1, Flush(0));
    assert s2.hour == 0 && s2.samples == 1 && |s2.emitted| == 1 && s2.emitted[0].samples == 1;
  }

  /** One flush, and the one sample of an hour is counted twice. */
  lemma FlushCountsTwice(x: Sample)
    ensures var es := [Add(x, 0), Flush(0), Add(x, 3600)];
            var s := After(0, es);
            && Timely(0, es) && s.hour == 1 && |s.emitted| == 2
            && s.emitted[0].hour == s.emitted[1].hour == 0
            && s.emitted[0].samples + s.emitted[1].samples == 2 && Samples(es, 0) == 1
  {
    var a, b, c := Add(x, 0), Flush(0), Add(x, 3600);
    assert [] + [a] == [a] && [a] + [b] == [a, b] && [a, b] + [c] == [a, b, c];
    assert After(0, [a, b, c]) == Step(Step(Step(Start(0), a), b), c) by {
      AfterSnoc(0, [], a);
      AfterSnoc(0, [a], b);
      AfterSnoc(0, [a, b], c);
    }
    assert Samples([a, b, c], 0) == 1 by {
      SumsSnoc([], a, 0);
      SumsSnoc([a], b, 0);
      SumsSnoc([a, b], c, 0);
    }
    StepTwice(x);
  }

  // ----- the aggregator object

  lemma AfterSnoc(at: nat, es: seq<Event>, e: Event)
    ensures After(at, es + [e]) == Step(After(at, es), e)
  {
    assert (es + [e])[..|es|] == es;
  }

  class Aggregator {
    var currentHour: nat
    var totals: Totals
    var sampleCount: nat
    var maps: seq<StageCounts>
    var emitted: seq<Bucket>
    ghost var start: nat
    ghost var history: seq<Event>
    ghost var clock: nat

    ghost function Now(): (s: State)
      reads this
    {
      State(currentHour, totals, sampleCount, maps, emitted, clock)
    }

    ghost predicate Valid()
      reads this
    {
      Now() == After(start, history)
    }

    constructor (now: nat)
      ensures Valid() && history == [] && start == now
    {
      currentHour, totals, sampleCount, maps, emitted := Hour(now), NOTHING, 0, [map[]], [];
      start, history, clock := now, [], now;
    }

    method FlushLocked()
      requires maps != []
      modifies this`emitted
      ensures Now() == FlushNow(old(Now()))
    {
      if sampleCount != 0 {
        emitted := emitted + [Bucket(currentHour, totals, sampleCount, |maps| - 1)];
      }
    }

    method ResetLocked(hour: nat)
      modifies this`currentHour, this`totals, this`sampleCount, this`maps
      ensures Now() == ResetTo(old(Now()), hour)
    {
      currentHour, totals, sampleCount, maps := hour, NOTHING, 0, maps + [map[]];
    }

    method AddUp(x: Sample)
      requires maps != []
      modifies this`totals, this`sampleCount, this`maps
      ensures Now() == Accumulate(old(Now()), x)
    {
      totals := Plus(totals, x.totals);
      sampleCount := sampleCount + 1;
      maps := maps[|maps| - 1 := Merge(maps[|maps| - 1], x.stages)];
    }

    method AddSample(x: Sample, now: nat)
      requires Valid()
      modifies this
      ensures Valid() && history == old(history) + [Add(x, now)] && start == old(start)
    {
      AfterSnoc(start, history, Add(x, now));
      ghost var s := Now();
      if Hour(now) != currentHour {
        FlushLocked();
        ResetLocked(Hour(now));
      }
      assert Now() == if Hour(now) == s.hour then s else ResetTo(FlushNow(s), Hour(now));
      AddUp(x);
      history, clock := history + [Add(x, now)], now;
    }

    method ForceFlush(now: nat)
      requires Valid()
      modifies this
      ensures Valid() && history == old(history) + [Flush(now)] && start == old(start)
    {
      AfterSnoc(start, history, Flush(now));
      FlushLocked();
      history, clock := history + [Flush(now)], now;
    }
  }
}
