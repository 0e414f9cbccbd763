/** Polling an event table by increasing id, with a checkpoint. */
module SqlEventSource {
  import opened Options
  import opened Graph

  /** The Go type a value arrives as. */
  datatype Kind = Int | Int32 | Int64 | Uint | Uint32 | Uint64 | Float32 | Float64 | Bytes | Text | OtherKind

  datatype Value = Value(kind: Kind, number: int)

  predicate Numeric(k: Kind) {
    !k.Bytes? && !k.Text? && !k.OtherKind?
  }

  function ToInt64(v: Value): (r: Option<int>) {
    if Numeric(v.kind) then Some(v.number) else None
  }

  /**
    * Rows per poll, the additional WHERE condition, the id column and the type its values arrive as, the
    * columns asked for, and the columns of the table.
    */
  datatype Config = Config(batch: nat, matches: int -> bool, idColumn: string, idKind: Kind,
                           columns: seq<string>, tableColumns: seq<string>) {
    /** The columns of the result: those asked for, or all. */
    function Selected(): (cols: seq<string>) {
      if |columns| > 0 then columns else tableColumns
    }

    /** The last id can be followed: its column is selected and its values arrive as numbers. */
    predicate Tracked() {
      idColumn in Selected() && Numeric(idKind)
    }
  }

  // ----- the query

  ghost function Pick<T>(s: set<T>): (x: T)
    requires s != {}
    ensures x in s
  {
    var x :| x in s; x
  }

  ghost function Min(s: set<int>): (m: int)
    requires s != {}
    ensures m in s && forall x :: x in s ==> m <= x
  {
    var x := Pick(s);
    if s == {x} then x
    else
      var rest := s - {x};
      assert forall y :: y in s ==> y == x || y in rest;
      var m := Min(rest);
      if x < m then x else m
  }

  ghost predicate Increasing(s: seq<int>) {
    forall i, j :: 0 <= i < j < |s| ==> s[i] < s[j]
  }

  ghost function Sorted(s: set<int>): (r: seq<int>)
    ensures Increasing(r) && forall x :: x in r <==> x in s
  {
    if s == {} then [] else [Min(s)] + Sorted(s - {Min(s)})
  }

  /** Matching rows above the last id. */
  ghost function Pending(cfg: Config, table: set<int>, lastId: int): (r: set<int>) {
    set id | id in table && id > lastId && cfg.matches(id)
  }

  /** The rows a poll gets: the first `batch` pending ids in ascending order. */
  ghost function Query(cfg: Config, table: set<int>, lastId: int): (rows: seq<int>) {
    var all := Sorted(Pending(cfg, table, lastId));
    if |all| <= cfg.batch then all else all[..cfg.batch]
  }

  /** The largest positive id among the rows, or 0. */
  function MaxId(rows: seq<int>): (m: int)
    ensures m >= 0
  {
    if rows == [] then 0
    else
      var m := MaxId(rows[..|rows| - 1]);
      if rows[|rows| - 1] > m then rows[|rows| - 1] else m
  }

  function Advance(cfg: Config, lastId: int, rows: seq<int>): (r: int) {
    if cfg.Tracked() && MaxId(rows) > lastId && MaxId(rows) > 0 then MaxId(rows) else lastId
  }

  // ----- the run as steps

  /** The table, the largest id ever used, the source's last id, the saved checkpoints, all rows sent. */
  datatype State = State(table: set<int>, high: int, lastId: int, saved: set<int>, sent: seq<int>)

  /** A poll completes, or breaks off after some rows; a restarted source may restore a checkpoint. */
  datatype Event =
    | Insert(id: int)
    | Delete(id: int)
    | Poll
    | BrokenPoll(rows: nat)
    | Save
    | Restart
    | Restore(id: int)

  const START := State({}, 0, 0, {}, [])

  ghost predicate Enabled(cfg: Config, s: State, e: Event) {
    match e
    case Insert(id) => id > s.high
    case BrokenPoll(n) => n <= |Query(cfg, s.table, s.lastId)|
    case Restore(id) => id in s.saved
    case _ => true
  }

  ghost function Step(cfg: Config, s: State, e: Event): (t: State)
    requires Enabled(cfg, s, e)
  {
    match e
    case Insert(id) => s.(table := s.table + {id}, high := id)
    case Delete(id) => s.(table := s.table - {id})
    case Poll =>
      var rows := Query(cfg, s.table, s.lastId);
      s.(sent := s.sent + rows, lastId := Advance(cfg, s.lastId, rows))
    case BrokenPoll(n) => s.(sent := s.sent + Query(cfg, s.table, s.lastId)[..n])
    case Save => s.(saved := s.saved + {s.lastId})
    case Restart => s.(lastId := 0)
    case Restore(id) => s.(lastId := id)
  }

  ghost predicate Runs(cfg: Config, s: State, es: seq<Event>)
    decreases es
  {
    es == [] || (Enabled(cfg, s, es[0]) && Runs(cfg, Step(cfg, s, es[0]), es[1..]))
  }

  ghost function After(cfg: Config, s: State, es: seq<Event>): (t: State)
    requires Runs(cfg, s, es)
    decreases es
  {
    if es == [] then s else After(cfg, Step(cfg, s, es[0]), es[1..])
  }

  // ----- nothing is lost

  /** Every matching row up to `x` has been sent. */
  ghost predicate SentUpTo(cfg: Config, s: State, x: int) {
    forall id :: id in s.table && id <= x && cfg.matches(id) ==> id in s.sent
  }

  ghost predicate Inv(cfg: Config, s: State) {
    && (forall id :: id in s.table ==> 0 < id <= s.high)
    && 0 <= s.lastId <= s.high && SentUpTo(cfg, s, s.lastId)
    && forall x :: x in s.saved ==> 0 <= x <= s.high && SentUpTo(cfg, s, x)
  }

  lemma {:induction false} MaxIdLast(rows: seq<int>)
    requires Increasing(rows) && forall i :: 0 <= i < |rows| ==> rows[i] > 0
    ensures MaxId(rows) == if rows == [] then 0 else rows[|rows| - 1]
  {
    if rows != [] {
      MaxIdLast(rows[..|rows| - 1]);
    }
  }

  lemma QueryRows(cfg: Config, table: set<int>, lastId: int)
    ensures var rows := Query(cfg, table, lastId);
            && Increasing(rows)
            && (forall i :: 0 <= i < |rows| ==> rows[i] in Pending(cfg, table, lastId))
            && (rows != [] ==> forall id :: id in Pending(cfg, table, lastId) && id <= rows[|rows| - 1] ==> id in rows)
  {
    var pending := Pending(cfg, table, lastId);
    var all := Sorted(pending);
    var rows := Query(cfg, table, lastId);
    assert rows <= all;
    forall i | 0 <= i < |rows|
      ensures rows[i] in pending
    {
      assert rows[i] == all[i];
    }
    if rows != [] {
      forall id | id in pending && id <= rows[|rows| - 1]
        ensures id in rows
      {
        var i :| 0 <= i < |all| && all[i] == id;
        assert rows[|rows| - 1] == all[|rows| - 1];
        assert i < |rows|;
        assert rows[i] == id;
      }
    }
  }

  lemma PollAdvance(cfg: Config, s: State)
    requires Inv(cfg, s)
    ensures var rows := Query(cfg, s.table, s.lastId);
            Advance(cfg, s.lastId, rows) == if cfg.Tracked() && rows != [] then rows[|rows| - 1] else s.lastId
  {
    var rows := Query(cfg, s.table, s.lastId);
    QueryRows(cfg, s.table, s.lastId);
    assert forall i :: 0 <= i < |rows| ==> rows[i] in s.table && rows[i] > s.lastId;
    MaxIdLast(rows);
  }

  lemma SentMore(cfg: Config, s: State, t: State, x: int)
    requires SentUpTo(cfg, s, x) && t.table == s.table && s.sent <= t.sent
    ensures SentUpTo(cfg, t, x)
  {
    assert forall id :: id in s.sent ==> id in t.sent;
  }

  lemma PollKeeps(cfg: Config, s: State)
    requires Inv(cfg, s)
    ensures Inv(cfg, Step(cfg, s, Poll))
  {
    var t := Step(cfg, s, Poll);
    var rows := Query(cfg, s.table, s.lastId);
    QueryRows(cfg, s.table, s.lastId);
    PollAdvance(cfg, s);
    forall x | x in t.saved
      ensures SentUpTo(cfg, t, x)
    {
      SentMore(cfg, s, t, x);
    }
    SentMore(cfg, s, t, s.lastId);
    if t.lastId != s.lastId {
      assert rows[|rows| - 1] in s.table;
      forall id | id in t.table && id <= t.lastId && cfg.matches(id)
        ensures id in t.sent
      {
        if id > s.lastId {
          assert id in Pending(cfg, s.table, s.lastId);
        }
      }
    }
  }

  lemma StepKeeps(cfg: Config, s: State, e: Event)
    requires Inv(cfg, s) && Enabled(cfg, s, e)
    ensures Inv(cfg, Step(cfg, s, e))
  {
    if e.Poll? {
      PollKeeps(cfg, s);
    } else if e.BrokenPoll? {
      var t := Step(cfg, s, e);
      SentMore(cfg, s, t, s.lastId);
      forall x | x in t.saved
        ensures SentUpTo(cfg, t, x)
      {
        SentMore(cfg, s, t, x);
      }
    }
  }

  lemma {:induction false} RunKeeps(cfg: Config, s: State, es: seq<Event>)
    requires Inv(cfg, s) && Runs(cfg, s, es)
    ensures Inv(cfg, After(cfg, s, es))
    decreases es
  {
    if es != [] {
      StepKeeps(cfg, s, es[0]);
      RunKeeps(cfg, Step(cfg, s, es[0]), es[1..]);
    }
  }

  /**
    * In every run, broken polls, restarts and restored checkpoints included: every matching row up to
    * the last id, or up to any saved checkpoint, has been sent.
    */
  lemma NothingSkipped(cfg: Config, es: seq<Event>)
    requires Runs(cfg, START, es)
    ensures var s := After(cfg, START, es);
            SentUpTo(cfg, s, s.lastId) && forall x :: x in s.saved ==> SentUpTo(cfg, s, x)
  {
    RunKeeps(cfg, START, es);
  }

  // ----- what one poll sends

  /** Of the matching rows above the last id, the lowest ones in order, as many as a batch holds. */
  lemma PollExactly(cfg: Config, s: State)
    ensures var t := Step(cfg, s, Poll);
            && s.sent <= t.sent && t.table == s.table
            && var rows := t.sent[|s.sent|..];
            && |rows| <= cfg.batch && Increasing(rows)
            && (forall i :: 0 <= i < |rows| ==> rows[i] in s.table && rows[i] > s.lastId && cfg.matches(rows[i]))
            && (forall id :: id in s.table && id > s.lastId && cfg.matches(id) && id !in rows ==>
                  |rows| == cfg.batch && forall i :: 0 <= i < |rows| ==> rows[i] < id)
  {
    var t, rows := Step(cfg, s, Poll), Query(cfg, s.table, s.lastId);
    QueryRows(cfg, s.table, s.lastId);
    assert t.sent[|s.sent|..] == rows;
    forall id | id in s.table && id > s.lastId && cfg.matches(id) && id !in rows
      ensures |rows| == cfg.batch && forall i :: 0 <= i < |rows| ==> rows[i] < id
    {
      assert id in Sorted(Pending(cfg, s.table, s.lastId));
    }
  }

  // ----- nothing is sent twice

  /** No broken poll, no restart, no restored checkpoint. */
  predicate Smooth(es: seq<Event>) {
    forall i :: 0 <= i < |es| ==> !es[i].BrokenPoll? && !es[i].Restart? && !es[i].Restore?
  }

  ghost predicate InOrder(s: State) {
    Increasing(s.sent) && forall i :: 0 <= i < |s.sent| ==> s.sent[i] <= s.lastId
  }

  lemma IncreasingConcat(a: seq<int>, b: seq<int>, x: int)
    requires Increasing(a) && Increasing(b)
    requires (forall i :: 0 <= i < |a| ==> a[i] <= x) && forall i :: 0 <= i < |b| ==> b[i] > x
    ensures Increasing(a + b)
  {
  }

  /** The rows of a poll lie above the last id, and the new last id is not below them. */
  lemma PollAbove(cfg: Config, s: State)
    requires cfg.Tracked() && Inv(cfg, s)
    ensures var rows, last := Query(cfg, s.table, s.lastId), Step(cfg, s, Poll).lastId;
            && Increasing(rows) && last >= s.lastId
            && forall i :: 0 <= i < |rows| ==> s.lastId < rows[i] <= last
  {
    QueryRows(cfg, s.table, s.lastId);
    PollAdvance(cfg, s);
  }

  lemma SmoothPoll(cfg: Config, s: State)
    requires cfg.Tracked() && Inv(cfg, s) && InOrder(s)
    ensures InOrder(Step(cfg, s, Poll))
  {
    var t, rows := Step(cfg, s, Poll), Query(cfg, s.table, s.lastId);
    PollAbove(cfg, s);
    IncreasingConcat(s.sent, rows, s.lastId);
    forall i | 0 <= i < |t.sent|
      ensures t.sent[i] <= t.lastId
    {
      assert t.sent[i] == if i < |s.sent| then s.sent[i] else rows[i - |s.sent|];
    }
  }

  lemma SmoothStep(cfg: Config, s: State, e: Event)
    requires cfg.Tracked() && Inv(cfg, s) && InOrder(s) && Enabled(cfg, s, e) && Smooth([e])
    ensures InOrder(Step(cfg, s, e))
  {
    assert !([e][0]).BrokenPoll?;
    if e.Poll? {
      SmoothPoll(cfg, s);
    }
  }

  lemma {:induction false} SmoothRun(cfg: Config, s: State, es: seq<Event>)
    requires cfg.Tracked() && Inv(cfg, s) && InOrder(s) && Runs(cfg, s, es) && Smooth(es)
    ensures InOrder(After(cfg, s, es))
    decreases es
  {
    if es != [] {
      StepKeeps(cfg, s, es[0]);
      SmoothStep(cfg, s, es[0]);
      SmoothRun(cfg, Step(cfg, s, es[0]), es[1..]);
    }
  }

  lemma QueryOne(cfg: Config, id: int)
    requires cfg.batch > 0 && id > 0 && cfg.matches(id)
    ensures Query(cfg, {id}, 0) == [id]
  {
    assert Pending(cfg, {id}, 0) == {id};
    assert {id} - {Min({id})} == {};
    assert Sorted({id}) == [id];
  }

  lemma RunsCons(cfg: Config, s: State, e: Event, es: seq<Event>)
    requires Enabled(cfg, s, e) && Runs(cfg, Step(cfg, s, e), es)
    ensures Runs(cfg, s, [e] + es) && After(cfg, s, [e] + es) == After(cfg, Step(cfg, s, e), es)
  {
    assert ([e] + es)[1..] == es;
  }

  /** An untracked id column makes the same row come again with every poll. */
  lemma UntrackedRepeats(cfg: Config, id: int)
    requires !cfg.Tracked() && cfg.batch > 0 && id > 0 && cfg.matches(id)
    ensures var es := [Insert(id), Poll, Poll];
            Smooth(es) && Runs(cfg, START, es) && After(cfg, START, es).sent == [id, id]
  {
    var s1 := Step(cfg, START, Insert(id));
    assert s1.table == {id};
    QueryOne(cfg, id);
    var s2 := Step(cfg, s1, Poll);
    RunsCons(cfg, s2, Poll, []);
    RunsCons(cfg, s1, Poll, [Poll]);
    RunsCons(cfg, START, Insert(id), [Poll] + [Poll]);
    assert [Insert(id)] + ([Poll] + [Poll]) == [Insert(id), Poll, Poll];
    assert [Poll] + [] == [Poll];
  }

  /**
    * When no poll breaks off and nothing is restored, rows are sent in id order, each once, in every
    * run if and only if the id column is tracked (given a row size and some id that can match).
    */
  lemma SentOnceInOrder(cfg: Config)
    requires cfg.batch > 0 && exists id :: id > 0 && cfg.matches(id)
    ensures (forall es :: Smooth(es) && Runs(cfg, START, es) ==> Increasing(After(cfg, START, es).sent)) <==>
            && cfg.idColumn in (if |cfg.columns| > 0 then cfg.columns else cfg.tableColumns)
            && cfg.idKind != Bytes && cfg.idKind != Text && cfg.idKind != OtherKind
  {
    if cfg.Tracked() {
      forall es | Smooth(es) && Runs(cfg, START, es)
        ensures Increasing(After(cfg, START, es).sent)
      {
        SmoothRun(cfg, START, es);
      }
    } else {
      var id :| id > 0 && cfg.matches(id);
      UntrackedRepeats(cfg, id);
      var sent := After(cfg, START, [Insert(id), Poll, Poll]).sent;
      assert sent[0] == sent[1];
    }
  }

  // ----- everything comes in the end

  ghost predicate AllSent(cfg: Config, s: State) {
    forall id :: id in s.table && cfg.matches(id) ==> id in s.sent
  }

  ghost function Polls(cfg: Config, s: State, k: nat): (t: State)
    decreases k
  {
    if k == 0 then s else Polls(cfg, Step(cfg, s, Poll), k - 1)
  }

  lemma {:induction false} SortedSize(s: set<int>)
    ensures |Sorted(s)| == |s|
  {
    if s != {} {
      SortedSize(s - {Min(s)});
    }
  }

  lemma TakenSize(p: set<int>, rows: seq<int>)
    requires Increasing(rows) && forall i :: 0 <= i < |rows| ==> rows[i] in p
    ensures |p - set id | id in rows| == |p| - |rows|
  {
    var taken := set id | id in rows;
    DistinctSize(rows);
    assert taken <= p;
    assert |p| == |taken| + |p - taken|;
  }

  /** The rows are the first of the pending ones, as many as a poll may take. */
  ghost predicate Takes(cfg: Config, pending: set<int>, rows: seq<int>) {
    && Increasing(rows) && |rows| == (if |pending| <= cfg.batch then |pending| else cfg.batch)
    && (forall i :: 0 <= i < |rows| ==> rows[i] in pending)
    && (rows != [] ==> forall id :: id in pending && id <= rows[|rows| - 1] ==> id in rows)
  }

  lemma QueryTakes(cfg: Config, table: set<int>, lastId: int)
    ensures Takes(cfg, Pending(cfg, table, lastId), Query(cfg, table, lastId))
  {
    QueryRows(cfg, table, lastId);
    SortedSize(Pending(cfg, table, lastId));
  }

  /** What stays pending after rows up to the last one taken. */
  lemma PendingAfter(cfg: Config, table: set<int>, lastId: int, rows: seq<int>)
    requires Takes(cfg, Pending(cfg, table, lastId), rows) && rows != []
    ensures Pending(cfg, table, rows[|rows| - 1]) == Pending(cfg, table, lastId) - set id | id in rows
  {
    var last := rows[|rows| - 1];
    assert forall i :: 0 <= i < |rows| ==> rows[i] <= last;
    assert last in Pending(cfg, table, lastId);
  }

  lemma LeftAfter(cfg: Config, table: set<int>, lastId: int, rows: seq<int>)
    requires Takes(cfg, Pending(cfg, table, lastId), rows)
    ensures var p := Pending(cfg, table, lastId);
            var q := Pending(cfg, table, if rows == [] then lastId else rows[|rows| - 1]);
            |q| == if |p| <= cfg.batch then 0 else |p| - cfg.batch
  {
    if rows != [] {
      PendingAfter(cfg, table, lastId, rows);
      TakenSize(Pending(cfg, table, lastId), rows);
    }
  }

  /** A poll takes as many of the pending rows as it may. */
  lemma PollTakes(cfg: Config, s: State)
    requires Inv(cfg, s) && cfg.Tracked()
    ensures var p, q := Pending(cfg, s.table, s.lastId), Pending(cfg, s.table, Step(cfg, s, Poll).lastId);
            |q| == if |p| <= cfg.batch then 0 else |p| - cfg.batch
  {
    QueryTakes(cfg, s.table, s.lastId);
    PollAdvance(cfg, s);
    LeftAfter(cfg, s.table, s.lastId, Query(cfg, s.table, s.lastId));
  }

  /** As many rows as `k` polls may take. */
  function Room(k: nat, batch: nat): (n: nat) {
    if k == 0 then 0 else Room(k - 1, batch) + batch
  }

  lemma PollLeaves(cfg: Config, s: State, k: nat)
    requires Inv(cfg, s) && cfg.Tracked() && k > 0 && |Pending(cfg, s.table, s.lastId)| <= Room(k, cfg.batch)
    ensures var t := Step(cfg, s, Poll);
            Inv(cfg, t) && t.table == s.table && |Pending(cfg, t.table, t.lastId)| <= Room(k - 1, cfg.batch)
  {
    PollTakes(cfg, s);
    PollKeeps(cfg, s);
  }

  ghost predicate Fits(cfg: Config, s: State, k: nat) {
    Inv(cfg, s) && |Pending(cfg, s.table, s.lastId)| <= Room(k, cfg.batch)
  }

  lemma PollFits(cfg: Config, s: State, k: nat)
    requires cfg.Tracked() && k > 0 && Fits(cfg, s, k)
    ensures Fits(cfg, Step(cfg, s, Poll), k - 1)
  {
    PollLeaves(cfg, s, k);
  }

  lemma {:induction false} PollsFit(cfg: Config, s: State, k: nat)
    requires cfg.Tracked() && Fits(cfg, s, k)
    ensures Fits(cfg, Polls(cfg, s, k), 0) && Polls(cfg, s, k).table == s.table
    decreases k
  {
    if k > 0 {
      PollFits(cfg, s, k);
      PollsFit(cfg, Step(cfg, s, Poll), k - 1);
    }
  }

  /** With the id column tracked, enough polls without new rows between them send every matching row. */
  lemma PollsSendAll(cfg: Config, s: State, k: nat)
    requires Inv(cfg, s) && cfg.Tracked() && |Pending(cfg, s.table, s.lastId)| <= Room(k, cfg.batch)
    ensures AllSent(cfg, Polls(cfg, s, k)) && Polls(cfg, s, k).table == s.table
  {
    PollsFit(cfg, s, k);
    NothingPending(cfg, Polls(cfg, s, k));
  }

  lemma NothingPending(cfg: Config, s: State)
    requires Inv(cfg, s) && |Pending(cfg, s.table, s.lastId)| == 0
    ensures AllSent(cfg, s)
  {
    forall id | id in s.table && cfg.matches(id)
      ensures id in s.sent
    {
      assert id !in Pending(cfg, s.table, s.lastId);
    }
  }

  // ----- the source object

  class EventSource {
    const cfg: Config
    var lastId: int

    constructor (cfg: Config)
      ensures this.cfg == cfg && lastId == 0
    {
      this.cfg := cfg;
      lastId := 0;
    }

    /**
      * One poll over the rows the query returned; `stopAt` rows are sent before a failure, if any.
      * It moves the state `s` of the run by exactly the step of a poll, complete or broken.
      */
    method DoPoll(rows: seq<int>, stopAt: Option<nat>, ghost s: State) returns (sent: seq<int>)
      requires stopAt.Some? ==> stopAt.value <= |rows|
      requires lastId == s.lastId && rows == Query(cfg, s.table, s.lastId)
      modifies this
      ensures s.(sent := s.sent + sent, lastId := lastId) ==
              Step(cfg, s, if stopAt.None? then Poll else BrokenPoll(stopAt.value))
    {
      var maxId := 0;
      sent := [];
      for i := 0 to |rows|
        invariant lastId == old(lastId) && sent == rows[..i]
        invariant stopAt.Some? ==> i <= stopAt.value
        invariant maxId == if cfg.Tracked() then MaxId(rows[..i]) else 0
      {
        if stopAt == Some(i) {
          return;
        }
        assert rows[..i + 1][..i] == rows[..i];
        maxId := TrackId(rows[i], maxId);
        sent := sent + [rows[i]];
      }
      assert rows[..|rows|] == rows;
      if stopAt.Some? {
        return;
      }
      if maxId > 0 && maxId > lastId {
        lastId := maxId;
      }
    }

    /** The columns of one row are gone through for the id. */
    method TrackId(id: int, maxId: int) returns (m: int)
      ensures m == if cfg.Tracked() && id > maxId then id else maxId
    {
      m := maxId;
      var columns := cfg.Selected();
      for j := 0 to |columns|
        invariant m == if cfg.idColumn in columns[..j] && Numeric(cfg.idKind) && id > maxId then id else maxId
      {
        assert columns[..j + 1] == columns[..j] + [columns[j]];
        if columns[j] == cfg.idColumn {
          var n := ToInt64(Value(cfg.idKind, id));
          if n.Some? && n.value > m {
            m := n.value;
          }
        }
      }
      assert columns[..|columns|] == columns;
    }

    /** Taking a checkpoint in state `s` of a run is the step of saving: all up to it has been sent. */
    method GetCheckpoint(ghost s: State) returns (id: int)
      requires lastId == s.lastId
      ensures s.(saved := s.saved + {id}) == Step(cfg, s, Save)
      ensures Inv(cfg, s) ==> SentUpTo(cfg, s, id)
    {
      id := lastId;
    }

    /**
      * Setting a checkpoint taken earlier in the run is the step of restoring it; one whose id is missing
      * or not a number is ignored.
      */
    method SetCheckpoint(checkpoint: Option<Value>, ghost s: State)
      requires lastId == s.lastId
      modifies this
      ensures var id := if checkpoint.Some? then ToInt64(checkpoint.value) else None;
              if id.None? then lastId == s.lastId
              else lastId == id.value &&
                   (id.value in s.saved ==> s.(lastId := lastId) == Step(cfg, s, Restore(id.value)))
      ensures lastId ==
              if checkpoint.None? || checkpoint.value.kind in {Bytes, Text, OtherKind} then s.lastId
              else checkpoint.value.number
    {
      if checkpoint.Some? {
        var id := ToInt64(checkpoint.value);
        if id.Some? {
          lastId := id.value;
        }
      }
    }
  }
}
