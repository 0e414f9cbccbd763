/** Commands to agents: published at once, or kept for the retry passes that follow a reconnection. */
module PendingCommands {
  import opened Options
  import opened Graph

  /** Commands older than 24 hours are dropped (times in seconds). */
  const DAY := 86400

  /** A command waiting in the queue, with the time it was queued. */
  datatype Entry = Entry(id: Id, created: int)

  /** A retry pass: what is left of its snapshot, and a command published but not yet removed. */
  datatype Pass = Pass(todo: seq<Entry>, posted: Option<Id>)

  datatype State = State(
    submitted: set<Id>, sending: set<Id>, pending: map<Id, int>, published: seq<Id>, dropped: map<Id, int>,
    passes: map<nat, Pass>, clock: int)

  datatype Event =
    | Submit(id: Id)
    | Sent(id: Id)
    | Queued(id: Id, at: int)
    | StartPass(pass: nat, snapshot: seq<Entry>)
    | Drop(pass: nat, at: int)
    | Refused(pass: nat, at: int)
    | Posted(pass: nat, at: int)
    | Removed(pass: nat)
    | EndPass(pass: nat)

  const START := State({}, {}, map[], [], map[], map[], 0)

  /** The queue as a list, each command once, in some order. */
  ghost predicate Lists(entries: seq<Entry>, pending: map<Id, int>) {
    && (forall i, j :: 0 <= i < j < |entries| ==> entries[i].id != entries[j].id)
    && (forall i :: 0 <= i < |entries| ==> entries[i].id in pending && pending[entries[i].id] == entries[i].created)
    && (forall id :: id in pending ==> Entry(id, pending[id]) in entries)
  }

  /** The pass is about to look at a command. */
  predicate AtWork(s: State, p: nat) {
    p in s.passes && s.passes[p].posted.None? && s.passes[p].todo != []
  }

  ghost predicate Enabled(s: State, e: Event) {
    match e
    case Submit(id) => id !in s.submitted
    case Sent(id) => id in s.sending
    case Queued(id, at) => id in s.sending && s.clock <= at
    case StartPass(p, snapshot) => p !in s.passes && Lists(snapshot, s.pending)
    case Drop(p, at) => AtWork(s, p) && s.clock <= at && at - s.passes[p].todo[0].created > DAY
    case Refused(p, at) => AtWork(s, p) && s.clock <= at && at - s.passes[p].todo[0].created <= DAY
    case Posted(p, at) => AtWork(s, p) && s.clock <= at && at - s.passes[p].todo[0].created <= DAY
    case Removed(p) => p in s.passes && s.passes[p].posted.Some?
    case EndPass(p) => p in s.passes && s.passes[p] == Pass([], None)
  }

  ghost function Step(s: State, e: Event): (t: State)
    requires Enabled(s, e)
  {
    match e
    case Submit(id) => s.(submitted := s.submitted + {id}, sending := s.sending + {id})
    case Sent(id) => s.(sending := s.sending - {id}, published := s.published + [id])
    case Queued(id, at) => s.(sending := s.sending - {id}, pending := s.pending[id := at], clock := at)
    case StartPass(p, snapshot) => s.(passes := s.passes[p := Pass(snapshot, None)])
    case Drop(p, at) =>
      var e := s.passes[p].todo[0];
      s.(pending := s.pending - {e.id}, dropped := s.dropped[e.id := at - e.created],
         passes := s.passes[p := Pass(s.passes[p].todo[1..], None)], clock := at)
    case Refused(p, at) => s.(passes := s.passes[p := Pass(s.passes[p].todo[1..], None)], clock := at)
    case Posted(p, at) =>
      var id := s.passes[p].todo[0].id;
      s.(published := s.published + [id], passes := s.passes[p := Pass(s.passes[p].todo[1..], Some(id))], clock := at)
    case Removed(p) =>
      s.(pending := s.pending - {s.passes[p].posted.value}, passes := s.passes[p := Pass(s.passes[p].todo, None)])
    case EndPass(p) => s.(passes := s.passes - {p})
  }

  ghost predicate Runs(s: State, es: seq<Event>)
    decreases es
  {
    es == [] || (Enabled(s, es[0]) && Runs(Step(s, es[0]), es[1..]))
  }

  ghost function After(s: State, es: seq<Event>): (t: State)
    requires Runs(s, es)
    decreases es
  {
    if es == [] then s else After(Step(s, es[0]), es[1..])
  }

  // ----- no command is lost

  ghost predicate Accounted(s: State, id: Id) {
    id in s.sending || id in s.published || id in s.pending || (id in s.dropped && s.dropped[id] > DAY)
  }

  ghost predicate Inv(s: State) {
    && (forall id :: id in s.submitted ==> Accounted(s, id))
    && (forall p :: p in s.passes && s.passes[p].posted.Some? ==> s.passes[p].posted.value in s.published)
    && (forall id :: id in s.dropped ==> s.dropped[id] > DAY)
  }

  lemma StepKeeps(s: State, e: Event)
    requires Inv(s) && Enabled(s, e)
    ensures Inv(Step(s, e))
  {
    var t := Step(s, e);
    forall id | id in t.submitted
      ensures Accounted(t, id)
    {
      assert id in s.submitted ==> Accounted(s, id);
    }
  }

  lemma {:induction false} RunKeeps(s: State, es: seq<Event>)
    requires Inv(s) && Runs(s, es)
    ensures Inv(After(s, es))
    decreases es
  {
    if es != [] {
      StepKeeps(s, es[0]);
      RunKeeps(Step(s, es[0]), es[1..]);
    }
  }

  /**
    * In every interleaving of sends and retry passes, overlapping or not: a submitted command that is
    * no longer being sent is published, waiting, or was dropped at an age of more than 24 hours.
    */
  lemma NoCommandLost(es: seq<Event>, id: Id)
    requires Runs(START, es)
    requires var s := After(START, es); id in s.submitted && id !in s.sending
    ensures var s := After(START, es);
            id in s.published || id in s.pending || (id in s.dropped && s.dropped[id] > 24 * 60 * 60)
  {
    RunKeeps(START, es);
    assert Accounted(After(START, es), id);
  }

  // ----- when nothing is published twice

  /** The pass still has the command to look at, or has published it without removing it yet. */
  ghost predicate Holds(p: Pass, id: Id) {
    p.posted == Some(id) || exists i :: 0 <= i < |p.todo| && p.todo[i].id == id
  }

  /** The command waits and is at most 24 hours old. */
  predicate Young(s: State, id: Id) {
    id in s.pending && s.clock - s.pending[id] <= DAY
  }

  /** No pass under way holds a waiting command that is at most 24 hours old. */
  ghost predicate Clear(s: State) {
    forall p, id :: p in s.passes && Young(s, id) ==> !Holds(s.passes[p], id)
  }

  /** Every pass starts in the clear, as it does when no other pass has anything left to do. */
  ghost predicate Guarded(s: State, es: seq<Event>)
    requires Runs(s, es)
    decreases es
  {
    es == [] || ((es[0].StartPass? ==> Clear(s)) && Guarded(Step(s, es[0]), es[1..]))
  }

  ghost predicate Alone(s: State, p: nat, id: Id) {
    forall q :: q in s.passes && q != p ==> !Holds(s.passes[q], id)
  }

  /** A command a pass may still publish waits, was never published, and is held by no other pass. */
  ghost predicate EntryOk(s: State, p: nat, e: Entry) {
    && e.id in s.submitted && e.id !in s.sending
    && (e.id in s.pending ==> s.pending[e.id] == e.created)
    && (s.clock - e.created <= DAY ==> e.id in s.pending && e.id !in s.published && Alone(s, p, e.id))
  }

  ghost predicate PassOk(s: State, p: nat)
    requires p in s.passes
  {
    var todo := s.passes[p].todo;
    && (forall i, j :: 0 <= i < j < |todo| ==> todo[i].id != todo[j].id)
    && (forall i :: 0 <= i < |todo| ==> s.passes[p].posted != Some(todo[i].id))
    && (forall i :: 0 <= i < |todo| ==> EntryOk(s, p, todo[i]))
    && (s.passes[p].posted.Some? ==> s.passes[p].posted.value in s.published)
  }

  ghost predicate BooksOk(s: State) {
    && Distinct(s.published)
    && s.sending <= s.submitted
    && (forall id :: id in s.sending ==> id !in s.published && id !in s.pending)
    && (forall id :: id in s.published ==> id in s.submitted)
    && (forall id :: id in s.pending ==> id in s.submitted)
    && (forall id :: id in s.pending && id in s.published ==> InHand(s, id))
  }

  ghost predicate OnceInv(s: State) {
    BooksOk(s) && forall p :: p in s.passes ==> PassOk(s, p)
  }

  /** Just published by a pass that has yet to remove it. */
  ghost predicate InHand(s: State, id: Id) {
    exists p :: p in s.passes && s.passes[p].posted == Some(id)
  }

  lemma DistinctSnoc(s: seq<Id>, id: Id)
    requires Distinct(s) && id !in s
    ensures Distinct(s + [id])
  {
  }

  /** A pass that holds no more than before, beside passes that hold no more than before. */
  ghost predicate HoldsLess(s: State, t: State) {
    && t.passes.Keys <= s.passes.Keys
    && forall p, id :: p in t.passes && Holds(t.passes[p], id) ==> Holds(s.passes[p], id)
  }

  /** An entry stays fine when time passes, if nobody takes its command up and it is not settled otherwise. */
  lemma EntryStays(s: State, t: State, p: nat, e: Entry)
    requires EntryOk(s, p, e) && HoldsLess(s, t) && s.clock <= t.clock
    requires s.submitted <= t.submitted && (e.id in t.sending ==> e.id in s.sending)
    requires e.id in t.pending ==> e.id in s.pending && t.pending[e.id] == s.pending[e.id]
    requires t.clock - e.created <= DAY ==>
               (e.id in s.pending ==> e.id in t.pending) && (e.id in t.published ==> e.id in s.published)
    ensures EntryOk(t, p, e)
  {
  }

  /** Looking at the first command of a pass. */
  lemma HoldsTail(p: Pass, posted: Option<Id>)
    requires p.todo != [] && p.posted.None? && (posted == None || posted == Some(p.todo[0].id))
    ensures forall id :: Holds(Pass(p.todo[1..], posted), id) ==> Holds(p, id)
  {
    var q := Pass(p.todo[1..], posted);
    forall id | Holds(q, id)
      ensures Holds(p, id)
    {
      if q.posted == Some(id) {
        assert p.todo[0].id == id;
      } else {
        var i :| 0 <= i < |q.todo| && q.todo[i].id == id;
        assert p.todo[i + 1].id == id;
      }
    }
  }

  lemma NextHoldsLess(s: State, e: Event)
    requires Enabled(s, e) && (e.Drop? || e.Refused? || e.Posted?)
    ensures HoldsLess(s, Step(s, e))
  {
    HoldsTail(s.passes[e.pass], Step(s, e).passes[e.pass].posted);
  }

  /** The commands of a pass after a look are those it had before. */
  lemma TodoBefore(s: State, e: Event, p: nat, i: nat)
    requires Enabled(s, e) && (e.Drop? || e.Refused? || e.Posted?) && p in s.passes
    requires i < |Step(s, e).passes[p].todo|
    ensures var j := if p == e.pass then i + 1 else i;
            j < |s.passes[p].todo| && Step(s, e).passes[p].todo[i] == s.passes[p].todo[j]
  {
  }

  lemma OncePost(s: State, e: Event)
    requires OnceInv(s) && Enabled(s, e) && e.Posted?
    ensures OnceInv(Step(s, e))
  {
    var t := Step(s, e);
    var head := s.passes[e.pass].todo[0];
    assert EntryOk(s, e.pass, head);
    NextHoldsLess(s, e);
    DistinctSnoc(s.published, head.id);
    forall id | id in t.pending && id in t.published
      ensures InHand(t, id)
    {
      if id != head.id {
        assert InHand(s, id);
        var p :| p in s.passes && s.passes[p].posted == Some(id);
        assert t.passes[p] == s.passes[p];
      } else {
        assert t.passes[e.pass].posted == Some(id);
      }
    }
    forall p | p in t.passes
      ensures PassOk(t, p)
    {
      PostedPass(s, e, p);
    }
  }

  lemma PostedPass(s: State, e: Event, p: nat)
    requires OnceInv(s) && Enabled(s, e) && e.Posted? && p in s.passes
    ensures PassOk(Step(s, e), p)
  {
    var t := Step(s, e);
    var head := s.passes[e.pass].todo[0];
    assert PassOk(s, e.pass) && PassOk(s, p) && EntryOk(s, e.pass, head);
    NextHoldsLess(s, e);
    forall i | 0 <= i < |t.passes[p].todo|
      ensures EntryOk(t, p, t.passes[p].todo[i])
    {
      TodoBefore(s, e, p, i);
      var x := t.passes[p].todo[i];
      assert Holds(s.passes[p], x.id);
      assert p != e.pass ==> !Holds(s.passes[p], head.id);
      assert x.id != head.id;
      EntryStays(s, t, p, x);
    }
  }

  lemma OnceNext(s: State, e: Event)
    requires OnceInv(s) && Enabled(s, e) && (e.Drop? || e.Refused?)
    ensures OnceInv(Step(s, e))
  {
    var t := Step(s, e);
    NextHoldsLess(s, e);
    forall id | InHand(s, id)
      ensures InHand(t, id)
    {
      var p :| p in s.passes && s.passes[p].posted == Some(id);
      assert t.passes[p] == s.passes[p];
    }
    forall p | p in t.passes
      ensures PassOk(t, p)
    {
      NextPass(s, e, p);
    }
  }

  lemma NextPass(s: State, e: Event, p: nat)
    requires OnceInv(s) && Enabled(s, e) && (e.Drop? || e.Refused?) && p in s.passes
    ensures PassOk(Step(s, e), p)
  {
    var t := Step(s, e);
    var head := s.passes[e.pass].todo[0];
    assert PassOk(s, e.pass) && PassOk(s, p) && EntryOk(s, e.pass, head);
    NextHoldsLess(s, e);
    forall i | 0 <= i < |t.passes[p].todo|
      ensures EntryOk(t, p, t.passes[p].todo[i])
    {
      TodoBefore(s, e, p, i);
      var x := t.passes[p].todo[i];
      assert EntryOk(s, p, x);
      EntryStays(s, t, p, x);
    }
  }

  lemma OnceRemoved(s: State, e: Event)
    requires OnceInv(s) && Enabled(s, e) && e.Removed?
    ensures OnceInv(Step(s, e))
  {
    var t := Step(s, e);
    var id := s.passes[e.pass].posted.value;
    assert HoldsLess(s, t);
    forall x | x in t.pending && x in t.published
      ensures InHand(t, x)
    {
      assert InHand(s, x);
      var p :| p in s.passes && s.passes[p].posted == Some(x);
      assert t.passes[p] == s.passes[p];
    }
    forall p | p in t.passes
      ensures PassOk(t, p)
    {
      assert PassOk(s, p) && t.passes[p].todo == s.passes[p].todo;
      forall i | 0 <= i < |t.passes[p].todo|
        ensures EntryOk(t, p, t.passes[p].todo[i])
      {
        var x := s.passes[p].todo[i];
        assert EntryOk(s, p, x);
        assert Holds(s.passes[e.pass], id);
        EntryStays(s, t, p, x);
      }
    }
  }

  lemma OnceSend(s: State, e: Event)
    requires OnceInv(s) && Enabled(s, e) && (e.Submit? || e.Sent? || e.Queued?)
    ensures OnceInv(Step(s, e))
  {
    var t := Step(s, e);
    assert t.passes == s.passes && HoldsLess(s, t);
    if e.Sent? {
      DistinctSnoc(s.published, e.id);
    }
    forall p | p in t.passes
      ensures PassOk(t, p)
    {
      assert PassOk(s, p);
      forall i | 0 <= i < |t.passes[p].todo|
        ensures EntryOk(t, p, t.passes[p].todo[i])
      {
        assert EntryOk(s, p, s.passes[p].todo[i]);
        EntryStays(s, t, p, s.passes[p].todo[i]);
      }
    }
    forall id | InHand(s, id)
      ensures InHand(t, id)
    {
      var p :| p in s.passes && s.passes[p].posted == Some(id);
      assert t.passes[p] == s.passes[p];
    }
    assert forall id :: id in t.pending && id in t.published ==> id in s.pending && id in s.published;
  }

  lemma OnceEnds(s: State, e: Event)
    requires OnceInv(s) && Enabled(s, e) && e.EndPass?
    ensures OnceInv(Step(s, e))
  {
    var t := Step(s, e);
    assert HoldsLess(s, t);
    forall id | InHand(s, id)
      ensures InHand(t, id)
    {
      var p :| p in s.passes && s.passes[p].posted == Some(id);
      assert t.passes[p] == s.passes[p];
    }
    forall p | p in t.passes
      ensures PassOk(t, p)
    {
      assert PassOk(s, p);
      forall i | 0 <= i < |t.passes[p].todo|
        ensures EntryOk(t, p, t.passes[p].todo[i])
      {
        EntryStays(s, t, p, s.passes[p].todo[i]);
      }
    }
  }

  /** In the clear, what the passes under way have left to look at is too old to be published. */
  lemma ClearIsOld(s: State, p: nat, i: nat)
    requires OnceInv(s) && Clear(s) && p in s.passes && i < |s.passes[p].todo|
    ensures s.clock - s.passes[p].todo[i].created > DAY
  {
    var x := s.passes[p].todo[i];
    assert PassOk(s, p) && EntryOk(s, p, x) && Holds(s.passes[p], x.id);
    assert !Young(s, x.id);
  }

  lemma OnceStart(s: State, e: Event)
    requires OnceInv(s) && Enabled(s, e) && e.StartPass? && Clear(s)
    ensures OnceInv(Step(s, e))
  {
    var t := Step(s, e);
    forall id | InHand(s, id)
      ensures InHand(t, id)
    {
      var p :| p in s.passes && s.passes[p].posted == Some(id);
      assert t.passes[p] == s.passes[p];
    }
    forall p | p in s.passes
      ensures PassOk(t, p)
    {
      assert PassOk(s, p) && t.passes[p] == s.passes[p];
      forall i | 0 <= i < |t.passes[p].todo|
        ensures EntryOk(t, p, t.passes[p].todo[i])
      {
        assert EntryOk(s, p, s.passes[p].todo[i]);
        ClearIsOld(s, p, i);
      }
    }
    forall i | 0 <= i < |e.snapshot|
      ensures EntryOk(t, e.pass, e.snapshot[i])
    {
      SnapshotEntry(s, e, i);
    }
  }

  lemma SnapshotEntry(s: State, e: Event, i: nat)
    requires OnceInv(s) && Enabled(s, e) && e.StartPass? && Clear(s) && i < |e.snapshot|
    ensures EntryOk(Step(s, e), e.pass, e.snapshot[i])
  {
    var t := Step(s, e);
    var x := e.snapshot[i];
    assert x.id in s.pending && s.pending[x.id] == x.created;
    if t.clock - x.created <= DAY {
      assert Young(s, x.id);
      forall q | q in t.passes && q != e.pass
        ensures !Holds(t.passes[q], x.id)
      {
        assert t.passes[q] == s.passes[q];
      }
      assert forall p :: p in s.passes ==> !Holds(s.passes[p], x.id);
      assert !InHand(s, x.id);
    }
  }

  lemma OnceStep(s: State, e: Event)
    requires OnceInv(s) && Enabled(s, e) && (e.StartPass? ==> Clear(s))
    ensures OnceInv(Step(s, e))
  {
    match e
    case Posted(_, _) => OncePost(s, e);
    case Drop(_, _) => OnceNext(s, e);
    case Refused(_, _) => OnceNext(s, e);
    case Removed(_) => OnceRemoved(s, e);
    case StartPass(_, _) => OnceStart(s, e);
    case EndPass(_) => OnceEnds(s, e);
    case _ => OnceSend(s, e);
  }

  lemma {:induction false} OnceRun(s: State, es: seq<Event>)
    requires OnceInv(s) && Runs(s, es) && Guarded(s, es)
    ensures OnceInv(After(s, es))
    decreases es
  {
    if es != [] {
      OnceStep(s, es[0]);
      OnceRun(Step(s, es[0]), es[1..]);
    }
  }

  /** If every pass starts in the clear, no command is published twice. */
  lemma PublishedOnce(es: seq<Event>)
    requires Runs(START, es) && Guarded(START, es)
    ensures Distinct(After(START, es).published)
  {
    OnceRun(START, es);
  }

  lemma RunsCons(s: State, e: Event, es: seq<Event>)
    requires Enabled(s, e) && Runs(Step(s, e), es)
    ensures Runs(s, [e] + es) && After(s, [e] + es) == After(Step(s, e), es)
  {
    assert ([e] + es)[1..] == es;
  }

  lemma {:induction false} RunsSnoc(s: State, es: seq<Event>, e: Event)
    requires Runs(s, es) && Enabled(After(s, es), e)
    ensures Runs(s, es + [e]) && After(s, es + [e]) == Step(After(s, es), e)
    decreases es
  {
    if es == [] {
      assert es + [e] == [e];
      RunsCons(s, e, []);
      assert [e] + [] == [e];
    } else {
      RunsSnoc(Step(s, es[0]), es[1..], e);
      assert (es + [e])[1..] == es[1..] + [e];
    }
  }

  lemma {:induction false} RunsAppend(s: State, es: seq<Event>, fs: seq<Event>)
    requires Runs(s, es) && Runs(After(s, es), fs)
    ensures Runs(s, es + fs) && After(s, es + fs) == After(After(s, es), fs)
    decreases es
  {
    if es == [] {
      assert es + fs == fs;
    } else {
      RunsAppend(Step(s, es[0]), es[1..], fs);
      assert (es + fs)[1..] == es[1..] + fs;
    }
  }

  /** Two overlapping passes publish the same waiting command twice. */
  lemma OverlapPublishesTwice(id: Id)
    ensures var snap := [Entry(id, 0)];
            var es := [Submit(id)] + ([Queued(id, 0)] + ([StartPass(0, snap)] + ([StartPass(1, snap)] +
                      ([Posted(0, 0)] + ([Posted(1, 0)] + [])))));
            Runs(START, es) && After(START, es).published == [id, id]
  {
    var snap := [Entry(id, 0)];
    var s1 := Step(START, Submit(id));
    var s2 := Step(s1, Queued(id, 0));
    assert s2.pending == map[id := 0];
    assert snap[0] == Entry(id, 0) && Lists(snap, s2.pending);
    var s3 := Step(s2, StartPass(0, snap));
    var s4 := Step(s3, StartPass(1, snap));
    var s5 := Step(s4, Posted(0, 0));
    var s6 := Step(s5, Posted(1, 0));
    RunsCons(s5, Posted(1, 0), []);
    RunsCons(s4, Posted(0, 0), [Posted(1, 0)] + []);
    RunsCons(s3, StartPass(1, snap), [Posted(0, 0)] + ([Posted(1, 0)] + []));
    RunsCons(s2, StartPass(0, snap), [StartPass(1, snap)] + ([Posted(0, 0)] + ([Posted(1, 0)] + [])));
    var passes := [StartPass(0, snap)] + ([StartPass(1, snap)] + ([Posted(0, 0)] + ([Posted(1, 0)] + [])));
    RunsCons(s1, Queued(id, 0), passes);
    RunsCons(START, Submit(id), [Queued(id, 0)] + passes);
  }

  ghost predicate NoStarts(es: seq<Event>) {
    forall i :: 0 <= i < |es| ==> !es[i].StartPass?
  }

  lemma {:induction false} NoStartsGuarded(s: State, es: seq<Event>)
    requires Runs(s, es) && NoStarts(es)
    ensures Guarded(s, es)
    decreases es
  {
    if es != [] {
      NoStartsGuarded(Step(s, es[0]), es[1..]);
    }
  }

  /** Only the pass `p` has moved on, at no cost of time. */
  ghost predicate OnlyMoved(s: State, t: State, p: nat) {
    && t.clock == s.clock && t.passes.Keys == s.passes.Keys
    && forall q :: q in s.passes && q != p ==> t.passes[q] == s.passes[q]
  }

  /** The pass `p` has moved on to its command at place `i`, and nothing else has happened. */
  ghost predicate Led(s: State, t: State, p: nat, i: nat)
    requires p in s.passes && i <= |s.passes[p].todo|
  {
    && OnlyMoved(s, t, p) && t.published == s.published
    && t.passes[p] == Pass(s.passes[p].todo[i..], None)
  }

  /** What a pass does to leave out a command. */
  function Skip(s: State, p: nat): (e: Event)
    requires AtWork(s, p)
  {
    if s.clock - s.passes[p].todo[0].created > DAY then Drop(p, s.clock) else Refused(p, s.clock)
  }

  lemma SkipLeads(s: State, p: nat)
    requires AtWork(s, p)
    ensures Enabled(s, Skip(s, p)) && Led(s, Step(s, Skip(s, p)), p, 1) && !Skip(s, p).StartPass?
  {
  }

  lemma LedOn(s: State, t: State, u: State, p: nat, i: nat)
    requires p in s.passes && i < |s.passes[p].todo| && Led(s, t, p, 1) && Led(t, u, p, i)
    ensures Led(s, u, p, i + 1)
  {
    assert s.passes[p].todo[1..][i..] == s.passes[p].todo[i + 1..];
  }

  /** A pass can be led to any of its commands without publishing anything. */
  lemma {:induction false} LeadTo(s: State, p: nat, i: nat) returns (es: seq<Event>)
    requires p in s.passes && s.passes[p].posted.None? && i <= |s.passes[p].todo|
    ensures Runs(s, es) && NoStarts(es) && Led(s, After(s, es), p, i)
    decreases i
  {
    if i == 0 {
      assert s.passes[p].todo[0..] == s.passes[p].todo;
      return [];
    }
    var e := Skip(s, p);
    SkipLeads(s, p);
    var t := Step(s, e);
    var rest := LeadTo(t, p, i - 1);
    RunsCons(s, e, rest);
    LedOn(s, t, After(t, rest), p, i - 1);
    es := [e] + rest;
  }

  /** A pass that has published a command can remove it. */
  lemma Settle(s: State, p: nat) returns (es: seq<Event>)
    requires p in s.passes
    ensures Runs(s, es) && NoStarts(es) && Led(s, After(s, es), p, 0)
  {
    es := [];
    assert s.passes[p].todo[0..] == s.passes[p].todo;
    if s.passes[p].posted.Some? {
      RunsCons(s, Removed(p), []);
      assert [Removed(p)] + [] == [Removed(p)];
      es := [Removed(p)];
    }
  }

  lemma PublishNext(s: State, p: nat)
    requires AtWork(s, p) && s.clock - s.passes[p].todo[0].created <= DAY
    ensures var e := Posted(p, s.clock);
            && Enabled(s, e) && OnlyMoved(s, Step(s, e), p)
            && Step(s, e).published == s.published + [s.passes[p].todo[0].id]
  {
  }

  /** A pass that has a command to look at can publish it next, if the command is not too old. */
  lemma PublishHeld(s: State, p: nat, i: nat) returns (es: seq<Event>)
    requires p in s.passes && i < |s.passes[p].todo| && s.clock - s.passes[p].todo[i].created <= DAY
    ensures Runs(s, es) && NoStarts(es)
    ensures var t := After(s, es);
            OnlyMoved(s, t, p) && t.published == s.published + [s.passes[p].todo[i].id]
  {
    var first := Settle(s, p);
    var t := After(s, first);
    var lead := LeadTo(t, p, i);
    var u := After(t, lead);
    RunsAppend(s, first, lead);
    assert u.passes[p].todo[0] == s.passes[p].todo[i];
    PublishNext(u, p);
    RunsSnoc(s, first + lead, Posted(p, u.clock));
    es := first + lead + [Posted(p, u.clock)];
  }

  lemma RepeatNotDistinct(xs: seq<Id>, id: Id)
    requires id in xs
    ensures !Distinct(xs + [id])
  {
    var i :| 0 <= i < |xs| && xs[i] == id;
    assert (xs + [id])[i] == (xs + [id])[|xs|];
  }

  /** A pass that starts beside one holding a young waiting command can lead to publishing it twice. */
  lemma SharedTwice(s: State, q: nat, snap: seq<Entry>, p: nat, id: Id) returns (es: seq<Event>)
    requires OnceInv(s) && Enabled(s, StartPass(q, snap)) && p in s.passes
    requires Young(s, id) && Holds(s.passes[p], id)
    ensures var t := Step(s, StartPass(q, snap));
            Runs(t, es) && NoStarts(es) && !Distinct(After(t, es).published)
  {
    var t := Step(s, StartPass(q, snap));
    assert PassOk(s, p) && p != q;
    assert Entry(id, s.pending[id]) in snap;
    var j :| 0 <= j < |snap| && snap[j] == Entry(id, s.pending[id]);
    es := PublishHeld(t, q, j);
    var u := After(t, es);
    assert u.passes[p] == s.passes[p];
    if s.passes[p].posted == Some(id) {
      RepeatNotDistinct(s.published, id);
    } else {
      var i :| 0 <= i < |s.passes[p].todo| && s.passes[p].todo[i].id == id;
      assert EntryOk(s, p, s.passes[p].todo[i]);
      var more := PublishHeld(u, p, i);
      RunsAppend(t, es, more);
      RepeatNotDistinct(u.published, id);
      es := es + more;
    }
  }

  ghost predicate NeverTwice(s: State) {
    forall es :: Runs(s, es) && NoStarts(es) ==> Distinct(After(s, es).published)
  }

  /**
    * Exactly when a pass may start: after any run whose passes started in the clear, starting one more
    * leaves no way of publishing a command twice, without further passes, if and only if it starts in
    * the clear.
    */
  lemma StartSafeExactly(es: seq<Event>, q: nat, snap: seq<Entry>)
    requires Runs(START, es) && Guarded(START, es) && Enabled(After(START, es), StartPass(q, snap))
    ensures var s := After(START, es); NeverTwice(Step(s, StartPass(q, snap))) <==> Clear(s)
  {
    var s := After(START, es);
    var t := Step(s, StartPass(q, snap));
    OnceRun(START, es);
    if Clear(s) {
      OnceStep(s, StartPass(q, snap));
      forall fs | Runs(t, fs) && NoStarts(fs)
        ensures Distinct(After(t, fs).published)
      {
        NoStartsGuarded(t, fs);
        OnceRun(t, fs);
      }
    } else {
      var p, id :| p in s.passes && Young(s, id) && Holds(s.passes[p], id);
      var fs := SharedTwice(s, q, snap, p, id);
    }
  }

  // ----- the service object

  /** What a pass does with one command: dropped when too old, else published and removed, or left waiting. */
  function StepsFor(e: Entry, ok: bool, now: int): (es: seq<Event>) {
    if now - e.created > DAY then [Drop(0, now)]
    else if ok then [Posted(0, now), Removed(0)]
    else [Refused(0, now)]
  }

  /** What a pass does with its first `n` commands, given the answers of the publisher and the times. */
  function PassSteps(entries: seq<Entry>, ok: nat -> bool, time: nat -> int, n: nat): (es: seq<Event>)
    requires n <= |entries|
  {
    if n == 0 then []
    else PassSteps(entries, ok, time, n - 1) + StepsFor(entries[n - 1], ok(n - 1), time(n - 1))
  }

  lemma PassOneMore(entries: seq<Entry>, ok: nat -> bool, time: nat -> int, i: nat, es: seq<Event>)
    requires i < |entries|
    ensures es + PassSteps(entries, ok, time, i) + StepsFor(entries[i], ok(i), time(i)) ==
            es + PassSteps(entries, ok, time, i + 1)
  {
  }

  ghost predicate Forward(time: nat -> int) {
    forall i, j :: i <= j ==> time(i) <= time(j)
  }

  lemma Replaced(p: Pass, q: Pass)
    ensures map[0 := p][0 := q] == map[0 := q]
  {
  }

  class RedisService {
    var pendingCommands: map<Id, int>
    ghost var submitted: set<Id>
    ghost var published: seq<Id>
    ghost var dropped: map<Id, int>
    ghost var clock: int

    ghost function Now(): (s: State)
      reads this
    {
      State(submitted, {}, pendingCommands, published, dropped, map[], clock)
    }

    /** The state in the middle of a retry pass. */
    ghost function During(todo: seq<Entry>): (s: State)
      reads this
    {
      Now().(passes := map[0 := Pass(todo, None)])
    }

    constructor ()
      ensures Now() == START
    {
      pendingCommands, submitted, published, dropped, clock := map[], {}, [], map[], 0;
    }

    /** `ok` is whether publishing works; otherwise the command waits. */
    method SendCommand(id: Id, ok: bool, now: int)
      requires id !in submitted && clock <= now
      modifies this
      ensures Now() == Step(Step(old(Now()), Submit(id)), if ok then Sent(id) else Queued(id, now))
      ensures published == (if ok then old(published) + [id] else old(published))
      ensures pendingCommands == (if ok then old(pendingCommands) else old(pendingCommands)[id := now])
    {
      submitted := submitted + {id};
      assert {} + {id} - {id} == {};
      if !ok {
        pendingCommands := pendingCommands[id := now];
        clock := now;
      } else {
        published := published + [id];
      }
    }

    /** The waiting commands in any order. */
    method Snapshot() returns (entries: seq<Entry>)
      ensures Lists(entries, pendingCommands)
    {
      entries := [];
      var todo := pendingCommands.Keys;
      while todo != {}
        invariant todo <= pendingCommands.Keys
        invariant forall i, j :: 0 <= i < j < |entries| ==> entries[i].id != entries[j].id
        invariant forall i :: 0 <= i < |entries| ==>
          && entries[i].id in pendingCommands && entries[i].id !in todo
          && pendingCommands[entries[i].id] == entries[i].created
        invariant forall id :: id in pendingCommands && id !in todo ==> Entry(id, pendingCommands[id]) in entries
        decreases todo
      {
        var id :| id in todo;
        entries := entries + [Entry(id, pendingCommands[id])];
        todo := todo - {id};
      }
    }

    /** One command of a pass; the state is moved by exactly its steps. */
    method Retry(e: Entry, ok: bool, now: int, ghost s: State, ghost es: seq<Event>, ghost todo: seq<Entry>)
      requires Runs(s, es) && After(s, es) == During([e] + todo) && clock <= now
      modifies this
      ensures Runs(s, es + StepsFor(e, ok, now)) && After(s, es + StepsFor(e, ok, now)) == During(todo)
      ensures clock == now
      ensures published == if now - e.created <= 24 * 60 * 60 && ok then old(published) + [e.id] else old(published)
      ensures pendingCommands ==
              if now - e.created > 24 * 60 * 60 || ok then old(pendingCommands) - {e.id} else old(pendingCommands)
    {
      assert ([e] + todo)[1..] == todo;
      Replaced(Pass([e] + todo, None), Pass(todo, None));
      clock := now;
      if now - e.created > DAY {
        RunsSnoc(s, es, Drop(0, now));
        pendingCommands := pendingCommands - {e.id};
        dropped := dropped[e.id := now - e.created];
      } else if !ok {
        RunsSnoc(s, es, Refused(0, now));
      } else {
        RunsSnoc(s, es, Posted(0, now));
        RunsSnoc(s, es + [Posted(0, now)], Removed(0));
        assert es + [Posted(0, now)] + [Removed(0)] == es + [Posted(0, now), Removed(0)];
        published := published + [e.id];
        pendingCommands := pendingCommands - {e.id};
        Replaced(Pass([e] + todo, None), Pass(todo, Some(e.id)));
        Replaced(Pass(todo, Some(e.id)), Pass(todo, None));
      }
    }

    /** The commands of a pass one after the other. */
    method RetryAll(commands: seq<Entry>, ok: nat -> bool, time: nat -> int, ghost s: State, ghost es: seq<Event>)
      requires Runs(s, es) && After(s, es) == During(commands) && clock <= time(0) && Forward(time)
      modifies this
      ensures var all := es + PassSteps(commands, ok, time, |commands|);
              Runs(s, all) && After(s, all) == During([])
    {
      assert commands[0..] == commands && es + [] == es;
      ghost var done := es;
      for i := 0 to |commands|
        invariant clock <= time(i) && done == es + PassSteps(commands, ok, time, i)
        invariant Runs(s, done) && After(s, done) == During(commands[i..])
      {
        assert commands[i..] == [commands[i]] + commands[i + 1..];
        Retry(commands[i], ok(i), time(i), s, done, commands[i + 1..]);
        PassOneMore(commands, ok, time, i, es);
        done := done + StepsFor(commands[i], ok(i), time(i));
        assert time(i) <= time(i + 1);
      }
      assert commands[|commands|..] == [];
    }

    /**
      * A whole retry pass; `ok` and `time` answer for each command in turn. The pass starts with a list
      * of the waiting commands, takes the steps of each of them, and ends.
      */
    method RetryPending(ok: nat -> bool, time: nat -> int) returns (ghost entries: seq<Entry>)
      requires clock <= time(0) && Forward(time)
      modifies this
      ensures Lists(entries, old(pendingCommands))
      ensures var es := [StartPass(0, entries)] + PassSteps(entries, ok, time, |entries|) + [EndPass(0)];
              Runs(old(Now()), es) && Now() == After(old(Now()), es)
    {
      ghost var s := Now();
      var commands := Snapshot();
      entries := commands;
      RunsSnoc(s, [], StartPass(0, commands));
      assert [] + [StartPass(0, commands)] == [StartPass(0, commands)];
      RetryAll(commands, ok, time, s, [StartPass(0, commands)]);
      RunsSnoc(s, [StartPass(0, commands)] + PassSteps(commands, ok, time, |commands|), EndPass(0));
      assert map[0 := Pass([], None)] - {0} == map[];
    }
  }
}
