/** The realtime pipeline: duplicate check, upsert, processors, sink, and the in-memory dedup store. */
module RealtimePipeline {
  import opened Options

  /** A record: each field with the text its value prints as. */
  type Record = map<string, string>

  datatype Config = Config(idField: string, typeField: string, entityField: string, ttl: int)

  const CREATE := "CREATE"
  const UPDATE := "UPDATE"
  const DELETE := "DELETE"

  function Field(r: Record, f: string): (v: string)
    ensures v != "" ==> f != "" && f in r && r[f] == v
    ensures f != "" && f in r ==> v == r[f]
  {
    if f == "" || f !in r then "" else r[f]
  }

  /** Processed event ids with their time, and the entities that exist. */
  datatype Store = Store(processed: map<string, int>, entities: set<string>)

  /** An update of an entity that does not exist becomes a create. */
  function Upsert(cfg: Config, r: Record, entities: set<string>): (a: Record) {
    var entity := Field(r, cfg.entityField);
    if cfg.typeField != "" && Field(r, cfg.typeField) == UPDATE && entity != "" && entity !in entities
    then r[cfg.typeField := CREATE]
    else r
  }

  /** A record as admitted to the processors, written to the sink at some time. */
  datatype Write = Write(id: string, entity: string, kind: string, at: int)

  function WriteOf(cfg: Config, a: Record, at: int): (w: Write) {
    Write(Field(a, cfg.idField), Field(a, cfg.entityField), Field(a, cfg.typeField), at)
  }

  /** Remembering a written record in the store. */
  function Remember(s: Store, w: Write, at: int): (t: Store) {
    Store(if w.id == "" then s.processed else s.processed[w.id := at], Live(s.entities, w))
  }

  function Live(entities: set<string>, w: Write): (r: set<string>) {
    if w.entity == "" then entities
    else if w.kind == CREATE || w.kind == UPDATE then entities + {w.entity}
    else if w.kind == DELETE then entities - {w.entity}
    else entities
  }

  function Expire(processed: map<string, int>, ttl: int, now: int): (r: map<string, int>) {
    map id | id in processed && now - processed[id] <= ttl :: processed[id]
  }

  // ----- the run as steps

  /** Where the one record in hand stands. */
  datatype Stage = Idle | Admitted(record: Record) | Written(record: Record)

  datatype Stats = Stats(total: int, processed: int, filtered: int, errors: int, duplicates: int)

  datatype State = State(store: Store, stats: Stats, stage: Stage, clock: int, writes: seq<Write>, sourceErrors: int)

  /** How a record leaves the pipeline without being written. */
  datatype Refusal = ProcessorFailed | Filtered | SinkFailed

  /** The dedup store is cleaned by a timer, at any time. */
  datatype Event =
    | SourceError
    | Arrive(record: Record, at: int)
    | Refuse(why: Refusal)
    | WriteOut(at: int)
    | Mark(at: int)
    | Clean(at: int)

  const START := State(Store(map[], {}), Stats(0, 0, 0, 0, 0), Idle, 0, [], 0)

  predicate Enabled(s: State, e: Event) {
    match e
    case SourceError => s.stage.Idle?
    case Arrive(_, at) => s.stage.Idle? && s.clock <= at
    case Refuse(_) => s.stage.Admitted?
    case WriteOut(at) => s.stage.Admitted? && s.clock <= at
    case Mark(at) => s.stage.Written? && s.clock <= at
    case Clean(at) => s.clock <= at
  }

  predicate IsDuplicate(cfg: Config, s: State, r: Record) {
    Field(r, cfg.idField) != "" && Field(r, cfg.idField) in s.store.processed
  }

  function Step(cfg: Config, s: State, e: Event): (t: State)
    requires Enabled(s, e)
  {
    var n := s.stats;
    match e
    case SourceError => s.(stats := n.(errors := n.errors + 1), sourceErrors := s.sourceErrors + 1)
    case Arrive(r, at) =>
      var n1 := n.(total := n.total + 1);
      if IsDuplicate(cfg, s, r) then s.(stats := n1.(duplicates := n1.duplicates + 1), clock := at)
      else s.(stats := n1, stage := Admitted(Upsert(cfg, r, s.store.entities)), clock := at)
    case Refuse(why) =>
      var n1 := if why.Filtered? then n.(filtered := n.filtered + 1) else n.(errors := n.errors + 1);
      s.(stats := n1, stage := Idle)
    case WriteOut(at) =>
      s.(stats := n.(processed := n.processed + 1), stage := Written(s.stage.record), clock := at,
         writes := s.writes + [WriteOf(cfg, s.stage.record, at)])
    case Mark(at) =>
      s.(store := Remember(s.store, WriteOf(cfg, s.stage.record, at), at), stage := Idle, clock := at)
    case Clean(at) =>
      s.(store := s.store.(processed := Expire(s.store.processed, cfg.ttl, at)), clock := at)
  }

  predicate Runs(cfg: Config, s: State, es: seq<Event>)
    decreases es
  {
    es == [] || (Enabled(s, es[0]) && Runs(cfg, Step(cfg, s, es[0]), es[1..]))
  }

  function After(cfg: Config, s: State, es: seq<Event>): (t: State)
    requires Runs(cfg, s, es)
    decreases es
  {
    if es == [] then s else After(cfg, Step(cfg, s, es[0]), es[1..])
  }

  // ----- entities

  /** The entities alive after a history of writes. */
  function Replay(ws: seq<Write>): (r: set<string>) {
    if ws == [] then {} else Live(Replay(ws[..|ws| - 1]), ws[|ws| - 1])
  }

  /** Writes already remembered in the store: all but one just written. */
  function Marked(s: State): (r: seq<Write>)
    requires s.stage.Written? ==> s.writes != []
  {
    if s.stage.Written? then s.writes[..|s.writes| - 1] else s.writes
  }

  /** A written update concerns an entity that is alive at that point of the history. */
  ghost predicate UpdatesLive(ws: seq<Write>) {
    forall i :: 0 <= i < |ws| && ws[i].kind == UPDATE && ws[i].entity != "" ==> ws[i].entity in Replay(ws[..i])
  }

  ghost predicate EntityInv(cfg: Config, s: State) {
    && (s.stage.Written? ==>
          s.writes != [] && s.writes[|s.writes| - 1] == WriteOf(cfg, s.stage.record, s.writes[|s.writes| - 1].at))
    && s.store.entities == Replay(Marked(s))
    && UpdatesLive(s.writes)
    && (s.stage.Admitted? ==>
          var a := s.stage.record;
          Field(a, cfg.typeField) == UPDATE && Field(a, cfg.entityField) != "" ==>
            Field(a, cfg.entityField) in s.store.entities)
  }

  lemma EntityStep(cfg: Config, s: State, e: Event)
    requires Enabled(s, e) && EntityInv(cfg, s)
    ensures EntityInv(cfg, Step(cfg, s, e))
  {
    var t := Step(cfg, s, e);
    if e.WriteOut? {
      var w := WriteOf(cfg, s.stage.record, e.at);
      assert t.writes[..|s.writes|] == s.writes;
      forall i | 0 <= i < |t.writes| && t.writes[i].kind == UPDATE && t.writes[i].entity != ""
        ensures t.writes[i].entity in Replay(t.writes[..i])
      {
        if i < |s.writes| {
          assert t.writes[..i] == s.writes[..i];
        }
      }
    }
  }

  lemma {:induction false} EntityRun(cfg: Config, s: State, es: seq<Event>)
    requires Runs(cfg, s, es) && EntityInv(cfg, s)
    ensures EntityInv(cfg, After(cfg, s, es))
    decreases es
  {
    if es != [] {
      EntityStep(cfg, s, es[0]);
      EntityRun(cfg, Step(cfg, s, es[0]), es[1..]);
    }
  }

  /** Between `j` and the end of the history the entity is created or updated at `j` and not deleted after. */
  ghost predicate AliveSince(ws: seq<Write>, entity: string, j: int) {
    && 0 <= j < |ws| && ws[j].entity == entity && (ws[j].kind == "CREATE" || ws[j].kind == "UPDATE")
    && forall k :: j < k < |ws| && ws[k].entity == entity ==> ws[k].kind != "DELETE"
  }

  lemma {:induction false} ReplayAlive(ws: seq<Write>, entity: string)
    requires entity != ""
    ensures entity in Replay(ws) <==> exists j :: AliveSince(ws, entity, j)
  {
    if ws != [] {
      var front, w := ws[..|ws| - 1], ws[|ws| - 1];
      ReplayAlive(front, entity);
      if w.entity == entity && (w.kind == CREATE || w.kind == UPDATE) {
        assert AliveSince(ws, entity, |ws| - 1);
      } else if exists j :: AliveSince(front, entity, j) {
        var j :| AliveSince(front, entity, j);
        assert !(w.entity == entity && w.kind == DELETE) ==> AliveSince(ws, entity, j);
      }
      forall j | AliveSince(ws, entity, j)
        ensures j == |ws| - 1 || AliveSince(front, entity, j)
      {
      }
    }
  }

  /**
    * In every run: a written update is preceded by a create or update of the same entity with no
    * delete in between, and the store knows exactly the entities alive in the written history.
    */
  lemma UpdatesFollowCreates(cfg: Config, es: seq<Event>)
    requires Runs(cfg, START, es)
    ensures var s := After(cfg, START, es);
            && (s.stage.Written? || s.store.entities == Replay(s.writes))
            && forall i :: 0 <= i < |s.writes| && s.writes[i].kind == UPDATE && s.writes[i].entity != "" ==>
                 exists j :: AliveSince(s.writes[..i], s.writes[i].entity, j)
  {
    EntityRun(cfg, START, es);
    var s := After(cfg, START, es);
    forall i | 0 <= i < |s.writes| && s.writes[i].kind == UPDATE && s.writes[i].entity != ""
      ensures exists j :: AliveSince(s.writes[..i], s.writes[i].entity, j)
    {
      ReplayAlive(s.writes[..i], s.writes[i].entity);
    }
  }

  /** The record is an update of an entity that no write has left alive. */
  ghost predicate UpdatesMissing(cfg: Config, r: Record, ws: seq<Write>) {
    && cfg.typeField != "" && cfg.typeField in r && r[cfg.typeField] == "UPDATE"
    && cfg.entityField != "" && cfg.entityField in r && r[cfg.entityField] != ""
    && !exists j :: AliveSince(ws, r[cfg.entityField], j)
  }

  /**
    * In every run, a record that is no duplicate is admitted as it arrived, unless it is an update of an
    * entity not alive in the written history: then, and only then, its type is changed, to a create, and
    * nothing else is.
    */
  lemma AdmittedExactly(cfg: Config, es: seq<Event>, r: Record, at: int)
    requires Runs(cfg, START, es) && Enabled(After(cfg, START, es), Arrive(r, at))
    ensures var s := After(cfg, START, es);
            var t := Step(cfg, s, Arrive(r, at));
            t.stage.Admitted? ==>
              t.stage.record == if UpdatesMissing(cfg, r, s.writes) then r[cfg.typeField := "CREATE"] else r
  {
    EntityRun(cfg, START, es);
    var s := After(cfg, START, es);
    var entity := Field(r, cfg.entityField);
    if entity != "" {
      ReplayAlive(s.writes, entity);
    }
  }

  // ----- duplicates

  ghost predicate WasWritten(ws: seq<Write>, id: string) {
    exists i :: 0 <= i < |ws| && ws[i].id == id
  }

  ghost predicate RememberedWritten(cfg: Config, s: State) {
    && (s.stage.Written? ==> s.writes != [] && s.writes[|s.writes| - 1].id == Field(s.stage.record, cfg.idField))
    && forall id :: id in s.store.processed ==> id != "" && WasWritten(s.writes, id)
  }

  lemma WrittenMore(ws: seq<Write>, w: Write, id: string)
    requires WasWritten(ws, id) || w.id == id
    ensures WasWritten(ws + [w], id)
  {
    if WasWritten(ws, id) {
      var i :| 0 <= i < |ws| && ws[i].id == id;
      assert (ws + [w])[i].id == id;
    } else {
      assert (ws + [w])[|ws|].id == id;
    }
  }

  lemma RememberedStep(cfg: Config, s: State, e: Event)
    requires Enabled(s, e) && RememberedWritten(cfg, s)
    ensures RememberedWritten(cfg, Step(cfg, s, e))
  {
    var t := Step(cfg, s, e);
    forall id | id in t.store.processed
      ensures id != "" && WasWritten(t.writes, id)
    {
      if e.WriteOut? {
        WrittenMore(s.writes, t.writes[|s.writes|], id);
      } else if e.Mark? && id !in s.store.processed {
        assert s.writes[|s.writes| - 1].id == id;
      }
    }
  }

  lemma {:induction false} RememberedRun(cfg: Config, s: State, es: seq<Event>)
    requires Runs(cfg, s, es) && RememberedWritten(cfg, s)
    ensures RememberedWritten(cfg, After(cfg, s, es))
    decreases es
  {
    if es != [] {
      RememberedStep(cfg, s, es[0]);
      RememberedRun(cfg, Step(cfg, s, es[0]), es[1..]);
    }
  }

  /** In every run, a record is taken for a duplicate only if its nonempty event id has been written before. */
  lemma DuplicateWasWritten(cfg: Config, es: seq<Event>, r: Record, at: int)
    requires Runs(cfg, START, es) && Enabled(After(cfg, START, es), Arrive(r, at))
    ensures var s := After(cfg, START, es);
            Step(cfg, s, Arrive(r, at)).stage.Idle? ==>
              cfg.idField != "" && cfg.idField in r && r[cfg.idField] != "" && WasWritten(s.writes, r[cfg.idField])
  {
    RememberedRun(cfg, START, es);
  }

  /** The upsert never changes the event id. */
  predicate StableId(cfg: Config) {
    cfg.idField == "" || cfg.idField != cfg.typeField || cfg.entityField == ""
  }

  lemma UpsertKeepsId(cfg: Config, r: Record, entities: set<string>)
    requires StableId(cfg)
    ensures Field(Upsert(cfg, r, entities), cfg.idField) == Field(r, cfg.idField)
  {
  }

  /** A write remembered at or after its time, or already older than the retention time. */
  predicate Covered(cfg: Config, s: State, w: Write) {
    w.id == "" || (w.id in s.store.processed && s.store.processed[w.id] >= w.at) || s.clock - w.at > cfg.ttl
  }

  ghost predicate FarApart(cfg: Config, ws: seq<Write>) {
    forall i, j :: 0 <= i < j < |ws| && ws[i].id == ws[j].id && ws[i].id != "" ==> ws[j].at - ws[i].at > cfg.ttl
  }

  ghost predicate TtlInv(cfg: Config, s: State) {
    && (s.stage.Written? ==> s.writes != [] && s.writes[|s.writes| - 1].id == Field(s.stage.record, cfg.idField))
    && AllCovered(cfg, s, Marked(s))
    && (forall i :: 0 <= i < |s.writes| ==> s.writes[i].at <= s.clock)
    && FarApart(cfg, s.writes)
    && (s.stage.Admitted? && Field(s.stage.record, cfg.idField) != "" ==>
          forall i :: 0 <= i < |s.writes| && s.writes[i].id == Field(s.stage.record, cfg.idField) ==>
            s.clock - s.writes[i].at > cfg.ttl)
  }

  /** Time passing and cleaning lose nothing that is still within the retention time. */
  lemma CoveredKept(cfg: Config, s: State, t: State, w: Write)
    requires Covered(cfg, s, w) && s.clock <= t.clock && w.at <= s.clock
    requires t.store.processed == s.store.processed || t.store.processed == Expire(s.store.processed, cfg.ttl, t.clock)
    ensures Covered(cfg, t, w)
  {
  }

  lemma CoveredByMark(cfg: Config, s: State, t: State, w: Write, id: string)
    requires Covered(cfg, s, w) && s.clock <= t.clock && w.at <= s.clock
    requires t.store.processed == if id == "" then s.store.processed else s.store.processed[id := t.clock]
    ensures Covered(cfg, t, w)
  {
  }

  ghost predicate AllCovered(cfg: Config, s: State, ws: seq<Write>) {
    forall i :: 0 <= i < |ws| ==> Covered(cfg, s, ws[i])
  }

  lemma TtlQuiet(cfg: Config, s: State, e: Event)
    requires Enabled(s, e) && TtlInv(cfg, s) && (e.SourceError? || e.Refuse? || e.Clean?)
    ensures TtlInv(cfg, Step(cfg, s, e))
  {
    var t := Step(cfg, s, e);
    assert Marked(t) == Marked(s);
    forall i | 0 <= i < |Marked(t)|
      ensures Covered(cfg, t, Marked(t)[i])
    {
      CoveredKept(cfg, s, t, Marked(s)[i]);
    }
  }

  lemma TtlArrive(cfg: Config, s: State, e: Event)
    requires StableId(cfg) && Enabled(s, e) && TtlInv(cfg, s) && e.Arrive?
    ensures TtlInv(cfg, Step(cfg, s, e))
  {
    var t := Step(cfg, s, e);
    UpsertKeepsId(cfg, e.record, s.store.entities);
    assert Marked(t) == Marked(s) == s.writes;
    forall i | 0 <= i < |s.writes|
      ensures Covered(cfg, t, s.writes[i])
    {
      CoveredKept(cfg, s, t, Marked(s)[i]);
    }
  }

  lemma TtlWrite(cfg: Config, s: State, e: Event)
    requires Enabled(s, e) && TtlInv(cfg, s) && e.WriteOut?
    ensures TtlInv(cfg, Step(cfg, s, e))
  {
    var t := Step(cfg, s, e);
    assert Marked(t) == Marked(s) == s.writes;
    forall i | 0 <= i < |s.writes|
      ensures Covered(cfg, t, s.writes[i])
    {
      CoveredKept(cfg, s, t, Marked(s)[i]);
    }
  }

  lemma TtlMark(cfg: Config, s: State, e: Event)
    requires Enabled(s, e) && TtlInv(cfg, s) && e.Mark?
    ensures TtlInv(cfg, Step(cfg, s, e))
  {
    var t := Step(cfg, s, e);
    var last := |s.writes| - 1;
    forall i | 0 <= i < |t.writes|
      ensures Covered(cfg, t, t.writes[i])
    {
      if i < last {
        assert Marked(s)[i] == s.writes[i];
        CoveredByMark(cfg, s, t, s.writes[i], s.writes[last].id);
      }
    }
  }

  lemma TtlStep(cfg: Config, s: State, e: Event)
    requires StableId(cfg) && Enabled(s, e) && TtlInv(cfg, s)
    ensures TtlInv(cfg, Step(cfg, s, e))
  {
    match e
    case Arrive(_, _) => TtlArrive(cfg, s, e);
    case WriteOut(_) => TtlWrite(cfg, s, e);
    case Mark(_) => TtlMark(cfg, s, e);
    case _ => TtlQuiet(cfg, s, e);
  }

  lemma {:induction false} TtlRun(cfg: Config, s: State, es: seq<Event>)
    requires StableId(cfg) && Runs(cfg, s, es) && TtlInv(cfg, s)
    ensures TtlInv(cfg, After(cfg, s, es))
    decreases es
  {
    if es != [] {
      TtlStep(cfg, s, es[0]);
      TtlRun(cfg, Step(cfg, s, es[0]), es[1..]);
    }
  }

  /** Two updates of missing entities, with the event id read from the event type itself. */
  function TwoUpdates(cfg: Config): (es: seq<Event>) {
    var r1: Record := map[cfg.entityField := "x", cfg.typeField := UPDATE];
    var r2: Record := map[cfg.entityField := "y", cfg.typeField := UPDATE];
    [Arrive(r1, 0), WriteOut(0), Mark(0), Arrive(r2, 0), WriteOut(0)]
  }

  lemma RunsCons(cfg: Config, s: State, e: Event, es: seq<Event>)
    requires Enabled(s, e) && Runs(cfg, Step(cfg, s, e), es)
    ensures Runs(cfg, s, [e] + es) && After(cfg, s, [e] + es) == After(cfg, Step(cfg, s, e), es)
  {
    assert ([e] + es)[1..] == es;
  }

  lemma TwoUpdatesCollide(cfg: Config)
    requires !StableId(cfg) && cfg.ttl >= 0
    ensures Runs(cfg, START, TwoUpdates(cfg)) && !FarApart(cfg, After(cfg, START, TwoUpdates(cfg)).writes)
  {
    var es := TwoUpdates(cfg);
    var s1 := Step(cfg, START, es[0]);
    var s2 := Step(cfg, s1, es[1]);
    var s3 := Step(cfg, s2, es[2]);
    var s4 := Step(cfg, s3, es[3]);
    assert s4.stage.Admitted?;
    var s5 := Step(cfg, s4, es[4]);
    RunsCons(cfg, s4, es[4], []);
    RunsCons(cfg, s3, es[3], [es[4]]);
    RunsCons(cfg, s2, es[2], [es[3]] + [es[4]]);
    RunsCons(cfg, s1, es[1], [es[2]] + ([es[3]] + [es[4]]));
    RunsCons(cfg, START, es[0], [es[1]] + ([es[2]] + ([es[3]] + [es[4]])));
    assert es == [es[0]] + ([es[1]] + ([es[2]] + ([es[3]] + [es[4]])));
    assert s5.writes[0].id == CREATE && s5.writes[1].id == CREATE;
  }

  /**
    * Two successful writes with the same nonempty event id are more than the retention time apart, in
    * every run, if and only if the upsert cannot change the id (with a retention time of at least 0).
    */
  lemma DuplicatesKeptApart(cfg: Config)
    requires cfg.ttl >= 0
    ensures (forall es :: Runs(cfg, START, es) ==> FarApart(cfg, After(cfg, START, es).writes)) <==> StableId(cfg)
  {
    if StableId(cfg) {
      forall es | Runs(cfg, START, es)
        ensures FarApart(cfg, After(cfg, START, es).writes)
      {
        TtlRun(cfg, START, es);
      }
    } else {
      TwoUpdatesCollide(cfg);
    }
  }

  // ----- accounting

  ghost predicate Balanced(s: State) {
    var n := s.stats;
    n.total + s.sourceErrors == n.processed + n.filtered + n.duplicates + n.errors + if s.stage.Admitted? then 1 else 0
  }

  lemma {:induction false} Accounting(cfg: Config, s: State, es: seq<Event>)
    requires Runs(cfg, s, es) && Balanced(s)
    ensures Balanced(After(cfg, s, es))
    decreases es
  {
    if es != [] {
      assert Balanced(Step(cfg, s, es[0]));
      Accounting(cfg, Step(cfg, s, es[0]), es[1..]);
    }
  }

  /** How many events of the run are of a kind. */
  function Tally(es: seq<Event>, kind: Event -> bool): (n: nat)
    decreases es
  {
    if es == [] then 0 else (if kind(es[0]) then 1 else 0) + Tally(es[1..], kind)
  }

  /** In every run each counter is the number of its events; duplicates are what is left of the arrivals. */
  lemma {:induction false} CountersExactly(cfg: Config, s: State, es: seq<Event>)
    requires Runs(cfg, s, es)
    ensures var t := After(cfg, s, es);
            && t.stats.total == s.stats.total + Tally(es, (e: Event) => e.Arrive?)
            && t.stats.processed - s.stats.processed == Tally(es, (e: Event) => e.WriteOut?) == |t.writes| - |s.writes|
            && t.stats.filtered == s.stats.filtered + Tally(es, (e: Event) => e == Refuse(Filtered))
            && t.stats.errors == s.stats.errors
               + Tally(es, (e: Event) => e.SourceError? || e == Refuse(ProcessorFailed) || e == Refuse(SinkFailed))
    decreases es
  {
    if es != [] {
      CountersExactly(cfg, Step(cfg, s, es[0]), es[1..]);
    }
  }

  // ----- the pipeline object

  /** What one processor does with a record. */
  datatype Verdict = Broken | Dropped | Passed(record: Record)

  type Processor = Record -> Verdict

  function Chain(ps: seq<Processor>, r: Record): (v: Verdict) {
    if ps == [] then Passed(r)
    else
      var v := ps[0](r);
      if v.Passed? then Chain(ps[1..], v.record) else v
  }

  /** The records on the way through the first processors, each passed on by the one before. */
  ghost predicate PassedOn(ps: seq<Processor>, trail: seq<Record>) {
    && 1 <= |trail| <= |ps| + 1
    && forall i, j :: 0 <= i < j < |trail| && j == i + 1 ==> ps[i](trail[i]) == Passed(trail[j])
  }

  /** The first processor that does not pass the record on decides; without one the last record comes out. */
  lemma {:induction false} ChainDecided(ps: seq<Processor>, trail: seq<Record>)
    requires PassedOn(ps, trail)
    ensures var k := |trail| - 1;
            && (k == |ps| ==> Chain(ps, trail[0]) == Passed(trail[k]))
            && (k < |ps| && !ps[k](trail[k]).Passed? ==> Chain(ps, trail[0]) == ps[k](trail[k]))
    decreases |trail|
  {
    if |trail| > 1 {
      assert ps[0](trail[0]) == Passed(trail[1]);
      var rest, tail := ps[1..], trail[1..];
      forall i, j | 0 <= i < j < |tail| && j == i + 1
        ensures rest[i](tail[i]) == Passed(tail[j])
      {
        assert ps[i + 1](trail[i + 1]) == Passed(trail[j + 1]);
      }
      ChainDecided(rest, tail);
    }
  }

  /** The steps one record takes, with the times of its check, its write and its marking. */
  function Trace(cfg: Config, s: State, r: Record, ps: seq<Processor>, sinkOk: bool, times: (int, int, int))
    : (es: seq<Event>)
  {
    var arrive := Arrive(r, times.0);
    if IsDuplicate(cfg, s, r) then [arrive]
    else
      var v := Chain(ps, Upsert(cfg, r, s.store.entities));
      if v.Broken? then [arrive, Refuse(ProcessorFailed)]
      else if v.Dropped? then [arrive, Refuse(Filtered)]
      else if !sinkOk then [arrive, Refuse(SinkFailed)]
      else [arrive, WriteOut(times.1), Mark(times.2)]
  }

  lemma OneStep(cfg: Config, s: State, e: Event)
    requires Enabled(s, e)
    ensures Runs(cfg, s, [e]) && After(cfg, s, [e]) == Step(cfg, s, e)
  {
    RunsCons(cfg, s, e, []);
  }

  lemma TwoSteps(cfg: Config, s: State, e: Event, f: Event)
    requires Enabled(s, e) && Enabled(Step(cfg, s, e), f)
    ensures Runs(cfg, s, [e, f]) && After(cfg, s, [e, f]) == Step(cfg, Step(cfg, s, e), f)
  {
    OneStep(cfg, Step(cfg, s, e), f);
    RunsCons(cfg, s, e, [f]);
    assert [e] + [f] == [e, f];
  }

  lemma ThreeSteps(cfg: Config, s: State, e: Event, f: Event, h: Event)
    requires Enabled(s, e) && Enabled(Step(cfg, s, e), f) && Enabled(Step(cfg, Step(cfg, s, e), f), h)
    ensures Runs(cfg, s, [e, f, h]) && After(cfg, s, [e, f, h]) == Step(cfg, Step(cfg, Step(cfg, s, e), f), h)
  {
    TwoSteps(cfg, Step(cfg, s, e), f, h);
    RunsCons(cfg, s, e, [f, h]);
    assert [e] + [f, h] == [e, f, h];
  }

  /** What one record adds to the counters: no verdict for a duplicate. */
  function Counted(n: Stats, verdict: Option<Verdict>, sinkOk: bool): (r: Stats)
    ensures r.total == n.total + 1
    ensures r.duplicates == n.duplicates + (if verdict.None? then 1 else 0)
    ensures r.filtered == n.filtered + (if verdict == Some(Dropped) then 1 else 0)
    ensures r.processed == n.processed + (if verdict.Some? && verdict.value.Passed? && sinkOk then 1 else 0)
  {
    var m := n.(total := n.total + 1);
    match verdict
    case None => m.(duplicates := m.duplicates + 1)
    case Some(Broken) => m.(errors := m.errors + 1)
    case Some(Dropped) => m.(filtered := m.filtered + 1)
    case Some(Passed(_)) => if sinkOk then m.(processed := m.processed + 1) else m.(errors := m.errors + 1)
  }

  class Pipeline {
    const cfg: Config
    var processedIDs: map<string, int>
    var entities: set<string>
    var stats: Stats
    ghost var clock: int
    ghost var writes: seq<Write>
    ghost var sourceErrors: int

    ghost function Now(): (s: State)
      reads this
    {
      State(Store(processedIDs, entities), stats, Idle, clock, writes, sourceErrors)
    }

    constructor (cfg: Config)
      ensures this.cfg == cfg && Now() == START
    {
      this.cfg := cfg;
      processedIDs, entities, stats := map[], {}, Stats(0, 0, 0, 0, 0);
      clock, writes, sourceErrors := 0, [], 0;
    }

    method SourceFailed()
      modifies this
      ensures Now() == Step(cfg, old(Now()), SourceError)
    {
      stats := stats.(errors := stats.errors + 1);
      sourceErrors := sourceErrors + 1;
    }

    /** The cleanup loop goes over the ids in any order. */
    method Cleanup(now: int)
      requires clock <= now
      modifies this
      ensures Now() == Step(cfg, old(Now()), Clean(now))
      ensures forall id :: id in processedIDs <==> id in old(processedIDs) && now - old(processedIDs)[id] <= cfg.ttl
    {
      ghost var before := processedIDs;
      var todo := processedIDs.Keys;
      while todo != {}
        invariant todo <= processedIDs.Keys <= before.Keys
        invariant forall id :: id in processedIDs ==> processedIDs[id] == before[id]
        invariant forall id :: id in before && id !in todo ==> (id in processedIDs <==> now - before[id] <= cfg.ttl)
        invariant Now() == old(Now()).(store := Store(processedIDs, entities))
        invariant entities == old(entities)
        decreases todo
      {
        var id :| id in todo;
        todo := todo - {id};
        if now - processedIDs[id] > cfg.ttl {
          processedIDs := map k | k in processedIDs && k != id :: processedIDs[k];
        }
      }
      assert processedIDs == Expire(before, cfg.ttl, now);
      clock := now;
    }

    method RunChain(ps: seq<Processor>, r: Record) returns (v: Verdict)
      ensures v == Chain(ps, r)
    {
      var current := r;
      for i := 0 to |ps|
        invariant Chain(ps, r) == Chain(ps[i..], current)
      {
        var w := ps[i](current);
        if !w.Passed? {
          return w;
        }
        current := w.record;
      }
      return Passed(current);
    }

    /** An update of an entity the store does not know. */
    predicate ChangesType(r: Record, known: set<string>)
    {
      && Field(r, cfg.typeField) == "UPDATE" && Field(r, cfg.entityField) != ""
      && Field(r, cfg.entityField) !in known
    }

    /** One record from the source: the state moves by exactly the steps of `Trace`. */
    method HandleRecord(r: Record, ps: seq<Processor>, sinkOk: bool, checked: int, written: int, marked: int)
      returns (ghost es: seq<Event>, ghost verdict: Option<Verdict>)
      requires clock <= checked <= written <= marked
      modifies this
      ensures verdict ==
              (if Field(r, cfg.idField) != "" && Field(r, cfg.idField) in old(processedIDs) then None
               else Some(Chain(ps, if ChangesType(r, old(entities)) then r[cfg.typeField := "CREATE"] else r)))
      ensures stats == Counted(old(stats), verdict, sinkOk)
      ensures es == Trace(cfg, old(Now()), r, ps, sinkOk, (checked, written, marked))
      ensures Runs(cfg, old(Now()), es) && Now() == After(cfg, old(Now()), es)
    {
      es := Trace(cfg, Now(), r, ps, sinkOk, (checked, written, marked));
      verdict := None;
      ghost var s, arrive := Now(), Arrive(r, checked);
      OneStep(cfg, s, arrive);
      stats := stats.(total := stats.total + 1);
      var eventId := Field(r, cfg.idField);
      clock := checked;
      if eventId != "" && eventId in processedIDs {
        stats := stats.(duplicates := stats.duplicates + 1);
        return;
      }
      var admitted := Upsert(cfg, r, entities);
      var v := RunChain(ps, admitted);
      verdict := Some(v);
      if v.Broken? || (v.Passed? && !sinkOk) {
        TwoSteps(cfg, s, arrive, Refuse(if v.Broken? then ProcessorFailed else SinkFailed));
        stats := stats.(errors := stats.errors + 1);
        return;
      }
      if v.Dropped? {
        TwoSteps(cfg, s, arrive, Refuse(Filtered));
        stats := stats.(filtered := stats.filtered + 1);
        return;
      }
      ThreeSteps(cfg, s, arrive, WriteOut(written), Mark(marked));
      WriteAndMark(admitted, written, marked);
    }

    /** The end of a record the sink accepts. */
    method WriteAndMark(admitted: Record, written: int, marked: int)
      requires clock <= written <= marked
      modifies this
      ensures var s := old(Now()).(stage := Admitted(admitted));
              Now() == Step(cfg, Step(cfg, s, WriteOut(written)), Mark(marked))
      ensures var id, entity := Field(admitted, cfg.idField), Field(admitted, cfg.entityField);
              var kind := Field(admitted, cfg.typeField);
              && writes == old(writes) + [Write(id, entity, kind, written)]
              && processedIDs == (if id == "" then old(processedIDs) else old(processedIDs)[id := marked])
              && entities == (if entity == "" then old(entities)
                              else if kind == "CREATE" || kind == "UPDATE" then old(entities) + {entity}
                              else if kind == "DELETE" then old(entities) - {entity}
                              else old(entities))
    {
      stats := stats.(processed := stats.processed + 1);
      writes := writes + [WriteOf(cfg, admitted, written)];
      var id, entity := Field(admitted, cfg.idField), Field(admitted, cfg.entityField);
      var kind := Field(admitted, cfg.typeField);
      if id != "" {
        processedIDs := processedIDs[id := marked];
      }
      if entity != "" {
        if kind == CREATE || kind == UPDATE {
          entities := entities + {entity};
        } else if kind == DELETE {
          entities := entities - {entity};
        }
      }
      clock := marked;
    }
  }
}
