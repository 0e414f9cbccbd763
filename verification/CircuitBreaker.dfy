/** The circuit breaker of the Redis client. */
module CircuitBreaker {

  datatype Config = Config(failureThreshold: int, successThreshold: int, openTimeout: int)

  datatype Circuit = Closed | Open | HalfOpen

  datatype State = State(circuit: Circuit, failures: int, successes: int, lastFailure: int)

  /** A failed or successful request, a reset after reconnecting, a question whether to try. */
  datatype Event = Failure(at: int) | Success | Reset | Ask(at: int)

  const START := State(Closed, 0, 0, 0)

  function Step(cfg: Config, s: State, e: Event): (t: State) {
    match e
    case Failure(at) =>
      var n := s.failures + 1;
      State(if s.circuit.Closed? && n >= cfg.failureThreshold then Open else s.circuit, n, 0, at)
    case Success =>
      if s.circuit.HalfOpen? then
        if s.successes + 1 >= cfg.successThreshold then State(Closed, 0, 0, s.lastFailure)
        else s.(successes := s.successes + 1)
      else if s.circuit.Closed? then s.(failures := 0)
      else s
    case Reset => State(Closed, 0, 0, s.lastFailure)
    case Ask(at) =>
      if s.circuit.Open? && at - s.lastFailure > cfg.openTimeout then s.(circuit := HalfOpen) else s
  }

  /** The answer to a question. */
  predicate Allows(cfg: Config, s: State, at: int) {
    s.circuit.Open? ==> at - s.lastFailure > cfg.openTimeout
  }

  function After(cfg: Config, es: seq<Event>): (s: State) {
    if es == [] then START else Step(cfg, After(cfg, es[..|es| - 1]), es[|es| - 1])
  }

  // ----- functions of the history alone

  /** Failures since the last success or reset. */
  function FailuresInARow(es: seq<Event>): (n: nat) {
    if es == [] then 0
    else
      var n := FailuresInARow(es[..|es| - 1]);
      match es[|es| - 1]
      case Failure(_) => n + 1
      case Ask(_) => n
      case _ => 0
  }

  /** Successes since the last failure or reset, or since place `from` if that is later. */
  function SuccessesSince(es: seq<Event>, from: nat): (n: nat) {
    if |es| <= from then 0
    else
      var n := SuccessesSince(es[..|es| - 1], from);
      match es[|es| - 1]
      case Success => n + 1
      case Ask(_) => n
      case _ => 0
  }

  /** Failures from place `from` on. */
  function FailuresFrom(es: seq<Event>, from: nat): (n: nat) {
    if |es| <= from then 0
    else FailuresFrom(es[..|es| - 1], from) + if es[|es| - 1].Failure? then 1 else 0
  }

  /** A reset, or a success that finds the breaker closed or closes it. */
  predicate Clears(cfg: Config, es: seq<Event>, i: nat)
    requires i < |es|
  {
    || es[i].Reset?
    || (es[i].Success? && (After(cfg, es[..i]).circuit.Closed? || After(cfg, es[..i + 1]).circuit.Closed?))
  }

  /** The event at place `k` was the last to clear the failures; none has if `k` is -1. */
  ghost predicate ClearedLast(cfg: Config, es: seq<Event>, k: int) {
    && -1 <= k < |es| && (k >= 0 ==> Clears(cfg, es, k))
    && forall i :: k < i < |es| ==> !Clears(cfg, es, i)
  }

  /** Exactly the failures since then are counted, whatever the state. */
  ghost predicate FailuresCounted(cfg: Config, es: seq<Event>) {
    exists k :: ClearedLast(cfg, es, k) && After(cfg, es).failures == FailuresFrom(es, k + 1)
  }

  ghost predicate FailedAt(es: seq<Event>, at: int) {
    exists i :: 0 <= i < |es| && es[i] == Failure(at)
  }

  /** The half-open trial under way began with the question at place `k`. */
  ghost predicate TrialSince(cfg: Config, es: seq<Event>, k: int) {
    && 0 <= k < |es|
    && After(cfg, es[..k]).circuit.Open?
    && forall i :: k < i <= |es| ==> After(cfg, es[..i]).circuit.HalfOpen?
  }

  ghost predicate Inv(cfg: Config, es: seq<Event>) {
    var s := After(cfg, es);
    && FailuresCounted(cfg, es)
    && (s.circuit.Closed? ==> s.failures == FailuresInARow(es) < cfg.failureThreshold)
    && (!s.circuit.Closed? ==> s.failures >= cfg.failureThreshold && FailedAt(es, s.lastFailure))
    && (!s.circuit.HalfOpen? ==> s.successes == 0)
    && (s.circuit.HalfOpen? ==>
          && s.successes < cfg.successThreshold
          && exists k :: TrialSince(cfg, es, k) && s.successes == SuccessesSince(es, k + 1))
  }

  lemma FailedLater(es: seq<Event>, at: int)
    requires es != [] && (FailedAt(es[..|es| - 1], at) || es[|es| - 1] == Failure(at))
    ensures FailedAt(es, at)
  {
    var last := |es| - 1;
    if es[last] != Failure(at) {
      var i :| 0 <= i < last && es[..last][i] == Failure(at);
      assert es[i] == Failure(at);
    }
  }

  lemma TrialContinues(cfg: Config, es: seq<Event>, k: int)
    requires es != [] && TrialSince(cfg, es[..|es| - 1], k) && After(cfg, es).circuit.HalfOpen?
    ensures TrialSince(cfg, es, k)
  {
    var front := es[..|es| - 1];
    assert front[..k] == es[..k];
    forall i | k < i <= |es|
      ensures After(cfg, es[..i]).circuit.HalfOpen?
    {
      if i < |es| {
        assert front[..i] == es[..i];
      } else {
        assert es[..i] == es;
      }
    }
  }

  lemma TrialStarts(cfg: Config, es: seq<Event>)
    requires es != [] && After(cfg, es[..|es| - 1]).circuit.Open? && After(cfg, es).circuit.HalfOpen?
    ensures TrialSince(cfg, es, |es| - 1) && SuccessesSince(es, |es|) == 0
  {
    assert es[..|es|] == es;
  }

  lemma ClearsBefore(cfg: Config, es: seq<Event>, i: nat)
    requires i + 1 < |es|
    ensures Clears(cfg, es, i) <==> Clears(cfg, es[..|es| - 1], i)
  {
    var front := es[..|es| - 1];
    assert front[..i] == es[..i] && front[..i + 1] == es[..i + 1];
  }

  /** A step counts a failure, clears the failures, or leaves them. */
  lemma FailuresStep(cfg: Config, es: seq<Event>)
    requires es != []
    ensures var s, t := After(cfg, es[..|es| - 1]), After(cfg, es);
            t.failures == if Clears(cfg, es, |es| - 1) then 0
                          else s.failures + if es[|es| - 1].Failure? then 1 else 0
  {
    assert es[..|es|] == es;
  }

  lemma CountedOn(cfg: Config, es: seq<Event>)
    requires es != [] && FailuresCounted(cfg, es[..|es| - 1])
    ensures FailuresCounted(cfg, es)
  {
    var front, last := es[..|es| - 1], |es| - 1;
    FailuresStep(cfg, es);
    if Clears(cfg, es, last) {
      assert ClearedLast(cfg, es, last) && FailuresFrom(es, last + 1) == 0;
    } else {
      var k :| ClearedLast(cfg, front, k) && After(cfg, front).failures == FailuresFrom(front, k + 1);
      forall i: nat | i < last
        ensures Clears(cfg, es, i) <==> Clears(cfg, front, i)
      {
        ClearsBefore(cfg, es, i);
      }
      assert ClearedLast(cfg, es, k);
    }
  }

  lemma {:induction false} FailuresFromHistory(cfg: Config, es: seq<Event>)
    ensures FailuresCounted(cfg, es)
  {
    if es == [] {
      assert ClearedLast(cfg, es, -1);
    } else {
      FailuresFromHistory(cfg, es[..|es| - 1]);
      CountedOn(cfg, es);
    }
  }

  /** The counters follow from the history. */
  lemma {:induction false} CountersFromHistory(cfg: Config, es: seq<Event>)
    requires cfg.failureThreshold >= 1 && cfg.successThreshold >= 1
    ensures Inv(cfg, es)
  {
    FailuresFromHistory(cfg, es);
    if es != [] {
      var front, e := es[..|es| - 1], es[|es| - 1];
      CountersFromHistory(cfg, front);
      var s, t := After(cfg, front), After(cfg, es);
      if !t.circuit.Closed? {
        FailedLater(es, t.lastFailure);
      }
      if t.circuit.HalfOpen? {
        if s.circuit.HalfOpen? {
          var k :| TrialSince(cfg, front, k) && s.successes == SuccessesSince(front, k + 1);
          TrialContinues(cfg, es, k);
        } else {
          TrialStarts(cfg, es);
        }
      }
    }
  }

  lemma AfterSnoc(cfg: Config, es: seq<Event>, e: Event)
    ensures After(cfg, es + [e]) == Step(cfg, After(cfg, es), e)
    ensures FailuresInARow(es + [e]) ==
            if e.Failure? then FailuresInARow(es) + 1 else if e.Ask? then FailuresInARow(es) else 0
  {
    assert (es + [e])[..|es|] == es;
  }

  /** The breaker opens exactly on the failure that completes `failureThreshold` in a row while closed. */
  lemma OpensExactly(cfg: Config, es: seq<Event>, e: Event)
    requires cfg.failureThreshold >= 1 && cfg.successThreshold >= 1 && After(cfg, es).circuit.Closed?
    ensures After(cfg, es + [e]).circuit.Open? <==> e.Failure? && FailuresInARow(es + [e]) == cfg.failureThreshold
    ensures !After(cfg, es + [e]).circuit.HalfOpen?
  {
    CountersFromHistory(cfg, es);
    AfterSnoc(cfg, es, e);
  }

  /**
    * A half-open breaker closes exactly on a reset or on the success that completes
    * `successThreshold` in a row within the trial; a failure does not open it again.
    */
  lemma ClosesExactly(cfg: Config, es: seq<Event>, e: Event)
    requires cfg.failureThreshold >= 1 && cfg.successThreshold >= 1 && After(cfg, es).circuit.HalfOpen?
    ensures exists k :: TrialSince(cfg, es, k) &&
              (After(cfg, es + [e]).circuit.Closed? <==>
                 e.Reset? || (e.Success? && SuccessesSince(es + [e], k + 1) == cfg.successThreshold))
    ensures !After(cfg, es + [e]).circuit.Open?
  {
    CountersFromHistory(cfg, es);
    AfterSnoc(cfg, es, e);
    var k :| TrialSince(cfg, es, k) && After(cfg, es).successes == SuccessesSince(es, k + 1);
    assert (es + [e])[..|es|] == es;
  }

  /** A failure of the half-open trial leaves the breaker half-open. */
  lemma TrialFailureStays(at: int)
    ensures var cfg := Config(1, 1, 0);
            var es := [Failure(at), Ask(at + 1), Failure(at + 1)];
            After(cfg, es[..2]).circuit.HalfOpen? && After(cfg, es).circuit.HalfOpen?
  {
    var cfg := Config(1, 1, 0);
    var a, b := Failure(at), Ask(at + 1);
    assert [] + [a] == [a] && [a] + [b] == [a, b] && [a, b, Failure(at + 1)][..2] == [a, b];
    AfterSnoc(cfg, [], a);
    AfterSnoc(cfg, [a], b);
    AfterSnoc(cfg, [a, b], Failure(at + 1));
    assert [a, b] + [Failure(at + 1)] == [a, b, Failure(at + 1)];
  }

  /** A refused question follows a failure at most `openTimeout` before. */
  lemma RefusalFollowsFailure(cfg: Config, es: seq<Event>, at: int)
    requires cfg.failureThreshold >= 1 && cfg.successThreshold >= 1 && !Allows(cfg, After(cfg, es), at)
    ensures After(cfg, es).circuit.Open? && exists f :: FailedAt(es, f) && at - f <= cfg.openTimeout
  {
    CountersFromHistory(cfg, es);
  }

  /** The time of the last failure is that of the event at place `i`. */
  ghost predicate LastFailedAt(es: seq<Event>, i: int, at: int) {
    0 <= i < |es| && es[i] == Failure(at) && forall j :: i < j < |es| ==> !es[j].Failure?
  }

  lemma {:induction false} LastFailureKept(cfg: Config, es: seq<Event>, i: int, at: int)
    requires LastFailedAt(es, i, at)
    ensures After(cfg, es).lastFailure == at
  {
    if i < |es| - 1 {
      var front := es[..|es| - 1];
      assert LastFailedAt(front, i, at);
      LastFailureKept(cfg, front, i, at);
    }
  }

  /**
    * An open breaker refuses, and stays open, exactly when its last failure is at most the open timeout
    * old; otherwise the question is answered yes and begins a trial. A breaker that is not open never
    * refuses and keeps its state.
    */
  lemma RefusesExactly(cfg: Config, es: seq<Event>, i: int, failed: int, at: int)
    requires LastFailedAt(es, i, failed)
    ensures var s, t := After(cfg, es).circuit, After(cfg, es + [Ask(at)]).circuit;
            && (s.Open? && at - failed <= cfg.openTimeout ==> !Allows(cfg, After(cfg, es), at) && t.Open?)
            && (s.Open? && at - failed > cfg.openTimeout ==> Allows(cfg, After(cfg, es), at) && t.HalfOpen?)
            && (!s.Open? ==> Allows(cfg, After(cfg, es), at) && t == s)
  {
    LastFailureKept(cfg, es, i, failed);
    AfterSnoc(cfg, es, Ask(at));
  }

  class Breaker {
    const cfg: Config
    var circuitState: Circuit
    var failureCount: int
    var successCount: int
    var lastFailure: int
    ghost var history: seq<Event>

    ghost predicate Valid()
      reads this
    {
      State(circuitState, failureCount, successCount, lastFailure) == After(cfg, history)
    }

    constructor (cfg: Config)
      ensures this.cfg == cfg && Valid() && history == []
    {
      this.cfg := cfg;
      circuitState, failureCount, successCount, lastFailure, history := Closed, 0, 0, 0, [];
    }

    method RecordFailure(now: int)
      requires Valid()
      modifies this
      ensures Valid() && history == old(history) + [Failure(now)]
    {
      AfterSnoc(cfg, history, Failure(now));
      failureCount := failureCount + 1;
      successCount := 0;
      lastFailure := now;
      if circuitState == Closed && failureCount >= cfg.failureThreshold {
        circuitState := Open;
      }
      history := history + [Failure(now)];
    }

    method RecordSuccess()
      requires Valid()
      modifies this
      ensures Valid() && history == old(history) + [Success]
    {
      AfterSnoc(cfg, history, Success);
      match circuitState
      case HalfOpen =>
        successCount := successCount + 1;
        if successCount >= cfg.successThreshold {
          circuitState, failureCount, successCount := Closed, 0, 0;
        }
        history := history + [Success];
      case Closed =>
        failureCount := 0;
        history := history + [Success];
      case Open =>
        history := history + [Success];
    }

    method ResetCircuit()
      requires Valid()
      modifies this
      ensures Valid() && history == old(history) + [Reset]
    {
      AfterSnoc(cfg, history, Reset);
      circuitState, failureCount, successCount := Closed, 0, 0;
      history := history + [Reset];
    }

    method CanExecute(now: int) returns (ok: bool)
      requires Valid()
      modifies this
      ensures Valid() && history == old(history) + [Ask(now)]
      ensures ok == Allows(cfg, After(cfg, old(history)), now)
    {
      ghost var s, h := After(cfg, history), history + [Ask(now)];
      assert After(cfg, h) == Step(cfg, s, Ask(now)) by {
        AfterSnoc(cfg, history, Ask(now));
      }
      ok := true;
      if circuitState == Open {
        if now - lastFailure > cfg.openTimeout {
          circuitState := HalfOpen;
        } else {
          ok := false;
        }
      }
      history := h;
    }
  }
}
