/** The circuit breaker: a timed state machine, and what it comes to over its whole history. */
module CircuitBreakers {
  import opened Prelude

  datatype State = Closed | Open | HalfOpen

  datatype Breaker = Breaker(state: State, failures: int, openedAt: int, threshold: int, cooldown: int) {
    predicate Grants(now: int) { state.Open? ==> now - openedAt >= cooldown }

    function AfterAllow(now: int): Breaker {
      if state.Open? && now - openedAt >= cooldown then this.(state := HalfOpen) else this
    }

    function AfterSuccess(): Breaker { this.(failures := 0, state := Closed) }

    function AfterFailure(now: int): Breaker {
      if failures + 1 >= threshold then this.(failures := failures + 1, state := Open, openedAt := now)
      else this.(failures := failures + 1)
    }
  }

  function New(threshold: int, cooldown: int): Breaker { Breaker(Closed, 0, 0, threshold, cooldown) }

  /** The breaker the program shares between its goroutines; each method holds its mutex. */
  class CircuitBreaker {
    var failures: int
    const threshold: int
    const cooldown: int
    var openedAt: int
    var state: State

    ghost function Value(): Breaker
      reads this
    {
      Breaker(state, failures, openedAt, threshold, cooldown)
    }

    constructor (threshold: int, cooldown: int)
      ensures Value() == New(threshold, cooldown)
    {
      this.threshold, this.cooldown := threshold, cooldown;
      failures, openedAt, state := 0, 0, Closed;
    }

    method Allow(now: int) returns (ok: bool)
      modifies this`state
      ensures ok == old(Value()).Grants(now)
      ensures Value() == old(Value()).AfterAllow(now)
    {
      match state
      case Closed => ok := true;
      case Open =>
        if now - openedAt >= cooldown {
          state := HalfOpen;
          ok := true;
        } else {
          ok := false;
        }
      case HalfOpen => ok := true;
    }

    method RecordSuccess()
      modifies this`failures, this`state
      ensures Value() == old(Value()).AfterSuccess()
    {
      failures := 0;
      state := Closed;
    }

    method RecordFailure(now: int)
      modifies this`failures, this`state, this`openedAt
      ensures Value() == old(Value()).AfterFailure(now)
    {
      failures := failures + 1;
      if failures >= threshold {
        state := Open;
        openedAt := now;
      }
    }
  }

  // ---------- histories ----------

  /** A call on the breaker and the clock reading it saw. */
  datatype Event = Allowed(at: int) | Succeeded(at: int) | Failed(at: int)

  function Step(b: Breaker, e: Event): Breaker {
    match e
    case Allowed(at) => b.AfterAllow(at)
    case Succeeded(_) => b.AfterSuccess()
    case Failed(at) => b.AfterFailure(at)
  }

  function Run(b: Breaker, history: seq<Event>): Breaker {
    if history == [] then b else Step(Run(b, history[..|history| - 1]), history[|history| - 1])
  }

  lemma RunSnoc(b: Breaker, history: seq<Event>, e: Event)
    ensures Run(b, history + [e]) == Step(Run(b, history), e)
  {
    assert (history + [e])[..|history|] == history;
  }

  /** The clock never goes back. */
  predicate Monotone(history: seq<Event>) {
    forall i, j | 0 <= i < j < |history| :: history[i].at <= history[j].at
  }

  /** The number of failures since the last success. */
  function Streak(history: seq<Event>): nat {
    if history == [] then 0
    else
      var init := history[..|history| - 1];
      match history[|history| - 1]
      case Allowed(_) => Streak(init)
      case Succeeded(_) => 0
      case Failed(_) => Streak(init) + 1
  }

  /** The time of the last failure, when there is one. */
  function LastFailure(history: seq<Event>): int {
    if history == [] then 0
    else if history[|history| - 1].Failed? then history[|history| - 1].at
    else LastFailure(history[..|history| - 1])
  }

  /** Whether some call since the last failure came when its cooldown was over. */
  function Probed(history: seq<Event>, cooldown: int): bool {
    if history == [] || history[|history| - 1].Failed? then false
    else
      || (history[|history| - 1].Allowed? && history[|history| - 1].at - LastFailure(history) >= cooldown)
      || Probed(history[..|history| - 1], cooldown)
  }

  /** What the state must be, read off the history alone. */
  function StateOf(history: seq<Event>, threshold: int, cooldown: int): State {
    if Streak(history) < threshold then Closed
    else if Probed(history, cooldown) then HalfOpen
    else Open
  }

  /** After a probe was due once, it is due at every later time. */
  lemma {:induction false} ProbedStaysDue(history: seq<Event>, cooldown: int)
    requires Probed(history, cooldown) && Monotone(history)
    ensures history[|history| - 1].at - LastFailure(history) >= cooldown
  {
    var init := history[..|history| - 1];
    if Probed(init, cooldown) {
      ProbedStaysDue(init, cooldown);
    }
  }

  /** The breaker is a function of its history: closed exactly while the failures since the last
      success are below the threshold, half-open once a call came after the cooldown. */
  lemma {:induction false} BreakerIsItsHistory(history: seq<Event>, threshold: int, cooldown: int)
    requires threshold >= 1
    ensures var b := Run(New(threshold, cooldown), history);
            && b.failures == Streak(history)
            && b.state == StateOf(history, threshold, cooldown)
            && (b.failures >= threshold ==> b.openedAt == LastFailure(history))
            && b.threshold == threshold && b.cooldown == cooldown
  {
    if history != [] {
      BreakerIsItsHistory(history[..|history| - 1], threshold, cooldown);
    }
  }

  /** With a monotone clock a call at time now is refused exactly when the failure streak has
      reached the threshold and the last failure is less than the cooldown ago. */
  lemma {:induction false} RefusedExactly(history: seq<Event>, threshold: int, cooldown: int, now: int)
    requires threshold >= 1 && Monotone(history + [Allowed(now)])
    ensures var b := Run(New(threshold, cooldown), history);
            && (!b.Grants(now) <==> Streak(history) >= threshold && now - LastFailure(history) < cooldown)
            && (b.state.Closed? <==> Streak(history) < threshold)
  {
    BreakerIsItsHistory(history, threshold, cooldown);
    assert forall i | 0 <= i < |history| :: history[i] == (history + [Allowed(now)])[i];
    if Probed(history, cooldown) {
      ProbedStaysDue(history, cooldown);
      assert history[|history| - 1].at <= (history + [Allowed(now)])[|history|].at;
    }
  }

  /** The reading of the state off the streak needs a positive threshold, and only that. */
  lemma ThresholdExactly(threshold: int, cooldown: int)
    ensures (forall history :: Run(New(threshold, cooldown), history).state.Closed? <==> Streak(history) < threshold)
            <==> threshold >= 1
  {
    if threshold >= 1 {
      forall history ensures Run(New(threshold, cooldown), history).state.Closed? <==> Streak(history) < threshold {
        BreakerIsItsHistory(history, threshold, cooldown);
      }
    } else {
      assert Run(New(threshold, cooldown), []).state.Closed? && Streak([]) >= threshold;
    }
  }

  // ---------- how often an open circuit is probed ----------

  /** The number of calls that were granted. */
  function Grants(b: Breaker, history: seq<Event>): nat {
    if history == [] then 0
    else
      var init, e := history[..|history| - 1], history[|history| - 1];
      Grants(b, init) + if e.Allowed? && Run(b, init).Grants(e.at) then 1 else 0
  }

  lemma GrantsSnoc(b: Breaker, history: seq<Event>, e: Event)
    ensures Grants(b, history + [e]) == Grants(b, history) + if e.Allowed? && Run(b, history).Grants(e.at) then 1 else 0
  {
    assert (history + [e])[..|history|] == history;
  }

  /** Nothing succeeds, and a granted call fails before the next call is made. */
  predicate Outage(b: Breaker, history: seq<Event>) {
    history == []
    || (var init, e := history[..|history| - 1], history[|history| - 1];
        && Outage(b, init)
        && !e.Succeeded?
        && (e.Allowed? ==> !Run(b, init).state.HalfOpen?))
  }

  /** One cooldown for every granted call. */
  function Waited(b: Breaker, history: seq<Event>): int {
    if history == [] then 0
    else
      var init, e := history[..|history| - 1], history[|history| - 1];
      Waited(b, init) + if e.Allowed? && Run(b, init).Grants(e.at) then b.cooldown else 0
  }

  lemma {:induction false} WaitedIsGrants(b: Breaker, history: seq<Event>)
    ensures Waited(b, history) == Grants(b, history) * b.cooldown
  {
    if history != [] {
      var init := history[..|history| - 1];
      WaitedIsGrants(b, init);
      assert (Grants(b, init) + 1) * b.cooldown == Grants(b, init) * b.cooldown + b.cooldown;
    }
  }

  lemma {:induction false} ProbesWaited(b: Breaker, history: seq<Event>)
    requires b.state.Open? && b.failures >= b.threshold && b.cooldown >= 0
    requires Outage(b, history) && Monotone([Failed(b.openedAt)] + history)
    ensures var r := Run(b, history);
            && !r.state.Closed? && r.failures >= r.threshold == b.threshold && r.cooldown == b.cooldown
            && (r.state.Open? ==> Waited(b, history) <= r.openedAt - b.openedAt)
            && Waited(b, history) <= ([Failed(b.openedAt)] + history)[|history|].at - b.openedAt
            && b.openedAt <= r.openedAt <= ([Failed(b.openedAt)] + history)[|history|].at
  {
    var all := [Failed(b.openedAt)] + history;
    if history != [] {
      var init := history[..|history| - 1];
      assert [Failed(b.openedAt)] + init == all[..|history|];
      ProbesWaited(b, init);
      assert all[|history| - 1].at <= all[|history|].at;
    }
  }

  /** In an outage that found the circuit open since t0, the k-th grant comes no sooner than
      k cooldowns after t0. */
  lemma {:induction false} ProbeRate(b: Breaker, history: seq<Event>)
    requires b.state.Open? && b.failures >= b.threshold && b.cooldown >= 0
    requires Outage(b, history) && Monotone([Failed(b.openedAt)] + history)
    ensures history != [] ==> Grants(b, history) * b.cooldown <= history[|history| - 1].at - b.openedAt
  {
    ProbesWaited(b, history);
    WaitedIsGrants(b, history);
  }

  lemma QuotientBound(g: nat, c: nat, T: nat)
    requires c > 0 && g * c <= T
    ensures g <= T / c
  {
    if g > T / c {
      MulMonotone(T / c + 1, g, c);
    }
  }

  /** So within T of opening at most T/cooldown calls are granted. */
  lemma {:induction false} ProbesBounded(b: Breaker, history: seq<Event>, T: nat)
    requires b.state.Open? && b.failures >= b.threshold && b.cooldown > 0
    requires Outage(b, history) && Monotone([Failed(b.openedAt)] + history)
    requires history != [] ==> history[|history| - 1].at <= b.openedAt + T
    ensures Grants(b, history) <= T / b.cooldown
  {
    if history != [] {
      ProbeRate(b, history);
      QuotientBound(Grants(b, history), b.cooldown, T);
    }
  }

  /** A circuit is only open with the threshold reached, whatever the threshold is. */
  lemma {:induction false} OpenMeansFailed(threshold: int, cooldown: int, history: seq<Event>)
    ensures var b := Run(New(threshold, cooldown), history);
            && (!b.state.Closed? ==> b.failures >= threshold)
            && b.threshold == threshold && b.cooldown == cooldown
  {
    if history != [] {
      OpenMeansFailed(threshold, cooldown, history[..|history| - 1]);
    }
  }

  /** Half-open is not limited to one probe: until an outcome is recorded every caller is let in. */
  lemma {:induction false} HalfOpenAdmitsEveryone(b: Breaker, calls: seq<Event>)
    requires b.state.HalfOpen? && forall e | e in calls :: e.Allowed?
    ensures Grants(b, calls) == |calls| && Run(b, calls) == b
  {
    if calls != [] {
      var init := calls[..|calls| - 1];
      assert forall x | x in init :: x in calls;
      HalfOpenAdmitsEveryone(b, init);
      assert calls[|calls| - 1] in calls;
    }
  }
}
