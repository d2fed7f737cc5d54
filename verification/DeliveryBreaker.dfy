/** The circuit breaker in the protocol: when a flush is admitted, and how many insert attempts an
    outage costs. */
module DeliveryBreaker {
  import opened Prelude
  import B = CircuitBreakers
  import opened Clients
  import opened Delivery
  import opened DeliverySchedules

  // ---------- admission ----------

  /** The breaker is the one its recorded calls lead to, and the calls are in clock order. */
  ghost predicate BreakerOk(c: Config, s: State) {
    match c.breaker
    case None => true
    case Some((threshold, cooldown)) =>
      && s.breaker == B.Run(B.New(threshold, cooldown), s.calls)
      && B.Monotone(s.calls)
      && forall e | e in s.calls :: e.at <= s.now
  }

  lemma CallKeepsBreaker(c: Config, s: State, r: State, e: B.Event)
    requires BreakerOk(c, s) && c.breaker.Some? && e.at == s.now
    requires r.calls == s.calls + [e] && r.breaker == B.Step(s.breaker, e) && r.now == s.now
    ensures BreakerOk(c, r)
  {
    assert r.calls[..|r.calls| - 1] == s.calls;
    assert forall i | 0 <= i < |s.calls| :: s.calls[i] in s.calls;
  }

  lemma SameBreaker(c: Config, s: State, r: State)
    requires BreakerOk(c, s) && r.calls == s.calls && r.breaker == s.breaker && r.now >= s.now
    ensures BreakerOk(c, r)
  {
  }

  /** What a step does to the breaker: nothing, or one call at the present time. */
  ghost predicate CallsOnce(s: State, r: State, granted: bool) {
    && r.now >= s.now
    && ((r.calls == s.calls && r.breaker == s.breaker && !granted)
        || (exists e: B.Event :: e.at == s.now && r.now == s.now && r.calls == s.calls + [e]
                                 && r.breaker == B.Step(s.breaker, e)
                                 && (granted <==> e.Allowed? && s.breaker.Grants(s.now))))
  }

  /** A flush asks the breaker and is let in. */
  predicate IsGranted(c: Config, s: State, a: Action) {
    Enabled(c, s, a) && a.Allow? && (c.breaker.None? || s.breaker.Grants(s.now))
  }

  lemma StepCalls(c: Config, s: State, a: Action)
    requires c.breaker.Some? && !a.Boot?
    ensures CallsOnce(s, Next(c, s, a), IsGranted(c, s, a))
  {
    hide EntriesOf, InFlight, Parsed;
    if Enabled(c, s, a) {
      var r := Apply(c, s, a);
      if a.Allow? || a.RecordFailure? || a.RecordSuccess? {
        var e := if a.Allow? then B.Allowed(s.now) else if a.RecordFailure? then B.Failed(s.now)
                 else B.Succeeded(s.now);
        assert r.breaker == B.Step(s.breaker, e) && r.calls == s.calls + [e];
      } else {
        assert r.calls == s.calls && r.breaker == s.breaker && r.now >= s.now;
      }
      hide Enabled, Apply;
    }
  }

  lemma StepKeepsBreaker(c: Config, s: State, a: Action)
    requires BreakerOk(c, s)
    ensures BreakerOk(c, Next(c, s, a))
  {
    hide EntriesOf, InFlight, Parsed;
    if c.breaker.Some? {
      if a.Boot? {
        hide BreakerOk;
        if Enabled(c, s, a) { BootsBreaker(c, s); }
      } else {
        StepCalls(c, s, a);
        hide Next, BreakerOk;
        var r := Next(c, s, a);
        if r.calls == s.calls && r.breaker == s.breaker {
          SameBreaker(c, s, r);
        } else {
          var e: B.Event :| e.at == s.now && r.now == s.now && r.calls == s.calls + [e]
              && r.breaker == B.Step(s.breaker, e);
          CallKeepsBreaker(c, s, r, e);
        }
      }
    }
  }

  lemma BootsBreaker(c: Config, s: State)
    requires |s.jobs| > 0
    ensures BreakerOk(c, Booted(c, s))
  {
  }

  lemma {:induction false} RunKeepsBreaker(c: Config, actions: seq<Action>)
    ensures BreakerOk(c, Exec(c, actions))
  {
    if actions != [] {
      RunKeepsBreaker(c, actions[..|actions| - 1]);
      hide Next, BreakerOk;
      StepKeepsBreaker(c, Exec(c, actions[..|actions| - 1]), actions[|actions| - 1]);
    }
  }

  /** In every interleaving a flush that asks the breaker goes on to drain the buffer exactly
      unless the failures since the last success have reached the threshold and the last of them
      is less than the cooldown ago. */
  lemma {:induction false} FlushAdmittedExactly(c: Config, actions: seq<Action>, i: nat)
    requires c.breaker.Some? && c.breaker.value.0 >= 1
    requires Enabled(c, Exec(c, actions), Allow(i))
    ensures var s := Exec(c, actions);
            IsGranted(c, s, Allow(i)) <==>
            !(B.Streak(s.calls) >= c.breaker.value.0 && s.now - B.LastFailure(s.calls) < c.breaker.value.1)
  {
    var s := Exec(c, actions);
    RunKeepsBreaker(c, actions);
    var (threshold, cooldown) := c.breaker.value;
    assert forall k | 0 <= k < |s.calls| :: s.calls[k] in s.calls;
    B.RefusedExactly(s.calls, threshold, cooldown, s.now);
  }

  lemma {:induction false} FailedBy(calls: seq<B.Event>, now: int)
    requires B.Streak(calls) > 0 && forall e | e in calls :: e.at <= now
    ensures B.LastFailure(calls) <= now
  {
    if !calls[|calls| - 1].Failed? {
      assert forall e | e in calls[..|calls| - 1] :: e in calls;
      FailedBy(calls[..|calls| - 1], now);
    }
  }

  /** A flush that waits for any time first is let in exactly when by then the streak or the cooldown
      admit it, so always after a whole cooldown; one that is turned away leaves the lines alone. */
  lemma {:induction false} CooldownReopens(c: Config, actions: seq<Action>, i: nat, time: nat)
    requires c.breaker.Some? && c.breaker.value.0 >= 1
    requires Enabled(c, Exec(c, actions), Allow(i))
    ensures var s := Exec(c, actions);
            var r := Exec(c, actions + [Wait(time)] + [Allow(i)]);
            && i < |r.jobs|
            && (r.jobs[i].Draining?
                <==> !(B.Streak(s.calls) >= c.breaker.value.0
                       && s.now + time - B.LastFailure(s.calls) < c.breaker.value.1))
            && (time >= c.breaker.value.1 ==> r.jobs[i].Draining?)
            && (r.jobs[i].Draining? || r.jobs[i].Idle?)
            && r.buffer == s.buffer && r.ledger == s.ledger
  {
    var s := Exec(c, actions);
    ExecSnoc(c, Init(c), actions, Wait(time));
    ExecSnoc(c, Init(c), actions + [Wait(time)], Allow(i));
    Waits(c, s, i, time);
    FlushAdmittedExactly(c, actions + [Wait(time)], i);
    RunKeepsBreaker(c, actions);
    if B.Streak(s.calls) > 0 { FailedBy(s.calls, s.now); }
    AsksOnce(c, Next(c, s, Wait(time)), i);
    hide Next;
  }

  lemma Waits(c: Config, s: State, i: nat, time: nat)
    requires Enabled(c, s, Allow(i))
    ensures Next(c, s, Wait(time)) == s.(now := s.now + time) && Enabled(c, Next(c, s, Wait(time)), Allow(i))
  {
  }

  lemma AsksOnce(c: Config, s: State, i: nat)
    requires c.breaker.Some? && Enabled(c, s, Allow(i))
    ensures var r := Next(c, s, Allow(i));
            && |r.jobs| == |s.jobs| && r.buffer == s.buffer && r.ledger == s.ledger
            && r.jobs[i] == if IsGranted(c, s, Allow(i)) then Draining else Idle
  {
  }

  // ---------- insert attempts ----------

  /** A flush makes an insert attempt. */
  predicate IsAttempt(c: Config, s: State, a: Action) {
    Enabled(c, s, a) && a.TrySave? && s.jobs[a.job].Saving?
  }

  function Grants(c: Config, s: State, actions: seq<Action>): nat {
    if actions == [] then 0
    else
      var n := |actions| - 1;
      Grants(c, s, actions[..n]) + if IsGranted(c, ExecFrom(c, s, actions[..n]), actions[n]) then 1 else 0
  }

  function Attempts(c: Config, s: State, actions: seq<Action>): nat {
    if actions == [] then 0
    else
      var n := |actions| - 1;
      Attempts(c, s, actions[..n]) + if IsAttempt(c, ExecFrom(c, s, actions[..n]), actions[n]) then 1 else 0
  }

  /** The attempts that an admitted flush may still make. */
  function Due(c: Config, job: Job): nat {
    if job.Draining? then c.attempts
    else if job.Saving? && job.tries < c.attempts then c.attempts - job.tries
    else 0
  }

  /** The attempts that all flushes under way may still make. */
  function Underway(c: Config, jobs: seq<Job>): nat {
    if jobs == [] then 0 else Due(c, jobs[0]) + Underway(c, jobs[1..])
  }

  lemma {:induction false} UnderwayUpdate(c: Config, jobs: seq<Job>, i: nat, job: Job)
    requires i < |jobs|
    ensures Underway(c, jobs[i := job]) + Due(c, jobs[i]) == Underway(c, jobs) + Due(c, job)
  {
    hide Due;
    if i > 0 {
      UnderwayUpdate(c, jobs[1..], i - 1, job);
      assert jobs[i := job][1..] == jobs[1..][i - 1 := job];
    } else {
      assert jobs[0 := job][1..] == jobs[1..];
    }
  }

  lemma {:induction false} NothingUnderway(c: Config, jobs: seq<Job>)
    requires forall i | 0 <= i < |jobs| :: jobs[i].Idle?
    ensures Underway(c, jobs) == 0
  {
    if jobs != [] {
      NothingUnderway(c, jobs[1..]);
    }
  }

  /** No flush is past its last attempt. */
  predicate TriesOk(c: Config, s: State) {
    forall i | 0 <= i < |s.jobs| :: s.jobs[i].Saving? ==> s.jobs[i].tries < c.attempts
  }

  /** A step pays for an attempt with what was due, and a grant makes a whole save due. */
  lemma StepOwes(c: Config, s: State, a: Action)
    requires TriesOk(c, s)
    ensures TriesOk(c, Next(c, s, a))
    ensures Underway(c, Next(c, s, a).jobs) + (if IsAttempt(c, s, a) then 1 else 0)
            <= Underway(c, s.jobs) + if IsGranted(c, s, a) then c.attempts else 0
  {
    if Enabled(c, s, a) && !a.Wait? {
      if a.Halt? {
        NothingUnderway(c, AllIdle(|s.jobs|));
      } else {
        OneMoves(c, s, a);
        JobOwes(c, s, a);
        var i := a.Actor();
        UnderwayUpdate(c, s.jobs, i, Apply(c, s, a).jobs[i]);
      }
      hide Enabled, Apply;
    }
  }

  /** The goroutine that moves is not past its last attempt then. */
  lemma JobOwes(c: Config, s: State, a: Action)
    requires TriesOk(c, s) && Enabled(c, s, a) && !a.Wait? && !a.Halt?
    ensures var i, r := a.Actor(), Apply(c, s, a);
            && i < |s.jobs| == |r.jobs|
            && (r.jobs[i].Saving? ==> r.jobs[i].tries < c.attempts)
            && Due(c, r.jobs[i]) + (if IsAttempt(c, s, a) then 1 else 0)
               <= Due(c, s.jobs[i]) + if IsGranted(c, s, a) then c.attempts else 0
  {
    hide EntriesOf, InFlight, Parsed, Tried, Rebuffered, DrainStep;
    match a
    case TrySave(i, result, rows) => TryOwes(c, s, i, result, rows);
    case Rebuffer(i, ok) => RebufferOwes(s, i, ok);
    case Drain(i, readOk, entries) => DrainOwes(c, s, i, readOk, entries);
    case _ =>
  }

  lemma TryOwes(c: Config, s: State, i: nat, result: SendResult, rows: multiset<Entry>)
    requires TriesOk(c, s) && i < |s.jobs| && Saves(s.jobs[i])
    ensures var r := Tried(c, s, i, result, rows);
            && |r.jobs| == |s.jobs|
            && (r.jobs[i].Saving? ==> r.jobs[i].tries < c.attempts)
            && Due(c, r.jobs[i]) + (if s.jobs[i].Saving? then 1 else 0) <= Due(c, s.jobs[i])
  {
    hide Entered, EnteredUnpaid;
  }

  lemma RebufferOwes(s: State, i: nat, ok: bool)
    requires i < |s.jobs| && s.jobs[i].Rebuffering? && s.jobs[i].batch != []
    ensures var r := Rebuffered(s, i, ok);
            |r.jobs| == |s.jobs| && !r.jobs[i].Draining? && !r.jobs[i].Saving?
  {
  }

  lemma DrainOwes(c: Config, s: State, i: nat, readOk: bool, entries: seq<Entry>)
    requires i < |s.jobs| && Reads(s.jobs[i])
    ensures var r := DrainStep(c, s, i, readOk, entries);
            |r.jobs| == |s.jobs| && (r.jobs[i].Saving? ==> r.jobs[i].tries < c.attempts)
                && Due(c, r.jobs[i]) <= Due(c, s.jobs[i])
  {
    hide NotSent;
  }

  /** In every run from a state where no flush is past its last attempt, insert attempts are paid
      for by what was under way and one save per grant. */
  lemma {:induction false} AttemptsPerGrant(c: Config, s: State, actions: seq<Action>)
    requires TriesOk(c, s)
    ensures var r := ExecFrom(c, s, actions);
            && TriesOk(c, r)
            && Attempts(c, s, actions) + Underway(c, r.jobs) <= Underway(c, s.jobs) + Grants(c, s, actions) * c.attempts
  {
    hide Next, TriesOk, IsAttempt, IsGranted, Underway;
    if actions != [] {
      var n := |actions| - 1;
      AttemptsPerGrant(c, s, actions[..n]);
      StepOwes(c, ExecFrom(c, s, actions[..n]), actions[n]);
      var g := Grants(c, s, actions[..n]);
      assert (g + 1) * c.attempts == g * c.attempts + c.attempts;
    }
  }

  /** In every interleaving flushes make at most one save's attempts for every grant. */
  lemma {:induction false} EveryAttemptIsGranted(c: Config, actions: seq<Action>)
    ensures Attempts(c, Init(c), actions) <= Grants(c, Init(c), actions) * c.attempts
    ensures TriesOk(c, Exec(c, actions))
  {
    NothingUnderway(c, Init(c).jobs);
    AttemptsPerGrant(c, Init(c), actions);
  }

  // ---------- an outage ----------

  /** The calls that a run adds to those of s, and what they come to. */
  ghost predicate CallsSince(c: Config, s: State, r: State, later: seq<B.Event>, grants: nat) {
    && r.calls == s.calls + later && r.breaker == B.Run(s.breaker, later)
    && B.Grants(s.breaker, later) == grants
    && s.now <= r.now
    && (forall i | 0 <= i < |later| :: s.now <= later[i].at <= r.now)
    && B.Monotone(later)
  }

  lemma CallsSnoc(c: Config, s: State, m: State, r: State, later: seq<B.Event>, grants: nat, granted: bool)
      returns (more: seq<B.Event>)
    requires CallsSince(c, s, m, later, grants) && CallsOnce(m, r, granted)
    ensures CallsSince(c, s, r, more, grants + if granted then 1 else 0)
  {
    if r.calls == m.calls && r.breaker == m.breaker && !granted {
      more := later;
    } else {
      var e: B.Event :| e.at == m.now && r.now == m.now && r.calls == m.calls + [e] && r.breaker == B.Step(m.breaker, e)
               && (granted <==> e.Allowed? && m.breaker.Grants(m.now));
      more := later + [e];
      B.RunSnoc(s.breaker, later, e);
      B.GrantsSnoc(s.breaker, later, e);
      hide B.Run, B.Grants, B.Step;
      assert m.calls + [e] == s.calls + more;
    }
  }

  lemma {:induction false} RunCalls(c: Config, s: State, actions: seq<Action>) returns (later: seq<B.Event>)
    requires s.up && c.breaker.Some? && forall i | 0 <= i < |actions| :: !actions[i].Halt?
    ensures ExecFrom(c, s, actions).up
    ensures CallsSince(c, s, ExecFrom(c, s, actions), later, Grants(c, s, actions))
  {
    hide Next, IsGranted, CallsOnce;
    if actions == [] {
      later := [];
      assert s.calls + [] == s.calls;
    } else {
      var n := |actions| - 1;
      assert forall i | 0 <= i < n :: actions[..n][i] == actions[i];
      var before := RunCalls(c, s, actions[..n]);
      var m, a := ExecFrom(c, s, actions[..n]), actions[n];
      StaysUp(c, m, a);
      BootGrantsNothing(c, m, a);
      if a.Boot? {
        later := before;
      } else {
        StepCalls(c, m, a);
        later := CallsSnoc(c, s, m, Next(c, m, a), before, Grants(c, s, actions[..n]), IsGranted(c, m, a));
      }
      hide CallsSince;
    }
  }

  lemma BootGrantsNothing(c: Config, s: State, a: Action)
    ensures a.Boot? ==> !IsGranted(c, s, a)
  {
  }

  /** The clock has passed the time the circuit opened. */
  predicate ClockOk(s: State) { 0 <= s.now && s.breaker.openedAt <= s.now }

  lemma StepKeepsClock(c: Config, s: State, a: Action)
    requires ClockOk(s)
    ensures ClockOk(Next(c, s, a))
  {
    hide EntriesOf, InFlight, Parsed;
  }

  lemma {:induction false} RunKeepsClock(c: Config, actions: seq<Action>)
    ensures ClockOk(Exec(c, actions))
  {
    if actions != [] {
      hide Next;
      RunKeepsClock(c, actions[..|actions| - 1]);
      StepKeepsClock(c, Exec(c, actions[..|actions| - 1]), actions[|actions| - 1]);
    }
  }

  function NewCalls(s: State, r: State): seq<B.Event> {
    if |s.calls| <= |r.calls| then r.calls[|s.calls|..] else []
  }

  /** An outage without overlapping probes: the circuit is open in a reachable state, and in what
      follows nothing succeeds and a granted call fails before the next one is made. Then within T of
      opening the flushes make at most T/cooldown saves' attempts, besides those that flushes under
      way at the start still had left. */
  lemma {:induction false} OutageAttemptsBounded(c: Config, before: seq<Action>, after: seq<Action>, T: nat)
    requires c.breaker.Some? && c.breaker.value.1 > 0
    requires var s := Exec(c, before); s.up && s.breaker.state.Open?
    requires forall i | 0 <= i < |after| :: !after[i].Halt?
    requires var s, r := Exec(c, before), ExecFrom(c, Exec(c, before), after);
             && r.now <= s.breaker.openedAt + T
             && B.Outage(s.breaker, NewCalls(s, r))
    ensures var s := Exec(c, before);
            Attempts(c, s, after) <= Underway(c, s.jobs) + T / c.breaker.value.1 * c.attempts
  {
    hide Exec, ExecFrom, Attempts, Grants, Underway, TriesOk, B.Outage, B.Grants, B.Run;
    var s, r := Exec(c, before), ExecFrom(c, Exec(c, before), after);
    var (threshold, cooldown) := c.breaker.value;
    EveryAttemptIsGranted(c, before);
    AttemptsPerGrant(c, s, after);
    RunKeepsClock(c, before);
    RunKeepsBreaker(c, before);
    B.OpenMeansFailed(threshold, cooldown, s.calls);
    var later := RunCalls(c, s, after);
    assert NewCalls(s, r) == later;
    B.ProbesBounded(s.breaker, later, T);
    MulMonotone(Grants(c, s, after), T / cooldown, c.attempts);
  }
}
