/** An outage with overlapping probes: half-open admits every caller, so the insert attempts of an
    outage are bounded goroutine by goroutine. */
module DeliveryOutage {
  import opened Prelude
  import B = CircuitBreakers
  import opened Clients
  import opened Delivery
  import opened DeliverySchedules
  import opened DeliveryBreaker

  // ---------- the saves of one goroutine ----------

  /** Goroutine j is let in. */
  predicate LetIn(c: Config, s: State, a: Action, j: nat) { IsGranted(c, s, a) && a.job == j }

  /** Goroutine j was let in and drains nothing that has to be saved. */
  predicate FindsNothing(c: Config, s: State, a: Action, j: nat) {
    && Enabled(c, s, a) && a.Drain? && a.job == j && s.jobs[j].Draining?
    && j < |Apply(c, s, a).jobs| && Apply(c, s, a).jobs[j].Idle?
  }

  /** One more save of goroutine j, or one fewer when a flush that was let in finds nothing, at so
      much for each. */
  function StepSaves(c: Config, s: State, a: Action, j: nat, each: int): int {
    if LetIn(c, s, a, j) then each else if FindsNothing(c, s, a, j) then -each else 0
  }

  /** What the saves that goroutine j begins in a run come to, at so much for each. */
  function SavesAt(c: Config, s: State, actions: seq<Action>, j: nat, each: int): int {
    if actions == [] then 0
    else
      var n := |actions| - 1;
      SavesAt(c, s, actions[..n], j, each) + StepSaves(c, ExecFrom(c, s, actions[..n]), actions[n], j, each)
  }

  lemma {:induction false} SavesScale(c: Config, s: State, actions: seq<Action>, j: nat, each: int)
    ensures SavesAt(c, s, actions, j, each) == SavesAt(c, s, actions, j, 1) * each
  {
    hide ExecFrom, LetIn, FindsNothing;
    if actions != [] {
      SavesScale(c, s, actions[..|actions| - 1], j, each);
      var k := SavesAt(c, s, actions[..|actions| - 1], j, 1);
      assert (k + 1) * each == k * each + each && (k - 1) * each == k * each - each;
    }
  }

  /** The insert attempts that goroutine j makes for flushes. */
  function AttemptsBy(c: Config, s: State, actions: seq<Action>, j: nat): nat {
    if actions == [] then 0
    else
      var n := |actions| - 1;
      AttemptsBy(c, s, actions[..n], j)
      + if IsAttempt(c, ExecFrom(c, s, actions[..n]), actions[n]) && actions[n].Actor() == j then 1 else 0
  }

  // ---------- what one step does ----------

  /** The circuit has not closed since t0, and half-open means that the cooldown is over. */
  predicate Tripped(s: State, t0: int, cooldown: nat) {
    var b := s.breaker;
    && !b.state.Closed? && b.failures >= b.threshold && b.cooldown == cooldown && t0 <= b.openedAt <= s.now
    && (b.state.HalfOpen? ==> s.now - b.openedAt >= cooldown)
  }

  predicate Unhealed(actions: seq<Action>) {
    forall k | 0 <= k < |actions| :: !actions[k].Halt? && !actions[k].RecordSuccess?
  }

  lemma StaysTripped(c: Config, s: State, a: Action, t0: int, cooldown: nat)
    requires c.breaker.Some? && s.up && Tripped(s, t0, cooldown) && !a.Halt? && !a.RecordSuccess?
    ensures var r := Next(c, s, a);
            && r.up && Tripped(r, t0, cooldown) && s.now <= r.now && s.breaker.openedAt <= r.breaker.openedAt
            && (IsGranted(c, s, a) ==> s.now - s.breaker.openedAt >= cooldown)
  {
    hide EntriesOf, InFlight, Parsed, Entered, EnteredUnpaid, NotSent;
    StaysUp(c, s, a);
    if a.Allow? || a.RecordFailure? || a.Wait? {
    } else if Enabled(c, s, a) {
      StepCalls(c, s, a);
      OtherStepsCallNot(c, s, a);
    }
  }

  lemma OtherStepsCallNot(c: Config, s: State, a: Action)
    requires s.up && !a.Allow? && !a.RecordFailure? && !a.RecordSuccess? && !a.Wait?
    ensures Next(c, s, a).breaker == s.breaker && Next(c, s, a).now == s.now
  {
    hide EntriesOf, InFlight, Parsed, Entered, EnteredUnpaid, NotSent;
  }

  /** From being let in to recording how the save ended. */
  predicate Busy(job: Job) { job.Draining? || job.Saving? || job.GivenUp? || job.Reporting? }

  /** The saves of a goroutine are a cooldown apart: one cooldown was waited for each. */
  predicate Paced(s: State, j: nat, waited: int, t0: int, cooldown: nat)
    requires j < |s.jobs|
  {
    var since := s.breaker.openedAt;
    && (!Busy(s.jobs[j]) ==> waited <= since - t0)
    && (Busy(s.jobs[j]) ==> waited <= s.now - t0)
    && (s.jobs[j].Draining? ==> waited - cooldown <= since - t0)
  }

  /** The goroutine that moves. */
  lemma MovedStaysPaced(c: Config, s: State, a: Action, waited: int, t0: int, cooldown: nat)
    requires c.breaker.Some? && s.up && Tripped(s, t0, cooldown)
    requires Enabled(c, s, a) && !a.Halt? && !a.RecordSuccess? && !a.Wait?
    requires a.Actor() < |s.jobs| && Paced(s, a.Actor(), waited, t0, cooldown)
    ensures var j, r := a.Actor(), Apply(c, s, a);
            && |r.jobs| == |s.jobs|
            && Paced(r, j, waited + StepSaves(c, s, a, j, cooldown), t0, cooldown)
  {
    hide EntriesOf, InFlight, Parsed, Entered, EnteredUnpaid, NotSent;
  }

  /** A goroutine that does not move. */
  lemma OtherStaysPaced(c: Config, s: State, r: State, j: nat, waited: int, t0: int, cooldown: nat)
    requires j < |s.jobs| == |r.jobs| && r.jobs[j] == s.jobs[j] && Paced(s, j, waited, t0, cooldown)
    requires s.now <= r.now && s.breaker.openedAt <= r.breaker.openedAt
    ensures Paced(r, j, waited, t0, cooldown)
  {
  }

  lemma OtherSavesNothing(c: Config, s: State, a: Action, j: nat, each: int)
    requires OfOthers(j, a)
    ensures StepSaves(c, s, a, j, each) == 0 && !(IsAttempt(c, s, a) && a.Actor() == j)
  {
    hide Enabled, Apply;
  }

  lemma StepStaysPaced(c: Config, s: State, a: Action, j: nat, waited: int, t0: int, cooldown: nat)
    requires c.breaker.Some? && s.up && Tripped(s, t0, cooldown) && !a.Halt? && !a.RecordSuccess?
    requires j < |s.jobs| && Paced(s, j, waited, t0, cooldown)
    ensures var r := Next(c, s, a);
            |r.jobs| == |s.jobs| && Paced(r, j, waited + StepSaves(c, s, a, j, cooldown), t0, cooldown)
  {
    StaysTripped(c, s, a, t0, cooldown);
    if OfOthers(j, a) {
      OthersLeave(c, s, j, a);
      OtherSavesNothing(c, s, a, j, cooldown);
      hide Next, StepSaves, Paced, Tripped;
      OtherStaysPaced(c, s, Next(c, s, a), j, waited, t0, cooldown);
    } else if Enabled(c, s, a) {
      hide Apply, StepSaves, Paced, Tripped;
      MovedStaysPaced(c, s, a, waited, t0, cooldown);
    }
  }

  /** An attempt is paid for by what goroutine j had due, a grant makes a save due, and a drain that
      finds nothing gives it back. */
  lemma StepPays(c: Config, s: State, a: Action, j: nat)
    requires TriesOk(c, s) && s.up && j < |s.jobs| && !a.Halt?
    ensures var r := Next(c, s, a);
            && TriesOk(c, r) && |r.jobs| == |s.jobs|
            && Due(c, r.jobs[j]) + (if IsAttempt(c, s, a) && a.Actor() == j then 1 else 0)
               <= Due(c, s.jobs[j]) + StepSaves(c, s, a, j, c.attempts)
  {
    StepOwes(c, s, a);
    if OfOthers(j, a) {
      OthersLeave(c, s, j, a);
      OtherSavesNothing(c, s, a, j, c.attempts);
      hide Next, StepSaves, Due;
    } else if Enabled(c, s, a) {
      OneMoves(c, s, a);
      JobOwes(c, s, a);
      hide Apply, Due, IsAttempt;
      NothingIsDue(c, s, a, j);
    }
  }

  lemma NothingIsDue(c: Config, s: State, a: Action, j: nat)
    requires j < |s.jobs|
    ensures FindsNothing(c, s, a, j) ==>
              Due(c, s.jobs[j]) == c.attempts && Due(c, Apply(c, s, a).jobs[j]) == 0 && !IsAttempt(c, s, a)
  {
    hide Apply, Enabled;
  }

  // ---------- runs ----------

  lemma {:induction false} RunIsPaced(c: Config, s: State, actions: seq<Action>, j: nat, t0: int, cooldown: nat)
    requires c.breaker.Some? && s.up && j < |s.jobs| && Unhealed(actions)
    requires Tripped(s, t0, cooldown) && Paced(s, j, 0, t0, cooldown) && TriesOk(c, s)
    ensures var r := ExecFrom(c, s, actions);
            && r.up && |r.jobs| == |s.jobs| && Tripped(r, t0, cooldown) && TriesOk(c, r)
            && Paced(r, j, SavesAt(c, s, actions, j, cooldown), t0, cooldown)
            && AttemptsBy(c, s, actions, j) + Due(c, r.jobs[j])
               <= Due(c, s.jobs[j]) + SavesAt(c, s, actions, j, c.attempts)
  {
    hide Next, Paced, Tripped, TriesOk, Due, StepSaves, IsAttempt;
    if actions != [] {
      var n := |actions| - 1;
      var init, a := actions[..n], actions[n];
      assert forall k | 0 <= k < n :: init[k] == actions[k];
      RunIsPaced(c, s, init, j, t0, cooldown);
      var m := ExecFrom(c, s, init);
      StaysTripped(c, m, a, t0, cooldown);
      StepStaysPaced(c, m, a, j, SavesAt(c, s, init, j, cooldown), t0, cooldown);
      StepPays(c, m, a, j);
    }
  }

  /** At a given pace so many saves fit into a time. */
  lemma SavesFit(saves: int, cooldown: nat, attempts: nat, T: nat)
    requires cooldown > 0 && saves * cooldown <= T
    ensures saves * attempts <= T / cooldown * attempts
  {
    if saves > 0 {
      B.QuotientBound(saves, cooldown, T);
      MulMonotone(saves, T / cooldown, attempts);
    } else {
      assert saves * attempts <= 0 && T / cooldown * attempts >= 0;
    }
  }

  lemma WaitedInTime(s: State, j: nat, waited: int, t0: int, cooldown: nat, T: nat)
    requires j < |s.jobs| && Tripped(s, t0, cooldown) && Paced(s, j, waited, t0, cooldown) && s.now <= t0 + T
    ensures waited <= T
  {
  }

  lemma StartsTripped(c: Config, before: seq<Action>)
    requires c.breaker.Some? && c.breaker.value.1 > 0
    requires var s := Exec(c, before); s.up && s.breaker.state.Open?
    ensures var s := Exec(c, before);
            && Tripped(s, s.breaker.openedAt, c.breaker.value.1) && TriesOk(c, s)
            && forall j | 0 <= j < |s.jobs| :: Paced(s, j, 0, s.breaker.openedAt, c.breaker.value.1)
  {
    hide ExecFrom, B.Run;
    RunKeepsClock(c, before);
    RunKeepsBreaker(c, before);
    B.OpenMeansFailed(c.breaker.value.0, c.breaker.value.1, Exec(c, before).calls);
    EveryAttemptIsGranted(c, before);
  }

  /** In an outage a goroutine makes at most one save's attempts for each cooldown since the circuit
      opened, besides those it still had left: with any overlap of probes, and whatever the others
      do, as long as no success is recorded and the process does not end. */
  lemma {:induction false} EachGoroutineIsBounded(c: Config, before: seq<Action>, after: seq<Action>, j: nat, T: nat)
    requires c.breaker.Some? && c.breaker.value.1 > 0
    requires var s := Exec(c, before); s.up && s.breaker.state.Open? && j < |s.jobs|
    requires Unhealed(after)
    requires ExecFrom(c, Exec(c, before), after).now <= Exec(c, before).breaker.openedAt + T
    ensures var s := Exec(c, before);
            AttemptsBy(c, s, after, j) <= Due(c, s.jobs[j]) + T / c.breaker.value.1 * c.attempts
  {
    hide ExecFrom, Tripped, Paced, Due, SavesAt, AttemptsBy, TriesOk, Unhealed;
    var s, cooldown := Exec(c, before), c.breaker.value.1;
    var t0 := s.breaker.openedAt;
    StartsTripped(c, before);
    RunIsPaced(c, s, after, j, t0, cooldown);
    WaitedInTime(ExecFrom(c, s, after), j, SavesAt(c, s, after, j, cooldown), t0, cooldown, T);
    SavesScale(c, s, after, j, cooldown);
    SavesScale(c, s, after, j, c.attempts);
    SavesFit(SavesAt(c, s, after, j, 1), cooldown, c.attempts, T);
  }

  // ---------- all goroutines ----------

  /** The attempts of the first n goroutines. */
  function AttemptsUpTo(c: Config, s: State, actions: seq<Action>, n: nat): nat {
    if n == 0 then 0 else AttemptsUpTo(c, s, actions, n - 1) + AttemptsBy(c, s, actions, n - 1)
  }

  lemma {:induction false} UpToSnoc(c: Config, s: State, actions: seq<Action>, n: nat)
    requires actions != []
    ensures var init, a := actions[..|actions| - 1], actions[|actions| - 1];
            AttemptsUpTo(c, s, actions, n)
            == AttemptsUpTo(c, s, init, n) + if IsAttempt(c, ExecFrom(c, s, init), a) && a.Actor() < n then 1 else 0
  {
    hide IsAttempt, ExecFrom;
    var init, a := actions[..|actions| - 1], actions[|actions| - 1];
    if n > 0 {
      UpToSnoc(c, s, actions, n - 1);
      assert AttemptsBy(c, s, actions, n - 1)
             == AttemptsBy(c, s, init, n - 1)
                + if IsAttempt(c, ExecFrom(c, s, init), a) && a.Actor() == n - 1 then 1 else 0;
    }
  }

  lemma {:induction false} UpToNothing(c: Config, s: State, n: nat)
    ensures AttemptsUpTo(c, s, [], n) == 0
  {
    if n > 0 { UpToNothing(c, s, n - 1); }
  }

  lemma AttemptIsSomeones(c: Config, s: State, a: Action)
    ensures IsAttempt(c, s, a) ==> a.Actor() < |s.jobs|
    ensures |Next(c, s, a).jobs| == |s.jobs|
  {
    hide EntriesOf, InFlight, Parsed;
    if Enabled(c, s, a) && !a.Wait? && !a.Halt? {
      OneMoves(c, s, a);
      hide Apply;
    }
  }

  lemma {:induction false} AttemptsAreEveryones(c: Config, s: State, actions: seq<Action>)
    ensures Attempts(c, s, actions) == AttemptsUpTo(c, s, actions, |s.jobs|)
    ensures |ExecFrom(c, s, actions).jobs| == |s.jobs|
  {
    hide Next, IsAttempt, AttemptsUpTo;
    if actions == [] {
      UpToNothing(c, s, |s.jobs|);
    } else {
      var n := |actions| - 1;
      AttemptsAreEveryones(c, s, actions[..n]);
      UpToSnoc(c, s, actions, |s.jobs|);
      AttemptIsSomeones(c, ExecFrom(c, s, actions[..n]), actions[n]);
    }
  }

  lemma {:induction false} UnderwaySnoc(c: Config, jobs: seq<Job>, job: Job)
    ensures Underway(c, jobs + [job]) == Underway(c, jobs) + Due(c, job)
  {
    hide Due;
    if jobs == [] {
      assert [] + [job] == [job] && [job][1..] == [];
    } else {
      UnderwaySnoc(c, jobs[1..], job);
      assert (jobs + [job])[1..] == jobs[1..] + [job];
    }
  }

  lemma {:induction false} SumOfBounds(c: Config, s: State, actions: seq<Action>, n: nat, share: nat)
    requires n <= |s.jobs|
    requires forall j: nat | j < n :: AttemptsBy(c, s, actions, j) <= Due(c, s.jobs[j]) + share
    ensures AttemptsUpTo(c, s, actions, n) <= Underway(c, s.jobs[..n]) + n * share
  {
    hide AttemptsBy, Due, Underway;
    if n > 0 {
      SumOfBounds(c, s, actions, n - 1, share);
      UnderwaySnoc(c, s.jobs[..n - 1], s.jobs[n - 1]);
      assert s.jobs[..n] == s.jobs[..n - 1] + [s.jobs[n - 1]];
      MulSucc(n - 1, share);
    }
  }

  /** So with N goroutines, however their probes overlap, an outage costs at most N * T/cooldown
      saves' attempts within T of opening, besides what was under way. */
  lemma {:induction false} OverlappingAttemptsBounded(c: Config, before: seq<Action>, after: seq<Action>, T: nat)
    requires c.breaker.Some? && c.breaker.value.1 > 0
    requires var s := Exec(c, before); s.up && s.breaker.state.Open?
    requires Unhealed(after)
    requires ExecFrom(c, Exec(c, before), after).now <= Exec(c, before).breaker.openedAt + T
    ensures var s := Exec(c, before);
            Attempts(c, s, after) <= Underway(c, s.jobs) + |s.jobs| * (T / c.breaker.value.1 * c.attempts)
  {
    hide ExecFrom, Due, AttemptsBy, Attempts, AttemptsUpTo, Underway, Unhealed;
    var s := Exec(c, before);
    forall j: nat | j < |s.jobs|
      ensures AttemptsBy(c, s, after, j) <= Due(c, s.jobs[j]) + T / c.breaker.value.1 * c.attempts
    {
      EachGoroutineIsBounded(c, before, after, j, T);
    }
    AttemptsAreEveryones(c, s, after);
    SumOfBounds(c, s, after, |s.jobs|, T / c.breaker.value.1 * c.attempts);
    assert s.jobs[..|s.jobs|] == s.jobs;
  }
}
