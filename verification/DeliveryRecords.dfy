/** Which calls flushes make on the breaker: one for every flush that asks, one for every save that
    ended, and none for a flush with nothing to save. */
module DeliveryRecords {
  import opened Prelude
  import B = CircuitBreakers
  import opened Clients
  import opened Delivery

  // ---------- what happened since the process began ----------

  /** Flushes that asked the breaker; saves of flushes acknowledged, or made without an attempt; and
      saves of flushes that used up their attempts. */
  datatype Tally = Tally(asked: nat, saved: nat, failed: nat)

  /** A flush, not the replay, gets its batch acknowledged. */
  predicate IsSaved(s: State, a: Action) {
    a.TrySave? && a.job < |s.jobs| && s.jobs[a.job].Saving? && a.result.Acked?
  }

  /** A flush drains something to save and no attempts are configured. */
  predicate IsSkipped(c: Config, s: State, a: Action) {
    && a.Drain? && a.job < |s.jobs| && s.jobs[a.job].Draining? && a.readOk
    && s.buffer != [] && a.entries != [] && c.attempts == 0
  }

  /** The last attempt of a flush's save fails. */
  predicate IsFailed(c: Config, s: State, a: Action) {
    && a.TrySave? && a.job < |s.jobs| && s.jobs[a.job].Saving? && !a.result.Acked?
    && s.jobs[a.job].tries + 1 >= c.attempts
  }

  /** The tally with one more step. */
  function Counted(c: Config, s: State, a: Action, t: Tally): Tally {
    Tally(t.asked + (if a.Allow? then 1 else 0),
          t.saved + (if IsSaved(s, a) || IsSkipped(c, s, a) then 1 else 0),
          t.failed + if IsFailed(c, s, a) then 1 else 0)
  }

  /** What a run comes to since the process last began. */
  function TallyOf(c: Config, actions: seq<Action>): Tally {
    if actions == [] then Tally(0, 0, 0)
    else
      var n := |actions| - 1;
      NextTally(c, Exec(c, actions[..n]), actions[n], TallyOf(c, actions[..n]))
  }

  function NextTally(c: Config, s: State, a: Action, t: Tally): Tally {
    if !Enabled(c, s, a) then t else if a.Boot? then Tally(0, 0, 0) else Counted(c, s, a, t)
  }

  // ---------- what the breaker was told ----------

  function Asked(calls: seq<B.Event>): nat {
    if calls == [] then 0 else Asked(calls[..|calls| - 1]) + if calls[|calls| - 1].Allowed? then 1 else 0
  }

  function Successes(calls: seq<B.Event>): nat {
    if calls == [] then 0 else Successes(calls[..|calls| - 1]) + if calls[|calls| - 1].Succeeded? then 1 else 0
  }

  function Failures(calls: seq<B.Event>): nat {
    if calls == [] then 0 else Failures(calls[..|calls| - 1]) + if calls[|calls| - 1].Failed? then 1 else 0
  }

  lemma CallsSnoc(calls: seq<B.Event>, e: B.Event)
    ensures Asked(calls + [e]) == Asked(calls) + if e.Allowed? then 1 else 0
    ensures Successes(calls + [e]) == Successes(calls) + if e.Succeeded? then 1 else 0
    ensures Failures(calls + [e]) == Failures(calls) + if e.Failed? then 1 else 0
  {
    assert (calls + [e])[..|calls|] == calls;
  }

  /** How many goroutines are about to record a success. */
  function Reportings(jobs: seq<Job>): nat {
    if jobs == [] then 0 else (if jobs[0].Reporting? then 1 else 0) + Reportings(jobs[1..])
  }

  /** How many goroutines are about to record a failure. */
  function GivenUps(jobs: seq<Job>): nat {
    if jobs == [] then 0 else (if jobs[0].GivenUp? then 1 else 0) + GivenUps(jobs[1..])
  }

  lemma {:induction false} MoveCounts(jobs: seq<Job>, i: nat, job: Job)
    requires i < |jobs|
    ensures Reportings(jobs[i := job]) + (if jobs[i].Reporting? then 1 else 0)
            == Reportings(jobs) + if job.Reporting? then 1 else 0
    ensures GivenUps(jobs[i := job]) + (if jobs[i].GivenUp? then 1 else 0)
            == GivenUps(jobs) + if job.GivenUp? then 1 else 0
  {
    if i > 0 {
      MoveCounts(jobs[1..], i - 1, job);
      assert jobs[i := job][1..] == jobs[1..][i - 1 := job];
    } else {
      assert jobs[0 := job][1..] == jobs[1..];
    }
  }

  lemma {:induction false} NobodyRecords(jobs: seq<Job>)
    requires forall i | 0 <= i < |jobs| :: jobs[i].Idle? || jobs[i].Recovering?
    ensures Reportings(jobs) == 0 && GivenUps(jobs) == 0
  {
    if jobs != [] { NobodyRecords(jobs[1..]); }
  }

  // ---------- the account ----------

  predicate Accounted(s: State, t: Tally) {
    && Asked(s.calls) == t.asked
    && Successes(s.calls) + Reportings(s.jobs) == t.saved
    && Failures(s.calls) + GivenUps(s.jobs) == t.failed
  }

  /** What one step of a goroutine does to its place and to the calls. */
  predicate MovesFor(c: Config, s: State, r: State, a: Action) {
    var i := a.Actor();
    && i < |s.jobs| == |r.jobs|
    && (r.jobs[i].Reporting? <==> IsSaved(s, a) || IsSkipped(c, s, a))
    && (r.jobs[i].GivenUp? <==> IsFailed(c, s, a))
    && (s.jobs[i].Reporting? <==> a.RecordSuccess?)
    && (s.jobs[i].GivenUp? <==> a.RecordFailure?)
    && (a.Allow? ==> r.calls == s.calls + [B.Allowed(s.now)])
    && (a.RecordSuccess? ==> r.calls == s.calls + [B.Succeeded(s.now)])
    && (a.RecordFailure? ==> r.calls == s.calls + [B.Failed(s.now)])
    && (!a.Allow? && !a.RecordSuccess? && !a.RecordFailure? ==> r.calls == s.calls)
  }

  lemma StepMoves(c: Config, s: State, a: Action)
    requires c.breaker.Some? && Enabled(c, s, a) && !a.Boot? && !a.Wait? && !a.Halt?
    ensures MovesFor(c, s, Apply(c, s, a), a)
  {
    hide EntriesOf, InFlight, Parsed, Entered, EnteredUnpaid, NotSent, DrainStep, Tried, Rebuffered;
    match a
    case Drain(i, readOk, entries) => DrainMoves(c, s, i, readOk, entries);
    case TrySave(i, result, rows) => TryMoves(c, s, i, result, rows);
    case Rebuffer(i, ok) => RebufferMoves(c, s, i, ok);
    case _ =>
  }

  lemma DrainMoves(c: Config, s: State, i: nat, readOk: bool, entries: seq<Entry>)
    requires i < |s.jobs| && Reads(s.jobs[i])
    ensures MovesFor(c, s, DrainStep(c, s, i, readOk, entries), Drain(i, readOk, entries))
  {
    hide NotSent;
  }

  lemma TryMoves(c: Config, s: State, i: nat, result: SendResult, rows: multiset<Entry>)
    requires i < |s.jobs| && Saves(s.jobs[i])
    ensures MovesFor(c, s, Tried(c, s, i, result, rows), TrySave(i, result, rows))
  {
    hide Entered, EnteredUnpaid;
  }

  lemma RebufferMoves(c: Config, s: State, i: nat, ok: bool)
    requires i < |s.jobs| && s.jobs[i].Rebuffering? && s.jobs[i].batch != []
    ensures MovesFor(c, s, Rebuffered(s, i, ok), Rebuffer(i, ok))
  {
  }

  lemma MoveAccounts(c: Config, s: State, r: State, a: Action, t: Tally)
    requires Accounted(s, t) && MovesFor(c, s, r, a) && r.jobs == s.jobs[a.Actor() := r.jobs[a.Actor()]]
    ensures Accounted(r, Counted(c, s, a, t))
  {
    hide IsSaved, IsSkipped, IsFailed, Asked, Successes, Failures, Reportings, GivenUps;
    MoveCounts(s.jobs, a.Actor(), r.jobs[a.Actor()]);
    CallsSnoc(s.calls, B.Allowed(s.now));
    CallsSnoc(s.calls, B.Succeeded(s.now));
    CallsSnoc(s.calls, B.Failed(s.now));
  }

  lemma StepAccounts(c: Config, s: State, a: Action, t: Tally)
    requires c.breaker.Some? && Enabled(c, s, a) && !a.Boot? && !a.Wait? && !a.Halt? && Accounted(s, t)
    ensures Accounted(Apply(c, s, a), Counted(c, s, a, t))
  {
    OneMoves(c, s, a);
    StepMoves(c, s, a);
    hide Enabled, Apply;
    MoveAccounts(c, s, Apply(c, s, a), a, t);
  }

  lemma BootAccounts(c: Config, s: State)
    requires Stopped(s) && !s.up && |s.jobs| > 0
    ensures Accounted(Booted(c, s), Tally(0, 0, 0)) && Booted(c, s).breaker == NewBreaker(c)
  {
    NobodyRecords(Booted(c, s).jobs);
  }

  lemma WaitAccounts(c: Config, s: State, time: nat, t: Tally)
    requires Accounted(s, t)
    ensures Accounted(Apply(c, s, Wait(time)), Counted(c, s, Wait(time), t))
  {
  }

  lemma RunningIs(c: Config, s: State, a: Action)
    requires Enabled(c, s, a)
    ensures !a.Boot? && !a.Wait? ==> s.up
    ensures a.Boot? ==> !s.up && |s.jobs| > 0
    ensures a.Wait? || a.Halt? ==> Apply(c, s, a).up == (s.up && a.Wait?)
  {
    hide Parsed, EntriesOf, InFlight, DrainStep, Tried, Rebuffered, Asked, Booted;
  }

  lemma NextAccounts(c: Config, s: State, a: Action, t: Tally)
    requires c.breaker.Some? && Stopped(s) && (s.up ==> Accounted(s, t))
    ensures Next(c, s, a).up ==> Accounted(Next(c, s, a), NextTally(c, s, a, t))
  {
    if Enabled(c, s, a) {
      RunningIs(c, s, a);
      hide Accounted, Stopped, Enabled, Apply, Counted, Booted;
      match a {
        case Boot => BootAccounts(c, s); assert Next(c, s, a) == Booted(c, s) by { BootIs(c, s); }
        case Wait(time) => if s.up { WaitAccounts(c, s, time, t); }
        case Halt(_, _) =>
        case _ => StepAccounts(c, s, a, t);
      }
    }
  }

  lemma BootIs(c: Config, s: State)
    requires Enabled(c, s, Boot)
    ensures Next(c, s, Boot) == Booted(c, s)
  {
  }

  lemma {:induction false} RunAccounts(c: Config, actions: seq<Action>)
    requires c.breaker.Some?
    ensures Stopped(Exec(c, actions))
    ensures Exec(c, actions).up ==> Accounted(Exec(c, actions), TallyOf(c, actions))
  {
    hide Accounted, Next, NextTally;
    if actions != [] {
      var n := |actions| - 1;
      var s := Exec(c, actions[..n]);
      RunAccounts(c, actions[..n]);
      StepKeepsStopped(c, s, actions[n]);
      NextAccounts(c, s, actions[n], TallyOf(c, actions[..n]));
    }
  }

  /** In every interleaving, since the process began, the breaker was asked once by every flush, and
      its recorded successes, with those about to be recorded, are the saves of flushes that were
      acknowledged or needed no attempt; its recorded failures, with those about to be, are the
      saves that used up their attempts. Replays, and flushes with nothing to save, record nothing. */
  lemma {:induction false} EverySaveIsRecorded(c: Config, actions: seq<Action>)
    requires c.breaker.Some? && Exec(c, actions).up
    ensures var s, t := Exec(c, actions), TallyOf(c, actions);
            && Asked(s.calls) == t.asked
            && Successes(s.calls) + Reportings(s.jobs) == t.saved
            && Failures(s.calls) + GivenUps(s.jobs) == t.failed
  {
    RunAccounts(c, actions);
  }

  /** A flush that cannot read the buffer, finds no line in it, or is left with no entry is over at
      once, and the breaker is as asking left it. */
  lemma NothingToSaveRecordsNothing(c: Config, s: State, i: nat, readOk: bool, entries: seq<Entry>)
    requires Enabled(c, s, Drain(i, readOk, entries)) && s.jobs[i].Draining?
    ensures var r := Apply(c, s, Drain(i, readOk, entries));
            && (!readOk || s.buffer == [] || entries == [] <==> r.jobs[i].Idle?)
            && r.breaker == s.breaker && r.calls == s.calls
            && (r.jobs[i].Idle? ==> !Enabled(c, r, RecordSuccess(i)) && !Enabled(c, r, RecordFailure(i)))
  {
    hide EntriesOf, InFlight, Parsed, NotSent;
  }
}
