/** The attempts the protocol interleaves are the attempts of the inserting client's Save. */
module DeliverySave {
  import opened Prelude
  import Retry
  import opened Clients
  import opened Delivery
  import opened DeliverySchedules

  /** How the protocol sees what one attempt of the client came to. */
  function ResultOf(a: Attempt, connected: bool): SendResult {
    if Connects(a, connected) && a.prepares then a.sends else NotStored
  }

  function AttemptStep(i: nat, a: Attempt, connected: bool, entries: seq<Entry>): Action {
    TrySave(i, ResultOf(a, connected), multiset(Rows(entries, a.rowFails)))
  }

  /** The first n attempts of a Save as steps of goroutine i, with steps of others before each. */
  function SaveSteps(i: nat, connected: bool, world: nat -> Attempt, entries: seq<Entry>,
                     others: nat -> seq<Action>, n: nat): seq<Action> {
    if n == 0 then []
    else
      SaveSteps(i, connected, world, entries, others, n - 1) + others(n - 1)
      + [AttemptStep(i, world(n - 1), connected && n == 1, entries)]
  }

  // ---------- whose rows and whose lines ----------

  /** What steps add: rows of the table, and settled lines. */
  datatype Share = Share(rows: multiset<Entry>, settled: seq<Token>) {
    function Plus(more: Share): Share { Share(rows + more.rows, settled + more.settled) }
  }

  const NOTHING := Share(multiset{}, [])

  /** What an attempt of goroutine i adds. */
  function StepShare(c: Config, s: State, i: nat, a: Action): Share {
    if Enabled(c, s, a) && a.TrySave? && a.job == i then
      Share(if a.result.NotStored? then multiset{} else a.rows, if a.result.Acked? then s.jobs[i].batch else [])
    else NOTHING
  }

  /** What the attempts of goroutine i add in a run. */
  function ShareOf(c: Config, s: State, actions: seq<Action>, i: nat): Share {
    if actions == [] then NOTHING
    else
      var n := |actions| - 1;
      ShareOf(c, s, actions[..n], i).Plus(StepShare(c, ExecFrom(c, s, actions[..n]), i, actions[n]))
  }

  /** The rows that all attempts add in a run. */
  function AllRowsAdded(c: Config, s: State, actions: seq<Action>, jobs: nat): multiset<Entry> {
    if jobs == 0 then multiset{}
    else AllRowsAdded(c, s, actions, jobs - 1) + ShareOf(c, s, actions, jobs - 1).rows
  }

  lemma ShareSnoc(c: Config, s: State, actions: seq<Action>, a: Action, i: nat)
    ensures ShareOf(c, s, actions + [a], i)
            == ShareOf(c, s, actions, i).Plus(StepShare(c, ExecFrom(c, s, actions), i, a))
  {
    hide StepShare;
    assert (actions + [a])[..|actions|] == actions;
  }

  lemma MineSnoc(c: Config, s: State, actions: seq<Action>, a: Action, i: nat)
    ensures var mine, more := ShareOf(c, s, actions, i).rows, ShareOf(c, s, actions + [a], i).rows;
            && (a.Actor() == i ==> more == mine + StepShare(c, ExecFrom(c, s, actions), i, a).rows)
            && (a.Actor() != i ==> more == mine)
  {
    hide StepShare, ShareOf, ExecFrom;
    ShareSnoc(c, s, actions, a, i);
    OnlyActorAdds(c, ExecFrom(c, s, actions), a, i);
    PlusNothing(ShareOf(c, s, actions, i));
  }

  lemma {:induction false} AddedSnoc(c: Config, s: State, actions: seq<Action>, a: Action, jobs: nat)
    ensures var step := StepShare(c, ExecFrom(c, s, actions), a.Actor(), a).rows;
            var all, more := AllRowsAdded(c, s, actions, jobs), AllRowsAdded(c, s, actions + [a], jobs);
            && (a.Actor() < jobs ==> more == all + step)
            && (a.Actor() >= jobs ==> more == all)
    decreases jobs
  {
    hide ShareOf, ExecFrom, StepShare;
    if jobs > 0 {
      AddedSnoc(c, s, actions, a, jobs - 1);
      MineSnoc(c, s, actions, a, jobs - 1);
      OneMoreJob(c, s, actions, jobs);
      OneMoreJob(c, s, actions + [a], jobs);
      hide AllRowsAdded;
      Regroup(AllRowsAdded(c, s, actions, jobs - 1), ShareOf(c, s, actions, jobs - 1).rows,
              StepShare(c, ExecFrom(c, s, actions), a.Actor(), a).rows);
    }
  }

  lemma OneMoreJob(c: Config, s: State, actions: seq<Action>, jobs: nat)
    requires jobs > 0
    ensures AllRowsAdded(c, s, actions, jobs)
            == AllRowsAdded(c, s, actions, jobs - 1) + ShareOf(c, s, actions, jobs - 1).rows
  {
  }

  lemma OnlyActorAdds(c: Config, s: State, a: Action, i: nat)
    ensures a.Actor() != i ==> StepShare(c, s, i, a) == NOTHING
  {
    hide Enabled;
  }

  lemma Regroup(a: multiset<Entry>, b: multiset<Entry>, x: multiset<Entry>)
    ensures (a + x) + b == (a + b) + x
    ensures a + (b + x) == (a + b) + x
  {
  }

  /** An attempt changes the table by what it adds, and nothing else changes the table. */
  lemma StepAdds(c: Config, s: State, a: Action)
    ensures Next(c, s, a).books.table == s.books.table + StepShare(c, s, a.Actor(), a).rows
    ensures |Next(c, s, a).jobs| == |s.jobs|
    ensures StepShare(c, s, a.Actor(), a) != NOTHING ==> a.Actor() < |s.jobs|
  {
    if Enabled(c, s, a) && a.TrySave? {
      AttemptAdds(c, s, a.job, a.result, a.rows);
      hide Tried;
    } else {
      QuietStepAdds(c, s, a);
      hide Next;
      assert s.books.table + multiset{} == s.books.table;
    }
  }

  lemma AttemptAdds(c: Config, s: State, i: nat, result: SendResult, rows: multiset<Entry>)
    requires i < |s.jobs| && Saves(s.jobs[i])
    ensures var r := Tried(c, s, i, result, rows);
            r.books.table == s.books.table + (if result.NotStored? then multiset{} else rows) && |r.jobs| == |s.jobs|
  {
    assert s.books.table + multiset{} == s.books.table;
  }

  lemma QuietStepAdds(c: Config, s: State, a: Action)
    requires !(Enabled(c, s, a) && a.TrySave?)
    ensures Next(c, s, a).books.table == s.books.table && |Next(c, s, a).jobs| == |s.jobs|
  {
    hide EntriesOf, InFlight, Parsed, Tried, Drained;
    if Enabled(c, s, a) && !a.Wait? && !a.Halt? { OneMoves(c, s, a); }
    if a.Drain? && a.job < |s.jobs| {
      DrainAdds(c, s, a.job, a.entries, Replaying(s.buffer, a.entries, 0), Idle);
      DrainAdds(c, s, a.job, a.entries, Saving(s.buffer, a.entries, 0), Reporting);
    }
  }

  lemma DrainAdds(c: Config, s: State, i: nat, entries: seq<Entry>, next: Job, done: Job)
    requires i < |s.jobs|
    ensures Drained(c, s, i, entries, next, done).books.table == s.books.table
  {
  }

  /** In every run the table is what it was and the shares of all goroutines. */
  lemma {:induction false} TableIsShares(c: Config, s: State, actions: seq<Action>)
    ensures var r := ExecFrom(c, s, actions);
            r.books.table == s.books.table + AllRowsAdded(c, s, actions, |s.jobs|) && |r.jobs| == |s.jobs|
  {
    hide Next, StepShare;
    if actions == [] {
      NothingAdded(c, s, |s.jobs|);
      assert s.books.table + multiset{} == s.books.table;
    } else {
      var n := |actions| - 1;
      var init, a := actions[..n], actions[n];
      TableIsShares(c, s, init);
      StepAdds(c, ExecFrom(c, s, init), a);
      AddedSnoc(c, s, init, a, |s.jobs|);
      assert init + [a] == actions;
      hide AllRowsAdded;
    }
  }

  lemma {:induction false} NothingAdded(c: Config, s: State, jobs: nat)
    ensures AllRowsAdded(c, s, [], jobs) == multiset{}
  {
    if jobs > 0 { NothingAdded(c, s, jobs - 1); }
  }

  lemma {:induction false} OthersAddNothing(c: Config, s: State, actions: seq<Action>, others: seq<Action>, i: nat)
    requires AllOfOthers(i, others)
    ensures ShareOf(c, s, actions + others, i) == ShareOf(c, s, actions, i)
    decreases |others|
  {
    hide ExecFrom, StepShare, OfOthers, ShareOf, Share.Plus;
    if others == [] {
      assert actions + others == actions;
    } else {
      var n := |others| - 1;
      assert forall k | 0 <= k < n :: others[..n][k] == others[k];
      OthersAddNothing(c, s, actions, others[..n], i);
      ShareSnoc(c, s, actions + others[..n], others[n], i);
      assert actions + others == actions + others[..n] + [others[n]];
      OtherAddsNothing(c, ExecFrom(c, s, actions + others[..n]), others[n], i);
      PlusNothing(ShareOf(c, s, actions, i));
    }
  }

  lemma OtherAddsNothing(c: Config, s: State, a: Action, i: nat)
    requires OfOthers(i, a)
    ensures StepShare(c, s, i, a) == NOTHING
  {
    hide Enabled;
  }

  lemma PlusNothing(share: Share)
    ensures share.Plus(NOTHING) == share && NOTHING.Plus(share) == share
  {
  }

  // ---------- one Save among others' steps ----------

  /** After these actions goroutine i is at job and has added this much. */
  ghost predicate At(c: Config, s: State, actions: seq<Action>, i: nat, job: Job, share: Share) {
    var r := ExecFrom(c, s, actions);
    r.up && i < |s.jobs| == |r.jobs| && r.jobs[i] == job && ShareOf(c, s, actions, i) == share
  }

  lemma OthersBetween(c: Config, s: State, actions: seq<Action>, others: seq<Action>, i: nat, job: Job, share: Share)
    requires At(c, s, actions, i, job, share) && AllOfOthers(i, others)
    ensures At(c, s, actions + others, i, job, share)
  {
    hide ExecFrom, ShareOf;
    RunOfOthersLeaves(c, ExecFrom(c, s, actions), i, others);
    ExecConcat(c, s, actions, others);
    OthersAddNothing(c, s, actions, others, i);
  }

  /** Where an attempt takes a goroutine. */
  function AfterAttempt(c: Config, job: Job, ok: bool): Job
    requires job.Saving?
  {
    if ok then Reporting
    else if job.tries + 1 < c.attempts then Saving(job.batch, job.entries, job.tries + 1)
    else GivenUp(job.batch)
  }

  function AttemptShare(job: Job, a: Attempt, connected: bool): Share
    requires job.Saving?
  {
    Share(multiset(Stored(a, connected, job.entries)), if Succeeds(a, connected) then job.batch else [])
  }

  lemma AttemptStepIs(c: Config, s: State, i: nat, a: Attempt, connected: bool)
    requires s.up && i < |s.jobs| && s.jobs[i].Saving?
    ensures var job := s.jobs[i];
            var step := AttemptStep(i, a, connected, job.entries);
            var r := Next(c, s, step);
            && r.up && |r.jobs| == |s.jobs| && r.jobs[i] == AfterAttempt(c, job, Succeeds(a, connected))
            && StepShare(c, s, i, step) == AttemptShare(job, a, connected)
  {
    hide Parsed, EntriesOf, Rows;
    RowsArePart(s.jobs[i].entries, a.rowFails);
  }

  lemma RowsArePart(entries: seq<Entry>, rowFails: nat -> bool)
    ensures multiset(Rows(entries, rowFails)) <= multiset(entries)
  {
    hide Rows, Missed;
    RowsAndMissed(entries, rowFails);
    var rows, missed := multiset(Rows(entries, rowFails)), multiset(Missed(entries, rowFails));
    forall e ensures rows[e] <= multiset(entries)[e] {
      assert (rows + missed)[e] == rows[e] + missed[e];
    }
  }

  /** One more attempt. */
  lemma MoreAttempts(c: Config, s: State, actions: seq<Action>, i: nat, job: Job, share: Share,
                     a: Attempt, connected: bool)
    requires job.Saving? && At(c, s, actions, i, job, share)
    ensures At(c, s, actions + [AttemptStep(i, a, connected, job.entries)], i,
               AfterAttempt(c, job, Succeeds(a, connected)), share.Plus(AttemptShare(job, a, connected)))
  {
    hide Next, AttemptStep, Succeeds, Stored, AfterAttempt, AttemptShare;
    var step := AttemptStep(i, a, connected, job.entries);
    AttemptStepIs(c, ExecFrom(c, s, actions), i, a, connected);
    ExecSnoc(c, s, actions, step);
    ShareSnoc(c, s, actions, step, i);
  }

  /** Where n failed attempts take a goroutine. */
  function AfterFailed(c: Config, job: Job, n: nat): Job
    requires job.Saving?
  {
    if n < c.attempts then Saving(job.batch, job.entries, n) else GivenUp(job.batch)
  }

  predicate OthersOnly(i: nat, others: nat -> seq<Action>, n: nat) {
    forall k | 0 <= k < n :: AllOfOthers(i, others(k))
  }

  /** The n-th attempt with the steps of others before it. */
  lemma NextAttempt(c: Config, s: State, i: nat, job: Job, connected: bool, world: nat -> Attempt,
                    others: nat -> seq<Action>, n: nat, share: Share)
    requires n > 0 && job.Saving? && AllOfOthers(i, others(n - 1))
    requires At(c, s, SaveSteps(i, connected, world, job.entries, others, n - 1), i, job, share)
    ensures At(c, s, SaveSteps(i, connected, world, job.entries, others, n), i,
               AfterAttempt(c, job, Succeeds(world(n - 1), connected && n == 1)),
               share.Plus(AttemptShare(job, world(n - 1), connected && n == 1)))
  {
    var steps := SaveSteps(i, connected, world, job.entries, others, n - 1);
    OthersBetween(c, s, steps, others(n - 1), i, job, share);
    MoreAttempts(c, s, steps + others(n - 1), i, job, share, world(n - 1), connected && n == 1);
    hide At, AttemptStep, Succeeds, Stored, AfterAttempt, AttemptShare, AllOfOthers;
  }

  /** n failed attempts. */
  lemma {:induction false} FailedAttempts(c: Config, s: State, i: nat, job: Job, connected: bool,
                                          world: nat -> Attempt, others: nat -> seq<Action>, n: nat)
    requires s.up && i < |s.jobs| && s.jobs[i] == job && job.Saving? && job.tries == 0 && 0 < c.attempts
    requires n <= c.attempts && OthersOnly(i, others, n)
    requires forall k: nat | k < n :: !Succeeds(world(k), connected && k == 0)
    ensures At(c, s, SaveSteps(i, connected, world, job.entries, others, n), i, AfterFailed(c, job, n),
               Share(multiset(Inserted(connected, world, job.entries, n)), []))
    decreases n
  {
    hide Succeeds, AllOfOthers, SaveSteps, Inserted, At, AfterFailed;
    if n == 0 {
      NoAttempts(c, s, i, connected, world, others);
    } else {
      assert AllOfOthers(i, others(n - 1));
      assert !Succeeds(world(n - 1), connected && n - 1 == 0);
      FailedAttempts(c, s, i, job, connected, world, others, n - 1);
      AnotherFailed(c, s, i, job, connected, world, others, n);
    }
  }

  lemma AnotherFailed(c: Config, s: State, i: nat, job: Job, connected: bool, world: nat -> Attempt,
                      others: nat -> seq<Action>, n: nat)
    requires job.Saving? && 0 < n <= c.attempts && AllOfOthers(i, others(n - 1))
    requires !Succeeds(world(n - 1), connected && n == 1)
    requires At(c, s, SaveSteps(i, connected, world, job.entries, others, n - 1), i, AfterFailed(c, job, n - 1),
                Share(multiset(Inserted(connected, world, job.entries, n - 1)), []))
    ensures At(c, s, SaveSteps(i, connected, world, job.entries, others, n), i, AfterFailed(c, job, n),
               Share(multiset(Inserted(connected, world, job.entries, n)), []))
  {
    hide Succeeds, Stored, AttemptStep, AllOfOthers, SaveSteps, Inserted, At;
    var share := Share(multiset(Inserted(connected, world, job.entries, n - 1)), []);
    NextAttempt(c, s, i, AfterFailed(c, job, n - 1), connected, world, others, n, share);
    ShareGrows(job, connected, world, n);
  }

  lemma NoAttempts(c: Config, s: State, i: nat, connected: bool, world: nat -> Attempt, others: nat -> seq<Action>)
    requires s.up && i < |s.jobs| && s.jobs[i].Saving? && s.jobs[i].tries == 0 && 0 < c.attempts
    ensures var job := s.jobs[i];
            At(c, s, SaveSteps(i, connected, world, job.entries, others, 0), i, AfterFailed(c, job, 0),
               Share(multiset(Inserted(connected, world, job.entries, 0)), []))
  {
  }

  lemma ShareGrows(job: Job, connected: bool, world: nat -> Attempt, n: nat)
    requires job.Saving? && n > 0
    ensures var up, ok := connected && n == 1, Succeeds(world(n - 1), connected && n == 1);
            Share(multiset(Inserted(connected, world, job.entries, n - 1)), [])
              .Plus(AttemptShare(job, world(n - 1), up))
            == Share(multiset(Inserted(connected, world, job.entries, n)), if ok then job.batch else [])
  {
    hide Stored, Succeeds;
    assert [] + job.batch == job.batch;
  }

  /** The attempts of a Save: all but the last fail, and they are all that were allowed unless the
      last succeeds. */
  lemma SaveAttempts(settings: Settings, connected: bool, world: nat -> Attempt, entries: seq<Entry>)
    requires settings.Valid() && settings.Attempts() > 0 && entries != []
    ensures var calls := SaveCalls(settings, connected, world, entries);
            && 0 < calls <= settings.Attempts()
            && (forall k: nat | k < calls - 1 :: !Succeeds(world(k), connected && k == 0))
            && (Succeeds(world(calls - 1), connected && calls == 1) || calls == settings.Attempts())
  {
    hide Succeeds, Outcomes, Retry.CallsFrom;
    var fn := Outcomes(connected, world);
    Retry.CallsStopAtSuccess(fn, 0, settings.Attempts());
    var calls := SaveCalls(settings, connected, world, entries);
    assert calls == Retry.CallsFrom(fn, 0, settings.Attempts());
    forall k: nat | k < calls ensures fn(k).None? <==> Succeeds(world(k), connected && k == 0) {
      OutcomeIs(connected, world, k);
    }
  }

  /** A goroutine that runs its batch through the attempts of one Save, with any steps of others
      between them, comes to the answer Save gives: its share of the table is the rows Save
      inserts, and the batch is settled or given up accordingly. An attempt that finds a connection
      some other goroutine left counts as one that dials. */
  lemma {:induction false} SaveIsItsSteps(c: Config, s: State, i: nat, settings: Settings, connected: bool,
                                          world: nat -> Attempt, others: nat -> seq<Action>)
    requires settings.Valid() && c.attempts == settings.Attempts() > 0
    requires s.up && i < |s.jobs| && s.jobs[i].Saving? && s.jobs[i].tries == 0 && s.jobs[i].entries != []
    requires OthersOnly(i, others, c.attempts)
    ensures var job := s.jobs[i];
            var calls := SaveCalls(settings, connected, world, job.entries);
            var ok := calls > 0 && Succeeds(world(calls - 1), connected && calls == 1);
            At(c, s, SaveSteps(i, connected, world, job.entries, others, calls), i,
               if ok then Reporting else GivenUp(job.batch),
               Share(multiset(Inserted(connected, world, job.entries, calls)), if ok then job.batch else []))
  {
    hide Succeeds, Stored, AttemptStep, At, SaveCalls, Settings.Attempts, Inserted, SaveSteps, AllOfOthers;
    var job := s.jobs[i];
    SaveAttempts(settings, connected, world, job.entries);
    var calls := SaveCalls(settings, connected, world, job.entries);
    FailedAttempts(c, s, i, job, connected, world, others, calls - 1);
    assert AllOfOthers(i, others(calls - 1));
    var share := Share(multiset(Inserted(connected, world, job.entries, calls - 1)), []);
    NextAttempt(c, s, i, AfterFailed(c, job, calls - 1), connected, world, others, calls, share);
    ShareGrows(job, connected, world, calls);
  }
}
