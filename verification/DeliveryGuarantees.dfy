/** What the delivery protocol keeps in every interleaving: each line in one place, and a bound on
    how many lines memory holds. */
module DeliveryGuarantees {
  import opened Prelude
  import opened Clients
  import opened Delivery

  // ---------- no line in two places ----------

  predicate FreshIds(s: State, t: Token) {
    && s.ledger.accepted[t] + s.ledger.torn[t] <= 1
    && (s.ledger.accepted[t] + s.ledger.torn[t] > 0 ==> t.id < s.ledger.nextId)
  }

  /** Only a read and a torn write bring tokens in. */
  lemma IntakeUnchanged(c: Config, s: State, a: Action)
    requires Enabled(c, s, a) && !a.Read? && !a.Halt?
    ensures var l, m := s.ledger, Apply(c, s, a).ledger;
            m.accepted == l.accepted && m.torn == l.torn && m.nextId == l.nextId
  {
    hide EntriesOf, InFlight, Entered, EnteredUnpaid, NotSent, Enabled;
  }

  lemma StepKeepsFreshIds(c: Config, s: State, a: Action, t: Token)
    requires FreshIds(s, t)
    ensures FreshIds(Next(c, s, a), t)
  {
    if Enabled(c, s, a) {
      if a.Read? || a.Halt? {
        hide InFlight, EntriesOf;
      } else {
        IntakeUnchanged(c, s, a);
        hide Apply, Enabled;
      }
    }
  }

  lemma {:induction false} EveryRunHasFreshIds(c: Config, actions: seq<Action>, t: Token)
    ensures FreshIds(Exec(c, actions), t)
  {
    if actions != [] {
      var s, a := Exec(c, actions[..|actions| - 1]), actions[|actions| - 1];
      EveryRunHasFreshIds(c, actions[..|actions| - 1], t);
      hide Next;
      StepKeepsFreshIds(c, s, a, t);
    }
  }

  /** In every interleaving each line that came in is in exactly one place, and no other line is
      anywhere. */
  lemma {:induction false} EveryLineIsInOnePlace(c: Config, actions: seq<Action>, t: Token)
    ensures var s := Exec(c, actions);
            Placed(s, t) == if t in s.ledger.accepted || t in s.ledger.torn then 1 else 0
  {
    EveryRunIsConserved(c, actions);
    EveryRunHasFreshIds(c, actions, t);
    assert Gap(Exec(c, actions), t) == 0;
  }

  // ---------- how many lines memory can hold ----------

  function Load(s: State): nat { |s.buffer| + |InFlight(s.jobs)| }

  /** Neither the buffer nor any batch is over the limit. */
  predicate Small(s: State, cap: nat) {
    && |s.buffer| <= cap
    && (forall i | 0 <= i < |s.jobs| :: |s.jobs[i].Held()| <= cap)
    && Stopped(s)
  }

  lemma {:induction false} InFlightBound(jobs: seq<Job>, cap: nat)
    requires forall i | 0 <= i < |jobs| :: |jobs[i].Held()| <= cap
    ensures |InFlight(jobs)| <= |jobs| * cap
  {
    hide Job.Held;
    if jobs != [] {
      var rest := jobs[1..];
      assert forall i | 0 <= i < |rest| :: rest[i] == jobs[i + 1];
      InFlightBound(rest, cap);
      assert |InFlight(jobs)| == |jobs[0].Held()| + |InFlight(rest)|;
      hide InFlight;
      MulSucc(|rest|, cap);
    }
  }

  lemma InFlightSize(jobs: seq<Job>, i: nat, job: Job)
    requires i < |jobs|
    ensures |InFlight(jobs[i := job])| + |jobs[i].Held()| == |InFlight(jobs)| + |job.Held()|
  {
    hide Job.Held, InFlight;
    InFlightUpdate(jobs, i, job);
    var before, after := InFlight(jobs), InFlight(jobs[i := job]);
    assert |after + multiset(jobs[i].Held())| == |before + multiset(job.Held())|;
  }

  /** From s to r only goroutine i moved, and it and the buffer together did not gain lines. */
  predicate MovesOne(c: Config, s: State, r: State, i: nat) {
    && i < |s.jobs| == |r.jobs| && r.jobs == s.jobs[i := r.jobs[i]]
    && |r.buffer| + |r.jobs[i].Held()| <= |s.buffer| + |s.jobs[i].Held()|
    && (|r.jobs[i].Held()| <= |s.jobs[i].Held()| || |r.jobs[i].Held()| == |s.buffer|)
    && (c.capacity.Some? && |s.buffer| <= c.capacity.value ==> |r.buffer| <= c.capacity.value)
  }

  lemma DrainedMovesOne(c: Config, s: State, i: nat, entries: seq<Entry>, next: Job, done: Job)
    requires i < |s.jobs| && s.jobs[i].Held() == [] && next.Held() == s.buffer && done.Held() == []
    ensures MovesOne(c, s, Drained(c, s, i, entries, next, done), i)
    ensures Drained(c, s, i, entries, next, done).up == s.up
  {
    var r := Drained(c, s, i, entries, next, done);
    var job := if s.buffer == [] || entries == [] then Idle else if c.attempts == 0 then done else next;
    EmptiedMovesOne(c, s, r, i, job);
    hide MovesOne;
  }

  lemma EmptiedMovesOne(c: Config, s: State, r: State, i: nat, job: Job)
    requires i < |s.jobs| && r.jobs == s.jobs[i := job] && r.buffer == []
    requires s.jobs[i].Held() == [] && (job.Held() == [] || job.Held() == s.buffer)
    ensures MovesOne(c, s, r, i)
  {
  }

  lemma TriedMovesOne(c: Config, s: State, i: nat, result: SendResult, rows: multiset<Entry>)
    requires i < |s.jobs| && Saves(s.jobs[i])
    ensures MovesOne(c, s, Tried(c, s, i, result, rows), i)
    ensures Tried(c, s, i, result, rows).up == s.up
  {
    hide Entered, EnteredUnpaid;
  }

  lemma DrainMovesOne(c: Config, s: State, i: nat, readOk: bool, entries: seq<Entry>)
    requires i < |s.jobs| && Reads(s.jobs[i])
    ensures MovesOne(c, s, DrainStep(c, s, i, readOk, entries), i)
    ensures DrainStep(c, s, i, readOk, entries).up == s.up
  {
    hide Drained;
    if readOk {
      hide MovesOne;
      if s.jobs[i].Recovering? {
        DrainedMovesOne(c, s, i, entries, Replaying(s.buffer, entries, 0), Idle);
      } else {
        DrainedMovesOne(c, s, i, entries, Saving(s.buffer, entries, 0), Reporting);
      }
    }
  }

  /** Short of the end of the process, an action other than a read moves one goroutine. */
  lemma StepMovesOne(c: Config, s: State, a: Action)
    requires Enabled(c, s, a) && !a.Halt? && !a.Wait? && !a.Read? && Stopped(s)
    ensures MovesOne(c, s, Apply(c, s, a), a.Actor()) && Apply(c, s, a).up
  {
    hide DrainStep, Tried, EntriesOf;
    match a
    case Drain(i, readOk, entries) =>
      hide MovesOne;
      DrainMovesOne(c, s, i, readOk, entries);
    case TrySave(i, result, rows) =>
      hide MovesOne;
      TriedMovesOne(c, s, i, result, rows);
    case _ =>
  }

  lemma HaltShrinks(c: Config, s: State, deleted: nat, fragment: Option<Line>)
    requires c.capacity.Some? && Enabled(c, s, Halt(deleted, fragment))
    ensures var r := Halted(c, s, deleted, fragment);
            r.buffer == [] && InFlight(r.jobs) == multiset{} && Stopped(r) && |r.jobs| == |s.jobs|
    ensures forall i | 0 <= i < |s.jobs| :: Halted(c, s, deleted, fragment).jobs[i] == Idle
  {
    hide InFlight;
    IdleHoldsNothing(AllIdle(|s.jobs|));
  }

  lemma MoveIsSmall(c: Config, s: State, r: State, i: nat, cap: nat)
    requires Small(s, cap) && c.capacity == Some(cap) && MovesOne(c, s, r, i) && r.up
    ensures Small(r, cap) && |r.jobs| == |s.jobs| && Load(r) <= Load(s)
  {
    hide InFlight, Job.Held;
    InFlightSize(s.jobs, i, r.jobs[i]);
  }

  lemma ReadIsSmall(c: Config, s: State, text: Line, ok: bool, cap: nat)
    requires Small(s, cap) && c.capacity == Some(cap) && Enabled(c, s, Read(text, ok))
    ensures var r := ReadIn(s, text, ok);
            && Small(r, cap) && |r.jobs| == |s.jobs|
            && (r == s || (s.jobs != [] && s.jobs[0].Held() == [] && r.jobs == s.jobs[0 := Counting]))
  {
  }

  lemma StepIsSmall(c: Config, s: State, a: Action, cap: nat)
    requires Small(s, cap) && c.capacity == Some(cap)
    ensures Small(Next(c, s, a), cap)
    ensures |Next(c, s, a).jobs| == |s.jobs|
    ensures !a.Read? ==> Load(Next(c, s, a)) <= Load(s)
    ensures a.Read? && Next(c, s, a) != s ==>
              s.jobs != [] && s.jobs[0].Held() == [] && Next(c, s, a).jobs == s.jobs[0 := Counting]
  {
    hide MovesOne, ReadIn, Halted, InFlight, EntriesOf;
    if Enabled(c, s, a) {
      if a.Halt? {
        HaltShrinks(c, s, a.deleted, a.fragment);
      } else if a.Read? {
        ReadIsSmall(c, s, a.text, a.ok, cap);
      } else if !a.Wait? {
        StepMovesOne(c, s, a);
        MoveIsSmall(c, s, Apply(c, s, a), a.Actor(), cap);
        hide Apply;
      }
    }
  }

  /** The reader holds nothing when it takes a line, so the line fits below the bound. */
  lemma ReadFits(s: State, r: State, cap: nat)
    requires Small(r, cap) && s.jobs != [] && s.jobs[0].Held() == [] && r.jobs == s.jobs[0 := Counting]
    ensures Load(r) <= |r.jobs| * cap
  {
    var rest := r.jobs[1..];
    assert forall i | 0 <= i < |rest| :: rest[i] == r.jobs[i + 1];
    InFlightBound(rest, cap);
    assert |InFlight(r.jobs)| == |r.jobs[0].Held()| + |InFlight(rest)|;
    assert |r.jobs[0].Held()| == 0;
    hide InFlight, Job.Held, Stopped;
    MulSucc(|rest|, cap);
  }

  lemma {:induction false} RunIsBounded(c: Config, actions: seq<Action>, cap: nat)
    requires c.capacity == Some(cap)
    ensures Small(Exec(c, actions), cap)
    ensures |Exec(c, actions).jobs| == 1 + c.flushers
    ensures Load(Exec(c, actions)) <= (1 + c.flushers) * cap
  {
    if actions == [] {
      IdleHoldsNothing(Init(c).jobs);
    } else {
      var s, a := Exec(c, actions[..|actions| - 1]), actions[|actions| - 1];
      RunIsBounded(c, actions[..|actions| - 1], cap);
      hide Next, Small, Load, InFlight;
      StepIsSmall(c, s, a, cap);
      if a.Read? && Next(c, s, a) != s {
        ReadFits(s, Next(c, s, a), cap);
      }
    }
  }

  /** A memory buffer of cap lines, a reader and F more flushers hold at most (1 + F) * cap lines
      at any time, buffered and in flight together. */
  lemma {:induction false} MemoryIsBounded(c: Config, actions: seq<Action>)
    requires c.capacity.Some?
    ensures Load(Exec(c, actions)) <= (1 + c.flushers) * c.capacity.value
  {
    RunIsBounded(c, actions, c.capacity.value);
  }

  // ---------- the replay ----------

  predicate InReplay(s: State) { s.up && s.jobs != [] && (s.jobs[0].Recovering? || s.jobs[0].Replaying?) }

  /** Only the main goroutine replays, and while it does everybody else waits. */
  predicate ReplayAlone(s: State) {
    && Stopped(s) && s.jobs != []
    && forall i | 0 < i < |s.jobs| ::
         !s.jobs[i].Recovering? && !s.jobs[i].Replaying? && (InReplay(s) ==> s.jobs[i].Idle?)
  }

  lemma StepReplaysAlone(c: Config, s: State, a: Action)
    requires ReplayAlone(s) && Enabled(c, s, a)
    ensures ReplayAlone(Apply(c, s, a))
  {
    StepKeepsStopped(c, s, a);
    if !a.Halt? && !a.Wait? && !a.Boot? {
      OneMoves(c, s, a);
      ReplayMoves(c, s, a);
      hide Apply, Enabled, Stopped;
    } else {
      hide EntriesOf, InFlight;
    }
  }

  /** Nobody starts to replay, and while the main goroutine replays nobody else has a step. */
  lemma ReplayMoves(c: Config, s: State, a: Action)
    requires ReplayAlone(s) && Enabled(c, s, a) && !a.Halt? && !a.Wait? && !a.Boot?
    ensures var i, r := a.Actor(), Apply(c, s, a);
            && i < |s.jobs| == |r.jobs| && r.up == s.up
            && (r.jobs[i].Recovering? || r.jobs[i].Replaying? ==> s.jobs[i].Recovering? || s.jobs[i].Replaying?)
            && (i > 0 ==> !InReplay(s))
  {
    hide EntriesOf, InFlight, Parsed, Entered, EnteredUnpaid, NotSent;
  }

  /** In every interleaving, as long as the lines of an earlier process are being replayed, no line is
      read and no flush is under way. */
  lemma {:induction false} ReplayComesFirst(c: Config, actions: seq<Action>, a: Action)
    ensures var s := Exec(c, actions);
            && s.jobs != []
            && (InReplay(s) ==> forall i | 0 < i < |s.jobs| :: s.jobs[i].Idle?)
            && (InReplay(s) && Enabled(c, s, a) ==>
                  a.Halt? || a.Wait? || (a.Actor() == 0 && (a.Drain? || a.TrySave?)))
  {
    RunReplaysAlone(c, actions);
    hide EntriesOf, Parsed;
  }

  lemma {:induction false} RunReplaysAlone(c: Config, actions: seq<Action>)
    ensures ReplayAlone(Exec(c, actions))
  {
    if actions != [] {
      var n := |actions| - 1;
      var s := Exec(c, actions[..n]);
      RunReplaysAlone(c, actions[..n]);
      if Enabled(c, s, actions[n]) { StepReplaysAlone(c, s, actions[n]); }
      hide Apply, Enabled, ReplayAlone;
    }
  }
}
