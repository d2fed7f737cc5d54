/** Exactly when a run loses lines. */
module DeliveryLosses {
  import opened Prelude
  import opened Clients
  import opened Delivery

  // ---------- lost lines ----------

  /** Everything that was lost, wherever. */
  function Lost(s: State): nat { |s.ledger.lostAtEnd| + |s.ledger.lostInReplay| + |s.ledger.dropped| }

  predicate NobodyHolds(s: State) { forall i | 0 <= i < |s.jobs| :: s.jobs[i].Held() == [] }

  /** The end of the process finds nothing that would go with it: no batch in flight, no line in
      memory and no segment deleted. */
  predicate HaltHarmless(c: Config, s: State, deleted: nat) {
    && NobodyHolds(s)
    && (if c.capacity.Some? then s.buffer == [] else deleted == 0)
  }

  /** A failed attempt after which a replay is over. */
  predicate EndsReplay(c: Config, s: State, a: Action) {
    && a.TrySave? && a.job < |s.jobs| && s.jobs[a.job].Replaying?
    && !a.result.Acked? && s.jobs[a.job].tries + 1 >= c.attempts
  }

  predicate Harmless(c: Config, s: State, a: Action) {
    && (a.Halt? ==> HaltHarmless(c, s, a.deleted))
    && !EndsReplay(c, s, a)
    && (a.Rebuffer? ==> a.ok)
  }

  /** Every step that happens in a run from s is harmless. */
  ghost predicate HarmlessFrom(c: Config, s: State, actions: seq<Action>) {
    forall k | 0 <= k < |actions| ::
      var m := ExecFrom(c, s, actions[..k]); Enabled(c, m, actions[k]) ==> Harmless(c, m, actions[k])
  }

  /** A replay never holds an empty batch. */
  predicate ReplaysLines(s: State) {
    forall i | 0 <= i < |s.jobs| :: s.jobs[i].Replaying? ==> s.jobs[i].batch != []
  }

  lemma StepReplaysLines(c: Config, s: State, a: Action)
    requires ReplaysLines(s)
    ensures ReplaysLines(Next(c, s, a))
  {
    hide EntriesOf, InFlight, Parsed;
    if Enabled(c, s, a) && !a.Wait? && !a.Halt? {
      OneMoves(c, s, a);
      MovedReplaysLines(c, s, a);
      hide Enabled, Apply;
    }
  }

  lemma MovedReplaysLines(c: Config, s: State, a: Action)
    requires Enabled(c, s, a) && !a.Wait? && !a.Halt?
    ensures var i, r := a.Actor(), Apply(c, s, a);
            && i < |s.jobs| == |r.jobs|
            && (r.jobs[i].Replaying? ==>
                  r.jobs[i].batch != [] || (s.jobs[i].Replaying? && r.jobs[i].batch == s.jobs[i].batch))
  {
    hide EntriesOf, InFlight, Parsed, Entered, EnteredUnpaid, NotSent;
  }

  lemma {:induction false} InFlightNothing(jobs: seq<Job>)
    ensures |InFlight(jobs)| == 0 <==> forall i | 0 <= i < |jobs| :: jobs[i].Held() == []
  {
    hide Job.Held;
    if jobs != [] {
      InFlightNothing(jobs[1..]);
      assert |InFlight(jobs)| == |jobs[0].Held()| + |InFlight(jobs[1..])|;
      assert forall i | 0 < i < |jobs| :: jobs[i] == jobs[1..][i - 1];
    }
  }

  lemma HaltLoses(c: Config, s: State, deleted: nat, fragment: Option<Line>)
    requires Enabled(c, s, Halt(deleted, fragment))
    ensures var r := Halted(c, s, deleted, fragment);
            && Lost(r) == Lost(s) + (if c.capacity.Some? then |s.buffer| else deleted) + |InFlight(s.jobs)|
            && (Lost(r) == Lost(s) <==> HaltHarmless(c, s, deleted))
  {
    InFlightNothing(s.jobs);
    hide InFlight, Job.Held;
    var gone := if c.capacity.Some? then |s.buffer| else deleted;
    assert |s.ledger.lostAtEnd + multiset(s.buffer[..gone]) + InFlight(s.jobs)|
           == |s.ledger.lostAtEnd| + gone + |InFlight(s.jobs)|;
  }

  lemma AttemptLoses(c: Config, s: State, i: nat, result: SendResult, rows: multiset<Entry>)
    requires Enabled(c, s, TrySave(i, result, rows))
    ensures Lost(Tried(c, s, i, result, rows))
            == Lost(s) + if EndsReplay(c, s, TrySave(i, result, rows)) then |s.jobs[i].batch| else 0
  {
    hide Entered, EnteredUnpaid, EntriesOf, InFlight;
  }

  lemma RebufferLoses(s: State, i: nat, ok: bool)
    requires i < |s.jobs| && s.jobs[i].Rebuffering? && s.jobs[i].batch != []
    ensures Lost(Rebuffered(s, i, ok)) == Lost(s) + if ok then 0 else 1
  {
    hide InFlight;
  }

  lemma QuietStepLoses(c: Config, s: State, a: Action)
    requires Enabled(c, s, a) && !a.Halt? && !a.TrySave? && !a.Rebuffer?
    ensures Lost(Apply(c, s, a)) == Lost(s)
  {
    hide EntriesOf, InFlight, NotSent, Drained, Parsed;
    if a.Drain? {
      DrainLoses(c, s, a.job, a.entries, Replaying(s.buffer, a.entries, 0), Idle);
      DrainLoses(c, s, a.job, a.entries, Saving(s.buffer, a.entries, 0), Reporting);
    }
  }

  lemma DrainLoses(c: Config, s: State, i: nat, entries: seq<Entry>, next: Job, done: Job)
    requires i < |s.jobs|
    ensures var r := Drained(c, s, i, entries, next, done);
            && r.ledger.lostAtEnd == s.ledger.lostAtEnd && r.ledger.lostInReplay == s.ledger.lostInReplay
            && r.ledger.dropped == s.ledger.dropped
  {
    hide NotSent;
  }

  /** A step loses lines exactly when it is not harmless, and lost lines stay lost. */
  lemma StepLoses(c: Config, s: State, a: Action)
    requires ReplaysLines(s) && Enabled(c, s, a)
    ensures Lost(Apply(c, s, a)) >= Lost(s)
    ensures Lost(Apply(c, s, a)) == Lost(s) <==> Harmless(c, s, a)
  {
    hide Lost, HaltHarmless, Halted, Tried, Rebuffered, InFlight, EntriesOf, Parsed;
    match a
    case Halt(deleted, fragment) => HaltLoses(c, s, deleted, fragment);
    case TrySave(i, result, rows) => AttemptLoses(c, s, i, result, rows);
    case Rebuffer(i, ok) => RebufferLoses(s, i, ok);
    case _ =>
      QuietStepLoses(c, s, a);
      hide Apply;
  }

  lemma HarmlessSnoc(c: Config, s: State, actions: seq<Action>)
    requires actions != []
    ensures var n := |actions| - 1;
            var m := ExecFrom(c, s, actions[..n]);
            HarmlessFrom(c, s, actions)
            <==> HarmlessFrom(c, s, actions[..n]) && (Enabled(c, m, actions[n]) ==> Harmless(c, m, actions[n]))
  {
    hide ExecFrom, Enabled, Harmless;
    var n := |actions| - 1;
    assert forall k | 0 <= k < n :: actions[..n][..k] == actions[..k] && actions[..n][k] == actions[k];
  }

  /** A run loses lines exactly when one of its steps is not harmless. */
  lemma {:induction false} RunLoses(c: Config, s: State, actions: seq<Action>)
    requires ReplaysLines(s)
    ensures ReplaysLines(ExecFrom(c, s, actions))
    ensures Lost(ExecFrom(c, s, actions)) >= Lost(s)
    ensures Lost(ExecFrom(c, s, actions)) == Lost(s) <==> HarmlessFrom(c, s, actions)
  {
    hide Enabled, Harmless, Apply, ReplaysLines, Lost;
    if actions != [] {
      var n := |actions| - 1;
      var m, a := ExecFrom(c, s, actions[..n]), actions[n];
      RunLoses(c, s, actions[..n]);
      StepReplaysLines(c, m, a);
      HarmlessSnoc(c, s, actions);
      hide HarmlessFrom;
      if Enabled(c, m, a) { StepLoses(c, m, a); }
    }
  }

  /** In every interleaving, over any number of process ends and restarts, no line is ever lost if
      and only if every step that happens is harmless: no process end with a batch in flight, lines
      in memory or segments deleted, no replay out of attempts, and no refused re-buffer write. */
  lemma {:induction false} NothingLostExactly(c: Config, actions: seq<Action>)
    ensures ReplaysLines(Exec(c, actions))
    ensures Lost(Exec(c, actions)) == 0 <==> HarmlessFrom(c, Init(c), actions)
  {
    RunLoses(c, Init(c), actions);
  }

  lemma WithoutLosses(accepted: multiset<Token>, kept: multiset<Token>, a: multiset<Token>, b: multiset<Token>,
                      d: multiset<Token>)
    requires accepted == kept + a + b + d
    ensures accepted == kept <==> |a| + |b| + |d| == 0
  {
    assert |accepted| == |kept| + |a| + |b| + |d|;
    if |a| + |b| + |d| == 0 {
      assert a == b == d == multiset{};
      assert kept + multiset{} == kept;
    }
  }

  /** So across restarts every accepted line, and every torn fragment, is still buffered, in flight
      or settled if and only if every step was harmless. */
  lemma {:induction false} AcceptedLinesAreSafeExactly(c: Config, actions: seq<Action>)
    ensures var s := Exec(c, actions);
            s.ledger.accepted + s.ledger.torn == multiset(s.buffer) + InFlight(s.jobs) + multiset(s.ledger.settled)
            <==> HarmlessFrom(c, Init(c), actions)
  {
    hide Exec, InFlight, HarmlessFrom;
    NothingLostExactly(c, actions);
    EveryRunConserves(c, actions);
    var s := Exec(c, actions);
    WithoutLosses(s.ledger.accepted + s.ledger.torn, multiset(s.buffer) + InFlight(s.jobs) + multiset(s.ledger.settled),
                  s.ledger.dropped, s.ledger.lostAtEnd, s.ledger.lostInReplay);
  }
}
