/** Exactly when a shutdown loses lines: its flush is one goroutine's, and nobody stops the others. */
module DeliveryShutdown {
  import opened Prelude
  import B = CircuitBreakers
  import opened Clients
  import opened Delivery
  import opened DeliverySchedules
  import opened DeliveryBreaker
  import opened DeliveryLosses

  // ---------- the steps of a shutdown ----------

  /** The flush of goroutine i in a shutdown that finds the server well, and the steps that others
      make between its own before the process ends. */
  datatype Shutdown = Shutdown(
    i: nat,
    readOk: bool,
    entries: seq<Entry>,
    rows: multiset<Entry>,
    beforeDrain: seq<Action>,
    beforeSave: seq<Action>,
    beforeReport: seq<Action>,
    beforeExit: seq<Action>
  ) {
    function ToDrain(): seq<Action> { [Allow(i)] + beforeDrain }

    function Draining(): seq<Action> { ToDrain() + [Drain(i, readOk, entries)] }

    function AfterDrain(): seq<Action> {
      beforeSave + [TrySave(i, Acked, rows)] + beforeReport + [RecordSuccess(i)] + beforeExit
    }

    function Steps(): seq<Action> { Draining() + AfterDrain() }

    predicate OthersBetween() {
      && AllOfOthers(i, beforeDrain) && AllOfOthers(i, beforeSave)
      && AllOfOthers(i, beforeReport) && AllOfOthers(i, beforeExit)
    }

    /** The other goroutines drain nothing meanwhile. */
    predicate OthersDrainNothing() {
      Drainless(beforeDrain) && Drainless(beforeSave) && Drainless(beforeReport) && Drainless(beforeExit)
    }
  }

  /** Goroutine i is about to ask the breaker, the others keep to their own steps, and if it is let
      in it drains the buffer for what the lines found there come to. */
  predicate Possible(c: Config, s: State, sh: Shutdown) {
    && Enabled(c, s, Allow(sh.i)) && sh.OthersBetween()
    && (c.capacity.Some? ==> sh.readOk) && sh.rows <= multiset(sh.entries)
    && (IsGranted(c, s, Allow(sh.i)) && sh.readOk ==> Parsed(c, ExecFrom(c, s, sh.ToDrain()).buffer, sh.entries))
  }

  // ---------- its own steps are harmless ----------

  /** The steps of others are harmless. */
  ghost predicate OthersHarmless(c: Config, s: State, i: nat, actions: seq<Action>) {
    forall k | 0 <= k < |actions| ::
      var m := ExecFrom(c, s, actions[..k]);
      OfOthers(i, actions[k]) && Enabled(c, m, actions[k]) ==> Harmless(c, m, actions[k])
  }

  predicate OwnStep(i: nat, a: Action) {
    a == Allow(i) || (a.Drain? && a.job == i) || (a.TrySave? && a.job == i && a.result.Acked?) || a == RecordSuccess(i)
  }

  predicate OwnOrOthers(i: nat, actions: seq<Action>) {
    forall k | 0 <= k < |actions| :: OwnStep(i, actions[k]) || OfOthers(i, actions[k])
  }

  lemma OwnConcat(i: nat, a: seq<Action>, b: seq<Action>)
    requires OwnOrOthers(i, a) && OwnOrOthers(i, b)
    ensures OwnOrOthers(i, a + b)
  {
    hide OwnStep, OfOthers;
  }

  lemma OwnOne(i: nat, a: Action)
    requires OwnStep(i, a)
    ensures OwnOrOthers(i, [a])
  {
  }

  lemma OthersAre(i: nat, actions: seq<Action>)
    requires AllOfOthers(i, actions)
    ensures OwnOrOthers(i, actions)
  {
  }

  lemma StepsAreOwnOrOthers(sh: Shutdown)
    requires sh.OthersBetween()
    ensures OwnOrOthers(sh.i, sh.Draining()) && OwnOrOthers(sh.i, sh.AfterDrain()) && OwnOrOthers(sh.i, sh.Steps())
  {
    var i := sh.i;
    OwnOne(i, Allow(i));
    OwnOne(i, Drain(i, sh.readOk, sh.entries));
    OwnOne(i, TrySave(i, Acked, sh.rows));
    OwnOne(i, RecordSuccess(i));
    OthersAre(i, sh.beforeDrain);
    OthersAre(i, sh.beforeSave);
    OthersAre(i, sh.beforeReport);
    OthersAre(i, sh.beforeExit);
    hide OwnOrOthers, AllOfOthers;
    OwnConcat(i, [Allow(i)], sh.beforeDrain);
    OwnConcat(i, sh.ToDrain(), [Drain(i, sh.readOk, sh.entries)]);
    OwnConcat(i, sh.beforeSave, [TrySave(i, Acked, sh.rows)]);
    OwnConcat(i, sh.beforeSave + [TrySave(i, Acked, sh.rows)], sh.beforeReport);
    OwnConcat(i, sh.beforeSave + [TrySave(i, Acked, sh.rows)] + sh.beforeReport, [RecordSuccess(i)]);
    OwnConcat(i, sh.beforeSave + [TrySave(i, Acked, sh.rows)] + sh.beforeReport + [RecordSuccess(i)], sh.beforeExit);
    OwnConcat(i, sh.Draining(), sh.AfterDrain());
  }

  lemma NoHalts(i: nat, actions: seq<Action>)
    requires OwnOrOthers(i, actions)
    ensures forall k | 0 <= k < |actions| :: !actions[k].Halt?
  {
  }

  lemma OthersHarmlessIsAll(c: Config, s: State, i: nat, actions: seq<Action>)
    requires OwnOrOthers(i, actions)
    ensures OthersHarmless(c, s, i, actions) <==> HarmlessFrom(c, s, actions)
  {
    hide ExecFrom, Enabled, OfOthers;
    forall k, m | 0 <= k < |actions| && OwnStep(i, actions[k]) ensures Harmless(c, m, actions[k]) {
    }
    hide OwnStep, Harmless;
  }

  // ---------- what is in the buffer ----------

  predicate Empties(c: Config, s: State, a: Action) { Enabled(c, s, a) && a.Drain? && a.readOk }

  /** The line a step puts into the buffer. */
  function Enters(c: Config, s: State, a: Action): seq<Token> {
    if !Enabled(c, s, a) then []
    else if a.Read? && a.ok then [Push(s, a.text)]
    else if a.Rebuffer? && a.ok then [s.jobs[a.job].batch[0]]
    else []
  }

  /** Whether some step of a run empties the buffer. */
  predicate EmptiedSince(c: Config, s: State, actions: seq<Action>) {
    if actions == [] then false
    else
      var n := |actions| - 1;
      EmptiedSince(c, s, actions[..n]) || Empties(c, ExecFrom(c, s, actions[..n]), actions[n])
  }

  /** The lines that came in since the run began, or since it last emptied the buffer. */
  function EnteredSince(c: Config, s: State, actions: seq<Action>): seq<Token> {
    if actions == [] then []
    else
      var n := |actions| - 1;
      var m := ExecFrom(c, s, actions[..n]);
      if Empties(c, m, actions[n]) then [] else EnteredSince(c, s, actions[..n]) + Enters(c, m, actions[n])
  }

  lemma StepBuffer(c: Config, s: State, a: Action)
    requires !a.Halt?
    ensures Empties(c, s, a) ==> Next(c, s, a).buffer == []
    ensures !Empties(c, s, a) ==> Next(c, s, a).buffer == s.buffer + Enters(c, s, a)
  {
    hide EntriesOf, InFlight, Parsed;
    assert s.buffer + [] == s.buffer;
  }

  lemma {:induction false} BufferSince(c: Config, s: State, actions: seq<Action>)
    requires forall k | 0 <= k < |actions| :: !actions[k].Halt?
    ensures var r := ExecFrom(c, s, actions);
            r.buffer == (if EmptiedSince(c, s, actions) then [] else s.buffer) + EnteredSince(c, s, actions)
  {
    hide Next, Empties, Enters;
    if actions != [] {
      var n := |actions| - 1;
      var init, a := actions[..n], actions[n];
      assert forall k | 0 <= k < n :: init[k] == actions[k];
      BufferSince(c, s, init);
      StepBuffer(c, ExecFrom(c, s, init), a);
      var kept := if EmptiedSince(c, s, init) then [] else s.buffer;
      ConcatAssociates(kept, EnteredSince(c, s, init), Enters(c, ExecFrom(c, s, init), a));
    }
  }

  // ---------- the exact condition ----------

  lemma {:induction false} ExecThree(c: Config, a: seq<Action>, b: seq<Action>, last: Action)
    ensures Exec(c, a + b + [last]) == Next(c, ExecFrom(c, Exec(c, a), b), last)
  {
    hide Next, ExecFrom;
    ExecConcat(c, Init(c), a, b);
    ExecSnoc(c, Init(c), a + b, last);
  }

  /** Whether the flush is let in decides what it leaves in a memory buffer. */
  lemma DrainLeaves(c: Config, s: State, sh: Shutdown)
    requires Possible(c, s, sh)
    ensures var d, m := ExecFrom(c, s, sh.ToDrain()), ExecFrom(c, s, sh.Draining());
            c.capacity.Some? ==> (m.buffer == [] <==> IsGranted(c, s, Allow(sh.i)) || d.buffer == [])
  {
    var i := sh.i;
    var u := Next(c, s, Allow(i));
    assert u.up && |u.jobs| == |s.jobs| && u.jobs[i] == if IsGranted(c, s, Allow(i)) then Draining else Idle;
    assert ExecFrom(c, s, [Allow(i)]) == u by {
      assert [Allow(i)][..0] == [];
    }
    hide Next;
    ExecConcat(c, s, [Allow(i)], sh.beforeDrain);
    RunOfOthersLeaves(c, u, i, sh.beforeDrain);
    ExecSnoc(c, s, sh.ToDrain(), Drain(i, sh.readOk, sh.entries));
    hide ExecFrom, IsGranted, AllOfOthers, Parsed;
    var d := ExecFrom(c, s, sh.ToDrain());
    StepBuffer(c, d, Drain(i, sh.readOk, sh.entries));
    DrainEnters(c, d, i, sh.readOk, sh.entries);
  }

  lemma DrainEnters(c: Config, s: State, i: nat, readOk: bool, entries: seq<Entry>)
    ensures Enters(c, s, Drain(i, readOk, entries)) == []
    ensures i < |s.jobs| && s.jobs[i].Idle? ==> !Empties(c, s, Drain(i, readOk, entries))
    ensures s.up && i < |s.jobs| && s.jobs[i].Draining? && readOk && Parsed(c, s.buffer, entries)
            ==> Empties(c, s, Drain(i, readOk, entries))
  {
    hide Parsed;
  }

  lemma EndsAfter(c: Config, r: State)
    requires r.up
    ensures Lost(Next(c, r, Halt(0, None))) >= Lost(r)
    ensures Lost(Next(c, r, Halt(0, None))) == Lost(r) <==> NobodyHolds(r) && (c.capacity.Some? ==> r.buffer == [])
  {
    assert Enabled(c, r, Halt(0, None));
    assert Next(c, r, Halt(0, None)) == Halted(c, r, 0, None);
    hide Halted, Next, Lost, NobodyHolds;
    HaltLoses(c, r, 0, None);
  }

  /** However a shutdown's flush goes, with any steps of anybody before the process ends: nothing is
      lost if and only if every step is harmless, nobody holds a batch at the end and a memory
      buffer is empty. */
  lemma {:induction false} ExitLosesNothingExactly(c: Config, before: seq<Action>, steps: seq<Action>)
    requires Exec(c, before).up && forall k | 0 <= k < |steps| :: !steps[k].Halt?
    ensures var s := Exec(c, before);
            var r := ExecFrom(c, s, steps);
            Lost(Exec(c, before + steps + [Halt(0, None)])) == Lost(s)
            <==> HarmlessFrom(c, s, steps) && NobodyHolds(r) && (c.capacity.Some? ==> r.buffer == [])
  {
    hide Exec, ExecFrom, Lost, NobodyHolds, HarmlessFrom;
    var s := Exec(c, before);
    NothingLostExactly(c, before);
    RunLoses(c, s, steps);
    RunStaysUp(c, s, steps);
    ExecThree(c, before, steps, Halt(0, None));
    EndsAfter(c, ExecFrom(c, s, steps));
  }

  /** A shutdown that finds the server well, from any reachable state and with any steps of the
      other goroutines between its own, loses nothing if and only if those steps are harmless,
      nobody holds a batch at the end and, with a memory buffer, its flush was let in or found
      nothing or another flush emptied the buffer after it, and no line came in since. */
  lemma {:induction false} ShutdownLosesNothingExactly(c: Config, before: seq<Action>, sh: Shutdown)
    requires Possible(c, Exec(c, before), sh)
    ensures var s := Exec(c, before);
            var found, left := ExecFrom(c, s, sh.ToDrain()), ExecFrom(c, s, sh.Draining());
            Lost(Exec(c, before + sh.Steps() + [Halt(0, None)])) == Lost(s)
            <==>
            && OthersHarmless(c, s, sh.i, sh.Steps())
            && NobodyHolds(ExecFrom(c, s, sh.Steps()))
            && (c.capacity.Some? ==>
                  && (IsGranted(c, s, Allow(sh.i)) || found.buffer == [] || EmptiedSince(c, left, sh.AfterDrain()))
                  && EnteredSince(c, left, sh.AfterDrain()) == [])
  {
    var s := Exec(c, before);
    NothingLostExactly(c, before);
    StepsAreOwnOrOthers(sh);
    NoHalts(sh.i, sh.Steps());
    NoHalts(sh.i, sh.AfterDrain());
    assert s.up;
    DrainLeaves(c, s, sh);
    hide Exec, ExecFrom, Lost, NobodyHolds, Possible, OwnOrOthers, EmptiedSince, EnteredSince, IsGranted,
         OthersHarmless, HarmlessFrom, Shutdown.Draining, Shutdown.AfterDrain, Shutdown.ToDrain;
    OthersHarmlessIsAll(c, s, sh.i, sh.Steps());
    ExitLosesNothingExactly(c, before, sh.Steps());
    ExecConcat(c, s, sh.Draining(), sh.AfterDrain());
    BufferSince(c, ExecFrom(c, s, sh.Draining()), sh.AfterDrain());
  }

  // ---------- where the flush itself ends ----------

  /** A drain that is possible empties the buffer, and at most one save is left to do. */
  lemma DrainsAll(c: Config, s: State, i: nat, entries: seq<Entry>)
    requires s.up && i < |s.jobs| && s.jobs[i].Draining? && Parsed(c, s.buffer, entries)
    ensures var r := Next(c, s, Drain(i, true, entries));
            && r.up && i < |s.jobs| == |r.jobs| && r.jobs == s.jobs[i := r.jobs[i]] && Lost(r) == Lost(s)
               && r.buffer == []
            && (r.jobs[i].Idle? || r.jobs[i].Reporting? || (r.jobs[i].Saving? && r.jobs[i].entries == entries))
  {
    hide EntriesOf, InFlight, Parsed, NotSent;
  }

  predicate SavingOrDone(job: Job, entries: seq<Entry>) {
    job.Idle? || job.Reporting? || (job.Saving? && job.entries == entries)
  }

  /** The flush's own drain, when it can happen. */
  lemma OwnDrain(c: Config, s: State, i: nat, readOk: bool, entries: seq<Entry>)
    requires s.up && i < |s.jobs| && (s.jobs[i].Draining? || s.jobs[i].Idle?)
    requires s.jobs[i].Draining? ==> (c.capacity.Some? ==> readOk) && (readOk ==> Parsed(c, s.buffer, entries))
    ensures var r := Next(c, s, Drain(i, readOk, entries));
            r.up && |r.jobs| == |s.jobs| && SavingOrDone(r.jobs[i], entries)
  {
    hide EntriesOf, InFlight, Parsed, NotSent;
  }

  lemma OwnAttempt(c: Config, s: State, i: nat, entries: seq<Entry>, rows: multiset<Entry>)
    requires s.up && i < |s.jobs| && SavingOrDone(s.jobs[i], entries) && rows <= multiset(entries)
    ensures var r := Next(c, s, TrySave(i, Acked, rows));
            r.up && |r.jobs| == |s.jobs| && (r.jobs[i].Idle? || r.jobs[i].Reporting?)
  {
    hide EntriesOf, InFlight, Parsed, Entered;
  }

  lemma OwnReport(c: Config, s: State, i: nat)
    requires s.up && i < |s.jobs| && (s.jobs[i].Idle? || s.jobs[i].Reporting?)
    ensures var r := Next(c, s, RecordSuccess(i)); r.up && |r.jobs| == |s.jobs| && r.jobs[i].Idle?
  {
    hide EntriesOf, InFlight, Parsed;
  }

  /** The steps of others, and then one own step. */
  lemma ThenOwn(c: Config, s: State, i: nat, others: seq<Action>, own: Action)
    requires s.up && i < |s.jobs| && AllOfOthers(i, others)
    ensures var m := ExecFrom(c, s, others);
            && m.up && |m.jobs| == |s.jobs| && m.jobs[i] == s.jobs[i]
            && ExecFrom(c, s, others + [own]) == Next(c, m, own)
  {
    hide ExecFrom, Next, AllOfOthers;
    RunOfOthersLeaves(c, s, i, others);
    ExecSnoc(c, s, others, own);
  }

  lemma DrainIsOver(c: Config, s: State, sh: Shutdown)
    requires Possible(c, s, sh)
    ensures var m := ExecFrom(c, s, sh.Draining());
            m.up && |m.jobs| == |s.jobs| && sh.i < |s.jobs| && SavingOrDone(m.jobs[sh.i], sh.entries)
  {
    var i, own := sh.i, Drain(sh.i, sh.readOk, sh.entries);
    AsksFirst(c, s, i);
    var u := Next(c, s, Allow(i));
    hide Next, ExecFrom, Parsed, IsGranted, AllOfOthers, SavingOrDone;
    ExecConcat(c, s, [Allow(i)], sh.beforeDrain);
    ThenOwn(c, u, i, sh.beforeDrain, own);
    ExecSnoc(c, s, sh.ToDrain(), own);
    OwnDrain(c, ExecFrom(c, u, sh.beforeDrain), i, sh.readOk, sh.entries);
  }

  lemma SaveIsOver(c: Config, m: State, sh: Shutdown)
    requires m.up && sh.i < |m.jobs| && SavingOrDone(m.jobs[sh.i], sh.entries)
    requires sh.rows <= multiset(sh.entries) && sh.OthersBetween()
    ensures var r := ExecFrom(c, m, sh.beforeSave + [TrySave(sh.i, Acked, sh.rows)]);
            r.up && |r.jobs| == |m.jobs| && (r.jobs[sh.i].Idle? || r.jobs[sh.i].Reporting?)
  {
    hide Next, ExecFrom, AllOfOthers, SavingOrDone;
    ThenOwn(c, m, sh.i, sh.beforeSave, TrySave(sh.i, Acked, sh.rows));
    OwnAttempt(c, ExecFrom(c, m, sh.beforeSave), sh.i, sh.entries, sh.rows);
  }

  lemma ReportIsOver(c: Config, m: State, sh: Shutdown)
    requires m.up && sh.i < |m.jobs| && (m.jobs[sh.i].Idle? || m.jobs[sh.i].Reporting?) && sh.OthersBetween()
    ensures var r := ExecFrom(c, m, sh.beforeReport + [RecordSuccess(sh.i)] + sh.beforeExit);
            r.up && |r.jobs| == |m.jobs| && r.jobs[sh.i].Idle?
  {
    hide Next, ExecFrom, AllOfOthers;
    ThenOwn(c, m, sh.i, sh.beforeReport, RecordSuccess(sh.i));
    OwnReport(c, ExecFrom(c, m, sh.beforeReport), sh.i);
    ExecConcat(c, m, sh.beforeReport + [RecordSuccess(sh.i)], sh.beforeExit);
    RunOfOthersLeaves(c, ExecFrom(c, m, sh.beforeReport + [RecordSuccess(sh.i)]), sh.i, sh.beforeExit);
  }

  /** However others' steps fall between, the flush is over at the end. */
  lemma FlushIsOver(c: Config, s: State, sh: Shutdown)
    requires Possible(c, s, sh)
    ensures var r := ExecFrom(c, s, sh.Steps());
            r.up && |r.jobs| == |s.jobs| && sh.i < |s.jobs| && r.jobs[sh.i].Idle?
  {
    hide ExecFrom, Parsed, IsGranted, AllOfOthers, SavingOrDone, Shutdown.Draining;
    DrainIsOver(c, s, sh);
    var m := ExecFrom(c, s, sh.Draining());
    var save := sh.beforeSave + [TrySave(sh.i, Acked, sh.rows)];
    SaveIsOver(c, m, sh);
    ReportIsOver(c, ExecFrom(c, m, save), sh);
    ExecConcat(c, m, save, sh.beforeReport + [RecordSuccess(sh.i)] + sh.beforeExit);
    assert sh.AfterDrain() == save + (sh.beforeReport + [RecordSuccess(sh.i)] + sh.beforeExit);
    ExecConcat(c, s, sh.Draining(), sh.AfterDrain());
  }

  // ---------- a signal: the reader goes on ----------

  lemma OneReadEnters(c: Config, m: State, i: nat, rows: multiset<Entry>, other: Line)
    requires m.up && i > 0 && m.jobs != [] && m.jobs[0].Idle? && Accepts(c, m, true)
    ensures EnteredSince(c, m, [Read(other, true)] + [TrySave(i, Acked, rows)] + [] + [RecordSuccess(i)] + []) != []
  {
    var a := [Read(other, true)];
    var b := a + [TrySave(i, Acked, rows)];
    assert b + [] + [RecordSuccess(i)] + [] == b + [RecordSuccess(i)];
    hide Enabled, ExecFrom;
    assert (b + [RecordSuccess(i)])[..2] == b && b[..1] == a && a[..0] == [];
    assert EnteredSince(c, m, a) == [] + Enters(c, m, Read(other, true)) by { ExecNothing(c, m); }
    assert Enters(c, m, Read(other, true)) == [Push(m, other)] by { ReadEnters(c, m, other); }
    assert EnteredSince(c, m, b) == EnteredSince(c, m, a) + [];
  }

  lemma ExecNothing(c: Config, s: State)
    ensures ExecFrom(c, s, []) == s
  {
  }

  lemma ReadEnters(c: Config, s: State, text: Line)
    requires s.up && s.jobs != [] && s.jobs[0].Idle? && Accepts(c, s, true)
    ensures Enters(c, s, Read(text, true)) == [Push(s, text)]
  {
  }

  /** The shutdown of a signal during which the reader takes one more line. */
  function WithOneRead(i: nat, entries: seq<Entry>, rows: multiset<Entry>, other: Line): Shutdown {
    Shutdown(i, true, entries, rows, [], [Read(other, true)], [], [])
  }

  /** Over a memory buffer the shutdown of a signal is never safe: whatever state it starts in with
      the reader waiting for a line and the flush let in, a line that comes in while the batch is
      saved is accepted and lost, with the server well. */
  lemma {:induction false} SignalShutdownIsNeverSafe(c: Config, before: seq<Action>, i: nat, entries: seq<Entry>,
                                                     rows: multiset<Entry>, other: Line)
    requires c.capacity.Some? && c.capacity.value > 0 && i > 0
    requires var s := Exec(c, before);
             && Enabled(c, s, Allow(i)) && IsGranted(c, s, Allow(i)) && s.jobs[0].Idle?
             && Parsed(c, s.buffer, entries) && rows <= multiset(entries)
    ensures var sh := WithOneRead(i, entries, rows, other);
            && Possible(c, Exec(c, before), sh)
            && Lost(Exec(c, before + sh.Steps() + [Halt(0, None)])) > Lost(Exec(c, before))
  {
    var s, sh := Exec(c, before), WithOneRead(i, entries, rows, other);
    AsksFirst(c, s, i);
    var u := Next(c, s, Allow(i));
    assert sh.ToDrain() == [Allow(i)] && ExecFrom(c, s, sh.ToDrain()) == u;
    assert Possible(c, s, sh);
    ShutdownLosesNothingExactly(c, before, sh);
    ExecSnoc(c, s, sh.ToDrain(), Drain(i, true, entries));
    var m := ExecFrom(c, s, sh.Draining());
    hide Exec, ExecFrom, Lost, Possible, Parsed;
    DrainsAll(c, u, i, entries);
    OneReadEnters(c, m, i, rows, other);
    NeverLess(c, before, sh);
  }

  lemma AsksFirst(c: Config, s: State, i: nat)
    requires Enabled(c, s, Allow(i))
    ensures ExecFrom(c, s, [Allow(i)]) == Next(c, s, Allow(i))
    ensures var u := Next(c, s, Allow(i));
            && u.up && u.buffer == s.buffer && |u.jobs| == |s.jobs|
            && u.jobs == s.jobs[i := if IsGranted(c, s, Allow(i)) then Draining else Idle]
  {
    assert [Allow(i)][..0] == [];
  }

  lemma NeverLess(c: Config, before: seq<Action>, sh: Shutdown)
    ensures Lost(Exec(c, before + sh.Steps() + [Halt(0, None)])) >= Lost(Exec(c, before))
  {
    hide Lost, ExecFrom;
    NothingLostExactly(c, before);
    assert before + sh.Steps() + [Halt(0, None)] == before + (sh.Steps() + [Halt(0, None)]);
    ExecConcat(c, Init(c), before, sh.Steps() + [Halt(0, None)]);
    RunLoses(c, Exec(c, before), sh.Steps() + [Halt(0, None)]);
  }

  // ---------- the end of the input: the reader is the one that flushes ----------

  /** The goroutines besides the reader hold nothing. */
  predicate OthersHoldNothing(s: State) { forall j | 0 < j < |s.jobs| :: s.jobs[j].Held() == [] }

  /** Only the reader drains. */
  predicate OnlyReaderDrains(actions: seq<Action>) {
    forall k | 0 <= k < |actions| :: actions[k].Drain? ==> actions[k].job == 0
  }

  lemma CalmStep(c: Config, s: State, a: Action)
    requires s.up && s.jobs != [] && OthersHoldNothing(s) && ReplaysLines(s)
    requires (OwnStep(0, a) || OfOthers(0, a)) && (a.Drain? ==> a.job == 0)
    ensures var r := Next(c, s, a);
            && r.up && |r.jobs| == |s.jobs| && OthersHoldNothing(r) && Enters(c, s, a) == []
            && (OfOthers(0, a) && Enabled(c, s, a) ==> Harmless(c, s, a))
  {
    hide EntriesOf, InFlight, Parsed;
    StaysUp(c, s, a);
    if Enabled(c, s, a) && !a.Wait? {
      OneMoves(c, s, a);
      if a.Actor() != 0 {
        CalmMove(c, s, a);
      }
      hide Apply;
    }
  }

  /** A goroutine that holds nothing holds nothing after a step other than a drain. */
  lemma CalmMove(c: Config, s: State, a: Action)
    requires Enabled(c, s, a) && !a.Wait? && !a.Halt? && !a.Drain? && a.Actor() < |s.jobs|
    requires s.jobs[a.Actor()].Held() == []
    ensures var r := Apply(c, s, a); a.Actor() < |r.jobs| && r.jobs[a.Actor()].Held() == []
  {
    hide EntriesOf, InFlight, Parsed;
  }

  lemma {:induction false} CalmRun(c: Config, s: State, actions: seq<Action>)
    requires s.up && s.jobs != [] && OthersHoldNothing(s) && ReplaysLines(s)
    requires OwnOrOthers(0, actions) && OnlyReaderDrains(actions)
    ensures var r := ExecFrom(c, s, actions);
            && r.up && |r.jobs| == |s.jobs| && OthersHoldNothing(r) && ReplaysLines(r)
            && OthersHarmless(c, s, 0, actions) && EnteredSince(c, s, actions) == []
  {
    hide Next, Enabled, Harmless, OwnStep, OfOthers, OthersHoldNothing, ReplaysLines, Enters, Empties;
    if actions != [] {
      var n := |actions| - 1;
      var init, a := actions[..n], actions[n];
      assert forall k | 0 <= k < n :: init[k] == actions[k] && init[..k] == actions[..k];
      CalmRun(c, s, init);
      CalmStep(c, ExecFrom(c, s, init), a);
      StepReplaysLines(c, ExecFrom(c, s, init), a);
    }
  }

  lemma {:induction false} NoDrainNoEmptying(c: Config, s: State, actions: seq<Action>)
    requires forall k | 0 <= k < |actions| :: !actions[k].Drain?
    ensures !EmptiedSince(c, s, actions)
  {
    hide ExecFrom, Enabled;
    if actions != [] {
      var n := |actions| - 1;
      assert forall k | 0 <= k < n :: actions[..n][k] == actions[k];
      NoDrainNoEmptying(c, s, actions[..n]);
    }
  }


  predicate Drainless(actions: seq<Action>) { forall k | 0 <= k < |actions| :: !actions[k].Drain? }

  lemma DrainlessConcat(a: seq<Action>, b: seq<Action>)
    requires Drainless(a) && Drainless(b)
    ensures Drainless(a + b)
  {
  }

  lemma DrainlessParts(sh: Shutdown)
    requires sh.OthersDrainNothing()
    ensures Drainless(sh.ToDrain()) && Drainless(sh.AfterDrain())
  {
    var save, report := [TrySave(sh.i, Acked, sh.rows)], [RecordSuccess(sh.i)];
    assert Drainless([Allow(sh.i)]) && Drainless(save) && Drainless(report);
    hide Drainless;
    DrainlessConcat([Allow(sh.i)], sh.beforeDrain);
    DrainlessConcat(sh.beforeSave, save);
    DrainlessConcat(sh.beforeSave + save, sh.beforeReport);
    DrainlessConcat(sh.beforeSave + save + sh.beforeReport, report);
    DrainlessConcat(sh.beforeSave + save + sh.beforeReport + report, sh.beforeExit);
  }

  lemma OnlyReaderParts(sh: Shutdown)
    requires sh.OthersDrainNothing() && sh.i == 0
    ensures OnlyReaderDrains(sh.ToDrain()) && OnlyReaderDrains(sh.Draining())
    ensures OnlyReaderDrains(sh.AfterDrain()) && OnlyReaderDrains(sh.Steps())
  {
    DrainlessParts(sh);
    DrainlessIsReaders(sh.ToDrain());
    DrainlessIsReaders(sh.AfterDrain());
    hide Drainless, Shutdown.ToDrain, Shutdown.AfterDrain;
    OnlyReaderConcat(sh.ToDrain(), [Drain(0, sh.readOk, sh.entries)]);
    hide Shutdown.Draining;
    OnlyReaderConcat(sh.Draining(), sh.AfterDrain());
  }

  lemma DrainlessIsReaders(actions: seq<Action>)
    requires Drainless(actions)
    ensures OnlyReaderDrains(actions)
  {
  }

  lemma OnlyReaderConcat(a: seq<Action>, b: seq<Action>)
    requires OnlyReaderDrains(a) && OnlyReaderDrains(b)
    ensures OnlyReaderDrains(a + b)
  {
  }

  /** What the reader's flush finds is what was buffered when it began. */
  lemma FindsTheSame(c: Config, s: State, sh: Shutdown)
    requires s.up && s.jobs != [] && OthersHoldNothing(s) && ReplaysLines(s)
    requires sh.i == 0 && sh.OthersBetween() && sh.OthersDrainNothing()
    ensures ExecFrom(c, s, sh.ToDrain()).buffer == s.buffer
  {
    StepsAreOwnOrOthers(sh);
    OnlyReaderParts(sh);
    DrainlessParts(sh);
    hide OwnOrOthers, OnlyReaderDrains, AllOfOthers, OthersHoldNothing, ReplaysLines, ExecFrom, Shutdown.ToDrain;
    NoHalts(0, sh.ToDrain());
    CalmRun(c, s, sh.ToDrain());
    NoDrainNoEmptying(c, s, sh.ToDrain());
    BufferSince(c, s, sh.ToDrain());
    assert s.buffer + [] == s.buffer;
  }

  /** Then nothing comes in after it, and the others do no harm. */
  lemma NothingComesIn(c: Config, s: State, sh: Shutdown)
    requires s.up && s.jobs != [] && OthersHoldNothing(s) && ReplaysLines(s)
    requires sh.i == 0 && sh.OthersBetween() && sh.OthersDrainNothing()
    ensures var left := ExecFrom(c, s, sh.Draining());
            && !EmptiedSince(c, left, sh.AfterDrain()) && EnteredSince(c, left, sh.AfterDrain()) == []
            && OthersHarmless(c, s, 0, sh.Steps()) && OthersHoldNothing(ExecFrom(c, s, sh.Steps()))
  {
    StepsAreOwnOrOthers(sh);
    OnlyReaderParts(sh);
    DrainlessParts(sh);
    hide OwnOrOthers, OnlyReaderDrains, AllOfOthers, OthersHoldNothing, ReplaysLines, ExecFrom, Drainless,
         Shutdown.ToDrain, Shutdown.Draining, Shutdown.AfterDrain, Shutdown.Steps, OthersHarmless;
    var left := ExecFrom(c, s, sh.Draining());
    CalmRun(c, s, sh.Draining());
    CalmRun(c, left, sh.AfterDrain());
    CalmRun(c, s, sh.Steps());
    assert Drainless(sh.AfterDrain());
    DrainlessEmptiesNothing(c, left, sh.AfterDrain());
  }

  lemma DrainlessEmptiesNothing(c: Config, s: State, actions: seq<Action>)
    requires Drainless(actions)
    ensures !EmptiedSince(c, s, actions)
  {
    NoDrainNoEmptying(c, s, actions);
  }

  lemma HoldsExactly(s: State)
    requires s.jobs != [] && s.jobs[0].Held() == []
    ensures NobodyHolds(s) <==> OthersHoldNothing(s)
  {
    hide Job.Held;
  }

  /** At the end of the input, with nobody else holding a batch or draining one meanwhile, a
      shutdown that finds the server well loses nothing if and only if the buffer is on disk, the
      breaker lets the flush in, or nothing is buffered: the reader flushes and cannot read. */
  lemma {:induction false} EndOfInputLosesNothingExactly(c: Config, before: seq<Action>, sh: Shutdown)
    requires Possible(c, Exec(c, before), sh) && sh.i == 0
    requires NobodyHolds(Exec(c, before)) && sh.OthersDrainNothing()
    ensures Lost(Exec(c, before + sh.Steps() + [Halt(0, None)])) == Lost(Exec(c, before))
            <==> c.capacity.None? || IsGranted(c, Exec(c, before), Allow(0)) || Exec(c, before).buffer == []
  {
    var s := Exec(c, before);
    assert s.up && s.jobs != [] && s.jobs[0].Held() == [] && sh.OthersBetween();
    NothingLostExactly(c, before);
    ShutdownLosesNothingExactly(c, before, sh);
    FlushIsOver(c, s, sh);
    assert Idle.Held() == [];
    hide Possible, NobodyHolds, OthersHoldNothing, ReplaysLines, Exec, ExecFrom, Lost, IsGranted, EmptiedSince,
         EnteredSince, OthersHarmless, Shutdown.ToDrain, Shutdown.Draining, Shutdown.AfterDrain, Shutdown.Steps,
         Shutdown.OthersBetween, Shutdown.OthersDrainNothing;
    HoldsExactly(s);
    FindsTheSame(c, s, sh);
    NothingComesIn(c, s, sh);
    HoldsExactly(ExecFrom(c, s, sh.Steps()));
  }

  // ---------- nobody else moves ----------

  /** A shutdown during which nobody else makes a step. */
  function Undisturbed(i: nat, entries: seq<Entry>, rows: multiset<Entry>): Shutdown {
    Shutdown(i, true, entries, rows, [], [], [], [])
  }

  lemma {:induction false} OwnRun(c: Config, s: State, i: nat, actions: seq<Action>)
    requires s.up && i < |s.jobs| && AllOwn(i, actions)
    ensures var r := ExecFrom(c, s, actions);
            && r.up && |r.jobs| == |s.jobs| && r.jobs == s.jobs[i := r.jobs[i]]
            && OthersHarmless(c, s, i, actions) && EnteredSince(c, s, actions) == []
  {
    hide Next, Enabled, Harmless, OwnStep, Enters, Empties, OfOthers;
    if actions != [] {
      var n := |actions| - 1;
      var init, a := actions[..n], actions[n];
      assert forall k | 0 <= k < n :: init[k] == actions[k] && init[..k] == actions[..k];
      OwnRun(c, s, i, init);
      OwnMoves(c, ExecFrom(c, s, init), i, a);
    }
  }

  lemma OwnMoves(c: Config, s: State, i: nat, a: Action)
    requires s.up && i < |s.jobs| && OwnStep(i, a)
    ensures var r := Next(c, s, a);
            && r.up && |r.jobs| == |s.jobs| && r.jobs == s.jobs[i := r.jobs[i]]
            && Enters(c, s, a) == [] && !OfOthers(i, a)
  {
    StaysUp(c, s, a);
    if Enabled(c, s, a) {
      OneMoves(c, s, a);
      hide Apply;
    }
  }

  predicate AllOwn(i: nat, actions: seq<Action>) { forall k | 0 <= k < |actions| :: OwnStep(i, actions[k]) }

  lemma UndisturbedAreOwn(sh: Shutdown)
    requires sh == Undisturbed(sh.i, sh.entries, sh.rows)
    ensures sh.ToDrain() == [Allow(sh.i)] && Drainless(sh.AfterDrain())
    ensures AllOwn(sh.i, sh.Draining()) && AllOwn(sh.i, sh.AfterDrain()) && AllOwn(sh.i, sh.Steps())
  {
    var i, drain := sh.i, Drain(sh.i, true, sh.entries);
    assert sh.ToDrain() == [Allow(i)];
    assert sh.AfterDrain() == [TrySave(i, Acked, sh.rows), RecordSuccess(i)];
    assert AllOwn(i, [Allow(i), drain]) && [Allow(i), drain] == sh.Draining();
    assert AllOwn(i, [TrySave(i, Acked, sh.rows), RecordSuccess(i)]);
    hide OwnStep;
    OwnBoth(i, sh.Draining(), sh.AfterDrain());
  }

  lemma OwnBoth(i: nat, a: seq<Action>, b: seq<Action>)
    requires AllOwn(i, a) && AllOwn(i, b)
    ensures AllOwn(i, a + b)
  {
    hide OwnStep;
  }

  lemma UndisturbedSteps(c: Config, s: State, sh: Shutdown)
    requires sh == Undisturbed(sh.i, sh.entries, sh.rows) && s.up && sh.i < |s.jobs|
    ensures var left, r := ExecFrom(c, s, sh.Draining()), ExecFrom(c, s, sh.Steps());
            && sh.OthersBetween() && sh.ToDrain() == [Allow(sh.i)]
            && |r.jobs| == |s.jobs| && r.jobs == s.jobs[sh.i := r.jobs[sh.i]] && OthersHarmless(c, s, sh.i, sh.Steps())
            && EnteredSince(c, left, sh.AfterDrain()) == [] && !EmptiedSince(c, left, sh.AfterDrain())
  {
    var i := sh.i;
    UndisturbedAreOwn(sh);
    assert sh.OthersBetween();
    hide ExecFrom, OthersHarmless, EnteredSince, EmptiedSince, OwnStep, Shutdown.Draining, Shutdown.AfterDrain,
         Shutdown.Steps;
    OwnRun(c, s, i, sh.Draining());
    OwnRun(c, ExecFrom(c, s, sh.Draining()), i, sh.AfterDrain());
    OwnRun(c, s, i, sh.Steps());
    DrainlessEmptiesNothing(c, ExecFrom(c, s, sh.Draining()), sh.AfterDrain());
  }

  lemma HoldsAsBefore(s: State, r: State, i: nat)
    requires i < |s.jobs| == |r.jobs| && r.jobs == s.jobs[i := r.jobs[i]] && s.jobs[i].Held() == r.jobs[i].Held()
    ensures NobodyHolds(r) <==> NobodyHolds(s)
  {
    hide Job.Held;
    assert forall j | 0 <= j < |s.jobs| && j != i :: r.jobs[j] == s.jobs[j];
  }

  /** If nobody else makes a step meanwhile, a shutdown that finds the server well loses nothing if
      and only if nobody else holds a batch and, with a memory buffer, nothing is buffered or the
      failures since the last success are below the threshold or the last is past its cooldown. */
  lemma {:induction false} UndisturbedShutdownExactly(c: Config, before: seq<Action>, i: nat, entries: seq<Entry>,
                                                      rows: multiset<Entry>)
    requires c.breaker.Some? ==> c.breaker.value.0 >= 1
    requires var s := Exec(c, before);
             Enabled(c, s, Allow(i)) && Parsed(c, s.buffer, entries) && rows <= multiset(entries)
    ensures var s := Exec(c, before);
            Lost(Exec(c, before + Undisturbed(i, entries, rows).Steps() + [Halt(0, None)])) == Lost(s)
            <==> && NobodyHolds(s)
                 && (c.capacity.Some? && s.buffer != [] && c.breaker.Some? ==>
                       B.Streak(s.calls) < c.breaker.value.0 || s.now - B.LastFailure(s.calls) >= c.breaker.value.1)
  {
    var s, sh := Exec(c, before), Undisturbed(i, entries, rows);
    assert s.up && i < |s.jobs| && s.jobs[i].Held() == [] && Idle.Held() == [];
    if c.breaker.Some? { FlushAdmittedExactly(c, before, i); }
    assert c.breaker.None? ==> IsGranted(c, s, Allow(i));
    AsksFirst(c, s, i);
    UndisturbedSteps(c, s, sh);
    assert Possible(c, s, sh);
    ShutdownLosesNothingExactly(c, before, sh);
    FlushIsOver(c, s, sh);
    hide Possible, NobodyHolds, Exec, ExecFrom, Lost, IsGranted, EmptiedSince, EnteredSince, OthersHarmless, Parsed,
         Next, Undisturbed, Shutdown.Draining, Shutdown.AfterDrain, Shutdown.Steps, B.Streak, B.LastFailure, Enabled;
    HoldsAsBefore(s, ExecFrom(c, s, sh.Steps()), i);
  }
}
