/** Runs of the delivery protocol from its start: one for each way to lose a line, and one that fills
    memory up to its bound. */
module DeliveryRuns {
  import opened Prelude
  import B = CircuitBreakers
  import opened Clients
  import opened Delivery
  import opened DeliveryGuarantees

  // ---------- steps of a reader and one flusher ----------

  /** One flusher, one retry, and one entry per line. */
  function OneFlusher(capacity: Option<nat>, breaker: Option<(int, int)>, entry: Entry): Config {
    Config(capacity, 2, 2, breaker, 1, _ => [entry], false)
  }

  lemma NothingParses(c: Config)
    ensures Parsed(c, [], [])
  {
    assert EntriesOf(c, []) == multiset{};
  }

  lemma OneParses(c: Config, t: Token, entry: Entry)
    requires c.entriesOf(t.text) == [entry]
    ensures Parsed(c, [t], [entry])
  {
    assert [t][..0] == [];
    assert EntriesOf(c, [t]) == EntriesOf(c, []) + multiset([entry]);
  }

  /** The program comes up and finds nothing to replay. */
  lemma ComesUp(c: Config)
    requires c.flushers == 1
    ensures Exec(c, [Boot] + [Drain(0, true, [])]) == Init(c).(up := true, jobs := [Idle, Idle])
  {
    hide Parsed, EntriesOf, InFlight;
    var s := Init(c);
    ExecSnoc(c, s, [], Boot);
    ExecSnoc(c, s, [Boot], Drain(0, true, []));
    assert [] + [Boot] == [Boot];
    assert s.jobs == [Idle, Idle];
    var u := s.(up := true, jobs := [Recovering, Idle]);
    assert s.jobs[0 := Recovering] == u.jobs;
    assert Next(c, s, Boot) == u;
    NothingParses(c);
    assert u.jobs[0 := Idle] == [Idle, Idle];
  }

  lemma ReadsLine(c: Config, s: State, text: Line)
    requires s.up && |s.jobs| == 2 && s.jobs[0].Idle? && Accepts(c, s, true)
    ensures Next(c, s, Read(text, true))
            == s.(jobs := [Counting, s.jobs[1]],
                  buffer := s.buffer + [Push(s, text)],
                  ledger := s.ledger.(accepted := s.ledger.accepted + multiset{Push(s, text)},
                                      nextId := s.ledger.nextId + 1))
  {
    assert s.jobs[0 := Counting] == [Counting, s.jobs[1]];
  }

  lemma Checks(c: Config, s: State)
    requires s.up && |s.jobs| == 2 && s.jobs[0].Counting? && |s.buffer| < c.maxBuffer
    ensures Next(c, s, CheckLength) == s.(jobs := [Idle, s.jobs[1]])
  {
    assert s.jobs[0 := Idle] == [Idle, s.jobs[1]];
  }

  function Asks(c: Config, s: State): seq<B.Event> {
    if c.breaker.None? then s.calls else s.calls + [B.Allowed(s.now)]
  }

  /** The flusher starts and is let in. */
  lemma StartsFlush(c: Config, s: State)
    requires s.up && |s.jobs| == 2 && s.jobs[1].Idle? && (s.jobs[0].Counting? || s.jobs[0].Idle?)
             && s.breaker.state.Closed?
    ensures Next(c, Next(c, s, Tick(1)), Allow(1)) == s.(jobs := [s.jobs[0], Draining], calls := Asks(c, s))
  {
    var u := s.(jobs := [s.jobs[0], Starting]);
    assert s.jobs[1 := Starting] == u.jobs;
    assert u.jobs[1 := Draining] == [s.jobs[0], Draining];
  }

  lemma DrainsOne(c: Config, s: State, t: Token, entry: Entry)
    requires s.up && |s.jobs| == 2 && s.jobs[1].Draining? && s.buffer == [t] && c.entriesOf(t.text) == [entry]
             && c.attempts == 2
    ensures Next(c, s, Drain(1, true, [entry])) == s.(jobs := [s.jobs[0], Saving([t], [entry], 0)], buffer := [])
  {
    OneParses(c, t, entry);
    hide Parsed, EntriesOf;
    assert s.jobs[1 := Saving([t], [entry], 0)] == [s.jobs[0], Saving([t], [entry], 0)];
  }

  /** Up, one line accepted, a flush of it begun. */
  function BeginFlush(line: Line, entry: Entry): seq<Action> {
    [Boot] + [Drain(0, true, [])] + [Read(line, true)] + [Tick(1)] + [Allow(1)] + [Drain(1, true, [entry])]
  }

  function OneAccepted(line: Line): Ledger {
    Ledger(1, multiset{Token(0, line)}, multiset{}, [], multiset{}, multiset{}, multiset{})
  }

  lemma Accepted(c: Config, line: Line)
    requires c.flushers == 1 && (c.capacity.Some? ==> c.capacity.value > 0)
    ensures Exec(c, [Boot] + [Drain(0, true, [])] + [Read(line, true)])
            == Init(c).(up := true, jobs := [Counting, Idle], buffer := [Token(0, line)], ledger := OneAccepted(line))
  {
    hide ExecFrom, Next;
    ComesUp(c);
    var s := Init(c).(up := true, jobs := [Idle, Idle]);
    ExecSnoc(c, Init(c), [Boot] + [Drain(0, true, [])], Read(line, true));
    ReadsLine(c, s, line);
    assert multiset{} + multiset{Token(0, line)} == multiset{Token(0, line)};
    assert [] + [Token(0, line)] == [Token(0, line)];
  }

  lemma Began(c: Config, line: Line, entry: Entry)
    requires c.flushers == 1 && c.attempts == 2 && c.entriesOf(line) == [entry]
             && (c.capacity.Some? ==> c.capacity.value > 0)
    ensures Exec(c, BeginFlush(line, entry))
            == Init(c).(up := true, jobs := [Counting, Saving([Token(0, line)], [entry], 0)],
                        ledger := OneAccepted(line), calls := Asks(c, Init(c)))
  {
    hide ExecFrom, Next;
    Accepted(c, line);
    var run := [Boot] + [Drain(0, true, [])] + [Read(line, true)];
    var s := Exec(c, run);
    ExecSnoc(c, Init(c), run, Tick(1));
    ExecSnoc(c, Init(c), run + [Tick(1)], Allow(1));
    StartsFlush(c, s);
    ExecSnoc(c, Init(c), run + [Tick(1)] + [Allow(1)], Drain(1, true, [entry]));
    DrainsOne(c, s.(jobs := [Counting, Draining], calls := Asks(c, s)), Token(0, line), entry);
  }

  // ---------- lost at the end of the process ----------

  lemma EndsHolding(c: Config, s: State, job: Job)
    requires s.up && s.jobs == [Counting, job] && s.buffer == []
    ensures var r := Next(c, s, Halt(0, None));
            r.ledger.lostAtEnd == s.ledger.lostAtEnd + multiset(job.Held()) && r.buffer == [] && r.books == s.books
  {
    hide Job.Held;
    HoldsTwo(Counting, job);
    assert Counting.Held() == [] by { NothingHeld(); }
    var none: seq<Token> := [];
    assert none[..0] == [] && none[0..] == [];
    assert s.ledger.lostAtEnd + multiset(none) + (multiset(none) + multiset(job.Held()))
           == s.ledger.lostAtEnd + multiset(job.Held());
  }

  lemma NothingHeld()
    ensures Counting.Held() == [] && Idle.Held() == []
  {
  }

  lemma HoldsTwo(a: Job, b: Job)
    ensures InFlight([a, b]) == multiset(a.Held()) + multiset(b.Held())
  {
    hide Job.Held;
    assert [a, b][1..] == [b] && [b][1..] == [];
    assert InFlight([b]) == multiset(b.Held()) + multiset{} == multiset(b.Held());
  }

  /** Disk mode is not at least once: the segments are deleted before the batch is saved, so a crash
      between the two loses it although nothing was ever refused. */
  lemma CrashLosesDrainedBatch(line: Line, entry: Entry)
    ensures var s := Exec(OneFlusher(None, None, entry), BeginFlush(line, entry) + [Halt(0, None)]);
            s.ledger.lostAtEnd == multiset{Token(0, line)} && s.buffer == [] && s.books.table == multiset{}
  {
    hide ExecFrom, Next, Job.Held;
    var c := OneFlusher(None, None, entry);
    Began(c, line, entry);
    ExecSnoc(c, Init(c), BeginFlush(line, entry), Halt(0, None));
    var batch := [Token(0, line)];
    EndsHolding(c, Exec(c, BeginFlush(line, entry)), Saving(batch, [entry], 0));
    assert Saving(batch, [entry], 0).Held() == batch by { SavingHolds(batch, [entry]); }
    assert multiset{} + multiset(batch) == multiset{Token(0, line)};
  }

  lemma SavingHolds(batch: seq<Token>, entries: seq<Entry>)
    ensures Saving(batch, entries, 0).Held() == batch
  {
  }

  // ---------- lost in a replay ----------

  lemma EndsBuffered(c: Config, s: State)
    requires c.capacity.None? && s.up && s.jobs == [Counting, Idle]
    ensures Next(c, s, Halt(0, None)) == s.(up := false, jobs := [Idle, Idle])
  {
    HoldsTwo(Counting, Idle);
    assert s.buffer[..0] == [] && s.buffer[0..] == s.buffer;
    assert AllIdle(2) == [Idle, Idle];
    assert s.ledger.lostAtEnd + multiset(s.buffer[..0]) + (multiset([]) + multiset([])) == s.ledger.lostAtEnd;
  }

  /** A restart that finds one line and takes it for replay. */
  lemma BootsWithOne(c: Config, s: State, t: Token, entry: Entry)
    requires !s.up && s.jobs == [Idle, Idle] && s.buffer == [t] && c.entriesOf(t.text) == [entry] && c.attempts == 2
    ensures Next(c, Next(c, s, Boot), Drain(0, true, [entry]))
            == s.(up := true, breaker := NewBreaker(c), calls := [], jobs := [Replaying([t], [entry], 0), Idle],
                  buffer := [])
  {
    OneParses(c, t, entry);
    hide Parsed, EntriesOf;
    var u := s.(up := true, breaker := NewBreaker(c), calls := [], jobs := [Recovering, Idle]);
    assert s.jobs[0 := Recovering] == u.jobs;
    assert u.jobs[0 := Replaying([t], [entry], 0)] == [Replaying([t], [entry], 0), Idle];
  }

  lemma ReplayFails(c: Config, s: State, t: Token, entry: Entry)
    requires s.up && s.jobs == [Replaying([t], [entry], 0), Idle] && c.attempts == 2
    ensures var fail := TrySave(0, NotStored, multiset{});
            Next(c, Next(c, s, fail), fail)
            == s.(jobs := [Idle, Idle], ledger := s.ledger.(lostInReplay := s.ledger.lostInReplay + multiset([t])))
  {
    var u := s.(jobs := [Replaying([t], [entry], 1), Idle]);
    assert s.jobs[0 := Replaying([t], [entry], 1)] == u.jobs;
    assert u.jobs[0 := Idle] == [Idle, Idle];
  }

  /** Killed with a line on disk, the next process takes it for replay. */
  function DieAndReplay(line: Line, entry: Entry): seq<Action> {
    [Boot] + [Drain(0, true, [])] + [Read(line, true)] + [Halt(0, None)] + [Boot] + [Drain(0, true, [entry])]
  }

  /** A replayed batch that cannot be saved is not written back: the lines are lost while the
      process runs on. */
  lemma FailedReplayLosesBatch(line: Line, entry: Entry)
    ensures var fail := TrySave(0, NotStored, multiset{});
            var s := Exec(OneFlusher(None, None, entry), DieAndReplay(line, entry) + [fail] + [fail]);
            s.up && s.ledger.lostInReplay == multiset{Token(0, line)} && s.buffer == [] && s.books.table == multiset{}
  {
    hide ExecFrom, Next;
    var c, t, fail := OneFlusher(None, None, entry), Token(0, line), TrySave(0, NotStored, multiset{});
    Accepted(c, line);
    var run := [Boot] + [Drain(0, true, [])] + [Read(line, true)];
    ExecSnoc(c, Init(c), run, Halt(0, None));
    EndsBuffered(c, Exec(c, run));
    var dead := Exec(c, run + [Halt(0, None)]);
    ExecSnoc(c, Init(c), run + [Halt(0, None)], Boot);
    ExecSnoc(c, Init(c), run + [Halt(0, None)] + [Boot], Drain(0, true, [entry]));
    BootsWithOne(c, dead, t, entry);
    ExecSnoc(c, Init(c), DieAndReplay(line, entry), fail);
    ExecSnoc(c, Init(c), DieAndReplay(line, entry) + [fail], fail);
    ReplayFails(c, Exec(c, DieAndReplay(line, entry)), t, entry);
    assert multiset{} + multiset([t]) == multiset{t};
  }

  // ---------- lost in a shutdown the breaker refuses, and by a refused re-buffer write ----------

  /** Both attempts of a flush fail and the failure is recorded. */
  lemma GivesUp(c: Config, s: State, t: Token, entry: Entry)
    requires s.up && |s.jobs| == 2 && s.jobs[1] == Saving([t], [entry], 0) && c.attempts == 2
    ensures var fail := TrySave(1, NotStored, multiset{});
            Next(c, Next(c, s, fail), fail) == s.(jobs := [s.jobs[0], GivenUp([t])])
  {
    var u := s.(jobs := [s.jobs[0], Saving([t], [entry], 1)]);
    assert s.jobs[1 := Saving([t], [entry], 1)] == u.jobs;
    assert u.jobs[1 := GivenUp([t])] == [s.jobs[0], GivenUp([t])];
  }

  lemma RecordsFailure(c: Config, s: State, t: Token)
    requires s.up && |s.jobs| == 2 && s.jobs[1] == GivenUp([t])
    ensures var r := Next(c, s, RecordFailure(1));
            && r.jobs == [s.jobs[0], Rebuffering([t])] && r.up && r.buffer == s.buffer && r.ledger == s.ledger
            && r.books == s.books && r.now == s.now
            && r.breaker == if c.breaker.Some? then s.breaker.AfterFailure(s.now) else s.breaker
  {
    assert s.jobs[1 := Rebuffering([t])] == [s.jobs[0], Rebuffering([t])];
  }

  /** Up, one line accepted, drained, and not saved. */
  function FailFlush(line: Line, entry: Entry): seq<Action> {
    BeginFlush(line, entry) + [TrySave(1, NotStored, multiset{})] + [TrySave(1, NotStored, multiset{})]
  }

  lemma FlushFailed(c: Config, line: Line, entry: Entry)
    requires c.flushers == 1 && c.attempts == 2 && c.entriesOf(line) == [entry]
             && (c.capacity.Some? ==> c.capacity.value > 0)
    ensures Exec(c, FailFlush(line, entry))
            == Init(c).(up := true, jobs := [Counting, GivenUp([Token(0, line)])], ledger := OneAccepted(line),
                        calls := Asks(c, Init(c)))
  {
    hide ExecFrom, Next;
    var fail := TrySave(1, NotStored, multiset{});
    Began(c, line, entry);
    ExecSnoc(c, Init(c), BeginFlush(line, entry), fail);
    ExecSnoc(c, Init(c), BeginFlush(line, entry) + [fail], fail);
    GivesUp(c, Exec(c, BeginFlush(line, entry)), Token(0, line), entry);
  }

  lemma RebuffersOne(c: Config, s: State, x: Job, t: Token, ok: bool)
    requires s.up && s.jobs == [x, Rebuffering([t])] && Accepts(c, s, ok)
    ensures Next(c, s, Rebuffer(1, ok))
            == if ok then s.(jobs := [x, Idle], buffer := s.buffer + [t])
               else s.(jobs := [x, Idle], ledger := s.ledger.(dropped := s.ledger.dropped + multiset{t}))
  {
    assert s.jobs[1 := Idle] == [x, Idle];
  }

  /** A flush that the breaker refuses leaves everything where it is. */
  lemma RefusesFlush(c: Config, s: State)
    requires c.breaker.Some? && s.up && s.jobs == [Counting, Idle]
    requires s.breaker.state.Open? && s.now - s.breaker.openedAt < s.breaker.cooldown
    ensures var r := Next(c, Next(c, s, Tick(1)), Allow(1));
            r.up && r.jobs == [Counting, Idle] && r.buffer == s.buffer && r.ledger == s.ledger && r.books == s.books
  {
    var u := s.(jobs := [Counting, Starting]);
    assert s.jobs[1 := Starting] == u.jobs;
    assert u.jobs[1 := Idle] == [Counting, Idle];
  }

  lemma EndsInMemory(c: Config, s: State, t: Token)
    requires c.capacity.Some? && s.up && s.jobs == [Counting, Idle] && s.buffer == [t]
    ensures var r := Next(c, s, Halt(0, None));
            r.ledger.lostAtEnd == s.ledger.lostAtEnd + multiset{t} && r.buffer == [] && r.books == s.books
  {
    HoldsTwo(Counting, Idle);
    hide InFlight;
    assert [t][..1] == [t] && [t][1..] == [];
    assert s.ledger.lostAtEnd + multiset([t]) + (multiset([]) + multiset([])) == s.ledger.lostAtEnd + multiset{t};
  }

  /** A shutdown whose flush the breaker refuses loses what a memory buffer holds. */
  lemma RefusedShutdownLosesBuffer(line: Line, entry: Entry)
    ensures var c := OneFlusher(Some(2), Some((1, 60)), entry);
            var run := FailFlush(line, entry) + [RecordFailure(1)] + [Rebuffer(1, true)] + [Tick(1)] + [Allow(1)]
                       + [Halt(0, None)];
            var s := Exec(c, run);
            s.ledger.lostAtEnd == multiset{Token(0, line)} && s.buffer == [] && s.books.table == multiset{}
  {
    hide ExecFrom, Next;
    var c, t := OneFlusher(Some(2), Some((1, 60)), entry), Token(0, line);
    var run := FailFlush(line, entry);
    FlushFailed(c, line, entry);
    ExecSnoc(c, Init(c), run, RecordFailure(1));
    RecordsFailure(c, Exec(c, run), t);
    run := run + [RecordFailure(1)];
    ExecSnoc(c, Init(c), run, Rebuffer(1, true));
    RebuffersOne(c, Exec(c, run), Counting, t, true);
    run := run + [Rebuffer(1, true)];
    assert [] + [t] == [t];
    ExecSnoc(c, Init(c), run, Tick(1));
    ExecSnoc(c, Init(c), run + [Tick(1)], Allow(1));
    ExecSnoc(c, Init(c), run + [Tick(1)] + [Allow(1)], Halt(0, None));
    RefusesFlush(c, Exec(c, run));
    EndsInMemory(c, Exec(c, run + [Tick(1)] + [Allow(1)]), t);
    assert multiset{} + multiset{t} == multiset{t};
  }

  /** A line that comes in while a batch is being saved can take the place that the batch needs:
      its re-buffer write is refused and the older line is dropped. */
  lemma RefusedRebufferDropsLine(line: Line, other: Line, entry: Entry)
    ensures var c := OneFlusher(Some(1), None, entry);
            var run := FailFlush(line, entry) + [CheckLength] + [Read(other, true)] + [RecordFailure(1)]
                       + [Rebuffer(1, false)];
            var s := Exec(c, run);
            s.up && s.ledger.dropped == multiset{Token(0, line)} && s.buffer == [Token(1, other)]
                && s.books.table == multiset{}
  {
    hide ExecFrom, Next;
    var c, t := OneFlusher(Some(1), None, entry), Token(0, line);
    var run := FailFlush(line, entry);
    FlushFailed(c, line, entry);
    ExecSnoc(c, Init(c), run, CheckLength);
    Checks(c, Exec(c, run));
    run := run + [CheckLength];
    ExecSnoc(c, Init(c), run, Read(other, true));
    ReadsLine(c, Exec(c, run), other);
    run := run + [Read(other, true)];
    assert [] + [Token(1, other)] == [Token(1, other)];
    ExecSnoc(c, Init(c), run, RecordFailure(1));
    RecordsFailure(c, Exec(c, run), t);
    run := run + [RecordFailure(1)];
    ExecSnoc(c, Init(c), run, Rebuffer(1, false));
    RebuffersOne(c, Exec(c, run), Counting, t, false);
    assert multiset{} + multiset{t} == multiset{t};
  }

  // ---------- lost in a shutdown with the server well ----------

  /** The batch is saved and the success recorded. */
  lemma SavesAndReports(c: Config, s: State, x: Job, t: Token, entry: Entry)
    requires s.up && s.jobs == [x, Saving([t], [entry], 0)] && c.breaker.None?
    ensures var r := Next(c, Next(c, s, TrySave(1, Acked, multiset{entry})), RecordSuccess(1));
            && r.up && r.jobs == [x, Idle] && r.buffer == s.buffer && r.books.table == s.books.table + multiset{entry}
            && r.ledger == s.ledger.(settled := s.ledger.settled + [t])
  {
    assert multiset([entry]) == multiset{entry};
    var u := Next(c, s, TrySave(1, Acked, multiset{entry}));
    assert s.jobs[1 := Reporting] == [x, Reporting];
    assert u.jobs == [x, Reporting];
    assert [x, Reporting][1 := Idle] == [x, Idle];
  }

  /** The flusher is Starting with one line buffered and the reader waits for the next. */
  function AboutToFlush(line: Line): seq<Action> {
    [Boot] + [Drain(0, true, [])] + [Read(line, true)] + [CheckLength] + [Tick(1)]
  }

  lemma IsAboutToFlush(c: Config, line: Line)
    requires c.flushers == 1 && c.maxBuffer > 1 && (c.capacity.Some? ==> c.capacity.value > 0)
    ensures Exec(c, AboutToFlush(line))
            == Init(c).(up := true, jobs := [Idle, Starting], buffer := [Token(0, line)], ledger := OneAccepted(line))
  {
    hide ExecFrom, Next;
    Accepted(c, line);
    var run := [Boot] + [Drain(0, true, [])] + [Read(line, true)];
    ExecSnoc(c, Init(c), run, CheckLength);
    Checks(c, Exec(c, run));
    ExecSnoc(c, Init(c), run + [CheckLength], Tick(1));
    Ticks(c, Exec(c, run + [CheckLength]));
  }

  lemma Ticks(c: Config, s: State)
    requires s.up && s.jobs == [Idle, Idle]
    ensures Next(c, s, Tick(1)) == s.(jobs := [Idle, Starting])
  {
    assert s.jobs[1 := Starting] == [Idle, Starting];
  }

  lemma IsLetIn(c: Config, s: State)
    requires s.up && s.jobs == [Idle, Starting] && c.breaker.None?
    ensures Next(c, s, Allow(1)) == s.(jobs := [Idle, Draining])
  {
    assert s.jobs[1 := Draining] == [Idle, Draining];
  }

  /** A shutdown that a signal starts while the reader goes on: the flush finds the server well and
      saves its line, and the line read meanwhile is accepted and lost. */
  lemma SignalShutdownLosesLine(line: Line, other: Line, entry: Entry)
    ensures var c := OneFlusher(Some(5), None, entry);
            var run := AboutToFlush(line) + [Allow(1)] + [Drain(1, true, [entry])] + [Read(other, true)]
                       + [TrySave(1, Acked, multiset{entry})] + [RecordSuccess(1)] + [Halt(0, None)];
            var s := Exec(c, run);
            && s.ledger.accepted == multiset{Token(0, line)} + multiset{Token(1, other)}
            && s.ledger.settled == [Token(0, line)] && s.books.table == multiset{entry}
            && s.ledger.lostAtEnd == multiset{Token(1, other)}
  {
    hide ExecFrom, Next;
    var c, t, u := OneFlusher(Some(5), None, entry), Token(0, line), Token(1, other);
    var run := AboutToFlush(line);
    IsAboutToFlush(c, line);
    ExecSnoc(c, Init(c), run, Allow(1));
    IsLetIn(c, Exec(c, run));
    run := run + [Allow(1)];
    ExecSnoc(c, Init(c), run, Drain(1, true, [entry]));
    DrainsOne(c, Exec(c, run), t, entry);
    run := run + [Drain(1, true, [entry])];
    ExecSnoc(c, Init(c), run, Read(other, true));
    ReadsLine(c, Exec(c, run), other);
    assert [] + [u] == [u];
    run := run + [Read(other, true)];
    ExecSnoc(c, Init(c), run, TrySave(1, Acked, multiset{entry}));
    ExecSnoc(c, Init(c), run + [TrySave(1, Acked, multiset{entry})], RecordSuccess(1));
    SavesAndReports(c, Exec(c, run), Counting, t, entry);
    assert [] + [t] == [t] && multiset{} + multiset{entry} == multiset{entry}
           && multiset{} + multiset{u} == multiset{u};
    run := run + [TrySave(1, Acked, multiset{entry})] + [RecordSuccess(1)];
    ExecSnoc(c, Init(c), run, Halt(0, None));
    EndsInMemory(c, Exec(c, run), u);
    EndKeepsBooks(c, Exec(c, run));
  }

  lemma EndKeepsBooks(c: Config, s: State)
    requires c.capacity.Some? && s.up
    ensures var r := Next(c, s, Halt(0, None));
            r.books == s.books && r.ledger.accepted == s.ledger.accepted && r.ledger.settled == s.ledger.settled
  {
    hide InFlight;
  }

  // ---------- settled without a row ----------

  lemma SavedWithoutRows(c: Config, s: State, t: Token, entry: Entry)
    requires s.up && |s.jobs| == 2 && s.jobs[1] == Saving([t], [entry], 0)
    ensures var r := Next(c, s, TrySave(1, Acked, multiset{}));
            r.ledger == s.ledger.(settled := s.ledger.settled + [t]) && r.books.table == s.books.table + multiset{}
            && r.buffer == s.buffer
  {
  }

  /** An attempt whose rows all fail to append is acknowledged: the line is settled and nowhere in
      the table. */
  lemma AcknowledgedWithoutRow(line: Line, entry: Entry)
    ensures var s := Exec(OneFlusher(None, None, entry), BeginFlush(line, entry) + [TrySave(1, Acked, multiset{})]);
            s.ledger.settled == [Token(0, line)] && s.books.table == multiset{} && s.buffer == []
  {
    hide ExecFrom, Next;
    var c, t := OneFlusher(None, None, entry), Token(0, line);
    Began(c, line, entry);
    ExecSnoc(c, Init(c), BeginFlush(line, entry), TrySave(1, Acked, multiset{}));
    SavedWithoutRows(c, Exec(c, BeginFlush(line, entry)), t, entry);
    assert [] + [t] == [t];
  }

  // ---------- memory filled up to its bound ----------

  /** A program whose lines all have an entry, with room for cap lines and without a breaker. */
  predicate Fillable(c: Config, cap: nat, line: Line) {
    && c.capacity == Some(cap) && c.maxBuffer == cap && cap > 0 && c.breaker.None? && c.attempts > 0
    && !c.sampling && c.entriesOf(line) != []
  }

  predicate AllText(tokens: seq<Token>, line: Line) { forall t | t in tokens :: t.text == line }

  /** What n such lines come to. */
  lemma {:induction false} TextsParse(c: Config, tokens: seq<Token>, line: Line)
    requires AllText(tokens, line) && !c.sampling
    ensures Parsed(c, tokens, Repeat(c.entriesOf(line), |tokens|))
  {
    if tokens != [] {
      TextsParse(c, tokens[..|tokens| - 1], line);
      assert tokens[|tokens| - 1] in tokens;
    }
  }

  lemma {:induction false} RepeatSize<T>(xs: seq<T>, n: nat)
    requires xs != [] && n > 0
    ensures Repeat(xs, n) != []
  {
  }

  /** The reader has just taken the n-th line since the buffer was empty. */
  ghost predicate Filled(s: State, jobs: seq<Job>, line: Line, n: nat) {
    s.up && jobs != [] && s.jobs == jobs[0 := Counting] && |s.buffer| == n && AllText(s.buffer, line)
  }

  lemma TakesLine(c: Config, s: State, jobs: seq<Job>, line: Line, cap: nat)
    requires Fillable(c, cap, line) && s.up && jobs != [] && s.jobs == jobs[0 := Idle] && |s.buffer| < cap
             && AllText(s.buffer, line)
    ensures Filled(Next(c, s, Read(line, true)), jobs, line, |s.buffer| + 1)
  {
    hide EntriesOf, InFlight, Parsed;
  }

  lemma ChecksLength(c: Config, s: State, jobs: seq<Job>, line: Line, n: nat, cap: nat)
    requires Fillable(c, cap, line) && Filled(s, jobs, line, n) && n < cap
    ensures Next(c, s, CheckLength) == s.(jobs := jobs[0 := Idle])
  {
    hide EntriesOf, InFlight, Parsed;
    assert jobs[0 := Counting][0 := Idle] == jobs[0 := Idle];
  }

  lemma {:induction false} ReadsLines(c: Config, s: State, line: Line, n: nat, cap: nat) returns (more: seq<Action>)
    requires Fillable(c, cap, line) && s.up && s.jobs != [] && s.jobs[0].Idle? && s.buffer == [] && 0 < n <= cap
    ensures Filled(ExecFrom(c, s, more), s.jobs, line, n)
  {
    hide Next, Filled, Fillable;
    if n == 1 {
      assert s.jobs[0 := Idle] == s.jobs && AllText([], line);
      TakesLine(c, s, s.jobs, line, cap);
      ExecSnoc(c, s, [], Read(line, true));
      more := [] + [Read(line, true)];
    } else {
      var init := ReadsLines(c, s, line, n - 1, cap);
      var m := ExecFrom(c, s, init);
      ChecksLength(c, m, s.jobs, line, n - 1, cap);
      ExecSnoc(c, s, init, CheckLength);
      ExecSnoc(c, s, init + [CheckLength], Read(line, true));
      FilledIs(m, s.jobs, line, n - 1);
      TakesLine(c, m.(jobs := s.jobs[0 := Idle]), s.jobs, line, cap);
      more := init + [CheckLength] + [Read(line, true)];
    }
  }

  lemma FilledIs(s: State, jobs: seq<Job>, line: Line, n: nat)
    requires Filled(s, jobs, line, n)
    ensures s.up && jobs != [] && |s.buffer| == n && AllText(s.buffer, line)
  {
  }

  /** Goroutine i takes a full buffer into flight, and the reader goes on. */
  function TakeAll(c: Config, i: nat, line: Line, n: nat): seq<Action> {
    [Tick(i)] + [Allow(i)] + [Drain(i, true, Repeat(c.entriesOf(line), n))] + [CheckLength]
  }

  lemma TakesAll(c: Config, s: State, jobs: seq<Job>, i: nat, line: Line, cap: nat)
    requires Fillable(c, cap, line) && Filled(s, jobs, line, cap) && 0 < i < |jobs| && jobs[0].Idle? && jobs[i].Idle?
    ensures var r := ExecFrom(c, s, TakeAll(c, i, line, cap));
            && r.up && r.buffer == [] && r.jobs == jobs[i := Saving(s.buffer, Repeat(c.entriesOf(line), cap), 0)]
  {
    var entries := Repeat(c.entriesOf(line), cap);
    TextsParse(c, s.buffer, line);
    RepeatSize(c.entriesOf(line), cap);
    hide Parsed, EntriesOf, Repeat, ExecFrom, InFlight;
    ExecSnoc(c, s, [], Tick(i));
    ExecSnoc(c, s, [] + [Tick(i)], Allow(i));
    ExecSnoc(c, s, [] + [Tick(i)] + [Allow(i)], Drain(i, true, entries));
    ExecSnoc(c, s, [] + [Tick(i)] + [Allow(i)] + [Drain(i, true, entries)], CheckLength);
    assert [] + [Tick(i)] == [Tick(i)];
    assert ExecFrom(c, s, []) == s by { ExecNone(c, s); }
    var a := s.(jobs := jobs[0 := Counting][i := Starting]);
    assert Next(c, s, Tick(i)) == a;
    var b := s.(jobs := jobs[0 := Counting][i := Draining]);
    assert a.jobs[i := Draining] == b.jobs;
    assert Next(c, a, Allow(i)) == b;
    var job := Saving(s.buffer, entries, 0);
    var d := s.(jobs := jobs[0 := Counting][i := job], buffer := []);
    assert b.jobs[i := job] == d.jobs;
    assert Next(c, b, Drain(i, true, entries)) == d;
    assert d.jobs[0 := Idle] == jobs[i := job];
  }

  lemma ExecNone(c: Config, s: State)
    ensures ExecFrom(c, s, []) == s
  {
  }

  /** k flushers hold a full buffer each. */
  ghost predicate Holding(c: Config, s: State, k: nat, cap: nat) {
    && s.up && s.buffer == [] && |s.jobs| == 1 + c.flushers && k <= c.flushers
    && s.jobs[0].Idle? && (forall i | k < i <= c.flushers :: s.jobs[i].Idle?)
    && |InFlight(s.jobs)| == k * cap
  }

  lemma HoldsMore(c: Config, s: State, r: State, k: nat, cap: nat, job: Job)
    requires Holding(c, s, k, cap) && k < c.flushers
    requires r.up && r.buffer == [] && r.jobs == s.jobs[k + 1 := job] && |job.Held()| == cap
    ensures Holding(c, r, k + 1, cap)
  {
    InFlightSize(s.jobs, k + 1, job);
    hide InFlight;
    assert s.jobs[k + 1].Held() == [];
    assert (k + 1) * cap == k * cap + cap;
  }

  lemma StartsHolding(c: Config, cap: nat)
    ensures Holding(c, Exec(c, [Boot] + [Drain(0, true, [])]), 0, cap)
  {
    hide Parsed, EntriesOf, InFlight;
    var s := Init(c);
    ExecSnoc(c, s, [], Boot);
    ExecSnoc(c, s, [Boot], Drain(0, true, []));
    assert [] + [Boot] == [Boot];
    NothingParses(c);
    var r := Exec(c, [Boot] + [Drain(0, true, [])]);
    assert r.jobs == s.jobs[0 := Recovering][0 := Idle] == s.jobs;
    IdleHoldsNothing(r.jobs);
  }

  lemma {:induction false} FlushersFill(c: Config, line: Line, cap: nat, k: nat) returns (run: seq<Action>)
    requires Fillable(c, cap, line) && k <= c.flushers
    ensures Holding(c, Exec(c, run), k, cap)
  {
    hide Next, ExecFrom, Filled, Holding, Fillable;
    if k == 0 {
      run := [Boot] + [Drain(0, true, [])];
      StartsHolding(c, cap);
    } else {
      var init := FlushersFill(c, line, cap, k - 1);
      var s := Exec(c, init);
      HoldingIs(c, s, k - 1, cap);
      FillableIs(c, cap, line);
      var fill := ReadsLines(c, s, line, cap, cap);
      var full := ExecFrom(c, s, fill);
      FilledIs(full, s.jobs, line, cap);
      TakesAll(c, full, s.jobs, k, line, cap);
      ExecConcat(c, Init(c), init, fill);
      ExecConcat(c, Init(c), init + fill, TakeAll(c, k, line, cap));
      run := init + fill + TakeAll(c, k, line, cap);
      HoldsMore(c, s, Exec(c, run), k - 1, cap, Saving(full.buffer, Repeat(c.entriesOf(line), cap), 0));
    }
  }

  lemma HoldingIs(c: Config, s: State, k: nat, cap: nat)
    requires Holding(c, s, k, cap)
    ensures s.up && s.buffer == [] && |s.jobs| == 1 + c.flushers && s.jobs[0].Idle? && |InFlight(s.jobs)| == k * cap
    ensures forall i | k < i <= c.flushers :: s.jobs[i].Idle?
  {
  }

  lemma FillableIs(c: Config, cap: nat, line: Line)
    requires Fillable(c, cap, line)
    ensures cap > 0
  {
  }

  lemma FullLoad(s: State, r: State, line: Line, cap: nat)
    requires s.jobs != [] && s.jobs[0].Idle? && Filled(r, s.jobs, line, cap)
    ensures Load(r) == cap + |InFlight(s.jobs)|
  {
    InFlightSize(s.jobs, 0, Counting);
    hide InFlight;
  }

  /** The bound on memory is reached, for every buffer size and number of flushers: each flusher
      holds a full buffer while the reader fills the next one. */
  lemma {:induction false} MemoryFillsUp(c: Config, line: Line)
    requires c.capacity.Some? && (c.capacity.value > 0 ==> Fillable(c, c.capacity.value, line))
    ensures exists actions :: Load(Exec(c, actions)) == (1 + c.flushers) * c.capacity.value
  {
    hide Next, ExecFrom, Filled, Holding, Fillable, Load;
    var cap := c.capacity.value;
    if cap == 0 {
      MemoryIsBounded(c, []);
      assert Load(Exec(c, [])) == 0;
    } else {
      var init := FlushersFill(c, line, cap, c.flushers);
      var s := Exec(c, init);
      HoldingIs(c, s, c.flushers, cap);
      var fill := ReadsLines(c, s, line, cap, cap);
      ExecConcat(c, Init(c), init, fill);
      FullLoad(s, Exec(c, init + fill), line, cap);
      assert (1 + c.flushers) * cap == cap + c.flushers * cap;
    }
  }
}
