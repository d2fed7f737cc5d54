/** The delivery protocol: one reader and any number of flushers share a buffer, a circuit breaker
    and the table, interleaved at every mutex-protected operation, with process ends and restarts. */
module Delivery {
  import opened Prelude
  import B = CircuitBreakers
  import opened Clients

  /** An accepted line with its own identity. */
  datatype Token = Token(id: nat, text: Line)

  /** Where one goroutine is. Job 0 is the main goroutine: replay, then the reader, then the flush
      at the end of the input. */
  datatype Job =
    | Idle
    | Recovering
    | Counting
    | Starting
    | Draining
    | Saving(batch: seq<Token>, entries: seq<Entry>, tries: nat)
    | GivenUp(batch: seq<Token>)
    | Rebuffering(batch: seq<Token>)
    | Reporting
    | Replaying(batch: seq<Token>, entries: seq<Entry>, tries: nat)
  {
    /** The lines that only this goroutine has. */
    function Held(): seq<Token> {
      if Saving? || GivenUp? || Rebuffering? || Replaying? then batch else []
    }
  }

  /** capacity: the line limit of a memory buffer, None for a disk buffer. attempts: how often one
      Save tries at most, Settings.Attempts of the client. entriesOf: what parsing and filtering make
      of a line; sampling: rules may also drop entries at random. */
  datatype Config = Config(
    capacity: Option<nat>,
    maxBuffer: int,
    attempts: nat,
    breaker: Option<(int, int)>,
    flushers: nat,
    entriesOf: Line -> seq<Entry>,
    sampling: bool
  )

  /** Where every line that came in has gone: accepted by a buffer write (or left torn by a crash),
      settled, dropped by a refused re-buffer write, lost with the process, lost in a replay. */
  datatype Ledger = Ledger(
    nextId: nat,
    accepted: multiset<Token>,
    torn: multiset<Token>,
    settled: seq<Token>,
    dropped: multiset<Token>,
    lostAtEnd: multiset<Token>,
    lostInReplay: multiset<Token>
  )

  /** The table and its accounts: paid, the entries of settled batches; surplus, rows stored by
      attempts that reported an error; skipped, entries whose row an acknowledged attempt could not
      append; unsent, the entries of saves that made no attempt. */
  datatype Books = Books(
    table: multiset<Entry>,
    paid: multiset<Entry>,
    surplus: multiset<Entry>,
    skipped: multiset<Entry>,
    unsent: multiset<Entry>
  )

  /** The running program with its ledger and books. */
  datatype State = State(
    up: bool,
    jobs: seq<Job>,
    buffer: seq<Token>,
    breaker: B.Breaker,
    calls: seq<B.Event>,
    now: int,
    ledger: Ledger,
    books: Books
  )

  datatype Action =
    | Boot
    | Read(text: Line, ok: bool)
    | CheckLength
    | Tick(job: nat)
    | Allow(job: nat)
    | Drain(job: nat, readOk: bool, entries: seq<Entry>)
    | TrySave(job: nat, result: SendResult, rows: multiset<Entry>)
    | RecordFailure(job: nat)
    | Rebuffer(job: nat, ok: bool)
    | RecordSuccess(job: nat)
    | Wait(time: nat)
    | Halt(deleted: nat, fragment: Option<Line>)
  {
    /** The goroutine the action moves. */
    function Actor(): nat {
      if Tick? || Allow? || Drain? || TrySave? || RecordFailure? || Rebuffer? || RecordSuccess? then job else 0
    }
  }

  // ---------- what batches hold ----------

  function EntriesOf(c: Config, tokens: seq<Token>): multiset<Entry> {
    if tokens == [] then multiset{}
    else EntriesOf(c, tokens[..|tokens| - 1]) + multiset(c.entriesOf(tokens[|tokens| - 1].text))
  }

  /** The entries a batch may be saved as. */
  predicate Parsed(c: Config, batch: seq<Token>, entries: seq<Entry>) {
    if c.sampling then multiset(entries) <= EntriesOf(c, batch) else multiset(entries) == EntriesOf(c, batch)
  }

  function InFlight(jobs: seq<Job>): multiset<Token> {
    if jobs == [] then multiset{} else multiset(jobs[0].Held()) + InFlight(jobs[1..])
  }

  function AllIdle(n: nat): (jobs: seq<Job>)
    ensures |jobs| == n && forall i | 0 <= i < n :: jobs[i] == Idle
  {
    seq(n, _ => Idle)
  }

  // ---------- steps ----------

  function NewBreaker(c: Config): B.Breaker {
    match c.breaker
    case Some((threshold, cooldown)) => B.New(threshold, cooldown)
    case None => B.New(1, 0)
  }

  function Init(c: Config): State {
    State(false, AllIdle(1 + c.flushers), [], NewBreaker(c), [], 0,
          Ledger(0, multiset{}, multiset{}, [], multiset{}, multiset{}, multiset{}),
          Books(multiset{}, multiset{}, multiset{}, multiset{}, multiset{}))
  }

  predicate Accepts(c: Config, s: State, ok: bool) {
    c.capacity.Some? ==> ok == (|s.buffer| < c.capacity.value)
  }

  predicate Runs(s: State, i: nat) { s.up && i < |s.jobs| }

  /** Reading the buffer: a flush, or the replay of what an earlier process left. */
  predicate Reads(job: Job) { job.Draining? || job.Recovering? }

  predicate Saves(job: Job) { job.Saving? || job.Replaying? }

  predicate Enabled(c: Config, s: State, a: Action) {
    match a
    case Boot => !s.up && |s.jobs| > 0
    case Read(_, ok) => Runs(s, 0) && s.jobs[0].Idle? && Accepts(c, s, ok)
    case CheckLength => Runs(s, 0) && s.jobs[0].Counting?
    case Tick(i) => Runs(s, i) && s.jobs[i].Idle? && !s.jobs[0].Recovering? && !s.jobs[0].Replaying?
    case Allow(i) => Runs(s, i) && s.jobs[i].Starting?
    case Drain(i, readOk, entries) =>
      Runs(s, i) && Reads(s.jobs[i]) && (c.capacity.Some? ==> readOk) && (readOk ==> Parsed(c, s.buffer, entries))
    case TrySave(i, _, rows) => Runs(s, i) && Saves(s.jobs[i]) && rows <= multiset(s.jobs[i].entries)
    case RecordFailure(i) => Runs(s, i) && s.jobs[i].GivenUp?
    case Rebuffer(i, ok) => Runs(s, i) && s.jobs[i].Rebuffering? && s.jobs[i].batch != [] && Accepts(c, s, ok)
    case RecordSuccess(i) => Runs(s, i) && s.jobs[i].Reporting?
    case Wait(_) => true
    case Halt(deleted, fragment) =>
      && s.up && deleted <= |s.buffer|
      && (c.capacity.Some? ==> deleted == 0 && fragment == None)
      && (deleted > 0 ==> exists i :: 0 <= i < |s.jobs| && Reads(s.jobs[i]))
  }

  function SetJob(s: State, i: nat, job: Job): State
    requires i < |s.jobs|
  {
    s.(jobs := s.jobs[i := job])
  }

  /** A batch leaves with nothing more to do: saved, or without any entry. */
  function Settle(s: State, batch: seq<Token>): State {
    s.(ledger := s.ledger.(settled := s.ledger.settled + batch))
  }

  /** A new token enters the buffer. */
  function Push(s: State, text: Line): Token { Token(s.ledger.nextId, text) }

  /** An acknowledged attempt: the table gains the rows that could be appended. */
  function Entered(b: Books, entries: multiset<Entry>, rows: multiset<Entry>): Books {
    b.(table := b.table + rows, paid := b.paid + entries, skipped := b.skipped + (entries - rows))
  }

  function EnteredUnpaid(b: Books, rows: multiset<Entry>): Books {
    b.(table := b.table + rows, surplus := b.surplus + rows)
  }

  function NotSent(b: Books, entries: multiset<Entry>): Books {
    b.(paid := b.paid + entries, unsent := b.unsent + entries)
  }

  /** The buffer is emptied; the batch is saved next unless nothing is left of it. */
  function Drained(c: Config, s: State, i: nat, entries: seq<Entry>, next: Job, done: Job): State
    requires i < |s.jobs|
  {
    var t := s.(buffer := []);
    if s.buffer == [] then SetJob(t, i, Idle)
    else if entries == [] then SetJob(Settle(t, s.buffer), i, Idle)
    else if c.attempts == 0 then
      SetJob(Settle(t, s.buffer), i, done).(books := NotSent(s.books, multiset(entries)))
    else SetJob(t, i, next)
  }

  function Booted(c: Config, s: State): State
    requires |s.jobs| > 0
  {
    SetJob(s, 0, Recovering).(up := true, breaker := NewBreaker(c), calls := [])
  }

  function ReadIn(s: State, text: Line, ok: bool): State
    requires |s.jobs| > 0
  {
    var token := Push(s, text);
    if ok then
      SetJob(s, 0, Counting).(
        buffer := s.buffer + [token],
        ledger := s.ledger.(accepted := s.ledger.accepted + multiset{token}, nextId := s.ledger.nextId + 1))
    else s
  }

  function Asked(c: Config, s: State, i: nat): State
    requires i < |s.jobs|
  {
    if c.breaker.None? then SetJob(s, i, Draining)
    else
      SetJob(s, i, if s.breaker.Grants(s.now) then Draining else Idle)
        .(breaker := s.breaker.AfterAllow(s.now), calls := s.calls + [B.Allowed(s.now)])
  }

  function DrainStep(c: Config, s: State, i: nat, readOk: bool, entries: seq<Entry>): State
    requires i < |s.jobs|
  {
    if !readOk then SetJob(s, i, Idle)
    else if s.jobs[i].Recovering? then Drained(c, s, i, entries, Replaying(s.buffer, entries, 0), Idle)
    else Drained(c, s, i, entries, Saving(s.buffer, entries, 0), Reporting)
  }

  function Saved(s: State, i: nat, job: Job, rows: multiset<Entry>): State
    requires i < |s.jobs| && Saves(job)
  {
    SetJob(Settle(s, job.batch), i, if job.Saving? then Reporting else Idle)
      .(books := Entered(s.books, multiset(job.entries), rows))
  }

  /** After a failed attempt: the next one, or giving the batch up. */
  function NotSaved(c: Config, s: State, i: nat, job: Job): State
    requires i < |s.jobs| && Saves(job)
  {
    if job.tries + 1 < c.attempts then SetJob(s, i, job.(tries := job.tries + 1))
    else if job.Saving? then SetJob(s, i, GivenUp(job.batch))
    else SetJob(s, i, Idle).(ledger := s.ledger.(lostInReplay := s.ledger.lostInReplay + multiset(job.batch)))
  }

  function Tried(c: Config, s: State, i: nat, result: SendResult, rows: multiset<Entry>): State
    requires i < |s.jobs| && Saves(s.jobs[i])
  {
    var job := s.jobs[i];
    match result
    case Acked => Saved(s, i, job, rows)
    case AckLost => NotSaved(c, s.(books := EnteredUnpaid(s.books, rows)), i, job)
    case NotStored => NotSaved(c, s, i, job)
  }

  function FailureRecorded(c: Config, s: State, i: nat): State
    requires i < |s.jobs| && s.jobs[i].GivenUp?
  {
    var t := SetJob(s, i, Rebuffering(s.jobs[i].batch));
    if c.breaker.None? then t
    else t.(breaker := s.breaker.AfterFailure(s.now), calls := s.calls + [B.Failed(s.now)])
  }

  function Rebuffered(s: State, i: nat, ok: bool): State
    requires i < |s.jobs| && s.jobs[i].Rebuffering? && s.jobs[i].batch != []
  {
    var batch := s.jobs[i].batch;
    var t := SetJob(s, i, if |batch| == 1 then Idle else Rebuffering(batch[1..]));
    if ok then t.(buffer := s.buffer + [batch[0]])
    else t.(ledger := s.ledger.(dropped := s.ledger.dropped + multiset{batch[0]}))
  }

  function SuccessRecorded(c: Config, s: State, i: nat): State
    requires i < |s.jobs|
  {
    if c.breaker.None? then SetJob(s, i, Idle)
    else SetJob(s, i, Idle).(breaker := s.breaker.AfterSuccess(), calls := s.calls + [B.Succeeded(s.now)])
  }

  /** The process is gone: what goroutines held is lost, and a memory buffer with them. */
  function Ended(s: State, gone: nat): State
    requires gone <= |s.buffer|
  {
    s.(up := false,
       jobs := AllIdle(|s.jobs|),
       buffer := s.buffer[gone..],
       ledger := s.ledger.(lostAtEnd := s.ledger.lostAtEnd + multiset(s.buffer[..gone]) + InFlight(s.jobs)))
  }

  function Halted(c: Config, s: State, deleted: nat, fragment: Option<Line>): State
    requires deleted <= |s.buffer|
  {
    var t := Ended(s, if c.capacity.Some? then |s.buffer| else deleted);
    match fragment
    case None => t
    case Some(text) =>
      var token := Push(s, text);
      t.(buffer := t.buffer + [token],
         ledger := t.ledger.(torn := s.ledger.torn + multiset{token}, nextId := s.ledger.nextId + 1))
  }

  function Apply(c: Config, s: State, a: Action): State
    requires Enabled(c, s, a)
  {
    match a
    case Boot => Booted(c, s)
    case Read(text, ok) => ReadIn(s, text, ok)
    case CheckLength => SetJob(s, 0, if |s.buffer| >= c.maxBuffer then Starting else Idle)
    case Tick(i) => SetJob(s, i, Starting)
    case Allow(i) => Asked(c, s, i)
    case Drain(i, readOk, entries) => DrainStep(c, s, i, readOk, entries)
    case TrySave(i, result, rows) => Tried(c, s, i, result, rows)
    case RecordFailure(i) => FailureRecorded(c, s, i)
    case Rebuffer(i, ok) => Rebuffered(s, i, ok)
    case RecordSuccess(i) => SuccessRecorded(c, s, i)
    case Wait(time) => s.(now := s.now + time)
    case Halt(deleted, fragment) => Halted(c, s, deleted, fragment)
  }

  /** Short of the end of the process a step moves one goroutine at most. */
  lemma OneMoves(c: Config, s: State, a: Action)
    requires Enabled(c, s, a) && !a.Wait? && !a.Halt?
    ensures var i, r := a.Actor(), Apply(c, s, a);
            i < |s.jobs| == |r.jobs| && r.jobs == s.jobs[i := r.jobs[i]]
  {
    hide EntriesOf, Parsed, InFlight, NewBreaker, DrainStep, Tried, Rebuffered;
    match a
    case Drain(i, readOk, entries) => DrainOneMoves(c, s, i, readOk, entries);
    case TrySave(i, result, rows) => TryOneMoves(c, s, i, result, rows);
    case Rebuffer(i, ok) => RebufferOneMoves(s, i, ok);
    case _ =>
  }

  lemma DrainOneMoves(c: Config, s: State, i: nat, readOk: bool, entries: seq<Entry>)
    requires i < |s.jobs|
    ensures var r := DrainStep(c, s, i, readOk, entries); |r.jobs| == |s.jobs| && r.jobs == s.jobs[i := r.jobs[i]]
  {
    hide NotSent;
  }

  lemma TryOneMoves(c: Config, s: State, i: nat, result: SendResult, rows: multiset<Entry>)
    requires i < |s.jobs| && Saves(s.jobs[i])
    ensures var r := Tried(c, s, i, result, rows); |r.jobs| == |s.jobs| && r.jobs == s.jobs[i := r.jobs[i]]
  {
    hide Entered, EnteredUnpaid;
  }

  lemma RebufferOneMoves(s: State, i: nat, ok: bool)
    requires i < |s.jobs| && s.jobs[i].Rebuffering? && s.jobs[i].batch != []
    ensures var r := Rebuffered(s, i, ok); |r.jobs| == |s.jobs| && r.jobs == s.jobs[i := r.jobs[i]]
  {
  }

  /** One step of an interleaving; an action that is not possible changes nothing. */
  function Next(c: Config, s: State, a: Action): State {
    if Enabled(c, s, a) then Apply(c, s, a) else s
  }

  /** The state a sequence of actions leads to from s. */
  function ExecFrom(c: Config, s: State, actions: seq<Action>): State {
    if actions == [] then s
    else Next(c, ExecFrom(c, s, actions[..|actions| - 1]), actions[|actions| - 1])
  }

  /** The state after any sequence of actions: every interleaving of the goroutines is one. */
  function Exec(c: Config, actions: seq<Action>): State { ExecFrom(c, Init(c), actions) }

  lemma ExecSnoc(c: Config, s: State, actions: seq<Action>, a: Action)
    ensures ExecFrom(c, s, actions + [a]) == Next(c, ExecFrom(c, s, actions), a)
  {
    assert (actions + [a])[..|actions|] == actions;
  }

  lemma {:induction false} ExecConcat(c: Config, s: State, a: seq<Action>, b: seq<Action>)
    ensures ExecFrom(c, s, a + b) == ExecFrom(c, ExecFrom(c, s, a), b)
  {
    hide Next;
    if b == [] {
      assert a + b == a;
    } else {
      var n := |b| - 1;
      assert a + b == (a + b[..n]) + [b[n]];
      ExecConcat(c, s, a, b[..n]);
      ExecSnoc(c, s, a + b[..n], b[n]);
    }
  }

  // ---------- conservation ----------

  /** How often the ledger places t. */
  function Placed(s: State, t: Token): nat {
    multiset(s.buffer)[t] + InFlight(s.jobs)[t] + multiset(s.ledger.settled)[t]
    + s.ledger.dropped[t] + s.ledger.lostAtEnd[t] + s.ledger.lostInReplay[t]
  }

  /** How often t is placed less how often it came in. */
  function Gap(s: State, t: Token): int { Placed(s, t) - s.ledger.accepted[t] - s.ledger.torn[t] }

  /** Every token is placed exactly as often as it came in. */
  ghost predicate Conserved(s: State) {
    forall t: Token :: Gap(s, t) == 0
  }

  lemma OneToken(x: Token, t: Token)
    ensures multiset([x])[t] == multiset{x}[t] == if x == t then 1 else 0
  {
  }

  /** A goroutine that moves on exchanges what it held for what it holds then. */
  lemma {:induction false} InFlightUpdate(jobs: seq<Job>, i: nat, job: Job)
    requires i < |jobs|
    ensures InFlight(jobs[i := job]) + multiset(jobs[i].Held()) == InFlight(jobs) + multiset(job.Held())
  {
    hide Job.Held;
    if i > 0 {
      InFlightUpdate(jobs[1..], i - 1, job);
      assert jobs[i := job][1..] == jobs[1..][i - 1 := job];
      var first, rest, after := multiset(jobs[0].Held()), InFlight(jobs[1..]), InFlight(jobs[1..][i - 1 := job]);
      assert (first + after) + multiset(jobs[i].Held()) == first + (after + multiset(jobs[i].Held()));
      assert (first + rest) + multiset(job.Held()) == first + (rest + multiset(job.Held()));
    } else {
      assert jobs[0 := job][1..] == jobs[1..];
    }
  }

  lemma {:induction false} IdleHoldsNothing(jobs: seq<Job>)
    requires forall i | 0 <= i < |jobs| :: jobs[i].Held() == []
    ensures InFlight(jobs) == multiset{}
  {
    if jobs != [] {
      IdleHoldsNothing(jobs[1..]);
    }
  }

  /** Stopped goroutines hold nothing. */
  predicate Stopped(s: State) { !s.up ==> forall i | 0 <= i < |s.jobs| :: s.jobs[i].Idle? }

  /** A goroutine that moves on with the same lines changes no place. */
  lemma SetJobPlaces(s: State, i: nat, job: Job, t: Token)
    requires i < |s.jobs|
    ensures Gap(SetJob(s, i, job), t) == Gap(s, t) + multiset(job.Held())[t] - multiset(s.jobs[i].Held())[t]
  {
    hide Job.Held, InFlight;
    InFlightUpdate(s.jobs, i, job);
    var before, after := InFlight(s.jobs), InFlight(s.jobs[i := job]);
    assert (after + multiset(s.jobs[i].Held()))[t] == (before + multiset(job.Held()))[t];
  }

  /** The buffer empties without its lines being placed elsewhere, or being settled. */
  lemma EmptiedPlaces(s: State, t: Token)
    ensures Gap(s.(buffer := []), t) == Gap(s, t) - multiset(s.buffer)[t]
    ensures Gap(Settle(s.(buffer := []), s.buffer), t) == Gap(s, t)
  {
    hide InFlight;
  }

  lemma DrainedPlaces(c: Config, s: State, i: nat, entries: seq<Entry>, next: Job, done: Job, t: Token)
    requires i < |s.jobs| && s.jobs[i].Held() == [] && next.Held() == s.buffer && done.Held() == []
    ensures Gap(Drained(c, s, i, entries, next, done), t) == Gap(s, t)
  {
    hide InFlight, Job.Held, Gap, NotSent;
    var u := s.(buffer := []);
    EmptiedPlaces(s, t);
    IdleHeld();
    if s.buffer == [] {
      SetJobPlaces(u, i, Idle, t);
    } else if entries == [] {
      SetJobPlaces(Settle(u, s.buffer), i, Idle, t);
    } else if c.attempts == 0 {
      SetJobPlaces(Settle(u, s.buffer), i, done, t);
      BooksPlaceNothing(SetJob(Settle(u, s.buffer), i, done), NotSent(s.books, multiset(entries)), t);
    } else {
      SetJobPlaces(u, i, next, t);
    }
  }

  lemma IdleHeld()
    ensures Idle.Held() == []
  {
  }

  lemma BooksPlaceNothing(s: State, books: Books, t: Token)
    ensures Gap(s.(books := books), t) == Gap(s, t)
  {
    hide InFlight;
  }

  lemma SettlePlaces(s: State, batch: seq<Token>, t: Token)
    ensures Gap(Settle(s, batch), t) == Gap(s, t) + multiset(batch)[t]
  {
    hide InFlight;
  }

  lemma SavedPlaces(s: State, i: nat, job: Job, rows: multiset<Entry>, t: Token)
    requires i < |s.jobs| && Saves(job) && s.jobs[i] == job
    ensures Gap(Saved(s, i, job, rows), t) == Gap(s, t)
  {
    hide InFlight, Gap, Entered;
    var next := if job.Saving? then Reporting else Idle;
    SettlePlaces(s, job.batch, t);
    SetJobPlaces(Settle(s, job.batch), i, next, t);
    BooksPlaceNothing(SetJob(Settle(s, job.batch), i, next), Entered(s.books, multiset(job.entries), rows), t);
  }

  lemma NotSavedPlaces(c: Config, s: State, i: nat, job: Job, t: Token)
    requires i < |s.jobs| && Saves(job) && s.jobs[i] == job
    ensures Gap(NotSaved(c, s, i, job), t) == Gap(s, t)
  {
    hide InFlight, Gap;
    if job.tries + 1 < c.attempts {
      SetJobPlaces(s, i, job.(tries := job.tries + 1), t);
    } else if job.Saving? {
      SetJobPlaces(s, i, GivenUp(job.batch), t);
    } else {
      SetJobPlaces(s, i, Idle, t);
      LostPlaces(SetJob(s, i, Idle), job.batch, t);
    }
  }

  lemma LostPlaces(s: State, batch: seq<Token>, t: Token)
    ensures Gap(s.(ledger := s.ledger.(lostInReplay := s.ledger.lostInReplay + multiset(batch))), t)
            == Gap(s, t) + multiset(batch)[t]
  {
    hide InFlight;
  }

  lemma TrySavePlaces(c: Config, s: State, i: nat, result: SendResult, rows: multiset<Entry>, t: Token)
    requires i < |s.jobs| && Saves(s.jobs[i])
    ensures Gap(Tried(c, s, i, result, rows), t) == Gap(s, t)
  {
    hide NotSaved, Saved, InFlight, Gap;
    var job := s.jobs[i];
    var u := s.(books := EnteredUnpaid(s.books, rows));
    BooksPlaceNothing(s, EnteredUnpaid(s.books, rows), t);
    SavedPlaces(s, i, job, rows, t);
    NotSavedPlaces(c, s, i, job, t);
    NotSavedPlaces(c, u, i, job, t);
  }

  /** One line enters the buffer, or is dropped. */
  lemma TokenPlaces(s: State, x: Token, t: Token)
    ensures Gap(s.(buffer := s.buffer + [x]), t) == Gap(s, t) + multiset([x])[t]
    ensures Gap(s.(ledger := s.ledger.(dropped := s.ledger.dropped + multiset{x})), t) == Gap(s, t) + multiset([x])[t]
  {
    hide InFlight;
    OneToken(x, t);
  }

  lemma RebufferPlaces(s: State, i: nat, ok: bool, t: Token)
    requires i < |s.jobs| && s.jobs[i].Rebuffering? && s.jobs[i].batch != []
    ensures Gap(Rebuffered(s, i, ok), t) == Gap(s, t)
  {
    hide InFlight, Gap;
    var batch := s.jobs[i].batch;
    var next := if |batch| == 1 then Idle else Rebuffering(batch[1..]);
    assert batch == [batch[0]] + batch[1..];
    assert multiset(batch)[t] == multiset([batch[0]])[t] + multiset(next.Held())[t];
    SetJobPlaces(s, i, next, t);
    TokenPlaces(SetJob(s, i, next), batch[0], t);
  }

  lemma EndedPlaces(s: State, gone: nat, t: Token)
    requires gone <= |s.buffer|
    ensures Gap(Ended(s, gone), t) == Gap(s, t)
  {
    hide InFlight;
    assert s.buffer == s.buffer[..gone] + s.buffer[gone..];
    IdleHoldsNothing(AllIdle(|s.jobs|));
  }

  /** A new line comes in: accepted, or torn by a crash. */
  lemma IntakePlaces(s: State, text: Line, t: Token)
    ensures var x := Push(s, text);
            var l := s.ledger.(nextId := s.ledger.nextId + 1);
            var r := s.(buffer := s.buffer + [x]);
            && Gap(r.(ledger := l.(accepted := l.accepted + multiset{x})), t) == Gap(s, t)
            && Gap(r.(ledger := l.(torn := l.torn + multiset{x})), t) == Gap(s, t)
  {
    hide InFlight;
    OneToken(Push(s, text), t);
  }

  lemma HaltPlaces(c: Config, s: State, deleted: nat, fragment: Option<Line>, t: Token)
    requires deleted <= |s.buffer|
    ensures Gap(Halted(c, s, deleted, fragment), t) == Gap(s, t)
  {
    hide InFlight, Gap;
    var gone := if c.capacity.Some? then |s.buffer| else deleted;
    EndedPlaces(s, gone, t);
    if fragment.Some? { IntakePlaces(Ended(s, gone), fragment.value, t); }
  }

  lemma ReadPlaces(s: State, text: Line, ok: bool, t: Token)
    requires |s.jobs| > 0 && s.jobs[0].Idle?
    ensures Gap(ReadIn(s, text, ok), t) == Gap(s, t)
  {
    hide InFlight, Gap;
    SetJobPlaces(s, 0, Counting, t);
    IntakePlaces(SetJob(s, 0, Counting), text, t);
  }

  lemma BootPlaces(c: Config, s: State, t: Token)
    requires |s.jobs| > 0 && s.jobs[0].Idle?
    ensures Gap(Booted(c, s), t) == Gap(s, t)
  {
    hide InFlight;
    SetJobPlaces(s, 0, Recovering, t);
  }

  lemma DrainPlaces(c: Config, s: State, i: nat, readOk: bool, entries: seq<Entry>, t: Token)
    requires i < |s.jobs| && Reads(s.jobs[i])
    ensures Gap(DrainStep(c, s, i, readOk, entries), t) == Gap(s, t)
  {
    hide InFlight, Gap, Drained;
    SetJobPlaces(s, i, Idle, t);
    DrainedPlaces(c, s, i, entries, Replaying(s.buffer, entries, 0), Idle, t);
    DrainedPlaces(c, s, i, entries, Saving(s.buffer, entries, 0), Reporting, t);
  }

  /** Calls on the breaker place nothing. */
  lemma CallPlaces(s: State, i: nat, job: Job, breaker: B.Breaker, calls: seq<B.Event>, t: Token)
    requires i < |s.jobs| && job.Held() == s.jobs[i].Held()
    ensures Gap(SetJob(s, i, job), t) == Gap(s, t)
    ensures Gap(SetJob(s, i, job).(breaker := breaker, calls := calls), t) == Gap(s, t)
  {
    hide InFlight;
    SetJobPlaces(s, i, job, t);
  }

  predicate IsQuiet(a: Action) { a.CheckLength? || a.Tick? || a.Allow? || a.RecordFailure? || a.RecordSuccess? }

  /** A step that moves one goroutine with what it holds, and may call the breaker. */
  lemma QuietMove(c: Config, s: State, a: Action)
    requires Enabled(c, s, a) && IsQuiet(a)
    ensures var i, r := a.Actor(), Apply(c, s, a);
            && i < |s.jobs| == |r.jobs| && r == SetJob(s, i, r.jobs[i]).(breaker := r.breaker, calls := r.calls)
            && r.jobs[i].Held() == s.jobs[i].Held()
  {
  }

  lemma QuietStepPlaces(c: Config, s: State, a: Action, t: Token)
    requires Enabled(c, s, a) && IsQuiet(a)
    ensures Gap(Apply(c, s, a), t) == Gap(s, t)
  {
    hide InFlight, Gap, Apply, Job.Held, Enabled;
    var i, r := a.Actor(), Apply(c, s, a);
    QuietMove(c, s, a);
    CallPlaces(s, i, r.jobs[i], r.breaker, r.calls, t);
  }

  lemma WaitPlaces(s: State, time: nat, t: Token)
    ensures Gap(s.(now := s.now + time), t) == Gap(s, t)
  {
    hide InFlight;
  }

  lemma StepPlaces(c: Config, s: State, a: Action, t: Token)
    requires Enabled(c, s, a) && Stopped(s)
    ensures Gap(Apply(c, s, a), t) == Gap(s, t)
  {
    hide InFlight, Gap, DrainStep, Tried, Rebuffered, Halted, ReadIn, Booted;
    match a
    case Boot => BootPlaces(c, s, t);
    case Read(text, ok) => ReadPlaces(s, text, ok, t);
    case Drain(i, readOk, entries) => DrainPlaces(c, s, i, readOk, entries, t);
    case TrySave(i, result, rows) => TrySavePlaces(c, s, i, result, rows, t);
    case Rebuffer(i, ok) => RebufferPlaces(s, i, ok, t);
    case Halt(deleted, fragment) => HaltPlaces(c, s, deleted, fragment, t);
    case Wait(time) => WaitPlaces(s, time, t);
    case _ => QuietStepPlaces(c, s, a, t);
  }

  lemma StepKeepsStopped(c: Config, s: State, a: Action)
    requires Stopped(s)
    ensures Stopped(Next(c, s, a))
  {
    hide InFlight, EntriesOf;
  }

  lemma {:induction false} EveryRunIsConserved(c: Config, actions: seq<Action>)
    ensures Conserved(Exec(c, actions)) && Stopped(Exec(c, actions))
  {
    if actions == [] {
      IdleHoldsNothing(Init(c).jobs);
    } else {
      var s, a := Exec(c, actions[..|actions| - 1]), actions[|actions| - 1];
      EveryRunIsConserved(c, actions[..|actions| - 1]);
      StepKeepsStopped(c, s, a);
      hide Apply, Enabled, Gap;
      if Enabled(c, s, a) {
        forall t: Token ensures Gap(Apply(c, s, a), t) == 0 {
          StepPlaces(c, s, a, t);
        }
      }
    }
  }

  /** In every interleaving, with process ends and restarts anywhere, the accepted lines (and the
      torn fragments) are exactly those buffered, in flight, settled, dropped by a refused
      re-buffer write, lost when the process ended, or lost in a failed replay. */
  lemma {:induction false} EveryRunConserves(c: Config, actions: seq<Action>)
    ensures var s := Exec(c, actions);
            var l := s.ledger;
            l.accepted + l.torn
            == multiset(s.buffer) + InFlight(s.jobs) + multiset(l.settled) + l.dropped + l.lostAtEnd + l.lostInReplay
  {
    hide Exec, InFlight;
    var s := Exec(c, actions);
    var l := s.ledger;
    EveryRunIsConserved(c, actions);
    var places := multiset(s.buffer) + InFlight(s.jobs) + multiset(l.settled) + l.dropped + l.lostAtEnd
        + l.lostInReplay;
    forall t: Token ensures (l.accepted + l.torn)[t] == places[t] {
      assert Gap(s, t) == 0;
    }
  }
}
