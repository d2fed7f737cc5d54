/** What the table owes to the settled lines: exactly what it holds in every interleaving, when it
    covers them, and when it holds each of their entries exactly once. */
module DeliveryTable {
  import opened Prelude
  import opened Clients
  import opened Delivery

  predicate Balanced(b: Books, e: Entry) { b.table[e] + b.skipped[e] + b.unsent[e] == b.paid[e] + b.surplus[e] }

  /** What was paid for is what the settled lines come to, or less when rules sample. */
  predicate Paid(c: Config, s: State, e: Entry) {
    var due := EntriesOf(c, s.ledger.settled)[e];
    if c.sampling then s.books.paid[e] <= due else s.books.paid[e] == due
  }

  predicate JobParsed(c: Config, job: Job) {
    Saves(job) ==> Parsed(c, job.batch, job.entries)
  }

  predicate NobodySaves(jobs: seq<Job>) { forall i | 0 <= i < |jobs| :: !Saves(jobs[i]) }

  ghost predicate BooksOk(c: Config, s: State) {
    && (forall i | 0 <= i < |s.jobs| :: JobParsed(c, s.jobs[i]))
    && (forall e: Entry :: Balanced(s.books, e) && Paid(c, s, e))
    && (c.attempts > 0 ==> s.books.unsent == multiset{})
    && (c.attempts == 0 ==> s.books.table == s.books.skipped == s.books.surplus == multiset{} && NobodySaves(s.jobs))
  }

  lemma {:induction false} EntriesOfConcat(c: Config, a: seq<Token>, b: seq<Token>)
    ensures EntriesOf(c, a + b) == EntriesOf(c, a) + EntriesOf(c, b)
  {
    if b == [] {
      assert a + b == a;
    } else {
      var n := |b| - 1;
      assert (a + b)[..|a + b| - 1] == a + b[..n];
      EntriesOfConcat(c, a, b[..n]);
    }
  }

  /** Settling a batch for entries it parses to, and entering them as paid, keeps the books. */
  lemma SettleKeepsPaid(c: Config, s: State, r: State, batch: seq<Token>, entries: seq<Entry>, e: Entry)
    requires Paid(c, s, e) && Parsed(c, batch, entries)
    requires r.ledger.settled == s.ledger.settled + batch && r.books.paid == s.books.paid + multiset(entries)
    ensures Paid(c, r, e)
  {
    EntriesOfConcat(c, s.ledger.settled, batch);
  }

  /** A step that leaves the books and the settled lines alone. */
  lemma SameBooks(c: Config, s: State, r: State, i: nat, job: Job)
    requires BooksOk(c, s) && i < |s.jobs| && JobParsed(c, job) && (c.attempts == 0 ==> !Saves(job))
    requires r.books == s.books && r.ledger.settled == s.ledger.settled && r.jobs == s.jobs[i := job]
    ensures BooksOk(c, r)
  {
    hide Parsed, EntriesOf, Balanced;
    forall e: Entry ensures Balanced(r.books, e) && Paid(c, r, e) {
      assert Balanced(s.books, e) && Paid(c, s, e);
    }
  }

  lemma SplitBatch(entries: multiset<Entry>, rows: multiset<Entry>, e: Entry)
    requires rows <= entries
    ensures rows[e] + (entries - rows)[e] == entries[e]
  {
  }

  /** A step that settles a batch for rows stored in the table. */
  lemma SettledBooks(c: Config, s: State, r: State, i: nat, job: Job, batch: seq<Token>, entries: seq<Entry>,
                     rows: multiset<Entry>)
    requires BooksOk(c, s) && i < |s.jobs| && !Saves(job) && Parsed(c, batch, entries) && rows <= multiset(entries)
    requires c.attempts > 0
    requires r.jobs == s.jobs[i := job] && r.ledger.settled == s.ledger.settled + batch
    requires r.books == Entered(s.books, multiset(entries), rows)
    ensures BooksOk(c, r)
  {
    hide Parsed, EntriesOf;
    forall e: Entry ensures Balanced(r.books, e) && Paid(c, r, e) {
      assert Balanced(s.books, e) && Paid(c, s, e);
      SplitBatch(multiset(entries), rows, e);
      SettleKeepsPaid(c, s, r, batch, entries, e);
    }
  }

  /** A step that settles a batch without an attempt: nothing to save, or no attempts configured. */
  lemma UnsentBooks(c: Config, s: State, r: State, i: nat, job: Job, batch: seq<Token>, entries: seq<Entry>)
    requires BooksOk(c, s) && i < |s.jobs| && !Saves(job) && Parsed(c, batch, entries)
    requires r.jobs == s.jobs[i := job] && r.ledger.settled == s.ledger.settled + batch
    requires if entries == [] then r.books == s.books
             else c.attempts == 0 && r.books == NotSent(s.books, multiset(entries))
    ensures BooksOk(c, r)
  {
    hide Parsed, EntriesOf;
    forall e: Entry ensures Balanced(r.books, e) && Paid(c, r, e) {
      assert Balanced(s.books, e) && Paid(c, s, e);
      SettleKeepsPaid(c, s, r, batch, entries, e);
    }
  }

  lemma NoJobParsed(c: Config)
    ensures JobParsed(c, Idle)
  {
  }

  lemma DrainedBooks(c: Config, s: State, i: nat, entries: seq<Entry>, next: Job, done: Job)
    requires i < |s.jobs| && BooksOk(c, s) && Parsed(c, s.buffer, entries)
    requires JobParsed(c, next) && !Saves(done)
    ensures BooksOk(c, Drained(c, s, i, entries, next, done))
  {
    hide Parsed, EntriesOf, BooksOk, NotSent, JobParsed;
    NoJobParsed(c);
    var r := Drained(c, s, i, entries, next, done);
    if s.buffer == [] {
      SameBooks(c, s, r, i, Idle);
    } else if entries == [] {
      UnsentBooks(c, s, r, i, Idle, s.buffer, entries);
    } else if c.attempts == 0 {
      UnsentBooks(c, s, r, i, done, s.buffer, entries);
    } else {
      SameBooks(c, s, r, i, next);
    }
  }

  lemma DrainBooks(c: Config, s: State, i: nat, readOk: bool, entries: seq<Entry>)
    requires i < |s.jobs| && BooksOk(c, s) && (readOk ==> Parsed(c, s.buffer, entries))
    ensures BooksOk(c, DrainStep(c, s, i, readOk, entries))
  {
    hide Parsed, EntriesOf, BooksOk, Drained;
    if !readOk {
      SameBooks(c, s, DrainStep(c, s, i, readOk, entries), i, Idle);
    } else {
      DrainedBooks(c, s, i, entries, Replaying(s.buffer, entries, 0), Idle);
      DrainedBooks(c, s, i, entries, Saving(s.buffer, entries, 0), Reporting);
    }
  }

  lemma SavedBooks(c: Config, s: State, i: nat, job: Job, rows: multiset<Entry>)
    requires i < |s.jobs| && BooksOk(c, s) && Saves(job) && JobParsed(c, job) && rows <= multiset(job.entries)
    requires c.attempts > 0
    ensures BooksOk(c, Saved(s, i, job, rows))
  {
    hide Parsed, EntriesOf, BooksOk;
    var next := if job.Saving? then Reporting else Idle;
    SettledBooks(c, s, Saved(s, i, job, rows), i, next, job.batch, job.entries, rows);
  }

  lemma NotSavedBooks(c: Config, s: State, i: nat, job: Job)
    requires i < |s.jobs| && BooksOk(c, s) && Saves(job) && JobParsed(c, job) && c.attempts > 0
    ensures BooksOk(c, NotSaved(c, s, i, job))
  {
    hide Parsed, EntriesOf, Balanced, BooksOk;
    var r := NotSaved(c, s, i, job);
    SameBooks(c, s, r, i, r.jobs[i]);
  }

  lemma AckLostBooks(c: Config, s: State, rows: multiset<Entry>)
    requires BooksOk(c, s) && c.attempts > 0
    ensures BooksOk(c, s.(books := EnteredUnpaid(s.books, rows)))
  {
    hide Parsed, EntriesOf;
    var r := s.(books := EnteredUnpaid(s.books, rows));
    forall e: Entry ensures Balanced(r.books, e) && Paid(c, r, e) {
      assert Balanced(s.books, e) && Paid(c, s, e);
    }
  }

  lemma TriedBooks(c: Config, s: State, i: nat, result: SendResult, rows: multiset<Entry>)
    requires i < |s.jobs| && BooksOk(c, s) && Saves(s.jobs[i]) && rows <= multiset(s.jobs[i].entries)
    ensures BooksOk(c, Tried(c, s, i, result, rows))
  {
    hide BooksOk, NotSaved, Saved;
    var job := s.jobs[i];
    JobsAreParsed(c, s, i);
    match result
    case Acked => SavedBooks(c, s, i, job, rows);
    case AckLost =>
      AckLostBooks(c, s, rows);
      NotSavedBooks(c, s.(books := EnteredUnpaid(s.books, rows)), i, job);
    case NotStored => NotSavedBooks(c, s, i, job);
  }

  lemma JobsAreParsed(c: Config, s: State, i: nat)
    requires BooksOk(c, s) && i < |s.jobs|
    ensures JobParsed(c, s.jobs[i]) && (Saves(s.jobs[i]) ==> c.attempts > 0)
  {
    hide Parsed, EntriesOf, Balanced;
  }

  lemma HaltedBooks(c: Config, s: State, deleted: nat, fragment: Option<Line>)
    requires BooksOk(c, s) && deleted <= |s.buffer|
    ensures BooksOk(c, Halted(c, s, deleted, fragment))
  {
    hide Parsed, EntriesOf, Balanced;
    var r := Halted(c, s, deleted, fragment);
    forall e: Entry ensures Balanced(r.books, e) && Paid(c, r, e) {
      assert Balanced(s.books, e) && Paid(c, s, e);
    }
  }

  lemma TickBooks(c: Config, s: State, r: State)
    requires BooksOk(c, s) && r.books == s.books && r.ledger == s.ledger && r.jobs == s.jobs
    ensures BooksOk(c, r)
  {
    hide Parsed, EntriesOf, Balanced;
    forall e: Entry ensures Balanced(r.books, e) && Paid(c, r, e) {
      assert Balanced(s.books, e) && Paid(c, s, e);
    }
  }

  lemma StepBooks(c: Config, s: State, a: Action)
    requires BooksOk(c, s)
    ensures BooksOk(c, Next(c, s, a))
  {
    hide BooksOk, DrainStep, Tried, Halted, Parsed, EntriesOf;
    if Enabled(c, s, a) {
      var r := Apply(c, s, a);
      match a
      case Drain(i, readOk, entries) => DrainBooks(c, s, i, readOk, entries);
      case TrySave(i, result, rows) => TriedBooks(c, s, i, result, rows);
      case Wait(_) => TickBooks(c, s, r);
      case Halt(deleted, fragment) => HaltedBooks(c, s, deleted, fragment);
      case Read(_, ok) => if ok { SameBooks(c, s, r, 0, Counting); }
      case _ => SameBooks(c, s, r, a.Actor(), r.jobs[a.Actor()]);
    }
  }

  lemma {:induction false} RunKeepsBooks(c: Config, actions: seq<Action>)
    ensures BooksOk(c, Exec(c, actions))
  {
    if actions != [] {
      RunKeepsBooks(c, actions[..|actions| - 1]);
      hide BooksOk, Next;
      StepBooks(c, Exec(c, actions[..|actions| - 1]), actions[|actions| - 1]);
    }
  }

  /** In every interleaving the table, with the rows acknowledged attempts left out and the entries
      never sent, is what the settled lines come to and what failed attempts stored. So it covers
      the settled lines exactly when failed attempts stored everything that is missing. */
  lemma {:induction false} SettledLinesAreInTheTable(c: Config, actions: seq<Action>)
    ensures var s := Exec(c, actions);
            var b, due := s.books, EntriesOf(c, s.ledger.settled);
            && b.table + b.skipped + b.unsent == b.paid + b.surplus
            && (if c.sampling then b.paid <= due else b.paid == due)
            && (b.paid <= b.table <==> b.skipped + b.unsent <= b.surplus)
            && (c.attempts > 0 ==> b.unsent == multiset{})
            && (c.attempts == 0 ==> b.table == multiset{} && b.unsent == b.paid)
  {
    hide Exec, EntriesOf;
    var s := Exec(c, actions);
    var b, due := s.books, EntriesOf(c, s.ledger.settled);
    RunKeepsBooks(c, actions);
    BalancedSum(b);
    forall e: Entry ensures b.paid[e] <= due[e] && (!c.sampling ==> b.paid[e] == due[e]) {
      assert Paid(c, s, e);
    }
  }

  lemma BalancedSum(b: Books)
    requires forall e: Entry :: Balanced(b, e)
    ensures b.table + b.skipped + b.unsent == b.paid + b.surplus
    ensures b.paid <= b.table <==> b.skipped + b.unsent <= b.surplus
    ensures b.skipped == b.surplus == b.table == multiset{} ==> b.unsent == b.paid
  {
    forall e: Entry
      ensures (b.table + b.skipped + b.unsent)[e] == (b.paid + b.surplus)[e]
      ensures b.paid[e] <= b.table[e] <==> (b.skipped + b.unsent)[e] <= b.surplus[e]
    {
      assert Balanced(b, e);
    }
  }

  /** No attempt stores rows and reports an error. */
  predicate TruthfulRun(actions: seq<Action>) {
    forall i | 0 <= i < |actions| :: !(actions[i].TrySave? && actions[i].result.AckLost?)
  }

  /** An acknowledged attempt of s that leaves rows out. */
  predicate SkipsRows(c: Config, s: State, a: Action) {
    Enabled(c, s, a) && a.TrySave? && a.result.Acked? && a.rows != multiset(s.jobs[a.job].entries)
  }

  /** Every acknowledged attempt of the run could append all its rows. */
  ghost predicate AppendsEveryRow(c: Config, actions: seq<Action>) {
    forall i | 0 <= i < |actions| :: !SkipsRows(c, Exec(c, actions[..i]), actions[i])
  }

  /** Only attempts change what is left out and what is stored unpaid. */
  lemma QuietStepSkips(c: Config, s: State, a: Action)
    requires Enabled(c, s, a) && !a.TrySave?
    ensures Apply(c, s, a).books.skipped == s.books.skipped && Apply(c, s, a).books.surplus == s.books.surplus
  {
    hide EntriesOf, InFlight, Parsed, Drained;
    if a.Drain? {
      DrainSkips(c, s, a.job, a.entries, Replaying(s.buffer, a.entries, 0), Idle);
      DrainSkips(c, s, a.job, a.entries, Saving(s.buffer, a.entries, 0), Reporting);
    }
  }

  lemma DrainSkips(c: Config, s: State, i: nat, entries: seq<Entry>, next: Job, done: Job)
    requires i < |s.jobs|
    ensures var b := Drained(c, s, i, entries, next, done).books;
            b.skipped == s.books.skipped && b.surplus == s.books.surplus
  {
  }

  lemma AttemptSkips(c: Config, s: State, i: nat, result: SendResult, rows: multiset<Entry>)
    requires Enabled(c, s, TrySave(i, result, rows))
    ensures var b := Tried(c, s, i, result, rows).books;
            && (!result.AckLost? ==> b.surplus == s.books.surplus)
            && b.skipped == if result.Acked? then s.books.skipped + (multiset(s.jobs[i].entries) - rows)
               else s.books.skipped
  {
    hide EntriesOf, InFlight, Parsed;
  }

  lemma NothingLeftOut(entries: multiset<Entry>, rows: multiset<Entry>, before: multiset<Entry>)
    requires rows <= entries
    ensures before + (entries - rows) == multiset{} <==> before == multiset{} && rows == entries
  {
    if before + (entries - rows) == multiset{} {
      assert |before| + |entries - rows| == 0;
      forall e: Entry ensures rows[e] == entries[e] {
        assert (entries - rows)[e] == 0;
      }
    } else if rows == entries {
      assert entries - rows == multiset{};
      assert before + multiset{} == before;
    }
  }

  lemma TrySkips(c: Config, s: State, i: nat, result: SendResult, rows: multiset<Entry>)
    requires Enabled(c, s, TrySave(i, result, rows))
    ensures var a := TrySave(i, result, rows);
            var b := Apply(c, s, a).books;
            && (b.skipped == multiset{} <==> s.books.skipped == multiset{} && !SkipsRows(c, s, a))
            && (!result.AckLost? ==> b.surplus == s.books.surplus)
  {
    var entries := multiset(s.jobs[i].entries);
    AttemptSkips(c, s, i, result, rows);
    hide Tried;
    NothingLeftOut(entries, rows, s.books.skipped);
  }

  lemma StepSkips(c: Config, s: State, a: Action)
    ensures var b := Next(c, s, a).books;
            && (b.skipped == multiset{} <==> s.books.skipped == multiset{} && !SkipsRows(c, s, a))
            && (!(a.TrySave? && a.result.AckLost?) ==> b.surplus == s.books.surplus)
  {
    if Enabled(c, s, a) {
      if a.TrySave? {
        TrySkips(c, s, a.job, a.result, a.rows);
      } else {
        QuietStepSkips(c, s, a);
      }
      hide Enabled, Tried, Apply;
    }
  }

  lemma {:induction false} RunSkips(c: Config, actions: seq<Action>)
    ensures Exec(c, actions).books.skipped == multiset{} <==> AppendsEveryRow(c, actions)
  {
    hide Next, SkipsRows;
    if actions != [] {
      var n := |actions| - 1;
      RunSkips(c, actions[..n]);
      StepSkips(c, Exec(c, actions[..n]), actions[n]);
      AppendsSnoc(c, actions);
      hide AppendsEveryRow;
    }
  }

  lemma AppendsSnoc(c: Config, actions: seq<Action>)
    requires actions != []
    ensures var n := |actions| - 1;
            AppendsEveryRow(c, actions)
            <==> AppendsEveryRow(c, actions[..n]) && !SkipsRows(c, Exec(c, actions[..n]), actions[n])
  {
    hide SkipsRows, Exec;
    var n := |actions| - 1;
    assert forall i | 0 <= i < n :: actions[..n][..i] == actions[..i] && actions[..n][i] == actions[i];
  }

  lemma {:induction false} NoSurplus(c: Config, actions: seq<Action>)
    requires TruthfulRun(actions)
    ensures Exec(c, actions).books.surplus == multiset{}
  {
    hide Next;
    if actions != [] {
      var n := |actions| - 1;
      assert forall i | 0 <= i < n :: actions[..n][i] == actions[i];
      NoSurplus(c, actions[..n]);
      StepSkips(c, Exec(c, actions[..n]), actions[n]);
    }
  }

  lemma WithoutRest(a: multiset<Entry>, rest: multiset<Entry>, whole: multiset<Entry>)
    requires a + rest + multiset{} == whole + multiset{}
    ensures a == whole <==> rest == multiset{}
  {
    assert a + rest + multiset{} == a + rest && whole + multiset{} == whole;
    if a == whole { assert |a| + |rest| == |whole|; }
    if rest == multiset{} { assert a + multiset{} == a; }
  }

  /** With truthful errors and at least one attempt per save, under any interleaving, the table is
      exactly the entries of the settled batches, once each, if and only if every acknowledged
      attempt could append all its rows. Without sampling those are all entries of the settled
      lines. */
  lemma {:induction false} TruthfulRunsAreExactlyOnce(c: Config, actions: seq<Action>)
    requires c.attempts > 0 && TruthfulRun(actions)
    ensures var s := Exec(c, actions);
            && (s.books.table == s.books.paid <==> AppendsEveryRow(c, actions))
            && (!c.sampling ==> s.books.paid == EntriesOf(c, s.ledger.settled))
  {
    hide Exec, EntriesOf, AppendsEveryRow, TruthfulRun;
    SettledLinesAreInTheTable(c, actions);
    RunSkips(c, actions);
    NoSurplus(c, actions);
    var b := Exec(c, actions).books;
    WithoutRest(b.table, b.skipped, b.paid);
  }
}
