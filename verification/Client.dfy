/** The inserting client: what an attempt does to the connection and the table, and what Save's
    answer says about the rows the table gained. */
module Clients {
  import opened Prelude
  import opened Retry

  /** How sending a prepared batch can end: acknowledged; stored but with the acknowledgement
      lost; or not stored. */
  datatype SendResult = Acked | AckLost | NotStored

  /** What the outside world does in one attempt. */
  datatype Attempt = Attempt(dials: bool, prepares: bool, rowFails: nat -> bool, sends: SendResult)

  /** The entries whose row could be appended to the batch; the others are only logged. */
  function Rows(entries: seq<Entry>, rowFails: nat -> bool): seq<Entry> {
    if entries == [] then []
    else
      var n := |entries| - 1;
      Rows(entries[..n], rowFails) + if rowFails(n) then [] else [entries[n]]
  }

  /** The entry at a position whose row can be appended. */
  ghost function RowAt(entries: seq<Entry>, rowFails: nat -> bool): nat -> Option<Entry> {
    (n: nat) => if n < |entries| && !rowFails(n) then Some(entries[n]) else None
  }

  lemma {:induction false} RowsInOrder(entries: seq<Entry>, rowFails: nat -> bool)
    ensures PicksInOrder<nat, Entry>(RowAt(entries, rowFails), Positions(|entries|), Rows(entries, rowFails))
  {
    hide PicksInOrder;
    if entries == [] {
      PicksNone<nat, Entry>(RowAt(entries, rowFails));
      assert Positions(0) == [];
    } else {
      var n := |entries| - 1;
      var f, g := RowAt(entries[..n], rowFails), RowAt(entries, rowFails);
      RowsInOrder(entries[..n], rowFails);
      var rows := Rows(entries[..n], rowFails);
      PicksAgree<nat, Entry>(f, g, Positions(n), rows);
      PicksSnoc<nat, Entry>(g, Positions(n), rows, n);
      assert Positions(n) + [n] == Positions(n + 1);
      assert rows + [] == rows;
    }
  }

  predicate Connects(a: Attempt, connected: bool) { connected || a.dials }

  predicate Succeeds(a: Attempt, connected: bool) { Connects(a, connected) && a.prepares && a.sends.Acked? }

  /** Whether an attempt stores its batch, whatever it reports. */
  predicate Stores(a: Attempt, connected: bool) { Connects(a, connected) && a.prepares && !a.sends.NotStored? }

  /** The rows an attempt leaves in the table, whatever it reports. */
  function Stored(a: Attempt, connected: bool, entries: seq<Entry>): seq<Entry> {
    if Stores(a, connected) then Rows(entries, a.rowFails) else []
  }

  /** An attempt is acknowledged exactly when there is a connection, or one can be dialled, and both
      the preparation and the sending end well; it stores the row of every entry that could be
      appended, in order, exactly when the batch was sent, and else nothing. */
  lemma AttemptMeans(a: Attempt, connected: bool, entries: seq<Entry>)
    ensures Succeeds(a, connected) <==> (connected || a.dials) && a.prepares && a.sends == Acked
    ensures (connected || a.dials) && a.prepares && a.sends != NotStored ==>
              PicksInOrder<nat, Entry>(RowAt(entries, a.rowFails), Positions(|entries|), Stored(a, connected, entries))
    ensures (!connected && !a.dials) || !a.prepares || a.sends == NotStored ==> Stored(a, connected, entries) == []
  {
    RowsInOrder(entries, a.rowFails);
    hide PicksInOrder, RowAt, Positions;
  }

  /** The destination table: it outlives the client. */
  class Table {
    var rows: seq<Entry>

    constructor ()
      ensures rows == []
    {
      rows := [];
    }
  }

  datatype Settings = Settings(columns: nat, maxRetries: int, initialSecs: int, maxSecs: int) {
    predicate Valid() { IsInt64(maxRetries) && IsInt64(initialSecs) && IsInt64(maxSecs) }

    function Retries(): int { if maxRetries == 0 then 3 else maxRetries }

    /** The delays in nanoseconds; a product that is zero gives the default. */
    function InitialDelay(): int {
      var d := Wrap64(initialSecs * SECOND);
      if d == 0 then SECOND else d
    }

    function MaxDelay(): int {
      var d := Wrap64(maxSecs * SECOND);
      if d == 0 then 30 * SECOND else d
    }

    /** The most attempts one Save of a batch makes; without columns it makes none. */
    function Attempts(): nat { if columns == 0 then 0 else Allowed(Retries()) }
  }

  const SECOND := 1_000_000_000

  /** The sleeps between attempts are those of the backoff. */
  predicate Slept(sleeps: seq<int>, initial: int, maxDelay: int, draws: nat -> nat) {
    forall k | 0 <= k < |sleeps| :: sleeps[k] == BackoffValue(k, initial, maxDelay, draws(k))
  }

  lemma SleptNothing(initial: int, maxDelay: int, draws: nat -> nat)
    ensures Slept([], initial, maxDelay, draws)
  {
  }

  lemma SleptOnceMore(sleeps: seq<int>, pause: int, initial: int, maxDelay: int, draws: nat -> nat)
    requires Slept(sleeps, initial, maxDelay, draws)
    requires pause == BackoffValue(|sleeps|, initial, maxDelay, draws(|sleeps|))
    ensures Slept(sleeps + [pause], initial, maxDelay, draws)
  {
    hide BackoffValue;
  }

  class Client {
    const settings: Settings
    const table: Table
    var connected: bool

    constructor (settings: Settings, table: Table)
      ensures this.settings == settings && this.table == table && !connected
    {
      this.settings, this.table, connected := settings, table, false;
    }

    /** Dials only when there is no connection. */
    method Connect(dials: bool) returns (ok: bool)
      modifies this`connected
      ensures ok == connected == (old(connected) || dials)
    {
      if !connected {
        connected := dials;
      }
      ok := connected;
    }

    method ResetConn()
      modifies this`connected
      ensures !connected
    {
      connected := false;
    }

    /** One attempt; after a failed one there is no connection. */
    method Insert(entries: seq<Entry>, a: Attempt) returns (ok: bool)
      modifies this`connected, table
      ensures ok == Succeeds(a, old(connected))
      ensures connected == ok
      ensures table.rows == old(table.rows) + Stored(a, old(connected), entries)
    {
      var up := Connect(a.dials);
      if !up {
        ResetConn();
        return false;
      }
      if !a.prepares {
        ResetConn();
        return false;
      }
      var batch := [];
      for i := 0 to |entries|
        invariant batch == Rows(entries[..i], a.rowFails)
      {
        assert entries[..i + 1][..i] == entries[..i];
        if !a.rowFails(i) {
          batch := batch + [entries[i]];
        }
      }
      assert entries[..|entries|] == entries;
      if !a.sends.NotStored? {
        table.rows := table.rows + batch;
      }
      if !a.sends.Acked? {
        ResetConn();
        return false;
      }
      return true;
    }

    /** The retry loop around the insert attempt; world(k) is what happens in attempt k. */
    method InsertWithRetries(entries: seq<Entry>, maxRetries: int, initial: int, maxDelay: int,
                             world: nat -> Attempt, draws: nat -> nat)
        returns (ok: bool, calls: nat, sleeps: seq<int>)
      requires IsInt64(maxRetries) && IsInt64(initial) && IsInt64(maxDelay)
      modifies this`connected, table
      ensures calls == Calls(maxRetries, Outcomes(old(connected), world))
      ensures ok <==> calls == 0 || Succeeds(world(calls - 1), old(connected) && calls == 1)
      ensures table.rows == old(table.rows) + Inserted(old(connected), world, entries, calls)
      ensures connected == if calls > 0 then ok else old(connected)
      ensures !ok ==> calls == maxRetries + 1
      ensures |sleeps| == if calls == 0 then 0 else calls - 1
      ensures initial > 0 ==> Slept(sleeps, initial, maxDelay, draws)
    {
      hide Outcomes, BackoffValue, Stored, Rows, Succeeds, Ceiling, CallsFrom, Slept, Inserted;
      ok, calls, sleeps := true, 0, [];
      SleptNothing(initial, maxDelay, draws);
      InsertedUnfold(connected, world, entries, 0);
      ghost var fn := Outcomes(connected, world);
      var n := Wrap64(maxRetries + 1);
      while calls < n
        invariant if n > 0 then calls <= n && n == maxRetries + 1 else calls == 0
        invariant n > 0 ==> CallsFrom(fn, 0, n) == calls + CallsFrom(fn, calls, n)
        invariant connected == (calls == 0 && old(connected))
        invariant ok <==> calls == 0
        invariant calls > 0 ==> !Succeeds(world(calls - 1), old(connected) && calls == 1)
        invariant table.rows == old(table.rows) + Inserted(old(connected), world, entries, calls)
        invariant |sleeps| == if calls > 0 && calls == n then n - 1 else calls
        invariant initial > 0 ==> Slept(sleeps, initial, maxDelay, draws)
        decreases n - calls
      {
        OutcomeIs(old(connected), world, calls);
        InsertedUnfold(old(connected), world, entries, calls);
        CallsUnfold(fn, calls, n);
        ok := Insert(entries, world(calls));
        calls := calls + 1;
        if ok {
          break;
        }
        if calls - 1 < maxRetries {
          var pause := Backoff(calls - 1, initial, maxDelay, draws(calls - 1));
          if initial > 0 { SleptOnceMore(sleeps, pause, initial, maxDelay, draws); }
          sleeps := sleeps + [pause];
        }
      }
    }

    /** Inserts a batch with the configured retries and their defaults. */
    method Save(entries: seq<Entry>, world: nat -> Attempt, draws: nat -> nat)
        returns (ok: bool, calls: nat, sleeps: seq<int>)
      requires settings.Valid()
      modifies this`connected, table
      ensures calls == SaveCalls(settings, old(connected), world, entries)
      ensures ok <==> calls == 0 || Succeeds(world(calls - 1), old(connected) && calls == 1)
      ensures table.rows == old(table.rows) + Inserted(old(connected), world, entries, calls)
      ensures connected == if calls > 0 then ok else old(connected)
      ensures entries != [] ==>
                (ok && calls == 0
                 <==> settings.columns == 0 || settings.maxRetries < 0 || settings.maxRetries == 0x7fff_ffff_ffff_ffff)
      ensures !ok ==> calls == if settings.maxRetries == 0 then 4 else settings.maxRetries + 1
      ensures |sleeps| == if calls == 0 then 0 else calls - 1
      ensures settings.InitialDelay() > 0 ==> Slept(sleeps, settings.InitialDelay(), settings.MaxDelay(), draws)
    {
      hide Outcomes, BackoffValue, Stored, Rows, Succeeds, Ceiling;
      if entries != [] { SilentSuccessExactly(settings, connected, world, entries); }
      ok, calls, sleeps := true, 0, [];
      if entries == [] || settings.columns == 0 {
        return;
      }
      var maxRetries := if settings.maxRetries == 0 then 3 else settings.maxRetries;
      var initial := Wrap64(settings.initialSecs * SECOND);
      if initial == 0 { initial := SECOND; }
      var maxDelay := Wrap64(settings.maxSecs * SECOND);
      if maxDelay == 0 { maxDelay := 30 * SECOND; }
      ok, calls, sleeps := InsertWithRetries(entries, maxRetries, initial, maxDelay, world, draws);
    }
  }

  /** Delays given in whole seconds are those, unless they overflow; 0 stands for 1 and 30 seconds. */
  lemma DelaysAre(settings: Settings)
    ensures 0 < settings.initialSecs <= 9_223_372_036 ==>
              settings.InitialDelay() == settings.initialSecs * 1_000_000_000
    ensures 0 < settings.maxSecs <= 9_223_372_036 ==> settings.MaxDelay() == settings.maxSecs * 1_000_000_000
    ensures settings.initialSecs == 0 ==> settings.InitialDelay() == 1_000_000_000
    ensures settings.maxSecs == 0 ==> settings.MaxDelay() == 30_000_000_000
  {
  }

  /** With the default retry settings a Save makes at most 4 attempts, the k-th sleep between them is
      from 1 to 2^k seconds long, and all of them together at most 7 seconds. */
  lemma DefaultSaveIsBounded(settings: Settings, connected: bool, world: nat -> Attempt, entries: seq<Entry>,
                             draws: nat -> nat, sleeps: seq<int>)
    requires settings.maxRetries == settings.initialSecs == settings.maxSecs == 0
    requires |sleeps| == Max(SaveCalls(settings, connected, world, entries) - 1, 0)
    requires Slept(sleeps, settings.InitialDelay(), settings.MaxDelay(), draws)
    ensures SaveCalls(settings, connected, world, entries) <= 4
    ensures forall k | 0 <= k < |sleeps| :: 1_000_000_000 <= sleeps[k] <= 1_000_000_000 * Pow2(k)
    ensures Sum(sleeps) <= 7_000_000_000
  {
    DelaysAre(settings);
    hide Outcomes, BackoffValue, Ceiling, Sum, Pow2;
    forall k | 0 <= k < |sleeps|
      ensures sleeps[k] <= Ceiling(k, 1_000_000_000, 30_000_000_000)
      ensures 1_000_000_000 <= sleeps[k] <= 1_000_000_000 * Pow2(k)
    {
      RangeExactly(k, 1_000_000_000, 30_000_000_000);
      DoubledIsPower(1_000_000_000, k);
      CeilingIs(k, 1_000_000_000, 30_000_000_000);
    }
    TotalSleepBound(sleeps, 1_000_000_000, 30_000_000_000, 3);
    SleepCapOfThree();
  }

  lemma CeilingIs(attempt: nat, initial: int, maxDelay: int)
    ensures Ceiling(attempt, initial, maxDelay) <= Doubled(initial, attempt)
  {
  }

  lemma SleepCapOfThree()
    ensures SleepCap(1_000_000_000, 30_000_000_000, 3) == 7_000_000_000
  {
    assert Pow2(3) == 8;
  }

  /** The result of each attempt as the retry loop sees it: only the first can find a connection. */
  ghost function Outcomes(connected: bool, world: nat -> Attempt): nat -> Option<()> {
    (k: nat) => if Succeeds(world(k), connected && k == 0) then None else Some(())
  }

  lemma OutcomeIs(connected: bool, world: nat -> Attempt, k: nat)
    ensures Outcomes(connected, world)(k).None? <==> Succeeds(world(k), connected && k == 0)
  {
  }

  /** Everything the first n attempts leave in the table. */
  function Inserted(connected: bool, world: nat -> Attempt, entries: seq<Entry>, n: nat): seq<Entry> {
    if n == 0 then []
    else Inserted(connected, world, entries, n - 1) + Stored(world(n - 1), connected && n == 1, entries)
  }

  lemma InsertedUnfold(connected: bool, world: nat -> Attempt, entries: seq<Entry>, n: nat)
    ensures Inserted(connected, world, entries, 0) == []
    ensures Inserted(connected, world, entries, n + 1)
            == Inserted(connected, world, entries, n) + Stored(world(n), connected && n == 0, entries)
  {
    hide Stored;
  }

  /** How many of the first n attempts stored their batch. */
  function Copies(connected: bool, world: nat -> Attempt, n: nat): (c: nat)
    ensures c <= n
  {
    if n == 0 then 0
    else Copies(connected, world, n - 1) + if Stores(world(n - 1), connected && n == 1) then 1 else 0
  }

  /** The entries whose row could not be appended. */
  function Missed(entries: seq<Entry>, rowFails: nat -> bool): seq<Entry> {
    if entries == [] then []
    else
      var n := |entries| - 1;
      Missed(entries[..n], rowFails) + if rowFails(n) then [entries[n]] else []
  }

  /** What the first n attempts should have stored and did not: rows missing from their copies. */
  function MissedBy(connected: bool, world: nat -> Attempt, entries: seq<Entry>, n: nat): seq<Entry> {
    if n == 0 then []
    else
      MissedBy(connected, world, entries, n - 1)
      + if Stores(world(n - 1), connected && n == 1) then Missed(entries, world(n - 1).rowFails) else []
  }

  predicate AppendsAll(a: Attempt, rows: nat) {
    forall i | 0 <= i < rows :: !a.rowFails(i)
  }

  /** Every attempt that stored its batch could append every row of it. */
  predicate StoresWhole(connected: bool, world: nat -> Attempt, n: nat, rows: nat) {
    forall k | 0 <= k < n :: Stores(world(k), connected && k == 0) ==> AppendsAll(world(k), rows)
  }

  /** a and b together are whole, up to order. */
  predicate Parts(a: seq<Entry>, b: seq<Entry>, whole: seq<Entry>) {
    multiset(a) + multiset(b) == multiset(whole) && |a| + |b| == |whole|
  }

  /** Parts of two wholes are parts of both together. */
  lemma AddParts(a: seq<Entry>, b: seq<Entry>, whole: seq<Entry>, c: seq<Entry>, d: seq<Entry>, more: seq<Entry>,
                 ac: seq<Entry>, bd: seq<Entry>, all: seq<Entry>)
    requires Parts(a, b, whole) && Parts(c, d, more)
    requires ac == a + c && bd == b + d && all == whole + more
    ensures Parts(ac, bd, all)
  {
  }

  lemma PartOne(last: Entry)
    ensures Parts([last], [], [last]) && Parts([], [last], [last])
  {
  }

  lemma NoParts()
    ensures Parts([], [], [])
  {
  }

  /** A batch is its appended rows and its missed ones. */
  lemma {:induction false} RowsAndMissed(entries: seq<Entry>, rowFails: nat -> bool)
    ensures Parts(Rows(entries, rowFails), Missed(entries, rowFails), entries)
  {
    hide Parts;
    if entries == [] {
      NoParts();
    } else {
      var n := |entries| - 1;
      RowsAndMissed(entries[..n], rowFails);
      PartOne(entries[n]);
      var rows, missed := Rows(entries[..n], rowFails), Missed(entries[..n], rowFails);
      assert entries == entries[..n] + [entries[n]];
      if rowFails(n) {
        AddParts(rows, missed, entries[..n], [], [entries[n]], [entries[n]],
                 Rows(entries, rowFails), Missed(entries, rowFails), entries);
      } else {
        AddParts(rows, missed, entries[..n], [entries[n]], [], [entries[n]],
                 Rows(entries, rowFails), Missed(entries, rowFails), entries);
      }
    }
  }

  /** The whole batch is appended exactly when no row is missed. */
  lemma {:induction false} NoneMissedExactly(entries: seq<Entry>, a: Attempt)
    ensures AppendsAll(a, |entries|) <==> Missed(entries, a.rowFails) == []
  {
    if entries != [] {
      NoneMissedExactly(entries[..|entries| - 1], a);
    }
  }

  lemma {:induction false} AllRows(entries: seq<Entry>, a: Attempt)
    requires AppendsAll(a, |entries|)
    ensures Rows(entries, a.rowFails) == entries
  {
    if entries != [] {
      AllRows(entries[..|entries| - 1], a);
    }
  }

  lemma WholeExactly(entries: seq<Entry>, a: Attempt)
    ensures AppendsAll(a, |entries|) <==> Rows(entries, a.rowFails) == entries
  {
    hide Rows, Missed, AppendsAll;
    RowsAndMissed(entries, a.rowFails);
    NoneMissedExactly(entries, a);
    if AppendsAll(a, |entries|) { AllRows(entries, a); }
  }

  /** What an attempt that stored its batch adds. */
  lemma OneMoreStored(connected: bool, world: nat -> Attempt, entries: seq<Entry>, n: nat)
    requires n > 0 && Stores(world(n - 1), connected && n == 1)
    ensures Inserted(connected, world, entries, n)
            == Inserted(connected, world, entries, n - 1) + Rows(entries, world(n - 1).rowFails)
    ensures MissedBy(connected, world, entries, n)
            == MissedBy(connected, world, entries, n - 1) + Missed(entries, world(n - 1).rowFails)
    ensures Repeat(entries, Copies(connected, world, n)) == Repeat(entries, Copies(connected, world, n - 1)) + entries
  {
    hide Rows, Missed, Stores;
  }

  lemma OneMoreNotStored(connected: bool, world: nat -> Attempt, entries: seq<Entry>, n: nat)
    requires n > 0 && !Stores(world(n - 1), connected && n == 1)
    ensures Inserted(connected, world, entries, n) == Inserted(connected, world, entries, n - 1) + []
    ensures MissedBy(connected, world, entries, n) == MissedBy(connected, world, entries, n - 1) + []
    ensures Repeat(entries, Copies(connected, world, n)) == Repeat(entries, Copies(connected, world, n - 1)) + []
  {
    hide Rows, Missed, Stores;
    var copies := Repeat(entries, Copies(connected, world, n - 1));
    assert copies + [] == copies;
  }

  /** After n attempts the table gained what they stored, all but the missed rows. */
  predicate Accounted(connected: bool, world: nat -> Attempt, entries: seq<Entry>, n: nat) {
    Parts(Inserted(connected, world, entries, n), MissedBy(connected, world, entries, n),
          Repeat(entries, Copies(connected, world, n)))
  }

  lemma NoneAccounted(connected: bool, world: nat -> Attempt, entries: seq<Entry>)
    ensures Accounted(connected, world, entries, 0)
  {
    var copies := Repeat(entries, Copies(connected, world, 0));
    assert Inserted(connected, world, entries, 0) == [] && MissedBy(connected, world, entries, 0) == [] && copies == [];
  }

  lemma AccountedStored(connected: bool, world: nat -> Attempt, entries: seq<Entry>, n: nat)
    requires n > 0 && Stores(world(n - 1), connected && n == 1) && Accounted(connected, world, entries, n - 1)
    ensures Accounted(connected, world, entries, n)
  {
    OneMoreStored(connected, world, entries, n);
    RowsAndMissed(entries, world(n - 1).rowFails);
    hide Parts, Rows, Missed, Inserted, MissedBy, Repeat, Copies;
    AddParts(Inserted(connected, world, entries, n - 1), MissedBy(connected, world, entries, n - 1),
             Repeat(entries, Copies(connected, world, n - 1)),
             Rows(entries, world(n - 1).rowFails), Missed(entries, world(n - 1).rowFails), entries,
             Inserted(connected, world, entries, n), MissedBy(connected, world, entries, n),
             Repeat(entries, Copies(connected, world, n)));
  }

  lemma AccountedNotStored(connected: bool, world: nat -> Attempt, entries: seq<Entry>, n: nat)
    requires n > 0 && !Stores(world(n - 1), connected && n == 1) && Accounted(connected, world, entries, n - 1)
    ensures Accounted(connected, world, entries, n)
  {
    OneMoreNotStored(connected, world, entries, n);
    NoParts();
    hide Parts, Inserted, MissedBy, Repeat, Copies;
    AddParts(Inserted(connected, world, entries, n - 1), MissedBy(connected, world, entries, n - 1),
             Repeat(entries, Copies(connected, world, n - 1)), [], [], [],
             Inserted(connected, world, entries, n), MissedBy(connected, world, entries, n),
             Repeat(entries, Copies(connected, world, n)));
  }

  /** What the table gained, with what is missing from it, is one batch for every attempt that
      stored. */
  lemma {:induction false} InsertedAndMissed(connected: bool, world: nat -> Attempt, entries: seq<Entry>, n: nat)
    ensures Accounted(connected, world, entries, n)
    decreases n
  {
    hide Accounted, Stores;
    if n == 0 {
      NoneAccounted(connected, world, entries);
    } else {
      InsertedAndMissed(connected, world, entries, n - 1);
      if Stores(world(n - 1), connected && n == 1) {
        AccountedStored(connected, world, entries, n);
      } else {
        AccountedNotStored(connected, world, entries, n);
      }
    }
  }

  lemma WholeSnoc(connected: bool, world: nat -> Attempt, n: nat, rows: nat)
    requires n > 0
    ensures StoresWhole(connected, world, n, rows)
            <==> StoresWhole(connected, world, n - 1, rows)
                 && (Stores(world(n - 1), connected && n == 1) ==> AppendsAll(world(n - 1), rows))
  {
    hide Stores, AppendsAll;
  }

  lemma NothingToStore(connected: bool, world: nat -> Attempt, rows: nat)
    ensures StoresWhole(connected, world, 0, rows)
  {
  }

  lemma {:induction false} NothingMissedExactly(connected: bool, world: nat -> Attempt, entries: seq<Entry>, n: nat)
    ensures StoresWhole(connected, world, n, |entries|) <==> MissedBy(connected, world, entries, n) == []
  {
    hide Missed, AppendsAll, Stores, StoresWhole;
    if n == 0 {
      assert StoresWhole(connected, world, 0, |entries|) by { NothingToStore(connected, world, |entries|); }
    } else {
      NothingMissedExactly(connected, world, entries, n - 1);
      NoneMissedExactly(entries, world(n - 1));
      WholeSnoc(connected, world, n, |entries|);
    }
  }

  lemma {:induction false} WholeInserted(connected: bool, world: nat -> Attempt, entries: seq<Entry>, n: nat)
    requires StoresWhole(connected, world, n, |entries|)
    ensures Inserted(connected, world, entries, n) == Repeat(entries, Copies(connected, world, n))
  {
    hide Rows, AppendsAll, Stores, StoresWhole;
    if n > 0 {
      WholeSnoc(connected, world, n, |entries|);
      WholeInserted(connected, world, entries, n - 1);
      WholeExactly(entries, world(n - 1));
      var gained := Inserted(connected, world, entries, n - 1);
      assert gained + [] == gained;
    }
  }

  /** The table gains whole copies exactly when no row of a stored batch was missed. */
  lemma WholeCopiesExactly(connected: bool, world: nat -> Attempt, entries: seq<Entry>, n: nat)
    ensures StoresWhole(connected, world, n, |entries|)
            <==> Inserted(connected, world, entries, n) == Repeat(entries, Copies(connected, world, n))
  {
    hide StoresWhole, Inserted, MissedBy, Repeat;
    InsertedAndMissed(connected, world, entries, n);
    NothingMissedExactly(connected, world, entries, n);
    if StoresWhole(connected, world, n, |entries|) { WholeInserted(connected, world, entries, n); }
  }

  /** What Save's answer means for a batch with columns and a retry limit n that is not negative:
      success is between 1 and n+1 copies in the table, an error between 0 and n+1, each without
      the rows that could not be appended; they are whole exactly when no stored row was missed. */
  lemma {:induction false} SaveMeans(settings: Settings, connected: bool, world: nat -> Attempt, entries: seq<Entry>)
    requires settings.Valid() && 0 <= settings.Retries() < 0x7fff_ffff_ffff_ffff
    ensures var calls := Calls(settings.Retries(), Outcomes(connected, world));
            var copies := Copies(connected, world, calls);
            && 1 <= calls <= settings.Retries() + 1
            && copies <= settings.Retries() + 1
            && (Succeeds(world(calls - 1), connected && calls == 1) ==> copies >= 1)
            && multiset(Inserted(connected, world, entries, calls))
               + multiset(MissedBy(connected, world, entries, calls))
               == multiset(Repeat(entries, copies))
            && (Inserted(connected, world, entries, calls) == Repeat(entries, copies)
                <==> StoresWhole(connected, world, calls, |entries|))
  {
    hide Outcomes, Inserted, MissedBy, Repeat, StoresWhole;
    var calls := Calls(settings.Retries(), Outcomes(connected, world));
    CallsStopAtSuccess(Outcomes(connected, world), 0, settings.Retries() + 1);
    InsertedAndMissed(connected, world, entries, calls);
    WholeCopiesExactly(connected, world, entries, calls);
  }

  /** No attempt stored its batch and then reported an error. */
  ghost predicate Truthful(world: nat -> Attempt) {
    forall k: nat :: !world(k).sends.AckLost?
  }

  lemma {:induction false} FailedStoreNothing(connected: bool, world: nat -> Attempt, n: nat)
    requires forall k | 0 <= k < n :: Outcomes(connected, world)(k).Some?
    requires Truthful(world)
    ensures Copies(connected, world, n) == 0
  {
    if n > 0 {
      FailedStoreNothing(connected, world, n - 1);
      assert Outcomes(connected, world)(n - 1).Some?;
      assert !world(n - 1).sends.AckLost?;
    }
  }

  /** Attempts that stored nothing leave nothing. */
  lemma {:induction false} NoCopiesNothing(connected: bool, world: nat -> Attempt, entries: seq<Entry>, n: nat)
    requires Copies(connected, world, n) == 0
    ensures Inserted(connected, world, entries, n) == []
  {
    if n > 0 {
      NoCopiesNothing(connected, world, entries, n - 1);
    }
  }

  /** When the attempts before the last stored nothing, the last one's rows are all there is. */
  lemma LastAlone(connected: bool, world: nat -> Attempt, entries: seq<Entry>, n: nat)
    requires n > 0 && Inserted(connected, world, entries, n - 1) == []
    ensures Inserted(connected, world, entries, n) == Stored(world(n - 1), connected && n == 1, entries)
  {
    hide Stored;
  }

  /** With truthful errors success is exactly one copy, of the rows that could be appended, and an
      error none. */
  lemma TruthfulSaveIsExact(settings: Settings, connected: bool, world: nat -> Attempt, entries: seq<Entry>)
    requires settings.Valid() && 0 <= settings.Retries() < 0x7fff_ffff_ffff_ffff && Truthful(world)
    ensures var calls := Calls(settings.Retries(), Outcomes(connected, world));
            var ok := calls >= 1 && Succeeds(world(calls - 1), connected && calls == 1);
            && calls >= 1
            && Copies(connected, world, calls) == (if ok then 1 else 0)
            && Inserted(connected, world, entries, calls)
               == (if ok then Rows(entries, world(calls - 1).rowFails) else [])
            && (ok ==>
                  (Inserted(connected, world, entries, calls) == entries
                   <==> AppendsAll(world(calls - 1), |entries|)))
  {
    hide Outcomes, Rows, AppendsAll, CallsFrom, Inserted;
    var fn := Outcomes(connected, world);
    var calls := Calls(settings.Retries(), fn);
    CallsStopAtSuccess(fn, 0, settings.Retries() + 1);
    FailedStoreNothing(connected, world, calls - 1);
    NoCopiesNothing(connected, world, entries, calls - 1);
    OutcomeIs(connected, world, calls - 1);
    assert !world(calls - 1).sends.AckLost?;
    WholeExactly(entries, world(calls - 1));
    LastAlone(connected, world, entries, calls);
  }

  /** How many insert attempts a Save makes. */
  ghost function SaveCalls(settings: Settings, connected: bool, world: nat -> Attempt, entries: seq<Entry>): nat {
    if entries == [] || settings.columns == 0 then 0 else Calls(settings.Retries(), Outcomes(connected, world))
  }

  /** Save of a batch with entries reports success without any insert attempt exactly when there is
      no column to insert into or the number of attempts is not positive or wraps. */
  lemma SilentSuccessExactly(settings: Settings, connected: bool, world: nat -> Attempt, entries: seq<Entry>)
    requires settings.Valid() && entries != []
    ensures SaveCalls(settings, connected, world, entries) == 0
            <==> settings.columns == 0 || settings.maxRetries < 0 || settings.maxRetries == 0x7fff_ffff_ffff_ffff
    ensures SaveCalls(settings, connected, world, entries) == 0 <==> settings.Attempts() == 0
  {
    hide Outcomes, CallsFrom;
    assert Calls(settings.Retries(), Outcomes(connected, world))
           == CallsFrom(Outcomes(connected, world), 0, Allowed(settings.Retries()));
    if settings.Attempts() > 0 {
      CallsStopAtSuccess(Outcomes(connected, world), 0, settings.Attempts());
    }
  }
}
