/** The reader and the re-buffering of a failed flush: when a full buffer is flushed, what order lines
    are written back in, and when no line is ever refused. */
module DeliveryReads {
  import opened Prelude
  import opened Clients
  import opened Delivery

  /** Not a step of a failed or refused flush: nothing is written back, and no flush is turned away. */
  predicate Calm(c: Config, s: State, a: Action) {
    && !a.Rebuffer?
    && (a.Allow? && c.breaker.Some? ==> s.breaker.Grants(s.now))
  }

  /** The reader is on its way to drain a buffer that reached its flush size. */
  predicate WillDrain(job: Job) { job.Counting? || job.Starting? || job.Draining? }

  predicate Ample(c: Config, s: State) {
    && Stopped(s) && |s.jobs| > 0
    && |s.buffer| <= c.maxBuffer
    && (|s.buffer| == c.maxBuffer ==> WillDrain(s.jobs[0]))
    && (!s.up ==> s.buffer == [])
  }

  lemma DrainIsAmple(c: Config, s: State, i: nat, entries: seq<Entry>)
    requires c.maxBuffer >= 1 && Ample(c, s) && s.up && i < |s.jobs|
    ensures Ample(c, DrainStep(c, s, i, true, entries))
  {
    hide NotSent;
    var r := DrainStep(c, s, i, true, entries);
    assert r.buffer == [];
    assert r.up && |r.jobs| == |s.jobs|;
  }

  lemma TryIsAmple(c: Config, s: State, i: nat, result: SendResult, rows: multiset<Entry>)
    requires Ample(c, s) && s.up && i < |s.jobs| && Saves(s.jobs[i])
    ensures Ample(c, Tried(c, s, i, result, rows))
  {
    hide Entered, EnteredUnpaid;
    var r := Tried(c, s, i, result, rows);
    assert r.buffer == s.buffer;
    assert r.up && |r.jobs| == |s.jobs|;
    if i == 0 { assert |s.buffer| < c.maxBuffer; }
  }

  lemma StepIsAmple(c: Config, s: State, a: Action)
    requires c.maxBuffer >= 1 && c.capacity.Some?
    requires Ample(c, s) && Enabled(c, s, a) && Calm(c, s, a)
    ensures Ample(c, Apply(c, s, a))
  {
    hide EntriesOf, InFlight, Parsed, DrainStep, Tried, Rebuffered;
    match a
    case Drain(i, readOk, entries) => DrainIsAmple(c, s, i, entries);
    case TrySave(i, result, rows) => TryIsAmple(c, s, i, result, rows);
    case _ =>
  }

  lemma {:induction false} RunIsAmple(c: Config, actions: seq<Action>)
    requires c.maxBuffer >= 1 && c.capacity.Some?
    requires forall i | 0 <= i < |actions| :: Calm(c, Exec(c, actions[..i]), actions[i])
    ensures Ample(c, Exec(c, actions))
  {
    if actions != [] {
      hide Ample, Calm, Enabled, Apply;
      var n := |actions| - 1;
      assert forall i | 0 <= i < n :: actions[..n][..i] == actions[..i] && actions[..n][i] == actions[i];
      RunIsAmple(c, actions[..n]);
      var s, a := Exec(c, actions[..n]), actions[n];
      if Enabled(c, s, a) { StepIsAmple(c, s, a); }
    } else {
      assert Ample(c, Init(c));
    }
  }

  /** Over a memory buffer at least as large as the flush size, in every interleaving in which no
      flush fails or is turned away, the buffer never passes the flush size and no line that comes
      in is refused. */
  lemma {:induction false} NoReadIsRefused(c: Config, actions: seq<Action>, capacity: nat)
    requires c.capacity == Some(capacity) && 1 <= c.maxBuffer <= capacity
    requires forall i | 0 <= i < |actions| :: Calm(c, Exec(c, actions[..i]), actions[i])
    ensures var s := Exec(c, actions);
            && |s.buffer| <= c.maxBuffer
            && (forall text: Line :: !Enabled(c, s, Read(text, false)))
  {
    RunIsAmple(c, actions);
  }

  // ---------- reading and writing back ----------

  /** After an accepted line the reader starts a flush exactly when the buffer has reached its flush
      size, whoever else drained or filled it in between; otherwise it is ready for the next line. */
  lemma FlushStartsExactly(c: Config, s: State, text: Line, others: seq<Action>)
    requires Enabled(c, s, Read(text, true))
    requires forall i | 0 <= i < |others| ::
               !others[i].Halt? && (others[i].Actor() != 0 || others[i].Wait?)
    ensures var t := ExecFrom(c, Next(c, s, Read(text, true)), others);
            var r := Next(c, t, CheckLength);
            && Next(c, s, Read(text, true)).buffer == s.buffer + [Token(s.ledger.nextId, text)]
            && Enabled(c, t, CheckLength) && r.buffer == t.buffer
            && (r.jobs[0].Starting? <==> |t.buffer| >= c.maxBuffer)
            && (r.jobs[0].Idle? <==> |t.buffer| < c.maxBuffer)
  {
    var s' := Next(c, s, Read(text, true));
    assert s'.jobs[0].Counting? && s'.up;
    OthersKeepCounting(c, s', others);
  }

  lemma OtherKeepsCounting(c: Config, s: State, a: Action)
    requires Runs(s, 0) && s.jobs[0].Counting? && !a.Halt? && (a.Actor() != 0 || a.Wait?)
    ensures Runs(Next(c, s, a), 0) && Next(c, s, a).jobs[0].Counting?
  {
    if Enabled(c, s, a) {
      if !a.Wait? {
        OneMoves(c, s, a);
        StaysUp(c, s, a);
        hide Apply, Enabled;
      }
    }
  }

  lemma StaysUp(c: Config, s: State, a: Action)
    requires Enabled(c, s, a) && s.up && !a.Halt?
    ensures Apply(c, s, a).up
  {
    hide EntriesOf, InFlight, Parsed, Entered, EnteredUnpaid, NotSent;
  }

  lemma {:induction false} OthersKeepCounting(c: Config, s: State, others: seq<Action>)
    requires Runs(s, 0) && s.jobs[0].Counting?
    requires forall i | 0 <= i < |others| :: !others[i].Halt? && (others[i].Actor() != 0 || others[i].Wait?)
    ensures var t := ExecFrom(c, s, others); Runs(t, 0) && t.jobs[0].Counting?
  {
    hide Next;
    if others != [] {
      var n := |others| - 1;
      OthersKeepCounting(c, s, others[..n]);
      OtherKeepsCounting(c, ExecFrom(c, s, others[..n]), others[n]);
    }
  }

  /** The write-backs of n lines, all with room. */
  function WriteBacks(i: nat, n: nat): seq<Action> { seq(n, _ => Rebuffer(i, true)) }

  /** A failed batch for which there is room is written back whole and in its order, behind what the
      buffer holds by then. */
  lemma {:induction false} BatchIsRestored(c: Config, s: State, i: nat, batch: seq<Token>)
    requires Runs(s, i) && s.jobs[i] == Rebuffering(batch) && batch != []
    requires c.capacity.Some? ==> |s.buffer| + |batch| <= c.capacity.value
    ensures var r := ExecFrom(c, s, WriteBacks(i, |batch|));
            r == s.(buffer := s.buffer + batch, jobs := s.jobs[i := Idle])
    decreases |batch|
  {
    var a := Rebuffer(i, true);
    var n := |batch|;
    assert Enabled(c, s, a);
    var t := Next(c, s, a);
    assert WriteBacks(i, n) == [a] + WriteBacks(i, n - 1);
    OneStep(c, s, a);
    ExecConcat(c, s, [a], WriteBacks(i, n - 1));
    RestoresOne(c, s, i, batch);
    hide Next, Enabled, WriteBacks;
    if n == 1 {
      assert batch == [batch[0]];
      NoWriteBacks(i);
    } else {
      BatchIsRestored(c, t, i, batch[1..]);
      assert s.buffer + [batch[0]] + batch[1..] == s.buffer + batch;
    }
  }

  lemma NoWriteBacks(i: nat)
    ensures WriteBacks(i, 0) == []
  {
  }

  lemma OneStep(c: Config, s: State, a: Action)
    ensures ExecFrom(c, s, [a]) == Next(c, s, a)
  {
    hide Next;
    assert [a][..0] == [];
  }

  lemma RestoresOne(c: Config, s: State, i: nat, batch: seq<Token>)
    requires Runs(s, i) && s.jobs[i] == Rebuffering(batch) && batch != [] && Enabled(c, s, Rebuffer(i, true))
    ensures Next(c, s, Rebuffer(i, true))
            == s.(buffer := s.buffer + [batch[0]],
                  jobs := s.jobs[i := if |batch| == 1 then Idle else Rebuffering(batch[1..])])
  {
  }
}
