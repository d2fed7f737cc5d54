/** The program run by one goroutine at a time: the read loop and flush over real objects. Lines are
    delivered exactly once and in order, through any mix of failed and successful flushes. */
module Shippers {
  import opened Prelude
  import opened CircuitBreakers
  import opened Clients
  import Filters = FilterChain
  import opened Buffers

  /** How a flush ended. */
  datatype Flushed = Refused | NothingBuffered | NothingLeft | Saved | NotSaved

  /** What the outside world contributes to one flush: clock readings, insert attempts and draws. */
  datatype World = World(allowAt: int, recordAt: int, attempts: nat -> Attempt, pauses: nat -> nat, draws: nat -> real)

  /** Errors are truthful and every row can be appended. */
  ghost predicate Honest(w: World) {
    && Truthful(w.attempts)
    && forall k: nat, n: nat :: AppendsAll(w.attempts(k), n)
  }

  /** The entries of the lines that parse, in order. */
  function ParseLines(parse: Line -> Option<Entry>, lines: seq<Line>): seq<Entry> {
    if lines == [] then []
    else
      var n := |lines| - 1;
      match parse(lines[n])
      case None => ParseLines(parse, lines[..n])
      case Some(entry) => ParseLines(parse, lines[..n]) + [entry]
  }

  lemma {:induction false} ParsesInOrder(parse: Line -> Option<Entry>, lines: seq<Line>)
    ensures PicksInOrder(parse, lines, ParseLines(parse, lines))
  {
    hide PicksInOrder;
    if lines == [] {
      PicksNone(parse);
    } else {
      var n := |lines| - 1;
      ParsesInOrder(parse, lines[..n]);
      PicksSnoc(parse, lines[..n], ParseLines(parse, lines[..n]), lines[n]);
      assert lines == lines[..n] + [lines[n]];
    }
  }

  /** One entry for every line that parses, in the order of the lines. */
  method ParseJSONLogs(parse: Line -> Option<Entry>, lines: seq<Line>) returns (entries: seq<Entry>)
    ensures entries == ParseLines(parse, lines)
    ensures PicksInOrder(parse, lines, entries)
  {
    ParsesInOrder(parse, lines);
    hide PicksInOrder;
    entries := [];
    for i := 0 to |lines|
      invariant entries == ParseLines(parse, lines[..i])
    {
      assert lines[..i + 1][..i] == lines[..i];
      var entry := parse(lines[i]);
      if entry.None? {
        continue;
      }
      entries := entries + [entry.value];
    }
    assert lines[..|lines|] == lines;
  }

  /** What delivering lines puts in the table: parse, then keep what every rule lets through. */
  ghost function Pipeline(parse: Line -> Option<Entry>, rules: seq<Filters.Rule>, lines: seq<Line>): seq<Entry> {
    Filter(Filters.SurvivesAll(rules), ParseLines(parse, lines))
  }

  lemma {:induction false} ParseConcat(parse: Line -> Option<Entry>, a: seq<Line>, b: seq<Line>)
    ensures ParseLines(parse, a + b) == ParseLines(parse, a) + ParseLines(parse, b)
  {
    if b == [] {
      assert a + b == a;
    } else {
      var n := |b| - 1;
      assert (a + b)[..|a + b| - 1] == a + b[..n];
      ParseConcat(parse, a, b[..n]);
    }
  }

  lemma PipelineConcat(parse: Line -> Option<Entry>, rules: seq<Filters.Rule>, a: seq<Line>, b: seq<Line>)
    ensures Pipeline(parse, rules, a + b) == Pipeline(parse, rules, a) + Pipeline(parse, rules, b)
  {
    ParseConcat(parse, a, b);
    FilterConcat(Filters.SurvivesAll(rules), ParseLines(parse, a), ParseLines(parse, b));
  }

  /** The row a line is delivered as: its entry, if it parses and every rule lets it through. */
  ghost function RowOf(parse: Line -> Option<Entry>, rules: seq<Filters.Rule>): Line -> Option<Entry> {
    l => match parse(l)
      case None => None
      case Some(e) => if Filters.PassesAll(rules)(e) then Some(e) else None
  }

  /** What is delivered is one row for every line that has one, in the order of the lines. */
  lemma {:induction false} PipelinePicks(parse: Line -> Option<Entry>, rules: seq<Filters.Rule>, lines: seq<Line>)
    requires Filters.Deterministic(rules)
    ensures PicksInOrder(RowOf(parse, rules), lines, Pipeline(parse, rules, lines))
  {
    hide PicksInOrder;
    if lines == [] {
      PicksNone(RowOf(parse, rules));
    } else {
      var n := |lines| - 1;
      hide RowOf, Pipeline, Filters.Deterministic;
      PipelinePicks(parse, rules, lines[..n]);
      assert lines == lines[..n] + [lines[n]];
      PipelineConcat(parse, rules, lines[..n], [lines[n]]);
      PicksSnoc(RowOf(parse, rules), lines[..n], Pipeline(parse, rules, lines[..n]), lines[n]);
      PipelineOfOne(parse, rules, lines[n]);
      var rows := Pipeline(parse, rules, lines[..n]);
      assert rows + [] == rows;
    }
  }

  lemma PipelineOfOne(parse: Line -> Option<Entry>, rules: seq<Filters.Rule>, line: Line)
    requires Filters.Deterministic(rules)
    ensures RowOf(parse, rules)(line).Some? ==> Pipeline(parse, rules, [line]) == [RowOf(parse, rules)(line).value]
    ensures RowOf(parse, rules)(line).None? ==> Pipeline(parse, rules, [line]) == []
  {
    var p := Filters.SurvivesAll(rules);
    assert [line][..0] == [];
    if parse(line).Some? {
      var e := parse(line).value;
      assert ParseLines(parse, [line]) == [e];
      FilterOne(p, e);
      hide Filter, Filters.Survives, Filters.Passes;
      forall r | r in rules ensures Filters.Survives(r, e) <==> Filters.Passes(r, e) { Filters.SurvivesExactly(r, e); }
      assert p(e) == Filters.PassesAll(rules)(e);
    } else {
      assert ParseLines(parse, [line]) == ParseLines(parse, []) == [];
      FilterNothing(p);
    }
  }

  /** What a flush that ended like this records on the breaker. */
  ghost predicate Recorded(before: Breaker, after: Breaker, outcome: Flushed, w: World) {
    match outcome
    case Refused => after == before
    case NothingBuffered => after == before.AfterAllow(w.allowAt)
    case NothingLeft => after == before.AfterAllow(w.allowAt)
    case Saved => after == before.AfterAllow(w.allowAt).AfterSuccess()
    case NotSaved => after == before.AfterAllow(w.allowAt).AfterFailure(w.recordAt)
  }

  /** With an honest world a failed save left the table alone and a successful one added the batch. */
  lemma HonestSave(settings: Settings, connected: bool, w: World, entries: seq<Entry>)
    requires settings.Valid() && 0 <= settings.Retries() < 0x7fff_ffff_ffff_ffff && Honest(w)
    ensures var calls := Retry.Calls(settings.Retries(), Outcomes(connected, w.attempts));
            calls >= 1 &&
            Inserted(connected, w.attempts, entries, calls)
            == if Succeeds(w.attempts(calls - 1), connected && calls == 1) then entries else []
  {
    hide Outcomes, Inserted, Succeeds, AppendsAll;
    TruthfulSaveIsExact(settings, connected, w.attempts, entries);
    var calls := Retry.Calls(settings.Retries(), Outcomes(connected, w.attempts));
    assert AppendsAll(w.attempts(calls - 1), |entries|);
  }

  class Shipper {
    const buf: LineBuffer
    const cb: CircuitBreaker?
    const client: Client
    const maxBuffer: int
    const parse: Line -> Option<Entry>
    const rules: seq<Filters.Rule>
    /** The lines the buffer accepted, and how many of them are settled. */
    ghost var accepted: seq<Line>
    ghost var delivered: nat

    ghost function Parts(): set<object> {
      {this, client, client.table} + buf.Parts() + (if cb != null then {cb as object} else {})
    }

    ghost predicate Apart() {
      && this !in buf.Parts() && client !in buf.Parts() && client.table !in buf.Parts()
      && (cb != null ==> (cb as object) !in buf.Parts())
    }

    /** The table is what the settled lines come to. */
    ghost predicate Consistent()
      reads Parts()
    {
      && Apart() && buf.Valid()
      && client.settings.Valid() && client.settings.columns > 0
      && 0 <= client.settings.Retries() < 0x7fff_ffff_ffff_ffff
      && Filters.Deterministic(rules)
      && delivered <= |accepted|
      && client.table.rows == Pipeline(parse, rules, accepted[..delivered])
      && (forall l | l in accepted :: buf.Keeps(l))
    }

    /** Exactly once, in order: and the buffer holds the accepted lines after the settled ones. */
    ghost predicate Valid()
      reads Parts()
    {
      Consistent() && buf.Queue() == accepted[delivered..]
    }

    /** Between drain and settlement the flush alone has those lines, and there is room for them. */
    ghost predicate InHand(lines: seq<Line>)
      reads Parts()
    {
      Consistent() && buf.Queue() == [] && lines == accepted[delivered..] && buf.Cost(lines) <= buf.Room()
    }

    /** Whether the last attempt of a save in this world is the one that succeeds. */
    ghost predicate WillSave(w: World)
      requires client.settings.Valid()
      reads client
    {
      var calls := Retry.Calls(client.settings.Retries(), Outcomes(client.connected, w.attempts));
      calls > 0 && Succeeds(w.attempts(calls - 1), client.connected && calls == 1)
    }

    /** How a flush that begins now ends when these lines are buffered. */
    ghost function Foreseen(w: World, queue: seq<Line>): Flushed
      requires client.settings.Valid()
      reads Parts()
    {
      if cb != null && !cb.Value().Grants(w.allowAt) then Refused
      else if queue == [] then NothingBuffered
      else if Pipeline(parse, rules, queue) == [] then NothingLeft
      else if WillSave(w) then Saved
      else NotSaved
    }

    constructor (buf: LineBuffer, cb: CircuitBreaker?, client: Client, maxBuffer: int,
                 parse: Line -> Option<Entry>, rules: seq<Filters.Rule>)
      requires buf.Valid() && buf.Queue() == [] && client.table.rows == []
      requires client.settings.Valid() && client.settings.columns > 0
      requires 0 <= client.settings.Retries() < 0x7fff_ffff_ffff_ffff
      requires Filters.Deterministic(rules)
      requires client !in buf.Parts() && client.table !in buf.Parts() && (cb != null ==> (cb as object) !in buf.Parts())
      ensures Valid() && accepted == [] && delivered == 0
      ensures this.buf == buf && this.cb == cb && this.client == client
    {
      this.buf, this.cb, this.client := buf, cb, client;
      this.maxBuffer, this.parse, this.rules := maxBuffer, parse, rules;
      accepted, delivered := [], 0;
    }

    /** Drains the buffer and saves what its lines come to; after a failed save the lines are written
        back. Whatever happens, delivery stays exactly once and in order. */
    method Flush(w: World) returns (outcome: Flushed)
      requires Valid() && buf.InRange() && Honest(w)
      modifies Parts()
      ensures Valid() && accepted == old(accepted)
      ensures old(buf.Steady()) ==> buf.Steady()
      ensures outcome == old(Foreseen(w, buf.Queue()))
      ensures delivered == if outcome.Saved? || outcome.NothingLeft? then |accepted| else old(delivered)
      ensures outcome.NotSaved? || outcome.Refused? ==> buf.Queue() == old(buf.Queue()) && buf.Room() == old(buf.Room())
      ensures cb != null ==> Recorded(old(cb.Value()), cb.Value(), outcome, w)
    {
      hide Pipeline, Honest, WillSave, Filters.Deterministic,
           LineBuffer.Valid, LineBuffer.Queue, LineBuffer.Room, LineBuffer.Cost, LineBuffer.Steady,
           LineBuffer.InRange, LineBuffer.Keeps;
      if cb != null {
        var ok := cb.Allow(w.allowAt);
        if !ok {
          return Refused;
        }
      }
      assert Valid();
      buf.RoomLeft();
      var lines := buf.ReadAll();
      assert InHand(lines);
      if |lines| == 0 {
        return NothingBuffered;
      }
      outcome := Deliver(lines, w);
      buf.RoomLeft();
    }

    /** What a flush does with a batch it drained. */
    method Deliver(lines: seq<Line>, w: World) returns (outcome: Flushed)
      requires InHand(lines) && Honest(w)
      modifies Parts()
      ensures Valid() && accepted == old(accepted)
      ensures old(buf.Steady()) ==> buf.Steady()
      ensures outcome.NothingLeft? || outcome.Saved? || outcome.NotSaved?
      ensures outcome.NothingLeft? <==> Pipeline(parse, rules, lines) == []
      ensures outcome.Saved? ==> old(WillSave(w))
      ensures outcome.NotSaved? ==> !old(WillSave(w))
      ensures delivered == if outcome.NotSaved? then old(delivered) else |accepted|
      ensures cb != null ==> cb.Value() == if outcome.NothingLeft? then old(cb.Value())
                                           else if outcome.Saved? then old(cb.Value()).AfterSuccess()
                                           else old(cb.Value()).AfterFailure(w.recordAt)
    {
      hide Pipeline, Honest, WillSave, Filters.Deterministic,
           LineBuffer.Valid, LineBuffer.Queue, LineBuffer.Room, LineBuffer.Cost, LineBuffer.Steady, LineBuffer.Keeps;
      var entries := Prepare(lines, w);
      if |entries| == 0 {
        AllSettled(lines);
        delivered := |accepted|;
        return NothingLeft;
      }
      var ok := SaveOrRestore(lines, entries, w);
      if !ok {
        return NotSaved;
      }
      return Saved;
    }

    /** Settling the lines in hand settles all accepted lines. */
    lemma AllSettled(lines: seq<Line>)
      requires InHand(lines)
      ensures accepted[..|accepted|] == accepted && accepted[|accepted|..] == []
      ensures Pipeline(parse, rules, accepted) == client.table.rows + Pipeline(parse, rules, lines)
    {
      hide Pipeline;
      assert accepted == accepted[..delivered] + lines;
      PipelineConcat(parse, rules, accepted[..delivered], lines);
    }

    /** Records the failure of a save and writes its lines back. */
    method Restore(lines: seq<Line>, w: World)
      requires InHand(lines)
      modifies if cb != null then {cb} else {}, buf.Parts()
      ensures Valid() && accepted == old(accepted) && delivered == old(delivered)
      ensures old(buf.Steady()) ==> buf.Steady()
      ensures cb != null ==> cb.Value() == old(cb.Value()).AfterFailure(w.recordAt)
    {
      hide Pipeline, Filters.Deterministic,
           LineBuffer.Valid, LineBuffer.Queue, LineBuffer.Room, LineBuffer.Cost, LineBuffer.Steady, LineBuffer.Keeps;
      if cb != null {
        cb.RecordFailure(w.recordAt);
      }
      assert InHand(lines);
      hide Breaker.AfterFailure, Settings.Valid;
      assert forall l | l in lines :: l in accepted;
      assert buf.Queue() + lines == accepted[delivered..];
      buf.WriteBack(lines);
    }

    /** The end of a flush: save the batch, or record the failure and write its lines back. */
    method SaveOrRestore(lines: seq<Line>, entries: seq<Entry>, w: World) returns (ok: bool)
      requires InHand(lines) && Honest(w)
      requires entries == Pipeline(parse, rules, lines) && entries != []
      modifies Parts()
      ensures Valid() && accepted == old(accepted)
      ensures old(buf.Steady()) ==> buf.Steady()
      ensures ok <==> old(WillSave(w))
      ensures delivered == if ok then |accepted| else old(delivered)
      ensures cb != null ==>
                cb.Value() == if ok then old(cb.Value()).AfterSuccess() else old(cb.Value()).AfterFailure(w.recordAt)
    {
      hide Pipeline, Honest, WillSave, Filters.Deterministic,
           LineBuffer.Valid, LineBuffer.Queue, LineBuffer.Room, LineBuffer.Cost, LineBuffer.Steady, LineBuffer.Keeps;
      AllSettled(lines);
      ok := SaveBatch(entries, w);
      if !ok {
        Restore(lines, w);
        return;
      }
      if cb != null {
        cb.RecordSuccess();
      }
      delivered := |accepted|;
    }

    /** One save in an honest world: the table gains the batch once or not at all. */
    method SaveBatch(entries: seq<Entry>, w: World) returns (ok: bool)
      requires client.settings.Valid() && client.settings.columns > 0
      requires 0 <= client.settings.Retries() < 0x7fff_ffff_ffff_ffff && Honest(w) && entries != []
      modifies client, client.table
      ensures ok <==> old(WillSave(w))
      ensures client.table.rows == if ok then old(client.table.rows) + entries else old(client.table.rows)
    {
      hide Honest, Inserted, Outcomes, Succeeds;
      HonestSave(client.settings, client.connected, w, entries);
      var calls, sleeps;
      ok, calls, sleeps := client.Save(entries, w.attempts, w.pauses);
    }

    /** Parses and filters a batch. */
    method Prepare(lines: seq<Line>, w: World) returns (entries: seq<Entry>)
      requires Filters.Deterministic(rules)
      ensures entries == Pipeline(parse, rules, lines)
    {
      entries := ParseJSONLogs(parse, lines);
      entries := Filters.Apply(rules, entries, w.draws);
      Filters.DeterministicChainFuses(rules, ParseLines(parse, lines), w.draws, 0);
    }

    /** The body of the read loop for one line: buffer it, and flush when the buffer is full. */
    method Accept(line: Line, w: World) returns (full: bool, flushed: Option<Flushed>)
      requires Valid() && buf.Steady() && buf.Bounded(accepted + [line]) && Honest(w) && buf.Keeps(line)
      modifies Parts()
      ensures Valid() && buf.Steady()
      ensures full <==> buf.Cost([line]) > old(buf.Room())
      ensures accepted == if full then old(accepted) else old(accepted) + [line]
      ensures flushed.Some? <==> !full && |old(buf.Queue())| + 1 >= maxBuffer
      ensures flushed.Some? ==> flushed.value == old(Foreseen(w, buf.Queue() + [line]))
      ensures delivered == if flushed == Some(Saved) || flushed == Some(NothingLeft) then |accepted| else old(delivered)
      ensures flushed.None? ==> client.table.rows == old(client.table.rows)
      ensures cb != null ==>
                if flushed.Some? then Recorded(old(cb.Value()), cb.Value(), flushed.value, w)
                else cb.Value() == old(cb.Value())
    {
      hide Pipeline, Honest, WillSave, Filters.Deterministic, LineBuffer.Bounded, Recorded,
           LineBuffer.Valid, LineBuffer.Queue, LineBuffer.Room, LineBuffer.Cost, LineBuffer.Steady, LineBuffer.Keeps;
      full := buf.Write(line);
      flushed := None;
      if full {
        return;
      }
      assert (accepted + [line])[delivered..] == accepted[delivered..] + [line];
      assert (accepted + [line])[..delivered] == accepted[..delivered];
      accepted := accepted + [line];
      var n := buf.Len();
      if n >= maxBuffer {
        FlushInRange();
        var outcome := Flush(w);
        flushed := Some(outcome);
      }
    }

    lemma FlushInRange()
      requires Valid() && buf.Steady() && buf.Bounded(accepted)
      ensures buf.InRange()
    {
      assert accepted == accepted[..delivered] + accepted[delivered..] + [];
      buf.BoundedParts(accepted[..delivered], accepted[delivered..], []);
      buf.SteadyInRange();
    }
  }

  /** One thing the program does next: read a line, or flush because the timer went off. */
  datatype Event = LineRead(line: Line, w: World) | TimerFired(w: World)

  function LineOf(e: Event): seq<Line> { if e.LineRead? then [e.line] else [] }

  /** All lines a run reads. */
  function LinesRead(events: seq<Event>): seq<Line> {
    if events == [] then [] else LineOf(events[0]) + LinesRead(events[1..])
  }

  /** Any run of reads and timed flushes, over memory, over a disk buffer with a cap of at most
      500000 segments' bytes, or over any disk buffer while the lines of the run take no more than
      that, delivers exactly once and in order: the table has one row for every line of some prefix of
      the accepted ones that parses and that every rule lets through, and the buffer holds the rest. */
  method Drive(s: Shipper, events: seq<Event>)
    requires s.Valid() && s.buf.Steady() && s.buf.Bounded(s.accepted + LinesRead(events))
    requires forall e | e in events :: Honest(e.w) && (e.LineRead? ==> s.buf.Keeps(e.line))
    modifies s.Parts()
    ensures s.delivered <= |s.accepted| && s.buf.Valid()
    ensures PicksInOrder(RowOf(s.parse, s.rules), s.accepted[..s.delivered], s.client.table.rows)
    ensures s.client.table.rows == Pipeline(s.parse, s.rules, s.accepted[..s.delivered])
    ensures s.buf.Queue() == s.accepted[s.delivered..]
    ensures old(s.accepted) <= s.accepted
  {
    hide Pipeline, Honest, PicksInOrder;
    assert s.accepted + LinesRead(events) == s.accepted + LinesRead(events[0..]);
    for i := 0 to |events|
      invariant s.Valid() && s.buf.Steady() && old(s.accepted) <= s.accepted
      invariant s.buf.Bounded(s.accepted + LinesRead(events[i..]))
    {
      hide Shipper.Valid, LineBuffer.Steady, LineBuffer.Bounded, LineBuffer.Keeps, LinesRead;
      assert events[i] in events;
      LinesUnfold(events[i..]);
      assert events[i..][1..] == events[i + 1..];
      var full, flushed := Handle(s, events[i], LinesRead(events[i + 1..]));
    }
    PipelinePicks(s.parse, s.rules, s.accepted[..s.delivered]);
  }

  lemma LinesUnfold(events: seq<Event>)
    requires events != []
    ensures LinesRead(events) == LineOf(events[0]) + LinesRead(events[1..])
  {
  }

  /** One event, with room left for the lines of those to come: a line is accepted, and the timer sets
      off a flush. */
  method Handle(s: Shipper, e: Event, rest: seq<Line>) returns (full: bool, flushed: Option<Flushed>)
    requires s.Valid() && s.buf.Steady() && s.buf.Bounded(s.accepted + (LineOf(e) + rest))
    requires Honest(e.w) && (e.LineRead? ==> s.buf.Keeps(e.line))
    modifies s.Parts()
    ensures s.Valid() && s.buf.Steady() && s.buf.Bounded(s.accepted + rest)
    ensures full <==> e.LineRead? && s.buf.Cost([e.line]) > old(s.buf.Room())
    ensures s.accepted == if full then old(s.accepted) else old(s.accepted) + LineOf(e)
    ensures flushed.Some? <==> e.TimerFired? || (!full && |old(s.buf.Queue())| + 1 >= s.maxBuffer)
    ensures flushed.Some? ==> flushed.value == old(s.Foreseen(e.w, s.buf.Queue() + LineOf(e)))
    ensures s.delivered
            == if flushed == Some(Saved) || flushed == Some(NothingLeft) then |s.accepted| else old(s.delivered)
    ensures s.cb != null ==>
              if flushed.Some? then Recorded(old(s.cb.Value()), s.cb.Value(), flushed.value, e.w)
              else s.cb.Value() == old(s.cb.Value())
  {
    assert s.buf.Valid();
    hide Pipeline, Honest, Shipper.Valid, LineBuffer.Steady, LineBuffer.Bounded, LineBuffer.Keeps, LineBuffer.Room,
         LineBuffer.Cost, LineBuffer.Queue, LineBuffer.Valid, Shipper.WillSave, Recorded;
    assert s.accepted + (LineOf(e) + rest) == s.accepted + LineOf(e) + rest;
    s.buf.BoundedParts(s.accepted, LineOf(e), rest);
    match e
    case LineRead(line, w) =>
      full, flushed := s.Accept(line, w);
    case TimerFired(w) =>
      assert s.accepted + [] == s.accepted;
      assert s.buf.Queue() + [] == s.buf.Queue();
      s.FlushInRange();
      var outcome := s.Flush(w);
      full, flushed := false, Some(outcome);
  }
}
