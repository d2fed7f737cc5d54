/** The protocol over a real disk buffer: when the outcomes of its buffer steps are those of a
    segmented log, the lines it has buffered are at every point the pending lines of that log. */
module DeliveryDisk {
  import opened Prelude
  import opened LineFraming
  import Log = SegmentLog
  import Runs = SegmentLogRuns
  import opened Clients
  import opened Delivery

  function Texts(tokens: seq<Token>): (lines: seq<Line>)
    ensures |lines| == |tokens|
  {
    seq(|tokens|, k requires 0 <= k < |tokens| => tokens[k].text)
  }

  lemma TextsConcat(a: seq<Token>, b: seq<Token>)
    ensures Texts(a + b) == Texts(a) + Texts(b)
  {
  }

  lemma TextsDrop(tokens: seq<Token>, k: nat)
    requires k <= |tokens|
    ensures Texts(tokens[k..]) == Texts(tokens)[k..]
  {
  }

  // ---------- what a step does to the disk ----------

  /** How a process ended, as the disk sees it. */
  predicate IsEnd(e: Runs.Event) { e.Restart? || e.CrashInWrite? || e.CrashInRead? }

  /** The disk's part in a step of the protocol; end says how a process ends. */
  function DiskEvent(s: State, a: Action, end: Runs.Event): Option<Runs.Event> {
    match a
    case Read(text, _) => Some(Runs.WriteLine(text))
    case Rebuffer(i, _) =>
      if i < |s.jobs| && s.jobs[i].Rebuffering? && s.jobs[i].batch != [] then
        Some(Runs.WriteLine(s.jobs[i].batch[0].text))
      else None
    case Drain(_, _, _) => Some(Runs.ReadAllLines)
    case Halt(_, _) => Some(end)
    case _ => None
  }

  ghost function OnDisk(t: Runs.Trace, e: Option<Runs.Event>): (r: Runs.Trace)
    requires Log.HasCurrent(t.log)
    ensures Log.HasCurrent(r.log)
  {
    if e.None? then t else Runs.Step(t, e.value)
  }

  function AsFragment(lines: seq<Line>): Option<Line> { if lines == [] then None else Some(lines[0]) }

  /** The outcome of the step is the disk's: a write is refused when the log refuses it, a read fails
      when the log cannot be read, whole segments are deleted, and a fragment is what a torn write
      leaves. */
  ghost predicate AsOnDisk(s: State, t: Runs.Trace, a: Action, end: Runs.Event)
    requires Log.HasCurrent(t.log)
  {
    match a
    case Read(text, ok) => ok == !Log.Rejects(t.log, text)
    case Rebuffer(i, ok) =>
      i < |s.jobs| && s.jobs[i].Rebuffering? && s.jobs[i].batch != [] ==>
        ok == !Log.Rejects(t.log, s.jobs[i].batch[0].text)
    case Drain(_, readOk, _) => readOk == Log.DrainResult(t.log).Some?
    case Halt(deleted, fragment) =>
      (match end
       case Restart(_) => deleted == 0 && fragment == None
       case CrashInWrite(line, point, _) => deleted == 0 && fragment == AsFragment(Runs.TornLines(t.log, line, point))
       case CrashInRead(k, _) => deleted == |Runs.DeletedLines(t.log.files, k)| && fragment == None
       case _ => false)
    case _ => true
  }

  /** The protocol and the log are at the same point. */
  ghost predicate InStep(s: State, t: Runs.Trace) {
    Runs.IsFifo(t) && Texts(s.buffer) == Log.Pending(t.log)
  }

  /** A line that is written is clean and segment numbers have six digits. */
  predicate DiskFine(t: Runs.Trace, e: Option<Runs.Event>)
    requires Log.HasCurrent(t.log)
  {
    e.Some? ==> e.value.HasCleanLine() && Runs.StepInRange(t, e.value)
  }

  // ---------- what each event does to the pending lines ----------

  lemma Cancel(a: seq<Line>, b: seq<Line>, c: seq<Line>)
    requires a + b == a + c
    ensures b == c
  {
    assert b == (a + b)[|a|..] && c == (a + c)[|a|..];
  }

  lemma WritesPending(t: Runs.Trace, line: Line)
    requires Runs.IsFifo(t) && Clean(line)
    ensures var r := Runs.Step(t, Runs.WriteLine(line));
            && Runs.IsFifo(r)
            && Log.Pending(r.log) == Log.Pending(t.log) + if Log.Rejects(t.log, line) then [] else [line]
  {
    Runs.WriteIsFifo(t, line);
    var r := Runs.Step(t, Runs.WriteLine(line));
    var more := if Log.Rejects(t.log, line) then [] else [line];
    hide Log.Pending, Log.Valid, Log.Intact, Log.Write;
    ConcatAssociates(t.removed, Log.Pending(t.log), more);
    Cancel(t.removed, Log.Pending(r.log), Log.Pending(t.log) + more);
  }

  lemma RestartsPending(t: Runs.Trace, maxBytes: int)
    requires Runs.IsFifo(t) && Log.InRange(t.log)
    ensures var r := Runs.Step(t, Runs.Restart(maxBytes));
            Runs.IsFifo(r) && Log.Pending(r.log) == Log.Pending(t.log)
  {
    Runs.RestartIsFifo(t, maxBytes);
    hide Log.Pending, Log.Valid, Log.Intact, Log.Reopen;
    Cancel(t.removed, Log.Pending(Runs.Step(t, Runs.Restart(maxBytes)).log), Log.Pending(t.log));
  }

  lemma TearsPending(t: Runs.Trace, line: Line, point: Runs.CrashPoint, maxBytes: int)
    requires Runs.IsFifo(t) && Clean(line) && Runs.StepInRange(t, Runs.CrashInWrite(line, point, maxBytes))
    ensures var r := Runs.Step(t, Runs.CrashInWrite(line, point, maxBytes));
            && Runs.IsFifo(r) && |Runs.TornLines(t.log, line, point)| <= 1
            && Log.Pending(r.log) == Log.Pending(t.log) + Runs.TornLines(t.log, line, point)
  {
    Runs.CrashInWriteIsFifo(t, line, point, maxBytes);
    var r := Runs.Step(t, Runs.CrashInWrite(line, point, maxBytes));
    var torn := Runs.TornLines(t.log, line, point);
    hide Log.Pending, Log.Valid, Log.Intact, Log.Reopen, Runs.TornFiles, Runs.TornLines;
    ConcatAssociates(t.removed, Log.Pending(t.log), torn);
    Cancel(t.removed, Log.Pending(r.log), Log.Pending(t.log) + torn);
  }

  lemma DeletesLines(t: Runs.Trace, k: nat, maxBytes: int)
    requires Runs.IsFifo(t) && Log.InRange(t.log)
    ensures var r := Runs.Step(t, Runs.CrashInRead(k, maxBytes));
            && Runs.IsFifo(r) && r.removed == t.removed + Runs.DeletedLines(t.log.files, k)
            && r.appended == t.appended
  {
    hide Runs.IsFifo, Runs.DeletedLines, Runs.PartlyDeleted, Log.Reopen, Log.ReadNames, Log.Names, Log.SizeOf;
    Runs.CrashInReadIsFifo(t, k, maxBytes);
  }

  lemma DeletesPending(t: Runs.Trace, k: nat, maxBytes: int)
    requires Runs.IsFifo(t) && Log.InRange(t.log)
    ensures var r := Runs.Step(t, Runs.CrashInRead(k, maxBytes));
            var gone := Runs.DeletedLines(t.log.files, k);
            && Runs.IsFifo(r) && |gone| <= |Log.Pending(t.log)|
            && Log.Pending(r.log) == Log.Pending(t.log)[|gone|..]
  {
    DeletesLines(t, k, maxBytes);
    var r := Runs.Step(t, Runs.CrashInRead(k, maxBytes));
    IsSplit(t);
    IsSplit(r);
    hide Log.Pending, Log.Shaped, Runs.DeletedLines, Runs.IsFifo, Runs.Step;
    SplitOff(t.removed, Runs.DeletedLines(t.log.files, k), Log.Pending(r.log), Log.Pending(t.log));
  }

  lemma IsSplit(t: Runs.Trace)
    requires Runs.IsFifo(t)
    ensures Log.Shaped(t.log) && t.removed + Log.Pending(t.log) == t.appended
  {
  }

  lemma SplitOff(removed: seq<Line>, gone: seq<Line>, rest: seq<Line>, pending: seq<Line>)
    requires removed + gone + rest == removed + pending
    ensures |gone| <= |pending| && rest == pending[|gone|..]
  {
    ConcatAssociates(removed, gone, rest);
    Cancel(removed, pending, gone + rest);
  }

  lemma DrainsPending(t: Runs.Trace)
    requires Runs.IsFifo(t) && Log.InRange(t.log)
    ensures var r := Runs.Step(t, Runs.ReadAllLines);
            Runs.IsFifo(r) && Log.Pending(r.log) == [] && Log.DrainResult(t.log) == Some(Log.Pending(t.log))
  {
    Runs.ReadIsFifo(t);
    Log.DrainReturnsPending(t.log);
  }

  // ---------- one step of both ----------

  lemma WriteInStep(s: State, r: State, t: Runs.Trace, x: Token, ok: bool)
    requires InStep(s, t) && Clean(x.text) && ok == !Log.Rejects(t.log, x.text)
    requires r.buffer == if ok then s.buffer + [x] else s.buffer
    ensures InStep(r, Runs.Step(t, Runs.WriteLine(x.text)))
  {
    hide Log.Pending, Log.Valid, Log.Intact, Log.Write, Log.Rejects, Runs.IsFifo, Runs.Step;
    WritesPending(t, x.text);
    if ok {
      TextsConcat(s.buffer, [x]);
      assert Texts([x]) == [x.text];
    } else {
      assert Texts(s.buffer) + [] == Texts(s.buffer);
    }
  }

  lemma EndInStep(c: Config, s: State, t: Runs.Trace, deleted: nat, fragment: Option<Line>, end: Runs.Event)
    requires c.capacity.None? && InStep(s, t) && IsEnd(end) && DiskFine(t, Some(end)) && deleted <= |s.buffer|
    requires AsOnDisk(s, t, Halt(deleted, fragment), end)
    ensures InStep(Halted(c, s, deleted, fragment), Runs.Step(t, end))
  {
    hide Log.Pending, Log.Valid, Log.Intact, Runs.IsFifo, Runs.Step, Runs.TornLines, Runs.DeletedLines, InFlight;
    TextsDrop(s.buffer, deleted);
    match end
    case Restart(maxBytes) => RestartsPending(t, maxBytes);
    case CrashInWrite(line, point, maxBytes) =>
      TearsPending(t, line, point, maxBytes);
      if fragment.Some? {
        TextsConcat(s.buffer, [Push(s, fragment.value)]);
        assert Texts([Push(s, fragment.value)]) == [fragment.value] == Runs.TornLines(t.log, line, point);
      } else {
        assert Texts(s.buffer) + [] == Texts(s.buffer);
      }
    case CrashInRead(k, maxBytes) => DeletesPending(t, k, maxBytes);
  }

  lemma DrainInStep(c: Config, s: State, t: Runs.Trace, i: nat, entries: seq<Entry>)
    requires i < |s.jobs| && InStep(s, t) && Log.InRange(t.log)
    ensures InStep(DrainStep(c, s, i, true, entries), Runs.Step(t, Runs.ReadAllLines))
    ensures Log.DrainResult(t.log) == Some(Texts(s.buffer))
  {
    hide Log.Pending, Log.Valid, Log.Intact, Log.DrainResult, Runs.IsFifo, Runs.Step;
    DrainsPending(t);
    DrainEmpties(c, s, i, entries);
    hide DrainStep;
  }

  lemma DrainEmpties(c: Config, s: State, i: nat, entries: seq<Entry>)
    requires i < |s.jobs|
    ensures DrainStep(c, s, i, true, entries).buffer == []
  {
  }

  /** Steps in which the disk has no part leave the buffer alone. */
  lemma OffDisk(c: Config, s: State, a: Action)
    requires Enabled(c, s, a) && !a.Read? && !a.Rebuffer? && !a.Drain? && !a.Halt?
    ensures Apply(c, s, a).buffer == s.buffer
  {
    hide EntriesOf, InFlight, Parsed, Entered, EnteredUnpaid;
  }

  lemma StepsTogether(c: Config, s: State, t: Runs.Trace, a: Action, end: Runs.Event)
    requires c.capacity.None? && InStep(s, t) && Enabled(c, s, a) && (a.Halt? ==> IsEnd(end))
    requires Log.HasCurrent(t.log) && AsOnDisk(s, t, a, end) && DiskFine(t, DiskEvent(s, a, end))
    ensures InStep(Apply(c, s, a), OnDisk(t, DiskEvent(s, a, end)))
  {
    hide Log.Pending, Log.Valid, Log.Intact, Log.Rejects, Log.DrainResult, Runs.IsFifo, Runs.Step, Runs.TornLines,
         Runs.DeletedLines, InStep, DrainStep, Halted, InFlight, EntriesOf, Parsed;
    match a
    case Read(text, ok) => WriteInStep(s, ReadIn(s, text, ok), t, Push(s, text), ok);
    case Rebuffer(i, ok) => WriteInStep(s, Rebuffered(s, i, ok), t, s.jobs[i].batch[0], ok);
    case Drain(i, readOk, entries) => DrainInStep(c, s, t, i, entries);
    case Halt(deleted, fragment) => EndInStep(c, s, t, deleted, fragment, end);
    case _ =>
      OffDisk(c, s, a);
      SameBuffer(s, Apply(c, s, a), t);
  }

  lemma SameBuffer(s: State, r: State, t: Runs.Trace)
    requires InStep(s, t) && r.buffer == s.buffer
    ensures InStep(r, t)
  {
  }

  // ---------- runs of both ----------

  /** A step of the protocol and, if it ends a process, how it did. */
  datatype DiskStep = DiskStep(action: Action, end: Runs.Event)

  datatype Both = Both(s: State, t: Runs.Trace)

  ghost function NextBoth(c: Config, p: Both, step: DiskStep): (r: Both)
    requires Log.HasCurrent(p.t.log)
    ensures Log.HasCurrent(r.t.log)
  {
    if Enabled(c, p.s, step.action) then
      Both(Apply(c, p.s, step.action), OnDisk(p.t, DiskEvent(p.s, step.action, step.end)))
    else p
  }

  /** The protocol and its buffer directory from the start, on an empty directory. */
  ghost function DiskRun(c: Config, maxBytes: int, steps: seq<DiskStep>): (p: Both)
    ensures Log.HasCurrent(p.t.log)
  {
    if steps == [] then Both(Init(c), Runs.Fresh(maxBytes))
    else NextBoth(c, DiskRun(c, maxBytes, steps[..|steps| - 1]), steps[|steps| - 1])
  }

  function Actions(steps: seq<DiskStep>): seq<Action> {
    if steps == [] then [] else Actions(steps[..|steps| - 1]) + [steps[|steps| - 1].action]
  }

  ghost predicate Real(c: Config, p: Both, step: DiskStep)
    requires Log.HasCurrent(p.t.log)
  {
    Enabled(c, p.s, step.action) ==>
      && (step.action.Halt? ==> IsEnd(step.end))
      && AsOnDisk(p.s, p.t, step.action, step.end) && DiskFine(p.t, DiskEvent(p.s, step.action, step.end))
  }

  ghost predicate RealRun(c: Config, maxBytes: int, steps: seq<DiskStep>) {
    forall k | 0 <= k < |steps| :: Real(c, DiskRun(c, maxBytes, steps[..k]), steps[k])
  }

  lemma RealSnoc(c: Config, maxBytes: int, steps: seq<DiskStep>)
    requires steps != [] && RealRun(c, maxBytes, steps)
    ensures var n := |steps| - 1;
            RealRun(c, maxBytes, steps[..n]) && Real(c, DiskRun(c, maxBytes, steps[..n]), steps[n])
  {
    hide Real, DiskRun;
    var n := |steps| - 1;
    assert forall k | 0 <= k < n :: steps[..n][..k] == steps[..k] && steps[..n][k] == steps[k];
  }

  lemma NextInStep(c: Config, p: Both, step: DiskStep)
    requires c.capacity.None? && Log.HasCurrent(p.t.log) && InStep(p.s, p.t) && Real(c, p, step)
    ensures var r := NextBoth(c, p, step); InStep(r.s, r.t) && r.s == Next(c, p.s, step.action)
  {
    hide InStep, Apply, Enabled, AsOnDisk, DiskFine, DiskEvent, OnDisk;
    if Enabled(c, p.s, step.action) { StepsTogether(c, p.s, p.t, step.action, step.end); }
  }

  lemma StartInStep(c: Config, maxBytes: int)
    ensures InStep(Init(c), Runs.Fresh(maxBytes))
  {
    Runs.FreshIsFifo(maxBytes);
    assert Log.Names(Runs.Fresh(maxBytes).log) == [];
  }

  /** Every run of the protocol whose buffer steps end as on a real directory, with process ends,
      torn writes and partial deletions anywhere, is a run of the protocol in which the buffered
      lines are at the end the pending lines of the segmented log, in order, and nothing is left
      out or made up between the two. */
  lemma {:induction false} DiskRunsAreReal(c: Config, maxBytes: int, steps: seq<DiskStep>)
    requires c.capacity.None? && RealRun(c, maxBytes, steps)
    ensures var p := DiskRun(c, maxBytes, steps);
            && p.s == Exec(c, Actions(steps))
            && Runs.IsFifo(p.t) && Texts(p.s.buffer) == Log.Pending(p.t.log)
  {
    hide Next, NextBoth, InStep, RealRun, Real;
    if steps == [] {
      StartInStep(c, maxBytes);
    } else {
      var n := |steps| - 1;
      RealSnoc(c, maxBytes, steps);
      DiskRunsAreReal(c, maxBytes, steps[..n]);
      var p := DiskRun(c, maxBytes, steps[..n]);
      TogetherIs(p);
      NextInStep(c, p, steps[n]);
      ExecSnoc(c, Init(c), Actions(steps[..n]), steps[n].action);
    }
    InStepIs(DiskRun(c, maxBytes, steps));
  }

  lemma TogetherIs(p: Both)
    requires Runs.IsFifo(p.t) && Texts(p.s.buffer) == Log.Pending(p.t.log)
    ensures InStep(p.s, p.t)
  {
  }

  lemma InStepIs(p: Both)
    requires InStep(p.s, p.t)
    ensures Runs.IsFifo(p.t) && Texts(p.s.buffer) == Log.Pending(p.t.log)
  {
  }

  // ---------- the disk always has an answer ----------

  /** The entries of a batch in the order of its lines. */
  function EntryList(c: Config, tokens: seq<Token>): (entries: seq<Entry>)
    ensures multiset(entries) == EntriesOf(c, tokens)
  {
    if tokens == [] then []
    else EntryList(c, tokens[..|tokens| - 1]) + c.entriesOf(tokens[|tokens| - 1].text)
  }

  /** In step with the log every write, read and process end has an outcome the disk gives and the
      protocol allows; a read never fails, and takes all the pending lines. */
  lemma DiskAnswers(c: Config, s: State, t: Runs.Trace, i: nat, text: Line, end: Runs.Event)
    requires c.capacity.None? && InStep(s, t) && s.up && Log.HasCurrent(t.log) && Log.InRange(t.log)
    requires IsEnd(end) && DiskFine(t, Some(end))
    ensures s.jobs != [] && s.jobs[0].Idle? ==>
              exists ok :: Enabled(c, s, Read(text, ok)) && AsOnDisk(s, t, Read(text, ok), end)
    ensures i < |s.jobs| && Reads(s.jobs[i]) ==>
              exists entries :: Enabled(c, s, Drain(i, true, entries)) && AsOnDisk(s, t, Drain(i, true, entries), end)
    ensures !AsOnDisk(s, t, Drain(i, false, []), end)
    ensures i < |s.jobs| && (end.CrashInRead? ==> Reads(s.jobs[i])) ==>
              exists deleted, fragment ::
                Enabled(c, s, Halt(deleted, fragment)) && AsOnDisk(s, t, Halt(deleted, fragment), end)
  {
    hide Log.Pending, Log.Valid, Log.Intact, Log.Rejects, Log.DrainResult, Runs.IsFifo, Runs.TornLines,
         Runs.DeletedLines,
         EntriesOf, InFlight;
    DrainsPending(t);
    if s.jobs != [] && s.jobs[0].Idle? {
      var ok := !Log.Rejects(t.log, text);
      assert Enabled(c, s, Read(text, ok)) && AsOnDisk(s, t, Read(text, ok), end);
    }
    if i < |s.jobs| {
      if Reads(s.jobs[i]) {
        var entries := EntryList(c, s.buffer);
        assert Enabled(c, s, Drain(i, true, entries)) && AsOnDisk(s, t, Drain(i, true, entries), end);
      }
      if end.CrashInRead? ==> Reads(s.jobs[i]) { DiskEnds(c, s, t, i, end); }
    }
  }

  lemma DiskEnds(c: Config, s: State, t: Runs.Trace, i: nat, end: Runs.Event)
    requires c.capacity.None? && InStep(s, t) && s.up && Log.HasCurrent(t.log) && Log.InRange(t.log)
    requires IsEnd(end) && DiskFine(t, Some(end)) && i < |s.jobs| && (end.CrashInRead? ==> Reads(s.jobs[i]))
    ensures exists deleted, fragment ::
              Enabled(c, s, Halt(deleted, fragment)) && AsOnDisk(s, t, Halt(deleted, fragment), end)
  {
    hide Log.Pending, Log.Valid, Log.Intact, Runs.IsFifo, Runs.TornLines, Runs.DeletedLines;
    match end
    case Restart(_) =>
      assert Enabled(c, s, Halt(0, None)) && AsOnDisk(s, t, Halt(0, None), end);
    case CrashInWrite(line, point, _) =>
      var fragment := AsFragment(Runs.TornLines(t.log, line, point));
      assert Enabled(c, s, Halt(0, fragment)) && AsOnDisk(s, t, Halt(0, fragment), end);
    case CrashInRead(k, maxBytes) =>
      DeletesPending(t, k, maxBytes);
      var deleted := |Runs.DeletedLines(t.log.files, k)|;
      assert deleted <= |s.buffer|;
      assert Enabled(c, s, Halt(deleted, None)) && AsOnDisk(s, t, Halt(deleted, None), end);
  }
}
