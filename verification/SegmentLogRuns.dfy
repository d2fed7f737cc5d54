/** Whole runs of the disk buffer: writes, drains, restarts and crashes in any order. */
module SegmentLogRuns {
  import opened Prelude
  import opened SegmentNames
  import opened LineFraming
  import opened SegmentLog

  /** How far a write got when the process died: nothing on disk, or k bytes of the framed line. */
  datatype CrashPoint = BeforeCreate | AfterBytes(k: nat)

  /** Everything that can happen to a buffer directory. After a crash the next process reopens it. */
  datatype Event =
    | WriteLine(line: Line)
    | ReadAllLines
    | CloseBuffer
    | Restart(maxBytes: int)
    | CrashInWrite(line: Line, point: CrashPoint, maxBytes: int)
    | CrashInRead(deleted: nat, maxBytes: int)
  {
    predicate HasCleanLine() {
      (WriteLine? ==> Clean(line)) && (CrashInWrite? ==> Clean(line))
    }

    /** Neither a restart nor a close: the open segment stays open. */
    predicate Steady() { WriteLine? || ReadAllLines? }
  }

  /** A log with its history: the lines put on disk and those taken off it, in order. */
  datatype Trace = Trace(log: Log, removed: seq<Line>, appended: seq<Line>)

  function Fresh(maxBytes: int): Trace {
    Trace(Log(map[], None, 0, 0, 0, maxBytes), [], [])
  }

  function TornFiles(s: Log, line: Line, point: CrashPoint): Files
    requires HasCurrent(s)
  {
    if Rejects(s, line) || point.BeforeCreate? then s.files
    else AppendLast(Prepared(s, line), Framed(line)[..CutAt(line, point.k)]).files
  }

  function CutAt(line: Line, k: nat): (n: nat)
    ensures n <= |Framed(line)|
  {
    if k <= |line| then k else |line| + 1
  }

  function TornLines(s: Log, line: Line, point: CrashPoint): seq<Line> {
    if Rejects(s, line) || point.BeforeCreate? then [] else Fragment(line, CutAt(line, point.k))
  }

  /** The directory after the first k segments of a readable listing were deleted. */
  ghost function PartlyDeleted(files: Files, k: nat): Files {
    if ReadableNames(files, Listing(files.Keys)) then
      var gone := FirstNames(files, k);
      map n | n in files && n !in gone :: files[n]
    else files
  }

  ghost function FirstNames(files: Files, k: nat): (names: seq<string>)
    ensures forall n | n in names :: n in files
  {
    var names := Listing(files.Keys);
    if k <= |names| then names[..k] else names
  }

  ghost function DeletedLines(files: Files, k: nat): seq<Line> {
    if ReadableNames(files, Listing(files.Keys)) then ReadNames(files, FirstNames(files, k)) else []
  }

  ghost function Step(t: Trace, e: Event): Trace
    requires HasCurrent(t.log)
  {
    match e
    case WriteLine(line) =>
      Trace(Write(t.log, line), t.removed, t.appended + if Rejects(t.log, line) then [] else [line])
    case ReadAllLines =>
      var lines := DrainResult(t.log);
      Trace(Drain(t.log), t.removed + if lines.Some? then lines.value else [], t.appended)
    case CloseBuffer =>
      t.(log := Close(t.log))
    case Restart(maxBytes) =>
      t.(log := Reopen(t.log.files, maxBytes))
    case CrashInWrite(line, point, maxBytes) =>
      Trace(Reopen(TornFiles(t.log, line, point), maxBytes), t.removed, t.appended + TornLines(t.log, line, point))
    case CrashInRead(k, maxBytes) =>
      Trace(Reopen(PartlyDeleted(t.log.files, k), maxBytes), t.removed + DeletedLines(t.log.files, k), t.appended)
  }

  ghost function RunFrom(t: Trace, events: seq<Event>): (r: Trace)
    requires HasCurrent(t.log)
    ensures HasCurrent(r.log)
  {
    if events == [] then t
    else Step(RunFrom(t, events[..|events| - 1]), events[|events| - 1])
  }

  /** The state after a run that starts on an empty directory. */
  ghost function Run(maxBytes: int, events: seq<Event>): (t: Trace)
    ensures HasCurrent(t.log)
  {
    RunFrom(Fresh(maxBytes), events)
  }

  /** The segment numbers this step lists or creates before a restart all print with six digits. */
  predicate StepInRange(t: Trace, e: Event)
    requires HasCurrent(t.log)
  {
    InRange(t.log) && (e.CrashInWrite? ==> InRange(Prepared(t.log, e.line)))
  }

  ghost predicate RunInRange(maxBytes: int, events: seq<Event>) {
    forall i | 0 <= i < |events| :: StepInRange(Run(maxBytes, events[..i]), events[i])
  }

  /** The disk buffer is a FIFO queue: what was taken off it, then what is still on it, is what
      was put on it, in order; and its counters are exact. */
  predicate IsFifo(t: Trace) {
    && Valid(t.log)
    && Intact(t.log)
    && t.removed + Pending(t.log) == t.appended
  }

  // ---------- one step ----------

  lemma FreshIsFifo(maxBytes: int)
    ensures IsFifo(Fresh(maxBytes))
  {
    assert Names(Fresh(maxBytes).log) == [];
  }

  lemma WriteIsFifo(t: Trace, line: Line)
    requires IsFifo(t) && Clean(line)
    ensures IsFifo(Step(t, WriteLine(line)))
  {
    hide SegmentName, RangeNames, Scan, ReadNames, SizeOf;
    if Rejects(t.log, line) {
      assert t.appended + [] == t.appended;
    } else {
      WriteAppends(t.log, line);
      assert t.removed + (Pending(t.log) + [line]) == (t.removed + Pending(t.log)) + [line];
    }
  }

  lemma ReadIsFifo(t: Trace)
    requires IsFifo(t) && InRange(t.log)
    ensures IsFifo(Step(t, ReadAllLines))
    ensures Pending(Step(t, ReadAllLines).log) == []
    ensures Step(t, ReadAllLines).removed == t.removed + Pending(t.log)
  {
    hide SegmentName, Scan;
    DrainReturnsPending(t.log);
    assert (t.removed + Pending(t.log)) + [] == t.removed + Pending(t.log);
    var d := Drain(t.log);
    if t.log.files == map[] {
      assert Names(t.log) == [];
      ClosedReadsSame(t.log);
    } else {
      assert Readable(t.log);
      assert Names(d) == [];
    }
  }

  lemma CloseIsFifo(t: Trace)
    requires IsFifo(t)
    ensures IsFifo(Step(t, CloseBuffer))
  {
    hide SegmentName, Scan;
    ClosedReadsSame(t.log);
  }

  lemma RestartIsFifo(t: Trace, maxBytes: int)
    requires IsFifo(t) && InRange(t.log)
    ensures IsFifo(Step(t, Restart(maxBytes)))
  {
    hide SegmentName, Scan;
    ReopenSegments(t.log, maxBytes);
  }

  lemma FragmentIsPrefix(line: Line, k: nat)
    ensures |Fragment(line, k)| <= 1
    ensures forall l | l in Fragment(line, k) :: l <= line
  {
  }

  /** The directory a torn write leaves, once reopened. */
  lemma TornWriteReopens(s: Log, line: Line, n: nat, maxBytes: int)
    requires Shaped(s) && Intact(s) && Clean(line) && n <= |Framed(line)| && InRange(Prepared(s, line))
    ensures var r := Reopen(AppendLast(Prepared(s, line), Framed(line)[..n]).files, maxBytes);
            && Valid(r) && Intact(r) && r.current.None? && Pending(r) == Pending(s) + Fragment(line, n)
            && r.currentBytes == SizeOf(s.files, Names(s)) + n
  {
    hide SegmentName, RangeNames, Scan, ReadNames, SizeOf, Reopen;
    PreparedKeeps(s, line);
    var p := Prepared(s, line);
    AppendAdds(p, line, n);
    ReopenSegments(AppendLast(p, Framed(line)[..n]), maxBytes);
  }

  /** A crash in a write leaves at most one more line, a prefix of the one being written, and
      what is written later starts a new segment behind it. */
  lemma {:induction false} CrashInWriteIsFifo(t: Trace, line: Line, point: CrashPoint, maxBytes: int)
    requires IsFifo(t) && Clean(line) && StepInRange(t, CrashInWrite(line, point, maxBytes))
    ensures IsFifo(Step(t, CrashInWrite(line, point, maxBytes)))
    ensures Step(t, CrashInWrite(line, point, maxBytes)).log.current == None
    ensures Step(t, CrashInWrite(line, point, maxBytes)).log.currentBytes
            == t.log.currentBytes + if Rejects(t.log, line) || point.BeforeCreate? then 0 else Min(point.k, |line| + 1)
    ensures |TornLines(t.log, line, point)| <= 1
    ensures forall l | l in TornLines(t.log, line, point) :: l <= line
  {
    hide SegmentName, RangeNames, Scan, ReadNames, SizeOf, Prepared, AppendLast, Reopen, Fragment;
    var s := t.log;
    if Rejects(s, line) || point.BeforeCreate? {
      ReopenSegments(s, maxBytes);
      assert t.appended + [] == t.appended;
    } else {
      var n := CutAt(line, point.k);
      TornWriteReopens(s, line, n, maxBytes);
      FragmentIsPrefix(line, n);
      assert t.removed + (Pending(s) + Fragment(line, n)) == (t.removed + Pending(s)) + Fragment(line, n);
    }
  }

  lemma RangeSplit(lo: nat, mid: nat, hi: nat)
    requires lo <= mid <= hi
    ensures RangeNames(lo, hi) == RangeNames(lo, mid) + RangeNames(mid, hi)
    ensures RangeNames(lo, hi)[..mid - lo] == RangeNames(lo, mid)
  {
    hide SegmentName;
  }

  lemma RangeParts(lo: nat, mid: nat, hi: nat)
    requires lo <= mid <= hi
    ensures forall n | n in RangeNames(mid, hi) :: n in RangeNames(lo, hi) && n !in RangeNames(lo, mid)
    ensures forall n | n in RangeNames(lo, hi) :: n in RangeNames(lo, mid) || n in RangeNames(mid, hi)
  {
    hide SegmentName, RangeNames;
    RangeSplit(lo, mid, hi);
    forall n | n in RangeNames(mid, hi) ensures n in RangeNames(lo, hi) && n !in RangeNames(lo, mid) {
      var i :| 0 <= i < hi - mid && RangeNames(mid, hi)[i] == n;
      if n in RangeNames(lo, mid) {
        var j :| 0 <= j < mid - lo && RangeNames(lo, mid)[j] == n;
        NameInjective(mid + i, lo + j);
      }
    }
  }

  /** Deleting the first segments of a range leaves the lines of the others. */
  lemma DeletePrefix(files: Files, lo: nat, mid: nat, hi: nat)
    requires lo <= mid <= hi
    requires forall n :: n in files <==> n in RangeNames(lo, hi)
    ensures var rest := map n | n in files && n !in RangeNames(lo, mid) :: files[n];
            && (forall n :: n in rest <==> n in RangeNames(mid, hi))
            && (forall n | n in RangeNames(lo, mid) :: n in files)
            && (ReadableNames(files, RangeNames(lo, hi)) ==> ReadableNames(rest, RangeNames(mid, hi)))
            && ReadNames(files, RangeNames(lo, hi))
               == ReadNames(files, RangeNames(lo, mid)) + ReadNames(rest, RangeNames(mid, hi))
  {
    hide SegmentName, Scan, ReadNames, SizeOf;
    var rest := map n | n in files && n !in RangeNames(lo, mid) :: files[n];
    RangeSplit(lo, mid, hi);
    RangeParts(lo, mid, hi);
    ReadConcat(files, RangeNames(lo, mid), RangeNames(mid, hi));
    ReadFrame(files, rest, RangeNames(mid, hi));
  }

  lemma PartlyDeletedReopens(s: Log, k: nat, maxBytes: int)
    requires Shaped(s) && Intact(s) && InRange(s)
    ensures var r := Reopen(PartlyDeleted(s.files, k), maxBytes);
            && Valid(r) && Intact(r) && r.current.None?
            && Pending(s) == DeletedLines(s.files, k) + Pending(r)
            && |r.files| == Max(|s.files| - k, 0)
  {
    hide SegmentName, Scan, ReadNames, SizeOf, Reopen;
    var lo, hi := First(s), s.segmentCounter;
    var mid := if k <= hi - lo then lo + k else hi;
    FirstNamesAre(s, k);
    ListingInRange(s);
    DeletePrefix(s.files, lo, mid, hi);
    hide RangeNames, FirstNames, Listing;
    ReopenKeeps(PartlyDeleted(s.files, k), mid, hi, maxBytes);
    ReopenCounts(PartlyDeleted(s.files, k), mid, hi, maxBytes);
  }

  lemma FirstNamesAre(s: Log, k: nat)
    requires Shaped(s) && InRange(s)
    ensures var lo, hi := First(s), s.segmentCounter;
            FirstNames(s.files, k) == RangeNames(lo, if k <= hi - lo then lo + k else hi)
  {
    hide SegmentName, Scan, ReadNames, SizeOf;
    var lo, hi := First(s), s.segmentCounter;
    ListingInRange(s);
    RangeSplit(lo, if k <= hi - lo then lo + k else hi, hi);
    if k > hi - lo { assert RangeNames(lo, hi)[..hi - lo] == RangeNames(lo, hi); }
  }

  /** A crash while a drain deletes segments loses those already deleted and keeps the rest. */
  lemma {:induction false} CrashInReadIsFifo(t: Trace, k: nat, maxBytes: int)
    requires IsFifo(t) && InRange(t.log)
    ensures IsFifo(Step(t, CrashInRead(k, maxBytes)))
    ensures |Step(t, CrashInRead(k, maxBytes)).log.files| == Max(|t.log.files| - k, 0)
  {
    hide SegmentName, Scan, ReadNames, SizeOf, PartlyDeleted, DeletedLines, Reopen;
    PartlyDeletedReopens(t.log, k, maxBytes);
    var r := Reopen(PartlyDeleted(t.log.files, k), maxBytes);
    var gone := DeletedLines(t.log.files, k);
    assert (t.removed + gone) + Pending(r) == t.removed + (gone + Pending(r));
  }

  lemma StepIsFifo(t: Trace, e: Event)
    requires IsFifo(t) && e.HasCleanLine() && StepInRange(t, e)
    ensures IsFifo(Step(t, e))
  {
    hide SegmentName, RangeNames, Scan, ReadNames, SizeOf;
    match e
    case WriteLine(line) => WriteIsFifo(t, line);
    case ReadAllLines => ReadIsFifo(t);
    case CloseBuffer => CloseIsFifo(t);
    case Restart(maxBytes) => RestartIsFifo(t, maxBytes);
    case CrashInWrite(line, point, maxBytes) => CrashInWriteIsFifo(t, line, point, maxBytes);
    case CrashInRead(k, maxBytes) => CrashInReadIsFifo(t, k, maxBytes);
  }

  /** For every sequence of writes, drains, closes, restarts and crashes. */
  lemma {:induction false} RunIsFifo(maxBytes: int, events: seq<Event>)
    requires forall e | e in events :: e.HasCleanLine()
    requires RunInRange(maxBytes, events)
    ensures IsFifo(Run(maxBytes, events))
  {
    if events == [] {
      FreshIsFifo(maxBytes);
    } else {
      hide IsFifo, Step, StepInRange;
      var init := events[..|events| - 1];
      assert forall i | 0 <= i < |init| :: init[..i] == events[..i] && init[i] == events[i];
      RunIsFifo(maxBytes, init);
      StepIsFifo(Run(maxBytes, init), events[|events| - 1]);
    }
  }
}
