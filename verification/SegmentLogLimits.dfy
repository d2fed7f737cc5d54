/** The limits of the disk buffer: how many segments a byte cap allows, what a line too long to
    scan does to it, and when re-buffering a drained batch fits. */
module SegmentLogLimits {
  import opened Prelude
  import opened SegmentNames
  import opened LineFraming
  import opened SegmentLog
  import opened SegmentLogRuns

  // ---------- next-fit rotation ----------

  function SegmentSize(files: Files, n: nat): nat {
    if SegmentName(n) in files then |files[SegmentName(n)]| else 0
  }

  /** From segment g on, no two neighbours would have fitted in one segment. */
  predicate NextFitFrom(s: Log, g: nat) {
    forall n: nat {:trigger SegmentSize(s.files, n)} | g <= n && n + 1 < s.segmentCounter ::
      SegmentSize(s.files, n) + SegmentSize(s.files, n + 1) > MAX_SEGMENT_BYTES
  }

  lemma SizeSnoc(files: Files, lo: nat, hi: nat)
    requires lo < hi && forall n | n in RangeNames(lo, hi) :: n in files
    ensures forall n | n in RangeNames(lo, hi - 1) :: n in files
    ensures SizeOf(files, RangeNames(lo, hi)) == SizeOf(files, RangeNames(lo, hi - 1)) + SegmentSize(files, hi - 1)
  {
    hide SegmentName;
    RangeSnoc(lo, hi);
  }

  lemma {:induction false} PairsFillUp(files: Files, lo: nat, g: nat, hi: nat)
    requires lo <= g <= hi && forall n | n in RangeNames(lo, hi) :: n in files
    requires forall n: nat | g <= n && n + 1 < hi ::
               SegmentSize(files, n) + SegmentSize(files, n + 1) > MAX_SEGMENT_BYTES
    ensures SizeOf(files, RangeNames(lo, hi)) >= (hi - g) / 2 * (MAX_SEGMENT_BYTES + 1)
    decreases hi
  {
    hide SegmentName, RangeNames, SizeOf, SegmentSize;
    if hi >= g + 2 {
      SizeSnoc(files, lo, hi);
      SizeSnoc(files, lo, hi - 1);
      PairsFillUp(files, lo, g, hi - 2);
      assert SegmentSize(files, hi - 2) + SegmentSize(files, hi - 2 + 1) > MAX_SEGMENT_BYTES;
      assert (hi - g) / 2 == (hi - 2 - g) / 2 + 1;
    }
  }

  /** k segments written without a break hold more than floor(k/2) full segments of bytes. */
  lemma {:induction false} SegmentsBoundBytes(s: Log, g: nat)
    requires Valid(s) && NextFitFrom(s, g) && First(s) <= g <= s.segmentCounter
    ensures s.currentBytes >= (s.segmentCounter - g) / 2 * (MAX_SEGMENT_BYTES + 1)
  {
    hide SegmentName, RangeNames, SizeOf, SegmentSize;
    PairsFillUp(s.files, First(s), g, s.segmentCounter);
  }

  predicate OpensNew(s: Log, line: Line)
    requires HasCurrent(s)
  {
    s.current.None? || (s.currentBytes > 0 && NeedsRotation(s, |Framed(line)|))
  }

  /** The one file an accepted write changes. */
  lemma WriteTarget(s: Log, line: Line)
    requires Shaped(s) && !Rejects(s, line)
    ensures var r, c := Write(s, line), s.segmentCounter;
            && r.current.Some?
            && if OpensNew(s, line) then
                 r.segmentCounter == c + 1 && r.files == s.files[SegmentName(c) := Framed(line)]
               else
                 && c > 0 && r.segmentCounter == c && SegmentName(c - 1) in s.files
                 && r.files == s.files[SegmentName(c - 1) := s.files[SegmentName(c - 1)] + Framed(line)]
  {
    hide SegmentName, RangeNames, Framed;
    if OpensNew(s, line) { assert [] + Framed(line) == Framed(line); }
  }

  lemma SizeAfter(files: Files, c: nat, content: seq<byte>, n: nat)
    ensures SegmentSize(files[SegmentName(c) := content], n) == if n == c then |content| else SegmentSize(files, n)
  {
    if SegmentName(n) == SegmentName(c) { NameInjective(n, c); }
    hide SegmentName;
  }

  /** An accepted write grows one segment, the last, and no other. */
  lemma WriteSizes(s: Log, line: Line, n: nat)
    requires Shaped(s) && !Rejects(s, line)
    ensures var r, c := Write(s, line), s.segmentCounter;
            SegmentSize(r.files, n) == if OpensNew(s, line) && n == c then |Framed(line)|
                                       else if !OpensNew(s, line) && n + 1 == c then
                                         SegmentSize(s.files, n) + |Framed(line)|
                                       else SegmentSize(s.files, n)
  {
    hide SegmentName, RangeNames, Write, OpensNew, NeedsRotation, Framed;
    var c := s.segmentCounter;
    WriteTarget(s, line);
    if OpensNew(s, line) {
      SizeAfter(s.files, c, Framed(line), n);
    } else {
      SizeAfter(s.files, c - 1, s.files[SegmentName(c - 1)] + Framed(line), n);
    }
  }

  /** A segment is left open only while the next line fits, or all bytes are in it. */
  lemma LeavesFull(s: Log, line: Line)
    requires Shaped(s) && s.current.Some? && OpensNew(s, line)
    ensures SegmentSize(s.files, s.segmentCounter - 1) + |Framed(line)| > MAX_SEGMENT_BYTES
  {
    hide SegmentName, RangeNames, Framed;
  }

  lemma NeighboursStayApart(s: Log, line: Line, g: nat, n: nat)
    requires Shaped(s) && NextFitFrom(s, g) && !Rejects(s, line)
    requires s.current.Some? || s.segmentCounter <= g
    requires g <= n && n + 1 < Write(s, line).segmentCounter
    ensures SegmentSize(Write(s, line).files, n) + SegmentSize(Write(s, line).files, n + 1) > MAX_SEGMENT_BYTES
  {
    WriteTarget(s, line);
    WriteSizes(s, line, n);
    WriteSizes(s, line, n + 1);
    if n + 1 < s.segmentCounter {
      assert SegmentSize(s.files, n) + SegmentSize(s.files, n + 1) > MAX_SEGMENT_BYTES;
    } else {
      LeavesFull(s, line);
    }
    hide SegmentName, RangeNames, Write, OpensNew, NeedsRotation, Framed, SegmentSize, Shaped;
  }

  /** Rotation keeps neighbours apart as long as a segment is only left because it was full. */
  lemma {:induction false} WriteIsNextFit(s: Log, line: Line, g: nat)
    requires Shaped(s) && NextFitFrom(s, g)
    requires s.current.Some? || s.segmentCounter <= g
    ensures NextFitFrom(Write(s, line), g)
    ensures !Rejects(s, line) ==> Write(s, line).current.Some?
  {
    if !Rejects(s, line) {
      WriteTarget(s, line);
      hide SegmentName, RangeNames, Write, OpensNew, NeedsRotation, Framed, SegmentSize, Shaped;
      var r := Write(s, line);
      forall n: nat | g <= n && n + 1 < r.segmentCounter
        ensures SegmentSize(r.files, n) + SegmentSize(r.files, n + 1) > MAX_SEGMENT_BYTES
      {
        NeighboursStayApart(s, line, g, n);
      }
    }
  }

  /** A session on a directory that was empty, never closed, and within its cap if it has one. */
  predicate SteadySession(s: Log) {
    && Valid(s) && Intact(s)
    && First(s) == 0
    && (s.current.Some? || s.segmentCounter == 0)
    && NextFitFrom(s, 0)
    && (s.maxBytes > 0 ==> s.currentBytes <= s.maxBytes)
  }

  /** With at most this many bytes a steady session has six-digit segment numbers. */
  const SAFE_BYTES := 500_000 * MAX_SEGMENT_BYTES

  lemma SteadyInRange(s: Log)
    requires SteadySession(s) && s.currentBytes <= SAFE_BYTES
    ensures s.segmentCounter <= 999_999
  {
    hide SegmentName, RangeNames, SizeOf, SegmentSize, Intact, NextFitFrom;
    SegmentsBoundBytes(s, 0);
    if s.segmentCounter / 2 >= 500_000 {
      MulMonotone(500_000, s.segmentCounter / 2, MAX_SEGMENT_BYTES + 1);
    }
  }

  lemma SteadyWrite(s: Log, line: Line)
    requires SteadySession(s) && Clean(line)
    ensures SteadySession(Write(s, line))
    ensures Write(s, line).maxBytes == s.maxBytes
    ensures Write(s, line).currentBytes <= s.currentBytes + |Framed(line)|
  {
    hide SegmentName, RangeNames, Scan, ReadNames, SizeOf, NextFitFrom, Framed;
    WriteIsNextFit(s, line, 0);
    if !Rejects(s, line) { WriteAppends(s, line); }
  }

  lemma SteadyDrain(s: Log)
    requires SteadySession(s)
    ensures SteadySession(Drain(s))
    ensures Drain(s).maxBytes == s.maxBytes && Drain(s).currentBytes <= s.currentBytes
  {
    hide SegmentName, RangeNames, Scan, ReadNames, SizeOf;
    ReadableIsIntact(s);
    EmptyDrain(s);
  }

  /** A readable buffer is empty after a drain. */
  lemma EmptyDrain(s: Log)
    requires Valid(s) && Readable(s)
    ensures var d := Drain(s);
            && Valid(d) && Intact(d) && d.files == map[] && Pending(d) == [] && d.currentBytes == 0 && d.current.None?
            && d.segmentCounter == (if s.files == map[] then s.segmentCounter else 0)
            && d.maxBytes == s.maxBytes && First(d) == d.segmentCounter
  {
    hide SegmentName, Scan;
    if s.files == map[] {
      assert Names(s) == [];
      ClosedReadsSame(s);
    } else {
      assert Names(Drain(s)) == [];
    }
  }

  /** The lines a session writes. */
  function Written(events: seq<Event>): seq<Line> {
    if events == [] then []
    else
      var last := events[|events| - 1];
      Written(events[..|events| - 1]) + if last.WriteLine? then [last.line] else []
  }

  /** What the buffer holds is never more than all that was written. */
  predicate Bounded(maxBytes: int, lines: seq<Line>) { 0 < maxBytes <= SAFE_BYTES || |Encode(lines)| <= SAFE_BYTES }

  lemma SteadyStep(t: Trace, e: Event)
    requires IsFifo(t) && SteadySession(t.log) && t.log.currentBytes <= SAFE_BYTES
    requires e.HasCleanLine() && e.Steady()
    ensures IsFifo(Step(t, e)) && SteadySession(Step(t, e).log)
    ensures Step(t, e).log.maxBytes == t.log.maxBytes
    ensures Step(t, e).log.currentBytes <= t.log.currentBytes + if e.WriteLine? then |Framed(e.line)| else 0
  {
    SteadyInRange(t.log);
    StepIsFifo(t, e);
    hide SteadySession, IsFifo, Write, Drain;
    if e.WriteLine? { SteadyWrite(t.log, e.line); } else { SteadyDrain(t.log); }
  }

  /** A session of any writes and drains on a directory that was empty never leaves the six-digit
      names, so its reads are FIFO, when its cap, or else all it writes, is at most 500000
      segments' bytes. */
  lemma {:induction false} SteadySessionIsFifo(maxBytes: int, events: seq<Event>)
    requires Bounded(maxBytes, Written(events))
    requires forall e | e in events :: e.HasCleanLine() && e.Steady()
    ensures IsFifo(Run(maxBytes, events)) && SteadySession(Run(maxBytes, events).log)
    ensures Run(maxBytes, events).log.maxBytes == maxBytes
    ensures Run(maxBytes, events).log.currentBytes <= |Encode(Written(events))|
    ensures Run(maxBytes, events).log.segmentCounter <= 999_999
  {
    if events == [] {
      FreshIsFifo(maxBytes);
      assert Names(Fresh(maxBytes).log) == [];
    } else {
      hide IsFifo, SteadySession, Step, Event.HasCleanLine, Event.Steady, Encode, Framed;
      var init, e := events[..|events| - 1], events[|events| - 1];
      WrittenGrows(events);
      SteadySessionIsFifo(maxBytes, init);
      var t := Run(maxBytes, init);
      SessionStaysSafe(t.log, Written(init));
      SteadyStep(t, e);
    }
    SessionStaysSafe(Run(maxBytes, events).log, Written(events));
    SteadyInRange(Run(maxBytes, events).log);
  }

  lemma SessionStaysSafe(s: Log, lines: seq<Line>)
    requires SteadySession(s) && Bounded(s.maxBytes, lines) && s.currentBytes <= |Encode(lines)|
    ensures s.currentBytes <= SAFE_BYTES
  {
    hide Intact, NextFitFrom, Encode;
  }

  lemma WrittenGrows(events: seq<Event>)
    requires events != []
    ensures var e := events[|events| - 1];
            |Encode(Written(events))|
            == |Encode(Written(events[..|events| - 1]))| + if e.WriteLine? then |Framed(e.line)| else 0
  {
    hide Framed;
    var e := events[|events| - 1];
    var init := Written(events[..|events| - 1]);
    if e.WriteLine? {
      EncodeConcat(init, [e.line]);
      assert [e.line] == [e.line] + [];
      EncodeFirst(e.line, []);
    } else {
      assert init + [] == init;
    }
  }

  // ---------- a line that cannot be scanned ----------

  /** An accepted line keeps the buffer readable exactly when it fits the scanner. */
  lemma {:induction false} WriteKeepsIntactExactly(s: Log, line: Line)
    requires Valid(s) && Intact(s) && !Rejects(s, line) && NEWLINE !in line
    ensures Shaped(Write(s, line))
    ensures Intact(Write(s, line)) <==> |line| <= MAX_LINE
  {
    hide SegmentName, RangeNames, Scan, ReadNames, SizeOf;
    WriteShape(s, line);
    if |line| <= MAX_LINE {
      WriteAppends(s, line);
    } else {
      PreparedKeeps(s, line);
      var p := Prepared(s, line);
      ScanFramed(line);
      ScanConcat(p.files[p.current.value], Framed(line));
      var name := p.current.value;
      assert name in Names(Write(s, line));
    }
  }

  lemma ReadableIsIntact(s: Log)
    requires Shaped(s)
    ensures Readable(s) <==> Intact(s)
  {
    hide SegmentName, RangeNames, Scan;
  }

  lemma WriteKeepsUnreadable(s: Log, line: Line)
    requires Shaped(s) && !Intact(s)
    ensures Shaped(Write(s, line)) && !Intact(Write(s, line))
  {
    hide SegmentName, RangeNames, Scan, ReadNames, SizeOf;
    if !Rejects(s, line) {
      PreparedKeeps(s, line);
      WriteShape(s, line);
      var p, r := Prepared(s, line), Write(s, line);
      var bad :| bad in Names(p) && !Scan(p.files[bad]).ok;
      ScanConcat(p.files[p.current.value], Framed(line));
      assert bad in r.files;
    }
  }

  /** Reopening what a crash left of an unreadable directory. */
  lemma TornStaysUnreadable(s: Log, line: Line, point: CrashPoint, maxBytes: int)
    requires Shaped(s) && !Intact(s) && InRange(s) && InRange(Prepared(s, line))
    ensures var r := Reopen(TornFiles(s, line, point), maxBytes); Shaped(r) && !Intact(r)
  {
    hide SegmentName, RangeNames, Scan, ReadNames, SizeOf, Reopen, Prepared;
    if Rejects(s, line) || point.BeforeCreate? {
      ReopenSegments(s, maxBytes);
    } else {
      PreparedKeeps(s, line);
      var p, data := Prepared(s, line), Framed(line)[..CutAt(line, point.k)];
      AppendShape(p, data);
      AppendStaysUnreadable(p, data);
      ReopenSegments(AppendLast(p, data), maxBytes);
    }
  }

  lemma AppendStaysUnreadable(p: Log, data: seq<byte>)
    requires Shaped(p) && !Intact(p) && p.current.Some? && Shaped(AppendLast(p, data))
    ensures !Intact(AppendLast(p, data))
  {
    hide SegmentName, RangeNames, Scan, ReadNames, SizeOf;
    var r := AppendLast(p, data);
    var bad :| bad in Names(p) && !Scan(p.files[bad]).ok;
    ScanConcat(p.files[p.current.value], data);
    assert bad in r.files;
  }

  /** What a step needs to leave an unreadable buffer unreadable: nothing, or six-digit segment
      numbers when a process ends in it. */
  predicate StaysListed(t: Trace, e: Event)
    requires HasCurrent(t.log)
  {
    e.Steady() || e.CloseBuffer? || StepInRange(t, e)
  }

  lemma UnreadableStep(t: Trace, e: Event)
    requires Shaped(t.log) && !Intact(t.log) && StaysListed(t, e)
    ensures var r := Step(t, e); Shaped(r.log) && !Intact(r.log) && r.removed == t.removed
  {
    hide SegmentName, RangeNames, Scan, ReadNames, SizeOf, Reopen, TornFiles, Write;
    ReadableIsIntact(t.log);
    match e
    case WriteLine(line) => WriteKeepsUnreadable(t.log, line);
    case ReadAllLines => ClosedReadsSame(t.log);
    case CloseBuffer => ClosedReadsSame(t.log);
    case Restart(maxBytes) => ReopenSegments(t.log, maxBytes);
    case CrashInWrite(line, point, maxBytes) => TornStaysUnreadable(t.log, line, point, maxBytes);
    case CrashInRead(_, maxBytes) => ReopenSegments(t.log, maxBytes);
  }

  ghost predicate RunStaysListed(t: Trace, events: seq<Event>)
    requires HasCurrent(t.log)
  {
    forall i | 0 <= i < |events| :: StaysListed(RunFrom(t, events[..i]), events[i])
  }

  lemma ListedSnoc(t: Trace, events: seq<Event>)
    requires HasCurrent(t.log) && events != [] && RunStaysListed(t, events)
    ensures var n := |events| - 1;
            RunStaysListed(t, events[..n]) && StaysListed(RunFrom(t, events[..n]), events[n])
  {
    hide StaysListed, RunFrom;
    var n := |events| - 1;
    assert forall i | 0 <= i < n :: events[..n][..i] == events[..i] && events[..n][i] == events[i];
  }

  /** After that nothing is ever read again: whatever is written, drained or closed, and over any
      restarts and crashes while segment numbers have six digits, every drain fails and takes
      nothing. */
  lemma {:induction false} UnreadableForever(t: Trace, events: seq<Event>)
    requires Shaped(t.log) && !Intact(t.log) && RunStaysListed(t, events)
    ensures var r := RunFrom(t, events);
            Shaped(r.log) && !Intact(r.log) && r.removed == t.removed && DrainResult(r.log) == None
  {
    assert HasCurrent(t.log);
    hide Intact, Step, StaysListed, SegmentName, RangeNames, Scan, ReadNames, SizeOf, Shaped, Readable;
    if events != [] {
      var n := |events| - 1;
      ListedSnoc(t, events);
      UnreadableForever(t, events[..n]);
      UnreadableStep(RunFrom(t, events[..n]), events[n]);
    }
    hide RunFrom;
    ReadableIsIntact(RunFrom(t, events).log);
  }

  // ---------- re-buffering a drained batch ----------

  /** Every segment is a list of terminated lines, as in any session that did not start on a torn
      one. */
  predicate AllTerminated(files: Files) {
    forall n | n in files :: Terminated(files[n])
  }

  predicate AllNoCRLF(files: Files) {
    forall n | n in files :: NoCRLF(files[n])
  }

  lemma {:induction false} ReencodeNames(files: Files, names: seq<string>)
    requires forall n | n in names :: n in files && Terminated(files[n])
    requires ReadableNames(files, names)
    ensures |Encode(ReadNames(files, names))| <= SizeOf(files, names)
    ensures |Encode(ReadNames(files, names))| == SizeOf(files, names) <==> forall n | n in names :: NoCRLF(files[n])
  {
    hide Scan, Encode, NoCRLF;
    if names == [] {
      NothingToEncode();
    } else {
      var init, last := names[..|names| - 1], names[|names| - 1];
      ReencodeNames(files, init);
      ReencodeExactly(files[last]);
      EncodeConcat(ReadNames(files, init), Scan(files[last]).lines);
      assert names == init + [last];
      assert forall n | n in names :: n in init || n == last;
    }
  }

  /** What a drain returned always fits again: its lines take no more bytes than they did, and just
      as many if and only if none of them was written with a carriage return at its end. */
  lemma DrainedFitsAgain(s: Log)
    requires Valid(s) && Intact(s) && AllTerminated(s.files)
    ensures |Encode(Pending(s))| <= s.currentBytes
    ensures |Encode(Pending(s))| == s.currentBytes <==> AllNoCRLF(s.files)
  {
    hide SegmentName, RangeNames, Scan, Encode, NoCRLF;
    ReencodeNames(s.files, Names(s));
  }

  lemma WriteKeepsExact(s: Log, line: Line)
    requires HasCurrent(s) && AllTerminated(s.files) && AllNoCRLF(s.files) && Clean(line)
    ensures AllTerminated(Write(s, line).files) && AllNoCRLF(Write(s, line).files)
  {
    hide SegmentName, NoCRLF, Terminated, Framed, Clean;
    EmptyIsExact();
    if !Rejects(s, line) {
      var p := Prepared(s, line);
      FramedHasNoCRLF(p.files[p.current.value], line);
    }
  }

  lemma EmptyIsExact()
    ensures Terminated([]) && NoCRLF([])
  {
  }
}
