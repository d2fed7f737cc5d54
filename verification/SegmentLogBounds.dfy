/** How big segments get: a write goes to the open segment exactly when it fits there. */
module SegmentLogBounds {
  import opened Prelude
  import opened SegmentNames
  import opened LineFraming
  import opened SegmentLog
  import opened SegmentLogRuns

  /** All of it came from one write: no newline but at the end. */
  predicate OneWrite(b: seq<byte>) { forall k | 0 <= k < |b| - 1 :: b[k] != NEWLINE }

  /** Within the size of a segment, or a single line longer than that. */
  predicate SegmentFits(b: seq<byte>) { |b| <= 10_485_760 || OneWrite(b) }

  /** Every segment fits, is counted, and has something in it when it is open. */
  predicate Fitting(s: Log) {
    && HasCurrent(s)
    && (forall n | n in s.files :: SegmentFits(s.files[n]) && |s.files[n]| <= s.currentBytes)
    && (s.current.Some? ==> s.files[s.current.value] != [])
    && s.currentBytes >= 0
  }

  /** The lines a step writes have no newline in them. */
  predicate OneLine(e: Event) {
    (e.WriteLine? ==> NEWLINE !in e.line) && (e.CrashInWrite? ==> NEWLINE !in e.line)
  }

  lemma FramedIsOneWrite(line: Line, k: nat)
    requires NEWLINE !in line && k <= |Framed(line)|
    ensures OneWrite(Framed(line)[..k])
  {
    forall j | 0 <= j < k - 1 ensures Framed(line)[..k][j] != NEWLINE {
      assert Framed(line)[..k][j] == line[j];
    }
  }

  /** What some bytes of a line added to the segment it goes to come to. */
  lemma AppendFits(s: Log, line: Line, k: nat)
    requires Fitting(s) && NEWLINE !in line && k <= |Framed(line)|
    ensures var p := Prepared(s, line);
            var b := p.files[p.current.value] + Framed(line)[..k];
            SegmentFits(b) && |b| <= s.currentBytes + k
  {
    hide SegmentName;
    var p := Prepared(s, line);
    FramedIsOneWrite(line, k);
    if p.files[p.current.value] == [] {
      assert p.files[p.current.value] + Framed(line)[..k] == Framed(line)[..k];
    }
  }

  lemma PreparedFits(s: Log, line: Line)
    requires Fitting(s)
    ensures var p := Prepared(s, line);
            forall n | n in p.files :: SegmentFits(p.files[n]) && |p.files[n]| <= s.currentBytes
  {
    hide SegmentName;
    assert SegmentFits([]);
  }

  lemma WriteFits(s: Log, line: Line)
    requires Fitting(s) && NEWLINE !in line
    ensures Fitting(Write(s, line))
  {
    if !Rejects(s, line) {
      var n := |Framed(line)|;
      AppendFits(s, line, n);
      PreparedFits(s, line);
      assert Framed(line)[..n] == Framed(line);
      var p, r := Prepared(s, line), Write(s, line);
      hide Prepared, SegmentFits, Framed;
      assert r.files == p.files[p.current.value := p.files[p.current.value] + Framed(line)];
    }
  }

  /** The true size of all segments is at least that of each. */
  lemma {:induction false} SizeOfEach(files: Files, names: seq<string>, n: string)
    requires (forall m | m in names :: m in files) && n in names
    ensures |files[n]| <= SizeOf(files, names)
  {
    var last := names[|names| - 1];
    if n != last {
      var k :| 0 <= k < |names| && names[k] == n;
      assert names[..|names| - 1][k] == n;
      SizeOfEach(files, names[..|names| - 1], n);
    }
  }

  lemma ReopenFits(files: Files, maxBytes: int)
    requires forall n | n in files :: SegmentFits(files[n])
    ensures Fitting(Reopen(files, maxBytes))
  {
    hide SegmentFits, SizeOf, ReadNames, RestoredCounter, Listing;
    forall n | n in files ensures |files[n]| <= SizeOf(files, Listing(files.Keys)) {
      SizeOfEach(files, Listing(files.Keys), n);
    }
  }

  lemma TornFits(s: Log, line: Line, point: CrashPoint)
    requires Fitting(s) && NEWLINE !in line
    ensures forall n | n in TornFiles(s, line, point) :: SegmentFits(TornFiles(s, line, point)[n])
  {
    if !Rejects(s, line) && point.AfterBytes? {
      AppendFits(s, line, CutAt(line, point.k));
      PreparedFits(s, line);
      hide Prepared, SegmentFits, Framed;
    }
  }

  lemma StepFits(t: Trace, e: Event)
    requires Fitting(t.log) && OneLine(e)
    ensures Fitting(Step(t, e).log)
  {
    hide SegmentFits, Write, Reopen, TornFiles, ReadNames, SizeOf, Listing;
    match e
    case WriteLine(line) => WriteFits(t.log, line);
    case ReadAllLines =>
    case CloseBuffer =>
    case Restart(maxBytes) => ReopenFits(t.log.files, maxBytes);
    case CrashInWrite(line, point, maxBytes) =>
      TornFits(t.log, line, point);
      ReopenFits(TornFiles(t.log, line, point), maxBytes);
    case CrashInRead(k, maxBytes) =>
      ReopenFits(PartlyDeleted(t.log.files, k), maxBytes);
  }

  /** In every run, with restarts and crashes anywhere and whatever the segment numbers, each segment
      has at most 10485760 bytes or holds a single write, and an accepted line starts a new segment
      exactly when none is open or it would take the open one past 10485760 bytes. */
  lemma {:induction false} SegmentsAreBounded(maxBytes: int, events: seq<Event>, line: Line)
    requires forall k | 0 <= k < |events| :: OneLine(events[k])
    requires NEWLINE !in line
    ensures var s := Run(maxBytes, events).log;
            && (forall n | n in s.files :: |s.files[n]| <= 10_485_760 || OneWrite(s.files[n]))
            && (!Rejects(s, line) ==>
                  (Write(s, line).segmentCounter == s.segmentCounter + 1
                   <==> s.current.None? || |s.files[s.current.value]| + |line| + 1 > 10_485_760)
                  && (Write(s, line).segmentCounter == s.segmentCounter ==>
                        var r := Write(s, line);
                        r.current == s.current && r.current.Some? && |r.files[r.current.value]| <= 10_485_760))
  {
    RunFits(maxBytes, events);
    var s := Run(maxBytes, events).log;
    if !Rejects(s, line) { WriteRotates(s, line); }
  }

  lemma WriteRotates(s: Log, line: Line)
    requires Fitting(s) && !Rejects(s, line)
    ensures var r := Write(s, line);
            && (r.segmentCounter == s.segmentCounter + 1
                <==> s.current.None? || |s.files[s.current.value]| + |line| + 1 > 10_485_760)
            && (r.segmentCounter == s.segmentCounter ==>
                  r.current == s.current && r.current.Some? && |r.files[r.current.value]| <= 10_485_760)
  {
    hide SegmentName, SegmentFits;
  }

  lemma {:induction false} RunFits(maxBytes: int, events: seq<Event>)
    requires forall k | 0 <= k < |events| :: OneLine(events[k])
    ensures Fitting(Run(maxBytes, events).log)
  {
    if events != [] {
      hide Fitting, Step, OneLine;
      var n := |events| - 1;
      assert forall k | 0 <= k < n :: events[..n][k] == events[k];
      RunFits(maxBytes, events[..n]);
      StepFits(Run(maxBytes, events[..n]), events[n]);
    }
  }
}
