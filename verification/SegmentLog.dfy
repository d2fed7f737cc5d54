/** The disk buffer as a value: a directory of segments plus the fields kept in memory.
    The class in DiskBuffer is proved to compute these functions. */
module SegmentLog {
  import opened Prelude
  import opened SegmentNames
  import opened LineFraming

  const MAX_SEGMENT_BYTES := 10 * 1024 * 1024

  /** A directory: what survives the process. */
  type Files = map<string, seq<byte>>

  datatype Log = Log(
    files: Files,
    current: Option<string>,
    currentBytes: int,
    segmentCounter: nat,
    lineCount: int,
    maxBytes: int
  )

  // ---------- reading a list of segments ----------

  function ReadNames(files: Files, names: seq<string>): seq<Line>
    requires forall n | n in names :: n in files
  {
    if names == [] then []
    else ReadNames(files, names[..|names| - 1]) + Scan(files[names[|names| - 1]]).lines
  }

  predicate ReadableNames(files: Files, names: seq<string>)
    requires forall n | n in names :: n in files
  {
    forall n | n in names :: Scan(files[n]).ok
  }

  function SizeOf(files: Files, names: seq<string>): nat
    requires forall n | n in names :: n in files
  {
    if names == [] then 0
    else SizeOf(files, names[..|names| - 1]) + |files[names[|names| - 1]]|
  }

  lemma {:induction false} ReadFrame(f: Files, g: Files, names: seq<string>)
    requires forall n | n in names :: n in f && n in g && f[n] == g[n]
    ensures ReadNames(f, names) == ReadNames(g, names)
    ensures SizeOf(f, names) == SizeOf(g, names)
    ensures ReadableNames(f, names) == ReadableNames(g, names)
  {
    if names != [] {
      ReadFrame(f, g, names[..|names| - 1]);
    }
  }

  lemma {:induction false} ReadConcat(files: Files, a: seq<string>, b: seq<string>)
    requires (forall n | n in a :: n in files) && (forall n | n in b :: n in files)
    ensures forall n | n in a + b :: n in files
    ensures ReadNames(files, a + b) == ReadNames(files, a) + ReadNames(files, b)
  {
    hide Scan;
    MembersOfConcat(a, b);
    if b == [] {
      assert a + b == a;
    } else {
      var b', last := b[..|b| - 1], b[|b| - 1];
      ReadConcat(files, a, b');
      assert (a + b)[..|a + b| - 1] == a + b';
      var x, y, z := ReadNames(files, a), ReadNames(files, b'), Scan(files[last]).lines;
      assert x + (y + z) == (x + y) + z;
    }
  }

  lemma MembersOfConcat(a: seq<string>, b: seq<string>)
    ensures forall n | n in a + b :: n in a || n in b
  {
  }

  // ---------- the operations ----------

  predicate HasCurrent(s: Log) { s.current.Some? ==> s.current.value in s.files }

  predicate Rejects(s: Log, line: Line) {
    s.maxBytes > 0 && s.currentBytes + |Framed(line)| > s.maxBytes
  }

  predicate NeedsRotation(s: Log, n: nat)
    requires HasCurrent(s)
  {
    s.current.None? || |s.files[s.current.value]| + n > MAX_SEGMENT_BYTES
  }

  /** Creating a segment truncates whatever had its name. */
  function OpenSegment(s: Log): Log {
    var name := SegmentName(s.segmentCounter);
    s.(files := s.files[name := []], current := Some(name), segmentCounter := s.segmentCounter + 1)
  }

  function Prepared(s: Log, line: Line): (r: Log)
    requires HasCurrent(s)
    ensures HasCurrent(r) && r.current.Some?
  {
    if s.current.None? || (s.currentBytes > 0 && NeedsRotation(s, |Framed(line)|)) then OpenSegment(s) else s
  }

  function AppendBytes(s: Log, data: seq<byte>): Log
    requires HasCurrent(s) && s.current.Some?
  {
    s.(files := s.files[s.current.value := s.files[s.current.value] + data])
  }

  /** An append to the open segment after which it is closed. */
  function AppendLast(s: Log, data: seq<byte>): Log
    requires HasCurrent(s) && s.current.Some?
  {
    Close(AppendBytes(s, data))
  }

  function Write(s: Log, line: Line): (r: Log)
    requires HasCurrent(s)
    ensures HasCurrent(r)
  {
    if Rejects(s, line) then s
    else
      AppendBytes(Prepared(s, line), Framed(line))
        .(currentBytes := s.currentBytes + |Framed(line)|, lineCount := s.lineCount + 1)
  }

  function Close(s: Log): Log { s.(current := None) }

  ghost predicate Readable(s: Log) { ReadableNames(s.files, Listing(s.files.Keys)) }

  /** A drain either fails and only closes the segment, or empties the directory. */
  ghost function Drain(s: Log): Log {
    if s.files == map[] || !Readable(s) then Close(s)
    else Log(map[], None, 0, 0, 0, s.maxBytes)
  }

  ghost function DrainResult(s: Log): Option<seq<Line>> {
    if Readable(s) then Some(ReadNames(s.files, Listing(s.files.Keys))) else None
  }

  /** The counter a restarted process derives from the last name of the listing. */
  ghost function RestoredCounter(files: Files): nat {
    var names := Listing(files.Keys);
    if names == [] then 0
    else match ParseName(names[|names| - 1])
      case Some(n) => n + 1
      case None => |names|
  }

  ghost function Reopen(files: Files, maxBytes: int): Log {
    var names := Listing(files.Keys);
    Log(files, None, SizeOf(files, names), RestoredCounter(files), |ReadNames(files, names)|, maxBytes)
  }

  // ---------- the invariant ----------

  /** The lowest live segment number: the live ones are consecutive up to the counter. */
  function First(s: Log): nat {
    if |s.files| <= s.segmentCounter then s.segmentCounter - |s.files| else 0
  }

  function Names(s: Log): seq<string>
    requires |s.files| <= s.segmentCounter
  {
    RangeNames(First(s), s.segmentCounter)
  }

  /** The live segments are exactly First(s), ..., segmentCounter - 1; the open one is the last
      and can be appended to; so the next name is always a fresh one. */
  predicate Shaped(s: Log) {
    && |s.files| <= s.segmentCounter
    && (forall n | n in Names(s) :: n in s.files)
    && (forall n | n in s.files :: n in Names(s))
    && (s.current.Some? ==>
          && s.files != map[]
          && s.current.value == SegmentName(s.segmentCounter - 1)
          && s.current.value in s.files
          && Terminated(s.files[s.current.value]))
  }

  /** The buffered lines in the order they were written. */
  function Pending(s: Log): seq<Line>
    requires Shaped(s)
  {
    ReadNames(s.files, Names(s))
  }

  /** Every stored line can be read back. */
  predicate Intact(s: Log)
    requires Shaped(s)
  {
    ReadableNames(s.files, Names(s))
  }

  predicate Valid(s: Log) {
    && Shaped(s)
    && s.currentBytes == SizeOf(s.files, Names(s))
    && (Intact(s) ==> s.lineCount == |Pending(s)|)
  }

  /** Segment numbers still print with six digits. */
  predicate InRange(s: Log) { s.segmentCounter <= 1_000_000 }

  lemma {:induction false} RangeCard(names: set<string>, lo: nat, hi: nat)
    requires lo <= hi
    requires forall n :: n in names <==> n in RangeNames(lo, hi)
    ensures |names| == hi - lo
  {
    if lo == hi {
      assert names == {};
    } else {
      var last := SegmentName(hi - 1);
      assert RangeNames(lo, hi)[hi - 1 - lo] == last;
      forall n ensures n in names - {last} <==> n in RangeNames(lo, hi - 1) {
        RangeSnoc(lo, hi);
        LastNameFresh(lo, hi - 1);
      }
      RangeCard(names - {last}, lo, hi - 1);
    }
  }

  lemma RangeSnoc(lo: nat, hi: nat)
    requires lo < hi
    ensures RangeNames(lo, hi) == RangeNames(lo, hi - 1) + [SegmentName(hi - 1)]
    ensures RangeNames(lo, hi)[..hi - lo - 1] == RangeNames(lo, hi - 1)
    ensures SegmentName(hi - 1) in RangeNames(lo, hi)
    ensures forall n | n in RangeNames(lo, hi - 1) :: n in RangeNames(lo, hi)
  {
    hide SegmentName;
    assert RangeNames(lo, hi)[hi - lo - 1] == SegmentName(hi - 1);
  }

  lemma LastNameFresh(lo: nat, hi: nat)
    requires lo <= hi
    ensures SegmentName(hi) !in RangeNames(lo, hi)
  {
    if SegmentName(hi) in RangeNames(lo, hi) {
      var i :| 0 <= i < hi - lo && RangeNames(lo, hi)[i] == SegmentName(hi);
      NameInjective(lo + i, hi);
    }
  }

  /** Creating the next segment never truncates a live one. */
  lemma NextSegmentIsFresh(s: Log)
    requires Shaped(s)
    ensures SegmentName(s.segmentCounter) !in s.files
  {
    LastNameFresh(First(s), s.segmentCounter);
  }

  /** The sorted listing is in creation order exactly when the live names have one width. */
  lemma ListingOrderExactly(s: Log)
    requires Shaped(s)
    ensures Listing(s.files.Keys) == Names(s)
            <==> s.files == map[] || Width(First(s)) == Width(s.segmentCounter - 1)
  {
    if s.files == map[] {
      assert s.files.Keys == {};
      NothingListed();
    } else {
      RangeSortedExactly(First(s), s.segmentCounter);
      if Sorted(Names(s)) {
        SortedUnique(Listing(s.files.Keys), Names(s));
      }
    }
  }

  lemma ListingInRange(s: Log)
    requires Shaped(s) && InRange(s)
    ensures Listing(s.files.Keys) == Names(s)
  {
    ListingOrderExactly(s);
  }

  // ---------- writing ----------

  /** What replacing or creating the last segment of a range does to what is read. */
  lemma UpdateLast(files: Files, lo: nat, hi: nat, content: seq<byte>)
    requires lo < hi
    requires forall n | n in RangeNames(lo, hi - 1) :: n in files
    ensures var g := files[SegmentName(hi - 1) := content];
            && (forall n | n in RangeNames(lo, hi) :: n in g)
            && ReadNames(g, RangeNames(lo, hi)) == ReadNames(files, RangeNames(lo, hi - 1)) + Scan(content).lines
            && SizeOf(g, RangeNames(lo, hi)) == SizeOf(files, RangeNames(lo, hi - 1)) + |content|
            && (ReadableNames(g, RangeNames(lo, hi))
               <==> ReadableNames(files, RangeNames(lo, hi - 1)) && Scan(content).ok)
  {
    hide SegmentName, Scan, RangeNames;
    var last := SegmentName(hi - 1);
    var g := files[last := content];
    RangeSnoc(lo, hi);
    LastNameFresh(lo, hi - 1);
    ReadFrame(files, g, RangeNames(lo, hi - 1));
  }

  lemma OpenSegmentFirst(s: Log)
    requires Shaped(s)
    ensures var r := OpenSegment(s);
            |r.files| <= r.segmentCounter && First(r) == First(s)
                && Names(r) == Names(s) + [SegmentName(s.segmentCounter)]
  {
    hide SegmentName;
    NextSegmentIsFresh(s);
    var r := OpenSegment(s);
    assert |r.files| == |s.files| + 1;
    RangeSnoc(First(s), r.segmentCounter);
  }

  lemma OpenSegmentShape(s: Log)
    requires Shaped(s)
    ensures Shaped(OpenSegment(s))
  {
    var r, last := OpenSegment(s), SegmentName(s.segmentCounter);
    OpenSegmentFirst(s);
    assert (Names(s) + [last])[|Names(s)|] == last;
    forall n | n in r.files ensures n in Names(s) + [last] {
      if n != last { assert n in Names(s); }
    }
  }

  /** A new segment adds nothing to what is read. */
  lemma OpenSegmentKeeps(s: Log)
    requires Shaped(s)
    ensures var r := OpenSegment(s);
            && Shaped(r) && First(r) == First(s)
            && Pending(r) == Pending(s) && (Intact(r) <==> Intact(s))
            && SizeOf(r.files, Names(r)) == SizeOf(s.files, Names(s))
  {
    hide SegmentName, RangeNames, ReadNames, SizeOf;
    OpenSegmentFirst(s);
    OpenSegmentShape(s);
    UpdateLast(s.files, First(s), s.segmentCounter + 1, []);
  }

  lemma PreparedKeeps(s: Log, line: Line)
    requires Shaped(s)
    ensures var r := Prepared(s, line);
            && Shaped(r) && r.current.Some? && First(r) == First(s)
            && Pending(r) == Pending(s) && (Intact(r) <==> Intact(s))
            && SizeOf(r.files, Names(r)) == SizeOf(s.files, Names(s))
  {
    OpenSegmentKeeps(s);
  }

  /** The part of a line that a write cut after k bytes leaves readable: nothing, or one prefix. */
  function Fragment(line: Line, k: nat): seq<Line> {
    if k == 0 then [] else [DropCR(line[..if k <= |line| then k else |line|])]
  }

  lemma AppendScan(b: seq<byte>, line: Line, k: nat)
    requires Terminated(b) && NEWLINE !in line && |line| <= MAX_LINE && k <= |Framed(line)|
    ensures Scan(b + Framed(line)[..k]) == Scan(b).Then(ScanResult(Fragment(line, k), true))
  {
    if k <= |line| {
      assert Framed(line)[..k] == line[..k];
      ScanTorn(line[..k]);
    } else {
      assert Framed(line)[..k] == Framed(line) && line[..|line|] == line;
      ScanFramed(line);
    }
    ScanConcat(b, Framed(line)[..k]);
  }

  lemma AppendShape(s: Log, data: seq<byte>)
    requires Shaped(s) && s.current.Some?
    ensures var r := AppendBytes(s, data);
            && |r.files| == |s.files|
            && Shaped(Close(r)) && Names(Close(r)) == Names(s)
            && (Terminated(s.files[s.current.value] + data) ==> Shaped(r))
  {
    hide SegmentName, RangeNames, Scan, ReadNames, SizeOf;
    var r := AppendBytes(s, data);
    assert r.files.Keys == s.files.Keys;
    assert |r.files| == |r.files.Keys| && |s.files| == |s.files.Keys|;
  }

  /** Appending to the last segment of a range changes what is read by what its new content scans to. */
  lemma ExtendLast(files: Files, lo: nat, hi: nat, b: seq<byte>, data: seq<byte>, lines: seq<Line>)
    requires lo < hi
    requires forall n | n in RangeNames(lo, hi) :: n in files
    requires SegmentName(hi - 1) in files && b == files[SegmentName(hi - 1)]
    requires Scan(b + data) == Scan(b).Then(ScanResult(lines, true))
    ensures var g := files[SegmentName(hi - 1) := b + data];
            && (forall n | n in RangeNames(lo, hi) :: n in g)
            && (ReadableNames(files, RangeNames(lo, hi)) ==>
                  && ReadableNames(g, RangeNames(lo, hi))
                  && ReadNames(g, RangeNames(lo, hi)) == ReadNames(files, RangeNames(lo, hi)) + lines)
            && SizeOf(g, RangeNames(lo, hi)) == SizeOf(files, RangeNames(lo, hi)) + |data|
  {
    hide SegmentName, RangeNames, Scan, ReadNames, SizeOf;
    var last := SegmentName(hi - 1);
    RangeSnoc(lo, hi);
    UpdateLast(files, lo, hi, b);
    assert files[last := b] == files;
    UpdateLast(files, lo, hi, b + data);
    var before := ReadNames(files, RangeNames(lo, hi - 1));
    assert before + (Scan(b).lines + lines) == (before + Scan(b).lines) + lines;
  }

  /** Appending to the open segment changes what is read by what its new content scans to. */
  lemma AppendReads(s: Log, data: seq<byte>, lines: seq<Line>)
    requires Shaped(s) && s.current.Some?
    requires var b := s.files[s.current.value]; Scan(b + data) == Scan(b).Then(ScanResult(lines, true))
    ensures var r := AppendLast(s, data);
            && Shaped(r)
            && (Intact(s) ==> Intact(r) && Pending(r) == Pending(s) + lines)
            && SizeOf(r.files, Names(r)) == SizeOf(s.files, Names(s)) + |data|
  {
    hide SegmentName, RangeNames, Scan, ReadNames, SizeOf;
    var lo, hi := First(s), s.segmentCounter;
    AppendShape(s, data);
    ExtendLast(s.files, lo, hi, s.files[s.current.value], data, lines);
    assert Names(s) == RangeNames(lo, hi) && Names(AppendLast(s, data)) == RangeNames(lo, hi);
    hide Names, Shaped, ReadableNames, First;
  }

  /** Appending the first k bytes of a framed line adds exactly its fragment. */
  lemma {:induction false} AppendAdds(s: Log, line: Line, k: nat)
    requires Shaped(s) && s.current.Some? && Intact(s)
    requires NEWLINE !in line && |line| <= MAX_LINE && k <= |Framed(line)|
    ensures var r := AppendLast(s, Framed(line)[..k]);
            && Shaped(r) && Intact(r)
            && Pending(r) == Pending(s) + Fragment(line, k)
            && SizeOf(r.files, Names(r)) == SizeOf(s.files, Names(s)) + k
  {
    AppendScan(s.files[s.current.value], line, k);
    AppendReads(s, Framed(line)[..k], Fragment(line, k));
  }

  lemma FragmentOfAll(line: Line)
    ensures Fragment(line, |Framed(line)|) == [DropCR(line)]
    ensures Framed(line)[..|Framed(line)|] == Framed(line)
  {
    assert line[..|line|] == line;
  }

  /** What is read depends on the directory and the segment numbers only. */
  lemma SameSegments(s: Log, t: Log)
    requires s.files == t.files && s.current == t.current && s.segmentCounter == t.segmentCounter
    ensures Shaped(s) <==> Shaped(t)
    ensures Shaped(s) ==>
              First(s) == First(t) && Names(s) == Names(t) && Pending(s) == Pending(t) && (Intact(s) <==> Intact(t))
  {
    hide SegmentName;
  }

  /** The state after an accepted write, apart from its counters. */
  lemma WriteShape(s: Log, line: Line)
    requires Shaped(s) && !Rejects(s, line)
    ensures var r := Write(s, line); Shaped(r) && r.current.Some? && First(r) == First(s)
  {
    hide SegmentName, RangeNames, Scan, ReadNames, SizeOf;
    PreparedKeeps(s, line);
    var p := Prepared(s, line);
    AppendShape(p, Framed(line));
    var b := p.files[p.current.value] + Framed(line);
    assert b[|b| - 1] == NEWLINE;
    SameSegments(AppendBytes(p, Framed(line)), Write(s, line));
  }

  lemma WriteReads(s: Log, line: Line)
    requires Shaped(s) && Intact(s) && !Rejects(s, line) && Shaped(Write(s, line))
    requires NEWLINE !in line && |line| <= MAX_LINE
    ensures var r := Write(s, line);
            && Intact(r) && Pending(r) == Pending(s) + [DropCR(line)]
            && SizeOf(r.files, Names(r)) == SizeOf(s.files, Names(s)) + |Framed(line)|
  {
    hide SegmentName, RangeNames, Scan, ReadNames, SizeOf, Framed, Fragment, DropCR;
    PreparedKeeps(s, line);
    FragmentOfAll(line);
    AppendAdds(Prepared(s, line), line, |Framed(line)|);
    var w := Write(s, line);
    ClosedReadsSame(w);
    SameSegments(Close(w), AppendLast(Prepared(s, line), Framed(line)));
    hide Prepared, Write, AppendLast, Intact, Shaped, Names;
  }

  /** An accepted write appends the line, as it will be read back, and counts it exactly. */
  lemma {:induction false} WriteAppends(s: Log, line: Line)
    requires Valid(s) && Intact(s) && !Rejects(s, line)
    requires NEWLINE !in line && |line| <= MAX_LINE
    ensures var r := Write(s, line);
            && Valid(r) && Intact(r) && r.current.Some? && First(r) == First(s)
            && Pending(r) == Pending(s) + [DropCR(line)]
  {
    hide SegmentName, RangeNames, Scan, ReadNames, SizeOf, Framed, Fragment;
    WriteShape(s, line);
    WriteReads(s, line);
  }

  lemma ClosedReadsSame(s: Log)
    requires Shaped(s)
    ensures var c := Close(s);
            && Shaped(c) && First(c) == First(s) && Names(c) == Names(s) && Pending(c) == Pending(s)
               && (Intact(c) <==> Intact(s))
  {
  }

  /** Whatever is written, every segment keeps its bytes: content is only ever added at its end. */
  lemma WriteOnlyAppends(s: Log, line: Line)
    requires Shaped(s)
    ensures forall n | n in s.files :: n in Write(s, line).files && s.files[n] <= Write(s, line).files[n]
  {
    NextSegmentIsFresh(s);
  }

  // ---------- draining, closing and restarting ----------

  /** A drain returns exactly the pending lines in write order and leaves nothing behind. */
  lemma {:induction false} DrainReturnsPending(s: Log)
    requires Valid(s) && InRange(s)
    ensures Valid(Drain(s))
    ensures Intact(s) ==> DrainResult(s) == Some(Pending(s)) && Drain(s).files == map[]
    ensures Intact(s) && s.files != map[] ==> Drain(s) == Log(map[], None, 0, 0, 0, s.maxBytes)
    ensures !Intact(s) ==> DrainResult(s) == None && Drain(s) == Close(s)
  {
    hide SegmentName, RangeNames, Scan, ReadNames, SizeOf;
    ListingInRange(s);
    ClosedReadsSame(s);
    if s.files != map[] && Intact(s) { EmptyIsShaped(Drain(s)); }
  }

  lemma EmptyIsShaped(s: Log)
    requires s.files == map[] && s.current.None? && s.segmentCounter == 0
    ensures Shaped(s) && Intact(s) && Pending(s) == [] && SizeOf(s.files, Names(s)) == 0
  {
    assert Names(s) == [];
  }

  /** Reopening a directory of consecutive segments resumes with the same pending lines. */
  lemma ReopenKeeps(files: Files, lo: nat, hi: nat, maxBytes: int)
    requires lo <= hi <= 1_000_000
    requires forall n :: n in files <==> n in RangeNames(lo, hi)
    ensures var r := Reopen(files, maxBytes);
            && Valid(r) && InRange(r) && r.current.None?
            && (lo < hi ==> r.segmentCounter == hi && First(r) == lo)
            && Pending(r) == ReadNames(files, RangeNames(lo, hi))
            && (Intact(r) <==> ReadableNames(files, RangeNames(lo, hi)))
  {
    hide SegmentName, Scan, ReadNames, SizeOf;
    ListedRange(files, lo, hi);
    RestoredIs(files, lo, hi);
    RangeCard(files.Keys, lo, hi);
    assert |files| == |files.Keys|;
    hide Listing, RestoredCounter;
    if lo == hi { assert RangeNames(lo, hi) == [] && RangeNames(0, 0) == []; }
    hide RangeNames;
  }

  /** The number of segments and bytes it finds. */
  lemma ReopenCounts(files: Files, lo: nat, hi: nat, maxBytes: int)
    requires lo <= hi <= 1_000_000
    requires forall n :: n in files <==> n in RangeNames(lo, hi)
    ensures var r := Reopen(files, maxBytes);
            |r.files| == hi - lo && r.currentBytes == SizeOf(files, RangeNames(lo, hi))
  {
    hide SegmentName, Scan, ReadNames, SizeOf, Listing, RestoredCounter, RangeNames;
    ListedRange(files, lo, hi);
    RangeCard(files.Keys, lo, hi);
    assert |files| == |files.Keys|;
  }

  lemma ListedRange(files: Files, lo: nat, hi: nat)
    requires lo <= hi <= 1_000_000
    requires forall n :: n in files <==> n in RangeNames(lo, hi)
    ensures Listing(files.Keys) == RangeNames(lo, hi)
  {
    hide SegmentName, RangeNames;
    RangeSortedBelowMillion(lo, hi);
    SortedUnique(Listing(files.Keys), RangeNames(lo, hi));
  }

  lemma RestoredIs(files: Files, lo: nat, hi: nat)
    requires lo <= hi <= 1_000_000
    requires forall n :: n in files <==> n in RangeNames(lo, hi)
    ensures RestoredCounter(files) == if lo < hi then hi else 0
  {
    hide SegmentName, ParseName, Listing;
    ListedRange(files, lo, hi);
    if lo < hi {
      assert RangeNames(lo, hi)[hi - lo - 1] == SegmentName(hi - 1);
      ParseInvertsPrint(hi - 1);
    }
    hide RangeNames;
  }

  lemma ReopenSegments(s: Log, maxBytes: int)
    requires Shaped(s) && InRange(s)
    ensures var r := Reopen(s.files, maxBytes);
            && Valid(r) && InRange(r) && r.current.None? && Pending(r) == Pending(s) && (Intact(r) <==> Intact(s))
            && r.currentBytes == SizeOf(s.files, Names(s))
  {
    hide SegmentName, RangeNames, Scan, ReadNames, SizeOf;
    ReopenKeeps(s.files, First(s), s.segmentCounter, maxBytes);
    ReopenCounts(s.files, First(s), s.segmentCounter, maxBytes);
  }

  /** When the last name of a directory has no number, the next segment's is the number of files. */
  lemma UnnumberedLast(files: Files, last: string, maxBytes: int)
    requires last in files && ParseName(last).None?
    requires forall n | n in files && n != last :: LexLess(n, last)
    ensures Reopen(files, maxBytes).segmentCounter == |files|
    ensures ParseName("segment-old.log").None? && ParseName("segment-.log").None?
  {
    hide SegmentName, ParseName, LexLess, Listing, Scan, SizeOf, ReadNames;
    var names := Listing(files.Keys);
    assert last in names;
    var end := names[|names| - 1];
    assert end in files;
    LexTrichotomy(end, last);
    if end != last { BelowLast(names, last); }
    ListedOnce(names, files.Keys);
    assert |files| == |files.Keys|;
    NoNumber();
  }

  lemma {:induction false} ListedOnce(names: seq<string>, all: set<string>)
    requires Sorted(names) && forall n :: n in names <==> n in all
    ensures |names| == |all|
  {
    if names == [] {
      assert all == {};
    } else {
      var k, last := |names| - 1, names[|names| - 1];
      forall n ensures n in names[..k] <==> n in all - {last} {
        if n in names[..k] {
          var j :| 0 <= j < k && names[j] == n;
          LexTrichotomy(n, last);
        }
      }
      ListedOnce(names[..k], all - {last});
    }
  }

  lemma NoNumber()
    ensures ParseName("segment-old.log").None? && ParseName("segment-.log").None?
  {
    assert TrimPrefix("segment-old.log", SEGMENT_PREFIX) == "old.log";
    assert TrimSuffix("old.log", SEGMENT_SUFFIX) == "old";
    assert TrimPrefix("segment-.log", SEGMENT_PREFIX) == ".log";
    assert TrimSuffix(".log", SEGMENT_SUFFIX) == "";
  }

  // ---------- past the last six-digit number ----------

  lemma BelowLast(names: seq<string>, name: string)
    requires Sorted(names) && name in names && name != names[|names| - 1]
    ensures LexLess(name, names[|names| - 1])
  {
    hide LexLess;
    var j :| 0 <= j < |names| && names[j] == name;
    assert j < |names| - 1;
  }

  lemma LastListed(files: Files, lo: nat, hi: nat) returns (k: nat)
    requires lo < hi && forall n :: n in files <==> n in RangeNames(lo, hi)
    ensures lo <= k < hi && RestoredCounter(files) == k + 1
    ensures forall n | lo <= n < hi && n != k :: LexLess(SegmentName(n), SegmentName(k))
  {
    hide SegmentName;
    var names := Listing(files.Keys);
    assert RangeNames(lo, hi)[0] in files;
    var last := names[|names| - 1];
    assert last in RangeNames(lo, hi);
    var i :| 0 <= i < hi - lo && RangeNames(lo, hi)[i] == last;
    k := lo + i;
    ParseInvertsPrint(k);
    forall n | lo <= n < hi && n != k ensures LexLess(SegmentName(n), last) {
      assert RangeNames(lo, hi)[n - lo] == SegmentName(n);
      if SegmentName(n) == last { NameInjective(n, k); }
      BelowLast(names, SegmentName(n));
    }
  }

  /** After a restart on the segments lo, ..., hi-1 the next segment gets a fresh name exactly when
      those numbers have one width or end in the last ten of their width; otherwise it truncates a
      live one. The first unsafe restart is the one with segment 1000000. */
  lemma RestartIsSafeExactly(files: Files, lo: nat, hi: nat)
    requires lo < hi && forall n :: n in files <==> n in RangeNames(lo, hi)
    ensures SegmentName(RestoredCounter(files)) !in files
            <==> Width(lo) == Width(hi - 1) || EndsItsWidth(hi - 1)
  {
    hide SegmentName, Width, EndsItsWidth;
    var k := LastListed(files, lo, hi);
    HighestIsLastExactly(lo, hi);
    LastNameFresh(lo, hi);
    if k < hi - 1 {
      LexTrichotomy(SegmentName(k), SegmentName(hi - 1));
      assert RangeNames(lo, hi)[k + 1 - lo] == SegmentName(k + 1);
    }
  }

  lemma MillionIsPow10()
    ensures Pow10(6) == 1_000_000
  {
    assert Pow10(2) == 100;
    assert Pow10(4) == 10_000;
  }

  lemma ListingOfTwo(x: string, y: string)
    requires LexLess(x, y)
    ensures Listing({y, x}) == [x, y]
  {
    LexTrichotomy(x, y);
    hide LexLess, Listing;
    assert forall n :: n in [x, y] <==> n in {y, x};
    SortedUnique(Listing({y, x}), [x, y]);
  }

  lemma RolloverListing()
    ensures Listing({SegmentName(999_999), SegmentName(1_000_000)}) == [SegmentName(1_000_000), SegmentName(999_999)]
  {
    MillionIsPow10();
    RolloverOrder(6);
    hide SegmentName, Pow10, LexLess;
    ListingOfTwo(SegmentName(1_000_000), SegmentName(999_999));
  }

  lemma ReadPair(files: Files, y: string, x: string)
    requires x in files && y in files
    ensures ReadNames(files, [y, x]) == Scan(files[y]).lines + Scan(files[x]).lines
  {
    assert [y, x][..1] == [y] && [y][..0] == [];
    assert ReadNames(files, [y]) == [] + Scan(files[y]).lines;
  }

  /** With segments 999999 and 1000000 alive the listing is out of order, a restart resumes at a
      number in use, and the next write truncates a segment that still holds a line. */
  lemma {:induction false} MillionthSegmentIsLost(a: Line, b: Line, c: Line)
    requires Clean(a) && Clean(b) && Clean(c)
    ensures var files: Files := map[SegmentName(999_999) := Framed(a), SegmentName(1_000_000) := Framed(b)];
            var r := Reopen(files, 0);
            && ReadNames(files, Listing(files.Keys)) == [b, a]
            && r.segmentCounter == 1_000_000
            && Write(r, c).files == map[SegmentName(999_999) := Framed(a), SegmentName(1_000_000) := Framed(c)]
  {
    hide SegmentName, Scan, LexLess, Listing;
    var x, y := SegmentName(999_999), SegmentName(1_000_000);
    var files: Files := map[x := Framed(a), y := Framed(b)];
    RolloverListing();
    assert files.Keys == {x, y};
    if x == y { NameInjective(999_999, 1_000_000); }
    ParseInvertsPrint(999_999);
    VerbatimExactly(a);
    VerbatimExactly(b);
    hide Clean;
    ReadPair(files, y, x);
    assert Write(Reopen(files, 0), c).files == files[y := [] + Framed(c)];
    assert [] + Framed(c) == Framed(c);
  }
}
