/** The disk-backed line buffer, over a directory that outlives it. */
module DiskBuffers {
  import opened Prelude
  import opened SegmentNames
  import opened LineFraming
  import Log = SegmentLog

  /** The buffer directory: file names and their bytes. */
  class Directory {
    var files: Log.Files

    constructor ()
      ensures files == map[]
    {
      files := map[];
    }
  }

  /** Reads content line by line until it ends or a line is too long. */
  method ReadLines(content: seq<byte>) returns (lines: seq<Line>, ok: bool)
    ensures ScanResult(lines, ok) == Scan(content)
  {
    lines, ok := [], true;
    var rest := content;
    while rest != [] && ok
      invariant ok ==> Scan(content) == ScanResult(lines, true).Then(Scan(rest))
      invariant !ok ==> Scan(content) == ScanResult(lines, false)
      decreases |rest|, ok
    {
      if FirstNewline(rest) > MAX_LINE {
        ok := false;
      } else {
        var line := DropCR(rest[..FirstNewline(rest)]);
        ThenAssociative(ScanResult(lines, true), ScanResult([line], true), Scan(rest[AfterLine(rest)..]));
        lines := lines + [line];
        rest := rest[AfterLine(rest)..];
      }
    }
  }

  /** The segment names of a directory in sorted order. */
  method ListSegments(dir: Directory) returns (segments: seq<string>)
    ensures segments == Listing(dir.files.Keys)
  {
    segments := [];
    var rest := dir.files.Keys;
    while rest != {}
      invariant rest <= dir.files.Keys
      invariant Sorted(segments)
      invariant forall x :: x in segments <==> x in dir.files.Keys && x !in rest
      decreases rest
    {
      var name :| name in rest;
      InsertKeepsSorted(name, segments);
      segments := Insert(name, segments);
      rest := rest - {name};
    }
    SortedUnique(segments, Listing(dir.files.Keys));
  }

  /** Bytes and lines that existing segments hold. */
  method CountSegments(dir: Directory, segments: seq<string>) returns (bytes: int, lineCount: int)
    requires forall n | n in segments :: n in dir.files
    ensures bytes == Log.SizeOf(dir.files, segments)
    ensures lineCount == |Log.ReadNames(dir.files, segments)|
  {
    hide SegmentName, Scan;
    bytes, lineCount := 0, 0;
    for i := 0 to |segments|
      invariant bytes == Log.SizeOf(dir.files, segments[..i])
      invariant lineCount == |Log.ReadNames(dir.files, segments[..i])|
    {
      bytes := bytes + |dir.files[segments[i]]|;
      var lines, ok := ReadLines(dir.files[segments[i]]);
      for k := 0 to |lines|
        invariant lineCount == |Log.ReadNames(dir.files, segments[..i])| + k
      {
        lineCount := lineCount + 1;
      }
      assert segments[..i + 1][..i] == segments[..i];
    }
    assert segments[..|segments|] == segments;
  }

  /** One more than the number of the last segment; the number of segments if it has none. */
  method RestoreCounter(segments: seq<string>) returns (counter: nat)
    ensures counter == if segments == [] then 0
                       else match ParseName(segments[|segments| - 1])
                         case Some(n) => n + 1
                         case None => |segments|
  {
    counter := 0;
    if |segments| > 0 {
      var n := ParseName(segments[|segments| - 1]);
      counter := if n.Some? then n.value + 1 else |segments|;
    }
  }

  class DiskBuffer {
    const dir: Directory
    const maxBytes: int
    var currentFile: Option<string>
    var currentBytes: int
    var segmentCounter: nat
    var lineCount: int

    /** The buffer with its directory, as a value. */
    ghost function State(): Log.Log
      reads this, dir
    {
      Log.Log(dir.files, currentFile, currentBytes, segmentCounter, lineCount, maxBytes)
    }

    /** Opens a directory, counting what an earlier process left in it. */
    constructor (dir: Directory, maxBytes: int)
      ensures this.dir == dir
      ensures State() == Log.Reopen(dir.files, maxBytes)
    {
      this.dir := dir;
      this.maxBytes := maxBytes;
      currentFile, currentBytes, segmentCounter, lineCount := None, 0, 0, 0;
      new;
      Recover();
    }

    /** Takes over the segments found in the directory. */
    method Recover()
      requires currentFile == None
      modifies this
      ensures State() == Log.Reopen(dir.files, maxBytes)
    {
      hide SegmentName, ParseName, Scan, Sorted, Listing, Log.SizeOf, Log.ReadNames;
      var segments := ListSegments(dir);
      currentBytes, lineCount := CountSegments(dir, segments);
      segmentCounter := RestoreCounter(segments);
    }

    /** Appends a line to the open segment, starting a new one when it is full; refuses the line
        when the directory would pass its byte cap. */
    method Write(line: Line) returns (full: bool)
      requires Log.HasCurrent(State())
      modifies this, dir
      ensures full <==> Log.Rejects(old(State()), line)
      ensures State() == Log.Write(old(State()), line)
    {
      var data := line + [NEWLINE];
      if maxBytes > 0 && currentBytes + |data| > maxBytes {
        return true;
      }
      if currentFile.None? {
        OpenSegment();
      } else if currentBytes > 0 {
        var rotate := NeedsRotation(|data|);
        if rotate { OpenSegment(); }
      }
      dir.files := dir.files[currentFile.value := dir.files[currentFile.value] + data];
      currentBytes := currentBytes + |data|;
      lineCount := lineCount + 1;
      return false;
    }

    /** Drains the buffer: reads every segment in name order, then deletes them all. A segment
        that cannot be read fails the call and nothing is deleted. */
    method ReadAll() returns (result: Option<seq<Line>>)
      requires Log.HasCurrent(State())
      modifies this, dir
      ensures result == Log.DrainResult(old(State()))
      ensures State() == Log.Drain(old(State()))
    {
      currentFile := None;
      hide SegmentName, Scan;
      var segments := ListSegments(dir);
      if |segments| == 0 {
        assert forall n :: n !in dir.files;
        return Some([]);
      }
      assert dir.files != map[] by { assert segments[0] in dir.files; }
      var lines := ReadSegments(segments);
      if lines.None? {
        return None;
      }
      DeleteSegments(segments);
      assert dir.files == map[];
      currentBytes, lineCount, segmentCounter := 0, 0, 0;
      return lines;
    }

    /** The reading loop of a drain; it stops at the first segment that cannot be read. */
    method ReadSegments(segments: seq<string>) returns (result: Option<seq<Line>>)
      requires forall n | n in segments :: n in dir.files
      ensures result == if Log.ReadableNames(dir.files, segments) then Some(Log.ReadNames(dir.files, segments))
                        else None
    {
      hide SegmentName, Scan;
      var lines := [];
      for i := 0 to |segments|
        invariant Log.ReadableNames(dir.files, segments[..i])
        invariant lines == Log.ReadNames(dir.files, segments[..i])
      {
        var more, ok := ReadLines(dir.files[segments[i]]);
        if !ok {
          assert segments[i] in segments;
          return None;
        }
        lines := lines + more;
        assert segments[..i + 1][..i] == segments[..i];
      }
      assert segments[..|segments|] == segments;
      return Some(lines);
    }

    /** The deletion loop of a drain. */
    method DeleteSegments(segments: seq<string>)
      modifies dir
      ensures dir.files == map n | n in old(dir.files) && n !in segments :: old(dir.files)[n]
    {
      for i := 0 to |segments|
        invariant dir.files == map n | n in old(dir.files) && n !in segments[..i] :: old(dir.files)[n]
      {
        dir.files := dir.files - {segments[i]};
        assert segments[..i + 1] == segments[..i] + [segments[i]];
      }
      assert segments[..|segments|] == segments;
    }

    /** Lines an earlier process left behind: a drain. */
    method Replay() returns (result: Option<seq<Line>>)
      requires Log.HasCurrent(State())
      modifies this, dir
      ensures result == Log.DrainResult(old(State()))
      ensures State() == Log.Drain(old(State()))
    {
      result := ReadAll();
    }

    method Len() returns (n: int)
      ensures n == lineCount
      ensures Log.Valid(State()) && Log.Intact(State()) ==> n == |Log.Pending(State())|
    {
      n := lineCount;
    }

    method Close()
      modifies this`currentFile
      ensures State() == Log.Close(old(State()))
    {
      currentFile := None;
    }

    method OpenSegment()
      modifies this`currentFile, this`segmentCounter, dir
      ensures State() == Log.OpenSegment(old(State()))
    {
      var name := SegmentName(segmentCounter);
      dir.files := dir.files[name := []];
      currentFile := Some(name);
      segmentCounter := segmentCounter + 1;
    }

    method NeedsRotation(n: nat) returns (full: bool)
      requires Log.HasCurrent(State())
      ensures full <==> Log.NeedsRotation(State(), n)
    {
      if currentFile.None? { return true; }
      return |dir.files[currentFile.value]| + n > Log.MAX_SEGMENT_BYTES;
    }
  }
}
