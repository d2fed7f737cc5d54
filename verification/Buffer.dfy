/** The line buffer the program runs on: in memory or on disk, behind one interface. */
module Buffers {
  import opened Prelude
  import opened LineFraming
  import Log = SegmentLog
  import Limits = SegmentLogLimits
  import opened DiskBuffers

  /** A bounded queue in memory. */
  class MemoryBuffer {
    var lines: seq<Line>
    const maxSize: nat

    constructor (maxSize: nat)
      ensures lines == [] && this.maxSize == maxSize
    {
      this.maxSize := maxSize;
      lines := [];
    }

    method Write(line: Line) returns (full: bool)
      modifies this
      ensures full <==> |old(lines)| >= maxSize
      ensures lines == if full then old(lines) else old(lines) + [line]
    {
      if |lines| >= maxSize {
        return true;
      }
      lines := lines + [line];
      return false;
    }

    method ReadAll() returns (out: seq<Line>)
      modifies this
      ensures out == old(lines) && lines == []
    {
      out := lines;
      lines := [];
    }

    method Replay() returns (out: seq<Line>)
      ensures out == []
    {
      out := [];
    }

    method Len() returns (n: int)
      ensures n == |lines|
    {
      n := |lines|;
    }
  }

  /** A disk buffer that holds only complete, readable lines within its cap, and in their bytes
      nothing but them. */
  ghost predicate DiskOk(s: Log.Log) {
    && Log.Valid(s) && Log.Intact(s)
    && Limits.AllTerminated(s.files) && Limits.AllNoCRLF(s.files)
    && (s.maxBytes > 0 ==> s.currentBytes <= s.maxBytes)
  }

  lemma EncodeOne(line: Line, rest: seq<Line>)
    ensures |Encode([line])| == |Framed(line)|
    ensures |Encode([line] + rest)| == |Framed(line)| + |Encode(rest)|
  {
    EncodeConcat([line], rest);
  }

  lemma DiskWriteKeeps(s: Log.Log, line: Line)
    requires DiskOk(s) && Clean(line)
    ensures DiskOk(Log.Write(s, line))
    ensures !Log.Rejects(s, line) ==> Log.Pending(Log.Write(s, line)) == Log.Pending(s) + [line]
  {
    hide Log.Pending, Log.Intact, Log.Valid, Limits.AllTerminated, Limits.AllNoCRLF;
    if !Log.Rejects(s, line) {
      Log.WriteAppends(s, line);
      DiskHasCurrent(s);
      Limits.WriteKeepsExact(s, line);
    }
  }

  lemma DiskHasCurrent(s: Log.Log)
    requires Log.Valid(s)
    ensures Log.HasCurrent(s)
  {
  }

  /** A drain leaves an empty buffer in which what it returned fits again, and returns the pending
      lines, in order while the segment names have six digits. */
  lemma DiskDrainKeeps(s: Log.Log)
    requires DiskOk(s)
    ensures var r, d := Log.DrainResult(s), Log.Drain(s);
            && DiskOk(d) && d.files == map[] && Log.Pending(d) == [] && r.Some?
            && d.currentBytes == 0 && d.maxBytes == s.maxBytes
            && (Log.InRange(s) ==> r.value == Log.Pending(s) && |Encode(r.value)| == s.currentBytes)
  {
    hide Log.Pending, Log.Intact, Log.InRange, Encode;
    Limits.ReadableIsIntact(s);
    Limits.EmptyDrain(s);
    if Log.InRange(s) {
      Log.DrainReturnsPending(s);
      DiskBytes(s);
    }
  }

  /** The bytes on disk are those of the lines they hold. */
  lemma DiskBytes(s: Log.Log)
    requires DiskOk(s)
    ensures |Encode(Log.Pending(s))| == s.currentBytes
  {
    Limits.DrainedFitsAgain(s);
  }

  /** Everything a write does to a disk buffer, as its users see it. */
  lemma DiskWriteIs(s: Log.Log, line: Line)
    requires DiskOk(s) && Clean(line)
    ensures Log.HasCurrent(s)
    ensures var r, cost := Log.Write(s, line), |Encode([line])|;
            && DiskOk(r) && r.maxBytes == s.maxBytes
            && (Log.Rejects(s, line) <==> s.maxBytes > 0 && cost > s.maxBytes - s.currentBytes)
            && Log.Pending(r) == (if Log.Rejects(s, line) then Log.Pending(s) else Log.Pending(s) + [line])
            && r.currentBytes == (if Log.Rejects(s, line) then s.currentBytes else s.currentBytes + cost)
            && (Limits.SteadySession(s) ==> Limits.SteadySession(r))
  {
    DiskHasCurrent(s);
    EncodeOne(line, []);
    DiskWriteKeeps(s, line);
    if Limits.SteadySession(s) { Limits.SteadyWrite(s, line); }
    hide DiskOk, Limits.SteadySession, Log.Pending, Framed, Encode, Log.Valid;
  }

  /** Everything a drain does to a disk buffer, as its users see it. */
  lemma DiskDrainIs(s: Log.Log)
    requires DiskOk(s)
    ensures Log.HasCurrent(s)
    ensures var r, d := Log.DrainResult(s), Log.Drain(s);
            && DiskOk(d) && Log.Pending(d) == [] && r.Some? && d.currentBytes == 0 && d.maxBytes == s.maxBytes
            && (Log.InRange(s) ==> r.value == Log.Pending(s) && (s.maxBytes > 0 ==> |Encode(r.value)| <= s.maxBytes))
            && (Limits.SteadySession(s) ==> Limits.SteadySession(d))
  {
    DiskHasCurrent(s);
    DiskDrainKeeps(s);
    if Limits.SteadySession(s) { Limits.SteadyDrain(s); }
    assert s.maxBytes > 0 ==> s.currentBytes <= s.maxBytes;
    hide DiskOk, Limits.SteadySession, Log.Pending, Encode, Log.Valid, Log.Drain, Log.DrainResult;
  }

  /** One of the two buffers. */
  class LineBuffer {
    const mem: MemoryBuffer?
    const disk: DiskBuffer?

    ghost function Parts(): set<object> {
      (if mem != null then {mem as object} else {}) + (if disk != null then {disk as object, disk.dir} else {})
    }

    ghost predicate Valid()
      reads Parts()
    {
      && (mem == null) != (disk == null)
      && (mem != null ==> |mem.lines| <= mem.maxSize)
      && (disk != null ==> DiskOk(disk.State()))
    }

    /** The buffered lines, oldest first. */
    ghost function Queue(): seq<Line>
      requires Valid()
      reads Parts()
    {
      if mem != null then mem.lines else Log.Pending(disk.State())
    }

    ghost predicate InRange()
      reads Parts()
    {
      disk != null ==> Log.InRange(disk.State())
    }

    /** In memory, or on disk in a session that began empty. */
    ghost predicate Steady()
      reads Parts()
    {
      disk != null ==> Limits.SteadySession(disk.State())
    }

    /** On disk, the byte cap, or else all these lines, is at most 500000 segments' bytes. */
    ghost predicate Bounded(lines: seq<Line>) {
      disk != null ==> Limits.Bounded(disk.maxBytes, lines)
    }

    lemma SteadyInRange()
      requires Valid() && Steady() && Bounded(Queue())
      ensures InRange()
    {
      if disk != null {
        var s := disk.State();
        DiskBytes(s);
        Limits.SessionStaysSafe(s, Log.Pending(s));
        Limits.SteadyInRange(s);
      }
    }

    /** Fewer lines are within the bound too. */
    lemma BoundedParts(a: seq<Line>, b: seq<Line>, d: seq<Line>)
      requires Bounded(a + b + d)
      ensures Bounded(a + b) && Bounded(a + d) && Bounded(b)
    {
      EncodeConcat(a + b, d);
      EncodeConcat(a, b);
      EncodeConcat(a, d);
    }

    /** Lines that come back as they were written. */
    predicate Keeps(line: Line) { disk != null ==> Clean(line) }

    /** What lines take up: places in memory, or bytes under the cap of a disk buffer. */
    ghost function Cost(lines: seq<Line>): nat {
      if mem != null then |lines|
      else if disk != null && disk.maxBytes > 0 then |Encode(lines)|
      else 0
    }

    /** What is left of the buffer's limit. */
    ghost function Room(): int
      reads Parts()
    {
      if mem != null then mem.maxSize - |mem.lines|
      else if disk != null && disk.maxBytes > 0 then disk.maxBytes - disk.currentBytes
      else 0
    }

    /** The limit of the buffer, 0 without one. */
    function Limit(): int {
      if mem != null then mem.maxSize
      else if disk != null && disk.maxBytes > 0 then disk.maxBytes
      else 0
    }

    /** What is taken up is what the buffered lines cost. */
    lemma RoomLeft()
      requires Valid()
      ensures Room() == Limit() - Cost(Queue())
    {
      if disk != null { DiskBytes(disk.State()); }
    }

    lemma CostOfOne(line: Line, rest: seq<Line>)
      ensures Cost([line] + rest) == Cost([line]) + Cost(rest)
    {
      EncodeOne(line, rest);
    }

    constructor InMemory(maxSize: nat)
      ensures Valid() && fresh(Parts()) && Queue() == [] && disk == null && mem != null && mem.maxSize == maxSize
    {
      mem := new MemoryBuffer(maxSize);
      disk := null;
    }

    constructor OnDisk(disk: DiskBuffer)
      requires DiskOk(disk.State())
      ensures Valid() && this.disk == disk && mem == null
    {
      mem := null;
      this.disk := disk;
    }

    /** Appends a line, or refuses it exactly when it costs more than the room left. */
    method Write(line: Line) returns (full: bool)
      requires Valid() && Keeps(line)
      modifies Parts()
      ensures Valid()
      ensures full <==> Cost([line]) > old(Room())
      ensures Queue() == if full then old(Queue()) else old(Queue()) + [line]
      ensures Room() == if full then old(Room()) else old(Room()) - Cost([line])
      ensures old(Steady()) ==> Steady()
    {
      hide DiskOk, Limits.SteadySession, Log.Pending, Log.Write, Log.Rejects, Log.HasCurrent, Encode, Clean;
      if mem != null {
        full := mem.Write(line);
      } else {
        DiskWriteIs(disk.State(), line);
        full := disk.Write(line);
      }
    }

    method ReadAll() returns (lines: seq<Line>)
      requires Valid()
      modifies Parts()
      ensures Valid() && Queue() == []
      ensures old(InRange()) ==> lines == old(Queue()) && Cost(lines) <= Room()
      ensures old(Steady()) ==> Steady()
    {
      hide DiskOk, Limits.SteadySession, Log.Pending, Log.Drain, Log.DrainResult, Log.HasCurrent, Log.InRange, Encode;
      if mem != null {
        lines := mem.ReadAll();
      } else {
        DiskDrainIs(disk.State());
        var result := disk.ReadAll();
        lines := result.value;
      }
    }

    method Len() returns (n: int)
      requires Valid()
      ensures n == |Queue()|
    {
      if mem != null {
        n := mem.Len();
      } else {
        n := disk.Len();
      }
    }

    /** Writes a drained batch back, line by line; nothing is refused when there is room. */
    method WriteBack(lines: seq<Line>)
      requires Valid() && Cost(lines) <= Room() && forall l | l in lines :: Keeps(l)
      modifies Parts()
      ensures Valid() && Queue() == old(Queue()) + lines
      ensures old(Steady()) ==> Steady()
    {
      hide DiskOk, Encode, Keeps, Cost, Room, Valid, Queue, Steady;
      for i := 0 to |lines|
        invariant old(Steady()) ==> Steady()
        invariant Valid()
        invariant Queue() == old(Queue()) + lines[..i]
        invariant Cost(lines[i..]) <= Room()
      {
        assert lines[i..] == [lines[i]] + lines[i + 1..];
        CostOfOne(lines[i], lines[i + 1..]);
        assert lines[i] in lines;
        var full := Write(lines[i]);
        assert lines[..i + 1] == lines[..i] + [lines[i]];
      }
      assert lines[..|lines|] == lines;
    }
  }
}
