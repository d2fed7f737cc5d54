/** How lines are framed in a segment file and what a line scanner reads back from it. */
module LineFraming {
  import opened Prelude

  const NEWLINE: byte := 10
  const CARRIAGE_RETURN: byte := 13

  /** The longest line, without its newline, that fits the scanner's 64 KiB buffer. */
  const MAX_LINE := 65_535

  /** What is appended to a segment for one line. */
  function Framed(line: Line): seq<byte> { line + [NEWLINE] }

  function Encode(lines: seq<Line>): seq<byte> {
    if lines == [] then [] else Framed(lines[0]) + Encode(lines[1..])
  }

  /** Drops one trailing carriage return. */
  function DropCR(line: Line): Line {
    if line != [] && line[|line| - 1] == CARRIAGE_RETURN then line[..|line| - 1] else line
  }

  /** Lines that survive framing and scanning unchanged. */
  predicate Clean(line: Line) {
    && NEWLINE !in line
    && |line| <= MAX_LINE
    && (line != [] ==> line[|line| - 1] != CARRIAGE_RETURN)
  }

  /** Content that a later line can be appended to without being glued to what is there. */
  predicate Terminated(b: seq<byte>) { b == [] || b[|b| - 1] == NEWLINE }

  function FirstNewline(b: seq<byte>): (i: nat)
    ensures i <= |b|
    ensures i < |b| ==> b[i] == NEWLINE
    ensures forall k | 0 <= k < i :: b[k] != NEWLINE
  {
    if b == [] || b[0] == NEWLINE then 0 else 1 + FirstNewline(b[1..])
  }

  /** The lines read before the end of the input or the first line that is too long. */
  datatype ScanResult = ScanResult(lines: seq<Line>, ok: bool) {
    function Then(next: ScanResult): ScanResult {
      if ok then ScanResult(lines + next.lines, next.ok) else this
    }
  }

  /** Where the scanner continues after the line that starts b. */
  function AfterLine(b: seq<byte>): (n: nat)
    ensures n <= |b| && (b != [] ==> n > 0)
  {
    var i := FirstNewline(b);
    if i < |b| then i + 1 else i
  }

  /** The lines a scanner with default limits reads from b: newline-separated, each without one
      trailing carriage return; an unterminated last line counts, a line over MAX_LINE stops it. */
  function Scan(b: seq<byte>): ScanResult
    decreases |b|
  {
    if b == [] then ScanResult([], true)
    else if FirstNewline(b) > MAX_LINE then ScanResult([], false)
    else ScanResult([DropCR(b[..FirstNewline(b)])], true).Then(Scan(b[AfterLine(b)..]))
  }

  lemma FirstNewlineIs(b: seq<byte>, i: nat)
    requires i < |b| && b[i] == NEWLINE && forall k | 0 <= k < i :: b[k] != NEWLINE
    ensures FirstNewline(b) == i
  {
  }

  lemma ScanEmpty(c: seq<byte>)
    ensures Scan([]).Then(Scan(c)) == Scan(c)
  {
    assert [] + Scan(c).lines == Scan(c).lines;
  }

  lemma ThenAssociative(a: ScanResult, b: ScanResult, c: ScanResult)
    ensures a.Then(b).Then(c) == a.Then(b.Then(c))
  {
    assert (a.lines + b.lines) + c.lines == a.lines + (b.lines + c.lines);
  }

  /** Scanning one line off the front, given where its newline is. */
  lemma ScanUnfold(b: seq<byte>, i: nat)
    requires i < |b| && b[i] == NEWLINE && forall k | 0 <= k < i :: b[k] != NEWLINE
    ensures Scan(b) == if i > MAX_LINE then ScanResult([], false)
                       else ScanResult([DropCR(b[..i])], true).Then(Scan(b[i + 1..]))
  {
    FirstNewlineIs(b, i);
  }

  /** Scanning terminated content and what follows it are independent. */
  lemma {:induction false} ScanConcat(b: seq<byte>, c: seq<byte>)
    requires Terminated(b)
    ensures Scan(b + c) == Scan(b).Then(Scan(c))
    decreases |b|
  {
    hide Scan, DropCR;
    if b == [] {
      assert b + c == c;
      ScanEmpty(c);
    } else {
      var i := FirstNewline(b);
      assert (b + c)[..i] == b[..i];
      assert (b + c)[i + 1..] == b[i + 1..] + c;
      ScanUnfold(b, i);
      ScanUnfold(b + c, i);
      if i <= MAX_LINE {
        ScanConcat(b[i + 1..], c);
        ThenAssociative(ScanResult([DropCR(b[..i])], true), Scan(b[i + 1..]), Scan(c));
      }
    }
  }

  /** One framed line reads back as itself without a trailing carriage return, if it fits. */
  lemma ScanFramed(line: Line)
    requires NEWLINE !in line
    ensures Scan(Framed(line)) == if |line| <= MAX_LINE then ScanResult([DropCR(line)], true) else ScanResult([], false)
  {
    var b := Framed(line);
    FirstNewlineIs(b, |line|);
    assert b[..|line|] == line && b[|line| + 1..] == [];
  }

  /** A torn write, a proper prefix of a framed line, reads back as at most that prefix. */
  lemma {:induction false} ScanTorn(line: Line)
    requires NEWLINE !in line && |line| <= MAX_LINE
    ensures Scan(line) == ScanResult(if line == [] then [] else [DropCR(line)], true)
  {
    if line != [] {
      var i := FirstNewline(line);
      assert forall k | 0 <= k < |line| :: line[k] != NEWLINE;
      assert line[..|line|] == line && line[|line|..] == [];
    }
  }

  lemma {:induction false} ScanNonEmpty(b: seq<byte>)
    requires b != [] && Scan(b).ok
    ensures Scan(b).lines != []
  {
  }

  /** The scanner returns a written line verbatim for exactly the clean lines. */
  lemma VerbatimExactly(line: Line)
    ensures Scan(Framed(line)) == ScanResult([line], true) <==> Clean(line)
    ensures Clean(line) <==> 10 !in line && |line| <= 65_535 && (line != [] ==> line[|line| - 1] != 13)
  {
    var b := Framed(line);
    if NEWLINE in line {
      var i := FirstNewline(b);
      var k :| 0 <= k < |line| && line[k] == NEWLINE;
      assert b[k] == NEWLINE;
      if i <= MAX_LINE {
        var rest := b[i + 1..];
        assert rest[|rest| - 1] == NEWLINE;
        if Scan(rest).ok { ScanNonEmpty(rest); }
      }
    } else {
      ScanFramed(line);
    }
  }

  /** Of the carriage returns a line ends with, exactly one is dropped. */
  lemma OneReturnIsDropped(line: Line)
    requires NEWLINE !in line && |line| < 65_535
    ensures Scan(Framed(line + [13])) == ScanResult([line], true)
  {
    ScanFramed(line + [13]);
    assert (line + [13])[..|line|] == line;
  }

  lemma {:induction false} EncodeConcat(a: seq<Line>, b: seq<Line>)
    ensures Encode(a + b) == Encode(a) + Encode(b)
  {
    hide Framed;
    if a == [] {
      assert a + b == b;
    } else {
      EncodeConcat(a[1..], b);
      assert (a + b)[1..] == a[1..] + b && (a + b)[0] == a[0];
      ConcatAssociates(Framed(a[0]), Encode(a[1..]), Encode(b));
    }
  }

  /** Reading back is the inverse of writing, for any list of clean lines. */
  lemma {:induction false} ScanInvertsEncode(lines: seq<Line>)
    requires forall l | l in lines :: Clean(l)
    ensures Terminated(Encode(lines))
    ensures Scan(Encode(lines)) == ScanResult(lines, true)
  {
    if lines != [] {
      var first, rest := Framed(lines[0]), Encode(lines[1..]);
      assert lines[0] in lines && Encode(lines) == first + rest && Terminated(first);
      hide Scan, Clean, Framed, Encode;
      ScanInvertsEncode(lines[1..]);
      VerbatimExactly(lines[0]);
      ScanConcat(first, rest);
      assert [lines[0]] + lines[1..] == lines;
    }
  }

  /** No line of b ends with a carriage return. */
  predicate NoCRLF(b: seq<byte>) {
    forall k | 0 <= k < |b| - 1 :: b[k] == CARRIAGE_RETURN ==> b[k + 1] != NEWLINE
  }

  /** Splitting off the first line, which ends at i. */
  lemma NoCRLFSplit(b: seq<byte>, i: nat)
    requires i < |b| && b[i] == NEWLINE && forall k | 0 <= k < i :: b[k] != NEWLINE
    ensures NoCRLF(b) <==> (i > 0 ==> b[i - 1] != CARRIAGE_RETURN) && NoCRLF(b[i + 1..])
  {
    var rest := b[i + 1..];
    assert forall k | 0 <= k < |rest| :: rest[k] == b[i + 1 + k];
    if NoCRLF(b) {
      forall k | 0 <= k < |rest| - 1 ensures rest[k] == CARRIAGE_RETURN ==> rest[k + 1] != NEWLINE {
        assert rest[k] == b[i + 1 + k] && rest[k + 1] == b[i + 1 + k + 1];
      }
    }
  }

  lemma EncodeFirst(line: Line, lines: seq<Line>)
    ensures Encode([line] + lines) == Framed(line) + Encode(lines)
  {
    assert ([line] + lines)[1..] == lines;
  }

  /** One line and its bytes, put in front of the rest. */
  lemma ReencodeLine(line: Line, rest: seq<byte>, lines: seq<Line>)
    ensures var b, again := Framed(line) + rest, Encode([DropCR(line)] + lines);
            && (|Encode(lines)| <= |rest| ==> |again| <= |b|)
            && (|Encode(lines)| < |rest| ==> |again| < |b|)
            && (line != [] && line[|line| - 1] == CARRIAGE_RETURN && |Encode(lines)| <= |rest| ==> |again| < |b|)
            && ((line != [] ==> line[|line| - 1] != CARRIAGE_RETURN) && Encode(lines) == rest ==> again == b)
  {
    EncodeFirst(DropCR(line), lines);
    hide Encode;
  }

  /** The first line of terminated, readable content. */
  lemma ScanFirst(b: seq<byte>)
    requires b != [] && Terminated(b) && Scan(b).ok
    ensures var i := FirstNewline(b);
            && i < |b| && b == Framed(b[..i]) + b[i + 1..] && Terminated(b[i + 1..])
            && Scan(b[i + 1..]).ok && Scan(b).lines == [DropCR(b[..i])] + Scan(b[i + 1..]).lines
  {
    hide Scan, DropCR;
    var i := FirstNewline(b);
    assert b[|b| - 1] == NEWLINE;
    ScanUnfold(b, i);
    SplitAt(b, i);
    hide Framed, FirstNewline;
  }

  lemma SplitAt(b: seq<byte>, i: nat)
    requires i < |b| && b[i] == NEWLINE && Terminated(b)
    ensures b == Framed(b[..i]) + b[i + 1..] && Terminated(b[i + 1..])
  {
  }

  /** Writing back what was read from terminated content never takes more room, and gives exactly
      the same bytes if and only if no line ended with a carriage return. */
  lemma {:induction false} ReencodeExactly(b: seq<byte>)
    requires Terminated(b) && Scan(b).ok
    ensures |Encode(Scan(b).lines)| <= |b|
    ensures NoCRLF(b) ==> Encode(Scan(b).lines) == b
    ensures !NoCRLF(b) ==> |Encode(Scan(b).lines)| < |b|
    decreases |b|
  {
    if b == [] {
      NothingToEncode();
    } else {
      var i := FirstNewline(b);
      var line, rest := b[..i], b[i + 1..];
      ScanFirst(b);
      hide Scan, Encode, NoCRLF, Framed, DropCR;
      ReencodeExactly(rest);
      NoCRLFSplit(b, i);
      ReencodeLine(line, rest, Scan(rest).lines);
    }
  }

  lemma NothingToEncode()
    ensures Encode([]) == [] && NoCRLF([])
  {
  }

  /** Appending a clean line to terminated content. */
  lemma FramedHasNoCRLF(b: seq<byte>, line: Line)
    requires Terminated(b) && NoCRLF(b) && Clean(line)
    ensures Terminated(b + Framed(line)) && NoCRLF(b + Framed(line))
  {
    var all := b + Framed(line);
    forall k | 0 <= k < |all| - 1 ensures all[k] == CARRIAGE_RETURN ==> all[k + 1] != NEWLINE {
      if k >= |b| {
        assert all[k] == Framed(line)[k - |b|] && all[k + 1] == Framed(line)[k + 1 - |b|];
      }
    }
  }

  /** What was scanned never has a newline and always fits the scanner again. */
  lemma {:induction false} ScannedLines(b: seq<byte>)
    ensures forall l | l in Scan(b).lines :: NEWLINE !in l && |l| <= MAX_LINE
    decreases |b|
  {
    if b != [] && FirstNewline(b) <= MAX_LINE {
      ScannedLines(b[AfterLine(b)..]);
    }
  }
}
