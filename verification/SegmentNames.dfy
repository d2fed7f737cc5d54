/** Names of buffer segments: how they are printed, sorted and parsed back. */
module SegmentNames {
  import opened Prelude

  const SEGMENT_PREFIX := "segment-"
  const SEGMENT_SUFFIX := ".log"

  function Pow10(k: nat): (p: nat)
    ensures p >= 1
  {
    if k == 0 then 1 else 10 * Pow10(k - 1)
  }

  function DigitChar(d: nat): char
    requires d < 10
  {
    "0123456789"[d]
  }

  /** The w low decimal digits of n, most significant first. */
  function Digits(n: nat, w: nat): (s: string)
    ensures |s| == w
  {
    if w == 0 then "" else Digits(n / 10, w - 1) + [DigitChar(n % 10)]
  }

  /** How many digits "%06d" prints for n. */
  function Width(n: nat): (w: nat)
    ensures w >= 6
  {
    if n < 1_000_000 then 6 else 1 + Width(n / 10)
  }

  function SegmentName(n: nat): string {
    SEGMENT_PREFIX + Digits(n, Width(n)) + SEGMENT_SUFFIX
  }

  /** Byte-wise string order, as used by a string sort. */
  predicate LexLess(a: string, b: string) {
    b != "" && (a == "" || a[0] < b[0] || (a[0] == b[0] && LexLess(a[1..], b[1..])))
  }

  predicate Sorted(names: seq<string>) {
    forall i, j | 0 <= i < j < |names| :: LexLess(names[i], names[j])
  }

  // ---------- the order on strings ----------

  lemma {:induction false} LexTrichotomy(a: string, b: string)
    ensures a == b || LexLess(a, b) || LexLess(b, a)
    ensures !(LexLess(a, b) && (a == b || LexLess(b, a)))
  {
    if a != "" && b != "" && a[0] == b[0] {
      LexTrichotomy(a[1..], b[1..]);
      assert a == [a[0]] + a[1..] && b == [b[0]] + b[1..];
    } else if a != "" && a == b {
      assert false;
    }
  }

  lemma {:induction false} LexTransitive(a: string, b: string, c: string)
    requires LexLess(a, b) && LexLess(b, c)
    ensures LexLess(a, c)
  {
    if a != "" && a[0] == b[0] && b[0] == c[0] {
      LexTransitive(a[1..], b[1..], c[1..]);
    }
  }

  lemma {:induction false} LexPrefix(p: string, a: string, b: string)
    ensures LexLess(p + a, p + b) <==> LexLess(a, b)
  {
    if p == "" {
      assert p + a == a && p + b == b;
    } else {
      LexPrefix(p[1..], a, b);
      assert (p + a)[1..] == p[1..] + a && (p + b)[1..] == p[1..] + b;
    }
  }

  // ---------- printing ----------

  /** "%06d" uses at most k digits exactly for the numbers below 10^k. */
  lemma {:induction false} WidthBound(n: nat, k: nat)
    requires k >= 6
    ensures Width(n) <= k <==> n < Pow10(k)
  {
    if k == 6 {
      assert Pow10(6) == 1_000_000 by {
        assert Pow10(2) == 100;
        assert Pow10(4) == 10_000;
      }
    } else {
      Pow10Million(k);
      if n >= 1_000_000 {
        WidthBound(n / 10, k - 1);
      }
    }
  }

  lemma {:induction false} Pow10Million(k: nat)
    requires k >= 6
    ensures Pow10(k) >= 1_000_000
  {
    if k == 6 {
      assert Pow10(2) == 100;
      assert Pow10(4) == 10_000;
    } else {
      Pow10Million(k - 1);
    }
  }

  lemma LastDigit(n: nat, w: nat, s: string)
    requires w >= 1
    ensures Digits(n, w) + s == Digits(n / 10, w - 1) + ([DigitChar(n % 10)] + s)
  {
  }

  lemma DigitCharOrder(m: nat, n: nat, s: string, t: string)
    requires m < n < 10
    ensures LexLess([DigitChar(m)] + s, [DigitChar(n)] + t)
  {
  }

  lemma {:induction false} DigitsOrder(m: nat, n: nat, w: nat, s: string, t: string)
    requires m < n < Pow10(w)
    ensures LexLess(Digits(m, w) + s, Digits(n, w) + t)
  {
    hide Digits, DigitChar, LexLess;
    var s', t' := [DigitChar(m % 10)] + s, [DigitChar(n % 10)] + t;
    LastDigit(m, w, s);
    LastDigit(n, w, t);
    if m / 10 < n / 10 {
      DigitsOrder(m / 10, n / 10, w - 1, s', t');
    } else {
      DigitCharOrder(m % 10, n % 10, s, t);
      LexPrefix(Digits(m / 10, w - 1), s', t');
    }
  }

  /** What stands before the w - 1 low digits. */
  function Leading(n: nat, w: nat): int
    requires w >= 1
  {
    n / Pow10(w - 1)
  }

  lemma {:induction false} LeadingDigit(n: nat, w: nat)
    requires w >= 1 && n < Pow10(w)
    ensures 0 <= Leading(n, w) < 10
    ensures Digits(n, w)[0] == DigitChar(Leading(n, w))
  {
    if w > 1 {
      LeadingDigit(n / 10, w - 1);
      DivDiv(n, Pow10(w - 2));
    }
  }

  lemma DivDiv(n: nat, p: nat)
    requires p >= 1
    ensures (n / 10) / p == n / (10 * p)
  {
    var q, r := n / 10, n % 10;
    var a, b := q / p, q % p;
    assert n == 10 * (a * p + b) + r == a * (10 * p) + (10 * b + r);
    assert 10 * b + r < 10 * p;
    QuotientUnique(n, 10 * p, a, 10 * b + r);
  }

  lemma QuotientUnique(n: nat, d: nat, a: nat, r: nat)
    requires d >= 1 && n == a * d + r && r < d
    ensures n / d == a
  {
    var q := n / d;
    if q < a {
      MulMonotone(q + 1, a, d);
    } else if a < q {
      MulMonotone(a + 1, q, d);
    }
  }

  /** Names of the same width sort like their numbers. */
  lemma SameWidthOrder(m: nat, n: nat)
    requires m < n && Width(m) == Width(n)
    ensures LexLess(SegmentName(m), SegmentName(n))
  {
    WidthBound(n, Width(n));
    DigitsOrder(m, n, Width(n), SEGMENT_SUFFIX, SEGMENT_SUFFIX);
    var a, b := Digits(m, Width(m)) + SEGMENT_SUFFIX, Digits(n, Width(n)) + SEGMENT_SUFFIX;
    LexPrefix(SEGMENT_PREFIX, a, b);
    assert SegmentName(m) == SEGMENT_PREFIX + a && SegmentName(n) == SEGMENT_PREFIX + b;
  }

  lemma RolloverWidths(k: nat)
    requires k >= 6
    ensures Width(Pow10(k) - 1) == k && Width(Pow10(k)) == k + 1
  {
    var p := Pow10(k);
    WidthBound(p - 1, k);
    WidthBound(p, k);
    WidthBound(p, k + 1);
    if k > 6 {
      Pow10Million(k - 1);
      WidthBound(p - 1, k - 1);
    }
  }

  lemma RolloverLeadsOne(k: nat)
    requires k >= 1
    ensures Digits(Pow10(k), k + 1)[0] == '1'
  {
    hide Digits;
    var p := Pow10(k);
    LeadingDigit(p, k + 1);
    QuotientUnique(p, p, 1, 0);
  }

  lemma RolloverLeadsNine(k: nat)
    requires k >= 1
    ensures Digits(Pow10(k) - 1, k)[0] == '9'
  {
    hide Digits;
    var p, q := Pow10(k), Pow10(k - 1);
    LeadingDigit(p - 1, k);
    assert p - 1 == 9 * q + (q - 1);
    QuotientUnique(p - 1, q, 9, q - 1);
  }

  lemma NameParts(n: nat)
    ensures SegmentName(n) == SEGMENT_PREFIX + (Digits(n, Width(n)) + SEGMENT_SUFFIX)
  {
    hide Digits, Width;
  }

  lemma LexFirst(a: string, b: string)
    requires a != "" && b != "" && a[0] < b[0]
    ensures LexLess(a, b)
  {
  }

  /** 10^k prints one digit wider than 10^k - 1 and sorts before it. */
  lemma RolloverOrder(k: nat)
    requires k >= 6
    ensures LexLess(SegmentName(Pow10(k)), SegmentName(Pow10(k) - 1))
  {
    var p := Pow10(k);
    RolloverWidths(k);
    RolloverLeadsOne(k);
    RolloverLeadsNine(k);
    hide Digits, Width, Pow10;
    NameParts(p);
    NameParts(p - 1);
    hide SegmentName;
    var a, b := Digits(p, k + 1) + SEGMENT_SUFFIX, Digits(p - 1, k) + SEGMENT_SUFFIX;
    assert a[0] == '1' && b[0] == '9';
    LexFirst(a, b);
    hide LexLess;
    LexPrefix(SEGMENT_PREFIX, a, b);
  }

  lemma {:induction false} WidthMonotone(m: nat, n: nat)
    requires m <= n
    ensures Width(m) <= Width(n)
  {
    WidthBound(n, Width(n));
    WidthBound(m, Width(n));
  }

  /** The names of the segments lo, lo+1, ..., hi-1. */
  function RangeNames(lo: nat, hi: nat): (names: seq<string>)
    requires lo <= hi
    ensures |names| == hi - lo
    ensures forall i | 0 <= i < hi - lo :: names[i] == SegmentName(lo + i)
  {
    seq(hi - lo, i requires 0 <= i < hi - lo => SegmentName(lo + i))
  }

  /** A consecutive range of segments is listed in creation order exactly when its first and
      last names have the same width; the first range to break is one that passes 999999. */
  lemma RangeSortedExactly(lo: nat, hi: nat)
    requires lo < hi
    ensures Sorted(RangeNames(lo, hi)) <==> Width(lo) == Width(hi - 1)
  {
    hide SegmentName;
    var names := RangeNames(lo, hi);
    if Width(lo) == Width(hi - 1) {
      forall i, j | 0 <= i < j < |names| ensures LexLess(names[i], names[j]) {
        WidthMonotone(lo, lo + i);
        WidthMonotone(lo + i, lo + j);
        WidthMonotone(lo + j, hi - 1);
        SameWidthOrder(lo + i, lo + j);
      }
    } else {
      var k := Width(lo);
      WidthMonotone(lo, hi - 1);
      WidthBound(lo, k);
      WidthBound(hi - 1, k);
      var p := Pow10(k);
      RolloverOrder(k);
      RolloverWidths(k);
      LexTrichotomy(SegmentName(p - 1), SegmentName(p));
      assert names[p - 1 - lo] == SegmentName(p - 1) && names[p - lo] == SegmentName(p);
    }
  }

  lemma RangeSortedBelowMillion(lo: nat, hi: nat)
    requires lo <= hi <= 1_000_000
    ensures Sorted(RangeNames(lo, hi))
  {
    if lo < hi {
      RangeSortedExactly(lo, hi);
    }
  }

  /** A name whose number continues another's digits by one sorts behind it. */
  lemma ExtendedNameOrder(m: nat, n: nat)
    requires n / 10 == m && Width(n) == Width(m) + 1
    ensures LexLess(SegmentName(m), SegmentName(n))
  {
    var d := [DigitChar(n % 10)];
    var p := Digits(m, Width(m));
    assert Digits(n, Width(n)) == p + d;
    LexPrefix(p, SEGMENT_SUFFIX, d + SEGMENT_SUFFIX);
    LexPrefix(SEGMENT_PREFIX, p + SEGMENT_SUFFIX, p + (d + SEGMENT_SUFFIX));
    assert SegmentName(m) == SEGMENT_PREFIX + (p + SEGMENT_SUFFIX);
    assert SegmentName(n) == SEGMENT_PREFIX + (p + (d + SEGMENT_SUFFIX));
  }

  /** A name whose number is below another's without its last digit sorts before it, one wider. */
  lemma ShorterNameWins(h: nat, m: nat)
    requires h / 10 < m && Width(h) == Width(m) + 1
    ensures LexLess(SegmentName(h), SegmentName(m))
  {
    var w := Width(m);
    WidthBound(m, w);
    var d := [DigitChar(h % 10)];
    DigitsOrder(h / 10, m, w, d + SEGMENT_SUFFIX, SEGMENT_SUFFIX);
    var p, q := Digits(h / 10, w), Digits(m, w);
    assert Digits(h, Width(h)) == p + d;
    hide Digits, Width, LexLess;
    LexPrefix(SEGMENT_PREFIX, p + (d + SEGMENT_SUFFIX), q + SEGMENT_SUFFIX);
    assert SegmentName(h) == SEGMENT_PREFIX + (p + (d + SEGMENT_SUFFIX));
    assert SegmentName(m) == SEGMENT_PREFIX + (q + SEGMENT_SUFFIX);
  }

  /** 99...9 with v digits sorts behind every number of at most v digits. */
  lemma {:induction false} NinesAreLast(n: nat, v: nat)
    requires v >= 6 && Width(n) <= v && n != Pow10(v) - 1
    ensures LexLess(SegmentName(n), SegmentName(Pow10(v) - 1))
    decreases v
  {
    RolloverWidths(v);
    if Width(n) == v {
      WidthBound(n, v);
      SameWidthOrder(n, Pow10(v) - 1);
    } else {
      var nines := Pow10(v - 1) - 1;
      RolloverWidths(v - 1);
      NinesExtend(v - 1);
      ExtendedNameOrder(nines, Pow10(v) - 1);
      if n != nines {
        NinesAreLast(n, v - 1);
        LexTransitive(SegmentName(n), SegmentName(nines), SegmentName(Pow10(v) - 1));
      }
    }
  }

  lemma NinesExtend(v: nat)
    ensures (Pow10(v + 1) - 1) / 10 == Pow10(v) - 1
  {
    var p := Pow10(v);
    QuotientUnique(10 * p - 1, 10, p - 1, 9);
  }

  /** The last ten numbers of a width; their names sort behind all shorter ones. */
  predicate EndsItsWidth(n: nat) { n + 10 >= Pow10(Width(n)) }

  lemma EndOfWidthDigits(h: nat)
    requires Width(h) >= 7
    ensures h / 10 <= Pow10(Width(h) - 1) - 1
    ensures h / 10 == Pow10(Width(h) - 1) - 1 <==> EndsItsWidth(h)
  {
    WidthBound(h, Width(h));
    var p := Pow10(Width(h) - 1);
    assert Pow10(Width(h)) == 10 * p;
  }

  /** The highest number of a range has the last name exactly when the range keeps to one width or
      ends in the last ten numbers of its width. */
  lemma HighestIsLastExactly(lo: nat, hi: nat)
    requires lo < hi
    ensures (forall n | lo <= n < hi - 1 :: LexLess(SegmentName(n), SegmentName(hi - 1)))
            <==> Width(lo) == Width(hi - 1) || EndsItsWidth(hi - 1)
  {
    hide SegmentName, LexLess, Digits;
    var h := hi - 1;
    var w := Width(h);
    WidthMonotone(lo, h);
    if Width(lo) == w {
      forall n | lo <= n < h ensures LexLess(SegmentName(n), SegmentName(h)) {
        WidthMonotone(lo, n);
        WidthMonotone(n, h);
        SameWidthOrder(n, h);
      }
    } else {
      var nines := Pow10(w - 1) - 1;
      RolloverWidths(w - 1);
      EndOfWidthDigits(h);
      WidthBound(lo, w - 1);
      WidthBound(h, w - 1);
      if EndsItsWidth(h) {
        ExtendedNameOrder(nines, h);
        forall n | lo <= n < h ensures LexLess(SegmentName(n), SegmentName(h)) {
          NameBelowEnd(n, h, nines);
        }
      } else {
        ShorterNameWins(h, nines);
        LexTrichotomy(SegmentName(h), SegmentName(nines));
        assert lo <= nines < h;
      }
    }
  }

  lemma NameBelowEnd(n: nat, h: nat, nines: nat)
    requires n < h && Width(h) >= 7 && nines == Pow10(Width(h) - 1) - 1
    requires LexLess(SegmentName(nines), SegmentName(h))
    ensures LexLess(SegmentName(n), SegmentName(h))
  {
    WidthMonotone(n, h);
    if Width(n) == Width(h) {
      SameWidthOrder(n, h);
    } else if n != nines {
      NinesAreLast(n, Width(h) - 1);
      LexTransitive(SegmentName(n), SegmentName(nines), SegmentName(h));
    }
  }

  // ---------- parsing ----------

  function DigitValue(c: char): Option<nat> {
    if '0' <= c <= '9' then Some((c - '0') as nat) else None
  }

  function DecimalFrom(s: string, acc: nat): Option<nat> {
    if s == "" then Some(acc)
    else match DigitValue(s[0])
      case None => None
      case Some(d) => DecimalFrom(s[1..], 10 * acc + d)
  }

  /** The decimal number a string of digits spells. */
  function Atoi(s: string): Option<nat> {
    if s == "" then None else DecimalFrom(s, 0)
  }

  function TrimPrefix(s: string, p: string): string {
    if p <= s then s[|p|..] else s
  }

  function TrimSuffix(s: string, p: string): string {
    if |p| <= |s| && s[|s| - |p|..] == p then s[..|s| - |p|] else s
  }

  function ParseName(name: string): Option<nat> {
    Atoi(TrimSuffix(TrimPrefix(name, SEGMENT_PREFIX), SEGMENT_SUFFIX))
  }

  lemma {:induction false} DecimalFromSnoc(s: string, acc: nat, d: nat)
    requires d < 10 && DecimalFrom(s, acc).Some?
    ensures DecimalFrom(s + [DigitChar(d)], acc) == Some(10 * DecimalFrom(s, acc).value + d)
  {
    if s == "" {
      assert s + [DigitChar(d)] == [DigitChar(d)];
    } else {
      DecimalFromSnoc(s[1..], 10 * acc + DigitValue(s[0]).value, d);
      assert (s + [DigitChar(d)])[1..] == s[1..] + [DigitChar(d)];
    }
  }

  lemma {:induction false} DigitsParse(n: nat, w: nat)
    requires n < Pow10(w)
    ensures DecimalFrom(Digits(n, w), 0) == Some(n)
  {
    if w > 0 {
      DigitsParse(n / 10, w - 1);
      DecimalFromSnoc(Digits(n / 10, w - 1), 0, n % 10);
    }
  }

  /** Parsing a segment name gives back the number it was printed from, whatever its width. */
  lemma ParseInvertsPrint(n: nat)
    ensures ParseName(SegmentName(n)) == Some(n)
  {
    WidthBound(n, Width(n));
    DigitsParse(n, Width(n));
    var digits := Digits(n, Width(n));
    assert SegmentName(n) == SEGMENT_PREFIX + (digits + SEGMENT_SUFFIX);
    assert TrimPrefix(SegmentName(n), SEGMENT_PREFIX) == digits + SEGMENT_SUFFIX;
    assert TrimSuffix(digits + SEGMENT_SUFFIX, SEGMENT_SUFFIX) == digits;
  }

  /** Names are "segment-", at least six digits, and ".log". */
  lemma NamesPrinted(n: nat)
    ensures SegmentName(n) == "segment-" + Digits(n, Width(n)) + ".log"
    ensures n < 1_000_000 ==> Width(n) == 6
    ensures SegmentName(42) == "segment-000042.log"
    ensures SegmentName(1_000_042) == "segment-1000042.log"
  {
    Widths(n);
    DigitsOf42();
    hide Digits, Width;
    assert "segment-" + "000042" + ".log" == "segment-000042.log";
    assert "segment-" + "1000042" + ".log" == "segment-1000042.log";
  }

  lemma Widths(n: nat)
    ensures n < 1_000_000 ==> Width(n) == 6
    ensures Width(42) == 6 && Width(1_000_042) == 7
  {
    assert Width(100_004) == 6;
  }

  lemma OneMoreDigit(n: nat, d: nat, w: nat)
    requires d < 10
    ensures Digits(10 * n + d, w + 1) == Digits(n, w) + [DigitChar(d)]
  {
    hide DigitChar;
    assert (10 * n + d) / 10 == n && (10 * n + d) % 10 == d;
  }

  lemma NoDigits()
    ensures Digits(0, 0) == ""
  {
  }

  lemma DigitsOf42()
    ensures Digits(42, 6) == "000042" && Digits(1_000_042, 7) == "1000042"
  {
    NoDigits();
    hide Digits;
    OneMoreDigit(0, 0, 0);
    OneMoreDigit(0, 0, 1);
    OneMoreDigit(0, 0, 2);
    OneMoreDigit(0, 0, 3);
    OneMoreDigit(0, 4, 4);
    OneMoreDigit(4, 2, 5);
    OneMoreDigit(0, 1, 0);
    OneMoreDigit(1, 0, 1);
    OneMoreDigit(10, 0, 2);
    OneMoreDigit(100, 0, 3);
    OneMoreDigit(1_000, 0, 4);
    OneMoreDigit(10_000, 4, 5);
    OneMoreDigit(100_004, 2, 6);
  }

  lemma NameInjective(m: nat, n: nat)
    requires SegmentName(m) == SegmentName(n)
    ensures m == n
  {
    ParseInvertsPrint(m);
    ParseInvertsPrint(n);
  }

  // ---------- listing a directory ----------

  /** Puts name at its place in a sorted list. */
  function Insert(name: string, names: seq<string>): (r: seq<string>) {
    if names == [] || LexLess(name, names[0]) then [name] + names
    else [names[0]] + Insert(name, names[1..])
  }

  lemma {:induction false} InsertKeepsSorted(name: string, names: seq<string>)
    requires Sorted(names) && name !in names
    ensures Sorted(Insert(name, names))
    ensures forall x :: x in Insert(name, names) <==> x == name || x in names
  {
    if names != [] {
      LexTrichotomy(name, names[0]);
      if LexLess(name, names[0]) {
        forall j | 0 <= j < |names| ensures LexLess(name, names[j]) {
          if j > 0 { LexTransitive(name, names[0], names[j]); }
        }
      } else {
        var tail := Insert(name, names[1..]);
        InsertKeepsSorted(name, names[1..]);
        forall j | 0 <= j < |tail| ensures LexLess(names[0], tail[j]) {
          assert tail[j] in tail;
          assert forall i | 1 <= i < |names| :: LexLess(names[0], names[i]);
        }
        assert names == [names[0]] + names[1..];
      }
    }
  }

  /** The names of a directory in sorted order. */
  ghost function Listing(names: set<string>): (l: seq<string>)
    ensures Sorted(l)
    ensures forall x :: x in l <==> x in names
  {
    if names == {} then []
    else
      var name :| name in names;
      InsertKeepsSorted(name, Listing(names - {name}));
      Insert(name, Listing(names - {name}))
  }

  lemma NothingListed()
    ensures Listing({}) == []
  {
  }

  /** A set of names has only one sorted listing. */
  lemma {:induction false} SortedUnique(a: seq<string>, b: seq<string>)
    requires Sorted(a) && Sorted(b)
    requires forall x :: x in a <==> x in b
    ensures a == b
  {
    assert a != [] ==> a[0] in b;
    assert b != [] ==> b[0] in a;
    if a != [] {
      HeadLeast(a, b);
      HeadLeast(b, a);
      LexTrichotomy(a[0], b[0]);
      forall x ensures x in a[1..] <==> x in b[1..] {
        TailMembers(a, x);
        TailMembers(b, x);
      }
      SortedUnique(a[1..], b[1..]);
      assert a == [a[0]] + a[1..] && b == [b[0]] + b[1..];
    }
  }

  lemma HeadLeast(a: seq<string>, b: seq<string>)
    requires Sorted(a) && a != [] && b != [] && b[0] in a
    ensures a[0] == b[0] || LexLess(a[0], b[0])
  {
  }

  lemma TailMembers(a: seq<string>, x: string)
    requires Sorted(a) && a != []
    ensures x in a[1..] <==> x in a && x != a[0]
  {
    LexTrichotomy(a[0], a[0]);
    if x in a[1..] {
      var i :| 0 <= i < |a[1..]| && a[1..][i] == x;
      assert LexLess(a[0], a[i + 1]);
    }
  }
}
