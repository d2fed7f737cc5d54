/** Vocabulary shared by the model: bytes, log lines, parsed entries and sequence helpers. */
module Prelude {

  datatype Option<+T> = None | Some(value: T)

  newtype byte = x: int | 0 <= x < 256

  /** A log line as the program handles it: its bytes, without the newline. */
  type Line = seq<byte>

  /** A parsed log line: field names and their values. */
  type Entry = map<string, string>

  function Min(a: int, b: int): int { if a <= b then a else b }

  function Max(a: int, b: int): int { if a >= b then a else b }

  function Pow2(n: nat): (p: nat)
    ensures p >= 1
  {
    if n == 0 then 1 else 2 * Pow2(n - 1)
  }

  /** Two's-complement wrap-around of a 64-bit signed integer. */
  function Wrap64(x: int): int {
    (x + 0x8000_0000_0000_0000) % 0x1_0000_0000_0000_0000 - 0x8000_0000_0000_0000
  }

  predicate IsInt64(x: int) { -0x8000_0000_0000_0000 <= x < 0x8000_0000_0000_0000 }

  /** xs repeated n times. */
  function Repeat<T>(xs: seq<T>, n: nat): seq<T> {
    if n == 0 then [] else Repeat(xs, n - 1) + xs
  }

  lemma ConcatAssociates<T>(a: seq<T>, b: seq<T>, c: seq<T>)
    ensures a + (b + c) == (a + b) + c
  {
  }

  /** The elements of xs that satisfy p, in order. */
  function Filter<T>(p: T -> bool, xs: seq<T>): (r: seq<T>) {
    if xs == [] then []
    else (if p(xs[0]) then [xs[0]] else []) + Filter(p, xs[1..])
  }

  lemma {:induction false} FilterConcat<T>(p: T -> bool, a: seq<T>, b: seq<T>)
    ensures Filter(p, a + b) == Filter(p, a) + Filter(p, b)
  {
    if a == [] {
      assert a + b == b;
    } else {
      FilterConcat(p, a[1..], b);
      assert (a + b)[1..] == a[1..] + b;
      ConcatAssociates(if p(a[0]) then [a[0]] else [], Filter(p, a[1..]), Filter(p, b));
    }
  }

  lemma FilterOne<T>(p: T -> bool, x: T)
    ensures Filter(p, [x]) == if p(x) then [x] else []
  {
  }

  lemma FilterSnoc<T>(p: T -> bool, xs: seq<T>)
    requires xs != []
    ensures var init, last := xs[..|xs| - 1], xs[|xs| - 1];
            && (p(last) ==> Filter(p, xs) == Filter(p, init) + [last])
            && (!p(last) ==> Filter(p, xs) == Filter(p, init))
  {
    var init, last := xs[..|xs| - 1], xs[|xs| - 1];
    FilterOne(p, last);
    FilterConcat(p, init, [last]);
    assert xs == init + [last];
    hide Filter;
    if !p(last) { assert Filter(p, init) + [] == Filter(p, init); }
  }

  /** Two predicates that agree on xs select the same elements. */
  lemma {:induction false} FilterAgree<T>(p: T -> bool, q: T -> bool, xs: seq<T>)
    requires forall x | x in xs :: p(x) == q(x)
    ensures Filter(p, xs) == Filter(q, xs)
  {
    if xs != [] {
      FilterAgree(p, q, xs[1..]);
    }
  }

  function Both<T>(p: T -> bool, q: T -> bool): T -> bool { x => p(x) && q(x) }

  lemma {:induction false} FilterFilter<T>(p: T -> bool, q: T -> bool, xs: seq<T>)
    ensures Filter(q, Filter(p, xs)) == Filter(Both(p, q), xs)
  {
    if xs != [] {
      var head := if p(xs[0]) then [xs[0]] else [];
      FilterConcat(q, head, Filter(p, xs[1..]));
      FilterFilter(p, q, xs[1..]);
    }
  }

  // ---------- picking elements in order ----------

  /** How many elements of xs f has a value for. */
  ghost function CountSome<T(!new), U(!new)>(f: T -> Option<U>, xs: seq<T>): nat {
    |set k: nat | k < |xs| && f(xs[k]).Some?|
  }

  /** ys are the values of f on xs, one for each element it has a value for, in order: the value of
      the k-th element stands at the number of such elements before it. */
  ghost predicate PicksInOrder<T(!new), U(!new)>(f: T -> Option<U>, xs: seq<T>, ys: seq<U>) {
    && |ys| == CountSome(f, xs)
    && forall k: nat | k < |xs| && f(xs[k]).Some? ::
         var place := CountSome(f, xs[..k]); place < |ys| && ys[place] == f(xs[k]).value
  }

  lemma CountSnoc<T(!new), U(!new)>(f: T -> Option<U>, xs: seq<T>, x: T)
    ensures CountSome(f, xs + [x]) == CountSome(f, xs) + if f(x).Some? then 1 else 0
  {
    var all := xs + [x];
    var before := set k: nat | k < |xs| && f(xs[k]).Some?;
    var after := set k: nat | k < |all| && f(all[k]).Some?;
    if f(x).Some? {
      assert after == before + {|xs|};
    } else {
      assert after == before;
    }
  }

  lemma PicksNone<T(!new), U(!new)>(f: T -> Option<U>)
    ensures PicksInOrder(f, [], [])
  {
    var xs: seq<T> := [];
    assert (set k: nat | k < |xs| && f(xs[k]).Some?) == {};
  }

  /** One element more, and its value if it has one. */
  lemma PicksSnoc<T(!new), U(!new)>(f: T -> Option<U>, xs: seq<T>, ys: seq<U>, x: T)
    requires PicksInOrder(f, xs, ys)
    ensures f(x).Some? ==> PicksInOrder(f, xs + [x], ys + [f(x).value])
    ensures f(x).None? ==> PicksInOrder(f, xs + [x], ys)
  {
    CountSnoc(f, xs, x);
    hide CountSome;
    var all := xs + [x];
    assert all[..|xs|] == xs;
    assert forall k: nat | k < |xs| :: all[..k] == xs[..k] && all[k] == xs[k];
  }

  lemma CountAgree<T(!new), U(!new)>(f: T -> Option<U>, g: T -> Option<U>, xs: seq<T>)
    requires forall x | x in xs :: f(x) == g(x)
    ensures CountSome(f, xs) == CountSome(g, xs)
  {
    assert (set k: nat | k < |xs| && f(xs[k]).Some?) == (set k: nat | k < |xs| && g(xs[k]).Some?);
  }

  /** Two functions that agree on xs pick the same. */
  lemma PicksAgree<T(!new), U(!new)>(f: T -> Option<U>, g: T -> Option<U>, xs: seq<T>, ys: seq<U>)
    requires forall x | x in xs :: f(x) == g(x)
    requires PicksInOrder(f, xs, ys)
    ensures PicksInOrder(g, xs, ys)
  {
    hide CountSome;
    CountAgree(f, g, xs);
    forall k: nat | k < |xs| && g(xs[k]).Some?
      ensures CountSome(g, xs[..k]) < |ys| && ys[CountSome(g, xs[..k])] == g(xs[k]).value
    {
      assert xs[k] in xs;
      CountAgree(f, g, xs[..k]);
    }
  }

  /** x itself where p holds. */
  ghost function OnlyIf<T>(p: T -> bool): T -> Option<T> { x => if p(x) then Some(x) else None }

  lemma {:induction false} FilterPicks<T(!new)>(p: T -> bool, xs: seq<T>)
    ensures PicksInOrder(OnlyIf(p), xs, Filter(p, xs))
  {
    hide Filter, PicksInOrder;
    if xs == [] {
      PicksNone(OnlyIf(p));
      FilterNothing(p);
    } else {
      var init, last := xs[..|xs| - 1], xs[|xs| - 1];
      FilterPicks(p, init);
      FilterSnoc(p, xs);
      PicksSnoc(OnlyIf(p), init, Filter(p, init), last);
      assert xs == init + [last];
    }
  }

  lemma FilterNothing<T>(p: T -> bool)
    ensures Filter(p, []) == []
  {
  }

  /** 0, 1, ..., n - 1. */
  function Positions(n: nat): (p: seq<nat>)
    ensures |p| == n && forall k | 0 <= k < n :: p[k] == k
  {
    seq(n, k => k)
  }

  lemma MulSucc(n: nat, c: nat)
    ensures (n + 1) * c == n * c + c
  {
  }

  lemma {:induction false} MulMonotone(a: nat, b: nat, c: nat)
    requires a <= b
    ensures a * c <= b * c
  {
    assert (b - a) * c >= 0;
  }
}
