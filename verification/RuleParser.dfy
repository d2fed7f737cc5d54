/** The compact FILTER_RULES syntax: expr:action[:rate] entries separated by semicolons. */
module RuleParser {
  import opened Prelude

  datatype FilterRule = FilterRule(expr: string, action: string, sampleRate: real)

  /** A decimal number parser. */
  type ParseFloat = string -> Option<real>

  // ---------- string primitives ----------

  /** Unicode white space. */
  predicate IsSpace(c: char) {
    || c == ' ' || '\t' <= c <= '\r' || c == '\U{85}' || c == '\U{A0}' || c == '\U{1680}'
    || '\U{2000}' <= c <= '\U{200A}' || c == '\U{2028}' || c == '\U{2029}' || c == '\U{202F}'
    || c == '\U{205F}' || c == '\U{3000}'
  }

  function TrimLeft(s: string): string {
    if s != "" && IsSpace(s[0]) then TrimLeft(s[1..]) else s
  }

  function TrimRight(s: string): string {
    if s != "" && IsSpace(s[|s| - 1]) then TrimRight(s[..|s| - 1]) else s
  }

  function TrimSpace(s: string): string { TrimRight(TrimLeft(s)) }

  /** Neither end is white space. */
  predicate Trimmed(s: string) { s != "" ==> !IsSpace(s[0]) && !IsSpace(s[|s| - 1]) }

  /** The position of the first sep, or the length. */
  function Find(s: string, sep: char): (i: nat)
    ensures i <= |s|
    ensures i < |s| ==> s[i] == sep
    ensures forall k | 0 <= k < i :: s[k] != sep
  {
    if s == "" || s[0] == sep then 0 else Find(s[1..], sep) + 1
  }

  /** All the parts between separators. */
  function Split(s: string, sep: char): (parts: seq<string>)
    ensures parts != []
    decreases |s|
  {
    var i := Find(s, sep);
    if i == |s| then [s] else [s[..i]] + Split(s[i + 1..], sep)
  }

  /** At most n parts; the last one keeps the separators in it. */
  function SplitN(s: string, sep: char, n: nat): (parts: seq<string>)
    requires n >= 1
    ensures 1 <= |parts| <= n
    decreases n
  {
    var i := Find(s, sep);
    if n == 1 || i == |s| then [s] else [s[..i]] + SplitN(s[i + 1..], sep, n - 1)
  }

  // ---------- the parser ----------

  /** The rule an entry stands for; None when the entry is blank or malformed. */
  function ParseEntry(parseFloat: ParseFloat, entry: string): Option<FilterRule> {
    var part := TrimSpace(entry);
    var tokens := SplitN(part, ':', 3);
    if part == "" || |tokens| < 2 then None
    else if |tokens| == 2 then Some(FilterRule(TrimSpace(tokens[0]), TrimSpace(tokens[1]), 0.0))
    else match parseFloat(TrimSpace(tokens[2]))
      case None => None
      case Some(rate) => Some(FilterRule(TrimSpace(tokens[0]), TrimSpace(tokens[1]), rate))
  }

  function ParseEntries(parseFloat: ParseFloat, entries: seq<string>): seq<FilterRule> {
    if entries == [] then []
    else
      var n := |entries| - 1;
      match ParseEntry(parseFloat, entries[n])
      case None => ParseEntries(parseFloat, entries[..n])
      case Some(rule) => ParseEntries(parseFloat, entries[..n]) + [rule]
  }

  function Parse(parseFloat: ParseFloat, v: string): seq<FilterRule> {
    ParseEntries(parseFloat, Split(v, ';'))
  }

  class Config {
    var filters: seq<FilterRule>

    constructor (filters: seq<FilterRule>)
      ensures this.filters == filters
    {
      this.filters := filters;
    }

    /** Replaces the configured rules by those of the variable, unless it is empty. */
    method SetFilterRules(parseFloat: ParseFloat, v: string)
      modifies this
      ensures filters == if v == "" then old(filters) else Parse(parseFloat, v)
    {
      if v == "" {
        return;
      }
      var rules := [];
      var parts := Split(v, ';');
      for i := 0 to |parts|
        invariant rules == ParseEntries(parseFloat, parts[..i])
      {
        assert parts[..i + 1][..i] == parts[..i];
        var part := TrimSpace(parts[i]);
        if part == "" {
          continue;
        }
        var tokens := SplitN(part, ':', 3);
        if |tokens| < 2 {
          continue;
        }
        var rule := FilterRule(TrimSpace(tokens[0]), TrimSpace(tokens[1]), 0.0);
        if |tokens| == 3 {
          var rate := parseFloat(TrimSpace(tokens[2]));
          if rate.None? {
            continue;
          }
          rule := rule.(sampleRate := rate.value);
        }
        rules := rules + [rule];
      }
      assert parts[..|parts|] == parts;
      filters := rules;
    }
  }

  // ---------- entries do not affect each other ----------

  lemma FindIs(s: string, sep: char, i: nat)
    requires i < |s| && s[i] == sep && forall k | 0 <= k < i :: s[k] != sep
    ensures Find(s, sep) == i
  {
  }

  lemma FindNone(s: string, sep: char)
    requires sep !in s
    ensures Find(s, sep) == |s|
  {
    assert forall k | 0 <= k < |s| :: s[k] != sep;
  }

  lemma {:induction false} SplitJoin(a: string, b: string, sep: char)
    ensures Split(a + [sep] + b, sep) == Split(a, sep) + Split(b, sep)
    decreases |a|
  {
    var s := a + [sep] + b;
    var i := Find(a, sep);
    if i == |a| {
      assert a[..|a|] == a;
      assert s[..i] == a;
      FindIs(s, sep, i);
      assert s[i + 1..] == b;
    } else {
      assert s[..i] == a[..i];
      FindIs(s, sep, i);
      assert s[i + 1..] == a[i + 1..] + [sep] + b;
      SplitJoin(a[i + 1..], b, sep);
      ConcatAssociates([a[..i]], Split(a[i + 1..], sep), Split(b, sep));
    }
  }

  lemma {:induction false} ParseEntriesConcat(parseFloat: ParseFloat, a: seq<string>, b: seq<string>)
    ensures ParseEntries(parseFloat, a + b) == ParseEntries(parseFloat, a) + ParseEntries(parseFloat, b)
  {
    if b == [] {
      assert a + b == a;
    } else {
      var n := |b| - 1;
      assert (a + b)[..|a + b| - 1] == a + b[..n];
      ParseEntriesConcat(parseFloat, a, b[..n]);
    }
  }

  /** Whatever stands on either side of a semicolon is parsed on its own: a malformed or blank
      entry is skipped and changes nothing about its neighbours. */
  lemma {:induction false} SemicolonSeparates(parseFloat: ParseFloat, a: string, b: string)
    ensures Parse(parseFloat, a + ";" + b) == Parse(parseFloat, a) + Parse(parseFloat, b)
  {
    SplitJoin(a, b, ';');
    ParseEntriesConcat(parseFloat, Split(a, ';'), Split(b, ';'));
  }

  // ---------- printing and parsing back ----------

  /** A rule as text; a rate of None is left out. */
  function PrintRule(rule: FilterRule, rate: Option<string>): string {
    rule.expr + ":" + rule.action + if rate.Some? then ":" + rate.value else ""
  }

  function Join(parts: seq<string>, sep: string): string
    requires parts != []
  {
    if |parts| == 1 then parts[0] else parts[0] + sep + Join(parts[1..], sep)
  }

  predicate Plain(s: string) { Trimmed(s) && ':' !in s && ';' !in s }

  /** text is a printing of rule: its expression and action need no quoting and its rate, unless
      left out, reads back as the rule's. */
  ghost predicate Prints(parseFloat: ParseFloat, rule: FilterRule, text: string) {
    && Plain(rule.expr) && Plain(rule.action)
    && ((rule.sampleRate == 0.0 && text == PrintRule(rule, None))
        || exists rate: string :: Trimmed(rate) && ';' !in rate
                                  && parseFloat(rate) == Some(rule.sampleRate) && text == PrintRule(rule, Some(rate)))
  }

  lemma TrimNothing(s: string)
    requires Trimmed(s)
    ensures TrimSpace(s) == s
  {
  }

  lemma TokensOfTwo(a: string, b: string)
    requires ':' !in a && ':' !in b
    ensures SplitN(a + ":" + b, ':', 3) == [a, b]
  {
    var s := a + ":" + b;
    assert s[..|a|] == a && s[|a| + 1..] == b;
    FindIs(s, ':', |a|);
    FindNone(b, ':');
  }

  lemma TokensOfThree(a: string, b: string, c: string)
    requires ':' !in a && ':' !in b
    ensures SplitN(a + ":" + b + ":" + c, ':', 3) == [a, b, c]
  {
    var s, t := a + ":" + b + ":" + c, b + ":" + c;
    assert s[..|a|] == a && s[|a| + 1..] == t;
    assert t[..|b|] == b && t[|b| + 1..] == c;
    FindIs(s, ':', |a|);
    FindIs(t, ':', |b|);
  }

  lemma PrintedIsTrimmed(rule: FilterRule, rate: Option<string>)
    requires Plain(rule.expr) && Plain(rule.action) && (rate.Some? ==> Trimmed(rate.value))
    ensures Trimmed(PrintRule(rule, rate)) && PrintRule(rule, rate) != ""
  {
  }

  lemma PlainEntry(parseFloat: ParseFloat, rule: FilterRule)
    requires Plain(rule.expr) && Plain(rule.action) && rule.sampleRate == 0.0
    ensures ParseEntry(parseFloat, PrintRule(rule, None)) == Some(rule)
  {
    hide TrimSpace, SplitN;
    var text := PrintRule(rule, None);
    assert text == rule.expr + ":" + rule.action;
    TrimNothing(rule.expr);
    TrimNothing(rule.action);
    PrintedIsTrimmed(rule, None);
    TrimNothing(text);
    TokensOfTwo(rule.expr, rule.action);
    hide Trimmed;
  }

  lemma SampledEntry(parseFloat: ParseFloat, rule: FilterRule, rate: string)
    requires Plain(rule.expr) && Plain(rule.action) && Trimmed(rate) && parseFloat(rate) == Some(rule.sampleRate)
    ensures ParseEntry(parseFloat, PrintRule(rule, Some(rate))) == Some(rule)
  {
    hide TrimSpace, SplitN;
    var text := PrintRule(rule, Some(rate));
    assert text == rule.expr + ":" + rule.action + ":" + rate;
    TrimNothing(rule.expr);
    TrimNothing(rule.action);
    TrimNothing(rate);
    PrintedIsTrimmed(rule, Some(rate));
    TrimNothing(text);
    TokensOfThree(rule.expr, rule.action, rate);
    hide Trimmed;
  }

  lemma EntryRoundTrip(parseFloat: ParseFloat, rule: FilterRule, text: string)
    requires Prints(parseFloat, rule, text)
    ensures ParseEntry(parseFloat, text) == Some(rule)
    ensures ';' !in text
  {
    hide ParseEntry;
    if rule.sampleRate == 0.0 && text == PrintRule(rule, None) {
      PlainEntry(parseFloat, rule);
    } else {
      var rate: string :| Trimmed(rate) && ';' !in rate && parseFloat(rate) == Some(rule.sampleRate)
          && text == PrintRule(rule, Some(rate));
      SampledEntry(parseFloat, rule, rate);
    }
  }

  lemma SingleEntry(parseFloat: ParseFloat, text: string)
    requires ';' !in text
    ensures Parse(parseFloat, text) == match ParseEntry(parseFloat, text) case None => [] case Some(rule) => [rule]
  {
    FindNone(text, ';');
    assert Split(text, ';') == [text];
    var parts := [text];
    assert parts[..|parts| - 1] == [];
    assert ParseEntries(parseFloat, parts[..|parts| - 1]) == [];
    assert ParseEntries(parseFloat, parts)
           == match ParseEntry(parseFloat, text) case None => [] case Some(rule) => [] + [rule];
  }

  /** An entry of plain parts with a rate gives one rule, with that rate, exactly when the trimmed
      rate is a number, and no rule otherwise. */
  lemma RateDecides(parseFloat: ParseFloat, expr: string, action: string, rate: string)
    requires Plain(expr) && Plain(action) && ';' !in rate
    ensures var rules := Parse(parseFloat, expr + ":" + action + ":" + rate);
            match parseFloat(TrimSpace(rate))
            case None => rules == []
            case Some(number) => rules == [FilterRule(expr, action, number)]
  {
    hide ParseEntry, TrimSpace, Parse;
    var text := expr + ":" + action + ":" + rate;
    RatedEntry(parseFloat, expr, action, rate);
    SingleEntry(parseFloat, text);
  }

  /** Trimming an entry trims its rate only: the parts before it are plain. */
  lemma RatedEntry(parseFloat: ParseFloat, expr: string, action: string, rate: string)
    requires Plain(expr) && Plain(action)
    ensures ParseEntry(parseFloat, expr + ":" + action + ":" + rate)
            == match parseFloat(TrimSpace(rate)) case None => None case Some(n) => Some(FilterRule(expr, action, n))
  {
    hide TrimSpace, SplitN;
    var tail := TrimRight(rate);
    var head := expr + ":" + action + ":";
    TrimAfter(head, rate);
    assert expr + ":" + action + ":" + rate == head + rate;
    assert expr + ":" + action + ":" + tail == head + tail;
    TrimNothing(expr);
    TrimNothing(action);
    TokensOfThree(expr, action, tail);
    TrimTwice(rate);
    hide Trimmed;
  }

  /** White space is trimmed off behind a text that neither starts nor ends with it. */
  lemma TrimAfter(head: string, s: string)
    requires head != "" && Trimmed(head)
    ensures TrimSpace(head + s) == head + TrimRight(s)
  {
    hide IsSpace;
    assert TrimLeft(head + s) == head + s;
    TrimRightAfter(head, s);
  }

  lemma {:induction false} TrimRightAfter(head: string, s: string)
    requires head != "" && !IsSpace(head[|head| - 1])
    ensures TrimRight(head + s) == head + TrimRight(s)
  {
    hide IsSpace;
    if s == "" {
      assert head + s == head;
    } else if IsSpace(s[|s| - 1]) {
      assert (head + s)[..|head + s| - 1] == head + s[..|s| - 1];
      TrimRightAfter(head, s[..|s| - 1]);
    }
  }

  lemma {:induction false} TrimTwice(s: string)
    ensures TrimSpace(TrimRight(s)) == TrimSpace(s)
  {
    hide IsSpace;
    if s != "" && IsSpace(s[|s| - 1]) {
      TrimTwice(s[..|s| - 1]);
      TrimLeftDrop(s);
    }
  }

  lemma {:induction false} TrimLeftDrop(s: string)
    requires s != "" && IsSpace(s[|s| - 1])
    ensures TrimSpace(s[..|s| - 1]) == TrimSpace(s)
  {
    hide IsSpace;
    if |s| == 1 {
      assert s[1..] == "" == s[..|s| - 1];
    } else if IsSpace(s[0]) {
      assert s[1..][..|s| - 2] == s[..|s| - 1][1..];
      assert s[1..][|s| - 2] == s[|s| - 1];
      TrimLeftDrop(s[1..]);
    } else {
      assert TrimLeft(s[..|s| - 1]) == s[..|s| - 1];
    }
  }

  /** Without a colon an entry stands for no rule: blank or malformed. */
  lemma NoColonNoRule(parseFloat: ParseFloat, text: string)
    requires ';' !in text && ':' !in text
    ensures Parse(parseFloat, text) == []
  {
    hide IsSpace, TrimSpace, Parse;
    TrimSpaceIs(text, ':');
    FindNone(TrimSpace(text), ':');
    SingleEntry(parseFloat, text);
  }

  /** Printing any list of rules and parsing it gives the list back. */
  lemma {:induction false} RulesRoundTrip(parseFloat: ParseFloat, rules: seq<FilterRule>, texts: seq<string>)
    requires |rules| == |texts| >= 1
    requires forall i | 0 <= i < |rules| :: Prints(parseFloat, rules[i], texts[i])
    ensures Parse(parseFloat, Join(texts, ";")) == rules
  {
    EntryRoundTrip(parseFloat, rules[0], texts[0]);
    SingleEntry(parseFloat, texts[0]);
    hide Parse, ParseEntry, Prints;
    if |texts| == 1 {
      assert rules == [rules[0]];
    } else {
      RulesRoundTrip(parseFloat, rules[1..], texts[1..]);
      SemicolonSeparates(parseFloat, texts[0], Join(texts[1..], ";"));
      assert rules == [rules[0]] + rules[1..];
    }
  }

  // ---------- what a rule must be to come back ----------

  lemma {:induction false} TrimLeftIs(s: string, c: char)
    ensures TrimLeft(s) != "" ==> !IsSpace(TrimLeft(s)[0])
    ensures c in TrimLeft(s) ==> c in s
  {
    hide IsSpace;
    if s != "" && IsSpace(s[0]) { TrimLeftIs(s[1..], c); }
  }

  lemma {:induction false} TrimRightIs(s: string, c: char)
    ensures var r := TrimRight(s); r != "" ==> !IsSpace(r[|r| - 1]) && s != "" && r[0] == s[0]
    ensures c in TrimRight(s) ==> c in s
  {
    hide IsSpace;
    if s != "" && IsSpace(s[|s| - 1]) { TrimRightIs(s[..|s| - 1], c); }
  }

  lemma TrimSpaceIs(s: string, c: char)
    ensures Trimmed(TrimSpace(s))
    ensures c in TrimSpace(s) ==> c in s
  {
    hide IsSpace, TrimLeft, TrimRight;
    TrimLeftIs(s, c);
    TrimRightIs(TrimLeft(s), c);
    var r := TrimSpace(s);
    assert r == TrimRight(TrimLeft(s));
    if r != "" { assert r[0] == TrimLeft(s)[0]; }
  }

  lemma {:induction false} PartsOfSplit(s: string, sep: char)
    ensures forall p | p in Split(s, sep) :: sep !in p
    decreases |s|
  {
    var i := Find(s, sep);
    if i < |s| { PartsOfSplit(s[i + 1..], sep); }
  }

  /** What splitting off the first token leaves. */
  lemma SplitNUnfold(s: string, n: nat)
    requires n > 1
    ensures var i := Find(s, ':');
            SplitN(s, ':', n) == if i == |s| then [s] else [s[..i]] + SplitN(s[i + 1..], ':', n - 1)
  {
  }

  /** The first two tokens hold no colon, and no character that the entry does not hold. */
  lemma FirstTokens(s: string, c: char)
    ensures var tokens := SplitN(s, ':', 3);
            |tokens| >= 2 ==> ':' !in tokens[0] && ':' !in tokens[1] && (c in tokens[0] || c in tokens[1] ==> c in s)
  {
    hide SplitN, Find;
    var i := Find(s, ':');
    SplitNUnfold(s, 3);
    if i < |s| {
      var rest := s[i + 1..];
      SplitNUnfold(rest, 2);
      var tokens := SplitN(s, ':', 3);
      assert tokens[0] == s[..i];
      assert tokens[1] == rest[..Find(rest, ':')];
    }
  }

  lemma ParsedIsPlain(parseFloat: ParseFloat, entry: string)
    requires ';' !in entry && ParseEntry(parseFloat, entry).Some?
    ensures var rule := ParseEntry(parseFloat, entry).value; Plain(rule.expr) && Plain(rule.action)
  {
    hide TrimSpace, SplitN, Trimmed;
    var part := TrimSpace(entry);
    TrimSpaceIs(entry, ';');
    FirstTokens(part, ';');
    var tokens := SplitN(part, ':', 3);
    TrimSpaceIs(tokens[0], ':');
    TrimSpaceIs(tokens[0], ';');
    TrimSpaceIs(tokens[1], ':');
    TrimSpaceIs(tokens[1], ';');
  }

  lemma {:induction false} EntriesArePlain(parseFloat: ParseFloat, entries: seq<string>)
    requires forall e | e in entries :: ';' !in e
    ensures forall r | r in ParseEntries(parseFloat, entries) :: Plain(r.expr) && Plain(r.action)
  {
    hide ParseEntry, Plain;
    if entries != [] {
      var n := |entries| - 1;
      EntriesArePlain(parseFloat, entries[..n]);
      assert entries[n] in entries;
      if ParseEntry(parseFloat, entries[n]).Some? { ParsedIsPlain(parseFloat, entries[n]); }
    }
  }

  /** A rule printed without a rate parses back to itself exactly when its expression and action
      are trimmed and hold no colon or semicolon, and its rate is zero. */
  lemma {:induction false} RuleRoundTripsExactly(parseFloat: ParseFloat, rule: FilterRule)
    ensures Parse(parseFloat, PrintRule(rule, None)) == [rule]
            <==> Plain(rule.expr) && Plain(rule.action) && rule.sampleRate == 0.0
  {
    hide Plain, ParseEntries, Split, PrintRule;
    var text := PrintRule(rule, None);
    if Parse(parseFloat, text) == [rule] {
      PartsOfSplit(text, ';');
      EntriesArePlain(parseFloat, Split(text, ';'));
      assert rule in Parse(parseFloat, text);
    }
    if Plain(rule.expr) && Plain(rule.action) {
      var zero := rule.(sampleRate := 0.0);
      assert PrintRule(zero, None) == text by { SameText(rule); }
      assert Prints(parseFloat, zero, text);
      RulesRoundTrip(parseFloat, [zero], [text]);
      assert Join([text], ";") == text;
    }
  }

  lemma SameText(rule: FilterRule)
    ensures PrintRule(rule.(sampleRate := 0.0), None) == PrintRule(rule, None)
  {
  }
}
