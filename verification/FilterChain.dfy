/** The filter chain: drop and keep rules, applied in order, with random sampling. */
module FilterChain {
  import opened Prelude

  /** A value in the environment an expression is evaluated in. */
  datatype Value = IntValue(i: int) | FloatValue(text: string) | StringValue(s: string) {
    predicate SameType(other: Value) {
      IntValue? == other.IntValue? && FloatValue? == other.FloatValue?
    }
  }

  type Env = map<string, Value>

  // ---------- the evaluation environment ----------

  datatype NumericType = IntType | FloatType | Text

  /** The fields that expressions see as numbers. */
  function FieldType(field: string): NumericType {
    if field in ["bytes_sent", "body_bytes_sent", "connections_waiting", "connections_active",
                 "status", "connection", "request_length"] then IntType
    else if field in ["request_time", "upstream_connect_time", "upstream_header_time",
                      "upstream_response_time", "msec"] then FloatType
    else Text
  }

  function Zero(field: string): Value {
    match FieldType(field)
    case IntType => IntValue(0)
    case FloatType => FloatValue("0")
    case Text => StringValue("")
  }

  /** The fields a chain shows to its expressions, and how their text is read as numbers. */
  datatype Fields = Fields(names: seq<string>, atoi: string -> Option<int>, isFloat: string -> bool) {
    function ValueIn(entry: Entry, f: string): Value {
      if f !in entry then Zero(f)
      else match FieldType(f)
        case IntType => (match atoi(entry[f]) case Some(n) => IntValue(n) case None => Zero(f))
        case FloatType => if isFloat(entry[f]) then FloatValue(entry[f]) else Zero(f)
        case Text => StringValue(entry[f])
    }

    /** What expressions see of an entry. */
    function EnvOf(entry: Entry): Env { map f | f in names :: ValueIn(entry, f) }

    /** What expressions are type-checked against. */
    function Sample(): Env { map f | f in names :: Zero(f) }
  }

  method BuildEnvSample(fields: Fields) returns (env: Env)
    ensures env == fields.Sample()
  {
    env := map[];
    var names := fields.names;
    for i := 0 to |names|
      invariant env == map f | f in names[..i] :: Zero(f)
    {
      assert names[..i + 1] == names[..i] + [names[i]];
      hide FieldType;
      match FieldType(names[i])
      case IntType => env := env[names[i] := IntValue(0)];
      case FloatType => env := env[names[i] := FloatValue("0")];
      case Text => env := env[names[i] := StringValue("")];
    }
    assert names[..|names|] == names;
  }

  method BuildEnv(entry: Entry, fields: Fields) returns (env: Env)
    ensures env == fields.EnvOf(entry)
  {
    env := map[];
    var names := fields.names;
    for i := 0 to |names|
      invariant env == map f | f in names[..i] :: fields.ValueIn(entry, f)
    {
      assert names[..i + 1] == names[..i] + [names[i]];
      var f := names[i];
      if f !in entry {
        env := env[f := Zero(f)];
        continue;
      }
      hide FieldType;
      match FieldType(f)
      case IntType =>
        var n := fields.atoi(entry[f]);
        env := env[f := if n.None? then IntValue(0) else IntValue(n.value)];
      case FloatType =>
        env := env[f := if fields.isFloat(entry[f]) then FloatValue(entry[f]) else FloatValue("0")];
      case Text =>
        env := env[f := StringValue(entry[f])];
    }
    assert names[..|names|] == names;
  }

  /** The twelve fields that are numbers; every other field is text. */
  lemma NumericFields(f: string)
    ensures FieldType(f).IntType? <==>
              f in {"bytes_sent", "body_bytes_sent", "connections_waiting", "connections_active", "status",
                    "connection", "request_length"}
    ensures FieldType(f).FloatType? <==>
              f in {"request_time", "upstream_connect_time", "upstream_header_time", "upstream_response_time", "msec"}
  {
  }

  /** A numeric field reads as its number when its text is one, and as zero when it is not or is
      missing; any other field reads as its text, empty when it is missing. */
  lemma ShownValues(fields: Fields, entry: Entry, f: string)
    requires f in fields.names
    ensures var shown, kind := fields.EnvOf(entry)[f], FieldType(f);
            && (kind.IntType? && f in entry && fields.atoi(entry[f]).Some? ==>
                  shown == IntValue(fields.atoi(entry[f]).value))
            && (kind.IntType? && (f !in entry || fields.atoi(entry[f]).None?) ==> shown == IntValue(0))
            && (kind.FloatType? && f in entry && fields.isFloat(entry[f]) ==> shown == FloatValue(entry[f]))
            && (kind.FloatType? && (f !in entry || !fields.isFloat(entry[f])) ==> shown == FloatValue("0"))
            && (kind.Text? ==> shown == StringValue(if f in entry then entry[f] else ""))
  {
    hide FieldType;
  }

  /** Every entry shows the fields and types that expressions were checked against, so a checked
      expression never meets a missing field or a value of another type. */
  lemma EnvIsAsChecked(fields: Fields, entry: Entry)
    ensures fields.EnvOf(entry).Keys == fields.Sample().Keys
    ensures forall f | f in fields.Sample() :: fields.EnvOf(entry)[f].SameType(fields.Sample()[f])
  {
  }

  datatype Action = Drop | Keep

  /** Evaluating an expression: a truth value, or an error or a value of another type. */
  datatype Outcome = Matched(b: bool) | Failed

  datatype Rule = Rule(program: Env -> Outcome, fields: Fields, action: Action, sampleRate: real) {
    predicate Sampled() { 0.0 < sampleRate < 1.0 }

    /** The rule's expression on an entry. */
    function Eval(entry: Entry): Outcome { program(fields.EnvOf(entry)) }
  }

  // ---------- one rule ----------

  /** The result of a rule on some entries, and how many random numbers it used up. */
  datatype Pass = Pass(kept: seq<Entry>, used: nat)

  /** Whether one entry stays, given the random number a sampled match would get. */
  predicate Stays(rule: Rule, entry: Entry, draw: real) {
    match rule.Eval(entry)
    case Failed => true
    case Matched(false) => rule.action.Drop?
    case Matched(true) => if rule.Sampled() && draw >= rule.sampleRate then rule.action.Drop? else rule.action.Keep?
  }

  predicate UsesDraw(rule: Rule, entry: Entry) { rule.Sampled() && rule.Eval(entry) == Matched(true) }

  function RulePass(rule: Rule, entries: seq<Entry>, draws: nat -> real, start: nat): Pass {
    if entries == [] then Pass([], start)
    else
      var n := |entries| - 1;
      var p := RulePass(rule, entries[..n], draws, start);
      Pass(if Stays(rule, entries[n], draws(p.used)) then p.kept + [entries[n]] else p.kept,
           p.used + if UsesDraw(rule, entries[n]) then 1 else 0)
  }

  // ---------- what a rule decides ----------

  /** The entries that stay under an unsampled drop rule: all but those its expression is true of. */
  ghost function UnlessTrue(rule: Rule): Entry -> Option<Entry> {
    e => if rule.program(rule.fields.EnvOf(e)) != Matched(true) then Some(e) else None
  }

  /** The entries that stay under an unsampled keep rule: all but those its expression is false of. */
  ghost function UnlessFalse(rule: Rule): Entry -> Option<Entry> {
    e => if rule.program(rule.fields.EnvOf(e)) != Matched(false) then Some(e) else None
  }

  ghost predicate IsTrueOf(rule: Rule, e: Entry) { rule.program(rule.fields.EnvOf(e)) == Matched(true) }

  /** How many of the entries the rule's expression is true of: each of them takes one draw. */
  ghost function Matches(rule: Rule, entries: seq<Entry>): nat {
    |set k: nat | k < |entries| && IsTrueOf(rule, entries[k])|
  }

  /** A rule affects an entry it is true of unless it is sampled and the entry's draw is not below
      the rate. */
  ghost predicate Affects(rule: Rule, entries: seq<Entry>, n: nat, draws: nat -> real, start: nat)
    requires n < |entries|
  {
    IsTrueOf(rule, entries[n])
    && (0.0 < rule.sampleRate < 1.0 ==> draws(start + Matches(rule, entries[..n])) < rule.sampleRate)
  }

  /** What stays: under a drop rule what is not affected, under a keep rule what is affected, and
      whatever the expression fails on. */
  ghost function Spared(rule: Rule, entries: seq<Entry>, draws: nat -> real, start: nat): nat -> Option<Entry> {
    (n: nat) =>
      if n >= |entries| then None
      else if rule.program(rule.fields.EnvOf(entries[n])).Failed? then Some(entries[n])
      else if Affects(rule, entries, n, draws, start) == rule.action.Keep? then Some(entries[n])
      else None
  }

  lemma MatchesSnoc(rule: Rule, entries: seq<Entry>)
    requires entries != []
    ensures var n := |entries| - 1;
            Matches(rule, entries) == Matches(rule, entries[..n]) + if IsTrueOf(rule, entries[n]) then 1 else 0
  {
    hide IsTrueOf;
    var n := |entries| - 1;
    var before := set k: nat | k < n && IsTrueOf(rule, entries[..n][k]);
    var after := set k: nat | k < |entries| && IsTrueOf(rule, entries[k]);
    if IsTrueOf(rule, entries[n]) {
      assert after == before + {n};
    } else {
      assert after == before;
    }
  }

  lemma NoMatches(rule: Rule)
    ensures Matches(rule, []) == 0
  {
    var none: seq<Entry> := [];
    assert (set k: nat | k < |none| && IsTrueOf(rule, none[k])) == {};
  }

  /** The last entry of a pass stays exactly as the rule decides. */
  lemma StaysAsDecided(rule: Rule, entries: seq<Entry>, draws: nat -> real, start: nat, draw: real)
    requires entries != []
    requires rule.Sampled() ==> draw == draws(start + Matches(rule, entries[..|entries| - 1]))
    ensures var n := |entries| - 1;
            Spared(rule, entries, draws, start)(n)
            == if Stays(rule, entries[n], draw) then Some(entries[n]) else None
    ensures UsesDraw(rule, entries[|entries| - 1]) <==> rule.Sampled() && IsTrueOf(rule, entries[|entries| - 1])
  {
    hide Matches;
    var n := |entries| - 1;
    var output := rule.program(rule.fields.EnvOf(entries[n]));
    var affected := output == Matched(true) && (rule.Sampled() ==> draw < rule.sampleRate);
    assert Affects(rule, entries, n, draws, start) <==> affected;
    assert Stays(rule, entries[n], draw) <==> output.Failed? || affected == rule.action.Keep?;
  }

  /** What is decided about the first entries does not depend on those after them. */
  lemma SparedInit(rule: Rule, entries: seq<Entry>, draws: nat -> real, start: nat, n: nat, k: nat)
    requires k < n <= |entries|
    ensures Spared(rule, entries[..n], draws, start)(k) == Spared(rule, entries, draws, start)(k)
  {
    hide Matches;
    assert entries[..n][..k] == entries[..k];
    assert Affects(rule, entries[..n], k, draws, start) == Affects(rule, entries, k, draws, start);
  }

  lemma {:induction false} PassDecides(rule: Rule, entries: seq<Entry>, draws: nat -> real, start: nat)
    ensures var p := RulePass(rule, entries, draws, start);
            && PicksInOrder<nat, Entry>(Spared(rule, entries, draws, start), Positions(|entries|), p.kept)
            && p.used == start + if rule.Sampled() then Matches(rule, entries) else 0
  {
    hide Matches, Spared, PicksInOrder, Stays, UsesDraw;
    if entries == [] {
      NoMatches(rule);
      PicksNone<nat, Entry>(Spared(rule, entries, draws, start));
      assert Positions(0) == [];
    } else {
      var n := |entries| - 1;
      var f, g := Spared(rule, entries[..n], draws, start), Spared(rule, entries, draws, start);
      PassDecides(rule, entries[..n], draws, start);
      MatchesSnoc(rule, entries);
      forall k: nat | k < n ensures f(k) == g(k) { SparedInit(rule, entries, draws, start, n, k); }
      var p := RulePass(rule, entries[..n], draws, start);
      PicksAgree<nat, Entry>(f, g, Positions(n), p.kept);
      PicksSnoc<nat, Entry>(g, Positions(n), p.kept, n);
      assert Positions(n) + [n] == Positions(n + 1);
      StaysAsDecided(rule, entries, draws, start, draws(p.used));
    }
  }

  lemma {:induction false} UnsampledPass(rule: Rule, entries: seq<Entry>, draws: nat -> real, start: nat)
    requires !rule.Sampled()
    ensures var p := RulePass(rule, entries, draws, start);
            && p.used == start
            && PicksInOrder(if rule.action.Drop? then UnlessTrue(rule) else UnlessFalse(rule), entries, p.kept)
  {
    hide PicksInOrder;
    var f := if rule.action.Drop? then UnlessTrue(rule) else UnlessFalse(rule);
    if entries == [] {
      PicksNone(f);
    } else {
      var n := |entries| - 1;
      UnsampledPass(rule, entries[..n], draws, start);
      var p := RulePass(rule, entries[..n], draws, start);
      PicksSnoc(f, entries[..n], p.kept, entries[n]);
      assert entries == entries[..n] + [entries[n]];
    }
  }

  /** One rule over all entries; the k-th random number drawn is draws(k). */
  method ApplyRule(rule: Rule, entries: seq<Entry>, draws: nat -> real, start: nat)
      returns (kept: seq<Entry>, used: nat)
    ensures Pass(kept, used) == RulePass(rule, entries, draws, start)
    ensures !rule.Sampled() && rule.action.Drop? ==> PicksInOrder(UnlessTrue(rule), entries, kept) && used == start
    ensures !rule.Sampled() && rule.action.Keep? ==> PicksInOrder(UnlessFalse(rule), entries, kept) && used == start
    ensures rule.Sampled() ==>
              && PicksInOrder<nat, Entry>(Spared(rule, entries, draws, start), Positions(|entries|), kept)
              && used == start + Matches(rule, entries)
  {
    hide PicksInOrder, Spared, Matches, UnlessTrue, UnlessFalse, Positions;
    kept, used := [], start;
    for i := 0 to |entries|
      invariant Pass(kept, used) == RulePass(rule, entries[..i], draws, start)
    {
      assert entries[..i + 1][..i] == entries[..i];
      var entry := entries[i];
      var env := BuildEnv(entry, rule.fields);
      var output := rule.program(env);
      if output.Failed? {
        kept := kept + [entry];
        continue;
      }
      if !output.b {
        if rule.action == Keep {
          continue;
        }
        kept := kept + [entry];
        continue;
      }
      if rule.sampleRate > 0.0 && rule.sampleRate < 1.0 {
        var draw := draws(used);
        used := used + 1;
        if draw >= rule.sampleRate {
          if rule.action == Drop {
            kept := kept + [entry];
          }
          continue;
        }
      }
      if rule.action == Keep {
        kept := kept + [entry];
      }
    }
    assert entries[..|entries|] == entries;
    PassDecides(rule, entries, draws, start);
    if !rule.Sampled() { UnsampledPass(rule, entries, draws, start); }
    hide RulePass, Stays, UsesDraw;
  }

  /** A rule cannot tell entries apart that show the same values: an absent field from an empty one,
      or a number that does not convert from a zero. */
  lemma OnlyShownFieldsMatter(rule: Rule, a: Entry, b: Entry, draw: real)
    requires forall f | f in rule.fields.names :: rule.fields.ValueIn(a, f) == rule.fields.ValueIn(b, f)
    ensures Stays(rule, a, draw) == Stays(rule, b, draw)
    ensures UsesDraw(rule, a) == UsesDraw(rule, b)
  {
    assert rule.fields.EnvOf(a) == rule.fields.EnvOf(b);
  }

  // ---------- the chain ----------

  function ChainPass(rules: seq<Rule>, entries: seq<Entry>, draws: nat -> real, start: nat): Pass {
    if rules == [] then Pass(entries, start)
    else
      var p := ChainPass(rules[..|rules| - 1], entries, draws, start);
      RulePass(rules[|rules| - 1], p.kept, draws, p.used)
  }

  lemma {:induction false} NothingFromNothing(rules: seq<Rule>, draws: nat -> real, start: nat)
    ensures ChainPass(rules, [], draws, start) == Pass([], start)
  {
    if rules != [] {
      NothingFromNothing(rules[..|rules| - 1], draws, start);
    }
  }

  /** All rules in order. */
  method Apply(rules: seq<Rule>, entries: seq<Entry>, draws: nat -> real) returns (result: seq<Entry>)
    ensures result == ChainPass(rules, entries, draws, 0).kept
    ensures Deterministic(rules) ==> PicksInOrder(OnlyIf(PassesAll(rules)), entries, result)
  {
    if Deterministic(rules) { DeterministicChainPicks(rules, entries, draws); }
    hide PicksInOrder, PassesAll, OnlyIf;
    if |rules| == 0 || |entries| == 0 {
      NothingFromNothing(rules, draws, 0);
      return entries;
    }
    result := entries;
    var used := 0;
    for i := 0 to |rules|
      invariant Pass(result, used) == ChainPass(rules[..i], entries, draws, 0)
    {
      assert rules[..i + 1][..i] == rules[..i];
      result, used := ApplyRule(rules[i], result, draws, used);
    }
    assert rules[..|rules|] == rules;
  }

  // ---------- deterministic chains ----------

  /** Whether an unsampled rule lets an entry through. */
  predicate Survives(rule: Rule, entry: Entry) { Stays(rule, entry, 0.0) }

  function Survivors(rule: Rule): Entry -> bool { (entry: Entry) => Survives(rule, entry) }

  ghost predicate Deterministic(rules: seq<Rule>) { forall r | r in rules :: !r.Sampled() }

  ghost function SurvivesAll(rules: seq<Rule>): Entry -> bool {
    entry => forall r | r in rules :: Survives(r, entry)
  }

  lemma {:induction false} UnsampledRuleFilters(rule: Rule, entries: seq<Entry>, draws: nat -> real, start: nat)
    requires !rule.Sampled()
    ensures RulePass(rule, entries, draws, start) == Pass(Filter(Survivors(rule), entries), start)
  {
    if entries != [] {
      UnsampledRuleFilters(rule, entries[..|entries| - 1], draws, start);
      FilterSnoc(Survivors(rule), entries);
    }
  }

  /** A chain without sampling is one filter: an entry stays when every rule lets it through. */
  lemma {:induction false} DeterministicChainFuses(rules: seq<Rule>, entries: seq<Entry>, draws: nat -> real,
                                                   start: nat)
    requires Deterministic(rules)
    ensures ChainPass(rules, entries, draws, start) == Pass(Filter(SurvivesAll(rules), entries), start)
  {
    if rules == [] {
      EveryoneStays(SurvivesAll(rules), entries);
    } else {
      var n := |rules| - 1;
      var init, last := rules[..n], rules[n];
      assert forall r | r in init :: r in rules;
      assert last in rules;
      DeterministicChainFuses(init, entries, draws, start);
      UnsampledRuleFilters(last, Filter(SurvivesAll(init), entries), draws, start);
      FuseLast(init, last, entries);
      assert rules == init + [last];
    }
  }

  lemma FuseLast(init: seq<Rule>, last: Rule, entries: seq<Entry>)
    ensures Filter(Survivors(last), Filter(SurvivesAll(init), entries)) == Filter(SurvivesAll(init + [last]), entries)
  {
    var p, q, all := SurvivesAll(init), Survivors(last), SurvivesAll(init + [last]);
    var both := Both(p, q);
    FilterFilter(p, q, entries);
    forall e ensures both(e) == all(e) {
      assert forall r | r in init + [last] :: r in init || r == last;
      assert last in init + [last] && forall r | r in init :: r in init + [last];
    }
    FilterAgree(both, all, entries);
  }

  lemma {:induction false} EveryoneStays(p: Entry -> bool, entries: seq<Entry>)
    requires forall e | e in entries :: p(e)
    ensures Filter(p, entries) == entries
  {
    if entries != [] {
      EveryoneStays(p, entries[1..]);
    }
  }

  /** Whether an unsampled rule lets an entry through: a drop rule unless its expression is true of
      it, a keep rule unless it is false of it. */
  ghost predicate Passes(rule: Rule, e: Entry) {
    var output := rule.program(rule.fields.EnvOf(e));
    if rule.action.Drop? then output != Matched(true) else output != Matched(false)
  }

  ghost function PassesAll(rules: seq<Rule>): Entry -> bool { e => forall r | r in rules :: Passes(r, e) }

  lemma SurvivesExactly(rule: Rule, e: Entry)
    requires !rule.Sampled()
    ensures Survives(rule, e) <==> Passes(rule, e)
  {
  }

  /** So it picks the entries that every rule lets through, in order. */
  lemma {:induction false} DeterministicChainPicks(rules: seq<Rule>, entries: seq<Entry>, draws: nat -> real)
    requires Deterministic(rules)
    ensures PicksInOrder(OnlyIf(PassesAll(rules)), entries, ChainPass(rules, entries, draws, 0).kept)
  {
    DeterministicChainFuses(rules, entries, draws, 0);
    forall e ensures SurvivesAll(rules)(e) == PassesAll(rules)(e) {
      hide Survives, Passes;
      forall r | r in rules ensures Survives(r, e) <==> Passes(r, e) { SurvivesExactly(r, e); }
    }
    hide SurvivesAll, PassesAll, Filter, ChainPass, PicksInOrder;
    FilterAgree(SurvivesAll(rules), PassesAll(rules), entries);
    FilterPicks(PassesAll(rules), entries);
  }

  /** The rules of a chain work one after the other, each on what the ones before it kept and with
      the random numbers they left. */
  lemma {:induction false} ChainSplits(a: seq<Rule>, b: seq<Rule>, entries: seq<Entry>, draws: nat -> real, start: nat)
    ensures var p := ChainPass(a, entries, draws, start);
            ChainPass(a + b, entries, draws, start) == ChainPass(b, p.kept, draws, p.used)
  {
    hide RulePass;
    if b == [] {
      assert a + b == a;
    } else {
      var n := |b| - 1;
      ChainSplits(a, b[..n], entries, draws, start);
      assert (a + b)[..|a + b| - 1] == a + b[..n] && (a + b)[|a + b| - 1] == b[n];
    }
  }

  /** A chain of one rule is that rule. */
  lemma ChainOfOne(rule: Rule, entries: seq<Entry>, draws: nat -> real, start: nat)
    ensures ChainPass([rule], entries, draws, start) == RulePass(rule, entries, draws, start)
  {
    hide RulePass;
    assert [rule][..0] == [];
  }

  /** So the order of the rules does not matter, nor do repeated rules. */
  lemma {:induction false} RuleOrderIsIrrelevant(a: seq<Rule>, b: seq<Rule>, entries: seq<Entry>, draws: nat -> real)
    requires Deterministic(a) && forall r :: r in a <==> r in b
    ensures ChainPass(a, entries, draws, 0) == ChainPass(b, entries, draws, 0)
  {
    DeterministicChainFuses(a, entries, draws, 0);
    DeterministicChainFuses(b, entries, draws, 0);
    FilterAgree(SurvivesAll(a), SurvivesAll(b), entries);
  }

  // ---------- sampled chains ----------

  /** xs can be had from ys by leaving elements out. */
  predicate Subsequence(xs: seq<Entry>, ys: seq<Entry>) {
    if xs == [] then true
    else if ys == [] then false
    else if Subsequence(xs, ys[..|ys| - 1]) then true
    else xs[|xs| - 1] == ys[|ys| - 1] && Subsequence(xs[..|xs| - 1], ys[..|ys| - 1])
  }

  lemma {:induction false} SubsequenceSnoc(xs: seq<Entry>, ys: seq<Entry>, e: Entry)
    requires Subsequence(xs, ys)
    ensures Subsequence(xs + [e], ys + [e])
    ensures Subsequence(xs, ys + [e])
  {
    assert (xs + [e])[..|xs|] == xs && (ys + [e])[..|ys|] == ys;
  }

  lemma {:induction false} SubsequenceInit(xs: seq<Entry>, ys: seq<Entry>)
    requires xs != [] && Subsequence(xs, ys)
    ensures Subsequence(xs[..|xs| - 1], ys)
    decreases |ys|
  {
    var ys' := ys[..|ys| - 1];
    if Subsequence(xs, ys') {
      SubsequenceInit(xs, ys');
    }
    assert ys == ys' + [ys[|ys| - 1]];
    SubsequenceSnoc(xs[..|xs| - 1], ys', ys[|ys| - 1]);
  }

  lemma {:induction false} SubsequenceTransitive(xs: seq<Entry>, ys: seq<Entry>, zs: seq<Entry>)
    requires Subsequence(xs, ys) && Subsequence(ys, zs)
    ensures Subsequence(xs, zs)
    decreases |zs|
  {
    if xs != [] {
      var zs' := zs[..|zs| - 1];
      var xs', ys' := xs[..|xs| - 1], ys[..|ys| - 1];
      if Subsequence(ys, zs') {
        SubsequenceTransitive(xs, ys, zs');
      } else if Subsequence(xs, ys') {
        SubsequenceTransitive(xs, ys', zs');
      } else {
        SubsequenceTransitive(xs', ys', zs');
      }
    }
  }

  /** Filtering keeps the order between a list and its subsequences. */
  lemma {:induction false} FilterMonotone(p: Entry -> bool, xs: seq<Entry>, ys: seq<Entry>)
    requires Subsequence(xs, ys)
    ensures Subsequence(Filter(p, xs), Filter(p, ys))
    decreases |ys|
  {
    if xs != [] {
      var y, ys' := ys[|ys| - 1], ys[..|ys| - 1];
      FilterSnoc(p, ys);
      if Subsequence(xs, ys') {
        FilterMonotone(p, xs, ys');
        if p(y) { SubsequenceSnoc(Filter(p, xs), Filter(p, ys'), y); }
      } else {
        FilterSnoc(p, xs);
        FilterMonotone(p, xs[..|xs| - 1], ys');
        if p(y) { SubsequenceSnoc(Filter(p, xs[..|xs| - 1]), Filter(p, ys'), y); }
      }
    }
  }

  /** The most a rule can keep: a sampled drop drops nothing, a sampled keep takes every match. */
  function Generous(rule: Rule): Rule {
    if !rule.Sampled() then rule
    else if rule.action.Drop? then rule.(program := _ => Matched(false), sampleRate := 0.0)
    else rule.(sampleRate := 1.0)
  }

  /** The least a rule can keep: a sampled drop drops every match, a sampled keep keeps only the
      entries it could not evaluate. */
  function Strict(rule: Rule): Rule {
    if !rule.Sampled() then rule
    else if rule.action.Drop? then rule.(sampleRate := 1.0)
    else rule.(program := env => if rule.program(env).Failed? then Failed else Matched(false), sampleRate := 1.0)
  }

  function Map(f: Rule -> Rule, rules: seq<Rule>): (r: seq<Rule>)
    ensures |r| == |rules| && forall i | 0 <= i < |r| :: r[i] == f(rules[i])
  {
    seq(|rules|, i requires 0 <= i < |rules| => f(rules[i]))
  }

  lemma {:induction false} RuleBetween(rule: Rule, entries: seq<Entry>, draws: nat -> real, start: nat)
    ensures Subsequence(RulePass(rule, entries, draws, start).kept, Filter(Survivors(Generous(rule)), entries))
    ensures Subsequence(Filter(Survivors(Strict(rule)), entries), RulePass(rule, entries, draws, start).kept)
  {
    if entries != [] {
      var n := |entries| - 1;
      var init, e := entries[..n], entries[n];
      var up, lo := Survivors(Generous(rule)), Survivors(Strict(rule));
      RuleBetween(rule, init, draws, start);
      FilterSnoc(up, entries);
      FilterSnoc(lo, entries);
      var p := RulePass(rule, init, draws, start);
      StaysBetween(rule, e, draws(p.used));
      SubsequenceSnoc(p.kept, Filter(up, init), e);
      SubsequenceSnoc(Filter(lo, init), p.kept, e);
      assert lo(e) == Survives(Strict(rule), e) && up(e) == Survives(Generous(rule), e);
    }
  }

  lemma StaysBetween(rule: Rule, entry: Entry, draw: real)
    ensures Stays(rule, entry, draw) ==> Survives(Generous(rule), entry)
    ensures Survives(Strict(rule), entry) ==> Stays(rule, entry, draw)
  {
  }

  lemma BoundsAreDeterministic(rules: seq<Rule>)
    ensures Deterministic(Map(Generous, rules)) && Deterministic(Map(Strict, rules))
  {
    forall r | r in Map(Generous, rules) ensures !r.Sampled() {
      var i :| 0 <= i < |rules| && Map(Generous, rules)[i] == r;
    }
    forall r | r in Map(Strict, rules) ensures !r.Sampled() {
      var i :| 0 <= i < |rules| && Map(Strict, rules)[i] == r;
    }
  }

  /** For every sequence of random draws, a sampled chain keeps a subsequence of what its generous
      bound keeps and has what its strict bound keeps as a subsequence. */
  lemma {:induction false} SamplingSandwich(rules: seq<Rule>, entries: seq<Entry>, draws: nat -> real)
    ensures Subsequence(ChainPass(rules, entries, draws, 0).kept,
                        ChainPass(Map(Generous, rules), entries, draws, 0).kept)
    ensures Subsequence(ChainPass(Map(Strict, rules), entries, draws, 0).kept, ChainPass(rules, entries, draws, 0).kept)
  {
    if rules == [] {
      SubsequenceReflexive(entries);
    } else {
      var n := |rules| - 1;
      var init, rule := rules[..n], rules[n];
      SamplingSandwich(init, entries, draws);
      assert Map(Generous, rules)[..n] == Map(Generous, init);
      assert Map(Strict, rules)[..n] == Map(Strict, init);
      var p := ChainPass(init, entries, draws, 0);
      var up, lo := ChainPass(Map(Generous, init), entries, draws, 0), ChainPass(Map(Strict, init), entries, draws, 0);
      RuleBetween(rule, p.kept, draws, p.used);
      UnsampledRuleFilters(Generous(rule), up.kept, draws, up.used);
      UnsampledRuleFilters(Strict(rule), lo.kept, draws, lo.used);
      var f, g := Survivors(Generous(rule)), Survivors(Strict(rule));
      FilterMonotone(f, p.kept, up.kept);
      FilterMonotone(g, lo.kept, p.kept);
      var r := ChainPass(rules, entries, draws, 0).kept;
      SubsequenceTransitive(r, Filter(f, p.kept), Filter(f, up.kept));
      SubsequenceTransitive(Filter(g, lo.kept), Filter(g, p.kept), r);
    }
  }

  /** So it lies between two plain filters. */
  lemma {:induction false} SampledChainIsBetweenFilters(rules: seq<Rule>, entries: seq<Entry>, draws: nat -> real)
    ensures Subsequence(ChainPass(rules, entries, draws, 0).kept, Filter(SurvivesAll(Map(Generous, rules)), entries))
    ensures Subsequence(Filter(SurvivesAll(Map(Strict, rules)), entries), ChainPass(rules, entries, draws, 0).kept)
  {
    SamplingSandwich(rules, entries, draws);
    BoundsAreDeterministic(rules);
    DeterministicChainFuses(Map(Generous, rules), entries, draws, 0);
    DeterministicChainFuses(Map(Strict, rules), entries, draws, 0);
  }

  lemma {:induction false} SubsequenceReflexive(xs: seq<Entry>)
    ensures Subsequence(xs, xs)
  {
    if xs != [] {
      SubsequenceReflexive(xs[..|xs| - 1]);
    }
  }
}
