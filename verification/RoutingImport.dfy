/** Import of sing-box destination rules (`routing_import.py`, `routing.py`), starting from parsed JSON.
    Pattern normalisation (IDNA, CIDR text) and the matching of a normalised pattern are parameters. */
module RoutingImport {
  import opened Strings
  import opened JsonValue

  datatype Kind = Domain | DomainSuffix | IpCidr

  datatype Action = Direct | Proxy | Reject

  datatype Rule = Rule(kind: Kind, pattern: string, action: Action)

  datatype Policy = Policy(privateDirect: bool, cnDirect: bool, final: Action, rules: seq<Rule>)

  datatype Mode = Append | Replace

  datatype Imported = Imported(policy: Policy, sourceRules: nat, importedRules: nat)

  /** Why an import is refused; `rule` is the index of the rule at fault. */
  datatype Refusal =
    | NoRuleList | TooManySourceRules
    | NotAnObject(rule: nat) | UnsupportedField(rule: nat) | NotDefault(rule: nat) | BadAction(rule: nat)
    | BadPatterns(rule: nat, kind: Kind) | BadPattern(rule: nat, kind: Kind) | NoMatcher(rule: nat)
    | TooManyExpanded | TooManyCombined | BadFinal

  /** Validation of the text of a pattern, `None` when it is refused. */
  type Normalizer = (Kind, string) -> Option<string>

  /** Whether a normalised pattern matches a destination. */
  type Matcher = (Kind, string, string) -> bool

  const LIMIT: nat := 200
  const KINDS: seq<Kind> := [Domain, DomainSuffix, IpCidr]

  function Field(kind: Kind): string {
    match kind
    case Domain => "domain"
    case DomainSuffix => "domain_suffix"
    case IpCidr => "ip_cidr"
  }

  // -------------------------------------------------------------------- reading the document

  /** The object that may hold `rules` and `final`, or the rule array itself. */
  function Route(document: Json<string>): Json<string> {
    if document.Object? && "route" in document.fields then document.fields["route"] else document
  }

  function RuleList(document: Json<string>): Option<seq<Json<string>>> {
    var route := Route(document);
    var rules := if !route.Object? then route else if "rules" in route.fields then route.fields["rules"] else Null;
    if rules.Array? then Some(rules.items) else None
  }

  function OutboundAction(outbound: Json<string>): Option<Action> {
    if outbound == Str("direct") then Some(Direct)
    else if outbound == Str("subscription") || outbound == Str("proxy") then Some(Proxy)
    else None
  }

  /** The action of a rule: `route` (the default) with a known outbound, or `reject` without one. */
  function ActionOf(rule: Json<string>): Option<Action>
    requires rule.Object?
  {
    var action := if "action" in rule.fields then rule.fields["action"] else Str("route");
    if action == Str("route") then
      if "outbound" in rule.fields then OutboundAction(rule.fields["outbound"]) else None
    else if action == Str("reject") && "outbound" !in rule.fields then Some(Reject)
    else None
  }

  predicate Supported(rule: Json<string>)
    requires rule.Object?
  {
    rule.fields.Keys <= {"domain", "domain_suffix", "ip_cidr", "action", "outbound", "type"}
  }

  predicate DefaultType(rule: Json<string>)
    requires rule.Object?
  {
    "type" in rule.fields ==> rule.fields["type"] == Str("default")
  }

  /** The patterns of one field: a string alone counts as a list of one. */
  function Patterns(value: Json<string>): seq<Json<string>> {
    match value
    case Str(_) => [value]
    case Array(items) => items
    case _ => []
  }

  function PatternsOf(rule: Json<string>, kind: Kind): seq<Json<string>>
    requires rule.Object?
  {
    if Field(kind) in rule.fields then Patterns(rule.fields[Field(kind)]) else []
  }

  function Normalized(norm: Normalizer, kind: Kind, pattern: Json<string>): Option<string> {
    if pattern.Str? && 1 <= |pattern.text| <= 253 then norm(kind, pattern.text) else None
  }

  predicate GoodPatterns(norm: Normalizer, kind: Kind, patterns: seq<Json<string>>) {
    forall i :: 0 <= i < |patterns| ==> Normalized(norm, kind, patterns[i]).Some?
  }

  predicate GoodField(norm: Normalizer, rule: Json<string>, kind: Kind)
    requires rule.Object?
  {
    Field(kind) in rule.fields ==>
      PatternsOf(rule, kind) != [] && GoodPatterns(norm, kind, PatternsOf(rule, kind))
  }

  /** The first `n` match fields are usable. */
  predicate GoodFields(norm: Normalizer, rule: Json<string>, n: nat)
    requires rule.Object? && n <= 3
  {
    forall k :: 0 <= k < n ==> GoodField(norm, rule, KINDS[k])
  }

  predicate HasMatcher(rule: Json<string>, n: nat)
    requires rule.Object? && n <= 3
  {
    exists k :: 0 <= k < n && PatternsOf(rule, KINDS[k]) != []
  }

  predicate WellFormed(norm: Normalizer, rule: Json<string>) {
    && rule.Object? && Supported(rule) && DefaultType(rule) && ActionOf(rule).Some?
    && GoodFields(norm, rule, 3) && HasMatcher(rule, 3)
  }

  function Final(document: Json<string>): Option<Json<string>> {
    var route := Route(document);
    if route.Object? && "final" in route.fields then Some(route.fields["final"]) else None
  }

  // ------------------------------------------------------------------------- flattened rules

  function RuleFor(norm: Normalizer, kind: Kind, pattern: Json<string>, action: Action): Rule {
    var n := Normalized(norm, kind, pattern);
    Rule(kind, if n.Some? then n.value else "", action)
  }

  function FieldRules(norm: Normalizer, kind: Kind, patterns: seq<Json<string>>, action: Action): (rules: seq<Rule>)
    ensures |rules| == |patterns|
  {
    if patterns == [] then []
    else
      FieldRules(norm, kind, patterns[..|patterns| - 1], action)
      + [RuleFor(norm, kind, patterns[|patterns| - 1], action)]
  }

  function RuleAction(rule: Json<string>): Action
    requires rule.Object?
  {
    if ActionOf(rule).Some? then ActionOf(rule).value else Reject
  }

  /** The rules of the first `n` match fields of one source rule. */
  function FieldsUpTo(norm: Normalizer, rule: Json<string>, n: nat): seq<Rule>
    requires n <= 3
  {
    if n == 0 || !rule.Object? then []
    else
      FieldsUpTo(norm, rule, n - 1)
      + FieldRules(norm, KINDS[n - 1], PatternsOf(rule, KINDS[n - 1]), RuleAction(rule))
  }

  /** What the first `n` source rules become. */
  function Expanded(norm: Normalizer, rules: seq<Json<string>>): seq<Rule> {
    if rules == [] then []
    else Expanded(norm, rules[..|rules| - 1]) + FieldsUpTo(norm, rules[|rules| - 1], 3)
  }

  /** What the source promises to accept. */
  predicate Importable(norm: Normalizer, document: Json<string>, mode: Mode, policy: Policy) {
    var rules := RuleList(document);
    && rules.Some? && |rules.value| <= LIMIT
    && AllWellFormed(norm, rules.value)
    && |Expanded(norm, rules.value)| <= LIMIT
    && (mode == Append ==> |policy.rules| + |Expanded(norm, rules.value)| <= LIMIT)
    && (Final(document).Some? ==> OutboundAction(Final(document).value).Some?)
  }

  // --------------------------------------------------------------------------------- meaning

  /** The first rule that matches decides. */
  function FirstMatch(matches: Matcher, rules: seq<Rule>, destination: string): Option<Action> {
    if rules == [] then None
    else if matches(rules[0].kind, rules[0].pattern, destination) then Some(rules[0].action)
    else FirstMatch(matches, rules[1..], destination)
  }

  predicate PatternMatches(norm: Normalizer, matches: Matcher, kind: Kind, pattern: Json<string>, destination: string) {
    var n := Normalized(norm, kind, pattern);
    n.Some? && matches(kind, n.value, destination)
  }

  predicate AnyMatches(norm: Normalizer, matches: Matcher, kind: Kind, patterns: seq<Json<string>>,
                       destination: string) {
    exists i :: 0 <= i < |patterns| && PatternMatches(norm, matches, kind, patterns[i], destination)
  }

  /** A source rule matches when any of its patterns does. */
  predicate SourceMatches(norm: Normalizer, matches: Matcher, rule: Json<string>, destination: string) {
    && rule.Object?
    && exists k :: 0 <= k < 3 && AnyMatches(norm, matches, KINDS[k], PatternsOf(rule, KINDS[k]), destination)
  }

  /** First match over the source rules themselves. */
  function SourceDecision(norm: Normalizer, matches: Matcher, rules: seq<Json<string>>,
                          destination: string): Option<Action> {
    if rules == [] then None
    else if SourceMatches(norm, matches, rules[0], destination) then Some(RuleAction(rules[0]))
    else SourceDecision(norm, matches, rules[1..], destination)
  }

  function OrElse(first: Option<Action>, second: Option<Action>): Option<Action> {
    if first.Some? then first else second
  }

  /** What a policy does with a destination. */
  function Decision(matches: Matcher, policy: Policy, destination: string): Action {
    var first := FirstMatch(matches, policy.rules, destination);
    if first.Some? then first.value else policy.final
  }

  lemma {:induction false} FirstMatchConcat(matches: Matcher, a: seq<Rule>, b: seq<Rule>, destination: string)
    ensures FirstMatch(matches, a + b, destination)
            == OrElse(FirstMatch(matches, a, destination), FirstMatch(matches, b, destination))
  {
    if a == [] {
      assert a + b == b;
    } else {
      assert (a + b)[1..] == a[1..] + b;
      FirstMatchConcat(matches, a[1..], b, destination);
    }
  }

  /** One field: its action when any pattern matches, nothing otherwise. */
  lemma {:induction false} FieldMeaning(norm: Normalizer, matches: Matcher, kind: Kind, patterns: seq<Json<string>>,
                                        action: Action, destination: string)
    requires GoodPatterns(norm, kind, patterns)
    ensures FirstMatch(matches, FieldRules(norm, kind, patterns, action), destination)
            == if AnyMatches(norm, matches, kind, patterns, destination) then Some(action) else None
  {
    if patterns != [] {
      var n := |patterns| - 1;
      InitLast(patterns);
      var last := RuleFor(norm, kind, patterns[n], action);
      assert Normalized(norm, kind, patterns[n]).Some?;
      FieldMeaning(norm, matches, kind, patterns[..n], action, destination);
      FirstMatchConcat(matches, FieldRules(norm, kind, patterns[..n], action), [last], destination);
      AnyMatchesOneMore(norm, matches, kind, patterns, destination);
    }
  }

  lemma AnyMatchesOneMore(norm: Normalizer, matches: Matcher, kind: Kind, patterns: seq<Json<string>>,
                          destination: string)
    requires patterns != []
    ensures AnyMatches(norm, matches, kind, patterns, destination)
            == (AnyMatches(norm, matches, kind, patterns[..|patterns| - 1], destination)
                || PatternMatches(norm, matches, kind, patterns[|patterns| - 1], destination))
  {
    var head := patterns[..|patterns| - 1];
    if AnyMatches(norm, matches, kind, head, destination) {
      var i :| 0 <= i < |head| && PatternMatches(norm, matches, kind, head[i], destination);
      assert PatternMatches(norm, matches, kind, patterns[i], destination);
    }
    if i :| 0 <= i < |patterns| && PatternMatches(norm, matches, kind, patterns[i], destination) {
      assert i < |head| ==> head[i] == patterns[i];
    }
  }

  lemma {:induction false} FieldsMeaning(norm: Normalizer, matches: Matcher, rule: Json<string>, n: nat,
                                         destination: string)
    requires n <= 3 && WellFormed(norm, rule)
    ensures FirstMatch(matches, FieldsUpTo(norm, rule, n), destination)
            == if exists k :: 0 <= k < n && AnyMatches(norm, matches, KINDS[k], PatternsOf(rule, KINDS[k]), destination)
               then Some(RuleAction(rule)) else None
  {
    if n > 0 {
      var kind := KINDS[n - 1];
      assert GoodField(norm, rule, kind);
      FieldsMeaning(norm, matches, rule, n - 1, destination);
      FieldMeaning(norm, matches, kind, PatternsOf(rule, kind), RuleAction(rule), destination);
      FirstMatchConcat(matches, FieldsUpTo(norm, rule, n - 1),
                       FieldRules(norm, kind, PatternsOf(rule, kind), RuleAction(rule)), destination);
    }
  }

  lemma RuleMeaning(norm: Normalizer, matches: Matcher, rule: Json<string>, destination: string)
    requires WellFormed(norm, rule)
    ensures FirstMatch(matches, FieldsUpTo(norm, rule, 3), destination)
            == if SourceMatches(norm, matches, rule, destination) then Some(RuleAction(rule)) else None
  {
    FieldsMeaning(norm, matches, rule, 3, destination);
  }

  lemma {:induction false} SourceDecisionSnoc(norm: Normalizer, matches: Matcher, rules: seq<Json<string>>,
                                              rule: Json<string>,
                                              destination: string)
    ensures SourceDecision(norm, matches, rules + [rule], destination)
            == OrElse(SourceDecision(norm, matches, rules, destination),
                      if SourceMatches(norm, matches, rule, destination) then Some(RuleAction(rule)) else None)
  {
    if rules != [] {
      assert (rules + [rule])[1..] == rules[1..] + [rule];
      SourceDecisionSnoc(norm, matches, rules[1..], rule, destination);
    }
  }

  /** Flattening keeps the meaning of the source rules. */
  lemma {:induction false} ExpandedMeaning(norm: Normalizer, matches: Matcher, rules: seq<Json<string>>,
                                           destination: string)
    requires AllWellFormed(norm, rules)
    ensures FirstMatch(matches, Expanded(norm, rules), destination)
            == SourceDecision(norm, matches, rules, destination)
  {
    if rules != [] {
      var n := |rules| - 1;
      InitLast(rules);
      ExpandedMeaning(norm, matches, rules[..n], destination);
      RuleMeaning(norm, matches, rules[n], destination);
      FirstMatchConcat(matches, Expanded(norm, rules[..n]), FieldsUpTo(norm, rules[n], 3), destination);
      SourceDecisionSnoc(norm, matches, rules[..n], rules[n], destination);
    }
  }

  /** The policy an accepted import leads to. */
  function ImportedPolicy(norm: Normalizer, document: Json<string>, mode: Mode, policy: Policy): Policy
    requires Importable(norm, document, mode, policy)
  {
    var expanded := Expanded(norm, RuleList(document).value);
    var rules := if mode == Append then policy.rules + expanded else expanded;
    policy.(rules := rules,
            final := if Final(document).Some? then OutboundAction(Final(document).value).value else policy.final)
  }

  // --------------------------------------------------------------------------- the algorithm

  /** The innermost loop: the patterns of one field of one rule. */
  method ConvertPatterns(norm: Normalizer, index: nat, kind: Kind, patterns: seq<Json<string>>, action: Action,
                         converted: seq<Rule>) returns (r: Result<seq<Rule>, Refusal>)
    requires |converted| <= LIMIT
    ensures r.Ok? <==> GoodPatterns(norm, kind, patterns) && |converted| + |patterns| <= LIMIT
    ensures r.Ok? ==> r.value == converted + FieldRules(norm, kind, patterns, action)
    ensures r == Err(BadPattern(index, kind)) ==> !GoodPatterns(norm, kind, patterns)
    ensures r == Err(TooManyExpanded) ==> |converted| + |patterns| > LIMIT
    ensures r.Err? ==> r.error == BadPattern(index, kind) || r.error == TooManyExpanded
  {
    var all := converted;
    for i := 0 to |patterns|
      invariant all == converted + FieldRules(norm, kind, patterns[..i], action)
      invariant GoodPatterns(norm, kind, patterns[..i])
      invariant |all| <= LIMIT
    {
      TakeOneMore(patterns, i);
      var normalized := Normalized(norm, kind, patterns[i]);
      if normalized.None? {
        return Err(BadPattern(index, kind));
      }
      all := all + [Rule(kind, normalized.value, action)];
      if |all| > LIMIT {
        return Err(TooManyExpanded);
      }
    }
    assert patterns[..|patterns|] == patterns;
    return Ok(all);
  }

  /** One match field of one rule. */
  method ConvertField(norm: Normalizer, index: nat, rule: Json<string>, kind: Kind, action: Action,
                      converted: seq<Rule>)
    returns (r: Result<seq<Rule>, Refusal>)
    requires rule.Object? && |converted| <= LIMIT
    ensures r.Ok? ==> GoodField(norm, rule, kind) && |r.value| <= LIMIT
    ensures r.Ok? ==> r.value == converted + FieldRules(norm, kind, PatternsOf(rule, kind), action)
    ensures r == Err(TooManyExpanded) ==> |converted| + |PatternsOf(rule, kind)| > LIMIT
    ensures r.Err? && r.error != TooManyExpanded ==>
              AboutRule(r.error) && r.error.rule == index && !GoodField(norm, rule, kind)
  {
    if Field(kind) !in rule.fields {
      assert converted + [] == converted;
      return Ok(converted);
    }
    var patterns := PatternsOf(rule, kind);
    if patterns == [] {
      return Err(BadPatterns(index, kind));
    }
    r := ConvertPatterns(norm, index, kind, patterns, action, converted);
  }

  /** The first `n` fields of a rule are usable and give the rules in `all` after `converted`. */
  ghost predicate FieldsDone(norm: Normalizer, rule: Json<string>, n: nat, converted: seq<Rule>, all: seq<Rule>)
    requires rule.Object? && n <= 3
  {
    && all == converted + FieldsUpTo(norm, rule, n) && |all| <= LIMIT
    && GoodFields(norm, rule, n)
    && (HasMatcher(rule, n) <==> |all| > |converted|)
  }

  predicate FieldsRefused(norm: Normalizer, index: nat, rule: Json<string>, before: nat, e: Refusal)
    requires rule.Object?
  {
    if e == TooManyExpanded then before + |FieldsUpTo(norm, rule, 3)| > LIMIT
    else AboutRule(e) && e.rule == index && !(GoodFields(norm, rule, 3) && HasMatcher(rule, 3))
  }

  lemma MatcherStep(rule: Json<string>, k: nat)
    requires k < 3 && rule.Object?
    ensures HasMatcher(rule, k + 1) <==> HasMatcher(rule, k) || PatternsOf(rule, KINDS[k]) != []
  {
  }

  lemma Regroup(a: seq<Rule>, b: seq<Rule>, c: seq<Rule>)
    ensures (a + b) + c == a + (b + c)
  {
  }

  lemma FieldStep(norm: Normalizer, rule: Json<string>, k: nat, converted: seq<Rule>, all: seq<Rule>, more: seq<Rule>)
    requires k < 3 && rule.Object? && FieldsDone(norm, rule, k, converted, all)
    requires GoodField(norm, rule, KINDS[k]) && |more| <= LIMIT
    requires more == all + FieldRules(norm, KINDS[k], PatternsOf(rule, KINDS[k]), RuleAction(rule))
    ensures FieldsDone(norm, rule, k + 1, converted, more)
  {
    MatcherStep(rule, k);
    var here := FieldRules(norm, KINDS[k], PatternsOf(rule, KINDS[k]), RuleAction(rule));
    assert FieldsUpTo(norm, rule, k + 1) == FieldsUpTo(norm, rule, k) + here;
    Regroup(converted, FieldsUpTo(norm, rule, k), here);
    assert GoodFields(norm, rule, k + 1);
  }

  lemma FieldStops(norm: Normalizer, index: nat, rule: Json<string>, k: nat, converted: seq<Rule>, all: seq<Rule>,
                   e: Refusal)
    requires k < 3 && rule.Object? && FieldsDone(norm, rule, k, converted, all)
    requires if e == TooManyExpanded then |all| + |PatternsOf(rule, KINDS[k])| > LIMIT
             else AboutRule(e) && e.rule == index && !GoodField(norm, rule, KINDS[k])
    ensures FieldsRefused(norm, index, rule, |converted|, e)
  {
    FieldsGrow(norm, rule, k + 1);
  }

  /** The middle loop: the match fields of one rule. */
  method ConvertFields(norm: Normalizer, index: nat, rule: Json<string>, action: Action, converted: seq<Rule>)
    returns (r: Result<seq<Rule>, Refusal>)
    requires rule.Object? && ActionOf(rule) == Some(action) && |converted| <= LIMIT
    ensures r.Ok? ==> FieldsDone(norm, rule, 3, converted, r.value) && HasMatcher(rule, 3)
    ensures r.Err? ==> FieldsRefused(norm, index, rule, |converted|, r.error)
  {
    var all := converted;
    for k := 0 to 3
      invariant FieldsDone(norm, rule, k, converted, all)
    {
      var more := ConvertField(norm, index, rule, KINDS[k], action, all);
      if more.Err? {
        FieldStops(norm, index, rule, k, converted, all, more.error);
        return more;
      }
      FieldStep(norm, rule, k, converted, all, more.value);
      all := more.value;
    }
    return if |all| == |converted| then Err(NoMatcher(index)) else Ok(all);
  }

  /** One rule. */
  method ConvertRule(norm: Normalizer, index: nat, rule: Json<string>, converted: seq<Rule>)
    returns (r: Result<seq<Rule>, Refusal>)
    requires |converted| <= LIMIT
    ensures r.Ok? ==> WellFormed(norm, rule) && r.value == converted + FieldsUpTo(norm, rule, 3) && |r.value| <= LIMIT
    ensures r == Err(TooManyExpanded) ==> |converted| + |FieldsUpTo(norm, rule, 3)| > LIMIT
    ensures r.Err? && r.error != TooManyExpanded ==>
              AboutRule(r.error) && r.error.rule == index && !WellFormed(norm, rule)
  {
    if !rule.Object? {
      return Err(NotAnObject(index));
    }
    if !Supported(rule) {
      return Err(UnsupportedField(index));
    }
    if !DefaultType(rule) {
      return Err(NotDefault(index));
    }
    var action := ActionOf(rule);
    if action.None? {
      return Err(BadAction(index));
    }
    r := ConvertFields(norm, index, rule, action.value, converted);
  }

  lemma FieldsGrow(norm: Normalizer, rule: Json<string>, n: nat)
    requires n <= 3
    ensures |FieldsUpTo(norm, rule, n)| <= |FieldsUpTo(norm, rule, 3)|
    decreases 3 - n
  {
    if n < 3 {
      FieldsGrow(norm, rule, n + 1);
    }
  }

  lemma ExpandedGrows(norm: Normalizer, rules: seq<Json<string>>, n: nat)
    requires n <= |rules|
    ensures |Expanded(norm, rules[..n])| <= |Expanded(norm, rules)|
    decreases |rules| - n
  {
    if n == |rules| {
      assert rules[..n] == rules;
    } else {
      TakeOneMore(rules, n);
      ExpandedGrows(norm, rules, n + 1);
    }
  }

  /** The outer loop: refused by the first rule that is not well formed or takes the list over the limit. */
  method ConvertRules(norm: Normalizer, rules: seq<Json<string>>) returns (r: Result<seq<Rule>, Refusal>)
    ensures r.Ok? ==> AllWellFormed(norm, rules) && r.value == Expanded(norm, rules) && |r.value| <= LIMIT
    ensures r.Err? ==> Explained(norm, rules, r.error)
  {
    r := Ok([]);
    for i := 0 to |rules|
      invariant r.Ok? && r.value == Expanded(norm, rules[..i]) && |r.value| <= LIMIT
      invariant AllWellFormed(norm, rules[..i])
    {
      RuleStep(norm, rules, i);
      r := ConvertRule(norm, i, rules[i], r.value);
      if r.Err? {
        return;
      }
    }
    assert rules[..|rules|] == rules;
  }

  predicate AllWellFormed(norm: Normalizer, rules: seq<Json<string>>) {
    forall i :: 0 <= i < |rules| ==> WellFormed(norm, rules[i])
  }

  lemma RuleStep(norm: Normalizer, rules: seq<Json<string>>, i: nat)
    requires i < |rules|
    ensures Expanded(norm, rules[..i + 1]) == Expanded(norm, rules[..i]) + FieldsUpTo(norm, rules[i], 3)
    ensures |Expanded(norm, rules[..i + 1])| <= |Expanded(norm, rules)|
    ensures AllWellFormed(norm, rules[..i]) && WellFormed(norm, rules[i]) ==> AllWellFormed(norm, rules[..i + 1])
  {
    TakeOneMore(rules, i);
    ExpandedGrows(norm, rules, i + 1);
  }

  predicate AboutRule(e: Refusal) {
    e.NotAnObject? || e.UnsupportedField? || e.NotDefault? || e.BadAction? || e.BadPatterns? || e.BadPattern?
      || e.NoMatcher?
  }

  /** A refusal that names a rule names the first one that is not well formed. */
  predicate Explained(norm: Normalizer, rules: seq<Json<string>>, e: Refusal) {
    if AboutRule(e) then
      e.rule < |rules| && !WellFormed(norm, rules[e.rule]) && AllWellFormed(norm, rules[..e.rule])
    else e == TooManyExpanded && |Expanded(norm, rules)| > LIMIT
  }

  /** `import_singbox_routing`: accepted exactly when importable, and a refusal tells what is wrong. */
  method ImportRouting(norm: Normalizer, document: Json<string>, mode: Mode, policy: Policy)
    returns (r: Result<Imported, Refusal>)
    ensures r.Ok? <==> Importable(norm, document, mode, policy)
    ensures r.Ok? ==>
              r.value == Imported(ImportedPolicy(norm, document, mode, policy), |RuleList(document).value|,
                                  |Expanded(norm, RuleList(document).value)|)
    ensures r == Err(NoRuleList) ==> RuleList(document).None?
    ensures r.Err? && r.error != NoRuleList ==>
              && RuleList(document).Some?
              && match r.error
                 case TooManySourceRules => |RuleList(document).value| > LIMIT
                 case TooManyCombined =>
                   mode == Append && |policy.rules| + |Expanded(norm, RuleList(document).value)| > LIMIT
                 case BadFinal => Final(document).Some? && OutboundAction(Final(document).value).None?
                 case e => Explained(norm, RuleList(document).value, e)
  {
    var rules := RuleList(document);
    if rules.None? {
      return Err(NoRuleList);
    }
    if |rules.value| > LIMIT {
      return Err(TooManySourceRules);
    }
    var converted := ConvertRules(norm, rules.value);
    if converted.Err? {
      return Err(converted.error);
    }
    var combined := if mode == Append then policy.rules + converted.value else converted.value;
    if |combined| > LIMIT {
      return Err(TooManyCombined);
    }
    var updated := policy.(rules := combined);
    var final := Final(document);
    if final.Some? {
      var action := OutboundAction(final.value);
      if action.None? {
        return Err(BadFinal);
      }
      updated := updated.(final := action.value);
    }
    return Ok(Imported(updated, |rules.value|, |converted.value|));
  }

  // ---------------------------------------------------------------------------- main results

  /** An accepted import decides every destination as the source does: existing rules first in append
      mode, then the first source rule that matches, then `route.final`, or else the old final action. */
  lemma ImportKeepsMeaning(norm: Normalizer, matches: Matcher, document: Json<string>, mode: Mode, policy: Policy,
                           destination: string)
    requires Importable(norm, document, mode, policy)
    ensures var kept := if mode == Append then FirstMatch(matches, policy.rules, destination) else None;
            var first := OrElse(kept, SourceDecision(norm, matches, RuleList(document).value, destination));
            Decision(matches, ImportedPolicy(norm, document, mode, policy), destination)
            == (if first.Some? then first.value
                else if Final(document).Some? then OutboundAction(Final(document).value).value
                else policy.final)
  {
    var rules := RuleList(document).value;
    ExpandedMeaning(norm, matches, rules, destination);
    FirstMatchConcat(matches, policy.rules, Expanded(norm, rules), destination);
  }

  /** No accepted import leaves more than 200 rules, a rejecting final action or another flag changed. */
  lemma ImportStaysInPolicy(norm: Normalizer, document: Json<string>, mode: Mode, policy: Policy)
    requires Importable(norm, document, mode, policy) && policy.final != Reject
    ensures var updated := ImportedPolicy(norm, document, mode, policy);
            && |updated.rules| <= LIMIT && updated.final != Reject
            && updated.privateDirect == policy.privateDirect && updated.cnDirect == policy.cnDirect
  {
  }

  /** Importing the same document again changes no decision: the second copy of its rules is shadowed. */
  lemma ReimportChangesNothing(norm: Normalizer, matches: Matcher, document: Json<string>, mode: Mode, policy: Policy,
                               destination: string)
    requires Importable(norm, document, mode, policy)
    requires Importable(norm, document, Append, ImportedPolicy(norm, document, mode, policy))
    ensures var once := ImportedPolicy(norm, document, mode, policy);
            Decision(matches, ImportedPolicy(norm, document, Append, once), destination)
            == Decision(matches, once, destination)
  {
    var once := ImportedPolicy(norm, document, mode, policy);
    ImportKeepsMeaning(norm, matches, document, mode, policy, destination);
    ImportKeepsMeaning(norm, matches, document, Append, once, destination);
    ExpandedMeaning(norm, matches, RuleList(document).value, destination);
    FirstMatchConcat(matches, policy.rules, Expanded(norm, RuleList(document).value), destination);
  }

  // -------------------------------------------------------------- the texts of the documents

  /** The names the documents use for match fields and outbounds. */
  const FIELD_NAMES: map<string, Kind> := map["domain" := Domain, "domain_suffix" := DomainSuffix, "ip_cidr" := IpCidr]
  const OUTBOUND_NAMES: map<string, Action> := map["direct" := Direct, "subscription" := Proxy, "proxy" := Proxy]

  /** A source rule with one pattern: routed to an outbound, or rejected. */
  function OneRule(field: string, text: string, outbound: Option<string>): Json<string> {
    if outbound.Some? then Object(map[field := Str(text), "outbound" := Str(outbound.value)])
    else Object(map[field := Str(text), "action" := Str("reject")])
  }

  predicate KnownTexts(field: string, text: string, outbound: Option<string>) {
    && field in FIELD_NAMES && 1 <= |text| <= 253
    && (outbound.Some? ==> outbound.value in OUTBOUND_NAMES)
  }

  lemma KindsOfFields(field: string, kind: Kind)
    requires field in FIELD_NAMES
    ensures Field(kind) == field <==> kind == FIELD_NAMES[field]
    ensures field != "outbound" && field != "action" && Field(kind) != "outbound" && Field(kind) != "action"
  {
    assert |"domain"| == 6 && |"domain_suffix"| == 13 && |"ip_cidr"| == 7 && |"outbound"| == 8;
    assert "domain"[0] == 'd' && "action"[0] == 'a';
  }

  lemma OneRulePatterns(field: string, text: string, outbound: Option<string>, kind: Kind)
    requires KnownTexts(field, text, outbound)
    ensures PatternsOf(OneRule(field, text, outbound), kind) == if kind == FIELD_NAMES[field] then [Str(text)] else []
  {
    KindsOfFields(field, kind);
  }

  lemma OneRuleAction(field: string, text: string, outbound: Option<string>)
    requires KnownTexts(field, text, outbound)
    ensures ActionOf(OneRule(field, text, outbound))
            == Some(if outbound.Some? then OUTBOUND_NAMES[outbound.value] else Reject)
  {
    KindsOfFields(field, Domain);
  }

  lemma OneRuleWellFormed(norm: Normalizer, field: string, text: string, outbound: Option<string>)
    requires KnownTexts(field, text, outbound) && norm(FIELD_NAMES[field], text).Some?
    ensures WellFormed(norm, OneRule(field, text, outbound))
  {
    var rule := OneRule(field, text, outbound);
    OneRuleAction(field, text, outbound);
    forall k | 0 <= k < 3
      ensures GoodField(norm, rule, KINDS[k]) && (KINDS[k] == FIELD_NAMES[field] ==> PatternsOf(rule, KINDS[k]) != [])
    {
      OneRulePatterns(field, text, outbound, KINDS[k]);
    }
    var j := if FIELD_NAMES[field] == Domain then 0 else if FIELD_NAMES[field] == DomainSuffix then 1 else 2;
    assert KINDS[j] == FIELD_NAMES[field];
    assert "type" !in rule.fields;
  }

  lemma OneRuleExpands(norm: Normalizer, field: string, text: string, outbound: Option<string>)
    requires KnownTexts(field, text, outbound) && norm(FIELD_NAMES[field], text).Some?
    ensures Expanded(norm, [OneRule(field, text, outbound)])
            == [Rule(FIELD_NAMES[field], norm(FIELD_NAMES[field], text).value,
                     if outbound.Some? then OUTBOUND_NAMES[outbound.value] else Reject)]
  {
    var rule := OneRule(field, text, outbound);
    OneRuleAction(field, text, outbound);
    OneRulePatterns(field, text, outbound, Domain);
    OneRulePatterns(field, text, outbound, DomainSuffix);
    OneRulePatterns(field, text, outbound, IpCidr);
    OnePattern(norm, FIELD_NAMES[field], text, RuleAction(rule));
    assert FieldsUpTo(norm, rule, 1) == FieldRules(norm, Domain, PatternsOf(rule, Domain), RuleAction(rule));
    assert FieldsUpTo(norm, rule, 2)
           == FieldsUpTo(norm, rule, 1)
              + FieldRules(norm, DomainSuffix, PatternsOf(rule, DomainSuffix), RuleAction(rule));
    assert [rule][..0] == [];
  }

  lemma OnePattern(norm: Normalizer, kind: Kind, text: string, action: Action)
    requires 1 <= |text| <= 253 && norm(kind, text).Some?
    ensures FieldRules(norm, kind, [Str(text)], action) == [Rule(kind, norm(kind, text).value, action)]
  {
    assert [Json<string>.Str(text)][..0] == [];
  }

  /** The three places for a rule list: bare, in an object, and in the `route` of a configuration; the objects may
      name a final outbound. */
  function DocumentOf(place: nat, rules: seq<Json<string>>, final: Option<string>): Json<string> {
    var list := map["rules" := Array(rules)];
    var route := Object(if final.Some? then list["final" := Str(final.value)] else list);
    if place == 0 then Array(rules) else if place == 1 then route else Object(map["route" := route])
  }

  lemma DocumentReads(place: nat, rules: seq<Json<string>>, final: Option<string>)
    ensures RuleList(DocumentOf(place, rules, final)) == Some(rules)
    ensures Final(DocumentOf(place, rules, final))
            == if place > 0 && final.Some? then Some(Str(final.value)) else None
  {
    assert |"rules"| == 5 && |"final"| == 5 && "rules"[0] == 'r' && "final"[0] == 'f' && "route"[1] == 'o';
  }

  /** A document with one rule in the documented texts imports as exactly that rule: the field gives the kind, and
      "direct" goes past the proxy, "subscription" and "proxy" through it. */
  lemma OneRuleImports(norm: Normalizer, place: nat, field: string, text: string, outbound: Option<string>,
                       final: Option<string>, policy: Policy)
    requires KnownTexts(field, text, outbound) && norm(FIELD_NAMES[field], text).Some?
    requires final.Some? ==> final.value in OUTBOUND_NAMES
    ensures var document := DocumentOf(place, [OneRule(field, text, outbound)], final);
            Importable(norm, document, Replace, policy)
            && ImportedPolicy(norm, document, Replace, policy) == policy.(
                 rules := [Rule(FIELD_NAMES[field], norm(FIELD_NAMES[field], text).value,
                                if outbound.Some? then OUTBOUND_NAMES[outbound.value] else Reject)],
                 final := if place > 0 && final.Some? then OUTBOUND_NAMES[final.value] else policy.final)
  {
    DocumentReads(place, [OneRule(field, text, outbound)], final);
    OneRuleWellFormed(norm, field, text, outbound);
    OneRuleExpands(norm, field, text, outbound);
  }

  /** Read the other way: what a rule does tells which texts it was written with. */
  lemma ActionTellsTexts(rule: Json<string>)
    requires rule.Object? && ActionOf(rule).Some?
    ensures ActionOf(rule).value == Reject <==> "action" in rule.fields && rule.fields["action"] == Str("reject")
    ensures ActionOf(rule).value != Reject <==> "outbound" in rule.fields
    ensures "outbound" in rule.fields ==>
              && rule.fields["outbound"].Str? && rule.fields["outbound"].text in OUTBOUND_NAMES
              && ActionOf(rule).value == OUTBOUND_NAMES[rule.fields["outbound"].text]
  {
  }
}
