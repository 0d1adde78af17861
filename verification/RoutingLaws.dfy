/** Which routing documents can be imported, told over their texts and counts (`routing_import.py`). */
module RoutingLaws {
  import opened Strings
  import opened JsonValue
  import opened RoutingImport

  predicate UsablePattern(norm: Normalizer, kind: Kind, pattern: Json<string>) {
    pattern.Str? && 1 <= |pattern.text| <= 253 && norm(kind, pattern.text).Some?
  }

  /** A match field holds a pattern or a list of at least one. */
  ghost predicate UsableField(norm: Normalizer, rule: Json<string>, kind: Kind, name: string)
    requires rule.Object?
  {
    name in rule.fields ==>
      match rule.fields[name]
      case Str(_) => UsablePattern(norm, kind, rule.fields[name])
      case Array(items) => items != [] && forall i :: 0 <= i < |items| ==> UsablePattern(norm, kind, items[i])
      case _ => false
  }

  /** It routes to a known outbound, which is the default action, or rejects and names none. */
  predicate UsableAction(rule: Json<string>)
    requires rule.Object?
  {
    if "action" in rule.fields && rule.fields["action"] != Str("route") then
      rule.fields["action"] == Str("reject") && "outbound" !in rule.fields
    else
      && "outbound" in rule.fields && rule.fields["outbound"].Str?
      && rule.fields["outbound"].text in OUTBOUND_NAMES
  }

  predicate KnownField(name: string) {
    || name == "domain" || name == "domain_suffix" || name == "ip_cidr" || name == "action" || name == "outbound"
    || name == "type"
  }

  ghost predicate UsableRule(norm: Normalizer, rule: Json<string>) {
    && rule.Object?
    && (forall name :: name in rule.fields ==> KnownField(name))
    && ("type" in rule.fields ==> rule.fields["type"] == Str("default"))
    && UsableAction(rule)
    && UsableField(norm, rule, Domain, "domain")
    && UsableField(norm, rule, DomainSuffix, "domain_suffix")
    && UsableField(norm, rule, IpCidr, "ip_cidr")
    && ("domain" in rule.fields || "domain_suffix" in rule.fields || "ip_cidr" in rule.fields)
  }

  lemma PatternIsUsable(norm: Normalizer, kind: Kind, pattern: Json<string>)
    ensures Normalized(norm, kind, pattern).Some? <==> UsablePattern(norm, kind, pattern)
  {
  }

  lemma FieldIsUsable(norm: Normalizer, rule: Json<string>, kind: Kind)
    requires rule.Object?
    ensures GoodField(norm, rule, kind) <==> UsableField(norm, rule, kind, Field(kind))
  {
    if Field(kind) in rule.fields {
      var patterns := PatternsOf(rule, kind);
      forall i | 0 <= i < |patterns|
        ensures Normalized(norm, kind, patterns[i]).Some? <==> UsablePattern(norm, kind, patterns[i])
      {
        PatternIsUsable(norm, kind, patterns[i]);
      }
      if rule.fields[Field(kind)].Str? {
        assert patterns == [rule.fields[Field(kind)]];
        assert patterns[0] == rule.fields[Field(kind)];
      }
    }
  }

  lemma FieldsAreUsable(norm: Normalizer, rule: Json<string>)
    requires rule.Object?
    ensures GoodFields(norm, rule, 3) <==>
              && UsableField(norm, rule, Domain, "domain")
              && UsableField(norm, rule, DomainSuffix, "domain_suffix")
              && UsableField(norm, rule, IpCidr, "ip_cidr")
  {
    FieldIsUsable(norm, rule, Domain);
    FieldIsUsable(norm, rule, DomainSuffix);
    FieldIsUsable(norm, rule, IpCidr);
    if GoodFields(norm, rule, 3) {
      assert GoodField(norm, rule, KINDS[0]) && GoodField(norm, rule, KINDS[1]) && GoodField(norm, rule, KINDS[2]);
    }
  }

  lemma MatcherIsAField(norm: Normalizer, rule: Json<string>)
    requires rule.Object? && GoodFields(norm, rule, 3)
    ensures HasMatcher(rule, 3) <==>
              "domain" in rule.fields || "domain_suffix" in rule.fields || "ip_cidr" in rule.fields
  {
    assert GoodField(norm, rule, KINDS[0]) && GoodField(norm, rule, KINDS[1]) && GoodField(norm, rule, KINDS[2]);
  }

  lemma ActionIsUsable(rule: Json<string>)
    requires rule.Object?
    ensures ActionOf(rule).Some? <==> UsableAction(rule)
  {
  }

  lemma FieldsAreKnown(rule: Json<string>)
    requires rule.Object?
    ensures Supported(rule) <==> forall name :: name in rule.fields ==> KnownField(name)
  {
  }

  lemma WellFormedExactly(norm: Normalizer, rule: Json<string>)
    ensures WellFormed(norm, rule) <==> UsableRule(norm, rule)
  {
    if rule.Object? {
      FieldsAreKnown(rule);
      ActionIsUsable(rule);
      FieldsAreUsable(norm, rule);
      if GoodFields(norm, rule, 3) {
        MatcherIsAField(norm, rule);
      }
    }
  }

  // ----------------------------------------------------------------------------- counting

  function FieldCount(rule: Json<string>, name: string): nat {
    if !rule.Object? || name !in rule.fields then 0
    else match rule.fields[name] case Str(_) => 1 case Array(items) => |items| case _ => 0
  }

  /** How many patterns the rules hold. */
  function PatternCount(rules: seq<Json<string>>): nat {
    if rules == [] then 0
    else
      FieldCount(rules[0], "domain") + FieldCount(rules[0], "domain_suffix") + FieldCount(rules[0], "ip_cidr")
      + PatternCount(rules[1..])
  }

  lemma RuleCounts(norm: Normalizer, rule: Json<string>)
    ensures |FieldsUpTo(norm, rule, 3)|
            == FieldCount(rule, "domain") + FieldCount(rule, "domain_suffix") + FieldCount(rule, "ip_cidr")
  {
    if rule.Object? {
      assert |FieldsUpTo(norm, rule, 1)| == FieldCount(rule, "domain");
      assert |FieldsUpTo(norm, rule, 2)| == FieldCount(rule, "domain") + FieldCount(rule, "domain_suffix");
    }
  }

  lemma {:induction false} PatternsAppend(rules: seq<Json<string>>, last: Json<string>)
    ensures PatternCount(rules + [last]) == PatternCount(rules) + PatternCount([last])
  {
    if rules == [] {
      assert rules + [last] == [last];
    } else {
      assert (rules + [last])[1..] == rules[1..] + [last];
      PatternsAppend(rules[1..], last);
    }
  }

  /** Every pattern becomes one rule. */
  lemma {:induction false} EveryPatternIsARule(norm: Normalizer, rules: seq<Json<string>>)
    ensures |Expanded(norm, rules)| == PatternCount(rules)
  {
    if rules != [] {
      var n := |rules| - 1;
      InitLast(rules);
      EveryPatternIsARule(norm, rules[..n]);
      RuleCounts(norm, rules[n]);
      PatternsAppend(rules[..n], rules[n]);
    }
  }

  // ---------------------------------------------------------------------------- documents

  /** The rules of a document: the array itself, or `rules` of the object, of its `route` when it has one. */
  predicate Holds(document: Json<string>, rules: seq<Json<string>>) {
    if !document.Object? then document == Array(rules)
    else if "route" in document.fields then
      var route := document.fields["route"];
      if route.Object? then "rules" in route.fields && route.fields["rules"] == Array(rules) else route == Array(rules)
    else "rules" in document.fields && document.fields["rules"] == Array(rules)
  }

  /** `final`, when the object that holds the rules has one. */
  function FinalText(document: Json<string>): Option<Json<string>> {
    if !document.Object? then None
    else if "route" in document.fields then
      var route := document.fields["route"];
      if route.Object? && "final" in route.fields then Some(route.fields["final"]) else None
    else if "final" in document.fields then Some(document.fields["final"]) else None
  }

  lemma HoldsRules(document: Json<string>, rules: seq<Json<string>>)
    ensures Holds(document, rules) <==> RuleList(document) == Some(rules)
    ensures FinalText(document) == Final(document)
  {
  }

  /** At most 200 usable rules with at most 200 patterns, together with the rules kept in append mode. */
  ghost predicate Fits(norm: Normalizer, rules: seq<Json<string>>, mode: Mode, policy: Policy) {
    && |rules| <= 200
    && (forall i :: 0 <= i < |rules| ==> UsableRule(norm, rules[i]))
    && PatternCount(rules) <= 200
    && (mode == Append ==> |policy.rules| + PatternCount(rules) <= 200)
  }

  predicate KnownFinal(document: Json<string>) {
    var final := FinalText(document);
    final.Some? ==> final.value.Str? && final.value.text in OUTBOUND_NAMES
  }

  lemma AllAreUsable(norm: Normalizer, rules: seq<Json<string>>)
    ensures AllWellFormed(norm, rules) <==> forall i :: 0 <= i < |rules| ==> UsableRule(norm, rules[i])
  {
    forall i | 0 <= i < |rules| ensures WellFormed(norm, rules[i]) <==> UsableRule(norm, rules[i]) {
      WellFormedExactly(norm, rules[i]);
    }
  }

  lemma OutboundIsKnown(outbound: Json<string>)
    ensures OutboundAction(outbound).Some? <==> outbound.Str? && outbound.text in OUTBOUND_NAMES
  {
  }

  lemma FinalIsKnown(document: Json<string>)
    ensures KnownFinal(document) <==> (Final(document).Some? ==> OutboundAction(Final(document).value).Some?)
  {
    HoldsRules(document, []);
    if Final(document).Some? {
      OutboundIsKnown(Final(document).value);
    }
  }

  lemma FitsExactly(norm: Normalizer, document: Json<string>, rules: seq<Json<string>>, mode: Mode, policy: Policy)
    requires RuleList(document) == Some(rules)
    ensures Importable(norm, document, mode, policy) <==> Fits(norm, rules, mode, policy) && KnownFinal(document)
  {
    EveryPatternIsARule(norm, rules);
    AllAreUsable(norm, rules);
    FinalIsKnown(document);
  }

  /** A document can be imported exactly when it holds rules that fit and its `final` names an outbound. */
  lemma ImportableExactly(norm: Normalizer, document: Json<string>, mode: Mode, policy: Policy)
    ensures Importable(norm, document, mode, policy)
            <==> KnownFinal(document) && exists rules :: Holds(document, rules) && Fits(norm, rules, mode, policy)
  {
    var found := RuleList(document);
    if found.Some? {
      HoldsRules(document, found.value);
      FitsExactly(norm, document, found.value, mode, policy);
    }
    forall rules | Holds(document, rules) ensures found == Some(rules) {
      HoldsRules(document, rules);
    }
  }
}
