/** What the effective rules block and how the preview reports it (`cidr.py`). */
module BlacklistTraffic {
  import opened Strings
  import opened PythonText
  import opened Cidr
  import opened Hostnames
  import opened Blacklist

  // ----------------------------------------------------------------------------- matching

  predicate AddressKind(kind: string) {
    kind == "ip" || kind == "cidr" || kind == "network"
  }

  /** `address in ip_network(pattern, strict=False)`, false when the pattern is no network. */
  predicate InNetwork(t: Texts, pattern: string, a: Address) {
    var n := t.parseNetwork(pattern);
    n.Some? && n.value.prefix <= Width(n.value.family) && Contains(Masked(n.value), a)
  }

  predicate SourceBlocks(t: Texts, k: Key, a: Address) {
    (k.direction == "" || k.direction == "source") && AddressKind(k.kind) && InNetwork(t, k.pattern, a)
  }

  predicate HostBlocks(t: Texts, k: Key, host: string) {
    && k.direction == "destination" && k.pattern != ""
    && var a := t.parseAddress(host);
       || (AddressKind(k.kind) && a.Some? && InNetwork(t, k.pattern, a.value))
       || (k.kind == "domain" && DomainMatches(host, k.pattern))
  }

  function StripDots(s: string): string {
    if s != [] && s[|s| - 1] == '.' then StripDots(s[..|s| - 1]) else s
  }

  /** The host a destination text stands for. */
  function HostOf(t: Texts, text: string): string {
    StripDots(t.lower(Strip(text)))
  }

  /** The pattern of the first rule that blocks. */
  function FirstBlocking(rules: seq<Rule>, blocks: Key -> bool): Option<string> {
    if rules == [] then None
    else if blocks(rules[0].key) then Some(rules[0].key.pattern)
    else FirstBlocking(rules[1..], blocks)
  }

  predicate AnyBlocks(rules: seq<Rule>, blocks: Key -> bool) {
    exists i :: 0 <= i < |rules| && blocks(rules[i].key)
  }

  lemma {:induction false} FirstBlockingExists(rules: seq<Rule>, blocks: Key -> bool)
    ensures FirstBlocking(rules, blocks).Some? <==> AnyBlocks(rules, blocks)
  {
    if rules != [] {
      FirstBlockingExists(rules[1..], blocks);
      if i :| 0 <= i < |rules| && blocks(rules[i].key) {
        assert i > 0 ==> rules[1..][i - 1] == rules[i];
      }
      if j :| 0 <= j < |rules[1..]| && blocks(rules[1..][j].key) {
        assert rules[j + 1] == rules[1..][j];
      }
    }
  }

  lemma {:induction false} FirstBlockingAt(rules: seq<Rule>, blocks: Key -> bool, i: nat)
    requires i <= |rules| && forall j :: 0 <= j < i ==> !blocks(rules[j].key)
    ensures FirstBlocking(rules, blocks) == FirstBlocking(rules[i..], blocks)
    decreases i
  {
    if i == 0 {
      assert rules[0..] == rules;
    } else {
      assert rules[1..][i - 1..] == rules[i..];
      forall j | 0 <= j < i - 1 ensures !blocks(rules[1..][j].key) {
        assert rules[1..][j] == rules[j + 1];
      }
      FirstBlockingAt(rules[1..], blocks, i - 1);
    }
  }

  /** `match_source_blacklist` for an address that could be read. */
  method MatchSource(t: Texts, a: Address, rules: seq<Rule>) returns (r: Option<string>)
    ensures r == FirstBlocking(rules, k => SourceBlocks(t, k, a))
  {
    ghost var blocks := k => SourceBlocks(t, k, a);
    for i := 0 to |rules|
      invariant forall j :: 0 <= j < i ==> !blocks(rules[j].key)
    {
      var k := rules[i].key;
      if (k.direction == "" || k.direction == "source") && AddressKind(k.kind) {
        if InNetwork(t, k.pattern, a) {
          FirstBlockingAt(rules, blocks, i);
          return Some(k.pattern);
        }
      }
    }
    FirstBlockingAt(rules, blocks, |rules|);
    return None;
  }

  /** `match_destination_blacklist`. */
  method MatchDestination(t: Texts, text: string, rules: seq<Rule>) returns (r: Option<string>)
    ensures r == if HostOf(t, text) == "" then None else FirstBlocking(rules, k => HostBlocks(t, k, HostOf(t, text)))
  {
    var host := HostOf(t, text);
    if host == "" {
      return None;
    }
    var address := t.parseAddress(host);
    ghost var blocks := k => HostBlocks(t, k, HostOf(t, text));
    for i := 0 to |rules|
      invariant forall j :: 0 <= j < i ==> !blocks(rules[j].key)
    {
      var k := rules[i].key;
      if k.direction == "destination" && k.pattern != "" {
        if AddressKind(k.kind) && address.Some? {
          if InNetwork(t, k.pattern, address.value) {
            FirstBlockingAt(rules, blocks, i);
            return Some(k.pattern);
          }
        }
        if k.kind == "domain" {
          if host == k.pattern || EndsWith(host, "." + k.pattern) {
            FirstBlockingAt(rules, blocks, i);
            return Some(k.pattern);
          }
        }
      }
    }
    FirstBlockingAt(rules, blocks, |rules|);
    return None;
  }

  // -------------------------------------------------------- what the stored documents mean

  /** The addresses a stored pattern means, told without normalising it: the address itself, or the
      addresses with the leading bits of the prefix as written. */
  predicate MeansAddress(t: Texts, kind: string, pattern: string, a: Address) {
    var text := Strip(pattern);
    && text != []
    && if kind == "ip" then t.parseAddress(text) == Some(a)
       else
         var n := t.parseNetwork(text);
         (kind == "cidr" || kind == "network") && n.Some? && n.value.prefix <= Width(n.value.family)
           && LeadingBits(n.value, a)
  }

  /** The hosts a stored domain means: those whose labels end in its labels. */
  predicate MeansHost(t: Texts, kind: string, pattern: string, host: string) {
    var d := NormalizeDomain(s => t.parseAddress(s).Some?, pattern);
    kind == "domain" && d.Some? && LabelSuffix(Split(d.value, '.'), Split(host, '.'))
  }

  predicate EntryBlocksSource(t: Texts, e: Entry, node: string, a: Address) {
    e.enabled && e.node == node && e.direction == "source" && MeansAddress(t, e.kind, e.pattern, a)
  }

  predicate EntryBlocksHost(t: Texts, e: Entry, node: string, host: string) {
    && e.enabled && e.node == node && e.direction == "destination"
    && var a := t.parseAddress(host);
       (a.Some? && MeansAddress(t, e.kind, e.pattern, a.value)) || MeansHost(t, e.kind, e.pattern, host)
  }

  /** A network that is one address contains that address and no other. */
  lemma SingleAddress(a: Address, b: Address)
    requires IsAddress(a) && IsAddress(b)
    ensures var n := Network(a.family, a.bits, Width(a.family));
            IsWritten(n) && Masked(n) == n && (Contains(n, b) <==> a == b)
  {
    var n := Network(a.family, a.bits, Width(a.family));
    assert Size(n) == 1;
    assert Floor(a.bits, 1) == a.bits && Floor(b.bits, 1) == b.bits;
  }

  lemma NormalizedMeansAddress(t: Texts, kind: string, pattern: string, a: Address)
    requires Faithful(t) && IsAddress(a) && CanonicalKind(kind).Some?
    ensures var k := CanonicalKind(kind).value; var p := NormalizePattern(t, k, pattern);
            p.Some? && AddressKind(k) && InNetwork(t, p.value, a) <==> MeansAddress(t, kind, pattern, a)
  {
    var text := Strip(pattern);
    if text != [] && kind == "ip" {
      var x := t.parseAddress(text);
      if x.Some? {
        SingleAddress(x.value, a);
      }
    } else if text != [] && (kind == "cidr" || kind == "network") {
      var n := t.parseNetwork(text);
      if n.Some? {
        MaskingKeepsAddresses(n.value, a);
        assert t.parseNetwork(t.formatNetwork(Masked(n.value))) == Some(Masked(n.value));
      }
    }
  }

  lemma KeyBlocksSource(t: Texts, e: Entry, a: Address)
    requires Faithful(t) && IsAddress(a)
    ensures var k := KeyOf(t, e);
            k.Some? && SourceBlocks(t, k.value, a) <==> e.direction == "source" && MeansAddress(t, e.kind, e.pattern, a)
  {
    if CanonicalKind(e.kind).Some? {
      NormalizedMeansAddress(t, e.kind, e.pattern, a);
      assert CanonicalKind(CanonicalKind(e.kind).value) == CanonicalKind(e.kind);
    }
  }

  lemma DomainKeyBlocksHost(t: Texts, e: Entry, host: string)
    requires e.kind == "domain"
    ensures var k := KeyOf(t, e);
            k.Some? && HostBlocks(t, k.value, host)
            <==> e.direction == "destination" && MeansHost(t, e.kind, e.pattern, host)
  {
    var d := NormalizeDomain(s => t.parseAddress(s).Some?, e.pattern);
    if d.Some? {
      DomainMatchesIsLabelSuffix(host, d.value);
      StripTrims(e.pattern);
    }
  }

  lemma AddressKeyBlocksHost(t: Texts, e: Entry, host: string)
    requires Faithful(t) && e.kind != "domain"
    ensures var k := KeyOf(t, e); var a := t.parseAddress(host);
            k.Some? && HostBlocks(t, k.value, host)
            <==> e.direction == "destination" && a.Some? && MeansAddress(t, e.kind, e.pattern, a.value)
  {
    var a := t.parseAddress(host);
    if CanonicalKind(e.kind).Some? && a.Some? {
      NormalizedMeansAddress(t, e.kind, e.pattern, a.value);
    }
  }

  lemma KeyBlocksHost(t: Texts, e: Entry, host: string)
    requires Faithful(t)
    ensures var k := KeyOf(t, e); var a := t.parseAddress(host);
            k.Some? && HostBlocks(t, k.value, host)
            <==> (e.direction == "destination"
                  && ((a.Some? && MeansAddress(t, e.kind, e.pattern, a.value))
                      || MeansHost(t, e.kind, e.pattern, host)))
  {
    if e.kind == "domain" {
      DomainKeyBlocksHost(t, e, host);
    } else {
      AddressKeyBlocksHost(t, e, host);
    }
  }

  /** The deduplicated sorted list blocks a key exactly when some active document does. */
  lemma ListBlocksAsDocuments(t: Texts, entries: seq<Entry>, node: string, blocks: Key -> bool)
    ensures FirstBlocking(Effective(t, entries, node), blocks).Some?
            <==> exists i :: 0 <= i < |entries| && Active(entries[i], node)
                   && KeyOf(t, entries[i]).Some? && blocks(KeyOf(t, entries[i]).value)
  {
    var rules := Effective(t, entries, node);
    FirstBlockingExists(rules, blocks);
    EffectiveExactly(t, entries, node);
    if i :| 0 <= i < |rules| && blocks(rules[i].key) {
      assert Has(rules, rules[i].key);
      assert Stored(t, entries, node, rules[i].key);
    }
    if i :| 0 <= i < |entries| && Active(entries[i], node)
              && KeyOf(t, entries[i]).Some? && blocks(KeyOf(t, entries[i]).value) {
      var key := KeyOf(t, entries[i]).value;
      assert Stored(t, entries, node, key);
      assert Has(rules, key);
    }
  }

  /** Same sources blocked: the list a node gets against all its enabled documents, as written. */
  lemma SourcesBlockedAlike(t: Texts, entries: seq<Entry>, node: string, a: Address)
    requires Faithful(t) && IsAddress(a)
    ensures FirstBlocking(Effective(t, entries, node), k => SourceBlocks(t, k, a)).Some?
            <==> exists i :: 0 <= i < |entries| && EntryBlocksSource(t, entries[i], node, a)
  {
    ListBlocksAsDocuments(t, entries, node, k => SourceBlocks(t, k, a));
    forall i | 0 <= i < |entries|
      ensures EntryBlocksSource(t, entries[i], node, a)
              <==> Active(entries[i], node)
                   && KeyOf(t, entries[i]).Some? && SourceBlocks(t, KeyOf(t, entries[i]).value, a)
    {
      KeyBlocksSource(t, entries[i], a);
    }
  }

  /** Same destinations blocked. */
  lemma HostsBlockedAlike(t: Texts, entries: seq<Entry>, node: string, host: string)
    requires Faithful(t)
    ensures FirstBlocking(Effective(t, entries, node), k => HostBlocks(t, k, host)).Some?
            <==> exists i :: 0 <= i < |entries| && EntryBlocksHost(t, entries[i], node, host)
  {
    ListBlocksAsDocuments(t, entries, node, k => HostBlocks(t, k, host));
    forall i | 0 <= i < |entries|
      ensures EntryBlocksHost(t, entries[i], node, host)
              <==> Active(entries[i], node)
                   && KeyOf(t, entries[i]).Some? && HostBlocks(t, KeyOf(t, entries[i]).value, host)
    {
      KeyBlocksHost(t, entries[i], host);
    }
  }

  // -------------------------------------------------------------------------------- preview

  datatype Outcome = Allowed | Indeterminate | Blocked

  datatype Reason = Shutdown | SourceListed | DestinationListed | ResolutionRequired | NothingMatched

  datatype Preview = Preview(outcome: Outcome, reason: Reason, matched: Option<string>, unresolved: set<string>)

  function Rank(o: Outcome): nat {
    match o
    case Allowed => 0
    case Indeterminate => 1
    case Blocked => 2
  }

  /** A source-domain rule, which only the monitor can resolve. */
  predicate Unresolved(r: Rule) {
    (r.key.direction == "" || r.key.direction == "source") && Lower(r.key.kind) == "domain" && r.enabled
      && r.key.pattern != ""
  }

  function UnresolvedPatterns(rules: seq<Rule>): set<string> {
    set r | r in rules && Unresolved(r) :: r.key.pattern
  }

  /** `preview_source_blacklist`; an unreadable source address raises. */
  function PreviewOf(t: Texts, sourceText: string, rules: seq<Rule>, shutdown: bool, destination: Option<string>)
    : Result<Preview, string>
  {
    var source := Strip(sourceText);
    if source != "" && t.parseAddress(source).None? then Err("invalid address")
    else
      var found :=
        if source == "" then None else FirstBlocking(rules, k => SourceBlocks(t, k, t.parseAddress(source).value));
      var foundHost :=
        if destination.None? || HostOf(t, destination.value) == "" then None
        else FirstBlocking(rules, k => HostBlocks(t, k, HostOf(t, destination.value)));
      var unresolved := if source == "" then {} else UnresolvedPatterns(rules);
      Ok(if shutdown then Preview(Blocked, Shutdown, if found.Some? then found else foundHost, unresolved)
         else if found.Some? then Preview(Blocked, SourceListed, found, unresolved)
         else if foundHost.Some? then Preview(Blocked, DestinationListed, foundHost, unresolved)
         else if unresolved != {} then Preview(Indeterminate, ResolutionRequired, None, unresolved)
         else Preview(Allowed, NothingMatched, None, unresolved))
  }

  predicate Included(rules: seq<Rule>, more: seq<Rule>) {
    forall r :: r in rules ==> r in more
  }

  lemma MoreRulesBlockMore(rules: seq<Rule>, more: seq<Rule>, blocks: Key -> bool)
    requires Included(rules, more)
    ensures FirstBlocking(rules, blocks).Some? ==> FirstBlocking(more, blocks).Some?
  {
    FirstBlockingExists(rules, blocks);
    FirstBlockingExists(more, blocks);
    if i :| 0 <= i < |rules| && blocks(rules[i].key) {
      assert rules[i] in more;
      var j :| 0 <= j < |more| && more[j] == rules[i];
    }
  }

  /** Rules added anywhere move the preview only up: allowed < indeterminate < blocked. */
  lemma PreviewIsMonotone(t: Texts, source: string, rules: seq<Rule>, more: seq<Rule>, shutdown: bool,
                          destination: Option<string>)
    requires Included(rules, more)
    ensures var a := PreviewOf(t, source, rules, shutdown, destination);
            var b := PreviewOf(t, source, more, shutdown, destination);
            && (a.Ok? <==> b.Ok?)
            && (a.Ok? ==> Rank(a.value.outcome) <= Rank(b.value.outcome) && a.value.unresolved <= b.value.unresolved)
  {
    var text := Strip(source);
    if text != "" && t.parseAddress(text).Some? {
      MoreRulesBlockMore(rules, more, k => SourceBlocks(t, k, t.parseAddress(text).value));
    }
    if destination.Some? {
      MoreRulesBlockMore(rules, more, k => HostBlocks(t, k, HostOf(t, destination.value)));
    }
    assert UnresolvedPatterns(rules) <= UnresolvedPatterns(more);
  }

  /** What an "allowed" preview of a node's effective rules says of the documents behind it: none blocks
      the address and none blocks the host. */
  lemma AllowedMeansUnblocked(t: Texts, source: string, entries: seq<Entry>, node: string, shutdown: bool,
                              destination: Option<string>)
    requires Faithful(t)
    requires var p := PreviewOf(t, source, Effective(t, entries, node), shutdown, destination);
             p.Ok? && p.value.outcome == Allowed
    ensures !shutdown
    ensures Strip(source) != "" ==>
              forall e :: e in entries ==> !EntryBlocksSource(t, e, node, t.parseAddress(Strip(source)).value)
    ensures destination.Some? && HostOf(t, destination.value) != "" ==>
              forall e :: e in entries ==> !EntryBlocksHost(t, e, node, HostOf(t, destination.value))
  {
    if Strip(source) != "" {
      var a := t.parseAddress(Strip(source)).value;
      SourcesBlockedAlike(t, entries, node, a);
      forall e | e in entries ensures !EntryBlocksSource(t, e, node, a) {
        var i :| 0 <= i < |entries| && entries[i] == e;
      }
    }
    if destination.Some? && HostOf(t, destination.value) != "" {
      var host := HostOf(t, destination.value);
      HostsBlockedAlike(t, entries, node, host);
      forall e | e in entries ensures !EntryBlocksHost(t, e, node, host) {
        var i :| 0 <= i < |entries| && entries[i] == e;
      }
    }
  }

  // ------------------------------------------------------- the preview against the documents

  /** An enabled source-domain document. */
  predicate NeedsResolution(t: Texts, e: Entry, node: string) {
    && e.enabled && e.node == node && e.direction == "source" && e.kind == "domain"
    && NormalizeDomain(s => t.parseAddress(s).Some?, e.pattern).Some?
  }

  function DomainsToResolve(t: Texts, entries: seq<Entry>, node: string): set<string> {
    set e | e in entries && NeedsResolution(t, e, node) ::
      NormalizeDomain(s => t.parseAddress(s).Some?, e.pattern).value
  }

  /** Some enabled source document with this normalised pattern means the address. */
  ghost predicate SourceListedAs(t: Texts, sourceText: string, entries: seq<Entry>, node: string, pattern: string) {
    var a := t.parseAddress(Strip(sourceText));
    Strip(sourceText) != "" && a.Some? && exists i ::
      && 0 <= i < |entries| && EntryBlocksSource(t, entries[i], node, a.value)
      && KeyOf(t, entries[i]).Some? && KeyOf(t, entries[i]).value.pattern == pattern
  }

  ghost predicate HostListedAs(t: Texts, destination: Option<string>, entries: seq<Entry>, node: string,
                               pattern: string) {
    destination.Some? && HostOf(t, destination.value) != "" && exists i ::
      && 0 <= i < |entries| && EntryBlocksHost(t, entries[i], node, HostOf(t, destination.value))
      && KeyOf(t, entries[i]).Some? && KeyOf(t, entries[i]).value.pattern == pattern
  }

  /** What the preview of a node must answer, told over its stored documents. */
  ghost predicate Previews(t: Texts, sourceText: string, entries: seq<Entry>, node: string, shutdown: bool,
                           destination: Option<string>, p: Preview) {
    var bySource := exists pattern :: SourceListedAs(t, sourceText, entries, node, pattern);
    var byHost := exists pattern :: HostListedAs(t, destination, entries, node, pattern);
    && p.unresolved == (if Strip(sourceText) == "" then {} else DomainsToResolve(t, entries, node))
    && (p.outcome == Blocked <==> shutdown || bySource || byHost)
    && (p.outcome == Indeterminate <==> !shutdown && !bySource && !byHost && p.unresolved != {})
    && p.reason == (if shutdown then Shutdown else if bySource then SourceListed
                    else if byHost then DestinationListed
                    else if p.unresolved != {} then ResolutionRequired else NothingMatched)
    && (p.matched.Some? <==> bySource || byHost)
    && (bySource ==> SourceListedAs(t, sourceText, entries, node, p.matched.value))
    && (!bySource && byHost ==> HostListedAs(t, destination, entries, node, p.matched.value))
  }

  lemma {:induction false} FirstBlockingCause(rules: seq<Rule>, blocks: Key -> bool)
    requires FirstBlocking(rules, blocks).Some?
    ensures exists r :: r in rules && blocks(r.key) && r.key.pattern == FirstBlocking(rules, blocks).value
  {
    if blocks(rules[0].key) {
      assert rules[0] in rules;
    } else {
      FirstBlockingCause(rules[1..], blocks);
    }
  }

  /** What the first blocking rule of a node's list says of its documents. */
  lemma ListBlocksFor(t: Texts, entries: seq<Entry>, node: string, blocks: Key -> bool)
    ensures var found := FirstBlocking(Effective(t, entries, node), blocks);
            && (found.Some? ==> exists i :: 0 <= i < |entries| && Active(entries[i], node) && KeyOf(t, entries[i]).Some?
                                  && blocks(KeyOf(t, entries[i]).value)
                                  && KeyOf(t, entries[i]).value.pattern == found.value)
            && (found.None? ==> forall i :: 0 <= i < |entries| && Active(entries[i], node) && KeyOf(t, entries[i]).Some?
                                  ==> !blocks(KeyOf(t, entries[i]).value))
  {
    var rules := Effective(t, entries, node);
    ListBlocksAsDocuments(t, entries, node, blocks);
    if FirstBlocking(rules, blocks).Some? {
      FirstBlockingCause(rules, blocks);
      EffectiveFromFirst(t, entries, node);
      var r :| r in rules && blocks(r.key) && r.key.pattern == FirstBlocking(rules, blocks).value;
      assert FromFirst(t, entries, node, r);
    }
  }

  lemma SourceFoundFor(t: Texts, sourceText: string, entries: seq<Entry>, node: string)
    requires Faithful(t) && Strip(sourceText) != "" && t.parseAddress(Strip(sourceText)).Some?
    ensures var found := FirstBlocking(Effective(t, entries, node),
                                       k => SourceBlocks(t, k, t.parseAddress(Strip(sourceText)).value));
            if found.Some? then SourceListedAs(t, sourceText, entries, node, found.value)
            else forall pattern :: !SourceListedAs(t, sourceText, entries, node, pattern)
  {
    var a := t.parseAddress(Strip(sourceText)).value;
    ListBlocksFor(t, entries, node, k => SourceBlocks(t, k, t.parseAddress(Strip(sourceText)).value));
    forall i | 0 <= i < |entries|
      ensures EntryBlocksSource(t, entries[i], node, a)
              <==> Active(entries[i], node) && KeyOf(t, entries[i]).Some?
                   && SourceBlocks(t, KeyOf(t, entries[i]).value, a)
    {
      KeyBlocksSource(t, entries[i], a);
    }
  }

  lemma HostFoundFor(t: Texts, destination: string, entries: seq<Entry>, node: string)
    requires Faithful(t) && HostOf(t, destination) != ""
    ensures var found := FirstBlocking(Effective(t, entries, node), k => HostBlocks(t, k, HostOf(t, destination)));
            if found.Some? then HostListedAs(t, Some(destination), entries, node, found.value)
            else forall pattern :: !HostListedAs(t, Some(destination), entries, node, pattern)
  {
    var host := HostOf(t, destination);
    ListBlocksFor(t, entries, node, k => HostBlocks(t, k, HostOf(t, destination)));
    forall i | 0 <= i < |entries|
      ensures EntryBlocksHost(t, entries[i], node, host)
              <==> Active(entries[i], node) && KeyOf(t, entries[i]).Some?
                   && HostBlocks(t, KeyOf(t, entries[i]).value, host)
    {
      KeyBlocksHost(t, entries[i], host);
    }
  }

  lemma LowerKind(kind: string)
    requires kind == "ip" || kind == "cidr" || kind == "domain"
    ensures Lower(kind) == "domain" <==> kind == "domain"
  {
    if kind != "domain" {
      assert |kind| != 6;
    } else {
      assert Lower("domain") == "domain";
    }
  }

  lemma NormalizedIsText(isAddress: string -> bool, value: string)
    ensures var n := NormalizeDomain(isAddress, value); n.Some? ==> n.value != [] && Strip(value) == value != []
  {
  }

  /** An unresolved rule of the list is a source-domain document, and conversely. */
  lemma ResolutionKey(t: Texts, e: Entry, node: string)
    requires Active(e, node)
    ensures var k := KeyOf(t, e);
            && (NeedsResolution(t, e, node) <==> k.Some? && Unresolved(Rule(e.id, k.value, true)))
            && (NeedsResolution(t, e, node) ==>
                  k.value.pattern == NormalizeDomain(s => t.parseAddress(s).Some?, e.pattern).value)
  {
    NormalizedIsText(s => t.parseAddress(s).Some?, e.pattern);
    var kind := CanonicalKind(e.kind);
    if kind.Some? {
      LowerKind(kind.value);
    }
  }

  lemma UnresolvedAre(t: Texts, entries: seq<Entry>, node: string)
    ensures UnresolvedPatterns(Effective(t, entries, node)) == DomainsToResolve(t, entries, node)
  {
    var rules := Effective(t, entries, node);
    EffectiveFromFirst(t, entries, node);
    EffectiveExactly(t, entries, node);
    forall r | r in rules && Unresolved(r) ensures r.key.pattern in DomainsToResolve(t, entries, node) {
      assert FromFirst(t, entries, node, r);
      var i :| 0 <= i < |entries| && Active(entries[i], node) && KeyOf(t, entries[i]) == Some(r.key)
               && r == Rule(entries[i].id, r.key, true);
      ResolutionKey(t, entries[i], node);
      assert entries[i] in entries;
    }
    forall e | e in entries && NeedsResolution(t, e, node)
      ensures NormalizeDomain(s => t.parseAddress(s).Some?, e.pattern).value in UnresolvedPatterns(rules)
    {
      ResolutionKey(t, e, node);
      var i :| 0 <= i < |entries| && entries[i] == e;
      assert Stored(t, entries, node, KeyOf(t, entries[i]).value);
      var j :| 0 <= j < |rules| && rules[j].key == KeyOf(t, e).value;
      assert rules[j] in rules && FromFirst(t, entries, node, rules[j]);
    }
  }

  /** The preview of a node's effective list answers exactly what its enabled documents, as written, mean; it
      fails exactly when the source address cannot be read. */
  lemma PreviewExactly(t: Texts, sourceText: string, entries: seq<Entry>, node: string, shutdown: bool,
                       destination: Option<string>)
    requires Faithful(t)
    ensures var p := PreviewOf(t, sourceText, Effective(t, entries, node), shutdown, destination);
            && (p.Err? <==> Strip(sourceText) != "" && t.parseAddress(Strip(sourceText)).None?)
            && (p.Ok? ==> Previews(t, sourceText, entries, node, shutdown, destination, p.value))
  {
    if Strip(sourceText) != "" && t.parseAddress(Strip(sourceText)).Some? {
      SourceFoundFor(t, sourceText, entries, node);
    }
    if destination.Some? && HostOf(t, destination.value) != "" {
      HostFoundFor(t, destination.value, entries, node);
    }
    UnresolvedAre(t, entries, node);
  }
}
