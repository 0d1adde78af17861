/** Node blacklists (`cidr.py`): which stored rules take effect, what they match and what the preview says.
    Address and network texts are read and written by a given `Texts`. */
module Blacklist {
  import opened Strings
  import opened PythonText
  import opened Cidr
  import opened Hostnames

  /** Python's `ipaddress` as text functions, and `str.lower`.  `parseNetwork` keeps the host bits. */
  datatype Texts = Texts(lower: string -> string,
                         parseAddress: string -> Option<Address>, formatAddress: Address -> string,
                         parseNetwork: string -> Option<Network>, formatNetwork: Network -> string)

  /** What is written can be read back; a lone address reads as the network of that address. */
  ghost predicate Faithful(t: Texts) {
    && (forall s :: t.parseAddress(s).Some? ==> IsAddress(t.parseAddress(s).value))
    && (forall s :: t.parseNetwork(s).Some? ==> IsWritten(t.parseNetwork(s).value))
    && (forall a :: IsAddress(a) ==>
          t.parseNetwork(t.formatAddress(a)) == Some(Network(a.family, a.bits, Width(a.family))))
    && (forall n :: IsNetwork(n) ==> t.parseNetwork(t.formatNetwork(n)) == Some(n))
    && t.parseNetwork("").None?
  }

  /** A stored document. */
  datatype Entry = Entry(id: string, node: string, enabled: bool, direction: string, kind: string, pattern: string)

  datatype Key = Key(direction: string, kind: string, pattern: string)

  datatype Rule = Rule(id: string, key: Key, enabled: bool)

  // ---------------------------------------------------------------------- normalisation

  function CanonicalKind(kind: string): Option<string> {
    if kind == "network" then Some("cidr")
    else if kind == "ip" || kind == "cidr" || kind == "domain" then Some(kind)
    else None
  }

  predicate CanonicalDirection(direction: string) {
    direction == "source" || direction == "destination"
  }

  function NormalizePattern(t: Texts, kind: string, value: string): Option<string> {
    var pattern := Strip(value);
    if pattern == [] then None
    else match CanonicalKind(kind)
      case None => None
      case Some(k) =>
        if k == "ip" then
          var a := t.parseAddress(pattern);
          if a.Some? then Some(t.formatAddress(a.value)) else None
        else if k == "cidr" then
          var n := t.parseNetwork(pattern);
          if n.Some? && n.value.prefix <= Width(n.value.family) then Some(t.formatNetwork(Masked(n.value))) else None
        else NormalizeDomain(s => t.parseAddress(s).Some?, value)
  }

  /** The rule a stored document stands for, `None` when it is malformed. */
  function KeyOf(t: Texts, e: Entry): Option<Key> {
    var kind := CanonicalKind(e.kind);
    if !CanonicalDirection(e.direction) || kind.None? then None
    else
      var pattern := NormalizePattern(t, kind.value, e.pattern);
      if pattern.None? then None else Some(Key(e.direction, kind.value, pattern.value))
  }

  predicate Active(e: Entry, node: string) {
    e.enabled && e.node == node
  }

  // --------------------------------------------------------------------- ordering of keys

  predicate Before(a: string, b: string) {
    if a == [] || b == [] then a == []
    else a[0] < b[0] || (a[0] == b[0] && Before(a[1..], b[1..]))
  }

  /** The order of the sort key `(direction, kind, pattern)`. */
  predicate KeyBefore(a: Key, b: Key) {
    if a.direction != b.direction then Before(a.direction, b.direction)
    else if a.kind != b.kind then Before(a.kind, b.kind)
    else Before(a.pattern, b.pattern)
  }

  lemma {:induction false} BeforeIsTotal(a: string, b: string)
    ensures Before(a, b) || Before(b, a)
    ensures Before(a, b) && Before(b, a) ==> a == b
    ensures Before(a, a)
    decreases |a| + |b|
  {
    if a != [] && b != [] {
      if a[0] == b[0] {
        BeforeIsTotal(a[1..], b[1..]);
        assert a == [a[0]] + a[1..] && b == [b[0]] + b[1..];
      }
    }
    if a != [] {
      BeforeSelf(a);
    }
  }

  lemma {:induction false} BeforeSelf(a: string)
    ensures Before(a, a)
  {
    if a != [] {
      BeforeSelf(a[1..]);
    }
  }

  lemma {:induction false} BeforeIsTransitive(a: string, b: string, c: string)
    requires Before(a, b) && Before(b, c)
    ensures Before(a, c)
  {
    if a != [] && b != [] && c != [] && a[0] == b[0] == c[0] {
      BeforeIsTransitive(a[1..], b[1..], c[1..]);
    }
  }

  lemma KeyOrder(a: Key, b: Key)
    ensures KeyBefore(a, b) || KeyBefore(b, a)
    ensures KeyBefore(a, b) && KeyBefore(b, a) ==> a == b
  {
    BeforeIsTotal(a.direction, b.direction);
    BeforeIsTotal(a.kind, b.kind);
    BeforeIsTotal(a.pattern, b.pattern);
  }

  lemma KeyTransitive(a: Key, b: Key, c: Key)
    requires KeyBefore(a, b) && KeyBefore(b, c)
    ensures KeyBefore(a, c)
  {
    if a.direction == b.direction == c.direction {
      if a.kind == b.kind == c.kind {
        BeforeIsTransitive(a.pattern, b.pattern, c.pattern);
      } else if a.kind != b.kind && b.kind != c.kind {
        BeforeIsTransitive(a.kind, b.kind, c.kind);
        BeforeIsTotal(a.kind, b.kind);
      }
    } else if a.direction != b.direction && b.direction != c.direction {
      BeforeIsTransitive(a.direction, b.direction, c.direction);
      BeforeIsTotal(a.direction, b.direction);
    }
  }

  // ------------------------------------------------------------------- the effective rules

  predicate Has(rules: seq<Rule>, key: Key) {
    exists i :: 0 <= i < |rules| && rules[i].key == key
  }

  /** The loop of `effective_blacklist`: the first active document of each key. */
  function Collected(t: Texts, entries: seq<Entry>, node: string): seq<Rule> {
    if entries == [] then []
    else
      var n := |entries| - 1;
      var rules, key := Collected(t, entries[..n], node), KeyOf(t, entries[n]);
      if !Active(entries[n], node) || key.None? || Has(rules, key.value) then rules
      else rules + [Rule(entries[n].id, key.value, true)]
  }

  /** Where a rule goes in a sorted list; `list.sort` is stable. */
  function Inserted(rules: seq<Rule>, r: Rule): seq<Rule> {
    if rules == [] || KeyBefore(rules[|rules| - 1].key, r.key) then rules + [r]
    else Inserted(rules[..|rules| - 1], r) + [rules[|rules| - 1]]
  }

  function Sorted(rules: seq<Rule>): seq<Rule> {
    if rules == [] then [] else Inserted(Sorted(rules[..|rules| - 1]), rules[|rules| - 1])
  }

  function Effective(t: Texts, entries: seq<Entry>, node: string): seq<Rule> {
    Sorted(Collected(t, entries, node))
  }

  method EffectiveBlacklist(t: Texts, entries: seq<Entry>, node: string) returns (rules: seq<Rule>)
    ensures rules == Effective(t, entries, node)
  {
    rules := [];
    var seen: set<Key> := {};
    for i := 0 to |entries|
      invariant rules == Collected(t, entries[..i], node)
      invariant forall k :: k in seen <==> Has(rules, k)
    {
      TakeOneMore(entries, i);
      if Active(entries[i], node) {
        var key := KeyOf(t, entries[i]);
        if key.Some? && key.value !in seen {
          HasSnoc(rules, Rule(entries[i].id, key.value, true));
          seen := seen + {key.value};
          rules := rules + [Rule(entries[i].id, key.value, true)];
        }
      }
    }
    assert entries[..|entries|] == entries;
    rules := Sorted(rules);
  }

  lemma HasSnoc(rules: seq<Rule>, r: Rule)
    ensures forall k :: Has(rules + [r], k) <==> Has(rules, k) || k == r.key
  {
    forall k ensures Has(rules + [r], k) <==> Has(rules, k) || k == r.key {
      if Has(rules, k) {
        var i :| 0 <= i < |rules| && rules[i].key == k;
        assert (rules + [r])[i].key == k;
      }
      assert (rules + [r])[|rules|].key == r.key;
    }
  }

  /** An enabled, well-formed document of the node with this key. */
  predicate Stored(t: Texts, entries: seq<Entry>, node: string, key: Key) {
    exists i :: 0 <= i < |entries| && entries[i].enabled && entries[i].node == node && KeyOf(t, entries[i]) == Some(key)
  }

  lemma {:induction false} CollectedExactly(t: Texts, entries: seq<Entry>, node: string, key: Key)
    ensures Has(Collected(t, entries, node), key) <==> Stored(t, entries, node, key)
  {
    if entries != [] {
      var n := |entries| - 1;
      CollectedExactly(t, entries[..n], node, key);
      StoredSnoc(t, entries, node, key);
      var rules, last := Collected(t, entries[..n], node), KeyOf(t, entries[n]);
      if last.Some? {
        HasSnoc(rules, Rule(entries[n].id, last.value, true));
      }
    }
  }

  lemma StoredSnoc(t: Texts, entries: seq<Entry>, node: string, key: Key)
    requires entries != []
    ensures var n := |entries| - 1;
            Stored(t, entries, node, key)
            == (Stored(t, entries[..n], node, key) || (Active(entries[n], node) && KeyOf(t, entries[n]) == Some(key)))
  {
    var n := |entries| - 1;
    if Stored(t, entries[..n], node, key) {
      var i :| 0 <= i < n && Active(entries[..n][i], node) && KeyOf(t, entries[..n][i]) == Some(key);
      assert entries[i] == entries[..n][i];
    }
    if i :| 0 <= i < |entries| && Active(entries[i], node) && KeyOf(t, entries[i]) == Some(key) {
      assert i < n ==> entries[..n][i] == entries[i];
    }
  }

  /** Keys in strictly ascending order. */
  predicate Ascending(rules: seq<Rule>) {
    forall i, j :: 0 <= i < j < |rules| ==> KeyBefore(rules[i].key, rules[j].key) && rules[i].key != rules[j].key
  }

  lemma {:induction false} InsertedHas(rules: seq<Rule>, r: Rule, key: Key)
    ensures Has(Inserted(rules, r), key) <==> Has(rules, key) || key == r.key
  {
    if rules == [] || KeyBefore(rules[|rules| - 1].key, r.key) {
      HasSnoc(rules, r);
    } else {
      var init, last := rules[..|rules| - 1], rules[|rules| - 1];
      InitLast(rules);
      InsertedHas(init, r, key);
      HasSnoc(init, last);
      HasSnoc(Inserted(init, r), last);
    }
  }

  lemma AscendingSnoc(rules: seq<Rule>, last: Rule)
    requires Ascending(rules)
    requires forall k :: Has(rules, k) ==> KeyBefore(k, last.key) && k != last.key
    ensures Ascending(rules + [last])
  {
    forall i | 0 <= i < |rules| ensures KeyBefore(rules[i].key, last.key) && rules[i].key != last.key {
      assert Has(rules, rules[i].key);
    }
  }

  lemma AscendingInit(rules: seq<Rule>)
    requires Ascending(rules) && rules != []
    ensures Ascending(rules[..|rules| - 1])
    ensures var init, last := rules[..|rules| - 1], rules[|rules| - 1];
            forall k :: Has(init, k) ==> KeyBefore(k, last.key) && k != last.key
  {
  }

  lemma {:induction false} InsertedAscending(rules: seq<Rule>, r: Rule)
    requires Ascending(rules) && !Has(rules, r.key)
    ensures Ascending(Inserted(rules, r))
  {
    if rules != [] {
      var init, last := rules[..|rules| - 1], rules[|rules| - 1];
      AscendingInit(rules);
      assert Has(rules, last.key);
      InitLast(rules);
      HasSnoc(init, last);
      if KeyBefore(last.key, r.key) {
        forall k | Has(rules, k) ensures KeyBefore(k, r.key) && k != r.key {
          if k != last.key {
            KeyTransitive(k, last.key, r.key);
          }
        }
        AscendingSnoc(rules, r);
      } else {
        InsertedAscending(init, r);
        KeyOrder(last.key, r.key);
        forall k | Has(Inserted(init, r), k) ensures KeyBefore(k, last.key) && k != last.key {
          InsertedHas(init, r, k);
        }
        AscendingSnoc(Inserted(init, r), last);
      }
    }
  }

  lemma {:induction false} SortedHas(rules: seq<Rule>, key: Key)
    ensures Has(Sorted(rules), key) <==> Has(rules, key)
  {
    if rules != [] {
      var n := |rules| - 1;
      InitLast(rules);
      SortedHas(rules[..n], key);
      HasSnoc(rules[..n], rules[n]);
      InsertedHas(Sorted(rules[..n]), rules[n], key);
    }
  }

  lemma {:induction false} CollectedSortsAscending(t: Texts, entries: seq<Entry>, node: string)
    ensures Ascending(Effective(t, entries, node))
  {
    if entries != [] {
      var n := |entries| - 1;
      CollectedSortsAscending(t, entries[..n], node);
      var rules, all := Collected(t, entries[..n], node), Collected(t, entries, node);
      if all != rules {
        var last := all[|rules|];
        assert all[..|all| - 1] == rules;
        SortedHas(rules, last.key);
        InsertedAscending(Sorted(rules), last);
      }
    }
  }

  function Keys(rules: seq<Rule>): seq<Key> {
    seq(|rules|, i requires 0 <= i < |rules| => rules[i].key)
  }

  /** Strictly ascending lists with the same keys are the same list of keys. */
  lemma {:induction false} AscendingIsUnique(a: seq<Rule>, b: seq<Rule>)
    requires Ascending(a) && Ascending(b)
    requires forall k :: Has(a, k) <==> Has(b, k)
    ensures Keys(a) == Keys(b)
  {
    if a == [] {
      assert b != [] ==> Has(b, b[0].key);
    } else {
      SameKeysNonEmpty(a, b);
      var la, lb := a[|a| - 1], b[|b| - 1];
      assert Has(b, la.key) && Has(a, lb.key);
      AscendingInit(a);
      AscendingInit(b);
      var ia, ib := a[..|a| - 1], b[..|b| - 1];
      InitLast(a);
      InitLast(b);
      HasSnoc(ia, la);
      HasSnoc(ib, lb);
      KeyOrder(la.key, lb.key);
      assert la.key == lb.key;
      forall k ensures Has(ia, k) <==> Has(ib, k) {
      }
      AscendingIsUnique(ia, ib);
      assert Keys(a) == Keys(ia) + [la.key] && Keys(b) == Keys(ib) + [lb.key];
    }
  }

  lemma SameKeysNonEmpty(a: seq<Rule>, b: seq<Rule>)
    requires a != [] && forall k :: Has(a, k) <==> Has(b, k)
    ensures b != []
  {
    assert Has(a, a[0].key);
    assert Has(b, a[0].key);
  }

  /** The effective list holds exactly the keys of the active well-formed documents, in order and once each;
      so the order in which they are stored does not show in it. */
  lemma EffectiveExactly(t: Texts, entries: seq<Entry>, node: string)
    ensures Ascending(Effective(t, entries, node))
    ensures forall k :: Has(Effective(t, entries, node), k) <==> Stored(t, entries, node, k)
  {
    CollectedSortsAscending(t, entries, node);
    forall k ensures Has(Effective(t, entries, node), k) <==> Stored(t, entries, node, k) {
      SortedHas(Collected(t, entries, node), k);
      CollectedExactly(t, entries, node, k);
    }
  }

  /** The rule comes from the first active document with its key: that document's id, and enabled. */
  predicate FromFirst(t: Texts, entries: seq<Entry>, node: string, r: Rule) {
    exists i ::
      && 0 <= i < |entries| && Active(entries[i], node) && KeyOf(t, entries[i]) == Some(r.key)
      && r == Rule(entries[i].id, r.key, true)
      && forall j :: 0 <= j < i && Active(entries[j], node) ==> KeyOf(t, entries[j]) != Some(r.key)
  }

  lemma FirstStaysFirst(t: Texts, entries: seq<Entry>, node: string, r: Rule)
    requires entries != [] && FromFirst(t, entries[..|entries| - 1], node, r)
    ensures FromFirst(t, entries, node, r)
  {
    var front := entries[..|entries| - 1];
    var i :| && 0 <= i < |front| && Active(front[i], node) && KeyOf(t, front[i]) == Some(r.key)
             && r == Rule(front[i].id, r.key, true)
             && forall j :: 0 <= j < i && Active(front[j], node) ==> KeyOf(t, front[j]) != Some(r.key);
    assert entries[i] == front[i] && forall j :: 0 <= j < i ==> entries[j] == front[j];
  }

  lemma {:induction false} CollectedFromFirst(t: Texts, entries: seq<Entry>, node: string)
    ensures forall r :: r in Collected(t, entries, node) ==> FromFirst(t, entries, node, r)
  {
    if entries != [] {
      var n := |entries| - 1;
      CollectedFromFirst(t, entries[..n], node);
      forall r | r in Collected(t, entries, node) ensures FromFirst(t, entries, node, r) {
        if r in Collected(t, entries[..n], node) {
          FirstStaysFirst(t, entries, node, r);
        } else {
          CollectedExactly(t, entries[..n], node, r.key);
          assert forall j :: 0 <= j < n ==> entries[..n][j] == entries[j];
        }
      }
    }
  }

  lemma {:induction false} InsertedMembers(rules: seq<Rule>, r: Rule)
    ensures forall x :: x in Inserted(rules, r) <==> x in rules || x == r
  {
    if rules != [] && !KeyBefore(rules[|rules| - 1].key, r.key) {
      InitLast(rules);
      InsertedMembers(rules[..|rules| - 1], r);
    }
  }

  lemma {:induction false} SortedMembers(rules: seq<Rule>)
    ensures forall x :: x in Sorted(rules) <==> x in rules
  {
    if rules != [] {
      InitLast(rules);
      SortedMembers(rules[..|rules| - 1]);
      InsertedMembers(Sorted(rules[..|rules| - 1]), rules[|rules| - 1]);
    }
  }

  /** Of several documents with one key the one stored first gives the rule. */
  lemma EffectiveFromFirst(t: Texts, entries: seq<Entry>, node: string)
    ensures forall r :: r in Effective(t, entries, node) ==> FromFirst(t, entries, node, r)
  {
    CollectedFromFirst(t, entries, node);
    SortedMembers(Collected(t, entries, node));
  }

  lemma StorageOrderIsIrrelevant(t: Texts, a: seq<Entry>, b: seq<Entry>, node: string)
    requires multiset(a) == multiset(b)
    ensures Keys(Effective(t, a, node)) == Keys(Effective(t, b, node))
  {
    EffectiveExactly(t, a, node);
    EffectiveExactly(t, b, node);
    forall k ensures Has(Effective(t, a, node), k) <==> Has(Effective(t, b, node), k) {
      StoredMoves(t, a, b, node, k);
      StoredMoves(t, b, a, node, k);
    }
    AscendingIsUnique(Effective(t, a, node), Effective(t, b, node));
  }

  lemma StoredMoves(t: Texts, a: seq<Entry>, b: seq<Entry>, node: string, key: Key)
    requires multiset(a) == multiset(b)
    ensures Stored(t, a, node, key) ==> Stored(t, b, node, key)
  {
    if i :| 0 <= i < |a| && Active(a[i], node) && KeyOf(t, a[i]) == Some(key) {
      assert a[i] in multiset(b);
      var j :| 0 <= j < |b| && b[j] == a[i];
    }
  }
}
