/** What every step keeps about stored desired releases: version order, authenticity, inherited
    routing policies, and agreement between newest bundle and bound subscription version. */
module DesiredInvariants {
  import opened Strings
  import opened JsonValue
  import opened Bundles
  import opened ReleaseProtocol

  // ---------------------------------------------------------------------- version order

  predicate Bounded(sites: map<string, Site>, ds: seq<Desired>) {
    forall i :: 0 <= i < |ds| ==> ds[i].site in sites && ds[i].version <= sites[ds[i].site].revision
  }

  /** Versions of a site never decrease in creation order; equal versions are different nodes of
      the same release, so the versions of one node strictly increase. */
  predicate Ordered(ds: seq<Desired>) {
    forall i, j :: 0 <= i < j < |ds| && ds[i].site == ds[j].site ==>
      || ds[i].version < ds[j].version
      || (ds[i].version == ds[j].version && ds[i].release == ds[j].release && ds[i].node != ds[j].node)
  }

  predicate Distinct(nodes: seq<string>) {
    forall i, j :: 0 <= i < j < |nodes| ==> nodes[i] != nodes[j]
  }

  /** Documents added by one release: its nodes in order, one version, nothing else of the site. */
  predicate Batch(batch: seq<Desired>, nodes: seq<string>, site: string, release: string, version: nat) {
    && |batch| <= |nodes|
    && forall i :: 0 <= i < |batch| ==>
         batch[i].node == nodes[i] && batch[i].site == site && batch[i].release == release
           && batch[i].version == version
  }

  lemma BatchKeepsOrder(sites: map<string, Site>, ds: seq<Desired>, batch: seq<Desired>, nodes: seq<string>,
                        site: string, release: string, version: nat)
    requires Bounded(sites, ds) && Ordered(ds) && site in sites
    requires Batch(batch, nodes, site, release, version) && Distinct(nodes)
    requires version > sites[site].revision
    ensures Ordered(ds + batch)
    ensures Bounded(sites[site := sites[site].(revision := version)], ds + batch)
  {
    var all := ds + batch;
    forall i, j | 0 <= i < j < |all| && all[i].site == all[j].site
      ensures || all[i].version < all[j].version
              || (all[i].version == all[j].version && all[i].release == all[j].release && all[i].node != all[j].node)
    {
      if i >= |ds| {
        assert all[i] == batch[i - |ds|] && all[j] == batch[j - |ds|];
        assert nodes[i - |ds|] != nodes[j - |ds|];
      } else if j >= |ds| {
        assert all[i] == ds[i] && all[j] == batch[j - |ds|];
      } else {
        assert all[i] == ds[i] && all[j] == ds[j];
      }
    }
    forall i | 0 <= i < |all|
      ensures all[i].site in sites && (all[i].site != site ==> all[i].version <= sites[all[i].site].revision)
              && (all[i].site == site ==> all[i].version <= version)
    {
      assert all[i] == if i < |ds| then ds[i] else batch[i - |ds|];
    }
  }

  lemma NextVersionIsNew(s: State, site: string)
    requires site in s.sites && Bounded(s.sites, s.desired)
    ensures NextVersion(s, site) == s.sites[site].revision + 1
  {
  }

  predicate Same(a: Desired, b: Desired) {
    a.site == b.site && a.node == b.node
  }

  /** No later document for the same node. */
  predicate Newest(ds: seq<Desired>, i: int)
    requires 0 <= i < |ds|
  {
    forall j :: i < j < |ds| ==> !Same(ds[j], ds[i])
  }

  /** The highest version of a node is its most recently created document. */
  lemma LatestIsNewest(ds: seq<Desired>, site: string, node: string)
    requires Ordered(ds) && LatestIndex(ds, site, Some(node)) >= 0
    ensures Newest(ds, LatestIndex(ds, site, Some(node)))
  {
    var i := LatestIndex(ds, site, Some(node));
    forall j | i < j < |ds|
      ensures !Same(ds[j], ds[i])
    {
      if Same(ds[j], ds[i]) {
        assert Matches(ds[j], site, Some(node));
      }
    }
  }

  // ------------------------------------------------------- policies that can be inherited

  /** A stored policy is a validated dump; it uses the proxy only where a subscription is bound. */
  predicate PolicyFine(env: Env, b: Bundle, bound: bool) {
    RoutingPolicy in b ==>
      var p := env.validate(b[RoutingPolicy]);
      p.Some? && b[RoutingPolicy] == env.dump(p.value) && (p.value.usesProxy ==> bound)
  }

  predicate PoliciesFine(env: Env, ds: seq<Desired>, bindings: map<string, Binding>) {
    forall i :: 0 <= i < |ds| ==> PolicyFine(env, ds[i].stored.bundle, ds[i].site in bindings)
  }

  // ------------------------------------------------------------ what one insertion yields

  predicate Carries(d: Desired, subscription: Json<Key>) {
    Subscription in d.stored.bundle && d.stored.bundle[Subscription] == subscription
  }

  /** A freshly built document of the site. */
  predicate Built(env: Env, d: Desired, subscription: Json<Key>, bound: bool) {
    && Authentic(env.crypto, env.secret, d.stored)
    && Carries(d, subscription)
    && PolicyFine(env, d.stored.bundle, bound)
  }

  lemma SignedCarries(env: Env, b: Bundle, subscription: Json<Key>, bound: bool)
    requires Subscription in b && b[Subscription] == subscription && PolicyFine(env, b, bound)
    ensures var signed := Sign(env.crypto, env.secret, b);
            && Verify(env.crypto, env.secret, signed) == Verified
            && Subscription in signed && signed[Subscription] == subscription
            && PolicyFine(env, signed, bound)
  {
    SignedVerifies(env.crypto, env.secret, b);
    SignKeepsFields(env.crypto, env.secret, b);
  }

  lemma SelectedCarries(s: State, site: string, node: string, version: nat, release: string, ambient: Bundle,
                        selection: Option<Selection>, tags: set<string>)
    requires site in s.sites
    ensures var selected := WithSelection(BaseBundle(s, site, node, version, release, ambient), selection, tags);
            && RoutingPolicy !in selected
            && Subscription in selected && selected[Subscription] == SubscriptionFor(s, site)
  {
  }

  lemma BuildIsSound(env: Env, s: State, site: string, node: string, version: nat, release: string,
                     ambient: Bundle, selection: Option<Selection>, policy: Option<Json<Key>>)
    requires WellBehaved(env) && site in s.sites
    ensures var b := BuildBundle(env, s, site, node, version, release, ambient, selection, policy);
            b.Ok? ==>
              && Verify(env.crypto, env.secret, b.value) == Verified
              && Subscription in b.value && b.value[Subscription] == SubscriptionFor(s, site)
              && PolicyFine(env, b.value, site in s.bindings)
  {
    var b := BuildBundle(env, s, site, node, version, release, ambient, selection, policy);
    if b.Ok? {
      var tags := if site in s.bindings
                  then var v := s.versions[s.bindings[site].version]; env.tags.parse(v.content, v.format) else {};
      var selected := WithSelection(BaseBundle(s, site, node, version, release, ambient), selection, tags);
      SelectedCarries(s, site, node, version, release, ambient, selection, tags);
      if policy.None? {
        SignedCarries(env, selected, SubscriptionFor(s, site), site in s.bindings);
      } else {
        var p := env.validate(policy.value).value;
        assert env.validate(env.dump(p)) == Some(p);
        SignedCarries(env, selected[RoutingPolicy := env.dump(p)][MinMonitorVersion := Str("0.8.0")],
                      SubscriptionFor(s, site), site in s.bindings);
      }
    }
  }

  /** The only way a release can fail to build, known before its first node. */
  predicate OrderFails(env: Env, s: State, o: Order) {
    o.policy.Some? &&
    var p := env.validate(o.policy.value);
    p.None? || (p.value.usesProxy && o.site !in s.bindings)
  }

  predicate InheritanceFine(env: Env, s: State, o: Order) {
    && PoliciesFine(env, s.desired, s.bindings)
    && (o.previous.Some? ==> PolicyFine(env, o.previous.value.stored.bundle, o.site in s.bindings))
  }

  /** Nodes fail together: a build fails for a node exactly when it fails for every node. */
  lemma BuildFailsTogether(env: Env, s: State, o: Order, node: string)
    requires WellBehaved(env) && o.site in s.sites && BoundVersionUsable(s, o.site) && InheritanceFine(env, s, o)
    ensures DesiredFor(env, s, o, node).Err? <==> OrderFails(env, s, o)
    ensures var d := DesiredFor(env, s, o, node);
            d.Ok? ==>
              && Built(env, d.value, SubscriptionFor(s, o.site), o.site in s.bindings)
              && d.value.node == node && d.value.site == o.site && d.value.release == o.release
                 && d.value.version == o.version
  {
    var inherited := InheritedPolicy(s.desired, o.site, node, o.previous);
    var policy := if o.policy.Some? then o.policy else inherited;
    BuildIsSound(env, s, o.site, node, o.version, o.release, o.ambient, SelectionFor(o.selection, node), policy);
    if o.policy.None? && inherited.Some? {
      var own := Latest(s.desired, o.site, Some(node));
      var source := if own.Some? then own else o.previous;
      assert PolicyFine(env, source.value.stored.bundle, o.site in s.bindings);
    }
  }

  predicate AllBuilt(env: Env, batch: seq<Desired>, subscription: Json<Key>, bound: bool) {
    forall i :: 0 <= i < |batch| ==> Built(env, batch[i], subscription, bound)
  }

  lemma ConsBatch(env: Env, d: Desired, rest: seq<Desired>, nodes: seq<string>, o: Order, subscription: Json<Key>,
                  bound: bool)
    requires nodes != [] && Batch(rest, nodes[1..], o.site, o.release, o.version)
             && AllBuilt(env, rest, subscription, bound)
    requires d.node == nodes[0] && d.site == o.site && d.release == o.release && d.version == o.version
    requires Built(env, d, subscription, bound)
    ensures Batch([d] + rest, nodes, o.site, o.release, o.version) && AllBuilt(env, [d] + rest, subscription, bound)
  {
    var all := [d] + rest;
    forall i | 0 <= i < |all|
      ensures all[i].node == nodes[i] && all[i].site == o.site && all[i].release == o.release
              && all[i].version == o.version
      ensures Built(env, all[i], subscription, bound)
    {
      if i > 0 {
        assert all[i] == rest[i - 1] && nodes[i] == nodes[1..][i - 1];
      }
    }
  }

  lemma StillFine(env: Env, s: State, o: Order, d: Desired)
    requires InheritanceFine(env, s, o) && d.site == o.site && PolicyFine(env, d.stored.bundle, o.site in s.bindings)
    ensures InheritanceFine(env, s.(desired := s.desired + [d]), o)
  {
  }

  /** No partial releases: the loop over nodes inserts a document for every node or for none. */
  lemma {:induction false} InsertAllOrNone(env: Env, s: State, o: Order, nodes: seq<string>)
    requires WellBehaved(env) && o.site in s.sites && BoundVersionUsable(s, o.site) && InheritanceFine(env, s, o)
    requires nodes != []
    ensures var (batch, e) := InsertDesired(env, s, o, nodes);
            && (e.Some? <==> OrderFails(env, s, o))
            && (if e.Some? then batch == [] else |batch| == |nodes|)
            && Batch(batch, nodes, o.site, o.release, o.version)
            && AllBuilt(env, batch, SubscriptionFor(s, o.site), o.site in s.bindings)
    decreases |nodes|
  {
    BuildFailsTogether(env, s, o, nodes[0]);
    var first := DesiredFor(env, s, o, nodes[0]);
    if first.Ok? {
      var s1 := s.(desired := s.desired + [first.value]);
      if |nodes| > 1 {
        StillFine(env, s, o, first.value);
        InsertAllOrNone(env, s1, o, nodes[1..]);
      }
      var rest := InsertDesired(env, s1, o, nodes[1..]).0;
      ConsBatch(env, first.value, rest, nodes, o, SubscriptionFor(s, o.site), o.site in s.bindings);
    }
  }
}
