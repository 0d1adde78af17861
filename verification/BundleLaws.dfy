/** What a release puts into the bundles it builds, field by field (`bundles.py`). */
module BundleLaws {
  import opened Strings
  import opened JsonValue
  import opened Bundles
  import opened ReleaseProtocol
  import opened DesiredInvariants

  // ------------------------------------------------------------------ the newest documents

  /** A document of the node that no other document of the node outranks. */
  ghost predicate NewestOfNode(ds: seq<Desired>, site: string, node: string, i: int) {
    && 0 <= i < |ds| && ds[i].site == site && ds[i].node == node
    && forall j :: 0 <= j < |ds| && ds[j].site == site && ds[j].node == node ==> ds[j].version <= ds[i].version
  }

  ghost predicate NewestOfSite(ds: seq<Desired>, site: string, i: int) {
    && 0 <= i < |ds| && ds[i].site == site
    && forall j :: 0 <= j < |ds| && ds[j].site == site ==> ds[j].version <= ds[i].version
  }

  function PolicyIn(d: Desired): Option<Json<Key>> {
    if RoutingPolicy in d.stored.bundle then Some(d.stored.bundle[RoutingPolicy]) else None
  }

  /** The policy a node inherits: that of its own newest document, else that of the site's newest. */
  ghost predicate Inherits(ds: seq<Desired>, site: string, node: string, policy: Option<Json<Key>>) {
    if exists i :: NewestOfNode(ds, site, node, i) then
      exists i :: NewestOfNode(ds, site, node, i) && policy == PolicyIn(ds[i])
    else if exists i :: NewestOfSite(ds, site, i) then
      exists i :: NewestOfSite(ds, site, i) && policy == PolicyIn(ds[i])
    else policy == None
  }

  // --------------------------------------------------------------------- field by field

  ghost predicate Identifies(b: Bundle, site: string, node: string, version: nat, release: string, shutdown: bool) {
    && SiteId in b && b[SiteId] == Str(site)
    && NodeId in b && b[NodeId] == Str(node)
    && DesiredVersion in b && b[DesiredVersion] == Number(version)
    && ReleaseId in b && b[ReleaseId] == Str(release)
    && Shutdown in b && b[Shutdown] == Bool(shutdown)
  }

  /** A policy is delivered exactly when one is asked for or inherited, as the dump of its validation. */
  ghost predicate DeliversPolicy(env: Env, b: Bundle, policy: Option<Json<Key>>) {
    && (RoutingPolicy in b <==> policy.Some?)
    && (policy.Some? ==>
          env.validate(policy.value).Some? && b[RoutingPolicy] == env.dump(env.validate(policy.value).value))
  }

  /** The tags of the subscription bound to the site. */
  function OfferedTags(env: Env, s: State, site: string): set<string> {
    if site in s.bindings && s.bindings[site].version in s.versions then
      var v := s.versions[s.bindings[site].version]; env.tags.parse(v.content, v.format)
    else {}
  }

  /** The selection is meant for this node. */
  ghost predicate MeantFor(selection: Option<Selection>, node: string) {
    selection.Some? && (selection.value.node == None || selection.value.node == Some(node))
  }

  /** It is delivered exactly on the nodes it is meant for, and then only if its group is another one or its
      outbound is a tag of the subscription or the automatic one. */
  ghost predicate DeliversSelection(b: Bundle, selection: Option<Selection>, node: string, tags: set<string>) {
    var delivered :=
      && MeantFor(selection, node)
      && (Clip(selection.value.group) != "subscription" || Clip(selection.value.outbound) in SelectionTags(tags));
    && (ProxySelection in b <==> delivered)
    && (delivered ==>
          b[ProxySelection] == Object(map[Group := Str(Clip(selection.value.group)),
                                          Outbound := Str(Clip(selection.value.outbound))]))
  }

  /** The oldest monitor that may apply the bundle: 0.8.0 with a policy, 0.7.0 with the automatic outbound. */
  ghost predicate GatesMonitor(b: Bundle, tags: set<string>) {
    && MinMonitorVersion in b
    && b[MinMonitorVersion] ==
         if RoutingPolicy in b then Str("0.8.0")
         else if ProxySelection in b && AsksAutomatic(b[ProxySelection], tags) then Str("0.7.0")
         else Str("0.6.0")
  }

  ghost predicate AsksAutomatic(selection: Json<Key>, tags: set<string>) {
    && selection.Object? && Group in selection.fields && Outbound in selection.fields
    && selection.fields[Group] == Str("subscription")
    && selection.fields[Outbound].Str? && selection.fields[Outbound].text !in tags
  }

  /** The fields the control plane sets itself. */
  ghost predicate Ours(k: Key) {
    || k == SiteId || k == NodeId || k == DesiredVersion || k == ReleaseId || k == Shutdown || k == Subscription
    || k == RoutingPolicy || k == ProxySelection || k == MinMonitorVersion || k == BundleHash || k == Mac
  }

  /** Everything else comes from the services that supply it. */
  ghost predicate CarriesAmbient(b: Bundle, ambient: Bundle) {
    forall k :: !Ours(k) ==> (k in b <==> k in ambient) && (k in b ==> b[k] == ambient[k])
  }

  /** What a release asks of one node, and what its bundle then says. */
  ghost predicate BundleSays(env: Env, s: State, site: string, node: string, version: nat, release: string,
                             ambient: Bundle, selection: Option<Selection>, policy: Option<Json<Key>>, b: Bundle)
    requires site in s.sites
  {
    && Identifies(b, site, node, version, release, s.sites[site].shutdown)
    && Carrying(b, SubscriptionFor(s, site))
    && DeliversPolicy(env, b, policy)
    && DeliversSelection(b, selection, node, OfferedTags(env, s, site))
    && GatesMonitor(b, OfferedTags(env, s, site))
    && CarriesAmbient(b, ambient)
  }

  ghost predicate Carrying(b: Bundle, subscription: Json<Key>) {
    Subscription in b && b[Subscription] == subscription
  }

  // -------------------------------------------------------------------------- the proofs

  /** The same before signing. */
  ghost predicate Prepared(s: State, site: string, node: string, version: nat, release: string, ambient: Bundle,
                     selection: Option<Selection>, tags: set<string>, b: Bundle)
    requires site in s.sites
  {
    && Identifies(b, site, node, version, release, s.sites[site].shutdown)
    && Carrying(b, SubscriptionFor(s, site))
    && DeliversSelection(b, selection, node, tags)
    && CarriesAmbient(b, ambient)
  }

  ghost predicate Own(k: Key) {
    || k == SiteId || k == NodeId || k == DesiredVersion || k == ReleaseId || k == Shutdown || k == Subscription
    || k == MinMonitorVersion
  }

  lemma OwnFieldsAre(s: State, site: string, node: string, version: nat, release: string)
    requires site in s.sites
    ensures var own := OwnFields(s, site, node, version, release);
            && (forall k :: k in own <==> Own(k))
            && Identifies(own, site, node, version, release, s.sites[site].shutdown)
            && Carrying(own, SubscriptionFor(s, site))
            && own[MinMonitorVersion] == Str("0.6.0")
  {
  }

  /** Fields laid over others. */
  lemma Overlaid(ambient: Bundle, own: Bundle)
    ensures var b := ambient - {ProxySelection, RoutingPolicy} + own;
            && (forall k :: k in own ==> k in b && b[k] == own[k])
            && (forall k :: k !in own ==> (k in b <==> k in ambient && k != ProxySelection && k != RoutingPolicy))
            && (forall k :: k !in own && k in b ==> b[k] == ambient[k])
  {
  }

  lemma AmbientOverlaid(ambient: Bundle, own: Bundle)
    requires forall k :: k in own ==> Own(k)
    ensures CarriesAmbient(ambient - {ProxySelection, RoutingPolicy} + own, ambient)
  {
    Overlaid(ambient, own);
  }

  lemma OwnOverlaid(ambient: Bundle, own: Bundle, site: string, node: string, version: nat, release: string,
                    shutdown: bool, subscription: Json<Key>)
    requires Identifies(own, site, node, version, release, shutdown) && Carrying(own, subscription)
    requires MinMonitorVersion in own && own[MinMonitorVersion] == Str("0.6.0")
    requires RoutingPolicy !in own && ProxySelection !in own
    ensures var b := ambient - {ProxySelection, RoutingPolicy} + own;
            && Identifies(b, site, node, version, release, shutdown) && Carrying(b, subscription)
            && RoutingPolicy !in b && ProxySelection !in b
            && MinMonitorVersion in b && b[MinMonitorVersion] == Str("0.6.0")
  {
    Overlaid(ambient, own);
    IdentifiesCarries(own, ambient - {ProxySelection, RoutingPolicy} + own, site, node, version, release, shutdown);
  }

  lemma BaseIs(s: State, site: string, node: string, version: nat, release: string, ambient: Bundle)
    requires site in s.sites
    ensures var b := BaseBundle(s, site, node, version, release, ambient);
            && Identifies(b, site, node, version, release, s.sites[site].shutdown)
            && Carrying(b, SubscriptionFor(s, site))
            && CarriesAmbient(b, ambient)
            && RoutingPolicy !in b && ProxySelection !in b
            && MinMonitorVersion in b && b[MinMonitorVersion] == Str("0.6.0")
  {
    var own := OwnFields(s, site, node, version, release);
    OwnFieldsAre(s, site, node, version, release);
    AmbientOverlaid(ambient, own);
    OwnOverlaid(ambient, own, site, node, version, release, s.sites[site].shutdown, SubscriptionFor(s, site));
  }

  lemma IdentifiesCarries(b: Bundle, c: Bundle, site: string, node: string, version: nat, release: string,
                          shutdown: bool)
    requires Identifies(b, site, node, version, release, shutdown)
    requires forall k :: Own(k) && k in b && k != MinMonitorVersion ==> k in c && c[k] == b[k]
    ensures Identifies(c, site, node, version, release, shutdown)
  {
  }

  /** Adding a selection touches two fields only. */
  lemma SelectionIs(b: Bundle, selection: Option<Selection>, node: string, tags: set<string>)
    requires RoutingPolicy !in b && ProxySelection !in b
    requires MinMonitorVersion in b && b[MinMonitorVersion] == Str("0.6.0")
    ensures var c := WithSelection(b, SelectionFor(selection, node), tags);
            && DeliversSelection(c, selection, node, tags)
            && RoutingPolicy !in c && GatesMonitor(c, tags)
            && (forall k :: k != ProxySelection && k != MinMonitorVersion ==> (k in c <==> k in b))
            && (forall k :: k != ProxySelection && k != MinMonitorVersion && k in b ==> c[k] == b[k])
  {
  }

  lemma SelectedIs(s: State, site: string, node: string, version: nat, release: string, ambient: Bundle,
                   selection: Option<Selection>, tags: set<string>)
    requires site in s.sites
    ensures var b := WithSelection(BaseBundle(s, site, node, version, release, ambient),
                                   SelectionFor(selection, node), tags);
            && Prepared(s, site, node, version, release, ambient, selection, tags, b)
            && RoutingPolicy !in b && GatesMonitor(b, tags)
  {
    BaseIs(s, site, node, version, release, ambient);
    SelectionIs(BaseBundle(s, site, node, version, release, ambient), selection, node, tags);
  }

  /** The fields that routing and signing touch. */
  ghost predicate Late(k: Key) {
    k == RoutingPolicy || k == MinMonitorVersion || k == BundleHash || k == Mac
  }

  ghost predicate SameButLate(b: Bundle, c: Bundle) {
    forall k :: !Late(k) ==> (k in c <==> k in b) && (k in b ==> c[k] == b[k])
  }

  lemma PreparedCarries(s: State, site: string, node: string, version: nat, release: string, ambient: Bundle,
                        selection: Option<Selection>, tags: set<string>, b: Bundle, c: Bundle)
    requires site in s.sites && Prepared(s, site, node, version, release, ambient, selection, tags, b)
    requires SameButLate(b, c)
    ensures Prepared(s, site, node, version, release, ambient, selection, tags, c)
  {
    forall k | Own(k) && k in b && k != MinMonitorVersion ensures k in c && c[k] == b[k] {
      assert !Late(k);
    }
    IdentifiesCarries(b, c, site, node, version, release, s.sites[site].shutdown);
    assert !Late(Subscription);
    SelectionCarries(b, c, selection, node, tags);
    AmbientCarries(b, c, ambient);
  }

  lemma SelectionCarries(b: Bundle, c: Bundle, selection: Option<Selection>, node: string, tags: set<string>)
    requires DeliversSelection(b, selection, node, tags) && SameButLate(b, c)
    ensures DeliversSelection(c, selection, node, tags)
  {
    assert !Late(ProxySelection);
  }

  lemma AmbientCarries(b: Bundle, c: Bundle, ambient: Bundle)
    requires CarriesAmbient(b, ambient) && SameButLate(b, c)
    ensures CarriesAmbient(c, ambient)
  {
    forall k | !Ours(k) ensures (k in c <==> k in ambient) && (k in c ==> c[k] == ambient[k]) {
      assert !Late(k);
    }
  }

  /** A validated policy on top of a prepared bundle. */
  lemma RoutedIs(env: Env, s: State, site: string, node: string, version: nat, release: string, ambient: Bundle,
                 selection: Option<Selection>, policy: Json<Key>, tags: set<string>, b: Bundle)
    requires site in s.sites && env.validate(policy).Some? && tags == OfferedTags(env, s, site)
    requires Prepared(s, site, node, version, release, ambient, selection, tags, b)
    ensures var p := env.validate(policy).value;
            BundleSays(env, s, site, node, version, release, ambient, selection, Some(policy),
                       b[RoutingPolicy := env.dump(p)][MinMonitorVersion := Str("0.8.0")])
  {
    var c := b[RoutingPolicy := env.dump(env.validate(policy).value)][MinMonitorVersion := Str("0.8.0")];
    PreparedCarries(s, site, node, version, release, ambient, selection, tags, b, c);
  }

  lemma SignedSays(env: Env, s: State, site: string, node: string, version: nat, release: string, ambient: Bundle,
                   selection: Option<Selection>, policy: Option<Json<Key>>, b: Bundle)
    requires site in s.sites
    requires BundleSays(env, s, site, node, version, release, ambient, selection, policy, b)
    ensures BundleSays(env, s, site, node, version, release, ambient, selection, policy,
                       Sign(env.crypto, env.secret, b))
  {
    SignKeepsFields(env.crypto, env.secret, b);
    PreparedCarries(s, site, node, version, release, ambient, selection, OfferedTags(env, s, site), b,
                    Sign(env.crypto, env.secret, b));
  }

  /** A bundle that is built says what it should. */
  lemma BuiltSays(env: Env, s: State, site: string, node: string, version: nat, release: string, ambient: Bundle,
                  selection: Option<Selection>, policy: Option<Json<Key>>)
    requires site in s.sites
    ensures var b := BuildBundle(env, s, site, node, version, release, ambient, SelectionFor(selection, node), policy);
            b.Ok? ==> BundleSays(env, s, site, node, version, release, ambient, selection, policy, b.value)
  {
    var b := BuildBundle(env, s, site, node, version, release, ambient, SelectionFor(selection, node), policy);
    if b.Ok? {
      var tags := OfferedTags(env, s, site);
      var selected := WithSelection(BaseBundle(s, site, node, version, release, ambient),
                                    SelectionFor(selection, node), tags);
      SelectedIs(s, site, node, version, release, ambient, selection, tags);
      if policy.None? {
        SignedSays(env, s, site, node, version, release, ambient, selection, policy, selected);
      } else {
        RoutedIs(env, s, site, node, version, release, ambient, selection, policy.value, tags, selected);
        SignedSays(env, s, site, node, version, release, ambient, selection, policy,
                   selected[RoutingPolicy := env.dump(env.validate(policy.value).value)][
                     MinMonitorVersion := Str("0.8.0")]);
      }
    }
  }

  // ------------------------------------------------------------- the documents of a release

  /** A document of the release for one node. */
  ghost predicate DocumentSays(env: Env, s: State, site: string, node: string, version: nat, release: string,
                               ambient: Bundle, selection: Option<Selection>, policy: Option<Json<Key>>, d: Desired)
    requires site in s.sites
  {
    && d.node == node && d.site == site && d.release == release && d.version == version
    && Authentic(env.crypto, env.secret, d.stored)
    && exists inherited ::
         && Inherits(s.desired, site, node, inherited)
         && BundleSays(env, s, site, node, version, release, ambient, selection,
                       if policy.Some? then policy else inherited, d.stored.bundle)
  }

  lemma LatestIsOfNode(ds: seq<Desired>, site: string, node: string)
    ensures var i := LatestIndex(ds, site, Some(node));
            if i >= 0 then NewestOfNode(ds, site, node, i) else forall j :: !NewestOfNode(ds, site, node, j)
  {
    var i := LatestIndex(ds, site, Some(node));
    forall j | 0 <= j < |ds| && ds[j].site == site && ds[j].node == node
      ensures i >= 0 && ds[j].version <= ds[i].version
    {
      assert Matches(ds[j], site, Some(node));
    }
  }

  lemma LatestIsOfSite(ds: seq<Desired>, site: string)
    ensures var i := LatestIndex(ds, site, None);
            if i >= 0 then NewestOfSite(ds, site, i) else forall j :: !NewestOfSite(ds, site, j)
  {
    var i := LatestIndex(ds, site, None);
    forall j | 0 <= j < |ds| && ds[j].site == site ensures i >= 0 && ds[j].version <= ds[i].version {
      assert Matches(ds[j], site, None);
    }
  }

  lemma InheritedIs(ds: seq<Desired>, site: string, node: string)
    ensures Inherits(ds, site, node, InheritedPolicy(ds, site, node, Latest(ds, site, None)))
  {
    LatestIsOfNode(ds, site, node);
    LatestIsOfSite(ds, site);
  }

  /** Documents of other nodes do not change which document of a node is its newest. */
  lemma {:induction false} OthersDoNotMatter(ds: seq<Desired>, more: seq<Desired>, site: string, node: string)
    requires forall i :: 0 <= i < |more| ==> more[i].node != node
    ensures LatestIndex(ds + more, site, Some(node)) == LatestIndex(ds, site, Some(node))
  {
    if more == [] {
      assert ds + more == ds;
    } else {
      var n := |more| - 1;
      OthersDoNotMatter(ds, more[..n], site, node);
      assert (ds + more)[..|ds| + n] == ds + more[..n];
      assert (ds + more)[|ds| + n] == more[n];
    }
  }

  lemma SaysAlike(env: Env, s: State, t: State, site: string, node: string, version: nat, release: string,
                  ambient: Bundle, selection: Option<Selection>, policy: Option<Json<Key>>, b: Bundle)
    requires site in s.sites && site in t.sites && s.sites[site].shutdown == t.sites[site].shutdown
    requires s.bindings == t.bindings && s.versions == t.versions
    requires BundleSays(env, s, site, node, version, release, ambient, selection, policy, b)
    ensures BundleSays(env, t, site, node, version, release, ambient, selection, policy, b)
  {
  }

  /** Midway through the loop over nodes: what was there, and documents of other nodes. */
  ghost predicate Midway(start: State, s: State, done: seq<Desired>, site: string) {
    && site in start.sites && site in s.sites && s.sites[site].shutdown == start.sites[site].shutdown
    && s.bindings == start.bindings && s.versions == start.versions && s.desired == start.desired + done
  }

  lemma OneSays(env: Env, start: State, s: State, done: seq<Desired>, o: Order, node: string)
    requires Midway(start, s, done, o.site) && o.previous == Latest(start.desired, o.site, None)
    requires forall i :: 0 <= i < |done| ==> done[i].node != node
    ensures var d := DesiredFor(env, s, o, node);
            d.Ok? ==> DocumentSays(env, start, o.site, node, o.version, o.release, o.ambient, o.selection, o.policy,
                                   d.value)
  {
    var d := DesiredFor(env, s, o, node);
    if d.Ok? {
      var inherited := InheritedPolicy(start.desired, o.site, node, o.previous);
      OthersDoNotMatter(start.desired, done, o.site, node);
      SameInherited(start.desired, done, o.site, node, o.previous);
      InheritedIs(start.desired, o.site, node);
      var policy := if o.policy.Some? then o.policy else inherited;
      BuiltSays(env, s, o.site, node, o.version, o.release, o.ambient, o.selection, policy);
      BuiltVerifies(env, s, o.site, node, o.version, o.release, o.ambient, SelectionFor(o.selection, node), policy);
      SaysAlike(env, s, start, o.site, node, o.version, o.release, o.ambient, o.selection, policy,
                d.value.stored.bundle);
    }
  }

  lemma SameInherited(ds: seq<Desired>, done: seq<Desired>, site: string, node: string, previous: Option<Desired>)
    requires LatestIndex(ds + done, site, Some(node)) == LatestIndex(ds, site, Some(node))
    ensures InheritedPolicy(ds + done, site, node, previous) == InheritedPolicy(ds, site, node, previous)
  {
    var i := LatestIndex(ds, site, Some(node));
    assert i >= 0 ==> (ds + done)[i] == ds[i];
  }

  lemma BuiltVerifies(env: Env, s: State, site: string, node: string, version: nat, release: string, ambient: Bundle,
                      selection: Option<Selection>, policy: Option<Json<Key>>)
    requires site in s.sites
    ensures var b := BuildBundle(env, s, site, node, version, release, ambient, selection, policy);
            b.Ok? ==> Verify(env.crypto, env.secret, b.value) == Verified
  {
    var tags := if site in s.bindings && s.bindings[site].version in s.versions
                then var v := s.versions[s.bindings[site].version]; env.tags.parse(v.content, v.format) else {};
    var selected := WithSelection(BaseBundle(s, site, node, version, release, ambient), selection, tags);
    SignedVerifies(env.crypto, env.secret, selected);
    if policy.Some? && env.validate(policy.value).Some? {
      SignedVerifies(env.crypto, env.secret, selected[RoutingPolicy := env.dump(env.validate(policy.value).value)][
        MinMonitorVersion := Str("0.8.0")]);
    }
  }

  /** Every document of a batch says what is asked of its node. */
  ghost predicate AllSay(env: Env, s: State, site: string, nodes: seq<string>, version: nat, release: string,
                         ambient: Bundle, selection: Option<Selection>, policy: Option<Json<Key>>, batch: seq<Desired>)
    requires site in s.sites
  {
    && |batch| <= |nodes|
    && forall k :: 0 <= k < |batch| ==>
         DocumentSays(env, s, site, nodes[k], version, release, ambient, selection, policy, batch[k])
  }

  lemma OneMoreSays(env: Env, s: State, o: Order, nodes: seq<string>, d: Desired, rest: seq<Desired>)
    requires o.site in s.sites && nodes != []
    requires DocumentSays(env, s, o.site, nodes[0], o.version, o.release, o.ambient, o.selection, o.policy, d)
    requires AllSay(env, s, o.site, nodes[1..], o.version, o.release, o.ambient, o.selection, o.policy, rest)
    ensures AllSay(env, s, o.site, nodes, o.version, o.release, o.ambient, o.selection, o.policy, [d] + rest)
  {
    var batch := [d] + rest;
    forall k | 0 <= k < |batch|
      ensures DocumentSays(env, s, o.site, nodes[k], o.version, o.release, o.ambient, o.selection, o.policy, batch[k])
    {
      if k > 0 {
        assert batch[k] == rest[k - 1] && nodes[k] == nodes[1..][k - 1];
      }
    }
  }

  lemma {:induction false} InsertedSay(env: Env, start: State, s: State, done: seq<Desired>, o: Order,
                                       nodes: seq<string>)
    requires Midway(start, s, done, o.site) && o.previous == Latest(start.desired, o.site, None) && Distinct(nodes)
    requires forall i, k :: 0 <= i < |done| && 0 <= k < |nodes| ==> done[i].node != nodes[k]
    ensures var (batch, failure) := InsertDesired(env, s, o, nodes);
            && (failure.None? ==> |batch| == |nodes|)
            && AllSay(env, start, o.site, nodes, o.version, o.release, o.ambient, o.selection, o.policy, batch)
    decreases |nodes|
  {
    if nodes != [] {
      OneSays(env, start, s, done, o, nodes[0]);
      var first := DesiredFor(env, s, o, nodes[0]);
      if first.Ok? {
        var next := s.(desired := s.desired + [first.value]);
        MidwayOn(start, s, done, first.value, o.site);
        NotYet(done, first.value, nodes);
        InsertedSay(env, start, next, done + [first.value], o, nodes[1..]);
        OneMoreSays(env, start, o, nodes, first.value, InsertDesired(env, next, o, nodes[1..]).0);
      }
    }
  }

  lemma MidwayOn(start: State, s: State, done: seq<Desired>, d: Desired, site: string)
    requires Midway(start, s, done, site)
    ensures Midway(start, s.(desired := s.desired + [d]), done + [d], site)
  {
    assert start.desired + (done + [d]) == start.desired + done + [d];
  }

  lemma NotYet(done: seq<Desired>, d: Desired, nodes: seq<string>)
    requires nodes != [] && Distinct(nodes) && d.node == nodes[0]
    requires forall i, k :: 0 <= i < |done| && 0 <= k < |nodes| ==> done[i].node != nodes[k]
    ensures Distinct(nodes[1..])
    ensures forall i, k :: 0 <= i < |done + [d]| && 0 <= k < |nodes[1..]| ==> (done + [d])[i].node != nodes[1..][k]
  {
  }

  /** What `create_desired_release` inserts: the site revision moves past everything it had, and unless the
      build fails there is one document for each node that says what the release asks of it. */
  ghost predicate ReleaseSays(env: Env, s: State, s': State, failure: Option<Error>, site: string, nodes: seq<string>,
                              release: string, ambient: Bundle, selection: Option<Selection>,
                              policy: Option<Json<Key>>)
    requires site in s.sites
  {
    && site in s'.sites
    && s' == s.(sites := s.sites[site := s.sites[site].(revision := s'.sites[site].revision)], desired := s'.desired)
    && VersionFollows(s, site, s'.sites[site].revision)
    && |s.desired| <= |s'.desired| && s'.desired[..|s.desired|] == s.desired
    && (failure.None? ==> |s'.desired| == |s.desired| + |nodes|)
    && AllSay(env, s, site, nodes, s'.sites[site].revision, release, ambient, selection, policy,
              s'.desired[|s.desired|..])
  }

  /** One more than the site revision and every version of the site. */
  ghost predicate VersionFollows(s: State, site: string, version: nat)
    requires site in s.sites
  {
    && version > s.sites[site].revision
    && (forall i :: 0 <= i < |s.desired| && s.desired[i].site == site ==> s.desired[i].version < version)
    && (|| version == s.sites[site].revision + 1
        || exists i :: 0 <= i < |s.desired| && s.desired[i].site == site && version == s.desired[i].version + 1)
  }

  lemma NextFollows(s: State, site: string)
    requires site in s.sites
    ensures VersionFollows(s, site, NextVersion(s, site))
  {
    LatestIsOfSite(s.desired, site);
  }

  lemma CreateDesiredSays(env: Env, s: State, site: string, nodes: seq<string>, release: string, ambient: Bundle,
                          selection: Option<Selection>, policy: Option<Json<Key>>)
    requires site in s.sites && Distinct(nodes)
    ensures var (s', failure) := CreateDesired(env, s, site, nodes, release, ambient, selection, policy);
            ReleaseSays(env, s, s', failure, site, nodes, release, ambient, selection, policy)
  {
    var version := NextVersion(s, site);
    var bumped := s.(sites := s.sites[site := s.sites[site].(revision := version)]);
    var o := Order(site, release, version, ambient, selection, policy, Latest(s.desired, site, None));
    NextFollows(s, site);
    assert s.desired + [] == s.desired;
    InsertedSay(env, s, bumped, [], o, nodes);
    var batch := InsertDesired(env, bumped, o, nodes).0;
    assert (s.desired + batch)[..|s.desired|] == s.desired && (s.desired + batch)[|s.desired|..] == batch;
  }
}
