/** Runs of the control plane: any sequence of handler steps, and what holds of desired releases and
    subscription bindings after every one of them. */
module ReleaseRuns {
  import opened Strings
  import opened JsonValue
  import opened Bundles
  import opened ReleaseProtocol
  import opened DesiredInvariants

  datatype Step =
    | AddVersion(id: string, content: Version)
    | AddSite(site: string)
    | AddNode(node: string, site: string)
    | Touch(site: string, shutdown: bool)
    | AddDraft(id: string, draft: Draft)
    | AddTask(key: string, task: string)
    | MakeRelease(request: Request)
    | Publish(publication: Publication)
    | RollBack(publication: Publication)
    | AskDesired(site: string, node: string, version: int, hash: string)
    | SendAck(ack: Ack, version: int, hash: string)

  function AddBlob(blobs: map<string, string>, hash: string, content: string): map<string, string> {
    if hash in blobs then blobs else blobs[hash := content]
  }

  function Apply(env: Env, s: State, step: Step): State {
    match step
    case AddVersion(id, v) => s.(versions := s.versions[id := v], blobs := AddBlob(s.blobs, v.hash, v.content))
    case AddSite(site) => s.(sites := s.sites[site := Site(0, false)])
    case AddNode(node, site) => s.(nodes := s.nodes[site := Roster(s, site) + [node]])
    case Touch(site, shutdown) =>
      if site in s.sites then s.(sites := s.sites[site := Site(s.sites[site].revision + 1, shutdown)]) else s
    case AddDraft(id, draft) => s.(drafts := s.drafts[id := draft])
    case AddTask(key, task) => s.(tasks := s.tasks[key := task])
    case MakeRelease(q) => CreateRelease(env, s, q).0
    case Publish(p) => PublishSite(env, s, p).0
    case RollBack(p) => Rollback(env, s, p).0
    case AskDesired(site, node, version, hash) => Poll(env, s, site, node, version, hash).0
    case SendAck(ack, version, hash) => Acknowledge(s, ack, version, hash).0
  }

  predicate FreshRelease(s: State, release: string, task: string) {
    && (forall i :: 0 <= i < |s.releases| ==> s.releases[i].id != release && s.releases[i].task != task)
    && (forall i :: 0 <= i < |s.desired| ==> s.desired[i].release != release)
  }

  predicate FreshPublication(s: State, p: Publication) {
    && p.draft !in s.drafts
    && FreshRelease(s, p.release, p.task)
    && (!p.keyed ==> p.key !in s.tasks)
  }

  /** Generated identifiers are new; documents refer to documents that exist. */
  predicate Allowed(s: State, step: Step) {
    match step
    case AddVersion(id, v) => id !in s.versions && v.source != ""
    case AddSite(site) => site !in s.sites
    case AddNode(node, site) => site in s.sites && node !in Roster(s, site)
    case Touch(_, _) => true
    case AddDraft(id, draft) => id !in s.drafts && draft.status == Open
    case AddTask(key, task) => key !in s.tasks && forall i :: 0 <= i < |s.releases| ==> s.releases[i].task != task
    case MakeRelease(q) => FreshRelease(s, q.release, q.task)
    case Publish(p) => FreshPublication(s, p)
    case RollBack(p) => FreshPublication(s, p)
    case AskDesired(_, _, _, _) => true
    case SendAck(_, _, _) => true
  }

  // -------------------------------------------------------------------------- invariant

  predicate BindingFine(s: State, site: string)
    requires site in s.bindings
  {
    var b := s.bindings[site];
    && b.version in s.versions && s.versions[b.version].parseOk
    && b.source == s.versions[b.version].source && b.source != ""
    && (b.previous.Some? ==> b.previous.value in s.versions && b.previous.value != b.version)
  }

  predicate BindingsFine(s: State) {
    && (forall site :: site in s.bindings ==> BindingFine(s, site))
    && (forall id :: id in s.versions ==> s.versions[id].source != "")
  }

  predicate RostersFine(s: State) {
    forall site :: site in s.nodes ==> site in s.sites && Distinct(s.nodes[site])
  }

  predicate Homed(nodes: map<string, seq<string>>, ds: seq<Desired>) {
    forall i :: 0 <= i < |ds| ==> ds[i].site in nodes && ds[i].node in nodes[ds[i].site]
  }

  predicate AllAuthentic(env: Env, ds: seq<Desired>) {
    forall i :: 0 <= i < |ds| ==> Authentic(env.crypto, env.secret, ds[i].stored)
  }

  /** The newest bundle of every node carries the version bound to its site. */
  predicate Agreement(s: State) {
    forall i :: 0 <= i < |s.desired| && Newest(s.desired, i) ==>
        Carries(s.desired[i], SubscriptionFor(s, s.desired[i].site))
  }

  predicate DesiredFine(env: Env, s: State) {
    && Bounded(s.sites, s.desired)
    && Ordered(s.desired)
    && Homed(s.nodes, s.desired)
    && AllAuthentic(env, s.desired)
    && PoliciesFine(env, s.desired, s.bindings)
  }

  predicate Inv(env: Env, s: State) {
    BindingsFine(s) && RostersFine(s) && DesiredFine(env, s) && Agreement(s)
  }

  // ---------------------------------------------------------------- one batch of documents

  predicate Covered(d: Desired, site: string, nodes: seq<string>) {
    d.site == site && d.node in nodes
  }

  /** Agreement everywhere except for the nodes about to receive a new document. */
  predicate AgreementBut(s: State, site: string, nodes: seq<string>) {
    forall i :: 0 <= i < |s.desired| && Newest(s.desired, i) && !Covered(s.desired[i], site, nodes) ==>
      Carries(s.desired[i], SubscriptionFor(s, s.desired[i].site))
  }

  lemma CoveredIsSuperseded(ds: seq<Desired>, batch: seq<Desired>, nodes: seq<string>, site: string, release: string,
                            version: nat, i: nat)
    requires i < |ds| && Covered(ds[i], site, nodes)
    requires Batch(batch, nodes, site, release, version) && |batch| == |nodes|
    ensures !Newest(ds + batch, i)
  {
    var k :| 0 <= k < |nodes| && nodes[k] == ds[i].node;
    assert (ds + batch)[|ds| + k] == batch[k];
    assert Same((ds + batch)[|ds| + k], (ds + batch)[i]);
  }

  lemma NewestBefore(ds: seq<Desired>, batch: seq<Desired>, i: nat)
    requires i < |ds| && Newest(ds + batch, i)
    ensures Newest(ds, i)
  {
    forall j | i < j < |ds| ensures !Same(ds[j], ds[i]) {
      assert (ds + batch)[j] == ds[j];
    }
  }

  lemma BatchRestoresAgreement(env: Env, s: State, batch: seq<Desired>, nodes: seq<string>, site: string,
                               release: string, version: nat)
    requires AgreementBut(s, site, nodes)
    requires Batch(batch, nodes, site, release, version) && |batch| == |nodes|
    requires AllBuilt(env, batch, SubscriptionFor(s, site), site in s.bindings)
    ensures Agreement(s.(desired := s.desired + batch))
  {
    var ds, all := s.desired, s.desired + batch;
    forall i | 0 <= i < |all| && Newest(all, i)
      ensures Carries(all[i], SubscriptionFor(s, all[i].site))
    {
      if i >= |ds| {
        assert all[i] == batch[i - |ds|];
      } else {
        NewestBefore(ds, batch, i);
        if Covered(ds[i], site, nodes) {
          CoveredIsSuperseded(ds, batch, nodes, site, release, version, i);
        }
      }
    }
  }

  lemma BatchKeepsFine(env: Env, s: State, batch: seq<Desired>, nodes: seq<string>, site: string, release: string)
    requires DesiredFine(env, s) && site in s.sites && site in s.nodes
    requires Batch(batch, nodes, site, release, s.sites[site].revision + 1) && Distinct(nodes)
    requires forall i :: 0 <= i < |nodes| ==> nodes[i] in s.nodes[site]
    requires AllBuilt(env, batch, SubscriptionFor(s, site), site in s.bindings)
    ensures DesiredFine(env, s.(sites := s.sites[site := s.sites[site].(revision := s.sites[site].revision + 1)],
                                desired := s.desired + batch))
  {
    BatchKeepsOrder(s.sites, s.desired, batch, nodes, site, release, s.sites[site].revision + 1);
    var all := s.desired + batch;
    forall i | 0 <= i < |all|
      ensures all[i].site in s.nodes && all[i].node in s.nodes[all[i].site]
      ensures Authentic(env.crypto, env.secret, all[i].stored)
      ensures PolicyFine(env, all[i].stored.bundle, all[i].site in s.bindings)
    {
      assert all[i] == if i < |s.desired| then s.desired[i] else batch[i - |s.desired|];
    }
  }

  // ------------------------------------------------------------------ creating a release

  lemma {:induction false} FilterInMembers(xs: seq<string>, keep: seq<string>)
    requires Distinct(xs)
    ensures Distinct(FilterIn(xs, keep))
    ensures forall x :: x in FilterIn(xs, keep) <==> x in xs && x in keep
  {
    if xs != [] {
      FilterInMembers(xs[1..], keep);
      assert xs == [xs[0]] + xs[1..];
      assert xs[0] !in xs[1..];
      var rest := FilterIn(xs[1..], keep);
      if xs[0] in keep {
        forall i, j | 0 <= i < j < |[xs[0]] + rest|
          ensures ([xs[0]] + rest)[i] != ([xs[0]] + rest)[j]
        {
          assert ([xs[0]] + rest)[j] == rest[j - 1];
        }
      }
    }
  }

  lemma {:induction false} FilterInAll(xs: seq<string>, keep: seq<string>)
    requires forall x :: x in xs ==> x in keep
    ensures FilterIn(xs, keep) == xs
  {
    if xs != [] {
      FilterInAll(xs[1..], keep);
      assert xs == [xs[0]] + xs[1..];
    }
  }

  /** Bumping the revision of a site before the documents are built. */
  function Bumped(s: State, site: string): State
    requires site in s.sites
  {
    s.(sites := s.sites[site := s.sites[site].(revision := s.sites[site].revision + 1)])
  }

  lemma InheritsFine(env: Env, s: State, o: Order)
    requires DesiredFine(env, s) && o.site in s.sites && o.previous == Latest(s.desired, o.site, None)
    ensures InheritanceFine(env, Bumped(s, o.site), o)
    ensures SubscriptionFor(Bumped(s, o.site), o.site) == SubscriptionFor(s, o.site)
    ensures BoundVersionUsable(Bumped(s, o.site), o.site) == BoundVersionUsable(s, o.site)
  {
    var i := LatestIndex(s.desired, o.site, None);
    if i >= 0 {
      assert PolicyFine(env, s.desired[i].stored.bundle, s.desired[i].site in s.bindings);
    }
  }

  lemma CreateDesiredIs(env: Env, s: State, nodes: seq<string>, o: Order)
    requires o.site in s.sites && Bounded(s.sites, s.desired)
    requires o.version == s.sites[o.site].revision + 1 && o.previous == Latest(s.desired, o.site, None)
    ensures var inserted := InsertDesired(env, Bumped(s, o.site), o, nodes);
            CreateDesired(env, s, o.site, nodes, o.release, o.ambient, o.selection, o.policy)
            == (Bumped(s, o.site).(desired := s.desired + inserted.0), inserted.1)
  {
    NextVersionIsNew(s, o.site);
  }

  /** All that `create_desired_release` can do: bump the revision, and add a document for every node
      unless the order itself cannot be built. */
  lemma CreateDesiredEffect(env: Env, s: State, site: string, nodes: seq<string>, release: string, ambient: Bundle,
                            selection: Option<Selection>, policy: Option<Json<Key>>) returns (batch: seq<Desired>)
    requires WellBehaved(env) && DesiredFine(env, s) && site in s.sites && BoundVersionUsable(s, site) && nodes != []
    ensures var (s', e) := CreateDesired(env, s, site, nodes, release, ambient, selection, policy);
            && s' == Bumped(s, site).(desired := s.desired + batch)
            && (if e.Some? then batch == [] else |batch| == |nodes|)
    ensures Batch(batch, nodes, site, release, s.sites[site].revision + 1)
    ensures AllBuilt(env, batch, SubscriptionFor(s, site), site in s.bindings)
  {
    var o := Order(site, release, s.sites[site].revision + 1, ambient, selection, policy,
      Latest(s.desired, site, None));
    CreateDesiredIs(env, s, nodes, o);
    InheritsFine(env, s, o);
    InsertAllOrNone(env, Bumped(s, site), o, nodes);
    batch := InsertDesired(env, Bumped(s, site), o, nodes).0;
  }

  /** The nodes a request selects once its checks have passed. */
  function Selected(s: State, q: Request): seq<string>
    requires q.draft in s.drafts
  {
    FilterIn(Roster(s, s.drafts[q.draft].site), SelectedIds(s, s.drafts[q.draft], q.nodes))
  }

  /** A release request either changes nothing, or only bumps a revision and fails, or inserts one
      document per selected node and commits. */
  lemma CreateReleaseEffect(env: Env, s: State, q: Request) returns (batch: seq<Desired>)
    requires WellBehaved(env) && BindingsFine(s) && RostersFine(s) && DesiredFine(env, s)
    ensures var (s', r) := CreateRelease(env, s, q);
            if ExistingRelease(s, q.key) >= 0 || CheckRequest(s, q).Some? then s' == s && batch == []
            else
              var site, nodes := s.drafts[q.draft].site, Selected(s, q);
              && Batch(batch, nodes, site, q.release, s.sites[site].revision + 1)
              && AllBuilt(env, batch, SubscriptionFor(s, site), site in s.bindings)
              && if r.Err? then s' == Bumped(s, site) && batch == []
                 else |batch| == |nodes| && s' == Commit(Bumped(s, site).(desired := s.desired + batch), q, nodes)
  {
    batch := [];
    if ExistingRelease(s, q.key) < 0 && CheckRequest(s, q).None? {
      var d := s.drafts[q.draft];
      assert BoundVersionUsable(s, d.site);
      batch := CreateDesiredEffect(env, s, d.site, Selected(s, q), q.release, q.ambient, d.selection, d.policy);
      assert s.desired + [] == s.desired;
    }
  }

  /** What no release request touches, and the documents that were there before it. */
  predicate RequestLeaves(s: State, s': State) {
    && s'.versions == s.versions && s'.nodes == s.nodes && s'.bindings == s.bindings
    && s'.blobs == s.blobs && s'.acks == s.acks
    && |s.desired| <= |s'.desired| && s'.desired[..|s.desired|] == s.desired
  }

  lemma CreateDesiredLeaves(env: Env, s: State, site: string, nodes: seq<string>, release: string, ambient: Bundle,
                            selection: Option<Selection>, policy: Option<Json<Key>>)
    requires site in s.sites
    ensures var s' := CreateDesired(env, s, site, nodes, release, ambient, selection, policy).0;
            && RequestLeaves(s, s')
            && s'.releases == s.releases && s'.drafts == s.drafts && s'.tasks == s.tasks
  {
  }

  lemma CreateReleaseLeaves(env: Env, s: State, q: Request)
    ensures RequestLeaves(s, CreateRelease(env, s, q).0)
  {
    if ExistingRelease(s, q.key) < 0 && CheckRequest(s, q).None? {
      var d := s.drafts[q.draft];
      CreateDesiredLeaves(env, s, d.site, Selected(s, q), q.release, q.ambient, d.selection, d.policy);
    } else {
      assert s.desired[..|s.desired|] == s.desired;
    }
  }

  /** A refused request touches nothing but, possibly, one site revision. */
  predicate OnlyRevisions(s: State, s': State) {
    && s' == s.(sites := s'.sites)
    && forall site :: site in s.sites ==> site in s'.sites && s.sites[site].revision <= s'.sites[site].revision
  }

  lemma RefusedRequest(env: Env, s: State, q: Request)
    requires WellBehaved(env) && BindingsFine(s) && RostersFine(s) && DesiredFine(env, s)
    requires CreateRelease(env, s, q).1.Err?
    ensures OnlyRevisions(s, CreateRelease(env, s, q).0)
  {
    var batch := CreateReleaseEffect(env, s, q);
  }

  lemma GrantedRequest(env: Env, s: State, q: Request) returns (batch: seq<Desired>)
    requires WellBehaved(env) && BindingsFine(s) && RostersFine(s) && DesiredFine(env, s)
    requires CreateRelease(env, s, q).1.Ok? && q.key !in s.tasks
    ensures q.draft in s.drafts && s.drafts[q.draft].site in s.sites && Selected(s, q) != []
    ensures var site, nodes := s.drafts[q.draft].site, Selected(s, q);
            && Batch(batch, nodes, site, q.release, s.sites[site].revision + 1) && |batch| == |nodes|
            && AllBuilt(env, batch, SubscriptionFor(s, site), site in s.bindings)
            && CreateRelease(env, s, q).0 == Commit(Bumped(s, site).(desired := s.desired + batch), q, nodes)
  {
    batch := CreateReleaseEffect(env, s, q);
  }

  /** Steps that leave versions, rosters, bindings and documents alone and lower no revision. */
  lemma Frame(env: Env, s: State, s': State)
    requires Inv(env, s)
    requires s'.versions == s.versions && s'.nodes == s.nodes && s'.bindings == s.bindings && s'.desired == s.desired
    requires forall site :: site in s.sites ==> site in s'.sites && s.sites[site].revision <= s'.sites[site].revision
    ensures Inv(env, s')
  {
    forall site | site in s'.bindings
      ensures BindingFine(s', site)
    {
      assert BindingFine(s, site);
    }
    forall site
      ensures SubscriptionFor(s', site) == SubscriptionFor(s, site)
    {
    }
  }

  lemma SelectedIsRostered(s: State, q: Request)
    requires RostersFine(s) && q.draft in s.drafts
    ensures Distinct(Selected(s, q))
    ensures forall i :: 0 <= i < |Selected(s, q)| ==> Selected(s, q)[i] in Roster(s, s.drafts[q.draft].site)
  {
    var roster := Roster(s, s.drafts[q.draft].site);
    assert Distinct(roster);
    FilterInMembers(roster, SelectedIds(s, s.drafts[q.draft], q.nodes));
  }

  lemma AgreementOf(s: State, s': State)
    requires Agreement(s) && s'.versions == s.versions && s'.bindings == s.bindings && s'.desired == s.desired
    ensures Agreement(s')
  {
    forall site
      ensures SubscriptionFor(s', site) == SubscriptionFor(s, site)
    {
    }
  }

  /** Documents for all selected nodes of a release leave the invariant intact, and restore agreement
      where only those nodes were behind. */
  lemma BatchEstablishesInv(env: Env, s: State, q: Request, batch: seq<Desired>)
    requires BindingsFine(s) && RostersFine(s) && DesiredFine(env, s)
    requires q.draft in s.drafts && s.drafts[q.draft].site in s.sites
    requires var site, nodes := s.drafts[q.draft].site, Selected(s, q);
             && nodes != []
             && AgreementBut(s, site, nodes)
             && Batch(batch, nodes, site, q.release, s.sites[site].revision + 1) && |batch| == |nodes|
             && AllBuilt(env, batch, SubscriptionFor(s, site), site in s.bindings)
    ensures var site := s.drafts[q.draft].site;
            Inv(env, Commit(Bumped(s, site).(desired := s.desired + batch), q, Selected(s, q)))
  {
    var site, nodes := s.drafts[q.draft].site, Selected(s, q);
    SelectedIsRostered(s, q);
    assert nodes[0] in Roster(s, site);
    BatchKeepsFine(env, s, batch, nodes, site, q.release);
    BatchRestoresAgreement(env, s, batch, nodes, site, q.release, s.sites[site].revision + 1);
    var middle := Bumped(s, site).(desired := s.desired + batch);
    AgreementOf(s.(desired := s.desired + batch), middle);
    BindingsFrame(s, middle);
    Frame(env, middle, Commit(middle, q, nodes));
  }

  lemma BindingsFrame(s: State, s': State)
    requires BindingsFine(s) && s'.versions == s.versions && s'.bindings == s.bindings
    ensures BindingsFine(s')
  {
    forall site | site in s'.bindings
      ensures BindingFine(s', site)
    {
      assert BindingFine(s, site);
    }
  }

  lemma BumpedKeepsInv(env: Env, s: State, site: string)
    requires Inv(env, s) && site in s.sites
    ensures Inv(env, Bumped(s, site))
  {
    Frame(env, s, Bumped(s, site));
  }

  lemma ReleaseKeepsInv(env: Env, s: State, q: Request)
    requires WellBehaved(env) && Inv(env, s)
    ensures Inv(env, CreateRelease(env, s, q).0)
  {
    var batch := CreateReleaseEffect(env, s, q);
    if ExistingRelease(s, q.key) < 0 && CheckRequest(s, q).None? {
      if CreateRelease(env, s, q).1.Err? {
        BumpedKeepsInv(env, s, s.drafts[q.draft].site);
      } else {
        BatchEstablishesInv(env, s, q, batch);
      }
    }
  }

  // -------------------------------------------------------------- publishing and rollback

  lemma ReboundIs(s: State, p: Publication)
    requires BindingsFine(s) && p.version in s.versions && s.versions[p.version].parseOk
    ensures var bound := Rebound(s, p);
            && p.site in bound.bindings && BindingFine(bound, p.site)
            && bound == s.(bindings := s.bindings[p.site := bound.bindings[p.site]])
  {
    if p.site in s.bindings {
      assert BindingFine(s, p.site);
      assert s.bindings[p.site := s.bindings[p.site]] == s.bindings;
    }
  }

  lemma OneBindingChanged(s: State, site: string, b: Binding)
    requires BindingsFine(s)
    requires BindingFine(s.(bindings := s.bindings[site := b]), site)
    ensures BindingsFine(s.(bindings := s.bindings[site := b]))
  {
    var s' := s.(bindings := s.bindings[site := b]);
    forall other | other in s'.bindings && other != site
      ensures BindingFine(s', other)
    {
      assert BindingFine(s, other);
    }
  }

  lemma ReboundBindings(s: State, p: Publication)
    requires BindingsFine(s) && p.version in s.versions && s.versions[p.version].parseOk
    ensures BindingsFine(Rebound(s, p))
    ensures s.bindings.Keys <= Rebound(s, p).bindings.Keys
  {
    ReboundIs(s, p);
    OneBindingChanged(s, p.site, Rebound(s, p).bindings[p.site]);
  }

  lemma ReboundElsewhere(s: State, p: Publication, site: string)
    requires p.version in s.versions && site != p.site
    ensures SubscriptionFor(Rebound(s, p), site) == SubscriptionFor(s, site)
  {
  }

  lemma MoreBindings(env: Env, ds: seq<Desired>, few: map<string, Binding>, many: map<string, Binding>)
    requires PoliciesFine(env, ds, few) && few.Keys <= many.Keys
    ensures PoliciesFine(env, ds, many)
  {
    forall i | 0 <= i < |ds|
      ensures PolicyFine(env, ds[i].stored.bundle, ds[i].site in many)
    {
      assert PolicyFine(env, ds[i].stored.bundle, ds[i].site in few);
      assert ds[i].site in few.Keys ==> ds[i].site in many.Keys;
    }
  }

  lemma FineWithMoreBindings(env: Env, s: State, s': State)
    requires DesiredFine(env, s) && s'.sites == s.sites && s'.nodes == s.nodes && s'.desired == s.desired
    requires s.bindings.Keys <= s'.bindings.Keys
    ensures DesiredFine(env, s')
  {
    MoreBindings(env, s.desired, s.bindings, s'.bindings);
  }

  lemma ReboundAgreement(s: State, p: Publication)
    requires Agreement(s) && Homed(s.nodes, s.desired) && p.version in s.versions
    ensures AgreementBut(Rebound(s, p), p.site, Roster(s, p.site))
  {
    var bound := Rebound(s, p);
    forall i | 0 <= i < |s.desired| && Newest(s.desired, i) && !Covered(s.desired[i], p.site, Roster(s, p.site))
      ensures Carries(s.desired[i], SubscriptionFor(bound, s.desired[i].site))
    {
      ReboundElsewhere(s, p, s.desired[i].site);
    }
  }

  /** Moving a binding can only leave nodes of that one site behind. */
  lemma ReboundFine(env: Env, s: State, p: Publication)
    requires Inv(env, s) && p.version in s.versions && s.versions[p.version].parseOk
    ensures var bound := Rebound(s, p);
            && BindingsFine(bound) && RostersFine(bound) && DesiredFine(env, bound)
            && AgreementBut(bound, p.site, Roster(s, p.site))
  {
    var bound := Rebound(s, p);
    ReboundBindings(s, p);
    assert bound == s.(bindings := bound.bindings);
    FineWithMoreBindings(env, s, bound);
    ReboundAgreement(s, p);
  }

  lemma UpdateBack<K, V>(m: map<K, V>, k: K, v: V)
    ensures if k in m then m[k := v][k := m[k]] == m else m[k := v] - {k} == m
  {
  }

  /** A refused publication leaves every binding exactly as it was. */
  lemma CompensationRestores(s: State, p: Publication, s': State)
    requires BindingsFine(s) && p.version in s.versions && s'.bindings == Rebound(s, p).bindings
    ensures Compensated(s, s', p.site) == s'.(bindings := s.bindings)
  {
    if p.site in s.bindings {
      assert BindingFine(s, p.site);
      UpdateBack(s.bindings, p.site, s'.bindings[p.site]);
    } else {
      UpdateBack(s.bindings, p.site, Binding(p.version, None, s.versions[p.version].source));
    }
  }

  /** The state in which a publication asks for its release. */
  function Drafted(s: State, p: Publication): State
    requires p.version in s.versions
  {
    var bound := Rebound(s, p);
    bound.(drafts := bound.drafts[p.draft :=
      Draft(p.site, Roster(s, p.site), None, None, p.now + DRAFT_LIFETIME, Open)])
  }

  function RequestOf(s: State, p: Publication): Request {
    Request(p.draft, Some(p.site), Roster(s, p.site), None, p.key, p.release, p.task, p.now, p.ambient)
  }

  /** The publication goes past its idempotency look-up and has nodes to release to. */
  predicate Proceeds(s: State, p: Publication) {
    && p.version in s.versions && p.site in s.sites && s.versions[p.version].parseOk
    && !(p.keyed && p.key in s.tasks)
  }

  lemma DraftedFine(env: Env, s: State, p: Publication)
    requires Inv(env, s) && Proceeds(s, p)
    ensures var d := Drafted(s, p);
            && BindingsFine(d) && RostersFine(d) && DesiredFine(env, d)
            && AgreementBut(d, p.site, Roster(s, p.site))
            && Selected(d, RequestOf(s, p)) == Roster(s, p.site)
  {
    var bound, d := Rebound(s, p), Drafted(s, p);
    ReboundFine(env, s, p);
    BindingsFrame(bound, d);
    FilterInAll(Roster(s, p.site), Roster(s, p.site));
    forall site
      ensures SubscriptionFor(d, site) == SubscriptionFor(bound, site)
    {
    }
  }

  /** A publication past its look-ups is a release request in the drafted state, compensated on refusal. */
  lemma PublishIs(env: Env, s: State, p: Publication)
    requires Proceeds(s, p) && Roster(s, p.site) != []
    ensures var (s', r) := CreateRelease(env, Drafted(s, p), RequestOf(s, p));
            PublishSite(env, s, p) == if r.Ok? then (s', Ok(Some(r.value)))
              else (Compensated(s, s', p.site), Err(r.error))
  {
  }

  /** A publication that is refused or answered up front changes nothing; one without nodes only rebinds. */
  lemma PublishOtherwise(env: Env, s: State, p: Publication)
    requires !Proceeds(s, p) || Roster(s, p.site) == []
    ensures PublishSite(env, s, p).0 == if Proceeds(s, p) then Rebound(s, p) else s
  {
  }

  /** The publication a rollback amounts to. */
  function Back(s: State, p: Publication): Publication
    requires p.site in s.bindings && s.bindings[p.site].previous.Some?
  {
    p.(version := s.bindings[p.site].previous.value)
  }

  /** A rollback changes nothing, or publishes the previous version. */
  lemma RollbackIs(env: Env, s: State, p: Publication)
    ensures || Rollback(env, s, p).0 == s
            || (p.site in s.bindings && s.bindings[p.site].previous.Some?
                && Rollback(env, s, p) == PublishSite(env, s, Back(s, p)))
  {
  }

  /** A state with some bindings and drafts replaced, revisions raised and the bindings put back. */
  lemma PutBackKeepsInv(env: Env, s: State, d: State, s': State)
    requires Inv(env, s) && d == s.(bindings := d.bindings, drafts := d.drafts) && OnlyRevisions(d, s')
    ensures Inv(env, s'.(bindings := s.bindings))
    ensures s'.desired == s.desired && s'.versions == s.versions && s'.nodes == s.nodes
  {
    Frame(env, s, s'.(bindings := s.bindings));
  }

  lemma DraftedIs(s: State, p: Publication)
    requires p.version in s.versions
    ensures var d := Drafted(s, p);
            d == s.(bindings := d.bindings, drafts := d.drafts) && d.bindings == Rebound(s, p).bindings
  {
  }

  lemma RefusedPublication(env: Env, s: State, p: Publication)
    requires WellBehaved(env) && Inv(env, s) && Proceeds(s, p) && Roster(s, p.site) != []
    requires CreateRelease(env, Drafted(s, p), RequestOf(s, p)).1.Err?
    ensures var s' := PublishSite(env, s, p).0;
            && s'.bindings == s.bindings && s'.desired == s.desired && s'.versions == s.versions && s'.nodes == s.nodes
            && Inv(env, s')
  {
    var d, q := Drafted(s, p), RequestOf(s, p);
    var s' := CreateRelease(env, d, q).0;
    PublishIs(env, s, p);
    DraftedIs(s, p);
    DraftedFine(env, s, p);
    RefusedRequest(env, d, q);
    CompensationRestores(s, p, s');
    PutBackKeepsInv(env, s, d, s');
  }

  lemma GrantedKeepsInv(env: Env, d: State, q: Request, site: string, nodes: seq<string>) returns (batch: seq<Desired>)
    requires WellBehaved(env) && BindingsFine(d) && RostersFine(d) && DesiredFine(env, d) && q.key !in d.tasks
    requires q.draft in d.drafts && d.drafts[q.draft].site == site && site in d.sites && Selected(d, q) == nodes
    requires AgreementBut(d, site, nodes) && CreateRelease(env, d, q).1.Ok?
    ensures Inv(env, CreateRelease(env, d, q).0)
    ensures Batch(batch, nodes, site, q.release, d.sites[site].revision + 1) && |batch| == |nodes|
    ensures CreateRelease(env, d, q).0 == Commit(Bumped(d, site).(desired := d.desired + batch), q, nodes)
  {
    batch := GrantedRequest(env, d, q);
    BatchEstablishesInv(env, d, q, batch);
  }

  lemma AcceptedPublication(env: Env, s: State, p: Publication) returns (batch: seq<Desired>)
    requires WellBehaved(env) && Inv(env, s) && Proceeds(s, p) && Roster(s, p.site) != [] && p.key !in s.tasks
    requires CreateRelease(env, Drafted(s, p), RequestOf(s, p)).1.Ok?
    ensures Inv(env, PublishSite(env, s, p).0)
    ensures Batch(batch, Roster(s, p.site), p.site, p.release, s.sites[p.site].revision + 1)
            && |batch| == |Roster(s, p.site)|
    ensures PublishSite(env, s, p).0
         == Commit(Bumped(Drafted(s, p), p.site).(desired := s.desired + batch), RequestOf(s, p), Roster(s, p.site))
  {
    DraftedFine(env, s, p);
    PublishIs(env, s, p);
    batch := GrantedKeepsInv(env, Drafted(s, p), RequestOf(s, p), p.site, Roster(s, p.site));
  }

  lemma PublishKeepsInv(env: Env, s: State, p: Publication)
    requires WellBehaved(env) && Inv(env, s) && FreshPublication(s, p)
    ensures Inv(env, PublishSite(env, s, p).0)
  {
    if Proceeds(s, p) {
      if Roster(s, p.site) == [] {
        ReboundFine(env, s, p);
        NoNodesNoGap(env, s, p);
      } else if CreateRelease(env, Drafted(s, p), RequestOf(s, p)).1.Err? {
        RefusedPublication(env, s, p);
      } else {
        var batch := AcceptedPublication(env, s, p);
      }
    }
  }

  lemma NoNodesNoGap(env: Env, s: State, p: Publication)
    requires Inv(env, s) && Proceeds(s, p) && Roster(s, p.site) == [] && AgreementBut(Rebound(s, p), p.site, [])
    ensures Agreement(Rebound(s, p))
  {
  }

  lemma RollbackKeepsInv(env: Env, s: State, p: Publication)
    requires WellBehaved(env) && Inv(env, s) && FreshPublication(s, p)
    ensures Inv(env, Rollback(env, s, p).0)
  {
    if p.site in s.bindings && s.bindings[p.site].previous.Some? {
      PublishKeepsInv(env, s, p.(version := s.bindings[p.site].previous.value));
    }
  }

  // ----------------------------------------------------------------------------- polling

  function Repaired(env: Env, s: State, i: nat): Desired
    requires i < |s.desired|
  {
    var d := s.desired[i];
    d.(stored := Repair(env.crypto, env.secret, env.tags, s.blobs, d.stored))
  }

  lemma SubscriptionIsClean(s: State, site: string)
    ensures Clean(SubscriptionFor(s, site))
  {
  }

  /** Repairing the newest document keeps it authentic, its subscription and its policy. */
  lemma RepairedIsFine(env: Env, s: State, i: nat)
    requires WellBehaved(env) && DesiredFine(env, s) && Agreement(s) && i < |s.desired| && Newest(s.desired, i)
    ensures Built(env, Repaired(env, s, i), SubscriptionFor(s, s.desired[i].site), s.desired[i].site in s.bindings)
  {
    var d := s.desired[i];
    ServedBundleIsSafe(env.crypto, env.secret, env.tags, s.blobs, d.stored);
    SubscriptionIsClean(s, d.site);
    assert PolicyFine(env, d.stored.bundle, d.site in s.bindings);
    RepairKeepsField(env.crypto, env.secret, env.tags, s.blobs, d.stored, Subscription);
    RepairKeepsField(env.crypto, env.secret, env.tags, s.blobs, d.stored, RoutingPolicy);
  }

  predicate SameShape(a: seq<Desired>, b: seq<Desired>) {
    |a| == |b| && forall i :: 0 <= i < |a| ==> b[i] == a[i].(stored := b[i].stored)
  }

  lemma {:induction false} ShapeDecidesLatest(a: seq<Desired>, b: seq<Desired>, site: string, node: Option<string>)
    requires SameShape(a, b)
    ensures LatestIndex(a, site, node) == LatestIndex(b, site, node)
  {
    if a != [] {
      ShapeDecidesLatest(a[..|a| - 1], b[..|b| - 1], site, node);
    }
  }

  lemma ShapeDecidesOrder(sites: map<string, Site>, nodes: map<string, seq<string>>, a: seq<Desired>, b: seq<Desired>)
    requires SameShape(a, b) && Bounded(sites, a) && Ordered(a) && Homed(nodes, a)
    ensures Bounded(sites, b) && Ordered(b) && Homed(nodes, b)
  {
    assert forall i :: 0 <= i < |a| ==>
        b[i].site == a[i].site && b[i].version == a[i].version && b[i].node == a[i].node
        && b[i].release == a[i].release;
  }

  lemma PollKeepsInv(env: Env, s: State, site: string, node: string, version: int, hash: string)
    requires WellBehaved(env) && Inv(env, s)
    ensures Inv(env, Poll(env, s, site, node, version, hash).0)
  {
    var i := LatestIndex(s.desired, site, Some(node));
    if i >= 0 {
      LatestIsNewest(s.desired, site, node);
      RepairedIsFine(env, s, i);
      ReplaceKeepsInv(env, s, i, Repaired(env, s, i));
    }
  }

  lemma ReplaceKeepsFine(env: Env, s: State, i: nat, d: Desired)
    requires DesiredFine(env, s) && i < |s.desired| && d == s.desired[i].(stored := d.stored)
    requires Authentic(env.crypto, env.secret, d.stored) && PolicyFine(env, d.stored.bundle, d.site in s.bindings)
    ensures DesiredFine(env, s.(desired := s.desired[i := d]))
  {
    var a, b := s.desired, s.desired[i := d];
    assert SameShape(a, b);
    ShapeDecidesOrder(s.sites, s.nodes, a, b);
    forall j | 0 <= j < |b|
      ensures Authentic(env.crypto, env.secret, b[j].stored)
              && PolicyFine(env, b[j].stored.bundle, b[j].site in s.bindings)
    {
      assert j != i ==> b[j] == a[j];
    }
  }

  lemma ShapeDecidesNewest(a: seq<Desired>, b: seq<Desired>, j: nat)
    requires SameShape(a, b) && j < |b| && Newest(b, j)
    ensures Newest(a, j)
  {
    forall k | j < k < |a|
      ensures !Same(a[k], a[j])
    {
      assert !Same(b[k], b[j]);
    }
  }

  lemma ReplaceKeepsAgreement(s: State, i: nat, d: Desired)
    requires Agreement(s) && i < |s.desired| && d == s.desired[i].(stored := d.stored)
    requires Carries(d, SubscriptionFor(s, d.site))
    ensures Agreement(s.(desired := s.desired[i := d]))
  {
    var s' := s.(desired := s.desired[i := d]);
    var a, b := s.desired, s'.desired;
    assert SameShape(a, b);
    forall j | 0 <= j < |b| && Newest(b, j)
      ensures Carries(b[j], SubscriptionFor(s', b[j].site))
    {
      assert SubscriptionFor(s', b[j].site) == SubscriptionFor(s, b[j].site);
      ShapeDecidesNewest(a, b, j);
      assert j != i ==> b[j] == a[j];
    }
  }

  lemma ReplaceKeepsInv(env: Env, s: State, i: nat, d: Desired)
    requires Inv(env, s) && i < |s.desired| && d == s.desired[i].(stored := d.stored)
    requires Built(env, d, SubscriptionFor(s, s.desired[i].site), s.desired[i].site in s.bindings)
    ensures Inv(env, s.(desired := s.desired[i := d]))
  {
    ReplaceKeepsFine(env, s, i, d);
    ReplaceKeepsAgreement(s, i, d);
    BindingsFrame(s, s.(desired := s.desired[i := d]));
  }

  // ------------------------------------------------------------------------- other steps

  lemma AddVersionKeepsInv(env: Env, s: State, id: string, v: Version)
    requires Inv(env, s) && id !in s.versions && v.source != ""
    ensures Inv(env, Apply(env, s, AddVersion(id, v)))
  {
    var s' := Apply(env, s, AddVersion(id, v));
    forall site | site in s'.bindings
      ensures BindingFine(s', site) && SubscriptionFor(s', site) == SubscriptionFor(s, site)
    {
      assert BindingFine(s, site);
    }
  }

  lemma AddNodeKeepsInv(env: Env, s: State, node: string, site: string)
    requires Inv(env, s) && site in s.sites && node !in Roster(s, site)
    ensures Inv(env, Apply(env, s, AddNode(node, site)))
  {
    var s' := Apply(env, s, AddNode(node, site));
    var grown := s'.nodes[site];
    assert Distinct(Roster(s, site));
    assert Distinct(grown) by {
      forall i, j | 0 <= i < j < |grown| ensures grown[i] != grown[j] {
        assert grown[i] in Roster(s, site);
      }
    }
    BindingsFrame(s, s');
    AgreementOf(s, s');
  }

  lemma AddSiteKeepsInv(env: Env, s: State, site: string)
    requires Inv(env, s) && site !in s.sites
    ensures Inv(env, Apply(env, s, AddSite(site)))
  {
    Frame(env, s, Apply(env, s, AddSite(site)));
  }

  lemma TouchKeepsInv(env: Env, s: State, site: string, shutdown: bool)
    requires Inv(env, s)
    ensures Inv(env, Apply(env, s, Touch(site, shutdown)))
  {
    if site in s.sites {
      var revised := s.sites[site := Site(s.sites[site].revision + 1, shutdown)];
      forall other | other in s.sites
        ensures other in revised && s.sites[other].revision <= revised[other].revision
      {
      }
      Frame(env, s, s.(sites := revised));
    }
  }

  lemma DraftKeepsInv(env: Env, s: State, id: string, draft: Draft)
    requires Inv(env, s)
    ensures Inv(env, Apply(env, s, AddDraft(id, draft)))
  {
    Frame(env, s, Apply(env, s, AddDraft(id, draft)));
  }

  lemma TaskKeepsInv(env: Env, s: State, key: string, task: string)
    requires Inv(env, s)
    ensures Inv(env, Apply(env, s, AddTask(key, task)))
  {
    Frame(env, s, Apply(env, s, AddTask(key, task)));
  }

  lemma AckKeepsInv(env: Env, s: State, ack: Ack, version: int, hash: string)
    requires Inv(env, s)
    ensures Inv(env, Acknowledge(s, ack, version, hash).0)
  {
    AckTouchesReleasesOnly(s, ack, version, hash);
    Frame(env, s, Acknowledge(s, ack, version, hash).0);
  }

  lemma AckTouchesReleasesOnly(s: State, ack: Ack, version: int, hash: string)
    ensures var s' := Acknowledge(s, ack, version, hash).0;
            s' == s.(acks := s'.acks, releases := s'.releases)
  {
  }

  /** Steps outside the release protocol: sites, rosters, drafts and tasks change, nothing else does. */
  predicate Quiet(step: Step) {
    step.AddSite? || step.AddNode? || step.Touch? || step.AddDraft? || step.AddTask?
  }

  predicate QuietChange(s: State, s': State) {
    && s'.versions == s.versions && s'.bindings == s.bindings && s'.blobs == s.blobs
    && s'.desired == s.desired && s'.releases == s.releases && s'.acks == s.acks
  }

  lemma QuietIs(env: Env, s: State, step: Step)
    requires Quiet(step)
    ensures QuietChange(s, Apply(env, s, step))
  {
  }

  /** Every handler step keeps the invariant. */
  lemma StepKeepsInv(env: Env, s: State, step: Step)
    requires WellBehaved(env) && Inv(env, s) && Allowed(s, step)
    ensures Inv(env, Apply(env, s, step))
  {
    match step
    case AddVersion(id, v) => AddVersionKeepsInv(env, s, id, v);
    case AddSite(site) => AddSiteKeepsInv(env, s, site);
    case AddNode(node, site) => AddNodeKeepsInv(env, s, node, site);
    case Touch(site, shutdown) => TouchKeepsInv(env, s, site, shutdown);
    case AddDraft(id, draft) => DraftKeepsInv(env, s, id, draft);
    case AddTask(key, task) => TaskKeepsInv(env, s, key, task);
    case MakeRelease(q) => ReleaseKeepsInv(env, s, q);
    case Publish(p) => PublishKeepsInv(env, s, p);
    case RollBack(p) => RollbackKeepsInv(env, s, p);
    case AskDesired(site, node, version, hash) => PollKeepsInv(env, s, site, node, version, hash);
    case SendAck(ack, version, hash) => AckKeepsInv(env, s, ack, version, hash);
  }

  ghost predicate AllowedRun(env: Env, s: State, steps: seq<Step>)
    decreases |steps|
  {
    steps == [] || (Allowed(s, steps[0]) && AllowedRun(env, Apply(env, s, steps[0]), steps[1..]))
  }

  function Run(env: Env, s: State, steps: seq<Step>): State
    decreases |steps|
  {
    if steps == [] then s else Run(env, Apply(env, s, steps[0]), steps[1..])
  }

  const EMPTY := State(map[], map[], map[], map[], map[], map[], map[], [], [], [])

  lemma {:induction false} RunKeepsInv(env: Env, s: State, steps: seq<Step>)
    requires WellBehaved(env) && Inv(env, s) && AllowedRun(env, s, steps)
    ensures Inv(env, Run(env, s, steps))
    decreases |steps|
  {
    if steps != [] {
      StepKeepsInv(env, s, steps[0]);
      RunKeepsInv(env, Apply(env, s, steps[0]), steps[1..]);
    }
  }

  // ----------------------------------------------------------------------------- theorems

  /** Binding agreement and version order after any run, including refused and compensated
      publications: the newest desired bundle of every node carries exactly the subscription bound to
      its site, and its version is the highest of its node and at most the site revision. */
  lemma BindingAgreement(env: Env, steps: seq<Step>, site: string, node: string)
    requires WellBehaved(env) && AllowedRun(env, EMPTY, steps)
    ensures var s := Run(env, EMPTY, steps);
            var i := LatestIndex(s.desired, site, Some(node));
            i >= 0 ==>
              && Carries(s.desired[i], SubscriptionFor(s, site))
              && site in s.sites && s.desired[i].version <= s.sites[site].revision
              && Newest(s.desired, i)
  {
    assert Inv(env, EMPTY);
    RunKeepsInv(env, EMPTY, steps);
    var s := Run(env, EMPTY, steps);
    if LatestIndex(s.desired, site, Some(node)) >= 0 {
      LatestIsNewest(s.desired, site, node);
    }
  }

  /** Desired versions of a site strictly increase from release to release in creation order. */
  lemma VersionsIncrease(env: Env, steps: seq<Step>, i: nat, j: nat)
    requires WellBehaved(env) && AllowedRun(env, EMPTY, steps)
    requires var ds := Run(env, EMPTY, steps).desired;
             i < j < |ds| && ds[i].site == ds[j].site && (ds[i].release != ds[j].release || ds[i].node == ds[j].node)
    ensures var ds := Run(env, EMPTY, steps).desired;
            ds[i].version < ds[j].version
  {
    assert Inv(env, EMPTY);
    RunKeepsInv(env, EMPTY, steps);
  }
}
