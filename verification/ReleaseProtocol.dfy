/** The release, acknowledgement and subscription handlers of `main.py` and `bundles.py` as steps
    over the stored documents.  Collections are lists in insertion order or maps with unique keys;
    identifiers, clock readings and policy look-ups are inputs of a step. */
module ReleaseProtocol {
  import opened Strings
  import opened JsonValue
  import opened Bundles

  datatype Error =
    | NotFound | SiteMismatch | DraftExpiredOrUsed | InvalidReleaseNodes | ReleaseInProgress | VersionConflict
    | SelectedVersionInvalid | PolicyInvalid | RoutingProxyUnavailable
    | NotPublishable | IdempotencyIncomplete | RollbackNotAvailable
    | NotAssigned | DesiredNotFound | AckMismatch

  datatype Version = Version(source: string, parseOk: bool, content: string, hash: string, format: string, inline: bool)

  datatype Site = Site(revision: nat, shutdown: bool)

  datatype Binding = Binding(version: string, previous: Option<string>, source: string)

  datatype Selection = Selection(node: Option<string>, group: string, outbound: string)

  datatype DraftStatus = Open | Released | Expired

  datatype Draft = Draft(site: string, nodes: seq<string>, selection: Option<Selection>, policy: Option<Json<Key>>,
                         expiresAt: int, status: DraftStatus)

  datatype Status = Queued | Applying | HealthCheck | RollingBack | Succeeded | Failed

  /** `draft` records provenance for the statements below; the source keeps it in the audit log. */
  datatype Release = Release(id: string, site: string, nodes: seq<string>, task: string, status: Status, draft: string)

  datatype Desired = Desired(release: string, node: string, site: string, version: nat, stored: Stored)

  datatype Ack = Ack(node: string, release: string, ok: bool, healthy: bool, sequence: int, receivedAt: int)

  datatype State = State(
    versions: map<string, Version>,
    blobs: map<string, string>,
    sites: map<string, Site>,
    nodes: map<string, seq<string>>,
    bindings: map<string, Binding>,
    drafts: map<string, Draft>,
    tasks: map<string, string>,
    releases: seq<Release>,
    desired: seq<Desired>,
    acks: seq<Ack>)

  /** A validated routing policy; only its use of the proxy matters to the control plane. */
  datatype Policy = Policy(usesProxy: bool, text: string)

  datatype Env = Env(crypto: Crypto, secret: string, tags: TagSource, validate: Json<Key> -> Option<Policy>,
                     dump: Policy -> Json<Key>)

  /** Dumped policies validate to themselves and hold no retired field. */
  ghost predicate WellBehaved(env: Env) {
    forall p :: env.validate(env.dump(p)) == Some(p) && Clean(env.dump(p))
  }

  predicate Active(s: Status) {
    s == Queued || s == Applying || s == HealthCheck || s == RollingBack
  }

  // --------------------------------------------------------------------------- queries

  predicate Matches(d: Desired, site: string, node: Option<string>) {
    d.site == site && (node.Some? ==> d.node == node.value)
  }

  /** `latest_release`: position of a match with the highest version, or -1. */
  function LatestIndex(ds: seq<Desired>, site: string, node: Option<string>): (i: int)
    ensures -1 <= i < |ds|
    ensures i >= 0 ==> Matches(ds[i], site, node)
    ensures forall j :: 0 <= j < |ds| && Matches(ds[j], site, node) ==> i >= 0 && ds[j].version <= ds[i].version
  {
    if ds == [] then -1
    else
      var n := |ds| - 1;
      var i := LatestIndex(ds[..n], site, node);
      if Matches(ds[n], site, node) && (i < 0 || ds[n].version > ds[i].version) then n else i
  }

  function Latest(ds: seq<Desired>, site: string, node: Option<string>): Option<Desired> {
    var i := LatestIndex(ds, site, node);
    if i < 0 then None else Some(ds[i])
  }

  function Roster(s: State, site: string): seq<string> {
    if site in s.nodes then s.nodes[site] else []
  }

  predicate Overlap(r: Release, nodes: seq<string>) {
    exists i :: 0 <= i < |nodes| && nodes[i] in r.nodes
  }

  /** `_active_config_release_for_nodes`. */
  predicate Busy(s: State, nodes: seq<string>) {
    exists i :: 0 <= i < |s.releases| && Active(s.releases[i].status) && Overlap(s.releases[i], nodes)
  }

  /** The position of the first release that `wanted` accepts, -1 if there is none. */
  function FirstRelease(rs: seq<Release>, wanted: Release -> bool): (i: int)
    ensures -1 <= i < |rs|
    ensures i >= 0 ==> wanted(rs[i])
    ensures i < 0 ==> forall j :: 0 <= j < |rs| ==> !wanted(rs[j])
  {
    if rs == [] then -1
    else
      var n := |rs| - 1;
      var i := FirstRelease(rs[..n], wanted);
      if i >= 0 then i else if wanted(rs[n]) then n else -1
  }

  function ReleaseOfTask(rs: seq<Release>, task: string): (i: int)
    ensures -1 <= i < |rs|
    ensures i >= 0 ==> rs[i].task == task
  {
    FirstRelease(rs, (r: Release) => r.task == task)
  }

  function ReleaseById(rs: seq<Release>, id: string): (i: int)
    ensures -1 <= i < |rs|
    ensures i >= 0 ==> rs[i].id == id
    ensures i < 0 ==> forall j :: 0 <= j < |rs| ==> rs[j].id != id
  {
    FirstRelease(rs, (r: Release) => r.id == id)
  }

  /** The release an idempotency key already produced. */
  function ExistingRelease(s: State, key: string): (i: int)
    ensures -1 <= i < |s.releases|
    ensures i >= 0 ==> key in s.tasks && s.releases[i].task == s.tasks[key]
  {
    if key in s.tasks then ReleaseOfTask(s.releases, s.tasks[key]) else -1
  }

  // ----------------------------------------------------------------- building a bundle

  /** The `subscription` field of a bundle for this version. */
  function SubscriptionJson(id: string, v: Version): Json<Key> {
    var fields := map[VersionId := Str(id), ContentHash := Str(v.hash), Format := Str(v.format)];
    Object(if v.inline then fields[Content := Str(v.content)] else fields)
  }

  /** What every newly built bundle of the site carries as its subscription. */
  function SubscriptionFor(s: State, site: string): Json<Key> {
    if site !in s.bindings then Null
    else
      var id := s.bindings[site].version;
      if id in s.versions then SubscriptionJson(id, s.versions[id]) else Null
  }

  predicate BoundVersionUsable(s: State, site: string) {
    site in s.bindings ==> s.bindings[site].version in s.versions && s.versions[s.bindings[site].version].parseOk
  }

  function Clip(s: string): string {
    if |s| <= 255 then s else s[..255]
  }

  function WithSelection(b: Bundle, selection: Option<Selection>, outboundTags: set<string>): Bundle {
    if selection.None? then b
    else
      var group, outbound := Clip(selection.value.group), Clip(selection.value.outbound);
      if group != "subscription" || outbound in SelectionTags(outboundTags) then
        var chosen := b[ProxySelection := Object(map[Group := Str(group), Outbound := Str(outbound)])];
        if group == "subscription" && outbound !in outboundTags
        then chosen[MinMonitorVersion := Str("0.7.0")] else chosen
      else b
  }

  /** The fields that come from the site and the release. */
  function OwnFields(s: State, site: string, node: string, version: nat, release: string): Bundle
    requires site in s.sites
  {
    map[DesiredVersion := Number(version), ReleaseId := Str(release), MinMonitorVersion := Str("0.6.0"),
        SiteId := Str(site), NodeId := Str(node), Shutdown := Bool(s.sites[site].shutdown),
        Subscription := SubscriptionFor(s, site)]
  }

  /** The fields every bundle starts from. */
  function BaseBundle(s: State, site: string, node: string, version: nat, release: string, ambient: Bundle): Bundle
    requires site in s.sites
  {
    ambient - {ProxySelection, RoutingPolicy} + OwnFields(s, site, node, version, release)
  }

  /** `build_signed_bundle`; `ambient` holds the fields that other services supply. */
  function BuildBundle(env: Env, s: State, site: string, node: string, version: nat, release: string,
                       ambient: Bundle, selection: Option<Selection>, policy: Option<Json<Key>>): Result<Bundle, Error>
    requires site in s.sites
  {
    if !BoundVersionUsable(s, site) then Err(SelectedVersionInvalid)
    else
      var tags := if site in s.bindings
                  then var v := s.versions[s.bindings[site].version]; env.tags.parse(v.content, v.format) else {};
      var selected := WithSelection(BaseBundle(s, site, node, version, release, ambient), selection, tags);
      if policy.None? then Ok(Sign(env.crypto, env.secret, selected))
      else
        var validated := env.validate(policy.value);
        if validated.None? then Err(PolicyInvalid)
        else if site !in s.bindings && validated.value.usesProxy then Err(RoutingProxyUnavailable)
        else Ok(Sign(env.crypto, env.secret,
                     selected[RoutingPolicy := env.dump(validated.value)][MinMonitorVersion := Str("0.8.0")]))
  }

  // ----------------------------------------------------------- creating desired releases

  function NextVersion(s: State, site: string): nat
    requires site in s.sites
  {
    var previous := Latest(s.desired, site, None);
    var floor := if previous.Some? then previous.value.version else 0;
    (if s.sites[site].revision >= floor then s.sites[site].revision else floor) + 1
  }

  function InheritedPolicy(ds: seq<Desired>, site: string, node: string, previous: Option<Desired>): Option<Json<Key>> {
    var own := Latest(ds, site, Some(node));
    var source := if own.Some? then own else previous;
    if source.Some? && RoutingPolicy in source.value.stored.bundle
      then Some(source.value.stored.bundle[RoutingPolicy]) else None
  }

  /** What a release asks of every node it targets. */
  datatype Order = Order(site: string, release: string, version: nat, ambient: Bundle,
                         selection: Option<Selection>, policy: Option<Json<Key>>, previous: Option<Desired>)

  function SelectionFor(selection: Option<Selection>, node: string): Option<Selection> {
    if selection.Some? && (selection.value.node.None? || selection.value.node == Some(node)) then selection else None
  }

  /** One turn of the loop over nodes. */
  function DesiredFor(env: Env, s: State, o: Order, node: string): Result<Desired, Error>
    requires o.site in s.sites
  {
    var policy := if o.policy.Some? then o.policy else InheritedPolicy(s.desired, o.site, node, o.previous);
    var bundle := BuildBundle(env, s, o.site, node, o.version, o.release, o.ambient,
      SelectionFor(o.selection, node), policy);
    match bundle
    case Err(e) => Err(e)
    case Ok(b) => Ok(Desired(o.release, node, o.site, o.version, Stored(b, Text(env.crypto, b, BundleHash))))
  }

  /** The loop: the documents it inserts, and the failure that ended it early, if any.  Documents
      inserted before a failing node stay inserted. */
  function InsertDesired(env: Env, s: State, o: Order, nodes: seq<string>): (seq<Desired>, Option<Error>)
    requires o.site in s.sites
    decreases |nodes|
  {
    if nodes == [] then ([], None)
    else
      match DesiredFor(env, s, o, nodes[0])
      case Err(e) => ([], Some(e))
      case Ok(d) =>
        var (rest, failure) := InsertDesired(env, s.(desired := s.desired + [d]), o, nodes[1..]);
        ([d] + rest, failure)
  }

  /** `create_desired_release`: the site revision moves first, then the loop over the nodes. */
  function CreateDesired(env: Env, s: State, site: string, nodes: seq<string>, release: string, ambient: Bundle,
                         selection: Option<Selection>, policy: Option<Json<Key>>): (State, Option<Error>)
    requires site in s.sites
  {
    var version := NextVersion(s, site);
    var bumped := s.(sites := s.sites[site := s.sites[site].(revision := version)]);
    var order := Order(site, release, version, ambient, selection, policy, Latest(s.desired, site, None));
    var (batch, failure) := InsertDesired(env, bumped, order, nodes);
    (bumped.(desired := s.desired + batch), failure)
  }

  // ---------------------------------------------------------------- creating a release

  function FilterIn(xs: seq<string>, keep: seq<string>): seq<string> {
    if xs == [] then [] else (if xs[0] in keep then [xs[0]] else []) + FilterIn(xs[1..], keep)
  }

  /** Caller-supplied and freshly generated inputs of a release request. */
  datatype Request = Request(draft: string, site: Option<string>, nodes: seq<string>, expected: Option<nat>,
                             key: string, release: string, task: string, now: int, ambient: Bundle)

  function SelectedIds(s: State, d: Draft, requested: seq<string>): seq<string> {
    if requested != [] then requested else if d.nodes != [] then d.nodes else Roster(s, d.site)
  }

  function CheckRequest(s: State, q: Request): Option<Error> {
    if q.draft !in s.drafts then Some(NotFound)
    else
      var d := s.drafts[q.draft];
      var site := if q.site.Some? then q.site.value else d.site;
      if site !in s.sites then Some(SiteMismatch)
      else if d.expiresAt <= q.now || d.status != Open then Some(DraftExpiredOrUsed)
      else if site != d.site then Some(SiteMismatch)
      else
        var ids := SelectedIds(s, d, q.nodes);
        var selected := FilterIn(Roster(s, d.site), ids);
        var latest := Latest(s.desired, d.site, None);
        if |selected| != |ids| || selected == [] then Some(InvalidReleaseNodes)
        else if Busy(s, selected) then Some(ReleaseInProgress)
        else if q.expected.Some? && q.expected.value != (if latest.Some? then latest.value.version else 0)
          then Some(VersionConflict)
        else None
  }

  /** The release and its task, and the draft marked as used. */
  function Commit(s: State, q: Request, nodes: seq<string>): State
    requires q.draft in s.drafts
  {
    var task := if q.key in s.tasks then s.tasks[q.key] else q.task;
    var d := s.drafts[q.draft];
    s.(tasks := s.tasks[q.key := task],
       releases := s.releases + [Release(q.release, d.site, nodes, task, Applying, q.draft)],
       drafts := s.drafts[q.draft := d.(status := Released)])
  }

  /** `_create_release_from_draft` (and its callers' look-ups of draft and site). */
  function CreateRelease(env: Env, s: State, q: Request): (State, Result<string, Error>) {
    var existing := ExistingRelease(s, q.key);
    if existing >= 0 then (s, Ok(s.releases[existing].id))
    else
      var problem := CheckRequest(s, q);
      if problem.Some? then (s, Err(problem.value))
      else
        var d := s.drafts[q.draft];
        var nodes := FilterIn(Roster(s, d.site), SelectedIds(s, d, q.nodes));
        var (s', failure) := CreateDesired(env, s, d.site, nodes, q.release, q.ambient, d.selection, d.policy);
        if failure.Some? then (s', Err(failure.value))
        else (Commit(s', q, nodes), Ok(q.release))
  }

  // ------------------------------------------------------------ publishing subscriptions

  /** Inputs of publishing one version to one site. */
  datatype Publication = Publication(version: string, site: string, key: string, keyed: bool, draft: string,
                                     release: string, task: string, now: int, ambient: Bundle)

  const DRAFT_LIFETIME: int := 86_400

  function Rebound(s: State, p: Publication): State
    requires p.version in s.versions
  {
    var v := s.versions[p.version];
    if p.site !in s.bindings then s.(bindings := s.bindings[p.site := Binding(p.version, None, v.source)])
    else
      var b := s.bindings[p.site];
      if b.version == p.version && b.source == v.source then s
      else
        var previous := if b.version != p.version then Some(b.version) else b.previous;
        s.(bindings := s.bindings[p.site := Binding(p.version, previous, v.source)])
  }

  /** The bindings after a refused release: that of the site is put back. */
  function PutBack(before: map<string, Binding>, after: map<string, Binding>, site: string): map<string, Binding> {
    if site !in before then after - {site}
    else if site !in after || after[site] == before[site] then after
    else
      var was := before[site];
      after[site := Binding(was.version, was.previous, if was.source != "" then was.source else after[site].source)]
  }

  function Compensated(before: State, after: State, site: string): State {
    after.(bindings := PutBack(before.bindings, after.bindings, site))
  }

  /** One site of `_publish_subscription_version`. */
  function PublishSite(env: Env, s: State, p: Publication): (State, Result<Option<string>, Error>) {
    if p.version !in s.versions || p.site !in s.sites then (s, Err(NotFound))
    else if !s.versions[p.version].parseOk then (s, Err(NotPublishable))
    else if p.keyed && p.key in s.tasks then
      var existing := ExistingRelease(s, p.key);
      if existing < 0 then (s, Err(IdempotencyIncomplete)) else (s, Ok(Some(s.releases[existing].id)))
    else
      var bound := Rebound(s, p);
      var nodes := Roster(s, p.site);
      if nodes == [] then (bound, Ok(None))
      else
        var draft := Draft(p.site, nodes, None, None, p.now + DRAFT_LIFETIME, Open);
        var drafted := bound.(drafts := bound.drafts[p.draft := draft]);
        var q := Request(p.draft, Some(p.site), nodes, None, p.key, p.release, p.task, p.now, p.ambient);
        match CreateRelease(env, drafted, q)
        case (s', Ok(id)) => (s', Ok(Some(id)))
        case (s', Err(e)) => (Compensated(s, s', p.site), Err(e))
  }

  /** First pass of `_publish_subscription_version` for one site: refusals that change nothing. */
  function Precheck(s: State, p: Publication): Option<Error> {
    if p.keyed && p.key in s.tasks then
      if ExistingRelease(s, p.key) < 0 then Some(IdempotencyIncomplete) else None
    else if Busy(s, Roster(s, p.site)) then Some(ReleaseInProgress)
    else None
  }

  function PrecheckAll(s: State, ps: seq<Publication>): Option<Error> {
    if ps == [] then None
    else
      var rest := PrecheckAll(s, ps[..|ps| - 1]);
      if rest.Some? then rest else Precheck(s, ps[|ps| - 1])
  }

  /** `rollback_site_subscription`: publish the previous version to the one site. */
  function Rollback(env: Env, s: State, p: Publication): (State, Result<Option<string>, Error>) {
    if p.site !in s.sites || p.site !in s.bindings || s.bindings[p.site].previous.None?
      then (s, Err(RollbackNotAvailable))
    else
      var previous := s.bindings[p.site].previous.value;
      if previous !in s.versions || !s.versions[previous].parseOk then (s, Err(RollbackNotAvailable))
      else PublishSite(env, s, p.(version := previous))
  }

  // -------------------------------------------------------------------- nodes and acks

  datatype Response = Response(stale: bool, release: Option<string>, bundle: Option<Bundle>)

  /** `agent_desired`: repair the newest bundle, then compare with what the node reports. */
  function Poll(env: Env, s: State, site: string, node: string, version: int, hash: string): (State, Response) {
    var i := LatestIndex(s.desired, site, Some(node));
    if i < 0 then (s, Response(false, None, None))
    else
      var d := s.desired[i];
      var stored := Repair(env.crypto, env.secret, env.tags, s.blobs, d.stored);
      var stale := d.version > version || stored.bundleHash != hash;
      (s.(desired := s.desired[i := d.(stored := stored)]),
       Response(stale, Some(d.release), if stale then Some(stored.bundle) else None))
  }

  predicate Newer(a: Ack, b: Ack) {
    a.receivedAt > b.receivedAt || (a.receivedAt == b.receivedAt && a.sequence > b.sequence)
  }

  function AcksOf(acks: seq<Ack>, release: string): seq<Ack> {
    if acks == [] then []
    else AcksOf(acks[..|acks| - 1], release) + (if acks[|acks| - 1].release == release then [acks[|acks| - 1]] else [])
  }

  /** The dictionary that `_latest_ack_per_node` fills. */
  function LatestAcks(items: seq<Ack>): map<string, Ack> {
    if items == [] then map[]
    else
      var n := |items| - 1;
      var latest := LatestAcks(items[..n]);
      if items[n].node !in latest || Newer(items[n], latest[items[n].node])
      then latest[items[n].node := items[n]] else latest
  }

  predicate AllIn(nodes: seq<string>, latest: map<string, Ack>) {
    forall i :: 0 <= i < |nodes| ==> nodes[i] in latest
  }

  predicate AllGood(nodes: seq<string>, latest: map<string, Ack>)
    requires AllIn(nodes, latest)
  {
    forall i :: 0 <= i < |nodes| ==> latest[nodes[i]].ok && latest[nodes[i]].healthy
  }

  /** Status of a release given the acks stored for it. */
  function Judge(r: Release, acks: seq<Ack>): Status {
    var latest := LatestAcks(AcksOf(acks, r.id));
    if !AllIn(r.nodes, latest) then r.status else if AllGood(r.nodes, latest) then Succeeded else Failed
  }

  function HighestSequence(acks: seq<Ack>, node: string): Option<int> {
    if acks == [] then None
    else
      var rest := HighestSequence(acks[..|acks| - 1], node);
      var last := acks[|acks| - 1];
      if last.node == node && (rest.None? || last.sequence > rest.value) then Some(last.sequence) else rest
  }

  function DesiredOf(ds: seq<Desired>, release: string, node: string): (i: int)
    ensures -1 <= i < |ds|
    ensures i >= 0 ==> ds[i].release == release && ds[i].node == node
  {
    if ds == [] then -1
    else
      var n := |ds| - 1;
      var i := DesiredOf(ds[..n], release, node);
      if i >= 0 then i else if ds[n].release == release && ds[n].node == node then n else -1
  }

  datatype AckOutcome = Accepted | Duplicate | Refused(error: Error)

  /** `agent_ack`. */
  function Acknowledge(s: State, ack: Ack, version: int, hash: string): (State, AckOutcome) {
    if HighestSequence(s.acks, ack.node) == Some(ack.sequence) then (s, Duplicate)
    else
      var i := ReleaseById(s.releases, ack.release);
      if i < 0 || ack.node !in s.releases[i].nodes then (s, Refused(NotAssigned))
      else
        var d := DesiredOf(s.desired, ack.release, ack.node);
        if d < 0 then (s, Refused(DesiredNotFound))
        else if version != s.desired[d].version || hash != s.desired[d].stored.bundleHash then (s, Refused(AckMismatch))
        else
          var acks := s.acks + [ack];
          var r := s.releases[i];
          (s.(acks := acks, releases := s.releases[i := r.(status := Judge(r, acks))]), Accepted)
  }
}
