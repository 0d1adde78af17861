/** When release and publication requests are granted, why they are refused and what they bind (`main.py`). */
module RequestLaws {
  import opened Strings
  import opened JsonValue
  import opened Bundles
  import opened ReleaseProtocol
  import opened DesiredInvariants
  import opened BundleLaws
  import opened ReleaseRuns

  // -------------------------------------------------------------------- release requests

  /** The node ids a request is about: those it names, else those of the draft, else the whole site. */
  ghost predicate Targets(s: State, q: Request, ids: seq<string>)
    requires q.draft in s.drafts
  {
    var d := s.drafts[q.draft];
    if q.nodes != [] then ids == q.nodes
    else if d.nodes != [] then ids == d.nodes
    else ids == Roster(s, d.site)
  }

  ghost predicate InActiveRelease(s: State, node: string) {
    exists i :: 0 <= i < |s.releases| && Active(s.releases[i].status) && node in s.releases[i].nodes
  }

  /** The version a client must have seen: that of the site's newest document, 0 without any. */
  ghost predicate CurrentVersion(s: State, site: string, version: nat) {
    if exists i :: NewestOfSite(s.desired, site, i) then
      exists i :: NewestOfSite(s.desired, site, i) && version == s.desired[i].version
    else version == 0
  }

  /** Everything that a request needs: an open draft of an existing site, distinct nodes of that site, none of them
      in an active release, and the version the client expects. */
  ghost predicate Grantable(s: State, q: Request) {
    && q.draft in s.drafts
    && var d := s.drafts[q.draft];
    && d.site in s.sites && (q.site.None? || q.site == Some(d.site))
    && d.status == Open && q.now < d.expiresAt
    && (exists ids ::
          && Targets(s, q, ids) && ids != [] && Distinct(ids)
          && (forall id :: id in ids ==> id in Roster(s, d.site) && !InActiveRelease(s, id)))
    && (q.expected.Some? ==> CurrentVersion(s, d.site, q.expected.value))
  }

  /** Each refusal names something that is really wrong. */
  ghost predicate TrueCause(s: State, q: Request, e: Error) {
    match e
    case NotFound => q.draft !in s.drafts
    case SiteMismatch =>
      && q.draft in s.drafts
      && (s.drafts[q.draft].site !in s.sites || (q.site.Some? && q.site.value != s.drafts[q.draft].site))
    case DraftExpiredOrUsed =>
      q.draft in s.drafts && (s.drafts[q.draft].status != Open || s.drafts[q.draft].expiresAt <= q.now)
    case InvalidReleaseNodes =>
      q.draft in s.drafts && exists ids ::
        && Targets(s, q, ids)
        && (ids == [] || !Distinct(ids) || exists id :: id in ids && id !in Roster(s, s.drafts[q.draft].site))
    case ReleaseInProgress =>
      q.draft in s.drafts && exists ids, id :: Targets(s, q, ids) && id in ids && InActiveRelease(s, id)
    case VersionConflict =>
      q.draft in s.drafts && q.expected.Some? && !CurrentVersion(s, s.drafts[q.draft].site, q.expected.value)
    case _ => false
  }

  lemma ElementsGrow(ids: seq<string>, id: string)
    ensures Elements(ids + [id]) == Elements(ids) + {id} && (id in Elements(ids) <==> id in ids)
  {
    assert forall x :: x in ids + [id] <==> x in ids || x == id;
  }

  lemma DistinctGrows(ids: seq<string>, id: string)
    ensures Distinct(ids + [id]) <==> Distinct(ids) && id !in ids
  {
    var all := ids + [id];
    assert all[|ids|] == id && forall i :: 0 <= i < |ids| ==> all[i] == ids[i];
  }

  /** As many elements as entries: exactly when no entry is repeated. */
  lemma {:induction false} DistinctBySize(ids: seq<string>)
    ensures |Elements(ids)| <= |ids| && (|Elements(ids)| == |ids| <==> Distinct(ids))
  {
    if ids != [] {
      var front, id := ids[..|ids| - 1], ids[|ids| - 1];
      assert ids == front + [id];
      DistinctBySize(front);
      ElementsGrow(front, id);
      DistinctGrows(front, id);
      assert Elements(front) + {id} == if id in front then Elements(front) else Elements(front) + {id};
    }
  }

  function Elements(ids: seq<string>): set<string> {
    set id | id in ids
  }

  lemma {:induction false} SubsetSize(a: set<string>, b: set<string>)
    requires a <= b
    ensures |a| <= |b| && (|a| == |b| ==> a == b)
  {
    if x :| x in a {
      SubsetSize(a - {x}, b - {x});
    }
  }

  /** As many nodes found as asked for: exactly when the ids are distinct and all of the site. */
  lemma FoundAll(roster: seq<string>, ids: seq<string>)
    requires Distinct(roster)
    ensures |FilterIn(roster, ids)| == |ids| <==> Distinct(ids) && forall id :: id in ids ==> id in roster
  {
    var found := FilterIn(roster, ids);
    FilterInMembers(roster, ids);
    DistinctBySize(found);
    DistinctBySize(ids);
    assert Elements(found) <= Elements(ids);
    SubsetSize(Elements(found), Elements(ids));
    if |found| == |ids| {
      forall id | id in ids ensures id in roster {
        assert id in Elements(ids);
      }
    }
    if forall id :: id in ids ==> id in roster {
      assert Elements(found) == Elements(ids);
    }
  }

  lemma BusyIs(s: State, nodes: seq<string>)
    ensures Busy(s, nodes) <==> exists id :: id in nodes && InActiveRelease(s, id)
  {
    if id :| id in nodes && InActiveRelease(s, id) {
      var i :| 0 <= i < |s.releases| && Active(s.releases[i].status) && id in s.releases[i].nodes;
      var k :| 0 <= k < |nodes| && nodes[k] == id;
      assert Overlap(s.releases[i], nodes);
    }
    if Busy(s, nodes) {
      var i :| 0 <= i < |s.releases| && Active(s.releases[i].status) && Overlap(s.releases[i], nodes);
      var k :| 0 <= k < |nodes| && nodes[k] in s.releases[i].nodes;
      assert InActiveRelease(s, nodes[k]);
    }
  }

  lemma CurrentIs(s: State, site: string, version: nat)
    ensures var latest := Latest(s.desired, site, None);
            CurrentVersion(s, site, version) <==> version == (if latest.Some? then latest.value.version else 0)
  {
    LatestIsOfSite(s.desired, site);
    var i := LatestIndex(s.desired, site, None);
    if i >= 0 {
      forall j | NewestOfSite(s.desired, site, j) ensures s.desired[j].version == s.desired[i].version {
      }
    }
  }

  lemma NodesAre(s: State, q: Request)
    requires RostersFine(s) && q.draft in s.drafts
    ensures var d := s.drafts[q.draft];
            var ids := SelectedIds(s, d, q.nodes);
            && Targets(s, q, ids) && (forall other :: Targets(s, q, other) ==> other == ids)
            && (|Selected(s, q)| == |ids| <==> Distinct(ids) && forall id :: id in ids ==> id in Roster(s, d.site))
            && (|Selected(s, q)| == |ids| ==>
                  (Busy(s, Selected(s, q)) <==> exists id :: id in ids && InActiveRelease(s, id)))
            && (Busy(s, Selected(s, q)) ==> exists id :: id in ids && InActiveRelease(s, id))
  {
    var d := s.drafts[q.draft];
    var roster, ids := Roster(s, d.site), SelectedIds(s, d, q.nodes);
    assert Distinct(roster);
    FoundAll(roster, ids);
    FilterInMembers(roster, ids);
    BusyIs(s, Selected(s, q));
  }

  /** The checks pass exactly when the request is grantable, and otherwise name a true cause. */
  lemma ChecksExactly(s: State, q: Request)
    requires RostersFine(s)
    ensures CheckRequest(s, q).None? <==> Grantable(s, q)
    ensures CheckRequest(s, q).Some? ==> TrueCause(s, q, CheckRequest(s, q).value)
  {
    if q.draft in s.drafts {
      NodesAre(s, q);
      if q.expected.Some? {
        CurrentIs(s, s.drafts[q.draft].site, q.expected.value);
      }
      var ids := SelectedIds(s, s.drafts[q.draft], q.nodes);
      assert Targets(s, q, ids);
    }
  }

  /** The draft's policy can be delivered: it validates, and uses the proxy only with a subscription bound. */
  ghost predicate Deliverable(env: Env, s: State, q: Request)
    requires q.draft in s.drafts
  {
    var policy := s.drafts[q.draft].policy;
    policy.Some? ==>
      && env.validate(policy.value).Some?
      && (env.validate(policy.value).value.usesProxy ==> s.drafts[q.draft].site in s.bindings)
  }

  /** A new request is granted exactly when it is grantable and its policy can be delivered. */
  lemma GrantedExactly(env: Env, s: State, q: Request)
    requires WellBehaved(env) && Inv(env, s) && ExistingRelease(s, q.key) < 0
    ensures CreateRelease(env, s, q).1.Ok? <==> Grantable(s, q) && Deliverable(env, s, q)
    ensures CreateRelease(env, s, q).1.Ok? ==> CreateRelease(env, s, q).1 == Ok(q.release)
  {
    ChecksExactly(s, q);
    if CheckRequest(s, q).None? {
      DeliverableIs(env, s, q);
    }
  }

  lemma DeliverableIs(env: Env, s: State, q: Request)
    requires WellBehaved(env) && Inv(env, s) && CheckRequest(s, q).None?
    ensures var d := s.drafts[q.draft];
            CreateDesired(env, s, d.site, Selected(s, q), q.release, q.ambient, d.selection, d.policy).1.None?
            <==> Deliverable(env, s, q)
  {
    var d := s.drafts[q.draft];
    var o := Order(d.site, q.release, s.sites[d.site].revision + 1, q.ambient, d.selection, d.policy,
                   Latest(s.desired, d.site, None));
    assert BoundVersionUsable(s, d.site);
    CreateDesiredIs(env, s, Selected(s, q), o);
    InheritsFine(env, s, o);
    InsertAllOrNone(env, Bumped(s, d.site), o, Selected(s, q));
  }

  lemma GrantIsDesired(env: Env, s: State, q: Request)
    requires ExistingRelease(s, q.key) < 0 && CreateRelease(env, s, q).1.Ok?
    ensures q.draft in s.drafts && s.drafts[q.draft].site in s.sites
    ensures var d := s.drafts[q.draft];
            var (s', failure) := CreateDesired(env, s, d.site, Selected(s, q), q.release, q.ambient, d.selection,
                                               d.policy);
            failure.None? && CreateRelease(env, s, q).0.desired == s'.desired
  {
  }

  /** What a granted request adds: for each of its nodes a document that says what draft and request ask. */
  ghost predicate GrantSays(env: Env, s: State, q: Request, ds: seq<Desired>)
    requires q.draft in s.drafts && s.drafts[q.draft].site in s.sites
  {
    var d := s.drafts[q.draft];
    && |ds| == |s.desired| + |Selected(s, q)|
    && AllSay(env, s, d.site, Selected(s, q), s.sites[d.site].revision + 1, q.release, q.ambient, d.selection,
              d.policy, ds[|s.desired|..])
  }

  lemma SaysGranted(env: Env, s: State, q: Request, s': State)
    requires q.draft in s.drafts
    requires var d := s.drafts[q.draft];
             && d.site in s.sites && d.site in s'.sites && s'.sites[d.site].revision == s.sites[d.site].revision + 1
             && ReleaseSays(env, s, s', None, d.site, Selected(s, q), q.release, q.ambient, d.selection, d.policy)
    ensures GrantSays(env, s, q, s'.desired)
  {
  }

  lemma GrantedSays(env: Env, s: State, q: Request)
    requires WellBehaved(env) && Inv(env, s) && ExistingRelease(s, q.key) < 0 && CreateRelease(env, s, q).1.Ok?
    ensures q.draft in s.drafts && s.drafts[q.draft].site in s.sites
    ensures GrantSays(env, s, q, CreateRelease(env, s, q).0.desired)
  {
    GrantIsDesired(env, s, q);
    var d := s.drafts[q.draft];
    SelectedIsRostered(s, q);
    CreateDesiredSays(env, s, d.site, Selected(s, q), q.release, q.ambient, d.selection, d.policy);
    RevisionIsNext(env, s, d.site, Selected(s, q), q.release, q.ambient, d.selection, d.policy);
    SaysGranted(env, s, q, CreateDesired(env, s, d.site, Selected(s, q), q.release, q.ambient, d.selection,
                                         d.policy).0);
  }

  lemma RevisionIsNext(env: Env, s: State, site: string, nodes: seq<string>, release: string, ambient: Bundle,
                       selection: Option<Selection>, policy: Option<Json<Key>>)
    requires site in s.sites && Bounded(s.sites, s.desired)
    ensures CreateDesired(env, s, site, nodes, release, ambient, selection, policy).0.sites[site].revision
            == s.sites[site].revision + 1
  {
    NextVersionIsNew(s, site);
  }

  // ------------------------------------------------------------------------ publications

  /** The first pass refuses a site exactly when a repeated key has no release or, for a new key, a node of the
      site is in an active release. */
  ghost predicate Blocked(s: State, p: Publication, e: Error) {
    if p.keyed && p.key in s.tasks then
      e == IdempotencyIncomplete && forall i :: 0 <= i < |s.releases| ==> s.releases[i].task != s.tasks[p.key]
    else
      e == ReleaseInProgress && exists id :: id in Roster(s, p.site) && InActiveRelease(s, id)
  }

  lemma PrecheckExactly(s: State, p: Publication)
    ensures Precheck(s, p).Some? ==> Blocked(s, p, Precheck(s, p).value)
    ensures Precheck(s, p).None? ==> forall e :: !Blocked(s, p, e)
  {
    BusyIs(s, Roster(s, p.site));
    if p.key in s.tasks {
      var i := ReleaseOfTask(s.releases, s.tasks[p.key]);
    }
  }

  /** All sites pass, or the first that does not is the reason. */
  ghost predicate Prechecked(s: State, ps: seq<Publication>, problem: Option<Error>) {
    if problem.None? then forall i, e :: 0 <= i < |ps| ==> !Blocked(s, ps[i], e)
    else
      exists k :: 0 <= k < |ps| && Blocked(s, ps[k], problem.value)
                  && forall i, e :: 0 <= i < k ==> !Blocked(s, ps[i], e)
  }

  lemma {:induction false} PrecheckAllExactly(s: State, ps: seq<Publication>)
    ensures Prechecked(s, ps, PrecheckAll(s, ps))
  {
    if ps != [] {
      var n := |ps| - 1;
      PrecheckAllExactly(s, ps[..n]);
      PrecheckExactly(s, ps[n]);
      assert forall i :: 0 <= i < n ==> ps[..n][i] == ps[i];
    }
  }

  /** The binding of a published version; the one it replaces becomes the previous one. */
  ghost predicate Binds(s: State, p: Publication, b: Binding)
    requires p.version in s.versions
  {
    && b.version == p.version && b.source == s.versions[p.version].source
    && b.previous == if p.site !in s.bindings then None
                     else if s.bindings[p.site].version == p.version then s.bindings[p.site].previous
                     else Some(s.bindings[p.site].version)
  }

  ghost predicate BindsOnly(s: State, s': State, p: Publication)
    requires p.version in s.versions
  {
    && p.site in s'.bindings && Binds(s, p, s'.bindings[p.site])
    && (forall site :: site != p.site ==> (site in s'.bindings <==> site in s.bindings))
    && (forall site :: site != p.site && site in s.bindings ==> s'.bindings[site] == s.bindings[site])
  }

  lemma ReboundBinds(s: State, p: Publication)
    requires p.version in s.versions
    ensures BindsOnly(s, Rebound(s, p), p)
    ensures Rebound(s, p) == s.(bindings := Rebound(s, p).bindings)
  {
  }

  /** Answers of a publication to one site: what is missing, a repeated key, a site without nodes, or the answer of
      its release request. */
  ghost predicate PublicationAnswers(env: Env, s: State, p: Publication, s': State, r: Result<Option<string>, Error>) {
    if p.version !in s.versions || p.site !in s.sites then s' == s && r == Err(NotFound)
    else if !s.versions[p.version].parseOk then s' == s && r == Err(NotPublishable)
    else if p.keyed && p.key in s.tasks then
      && s' == s
      && if exists i :: 0 <= i < |s.releases| && s.releases[i].task == s.tasks[p.key] then
           exists i :: 0 <= i < |s.releases| && s.releases[i].task == s.tasks[p.key] && r == Ok(Some(s.releases[i].id))
         else r == Err(IdempotencyIncomplete)
    else if Roster(s, p.site) == [] then
      s' == s.(bindings := s'.bindings) && BindsOnly(s, s', p) && r == Ok(None)
    else
      var (granted, answer) := CreateRelease(env, Drafted(s, p), RequestOf(s, p));
      if answer.Err? then r == Err(answer.error) && (BindingsFine(s) ==> s'.bindings == s.bindings)
      else s' == granted && r == Ok(Some(answer.value)) && BindsOnly(s, s', p)
  }

  lemma PublishAnswers(env: Env, s: State, p: Publication)
    ensures PublicationAnswers(env, s, p, PublishSite(env, s, p).0, PublishSite(env, s, p).1)
  {
    if Proceeds(s, p) {
      ReboundBinds(s, p);
      if Roster(s, p.site) == [] {
        PublishOtherwise(env, s, p);
      } else {
        PublishIs(env, s, p);
        CreateReleaseLeaves(env, Drafted(s, p), RequestOf(s, p));
        if BindingsFine(s) {
          CompensationRestores(s, p, CreateRelease(env, Drafted(s, p), RequestOf(s, p)).0);
        }
      }
    }
  }

  /** A rollback is available exactly with a bound site whose previous version exists and parses; it then publishes
      that version, and otherwise changes nothing. */
  lemma RollbackAvailable(env: Env, s: State, p: Publication)
    ensures var available := p.site in s.sites && p.site in s.bindings && s.bindings[p.site].previous.Some?
                             && s.bindings[p.site].previous.value in s.versions
                             && s.versions[s.bindings[p.site].previous.value].parseOk;
            Rollback(env, s, p) ==
              if available then PublishSite(env, s, Back(s, p)) else (s, Err(RollbackNotAvailable))
  {
  }
}
