/** Consequences over whole runs: rollback undoes rollback, polling converges, and only safe bundles
    are served. */
module ReleaseTheorems {
  import opened Strings
  import opened JsonValue
  import opened Bundles
  import opened ReleaseProtocol
  import opened DesiredInvariants
  import opened ReleaseRuns

  // --------------------------------------------------------------------------- rollbacks

  /** A successful rollback swaps current and previous version and takes the source of the former. */
  lemma RollbackSwaps(env: Env, s: State, p: Publication)
    requires Inv(env, s) && p.key !in s.tasks && Rollback(env, s, p).1.Ok?
    ensures p.site in s.bindings && s.bindings[p.site].previous.Some?
    ensures var b := s.bindings[p.site];
            var s' := Rollback(env, s, p).0;
            && b.previous.value in s.versions
            && s'.versions == s.versions
            && s'.bindings == s.bindings[p.site :=
                  Binding(b.previous.value, Some(b.version), s.versions[b.previous.value].source)]
  {
    var b := s.bindings[p.site];
    assert BindingFine(s, p.site);
    var back := p.(version := b.previous.value);
    if Roster(s, p.site) != [] {
      PublishIs(env, s, back);
      CreateReleaseLeaves(env, Drafted(s, back), RequestOf(s, back));
    }
  }

  predicate LeavesBinding(step: Step, site: string) {
    (step.Publish? || step.RollBack?) ==> step.publication.site != site
  }

  predicate SameBinding(s: State, s': State, site: string) {
    && (site in s.bindings <==> site in s'.bindings)
    && (site in s.bindings ==> s'.bindings[site] == s.bindings[site])
    && (forall id :: id in s.versions ==> id in s'.versions && s'.versions[id] == s.versions[id])
  }

  lemma PutBackElsewhere(before: map<string, Binding>, after: map<string, Binding>, other: string, site: string)
    requires other != site
    ensures site in PutBack(before, after, other) <==> site in after
    ensures site in after ==> PutBack(before, after, other)[site] == after[site]
  {
  }

  lemma CompensatedElsewhere(s: State, s': State, other: string, site: string)
    requires other != site && SameBinding(s, s', site)
    ensures SameBinding(s, Compensated(s, s', other), site)
  {
    PutBackElsewhere(s.bindings, s'.bindings, other, site);
  }

  lemma ReboundLeavesOthers(s: State, p: Publication, site: string)
    requires p.site != site && p.version in s.versions
    ensures SameBinding(s, Rebound(s, p), site) && SameBinding(s, Drafted(s, p), site)
  {
  }

  lemma PublishLeavesOthers(env: Env, s: State, p: Publication, site: string)
    requires p.site != site
    ensures SameBinding(s, PublishSite(env, s, p).0, site)
  {
    if Proceeds(s, p) {
      ReboundLeavesOthers(s, p, site);
    }
    if Proceeds(s, p) && Roster(s, p.site) != [] {
      PublishIs(env, s, p);
      CreateReleaseLeaves(env, Drafted(s, p), RequestOf(s, p));
      CompensatedElsewhere(s, CreateRelease(env, Drafted(s, p), RequestOf(s, p)).0, p.site, site);
    } else {
      PublishOtherwise(env, s, p);
    }
  }

  lemma RollbackLeavesOthers(env: Env, s: State, p: Publication, site: string)
    requires p.site != site
    ensures SameBinding(s, Rollback(env, s, p).0, site)
  {
    RollbackIs(env, s, p);
    if p.site in s.bindings && s.bindings[p.site].previous.Some? {
      PublishLeavesOthers(env, s, Back(s, p), site);
    }
  }

  lemma AddVersionLeavesBinding(env: Env, s: State, id: string, v: Version, site: string)
    requires id !in s.versions
    ensures SameBinding(s, Apply(env, s, AddVersion(id, v)), site)
  {
  }

  lemma PollLeavesBinding(env: Env, s: State, a: string, node: string, version: int, hash: string, site: string)
    ensures SameBinding(s, Poll(env, s, a, node, version, hash).0, site)
  {
  }

  lemma StepLeavesBinding(env: Env, s: State, step: Step, site: string)
    requires Allowed(s, step) && LeavesBinding(step, site)
    ensures SameBinding(s, Apply(env, s, step), site)
  {
    match step
    case MakeRelease(q) => CreateReleaseLeaves(env, s, q);
    case Publish(p) => PublishLeavesOthers(env, s, p, site);
    case RollBack(p) => RollbackLeavesOthers(env, s, p, site);
    case SendAck(ack, version, hash) => AckTouchesReleasesOnly(s, ack, version, hash);
    case AddVersion(id, v) => AddVersionLeavesBinding(env, s, id, v, site);
    case AskDesired(a, node, version, hash) => PollLeavesBinding(env, s, a, node, version, hash, site);
    case _ => QuietIs(env, s, step);
  }

  lemma {:induction false} RunLeavesBinding(env: Env, s: State, steps: seq<Step>, site: string)
    requires AllowedRun(env, s, steps) && forall i :: 0 <= i < |steps| ==> LeavesBinding(steps[i], site)
    ensures SameBinding(s, Run(env, s, steps), site)
    decreases |steps|
  {
    if steps != [] {
      var s1 := Apply(env, s, steps[0]);
      StepLeavesBinding(env, s, steps[0], site);
      RunLeavesBinding(env, s1, steps[1..], site);
    }
  }

  /** Two successful rollbacks of a site restore its binding exactly, whatever happens in between as
      long as nothing else is published to that site. */
  lemma TwoRollbacksRestore(env: Env, s: State, first: Publication, between: seq<Step>, second: Publication)
    requires WellBehaved(env) && Inv(env, s) && first.site == second.site
    requires FreshPublication(s, first) && first.key !in s.tasks && Rollback(env, s, first).1.Ok?
    requires var s1 := Rollback(env, s, first).0;
             && AllowedRun(env, s1, between)
                && (forall i :: 0 <= i < |between| ==> LeavesBinding(between[i], first.site))
             && var s2 := Run(env, s1, between);
                FreshPublication(s2, second) && second.key !in s2.tasks && Rollback(env, s2, second).1.Ok?
    ensures var s2 := Run(env, Rollback(env, s, first).0, between);
            var s3 := Rollback(env, s2, second).0;
            && first.site in s.bindings && first.site in s3.bindings
            && s3.bindings[first.site] == s.bindings[first.site]
  {
    var s1 := Rollback(env, s, first).0;
    var s2 := Run(env, s1, between);
    RollbackSwaps(env, s, first);
    RollbackKeepsInv(env, s, first);
    RunLeavesBinding(env, s1, between, first.site);
    RunKeepsInv(env, s1, between);
    RollbackSwaps(env, s2, second);
    assert BindingFine(s, first.site);
  }

  // -------------------------------------------------------------------------- convergence

  /** The newest document of the node has this version and hash and no repair is pending. */
  predicate Served(env: Env, s: State, site: string, node: string, i: int, version: int, hash: string) {
    && i == LatestIndex(s.desired, site, Some(node)) && i >= 0
    && s.desired[i].version == version
    && s.desired[i].stored.bundleHash == hash
    && Settled(env.tags, s.blobs, s.desired[i].stored.bundle)
  }

  /** After a poll the node knows the version and hash of a settled document. */
  lemma PollServes(env: Env, s: State, site: string, node: string, version: int, hash: string)
    requires LatestIndex(s.desired, site, Some(node)) >= 0
    ensures var i := LatestIndex(s.desired, site, Some(node));
            var s' := Poll(env, s, site, node, version, hash).0;
            Served(env, s', site, node, i, s'.desired[i].version, s'.desired[i].stored.bundleHash)
  {
    var i := LatestIndex(s.desired, site, Some(node));
    var s' := Poll(env, s, site, node, version, hash).0;
    assert SameShape(s.desired, s'.desired);
    ShapeDecidesLatest(s.desired, s'.desired, site, Some(node));
    RepairSettles(env.crypto, env.secret, env.tags, s.blobs, s.desired[i].stored);
  }

  /** A node that reports what it was served is told it is not stale, and is sent nothing. */
  lemma ServedIsNotStale(env: Env, s: State, site: string, node: string, i: int, version: int, hash: string)
    requires Served(env, s, site, node, i, version, hash)
    ensures Poll(env, s, site, node, version, hash).1 == Response(false, Some(s.desired[i].release), None)
    ensures Poll(env, s, site, node, version, hash).0 == s
  {
    var d := s.desired[i];
    assert Repair(env.crypto, env.secret, env.tags, s.blobs, d.stored) == d.stored;
    assert d.(stored := d.stored) == d;
    assert s.desired[i := d] == s.desired;
  }

  /** Documents a step may leave behind: the old ones, some repaired in place, and new ones after them. */
  predicate Grows(env: Env, s: State, s': State) {
    && |s.desired| <= |s'.desired|
    && (forall i :: 0 <= i < |s.desired| ==>
          || s'.desired[i] == s.desired[i]
          || s'.desired[i] == Repaired(env, s, i))
    && Extends(s.blobs, s'.blobs)
  }

  /** Nothing is repaired and no content stored: the documents are followed by new ones at most. */
  lemma Followed(env: Env, s: State, s': State)
    requires |s.desired| <= |s'.desired| && s'.desired[..|s.desired|] == s.desired && s'.blobs == s.blobs
    ensures Grows(env, s, s')
  {
    forall i | 0 <= i < |s.desired| ensures s'.desired[i] == s.desired[i] {
      assert s'.desired[i] == s'.desired[..|s.desired|][i];
    }
  }

  lemma PublishGrows(env: Env, s: State, p: Publication)
    ensures Grows(env, s, PublishSite(env, s, p).0)
  {
    if Proceeds(s, p) && Roster(s, p.site) != [] {
      PublishIs(env, s, p);
      var s' := CreateRelease(env, Drafted(s, p), RequestOf(s, p)).0;
      CreateReleaseLeaves(env, Drafted(s, p), RequestOf(s, p));
    } else {
      PublishOtherwise(env, s, p);
      assert s.desired[..|s.desired|] == s.desired;
    }
    Followed(env, s, PublishSite(env, s, p).0);
  }

  lemma QuietGrows(env: Env, s: State, s': State)
    requires QuietChange(s, s')
    ensures Grows(env, s, s')
  {
    assert s.desired[..|s.desired|] == s.desired;
    Followed(env, s, s');
  }

  lemma AddVersionGrows(env: Env, s: State, id: string, v: Version)
    ensures Grows(env, s, Apply(env, s, AddVersion(id, v)))
  {
  }

  lemma PollGrows(env: Env, s: State, site: string, node: string, version: int, hash: string)
    ensures Grows(env, s, Poll(env, s, site, node, version, hash).0)
  {
  }

  lemma RollbackGrows(env: Env, s: State, p: Publication)
    ensures Grows(env, s, Rollback(env, s, p).0)
  {
    RollbackIs(env, s, p);
    if p.site in s.bindings && s.bindings[p.site].previous.Some? {
      PublishGrows(env, s, Back(s, p));
    }
    assert s.desired[..|s.desired|] == s.desired;
    Followed(env, s, s);
  }

  lemma AckGrows(env: Env, s: State, ack: Ack, version: int, hash: string)
    ensures Grows(env, s, Acknowledge(s, ack, version, hash).0)
  {
    AckTouchesReleasesOnly(s, ack, version, hash);
    assert s.desired[..|s.desired|] == s.desired;
    Followed(env, s, Acknowledge(s, ack, version, hash).0);
  }

  lemma StepGrows(env: Env, s: State, step: Step)
    ensures Grows(env, s, Apply(env, s, step))
  {
    match step
    case MakeRelease(q) =>
      CreateReleaseLeaves(env, s, q);
      Followed(env, s, CreateRelease(env, s, q).0);
    case Publish(p) => PublishGrows(env, s, p);
    case RollBack(p) => RollbackGrows(env, s, p);
    case SendAck(ack, version, hash) => AckGrows(env, s, ack, version, hash);
    case AddVersion(id, v) => AddVersionGrows(env, s, id, v);
    case AskDesired(site, node, version, hash) => PollGrows(env, s, site, node, version, hash);
    case _ =>
      QuietIs(env, s, step);
      QuietGrows(env, s, Apply(env, s, step));
  }

  /** What was served stays current until a new release targets the node. */
  lemma StepKeepsServed(env: Env, s: State, step: Step, site: string, node: string, i: int, version: int, hash: string)
    requires Served(env, s, site, node, i, version, hash)
    requires LatestIndex(Apply(env, s, step).desired, site, Some(node)) == i
    ensures Served(env, Apply(env, s, step), site, node, i, version, hash)
  {
    var s' := Apply(env, s, step);
    StepGrows(env, s, step);
    assert Repaired(env, s, i) == s.desired[i];
    SettledForGood(env.tags, s.blobs, s'.blobs, s.desired[i].stored.bundle);
  }

  /** Through the whole run no new release targets the node. */
  ghost predicate NotTargeted(env: Env, s: State, steps: seq<Step>, site: string, node: string, i: int)
    decreases |steps|
  {
    && LatestIndex(s.desired, site, Some(node)) == i
    && (steps != [] ==> NotTargeted(env, Apply(env, s, steps[0]), steps[1..], site, node, i))
  }

  /** Convergence: once served, a node that keeps reporting the served version and hash is told
      "not stale" on every later poll until a new release targets it. */
  lemma {:induction false} PollingConverges(env: Env, s: State, steps: seq<Step>, site: string, node: string, i: int,
                                            version: int, hash: string)
    requires Served(env, s, site, node, i, version, hash) && NotTargeted(env, s, steps, site, node, i)
    ensures var end := Run(env, s, steps);
            var (after, response) := Poll(env, end, site, node, version, hash);
            after == end && !response.stale && response.bundle.None?
    decreases |steps|
  {
    if steps == [] {
      ServedIsNotStale(env, s, site, node, i, version, hash);
    } else {
      StepKeepsServed(env, s, steps[0], site, node, i, version, hash);
      PollingConverges(env, Apply(env, s, steps[0]), steps[1..], site, node, i, version, hash);
    }
  }

  // ------------------------------------------------------------------------ served bundles

  /** A served document: authentic, without retired fields, with an offered selection only, and
      carrying the version bound to the site. */
  predicate SafeToServe(env: Env, s: State, i: int, site: string)
    requires 0 <= i < |s.desired|
  {
    && Authentic(env.crypto, env.secret, s.desired[i].stored)
    && CleanBundle(s.desired[i].stored.bundle)
    && SelectionOffered(env.tags, s.blobs, s.desired[i].stored.bundle)
    && Carries(s.desired[i], SubscriptionFor(s, site))
  }

  lemma PollIsSafe(env: Env, s: State, site: string, node: string, version: int, hash: string)
    requires WellBehaved(env) && Inv(env, s) && LatestIndex(s.desired, site, Some(node)) >= 0
    ensures SafeToServe(env, Poll(env, s, site, node, version, hash).0, LatestIndex(s.desired, site, Some(node)), site)
  {
    var i := LatestIndex(s.desired, site, Some(node));
    ServedBundleIsSafe(env.crypto, env.secret, env.tags, s.blobs, s.desired[i].stored);
    LatestIsNewest(s.desired, site, node);
    RepairedIsFine(env, s, i);
  }

  /** Every bundle handed out in any run is safe to serve, and is the one stored for the node. */
  lemma ServedBundles(env: Env, steps: seq<Step>, site: string, node: string, version: int, hash: string)
    requires WellBehaved(env) && AllowedRun(env, EMPTY, steps)
    ensures var s := Run(env, EMPTY, steps);
            var (s', r) := Poll(env, s, site, node, version, hash);
            var i := LatestIndex(s.desired, site, Some(node));
            r.bundle.Some? ==>
              0 <= i < |s'.desired| && s'.desired[i].stored.bundle == r.bundle.value && SafeToServe(env, s', i, site)
  {
    assert Inv(env, EMPTY);
    RunKeepsInv(env, EMPTY, steps);
    var s := Run(env, EMPTY, steps);
    if LatestIndex(s.desired, site, Some(node)) >= 0 {
      PollIsSafe(env, s, site, node, version, hash);
      PollHandsOutStored(env, s, site, node, version, hash);
    }
  }

  lemma PollHandsOutStored(env: Env, s: State, site: string, node: string, version: int, hash: string)
    requires LatestIndex(s.desired, site, Some(node)) >= 0
    ensures var (s', r) := Poll(env, s, site, node, version, hash);
            var i := LatestIndex(s.desired, site, Some(node));
            i < |s'.desired| && (r.bundle.Some? ==> s'.desired[i].stored.bundle == r.bundle.value)
  {
  }
}
