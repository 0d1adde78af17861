/** What the release handlers answer and when, told over the stored documents (`main.py`). */
module ReleaseLaws {
  import opened Strings
  import opened JsonValue
  import opened Bundles
  import opened ReleaseProtocol
  import opened DesiredInvariants
  import opened BundleLaws
  import opened ReleaseRuns
  import opened ReleaseTheorems
  import opened ReleaseLedger

  // ------------------------------------------------------------------------------ polling

  /** The answer to a node: stale exactly when its newest document, as it is stored after the poll, has a
      higher version than the node reports or another hash; then that document's bundle comes along. */
  ghost predicate Answers(s: State, s': State, site: string, node: string, version: int, hash: string, r: Response) {
    if exists i :: NewestOfNode(s.desired, site, node, i) then
      exists i ::
        && NewestOfNode(s.desired, site, node, i) && |s'.desired| == |s.desired|
        && s' == s.(desired := s.desired[i := s.desired[i].(stored := s'.desired[i].stored)])
        && (r.stale <==> s'.desired[i].version > version || s'.desired[i].stored.bundleHash != hash)
        && r.release == Some(s'.desired[i].release)
        && r.bundle == if r.stale then Some(s'.desired[i].stored.bundle) else None
    else s' == s && r == Response(false, None, None)
  }

  lemma PollAnswers(env: Env, s: State, site: string, node: string, version: int, hash: string)
    ensures var (s', r) := Poll(env, s, site, node, version, hash); Answers(s, s', site, node, version, hash, r)
  {
    LatestIsOfNode(s.desired, site, node);
    var i := LatestIndex(s.desired, site, Some(node));
    if i >= 0 {
      assert NewestOfNode(s.desired, site, node, i);
    }
  }

  /** Whatever is repaired later, a stored document keeps its release, node, site and version. */
  predicate Kept(ds: seq<Desired>, ds': seq<Desired>) {
    |ds| <= |ds'| && forall i :: 0 <= i < |ds| ==> ds'[i] == ds[i].(stored := ds'[i].stored)
  }

  lemma StepKeepsDocuments(env: Env, s: State, step: Step)
    ensures Kept(s.desired, Apply(env, s, step).desired)
  {
    StepGrows(env, s, step);
  }

  lemma {:induction false} RunKeepsDocuments(env: Env, s: State, steps: seq<Step>)
    ensures Kept(s.desired, Run(env, s, steps).desired)
    decreases |steps|
  {
    if steps != [] {
      StepKeepsDocuments(env, s, steps[0]);
      RunKeepsDocuments(env, Apply(env, s, steps[0]), steps[1..]);
    }
  }

  lemma {:induction false} StaysNewest(env: Env, s: State, steps: seq<Step>, site: string, node: string, i: int)
    requires NotTargeted(env, s, steps, site, node, i)
    ensures LatestIndex(Run(env, s, steps).desired, site, Some(node)) == i
    decreases |steps|
  {
    if steps != [] {
      StaysNewest(env, Apply(env, s, steps[0]), steps[1..], site, node, i);
    }
  }

  lemma OnlyNewest(ds: seq<Desired>, site: string, node: string, i: nat)
    requires i < |ds| && ds[i].site == site && ds[i].node == node
    requires forall j :: 0 <= j < |ds| && j != i && ds[j].site == site && ds[j].node == node ==>
               ds[j].version < ds[i].version
    ensures LatestIndex(ds, site, Some(node)) == i
  {
    assert Matches(ds[i], site, Some(node));
  }

  /** The document a batch adds for a node becomes the newest of that node. */
  lemma BatchIsNewest(ds: seq<Desired>, batch: seq<Desired>, nodes: seq<string>, site: string, release: string,
                      version: nat, k: nat)
    requires Batch(batch, nodes, site, release, version) && |batch| == |nodes| && Distinct(nodes) && k < |nodes|
    requires forall i :: 0 <= i < |ds| && ds[i].site == site ==> ds[i].version < version
    ensures LatestIndex(ds + batch, site, Some(nodes[k])) == |ds| + k
  {
    var all := ds + batch;
    assert all[|ds| + k] == batch[k];
    assert forall j :: 0 <= j < |ds| ==> all[j] == ds[j];
    forall j | |ds| <= j < |all| && j != |ds| + k ensures all[j].node != nodes[k] {
      var m := j - |ds|;
      assert all[j] == batch[m] && batch[m].node == nodes[m];
    }
    OnlyNewest(all, site, nodes[k], |ds| + k);
  }

  lemma NewerIsHandedOut(env: Env, s: State, site: string, node: string, i: nat, version: int, hash: string)
    requires LatestIndex(s.desired, site, Some(node)) == i && s.desired[i].version > version
    ensures var (after, r) := Poll(env, s, site, node, version, hash);
            && |after.desired| == |s.desired|
            && r == Response(true, Some(s.desired[i].release), Some(after.desired[i].stored.bundle))
  {
  }

  /** What a grant does to the documents: one for each selected node, at the next version of the site. */
  ghost predicate GrantedBy(s: State, granted: State, site: string, nodes: seq<string>, release: string) {
    && site in s.sites && |granted.desired| == |s.desired| + |nodes| && Distinct(nodes)
    && granted.desired[..|s.desired|] == s.desired
    && Batch(granted.desired[|s.desired|..], nodes, site, release, s.sites[site].revision + 1)
  }

  lemma GrantIs(env: Env, s: State, q: Request)
    requires WellBehaved(env) && Inv(env, s) && ExistingRelease(s, q.key) < 0 && CreateRelease(env, s, q).1.Ok?
    ensures q.draft in s.drafts
    ensures GrantedBy(s, CreateRelease(env, s, q).0, s.drafts[q.draft].site, Selected(s, q), q.release)
  {
    var batch := CreateReleaseEffect(env, s, q);
    SelectedIsRostered(s, q);
    assert (s.desired + batch)[..|s.desired|] == s.desired && (s.desired + batch)[|s.desired|..] == batch;
  }

  /** Document `i` belongs to the release and is newer than `version`. */
  ghost predicate NewDocument(s: State, i: int, release: string, version: int) {
    0 <= i < |s.desired| && s.desired[i].release == release && s.desired[i].version > version
  }

  lemma GrantedDocument(s: State, granted: State, site: string, nodes: seq<string>, release: string, k: nat)
    requires GrantedBy(s, granted, site, nodes, release) && k < |nodes|
    ensures NewDocument(granted, |s.desired| + k, release, s.sites[site].revision)
  {
    assert granted.desired[|s.desired|..][k] == granted.desired[|s.desired| + k];
  }

  /** A poll hands out document `i` of the release, as it is stored after the poll. */
  ghost predicate HandsOut(env: Env, s: State, site: string, node: string, i: int, release: string, version: int,
                           hash: string) {
    var (after, r) := Poll(env, s, site, node, version, hash);
    0 <= i < |after.desired| && r == Response(true, Some(release), Some(after.desired[i].stored.bundle))
  }

  /** Document `i` is the node's newest from here to the end of the steps: no other release targets the node. */
  ghost predicate StaysCurrent(env: Env, s: State, steps: seq<Step>, site: string, node: string, i: int) {
    NotTargeted(env, s, steps, site, node, i)
  }

  /** Until another release targets the node, every poll of it with an older version is answered with the
      document. */
  lemma TargetedIsHandedOut(env: Env, s: State, steps: seq<Step>, site: string, node: string, i: int,
                            release: string, floor: int, version: int, hash: string)
    requires NewDocument(s, i, release, floor) && version <= floor
    requires StaysCurrent(env, s, steps, site, node, i)
    ensures HandsOutAfter(env, s, steps, site, node, i, release, version, hash)
  {
    var end := Run(env, s, steps);
    RunKeepsDocuments(env, s, steps);
    StaysNewest(env, s, steps, site, node, i);
    assert end.desired[i] == s.desired[i].(stored := end.desired[i].stored);
    NewerIsHandedOut(env, end, site, node, i, version, hash);
  }

  ghost predicate HandsOutAfter(env: Env, s: State, steps: seq<Step>, site: string, node: string, i: int,
                                release: string, version: int, hash: string) {
    HandsOut(env, Run(env, s, steps), site, node, i, release, version, hash)
  }

  /** A granted release reaches its nodes: whatever version up to the former site revision a node reports, its
      next poll is answered with this release's document, until another release targets the node. */
  lemma GrantedIsHandedOut(env: Env, s: State, granted: State, site: string, nodes: seq<string>, release: string,
                           steps: seq<Step>, k: nat, version: int, hash: string)
    requires GrantedBy(s, granted, site, nodes, release) && k < |nodes| && version <= s.sites[site].revision
    requires StaysCurrent(env, granted, steps, site, nodes[k], |s.desired| + k)
    ensures HandsOutAfter(env, granted, steps, site, nodes[k], |s.desired| + k, release, version, hash)
  {
    var i, node, floor := |s.desired| + k, nodes[k], s.sites[site].revision;
    GrantedDocument(s, granted, site, nodes, release, k);
    TargetedIsHandedOut(env, granted, steps, site, node, i, release, floor, version, hash);
  }

  /** Right after the grant the new document is the newest of its node, so the above applies to it. */
  lemma GrantedIsNewest(env: Env, s: State, granted: State, site: string, nodes: seq<string>, release: string, k: nat)
    requires GrantedBy(s, granted, site, nodes, release) && k < |nodes| && Bounded(s.sites, s.desired)
    ensures StaysCurrent(env, granted, [], site, nodes[k], |s.desired| + k)
  {
    var batch := granted.desired[|s.desired|..];
    assert granted.desired == s.desired + batch;
    BatchIsNewest(s.desired, batch, nodes, site, release, s.sites[site].revision + 1, k);
  }

  // -------------------------------------------------------------------- acknowledgements

  /** The newest sequence the node has acknowledged with. */
  ghost predicate LastSequence(acks: seq<Ack>, node: string, sequence: int) {
    && (exists i :: 0 <= i < |acks| && acks[i].node == node && acks[i].sequence == sequence)
    && (forall i :: 0 <= i < |acks| && acks[i].node == node ==> acks[i].sequence <= sequence)
  }

  ghost predicate AssignedTo(s: State, release: string, node: string) {
    exists i :: 0 <= i < |s.releases| && s.releases[i].id == release && node in s.releases[i].nodes
  }

  /** The first document of the release for the node. */
  ghost predicate DocumentFor(ds: seq<Desired>, release: string, node: string, d: int) {
    && 0 <= d < |ds| && ds[d].release == release && ds[d].node == node
    && forall j :: 0 <= j < d ==> ds[j].release != release || ds[j].node != node
  }

  ghost predicate Confirms(ds: seq<Desired>, release: string, node: string, version: int, hash: string) {
    exists d :: DocumentFor(ds, release, node, d) && ds[d].version == version && ds[d].stored.bundleHash == hash
  }

  /** A duplicate repeats the node's newest sequence.  Otherwise the acknowledgement must be for a release of the
      node and confirm the version and hash of its document. */
  ghost predicate AckDecision(s: State, ack: Ack, version: int, hash: string, outcome: AckOutcome) {
    var repeated := LastSequence(s.acks, ack.node, ack.sequence);
    var known := AssignedTo(s, ack.release, ack.node);
    && (outcome == Duplicate <==> repeated)
    && (outcome == Refused(NotAssigned) <==> !repeated && !known)
    && (outcome == Refused(DesiredNotFound) <==>
          !repeated && known && forall d :: !DocumentFor(s.desired, ack.release, ack.node, d))
    && (outcome == Accepted <==>
          !repeated && known && Confirms(s.desired, ack.release, ack.node, version, hash))
  }

  /** Only an accepted acknowledgement changes anything: it is stored, and the status of its release follows. */
  ghost predicate AckEffect(s: State, s': State, ack: Ack, outcome: AckOutcome) {
    if outcome != Accepted then s' == s
    else
      && s' == s.(acks := s.acks + [ack], releases := s'.releases) && |s'.releases| == |s.releases|
      && forall i :: 0 <= i < |s.releases| ==>
           && s'.releases[i] == s.releases[i].(status := s'.releases[i].status)
           && if s.releases[i].id == ack.release then Verdict(s'.releases[i], s'.acks)
              else s'.releases[i].status == s.releases[i].status
  }

  lemma {:induction false} HighestIsLast(acks: seq<Ack>, node: string)
    ensures var h := HighestSequence(acks, node);
            && (h.Some? ==> LastSequence(acks, node, h.value))
            && (h.None? ==> forall i :: 0 <= i < |acks| ==> acks[i].node != node)
  {
    if acks != [] {
      var n := |acks| - 1;
      HighestIsLast(acks[..n], node);
      var before := HighestSequence(acks[..n], node);
      if before.Some? {
        var i :| 0 <= i < n && acks[..n][i].node == node && acks[..n][i].sequence == before.value;
        assert acks[i] == acks[..n][i];
      }
      assert forall i :: 0 <= i < n ==> acks[i] == acks[..n][i];
    }
  }

  lemma LastIsUnique(acks: seq<Ack>, node: string, a: int, b: int)
    requires LastSequence(acks, node, a) && LastSequence(acks, node, b)
    ensures a == b
  {
  }

  lemma {:induction false} DesiredOfIsFirst(ds: seq<Desired>, release: string, node: string)
    ensures var d := DesiredOf(ds, release, node);
            if d >= 0 then DocumentFor(ds, release, node, d)
            else forall j :: 0 <= j < |ds| ==> ds[j].release != release || ds[j].node != node
  {
    if ds != [] {
      var n := |ds| - 1;
      DesiredOfIsFirst(ds[..n], release, node);
      assert forall j :: 0 <= j < n ==> ds[j] == ds[..n][j];
    }
  }

  // ----------------------------------------------------------------------------- verdicts

  /** The newest acknowledgement of a node for a release, by arrival and then by sequence. */
  ghost predicate NewestAck(acks: seq<Ack>, release: string, node: string, a: Ack) {
    && a in acks && a.release == release && a.node == node
    && forall b :: b in acks && b.release == release && b.node == node ==>
         b.receivedAt < a.receivedAt || (b.receivedAt == a.receivedAt && b.sequence <= a.sequence)
  }

  ghost predicate Answered(acks: seq<Ack>, release: string, node: string) {
    exists a :: a in acks && a.release == release && a.node == node
  }

  ghost predicate AllAnswered(r: Release, acks: seq<Ack>) {
    forall node :: node in r.nodes ==> Answered(acks, r.id, node)
  }

  /** Finished exactly when every node has answered; succeeded exactly when every node's newest answer is good. */
  ghost predicate Verdict(r: Release, acks: seq<Ack>) {
    && (Active(r.status) <==> !AllAnswered(r, acks))
    && (AllAnswered(r, acks) ==> r.status == Succeeded || r.status == Failed)
    && (r.status == Succeeded ==>
          forall node :: node in r.nodes ==> exists a :: NewestAck(acks, r.id, node, a) && a.ok && a.healthy)
    && (r.status == Failed ==>
          exists node, a :: node in r.nodes && NewestAck(acks, r.id, node, a) && !(a.ok && a.healthy))
  }

  lemma {:induction false} AcksOfAre(acks: seq<Ack>, release: string)
    ensures forall a :: a in AcksOf(acks, release) <==> a in acks && a.release == release
  {
    if acks != [] {
      AcksOfAre(acks[..|acks| - 1], release);
      InitLast(acks);
    }
  }

  lemma LatestIsNewestAck(acks: seq<Ack>, release: string, node: string)
    ensures var latest := LatestAcks(AcksOf(acks, release));
            && (node in latest <==> Answered(acks, release, node))
            && (node in latest ==> NewestAck(acks, release, node, latest[node]))
  {
    AcksOfAre(acks, release);
    LatestAcksAreNewest(AcksOf(acks, release));
  }

  lemma JudgedIsVerdict(r: Release, acks: seq<Ack>)
    requires Judged(r, acks)
    ensures Verdict(r, acks)
  {
    var latest := LatestAcks(AcksOf(acks, r.id));
    forall node ensures node in latest <==> Answered(acks, r.id, node) {
      LatestIsNewestAck(acks, r.id, node);
    }
    if AllIn(r.nodes, latest) {
      forall node | node in r.nodes ensures node in latest {
      }
      if AllGood(r.nodes, latest) {
        forall node | node in r.nodes
          ensures exists a :: NewestAck(acks, r.id, node, a) && a.ok && a.healthy
        {
          LatestIsNewestAck(acks, r.id, node);
          var i :| 0 <= i < |r.nodes| && r.nodes[i] == node;
          assert latest[r.nodes[i]].ok && latest[r.nodes[i]].healthy;
        }
      } else {
        var i :| 0 <= i < |r.nodes| && !(latest[r.nodes[i]].ok && latest[r.nodes[i]].healthy);
        LatestIsNewestAck(acks, r.id, r.nodes[i]);
        assert r.nodes[i] in r.nodes;
      }
    }
  }

  /** In every reachable state every release has the verdict its acknowledgements give. */
  lemma ReachableVerdicts(env: Env, steps: seq<Step>, i: nat)
    requires AllowedRun(env, EMPTY, steps) && i < |Run(env, EMPTY, steps).releases|
    ensures var s := Run(env, EMPTY, steps); Verdict(s.releases[i], s.acks)
  {
    ReachableReleases(env, steps);
    JudgedIsVerdict(Run(env, EMPTY, steps).releases[i], Run(env, EMPTY, steps).acks);
  }

  lemma RepeatedIs(acks: seq<Ack>, node: string, sequence: int)
    ensures LastSequence(acks, node, sequence) <==> HighestSequence(acks, node) == Some(sequence)
  {
    HighestIsLast(acks, node);
    var h := HighestSequence(acks, node);
    if h.Some? && LastSequence(acks, node, sequence) {
      LastIsUnique(acks, node, h.value, sequence);
    }
  }

  lemma AcknowledgeDecides(s: State, ack: Ack, version: int, hash: string)
    requires Ledger(s)
    ensures AckDecision(s, ack, version, hash, Acknowledge(s, ack, version, hash).1)
  {
    RepeatedIs(s.acks, ack.node, ack.sequence);
    AssignedIs(s, ack.release, ack.node);
    ConfirmsIs(s.desired, ack.release, ack.node, version, hash);
  }

  lemma AcknowledgeChanges(s: State, ack: Ack, version: int, hash: string)
    requires Ledger(s)
    ensures var (s', outcome) := Acknowledge(s, ack, version, hash); AckEffect(s, s', ack, outcome)
  {
    var (s', outcome) := Acknowledge(s, ack, version, hash);
    if outcome == Accepted {
      AckKeepsLedger(s, ack, version, hash);
      var k := ReleaseById(s.releases, ack.release);
      forall i | 0 <= i < |s.releases|
        ensures s'.releases[i] == s.releases[i].(status := s'.releases[i].status)
        ensures if s.releases[i].id == ack.release then Verdict(s'.releases[i], s'.acks)
                else s'.releases[i].status == s.releases[i].status
      {
        if i == k {
          assert Judged(s'.releases[i], s'.acks);
          JudgedIsVerdict(s'.releases[i], s'.acks);
        } else {
          assert s.releases[i].id != s.releases[k].id;
        }
      }
    }
  }

  lemma AssignedIs(s: State, release: string, node: string)
    requires UniqueReleases(s.releases)
    ensures var i := ReleaseById(s.releases, release);
            AssignedTo(s, release, node) <==> i >= 0 && node in s.releases[i].nodes
  {
  }

  lemma ConfirmsIs(ds: seq<Desired>, release: string, node: string, version: int, hash: string)
    ensures var d := DesiredOf(ds, release, node);
            && (Confirms(ds, release, node, version, hash) <==>
                  d >= 0 && ds[d].version == version && ds[d].stored.bundleHash == hash)
            && (d < 0 <==> forall j :: !DocumentFor(ds, release, node, j))
  {
    DesiredOfIsFirst(ds, release, node);
  }
}
