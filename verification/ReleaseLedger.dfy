/** What every run keeps about releases, drafts, idempotency keys and acknowledgements. */
module ReleaseLedger {
  import opened Strings
  import opened JsonValue
  import opened Bundles
  import opened ReleaseProtocol
  import opened ReleaseRuns

  // ------------------------------------------------------------------- the newest acks

  /** `_latest_ack_per_node`. */
  method LatestAckPerNode(items: seq<Ack>) returns (latest: map<string, Ack>)
    ensures latest == LatestAcks(items)
  {
    latest := map[];
    for i := 0 to |items|
      invariant latest == LatestAcks(items[..i])
    {
      assert items[..i + 1][..i] == items[..i];
      if items[i].node !in latest || Newer(items[i], latest[items[i].node]) {
        latest := latest[items[i].node := items[i]];
      }
    }
    assert items[..|items|] == items;
  }

  /** The fold keeps, per node, an ack of that node that no other ack of the node is newer than. */
  predicate NewestOf(items: seq<Ack>, a: Ack) {
    a in items && forall b :: b in items && b.node == a.node ==> !Newer(b, a)
  }

  lemma {:induction false} LatestAcksAreNewest(items: seq<Ack>)
    ensures forall node :: node in LatestAcks(items) <==> exists a :: a in items && a.node == node
    ensures forall node :: node in LatestAcks(items) ==>
              LatestAcks(items)[node].node == node && NewestOf(items, LatestAcks(items)[node])
  {
    if items != [] {
      var n := |items| - 1;
      LatestAcksAreNewest(items[..n]);
      InitLast(items);
      assert forall a :: a in items <==> a in items[..n] || a == items[n];
    }
  }

  predicate DistinctKeys(items: seq<Ack>) {
    forall a, b :: a in items && b in items && a != b && a.node == b.node ==>
      a.receivedAt != b.receivedAt || a.sequence != b.sequence
  }

  /** With distinct (received_at, sequence) keys the result does not depend on the listing order. */
  lemma LatestAcksOrderIndependent(items: seq<Ack>, other: seq<Ack>)
    requires DistinctKeys(items) && forall a :: a in items <==> a in other
    ensures LatestAcks(items) == LatestAcks(other)
  {
    LatestAcksAreNewest(items);
    LatestAcksAreNewest(other);
    var x, y := LatestAcks(items), LatestAcks(other);
    forall node
      ensures node in x <==> node in y
      ensures node in x ==> x[node] == y[node]
    {
      assert (exists a :: a in items && a.node == node) <==> (exists a :: a in other && a.node == node);
      if node in x {
        assert NewestOf(items, x[node]) && NewestOf(other, y[node]);
      }
    }
  }

  // -------------------------------------------------------------------------- the ledger

  predicate UniqueReleases(rs: seq<Release>) {
    forall i, j :: 0 <= i < j < |rs| ==> rs[i].id != rs[j].id && rs[i].task != rs[j].task && rs[i].draft != rs[j].draft
  }

  predicate DraftsUsed(rs: seq<Release>, drafts: map<string, Draft>) {
    forall i :: 0 <= i < |rs| ==> rs[i].draft in drafts && drafts[rs[i].draft].status == Released
  }

  predicate Disjoint(a: seq<string>, b: seq<string>) {
    forall i :: 0 <= i < |a| ==> a[i] !in b
  }

  /** No node belongs to two active releases. */
  predicate Exclusive(rs: seq<Release>) {
    forall i, j :: 0 <= i < j < |rs| && Active(rs[i].status) && Active(rs[j].status) ==>
        Disjoint(rs[j].nodes, rs[i].nodes)
  }

  predicate Known(rs: seq<Release>, id: string) {
    exists j :: 0 <= j < |rs| && rs[j].id == id
  }

  predicate AcksKnown(acks: seq<Ack>, rs: seq<Release>) {
    forall i :: 0 <= i < |acks| ==> Known(rs, acks[i].release)
  }

  /** Finished exactly when every assigned node has acknowledged, and then with the verdict of the
      newest acknowledgements. */
  predicate Judged(r: Release, acks: seq<Ack>) {
    var latest := LatestAcks(AcksOf(acks, r.id));
    && r.nodes != []
    && (Active(r.status) <==> !AllIn(r.nodes, latest))
    && (AllIn(r.nodes, latest) ==> r.status == if AllGood(r.nodes, latest) then Succeeded else Failed)
  }

  predicate AllJudged(rs: seq<Release>, acks: seq<Ack>) {
    forall i :: 0 <= i < |rs| ==> Judged(rs[i], acks)
  }

  predicate Ledger(s: State) {
    && UniqueReleases(s.releases)
    && DraftsUsed(s.releases, s.drafts)
    && Exclusive(s.releases)
    && AcksKnown(s.acks, s.releases)
    && AllJudged(s.releases, s.acks)
  }

  // ------------------------------------------------------------------ committing a release

  predicate SameLedger(s: State, s': State) {
    s'.releases == s.releases && s'.drafts == s.drafts && s'.tasks == s.tasks && s'.acks == s.acks
  }

  lemma LedgerFrame(s: State, s': State)
    requires Ledger(s) && s'.releases == s.releases && s'.drafts == s.drafts && s'.acks == s.acks
    ensures Ledger(s')
  {
  }

  function NewTask(s: State, q: Request): string {
    if q.key in s.tasks then s.tasks[q.key] else q.task
  }

  /** What a release request does to the ledger: nothing, or one committed release. */
  predicate Committed(s: State, s': State, q: Request) {
    && ExistingRelease(s, q.key) < 0
    && CheckRequest(s, q).None?
    && s'.releases == s.releases + [
         Release(q.release, s.drafts[q.draft].site, Selected(s, q), NewTask(s, q), Applying, q.draft)]
    && s'.drafts == s.drafts[q.draft := s.drafts[q.draft].(status := Released)]
    && s'.tasks == s.tasks[q.key := NewTask(s, q)]
    && s'.acks == s.acks
  }

  lemma RequestEffect(env: Env, s: State, q: Request)
    ensures var (s', r) := CreateRelease(env, s, q);
            SameLedger(s, s') || (Committed(s, s', q) && r == Ok(q.release))
  {
    if ExistingRelease(s, q.key) < 0 && CheckRequest(s, q).None? {
      var d := s.drafts[q.draft];
      CreateDesiredLeaves(env, s, d.site, Selected(s, q), q.release, q.ambient, d.selection, d.policy);
    }
  }

  lemma {:induction false} NoAcksFor(acks: seq<Ack>, id: string)
    requires forall i :: 0 <= i < |acks| ==> acks[i].release != id
    ensures AcksOf(acks, id) == []
  {
    if acks != [] {
      NoAcksFor(acks[..|acks| - 1], id);
    }
  }

  lemma NotBusyIsDisjoint(s: State, nodes: seq<string>, i: nat)
    requires !Busy(s, nodes) && i < |s.releases| && Active(s.releases[i].status)
    ensures Disjoint(nodes, s.releases[i].nodes)
  {
    assert !Overlap(s.releases[i], nodes);
  }

  lemma FreshIsUnique(s: State, q: Request)
    requires Ledger(s) && ExistingRelease(s, q.key) < 0 && CheckRequest(s, q).None?
             && FreshRelease(s, q.release, q.task)
    ensures forall i :: 0 <= i < |s.releases| ==>
              s.releases[i].id != q.release && s.releases[i].task != NewTask(s, q) && s.releases[i].draft != q.draft
  {
    forall i | 0 <= i < |s.releases|
      ensures s.releases[i].id != q.release && s.releases[i].task != NewTask(s, q) && s.releases[i].draft != q.draft
    {
      assert s.releases[i].draft in s.drafts && s.drafts[s.releases[i].draft].status == Released;
    }
  }

  lemma NewReleaseIsJudged(s: State, r: Release)
    requires AcksKnown(s.acks, s.releases) && r.nodes != [] && r.status == Applying
    requires forall i :: 0 <= i < |s.releases| ==> s.releases[i].id != r.id
    ensures Judged(r, s.acks)
  {
    NoAcksFor(s.acks, r.id);
    assert r.nodes[0] !in LatestAcks([]);
  }

  lemma AppendKeepsExclusive(rs: seq<Release>, r: Release)
    requires Exclusive(rs)
    requires forall i :: 0 <= i < |rs| && Active(rs[i].status) ==> Disjoint(r.nodes, rs[i].nodes)
    ensures Exclusive(rs + [r])
  {
    var all := rs + [r];
    forall i, j | 0 <= i < j < |all| && Active(all[i].status) && Active(all[j].status)
      ensures Disjoint(all[j].nodes, all[i].nodes)
    {
      assert all[i] == rs[i];
      assert j < |rs| ==> all[j] == rs[j];
    }
  }

  lemma AppendKeepsKnown(acks: seq<Ack>, rs: seq<Release>, r: Release)
    requires AcksKnown(acks, rs)
    ensures AcksKnown(acks, rs + [r])
  {
    forall i | 0 <= i < |acks|
      ensures Known(rs + [r], acks[i].release)
    {
      assert Known(rs, acks[i].release);
      var j :| 0 <= j < |rs| && rs[j].id == acks[i].release;
      assert (rs + [r])[j] == rs[j];
    }
  }

  lemma CommitKeepsLedger(s: State, s': State, q: Request)
    requires Ledger(s) && Committed(s, s', q) && FreshRelease(s, q.release, q.task)
    ensures Ledger(s')
  {
    var nodes := Selected(s, q);
    var r := Release(q.release, s.drafts[q.draft].site, nodes, NewTask(s, q), Applying, q.draft);
    FreshIsUnique(s, q);
    NewReleaseIsJudged(s, r);
    AppendKeepsKnown(s.acks, s.releases, r);
    forall i | 0 <= i < |s.releases| && Active(s.releases[i].status)
      ensures Disjoint(r.nodes, s.releases[i].nodes)
    {
      NotBusyIsDisjoint(s, nodes, i);
    }
    AppendKeepsExclusive(s.releases, r);
    AppendKeepsJudged(s.releases, s.acks, r);
    AppendKeepsDraftsUsed(s.releases, s.drafts, r);
  }

  lemma AppendKeepsDraftsUsed(rs: seq<Release>, drafts: map<string, Draft>, r: Release)
    requires DraftsUsed(rs, drafts) && r.draft in drafts
    ensures DraftsUsed(rs + [r], drafts[r.draft := drafts[r.draft].(status := Released)])
  {
  }

  lemma AppendKeepsJudged(rs: seq<Release>, acks: seq<Ack>, r: Release)
    requires AllJudged(rs, acks) && Judged(r, acks)
    ensures AllJudged(rs + [r], acks)
  {
    forall i | 0 <= i < |rs + [r]|
      ensures Judged((rs + [r])[i], acks)
    {
      assert (rs + [r])[i] == if i < |rs| then rs[i] else r;
    }
  }

  lemma RequestKeepsLedger(env: Env, s: State, q: Request)
    requires Ledger(s) && FreshRelease(s, q.release, q.task)
    ensures Ledger(CreateRelease(env, s, q).0)
  {
    var s' := CreateRelease(env, s, q).0;
    RequestEffect(env, s, q);
    if SameLedger(s, s') {
      LedgerFrame(s, s');
    } else {
      CommitKeepsLedger(s, s', q);
    }
  }

  lemma NewDraftKeepsLedger(s: State, s': State, id: string, draft: Draft)
    requires Ledger(s) && id !in s.drafts
    requires s'.releases == s.releases && s'.acks == s.acks && s'.drafts == s.drafts[id := draft]
    ensures Ledger(s')
  {
  }

  lemma PublishKeepsLedger(env: Env, s: State, p: Publication)
    requires Ledger(s) && FreshPublication(s, p)
    ensures Ledger(PublishSite(env, s, p).0)
  {
    if Proceeds(s, p) && Roster(s, p.site) != [] {
      var d, q := Drafted(s, p), RequestOf(s, p);
      NewDraftKeepsLedger(s, d, p.draft, d.drafts[p.draft]);
      RequestKeepsLedger(env, d, q);
      PublishIs(env, s, p);
      var s' := CreateRelease(env, d, q).0;
      LedgerFrame(s', Compensated(s, s', p.site));
    } else {
      PublishOtherwise(env, s, p);
      LedgerFrame(s, PublishSite(env, s, p).0);
    }
  }

  // ------------------------------------------------------------------------- acknowledging

  lemma AckElsewhere(acks: seq<Ack>, ack: Ack, id: string)
    requires ack.release != id
    ensures AcksOf(acks + [ack], id) == AcksOf(acks, id)
  {
    assert (acks + [ack])[..|acks|] == acks;
  }

  lemma AckCounts(acks: seq<Ack>, ack: Ack)
    ensures AcksOf(acks + [ack], ack.release) == AcksOf(acks, ack.release) + [ack]
  {
    assert (acks + [ack])[..|acks|] == acks;
  }

  lemma MoreAcksMoreNodes(items: seq<Ack>, ack: Ack, nodes: seq<string>)
    requires AllIn(nodes, LatestAcks(items))
    ensures AllIn(nodes, LatestAcks(items + [ack]))
  {
    assert (items + [ack])[..|items|] == items;
  }

  lemma JudgedAfter(r: Release, before: map<string, Ack>, after: map<string, Ack>)
    requires AllIn(r.nodes, before) ==> AllIn(r.nodes, after)
    requires Active(r.status) <==> !AllIn(r.nodes, before)
    ensures var status :=
              if !AllIn(r.nodes, after) then r.status else if AllGood(r.nodes, after) then Succeeded else Failed;
            Active(status) <==> !AllIn(r.nodes, after)
  {
  }

  lemma JudgeIsJudged(r: Release, acks: seq<Ack>, ack: Ack)
    requires Judged(r, acks) && ack.release == r.id
    ensures Judged(r.(status := Judge(r, acks + [ack])), acks + [ack])
  {
    var before, after := AcksOf(acks, r.id), AcksOf(acks + [ack], r.id);
    AckCounts(acks, ack);
    assert after == before + [ack];
    if AllIn(r.nodes, LatestAcks(before)) {
      MoreAcksMoreNodes(before, ack, r.nodes);
    }
    JudgedAfter(r, LatestAcks(before), LatestAcks(after));
  }

  lemma StatusChangeKeepsRest(rs: seq<Release>, drafts: map<string, Draft>, acks: seq<Ack>, i: nat, status: Status)
    requires UniqueReleases(rs) && DraftsUsed(rs, drafts) && AcksKnown(acks, rs) && Exclusive(rs) && i < |rs|
    requires Active(status) ==> Active(rs[i].status)
    ensures var after := rs[i := rs[i].(status := status)];
            UniqueReleases(after) && DraftsUsed(after, drafts) && AcksKnown(acks, after) && Exclusive(after)
  {
    var after := rs[i := rs[i].(status := status)];
    forall k | 0 <= k < |rs|
      ensures after[k].id == rs[k].id && after[k].task == rs[k].task && after[k].draft == rs[k].draft
              && after[k].nodes == rs[k].nodes
      ensures Active(after[k].status) ==> Active(rs[k].status)
    {
    }
    forall k | 0 <= k < |acks|
      ensures Known(after, acks[k].release)
    {
      assert Known(rs, acks[k].release);
      var j :| 0 <= j < |rs| && rs[j].id == acks[k].release;
      assert after[j].id == acks[k].release;
    }
  }

  lemma OneMoreAck(acks: seq<Ack>, ack: Ack, rs: seq<Release>, i: nat)
    requires AcksKnown(acks, rs) && i < |rs| && rs[i].id == ack.release
    ensures AcksKnown(acks + [ack], rs)
  {
    var all := acks + [ack];
    forall k | 0 <= k < |all|
      ensures Known(rs, all[k].release)
    {
      if k < |acks| {
        assert all[k] == acks[k];
      } else {
        assert rs[i].id == all[k].release;
      }
    }
  }

  lemma AckKeepsLedger(s: State, ack: Ack, version: int, hash: string)
    requires Ledger(s)
    ensures Ledger(Acknowledge(s, ack, version, hash).0)
  {
    var (s', outcome) := Acknowledge(s, ack, version, hash);
    if outcome == Accepted {
      var i := ReleaseById(s.releases, ack.release);
      var r := s.releases[i];
      assert Judged(r, s.acks);
      JudgeIsJudged(r, s.acks, ack);
      OneMoreAck(s.acks, ack, s.releases, i);
      StatusChangeKeepsRest(s.releases, s.drafts, s'.acks, i, Judge(r, s'.acks));
      forall k | 0 <= k < |s'.releases|
        ensures Judged(s'.releases[k], s'.acks)
      {
        if k != i {
          assert s'.releases[k] == s.releases[k];
          assert s.releases[k].id != r.id;
          AckElsewhere(s.acks, ack, s.releases[k].id);
        }
      }
    }
  }

  // ---------------------------------------------------------------------------------- runs

  lemma StepKeepsLedger(env: Env, s: State, step: Step)
    requires Ledger(s) && Allowed(s, step)
    ensures Ledger(Apply(env, s, step))
  {
    match step
    case MakeRelease(q) => RequestKeepsLedger(env, s, q);
    case Publish(p) => PublishKeepsLedger(env, s, p);
    case RollBack(p) =>
      RollbackIs(env, s, p);
      if p.site in s.bindings && s.bindings[p.site].previous.Some? {
        PublishKeepsLedger(env, s, Back(s, p));
      }
    case AddDraft(id, draft) => NewDraftKeepsLedger(s, Apply(env, s, step), id, draft);
    case SendAck(ack, version, hash) => AckKeepsLedger(s, ack, version, hash);
    case _ => QuietForLedger(env, s, step);
  }

  lemma QuietForLedger(env: Env, s: State, step: Step)
    requires Ledger(s)
    requires step.AddVersion? || step.AddSite? || step.AddNode? || step.Touch? || step.AddTask? || step.AskDesired?
    ensures Ledger(Apply(env, s, step))
  {
    match step
    case AskDesired(site, node, version, hash) =>
      PollLeavesLedger(env, s, site, node, version, hash);
      LedgerFrame(s, Poll(env, s, site, node, version, hash).0);
    case _ => LedgerFrame(s, Apply(env, s, step));
  }

  /** Release exclusivity and verdicts in every reachable state. */
  lemma {:induction false} RunKeepsLedger(env: Env, s: State, steps: seq<Step>)
    requires Ledger(s) && AllowedRun(env, s, steps)
    ensures Ledger(Run(env, s, steps))
    decreases |steps|
  {
    if steps != [] {
      StepKeepsLedger(env, s, steps[0]);
      RunKeepsLedger(env, Apply(env, s, steps[0]), steps[1..]);
    }
  }

  /** In every reachable state: a node is in at most one active release, a draft and a task in at most
      one release, and a release is finished exactly when all its nodes have acknowledged, succeeded
      exactly when each node's newest acknowledgement is ok and healthy. */
  lemma ReachableReleases(env: Env, steps: seq<Step>)
    requires AllowedRun(env, EMPTY, steps)
    ensures var s := Run(env, EMPTY, steps);
            && Exclusive(s.releases) && UniqueReleases(s.releases) && AllJudged(s.releases, s.acks)
  {
    assert Ledger(EMPTY);
    RunKeepsLedger(env, EMPTY, steps);
  }

  // ---------------------------------------------------------------------- idempotency keys

  /** The key has produced this release. */
  predicate Recorded(s: State, key: string, id: string) {
    var i := ExistingRelease(s, key);
    i >= 0 && s.releases[i].id == id
  }

  /** Repeating a key returns the recorded release and changes nothing at all. */
  lemma RepeatedKeyReturnsRelease(env: Env, s: State, q: Request, id: string)
    requires Recorded(s, q.key, id)
    ensures CreateRelease(env, s, q) == (s, Ok(id))
  {
  }

  predicate SameTasks(a: seq<Release>, b: seq<Release>) {
    |a| <= |b| && forall i :: 0 <= i < |a| ==> b[i].task == a[i].task && b[i].id == a[i].id
  }

  lemma {:induction false} FirstOfTaskStays(a: seq<Release>, b: seq<Release>, task: string)
    requires SameTasks(a, b) && ReleaseOfTask(a, task) >= 0
    ensures ReleaseOfTask(b, task) == ReleaseOfTask(a, task)
    decreases |b|
  {
    var n := |b| - 1;
    if |a| < |b| {
      assert SameTasks(a, b[..n]);
      FirstOfTaskStays(a, b[..n], task);
    } else {
      assert SameTasks(a[..n], b[..n]);
      if ReleaseOfTask(a[..n], task) >= 0 {
        FirstOfTaskStays(a[..n], b[..n], task);
      } else {
        NoneOfTask(a[..n], b[..n], task);
      }
    }
  }

  lemma {:induction false} NoneOfTask(a: seq<Release>, b: seq<Release>, task: string)
    requires SameTasks(a, b) && |a| == |b| && ReleaseOfTask(a, task) < 0
    ensures ReleaseOfTask(b, task) < 0
  {
    var i := ReleaseOfTask(b, task);
  }

  /** Keys keep their task and releases keep their place. */
  predicate KeepsKeys(s: State, s': State) {
    && SameTasks(s.releases, s'.releases)
    && forall key :: key in s.tasks ==> key in s'.tasks && s'.tasks[key] == s.tasks[key]
  }

  lemma KeysKeepRecord(s: State, s': State, key: string, id: string)
    requires Recorded(s, key, id) && KeepsKeys(s, s')
    ensures Recorded(s', key, id)
  {
    FirstOfTaskStays(s.releases, s'.releases, s.tasks[key]);
  }

  lemma RequestKeepsKeys(env: Env, s: State, q: Request)
    ensures KeepsKeys(s, CreateRelease(env, s, q).0)
  {
    RequestEffect(env, s, q);
  }

  lemma PublishKeepsKeys(env: Env, s: State, p: Publication)
    ensures KeepsKeys(s, PublishSite(env, s, p).0)
  {
    if Proceeds(s, p) && Roster(s, p.site) != [] {
      PublishIs(env, s, p);
      RequestKeepsKeys(env, Drafted(s, p), RequestOf(s, p));
      var s' := CreateRelease(env, Drafted(s, p), RequestOf(s, p)).0;
      assert KeepsKeys(s, s');
    } else {
      PublishOtherwise(env, s, p);
    }
  }

  lemma StepKeepsKeys(env: Env, s: State, step: Step)
    requires Allowed(s, step)
    ensures KeepsKeys(s, Apply(env, s, step))
  {
    match step
    case MakeRelease(q) => RequestKeepsKeys(env, s, q);
    case Publish(p) => PublishKeepsKeys(env, s, p);
    case RollBack(p) =>
      RollbackIs(env, s, p);
      if p.site in s.bindings && s.bindings[p.site].previous.Some? {
        PublishKeepsKeys(env, s, Back(s, p));
      }
    case SendAck(ack, version, hash) => AckKeepsKeys(s, ack, version, hash);
    case _ => QuietKeepsKeys(env, s, step);
  }

  /** No other step touches the releases, and a new task has a new key. */
  lemma QuietKeepsKeys(env: Env, s: State, step: Step)
    requires Allowed(s, step)
    requires !step.MakeRelease? && !step.Publish? && !step.RollBack? && !step.SendAck?
    ensures KeepsKeys(s, Apply(env, s, step))
  {
    assert SameTasks(s.releases, s.releases);
    match step
    case AddVersion(_, _) =>
    case AskDesired(site, node, version, hash) => PollLeavesLedger(env, s, site, node, version, hash);
    case _ => QuietIs(env, s, step);
  }

  lemma PollLeavesLedger(env: Env, s: State, site: string, node: string, version: int, hash: string)
    ensures SameLedger(s, Poll(env, s, site, node, version, hash).0)
  {
  }

  lemma AckKeepsKeys(s: State, ack: Ack, version: int, hash: string)
    ensures KeepsKeys(s, Acknowledge(s, ack, version, hash).0)
  {
    var s' := Acknowledge(s, ack, version, hash).0;
    AckTouchesReleasesOnly(s, ack, version, hash);
    if s' != s {
      var i := ReleaseById(s.releases, ack.release);
      StatusKeepsTasks(s.releases, i, Judge(s.releases[i], s.acks + [ack]));
    }
  }

  lemma StatusKeepsTasks(rs: seq<Release>, i: nat, status: Status)
    requires i < |rs|
    ensures SameTasks(rs, rs[i := rs[i].(status := status)])
  {
  }

  /** Each idempotency key yields at most one release: once it has, every later request with that key,
      after any further steps, returns that release and leaves all versions, bundles and drafts alone. */
  lemma {:induction false} KeyYieldsOneRelease(env: Env, s: State, key: string, id: string, steps: seq<Step>,
                                               again: Request)
    requires Recorded(s, key, id) && AllowedRun(env, s, steps) && again.key == key
    ensures var end := Run(env, s, steps);
            CreateRelease(env, end, again) == (end, Ok(id))
    decreases |steps|
  {
    if steps == [] {
      RepeatedKeyReturnsRelease(env, s, again, id);
    } else {
      StepKeepsKeys(env, s, steps[0]);
      KeysKeepRecord(s, Apply(env, s, steps[0]), key, id);
      KeyYieldsOneRelease(env, Apply(env, s, steps[0]), key, id, steps[1..], again);
    }
  }

  /** A granted request records its key. */
  lemma GrantRecordsKey(env: Env, s: State, q: Request)
    requires Ledger(s) && FreshRelease(s, q.release, q.task) && CreateRelease(env, s, q).1.Ok?
             && ExistingRelease(s, q.key) < 0
    ensures Recorded(CreateRelease(env, s, q).0, q.key, q.release)
  {
    var s' := CreateRelease(env, s, q).0;
    RequestEffect(env, s, q);
    FreshIsUnique(s, q);
    assert s'.releases[..|s.releases|] == s.releases;
  }
}
