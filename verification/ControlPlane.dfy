/** The handlers as they run: methods that update the stored documents statement by statement, each
    proved against its step of `ReleaseProtocol`. */
module ControlPlane {
  import opened Strings
  import opened JsonValue
  import opened Bundles
  import opened ReleaseProtocol
  import opened DesiredInvariants
  import opened BundleLaws
  import opened ReleaseRuns
  import opened ReleaseLedger
  import opened ReleaseLaws
  import opened RequestLaws

  // ------------------------------------------------------- publishing to several sites

  /** Second pass: sites in order, ending at the first refusal. */
  function PublishAll(env: Env, s: State, ps: seq<Publication>): (State, Option<Error>)
    decreases |ps|
  {
    if ps == [] then (s, None)
    else
      var (s', r) := PublishSite(env, s, ps[0]);
      if r.Err? then (s', Some(r.error)) else PublishAll(env, s', ps[1..])
  }

  predicate DifferentPublications(a: Publication, b: Publication) {
    a.site != b.site && a.key != b.key && a.draft != b.draft && a.release != b.release && a.task != b.task
  }

  /** One request to several sites, with generated identifiers that are new. */
  predicate Publications(s: State, ps: seq<Publication>) {
    && (forall i :: 0 <= i < |ps| ==> FreshPublication(s, ps[i]))
    && (forall i, j :: 0 <= i < j < |ps| ==> DifferentPublications(ps[i], ps[j]))
  }

  lemma {:induction false} InsertedRelease(env: Env, s: State, o: Order, nodes: seq<string>)
    requires o.site in s.sites
    ensures forall i :: 0 <= i < |InsertDesired(env, s, o, nodes).0| ==>
        InsertDesired(env, s, o, nodes).0[i].release == o.release
    decreases |nodes|
  {
    if nodes != [] {
      var d := DesiredFor(env, s, o, nodes[0]);
      if d.Ok? {
        InsertedRelease(env, s.(desired := s.desired + [d.value]), o, nodes[1..]);
      }
    }
  }

  /** Every new document belongs to the release that the request names. */
  predicate NewOnlyFor(s: State, s': State, release: string) {
    && |s.desired| <= |s'.desired|
    && (forall i :: 0 <= i < |s.desired| ==> s'.desired[i].release == s.desired[i].release)
    && (forall i :: |s.desired| <= i < |s'.desired| ==> s'.desired[i].release == release)
  }

  lemma RequestInserts(env: Env, s: State, q: Request)
    ensures NewOnlyFor(s, CreateRelease(env, s, q).0, q.release)
  {
    if ExistingRelease(s, q.key) < 0 && CheckRequest(s, q).None? {
      var d := s.drafts[q.draft];
      var version := NextVersion(s, d.site);
      var bumped := s.(sites := s.sites[d.site := s.sites[d.site].(revision := version)]);
      var o := Order(d.site, q.release, version, q.ambient, d.selection, d.policy, Latest(s.desired, d.site, None));
      InsertedRelease(env, bumped, o, Selected(s, q));
    }
  }

  lemma CommitStaysFresh(s: State, s': State, q: Request, other: Publication)
    requires FreshPublication(s, other) && NewOnlyFor(s, s', q.release)
    requires SameLedger(s, s') || Committed(s, s', q)
    requires q.draft != other.draft && q.key != other.key && q.release != other.release && q.task != other.task
             && q.key !in s.tasks
    ensures FreshPublication(s', other)
  {
  }

  lemma FreshFrame(s: State, s': State, p: Publication)
    requires FreshPublication(s, p) && SameLedger(s, s') && s'.desired == s.desired
    ensures FreshPublication(s', p)
  {
  }

  lemma DraftedStaysFresh(s: State, p: Publication, other: Publication)
    requires p.version in s.versions && FreshPublication(s, other) && p.draft != other.draft
    ensures FreshPublication(Drafted(s, p), other)
  {
  }

  lemma RequestStaysFresh(env: Env, s: State, q: Request, other: Publication)
    requires FreshPublication(s, other)
    requires q.draft != other.draft && q.key != other.key && q.release != other.release && q.task != other.task
             && q.key !in s.tasks
    ensures FreshPublication(CreateRelease(env, s, q).0, other)
  {
    RequestInserts(env, s, q);
    RequestEffect(env, s, q);
    CommitStaysFresh(s, CreateRelease(env, s, q).0, q, other);
  }

  lemma PublishStaysFresh(env: Env, s: State, p: Publication, other: Publication)
    requires FreshPublication(s, p) && FreshPublication(s, other) && DifferentPublications(p, other)
    ensures FreshPublication(PublishSite(env, s, p).0, other)
  {
    if Proceeds(s, p) && Roster(s, p.site) != [] {
      DraftedStaysFresh(s, p, other);
      RequestStaysFresh(env, Drafted(s, p), RequestOf(s, p), other);
      PublishIs(env, s, p);
      var s' := CreateRelease(env, Drafted(s, p), RequestOf(s, p)).0;
      FreshFrame(s', Compensated(s, s', p.site), other);
    } else {
      PublishOtherwise(env, s, p);
      FreshFrame(s, PublishSite(env, s, p).0, other);
    }
  }

  lemma RestStaysFresh(env: Env, s: State, ps: seq<Publication>)
    requires ps != [] && Publications(s, ps)
    ensures Publications(PublishSite(env, s, ps[0]).0, ps[1..])
  {
    var rest := ps[1..];
    forall i | 0 <= i < |rest|
      ensures FreshPublication(PublishSite(env, s, ps[0]).0, rest[i])
    {
      assert rest[i] == ps[i + 1] && DifferentPublications(ps[0], ps[i + 1]);
      PublishStaysFresh(env, s, ps[0], ps[i + 1]);
    }
    forall i, j | 0 <= i < j < |rest|
      ensures DifferentPublications(rest[i], rest[j])
    {
      assert rest[i] == ps[i + 1] && rest[j] == ps[j + 1];
    }
  }

  /** A request to several sites, stopped anywhere, keeps all invariants. */
  lemma {:induction false} PublishAllKeepsInv(env: Env, s: State, ps: seq<Publication>)
    requires WellBehaved(env) && Inv(env, s) && Ledger(s) && Publications(s, ps)
    ensures Inv(env, PublishAll(env, s, ps).0) && Ledger(PublishAll(env, s, ps).0)
    decreases |ps|
  {
    if ps != [] {
      PublishKeepsInv(env, s, ps[0]);
      PublishKeepsLedger(env, s, ps[0]);
      RestStaysFresh(env, s, ps);
      PublishAllKeepsInv(env, PublishSite(env, s, ps[0]).0, ps[1..]);
    }
  }

  // ---------------------------------------------------------------------------- handlers

  /** For distinct nodes the outcome is as the release asks. */
  ghost predicate Says(env: Env, s: State, outcome: (State, Option<Error>), site: string, nodes: seq<string>,
                       release: string, ambient: Bundle, selection: Option<Selection>, policy: Option<Json<Key>>)
    requires site in s.sites
  {
    Distinct(nodes) ==> ReleaseSays(env, s, outcome.0, outcome.1, site, nodes, release, ambient, selection, policy)
  }

  lemma CreatedSays(env: Env, s: State, site: string, nodes: seq<string>, release: string, ambient: Bundle,
                    selection: Option<Selection>, policy: Option<Json<Key>>)
    requires site in s.sites
    ensures Says(env, s, CreateDesired(env, s, site, nodes, release, ambient, selection, policy), site, nodes,
                 release, ambient, selection, policy)
  {
    if Distinct(nodes) {
      CreateDesiredSays(env, s, site, nodes, release, ambient, selection, policy);
    }
  }

  class Backend {
    const env: Env
    var state: State

    constructor (env: Env)
      ensures this.env == env && state == EMPTY && Inv(env, state) && Ledger(state)
    {
      this.env := env;
      state := EMPTY;
    }

    /** `create_desired_release`. */
    method CreateDesiredRelease(site: string, nodes: seq<string>, release: string, ambient: Bundle,
                                selection: Option<Selection>, policy: Option<Json<Key>>)
      returns (failure: Option<Error>)
      requires site in state.sites
      modifies this
      ensures (state, failure) == CreateDesired(env, old(state), site, nodes, release, ambient, selection, policy)
      ensures Says(env, old(state), (state, failure), site, nodes, release, ambient, selection, policy)
    {
      CreatedSays(env, state, site, nodes, release, ambient, selection, policy);
      var previous := Latest(state.desired, site, None);
      var version := NextVersion(state, site);
      state := state.(sites := state.sites[site := state.sites[site].(revision := version)]);
      failure := InsertDocuments(Order(site, release, version, ambient, selection, policy, previous), nodes);
    }

    /** Its loop: a document for each node, ending at the first that cannot be built. */
    method InsertDocuments(order: Order, nodes: seq<string>) returns (failure: Option<Error>)
      requires order.site in state.sites
      modifies this
      ensures var (batch, problem) := InsertDesired(env, old(state), order, nodes);
              state == old(state).(desired := old(state).desired + batch) && failure == problem
    {
      ghost var start := state;
      ghost var all := InsertDesired(env, start, order, nodes);
      ghost var batch: seq<Desired> := [];
      assert start.desired + batch == start.desired && nodes[0..] == nodes && batch + all.0 == all.0;
      for i := 0 to |nodes|
        invariant state == start.(desired := start.desired + batch)
        invariant all == Continued(batch, InsertDesired(env, state, order, nodes[i..]))
      {
        var item := DesiredFor(env, state, order, nodes[i]);
        InsertTurn(env, state, order, nodes, i, batch);
        if item.Err? {
          return Some(item.error);
        }
        Regroup(start.desired, batch, item.value);
        state := state.(desired := state.desired + [item.value]);
        batch := batch + [item.value];
      }
      assert nodes[|nodes|..] == [] && batch + [] == batch;
      failure := None;
    }

    /** `_publish_subscription_version`: every target is checked before any binding moves. */
    method PublishSubscriptionVersion(ps: seq<Publication>) returns (failure: Option<Error>)
      requires WellBehaved(env) && Inv(env, state) && Ledger(state) && Publications(state, ps)
      modifies this
      ensures Inv(env, state) && Ledger(state)
      ensures Prechecked(old(state), ps, PrecheckAll(old(state), ps))
      ensures PrecheckAll(old(state), ps).Some? ==> state == old(state) && failure == PrecheckAll(old(state), ps)
      ensures PrecheckAll(old(state), ps).None? ==> (state, failure) == PublishAll(env, old(state), ps)
    {
      PublishAllKeepsInv(env, state, ps);
      PrecheckAllExactly(state, ps);
      for i := 0 to |ps|
        invariant state == old(state) && PrecheckAll(state, ps[..i]).None?
      {
        var problem := Precheck(state, ps[i]);
        TakeOneMore(ps, i);
        if problem.Some? {
          PrecheckStops(state, ps, i);
          return problem;
        }
      }
      assert ps[..|ps|] == ps;
      for i := 0 to |ps|
        invariant PublishAll(env, old(state), ps) == PublishAll(env, state, ps[i..])
      {
        assert ps[i..][0] == ps[i] && ps[i..][1..] == ps[i + 1..];
        var (next, result) := PublishSite(env, state, ps[i]);
        state := next;
        if result.Err? {
          return Some(result.error);
        }
      }
      assert ps[|ps|..] == [];
      failure := None;
    }

    /** `agent_ack`. */
    method AgentAck(ack: Ack, version: int, hash: string) returns (outcome: AckOutcome)
      requires Ledger(state)
      modifies this
      ensures (state, outcome) == Acknowledge(old(state), ack, version, hash)
      ensures AckDecision(old(state), ack, version, hash, outcome) && AckEffect(old(state), state, ack, outcome)
      ensures Ledger(state)
    {
      AckKeepsLedger(state, ack, version, hash);
      AcknowledgeDecides(state, ack, version, hash);
      AcknowledgeChanges(state, ack, version, hash);
      if HighestSequence(state.acks, ack.node) == Some(ack.sequence) {
        return Duplicate;
      }
      var i := ReleaseById(state.releases, ack.release);
      if i < 0 || ack.node !in state.releases[i].nodes {
        return Refused(NotAssigned);
      }
      var d := DesiredOf(state.desired, ack.release, ack.node);
      if d < 0 {
        return Refused(DesiredNotFound);
      }
      if version != state.desired[d].version || hash != state.desired[d].stored.bundleHash {
        return Refused(AckMismatch);
      }
      state := state.(acks := state.acks + [ack]);
      var release := state.releases[i];
      var latest := LatestAckPerNode(AcksOf(state.acks, ack.release));
      if AllIn(release.nodes, latest) {
        release := release.(status := if AllGood(release.nodes, latest) then Succeeded else Failed);
      }
      state := state.(releases := state.releases[i := release]);
      outcome := Accepted;
    }

    /** `agent_desired`. */
    method AgentDesired(site: string, node: string, version: int, hash: string) returns (response: Response)
      requires WellBehaved(env) && Inv(env, state)
      modifies this
      ensures (state, response) == Poll(env, old(state), site, node, version, hash)
      ensures Answers(old(state), state, site, node, version, hash, response)
      ensures Inv(env, state)
    {
      PollKeepsInv(env, state, site, node, version, hash);
      PollAnswers(env, state, site, node, version, hash);
      var i := LatestIndex(state.desired, site, Some(node));
      if i < 0 {
        return Response(false, None, None);
      }
      var desired := state.desired[i];
      desired := desired.(stored := Repair(env.crypto, env.secret, env.tags, state.blobs, desired.stored));
      state := state.(desired := state.desired[i := desired]);
      var stale := desired.version > version || desired.stored.bundleHash != hash;
      response := Response(stale, Some(desired.release), if stale then Some(desired.stored.bundle) else None);
    }
  }

  function Continued(batch: seq<Desired>, rest: (seq<Desired>, Option<Error>)): (seq<Desired>, Option<Error>) {
    (batch + rest.0, rest.1)
  }

  /** One turn of the loop over the remaining nodes. */
  lemma InsertTurn(env: Env, s: State, o: Order, nodes: seq<string>, i: nat, batch: seq<Desired>)
    requires o.site in s.sites && i < |nodes|
    ensures var item := DesiredFor(env, s, o, nodes[i]);
            Continued(batch, InsertDesired(env, s, o, nodes[i..])) ==
              if item.Err? then (batch, Some(item.error))
              else Continued(batch + [item.value],
                InsertDesired(env, s.(desired := s.desired + [item.value]), o, nodes[i + 1..]))
  {
    assert nodes[i..][0] == nodes[i] && nodes[i..][1..] == nodes[i + 1..];
    var item := DesiredFor(env, s, o, nodes[i]);
    if item.Err? {
      assert batch + [] == batch;
    } else {
      var rest := InsertDesired(env, s.(desired := s.desired + [item.value]), o, nodes[i + 1..]);
      assert batch + ([item.value] + rest.0) == (batch + [item.value]) + rest.0;
    }
  }

  lemma Regroup(a: seq<Desired>, b: seq<Desired>, d: Desired)
    ensures a + b + [d] == a + (b + [d])
  {
  }

  lemma {:induction false} PrecheckStops(s: State, ps: seq<Publication>, i: nat)
    requires i < |ps| && PrecheckAll(s, ps[..i]).None? && Precheck(s, ps[i]).Some?
    ensures PrecheckAll(s, ps) == Precheck(s, ps[i])
  {
    if i + 1 < |ps| {
      var front := ps[..|ps| - 1];
      assert front[..i] == ps[..i];
      PrecheckStops(s, front, i);
    } else {
      assert ps[..|ps| - 1] == ps[..i];
    }
  }
}
