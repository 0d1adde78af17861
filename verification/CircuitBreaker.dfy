/** Probe circuits (`probes.py`) and the alerts they raise (`alerts.py`).  Times are microseconds. */
module CircuitBreaker {
  import opened Strings

  datatype State = Closed | Open | HalfOpen

  datatype Circuit = Circuit(state: State, failures: nat, successes: nat,
                             openedAt: Option<int>, halfOpenAt: Option<int>)

  datatype Alert = Alert(node: string, firstSeen: int, lastSeen: int, resolvedAt: Option<int>)

  datatype NodeStatus = Unknown | AllClosed | Recovering | SomeOpen

  type Key = (string, string)

  const FAILURE_THRESHOLD: nat := 3
  const RECOVERY_SUCCESS_THRESHOLD: nat := 2
  const COOLDOWN: int := 60_000_000
  const NEW := Circuit(Closed, 0, 0, None, None)

  // ---------------------------------------------------------------------- one circuit

  /** An open circuit is tried again once the cooldown has passed. */
  function Cooled(c: Circuit, now: int): Circuit {
    if c.state == Open && c.openedAt.Some? && now - c.openedAt.value >= COOLDOWN then
      c.(state := HalfOpen, halfOpenAt := Some(now), successes := 0)
    else c
  }

  function Advanced(c: Circuit, success: bool, now: int): Circuit {
    var d := Cooled(c, now);
    if success then
      var e := d.(failures := 0, successes := d.successes + 1);
      if e.state == HalfOpen && e.successes >= RECOVERY_SUCCESS_THRESHOLD then
        e.(state := Closed, openedAt := None, halfOpenAt := None)
      else e
    else
      var e := d.(successes := 0, failures := d.failures + 1);
      if e.state == HalfOpen || (e.state == Closed && e.failures >= FAILURE_THRESHOLD) then
        e.(state := Open, openedAt := Some(now), halfOpenAt := None)
      else e
  }

  datatype Sample = Sample(success: bool, at: int)

  /** The circuit after the given samples. */
  function After(samples: seq<Sample>): Circuit {
    if samples == [] then NEW
    else
      var last := samples[|samples| - 1];
      Advanced(After(samples[..|samples| - 1]), last.success, last.at)
  }

  /** How many samples at the end are failures. */
  function TrailingFailures(samples: seq<Sample>): nat {
    if samples == [] || samples[|samples| - 1].success then 0
    else TrailingFailures(samples[..|samples| - 1]) + 1
  }

  /** The samples end in a success that lies at least the cooldown after `since`. */
  predicate EndsInLateSuccess(samples: seq<Sample>, since: int) {
    && samples != []
    && samples[|samples| - 1].success
    && samples[|samples| - 1].at >= since + COOLDOWN
  }

  /** When the circuit opened, told from the samples alone, without counters or a half-open state:
      closed, it opens at the third failure in a row; open, it closes at the second of two successive
      late successes, and any late failure opens it anew. */
  function OpeningTime(samples: seq<Sample>): Option<int> {
    if samples == [] then None
    else
      var init, last := samples[..|samples| - 1], samples[|samples| - 1];
      match OpeningTime(init)
      case None => if TrailingFailures(samples) == FAILURE_THRESHOLD then Some(last.at) else None
      case Some(since) =>
        if EndsInLateSuccess(samples, since) && EndsInLateSuccess(init, since) then None
        else if !last.success && last.at >= since + COOLDOWN then Some(last.at)
        else Some(since)
  }

  predicate Steady(samples: seq<Sample>) {
    forall i, j :: 0 <= i < j < |samples| ==> samples[i].at <= samples[j].at
  }

  /** What every stored circuit satisfies, whatever the clock says. */
  predicate Stored(c: Circuit) {
    && (c.openedAt.Some? <==> c.state != Closed)
    && (c.halfOpenAt.Some? <==> c.state == HalfOpen)
    && (c.state == HalfOpen ==> c.successes == 1 && c.failures == 0)
    && (c.state == Closed ==> c.failures < FAILURE_THRESHOLD)
  }

  lemma AdvancedStored(c: Circuit, success: bool, now: int)
    requires Stored(c)
    ensures Stored(Advanced(c, success, now))
    ensures Advanced(c, success, now).failures == if success then 0 else c.failures + 1
  {
  }

  lemma {:induction false} AfterStored(samples: seq<Sample>)
    ensures Stored(After(samples)) && After(samples).failures == TrailingFailures(samples)
  {
    if samples != [] {
      var last := samples[|samples| - 1];
      AfterStored(samples[..|samples| - 1]);
      AdvancedStored(After(samples[..|samples| - 1]), last.success, last.at);
    }
  }

  /** For a steady clock the circuit is what the samples say: open since `OpeningTime`, and half open
      exactly when the last sample is the first late success. */
  lemma {:induction false} CircuitTellsSamples(samples: seq<Sample>)
    requires Steady(samples)
    ensures After(samples).openedAt == OpeningTime(samples)
    ensures After(samples).state ==
            match OpeningTime(samples)
            case None => Closed
            case Some(since) => if EndsInLateSuccess(samples, since) then HalfOpen else Open
    ensures OpeningTime(samples).Some? ==> samples != [] && OpeningTime(samples).value <= samples[|samples| - 1].at
    ensures After(samples).state == HalfOpen ==> After(samples).halfOpenAt == Some(samples[|samples| - 1].at)
  {
    if samples != [] {
      var n := |samples| - 1;
      var init := samples[..n];
      CircuitTellsSamples(init);
      AfterStored(init);
      AfterStored(samples);
      assert n > 0 ==> init[n - 1].at <= samples[n].at;
    }
  }

  /** A closed circuit opens exactly at the third failure in a row. */
  lemma OpensAtThirdFailure(samples: seq<Sample>, next: Sample)
    requires After(samples).state == Closed
    ensures After(samples + [next]).state
            == if TrailingFailures(samples + [next]) == FAILURE_THRESHOLD then Open else Closed
    ensures TrailingFailures(samples + [next]) <= FAILURE_THRESHOLD
  {
    AfterStored(samples);
    AfterStored(samples + [next]);
    assert (samples + [next])[..|samples|] == samples;
  }

  /** A circuit that is not closed closes exactly at the second of two successive successes that both
      lie at least 60 seconds after its opening. */
  lemma ClosesAtSecondLateSuccess(samples: seq<Sample>, next: Sample)
    requires Steady(samples + [next]) && After(samples).state != Closed
    ensures OpeningTime(samples).Some?
    ensures After(samples + [next]).state == Closed
            <==> EndsInLateSuccess(samples, OpeningTime(samples).value)
                 && EndsInLateSuccess(samples + [next], OpeningTime(samples).value)
  {
    var all := samples + [next];
    assert all[..|samples|] == samples;
    assert Steady(samples) by {
      forall i, j | 0 <= i < j < |samples| ensures samples[i].at <= samples[j].at {
        assert all[i].at <= all[j].at;
      }
    }
    CircuitTellsSamples(samples);
    CircuitTellsSamples(all);
  }

  // ------------------------------------------------------- circuits, alerts and node status

  datatype Probes = Probes(circuits: map<Key, Circuit>, alerts: map<string, Alert>, statuses: map<string, NodeStatus>)

  function Fingerprint(k: Key): string {
    "probe:" + k.0 + ":" + k.1
  }

  /** `set_alert`: open, refresh or resolve. */
  function AlertSet(alerts: map<string, Alert>, fingerprint: string, node: string, active: bool,
                    now: int): map<string, Alert> {
    if active then
      var first := if fingerprint in alerts then alerts[fingerprint].firstSeen else now;
      alerts[fingerprint := Alert(node, first, now, None)]
    else if fingerprint in alerts && alerts[fingerprint].resolvedAt.None? then
      alerts[fingerprint := alerts[fingerprint].(resolvedAt := Some(now), lastSeen := now)]
    else alerts
  }

  function CircuitOf(circuits: map<Key, Circuit>, k: Key): Circuit {
    if k in circuits then circuits[k] else NEW
  }

  predicate HasOpen(circuits: map<Key, Circuit>, node: string) {
    exists k :: k in circuits && k.0 == node && circuits[k].state == Open
  }

  function StatusAfter(circuits: map<Key, Circuit>, node: string, c: Circuit): NodeStatus {
    if HasOpen(circuits, node) then SomeOpen else if c.state == Closed then AllClosed else Recovering
  }

  /** `record_probe_result`. */
  function Recorded(p: Probes, k: Key, s: Sample): Probes {
    var c := Advanced(CircuitOf(p.circuits, k), s.success, s.at);
    var circuits := p.circuits[k := c];
    Probes(circuits,
           AlertSet(p.alerts, Fingerprint(k), k.0, c.state == Open, s.at),
           p.statuses[k.0 := StatusAfter(circuits, k.0, c)])
  }

  class ProbeStore {
    var circuits: map<Key, Circuit>
    var alerts: map<string, Alert>
    var statuses: map<string, NodeStatus>

    constructor ()
      ensures View() == Probes(map[], map[], map[])
    {
      circuits, alerts, statuses := map[], map[], map[];
    }

    function View(): Probes
      reads this
    {
      Probes(circuits, alerts, statuses)
    }

    method SetAlert(fingerprint: string, node: string, active: bool, now: int)
      modifies this`alerts
      ensures alerts == AlertSet(old(alerts), fingerprint, node, active, now)
    {
      if active {
        if fingerprint !in alerts {
          alerts := alerts[fingerprint := Alert(node, now, now, None)];
          return;
        }
        var existing := alerts[fingerprint];
        existing := existing.(node := node, lastSeen := now);
        existing := existing.(resolvedAt := None);
        alerts := alerts[fingerprint := existing];
        return;
      }
      if fingerprint in alerts && alerts[fingerprint].resolvedAt.None? {
        alerts := alerts[fingerprint := alerts[fingerprint].(resolvedAt := Some(now), lastSeen := now)];
      }
    }

    method RecordProbeResult(k: Key, success: bool, now: int)
      modifies this
      ensures View() == Recorded(old(View()), k, Sample(success, now))
    {
      var circuit := if k in circuits then circuits[k] else NEW;
      circuit := AdvanceCircuit(circuit, success, now);
      circuits := circuits[k := circuit];
      SetAlert(Fingerprint(k), k.0, circuit.state == Open, now);
      var open := HasOpen(circuits, k.0);
      statuses := statuses[k.0 := if open then SomeOpen else if circuit.state == Closed then AllClosed else Recovering];
    }
  }

  /** The field by field update of one circuit. */
  method AdvanceCircuit(before: Circuit, success: bool, now: int) returns (circuit: Circuit)
    ensures circuit == Advanced(before, success, now)
  {
    circuit := before;
    if circuit.state == Open && circuit.openedAt.Some? && now - circuit.openedAt.value >= COOLDOWN {
      circuit := circuit.(state := HalfOpen, halfOpenAt := Some(now));
      circuit := circuit.(successes := 0);
    }
    if success {
      circuit := circuit.(failures := 0);
      circuit := circuit.(successes := circuit.successes + 1);
      if circuit.state == HalfOpen && circuit.successes >= RECOVERY_SUCCESS_THRESHOLD {
        circuit := circuit.(state := Closed, openedAt := None, halfOpenAt := None);
      }
    } else {
      circuit := circuit.(successes := 0);
      circuit := circuit.(failures := circuit.failures + 1);
      if circuit.state == HalfOpen || (circuit.state == Closed && circuit.failures >= FAILURE_THRESHOLD) {
        circuit := circuit.(state := Open, openedAt := Some(now), halfOpenAt := None);
      }
    }
  }

  datatype Event = Event(key: Key, sample: Sample)

  function Run(events: seq<Event>): Probes {
    if events == [] then Probes(map[], map[], map[])
    else
      var last := events[|events| - 1];
      Recorded(Run(events[..|events| - 1]), last.key, last.sample)
  }

  /** The samples of one circuit, in order. */
  function SamplesOf(events: seq<Event>, k: Key): seq<Sample> {
    if events == [] then []
    else
      var rest, last := SamplesOf(events[..|events| - 1], k), events[|events| - 1];
      if last.key == k then rest + [last.sample] else rest
  }

  predicate IsOpen(p: Probes, k: Key) {
    k in p.circuits && p.circuits[k].state == Open
  }

  predicate AlertOpen(p: Probes, k: Key) {
    Fingerprint(k) in p.alerts && p.alerts[Fingerprint(k)].resolvedAt.None?
  }

  /** Circuits do not disturb each other: each is what its own samples make of it. */
  lemma {:induction false} CircuitsAreSeparate(events: seq<Event>, k: Key)
    ensures CircuitOf(Run(events).circuits, k) == After(SamplesOf(events, k))
    ensures k in Run(events).circuits <==> SamplesOf(events, k) != []
  {
    if events != [] {
      var n := |events| - 1;
      CircuitsAreSeparate(events[..n], k);
      var samples := SamplesOf(events[..n], k);
      assert (samples + [events[n].sample])[..|samples|] == samples;
    }
  }

  /** A node reads "open" exactly while one of its circuits is open. */
  lemma {:induction false} StatusTellsCircuits(events: seq<Event>, node: string)
    ensures var p := Run(events);
            (node in p.statuses && p.statuses[node] == SomeOpen) <==> HasOpen(p.circuits, node)
  {
    if events != [] {
      var n := |events| - 1;
      StatusTellsCircuits(events[..n], node);
      if node != events[n].key.0 {
        OtherNode(Run(events[..n]), events[n].key, events[n].sample, node);
      }
    }
  }

  lemma OtherNode(p: Probes, k: Key, s: Sample, node: string)
    requires node != k.0
    ensures HasOpen(Recorded(p, k, s).circuits, node) <==> HasOpen(p.circuits, node)
  {
    var next := Recorded(p, k, s).circuits;
    if HasOpen(p.circuits, node) {
      var j :| j in p.circuits && j.0 == node && p.circuits[j].state == Open;
      assert j in next && next[j] == p.circuits[j];
    }
    if HasOpen(next, node) {
      var j :| j in next && j.0 == node && next[j].state == Open;
      assert j in p.circuits && next[j] == p.circuits[j];
    }
  }

  /** A node without an open circuit reads "closed" or "recovering" by the circuit it reported on last; one
      that has never reported has no status. */
  lemma {:induction false} StatusTellsLastCircuit(events: seq<Event>, node: string, i: int)
    requires LastOfNode(events, node, i)
    ensures var p := Run(events);
            && (node in p.statuses <==> i >= 0)
            && (i >= 0 ==>
                  && events[i].key in p.circuits
                  && p.statuses[node] == if HasOpen(p.circuits, node) then SomeOpen
                                         else if p.circuits[events[i].key].state == Closed then AllClosed
                                         else Recovering)
  {
    if events != [] {
      var n := |events| - 1;
      if events[n].key.0 != node {
        assert LastOfNode(events[..n], node, i);
        StatusTellsLastCircuit(events[..n], node, i);
        OtherNode(Run(events[..n]), events[n].key, events[n].sample, node);
      }
    }
  }

  /** The last report on a circuit of the node, negative without any. */
  predicate LastOfNode(events: seq<Event>, node: string, i: int) {
    && i < |events| && (i >= 0 ==> events[i].key.0 == node)
    && forall j :: 0 <= j < |events| && i < j ==> events[j].key.0 != node
  }

  predicate Within(events: seq<Event>, keys: set<Key>) {
    forall i :: 0 <= i < |events| ==> events[i].key in keys
  }

  /** No two of the circuits share a fingerprint. */
  predicate Distinct(keys: set<Key>) {
    forall a, b :: a in keys && b in keys && Fingerprint(a) == Fingerprint(b) ==> a == b
  }

  ghost predicate AlertsRight(keys: set<Key>) {
    forall events, k :: Within(events, keys) && k in keys ==> (AlertOpen(Run(events), k) <==> IsOpen(Run(events), k))
  }

  lemma {:induction false} AlertTellsCircuit(events: seq<Event>, keys: set<Key>, k: Key)
    requires Distinct(keys) && Within(events, keys) && k in keys
    ensures AlertOpen(Run(events), k) <==> IsOpen(Run(events), k)
  {
    if events != [] {
      var n := |events| - 1;
      AlertTellsCircuit(events[..n], keys, k);
      if events[n].key != k {
        assert Fingerprint(events[n].key) != Fingerprint(k);
      }
    }
  }

  // ------------------------------------------------------------------- alerts over a run

  /** The circuit is open after its first `i + 1` samples. */
  predicate OpenAfter(samples: seq<Sample>, i: nat)
    requires i < |samples|
  {
    After(samples[..i + 1]).state == Open
  }

  /** The first and the last sample that left the circuit open. */
  predicate OpenFromTo(samples: seq<Sample>, first: nat, last: nat) {
    && first <= last < |samples| && OpenAfter(samples, first) && OpenAfter(samples, last)
    && (forall i :: 0 <= i < first ==> !OpenAfter(samples, i))
    && (forall i :: last < i < |samples| ==> !OpenAfter(samples, i))
  }

  /** Seen first when the circuit first opened, and last at its last sample in the open state or, when resolved since,
      at the first sample after that. */
  function AlertOf(samples: seq<Sample>, node: string, first: nat, last: nat): Alert
    requires first <= last < |samples|
  {
    if last == |samples| - 1 then Alert(node, samples[first].at, samples[last].at, None)
    else Alert(node, samples[first].at, samples[last + 1].at, Some(samples[last + 1].at))
  }

  ghost predicate AlertTells(samples: seq<Sample>, node: string, a: Alert) {
    exists first: nat, last: nat :: OpenFromTo(samples, first, last) && a == AlertOf(samples, node, first, last)
  }

  ghost predicate AlertFits(samples: seq<Sample>, node: string, fingerprint: string, alerts: map<string, Alert>) {
    if fingerprint in alerts then AlertTells(samples, node, alerts[fingerprint])
    else forall i :: 0 <= i < |samples| ==> !OpenAfter(samples, i)
  }

  lemma OpenEarlier(samples: seq<Sample>, s: Sample)
    ensures forall i :: 0 <= i < |samples| ==> (OpenAfter(samples + [s], i) <==> OpenAfter(samples, i))
    ensures OpenAfter(samples + [s], |samples|) <==> After(samples + [s]).state == Open
  {
    forall i | 0 <= i < |samples| ensures OpenAfter(samples + [s], i) <==> OpenAfter(samples, i) {
      assert (samples + [s])[..i + 1] == samples[..i + 1];
    }
    assert (samples + [s])[..|samples| + 1] == samples + [s];
  }

  lemma OpenLonger(samples: seq<Sample>, s: Sample, first: nat, last: nat)
    requires OpenFromTo(samples, first, last)
    ensures OpenFromTo(samples + [s], first, if OpenAfter(samples + [s], |samples|) then |samples| else last)
  {
    OpenEarlier(samples, s);
  }

  lemma OpensNow(samples: seq<Sample>, s: Sample)
    requires OpenAfter(samples + [s], |samples|) && forall i :: 0 <= i < |samples| ==> !OpenAfter(samples, i)
    ensures OpenFromTo(samples + [s], |samples|, |samples|)
  {
    OpenEarlier(samples, s);
  }

  /** An alert after one more sample of its circuit. */
  function Refreshed(a: Alert, open: bool, node: string, now: int): Alert {
    if open then Alert(node, a.firstSeen, now, None)
    else if a.resolvedAt.None? then a.(resolvedAt := Some(now), lastSeen := now)
    else a
  }

  lemma RefreshedTells(samples: seq<Sample>, s: Sample, node: string, a: Alert)
    requires AlertTells(samples, node, a)
    ensures AlertTells(samples + [s], node, Refreshed(a, OpenAfter(samples + [s], |samples|), node, s.at))
  {
    var all, n := samples + [s], |samples|;
    var first: nat, last: nat :| OpenFromTo(samples, first, last) && a == AlertOf(samples, node, first, last);
    OpenLonger(samples, s, first, last);
    assert all[n] == s && all[first] == samples[first] && all[last] == samples[last];
    assert last + 1 < n ==> all[last + 1] == samples[last + 1];
  }

  /** One more sample of a circuit and what `set_alert` makes of it. */
  lemma AlertFollows(samples: seq<Sample>, s: Sample, node: string, fingerprint: string, alerts: map<string, Alert>)
    requires AlertFits(samples, node, fingerprint, alerts)
    ensures AlertFits(samples + [s], node, fingerprint,
                      AlertSet(alerts, fingerprint, node, After(samples + [s]).state == Open, s.at))
  {
    OpenEarlier(samples, s);
    if fingerprint in alerts {
      RefreshedTells(samples, s, node, alerts[fingerprint]);
    } else if OpenAfter(samples + [s], |samples|) {
      OpensNow(samples, s);
      assert AlertTells(samples + [s], node, AlertOf(samples + [s], node, |samples|, |samples|));
    }
  }

  /** Over every run the alert of a circuit tells when it opened, was last seen open and recovered, as long as
      fingerprints are distinct. */
  lemma {:induction false} AlertTellsSamples(events: seq<Event>, keys: set<Key>, k: Key)
    requires Distinct(keys) && Within(events, keys) && k in keys
    ensures AlertFits(SamplesOf(events, k), k.0, Fingerprint(k), Run(events).alerts)
  {
    if events != [] {
      var n := |events| - 1;
      AlertTellsSamples(events[..n], keys, k);
      if events[n].key == k {
        CircuitsAreSeparate(events[..n], k);
        CircuitsAreSeparate(events, k);
        AlertFollows(SamplesOf(events[..n], k), events[n].sample, k.0, Fingerprint(k), Run(events[..n]).alerts);
      } else {
        assert Fingerprint(events[n].key) != Fingerprint(k);
      }
    }
  }

  /** Two circuits with one fingerprint: the second, still closed, resolves the alert of the first. */
  lemma CollisionHidesCircuit(a: Key, b: Key)
    requires a != b && Fingerprint(a) == Fingerprint(b)
    ensures exists events :: Within(events, {a, b}) && IsOpen(Run(events), a) && !AlertOpen(Run(events), a)
  {
    var down := Event(a, Sample(false, 0));
    var three := [down, down, down];
    ThreeFailuresOpen(a, b);
    var events := three + [Event(b, Sample(true, 0))];
    assert events[..3] == three;
    assert Within(events, {a, b});
    assert IsOpen(Run(events), a);
  }

  lemma ThreeFailures(f: Sample)
    requires !f.success
    ensures After([f, f, f]).state == Open
  {
    assert [f, f, f][..2] == [f, f] && [f, f][..1] == [f];
    assert After([f]) == Circuit(Closed, 1, 0, None, None);
    assert After([f, f]) == Circuit(Closed, 2, 0, None, None);
  }

  /** Events of one circuit only. */
  lemma {:induction false} OneCircuitOnly(a: Key, samples: seq<Sample>, events: seq<Event>, k: Key)
    requires |events| == |samples| && forall i :: 0 <= i < |events| ==> events[i] == Event(a, samples[i])
    ensures SamplesOf(events, k) == if k == a then samples else []
  {
    if events != [] {
      InitLast(samples);
      OneCircuitOnly(a, samples[..|samples| - 1], events[..|events| - 1], k);
    }
  }

  lemma ThreeFailuresOpen(a: Key, b: Key)
    requires a != b
    ensures var down := Event(a, Sample(false, 0)); IsOpen(Run([down, down, down]), a)
    ensures var down := Event(a, Sample(false, 0)); CircuitOf(Run([down, down, down]).circuits, b) == NEW
  {
    var f := Sample(false, 0);
    var down := Event(a, f);
    var three := [down, down, down];
    OneCircuitOnly(a, [f, f, f], three, a);
    OneCircuitOnly(a, [f, f, f], three, b);
    ThreeFailures(f);
    CircuitsAreSeparate(three, a);
    CircuitsAreSeparate(three, b);
  }

  /** Over all runs the alert of a circuit is open exactly while the circuit is: this holds of a set of
      circuits if and only if their fingerprints are distinct. */
  lemma AlertsRightExactlyWhenDistinct(keys: set<Key>)
    ensures AlertsRight(keys) <==> Distinct(keys)
  {
    if Distinct(keys) {
      forall events, k | Within(events, keys) && k in keys
        ensures AlertOpen(Run(events), k) <==> IsOpen(Run(events), k)
      {
        AlertTellsCircuit(events, keys, k);
      }
    } else {
      var a, b :| a in keys && b in keys && Fingerprint(a) == Fingerprint(b) && a != b;
      CollisionHidesCircuit(a, b);
      var events :| Within(events, {a, b}) && IsOpen(Run(events), a) && !AlertOpen(Run(events), a);
      assert Within(events, keys);
    }
  }

  /** Node ids without a colon are enough, whatever the tags; with a colon two nodes can collide. */
  lemma ColonFreeNodesAreDistinct(keys: set<Key>)
    requires forall k :: k in keys ==> Free(k.0, ':')
    ensures Distinct(keys)
  {
    forall a, b | a in keys && b in keys && Fingerprint(a) == Fingerprint(b) ensures a == b {
      SameFingerprint(a, b);
    }
  }

  lemma NodeOfFingerprint(k: Key)
    requires Free(k.0, ':')
    ensures Split(Fingerprint(k)[6..], ':')[0] == k.0
    ensures Fingerprint(k)[6 + |k.0| + 1..] == k.1
  {
    assert Fingerprint(k)[6..] == k.0 + [':'] + k.1;
    SplitAt(k.0, k.1, ':');
    SplitFree(k.0, ':');
  }

  lemma SameFingerprint(a: Key, b: Key)
    requires Fingerprint(a) == Fingerprint(b) && Free(a.0, ':') && Free(b.0, ':')
    ensures a == b
  {
    NodeOfFingerprint(a);
    NodeOfFingerprint(b);
  }

  lemma ColonsCollide()
    ensures !Distinct({("edge", "eu:proxy"), ("edge:eu", "proxy")})
  {
    var a: Key, b: Key := ("edge", "eu:proxy"), ("edge:eu", "proxy");
    assert Fingerprint(a) == "probe:edge:eu:proxy" == Fingerprint(b);
    assert |a.0| != |b.0|;
  }
}
