/** The audit hash chain of `audit.py`: appending with clock repair and verifying what is retained. */
module AuditChain {
  import opened Strings

  type Hash = string

  datatype Entry = Entry(eventId: string, actor: string, action: string, target: string,
                         before: string, after: string, outcome: string)

  /** What is hashed: the entry, the link to the previous event and the recorded instant. */
  datatype Payload = Payload(entry: Entry, previousHash: Hash, at: int)

  datatype Event = Event(entry: Entry, previousHash: Hash, immutableHash: Hash, at: int) {
    function Signed(): Payload {
      Payload(entry, previousHash, at)
    }
  }

  ghost predicate CollisionFree(digest: Payload -> Hash) {
    forall a, b :: digest(a) == digest(b) ==> a == b
  }

  // ---------------------------------------------------------------- sorting by instant

  function Insert(e: Event, s: seq<Event>): seq<Event> {
    if s == [] || e.at <= s[0].at then [e] + s else [s[0]] + Insert(e, s[1..])
  }

  /** `find().sort(+at)`. */
  function OldestFirst(s: seq<Event>): seq<Event> {
    if s == [] then [] else Insert(s[0], OldestFirst(s[1..]))
  }

  /** `find().sort(-at).first_or_none()`. */
  function Newest(s: seq<Event>): Option<Event> {
    if s == [] then None
    else
      var rest := Newest(s[1..]);
      if rest.Some? && rest.value.at > s[0].at then rest else Some(s[0])
  }

  predicate Increasing(s: seq<Event>) {
    forall i, j :: 0 <= i < j < |s| ==> s[i].at < s[j].at
  }

  predicate Ascending(s: seq<Event>) {
    forall i, j :: 0 <= i < j < |s| ==> s[i].at <= s[j].at
  }

  lemma {:induction false} InsertIsPermutation(e: Event, s: seq<Event>)
    ensures multiset(Insert(e, s)) == multiset(s) + multiset{e}
  {
    if s == [] || e.at <= s[0].at {
      assert multiset([e] + s) == multiset{e} + multiset(s);
    } else {
      InsertIsPermutation(e, s[1..]);
      assert s == [s[0]] + s[1..];
    }
  }

  lemma InsertMembers(e: Event, s: seq<Event>, x: Event)
    requires x in Insert(e, s)
    ensures x == e || x in s
  {
    InsertIsPermutation(e, s);
    assert x in multiset(Insert(e, s));
  }

  lemma {:induction false} InsertAscending(e: Event, s: seq<Event>)
    requires Ascending(s)
    ensures Ascending(Insert(e, s))
  {
    if s != [] && e.at > s[0].at {
      var rest := Insert(e, s[1..]);
      InsertAscending(e, s[1..]);
      forall j | 0 <= j < |rest|
        ensures s[0].at <= rest[j].at
      {
        InsertMembers(e, s[1..], rest[j]);
      }
    }
  }

  lemma {:induction false} OldestFirstSorts(s: seq<Event>)
    ensures Ascending(OldestFirst(s)) && multiset(OldestFirst(s)) == multiset(s)
  {
    if s != [] {
      OldestFirstSorts(s[1..]);
      InsertAscending(s[0], OldestFirst(s[1..]));
      InsertIsPermutation(s[0], OldestFirst(s[1..]));
      assert s == [s[0]] + s[1..];
    }
  }

  lemma SameLength(a: seq<Event>, b: seq<Event>)
    requires multiset(a) == multiset(b)
    ensures |a| == |b|
  {
    assert |multiset(a)| == |a| && |multiset(b)| == |b|;
  }

  lemma SameFirst(a: seq<Event>, b: seq<Event>)
    requires Increasing(a) && Ascending(b) && multiset(a) == multiset(b) && a != [] && b != []
    ensures a[0] == b[0]
  {
    assert a[0] in multiset(b) && b[0] in multiset(a);
    var i :| 0 <= i < |b| && b[i] == a[0];
    var j :| 0 <= j < |a| && a[j] == b[0];
  }

  lemma WithoutFirst(a: seq<Event>)
    requires a != []
    ensures multiset(a[1..]) == multiset(a) - multiset{a[0]}
  {
    assert a == [a[0]] + a[1..];
  }

  lemma {:induction false} SortedIsUnique(a: seq<Event>, b: seq<Event>)
    requires Increasing(a) && Ascending(b) && multiset(a) == multiset(b)
    ensures a == b
  {
    SameLength(a, b);
    if a != [] {
      SameFirst(a, b);
      WithoutFirst(a);
      WithoutFirst(b);
      SortedIsUnique(a[1..], b[1..]);
    }
  }

  /** Distinct instants make the storage order irrelevant. */
  lemma StorageOrderIsIrrelevant(log: seq<Event>, stored: seq<Event>)
    requires Increasing(log) && multiset(stored) == multiset(log)
    ensures OldestFirst(stored) == log
  {
    OldestFirstSorts(stored);
    SortedIsUnique(log, OldestFirst(stored));
  }

  lemma {:induction false} NewestIsLast(log: seq<Event>)
    requires Increasing(log) && log != []
    ensures Newest(log) == Some(log[|log| - 1])
  {
    if |log| > 1 {
      NewestIsLast(log[1..]);
    }
  }

  // ------------------------------------------------------------------------- verifying

  /** Links inside the window and every hash; the first link is the retained anchor. */
  predicate Linked(log: seq<Event>, digest: Payload -> Hash, i: nat)
    requires i < |log|
  {
    && (i > 0 ==> log[i].previousHash == log[i - 1].immutableHash)
    && digest(log[i].Signed()) == log[i].immutableHash
  }

  predicate Accepted(log: seq<Event>, digest: Payload -> Hash) {
    forall i :: 0 <= i < |log| ==> Linked(log, digest, i)
  }

  datatype Verdict = Valid | PreviousHashMismatch(index: nat) | ImmutableHashMismatch(index: nat)

  /** The loop of `verify_audit_chain`; a failure names the first event that does not fit. */
  method VerifyAuditChain(stored: seq<Event>, digest: Payload -> Hash) returns (verdict: Verdict, count: nat)
    ensures count == |stored|
    ensures verdict == Valid <==> Accepted(OldestFirst(stored), digest)
    ensures verdict != Valid ==>
              var log := OldestFirst(stored);
              var i := verdict.index;
              && i < |log|
              && (forall j :: 0 <= j < i ==> Linked(log, digest, j))
              && (verdict.PreviousHashMismatch? <==> i > 0 && log[i].previousHash != log[i - 1].immutableHash)
  {
    var log := OldestFirst(stored);
    OldestFirstSorts(stored);
    SameLength(log, stored);
    count := |log|;
    var previousHash := if log != [] then log[0].previousHash else "";
    for i := 0 to |log|
      invariant forall j :: 0 <= j < i ==> Linked(log, digest, j)
      invariant i > 0 ==> previousHash == log[i - 1].immutableHash
    {
      var event := log[i];
      if i > 0 && event.previousHash != previousHash {
        assert !Linked(log, digest, i);
        return PreviousHashMismatch(i), count;
      }
      if digest(event.Signed()) != event.immutableHash {
        assert !Linked(log, digest, i);
        return ImmutableHashMismatch(i), count;
      }
      previousHash := event.immutableHash;
    }
    verdict := Valid;
  }

  // ------------------------------------------------------------------------- appending

  /** Microseconds truncated to the stored millisecond, moved past the previous event if needed. */
  function RecordedAt(clock: int, previous: Option<Event>): (t: int)
    ensures previous.Some? ==> t > previous.value.at
  {
    var current := clock - clock % 1000;
    if previous.Some? && current <= previous.value.at then previous.value.at + 1000 else current
  }

  function NewEvent(stored: seq<Event>, entry: Entry, clock: int, digest: Payload -> Hash): Event {
    var previous := Newest(stored);
    var previousHash := if previous.Some? then previous.value.immutableHash else "";
    var at := RecordedAt(clock, previous);
    Event(entry, previousHash, digest(Payload(entry, previousHash, at)), at)
  }

  /** The retained log: its events are strictly ordered in time and verify. */
  predicate Sound(log: seq<Event>, digest: Payload -> Hash) {
    Increasing(log) && Accepted(log, digest)
  }

  /** The clock reading cut to the millisecond. */
  function Cut(clock: int): int {
    clock / 1000 * 1000
  }

  predicate IsNewest(log: seq<Event>, e: Event) {
    e in log && forall f :: f in log ==> f.at <= e.at
  }

  /** The first event has no predecessor, every other one the newest stored. */
  predicate LinksToNewest(log: seq<Event>, event: Event) {
    if log == [] then event.previousHash == ""
    else exists e :: e in log && IsNewest(log, e) && event.previousHash == e.immutableHash
  }

  /** Recorded at the cut reading if that is later than everything stored, else one millisecond after the newest. */
  predicate RecordedWhen(log: seq<Event>, clock: int, at: int) {
    && ((forall e :: e in log ==> e.at < Cut(clock)) ==> at == Cut(clock))
    && ((exists e :: e in log && e.at >= Cut(clock)) ==> exists e :: e in log && IsNewest(log, e) && at == e.at + 1000)
  }

  predicate OnGrid(log: seq<Event>) {
    forall i :: 0 <= i < |log| ==> log[i].at % 1000 == 0
  }

  /** An instant on the millisecond grid, not before the cut reading and after every stored event. */
  predicate Admissible(log: seq<Event>, clock: int, at: int) {
    at % 1000 == 0 && at >= Cut(clock) && forall e :: e in log ==> e.at < at
  }

  ghost predicate EarliestInstant(log: seq<Event>, clock: int, at: int) {
    Admissible(log, clock, at) && forall other :: Admissible(log, clock, other) ==> at <= other
  }

  lemma NewEventIs(log: seq<Event>, entry: Entry, clock: int, digest: Payload -> Hash)
    requires Increasing(log)
    ensures var event := NewEvent(log, entry, clock, digest);
            && LinksToNewest(log, event) && RecordedWhen(log, clock, event.at)
            && event.immutableHash == digest(event.Signed())
  {
    if log != [] {
      NewestIsLast(log);
      var last := log[|log| - 1];
      forall f | f in log ensures f.at <= last.at {
        var i :| 0 <= i < |log| && log[i] == f;
        assert i < |log| - 1 ==> log[i].at < last.at;
      }
      assert IsNewest(log, last);
    }
  }

  lemma NextOnGrid(a: int, b: int)
    requires a % 1000 == 0 && a < b
    ensures b % 1000 == 0 ==> a + 1000 <= b
    ensures b == a + 1000 ==> b % 1000 == 0
  {
  }

  lemma EarliestOnGrid(log: seq<Event>, clock: int, at: int)
    requires RecordedWhen(log, clock, at) && OnGrid(log)
    ensures EarliestInstant(log, clock, at)
  {
    if forall e :: e in log ==> e.at < Cut(clock) {
      assert at == Cut(clock);
    } else {
      var e :| e in log && IsNewest(log, e) && at == e.at + 1000;
      var i :| 0 <= i < |log| && log[i] == e;
      forall other | Admissible(log, clock, other) ensures at <= other {
        NextOnGrid(e.at, other);
      }
      NextOnGrid(e.at, at);
    }
  }

  class AuditLog {
    var stored: seq<Event>

    /** `append_audit` under its lock. */
    method Append(entry: Entry, clock: int, digest: Payload -> Hash) returns (event: Event)
      requires Sound(stored, digest)
      modifies this
      ensures stored == old(stored) + [event] && Sound(stored, digest)
      ensures event.entry == entry && LinksToNewest(old(stored), event) && RecordedWhen(old(stored), clock, event.at)
      ensures OnGrid(old(stored)) ==> OnGrid(stored) && EarliestInstant(old(stored), clock, event.at)
    {
      event := NewEvent(stored, entry, clock, digest);
      AppendStaysSound(stored, entry, clock, digest);
      NewEventIs(stored, entry, clock, digest);
      if OnGrid(stored) {
        EarliestOnGrid(stored, clock, event.at);
        assert forall i :: 0 <= i < |stored| ==> stored[i].at % 1000 == 0;
      }
      stored := stored + [event];
    }
  }

  lemma AppendStaysSound(log: seq<Event>, entry: Entry, clock: int, digest: Payload -> Hash)
    requires Sound(log, digest)
    ensures Sound(log + [NewEvent(log, entry, clock, digest)], digest)
    ensures RecordedWhen(log, clock, NewEvent(log, entry, clock, digest).at)
  {
    NewEventIs(log, entry, clock, digest);
    var event := NewEvent(log, entry, clock, digest);
    var longer := log + [event];
    if log != [] {
      NewestIsLast(log);
    }
    forall i | 0 <= i < |longer|
      ensures Linked(longer, digest, i)
    {
      if i < |log| {
        assert Linked(log, digest, i);
      }
    }
  }

  /** Appending at any clock reading, or expiring the oldest events. */
  datatype Step = Append(entry: Entry, clock: int) | Expire(count: nat)

  function After(log: seq<Event>, step: Step, digest: Payload -> Hash): seq<Event> {
    match step
    case Append(entry, clock) => log + [NewEvent(log, entry, clock, digest)]
    case Expire(count) => if count <= |log| then log[count..] else []
  }

  function Run(log: seq<Event>, steps: seq<Step>, digest: Payload -> Hash): seq<Event>
    decreases |steps|
  {
    if steps == [] then log else Run(After(log, steps[0], digest), steps[1..], digest)
  }

  lemma WindowIsSound(log: seq<Event>, from: nat, to: nat, digest: Payload -> Hash)
    requires Sound(log, digest) && from <= to <= |log|
    ensures Sound(log[from..to], digest)
  {
    var window := log[from..to];
    forall i | 0 <= i < |window|
      ensures Linked(window, digest, i)
    {
      assert Linked(log, digest, from + i);
    }
  }

  /** Whatever the clock did and however much has expired, the log stays strictly ordered and verifies. */
  lemma {:induction false} EveryRunVerifies(log: seq<Event>, steps: seq<Step>, digest: Payload -> Hash)
    requires Sound(log, digest)
    ensures Sound(Run(log, steps, digest), digest)
    decreases |steps|
  {
    if steps != [] {
      match steps[0] {
        case Append(entry, clock) => AppendStaysSound(log, entry, clock, digest);
        case Expire(count) =>
          if count <= |log| {
            WindowIsSound(log, count, |log|, digest);
            assert log[count..|log|] == log[count..];
          }
      }
      EveryRunVerifies(After(log, steps[0], digest), steps[1..], digest);
    }
  }

  /** After any run, every contiguous window of the log, in particular every suffix of it, verifies in
      whatever order it is stored. */
  lemma EveryWindowVerifies(steps: seq<Step>, digest: Payload -> Hash, from: nat, to: nat, stored: seq<Event>)
    requires from <= to <= |Run([], steps, digest)|
    requires multiset(stored) == multiset(Run([], steps, digest)[from..to])
    ensures Accepted(OldestFirst(stored), digest)
  {
    EveryRunVerifies([], steps, digest);
    WindowIsSound(Run([], steps, digest), from, to, digest);
    StorageOrderIsIrrelevant(Run([], steps, digest)[from..to], stored);
  }

  // ------------------------------------------------------------------- tamper evidence

  predicate Suffix(a: seq<Event>, b: seq<Event>) {
    |a| <= |b| && b[|b| - |a|..] == a
  }

  /** The last hash pins the past down: of two accepted logs with the same final hash, the shorter
      is a suffix of the longer. */
  lemma {:induction false} SameHeadSamePast(a: seq<Event>, b: seq<Event>, digest: Payload -> Hash)
    requires CollisionFree(digest) && Accepted(a, digest) && Accepted(b, digest)
    requires a != [] && 0 < |a| <= |b|
    requires a[|a| - 1].immutableHash == b[|b| - 1].immutableHash
    ensures Suffix(a, b)
    decreases |a|
  {
    var m, n := |a| - 1, |b| - 1;
    assert Linked(a, digest, m) && Linked(b, digest, n);
    assert a[m].Signed() == b[n].Signed();
    assert a[m] == b[n];
    if m > 0 {
      var front, longer := a[..m], b[..n];
      assert Accepted(front, digest) by {
        forall i | 0 <= i < |front| ensures Linked(front, digest, i) { assert Linked(a, digest, i); }
      }
      assert Accepted(longer, digest) by {
        forall i | 0 <= i < |longer| ensures Linked(longer, digest, i) { assert Linked(b, digest, i); }
      }
      SameHeadSamePast(front, longer, digest);
      assert b[|b| - |a|..] == longer[|longer| - |front|..] + [b[n]];
      assert a == front + [a[m]];
    } else {
      assert b[n..] == [b[n]];
    }
  }

  /** An accepted log cannot be edited in place: same length and same final hash mean the same log. */
  lemma EditIsDetected(a: seq<Event>, b: seq<Event>, digest: Payload -> Hash)
    requires CollisionFree(digest) && Accepted(a, digest) && Accepted(b, digest) && |a| == |b| && a != []
    requires a[|a| - 1].immutableHash == b[|b| - 1].immutableHash
    ensures a == b
  {
    SameHeadSamePast(a, b, digest);
    assert b[0..] == b;
  }

  /** The events at strictly increasing positions, as left by deleting the others. */
  function Pick(log: seq<Event>, positions: seq<nat>): (picked: seq<Event>)
    requires forall i :: 0 <= i < |positions| ==> positions[i] < |log|
    ensures |picked| == |positions|
  {
    seq(|positions|, i requires 0 <= i < |positions| => log[positions[i]])
  }

  predicate Contiguous(positions: seq<nat>) {
    forall i :: 0 <= i < |positions| - 1 ==> positions[i + 1] == positions[i] + 1
  }

  lemma HashesAreDistinct(log: seq<Event>, i: nat, j: nat, digest: Payload -> Hash)
    requires CollisionFree(digest) && Sound(log, digest) && i < |log| && j < |log|
    requires log[i].immutableHash == log[j].immutableHash
    ensures i == j
  {
    assert Linked(log, digest, i) && Linked(log, digest, j);
    assert log[i].at == log[j].at;
  }

  /** What remains after deletions verifies exactly when it is a contiguous window: removing an
      event from the middle is always noticed, truncation at either end never is. */
  lemma DeletionIsDetectedExactlyInside(log: seq<Event>, positions: seq<nat>, digest: Payload -> Hash)
    requires CollisionFree(digest) && Sound(log, digest)
    requires forall i :: 0 <= i < |positions| ==> positions[i] < |log|
    requires forall i, j :: 0 <= i < j < |positions| ==> positions[i] < positions[j]
    ensures Accepted(Pick(log, positions), digest) <==> Contiguous(positions)
  {
    var picked := Pick(log, positions);
    if Accepted(picked, digest) {
      forall i | 0 <= i < |positions| - 1
        ensures positions[i + 1] == positions[i] + 1
      {
        var p, q := positions[i], positions[i + 1];
        assert Linked(picked, digest, i + 1) && Linked(log, digest, q);
        HashesAreDistinct(log, p, q - 1, digest);
      }
    }
    if Contiguous(positions) {
      forall i | 0 <= i < |picked|
        ensures Linked(picked, digest, i)
      {
        assert Linked(log, digest, positions[i]);
        if i > 0 {
          var h := i - 1;
          assert positions[h + 1] == positions[h] + 1;
        }
      }
    }
  }

  // ------------------------------------------------------------------- clock and expiry

  const TTL: int := 180 * 24 * 3600 * 1_000_000

  /** An append at a clock reading, or a sweep that removes every event expired by then. */
  datatype ClockStep = Record(entry: Entry, clock: int) | Sweep(now: int)

  /** A stored event as the clock sees it: which append it was, when, and which event was the newest one
      stored at that moment. */
  datatype Doc = Doc(number: nat, clock: int, link: Option<nat>)

  function Appends(steps: seq<ClockStep>): nat {
    if steps == [] then 0
    else Appends(steps[..|steps| - 1]) + if steps[|steps| - 1].Record? then 1 else 0
  }

  /** `expires_at` is taken from the clock, not from the repaired instant. */
  predicate Fresh(d: Doc, now: int) {
    d.clock + TTL > now
  }

  function NewDoc(docs: seq<Doc>, number: nat, clock: int): Doc {
    Doc(number, clock, if docs == [] then None else Some(docs[|docs| - 1].number))
  }

  function Unexpired(docs: seq<Doc>, now: int): seq<Doc> {
    if docs == [] then []
    else
      var init, last := Unexpired(docs[..|docs| - 1], now), docs[|docs| - 1];
      if Fresh(last, now) then init + [last] else init
  }

  /** The events left after appends and sweeps, told from the clock readings alone. */
  function Kept(steps: seq<ClockStep>): seq<Doc> {
    if steps == [] then []
    else
      var init := steps[..|steps| - 1];
      match steps[|steps| - 1]
      case Record(_, clock) => Kept(init) + [NewDoc(Kept(init), Appends(init), clock)]
      case Sweep(now) => Unexpired(Kept(init), now)
  }

  /** Each event left was appended while the event left before it was the newest one stored. */
  predicate Seamless(docs: seq<Doc>) {
    forall i :: 0 <= i < |docs| - 1 ==> docs[i + 1].link == Some(docs[i].number)
  }

  /** The stored events themselves, next to what the clock sees of them. */
  datatype Slot = Slot(doc: Doc, event: Event)

  function Docs(slots: seq<Slot>): (docs: seq<Doc>)
    ensures |docs| == |slots| && forall i :: 0 <= i < |slots| ==> docs[i] == slots[i].doc
  {
    seq(|slots|, i requires 0 <= i < |slots| => slots[i].doc)
  }

  function Events(slots: seq<Slot>): (events: seq<Event>)
    ensures |events| == |slots| && forall i :: 0 <= i < |slots| ==> events[i] == slots[i].event
  {
    seq(|slots|, i requires 0 <= i < |slots| => slots[i].event)
  }

  function UnexpiredSlots(slots: seq<Slot>, now: int): seq<Slot> {
    if slots == [] then []
    else
      var init, last := UnexpiredSlots(slots[..|slots| - 1], now), slots[|slots| - 1];
      if Fresh(last.doc, now) then init + [last] else init
  }

  function Appended(slots: seq<Slot>, number: nat, entry: Entry, clock: int, digest: Payload -> Hash): Slot {
    Slot(NewDoc(Docs(slots), number, clock), NewEvent(Events(slots), entry, clock, digest))
  }

  function Stored(steps: seq<ClockStep>, digest: Payload -> Hash): seq<Slot> {
    if steps == [] then []
    else
      var init := steps[..|steps| - 1];
      var slots := Stored(init, digest);
      match steps[|steps| - 1]
      case Record(entry, clock) => slots + [Appended(slots, Appends(init), entry, clock, digest)]
      case Sweep(now) => UnexpiredSlots(slots, now)
  }

  /** Every event ever appended, in order. */
  function Everything(steps: seq<ClockStep>, digest: Payload -> Hash): (all: seq<Event>)
    ensures |all| == Appends(steps)
  {
    if steps == [] then []
    else
      var init := steps[..|steps| - 1];
      var all := Everything(init, digest);
      match steps[|steps| - 1]
      case Record(entry, clock) => all + [NewEvent(Events(Stored(init, digest)), entry, clock, digest)]
      case Sweep(_) => all
  }

  /** Event ids are unique, so entries are. */
  predicate DistinctEntries(steps: seq<ClockStep>) {
    forall i, j :: 0 <= i < j < |steps| && steps[i].Record? && steps[j].Record? ==> steps[i].entry != steps[j].entry
  }

  // What a slot says of its event, given all events appended so far.

  predicate SlotOk(s: Slot, all: seq<Event>) {
    && s.doc.number < |all| && s.event == all[s.doc.number]
    && (s.doc.link.None? ==> s.event.previousHash == "")
    && (s.doc.link.Some? ==>
          s.doc.link.value < s.doc.number && s.event.previousHash == all[s.doc.link.value].immutableHash)
  }

  predicate SlotsOk(slots: seq<Slot>, all: seq<Event>) {
    && (forall i :: 0 <= i < |slots| ==> SlotOk(slots[i], all))
    && (forall i :: 0 < i < |slots| ==> slots[i].doc.link.Some?)
    && Increasing(Events(slots))
  }

  lemma {:induction false} SweptSlots(slots: seq<Slot>, now: int)
    ensures Docs(UnexpiredSlots(slots, now)) == Unexpired(Docs(slots), now)
    ensures forall s :: s in UnexpiredSlots(slots, now) ==> s in slots
  {
    if slots != [] {
      var n := |slots| - 1;
      SweptSlots(slots[..n], now);
      assert Docs(slots)[..n] == Docs(slots[..n]);
    }
  }

  lemma {:induction false} SweptSlotsOk(slots: seq<Slot>, now: int, all: seq<Event>)
    requires SlotsOk(slots, all)
    ensures SlotsOk(UnexpiredSlots(slots, now), all)
    ensures UnexpiredSlots(slots, now) != [] ==>
              slots != [] && (var left := UnexpiredSlots(slots, now);
                              left[|left| - 1].event.at <= slots[|slots| - 1].event.at)
  {
    if slots != [] {
      var n := |slots| - 1;
      var init, last := slots[..n], slots[n];
      assert SlotsOk(init, all);
      SweptSlotsOk(init, now, all);
      var left := UnexpiredSlots(init, now);
      assert init != [] ==> Events(slots)[n - 1].at < Events(slots)[n].at;
      if Fresh(last.doc, now) {
        SlotsSnoc(left, last, all);
      }
    }
  }

  lemma SlotsSnoc(slots: seq<Slot>, last: Slot, all: seq<Event>)
    requires SlotsOk(slots, all) && SlotOk(last, all)
    requires slots != [] ==> last.doc.link.Some? && slots[|slots| - 1].event.at < last.event.at
    ensures SlotsOk(slots + [last], all)
  {
    var longer := slots + [last];
    forall i, j | 0 <= i < j < |longer| ensures Events(longer)[i].at < Events(longer)[j].at {
      assert i < |slots| - 1 ==> Events(slots)[i].at < Events(slots)[|slots| - 1].at;
      assert j < |slots| ==> Events(slots)[i].at < Events(slots)[j].at;
    }
  }

  lemma MoreEvents(slots: seq<Slot>, all: seq<Event>, e: Event)
    requires SlotsOk(slots, all)
    ensures SlotsOk(slots, all + [e])
  {
    forall i | 0 <= i < |slots| ensures SlotOk(slots[i], all + [e]) {
      assert SlotOk(slots[i], all);
    }
  }

  lemma AppendedOk(slots: seq<Slot>, all: seq<Event>, entry: Entry, clock: int, digest: Payload -> Hash)
    requires SlotsOk(slots, all)
    ensures var s := Appended(slots, |all|, entry, clock, digest);
            SlotsOk(slots + [s], all + [s.event])
  {
    var s := Appended(slots, |all|, entry, clock, digest);
    MoreEvents(slots, all, s.event);
    if slots != [] {
      NewestIsLast(Events(slots));
      assert SlotOk(slots[|slots| - 1], all);
    }
    SlotsSnoc(slots, s, all + [s.event]);
  }

  lemma RecordStep(slots: seq<Slot>, docs: seq<Doc>, all: seq<Event>, entry: Entry, clock: int, digest: Payload -> Hash)
    requires SlotsOk(slots, all) && Docs(slots) == docs
    ensures var s := Appended(slots, |all|, entry, clock, digest);
            && SlotsOk(slots + [s], all + [s.event])
            && Docs(slots + [s]) == docs + [NewDoc(docs, |all|, clock)]
  {
    AppendedOk(slots, all, entry, clock, digest);
  }

  lemma {:induction false} StoredOk(steps: seq<ClockStep>, digest: Payload -> Hash)
    ensures SlotsOk(Stored(steps, digest), Everything(steps, digest))
    ensures Docs(Stored(steps, digest)) == Kept(steps)
  {
    if steps != [] {
      var init := steps[..|steps| - 1];
      var slots, all := Stored(init, digest), Everything(init, digest);
      StoredOk(init, digest);
      match steps[|steps| - 1]
      case Record(entry, clock) => RecordStep(slots, Kept(init), all, entry, clock, digest);
      case Sweep(now) =>
        SweptSlotsOk(slots, now, all);
        SweptSlots(slots, now);
    }
  }

  /** All events carry their hash. */
  predicate Hashed(all: seq<Event>, digest: Payload -> Hash) {
    forall i :: 0 <= i < |all| ==> digest(all[i].Signed()) == all[i].immutableHash
  }

  predicate Differ(all: seq<Event>) {
    forall i, j :: 0 <= i < j < |all| ==> all[i].entry != all[j].entry
  }

  predicate Recorded(steps: seq<ClockStep>, entry: Entry) {
    exists k :: 0 <= k < |steps| && steps[k].Record? && steps[k].entry == entry
  }

  predicate Entered(all: seq<Event>, steps: seq<ClockStep>) {
    forall i :: 0 <= i < |all| ==> Recorded(steps, all[i].entry)
  }

  lemma RecordedStays(steps: seq<ClockStep>, entry: Entry)
    requires steps != [] && Recorded(steps[..|steps| - 1], entry)
    ensures Recorded(steps, entry)
    ensures DistinctEntries(steps) && steps[|steps| - 1].Record? ==> steps[|steps| - 1].entry != entry
  {
    var n := |steps| - 1;
    var k :| 0 <= k < n && steps[..n][k].Record? && steps[..n][k].entry == entry;
    assert steps[k] == steps[..n][k];
  }

  lemma {:induction false} EverythingIsHashed(steps: seq<ClockStep>, digest: Payload -> Hash)
    requires DistinctEntries(steps)
    ensures var all := Everything(steps, digest); Hashed(all, digest) && Entered(all, steps) && Differ(all)
  {
    if steps != [] {
      var n := |steps| - 1;
      EverythingIsHashed(steps[..n], digest);
      var before := Everything(steps[..n], digest);
      forall i | 0 <= i < |before|
        ensures Recorded(steps, before[i].entry)
        ensures steps[n].Record? ==> steps[n].entry != before[i].entry
      {
        RecordedStays(steps, before[i].entry);
      }
      assert steps[n].Record? ==> Recorded(steps, steps[n].entry);
    }
  }

  lemma SameHashSameNumber(all: seq<Event>, i: nat, j: nat, digest: Payload -> Hash)
    requires CollisionFree(digest) && Hashed(all, digest) && i < |all| && j < |all|
    requires Differ(all)
    requires all[i].immutableHash == all[j].immutableHash
    ensures i == j
  {
    assert all[i].Signed() == all[j].Signed();
  }

  lemma LinkedAt(slots: seq<Slot>, all: seq<Event>, i: nat, digest: Payload -> Hash)
    requires CollisionFree(digest) && Hashed(all, digest) && SlotsOk(slots, all) && i < |slots|
    requires Differ(all)
    ensures Linked(Events(slots), digest, i) <==> i > 0 ==> slots[i].doc.link == Some(slots[i - 1].doc.number)
  {
    assert SlotOk(slots[i], all);
    if i > 0 {
      assert SlotOk(slots[i - 1], all);
      var link := slots[i].doc.link.value;
      if all[link].immutableHash == all[slots[i - 1].doc.number].immutableHash {
        SameHashSameNumber(all, link, slots[i - 1].doc.number, digest);
      }
    }
  }

  /** After any appends and expiry sweeps, in any order and at any clock readings, what is left verifies if
      and only if it is seamless. */
  lemma ExpiryVerifiesExactly(steps: seq<ClockStep>, digest: Payload -> Hash)
    requires CollisionFree(digest) && DistinctEntries(steps)
    ensures Accepted(OldestFirst(Events(Stored(steps, digest))), digest) <==> Seamless(Kept(steps))
  {
    var slots, all := Stored(steps, digest), Everything(steps, digest);
    StoredOk(steps, digest);
    EverythingIsHashed(steps, digest);
    StorageOrderIsIrrelevant(Events(slots), Events(slots));
    forall i | 0 <= i < |slots|
      ensures Linked(Events(slots), digest, i) <==> i > 0 ==> Docs(slots)[i].link == Some(Docs(slots)[i - 1].number)
    {
      LinkedAt(slots, all, i, digest);
    }
    SeamlessIs(Docs(slots));
  }

  lemma SeamlessIs(docs: seq<Doc>)
    ensures Seamless(docs) <==> forall i :: 0 <= i < |docs| ==> (i > 0 ==> docs[i].link == Some(docs[i - 1].number))
  {
    if forall i :: 0 <= i < |docs| ==> (i > 0 ==> docs[i].link == Some(docs[i - 1].number)) {
      forall i | 0 <= i < |docs| - 1 ensures docs[i + 1].link == Some(docs[i].number) {
        var next := i + 1;
        assert docs[next].link == Some(docs[next - 1].number);
      }
    }
    if Seamless(docs) {
      forall i | 0 < i < |docs| ensures docs[i].link == Some(docs[i - 1].number) {
        var h := i - 1;
        assert docs[h + 1].link == Some(docs[h].number);
      }
    }
  }

  /** Append readings never go back; sweeps may read any clock. */
  predicate ForwardClock(steps: seq<ClockStep>) {
    forall i, j :: 0 <= i < j < |steps| && steps[i].Record? && steps[j].Record? ==> steps[i].clock <= steps[j].clock
  }

  predicate ByClock(docs: seq<Doc>) {
    forall i, j :: 0 <= i < j < |docs| ==> docs[i].clock <= docs[j].clock
  }

  lemma {:induction false} OnlyFresh(docs: seq<Doc>, now: int)
    ensures forall d :: d in Unexpired(docs, now) ==> Fresh(d, now)
  {
    if docs != [] {
      OnlyFresh(docs[..|docs| - 1], now);
    }
  }

  lemma {:induction false} SweepKeepsSuffix(docs: seq<Doc>, now: int) returns (from: nat)
    requires ByClock(docs)
    ensures from <= |docs| && Unexpired(docs, now) == docs[from..]
  {
    if docs == [] {
      return 0;
    }
    var n := |docs| - 1;
    from := SweepKeepsSuffix(docs[..n], now);
    OnlyFresh(docs[..n], now);
    if from < n {
      assert docs[..n][from..][0] == docs[from];
      assert Fresh(docs[from], now) && docs[from].clock <= docs[n].clock;
    }
    if Fresh(docs[n], now) {
      assert docs[from..] == docs[..n][from..] + [docs[n]];
    } else {
      from := |docs|;
    }
  }

  lemma {:induction false} UnexpiredAreDocs(docs: seq<Doc>, now: int)
    ensures forall d :: d in Unexpired(docs, now) ==> d in docs
  {
    if docs != [] {
      UnexpiredAreDocs(docs[..|docs| - 1], now);
    }
  }

  lemma {:induction false} KeptUpTo(steps: seq<ClockStep>, clock: int)
    requires forall k :: 0 <= k < |steps| && steps[k].Record? ==> steps[k].clock <= clock
    ensures forall d :: d in Kept(steps) ==> d.clock <= clock
  {
    if steps != [] {
      var init := steps[..|steps| - 1];
      KeptUpTo(init, clock);
      if steps[|steps| - 1].Sweep? {
        UnexpiredAreDocs(Kept(init), steps[|steps| - 1].now);
      }
    }
  }

  lemma AppendSeamless(docs: seq<Doc>, number: nat, clock: int)
    requires Seamless(docs) && ByClock(docs) && forall d :: d in docs ==> d.clock <= clock
    ensures var longer := docs + [NewDoc(docs, number, clock)]; Seamless(longer) && ByClock(longer)
  {
    var longer := docs + [NewDoc(docs, number, clock)];
    forall i | 0 <= i < |longer| - 1 ensures longer[i + 1].link == Some(longer[i].number) {
      assert i < |docs| - 1 ==> docs[i + 1].link == Some(docs[i].number);
    }
    forall i, j | 0 <= i < j < |longer| ensures longer[i].clock <= longer[j].clock {
      assert docs[i] in docs;
    }
  }

  lemma SuffixSeamless(docs: seq<Doc>, from: nat)
    requires Seamless(docs) && ByClock(docs) && from <= |docs|
    ensures Seamless(docs[from..]) && ByClock(docs[from..])
  {
    var left := docs[from..];
    forall i | 0 <= i < |left| - 1 ensures left[i + 1].link == Some(left[i].number) {
      assert left[i] == docs[from + i] && left[i + 1] == docs[from + i + 1];
    }
  }

  /** With forward append readings every sweep removes the oldest events only, and the rest stays seamless. */
  lemma {:induction false} ForwardClockIsSeamless(steps: seq<ClockStep>)
    requires ForwardClock(steps)
    ensures Seamless(Kept(steps)) && ByClock(Kept(steps))
  {
    if steps != [] {
      var n := |steps| - 1;
      var init := steps[..n];
      ForwardClockIsSeamless(init);
      match steps[n]
      case Record(entry, clock) =>
        KeptUpTo(init, clock);
        AppendSeamless(Kept(init), Appends(init), clock);
      case Sweep(now) =>
        var from := SweepKeepsSuffix(Kept(init), now);
        SuffixSeamless(Kept(init), from);
    }
  }

  /** A clock that never goes back is enough: the log verifies after any appends and sweeps. */
  lemma ForwardClockVerifies(steps: seq<ClockStep>, digest: Payload -> Hash)
    requires CollisionFree(digest) && DistinctEntries(steps) && ForwardClock(steps)
    ensures Accepted(OldestFirst(Events(Stored(steps, digest))), digest)
  {
    ForwardClockIsSeamless(steps);
    ExpiryVerifiesExactly(steps, digest);
  }

  lemma KeptAfterStep(a: Entry, b: Entry, c: Entry)
    ensures Kept([Record(a, 2000), Record(b, 0), Record(c, 2000)]) ==
            [Doc(0, 2000, None), Doc(1, 0, Some(0)), Doc(2, 2000, Some(1))]
  {
    var steps := [Record(a, 2000), Record(b, 0), Record(c, 2000)];
    assert steps[..2] == [Record(a, 2000), Record(b, 0)] && steps[..2][..1] == [Record(a, 2000)];
    assert steps[..2][..1][..0] == [];
    assert Kept(steps[..2][..1]) == [Doc(0, 2000, None)] && Appends(steps[..2][..1]) == 1;
    assert Kept(steps[..2]) == [Doc(0, 2000, None), Doc(1, 0, Some(0))] && Appends(steps[..2]) == 2;
  }

  lemma MiddleExpires()
    ensures Unexpired([Doc(0, 2000, None), Doc(1, 0, Some(0)), Doc(2, 2000, Some(1))], TTL) ==
            [Doc(0, 2000, None), Doc(2, 2000, Some(1))]
  {
    var docs := [Doc(0, 2000, None), Doc(1, 0, Some(0)), Doc(2, 2000, Some(1))];
    assert docs[..2] == [docs[0], docs[1]] && docs[..2][..1] == [docs[0]] && docs[..2][..1][..0] == [];
    assert Unexpired(docs[..2][..1], TTL) == [docs[0]];
    assert Unexpired(docs[..2], TTL) == [docs[0]];
  }

  /** A clock that stepped back for one of three events lets that event expire first and breaks the chain. */
  lemma BackwardClockBreaksExpiry(a: Entry, b: Entry, c: Entry, digest: Payload -> Hash)
    requires CollisionFree(digest) && a.eventId != b.eventId && a.eventId != c.eventId && b.eventId != c.eventId
    ensures var steps := [Record(a, 2000), Record(b, 0), Record(c, 2000)];
            && Accepted(OldestFirst(Events(Stored(steps, digest))), digest)
            && !Accepted(OldestFirst(Events(Stored(steps + [Sweep(TTL)], digest))), digest)
  {
    var steps := [Record(a, 2000), Record(b, 0), Record(c, 2000)];
    var all := steps + [Sweep(TTL)];
    KeptAfterStep(a, b, c);
    MiddleExpires();
    assert all[..3] == steps;
    assert Kept(all)[0 + 1].link != Some(Kept(all)[0].number);
    ExpiryVerifiesExactly(steps, digest);
    ExpiryVerifiesExactly(all, digest);
  }
}
