/** Telemetry acceptance (`_accept_telemetry_batch` of `main.py`): a cursor per node and kind, moved by
    conditional updates, and batch markers under two unique indexes.  First the atomic database operations,
    then whole requests one after the other, then any interleaving of the operations of many requests. */
module Telemetry {
  import opened Strings

  datatype Batch = Batch(id: string, sequence: int)

  /** The documents of one node and kind.  Markers are keyed by sequence; an insert also refuses a
      batch id that is already there, so both unique indexes hold. */
  datatype Store = Store(cursor: Option<Batch>, markers: map<int, string>)

  /** Where a request stands: the database operation it will issue next. */
  datatype PC =
    | FindExisting | Advance | Restart | CreateCursor | RetryAdvance
    | Purge | Insert | FindCollision | PurgeCollision | InsertAgain
    | Done(accepted: bool)

  predicate Holds(markers: map<int, string>, id: string) {
    exists s :: s in markers && markers[s] == id
  }

  const EMPTY := Store(None, map[])

  // ------------------------------------------------------------- the atomic operations

  predicate Behind(st: Store, b: Batch) {
    st.cursor.Some? && st.cursor.value.sequence < b.sequence
  }

  predicate Ahead(st: Store, b: Batch) {
    st.cursor.Some? && st.cursor.value.sequence > b.sequence
  }

  predicate Insertable(st: Store, b: Batch) {
    b.sequence !in st.markers && !Holds(st.markers, b.id)
  }

  function WithCursor(st: Store, b: Batch): Store {
    st.(cursor := Some(b))
  }

  function Purged(st: Store): Store {
    st.(markers := map[])
  }

  function WithMarker(st: Store, b: Batch): Store {
    st.(markers := st.markers[b.sequence := b.id])
  }

  /** One database operation of the request for `b`: the new documents and the next operation. */
  function Operation(st: Store, b: Batch, pc: PC): (Store, PC) {
    match pc
    case FindExisting => (st, if Holds(st.markers, b.id) then Done(false) else Advance)
    case Advance => if Behind(st, b) then (WithCursor(st, b), Insert) else (st, Restart)
    case Restart => if Ahead(st, b) then (WithCursor(st, b), Purge) else (st, CreateCursor)
    case CreateCursor => if st.cursor.None? then (WithCursor(st, b), Insert) else (st, RetryAdvance)
    case RetryAdvance => if Behind(st, b) then (WithCursor(st, b), Insert) else (st, Done(false))
    case Purge => (Purged(st), Insert)
    case Insert => if Insertable(st, b) then (WithMarker(st, b), Done(true)) else (st, FindCollision)
    case FindCollision =>
      (st, if b.sequence !in st.markers || st.markers[b.sequence] == b.id then Done(false) else PurgeCollision)
    case PurgeCollision => (Purged(st), InsertAgain)
    case InsertAgain => if Insertable(st, b) then (WithMarker(st, b), Done(true)) else (st, Done(false))
    case Done(_) => (st, pc)
  }

  /** How many operations a request has left at most. */
  function Left(pc: PC): nat {
    match pc
    case FindExisting => 9
    case Advance => 8
    case Restart => 7
    case CreateCursor => 6
    case RetryAdvance => 5
    case Purge => 5
    case Insert => 4
    case FindCollision => 3
    case PurgeCollision => 2
    case InsertAgain => 1
    case Done(_) => 0
  }

  lemma OperationsRunOut(st: Store, b: Batch, pc: PC)
    requires !pc.Done?
    ensures Left(Operation(st, b, pc).1) < Left(pc)
  {
  }

  /** A request whose operations nobody interrupts. */
  function Alone(st: Store, b: Batch, pc: PC): (Store, bool)
    decreases Left(pc)
  {
    if pc.Done? then (st, pc.accepted)
    else
      var next := Operation(st, b, pc);
      OperationsRunOut(st, b, pc);
      Alone(next.0, b, next.1)
  }

  /** The collections of all nodes and kinds, and the handler as it is written. */
  class TelemetryStore {
    var cursors: map<(string, string), Batch>
    var batches: map<(string, string), map<int, string>>

    constructor ()
      ensures cursors == map[] && batches == map[]
    {
      cursors, batches := map[], map[];
    }

    function View(stream: (string, string)): Store
      reads this
    {
      Store(if stream in cursors then Some(cursors[stream]) else None,
            if stream in batches then batches[stream] else map[])
    }

    method UpdateCursor(stream: (string, string), b: Batch, below: bool) returns (matched: bool)
      modifies this`cursors
      ensures matched == if below then Behind(old(View(stream)), b) else Ahead(old(View(stream)), b)
      ensures View(stream) == if matched then WithCursor(old(View(stream)), b) else old(View(stream))
      ensures cursors - {stream} == old(cursors) - {stream} && batches - {stream} == old(batches) - {stream}
    {
      matched := stream in cursors
        && if below then cursors[stream].sequence < b.sequence else cursors[stream].sequence > b.sequence;
      if matched {
        cursors := cursors[stream := b];
      }
    }

    method PurgeBatches(stream: (string, string))
      modifies this`batches
      ensures View(stream) == Purged(old(View(stream)))
      ensures cursors - {stream} == old(cursors) - {stream} && batches - {stream} == old(batches) - {stream}
    {
      batches := batches - {stream};
    }

    method InsertBatch(stream: (string, string), b: Batch) returns (ok: bool)
      modifies this`batches
      ensures ok == Insertable(old(View(stream)), b)
      ensures View(stream) == if ok then WithMarker(old(View(stream)), b) else old(View(stream))
      ensures cursors - {stream} == old(cursors) - {stream} && batches - {stream} == old(batches) - {stream}
    {
      var markers := if stream in batches then batches[stream] else map[];
      ok := b.sequence !in markers && !Holds(markers, b.id);
      if ok {
        batches := batches[stream := markers[b.sequence := b.id]];
      }
    }

    /** The part of the handler after the cursor has been moved. */
    method Record(stream: (string, string), b: Batch) returns (accepted: bool)
      modifies this
      ensures (View(stream), accepted) == Alone(old(View(stream)), b, Insert)
      ensures cursors - {stream} == old(cursors) - {stream} && batches - {stream} == old(batches) - {stream}
    {
      ghost var before := View(stream);
      var ok := InsertBatch(stream, b);
      if ok {
        return true;
      }
      var markers := if stream in batches then batches[stream] else map[];
      if b.sequence !in markers || markers[b.sequence] == b.id {
        assert Operation(before, b, FindCollision) == (before, Done(false));
        return false;
      }
      assert Operation(before, b, FindCollision) == (before, PurgeCollision);
      PurgeBatches(stream);
      accepted := InsertBatch(stream, b);
      assert Alone(before, b, PurgeCollision) == Alone(Purged(before), b, InsertAgain);
    }

    method AcceptTelemetryBatch(stream: (string, string), b: Batch) returns (accepted: bool)
      modifies this
      ensures (View(stream), accepted) == Alone(old(View(stream)), b, FindExisting)
      ensures Decides(old(View(stream)), b, View(stream), accepted)
      ensures cursors - {stream} == old(cursors) - {stream} && batches - {stream} == old(batches) - {stream}
    {
      ghost var before := View(stream);
      AloneDecides(before, b);
      if stream in batches && Holds(batches[stream], b.id) {
        return false;
      }
      assert Alone(before, b, FindExisting) == Alone(before, b, Advance);
      var restarted := false;
      var advanced := UpdateCursor(stream, b, true);
      if !advanced {
        restarted := UpdateCursor(stream, b, false);
        if !restarted {
          assert Alone(before, b, Advance) == Alone(before, b, Restart) == Alone(before, b, CreateCursor);
          if stream !in cursors {
            cursors := cursors[stream := b];
          } else {
            advanced := UpdateCursor(stream, b, true);
            if !advanced {
              assert Alone(before, b, CreateCursor) == Alone(before, b, RetryAdvance);
              return false;
            }
          }
        }
      }
      if restarted {
        assert Alone(before, b, Advance) == Alone(before, b, Restart) == Alone(View(stream), b, Purge);
        PurgeBatches(stream);
      }
      accepted := Record(stream, b);
    }
  }

  // ------------------------------------------------------------------ request by request

  /** What one request alone amounts to when no marker lies above the cursor. */
  function Request(st: Store, b: Batch): (Store, bool) {
    if Holds(st.markers, b.id) || (st.cursor.Some? && st.cursor.value.sequence == b.sequence) then (st, false)
    else if Ahead(st, b) then (Store(Some(b), map[b.sequence := b.id]), true)
    else (Store(Some(b), st.markers[b.sequence := b.id]), true)
  }

  /** Markers stay at or below the cursor, and without a cursor there are none. */
  predicate Bounded(st: Store) {
    forall s :: s in st.markers ==> st.cursor.Some? && s <= st.cursor.value.sequence
  }

  /** Whether the request, run alone, ever looks for a sequence collision. */
  predicate SeesCollision(st: Store, b: Batch, pc: PC)
    decreases Left(pc)
  {
    if pc.Done? then false
    else
      OperationsRunOut(st, b, pc);
      pc == FindCollision || SeesCollision(Operation(st, b, pc).0, b, Operation(st, b, pc).1)
  }

  lemma FromInsert(st: Store, b: Batch)
    requires Insertable(st, b)
    ensures Alone(st, b, Insert) == (WithMarker(st, b), true) && !SeesCollision(st, b, Insert)
  {
    assert Operation(st, b, Insert) == (WithMarker(st, b), Done(true));
  }

  /** Exactly when an uninterrupted request reaches the collision branch: a new batch, ahead of the cursor,
      whose sequence already has a marker. */
  predicate Collides(st: Store, b: Batch) {
    && !Holds(st.markers, b.id) && b.sequence in st.markers
    && (st.cursor.None? || st.cursor.value.sequence < b.sequence)
  }

  lemma InsertCollides(st: Store, b: Batch)
    ensures SeesCollision(st, b, Insert) <==> !Insertable(st, b)
  {
    var next := Operation(st, b, Insert);
    assert next.1.Done? ==> !SeesCollision(next.0, b, next.1);
    assert next.1 == FindCollision ==> SeesCollision(next.0, b, next.1);
  }

  lemma RestartCollides(st: Store, b: Batch)
    requires !Behind(st, b) && !Holds(st.markers, b.id)
    ensures SeesCollision(st, b, Restart) <==> st.cursor.None? && b.sequence in st.markers
  {
    var moved := WithCursor(st, b);
    if Ahead(st, b) {
      FromInsert(Purged(moved), b);
      assert Operation(moved, b, Purge) == (Purged(moved), Insert);
      assert !SeesCollision(moved, b, Purge);
    } else if st.cursor.None? {
      InsertCollides(moved, b);
      assert Operation(st, b, CreateCursor) == (moved, Insert);
      assert SeesCollision(st, b, CreateCursor) <==> b.sequence in st.markers;
    } else {
      assert Operation(st, b, RetryAdvance) == (st, Done(false));
      assert !SeesCollision(st, b, RetryAdvance);
      assert !SeesCollision(st, b, CreateCursor);
    }
  }

  /** The request, run alone from its start, reaches the collision branch. */
  predicate ReachesCollision(st: Store, b: Batch) {
    SeesCollision(st, b, FindExisting)
  }

  lemma CollidesExactly(st: Store, b: Batch)
    ensures ReachesCollision(st, b) <==> Collides(st, b)
  {
    var moved := WithCursor(st, b);
    if Holds(st.markers, b.id) {
      assert Operation(st, b, FindExisting) == (st, Done(false));
    } else {
      assert Operation(st, b, FindExisting) == (st, Advance);
      if Behind(st, b) {
        InsertCollides(moved, b);
        assert Operation(st, b, Advance) == (moved, Insert);
      } else {
        RestartCollides(st, b);
        assert Operation(st, b, Advance) == (st, Restart);
      }
      assert SeesCollision(st, b, Advance) <==> Collides(st, b);
    }
  }

  /** A batch id no marker carries. */
  lemma {:induction false} UnusedId(markers: map<int, string>) returns (id: string)
    ensures !Holds(markers, id)
    ensures id != [] && forall s :: s in markers ==> |markers[s]| < |id|
    decreases |markers|
  {
    if s :| s in markers {
      var others := markers - {s};
      id := UnusedId(others);
      id := id + markers[s];
      forall r | r in markers ensures |markers[r]| < |id| {
        assert r != s ==> r in others && others[r] == markers[r];
      }
    } else {
      id := "x";
    }
  }

  lemma UnboundedCollides(st: Store) returns (b: Batch)
    requires !Bounded(st)
    ensures ReachesCollision(st, b)
  {
    var s :| s in st.markers && (st.cursor.None? || s > st.cursor.value.sequence);
    var id := UnusedId(st.markers);
    b := Batch(id, s);
    CollidesExactly(st, b);
  }

  /** The collision branch is out of reach for every batch if and only if no marker lies above the cursor. */
  lemma BoundedExactly(st: Store)
    ensures Bounded(st) <==> forall b: Batch :: !ReachesCollision(st, b)
  {
    if Bounded(st) {
      forall b: Batch ensures !ReachesCollision(st, b) {
        CollidesExactly(st, b);
      }
    } else {
      var b := UnboundedCollides(st);
    }
  }

  lemma FromRestart(st: Store, b: Batch)
    requires !Behind(st, b) && !Holds(st.markers, b.id) && Bounded(st)
    ensures Alone(st, b, Restart) == Request(st, b) && !SeesCollision(st, b, Restart)
  {
    var moved := WithCursor(st, b);
    if Ahead(st, b) {
      FromInsert(Purged(moved), b);
      assert Operation(moved, b, Purge) == (Purged(moved), Insert);
      assert Alone(moved, b, Purge) == Request(st, b) && !SeesCollision(moved, b, Purge);
    } else if st.cursor.None? {
      FromInsert(moved, b);
      assert Operation(st, b, CreateCursor) == (moved, Insert);
      assert Alone(st, b, CreateCursor) == Request(st, b) && !SeesCollision(st, b, CreateCursor);
    } else {
      assert Operation(st, b, RetryAdvance) == (st, Done(false));
      assert Alone(st, b, RetryAdvance) == (st, false) && !SeesCollision(st, b, RetryAdvance);
      assert Alone(st, b, CreateCursor) == (st, false) && !SeesCollision(st, b, CreateCursor);
    }
  }

  /** Run alone, the handler never reaches its collision branch, and it keeps the markers bounded. */
  lemma AloneIsRequest(st: Store, b: Batch)
    requires Bounded(st)
    ensures Alone(st, b, FindExisting) == Request(st, b)
    ensures !ReachesCollision(st, b)
    ensures Bounded(Request(st, b).0)
  {
    if Holds(st.markers, b.id) {
      assert Operation(st, b, FindExisting) == (st, Done(false));
    } else {
      if Behind(st, b) {
        FromInsert(WithCursor(st, b), b);
        assert Operation(st, b, Advance) == (WithCursor(st, b), Insert);
      } else {
        FromRestart(st, b);
        assert Operation(st, b, Advance) == (st, Restart);
      }
      assert Alone(st, b, Advance) == Request(st, b) && !SeesCollision(st, b, Advance);
      assert Operation(st, b, FindExisting) == (st, Advance);
    }
  }

  /** What a request alone does to any documents, collision or not: a known batch and the sequence of the cursor are
      refused and change nothing; any other batch is accepted and moves the cursor, and when its sequence lies below
      the cursor or is taken by another batch it is the only marker left. */
  predicate Decides(st: Store, b: Batch, after: Store, accepted: bool) {
    if Holds(st.markers, b.id) || (st.cursor.Some? && st.cursor.value.sequence == b.sequence) then
      !accepted && after == st
    else
      && accepted && after.cursor == Some(b)
      && after.markers == if Ahead(st, b) || b.sequence in st.markers then map[b.sequence := b.id]
                          else st.markers[b.sequence := b.id]
  }

  lemma InsertAnyway(st: Store, b: Batch)
    requires !Holds(st.markers, b.id)
    ensures Alone(st, b, Insert) == if b.sequence in st.markers then (WithMarker(Purged(st), b), true)
                                    else (WithMarker(st, b), true)
  {
    if b.sequence in st.markers {
      var purged := Purged(st);
      assert Operation(purged, b, InsertAgain) == (WithMarker(purged, b), Done(true));
      assert Alone(purged, b, InsertAgain) == (WithMarker(purged, b), true);
      assert Operation(st, b, PurgeCollision) == (purged, InsertAgain);
      assert Operation(st, b, FindCollision) == (st, PurgeCollision);
      assert Operation(st, b, Insert) == (st, FindCollision);
      assert Alone(st, b, PurgeCollision) == Alone(st, b, FindCollision) == Alone(st, b, Insert);
    } else {
      FromInsert(st, b);
    }
  }

  lemma RestartDecides(st: Store, b: Batch)
    requires !Behind(st, b) && !Holds(st.markers, b.id)
    ensures Decides(st, b, Alone(st, b, Restart).0, Alone(st, b, Restart).1)
  {
    var moved := WithCursor(st, b);
    if Ahead(st, b) {
      FromInsert(Purged(moved), b);
      assert Operation(moved, b, Purge) == (Purged(moved), Insert);
      assert Alone(st, b, Restart) == Alone(moved, b, Purge) == Alone(Purged(moved), b, Insert);
    } else if st.cursor.None? {
      InsertAnyway(moved, b);
      assert Operation(st, b, CreateCursor) == (moved, Insert);
      assert Alone(st, b, Restart) == Alone(st, b, CreateCursor) == Alone(moved, b, Insert);
    } else {
      assert Operation(st, b, RetryAdvance) == (st, Done(false));
      assert Alone(st, b, RetryAdvance) == (st, false);
      assert Alone(st, b, Restart) == Alone(st, b, CreateCursor) == Alone(st, b, RetryAdvance);
    }
  }

  lemma AloneDecides(st: Store, b: Batch)
    ensures var (after, accepted) := Alone(st, b, FindExisting); Decides(st, b, after, accepted)
  {
    if Holds(st.markers, b.id) {
      assert Operation(st, b, FindExisting) == (st, Done(false));
    } else {
      assert Operation(st, b, FindExisting) == (st, Advance);
      assert Alone(st, b, FindExisting) == Alone(st, b, Advance);
      if Behind(st, b) {
        InsertAnyway(WithCursor(st, b), b);
        assert Operation(st, b, Advance) == (WithCursor(st, b), Insert);
        assert Alone(st, b, Advance) == Alone(WithCursor(st, b), b, Insert);
      } else {
        RestartDecides(st, b);
        assert Operation(st, b, Advance) == (st, Restart);
        assert Alone(st, b, Advance) == Alone(st, b, Restart);
      }
    }
  }

  /** The documents after the given requests, and the batches accepted, in order. */
  function Served(requests: seq<Batch>): (Store, seq<Batch>) {
    if requests == [] then (EMPTY, [])
    else
      var n := |requests| - 1;
      var before := Served(requests[..n]);
      var after := Alone(before.0, requests[n], FindExisting);
      (after.0, if after.1 then before.1 + [requests[n]] else before.1)
  }

  /** Where the current epoch of an accept log begins: just after the last drop of the sequence. */
  function EpochStart(log: seq<Batch>): (start: nat)
    ensures start <= |log| && (log != [] ==> start < |log|)
  {
    if |log| <= 1 then 0
    else if log[|log| - 1].sequence < log[|log| - 2].sequence then |log| - 1
    else EpochStart(log[..|log| - 1])
  }

  /** The decision in terms of the accept log alone: a repeated id of the current epoch and the
      sequence accepted last are refused, everything else is accepted. */
  predicate LogAccepts(log: seq<Batch>, b: Batch) {
    && (forall i :: EpochStart(log) <= i < |log| ==> log[i].id != b.id)
    && (log != [] ==> log[|log| - 1].sequence != b.sequence)
  }

  /** Within an epoch, begun at `start`, the sequences strictly increase and the ids are distinct. */
  predicate Increasing(log: seq<Batch>, start: nat) {
    forall i, j :: start <= i < j < |log| ==> log[i].sequence < log[j].sequence && log[i].id != log[j].id
  }

  /** The markers are those of the batches accepted since `start`. */
  predicate MarkersOf(markers: map<int, string>, log: seq<Batch>, start: nat) {
    && (forall i :: start <= i < |log| ==> log[i].sequence in markers && markers[log[i].sequence] == log[i].id)
    && (forall s :: s in markers ==> exists i :: start <= i < |log| && log[i].sequence == s)
  }

  /** The documents are those of the current epoch. */
  predicate Mirrors(st: Store, log: seq<Batch>) {
    && (log == [] ==> st == EMPTY)
    && (log != [] ==> st.cursor == Some(log[|log| - 1]))
    && MarkersOf(st.markers, log, EpochStart(log))
    && Increasing(log, EpochStart(log))
  }

  lemma LastIsHighest(log: seq<Batch>, start: nat, i: nat)
    requires Increasing(log, start) && start <= i < |log|
    ensures log[i].sequence <= log[|log| - 1].sequence
  {
    if i < |log| - 1 {
      assert log[i].sequence < log[|log| - 1].sequence;
    }
  }

  lemma MirroredIsBounded(st: Store, log: seq<Batch>)
    requires Mirrors(st, log)
    ensures Bounded(st)
  {
    var start := EpochStart(log);
    forall s | s in st.markers ensures st.cursor.Some? && s <= st.cursor.value.sequence {
      var i :| start <= i < |log| && log[i].sequence == s;
      LastIsHighest(log, start, i);
    }
  }

  lemma KnownExactlyInEpoch(markers: map<int, string>, log: seq<Batch>, start: nat, id: string)
    requires MarkersOf(markers, log, start)
    ensures Holds(markers, id) <==> exists i :: start <= i < |log| && log[i].id == id
  {
    if Holds(markers, id) {
      var s :| s in markers && markers[s] == id;
      var i :| start <= i < |log| && log[i].sequence == s;
      assert log[i].id == id;
    }
  }

  /** How the epoch grows: a lower sequence starts a new one, a higher one stays in it. */
  lemma EpochGrows(log: seq<Batch>, b: Batch)
    ensures EpochStart(log + [b]) ==
            if log != [] && b.sequence < log[|log| - 1].sequence then |log| else EpochStart(log)
  {
    var grown := log + [b];
    assert grown[..|grown| - 1] == log;
    if log != [] {
      assert grown[|grown| - 2] == log[|log| - 1];
    }
  }

  lemma NewEpoch(log: seq<Batch>, b: Batch)
    ensures Increasing(log + [b], |log|) && MarkersOf(map[b.sequence := b.id], log + [b], |log|)
  {
    var grown := log + [b];
    assert grown[|log|] == b;
  }

  lemma SameEpochIncreases(log: seq<Batch>, start: nat, b: Batch)
    requires Increasing(log, start)
    requires log != [] ==> log[|log| - 1].sequence < b.sequence
    requires forall i :: start <= i < |log| ==> log[i].id != b.id
    ensures Increasing(log + [b], start)
  {
    var grown := log + [b];
    forall i, j | start <= i < j < |grown| ensures grown[i].sequence < grown[j].sequence && grown[i].id != grown[j].id {
      LastIsHighest(log, start, i);
      if j < |log| {
        assert log[i].sequence < log[j].sequence && log[i].id != log[j].id;
      }
    }
  }

  lemma SameEpochMarkers(markers: map<int, string>, log: seq<Batch>, start: nat, b: Batch)
    requires MarkersOf(markers, log, start) && start <= |log| && Increasing(log + [b], start)
    ensures MarkersOf(markers[b.sequence := b.id], log + [b], start)
  {
    var next, grown := markers[b.sequence := b.id], log + [b];
    assert grown[|log|] == b;
    forall s | s in next ensures exists i :: start <= i < |grown| && grown[i].sequence == s {
      if s != b.sequence {
        var i :| start <= i < |log| && log[i].sequence == s;
        assert grown[i].sequence == s;
      }
    }
    forall i | start <= i < |grown| ensures grown[i].sequence in next && next[grown[i].sequence] == grown[i].id {
      if i < |log| {
        assert grown[i] == log[i] && grown[i].sequence < grown[|log|].sequence;
      }
    }
  }

  lemma RequestDecides(st: Store, log: seq<Batch>, b: Batch)
    requires Mirrors(st, log)
    ensures Request(st, b).1 <==> LogAccepts(log, b)
  {
    KnownExactlyInEpoch(st.markers, log, EpochStart(log), b.id);
  }

  lemma AcceptedMirrors(st: Store, log: seq<Batch>, b: Batch)
    requires Mirrors(st, log) && LogAccepts(log, b) && Request(st, b).1
    ensures Mirrors(Request(st, b).0, log + [b])
  {
    EpochGrows(log, b);
    if Ahead(st, b) {
      NewEpoch(log, b);
    } else {
      SameEpochIncreases(log, EpochStart(log), b);
      SameEpochMarkers(st.markers, log, EpochStart(log), b);
    }
  }

  lemma RequestMirrors(st: Store, log: seq<Batch>, b: Batch)
    requires Mirrors(st, log)
    ensures Request(st, b).1 <==> LogAccepts(log, b)
    ensures !Request(st, b).1 ==> Request(st, b).0 == st
    ensures Request(st, b).1 ==> Mirrors(Request(st, b).0, log + [b])
  {
    RequestDecides(st, log, b);
    if LogAccepts(log, b) {
      AcceptedMirrors(st, log, b);
    }
  }

  lemma {:induction false} ServedMirrors(requests: seq<Batch>)
    ensures var r := Served(requests); Mirrors(r.0, r.1)
  {
    if requests != [] {
      var n := |requests| - 1;
      var before := Served(requests[..n]);
      ServedMirrors(requests[..n]);
      MirroredIsBounded(before.0, before.1);
      AloneIsRequest(before.0, requests[n]);
      RequestMirrors(before.0, before.1, requests[n]);
    }
  }

  /** Epochs seen in the documents: an accepted request empties the markers exactly when its sequence is
      below the one accepted last, and otherwise adds its own marker to them. */
  lemma PurgesExactlyOnDrop(requests: seq<Batch>, b: Batch)
    requires Served(requests).1 != [] && LogAccepts(Served(requests).1, b)
    ensures var (st, log) := Served(requests);
            var after := Served(requests + [b]).0;
            var drops := b.sequence < log[|log| - 1].sequence;
            && (drops <==> exists s :: s in st.markers && s !in after.markers)
            && after.markers == if drops then map[b.sequence := b.id] else st.markers[b.sequence := b.id]
  {
    ServedMirrors(requests);
    var (st, log) := Served(requests);
    MirroredIsBounded(st, log);
    AloneIsRequest(st, b);
    RequestMirrors(st, log, b);
    var all := requests + [b];
    assert all[..|all| - 1] == requests && all[|all| - 1] == b;
    assert log[|log| - 1].sequence in st.markers;
  }

  /** After any requests, run one by one: the markers are bounded, the collision branch is out of reach,
      and the next decision is the one the accept log alone gives. */
  lemma SequentialAcceptance(requests: seq<Batch>, b: Batch)
    ensures var (st, log) := Served(requests);
            && Bounded(st)
            && !ReachesCollision(st, b)
            && Served(requests + [b]).1 == if LogAccepts(log, b) then log + [b] else log
  {
    ServedMirrors(requests);
    var (st, log) := Served(requests);
    MirroredIsBounded(st, log);
    AloneIsRequest(st, b);
    RequestMirrors(st, log, b);
    var all := requests + [b];
    assert all[..|all| - 1] == requests && all[|all| - 1] == b;
  }

  /** The accepted batches split into epochs: `start` is the first position of the epoch of `j`. */
  lemma {:induction false} PrefixesAreServed(requests: seq<Batch>, k: nat) returns (m: nat)
    requires k <= |Served(requests).1|
    ensures m <= |requests|
    ensures Served(requests[..m]).1 == Served(requests).1[..k]
  {
    var log := Served(requests).1;
    if k == |log| {
      assert requests[..|requests|] == requests && log[..k] == log;
      return |requests|;
    }
    var n := |requests| - 1;
    var before := Served(requests[..n]).1;
    assert log == before || log == before + [requests[n]];
    m := PrefixesAreServed(requests[..n], k);
    assert requests[..n][..m] == requests[..m];
    assert before[..k] == log[..k];
  }

  /** The sequence does not drop after `i` up to `j`. */
  predicate NoDrop(log: seq<Batch>, i: nat, j: nat)
    requires j < |log|
  {
    forall k {:trigger log[k]} :: i < k <= j ==> log[k - 1].sequence <= log[k].sequence
  }

  lemma {:induction false} DropStartsEpoch(log: seq<Batch>, i: nat, j: nat)
    requires i <= j < |log| && NoDrop(log, i, j)
    ensures EpochStart(log[..j + 1]) <= i
    decreases j
  {
    if i < j {
      TakeOneMore(log, j);
      DropStartsEpoch(log, i, j - 1);
      EpochGrows(log[..j], log[j]);
      assert log[j - 1].sequence <= log[j].sequence;
    }
  }

  lemma WithinEpoch(log: seq<Batch>, head: seq<Batch>, i: nat, j: nat)
    requires i < j < |log| && NoDrop(log, i, j) && head == log[..j + 1]
    requires Increasing(head, EpochStart(head))
    ensures log[i].sequence < log[j].sequence && log[i].id != log[j].id
  {
    DropStartsEpoch(log, i, j);
    assert head[i] == log[i] && head[j] == log[j];
  }

  lemma EpochIncreases(requests: seq<Batch>)
    ensures Increasing(Served(requests).1, EpochStart(Served(requests).1))
  {
    ServedMirrors(requests);
  }

  /** Two accepted batches with no drop of the sequence between them have increasing sequences and
      different ids; neighbours never carry the same sequence. */
  lemma EpochsOfTheLog(requests: seq<Batch>, i: nat, j: nat)
    requires i < j < |Served(requests).1| && NoDrop(Served(requests).1, i, j)
    ensures var log := Served(requests).1; log[i].sequence < log[j].sequence && log[i].id != log[j].id
  {
    var log := Served(requests).1;
    var m := PrefixesAreServed(requests, j + 1);
    EpochIncreases(requests[..m]);
    WithinEpoch(log, Served(requests[..m]).1, i, j);
  }

  // -------------------------------------------------------------- interleaved operations

  /** A request in progress; `Inserted` and `Emptied` are the events an observer of the markers sees. */
  datatype Process = Process(batch: Batch, pc: PC)

  datatype Event = Inserted(process: nat, batch: Batch) | Emptied

  datatype System = System(store: Store, processes: seq<Process>, trace: seq<Event>)

  datatype Move = Arrive(batch: Batch) | Go(process: nat)

  function EventOf(st: Store, p: nat, b: Batch, pc: PC): seq<Event> {
    if pc == Purge || pc == PurgeCollision then [Emptied]
    else if (pc == Insert || pc == InsertAgain) && Insertable(st, b) then [Inserted(p, b)]
    else []
  }

  function Moved(sys: System, m: Move): System {
    match m
    case Arrive(b) => sys.(processes := sys.processes + [Process(b, FindExisting)])
    case Go(p) =>
      if p >= |sys.processes| || sys.processes[p].pc.Done? then sys
      else
        var b, pc := sys.processes[p].batch, sys.processes[p].pc;
        var next := Operation(sys.store, b, pc);
        System(next.0, sys.processes[p := Process(b, next.1)], sys.trace + EventOf(sys.store, p, b, pc))
  }

  /** The system after any schedule, from no documents and no requests. */
  function Interleaved(moves: seq<Move>): System {
    if moves == [] then System(EMPTY, [], [])
    else Moved(Interleaved(moves[..|moves| - 1]), moves[|moves| - 1])
  }

  /** The markers an observer of the trace expects. */
  function Live(trace: seq<Event>): map<int, string> {
    if trace == [] then map[]
    else match trace[|trace| - 1]
      case Emptied => map[]
      case Inserted(_, b) => Live(trace[..|trace| - 1])[b.sequence := b.id]
  }

  /** An insert that meets neither its id nor its sequence. */
  predicate IsFresh(markers: map<int, string>, e: Event) {
    e.Inserted? ==> e.batch.sequence !in markers && !Holds(markers, e.batch.id)
  }

  predicate FreshInserts(trace: seq<Event>) {
    trace != [] ==>
      FreshInserts(trace[..|trace| - 1]) && IsFresh(Live(trace[..|trace| - 1]), trace[|trace| - 1])
  }

  lemma {:induction false} FreshAt(trace: seq<Event>, k: nat)
    requires FreshInserts(trace) && k < |trace|
    ensures IsFresh(Live(trace[..k]), trace[k])
  {
    if k < |trace| - 1 {
      assert trace[..|trace| - 1][..k] == trace[..k];
      FreshAt(trace[..|trace| - 1], k);
    }
  }

  /** A finished request returned true exactly when it inserted its own batch, and no request inserts twice. */
  ghost predicate Accounted(sys: System) {
    && (forall i :: 0 <= i < |sys.trace| && sys.trace[i].Inserted? ==>
          var p := sys.trace[i].process;
          p < |sys.processes| && sys.processes[p] == Process(sys.trace[i].batch, Done(true)))
    && (forall p :: 0 <= p < |sys.processes| && sys.processes[p].pc == Done(true) ==>
          Inserted(p, sys.processes[p].batch) in sys.trace)
    && (forall i, j :: 0 <= i < j < |sys.trace| && sys.trace[i].Inserted? && sys.trace[j].Inserted? ==>
          sys.trace[i].process != sys.trace[j].process)
  }

  lemma OperationEvents(st: Store, p: nat, b: Batch, pc: PC)
    requires !pc.Done?
    ensures var next := Operation(st, b, pc);
            && (EventOf(st, p, b, pc) == [] ==> next.0.markers == st.markers && next.1 != Done(true))
            && (EventOf(st, p, b, pc) == [Emptied] ==> next.0.markers == map[] && next.1 != Done(true))
            && (EventOf(st, p, b, pc) == [Inserted(p, b)] ==>
                  Insertable(st, b) && next == (WithMarker(st, b), Done(true)))
  {
  }

  lemma LiveAfter(trace: seq<Event>, e: Event)
    requires FreshInserts(trace) && IsFresh(Live(trace), e)
    ensures FreshInserts(trace + [e])
    ensures Live(trace + [e]) == if e.Emptied? then map[] else Live(trace)[e.batch.sequence := e.batch.id]
  {
    assert (trace + [e])[..|trace|] == trace;
  }

  /** The markers are what the trace says, and every insert was fresh. */
  predicate Followed(st: Store, trace: seq<Event>) {
    st.markers == Live(trace) && FreshInserts(trace)
  }

  lemma OperationIsFollowed(st: Store, p: nat, b: Batch, pc: PC, trace: seq<Event>)
    requires Followed(st, trace) && !pc.Done?
    ensures Followed(Operation(st, b, pc).0, trace + EventOf(st, p, b, pc))
  {
    OperationEvents(st, p, b, pc);
    var events := EventOf(st, p, b, pc);
    if events == [] {
      assert trace + events == trace;
    } else {
      assert IsFresh(Live(trace), events[0]);
      LiveAfter(trace, events[0]);
    }
  }

  lemma MovedKeepsLive(sys: System, m: Move)
    requires Followed(sys.store, sys.trace)
    ensures Followed(Moved(sys, m).store, Moved(sys, m).trace)
  {
    if m.Go? && m.process < |sys.processes| && !sys.processes[m.process].pc.Done? {
      var Process(b, pc) := sys.processes[m.process];
      OperationIsFollowed(sys.store, m.process, b, pc, sys.trace);
    }
  }

  lemma MovedKeepsAccounted(sys: System, m: Move)
    requires Accounted(sys)
    ensures Accounted(Moved(sys, m))
  {
    if m.Go? && m.process < |sys.processes| && !sys.processes[m.process].pc.Done? {
      var Process(b, pc) := sys.processes[m.process];
      var next := Moved(sys, m);
      OperationEvents(sys.store, m.process, b, pc);
      forall p | 0 <= p < |next.processes| && next.processes[p].pc == Done(true)
        ensures Inserted(p, next.processes[p].batch) in next.trace
      {
        if p == m.process {
          assert next.trace == sys.trace + [Inserted(p, b)];
          assert next.trace[|sys.trace|] == Inserted(p, b);
        } else {
          assert Inserted(p, sys.processes[p].batch) in sys.trace;
        }
      }
    }
  }

  lemma {:induction false} InterleavedInvariant(moves: seq<Move>)
    ensures var sys := Interleaved(moves);
            Followed(sys.store, sys.trace) && Accounted(sys)
  {
    if moves != [] {
      var n := |moves| - 1;
      InterleavedInvariant(moves[..n]);
      MovedKeepsLive(Interleaved(moves[..n]), moves[n]);
      MovedKeepsAccounted(Interleaved(moves[..n]), moves[n]);
    }
  }

  lemma LiveStep(trace: seq<Event>, j: nat)
    requires j < |trace|
    ensures Live(trace[..j + 1]) ==
            match trace[j]
            case Emptied => map[]
            case Inserted(_, b) => Live(trace[..j])[b.sequence := b.id]
  {
    TakeOneMore(trace, j);
    assert trace[..j + 1][..j] == trace[..j];
  }

  predicate Marked(markers: map<int, string>, b: Batch) {
    b.sequence in markers && markers[b.sequence] == b.id
  }

  /** Until the markers are emptied, what was inserted stays there. */
  lemma {:induction false} StaysLive(trace: seq<Event>, i: nat, j: nat)
    requires FreshInserts(trace) && i < j <= |trace| && trace[i].Inserted?
    requires forall k :: i < k < j ==> trace[k].Inserted?
    ensures Marked(Live(trace[..j]), trace[i].batch)
    decreases j
  {
    LiveStep(trace, j - 1);
    if i + 1 < j {
      StaysLive(trace, i, j - 1);
      assert trace[j - 1].Inserted?;
      FreshAt(trace, j - 1);
    }
  }

  predicate EmptiedBetween(trace: seq<Event>, i: nat, j: nat) {
    exists k :: i < k < j && k < |trace| && trace[k].Emptied?
  }

  lemma NoSecondInsert(trace: seq<Event>, i: nat, j: nat)
    requires FreshInserts(trace) && i < j < |trace| && trace[i].Inserted? && trace[j].Inserted?
    requires trace[i].batch.id == trace[j].batch.id || trace[i].batch.sequence == trace[j].batch.sequence
    ensures EmptiedBetween(trace, i, j)
  {
    FreshAt(trace, j);
    if !EmptiedBetween(trace, i, j) {
      StaysLive(trace, i, j);
    }
  }

  /** Under every interleaving: two accepted requests with the same batch id, or with the same sequence,
      have a purge between their inserts. */
  lemma AcceptedOncePerPurge(moves: seq<Move>, i: nat, j: nat)
    requires i < j < |Interleaved(moves).trace|
    requires var trace := Interleaved(moves).trace;
             && trace[i].Inserted? && trace[j].Inserted?
             && (trace[i].batch.id == trace[j].batch.id || trace[i].batch.sequence == trace[j].batch.sequence)
    ensures EmptiedBetween(Interleaved(moves).trace, i, j)
  {
    InterleavedInvariant(moves);
    NoSecondInsert(Interleaved(moves).trace, i, j);
  }

  /** Two different requests that both returned true for one batch id: a purge came between. */
  lemma TwoTrueAnswers(moves: seq<Move>, p: nat, q: nat)
    requires var ps := Interleaved(moves).processes;
             p < |ps| && q < |ps| && p != q && ps[p].pc == Done(true) && ps[q].pc == Done(true)
             && ps[p].batch.id == ps[q].batch.id
    ensures exists k :: 0 <= k < |Interleaved(moves).trace| && Interleaved(moves).trace[k].Emptied?
  {
    InterleavedInvariant(moves);
    var sys := Interleaved(moves);
    var i :| 0 <= i < |sys.trace| && sys.trace[i] == Inserted(p, sys.processes[p].batch);
    var j :| 0 <= j < |sys.trace| && sys.trace[j] == Inserted(q, sys.processes[q].batch);
    if i < j {
      AcceptedOncePerPurge(moves, i, j);
    } else {
      AcceptedOncePerPurge(moves, j, i);
    }
  }

  /** The operations that can leave a marker above the cursor. */
  predicate Overtakes(st: Store, b: Batch, pc: PC) {
    || (pc == Restart && Ahead(st, b) && exists s :: s in st.markers && s > b.sequence)
    || ((pc == Insert || pc == InsertAgain) && Insertable(st, b)
        && (st.cursor.None? || st.cursor.value.sequence < b.sequence))
  }

  /** Interleaved, one operation takes bounded markers out of bounds exactly when it moves the cursor down
      past a marker, before the purge, or inserts a marker of a request whose sequence is above the cursor. */
  lemma UnboundedExactly(st: Store, b: Batch, pc: PC)
    requires Bounded(st)
    ensures Bounded(Operation(st, b, pc).0) <==> !Overtakes(st, b, pc)
  {
    if (pc == Insert || pc == InsertAgain) && Insertable(st, b) {
      InsertUnbounds(st, b);
    } else if pc == Restart && Ahead(st, b) {
      var next := WithCursor(st, b);
      assert Bounded(next) <==> forall s :: s in st.markers ==> s <= b.sequence;
    }
  }

  lemma InsertUnbounds(st: Store, b: Batch)
    requires Bounded(st) && Insertable(st, b)
    ensures Bounded(WithMarker(st, b)) <==> st.cursor.Some? && b.sequence <= st.cursor.value.sequence
  {
    assert b.sequence in WithMarker(st, b).markers;
  }

  lemma OneMore(moves: seq<Move>, m: Move) returns (more: seq<Move>)
    ensures Interleaved(more) == Moved(Interleaved(moves), m)
  {
    more := moves + [m];
    assert more[..|more| - 1] == moves;
  }

  /** `n` operations of one request in a row. */
  lemma {:induction false} InARow(moves: seq<Move>, p: nat, n: nat) returns (more: seq<Move>)
    requires p < |Interleaved(moves).processes|
    requires Interleaved(moves).processes[p].pc == FindExisting
    ensures var sys := Interleaved(moves);
            var r := Steps(sys.store, sys.processes[p].batch, FindExisting, n);
            Interleaved(more).store == r.0
            && Interleaved(more).processes == sys.processes[p := Process(sys.processes[p].batch, r.1)]
  {
    var sys := Interleaved(moves);
    if n == 0 {
      assert sys.processes[p := sys.processes[p]] == sys.processes;
      more := moves;
    } else {
      more := InARow(moves, p, n - 1);
      more := OneMore(more, Go(p));
    }
  }

  function Steps(st: Store, b: Batch, pc: PC, n: nat): (Store, PC) {
    if n == 0 then (st, pc)
    else
      var r := Steps(st, b, pc, n - 1);
      if r.1.Done? then r else Operation(r.0, b, r.1)
  }

  lemma FirstCreatesCursor(b: Batch)
    ensures Steps(EMPTY, b, FindExisting, 4) == (Store(Some(b), map[]), Insert)
  {
    assert Steps(EMPTY, b, FindExisting, 1) == (EMPTY, Advance);
    assert Steps(EMPTY, b, FindExisting, 2) == (EMPTY, Restart);
    assert Steps(EMPTY, b, FindExisting, 3) == (EMPTY, CreateCursor);
  }

  lemma SecondRestarts(a: Batch, b: Batch)
    requires b.sequence < a.sequence
    ensures Steps(Store(Some(a), map[]), b, FindExisting, 5) == (Store(Some(b), map[b.sequence := b.id]), Done(true))
  {
    var st := Store(Some(a), map[]);
    assert Steps(st, b, FindExisting, 1) == (st, Advance);
    assert Steps(st, b, FindExisting, 2) == (st, Restart);
    assert Steps(st, b, FindExisting, 3) == (WithCursor(st, b), Purge);
    assert Steps(st, b, FindExisting, 4) == (Store(Some(b), map[]), Insert);
  }

  lemma BothArrive(a: Batch, b: Batch) returns (moves: seq<Move>)
    ensures Interleaved(moves) == System(EMPTY, [Process(a, FindExisting), Process(b, FindExisting)], [])
  {
    moves := OneMore([], Arrive(a));
    assert [] + [Process(a, FindExisting)] == [Process(a, FindExisting)];
    moves := OneMore(moves, Arrive(b));
  }

  lemma InsertAbove(sys: System, a: Batch, b: Batch)
    requires |sys.processes| > 0 && sys.processes[0] == Process(a, Insert)
    requires sys.store == Store(Some(b), map[b.sequence := b.id]) && a.sequence != b.sequence && a.id != b.id
    ensures Moved(sys, Go(0)).store == Store(Some(b), map[b.sequence := b.id, a.sequence := a.id])
  {
  }

  /** A request that has moved the cursor is overtaken by a restart and inserts its marker afterwards. */
  lemma Overtaken(a: Batch, b: Batch) returns (moves: seq<Move>)
    requires b.sequence < a.sequence && a.id != b.id
    ensures Interleaved(moves).store == Store(Some(b), map[b.sequence := b.id, a.sequence := a.id])
  {
    moves := BothArrive(a, b);
    FirstCreatesCursor(a);
    moves := InARow(moves, 0, 4);
    SecondRestarts(a, b);
    moves := InARow(moves, 1, 5);
    InsertAbove(Interleaved(moves), a, b);
    moves := OneMore(moves, Go(0));
  }

  /** What holds of whole requests fails of interleaved operations: whenever a request is overtaken by a
      restart it can leave its marker above the cursor, and then any new batch of that sequence enters the
      collision branch. */
  lemma CollisionIsReachable(a: Batch, b: Batch, c: Batch) returns (moves: seq<Move>)
    requires b.sequence < a.sequence == c.sequence && a.id != b.id && a.id != c.id && b.id != c.id
    ensures !Bounded(Interleaved(moves).store)
    ensures ReachesCollision(Interleaved(moves).store, c)
  {
    moves := Overtaken(a, b);
    var st := Interleaved(moves).store;
    assert a.sequence in st.markers;
    CollidesExactly(st, c);
  }
}
