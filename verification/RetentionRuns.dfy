/** Retention over time: records arrive, fail and are deleted in passes (`backup_worker.py`), and what is
    retained online is compared with what one pass over the whole history would retain. */
module RetentionRuns {
  import opened Strings
  import opened Retention

  // ------------------------------------------------------------- deleting and keeping

  lemma RestrictSnoc(c: seq<Record>, ids: set<string>)
    requires c != []
    ensures Restrict(c, ids) == Restrict(c[..|c| - 1], ids) + (if c[|c| - 1].id in ids then [c[|c| - 1]] else [])
  {
    InitLast(c);
    FilterAppend(c[..|c| - 1], [c[|c| - 1]], (r: Record) => r.id in ids);
  }

  lemma KeysOfRestrict(c: seq<Record>, ids: set<string>, key: int -> int)
    ensures Keys(Restrict(c, ids), key) <= Keys(c, key)
    ensures |Keys(Restrict(c, ids), key)| <= |Keys(c, key)|
  {
    FilterMembers(c, (r: Record) => r.id in ids);
    KeysSubset(Restrict(c, ids), c, key);
    Subset(Keys(Restrict(c, ids), key), Keys(c, key));
  }

  lemma SnocKeys(c: seq<Record>, r: Record, key: int -> int)
    ensures Keys(c + [r], key) == Keys(c, key) + {key(r.createdAt)}
  {
    assert (c + [r])[..|c|] == c;
    KeysLast(c + [r], key);
  }

  /** As long as nothing retained is dropped, the buckets seen agree until the limit is reached. */
  lemma {:induction false} SameKeysUntilLimit(c: seq<Record>, ids: set<string>, limit: int, key: int -> int)
    requires Retained(c, limit, key) <= ids
    ensures |Keys(c, key)| < limit ==> Keys(Restrict(c, ids), key) == Keys(c, key)
    ensures |Keys(c, key)| >= limit ==> |Keys(Restrict(c, ids), key)| >= limit
  {
    if c != [] {
      var n := |c| - 1;
      var r := c[n];
      var a, b := Keys(c[..n], key), Keys(Restrict(c[..n], ids), key);
      SameKeysUntilLimit(c[..n], ids, limit, key);
      RestrictSnoc(c, ids);
      KeysLast(c, key);
      KeysOfRestrict(c, ids, key);
      if r.id in ids {
        SnocKeys(Restrict(c[..n], ids), r, key);
        Subset(b, Keys(Restrict(c, ids), key));
      } else {
        assert Restrict(c, ids) == Restrict(c[..n], ids);
        assert |a| < limit ==> a + {key(r.createdAt)} == a;
      }
    }
  }

  lemma RetainedSnoc(c: seq<Record>, r: Record, limit: int, key: int -> int)
    ensures Retained(c + [r], limit, key) ==
            Retained(c, limit, key)
            + (if key(r.createdAt) !in Keys(c, key) && |Keys(c, key)| < limit then {r.id} else {})
  {
    assert (c + [r])[..|c|] == c;
  }

  /** Dropping any records that are not retained changes nothing about what is retained. */
  lemma {:induction false} DroppingUnretained(c: seq<Record>, ids: set<string>, limit: int, key: int -> int)
    requires Retained(c, limit, key) <= ids
    ensures Retained(Restrict(c, ids), limit, key) == Retained(c, limit, key)
  {
    if c != [] {
      var n := |c| - 1;
      DroppingUnretained(c[..n], ids, limit, key);
      SameKeysUntilLimit(c[..n], ids, limit, key);
      RestrictSnoc(c, ids);
      if c[n].id in ids {
        RetainedSnoc(Restrict(c[..n], ids), c[n], limit, key);
      } else {
        assert Restrict(c, ids) == Restrict(c[..n], ids);
      }
    }
  }

  /** More records can only push others out: what is kept of a larger list is kept of a smaller. */
  lemma {:induction false} FewerRecordsKeepMore(c: seq<Record>, ids: set<string>, limit: int, key: int -> int)
    ensures Retained(c, limit, key) * ids <= Retained(Restrict(c, ids), limit, key)
  {
    if c != [] {
      var n := |c| - 1;
      FewerRecordsKeepMore(c[..n], ids, limit, key);
      KeysOfRestrict(c[..n], ids, key);
      RestrictSnoc(c, ids);
      if c[n].id in ids {
        RetainedSnoc(Restrict(c[..n], ids), c[n], limit, key);
      } else {
        assert Restrict(c, ids) == Restrict(c[..n], ids);
      }
    }
  }

  /** Restricting the stored records and restricting the sorted candidates are the same. */
  lemma RestrictCandidates(records: seq<Record>, ids: set<string>)
    ensures NewestFirst(Candidates(Restrict(records, ids))) == Restrict(NewestFirst(Candidates(records)), ids)
  {
    var p := (r: Record) => r.id in ids;
    FiltersCommute(records, p, Candidate);
    SortThenFilter(Candidates(records), p);
  }

  lemma DroppingKeepsRetainedIds(records: seq<Record>, ids: set<string>, p: Policy)
    requires RetainedIds(records, p) <= ids
    ensures RetainedIds(Restrict(records, ids), p) == RetainedIds(records, p)
  {
    var c := NewestFirst(Candidates(records));
    RestrictCandidates(records, ids);
    DroppingUnretained(c, ids, p.daily, p.calendar.day);
    DroppingUnretained(c, ids, p.weekly, p.calendar.week);
    DroppingUnretained(c, ids, p.monthly, p.calendar.month);
  }

  lemma RetainedIdsShrink(records: seq<Record>, ids: set<string>, p: Policy)
    ensures RetainedIds(records, p) * ids <= RetainedIds(Restrict(records, ids), p)
  {
    var c := NewestFirst(Candidates(records));
    RestrictCandidates(records, ids);
    FewerRecordsKeepMore(c, ids, p.daily, p.calendar.day);
    FewerRecordsKeepMore(c, ids, p.weekly, p.calendar.week);
    FewerRecordsKeepMore(c, ids, p.monthly, p.calendar.month);
  }

  // --------------------------------------------------------------------- whole histories

  /** Every record ever stored, in storage order, and the ids still present. */
  datatype History = History(all: seq<Record>, alive: set<string>) {
    function Current(): seq<Record> {
      Restrict(all, alive)
    }
  }

  datatype Event =
    | Arrive(record: Record, position: nat)
    | Delete(ids: set<string>)
    | Fail(id: string)

  /** A verification or rehearsal of the record went wrong. */
  function MarkFailed(records: seq<Record>, id: string): seq<Record> {
    if records == [] then []
    else
      var n := |records| - 1;
      var r := records[n];
      MarkFailed(records[..n], id) + [if r.id == id then r.(status := Failed) else r]
  }

  /** New records have new ids; a pass deletes only what it does not currently retain, and what fails
      is not retained. */
  predicate Allowed(h: History, e: Event, p: Policy) {
    match e
    case Arrive(r, i) => i <= |h.all| && r.id !in Ids(h.all) && r.id !in h.alive
    case Delete(ids) => ids !! RetainedIds(h.Current(), p)
    case Fail(id) => id !in RetainedIds(h.Current(), p)
  }

  function Step(h: History, e: Event): History {
    match e
    case Arrive(r, i) => if i <= |h.all| then History(h.all[..i] + [r] + h.all[i..], h.alive + {r.id}) else h
    case Delete(ids) => h.(alive := h.alive - ids)
    case Fail(id) => h.(all := MarkFailed(h.all, id))
  }

  ghost predicate AllowedRun(h: History, events: seq<Event>, p: Policy)
    decreases |events|
  {
    events == [] || (Allowed(h, events[0], p) && AllowedRun(Step(h, events[0]), events[1..], p))
  }

  function Run(h: History, events: seq<Event>): History
    decreases |events|
  {
    if events == [] then h else Run(Step(h, events[0]), events[1..])
  }

  lemma {:induction false} RestrictAll(s: seq<Record>, ids: set<string>)
    requires forall i :: 0 <= i < |s| ==> s[i].id in ids
    ensures Restrict(s, ids) == s
  {
    if s != [] {
      RestrictAll(s[1..], ids);
      assert s == [s[0]] + s[1..];
    }
  }

  lemma ArrivalKeepsHistory(all: seq<Record>, r: Record, i: nat)
    requires i <= |all| && r.id !in Ids(all)
    ensures Restrict(all[..i] + [r] + all[i..], Ids(all)) == all
  {
    var ids := Ids(all);
    var p := (x: Record) => x.id in ids;
    FilterAppend(all[..i] + [r], all[i..], p);
    FilterAppend(all[..i], [r], p);
    RestrictAll(all[..i], ids);
    RestrictAll(all[i..], ids);
    assert all[..i] + [] + all[i..] == all;
  }

  /** Nothing the full history would retain has been deleted. */
  predicate Safe(h: History, p: Policy) {
    RetainedIds(h.all, p) <= h.alive
  }

  /** Seen through its candidates a failed record is a removed one. */
  lemma {:induction false} FailingIsRemoving(records: seq<Record>, id: string)
    ensures Candidates(MarkFailed(records, id)) == Filter(Candidates(records), (r: Record) => r.id != id)
  {
    var q := (r: Record) => r.id != id;
    if records != [] {
      var n := |records| - 1;
      var r := records[n];
      var marked := if r.id == id then r.(status := Failed) else r;
      FailingIsRemoving(records[..n], id);
      InitLast(records);
      FilterAppend(MarkFailed(records[..n], id), [marked], Candidate);
      FilterAppend(records[..n], [r], Candidate);
      FilterAppend(Candidates(records[..n]), Candidates([r]), q);
      OneOrNone(marked, Candidate);
      OneOrNone(r, Candidate);
      OneOrNone(r, q);
      assert Filter([], q) == [];
    }
  }

  lemma FilterSame(c: seq<Record>, a: Record -> bool, b: Record -> bool)
    requires forall r :: r in c ==> a(r) == b(r)
    ensures Filter(c, a) == Filter(c, b)
  {
  }

  /** A record that is not retained can fail without any effect on what is. */
  lemma FailingUnretained(records: seq<Record>, id: string, p: Policy)
    requires id !in RetainedIds(records, p)
    ensures RetainedIds(MarkFailed(records, id), p) == RetainedIds(records, p)
  {
    var c, ids := Candidates(records), Ids(records) - {id};
    var q, without := (r: Record) => r.id in ids, (r: Record) => r.id != id;
    FailingIsRemoving(records, id);
    FilterMembers(records, Candidate);
    forall r | r in c ensures q(r) == without(r) {
      var i :| 0 <= i < |records| && records[i] == r;
    }
    FilterSame(c, q, without);
    FiltersCommute(records, q, Candidate);
    RetainedAreStored(records, p);
    DroppingKeepsRetainedIds(records, ids, p);
  }

  lemma ArrivedIds(all: seq<Record>, r: Record, i: nat)
    requires i <= |all|
    ensures Ids(all[..i] + [r] + all[i..]) == Ids(all) + {r.id}
  {
    IdsAppend(all[..i] + [r], all[i..]);
    IdsAppend(all[..i], [r]);
    IdsAppend(all[..i], all[i..]);
    assert all[..i] + all[i..] == all;
    assert Ids([r]) == {r.id} by { assert [r][0].id == r.id; }
  }

  lemma ArrivalKeepsSafe(h: History, r: Record, i: nat, p: Policy)
    requires Safe(h, p) && i <= |h.all| && r.id !in Ids(h.all)
    ensures RetainedIds(h.all[..i] + [r] + h.all[i..], p) <= h.alive + {r.id}
  {
    var all := h.all[..i] + [r] + h.all[i..];
    ArrivalKeepsHistory(h.all, r, i);
    RetainedIdsShrink(all, Ids(h.all), p);
    RetainedAreStored(all, p);
    ArrivedIds(h.all, r, i);
  }

  lemma StepKeepsSafe(h: History, e: Event, p: Policy)
    requires Safe(h, p) && Allowed(h, e, p)
    ensures Safe(Step(h, e), p)
  {
    match e
    case Arrive(r, i) => ArrivalKeepsSafe(h, r, i, p);
    case Delete(ids) =>
      DroppingKeepsRetainedIds(h.all, h.alive, p);
    case Fail(id) =>
      DroppingKeepsRetainedIds(h.all, h.alive, p);
      FailingUnretained(h.all, id, p);
  }

  /** Online equals offline: after any arrivals and any deletions and failures of records that were not
      retained at the time, what is retained of the survivors is what one pass over the full history retains,
      and all of it is still there. */
  lemma {:induction false} OnlineEqualsOffline(h: History, events: seq<Event>, p: Policy)
    requires Safe(h, p) && AllowedRun(h, events, p)
    ensures var end := Run(h, events);
            && Safe(end, p)
            && RetainedIds(end.Current(), p) == RetainedIds(end.all, p)
    decreases |events|
  {
    if events == [] {
      DroppingKeepsRetainedIds(h.all, h.alive, p);
    } else {
      StepKeepsSafe(h, events[0], p);
      OnlineEqualsOffline(Step(h, events[0]), events[1..], p);
    }
  }

  // ------------------------------------------------------------------ the deletion pass

  /** The branch taken for one record of the pass. */
  predicate Doomed(r: Record, retained: set<string>, protected: set<string>) {
    && r.origin == Scheduled && r.stored
    && r.id !in retained && r.id !in protected
    && (Ready(r.status) || r.status == Expired)
  }

  /** A doomed record disappears, or stays as expired when its artifact could not be deleted. */
  function AfterPass(records: seq<Record>, retained: set<string>, protected: set<string>,
                     stuck: set<string>): seq<Record> {
    if records == [] then []
    else
      var n := |records| - 1;
      var r := records[n];
      AfterPass(records[..n], retained, protected, stuck)
      + (if !Doomed(r, retained, protected) then [r]
         else if r.id in stuck then [r.(status := Expired)]
         else [])
  }

  /** A scheduled backup with an artifact, finished and not failed, that is neither kept for its day, week or
      month nor the target of an active restore. */
  predicate GoesAway(records: seq<Record>, i: nat, p: Policy, protected: set<string>)
    requires i < |records|
  {
    var r := records[i];
    && r.origin == Scheduled && r.stored && r.status != Queued && r.status != Running && r.status != Failed
    && !KeptBy(records, i, p) && r.id !in protected
  }

  /** What a pass leaves: every record that goes away is gone, or expired when its artifact could not be
      deleted; every other record is untouched; and nothing else is there. */
  ghost predicate PassDone(before: seq<Record>, after: seq<Record>, p: Policy, protected: set<string>,
                           stuck: set<string>) {
    && (forall i :: 0 <= i < |before| && !GoesAway(before, i, p, protected) ==> before[i] in after)
    && (forall i :: 0 <= i < |before| && GoesAway(before, i, p, protected) ==>
          if before[i].id in stuck then before[i].(status := Expired) in after else before[i].id !in Ids(after))
    && (forall x :: x in after ==>
          exists i :: 0 <= i < |before| && (x == before[i] || x == before[i].(status := Expired)))
  }

  /** One record of the pass: what it leaves behind is in the result. */
  predicate LeftBy(r: Record, x: Record, retained: set<string>, protected: set<string>, stuck: set<string>) {
    if Doomed(r, retained, protected) then r.id in stuck && x == r.(status := Expired) else x == r
  }

  lemma {:induction false} AfterPassMembers(records: seq<Record>, retained: set<string>, protected: set<string>,
                                            stuck: set<string>, x: Record)
    ensures x in AfterPass(records, retained, protected, stuck) <==>
            exists i :: 0 <= i < |records| && LeftBy(records[i], x, retained, protected, stuck)
  {
    if records != [] {
      var n := |records| - 1;
      var front := records[..n];
      AfterPassMembers(front, retained, protected, stuck, x);
      if i :| 0 <= i < n && LeftBy(front[i], x, retained, protected, stuck) {
        assert LeftBy(records[i], x, retained, protected, stuck);
      }
      if i :| 0 <= i < |records| && LeftBy(records[i], x, retained, protected, stuck) {
        assert i < n ==> LeftBy(front[i], x, retained, protected, stuck);
      }
    }
  }

  lemma DoomedGoesAway(records: seq<Record>, i: nat, p: Policy, protected: set<string>)
    requires UniqueIds(records) && i < |records|
    ensures Doomed(records[i], RetainedIds(records, p), protected) <==> GoesAway(records, i, p, protected)
  {
    RetainedAreKept(records, p);
  }

  lemma PassIsDone(records: seq<Record>, p: Policy, protected: set<string>, stuck: set<string>)
    requires UniqueIds(records)
    ensures PassDone(records, AfterPass(records, RetainedIds(records, p), protected, stuck), p, protected, stuck)
  {
    var retained := RetainedIds(records, p);
    var after := AfterPass(records, retained, protected, stuck);
    forall i | 0 <= i < |records|
      ensures !GoesAway(records, i, p, protected) ==> records[i] in after
      ensures GoesAway(records, i, p, protected) ==>
                if records[i].id in stuck then records[i].(status := Expired) in after else records[i].id !in Ids(after)
    {
      var r := records[i];
      DoomedGoesAway(records, i, p, protected);
      var x := if Doomed(r, retained, protected) then r.(status := Expired) else r;
      AfterPassMembers(records, retained, protected, stuck, x);
      if r.id in Ids(after) {
        var k :| 0 <= k < |after| && after[k].id == r.id;
        AfterPassMembers(records, retained, protected, stuck, after[k]);
        assert after[k] in after;
        var j :| 0 <= j < |records| && LeftBy(records[j], after[k], retained, protected, stuck);
        assert records[j].id == r.id;
      }
      assert LeftBy(r, x, retained, protected, stuck) || (Doomed(r, retained, protected) && r.id !in stuck);
    }
    forall x | x in after
      ensures exists i :: 0 <= i < |records| && (x == records[i] || x == records[i].(status := Expired))
    {
      AfterPassMembers(records, retained, protected, stuck, x);
      var i :| 0 <= i < |records| && LeftBy(records[i], x, retained, protected, stuck);
    }
  }

  class BackupStore {
    var records: seq<Record>

    /** One retention pass; `protected` are targets of active restores and `stuck` the ids whose
        artifact deletion fails. */
    method ApplyRetention(p: Policy, protected: set<string>, stuck: set<string>)
      modifies this
      ensures records == AfterPass(old(records), RetainedIds(old(records), p), protected, stuck)
      ensures UniqueIds(old(records)) ==> PassDone(old(records), records, p, protected, stuck)
    {
      if UniqueIds(records) {
        PassIsDone(records, p, protected, stuck);
      }
      var retained := RetainedScheduledBackupIds(records, p);
      var kept: seq<Record> := [];
      for i := 0 to |records|
        invariant records == old(records)
        invariant kept == AfterPass(records[..i], retained, protected, stuck)
      {
        var r := records[i];
        assert records[..i + 1][..i] == records[..i];
        if r.origin != Scheduled || !r.stored || r.id in retained || r.id in protected
           || (!Ready(r.status) && r.status != Expired) {
          kept := kept + [r];
        } else if r.id in stuck {
          kept := kept + [r.(status := Expired)];
        }
      }
      assert records[..|records|] == records;
      records := kept;
    }
  }

  function Survivors(records: seq<Record>, retained: set<string>, protected: set<string>): set<string> {
    set i | 0 <= i < |records| && !Doomed(records[i], retained, protected) :: records[i].id
  }

  /** Seen through its candidates a pass is a plain deletion of unretained records. */
  lemma {:induction false} PassIsDeletion(records: seq<Record>, retained: set<string>, protected: set<string>,
                                          stuck: set<string>, ids: set<string>)
    requires forall i :: 0 <= i < |records| ==> (records[i].id in ids <==> !Doomed(records[i], retained, protected))
    ensures Candidates(AfterPass(records, retained, protected, stuck)) == Candidates(Restrict(records, ids))
  {
    if records != [] {
      var n := |records| - 1;
      var r := records[n];
      PassIsDeletion(records[..n], retained, protected, stuck, ids);
      RestrictSnoc(records, ids);
      var last :=
        if !Doomed(r, retained, protected) then [r] else if r.id in stuck then [r.(status := Expired)] else [];
      FilterAppend(AfterPass(records[..n], retained, protected, stuck), last, Candidate);
      FilterAppend(Restrict(records[..n], ids), if r.id in ids then [r] else [], Candidate);
      assert Filter([r.(status := Expired)], Candidate) == [] by {
        assert !Candidate(r.(status := Expired));
      }
      assert Filter([], Candidate) == [];
    }
  }

  /** A pass is idempotent on the retained set, whatever is protected and whichever deletions fail. */
  lemma PassKeepsRetained(records: seq<Record>, p: Policy, protected: set<string>, stuck: set<string>)
    requires UniqueIds(records)
    ensures RetainedIds(AfterPass(records, RetainedIds(records, p), protected, stuck), p) == RetainedIds(records, p)
  {
    var retained := RetainedIds(records, p);
    var ids := Survivors(records, retained, protected);
    RetainedAreStored(records, p);
    forall i | 0 <= i < |records|
      ensures records[i].id in ids <==> !Doomed(records[i], retained, protected)
    {
    }
    assert retained <= ids;
    PassIsDeletion(records, retained, protected, stuck, ids);
    DroppingKeepsRetainedIds(records, ids, p);
  }

  // ---------------------------------------------------------------- where it stops holding

  /** The survivors retain what the full history retains exactly when nothing that the full
      history retains has been deleted. */
  lemma AgreesExactlyWhenSafe(h: History, p: Policy)
    ensures RetainedIds(h.Current(), p) == RetainedIds(h.all, p) <==> Safe(h, p)
  {
    if Safe(h, p) {
      DroppingKeepsRetainedIds(h.all, h.alive, p);
    }
    RetainedAreStored(h.Current(), p);
    FilterMembers(h.all, (r: Record) => r.id in h.alive);
    forall id | id in Ids(h.Current())
      ensures id in h.alive
    {
      var i :| 0 <= i < |h.Current()| && h.Current()[i].id == id;
      assert h.Current()[i] in h.Current();
    }
  }

  // A record that is retained must not fail: behind it an equally old record may have been deleted.

  predicate Agrees(h: History, p: Policy) {
    RetainedIds(h.Current(), p) == RetainedIds(h.all, p)
  }

  const START := History([], {})

  /** Whatever led to these stored records, online and offline still agree after the failure. */
  ghost predicate FailureHarmless(current: seq<Record>, id: string, p: Policy) {
    forall events :: AllowedRun(START, events, p) && Run(START, events).Current() == current ==>
      Agrees(Step(Run(START, events), Fail(id)), p)
  }

  /** The records under another id for one of them; nothing that is compared changes. */
  function Renamed(s: seq<Record>, id: string, other: string): seq<Record> {
    if s == [] then []
    else [if s[0].id == id then s[0].(id := other) else s[0]] + Renamed(s[1..], id, other)
  }

  lemma {:induction false} RenamedAppend(a: seq<Record>, b: seq<Record>, id: string, other: string)
    ensures Renamed(a + b, id, other) == Renamed(a, id, other) + Renamed(b, id, other)
  {
    if a == [] {
      assert a + b == b;
    } else {
      assert (a + b)[1..] == a[1..] + b;
      RenamedAppend(a[1..], b, id, other);
    }
  }

  /** Without the id, renaming and removing it change nothing. */
  lemma {:induction false} WithoutId(s: seq<Record>, id: string, other: string)
    requires id !in Ids(s)
    ensures Renamed(s, id, other) == s && Filter(s, (r: Record) => r.id != id) == s
  {
    if s != [] {
      assert s[0].id in Ids(s);
      forall i | 0 <= i < |s[1..]| ensures s[1..][i].id in Ids(s) {
        assert s[1..][i] == s[i + 1];
      }
      WithoutId(s[1..], id, other);
      assert s == [s[0]] + s[1..];
    }
  }

  lemma {:induction false} RenamedCandidates(s: seq<Record>, id: string, other: string)
    ensures Candidates(Renamed(s, id, other)) == Renamed(Candidates(s), id, other)
  {
    if s != [] {
      var r := if s[0].id == id then s[0].(id := other) else s[0];
      var rest := Renamed(s[1..], id, other);
      RenamedCandidates(s[1..], id, other);
      assert ([r] + rest)[1..] == rest;
      if Candidate(s[0]) {
        assert ([s[0]] + Candidates(s[1..]))[1..] == Candidates(s[1..]);
      }
    }
  }

  lemma {:induction false} RenamedInsert(r: Record, s: seq<Record>, id: string, other: string)
    ensures Renamed(Insert(r, s), id, other) ==
            Insert(if r.id == id then r.(id := other) else r, Renamed(s, id, other))
  {
    var named := if r.id == id then r.(id := other) else r;
    if s == [] || r.createdAt >= s[0].createdAt {
      assert ([r] + s)[1..] == s;
    } else {
      RenamedInsert(r, s[1..], id, other);
      assert Insert(r, s)[1..] == Insert(r, s[1..]);
      assert Renamed(s, id, other)[1..] == Renamed(s[1..], id, other);
    }
  }

  lemma {:induction false} RenamedSort(s: seq<Record>, id: string, other: string)
    ensures NewestFirst(Renamed(s, id, other)) == Renamed(NewestFirst(s), id, other)
  {
    if s != [] {
      RenamedSort(s[1..], id, other);
      RenamedInsert(s[0], NewestFirst(s[1..]), id, other);
      assert Renamed(s, id, other)[1..] == Renamed(s[1..], id, other);
    }
  }

  lemma {:induction false} RenamedAt(s: seq<Record>, id: string, other: string)
    ensures |Renamed(s, id, other)| == |s|
    ensures forall i :: 0 <= i < |s| ==> Renamed(s, id, other)[i] == if s[i].id == id then s[i].(id := other) else s[i]
  {
    if s != [] {
      RenamedAt(s[1..], id, other);
      forall i | 0 <= i < |s| ensures Renamed(s, id, other)[i] == if s[i].id == id then s[i].(id := other) else s[i] {
        if i > 0 {
          assert s[i] == s[1..][i - 1];
        }
      }
    }
  }

  /** If the record is retained, so is the one that takes its name's place. */
  lemma {:induction false} RenamedRetained(c: seq<Record>, id: string, other: string, limit: int, key: int -> int)
    requires id in Retained(c, limit, key)
    ensures other in Retained(Renamed(c, id, other), limit, key)
  {
    var n := |c| - 1;
    var d, last := Renamed(c[..n], id, other), Renamed([c[n]], id, other);
    InitLast(c);
    RenamedAppend(c[..n], [c[n]], id, other);
    assert [c[n]][1..] == [] && last == [last[0]] + [];
    RetainedSnoc(d, last[0], limit, key);
    if id in Retained(c[..n], limit, key) {
      RenamedRetained(c[..n], id, other, limit, key);
    } else {
      SameInstantsSameKeys(c[..n], d, key) by {
        RenamedAt(c[..n], id, other);
      }
    }
  }

  lemma SameInstantsSameKeys(a: seq<Record>, b: seq<Record>, key: int -> int)
    requires |a| == |b| && forall i :: 0 <= i < |a| ==> a[i].createdAt == b[i].createdAt
    ensures Keys(a, key) == Keys(b, key)
  {
    forall k ensures k in Keys(a, key) <==> k in Keys(b, key) {
      if k in Keys(a, key) {
        var i :| 0 <= i < |a| && k == key(a[i].createdAt);
        assert key(b[i].createdAt) in Keys(b, key);
      }
      if k in Keys(b, key) {
        var i :| 0 <= i < |b| && k == key(b[i].createdAt);
        assert key(a[i].createdAt) in Keys(a, key);
      }
    }
  }

  lemma RenamedIsRetained(records: seq<Record>, id: string, other: string, p: Policy)
    requires id in RetainedIds(records, p)
    ensures other in RetainedIds(Renamed(records, id, other), p)
  {
    var c := NewestFirst(Candidates(records));
    RenamedCandidates(records, id, other);
    RenamedSort(Candidates(records), id, other);
    if id in Retained(c, p.daily, p.calendar.day) {
      RenamedRetained(c, id, other, p.daily, p.calendar.day);
    } else if id in Retained(c, p.weekly, p.calendar.week) {
      RenamedRetained(c, id, other, p.weekly, p.calendar.week);
    } else {
      RenamedRetained(c, id, other, p.monthly, p.calendar.month);
    }
  }

  /** The twin: same instant, other id, stored just after its record. */
  function WithTwin(current: seq<Record>, i: nat, other: string): seq<Record>
    requires i < |current|
  {
    current[..i + 1] + [current[i].(id := other)] + current[i + 1..]
  }

  lemma FilterAround(front: seq<Record>, x: Record, twin: Record, back: seq<Record>, q: Record -> bool)
    ensures Filter(front + [x] + [twin] + back, q) ==
            Filter(front, q) + (if q(x) then [x] else []) + (if q(twin) then [twin] else []) + Filter(back, q)
  {
    FilterAppend(front + [x] + [twin], back, q);
    FilterAppend(front + [x], [twin], q);
    FilterAppend(front, [x], q);
    OneOrNone(x, q);
    OneOrNone(twin, q);
  }

  lemma RenamedAround(front: seq<Record>, r: Record, back: seq<Record>, other: string)
    ensures Renamed(front + [r] + back, r.id, other) ==
            Renamed(front, r.id, other) + [r.(id := other)] + Renamed(back, r.id, other)
  {
    RenamedAppend(front + [r], back, r.id, other);
    RenamedAppend(front, [r], r.id, other);
    assert [r][1..] == [] && Renamed([r], r.id, other) == [r.(id := other)];
  }

  lemma AroundTwin(current: seq<Record>, i: nat, other: string)
    requires i < |current| && UniqueIds(current)
    ensures current == current[..i] + [current[i]] + current[i + 1..]
    ensures WithTwin(current, i, other) ==
            current[..i] + [current[i]] + [current[i].(id := other)] + current[i + 1..]
    ensures current[i].id !in Ids(current[..i]) && current[i].id !in Ids(current[i + 1..])
  {
  }

  lemma OnlyTwinIsLeft(current: seq<Record>, i: nat, other: string)
    requires i < |current| && UniqueIds(current) && other !in Ids(current)
    ensures var x := current[i].id;
            Filter(WithTwin(current, i, other), (r: Record) => r.id != x) == Renamed(current, x, other)
  {
    var x, front, back := current[i].id, current[..i], current[i + 1..];
    AroundTwin(current, i, other);
    WithoutId(front, x, other);
    WithoutId(back, x, other);
    RenamedAround(front, current[i], back, other);
    assert other != x by { assert x in Ids(current); }
    FilterAround(front, current[i], current[i].(id := other), back, (r: Record) => r.id != x);
  }

  /** When the record fails, its twin stands where it stood. */
  lemma TwinTakesOver(current: seq<Record>, i: nat, other: string, p: Policy)
    requires i < |current| && UniqueIds(current) && other !in Ids(current)
    requires current[i].id in RetainedIds(current, p)
    ensures other in RetainedIds(MarkFailed(WithTwin(current, i, other), current[i].id), p)
  {
    var x, all := current[i].id, WithTwin(current, i, other);
    var without := (r: Record) => r.id != x;
    OnlyTwinIsLeft(current, i, other);
    FailingIsRemoving(all, x);
    FiltersCommute(all, without, Candidate);
    RenamedIsRetained(current, x, other, p);
  }

  /** Before that the twin is never retained: the record in front of it opens the bucket. */
  lemma {:induction false} SecondOfPair(c: seq<Record>, a: Record, b: Record, limit: int, key: int -> int)
    requires Filter(c, (r: Record) => r.id in {a.id, b.id}) == [a, b] && a.id != b.id && a.createdAt == b.createdAt
    ensures b.id !in Retained(c, limit, key)
  {
    var q := (r: Record) => r.id in {a.id, b.id};
    var n := |c| - 1;
    InitLast(c);
    FilterAppend(c[..n], [c[n]], q);
    OneOrNone(c[n], q);
    if q(c[n]) {
      assert Filter(c[..n], q) == [a, b][..1] == [a];
      assert c[n] == b;
      FilterMembers(c[..n], q);
      assert a in c[..n] by { assert a in Filter(c[..n], q); }
      var i :| 0 <= i < n && c[..n][i] == a;
      assert key(a.createdAt) in Keys(c[..n], key);
      forall j | 0 <= j < n ensures c[..n][j].id != b.id {
        assert c[..n][j] in Filter(c[..n], q) <==> q(c[..n][j]);
      }
      NotRetained(c[..n], b.id, limit, key);
    } else {
      SecondOfPair(c[..n], a, b, limit, key);
    }
  }

  lemma PairInOrder(current: seq<Record>, i: nat, other: string)
    requires i < |current| && UniqueIds(current) && other !in Ids(current) && Candidate(current[i])
    ensures var c := NewestFirst(Candidates(WithTwin(current, i, other)));
            var twin := current[i].(id := other);
            Filter(c, (r: Record) => r.id in {current[i].id, other}) == [current[i], twin]
  {
    var x, twin := current[i], current[i].(id := other);
    var front, back := current[..i], current[i + 1..];
    var q := (r: Record) => r.id in {x.id, other};
    var all := WithTwin(current, i, other);
    assert all == front + [x] + [twin] + back;
    FilterAround(front, x, twin, back, q);
    NoneOf(front, q) by {
      forall r | r in front ensures !q(r) {
        var j :| 0 <= j < i && front[j] == r;
        assert current[j].id in Ids(current);
      }
    }
    NoneOf(back, q) by {
      forall r | r in back ensures !q(r) {
        var j :| 0 <= j < |back| && back[j] == r;
        assert current[i + 1 + j].id in Ids(current);
      }
    }
    assert Filter(all, q) == [x] + [twin];
    FiltersCommute(all, q, Candidate);
    FilterAppend([x], [twin], Candidate);
    OneOrNone(x, Candidate);
    OneOrNone(twin, Candidate);
    SortThenFilter(Candidates(all), q);
    assert ([x] + [twin])[1..] == [twin] && [twin][1..] == [];
    assert NewestFirst([]) == [] && NewestFirst([twin]) == [twin];
    assert [x] + [twin] == [x, twin];
  }

  lemma TwinIsUnretained(current: seq<Record>, i: nat, other: string, p: Policy)
    requires i < |current| && UniqueIds(current) && other !in Ids(current) && Candidate(current[i])
    ensures other !in RetainedIds(WithTwin(current, i, other), p)
  {
    var c := NewestFirst(Candidates(WithTwin(current, i, other)));
    var x, twin := current[i], current[i].(id := other);
    PairInOrder(current, i, other);
    assert x.id != other by { assert x.id in Ids(current); }
    SecondOfPair(c, x, twin, p.daily, p.calendar.day);
    SecondOfPair(c, x, twin, p.weekly, p.calendar.week);
    SecondOfPair(c, x, twin, p.monthly, p.calendar.month);
  }

  // The run behind the counterexample: everything arrives, then a pass deletes the twin.

  function Arrivals(all: seq<Record>, k: nat, last: Event): seq<Event>
    requires k <= |all|
    decreases |all| - k
  {
    if k == |all| then [last] else [Arrive(all[k], k)] + Arrivals(all, k + 1, last)
  }

  lemma {:induction false} AllArrive(all: seq<Record>, k: nat, last: Event, p: Policy)
    requires k <= |all| && UniqueIds(all) && Allowed(History(all, Ids(all)), last, p)
    ensures var h := History(all[..k], Ids(all[..k]));
            && AllowedRun(h, Arrivals(all, k, last), p)
            && Run(h, Arrivals(all, k, last)) == Step(History(all, Ids(all)), last)
    decreases |all| - k
  {
    var h, events := History(all[..k], Ids(all[..k])), Arrivals(all, k, last);
    if k == |all| {
      assert all[..k] == all;
      assert events[1..] == [];
    } else {
      var next := Step(h, events[0]);
      TakeOneMore(all, k);
      assert all[..k][..k] + [all[k]] + all[..k][k..] == all[..k + 1];
      OneMoreId(all, k);
      assert events[1..] == Arrivals(all, k + 1, last);
      AllArrive(all, k + 1, last, p);
    }
  }

  lemma OneMoreId(all: seq<Record>, k: nat)
    requires k < |all| && UniqueIds(all)
    ensures Ids(all[..k + 1]) == Ids(all[..k]) + {all[k].id} && all[k].id !in Ids(all[..k])
  {
    forall id ensures id in Ids(all[..k + 1]) <==> id in Ids(all[..k]) || id == all[k].id {
      if id in Ids(all[..k + 1]) {
        var i :| 0 <= i < k + 1 && all[..k + 1][i].id == id;
        assert i < k ==> all[..k][i].id == id;
      }
      if id in Ids(all[..k]) {
        var i :| 0 <= i < k && all[..k][i].id == id;
        assert all[..k + 1][i].id == id;
      }
      assert all[..k + 1][k].id == all[k].id;
    }
  }

  lemma IdsAppend(a: seq<Record>, b: seq<Record>)
    ensures Ids(a + b) == Ids(a) + Ids(b)
  {
    forall id ensures id in Ids(a + b) <==> id in Ids(a) || id in Ids(b) {
      if id in Ids(a) {
        var i :| 0 <= i < |a| && a[i].id == id;
        assert (a + b)[i].id == id;
      }
      if id in Ids(b) {
        var i :| 0 <= i < |b| && b[i].id == id;
        assert (a + b)[|a| + i].id == id;
      }
    }
  }

  lemma TwinIds(current: seq<Record>, i: nat, other: string)
    requires i < |current|
    ensures Ids(WithTwin(current, i, other)) == Ids(current) + {other}
  {
    var front, twin, back := current[..i + 1], [current[i].(id := other)], current[i + 1..];
    IdsAppend(front + twin, back);
    IdsAppend(front, twin);
    IdsAppend(front, back);
    assert front + back == current;
    assert Ids(twin) == {other} by { assert twin[0].id == other; }
  }

  lemma TwinIsUnique(current: seq<Record>, i: nat, other: string)
    requires i < |current| && UniqueIds(current) && other !in Ids(current)
    ensures UniqueIds(WithTwin(current, i, other))
  {
    var all := WithTwin(current, i, other);
    assert forall j :: 0 <= j <= i ==> all[j] == current[j];
    assert forall j :: i + 1 < j < |all| ==> all[j] == current[j - 1];
    forall j | 0 <= j < |current| ensures current[j].id != other {
      assert current[j].id in Ids(current);
    }
  }

  /** An id no record carries. */
  lemma {:induction false} UnusedId(records: seq<Record>) returns (id: string)
    ensures id !in Ids(records)
    ensures id != [] && forall i :: 0 <= i < |records| ==> |records[i].id| < |id|
  {
    if records == [] {
      id := "x";
    } else {
      var n := |records| - 1;
      id := UnusedId(records[..n]);
      id := id + records[n].id;
      forall i | 0 <= i < |records| ensures |records[i].id| < |id| {
        assert i < n ==> records[i] == records[..n][i];
      }
    }
  }

  lemma RetainedIsCandidate(records: seq<Record>, id: string, p: Policy) returns (i: nat)
    requires id in RetainedIds(records, p)
    ensures i < |records| && records[i].id == id && Candidate(records[i])
  {
    var c := NewestFirst(Candidates(records));
    NewestFirstSorts(Candidates(records));
    FilterMembers(records, Candidate);
    RetainedFromRecords(c, p.daily, p.calendar.day);
    RetainedFromRecords(c, p.weekly, p.calendar.week);
    RetainedFromRecords(c, p.monthly, p.calendar.month);
    var k :| 0 <= k < |c| && c[k].id == id;
    assert c[k] in multiset(c);
    assert c[k] in Candidates(records);
    i :| 0 <= i < |records| && records[i] == c[k];
  }

  lemma CurrentIsStored(h: History, p: Policy)
    ensures RetainedIds(h.Current(), p) <= h.alive
  {
    RetainedAreStored(h.Current(), p);
    FilterMembers(h.all, (r: Record) => r.id in h.alive);
    forall id | id in Ids(h.Current()) ensures id in h.alive {
      var i :| 0 <= i < |h.Current()| && h.Current()[i].id == id;
      assert h.Current()[i] in h.Current();
    }
  }

  /** Everything arrives, the twin included, and a pass deletes the twin. */
  lemma TwinRun(current: seq<Record>, i: nat, other: string, p: Policy) returns (events: seq<Event>)
    requires i < |current| && UniqueIds(current) && other !in Ids(current) && Candidate(current[i])
    ensures AllowedRun(START, events, p)
    ensures Run(START, events) == History(WithTwin(current, i, other), Ids(current))
  {
    var all := WithTwin(current, i, other);
    var full, last := History(all, Ids(all)), Delete({other});
    TwinIds(current, i, other);
    TwinIsUnique(current, i, other);
    TwinIsUnretained(current, i, other, p);
    RestrictAll(all, Ids(all));
    assert Allowed(full, last, p);
    AllArrive(all, 0, last, p);
    assert all[..0] == [] && Ids([]) == {};
    events := Arrivals(all, 0, last);
    assert Ids(all) - {other} == Ids(current);
  }

  lemma WithoutTwin(current: seq<Record>, i: nat, other: string)
    requires i < |current| && other !in Ids(current)
    ensures Restrict(WithTwin(current, i, other), Ids(current)) == current
  {
    ArrivalKeepsHistory(current, current[i].(id := other), i + 1);
  }

  /** For a retained record there is a run after which its failure parts online from offline. */
  lemma RetainedFailureHarms(current: seq<Record>, id: string, p: Policy) returns (events: seq<Event>)
    requires UniqueIds(current) && id in RetainedIds(current, p)
    ensures AllowedRun(START, events, p) && Run(START, events).Current() == current
    ensures !Agrees(Step(Run(START, events), Fail(id)), p)
  {
    var i := RetainedIsCandidate(current, id, p);
    var other := UnusedId(current);
    events := TwinRun(current, i, other, p);
    WithoutTwin(current, i, other);
    TwinTakesOver(current, i, other, p);
    CurrentIsStored(Step(Run(START, events), Fail(id)), p);
  }

  /** The condition on a failure, told from the stored records before it happens: it is harmless whatever
      happened before if and only if the record is not retained. */
  lemma FailureHarmlessExactly(current: seq<Record>, id: string, p: Policy)
    requires UniqueIds(current)
    ensures FailureHarmless(current, id, p) <==> id !in RetainedIds(current, p)
  {
    if id in RetainedIds(current, p) {
      var events := RetainedFailureHarms(current, id, p);
    } else {
      forall events | AllowedRun(START, events, p) && Run(START, events).Current() == current
        ensures Agrees(Step(Run(START, events), Fail(id)), p)
      {
        var h := Run(START, events);
        assert RetainedIds(START.all, p) <= {} by {
          RetainedAreStored([], p);
        }
        OnlineEqualsOffline(START, events, p);
        StepKeepsSafe(h, Fail(id), p);
        AgreesExactlyWhenSafe(Step(h, Fail(id)), p);
      }
    }
  }

  lemma OneCandidate(r: Record)
    requires Candidate(r)
    ensures NewestFirst(Candidates([r])) == [r]
  {
    assert [r][1..] == [];
    assert Filter([], Candidate) == [];
    assert Candidates([r]) == [r];
    assert NewestFirst([]) == [];
  }

  lemma OneRetained(r: Record, key: int -> int)
    ensures Retained([r], 1, key) == {r.id} && Keys([r], key) == {key(r.createdAt)}
  {
    assert [r][..0] == [];
    assert Keys([], key) == {};
    KeysLast([r], key);
  }

  lemma DailyOnly(p: Policy, c: seq<Record>)
    requires p.weekly <= 0 && p.monthly <= 0
    ensures RetainedOf(c, p) == Retained(c, p.daily, p.calendar.day)
  {
    RetainedBound(c, p.weekly, p.calendar.week);
    RetainedBound(c, p.monthly, p.calendar.month);
  }

  /** The guarantee does not cover the failure of a retained record.  When the one record kept of a day
      later fails a rehearsal, the full history would fall back to its older neighbour, which a pass has
      already deleted: nothing of that day is retained any more. */
  lemma FailedRehearsalLosesBucket(p: Policy, older: Record, newer: Record)
    requires p.daily == 1 && p.weekly <= 0 && p.monthly <= 0
    requires Candidate(older) && Candidate(newer) && older.id != newer.id && older.createdAt < newer.createdAt
    requires p.calendar.day(older.createdAt) == p.calendar.day(newer.createdAt)
    ensures older.id !in RetainedIds([older, newer], p)
    ensures RetainedIds([newer.(status := Failed)], p) == {}
    ensures RetainedIds([older, newer.(status := Failed)], p) == {older.id}
  {
    var day, failed := p.calendar.day, newer.(status := Failed);
    PairAndFailure(older, newer, failed);
    OneRetained(older, day);
    OneRetained(newer, day);
    DailyOnly(p, [newer, older]);
    DailyOnly(p, [older]);
    DailyOnly(p, []);
    RetainedSnoc([newer], older, 1, day);
    assert [newer] + [older] == [newer, older];
  }

  lemma PairAndFailure(older: Record, newer: Record, failed: Record)
    requires Candidate(older) && Candidate(newer) && older.createdAt < newer.createdAt && !Candidate(failed)
    ensures NewestFirst(Candidates([older, newer])) == [newer, older]
    ensures NewestFirst(Candidates([older, failed])) == [older]
    ensures NewestFirst(Candidates([failed])) == []
  {
    FilterAppend([older], [newer], Candidate);
    FilterAppend([older], [failed], Candidate);
    assert [older] + [newer] == [older, newer] && [older] + [failed] == [older, failed];
    OneCandidate(older);
    OneCandidate(newer);
    assert [failed][1..] == [];
    var both := Candidates([older]) + Candidates([newer]);
    assert both[1..] == Candidates([newer]);
  }
}
