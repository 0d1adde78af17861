/** Retention of scheduled backups: `retained_scheduled_backup_ids` and the deletion passes of
    `BackupWorker._apply_retention`.  The calendar is any three functions from instants to
    bucket numbers; nothing below needs more. */
module Retention {
  import opened Strings

  datatype Origin = Scheduled | Manual

  datatype Status = Queued | Running | Verified | Rehearsed | Restored | Failed | Expired

  datatype Record = Record(id: string, createdAt: int, origin: Origin, stored: bool, status: Status)

  /** `created_at` to UTC date, ISO week and month. */
  datatype Calendar = Calendar(day: int -> int, week: int -> int, month: int -> int)

  datatype Policy = Policy(daily: int, weekly: int, monthly: int, calendar: Calendar)

  predicate Ready(s: Status) {
    s == Verified || s == Rehearsed || s == Restored
  }

  predicate Candidate(r: Record) {
    r.origin == Scheduled && r.stored && Ready(r.status)
  }

  function Filter(s: seq<Record>, p: Record -> bool): seq<Record> {
    if s == [] then []
    else if p(s[0]) then [s[0]] + Filter(s[1..], p)
    else Filter(s[1..], p)
  }

  function Candidates(records: seq<Record>): seq<Record> {
    Filter(records, Candidate)
  }

  /** The records whose id is in `ids`, in order. */
  function Restrict(s: seq<Record>, ids: set<string>): seq<Record> {
    Filter(s, (r: Record) => r.id in ids)
  }

  // ------------------------------------------------------ stable sort, newest first

  function Insert(r: Record, s: seq<Record>): seq<Record> {
    if s == [] || r.createdAt >= s[0].createdAt then [r] + s else [s[0]] + Insert(r, s[1..])
  }

  /** `sort(key=created_at, reverse=True)`: equal instants keep their order. */
  function NewestFirst(s: seq<Record>): seq<Record> {
    if s == [] then [] else Insert(s[0], NewestFirst(s[1..]))
  }

  predicate Descending(s: seq<Record>) {
    forall i, j :: 0 <= i < j < |s| ==> s[i].createdAt >= s[j].createdAt
  }

  lemma {:induction false} InsertIsPermutation(r: Record, s: seq<Record>)
    ensures multiset(Insert(r, s)) == multiset(s) + multiset{r}
  {
    if s != [] && r.createdAt < s[0].createdAt {
      InsertIsPermutation(r, s[1..]);
      assert s == [s[0]] + s[1..];
    } else {
      assert multiset([r] + s) == multiset{r} + multiset(s);
    }
  }

  lemma InsertMembers(r: Record, s: seq<Record>, x: Record)
    requires x in Insert(r, s)
    ensures x == r || x in s
  {
    InsertIsPermutation(r, s);
    assert x in multiset(Insert(r, s));
  }

  lemma {:induction false} InsertDescending(r: Record, s: seq<Record>)
    requires Descending(s)
    ensures Descending(Insert(r, s))
  {
    if s != [] && r.createdAt < s[0].createdAt {
      var rest := Insert(r, s[1..]);
      InsertDescending(r, s[1..]);
      forall j | 0 <= j < |rest|
        ensures s[0].createdAt >= rest[j].createdAt
      {
        InsertMembers(r, s[1..], rest[j]);
      }
    }
  }

  lemma {:induction false} NewestFirstSorts(s: seq<Record>)
    ensures Descending(NewestFirst(s))
    ensures multiset(NewestFirst(s)) == multiset(s)
  {
    if s != [] {
      NewestFirstSorts(s[1..]);
      InsertDescending(s[0], NewestFirst(s[1..]));
      InsertIsPermutation(s[0], NewestFirst(s[1..]));
      assert s == [s[0]] + s[1..];
    }
  }

  lemma {:induction false} FilterInsert(r: Record, s: seq<Record>, p: Record -> bool)
    requires Descending(s)
    ensures Filter(Insert(r, s), p) == if p(r) then Insert(r, Filter(s, p)) else Filter(s, p)
  {
    if s == [] || r.createdAt >= s[0].createdAt {
      assert Insert(r, s)[1..] == s;
      FilterHead(r, s, p);
    } else {
      FilterInsert(r, s[1..], p);
      assert Insert(r, s)[1..] == Insert(r, s[1..]);
      if p(s[0]) && p(r) {
        assert Filter(s, p)[0] == s[0] && Filter(s, p)[1..] == Filter(s[1..], p);
      }
    }
  }

  /** A record at least as new as everything else is inserted in front, filtered or not. */
  lemma FilterHead(r: Record, s: seq<Record>, p: Record -> bool)
    requires Descending(s) && (s != [] ==> r.createdAt >= s[0].createdAt)
    ensures Insert(r, Filter(s, p)) == [r] + Filter(s, p)
  {
    FilterMembers(s, p);
  }

  lemma {:induction false} FilterMembers(s: seq<Record>, p: Record -> bool)
    ensures forall r :: r in Filter(s, p) <==> r in s && p(r)
  {
    if s != [] {
      FilterMembers(s[1..], p);
    }
  }

  /** Stability: dropping records before or after the sort is the same. */
  lemma {:induction false} SortThenFilter(s: seq<Record>, p: Record -> bool)
    ensures Filter(NewestFirst(s), p) == NewestFirst(Filter(s, p))
  {
    if s != [] {
      SortThenFilter(s[1..], p);
      NewestFirstSorts(s[1..]);
      FilterInsert(s[0], NewestFirst(s[1..]), p);
      if p(s[0]) {
        assert Filter(s, p)[1..] == Filter(s[1..], p);
      }
    }
  }

  lemma {:induction false} FiltersCommute(s: seq<Record>, p: Record -> bool, q: Record -> bool)
    ensures Filter(Filter(s, p), q) == Filter(Filter(s, q), p)
  {
    if s != [] {
      FiltersCommute(s[1..], p, q);
      var a, b := Filter(s[1..], p), Filter(s[1..], q);
      assert ([s[0]] + a)[1..] == a && ([s[0]] + b)[1..] == b;
    }
  }

  lemma {:induction false} FilterAppend(a: seq<Record>, b: seq<Record>, p: Record -> bool)
    ensures Filter(a + b, p) == Filter(a, p) + Filter(b, p)
  {
    if a == [] {
      assert a + b == b;
    } else {
      assert (a + b)[1..] == a[1..] + b;
      FilterAppend(a[1..], b, p);
    }
  }

  // ----------------------------------------------------------------- the retained set

  function Keys(c: seq<Record>, key: int -> int): set<int> {
    set i | 0 <= i < |c| :: key(c[i].createdAt)
  }

  /** Records that open a new bucket while fewer than `limit` buckets were seen. */
  function Retained(c: seq<Record>, limit: int, key: int -> int): set<string> {
    if c == [] then {}
    else
      var n := |c| - 1;
      var seen := Keys(c[..n], key);
      Retained(c[..n], limit, key)
      + (if key(c[n].createdAt) !in seen && |seen| < limit then {c[n].id} else {})
  }

  function RetainedOf(c: seq<Record>, p: Policy): set<string> {
    Retained(c, p.daily, p.calendar.day) + Retained(c, p.weekly, p.calendar.week)
    + Retained(c, p.monthly, p.calendar.month)
  }

  function RetainedIds(records: seq<Record>, p: Policy): set<string> {
    RetainedOf(NewestFirst(Candidates(records)), p)
  }

  lemma KeysSnoc(c: seq<Record>, i: nat, key: int -> int)
    requires i < |c|
    ensures Keys(c[..i + 1], key) == Keys(c[..i], key) + {key(c[i].createdAt)}
  {
    var b := c[..i + 1];
    assert b[i] == c[i];
    forall k | k in Keys(b, key)
      ensures k in Keys(c[..i], key) + {key(c[i].createdAt)}
    {
      var j :| 0 <= j < |b| && k == key(b[j].createdAt);
      if j < i {
        assert c[..i][j] == b[j];
      }
    }
    forall k | k in Keys(c[..i], key)
      ensures k in Keys(b, key)
    {
      var j :| 0 <= j < i && k == key(c[..i][j].createdAt);
      assert b[j] == c[..i][j];
    }
  }

  lemma {:induction false} KeysSubset(a: seq<Record>, b: seq<Record>, key: int -> int)
    requires forall r :: r in a ==> r in b
    ensures Keys(a, key) <= Keys(b, key)
  {
    forall k | k in Keys(a, key)
      ensures k in Keys(b, key)
    {
      var i :| 0 <= i < |a| && k == key(a[i].createdAt);
      assert a[i] in b;
      var j :| 0 <= j < |b| && b[j] == a[i];
    }
  }

  lemma Stop(c: seq<Record>, i: nat, limit: int, key: int -> int)
    requires i <= |c| && |Keys(c[..i], key)| >= limit
    ensures Retained(c, limit, key) == Retained(c[..i], limit, key)
    decreases |c|
  {
    if i == |c| {
      assert c[..i] == c;
    } else {
      var n := |c| - 1;
      assert c[..n][..i] == c[..i];
      Stop(c[..n], i, limit, key);
      MoreSeen(c, i, n, key);
    }
  }

  lemma MoreSeen(c: seq<Record>, i: nat, n: nat, key: int -> int)
    requires i <= n <= |c|
    ensures |Keys(c[..i], key)| <= |Keys(c[..n], key)|
  {
    KeysSubset(c[..i], c[..n], key);
    Subset(Keys(c[..i], key), Keys(c[..n], key));
  }

  lemma {:induction false} Subset<T>(a: set<T>, b: set<T>)
    requires a <= b
    ensures |a| <= |b|
    decreases b
  {
    if x :| x in a {
      Subset(a - {x}, b - {x});
    }
  }

  lemma RetainedTake(c: seq<Record>, i: nat, limit: int, key: int -> int)
    requires i < |c|
    ensures Retained(c[..i + 1], limit, key) ==
            Retained(c[..i], limit, key)
            + (if key(c[i].createdAt) !in Keys(c[..i], key) && |Keys(c[..i], key)| < limit then {c[i].id} else {})
  {
    assert c[..i + 1][..i] == c[..i];
  }

  /** `retain_distinct`. */
  method RetainDistinct(candidates: seq<Record>, limit: int, key: int -> int) returns (retained: set<string>)
    ensures retained == Retained(candidates, limit, key)
  {
    retained := {};
    if limit <= 0 {
      assert candidates[..0] == [];
      Stop(candidates, 0, limit, key);
      return;
    }
    var seen: set<int> := {};
    for i := 0 to |candidates|
      invariant seen == Keys(candidates[..i], key) && |seen| < limit
      invariant retained == Retained(candidates[..i], limit, key)
    {
      RetainedTake(candidates, i, limit, key);
      KeysSnoc(candidates, i, key);
      var k := key(candidates[i].createdAt);
      if k in seen {
        assert seen + {k} == seen;
      } else {
        seen := seen + {k};
        retained := retained + {candidates[i].id};
        if |seen| >= limit {
          Stop(candidates, i + 1, limit, key);
          return;
        }
      }
    }
    assert candidates[..|candidates|] == candidates;
  }

  method RetainedScheduledBackupIds(records: seq<Record>, p: Policy) returns (retained: set<string>)
    ensures retained == RetainedIds(records, p)
    ensures UniqueIds(records) ==>
              forall i :: 0 <= i < |records| ==> (records[i].id in retained <==> KeptBy(records, i, p))
    ensures retained <= Ids(records)
  {
    var candidates := NewestFirst(Candidates(records));
    var daily := RetainDistinct(candidates, p.daily, p.calendar.day);
    var weekly := RetainDistinct(candidates, p.weekly, p.calendar.week);
    var monthly := RetainDistinct(candidates, p.monthly, p.calendar.month);
    retained := daily + weekly + monthly;
    RetainedAreStored(records, p);
    if UniqueIds(records) {
      RetainedAreKept(records, p);
    }
  }

  // ---------------------------------------------------- what a retained record means

  /** Buckets of the candidates that are strictly newer than `t`. */
  function NewerKeys(c: seq<Record>, t: int, key: int -> int): set<int> {
    set i | 0 <= i < |c| && c[i].createdAt > t :: key(c[i].createdAt)
  }

  /** The id is retained at a position exactly when that position opens one of the first buckets. */
  lemma {:induction false} RetainedAt(c: seq<Record>, limit: int, key: int -> int, i: nat)
    requires i < |c|
    requires forall h, k :: 0 <= h < k < |c| ==> c[h].id != c[k].id
    ensures c[i].id in Retained(c, limit, key) <==>
            key(c[i].createdAt) !in Keys(c[..i], key) && |Keys(c[..i], key)| < limit
  {
    var n := |c| - 1;
    var front := c[..n];
    if i < n {
      assert front[..i] == c[..i];
      RetainedAt(front, limit, key, i);
    } else {
      NotRetained(front, c[n].id, limit, key);
    }
  }

  lemma {:induction false} RetainedFromRecords(c: seq<Record>, limit: int, key: int -> int)
    ensures forall id :: id in Retained(c, limit, key) ==> exists i :: 0 <= i < |c| && c[i].id == id
  {
    if c != [] {
      var n := |c| - 1;
      RetainedFromRecords(c[..n], limit, key);
      forall id | id in Retained(c, limit, key)
        ensures exists i :: 0 <= i < |c| && c[i].id == id
      {
        if id in Retained(c[..n], limit, key) {
          var i :| 0 <= i < n && c[..n][i].id == id;
          assert c[i].id == id;
        } else {
          assert c[n].id == id;
        }
      }
    }
  }

  lemma NotRetained(c: seq<Record>, id: string, limit: int, key: int -> int)
    requires forall i :: 0 <= i < |c| ==> c[i].id != id
    ensures id !in Retained(c, limit, key)
  {
    RetainedFromRecords(c, limit, key);
  }

  lemma OneOrNone(r: Record, q: Record -> bool)
    ensures Filter([r], q) == if q(r) then [r] else []
  {
    assert [r][1..] == [] && Filter([], q) == [];
  }

  lemma NoneOf(s: seq<Record>, q: Record -> bool)
    requires forall r :: r in s ==> !q(r)
    ensures Filter(s, q) == []
  {
    FilterMembers(s, q);
    if Filter(s, q) != [] {
      assert Filter(s, q)[0] in Filter(s, q);
    }
  }

  function Ids(s: seq<Record>): set<string> {
    set i | 0 <= i < |s| :: s[i].id
  }

  predicate UniqueIds(records: seq<Record>) {
    forall i, j :: 0 <= i < j < |records| ==> records[i].id != records[j].id
  }

  lemma {:induction false} RetainedAreStored(records: seq<Record>, p: Policy)
    ensures RetainedIds(records, p) <= Ids(records)
  {
    var c := NewestFirst(Candidates(records));
    NewestFirstSorts(Candidates(records));
    FilterMembers(records, Candidate);
    RetainedFromRecords(c, p.daily, p.calendar.day);
    RetainedFromRecords(c, p.weekly, p.calendar.week);
    RetainedFromRecords(c, p.monthly, p.calendar.month);
    forall i | 0 <= i < |c|
      ensures c[i].id in Ids(records)
    {
      assert c[i] in multiset(c);
      assert c[i] in Candidates(records);
      var j :| 0 <= j < |records| && records[j] == c[i];
    }
  }

  lemma KeysLast(c: seq<Record>, key: int -> int)
    requires c != []
    ensures Keys(c, key) == Keys(c[..|c| - 1], key) + {key(c[|c| - 1].createdAt)}
  {
    KeysSnoc(c, |c| - 1, key);
    assert c[..|c|] == c;
  }

  // The same told over the stored records, without the sorted list.

  /** A scheduled backup with an artifact that is neither unfinished nor failed nor expired. */
  predicate Eligible(r: Record) {
    && r.origin == Scheduled && r.stored
    && r.status != Queued && r.status != Running && r.status != Failed && r.status != Expired
  }

  /** Newer, or as old and stored before. */
  predicate Ahead(records: seq<Record>, j: int, i: int)
    requires 0 <= i < |records| && 0 <= j < |records|
  {
    && Eligible(records[j])
    && (records[j].createdAt > records[i].createdAt || (records[j].createdAt == records[i].createdAt && j < i))
  }

  function BucketsAhead(records: seq<Record>, i: nat, bucket: int -> int): set<int>
    requires i < |records|
  {
    set j | 0 <= j < |records| && Ahead(records, j, i) :: bucket(records[j].createdAt)
  }

  /** The newest of its bucket, with fewer than `limit` buckets ahead of it. */
  predicate LeadsBucket(records: seq<Record>, i: nat, limit: int, bucket: int -> int)
    requires i < |records|
  {
    bucket(records[i].createdAt) !in BucketsAhead(records, i, bucket) && |BucketsAhead(records, i, bucket)| < limit
  }

  /** Kept for its day, its ISO week or its month. */
  predicate KeptBy(records: seq<Record>, i: nat, p: Policy)
    requires i < |records|
  {
    && Eligible(records[i])
    && (|| LeadsBucket(records, i, p.daily, p.calendar.day)
        || LeadsBucket(records, i, p.weekly, p.calendar.week)
        || LeadsBucket(records, i, p.monthly, p.calendar.month))
  }

  /** Without ties: no eligible record of the bucket is newer, and fewer than `limit` buckets hold newer ones. */
  lemma LeadsWithoutTies(records: seq<Record>, i: nat, limit: int, bucket: int -> int)
    requires i < |records| && Eligible(records[i])
    requires forall j, k :: 0 <= j < k < |records| && Eligible(records[j]) && Eligible(records[k]) ==>
               records[j].createdAt != records[k].createdAt
    ensures LeadsBucket(records, i, limit, bucket) <==>
            && (forall j :: 0 <= j < |records| && Eligible(records[j])
                            && bucket(records[j].createdAt) == bucket(records[i].createdAt) ==>
                  records[j].createdAt <= records[i].createdAt)
            && |NewerKeys(Candidates(records), records[i].createdAt, bucket)| < limit
  {
    var newer := NewerKeys(Candidates(records), records[i].createdAt, bucket);
    FilterMembers(records, Candidate);
    forall k ensures k in newer <==> k in BucketsAhead(records, i, bucket) {
      if k in newer {
        var c := Candidates(records);
        var x :| 0 <= x < |c| && c[x].createdAt > records[i].createdAt && k == bucket(c[x].createdAt);
        assert c[x] in c;
        var j :| 0 <= j < |records| && records[j] == c[x];
        assert Ahead(records, j, i);
      }
      if k in BucketsAhead(records, i, bucket) {
        var j :| 0 <= j < |records| && Ahead(records, j, i) && k == bucket(records[j].createdAt);
        assert records[j] in Candidates(records);
        var x :| 0 <= x < |Candidates(records)| && Candidates(records)[x] == records[j];
      }
    }
    assert newer == BucketsAhead(records, i, bucket);
  }

  lemma FilterOnly(s: seq<Record>, i: nat, q: Record -> bool)
    requires i < |s| && forall k :: 0 <= k < |s| ==> (q(s[k]) <==> k == i)
    ensures Filter(s, q) == [s[i]]
  {
    var front, back := s[..i], s[i + 1..];
    assert s == front + [s[i]] + back;
    FilterAppend(front + [s[i]], back, q);
    FilterAppend(front, [s[i]], q);
    NoneOf(front, q) by {
      forall r | r in front ensures !q(r) {
        var k :| 0 <= k < i && front[k] == r;
        assert s[k] == r;
      }
    }
    NoneOf(back, q) by {
      forall r | r in back ensures !q(r) {
        var k :| 0 <= k < |back| && back[k] == r;
        assert s[i + 1 + k] == r;
      }
    }
    OneOrNone(s[i], q);
  }

  lemma FilterTwo(s: seq<Record>, i: nat, j: nat, q: Record -> bool)
    requires i < j < |s| && forall k :: 0 <= k < |s| ==> (q(s[k]) <==> k == i || k == j)
    ensures Filter(s, q) == [s[i], s[j]]
  {
    assert s == s[..i + 1] + s[i + 1..];
    FilterAppend(s[..i + 1], s[i + 1..], q);
    FilterOnly(s[..i + 1], i, q);
    FilterOnly(s[i + 1..], j - i - 1, q);
  }

  lemma SortTwo(a: Record, b: Record)
    ensures NewestFirst([a, b]) == if a.createdAt >= b.createdAt then [a, b] else [b, a]
  {
    assert [a, b][1..] == [b] && [b][1..] == [];
    assert NewestFirst([]) == [] && NewestFirst([b]) == [b];
    assert Insert(a, [b]) == if a.createdAt >= b.createdAt then [a] + [b] else [b] + Insert(a, [b][1..]);
  }

  /** In the sorted candidates one candidate stands before another exactly when it is ahead of it. */
  lemma PairOrder(records: seq<Record>, i: nat, j: nat)
    requires i < j < |records| && UniqueIds(records) && Candidate(records[i]) && Candidate(records[j])
    ensures var a, b := records[i], records[j];
            Filter(NewestFirst(Candidates(records)), (r: Record) => r.id == a.id || r.id == b.id)
            == if a.createdAt >= b.createdAt then [a, b] else [b, a]
  {
    var a, b := records[i], records[j];
    var q := (r: Record) => r.id == a.id || r.id == b.id;
    FilterTwo(records, i, j, q);
    FiltersCommute(records, Candidate, q);
    AllPass([a, b], Candidate);
    SortThenFilter(Candidates(records), q);
    SortTwo(a, b);
  }

  lemma AllPass(s: seq<Record>, q: Record -> bool)
    requires forall r :: r in s ==> q(r)
    ensures Filter(s, q) == s
  {
    if s != [] {
      AllPass(s[1..], q);
      assert s == [s[0]] + s[1..];
    }
  }

  /** Where two elements stand in a list, read off what is left of it. */
  lemma FirstOfTwo(c: seq<Record>, x: nat, y: nat, q: Record -> bool)
    requires x < |c| && y < |c| && Filter(c, q) == [c[x], c[y]] && c[x] != c[y]
    requires forall k :: 0 <= k < |c| ==> (q(c[k]) <==> k == x || k == y)
    ensures x < y
  {
    if y < x {
      FilterTwo(c, y, x, q);
    }
  }

  lemma StandsBefore(records: seq<Record>, c: seq<Record>, i: nat, j: nat, x: nat, y: nat)
    requires i < |records| && j < |records| && i != j && UniqueIds(records)
    requires c == NewestFirst(Candidates(records)) && UniqueIds(c)
    requires x < |c| && y < |c| && c[x] == records[i] && c[y] == records[j]
    requires Candidate(records[i]) && Candidate(records[j])
    ensures y < x <==> Ahead(records, j, i)
  {
    var a, b := if i < j then i else j, if i < j then j else i;
    var q := (r: Record) => r.id == records[a].id || r.id == records[b].id;
    PairOrder(records, a, b);
    assert records[i].id != records[j].id;
    if Ahead(records, j, i) {
      FirstOfTwo(c, y, x, q);
    } else {
      FirstOfTwo(c, x, y, q);
    }
  }

  /** The sorted candidates: exactly the candidates, each once. */
  lemma SortedCandidates(records: seq<Record>)
    requires UniqueIds(records)
    ensures var c := NewestFirst(Candidates(records));
            && UniqueIds(c)
            && (forall r :: r in c <==> r in records && Candidate(r))
  {
    var c := NewestFirst(Candidates(records));
    NewestFirstSorts(Candidates(records));
    FilterMembers(records, Candidate);
    CandidatesUnique(records);
    forall r ensures r in c <==> r in Candidates(records) {
      assert r in multiset(c) <==> r in multiset(Candidates(records));
    }
    SamePermutation(Candidates(records), c);
  }

  lemma {:induction false} CandidatesUnique(records: seq<Record>)
    requires UniqueIds(records)
    ensures UniqueIds(Candidates(records))
  {
    if records != [] {
      CandidatesUnique(records[1..]);
      FilterMembers(records[1..], Candidate);
      var rest := Candidates(records[1..]);
      forall k | 0 <= k < |rest| ensures rest[k].id != records[0].id {
        assert rest[k] in records[1..];
      }
    }
  }

  lemma {:induction false} SamePermutation(a: seq<Record>, b: seq<Record>)
    requires multiset(a) == multiset(b) && UniqueIds(a)
    ensures UniqueIds(b)
  {
    forall i, j | 0 <= i < j < |b| ensures b[i].id != b[j].id {
      if b[i].id == b[j].id {
        assert b[i] in multiset(a) && b[j] in multiset(a);
        var x :| 0 <= x < |a| && a[x] == b[i];
        var y :| 0 <= y < |a| && a[y] == b[j];
        TwiceInList(b, i, j);
        OnceInList(a, x);
      }
    }
  }

  lemma TwiceInList(b: seq<Record>, i: nat, j: nat)
    requires i < j < |b|
    ensures b[i] == b[j] ==> multiset(b)[b[i]] >= 2
  {
    assert b == b[..i] + [b[i]] + b[i + 1..j] + [b[j]] + b[j + 1..];
  }

  lemma OnceInList(a: seq<Record>, x: nat)
    requires x < |a| && UniqueIds(a)
    ensures multiset(a)[a[x]] == 1
  {
    assert a == a[..x] + [a[x]] + a[x + 1..];
    assert a[x] !in a[..x] && a[x] !in a[x + 1..];
  }

  /** The buckets before a position of the sorted list are the buckets ahead of its record. */
  lemma KeysAreBucketsAhead(records: seq<Record>, c: seq<Record>, i: nat, x: nat, bucket: int -> int)
    requires UniqueIds(records) && i < |records| && c == NewestFirst(Candidates(records)) && x < |c|
    requires c[x] == records[i] && Candidate(records[i])
    ensures Keys(c[..x], bucket) == BucketsAhead(records, i, bucket)
  {
    SortedCandidates(records);
    forall k ensures k in Keys(c[..x], bucket) <==> k in BucketsAhead(records, i, bucket) {
      if k in Keys(c[..x], bucket) {
        var y :| 0 <= y < x && k == bucket(c[..x][y].createdAt);
        assert c[y] in c;
        var j :| 0 <= j < |records| && records[j] == c[y];
        StandsBefore(records, c, i, j, x, y);
      }
      if k in BucketsAhead(records, i, bucket) {
        var j :| 0 <= j < |records| && Ahead(records, j, i) && k == bucket(records[j].createdAt);
        assert records[j] in c;
        var y :| 0 <= y < |c| && c[y] == records[j];
        StandsBefore(records, c, i, j, x, y);
        assert c[..x][y] == records[j];
      }
    }
  }

  lemma RetainedLeads(records: seq<Record>, i: nat, limit: int, bucket: int -> int)
    requires UniqueIds(records) && i < |records|
    ensures var c := NewestFirst(Candidates(records));
            records[i].id in Retained(c, limit, bucket) <==>
              Eligible(records[i]) && LeadsBucket(records, i, limit, bucket)
  {
    var c := NewestFirst(Candidates(records));
    SortedCandidates(records);
    if Candidate(records[i]) {
      assert records[i] in c;
      var x :| 0 <= x < |c| && c[x] == records[i];
      RetainedAt(c, limit, bucket, x);
      KeysAreBucketsAhead(records, c, i, x, bucket);
    } else {
      forall x | 0 <= x < |c| ensures c[x].id != records[i].id {
        assert c[x] in c;
        var j :| 0 <= j < |records| && records[j] == c[x];
      }
      NotRetained(c, records[i].id, limit, bucket);
    }
  }

  /** Which ids are returned: exactly those of the records kept for their day, week or month. */
  lemma RetainedAreKept(records: seq<Record>, p: Policy)
    requires UniqueIds(records)
    ensures forall i :: 0 <= i < |records| ==> (records[i].id in RetainedIds(records, p) <==> KeptBy(records, i, p))
  {
    forall i | 0 <= i < |records| ensures records[i].id in RetainedIds(records, p) <==> KeptBy(records, i, p) {
      RetainedLeads(records, i, p.daily, p.calendar.day);
      RetainedLeads(records, i, p.weekly, p.calendar.week);
      RetainedLeads(records, i, p.monthly, p.calendar.month);
    }
  }

  /** Without ties in time, retention is a property of the set of candidates alone: a record stays
      exactly when it is the newest of its bucket and fewer than `limit` buckets are newer. */
  lemma RetainedIsNewestOfBucket(c: seq<Record>, limit: int, key: int -> int, i: nat)
    requires i < |c| && Descending(c)
    requires forall h, k :: 0 <= h < k < |c| ==> c[h].id != c[k].id && c[h].createdAt != c[k].createdAt
    ensures c[i].id in Retained(c, limit, key) <==>
            key(c[i].createdAt) !in NewerKeys(c, c[i].createdAt, key) && |NewerKeys(c, c[i].createdAt, key)| < limit
  {
    RetainedAt(c, limit, key, i);
    var newer, before := NewerKeys(c, c[i].createdAt, key), Keys(c[..i], key);
    forall k | k in newer
      ensures k in before
    {
      var j :| 0 <= j < |c| && c[j].createdAt > c[i].createdAt && k == key(c[j].createdAt);
      assert j < i && c[..i][j] == c[j];
    }
    forall k | k in before
      ensures k in newer
    {
      var j :| 0 <= j < i && k == key(c[..i][j].createdAt);
      assert c[j].createdAt > c[i].createdAt;
    }
    assert newer == before;
  }

  /** At most one record per bucket and `limit` buckets. */
  lemma {:induction false} RetainedBound(c: seq<Record>, limit: int, key: int -> int)
    ensures |Retained(c, limit, key)| <= |Keys(c, key)|
    ensures |Retained(c, limit, key)| <= if limit > 0 then limit else 0
  {
    if c != [] {
      var n := |c| - 1;
      RetainedBound(c[..n], limit, key);
      KeysLast(c, key);
      var seen, k := Keys(c[..n], key), key(c[n].createdAt);
      assert k in seen ==> seen + {k} == seen;
    }
  }

  function Positive(x: int): nat {
    if x > 0 then x else 0
  }

  /** Retention never keeps more records than the three configured counts together. */
  lemma RetainedIdsBound(records: seq<Record>, p: Policy)
    ensures |RetainedIds(records, p)| <= Positive(p.daily) + Positive(p.weekly) + Positive(p.monthly)
  {
    var c := NewestFirst(Candidates(records));
    RetainedBound(c, p.daily, p.calendar.day);
    RetainedBound(c, p.weekly, p.calendar.week);
    RetainedBound(c, p.monthly, p.calendar.month);
  }
}
