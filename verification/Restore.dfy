/** `restore_backup`: reads the documents of a validated archive back and upserts them in batches. */
module Restore {
  import opened Strings
  import opened Chunking
  import opened Archive
  import opened ArchiveReader

  type Live = map<string, Document>  // one live collection, keyed by `_id`

  const BATCH: nat := 1_000

  /** Collections the restore loop never writes. */
  predicate Skipped(name: string) {
    name == "task" || name == "backup_record"
  }

  // ------------------------------------------------------------- specification

  /** Document rows of the members, in member order. */
  function AllRows(members: seq<string>, files: Files): seq<Bytes> {
    if members == [] then []
    else AllRows(members[..|members| - 1], files) + Rows(Get(files, members[|members| - 1]))
  }

  /** The documents of the rows, or `None` as soon as one row is not a document. */
  function Decoded(codec: Codec, rows: seq<Bytes>): (r: Option<seq<Document>>)
    ensures r.Some? ==> |r.value| == |rows|
  {
    if rows == [] then Some([])
    else
      var front := Decoded(codec, rows[..|rows| - 1]);
      var last := codec.decode(rows[|rows| - 1]);
      if front.Some? && last.Some? then Some(front.value + [last.value]) else None
  }

  /** `ReplaceOne(..., upsert=True)` for each document in turn. */
  function Upsert(live: Live, documents: seq<Document>): Live {
    if documents == [] then live
    else
      var d := documents[|documents| - 1];
      Upsert(live, documents[..|documents| - 1])[d.id := d]
  }

  /** The documents before the first row that is not one. */
  function Decodable(codec: Codec, rows: seq<Bytes>): seq<Document> {
    if rows == [] || codec.decode(rows[0]).None? then []
    else [codec.decode(rows[0]).value] + Decodable(codec, rows[1..])
  }

  /** As many of them as fill whole batches. */
  function WholeBatches(documents: seq<Document>): seq<Document> {
    documents[..|documents| - |documents| % BATCH]
  }

  lemma {:induction false} DecodableStops(codec: Codec, a: seq<Bytes>, b: seq<Bytes>)
    requires Decoded(codec, a).None?
    ensures Decodable(codec, a + b) == Decodable(codec, a)
  {
    if a != [] && codec.decode(a[0]).Some? {
      assert (a + b)[1..] == a[1..] + b && a == [a[0]] + a[1..];
      DecodedAppend(codec, [a[0]], a[1..]);
      DecodableStops(codec, a[1..], b);
    }
  }

  lemma {:induction false} DecodableAppend(codec: Codec, a: seq<Bytes>, b: seq<Bytes>)
    requires Decoded(codec, a).Some?
    ensures Decodable(codec, a + b) == Decoded(codec, a).value + Decodable(codec, b)
  {
    if a == [] {
      assert a + b == b;
    } else {
      var n := |a| - 1;
      var last := codec.decode(a[n]).value;
      assert a + b == a[..n] + ([a[n]] + b);
      DecodableAppend(codec, a[..n], [a[n]] + b);
      assert ([a[n]] + b)[1..] == b;
      assert Decoded(codec, a[..n]).value + ([last] + Decodable(codec, b))
          == Decoded(codec, a[..n]).value + [last] + Decodable(codec, b);
    }
  }

  lemma {:induction false} UpsertAppend(live: Live, a: seq<Document>, b: seq<Document>)
    ensures Upsert(live, a + b) == Upsert(Upsert(live, a), b)
  {
    if b == [] {
      assert a + b == a;
    } else {
      assert (a + b)[..|a + b| - 1] == a + b[..|b| - 1];
      UpsertAppend(live, a, b[..|b| - 1]);
    }
  }

  lemma {:induction false} DecodedAppend(codec: Codec, a: seq<Bytes>, b: seq<Bytes>)
    ensures Decoded(codec, a + b) ==
            if Decoded(codec, a).Some? && Decoded(codec, b).Some?
            then Some(Decoded(codec, a).value + Decoded(codec, b).value) else None
  {
    if b == [] {
      assert a + b == a;
      assert Decoded(codec, a).Some? ==> Decoded(codec, a).value + [] == Decoded(codec, a).value;
    } else {
      var front := b[..|b| - 1];
      assert (a + b)[..|a + b| - 1] == a + front;
      DecodedAppend(codec, a, front);
      if Decoded(codec, a).Some? && Decoded(codec, b).Some? {
        var d := codec.decode(b[|b| - 1]).value;
        assert Decoded(codec, a).value + Decoded(codec, front).value + [d]
            == Decoded(codec, a).value + (Decoded(codec, front).value + [d]);
      }
    }
  }

  predicate HasId(documents: seq<Document>, id: string) {
    exists i :: 0 <= i < |documents| && documents[i].id == id
  }

  lemma HasIdSnoc(documents: seq<Document>, id: string)
    requires documents != []
    ensures var n := |documents| - 1;
            HasId(documents, id) <==> HasId(documents[..n], id) || documents[n].id == id
  {
    var n := |documents| - 1;
    if HasId(documents[..n], id) {
      var i :| 0 <= i < n && documents[..n][i].id == id;
      assert documents[i].id == id;
    }
    if i :| 0 <= i < |documents| && documents[i].id == id {
      assert i < n ==> documents[..n][i] == documents[i];
    }
  }

  lemma {:induction false} UpsertAtId(live: Live, documents: seq<Document>, id: string)
    ensures id in Upsert(live, documents) <==> id in live || HasId(documents, id)
    ensures id in live && !HasId(documents, id) ==> Upsert(live, documents)[id] == live[id]
  {
    if documents != [] {
      HasIdSnoc(documents, id);
      UpsertAtId(live, documents[..|documents| - 1], id);
    }
  }

  lemma {:induction false} UpsertKeeps(live: Live, documents: seq<Document>, i: nat)
    requires i < |documents| && forall j :: i < j < |documents| ==> documents[j].id != documents[i].id
    ensures documents[i].id in Upsert(live, documents) && Upsert(live, documents)[documents[i].id] == documents[i]
  {
    var n := |documents| - 1;
    if i < n {
      assert documents[..n][i] == documents[i];
      UpsertKeeps(live, documents[..n], i);
    }
  }

  /** Upserting documents with distinct ids into any collection leaves exactly them at their ids. */
  lemma UpsertLooksUp(live: Live, documents: seq<Document>)
    requires forall i, j :: 0 <= i < j < |documents| ==> documents[i].id != documents[j].id
    ensures forall i :: 0 <= i < |documents| ==>
              && documents[i].id in Upsert(live, documents)
              && Upsert(live, documents)[documents[i].id] == documents[i]
    ensures forall id :: id in Upsert(live, documents) <==> id in live || HasId(documents, id)
    ensures forall id :: id in live && !HasId(documents, id) ==> Upsert(live, documents)[id] == live[id]
  {
    forall i | 0 <= i < |documents|
      ensures documents[i].id in Upsert(live, documents) && Upsert(live, documents)[documents[i].id] == documents[i]
    {
      UpsertKeeps(live, documents, i);
    }
    forall id
      ensures id in Upsert(live, documents) <==> id in live || HasId(documents, id)
      ensures id in live && !HasId(documents, id) ==> Upsert(live, documents)[id] == live[id]
    {
      UpsertAtId(live, documents, id);
    }
  }

  // --------------------------------------------------------------- the loop body

  /** Counters and pending operations of the restore loop for one collection. */
  datatype Progress = Progress(documents: nat, applied: nat, operations: seq<Document>, live: Live)

  /** What the collection becomes once the pending operations are flushed. */
  function Effective(p: Progress): Live {
    Upsert(p.live, p.operations)
  }

  function Flush(p: Progress): (q: Progress)
    ensures Effective(q) == Effective(p)
    ensures q.applied + |q.operations| == p.applied + |p.operations|
  {
    Progress(p.documents, p.applied + |p.operations|, [], Upsert(p.live, p.operations))
  }

  /** From `before` to `after` the loop consumed `documents`, whatever the batch boundaries. */
  predicate Consumed(before: Progress, after: Progress, documents: seq<Document>, apply: bool) {
    && after.documents == before.documents + |documents|
    && (apply ==>
          && Effective(after) == Upsert(Effective(before), documents)
          && after.applied + |after.operations| == before.applied + |before.operations| + |documents|
          && |after.operations| < BATCH)
    && (!apply ==>
          after.live == before.live && after.operations == before.operations && after.applied == before.applied)
  }

  /** One document: counted, queued when it is to be applied, and flushed at the batch size. */
  function Take(p: Progress, d: Document, apply: bool): Progress {
    var counted := p.(documents := p.documents + 1);
    if !apply then counted
    else
      var queued := counted.(operations := counted.operations + [d]);
      if |queued.operations| >= BATCH then Flush(queued) else queued
  }

  function Taken(p: Progress, documents: seq<Document>, apply: bool): Progress {
    if documents == [] then p
    else Take(Taken(p, documents[..|documents| - 1], apply), documents[|documents| - 1], apply)
  }

  lemma {:induction false} TakenAppend(p: Progress, a: seq<Document>, b: seq<Document>, apply: bool)
    ensures Taken(p, a + b, apply) == Taken(Taken(p, a, apply), b, apply)
  {
    if b == [] {
      assert a + b == a;
    } else {
      var n := |b| - 1;
      assert (a + b)[..|a| + n] == a + b[..n];
      TakenAppend(p, a, b[..n], apply);
    }
  }

  /** A batch is whole exactly when one more document brings what is pending to the batch size. */
  lemma WholeGrows(documents: seq<Document>)
    requires documents != []
    ensures var w := |WholeBatches(documents[..|documents| - 1])|;
            && 1 <= |documents| - w <= BATCH
            && WholeBatches(documents) == if |documents| - w == BATCH then documents else documents[..w]
  {
    var n := |documents| - 1;
    assert (n + 1) % BATCH == if n % BATCH == BATCH - 1 then 0 else n % BATCH + 1;
  }

  /** Whole batches are written, the rest is pending. */
  ghost predicate InBatches(p: Progress, live: Live, documents: seq<Document>) {
    var written := WholeBatches(documents);
    p == Progress(|documents|, |written|, documents[|written|..], Upsert(live, written))
  }

  lemma BatchIsPending(p: Progress, live: Live, documents: seq<Document>)
    requires documents != [] && InBatches(p, live, documents[..|documents| - 1])
    ensures var n, w := |documents| - 1, |WholeBatches(documents[..|documents| - 1])|;
            && w <= n && p.operations + [documents[n]] == documents[w..]
            && p.live == Upsert(live, documents[..w]) && p.documents == n && p.applied == w
  {
    var n := |documents| - 1;
    var w := |WholeBatches(documents[..n])|;
    assert documents[..n][..w] == documents[..w];
  }

  lemma BatchIsWritten(live: Live, documents: seq<Document>, w: nat)
    requires w <= |documents|
    ensures Upsert(Upsert(live, documents[..w]), documents[w..]) == Upsert(live, documents)
  {
    assert documents[..w] + documents[w..] == documents;
    UpsertAppend(live, documents[..w], documents[w..]);
  }

  lemma TakeInBatches(p: Progress, live: Live, documents: seq<Document>)
    requires documents != [] && InBatches(p, live, documents[..|documents| - 1])
    ensures InBatches(Take(p, documents[|documents| - 1], true), live, documents)
  {
    var w := |WholeBatches(documents[..|documents| - 1])|;
    WholeGrows(documents);
    BatchIsPending(p, live, documents);
    BatchIsWritten(live, documents, w);
    assert documents[|documents|..] == [];
  }

  lemma {:induction false} TakenInBatches(live: Live, documents: seq<Document>)
    ensures InBatches(Taken(Progress(0, 0, [], live), documents, true), live, documents)
  {
    if documents != [] {
      TakenInBatches(live, documents[..|documents| - 1]);
      TakeInBatches(Taken(Progress(0, 0, [], live), documents[..|documents| - 1], true), live, documents);
    }
  }

  lemma {:induction false} TakenRehearses(p: Progress, documents: seq<Document>)
    ensures Taken(p, documents, false) == p.(documents := p.documents + |documents|)
  {
    if documents != [] {
      TakenRehearses(p, documents[..|documents| - 1]);
    }
  }

  lemma TakeConsumes(p: Progress, d: Document, apply: bool)
    requires |p.operations| < BATCH
    ensures Consumed(p, Take(p, d, apply), [d], apply)
  {
    var all := p.operations + [d];
    assert all[..|all| - 1] == p.operations;
    assert Upsert(p.live, all) == Effective(p)[d.id := d];
    assert [d][..0] == [];
    assert Upsert(Effective(p), [d]) == Effective(p)[d.id := d];
  }

  lemma DecodableUpTo(codec: Codec, rows: seq<Bytes>, i: nat)
    requires i <= |rows| && Decoded(codec, rows[..i]).Some?
    ensures i == |rows| || codec.decode(rows[i]).None? ==>
              Decodable(codec, rows) == Decoded(codec, rows[..i]).value
  {
    assert rows == rows[..i] + rows[i..];
    DecodableAppend(codec, rows[..i], rows[i..]);
  }

  lemma ConsumedChain(a: Progress, b: Progress, c: Progress, xs: seq<Document>, ys: seq<Document>, apply: bool)
    requires Consumed(a, b, xs, apply) && Consumed(b, c, ys, apply)
    ensures Consumed(a, c, xs + ys, apply)
  {
    UpsertAppend(Effective(a), xs, ys);
  }

  method RestoreRows(codec: Codec, rows: seq<Bytes>, start: Progress, apply: bool) returns (ok: bool, p: Progress)
    requires |start.operations| < BATCH
    ensures ok <==> Decoded(codec, rows).Some?
    ensures ok ==> Consumed(start, p, Decoded(codec, rows).value, apply)
    ensures p == Taken(start, Decodable(codec, rows), apply)
    ensures !apply ==> p.live == start.live
  {
    p := start;
    for i := 0 to |rows|
      invariant Decoded(codec, rows[..i]).Some? && |p.operations| < BATCH
      invariant Consumed(start, p, Decoded(codec, rows[..i]).value, apply)
      invariant p == Taken(start, Decoded(codec, rows[..i]).value, apply)
    {
      var value := codec.decode(rows[i]);
      DecodableUpTo(codec, rows, i);
      TakeOneMore(rows, i);
      assert rows[..i + 1][..i] == rows[..i];
      if value.None? {
        DecodedAppend(codec, rows[..i + 1], rows[i + 1..]);
        assert rows[..i + 1] + rows[i + 1..] == rows;
        return false, p;
      }
      TakeConsumes(p, value.value, apply);
      ConsumedChain(start, p, Take(p, value.value, apply), Decoded(codec, rows[..i]).value, [value.value], apply);
      TakenAppend(start, Decoded(codec, rows[..i]).value, [value.value], apply);
      p := Take(p, value.value, apply);
    }
    assert rows[..|rows|] == rows;
    DecodableUpTo(codec, rows, |rows|);
    ok := true;
  }

  /** One collection: its members in order, then the last partial batch.  A row that is not a
      document stops the restore; the whole batches before it stay applied. */
  method RestoreCollection(codec: Codec, members: seq<string>, files: Files, live: Live, apply: bool)
    returns (r: Result<(nat, nat), Error>, live': Live)
    requires forall m :: m in members ==> m in files
    ensures r.Ok? <==> Decoded(codec, AllRows(members, files)).Some?
    ensures r.Ok? ==>
              var documents := Decoded(codec, AllRows(members, files)).value;
              && r.value == (|documents|, if apply then |documents| else 0)
              && live' == if apply then Upsert(live, documents) else live
    ensures r.Err? ==> r.error == DocumentInvalid
    ensures r.Err? && apply ==> live' == Upsert(live, WholeBatches(Decodable(codec, AllRows(members, files))))
    ensures !apply ==> live' == live
  {
    var p := Progress(0, 0, [], live);
    for k := 0 to |members|
      invariant ConsumedMembers(codec, members[..k], files, live, p, apply)
      invariant p == TakenMembers(codec, members[..k], files, live, apply)
    {
      var ok, next := RestoreRows(codec, Rows(files[members[k]]), p, apply);
      MemberStep(codec, members, files, live, k, p, next, apply);
      TakenStep(codec, members, files, live, k, apply);
      if !ok {
        RowsPrefix(codec, members, files, k + 1);
        TakenStops(codec, members, files, live, k + 1);
        return Err(DocumentInvalid), next.live;
      }
      p := next;
    }
    assert members[..|members|] == members;
    AllConsumed(codec, members, files, live, p, apply);
    if p.operations != [] && apply {
      p := Flush(p);
    }
    return Ok((p.documents, p.applied)), p.live;
  }

  /** What the loop over the members has consumed. */
  ghost predicate ConsumedMembers(codec: Codec, members: seq<string>, files: Files, live: Live, p: Progress,
                                  apply: bool) {
    && Decoded(codec, AllRows(members, files)).Some? && |p.operations| < BATCH
    && Consumed(Progress(0, 0, [], live), p, Decoded(codec, AllRows(members, files)).value, apply)
  }

  lemma AllConsumed(codec: Codec, members: seq<string>, files: Files, live: Live, p: Progress, apply: bool)
    requires ConsumedMembers(codec, members, files, live, p, apply)
    ensures var documents := Decoded(codec, AllRows(members, files)).value;
            var q := if p.operations != [] && apply then Flush(p) else p;
            && q.documents == |documents| && q.applied == (if apply then |documents| else 0)
            && q.live == if apply then Upsert(live, documents) else live
  {
  }

  /** The progress after the readable documents of the members. */
  function TakenMembers(codec: Codec, members: seq<string>, files: Files, live: Live, apply: bool): Progress {
    Taken(Progress(0, 0, [], live), Decodable(codec, AllRows(members, files)), apply)
  }

  lemma TakenStep(codec: Codec, members: seq<string>, files: Files, live: Live, k: nat, apply: bool)
    requires k < |members| && members[k] in files && Decoded(codec, AllRows(members[..k], files)).Some?
    ensures TakenMembers(codec, members[..k + 1], files, live, apply)
            == Taken(TakenMembers(codec, members[..k], files, live, apply), Decodable(codec, Rows(files[members[k]])),
                     apply)
  {
    var before, rows := AllRows(members[..k], files), Rows(files[members[k]]);
    assert members[..k + 1][..k] == members[..k];
    DecodableAppend(codec, before, rows);
    DecodableAppend(codec, before, []);
    assert before + [] == before && Decoded(codec, before).value + [] == Decoded(codec, before).value;
    TakenAppend(Progress(0, 0, [], live), Decodable(codec, before), Decodable(codec, rows), apply);
  }

  lemma Regroup(a: seq<Bytes>, b: seq<Bytes>, c: seq<Bytes>)
    ensures a + b + c == a + (b + c)
  {
  }

  lemma {:induction false} RowsAppend(a: seq<string>, b: seq<string>, files: Files)
    ensures AllRows(a + b, files) == AllRows(a, files) + AllRows(b, files)
  {
    if b == [] {
      assert a + b == a;
    } else {
      var n := |b| - 1;
      assert (a + b)[..|a| + n] == a + b[..n] && (a + b)[|a| + n] == b[n];
      RowsAppend(a, b[..n], files);
      Regroup(AllRows(a, files), AllRows(b[..n], files), Rows(Get(files, b[n])));
    }
  }

  /** When the first `k` members do not decode, the whole batches before the bad row are what is written. */
  lemma TakenStops(codec: Codec, members: seq<string>, files: Files, live: Live, k: nat)
    requires k <= |members| && Decoded(codec, AllRows(members[..k], files)).None?
    ensures TakenMembers(codec, members[..k], files, live, true).live
            == Upsert(live, WholeBatches(Decodable(codec, AllRows(members, files))))
  {
    assert members == members[..k] + members[k..];
    RowsAppend(members[..k], members[k..], files);
    DecodableStops(codec, AllRows(members[..k], files), AllRows(members[k..], files));
    TakenInBatches(live, Decodable(codec, AllRows(members, files)));
  }

  lemma MemberStep(codec: Codec, members: seq<string>, files: Files, live: Live, k: nat, p: Progress, next: Progress,
                   apply: bool)
    requires k < |members| && members[k] in files && ConsumedMembers(codec, members[..k], files, live, p, apply)
    ensures var rows := Decoded(codec, Rows(files[members[k]]));
            && (Decoded(codec, AllRows(members[..k + 1], files)).Some? <==> rows.Some?)
            && (rows.Some? && Consumed(p, next, rows.value, apply) ==>
                  ConsumedMembers(codec, members[..k + 1], files, live, next, apply))
  {
    var before, rows := AllRows(members[..k], files), Rows(files[members[k]]);
    assert members[..k + 1][..k] == members[..k];
    DecodedAppend(codec, before, rows);
    if Decoded(codec, rows).Some? && Consumed(p, next, Decoded(codec, rows).value, apply) {
      ConsumedChain(Progress(0, 0, [], live), p, next, Decoded(codec, before).value, Decoded(codec, rows).value, apply);
    }
  }

  lemma {:induction false} RowsPrefix(codec: Codec, members: seq<string>, files: Files, k: nat)
    requires k <= |members| && Decoded(codec, AllRows(members[..k], files)).None?
    ensures Decoded(codec, AllRows(members, files)).None?
  {
    if k < |members| {
      var front := members[..|members| - 1];
      assert front[..k] == members[..k];
      RowsPrefix(codec, front, files, k);
      DecodedAppend(codec, AllRows(front, files), Rows(Get(files, members[|members| - 1])));
    } else {
      assert members[..k] == members;
    }
  }

  // ---------------------------------------------------------------- all collections

  datatype Summary = Summary(documents: nat, applied: nat, skipped: seq<string>) {
    function With(collections: map<string, Live>): Outcome {
      Outcome(documents, applied, skipped, collections)
    }
  }

  predicate Restorable(codec: Codec, order: seq<string>, members: map<string, seq<string>>, files: Files,
                       known: set<string>) {
    forall i :: 0 <= i < |order| ==> RestorableCollection(codec, order[i], members, files, known)
  }

  predicate RestorableCollection(codec: Codec, name: string, members: map<string, seq<string>>, files: Files,
                                 known: set<string>) {
    && name in known
    && name in members
    && Decoded(codec, AllRows(members[name], files)).Some?
  }

  function DocumentsOf(codec: Codec, name: string, members: map<string, seq<string>>, files: Files): seq<Document> {
    if name in members && Decoded(codec, AllRows(members[name], files)).Some?
    then Decoded(codec, AllRows(members[name], files)).value else []
  }

  function LiveOf(collections: map<string, Live>, name: string): Live {
    if name in collections then collections[name] else map[]
  }

  /** Counters and database contents while the collections are restored one after the other. */
  datatype Outcome = Outcome(documents: nat, applied: nat, skipped: seq<string>, collections: map<string, Live>)

  function RestoreOne(codec: Codec, name: string, members: map<string, seq<string>>, files: Files,
                      applyChanges: bool, o: Outcome): Outcome {
    var documents := DocumentsOf(codec, name, members, files);
    var counted := o.(documents := o.documents + |documents|);
    if !applyChanges then counted
    else if Skipped(name) then counted.(skipped := o.skipped + [name])
    else counted.(applied := o.applied + |documents|,
                  collections := o.collections[name := Upsert(LiveOf(o.collections, name), documents)])
  }

  function Restored(codec: Codec, order: seq<string>, members: map<string, seq<string>>, files: Files,
                    applyChanges: bool, before: map<string, Live>): Outcome {
    if order == [] then Outcome(0, 0, [], before)
    else RestoreOne(codec, order[|order| - 1], members, files, applyChanges,
                    Restored(codec, order[..|order| - 1], members, files, applyChanges, before))
  }

  lemma RestorableSnoc(codec: Codec, order: seq<string>, i: nat, members: map<string, seq<string>>, files: Files,
                       known: set<string>)
    requires i < |order| && Restorable(codec, order[..i], members, files, known)
    ensures Restorable(codec, order[..i + 1], members, files, known) <==>
        RestorableCollection(codec, order[i], members, files, known)
    ensures Restorable(codec, order, members, files, known) ==>
        RestorableCollection(codec, order[i], members, files, known)
  {
    var more := order[..i + 1];
    assert more[i] == order[i] && forall j :: 0 <= j < i ==> more[j] == order[..i][j];
  }

  lemma RestoredSnoc(codec: Codec, order: seq<string>, i: nat, members: map<string, seq<string>>, files: Files,
                     applyChanges: bool, before: map<string, Live>)
    requires i < |order|
    ensures Restored(codec, order[..i + 1], members, files, applyChanges, before)
         == RestoreOne(codec, order[i], members, files, applyChanges,
                       Restored(codec, order[..i], members, files, applyChanges, before))
  {
    assert order[..i + 1][..i] == order[..i];
  }

  lemma {:induction false} RestoredUnlessSkipped(codec: Codec, order: seq<string>, members: map<string, seq<string>>,
                                                 files: Files, before: map<string, Live>, name: string)
    requires forall i, j :: 0 <= i < j < |order| ==> order[i] != order[j]
    ensures LiveOf(Restored(codec, order, members, files, true, before).collections, name) ==
            if name in order && !Skipped(name)
            then Upsert(LiveOf(before, name), DocumentsOf(codec, name, members, files))
            else LiveOf(before, name)
  {
    if order != [] {
      var n := |order| - 1;
      var front := order[..n];
      RestoredUnlessSkipped(codec, front, members, files, before, name);
      assert name in order <==> name in front || name == order[n];
      assert order[n] !in front;
    }
  }

  /** In an applied restore every collection of the archive but the two that are skipped ends up as its
      old contents with the archive's documents upserted; all other collections are untouched. */
  lemma RestoredCollection(codec: Codec, order: seq<string>, members: map<string, seq<string>>, files: Files,
                           before: map<string, Live>, name: string)
    requires forall i, j :: 0 <= i < j < |order| ==> order[i] != order[j]
    ensures LiveOf(Restored(codec, order, members, files, true, before).collections, name) ==
            if name in order && name != "task" && name != "backup_record"
            then Upsert(LiveOf(before, name), DocumentsOf(codec, name, members, files))
            else LiveOf(before, name)
  {
    RestoredUnlessSkipped(codec, order, members, files, before, name);
  }

  /** Every member the validator listed is among the files. */
  predicate Present(members: map<string, seq<string>>, files: Files) {
    forall name, m :: name in members && m in members[name] ==> m in files
  }

  /** What a collection that stops the restore leaves behind: the whole batches before its bad row. */
  function LeftBehind(codec: Codec, name: string, members: map<string, seq<string>>, files: Files,
                      known: set<string>, applyChanges: bool, collections: map<string, Live>): map<string, Live>
    requires name in members
  {
    if name !in known || !applyChanges || Skipped(name) then collections
    else
      var written := WholeBatches(Decodable(codec, AllRows(members[name], files)));
      collections[name := Upsert(LiveOf(collections, name), written)]
  }

  /** The restore ended at collection `i`: the ones before it are restored. */
  ghost predicate StoppedAt(codec: Codec, order: seq<string>, i: int, members: map<string, seq<string>>, files: Files,
                            known: set<string>, applyChanges: bool, before: map<string, Live>,
                            after: map<string, Live>, e: Error) {
    && 0 <= i < |order| && order[i] in members
    && Restorable(codec, order[..i], members, files, known)
    && !RestorableCollection(codec, order[i], members, files, known)
    && e == (if order[i] in known then DocumentInvalid else CollectionUnknown)
    && after == LeftBehind(codec, order[i], members, files, known, applyChanges,
                           Restored(codec, order[..i], members, files, applyChanges, before).collections)
  }

  lemma RestoredNext(codec: Codec, name: string, members: map<string, seq<string>>, files: Files, applyChanges: bool,
                     o: Outcome)
    requires name in members && Decoded(codec, AllRows(members[name], files)).Some?
    ensures var documents := Decoded(codec, AllRows(members[name], files)).value;
            var apply := applyChanges && !Skipped(name);
            RestoreOne(codec, name, members, files, applyChanges, o)
            == Outcome(o.documents + |documents|, o.applied + (if apply then |documents| else 0),
                       if applyChanges && !apply then o.skipped + [name] else o.skipped,
                       if apply then o.collections[name := Upsert(LiveOf(o.collections, name), documents)]
                       else o.collections)
  {
  }

  /** One turn of the restore loop; when it fails, batches of this collection may already be applied. */
  method RestoreNext(codec: Codec, name: string, members: map<string, seq<string>>, files: Files,
                     known: set<string>, applyChanges: bool, o: Outcome)
    returns (failure: Option<Error>, next: Outcome)
    requires name in members && Present(members, files)
    ensures failure.None? <==> RestorableCollection(codec, name, members, files, known)
    ensures failure.None? ==> next == RestoreOne(codec, name, members, files, applyChanges, o)
    ensures !applyChanges ==> next.collections == o.collections
    ensures failure.Some? ==>
              && failure.value == (if name in known then DocumentInvalid else CollectionUnknown)
              && next.collections == LeftBehind(codec, name, members, files, known, applyChanges, o.collections)
  {
    if name !in known {
      return Some(CollectionUnknown), o;
    }
    var apply := applyChanges && !Skipped(name);
    var skipped := if applyChanges && !apply then o.skipped + [name] else o.skipped;
    var done, live := RestoreCollection(codec, members[name], files, LiveOf(o.collections, name), apply);
    var collections := if apply then o.collections[name := live] else o.collections;
    if done.Err? {
      return Some(done.error), Outcome(o.documents, o.applied, skipped, collections);
    }
    RestoredNext(codec, name, members, files, applyChanges, o);
    return None, Outcome(o.documents + done.value.0, o.applied + done.value.1, skipped, collections);
  }

  class Database {
    var collections: map<string, Live>

    /** The restore loop; `order` is the sorted list of the archive's collections. */
    method RestoreBackup(codec: Codec, order: seq<string>, members: map<string, seq<string>>, files: Files,
                         known: set<string>, applyChanges: bool)
      returns (r: Result<Summary, Error>)
      requires (forall name :: name in order ==> name in members) && Present(members, files)
      modifies this
      ensures r.Ok? <==> Restorable(codec, order, members, files, known)
      ensures r.Ok? ==>
                r.value.With(collections) == Restored(codec, order, members, files, applyChanges, old(collections))
      ensures r.Err? ==>
                exists i :: StoppedAt(codec, order, i, members, files, known, applyChanges, old(collections),
                                      collections, r.error)
      ensures !applyChanges ==> collections == old(collections)
    {
      var o := Outcome(0, 0, [], collections);
      for i := 0 to |order|
        invariant Restorable(codec, order[..i], members, files, known)
        invariant o == Restored(codec, order[..i], members, files, applyChanges, old(collections))
        invariant collections == o.collections && (!applyChanges ==> collections == old(collections))
      {
        RestoredSnoc(codec, order, i, members, files, applyChanges, old(collections));
        RestorableSnoc(codec, order, i, members, files, known);
        var failure, next := RestoreNext(codec, order[i], members, files, known, applyChanges, o);
        collections := next.collections;
        if failure.Some? {
          assert StoppedAt(codec, order, i, members, files, known, applyChanges, old(collections), collections,
                           failure.value);
          return Err(failure.value);
        }
        o := next;
      }
      assert order[..|order|] == order;
      return Ok(Summary(o.documents, o.applied, o.skipped));
    }
  }
}
