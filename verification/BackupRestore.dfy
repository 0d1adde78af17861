/** Restoring an archive that the writer produced: it succeeds, counts the documents of the backup and
    overlays every collection with them (`backups.py`). */
module BackupRestore {
  import opened Archive
  import opened ArchiveReader
  import opened Restore
  import opened BackupRoundTrip
  import opened Sums

  function NamesOf(db: seq<Collection>): (names: seq<string>)
    ensures |names| == |db| && forall k :: 0 <= k < |db| ==> names[k] == db[k].name
  {
    seq(|db|, k requires 0 <= k < |db| => db[k].name)
  }

  function DocumentCount(db: seq<Collection>): nat {
    if db == [] then 0 else DocumentCount(db[..|db| - 1]) + |db[|db| - 1].documents|
  }

  /** The documents of the collections that a restore does not skip. */
  function AppliedCount(db: seq<Collection>): nat {
    if db == [] then 0
    else
      var last := db[|db| - 1];
      AppliedCount(db[..|db| - 1]) + if Skipped(last.name) then 0 else |last.documents|
  }

  lemma {:induction false} SumIsCount(db: seq<Collection>, f: string -> nat, g: string -> nat)
    requires forall k :: 0 <= k < |db| ==> f(db[k].name) == |db[k].documents|
    requires forall k :: 0 <= k < |db| ==> g(db[k].name) == if Skipped(db[k].name) then 0 else |db[k].documents|
    ensures Sum(NamesOf(db), f) == DocumentCount(db) && Sum(NamesOf(db), g) == AppliedCount(db)
  {
    if db != [] {
      SumIsCount(db[..|db| - 1], f, g);
      assert NamesOf(db)[..|db| - 1] == NamesOf(db[..|db| - 1]);
    }
  }

  lemma {:induction false} RestoredCounts(codec: Codec, order: seq<string>, members: map<string, seq<string>>,
                                          files: Files, before: map<string, Live>, f: string -> nat, g: string -> nat)
    requires forall name :: f(name) == |DocumentsOf(codec, name, members, files)|
    requires forall name :: g(name) == if Skipped(name) then 0 else f(name)
    ensures var o := Restored(codec, order, members, files, true, before);
            o.documents == Sum(order, f) && o.applied == Sum(order, g)
  {
    if order != [] {
      RestoredCounts(codec, order[..|order| - 1], members, files, before, f, g);
    }
  }

  lemma OrderIsPermutation(db: seq<Collection>, order: seq<string>)
    requires DistinctCollections(db)
    requires forall i, j :: 0 <= i < j < |order| ==> order[i] != order[j]
    requires forall name :: name in order <==> Named(db, name)
    ensures multiset(order) == multiset(NamesOf(db))
  {
    forall name ensures name in order <==> name in NamesOf(db) {
      if Named(db, name) {
        var k :| 0 <= k < |db| && db[k].name == name;
        assert NamesOf(db)[k] == name;
      }
      if name in NamesOf(db) {
        var k :| 0 <= k < |db| && NamesOf(db)[k] == name;
        assert db[k].name == name;
      }
    }
    SameNames(order, NamesOf(db));
  }

  /** Documents per collection, as found in the files, and those a restore applies. */
  function Found(codec: Codec, members: map<string, seq<string>>, files: Files): string -> nat {
    name => |DocumentsOf(codec, name, members, files)|
  }

  function Unskipped(f: string -> nat): string -> nat {
    name => if Skipped(name) then 0 else f(name)
  }

  lemma FoundInBackup(codec: Codec, db: seq<Collection>, limit: nat)
    requires Faithful(codec) && WellNamed(db) && AllFit(codec, db, limit)
    ensures var f := Found(codec, MembersByCollection(Metas(codec, db, limit)), CollectionFiles(codec, db, limit));
            Sum(NamesOf(db), f) == DocumentCount(db) && Sum(NamesOf(db), Unskipped(f)) == AppliedCount(db)
  {
    var f := Found(codec, MembersByCollection(Metas(codec, db, limit)), CollectionFiles(codec, db, limit));
    forall k | 0 <= k < |db| ensures f(db[k].name) == |db[k].documents| {
      DocumentsReadBack(codec, db, limit, k);
    }
    SumIsCount(db, f, Unskipped(f));
  }

  /** A restore of such an archive counts and applies exactly the documents of the backup. */
  lemma RestoreCounts(codec: Codec, db: seq<Collection>, limit: nat, order: seq<string>, before: map<string, Live>)
    requires Faithful(codec) && WellNamed(db) && AllFit(codec, db, limit)
    requires forall i, j :: 0 <= i < j < |order| ==> order[i] != order[j]
    requires forall name :: name in order <==> Named(db, name)
    ensures var members := MembersByCollection(Metas(codec, db, limit));
            var o := Restored(codec, order, members, CollectionFiles(codec, db, limit), true, before);
            o.documents == DocumentCount(db) && o.applied == AppliedCount(db)
  {
    var members, files := MembersByCollection(Metas(codec, db, limit)), CollectionFiles(codec, db, limit);
    var f := Found(codec, members, files);
    RestoredCounts(codec, order, members, files, before, f, Unskipped(f));
    FoundInBackup(codec, db, limit);
    OrderIsPermutation(db, order);
    SumPermuted(order, NamesOf(db), f);
    SumPermuted(order, NamesOf(db), Unskipped(f));
  }

  lemma {:induction false} RehearsedCounts(codec: Codec, order: seq<string>, members: map<string, seq<string>>,
                                           files: Files, before: map<string, Live>, f: string -> nat)
    requires forall name :: f(name) == |DocumentsOf(codec, name, members, files)|
    ensures Restored(codec, order, members, files, false, before) == Outcome(Sum(order, f), 0, [], before)
  {
    if order != [] {
      RehearsedCounts(codec, order[..|order| - 1], members, files, before, f);
    }
  }

  /** A rehearsal counts every document of the backup, applies and skips none, and changes nothing. */
  lemma RehearsalCounts(codec: Codec, db: seq<Collection>, limit: nat, order: seq<string>, before: map<string, Live>)
    requires Faithful(codec) && WellNamed(db) && AllFit(codec, db, limit)
    requires forall i, j :: 0 <= i < j < |order| ==> order[i] != order[j]
    requires forall name :: name in order <==> Named(db, name)
    ensures var members := MembersByCollection(Metas(codec, db, limit));
            Restored(codec, order, members, CollectionFiles(codec, db, limit), false, before)
            == Outcome(DocumentCount(db), 0, [], before)
  {
    var members, files := MembersByCollection(Metas(codec, db, limit)), CollectionFiles(codec, db, limit);
    var f := Found(codec, members, files);
    RehearsedCounts(codec, order, members, files, before, f);
    FoundInBackup(codec, db, limit);
    OrderIsPermutation(db, order);
    SumPermuted(order, NamesOf(db), f);
  }

  function Once(order: seq<string>, name: string): seq<string> {
    if name in order then [name] else []
  }

  lemma OnceSnoc(order: seq<string>, name: string)
    requires order != [] && forall i, j :: 0 <= i < j < |order| ==> order[i] != order[j]
    ensures var n := |order| - 1;
            && Once(order, name) == (if order[n] == name then [name] else Once(order[..n], name))
            && (order[n] == name ==> Once(order[..n], name) == [])
  {
    var n := |order| - 1;
    assert order[..n] + [order[n]] == order;
    assert forall i :: 0 <= i < n ==> order[..n][i] == order[i];
  }

  /** In sorted order the skip list names the backup records and the tasks, each when the archive has them. */
  lemma {:induction false} SkippedAre(codec: Codec, order: seq<string>, members: map<string, seq<string>>,
                                      files: Files, before: map<string, Live>)
    requires forall i, j :: 0 <= i < j < |order| ==> order[i] != order[j]
    requires forall i, j :: 0 <= i < j < |order| ==> !(order[i] == "task" && order[j] == "backup_record")
    ensures Restored(codec, order, members, files, true, before).skipped
            == Once(order, "backup_record") + Once(order, "task")
  {
    if order != [] {
      var n := |order| - 1;
      SkippedAre(codec, order[..n], members, files, before);
      OnceSnoc(order, "backup_record");
      OnceSnoc(order, "task");
      if order[n] == "backup_record" {
        assert forall i :: 0 <= i < n ==> order[..n][i] == order[i];
        assert Once(order[..n], "task") == [];
      }
    }
  }

  lemma RestoreSucceeds(codec: Codec, db: seq<Collection>, limit: nat, order: seq<string>, known: set<string>)
    requires Faithful(codec) && WellNamed(db) && AllFit(codec, db, limit)
    requires forall name :: name in order ==> Named(db, name) && name in known
    ensures Restorable(codec, order, MembersByCollection(Metas(codec, db, limit)),
                       CollectionFiles(codec, db, limit), known)
  {
    var members, files := MembersByCollection(Metas(codec, db, limit)), CollectionFiles(codec, db, limit);
    forall i | 0 <= i < |order| ensures RestorableCollection(codec, order[i], members, files, known) {
      assert order[i] in order;
      var k :| 0 <= k < |db| && db[k].name == order[i];
      MetasLookup(codec, db, limit, k);
      FilesHoldChunks(codec, db, limit, k);
      CollectionReadsBack(codec, db[k], limit, files);
    }
  }

  /** Restoring such an archive into a database that knows its collections, visiting them in any order,
      succeeds, counts every document, applies those that are not skipped, and gives every collection that
      is not skipped its old contents overlaid with exactly the backed-up documents. */
  lemma RestoreRoundTrip(codec: Codec, db: seq<Collection>, limits: Limits, order: seq<string>, known: set<string>,
                         before: map<string, Live>, k: nat)
    requires Faithful(codec) && Configured(limits) && k < |db|
    requires WellNamed(db) && AllFit(codec, db, limits.member) && WithinLimits(codec, db, limits)
    requires forall i, j :: 0 <= i < j < |order| ==> order[i] != order[j]
    requires forall name :: name in order <==> Named(db, name)
    requires forall name :: name in order ==> name in known
    ensures var members := MembersByCollection(Metas(codec, db, limits.member));
            var files := CollectionFiles(codec, db, limits.member);
            var o := Restored(codec, order, members, files, true, before);
            && Restorable(codec, order, members, files, known)
            && o.documents == DocumentCount(db) && o.applied == AppliedCount(db)
            && LiveOf(o.collections, db[k].name) ==
                 if db[k].name == "task" || db[k].name == "backup_record" then LiveOf(before, db[k].name)
                 else Upsert(LiveOf(before, db[k].name), db[k].documents)
  {
    var members := MembersByCollection(Metas(codec, db, limits.member));
    RestoreSucceeds(codec, db, limits.member, order, known);
    RestoreCounts(codec, db, limits.member, order, before);
    DocumentsReadBack(codec, db, limits.member, k);
    assert Named(db, db[k].name);
    RestoredCollection(codec, order, members, CollectionFiles(codec, db, limits.member), before, db[k].name);
  }
}
