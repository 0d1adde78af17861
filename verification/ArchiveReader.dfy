/** Reading a backup archive back: `_read_archive` with the schema-1 and schema-2 validators. */
module ArchiveReader {
  import opened Strings
  import opened Chunking
  import opened MemberNames
  import opened Archive

  type Files = map<string, Bytes>

  /** `_validate_collection_metadata`: the first disagreement, if any. */
  function CheckMetadata(counts: Counts, documents: nat, sizeBytes: nat, digest: Digest): (e: Option<Error>)
    ensures e == None <==> counts == Counts(Some(documents), Some(sizeBytes), Some(digest))
    ensures e != Some(CollectionSetMismatch)
  {
    match counts
    case NotAnObject => Some(ManifestInvalid)
    case Counts(d, s, h) =>
      if d.None? || d.value < 0 then Some(ManifestInvalid)
      else if d.value != documents then Some(CountMismatch)
      else if s != Some(sizeBytes) then Some(SizeMismatch)
      else if h != Some(digest) then Some(ChecksumMismatch)
      else None
  }

  function Get(files: Files, name: string): Bytes {
    if name in files then files[name] else []
  }

  /** The members of a collection, concatenated in index order. */
  function Content(name: string, n: nat, files: Files): Bytes {
    if n == 0 then [] else Content(name, n - 1, files) + Get(files, ChunkName(name, n - 1))
  }

  function RowCount(name: string, n: nat, files: Files): nat {
    if n == 0 then 0 else RowCount(name, n - 1, files) + |Rows(Get(files, ChunkName(name, n - 1)))|
  }

  function ChunkNames(name: string, n: nat): (names: seq<string>)
    ensures |names| == n
    ensures forall j :: 0 <= j < n ==> names[j] == ChunkName(name, j)
  {
    if n == 0 then [] else ChunkNames(name, n - 1) + [ChunkName(name, n - 1)]
  }

  // ------------------------------------------------ what an archive must satisfy

  predicate ContentOk(codec: Codec, counts: Counts, content: Bytes, documents: nat) {
    counts == Counts(Some(documents), Some(|content|), Some(codec.digest(content)))
  }

  predicate ChunkOk(codec: Codec, name: string, j: nat, meta: ChunkMeta, files: Files) {
    var member := ChunkName(name, j);
    && meta.member == Some(member)
    && member in files
    && ContentOk(codec, meta.counts, files[member], |Rows(files[member])|)
  }

  predicate ChunksOk(codec: Codec, name: string, chunks: seq<ChunkMeta>, files: Files) {
    forall j :: 0 <= j < |chunks| ==> ChunkOk(codec, name, j, chunks[j], files)
  }

  predicate CollectionOk(codec: Codec, name: string, meta: CollectionMeta, files: Files) {
    && CollectionName(name)
    && meta.chunks.Some? && meta.chunks.value != []
    && ChunksOk(codec, name, meta.chunks.value, files)
    && var n := |meta.chunks.value|;
       ContentOk(codec, meta.counts, Content(name, n, files), RowCount(name, n, files))
  }

  function ChunkCount(meta: CollectionMeta): nat {
    if meta.chunks.Some? then |meta.chunks.value| else 0
  }

  function NamesIn(collections: map<string, CollectionMeta>, name: string): seq<string>
    requires name in collections
  {
    ChunkNames(name, ChunkCount(collections[name]))
  }

  function ExpectedMembers(collections: map<string, CollectionMeta>, names: set<string>): set<string> {
    set name, m | name in names && name in collections && m in NamesIn(collections, name) :: m
  }

  predicate CollectionsOk(codec: Codec, collections: map<string, CollectionMeta>, files: Files) {
    forall name :: name in collections ==> CollectionOk(codec, name, collections[name], files)
  }

  /** The manifest and the members agree on every name, count, size and hash, both ways. */
  predicate ValidV2(codec: Codec, collections: map<string, CollectionMeta>, files: Files) {
    && CollectionsOk(codec, collections, files)
    && files.Keys == ExpectedMembers(collections, collections.Keys)
  }

  function MembersByCollection(collections: map<string, CollectionMeta>): map<string, seq<string>> {
    map name | name in collections :: NamesIn(collections, name)
  }

  predicate WholeOk(codec: Codec, name: string, meta: CollectionMeta, files: Files) {
    var member := WholeName(name);
    && CollectionName(name)
    && member in files
    && ContentOk(codec, meta.counts, files[member], |Rows(files[member])|)
  }

  function WholeNames(names: set<string>): set<string> {
    set name | name in names :: WholeName(name)
  }

  predicate ValidV1(codec: Codec, collections: map<string, CollectionMeta>, files: Files) {
    && (forall name :: name in collections ==> WholeOk(codec, name, collections[name], files))
    && files.Keys == WholeNames(collections.Keys)
  }

  // ------------------------------------------------------------ the validators

  /** The checks on one chunk, in their order. */
  function CheckChunk(codec: Codec, name: string, j: nat, meta: ChunkMeta, files: Files, expected: set<string>,
                      members: seq<string>): (e: Option<Error>)
    ensures ChunkName(name, j) !in expected && ChunkName(name, j) !in members ==>
              (e == None <==> ChunkOk(codec, name, j, meta, files))
    ensures e != Some(CollectionSetMismatch)
  {
    var member := ChunkName(name, j);
    if meta.counts.NotAnObject? || meta.member != Some(member) || member in expected || member in members
      then Some(ManifestInvalid)
    else if member !in files then Some(CollectionMissing)
    else CheckMetadata(meta.counts, |Rows(files[member])|, |files[member]|, codec.digest(files[member]))
  }

  /** Inner loop of `_validate_v2_archive`; `expected` holds the members of other collections. */
  method ValidateChunks(codec: Codec, name: string, chunks: seq<ChunkMeta>, files: Files, expected: set<string>)
    returns (r: Result<(seq<string>, Bytes, nat), Error>)
    requires CollectionName(name)
    requires forall j: nat :: ChunkName(name, j) !in expected
    ensures r.Ok? <==> ChunksOk(codec, name, chunks, files)
    ensures r.Ok? ==>
              r.value == (ChunkNames(name, |chunks|), Content(name, |chunks|, files), RowCount(name, |chunks|, files))
    ensures r.Err? ==> r.error != CollectionSetMismatch
  {
    var members: seq<string>, hash: Bytes, documents: nat := [], [], 0;
    for j := 0 to |chunks|
      invariant members == ChunkNames(name, j) && hash == Content(name, j, files)
                && documents == RowCount(name, j, files)
      invariant forall k :: 0 <= k < j ==> ChunkOk(codec, name, k, chunks[k], files)
    {
      FreshMember(name, j, members, expected);
      var problem := CheckChunk(codec, name, j, chunks[j], files, expected, members);
      if problem.Some? {
        return Err(problem.value);
      }
      var member := ChunkName(name, j);
      members := members + [member];
      hash := hash + files[member];
      documents := documents + |Rows(files[member])|;
    }
    return Ok((members, hash, documents));
  }

  lemma FreshMember(name: string, j: nat, members: seq<string>, expected: set<string>)
    requires Free(name, '/') && members == ChunkNames(name, j)
    requires forall k: nat :: ChunkName(name, k) !in expected
    ensures ChunkName(name, j) !in expected && ChunkName(name, j) !in members
  {
    if i :| 0 <= i < |members| && members[i] == ChunkName(name, j) {
      ChunkNameInjective(name, i, name, j);
    }
  }

  lemma OtherMembers(collections: map<string, CollectionMeta>, done: set<string>, name: string)
    requires Free(name, '/') && name !in done
    requires forall other :: other in done ==> Free(other, '/')
    ensures forall j: nat :: ChunkName(name, j) !in ExpectedMembers(collections, done)
  {
    forall j: nat
      ensures ChunkName(name, j) !in ExpectedMembers(collections, done)
    {
      if ChunkName(name, j) in ExpectedMembers(collections, done) {
        var other :| other in done && other in collections && ChunkName(name, j) in NamesIn(collections, other);
        var i :| 0 <= i < ChunkCount(collections[other]) && NamesIn(collections, other)[i] == ChunkName(name, j);
        ChunkNameInjective(other, i, name, j);
      }
    }
  }

  lemma ExpectedGrows(collections: map<string, CollectionMeta>, done: set<string>, name: string)
    requires name in collections
    ensures ExpectedMembers(collections, done + {name})
         == ExpectedMembers(collections, done) + set m | m in NamesIn(collections, name)
  {
  }

  lemma KeysGrow<K, V>(m: map<K, V>, key: K, value: V)
    ensures m[key := value].Keys == m.Keys + {key}
  {
  }

  method ValidateCollection(codec: Codec, name: string, meta: CollectionMeta, files: Files, expected: set<string>)
    returns (r: Result<seq<string>, Error>)
    requires Free(name, '/') ==> forall j: nat :: ChunkName(name, j) !in expected
    ensures r.Ok? <==> CollectionOk(codec, name, meta, files)
    ensures r.Ok? ==> r.value == ChunkNames(name, ChunkCount(meta))
    ensures r.Err? ==> r.error != CollectionSetMismatch
  {
    if name == "" || !Free(name, '/') || meta.counts.NotAnObject? || meta.chunks.None? || meta.chunks.value == [] {
      return Err(ManifestInvalid);
    }
    var checked := ValidateChunks(codec, name, meta.chunks.value, files, expected);
    if checked.Err? {
      return Err(checked.error);
    }
    var (members, hash, documents) := checked.value;
    var problem := CheckMetadata(meta.counts, documents, |hash|, codec.digest(hash));
    if problem.Some? {
      return Err(problem.value);
    }
    return Ok(members);
  }

  function Elements(members: seq<string>): set<string> {
    set m | m in members
  }

  /** The dictionaries of the validator after the collections in `byCollection` passed. */
  ghost predicate Visited(collections: map<string, CollectionMeta>, byCollection: map<string, seq<string>>,
                          expected: set<string>) {
    && byCollection.Keys <= collections.Keys
    && (forall name :: name in byCollection ==> byCollection[name] == NamesIn(collections, name))
    && expected == ExpectedMembers(collections, byCollection.Keys)
  }

  lemma VisitedStep(collections: map<string, CollectionMeta>, byCollection: map<string, seq<string>>,
                    expected: set<string>, name: string)
    requires Visited(collections, byCollection, expected) && name in collections
    ensures var members := NamesIn(collections, name);
            Visited(collections, byCollection[name := members], expected + Elements(members))
  {
    ExpectedGrows(collections, byCollection.Keys, name);
    KeysGrow(byCollection, name, NamesIn(collections, name));
  }

  lemma VisitedAll(collections: map<string, CollectionMeta>, byCollection: map<string, seq<string>>,
                   expected: set<string>)
    requires Visited(collections, byCollection, expected) && byCollection.Keys == collections.Keys
    ensures byCollection == MembersByCollection(collections)
    ensures expected == ExpectedMembers(collections, collections.Keys)
  {
    var all := MembersByCollection(collections);
    assert all.Keys == byCollection.Keys;
    assert forall name :: name in all ==> all[name] == byCollection[name];
  }

  ghost function Passing(codec: Codec, collections: map<string, CollectionMeta>, files: Files): (names: set<string>)
    ensures names == collections.Keys <==> CollectionsOk(codec, collections, files)
  {
    set name | name in collections && CollectionOk(codec, name, collections[name], files)
  }

  /** The collections that were visited passed, and their members are in the dictionaries. */
  ghost predicate Passed(codec: Codec, collections: map<string, CollectionMeta>, files: Files,
                         byCollection: map<string, seq<string>>, expected: set<string>) {
    && Visited(collections, byCollection, expected)
    && byCollection.Keys <= Passing(codec, collections, files)
  }

  lemma PassedStep(codec: Codec, collections: map<string, CollectionMeta>, files: Files,
                   byCollection: map<string, seq<string>>, expected: set<string>, name: string)
    requires Passed(codec, collections, files, byCollection, expected)
    requires name in collections && CollectionOk(codec, name, collections[name], files)
    ensures var members := NamesIn(collections, name);
            Passed(codec, collections, files, byCollection[name := members], expected + Elements(members))
  {
    VisitedStep(collections, byCollection, expected, name);
    KeysGrow(byCollection, name, NamesIn(collections, name));
  }

  lemma NewNames(codec: Codec, collections: map<string, CollectionMeta>, files: Files,
                 byCollection: map<string, seq<string>>, expected: set<string>, name: string)
    requires Passed(codec, collections, files, byCollection, expected) && name !in byCollection
    ensures Free(name, '/') ==> forall j: nat :: ChunkName(name, j) !in expected
  {
    if Free(name, '/') {
      forall other | other in byCollection.Keys ensures Free(other, '/') {
        assert other in Passing(codec, collections, files);
      }
      OtherMembers(collections, byCollection.Keys, name);
    }
  }

  lemma PassedAll(codec: Codec, collections: map<string, CollectionMeta>, files: Files,
                  byCollection: map<string, seq<string>>, expected: set<string>)
    requires Passed(codec, collections, files, byCollection, expected) && byCollection.Keys == collections.Keys
    ensures CollectionsOk(codec, collections, files)
    ensures (byCollection, expected)
         == (MembersByCollection(collections), ExpectedMembers(collections, collections.Keys))
  {
    VisitedAll(collections, byCollection, expected);
  }

  /** One turn of the outer loop. */
  method ValidateNext(codec: Codec, collections: map<string, CollectionMeta>, files: Files, name: string,
                      byCollection: map<string, seq<string>>, expected: set<string>)
    returns (failure: Option<Error>, byCollection': map<string, seq<string>>, expected': set<string>)
    requires Passed(codec, collections, files, byCollection, expected)
    requires name in collections && name !in byCollection
    ensures failure.Some? ==> !CollectionsOk(codec, collections, files) && failure.value != CollectionSetMismatch
    ensures failure.None? ==>
              && Passed(codec, collections, files, byCollection', expected')
              && byCollection'.Keys == byCollection.Keys + {name}
  {
    byCollection', expected' := byCollection, expected;
    NewNames(codec, collections, files, byCollection, expected, name);
    var members := ValidateCollection(codec, name, collections[name], files, expected);
    if members.Err? {
      failure := Some(members.error);
    } else {
      failure := None;
      PassedStep(codec, collections, files, byCollection, expected, name);
      KeysGrow(byCollection, name, members.value);
      expected' := expected + Elements(members.value);
      byCollection' := byCollection[name := members.value];
    }
  }

  method ValidateCollections(codec: Codec, collections: map<string, CollectionMeta>, files: Files)
    returns (r: Result<(map<string, seq<string>>, set<string>), Error>)
    ensures r.Ok? <==> CollectionsOk(codec, collections, files)
    ensures r.Ok? ==> r.value == (MembersByCollection(collections), ExpectedMembers(collections, collections.Keys))
    ensures r.Err? ==> r.error != CollectionSetMismatch
  {
    var expected: set<string>, byCollection: map<string, seq<string>> := {}, map[];
    while byCollection.Keys != collections.Keys
      invariant Passed(codec, collections, files, byCollection, expected)
      decreases |collections.Keys - byCollection.Keys|
    {
      SomeLeft(collections.Keys, byCollection.Keys);
      var name :| name in collections && name !in byCollection;
      Shrinks(collections.Keys, byCollection.Keys, name);
      var failure, more, grown := ValidateNext(codec, collections, files, name, byCollection, expected);
      if failure.Some? {
        return Err(failure.value);
      }
      byCollection, expected := more, grown;
    }
    PassedAll(codec, collections, files, byCollection, expected);
    return Ok((byCollection, expected));
  }

  lemma SomeLeft<T>(all: set<T>, done: set<T>)
    requires done <= all && done != all
    ensures exists x :: x in all && x !in done
  {
  }

  lemma Shrinks<T>(all: set<T>, done: set<T>, x: T)
    requires x in all - done
    ensures |all - (done + {x})| < |all - done|
  {
    assert all - (done + {x}) == (all - done) - {x};
  }

  /** Re-derives every count, size and hash; accepts exactly the valid archives, whatever the
      order in which the manifest's collections are visited. */
  method ValidateV2(codec: Codec, collections: map<string, CollectionMeta>, files: Files)
    returns (r: Result<map<string, seq<string>>, Error>)
    ensures r.Ok? <==> ValidV2(codec, collections, files)
    ensures r.Ok? ==> r.value == MembersByCollection(collections)
    ensures r == Err(CollectionSetMismatch) <==>
        CollectionsOk(codec, collections, files) && !ValidV2(codec, collections, files)
  {
    var checked := ValidateCollections(codec, collections, files);
    if checked.Err? {
      return Err(checked.error);
    }
    if files.Keys != checked.value.1 {
      return Err(CollectionSetMismatch);
    }
    return Ok(checked.value.0);
  }

  function CheckWhole(codec: Codec, name: string, meta: CollectionMeta, files: Files): (e: Option<Error>)
    ensures e == None <==> WholeOk(codec, name, meta, files)
  {
    var member := WholeName(name);
    if name == "" || !Free(name, '/') then Some(ManifestInvalid)
    else if member !in files then Some(CollectionMissing)
    else CheckMetadata(meta.counts, |Rows(files[member])|, |files[member]|, codec.digest(files[member]))
  }

  /** The collections of a schema-1 archive that passed, each with its one member. */
  ghost predicate VisitedWhole(codec: Codec, collections: map<string, CollectionMeta>, files: Files,
                               byCollection: map<string, seq<string>>) {
    && byCollection.Keys <= collections.Keys
    && forall name :: name in byCollection ==>
         WholeOk(codec, name, collections[name], files) && byCollection[name] == [WholeName(name)]
  }

  lemma VisitedWholeStep(codec: Codec, collections: map<string, CollectionMeta>, files: Files,
                         byCollection: map<string, seq<string>>, name: string)
    requires VisitedWhole(codec, collections, files, byCollection)
    requires name in collections && WholeOk(codec, name, collections[name], files)
    ensures VisitedWhole(codec, collections, files, byCollection[name := [WholeName(name)]])
  {
  }

  method ValidateV1(codec: Codec, collections: map<string, CollectionMeta>, files: Files)
    returns (r: Result<map<string, seq<string>>, Error>)
    ensures r.Ok? <==> ValidV1(codec, collections, files)
    ensures r.Ok? ==> r.value.Keys == collections.Keys
    ensures r.Ok? ==> forall name :: name in collections ==> r.value[name] == [WholeName(name)]
  {
    var byCollection: map<string, seq<string>> := map[];
    while byCollection.Keys != collections.Keys
      invariant VisitedWhole(codec, collections, files, byCollection)
      decreases |collections.Keys - byCollection.Keys|
    {
      var name :| name in collections.Keys - byCollection.Keys;
      var problem := CheckWhole(codec, name, collections[name], files);
      if problem.Some? {
        return Err(problem.value);
      }
      VisitedWholeStep(codec, collections, files, byCollection, name);
      Shrinks(collections.Keys, byCollection.Keys, name);
      KeysGrow(byCollection, name, [WholeName(name)]);
      byCollection := byCollection[name := [WholeName(name)]];
    }
    if files.Keys != WholeNames(collections.Keys) {
      return Err(CollectionSetMismatch);
    }
    return Ok(byCollection);
  }

  // ------------------------------------------------------------------- reading

  datatype Limits = Limits(member: nat, archive: nat)

  const MANIFEST := "manifest.json"

  predicate MemberOk(m: TarMember, limits: Limits) {
    && m.regular
    && (m.name == MANIFEST || CollectionOfMember(m.name).Some?)
    && |m.content| <= limits.member
  }

  predicate DistinctNames(members: seq<TarMember>) {
    forall i, j :: 0 <= i < j < |members| ==> members[i].name != members[j].name
  }

  function TotalSize(members: seq<TarMember>): nat {
    if members == [] then 0 else TotalSize(members[..|members| - 1]) + |members[|members| - 1].content|
  }

  function FilesOf(members: seq<TarMember>): Files {
    if members == [] then map[]
    else
      var m := members[|members| - 1];
      FilesOf(members[..|members| - 1])[m.name := m.content]
  }

  predicate Readable(members: seq<TarMember>, limits: Limits) {
    && (forall i :: 0 <= i < |members| ==> MemberOk(members[i], limits))
    && DistinctNames(members)
    && TotalSize(members) <= limits.archive
  }

  lemma {:induction false} FilesOfMembers(members: seq<TarMember>)
    requires DistinctNames(members)
    ensures forall name :: name in FilesOf(members) <==> exists i :: 0 <= i < |members| && members[i].name == name
    ensures forall i :: 0 <= i < |members| ==> members[i].name in FilesOf(members)
    ensures forall i :: 0 <= i < |members| ==> FilesOf(members)[members[i].name] == members[i].content
  {
    if members != [] {
      FilesOfMembers(members[..|members| - 1]);
    }
  }

  lemma {:induction false} ReadablePrefix(members: seq<TarMember>, i: nat, limits: Limits)
    requires i <= |members| && Readable(members, limits)
    ensures Readable(members[..i], limits)
  {
    if i < |members| {
      var front := members[..|members| - 1];
      assert forall k :: 0 <= k < |front| ==> front[k] == members[k];
      ReadablePrefix(front, i, limits);
      assert front[..i] == members[..i];
    } else {
      assert members[..i] == members;
    }
  }

  /** The checks of one turn of the extraction loop, in their order. */
  function CheckMember(m: TarMember, files: Files, total: nat, limits: Limits): Option<Error> {
    if !m.regular || !(m.name == MANIFEST || CollectionOfMember(m.name).Some?) then Some(MemberInvalid)
    else if m.name in files then Some(MemberDuplicate)
    else if |m.content| > limits.member then Some(MemberTooLarge)
    else if total + |m.content| > limits.archive then Some(ArchiveTooLarge)
    else None
  }

  lemma DistinctSnoc(before: seq<TarMember>, m: TarMember)
    requires DistinctNames(before)
    ensures DistinctNames(before + [m]) <==> m.name !in FilesOf(before)
  {
    var after := before + [m];
    FilesOfMembers(before);
    if m.name in FilesOf(before) {
      var k :| 0 <= k < |before| && before[k].name == m.name;
      assert after[k].name == after[|before|].name;
    }
  }

  lemma MembersOkSnoc(before: seq<TarMember>, m: TarMember, limits: Limits)
    requires forall k :: 0 <= k < |before| ==> MemberOk(before[k], limits)
    ensures (forall k :: 0 <= k < |before + [m]| ==> MemberOk((before + [m])[k], limits)) <==> MemberOk(m, limits)
  {
    assert (before + [m])[|before|] == m;
  }

  lemma ReadableStep(before: seq<TarMember>, m: TarMember, limits: Limits)
    requires Readable(before, limits)
    ensures FilesOf(before + [m]) == FilesOf(before)[m.name := m.content]
    ensures TotalSize(before + [m]) == TotalSize(before) + |m.content|
    ensures Readable(before + [m], limits) <==> CheckMember(m, FilesOf(before), TotalSize(before), limits) == None
  {
    var after := before + [m];
    assert after[..|after| - 1] == before;
    assert after[|after| - 1] == m;
    DistinctSnoc(before, m);
    MembersOkSnoc(before, m, limits);
  }

  /** The extraction loop: member kinds, duplicates, and both size limits. */
  method ReadMembers(members: seq<TarMember>, limits: Limits) returns (r: Result<Files, Error>)
    ensures r.Ok? <==> Readable(members, limits)
    ensures r.Ok? ==> r.value == FilesOf(members)
    ensures r.Err? ==> r.error in {MemberInvalid, MemberDuplicate, MemberTooLarge, ArchiveTooLarge}
  {
    var files: Files, total := map[], 0;
    for i := 0 to |members|
      invariant files == FilesOf(members[..i]) && total == TotalSize(members[..i])
      invariant Readable(members[..i], limits)
    {
      var m := members[i];
      TakeOneMore(members, i);
      ReadableStep(members[..i], m, limits);
      var problem := CheckMember(m, files, total, limits);
      if problem.Some? {
        if Readable(members, limits) {
          ReadablePrefix(members, i + 1, limits);
        }
        return Err(problem.value);
      }
      total := total + |m.content|;
      files := files[m.name := m.content];
    }
    assert members[..|members|] == members;
    return Ok(files);
  }

  /** Everything `_read_archive` demands of the members of an archive. */
  predicate Accepts(codec: Codec, members: seq<TarMember>, limits: Limits) {
    && Readable(members, limits)
    && var files := FilesOf(members);
    && MANIFEST in files
    && var manifest := codec.decodeManifest(files[MANIFEST]);
    && manifest.Some?
    && manifest.value.collections.Some?
    && var rest := files - {MANIFEST};
    || (manifest.value.schemaVersion == Some(1) && ValidV1(codec, manifest.value.collections.value, rest))
    || (manifest.value.schemaVersion == Some(2) && ValidV2(codec, manifest.value.collections.value, rest))
  }

  function MembersNamed(manifest: Manifest, name: string): seq<string>
    requires manifest.collections.Some? && name in manifest.collections.value
  {
    if manifest.schemaVersion == Some(1) then [WholeName(name)] else NamesIn(manifest.collections.value, name)
  }

  method ReadArchive(codec: Codec, members: seq<TarMember>, limits: Limits)
    returns (r: Result<(Manifest, Files, map<string, seq<string>>), Error>)
    ensures r.Ok? <==> Accepts(codec, members, limits)
    ensures r.Ok? ==>
              var (manifest, files, byCollection) := r.value;
              && files == FilesOf(members) - {MANIFEST}
              && codec.decodeManifest(FilesOf(members)[MANIFEST]) == Some(manifest)
              && byCollection.Keys == manifest.collections.value.Keys
              && forall name :: name in byCollection ==>
                   byCollection[name] == MembersNamed(manifest, name)
  {
    var read := ReadMembers(members, limits);
    if read.Err? {
      return Err(read.error);
    }
    if MANIFEST !in read.value {
      return Err(ManifestInvalid);
    }
    var decoded := codec.decodeManifest(read.value[MANIFEST]);
    var files := read.value - {MANIFEST};
    if decoded.None? || decoded.value.schemaVersion !in {Some(1), Some(2)} || decoded.value.collections.None? {
      return Err(ManifestInvalid);
    }
    var manifest := decoded.value;
    var byCollection;
    if manifest.schemaVersion == Some(1) {
      byCollection := ValidateV1(codec, manifest.collections.value, files);
    } else {
      byCollection := ValidateV2(codec, manifest.collections.value, files);
    }
    if byCollection.Err? {
      return Err(byCollection.error);
    }
    return Ok((manifest, files, byCollection.value));
  }

  // ------------------------------------------------------------ tamper evidence

  lemma SameFiles(a: Files, b: Files)
    requires a.Keys == b.Keys && forall m :: m in a.Keys ==> a[m] == b[m]
    ensures a == b
  {
  }

  /** With a collision-free hash a manifest pins down every byte of the archive: no two
      different sets of members are both valid for it. */
  lemma ManifestDeterminesFiles(codec: Codec, collections: map<string, CollectionMeta>, a: Files, b: Files)
    requires CollisionFree(codec)
    requires ValidV2(codec, collections, a) && ValidV2(codec, collections, b)
    ensures a == b
  {
    forall m | m in ExpectedMembers(collections, collections.Keys)
      ensures m in a && m in b && a[m] == b[m]
    {
      FileDetermined(codec, collections, a, b, m);
    }
    SameFiles(a, b);
  }

  /** The same for archives of schema 1. */
  lemma ManifestDeterminesFilesV1(codec: Codec, collections: map<string, CollectionMeta>, a: Files, b: Files)
    requires CollisionFree(codec)
    requires ValidV1(codec, collections, a) && ValidV1(codec, collections, b)
    ensures a == b
  {
    forall m | m in WholeNames(collections.Keys)
      ensures m in a && m in b && a[m] == b[m]
    {
      var name :| name in collections.Keys && WholeName(name) == m;
      assert WholeOk(codec, name, collections[name], a) && WholeOk(codec, name, collections[name], b);
    }
    SameFiles(a, b);
  }

  lemma {:induction false} WholeNamesDiffer(names: set<string>)
    ensures |WholeNames(names)| == |names|
  {
    if name :| name in names {
      var rest := names - {name};
      WholeNamesDiffer(rest);
      assert WholeNames(names) == WholeNames(rest) + {WholeName(name)};
      if WholeName(name) in WholeNames(rest) {
        var other :| other in rest && WholeName(other) == WholeName(name);
        WholeNameInjective(other, name);
      }
    }
  }

  /** A valid archive of schema 1 has exactly one file for each collection. */
  lemma OneFilePerCollection(codec: Codec, collections: map<string, CollectionMeta>, files: Files)
    requires ValidV1(codec, collections, files)
    ensures |files.Keys| == |collections.Keys|
  {
    WholeNamesDiffer(collections.Keys);
  }

  lemma FileDetermined(codec: Codec, collections: map<string, CollectionMeta>, a: Files, b: Files, m: string)
    requires CollisionFree(codec)
    requires CollectionsOk(codec, collections, a) && CollectionsOk(codec, collections, b)
    requires m in ExpectedMembers(collections, collections.Keys)
    ensures m in a && m in b && a[m] == b[m]
  {
    var name :| name in collections && m in NamesIn(collections, name);
    var j :| 0 <= j < |NamesIn(collections, name)| && NamesIn(collections, name)[j] == m;
    var meta := collections[name].chunks.value[j];
    assert CollectionOk(codec, name, collections[name], a) && CollectionOk(codec, name, collections[name], b);
    assert ChunkOk(codec, name, j, meta, a);
    assert ChunkOk(codec, name, j, meta, b);
  }
}
