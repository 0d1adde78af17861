/** Writing, validating and reading back a whole archive (`_archive_bytes`, `_read_archive`,
    `restore_backup`) compose to the identity on documents. */
module BackupRoundTrip {
  import opened Strings
  import opened Chunking
  import opened MemberNames
  import opened Archive
  import opened ArchiveReader
  import opened Restore

  function ChunksOf(codec: Codec, c: Collection, limit: nat): seq<seq<Bytes>> {
    Chunks(Lines(codec, c.documents), limit)
  }

  /** A collection as it lies in the archive. */
  datatype Part = Part(name: string, chunks: seq<seq<Bytes>>)

  function Parts(codec: Codec, db: seq<Collection>, limit: nat): (parts: seq<Part>)
    ensures |parts| == |db|
    ensures forall k :: 0 <= k < |db| ==> parts[k] == Part(db[k].name, ChunksOf(codec, db[k], limit))
  {
    seq(|db|, k requires 0 <= k < |db| => Part(db[k].name, ChunksOf(codec, db[k], limit)))
  }

  function Laid(parts: seq<Part>): seq<TarMember> {
    if parts == [] then []
    else Laid(parts[..|parts| - 1]) + MembersOf(parts[|parts| - 1].name, parts[|parts| - 1].chunks)
  }

  /** The collection members of the archive, in writing order. */
  function Written(codec: Codec, db: seq<Collection>, limit: nat): seq<TarMember> {
    Laid(Parts(codec, db, limit))
  }

  lemma WrittenSnoc(codec: Codec, db: seq<Collection>, i: nat, limit: nat)
    requires i < |db|
    ensures Written(codec, db[..i + 1], limit)
         == Written(codec, db[..i], limit) + MembersOf(db[i].name, ChunksOf(codec, db[i], limit))
  {
    assert Parts(codec, db[..i + 1], limit)[..i] == Parts(codec, db[..i], limit);
  }

  function MetaFor(codec: Codec, c: Collection, limit: nat): CollectionMeta {
    MetaOf(codec, c.name, ChunksOf(codec, c, limit), Lines(codec, c.documents))
  }

  function Metas(codec: Codec, db: seq<Collection>, limit: nat): map<string, CollectionMeta> {
    if db == [] then map[]
    else
      var c := db[|db| - 1];
      Metas(codec, db[..|db| - 1], limit)[c.name := MetaFor(codec, c, limit)]
  }

  function ManifestFor(codec: Codec, db: seq<Collection>, limit: nat): Manifest {
    Manifest(Some(2), Some(Metas(codec, db, limit)))
  }

  function WholeArchive(codec: Codec, db: seq<Collection>, limit: nat): seq<TarMember> {
    Written(codec, db, limit) + [TarMember(MANIFEST, true, codec.encodeManifest(ManifestFor(codec, db, limit)))]
  }

  lemma MetasSnoc(codec: Codec, db: seq<Collection>, i: nat, limit: nat)
    requires i < |db|
    ensures Metas(codec, db[..i + 1], limit) == Metas(codec, db[..i], limit)[db[i].name := MetaFor(codec, db[i], limit)]
  {
    assert db[..i + 1][..i] == db[..i];
  }

  predicate DistinctCollections(db: seq<Collection>) {
    forall i, j :: 0 <= i < j < |db| ==> db[i].name != db[j].name
  }

  predicate AllFit(codec: Codec, db: seq<Collection>, limit: nat) {
    forall i :: 0 <= i < |db| ==> LinesFit(Lines(codec, db[i].documents), limit)
  }

  predicate Named(db: seq<Collection>, name: string) {
    exists k :: 0 <= k < |db| && db[k].name == name
  }

  lemma NamedSnoc(db: seq<Collection>, name: string)
    requires db != []
    ensures Named(db, name) <==> Named(db[..|db| - 1], name) || db[|db| - 1].name == name
  {
    var n := |db| - 1;
    if k :| 0 <= k < |db| && db[k].name == name {
      assert k == n || db[..n][k].name == name;
    }
  }

  lemma {:induction false} MetasKeys(codec: Codec, db: seq<Collection>, limit: nat, name: string)
    ensures name in Metas(codec, db, limit) <==> Named(db, name)
  {
    if db != [] {
      MetasKeys(codec, db[..|db| - 1], limit, name);
      NamedSnoc(db, name);
    }
  }

  lemma {:induction false} MetasLookup(codec: Codec, db: seq<Collection>, limit: nat, k: nat)
    requires DistinctCollections(db) && k < |db|
    ensures db[k].name in Metas(codec, db, limit)
    ensures Metas(codec, db, limit)[db[k].name] == MetaFor(codec, db[k], limit)
  {
    if k < |db| - 1 {
      MetasLookup(codec, db[..|db| - 1], limit, k);
    }
  }

  predicate Archivable(codec: Codec, db: seq<Collection>, limit: nat) {
    DistinctCollections(db) && AllFit(codec, db, limit)
  }

  lemma DistinctStep(db: seq<Collection>, c: Collection)
    requires DistinctCollections(db)
    ensures DistinctCollections(db + [c]) <==> !Named(db, c.name)
  {
    var after := db + [c];
    if k :| 0 <= k < |db| && db[k].name == c.name {
      assert after[k].name == after[|db|].name;
    }
  }

  lemma AllFitStep(codec: Codec, db: seq<Collection>, c: Collection, limit: nat)
    requires AllFit(codec, db, limit)
    ensures AllFit(codec, db + [c], limit) <==> LinesFit(Lines(codec, c.documents), limit)
  {
    assert (db + [c])[|db|] == c;
  }

  lemma ArchivableStep(codec: Codec, db: seq<Collection>, i: nat, limit: nat)
    requires i < |db| && Archivable(codec, db[..i], limit)
    ensures Archivable(codec, db[..i + 1], limit) <==>
            db[i].name !in Metas(codec, db[..i], limit) && LinesFit(Lines(codec, db[i].documents), limit)
  {
    TakeOneMore(db, i);
    MetasKeys(codec, db[..i], limit, db[i].name);
    DistinctStep(db[..i], db[i]);
    AllFitStep(codec, db[..i], db[i], limit);
  }

  lemma ArchivablePrefix(codec: Codec, db: seq<Collection>, i: nat, limit: nat)
    requires i <= |db| && Archivable(codec, db, limit)
    ensures Archivable(codec, db[..i], limit)
  {
  }

  /** `_archive_bytes`: every collection in turn, then the manifest. */
  method ArchiveBytes(codec: Codec, db: seq<Collection>, limit: nat)
    returns (r: Result<(seq<TarMember>, Manifest), Error>)
    ensures r.Ok? <==> Archivable(codec, db, limit)
    ensures r.Ok? ==> r.value == (WholeArchive(codec, db, limit), ManifestFor(codec, db, limit))
    ensures r.Err? ==> r.error == DuplicateCollection || r.error == DocumentTooLarge
  {
    var archive: seq<TarMember>, collections: map<string, CollectionMeta> := [], map[];
    for i := 0 to |db|
      invariant archive == Written(codec, db[..i], limit) && collections == Metas(codec, db[..i], limit)
      invariant Archivable(codec, db[..i], limit)
    {
      var c := db[i];
      ArchivableStep(codec, db, i, limit);
      if Archivable(codec, db, limit) {
        ArchivablePrefix(codec, db, i + 1, limit);
      }
      if c.name in collections {
        return Err(DuplicateCollection);
      }
      var entry := WriteCollectionChunks(codec, archive, c.name, c.documents, limit);
      if entry.Err? {
        return Err(entry.error);
      }
      WrittenSnoc(codec, db, i, limit);
      MetasSnoc(codec, db, i, limit);
      archive := entry.value.0;
      collections := collections[c.name := entry.value.1];
    }
    assert db[..|db|] == db;
    var manifest := Manifest(Some(2), Some(collections));
    return Ok((archive + [TarMember(MANIFEST, true, codec.encodeManifest(manifest))], manifest));
  }

  // ----------------------------------------------------- one collection read back

  /** The files hold exactly these chunks under the collection's member names. */
  predicate Holds(files: Files, name: string, chunks: seq<seq<Bytes>>) {
    forall j :: 0 <= j < |chunks| ==>
      ChunkName(name, j) in files && files[ChunkName(name, j)] == Concat(chunks[j])
  }

  lemma ChunksCoverLines(lines: seq<Bytes>, limit: nat)
    requires LinesFit(lines, limit)
    ensures Flatten(Chunks(lines, limit)) == lines && Fits(Chunks(lines, limit), limit) && Chunks(lines, limit) != []
  {
    if lines == [] {
      assert Flatten([[]]) == [] + Flatten<Bytes>([]);
      assert Concat([]) == [];
    } else {
      GreedyIsGreedySplit(lines, limit);
    }
  }

  lemma {:induction false} CleanParts(chunks: seq<seq<Bytes>>, j: nat)
    requires CleanLines(Flatten(chunks)) && j < |chunks|
    ensures CleanLines(chunks[j])
  {
    var all := Flatten(chunks);
    assert all == chunks[0] + Flatten(chunks[1..]);
    if j == 0 {
      forall i | 0 <= i < |chunks[0]| ensures CleanLine(chunks[0][i]) {
        assert chunks[0][i] == all[i];
      }
    } else {
      forall i | 0 <= i < |Flatten(chunks[1..])| ensures CleanLine(Flatten(chunks[1..])[i]) {
        assert Flatten(chunks[1..])[i] == all[|chunks[0]| + i];
      }
      CleanParts(chunks[1..], j - 1);
    }
  }

  lemma BodiesAppend(a: seq<Bytes>, b: seq<Bytes>)
    requires CleanLines(a) && CleanLines(b)
    ensures CleanLines(a + b) && Bodies(a + b) == Bodies(a) + Bodies(b)
  {
    forall i | 0 <= i < |a + b|
      ensures CleanLine((a + b)[i])
    {
      assert (a + b)[i] == if i < |a| then a[i] else b[i - |a|];
    }
  }

  lemma AllRowsSnoc(name: string, n: nat, files: Files)
    requires n > 0
    ensures AllRows(ChunkNames(name, n), files)
         == AllRows(ChunkNames(name, n - 1), files) + Rows(Get(files, ChunkName(name, n - 1)))
  {
    assert ChunkNames(name, n)[..n - 1] == ChunkNames(name, n - 1);
  }

  /** Members concatenate to the lines, row counts add up, and the rows are the bodies. */
  lemma {:induction false} ReadBackChunks(files: Files, name: string, chunks: seq<seq<Bytes>>, n: nat)
    requires Holds(files, name, chunks) && CleanLines(Flatten(chunks)) && n <= |chunks|
    ensures CleanLines(Flatten(chunks[..n]))
    ensures Content(name, n, files) == Concat(Flatten(chunks[..n]))
    ensures RowCount(name, n, files) == |Flatten(chunks[..n])|
    ensures AllRows(ChunkNames(name, n), files) == Bodies(Flatten(chunks[..n]))
  {
    if n > 0 {
      ReadBackChunks(files, name, chunks, n - 1);
      var before, chunk := Flatten(chunks[..n - 1]), chunks[n - 1];
      CleanParts(chunks, n - 1);
      RowsOfLines(chunk);
      assert Flatten(chunks[..n]) == before + chunk by {
        TakeOneMore(chunks, n - 1);
        FlattenSnoc(chunks[..n - 1], chunk);
      }
      ConcatAppend(before, chunk);
      BodiesAppend(before, chunk);
      AllRowsSnoc(name, n, files);
    }
  }

  lemma {:induction false} DecodeBodies(codec: Codec, rows: seq<Bytes>, documents: seq<Document>)
    requires Faithful(codec) && |rows| == |documents|
    requires forall i :: 0 <= i < |rows| ==> rows[i] == codec.encode(documents[i])
    ensures Decoded(codec, rows) == Some(documents)
  {
    if rows != [] {
      var n := |rows| - 1;
      DecodeBodies(codec, rows[..n], documents[..n]);
      assert documents == documents[..n] + [documents[n]];
    }
  }

  lemma ChunksPass(codec: Codec, name: string, chunks: seq<seq<Bytes>>, files: Files)
    requires Holds(files, name, chunks) && CleanLines(Flatten(chunks))
    ensures ChunksOk(codec, name, ChunkMetas(codec, name, chunks), files)
  {
    var metas := ChunkMetas(codec, name, chunks);
    forall j | 0 <= j < |metas|
      ensures ChunkOk(codec, name, j, metas[j], files)
    {
      CleanParts(chunks, j);
      RowsOfLines(chunks[j]);
    }
  }

  lemma LinesReadBack(codec: Codec, name: string, documents: seq<Document>, chunks: seq<seq<Bytes>>, files: Files)
    requires Faithful(codec)
    requires Flatten(chunks) == Lines(codec, documents) && Holds(files, name, chunks)
    ensures CleanLines(Flatten(chunks))
    ensures Content(name, |chunks|, files) == Concat(Lines(codec, documents))
    ensures RowCount(name, |chunks|, files) == |documents|
    ensures Decoded(codec, AllRows(ChunkNames(name, |chunks|), files)) == Some(documents)
  {
    DocumentLinesAreClean(codec, documents);
    ReadBackChunks(files, name, chunks, |chunks|);
    assert chunks[..|chunks|] == chunks;
    DecodeBodies(codec, Bodies(Lines(codec, documents)), documents);
  }

  /** A collection whose chunks are in the files passes validation and decodes to its documents. */
  lemma CollectionReadsBack(codec: Codec, c: Collection, limit: nat, files: Files)
    requires Faithful(codec) && CollectionName(c.name)
    requires LinesFit(Lines(codec, c.documents), limit)
    requires Holds(files, c.name, ChunksOf(codec, c, limit))
    ensures CollectionOk(codec, c.name, MetaFor(codec, c, limit), files)
    ensures Content(c.name, |ChunksOf(codec, c, limit)|, files) == Concat(Lines(codec, c.documents))
    ensures Decoded(codec, AllRows(ChunkNames(c.name, |ChunksOf(codec, c, limit)|), files)) == Some(c.documents)
  {
    var chunks := ChunksOf(codec, c, limit);
    ChunksCoverLines(Lines(codec, c.documents), limit);
    LinesReadBack(codec, c.name, c.documents, chunks, files);
    ChunksPass(codec, c.name, chunks, files);
  }

  // ---------------------------------------------------------- the whole archive

  predicate WellNamed(db: seq<Collection>) {
    DistinctCollections(db) && forall k :: 0 <= k < |db| ==> CollectionName(db[k].name)
  }

  /** Every written member is a chunk of some part. */
  lemma {:induction false} LaidIs(parts: seq<Part>, i: nat) returns (k: nat, j: nat)
    requires i < |Laid(parts)|
    ensures k < |parts| && j < |parts[k].chunks|
    ensures Laid(parts)[i] == MemberOf(parts[k].name, j, parts[k].chunks[j])
  {
    var n := |parts| - 1;
    var front := Laid(parts[..n]);
    if i < |front| {
      k, j := LaidIs(parts[..n], i);
    } else {
      k, j := n, i - |front|;
    }
  }

  /** Every chunk of every part is written. */
  lemma {:induction false} LaidHas(parts: seq<Part>, k: nat, j: nat) returns (i: nat)
    requires k < |parts| && j < |parts[k].chunks|
    ensures i < |Laid(parts)|
    ensures Laid(parts)[i] == MemberOf(parts[k].name, j, parts[k].chunks[j])
  {
    var n := |parts| - 1;
    if k < n {
      i := LaidHas(parts[..n], k, j);
    } else {
      i := |Laid(parts[..n])| + j;
    }
  }

  lemma DistinctConcat(a: seq<TarMember>, b: seq<TarMember>)
    requires DistinctNames(a) && DistinctNames(b)
    requires forall i, j :: 0 <= i < |a| && 0 <= j < |b| ==> a[i].name != b[j].name
    ensures DistinctNames(a + b)
  {
    var all := a + b;
    forall i, j | 0 <= i < j < |all|
      ensures all[i].name != all[j].name
    {
      assert all[i] == if i < |a| then a[i] else b[i - |a|];
      assert all[j] == if j < |a| then a[j] else b[j - |a|];
    }
  }

  lemma MembersDistinct(name: string, chunks: seq<seq<Bytes>>)
    requires Free(name, '/')
    ensures DistinctNames(MembersOf(name, chunks))
  {
    var ms := MembersOf(name, chunks);
    forall i, j | 0 <= i < j < |ms|
      ensures ms[i].name != ms[j].name
    {
      if ms[i].name == ms[j].name {
        ChunkNameInjective(name, i, name, j);
      }
    }
  }

  lemma {:induction false} LaidDistinct(parts: seq<Part>)
    requires forall k :: 0 <= k < |parts| ==> Free(parts[k].name, '/')
    requires forall h, k :: 0 <= h < k < |parts| ==> parts[h].name != parts[k].name
    ensures DistinctNames(Laid(parts))
  {
    if parts != [] {
      var n := |parts| - 1;
      var front, last := Laid(parts[..n]), MembersOf(parts[n].name, parts[n].chunks);
      LaidDistinct(parts[..n]);
      MembersDistinct(parts[n].name, parts[n].chunks);
      forall i, j | 0 <= i < |front| && 0 <= j < |last|
        ensures front[i].name != last[j].name
      {
        var k, h := LaidIs(parts[..n], i);
        if front[i].name == last[j].name {
          ChunkNameInjective(parts[k].name, h, parts[n].name, j);
        }
      }
      DistinctConcat(front, last);
    }
  }

  lemma WholeArchiveDistinct(codec: Codec, db: seq<Collection>, limit: nat)
    requires WellNamed(db)
    ensures DistinctNames(WholeArchive(codec, db, limit))
  {
    var written := Written(codec, db, limit);
    var manifest := [TarMember(MANIFEST, true, codec.encodeManifest(ManifestFor(codec, db, limit)))];
    LaidDistinct(Parts(codec, db, limit));
    forall i | 0 <= i < |written|
      ensures written[i].name != MANIFEST
    {
      var k, j := LaidIs(Parts(codec, db, limit), i);
      ChunkNameIsNotManifest(db[k].name, j);
    }
    DistinctConcat(written, manifest);
  }

  /** The members of the archive besides the manifest, as the reader files them. */
  function CollectionFiles(codec: Codec, db: seq<Collection>, limit: nat): Files {
    FilesOf(WholeArchive(codec, db, limit)) - {MANIFEST}
  }

  lemma FilesHoldChunks(codec: Codec, db: seq<Collection>, limit: nat, k: nat)
    requires WellNamed(db) && k < |db|
    ensures Holds(CollectionFiles(codec, db, limit), db[k].name, ChunksOf(codec, db[k], limit))
  {
    var whole := WholeArchive(codec, db, limit);
    WholeArchiveDistinct(codec, db, limit);
    FilesOfMembers(whole);
    forall j | 0 <= j < |ChunksOf(codec, db[k], limit)|
      ensures ChunkName(db[k].name, j) in CollectionFiles(codec, db, limit)
      ensures CollectionFiles(codec, db, limit)[ChunkName(db[k].name, j)] == Concat(ChunksOf(codec, db[k], limit)[j])
    {
      var i := LaidHas(Parts(codec, db, limit), k, j);
      assert whole[i] == Written(codec, db, limit)[i];
      ChunkNameIsNotManifest(db[k].name, j);
    }
  }

  lemma NameIsExpected(collections: map<string, CollectionMeta>, name: string, j: nat)
    requires name in collections && j < ChunkCount(collections[name])
    ensures ChunkName(name, j) in ExpectedMembers(collections, collections.Keys)
  {
    var m := ChunkName(name, j);
    assert NamesIn(collections, name)[j] == m;
    assert m in NamesIn(collections, name);
  }

  lemma FileIsExpected(codec: Codec, db: seq<Collection>, limit: nat, i: nat)
    requires WellNamed(db) && i < |Written(codec, db, limit)|
    ensures Written(codec, db, limit)[i].name in ExpectedMembers(Metas(codec, db, limit), Metas(codec, db, limit).Keys)
  {
    var k, j := LaidIs(Parts(codec, db, limit), i);
    MetasLookup(codec, db, limit, k);
    NameIsExpected(Metas(codec, db, limit), db[k].name, j);
  }

  lemma ExpectedIsFile(codec: Codec, db: seq<Collection>, limit: nat, m: string)
    requires WellNamed(db)
    requires m in ExpectedMembers(Metas(codec, db, limit), Metas(codec, db, limit).Keys)
    ensures m in CollectionFiles(codec, db, limit)
  {
    var metas := Metas(codec, db, limit);
    var name :| name in metas && m in NamesIn(metas, name);
    MetasKeys(codec, db, limit, name);
    var k :| 0 <= k < |db| && db[k].name == name;
    MetasLookup(codec, db, limit, k);
    FilesHoldChunks(codec, db, limit, k);
    var j :| 0 <= j < |NamesIn(metas, name)| && NamesIn(metas, name)[j] == m;
  }

  lemma FilesAreExpected(codec: Codec, db: seq<Collection>, limit: nat)
    requires WellNamed(db)
    ensures CollectionFiles(codec, db, limit).Keys
         == ExpectedMembers(Metas(codec, db, limit), Metas(codec, db, limit).Keys)
  {
    var whole, written := WholeArchive(codec, db, limit), Written(codec, db, limit);
    var expected := ExpectedMembers(Metas(codec, db, limit), Metas(codec, db, limit).Keys);
    WholeArchiveDistinct(codec, db, limit);
    FilesOfMembers(whole);
    forall m | m in CollectionFiles(codec, db, limit)
      ensures m in expected
    {
      var i :| 0 <= i < |whole| && whole[i].name == m;
      assert whole[|written|].name == MANIFEST;
      assert whole[i] == written[i];
      FileIsExpected(codec, db, limit, i);
    }
    forall m | m in expected
      ensures m in CollectionFiles(codec, db, limit)
    {
      ExpectedIsFile(codec, db, limit, m);
    }
  }

  lemma WrittenArchiveIsValid(codec: Codec, db: seq<Collection>, limit: nat)
    requires Faithful(codec) && WellNamed(db) && AllFit(codec, db, limit)
    ensures ValidV2(codec, Metas(codec, db, limit), CollectionFiles(codec, db, limit))
  {
    var metas, files := Metas(codec, db, limit), CollectionFiles(codec, db, limit);
    FilesAreExpected(codec, db, limit);
    forall name | name in metas
      ensures CollectionOk(codec, name, metas[name], files)
    {
      MetasKeys(codec, db, limit, name);
      var k :| 0 <= k < |db| && db[k].name == name;
      MetasLookup(codec, db, limit, k);
      FilesHoldChunks(codec, db, limit, k);
      CollectionReadsBack(codec, db[k], limit, files);
    }
  }

  // ----------------------------------------------------------- size bookkeeping

  lemma {:induction false} TotalSizeAppend(a: seq<TarMember>, b: seq<TarMember>)
    ensures TotalSize(a + b) == TotalSize(a) + TotalSize(b)
  {
    if b == [] {
      assert a + b == a;
    } else {
      assert (a + b)[..|a + b| - 1] == a + b[..|b| - 1];
      TotalSizeAppend(a, b[..|b| - 1]);
    }
  }

  lemma TotalSizeSnoc(a: seq<TarMember>, m: TarMember)
    ensures TotalSize(a + [m]) == TotalSize(a) + |m.content|
  {
    assert (a + [m])[..|a|] == a;
  }

  lemma {:induction false} MembersSize(name: string, chunks: seq<seq<Bytes>>)
    ensures TotalSize(MembersOf(name, chunks)) == Size(Flatten(chunks))
  {
    if chunks != [] {
      var n := |chunks| - 1;
      MembersSize(name, chunks[..n]);
      InitLast(chunks);
      FlattenSnoc(chunks[..n], chunks[n]);
      ConcatAppend(Flatten(chunks[..n]), chunks[n]);
      TotalSizeSnoc(MembersOf(name, chunks[..n]), MemberOf(name, n, chunks[n]));
    }
  }

  lemma {:induction false} PartWithinTotal(parts: seq<Part>, k: nat)
    requires k < |parts|
    ensures Size(Flatten(parts[k].chunks)) <= TotalSize(Laid(parts))
  {
    var n := |parts| - 1;
    TotalSizeAppend(Laid(parts[..n]), MembersOf(parts[n].name, parts[n].chunks));
    if k < n {
      PartWithinTotal(parts[..n], k);
    } else {
      MembersSize(parts[n].name, parts[n].chunks);
    }
  }

  /** The settings bounds: members of at least 1 MiB, archives of at most 8 GiB. */
  predicate Configured(limits: Limits) {
    1_048_576 <= limits.member && limits.archive <= 8_589_934_592
  }

  /** Under the configured limits no collection reaches the eight-digit member index. */
  lemma FewChunks(lines: seq<Bytes>, limits: Limits)
    requires Configured(limits) && LinesFit(lines, limits.member) && Size(lines) <= limits.archive
    ensures |Chunks(lines, limits.member)| < 100_000_000
  {
    if lines != [] {
      var chunks := Greedy(lines, limits.member);
      GreedyIsGreedySplit(lines, limits.member);
      MemberCountBound(chunks, limits.member);
      ScaleDown(limits.member, |chunks| - 1);
    }
  }

  lemma ScaleDown(limit: nat, n: nat)
    requires 1_048_576 <= limit
    ensures 1_048_576 * n <= limit * n
  {
  }

  predicate WithinLimits(codec: Codec, db: seq<Collection>, limits: Limits) {
    && TotalSize(WholeArchive(codec, db, limits.member)) <= limits.archive
    && |codec.encodeManifest(ManifestFor(codec, db, limits.member))| <= limits.member
  }

  lemma MembersAreOk(codec: Codec, db: seq<Collection>, limits: Limits)
    requires Configured(limits) && WellNamed(db) && AllFit(codec, db, limits.member) && WithinLimits(codec, db, limits)
    ensures Readable(WholeArchive(codec, db, limits.member), limits)
  {
    var limit := limits.member;
    var written, whole := Written(codec, db, limit), WholeArchive(codec, db, limit);
    WholeArchiveDistinct(codec, db, limit);
    forall i | 0 <= i < |written|
      ensures MemberOk(written[i], limits)
    {
      var k, j := LaidIs(Parts(codec, db, limit), i);
      var lines := Lines(codec, db[k].documents);
      ChunksCoverLines(lines, limit);
      PartWithinTotal(Parts(codec, db, limit), k);
      TotalSizeAppend(written, [whole[|written|]]);
      FewChunks(lines, limits);
      ChunkNameIsRecognised(db[k].name, j);
    }
    MembersOkSnoc(written, whole[|written|], limits);
  }

  // -------------------------------------------------------------------- theorems

  /** Every archive the writer produces within the limits is accepted by the reader, and the
      restore loop reads back, per collection, the same documents in the same order. */
  lemma ArchiveRoundTrip(codec: Codec, db: seq<Collection>, limits: Limits)
    requires Faithful(codec) && Configured(limits)
    requires WellNamed(db) && AllFit(codec, db, limits.member) && WithinLimits(codec, db, limits)
    ensures Accepts(codec, WholeArchive(codec, db, limits.member), limits)
    ensures forall k :: 0 <= k < |db| ==>
              var files := CollectionFiles(codec, db, limits.member);
              var n := |ChunksOf(codec, db[k], limits.member)|;
              && Content(db[k].name, n, files) == Concat(Lines(codec, db[k].documents))
              && Decoded(codec, AllRows(ChunkNames(db[k].name, n), files)) == Some(db[k].documents)
  {
    var limit := limits.member;
    var whole := WholeArchive(codec, db, limit);
    MembersAreOk(codec, db, limits);
    WholeArchiveDistinct(codec, db, limit);
    FilesOfMembers(whole);
    var last := |whole| - 1;
    assert whole[last].name == MANIFEST;
    assert FilesOf(whole)[MANIFEST] == codec.encodeManifest(ManifestFor(codec, db, limit));
    WrittenArchiveIsValid(codec, db, limit);
    forall k | 0 <= k < |db|
      ensures var files, n := CollectionFiles(codec, db, limit), |ChunksOf(codec, db[k], limit)|;
              && Content(db[k].name, n, files) == Concat(Lines(codec, db[k].documents))
              && Decoded(codec, AllRows(ChunkNames(db[k].name, n), files)) == Some(db[k].documents)
    {
      FilesHoldChunks(codec, db, limit, k);
      CollectionReadsBack(codec, db[k], limit, CollectionFiles(codec, db, limit));
    }
  }

  lemma DocumentsReadBack(codec: Codec, db: seq<Collection>, limit: nat, k: nat)
    requires Faithful(codec) && WellNamed(db) && AllFit(codec, db, limit) && k < |db|
    ensures DocumentsOf(codec, db[k].name, MembersByCollection(Metas(codec, db, limit)),
                        CollectionFiles(codec, db, limit))
         == db[k].documents
  {
    MetasLookup(codec, db, limit, k);
    FilesHoldChunks(codec, db, limit, k);
    CollectionReadsBack(codec, db[k], limit, CollectionFiles(codec, db, limit));
  }
}
