/** Backup archives: the chunked writer, the reader and the two manifest validators of
    `backups.py`.  Tar, gzip, encryption and the file system are left out; JSON and
    SHA-256 are the functions of a `Codec`. */
module Archive {
  import opened Strings
  import opened Chunking
  import opened MemberNames

  datatype Error =
    | DocumentTooLarge | DuplicateCollection
    | MemberInvalid | MemberDuplicate | MemberTooLarge | ArchiveTooLarge
    | ManifestInvalid | CollectionMissing | CollectionSetMismatch
    | CountMismatch | SizeMismatch | ChecksumMismatch
    | CollectionUnknown | DocumentInvalid

  type Digest = string

  datatype Document = Document(id: string, fields: map<string, string>)

  datatype Collection = Collection(name: string, documents: seq<Document>)

  datatype TarMember = TarMember(name: string, regular: bool, content: Bytes)

  /** The three checked manifest values; `None` stands for absent or of another type. */
  datatype Counts =
    | NotAnObject
    | Counts(documents: Option<int>, sizeBytes: Option<int>, sha256: Option<Digest>)

  datatype ChunkMeta = ChunkMeta(member: Option<string>, counts: Counts)

  datatype CollectionMeta = CollectionMeta(chunks: Option<seq<ChunkMeta>>, counts: Counts)

  datatype Manifest = Manifest(schemaVersion: Option<int>, collections: Option<map<string, CollectionMeta>>)

  /** JSON and hashing, as functions the model knows nothing else about. */
  datatype Codec = Codec(
    encode: Document -> Bytes,
    decode: Bytes -> Option<Document>,
    encodeManifest: Manifest -> Bytes,
    decodeManifest: Bytes -> Option<Manifest>,
    digest: Bytes -> Digest)

  const LF: Byte := 10
  const CR: Byte := 13

  predicate Clean(line: Bytes) {
    line != [] && forall i :: 0 <= i < |line| ==> line[i] != LF && line[i] != CR
  }

  /** Encoded documents are one line each and decode to what was encoded. */
  ghost predicate Faithful(codec: Codec) {
    && (forall d :: Clean(codec.encode(d)) && codec.decode(codec.encode(d)) == Some(d))
    && (forall m :: codec.decodeManifest(codec.encodeManifest(m)) == Some(m))
  }

  ghost predicate CollisionFree(codec: Codec) {
    forall a, b :: codec.digest(a) == codec.digest(b) ==> a == b
  }

  /** `_document_line`. */
  function Line(codec: Codec, d: Document): Bytes {
    codec.encode(d) + [LF]
  }

  function Lines(codec: Codec, documents: seq<Document>): (lines: seq<Bytes>)
    ensures |lines| == |documents|
  {
    seq(|documents|, i requires 0 <= i < |documents| => Line(codec, documents[i]))
  }

  // --------------------------------------------------------------- splitlines

  function LineEnd(content: Bytes): (k: nat)
    ensures k <= |content|
    ensures k < |content| ==> content[k] == LF || content[k] == CR
  {
    if content == [] || content[0] == LF || content[0] == CR then 0 else 1 + LineEnd(content[1..])
  }

  /** `bytes.splitlines()`: LF, CR and CR LF all end a line. */
  function SplitLines(content: Bytes): seq<Bytes>
    decreases |content|
  {
    var k := LineEnd(content);
    if content == [] then []
    else if k == |content| then [content]
    else if content[k] == CR && k + 1 < |content| && content[k + 1] == LF
    then [content[..k]] + SplitLines(content[k + 2..])
    else [content[..k]] + SplitLines(content[k + 1..])
  }

  function NonEmpty(lines: seq<Bytes>): seq<Bytes> {
    if lines == [] then []
    else if lines[0] == [] then NonEmpty(lines[1..])
    else [lines[0]] + NonEmpty(lines[1..])
  }

  /** The lines that carry documents; blank ones are skipped by every reader. */
  function Rows(content: Bytes): seq<Bytes> {
    NonEmpty(SplitLines(content))
  }

  lemma {:induction false} LineEndOfClean(body: Bytes, rest: Bytes)
    requires forall i :: 0 <= i < |body| ==> body[i] != LF && body[i] != CR
    ensures LineEnd(body + [LF] + rest) == |body|
  {
    var content := body + [LF] + rest;
    if body != [] {
      assert content[1..] == body[1..] + [LF] + rest;
      LineEndOfClean(body[1..], rest);
    }
  }

  lemma RowsOfLine(body: Bytes, rest: Bytes)
    requires Clean(body)
    ensures Rows(body + [LF] + rest) == [body] + Rows(rest)
  {
    var content := body + [LF] + rest;
    LineEndOfClean(body, rest);
    assert content[..|body|] == body && content[|body|] == LF && content[|body| + 1..] == rest;
    assert SplitLines(content) == [body] + SplitLines(rest);
    assert ([body] + SplitLines(rest))[1..] == SplitLines(rest);
  }

  /** A clean body followed by one line feed, as `_document_line` produces. */
  predicate CleanLine(line: Bytes) {
    line != [] && line[|line| - 1] == LF && Clean(line[..|line| - 1])
  }

  predicate CleanLines(lines: seq<Bytes>) {
    forall i :: 0 <= i < |lines| ==> CleanLine(lines[i])
  }

  function Bodies(lines: seq<Bytes>): (bodies: seq<Bytes>)
    requires CleanLines(lines)
    ensures |bodies| == |lines|
    ensures forall i :: 0 <= i < |lines| ==> bodies[i] == lines[i][..|lines[i]| - 1]
  {
    seq(|lines|, i requires 0 <= i < |lines| => lines[i][..|lines[i]| - 1])
  }

  /** Splitting concatenated clean lines gives back exactly their bodies. */
  lemma {:induction false} RowsOfLines(lines: seq<Bytes>)
    requires CleanLines(lines)
    ensures Rows(Concat(lines)) == Bodies(lines)
  {
    if lines != [] {
      RowsOfLines(lines[1..]);
      var body := lines[0][..|lines[0]| - 1];
      assert lines[0] == body + [LF];
      assert Concat(lines) == body + [LF] + Concat(lines[1..]);
      RowsOfLine(body, Concat(lines[1..]));
      assert Bodies(lines) == [body] + Bodies(lines[1..]);
    }
  }

  lemma DocumentLinesAreClean(codec: Codec, documents: seq<Document>)
    requires Faithful(codec)
    ensures CleanLines(Lines(codec, documents))
    ensures forall i :: 0 <= i < |documents| ==> Bodies(Lines(codec, documents))[i] == codec.encode(documents[i])
  {
    var lines := Lines(codec, documents);
    forall i | 0 <= i < |documents|
      ensures CleanLine(lines[i]) && lines[i][..|lines[i]| - 1] == codec.encode(documents[i])
    {
      assert lines[i] == codec.encode(documents[i]) + [LF];
    }
  }

  // ------------------------------------------------------------------- writing

  function CountsOf(codec: Codec, lines: seq<Bytes>): Counts {
    Counts(Some(|lines|), Some(Size(lines)), Some(codec.digest(Concat(lines))))
  }

  function MemberOf(name: string, j: nat, chunk: seq<Bytes>): TarMember {
    TarMember(ChunkName(name, j), true, Concat(chunk))
  }

  function ChunkMetaOf(codec: Codec, name: string, j: nat, chunk: seq<Bytes>): ChunkMeta {
    ChunkMeta(Some(ChunkName(name, j)), CountsOf(codec, chunk))
  }

  function MembersOf(name: string, chunks: seq<seq<Bytes>>): (members: seq<TarMember>)
    ensures |members| == |chunks|
    ensures forall j :: 0 <= j < |chunks| ==> members[j] == MemberOf(name, j, chunks[j])
  {
    if chunks == [] then []
    else
      var n := |chunks| - 1;
      MembersOf(name, chunks[..n]) + [MemberOf(name, n, chunks[n])]
  }

  function ChunkMetas(codec: Codec, name: string, chunks: seq<seq<Bytes>>): (metas: seq<ChunkMeta>)
    ensures |metas| == |chunks|
    ensures forall j :: 0 <= j < |chunks| ==> metas[j] == ChunkMetaOf(codec, name, j, chunks[j])
  {
    if chunks == [] then []
    else
      var n := |chunks| - 1;
      ChunkMetas(codec, name, chunks[..n]) + [ChunkMetaOf(codec, name, n, chunks[n])]
  }

  lemma WriteOneMore(codec: Codec, name: string, chunks: seq<seq<Bytes>>, chunk: seq<Bytes>)
    ensures MembersOf(name, chunks + [chunk]) == MembersOf(name, chunks) + [MemberOf(name, |chunks|, chunk)]
    ensures ChunkMetas(codec, name, chunks + [chunk])
         == ChunkMetas(codec, name, chunks) + [ChunkMetaOf(codec, name, |chunks|, chunk)]
  {
    assert (chunks + [chunk])[..|chunks|] == chunks;
  }

  function MetaOf(codec: Codec, name: string, chunks: seq<seq<Bytes>>, lines: seq<Bytes>): CollectionMeta {
    CollectionMeta(Some(ChunkMetas(codec, name, chunks)), CountsOf(codec, lines))
  }

  function Closing(closed: seq<seq<Bytes>>, open: seq<Bytes>): seq<seq<Bytes>> {
    closed + (if open == [] then [] else [open])
  }

  /** One turn of the writer's loop is one step of `Greedy`. */
  lemma GreedyStep(seen: seq<Bytes>, line: Bytes, limit: nat, closed: seq<seq<Bytes>>, open: seq<Bytes>)
    requires Greedy(seen, limit) == Closing(closed, open)
    requires open == [] ==> closed == []
    ensures Greedy(seen + [line], limit) ==
            if open != [] && Size(open) + |line| > limit
            then Closing(closed + [open], [line])
            else Closing(closed, open + [line])
  {
    var more := seen + [line];
    assert more[..|more| - 1] == seen;
    var chunks := Closing(closed, open);
    if open != [] {
      assert chunks[|chunks| - 1] == open && chunks[..|chunks| - 1] == closed;
    } else {
      assert chunks == [] && open + [line] == [line];
    }
  }

  /** The variables that `_write_collection_chunks` shares with its nested `flush_chunk`.
      A running SHA-256 is represented by the bytes fed to it. */
  datatype Writer = Writer(
    archive: seq<TarMember>, chunks: seq<ChunkMeta>, chunkIndex: nat,
    chunkSize: nat, chunkDocuments: nat, chunkFile: Bytes, chunkHash: Bytes,
    documentCount: nat, totalSize: nat, wholeHash: Bytes)

  function FlushChunk(codec: Codec, name: string, w: Writer): Writer {
    if w.chunkDocuments == 0 then w
    else
      var member := ChunkName(name, w.chunkIndex);
      w.(archive := w.archive + [TarMember(member, true, w.chunkFile)],
         chunks := w.chunks + [ChunkMeta(Some(member),
           Counts(Some(w.chunkDocuments), Some(w.chunkSize), Some(codec.digest(w.chunkHash))))],
         chunkIndex := w.chunkIndex + 1,
         chunkSize := 0, chunkDocuments := 0, chunkFile := [], chunkHash := [])
  }

  function AppendLine(w: Writer, line: Bytes): Writer {
    w.(chunkFile := w.chunkFile + line, chunkHash := w.chunkHash + line, wholeHash := w.wholeHash + line,
       chunkSize := w.chunkSize + |line|, chunkDocuments := w.chunkDocuments + 1,
       documentCount := w.documentCount + 1, totalSize := w.totalSize + |line|)
  }

  /** The writer's variables when `closed` chunks are out, `open` is buffered and `seen` was read. */
  ghost function WriterAt(codec: Codec, name: string, base: seq<TarMember>,
                          closed: seq<seq<Bytes>>, open: seq<Bytes>, seen: seq<Bytes>): Writer {
    Writer(base + MembersOf(name, closed), ChunkMetas(codec, name, closed), |closed|,
           Size(open), |open|, Concat(open), Concat(open),
           |seen|, Size(seen), Concat(seen))
  }

  lemma FlushAt(codec: Codec, name: string, base: seq<TarMember>,
                closed: seq<seq<Bytes>>, open: seq<Bytes>, seen: seq<Bytes>)
    ensures FlushChunk(codec, name, WriterAt(codec, name, base, closed, open, seen))
         == WriterAt(codec, name, base, Closing(closed, open), [], seen)
  {
    if open == [] {
      assert Closing(closed, open) == closed;
    } else {
      WriteOneMore(codec, name, closed, open);
      assert base + MembersOf(name, closed) + [MemberOf(name, |closed|, open)]
          == base + (MembersOf(name, closed) + [MemberOf(name, |closed|, open)]);
    }
  }

  lemma AppendAt(codec: Codec, name: string, base: seq<TarMember>,
                 closed: seq<seq<Bytes>>, open: seq<Bytes>, seen: seq<Bytes>, line: Bytes)
    ensures AppendLine(WriterAt(codec, name, base, closed, open, seen), line)
         == WriterAt(codec, name, base, closed, open + [line], seen + [line])
  {
    ConcatSnoc(open, line);
    ConcatSnoc(seen, line);
  }

  ghost predicate Progress(w: Writer, codec: Codec, name: string, base: seq<TarMember>, limit: nat,
                           closed: seq<seq<Bytes>>, open: seq<Bytes>, seen: seq<Bytes>) {
    && w == WriterAt(codec, name, base, closed, open, seen)
    && Greedy(seen, limit) == Closing(closed, open)
    && (open == [] ==> seen == [] && closed == [])
  }

  /** Body of the writer's loop for one line that is within the limit. */
  function AddLine(codec: Codec, name: string, limit: nat, w: Writer, line: Bytes): Writer {
    AppendLine(if w.chunkDocuments != 0 && w.chunkSize + |line| > limit then FlushChunk(codec, name, w) else w, line)
  }

  lemma AddKeepsProgress(w: Writer, codec: Codec, name: string, base: seq<TarMember>, limit: nat,
                         closed: seq<seq<Bytes>>, open: seq<Bytes>, seen: seq<Bytes>, line: Bytes)
    returns (closed': seq<seq<Bytes>>, open': seq<Bytes>)
    requires Progress(w, codec, name, base, limit, closed, open, seen)
    ensures Progress(AddLine(codec, name, limit, w, line), codec, name, base, limit, closed', open', seen + [line])
  {
    GreedyStep(seen, line, limit, closed, open);
    closed', open' := closed, open;
    if open != [] && Size(open) + |line| > limit {
      FlushAt(codec, name, base, closed, open, seen);
      closed', open' := Closing(closed, open), [];
    }
    AppendAt(codec, name, base, closed', open', seen, line);
    open' := open' + [line];
    assert [] + [line] == [line];
  }

  /** After the loop: close the last chunk; an empty collection gets its one empty member. */
  function Finish(codec: Codec, name: string, w: Writer): (seq<TarMember>, CollectionMeta) {
    var f := FlushChunk(codec, name, w);
    var member := ChunkName(name, 0);
    var empty := f.chunks == [];
    (if empty then f.archive + [TarMember(member, true, [])] else f.archive,
     CollectionMeta(
       Some(if empty then [ChunkMeta(Some(member), Counts(Some(0), Some(0), Some(codec.digest([]))))] else f.chunks),
       Counts(Some(f.documentCount), Some(f.totalSize), Some(codec.digest(f.wholeHash)))))
  }

  lemma FinishAt(w: Writer, codec: Codec, name: string, base: seq<TarMember>, limit: nat,
                 closed: seq<seq<Bytes>>, open: seq<Bytes>, seen: seq<Bytes>)
    requires Progress(w, codec, name, base, limit, closed, open, seen)
    ensures var chunks := Chunks(seen, limit);
            Finish(codec, name, w) == (base + MembersOf(name, chunks), MetaOf(codec, name, chunks, seen))
  {
    FlushAt(codec, name, base, closed, open, seen);
    if seen == [] {
      WriteEmpty(codec, name);
      assert base + [] == base;
    } else {
      assert ChunkMetas(codec, name, Closing(closed, open)) != [];
    }
  }

  lemma WriteEmpty(codec: Codec, name: string)
    ensures MembersOf(name, [[]]) == [TarMember(ChunkName(name, 0), true, [])]
    ensures ChunkMetas(codec, name, [[]])
            == [ChunkMeta(Some(ChunkName(name, 0)), Counts(Some(0), Some(0), Some(codec.digest([]))))]
  {
    var none: seq<seq<Bytes>> := [];
    WriteOneMore(codec, name, none, []);
    assert none + [[]] == [[]];
  }

  /** Adds one collection to the archive; its members are the greedy chunks of its lines. */
  method WriteCollectionChunks(codec: Codec, archive: seq<TarMember>, name: string, documents: seq<Document>,
                               limit: nat)
    returns (r: Result<(seq<TarMember>, CollectionMeta), Error>)
    ensures r.Ok? <==> LinesFit(Lines(codec, documents), limit)
    ensures r.Ok? ==>
              var lines := Lines(codec, documents);
              && r.value.0 == archive + MembersOf(name, Chunks(lines, limit))
              && r.value.1 == MetaOf(codec, name, Chunks(lines, limit), lines)
    ensures r.Err? ==> r.error == DocumentTooLarge
  {
    var w := Writer(archive, [], 0, 0, 0, [], [], 0, 0, []);
    ghost var lines := Lines(codec, documents);
    ghost var closed, open := [], [];
    assert archive + [] == archive;
    for i := 0 to |documents|
      invariant Progress(w, codec, name, archive, limit, closed, open, lines[..i])
      invariant LinesFit(lines[..i], limit)
    {
      var line := Line(codec, documents[i]);
      assert lines[i] == line;
      if |line| > limit {
        return Err(DocumentTooLarge);
      }
      closed, open := AddKeepsProgress(w, codec, name, archive, limit, closed, open, lines[..i], line);
      w := AddLine(codec, name, limit, w, line);
      TakeOneMore(lines, i);
    }
    assert lines[..|documents|] == lines;
    FinishAt(w, codec, name, archive, limit, closed, open, lines);
    return Ok(Finish(codec, name, w));
  }
}
