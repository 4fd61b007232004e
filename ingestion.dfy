/**
 * Ingestion (`backend/lib/document-processor.ts`): a document is cut into
 * chunks, each chunk becomes a numbered record, and the records are embedded
 * and written to the vector index one at a time, a failing chunk or file
 * being skipped. The embedder, the index's acceptance of an upsert and the
 * file system are parameters; chunking uses the corrected loop of
 * FixedChunker with the default sizes, since the loop as written does not
 * return for any non-empty file with those sizes.
 */
module Ingestion {
  import opened Wrappers
  import opened Strings
  import opened Types
  import Chunker
  import FixedChunker
  import opened VectorStore

  // ------------------------------------------------------- chunk records

  /** `${fileName}-${index}`. */
  function ChunkId(fileName: string, index: nat): string {
    fileName + "-" + NatToString(index)
  }

  /** The chunks of one document's content. */
  function DocumentTexts(content: string): seq<string> {
    FixedChunker.FixedChunks(content, Chunker.DefaultChunkSize, Chunker.DefaultOverlap)
  }

  /** `processDocument` once the file has been read and its name stripped of directory and extension. */
  function ProcessDocument(filePath: string, fileName: string, content: string): (r: seq<DocumentChunk>)
    ensures |r| == |DocumentTexts(content)|
  {
    var texts := DocumentTexts(content);
    seq(|texts|, i requires 0 <= i < |texts| =>
      DocumentChunk(ChunkId(fileName, i), texts[i], DocumentMetadata(filePath, fileName, i, |texts|)))
  }

  /**
   * Record `i` carries the `i`-th chunk, is numbered `i` out of the number of
   * chunks, and names the document's path and title; its content is never
   * empty.
   */
  lemma ProcessDocumentRecord(filePath: string, fileName: string, content: string, i: nat)
    requires i < |ProcessDocument(filePath, fileName, content)|
    ensures var r := ProcessDocument(filePath, fileName, content);
      && r[i].id == fileName + "-" + NatToString(i)
      && r[i].content == DocumentTexts(content)[i] && r[i].content != []
      && r[i].metadata.source == filePath && r[i].metadata.title == fileName
      && 0 <= r[i].metadata.chunkIndex == i < r[i].metadata.totalChunks == |r|
  {
    var texts := DocumentTexts(content);
    FixedChunker.FixedChunksAreTrimmedWindows(content, Chunker.DefaultChunkSize, Chunker.DefaultOverlap, texts[i]);
  }

  lemma ChunkIdInjective(fileName: string, i: nat, j: nat)
    requires ChunkId(fileName, i) == ChunkId(fileName, j)
    ensures i == j
  {
    var p := fileName + "-";
    assert (p + NatToString(i))[|p|..] == NatToString(i);
    assert (p + NatToString(j))[|p|..] == NatToString(j);
    NatToStringInjective(i, j);
  }

  /** No two records of one document share an id. */
  lemma ProcessDocumentIdsDistinct(filePath: string, fileName: string, content: string, i: nat, j: nat)
    requires i < j < |ProcessDocument(filePath, fileName, content)|
    ensures ProcessDocument(filePath, fileName, content)[i].id != ProcessDocument(filePath, fileName, content)[j].id
  {
    if ChunkId(fileName, i) == ChunkId(fileName, j) {
      ChunkIdInjective(fileName, i, j);
    }
  }

  // ------------------------------------------------------------ indexing

  /** The record upserted for a chunk: its id, its embedding, and `{content, ...metadata}`. */
  function RecordFor(chunk: DocumentChunk, values: Vector): IndexRecord {
    IndexRecord(chunk.id, values, map[
      "content" := Str(chunk.content),
      "source" := Str(chunk.metadata.source),
      "title" := Str(chunk.metadata.title),
      "chunkIndex" := Num(chunk.metadata.chunkIndex),
      "totalChunks" := Num(chunk.metadata.totalChunks)])
  }

  /** The outside calls ingestion makes: the embedding service, and whether the index accepts an upsert. */
  datatype Services = Services(embed: string -> Result<Vector>, accepts: IndexRecord -> bool)

  /** The chunk's embedding succeeds and the index accepts its record. */
  predicate Indexes(sv: Services, chunk: DocumentChunk) {
    sv.embed(chunk.content).Success? && sv.accepts(RecordFor(chunk, sv.embed(chunk.content).value))
  }

  function Stored(sv: Services, chunk: DocumentChunk): IndexRecord
    requires Indexes(sv, chunk)
  {
    RecordFor(chunk, sv.embed(chunk.content).value)
  }

  /** One iteration of the loop: a failing chunk leaves the index as it was. */
  function IndexStep(m: map<string, IndexRecord>, sv: Services, chunk: DocumentChunk): map<string, IndexRecord> {
    if Indexes(sv, chunk) then m[chunk.id := Stored(sv, chunk)] else m
  }

  /** The index after `indexDocumentChunks(chunks)`, the chunks taken in order. */
  function IndexAll(m: map<string, IndexRecord>, sv: Services, chunks: seq<DocumentChunk>): map<string, IndexRecord>
    decreases |chunks|
  {
    if chunks == [] then m
    else IndexStep(IndexAll(m, sv, chunks[..|chunks| - 1]), sv, chunks[|chunks| - 1])
  }

  /** A key that no successful chunk writes keeps its old record, or stays absent. */
  lemma {:induction false} IndexAllUntouched(m: map<string, IndexRecord>, sv: Services, chunks: seq<DocumentChunk>, key: string)
    requires forall i :: 0 <= i < |chunks| && chunks[i].id == key ==> !Indexes(sv, chunks[i])
    ensures key in IndexAll(m, sv, chunks) <==> key in m
    ensures key in m ==> IndexAll(m, sv, chunks)[key] == m[key]
    decreases |chunks|
  {
    if chunks != [] {
      var init := chunks[..|chunks| - 1];
      assert forall i :: 0 <= i < |init| ==> init[i] == chunks[i];
      IndexAllUntouched(m, sv, init, key);
    }
  }

  /** The last successful chunk with a given id decides that id's record: the last writer wins. */
  lemma {:induction false} IndexAllLastWriter(m: map<string, IndexRecord>, sv: Services, chunks: seq<DocumentChunk>, j: nat)
    requires j < |chunks| && Indexes(sv, chunks[j])
    requires forall i :: j < i < |chunks| && chunks[i].id == chunks[j].id ==> !Indexes(sv, chunks[i])
    ensures chunks[j].id in IndexAll(m, sv, chunks)
    ensures IndexAll(m, sv, chunks)[chunks[j].id] == Stored(sv, chunks[j])
    decreases |chunks|
  {
    var init := chunks[..|chunks| - 1];
    if j < |chunks| - 1 {
      assert forall i :: 0 <= i < |init| ==> init[i] == chunks[i];
      IndexAllLastWriter(m, sv, init, j);
    }
  }

  /** Running the loop is writing, over the old index, the records it would write into an empty one. */
  lemma {:induction false} IndexAllOverlay(m: map<string, IndexRecord>, sv: Services, chunks: seq<DocumentChunk>)
    ensures IndexAll(m, sv, chunks) == m + IndexAll(map[], sv, chunks)
    decreases |chunks|
  {
    if chunks != [] {
      IndexAllOverlay(m, sv, chunks[..|chunks| - 1]);
    }
  }

  /** Ingesting the same chunks twice leaves the index as ingesting them once. */
  lemma IndexAllIdempotent(m: map<string, IndexRecord>, sv: Services, chunks: seq<DocumentChunk>)
    ensures IndexAll(IndexAll(m, sv, chunks), sv, chunks) == IndexAll(m, sv, chunks)
  {
    var w := IndexAll(map[], sv, chunks);
    IndexAllOverlay(m, sv, chunks);
    IndexAllOverlay(m + w, sv, chunks);
    assert (m + w) + w == m + w;
  }

  lemma {:induction false} IndexAllAppend(m: map<string, IndexRecord>, sv: Services, a: seq<DocumentChunk>, b: seq<DocumentChunk>)
    ensures IndexAll(m, sv, a + b) == IndexAll(IndexAll(m, sv, a), sv, b)
    decreases |b|
  {
    if b == [] {
      assert a + b == a;
    } else {
      assert (a + b)[..|a + b| - 1] == a + b[..|b| - 1];
      IndexAllAppend(m, sv, a, b[..|b| - 1]);
    }
  }

  /** Ids within one document are distinct, so every chunk of it that is indexed can be found under its own id. */
  lemma DocumentChunkStored(m: map<string, IndexRecord>, sv: Services, filePath: string, fileName: string, content: string, j: nat)
    requires j < |ProcessDocument(filePath, fileName, content)|
    requires Indexes(sv, ProcessDocument(filePath, fileName, content)[j])
    ensures var r := ProcessDocument(filePath, fileName, content);
      r[j].id in IndexAll(m, sv, r) && IndexAll(m, sv, r)[r[j].id] == Stored(sv, r[j])
  {
    var r := ProcessDocument(filePath, fileName, content);
    forall i | j < i < |r| ensures r[i].id != r[j].id {
      ProcessDocumentIdsDistinct(filePath, fileName, content, j, i);
    }
    IndexAllLastWriter(m, sv, r, j);
  }

  /** `indexDocumentChunks`: embed and upsert each chunk in turn, skipping a chunk whose embedding or upsert fails. */
  method IndexDocumentChunks(index: VectorIndex, sv: Services, chunks: seq<DocumentChunk>) returns (indexed: seq<bool>)
    modifies index
    ensures index.records == IndexAll(old(index.records), sv, chunks)
    ensures |indexed| == |chunks|
    ensures forall i :: 0 <= i < |chunks| ==> indexed[i] == Indexes(sv, chunks[i])
  {
    indexed := [];
    for i := 0 to |chunks|
      invariant index.records == IndexAll(old(index.records), sv, chunks[..i])
      invariant |indexed| == i
      invariant forall k :: 0 <= k < i ==> indexed[k] == Indexes(sv, chunks[k])
    {
      var chunk := chunks[i];
      assert chunks[..i + 1][..i] == chunks[..i];
      var embedding := sv.embed(chunk.content);
      var ok := false;
      if embedding.Success? {
        var record := RecordFor(chunk, embedding.value);
        if sv.accepts(record) {
          index.Upsert(record);
          ok := true;
        }
      }
      indexed := indexed + [ok];
    }
    assert chunks[..|chunks|] == chunks;
  }

  // ----------------------------------------------------------- all files

  predicate EndsWith(s: string, suffix: string) {
    |suffix| <= |s| && s[|s| - |suffix|..] == suffix
  }

  /** `files.filter(file => file.endsWith('.txt'))`. */
  function TextFiles(names: seq<string>): (r: seq<string>)
    ensures forall f :: f in r <==> f in names && EndsWith(f, ".txt")
  {
    if names == [] then []
    else if EndsWith(names[0], ".txt") then [names[0]] + TextFiles(names[1..])
    else TextFiles(names[1..])
  }

  /** The filter keeps the listing's order. */
  lemma {:induction false} TextFilesAppend(a: seq<string>, b: seq<string>)
    ensures TextFiles(a + b) == TextFiles(a) + TextFiles(b)
  {
    if a != [] {
      assert (a + b)[1..] == a[1..] + b;
      TextFilesAppend(a[1..], b);
    } else {
      assert a + b == b;
    }
  }

  /** The file system: listing a directory, joining a path, reading a file, and a path's base name without extension. */
  datatype FileSystem = FileSystem(
    list: string -> Result<seq<string>>,
    join: (string, string) -> string,
    read: string -> Result<string>,
    stem: string -> string)

  /** One file of `processAllDocuments`: a file that cannot be read leaves the index as it was. */
  function ProcessFile(m: map<string, IndexRecord>, fs: FileSystem, sv: Services, dir: string, name: string): map<string, IndexRecord> {
    var path := fs.join(dir, name);
    match fs.read(path)
    case Failure(_) => m
    case Success(content) => IndexAll(m, sv, ProcessDocument(path, fs.stem(path), content))
  }

  function ProcessFiles(m: map<string, IndexRecord>, fs: FileSystem, sv: Services, dir: string, names: seq<string>): map<string, IndexRecord>
    decreases |names|
  {
    if names == [] then m
    else ProcessFile(ProcessFiles(m, fs, sv, dir, names[..|names| - 1]), fs, sv, dir, names[|names| - 1])
  }

  /** Files are handled in listing order: the files before a point are done before those after it. */
  lemma {:induction false} ProcessFilesAppend(m: map<string, IndexRecord>, fs: FileSystem, sv: Services, dir: string, a: seq<string>, b: seq<string>)
    ensures ProcessFiles(m, fs, sv, dir, a + b) == ProcessFiles(ProcessFiles(m, fs, sv, dir, a), fs, sv, dir, b)
    decreases |b|
  {
    if b == [] {
      assert a + b == a;
    } else {
      assert (a + b)[..|a + b| - 1] == a + b[..|b| - 1];
      ProcessFilesAppend(m, fs, sv, dir, a, b[..|b| - 1]);
    }
  }

  /** A file that cannot be read has the effect of a file that is not there; the files after it still run. */
  lemma SkipsUnreadableFile(m: map<string, IndexRecord>, fs: FileSystem, sv: Services, dir: string, a: seq<string>, f: string, b: seq<string>)
    requires fs.read(fs.join(dir, f)).Failure?
    ensures ProcessFiles(m, fs, sv, dir, a + [f] + b) == ProcessFiles(m, fs, sv, dir, a + b)
  {
    ProcessFilesAppend(m, fs, sv, dir, a + [f], b);
    ProcessFilesAppend(m, fs, sv, dir, a, [f]);
    ProcessFilesAppend(m, fs, sv, dir, a, b);
    assert [f][..0] == [];
  }

  /** A listed name without the `.txt` suffix is never read. */
  lemma IgnoresOtherFiles(listing: seq<string>, f: string, rest: seq<string>)
    requires !EndsWith(f, ".txt")
    ensures TextFiles(listing + [f] + rest) == TextFiles(listing + rest)
  {
    TextFilesAppend(listing + [f], rest);
    TextFilesAppend(listing, [f]);
    TextFilesAppend(listing, rest);
    assert TextFiles([f]) == [];
  }

  /**
   * `processAllDocuments(dir)`: a directory that cannot be listed is an
   * error; otherwise each `.txt` file is processed and indexed in listing
   * order, and `processed` says which files could be read.
   */
  method ProcessAllDocuments(index: VectorIndex, fs: FileSystem, sv: Services, dir: string) returns (processed: Result<seq<bool>>)
    modifies index
    ensures fs.list(dir).Failure? ==> processed.Failure? && index.records == old(index.records)
    ensures fs.list(dir).Success? ==>
      var names := TextFiles(fs.list(dir).value);
      && index.records == ProcessFiles(old(index.records), fs, sv, dir, names)
      && processed.Success? && |processed.value| == |names|
      && forall i :: 0 <= i < |names| ==> processed.value[i] == fs.read(fs.join(dir, names[i])).Success?
  {
    var listing := fs.list(dir);
    if listing.Failure? {
      return Failure(listing.error);
    }
    var names := TextFiles(listing.value);
    var done: seq<bool> := [];
    for i := 0 to |names|
      invariant index.records == ProcessFiles(old(index.records), fs, sv, dir, names[..i])
      invariant |done| == i
      invariant forall k :: 0 <= k < i ==> done[k] == fs.read(fs.join(dir, names[k])).Success?
    {
      assert names[..i + 1][..i] == names[..i];
      var path := fs.join(dir, names[i]);
      var content := fs.read(path);
      if content.Success? {
        var chunks := ProcessDocument(path, fs.stem(path), content.value);
        var _ := IndexDocumentChunks(index, sv, chunks);
      }
      done := done + [content.Success?];
    }
    assert names[..|names|] == names;
    processed := Success(done);
  }
}
