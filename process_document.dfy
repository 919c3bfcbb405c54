/** The processing of one uploaded document: the vector collection that receives the chunk
    embeddings, the embedding points of a document, the vectorisation task, and the final
    status of the five processing tasks run side by side. The vector database is the
    `VectorStore` class; the embedding model, the random point ids and the outcomes of the
    tasks are parameters. */
module ProcessDocument {
  import opened Wrappers
  import opened Strings
  import C = Chunker
  import E = ExtractionEngine
  import Docs
  import Outline
  import DocumentEncoder
  import MarkerRoundTrip

  /** The collection holding the chunks of every document. */
  const DocumentTextCollectionName := "creator"

  /** The width of a nomic text embedding. */
  const VectorSize := 768

  /** One past the largest point id: ids keep the low 63 bits of a random 128-bit value. */
  const IdBound := 0x8000_0000_0000_0000

  datatype Distance = Cosine | Euclid | Dot | Manhattan

  datatype VectorParams = VectorParams(size: nat, distance: Distance)

  datatype Collection = Collection(name: string, config: VectorParams)

  type Embedding = seq<real>

  /** A stored embedding with its payload: the chunk text, the document and the chunk's
      position in the document. */
  datatype Point = Point(id: nat, vector: Embedding, text: string, documentId: string, chunkIndex: nat)

  predicate HasCollection(collections: seq<Collection>, name: string) {
    exists i :: 0 <= i < |collections| && collections[i].name == name
  }

  /** The collections after `initialize_collection(name)`: a 768-wide cosine collection is
      added at the end unless a collection already has the name. */
  function Initialized(collections: seq<Collection>, name: string): (r: seq<Collection>)
    ensures HasCollection(r, name)
    ensures collections <= r && |r| <= |collections| + 1
    ensures |r| > |collections| ==>
      !HasCollection(collections, name) && r[|collections|] == Collection(name, VectorParams(VectorSize, Cosine))
  {
    if HasCollection(collections, name) then collections
    else
      var r := collections + [Collection(name, VectorParams(VectorSize, Cosine))];
      assert r[|collections|].name == name;
      r
  }

  /** Initialising twice is initialising once, so the second call finds the collection. */
  lemma InitializeIdempotent(collections: seq<Collection>, name: string)
    ensures Initialized(Initialized(collections, name), name) == Initialized(collections, name)
    ensures HasCollection(Initialized(collections, name), name)
  {
  }

  /** The ids of a batch of points. */
  function Ids(batch: seq<Point>): set<nat>
  {
    set p | p in batch :: p.id
  }

  /** `upsert`: each point of the batch replaces any stored point with its id, in order, so
      a later point of the batch wins over an earlier one with the same id; the points of
      other ids stay as they were. */
  function Upserted(stored: map<nat, Point>, batch: seq<Point>): (r: map<nat, Point>)
    ensures r.Keys == stored.Keys + Ids(batch)
    ensures forall id :: id in stored && id !in Ids(batch) ==> r[id] == stored[id]
    decreases |batch|
  {
    if batch == [] then stored
    else
      var r := Upserted(stored[batch[0].id := batch[0]], batch[1..]);
      assert Ids(batch) == {batch[0].id} + Ids(batch[1..]);
      r
  }

  /** The point stored under an id is the last point of the batch with that id. */
  lemma {:induction false} UpsertedLast(stored: map<nat, Point>, batch: seq<Point>, i: nat)
    requires i < |batch|
    requires forall j :: i < j < |batch| ==> batch[j].id != batch[i].id
    ensures batch[i].id in Upserted(stored, batch) && Upserted(stored, batch)[batch[i].id] == batch[i]
    decreases |batch|
  {
    var next := stored[batch[0].id := batch[0]];
    var rest := batch[1..];
    if i == 0 {
      assert batch[0].id !in Ids(rest) by {
        forall p | p in rest ensures p.id != batch[0].id {
          var j :| 0 <= j < |rest| && rest[j] == p;
          assert batch[j + 1] == p;
        }
      }
    } else {
      forall j | i - 1 < j < |rest| ensures rest[j].id != rest[i - 1].id {
        assert rest[j] == batch[j + 1];
      }
      UpsertedLast(next, rest, i - 1);
    }
  }

  class VectorStore {
    /** The collections, in creation order. */
    var collections: seq<Collection>
    /** The points of each collection, by id. */
    var points: map<string, map<nat, Point>>

    /** Points are only ever stored in existing collections. */
    predicate Valid()
      reads this
    {
      forall name :: name in points ==> HasCollection(collections, name)
    }

    constructor ()
      ensures collections == [] && points == map[] && Valid()
    {
      collections := [];
      points := map[];
    }

    /** The points of a collection; none for a collection that holds none. */
    function Stored(name: string): map<nat, Point>
      reads this
    {
      if name in points then points[name] else map[]
    }

    /** `initialize_collection`: true iff the collection was created, which is iff no
        collection had the name. */
    method InitializeCollection(name: string) returns (created: bool)
      requires Valid()
      modifies this
      ensures Valid()
      ensures created <==> !HasCollection(old(collections), name)
      ensures collections == Initialized(old(collections), name) && points == old(points)
    {
      if HasCollection(collections, name) {
        created := false;
      } else {
        ghost var before := collections;
        collections := collections + [Collection(name, VectorParams(VectorSize, Cosine))];
        assert forall i :: 0 <= i < |before| ==> collections[i] == before[i];
        created := true;
      }
    }

    /** `upsert` into an existing collection. */
    method Upsert(name: string, batch: seq<Point>)
      requires Valid() && HasCollection(collections, name)
      modifies this
      ensures Valid() && collections == old(collections)
      ensures points == old(points)[name := Upserted(old(Stored(name)), batch)]
    {
      points := points[name := Upserted(Stored(name), batch)];
    }
  }

  /** `uuid.uuid4().int & (1 << 63) - 1`: the low 63 bits of the random value. */
  function PointId(u: nat): (id: nat)
    ensures id < IdBound
    ensures u < IdBound ==> id == u
  {
    u % IdBound
  }

  /** The points of a document: one per pair of `zip(embeddings, chunks)`, numbered from 0
      in chunk order; `uuid(i)` is the random value drawn for the `i`-th point. */
  function Points(embeddings: seq<Embedding>, chunks: seq<string>, documentId: string, uuid: nat -> nat): (points: seq<Point>)
    ensures |points| == if |embeddings| < |chunks| then |embeddings| else |chunks|
    ensures forall i :: 0 <= i < |points| ==>
      && points[i].vector == embeddings[i] && points[i].text == chunks[i]
      && points[i].documentId == documentId && points[i].chunkIndex == i
      && points[i].id < IdBound
  {
    var n := if |embeddings| < |chunks| then |embeddings| else |chunks|;
    var points := seq(n, i requires 0 <= i < n => Point(PointId(uuid(i)), embeddings[i], chunks[i], documentId, i));
    assert forall i :: 0 <= i < n ==> points[i].id == PointId(uuid(i));
    points
  }

  /** With one embedding per chunk, the points carry the chunks in order, each tagged with
      the document and its position. */
  lemma PointsCarryChunks(embeddings: seq<Embedding>, chunks: seq<string>, documentId: string, uuid: nat -> nat)
    requires |embeddings| == |chunks|
    ensures var points := Points(embeddings, chunks, documentId, uuid);
      && seq(|points|, i requires 0 <= i < |points| => points[i].text) == chunks
      && forall p :: p in points ==> p.documentId == documentId && p.chunkIndex < |chunks| && chunks[p.chunkIndex] == p.text
  {
  }

  /** `add_document_to_collection`: the text is chunked (a malformed text raises before
      anything is stored), the chunks are embedded, the collection is initialised and the
      points are upserted; the document id is returned. */
  method AddDocumentToCollection(store: VectorStore, documentExtractedText: string, documentId: string,
                                 split: C.Splitter, embed: seq<string> -> seq<Embedding>, uuid: nat -> nat)
    returns (r: Result<string, C.ChunkError>)
    requires store.Valid()
    modifies store
    ensures store.Valid()
    ensures var chunks := C.MarkedChunks(documentExtractedText, split);
      && (chunks.Err? ==> r == Err(chunks.error) && store.collections == old(store.collections) && store.points == old(store.points))
      && (chunks.Ok? ==>
            && r == Ok(documentId)
            && store.collections == Initialized(old(store.collections), DocumentTextCollectionName)
            && store.points == old(store.points)[DocumentTextCollectionName :=
                 Upserted(old(store.Stored(DocumentTextCollectionName)), Points(embed(chunks.value), chunks.value, documentId, uuid))])
  {
    var chunks := C.CreateOptimizedMarkedChunks(documentExtractedText, split);
    if chunks.Err? {
      return Err(chunks.error);
    }
    var embeddings := embed(chunks.value);
    var _ := store.InitializeCollection(DocumentTextCollectionName);
    var points := Points(embeddings, chunks.value, documentId, uuid);
    store.Upsert(DocumentTextCollectionName, points);
    r := Ok(documentId);
  }

  /** `vectorise_document`: the collection is initialised first, then the page texts are
      assembled with their markers and added; the result is true, or the chunker's error. */
  method VectoriseDocument(store: VectorStore, pageTexts: seq<string>, documentId: string, documentName: string,
                           split: C.Splitter, embed: seq<string> -> seq<Embedding>, uuid: nat -> nat)
    returns (r: Result<bool, C.ChunkError>)
    requires store.Valid()
    modifies store
    ensures store.Valid()
    ensures store.collections == Initialized(old(store.collections), DocumentTextCollectionName)
    ensures var chunks := C.MarkedChunks(Join(E.VectorisationLines(documentName, pageTexts), "\n"), split);
      && (chunks.Err? ==> r == Err(chunks.error) && store.points == old(store.points))
      && (chunks.Ok? ==>
            && r == Ok(true)
            && store.points == old(store.points)[DocumentTextCollectionName :=
                 Upserted(old(store.Stored(DocumentTextCollectionName)), Points(embed(chunks.value), chunks.value, documentId, uuid))])
  {
    var _ := store.InitializeCollection(DocumentTextCollectionName);
    var text := E.ExtractTextForVectorisation(documentName, pageTexts);
    var added := AddDocumentToCollection(store, text, documentId, split, embed, uuid);
    InitializeIdempotent(old(store.collections), DocumentTextCollectionName);
    if added.Err? {
      return Err(added.error);
    }
    r := Ok(true);
  }

  /** The text the extractor produces for a document with a readable name and plain pages
      always chunks, into exactly the chunks of its numbered pages, so vectorisation
      succeeds and stores one point per chunk. */
  lemma VectorisedTextChunks(name: string, pageTexts: seq<string>, split: C.Splitter)
    requires MarkerRoundTrip.ReadableName(name)
    requires forall k :: 0 <= k < |pageTexts| ==> MarkerRoundTrip.PlainPage(pageTexts[k])
    ensures C.MarkedChunks(Join(E.VectorisationLines(name, pageTexts), "\n"), split)
         == Ok(if name == [] then [] else C.Finalized(name, MarkerRoundTrip.NumberedPages(pageTexts), split))
  {
    MarkerRoundTrip.RoundTrip(name, pageTexts, split);
  }

  // ---------------------------------------------------------------- the document name

  /** The non-empty components of a POSIX path other than `.`, as `pathlib` keeps them. */
  function Kept(segments: seq<string>): (parts: seq<string>)
    ensures |parts| <= |segments|
    ensures forall k :: 0 <= k < |parts| ==> parts[k] in segments && parts[k] != "" && parts[k] != "."
  {
    if segments == [] then []
    else
      var rest := Kept(segments[1..]);
      assert forall s :: s in segments[1..] ==> s in segments;
      if segments[0] == "" || segments[0] == "." then rest else [segments[0]] + rest
  }

  /** `Path(path).name`: the last kept component, or empty. */
  function PathName(path: string): string
  {
    var parts := Kept(SplitOn(path, '/'));
    if parts == [] then "" else parts[|parts| - 1]
  }

  /** `Path(path).stem`: the name without its last suffix; a suffix is a `.` that is
      neither the first nor the last character of the name, and what follows it. */
  function Stem(path: string): (stem: string)
    ensures StartsWith(PathName(path), stem)
    ensures stem != PathName(path) ==>
      && 0 < |stem| < |PathName(path)| - 1 && PathName(path)[|stem|] == '.'
      && Excludes(PathName(path)[|stem| + 1..], '.')
  {
    var name := PathName(path);
    var dot := LastIndexOf(name, '.');
    if 0 < dot < |name| - 1 then
      ExcludesAfter(name, '.', dot, dot + 1);
      name[..dot]
    else name
  }

  /** A name without `/` that is neither empty nor `.` is its own path name. */
  lemma PlainName(name: string)
    requires name != "" && name != "." && Excludes(name, '/')
    ensures PathName(name) == name
  {
    SplitOnNoSep(name, '/');
    assert Kept([name]) == [name];
  }

  /** A name with one last suffix loses exactly that suffix. */
  lemma StemDropsSuffix(base: string, ext: string)
    requires base != "" && Excludes(base, '/') && Excludes(base + "." + ext, '/')
    requires ext != "" && Excludes(ext, '.')
    ensures Stem(base + "." + ext) == base
  {
    var name := base + "." + ext;
    PlainName(name);
    assert name[|base|] == '.';
    forall i | |base| < i < |name| ensures name[i] != '.' {
      assert name[i] == ext[i - |base| - 1];
    }
    assert name[..|base|] == base;
  }

  /** A name without any `.` is its own stem. */
  lemma StemOfDotless(path: string)
    requires Excludes(PathName(path), '.')
    ensures Stem(path) == PathName(path)
  {
  }

  /** `document_name = Path(fileName).stem`. */
  function DocumentName(fileName: string): (name: string)
    ensures StartsWith(PathName(fileName), name)
  {
    Stem(fileName)
  }

  /** The name the document is processed under is the stem of the name recorded in its id:
      for an upload `scan.v2.pdf` the id records `scan.v2`, where the outline source images
      are looked up, but the images are uploaded under `scan`. */
  lemma OutlineImagesMisfiled(userId: string, timestamp: string, page: nat)
    ensures var id := DocumentEncoder.EncodeDocumentId(userId, "scan.v2" + ".pdf", timestamp);
      && DocumentEncoder.OutlineSourceImageFileKey(DocumentEncoder.OutlineSourceImageId(id, page))
         == Ok(Some(Outline.SourceUploadKey(userId, "scan.v2", page)))
      && DocumentName("scan.v2") == "scan"
      && Outline.SourceUploadKey(userId, DocumentName("scan.v2"), page) != Outline.SourceUploadKey(userId, "scan.v2", page)
  {
    ScanLookup(userId, timestamp, page);
    ScanStem();
    ScanKeysDiffer(userId, page);
  }

  lemma ScanLookup(userId: string, timestamp: string, page: nat)
    ensures var id := DocumentEncoder.EncodeDocumentId(userId, "scan.v2" + ".pdf", timestamp);
      DocumentEncoder.OutlineSourceImageFileKey(DocumentEncoder.OutlineSourceImageId(id, page))
      == Ok(Some(Outline.SourceUploadKey(userId, "scan.v2", page)))
  {
    MarkerRoundTrip.NotContainsByFirst("scan.v2", ".pdf");
    PdfUploadLookup(userId, "scan.v2", timestamp, page);
  }

  /** The outline source images of an upload `<name>.pdf` are looked up under `name`. */
  lemma PdfUploadLookup(userId: string, name: string, timestamp: string, page: nat)
    requires !Contains(name, ".pdf")
    ensures var id := DocumentEncoder.EncodeDocumentId(userId, name + ".pdf", timestamp);
      DocumentEncoder.OutlineSourceImageFileKey(DocumentEncoder.OutlineSourceImageId(id, page))
      == Ok(Some(Outline.SourceUploadKey(userId, name, page)))
  {
    DocumentEncoder.RemovePdfSuffix(name);
    Outline.SourceImageKeyAgrees(userId, name + ".pdf", timestamp, page);
  }

  lemma ScanStem()
    ensures DocumentName("scan.v2") == "scan"
  {
    assert "scan.v2" == "scan" + "." + "v2";
    StemDropsSuffix("scan", "v2");
  }

  lemma ScanKeysDiffer(userId: string, page: nat)
    ensures Outline.SourceUploadKey(userId, "scan", page) != Outline.SourceUploadKey(userId, "scan.v2", page)
  {
    var folder := "DB/USERS/" + userId + "/document_outline_sources/";
    var tail := "/Page_" + NatToString(page) + ".png";
    FolderKeys(folder, "scan", "scan.v2", tail);
    assert Outline.SourceUploadKey(userId, "scan", page) == folder + "scan" + tail;
    assert Outline.SourceUploadKey(userId, "scan.v2", page) == folder + "scan.v2" + tail;
  }

  /** Two keys of the same folder whose names part at the first name's end differ. */
  lemma FolderKeys(folder: string, a: string, b: string, tail: string)
    requires |a| < |b| && tail != [] && tail[0] != b[|a|]
    ensures folder + a + tail != folder + b + tail
  {
    var k := |folder| + |a|;
    assert (folder + a + tail)[k] == tail[0];
    assert (folder + b + tail)[k] == b[|a|];
  }

  /** Processed under the name recorded in its id, as `get_document` returns it, a document's
      outline source images are uploaded under the very keys their ids are looked up by. */
  lemma DecodedNameFilesOutline(userId: string, documentName: string, timestamp: string, page: nat)
    ensures var id := DocumentEncoder.EncodeDocumentId(userId, documentName, timestamp);
      && DocumentEncoder.DecodeDocumentId(id).Ok?
      && DocumentEncoder.OutlineSourceImageFileKey(DocumentEncoder.OutlineSourceImageId(id, page))
         == Ok(Some(Outline.SourceUploadKey(userId, DocumentEncoder.DecodeDocumentId(id).value.documentName, page)))
  {
    DocumentEncoder.DecodeEncodeDocumentId(userId, documentName, timestamp);
    Outline.SourceImageKeyAgrees(userId, documentName, timestamp, page);
  }

  // ---------------------------------------------------------------- the final status

  /** What `asyncio.gather(..., return_exceptions=True)` hands back for one task: the
      exception it raised, or the truth value of what it returned. */
  datatype Outcome = Raised(message: string) | Returned(truthy: bool)

  /** No task raised. */
  predicate NoneRaised(results: seq<Outcome>) {
    forall i :: 0 <= i < |results| ==> results[i].Returned?
  }

  /** The last task, the image extraction, returned a true value. */
  predicate ImagesExtracted(results: seq<Outcome>) {
    |results| > 0 && results[|results| - 1] == Returned(true)
  }

  /** The loop over the gathered results: `success` is cleared by any exception, and
      `images_extracted` takes the value of the last task unless it raised. */
  method ClassifyResults(results: seq<Outcome>) returns (success: bool, imagesExtracted: bool)
    ensures success <==> NoneRaised(results)
    ensures imagesExtracted <==> ImagesExtracted(results)
  {
    success := true;
    imagesExtracted := false;
    var i := 0;
    while i < |results|
      invariant 0 <= i <= |results|
      invariant success <==> NoneRaised(results[..i])
      invariant imagesExtracted <==> i == |results| && ImagesExtracted(results)
    {
      assert results[..i + 1] == results[..i] + [results[i]];
      if results[i].Raised? {
        success := false;
      } else if i == |results| - 1 {
        imagesExtracted := results[i].truthy;
      }
      i := i + 1;
    }
    assert results[..i] == results;
  }

  /** The response of `process_document`, without its timing, or the exception it raises
      when writing `"error"` after a failure raises too. */
  datatype Report = Processed | ImageExtractionFailed | PartiallyFailed | Failed(error: string) | Raises(error: string)

  /** The status written and the response, for the gathered results. */
  function Verdict(results: seq<Outcome>): (v: (Docs.Status, Report))
    ensures v.0 == Docs.Done <==> NoneRaised(results)
    ensures v.0 == Docs.Error <==> v.1 == PartiallyFailed
    ensures v.1 == Processed <==> NoneRaised(results) && ImagesExtracted(results)
  {
    if NoneRaised(results) && ImagesExtracted(results) then (Docs.Done, Processed)
    else if NoneRaised(results) then (Docs.Done, ImageExtractionFailed)
    else (Docs.Error, PartiallyFailed)
  }

  /** A task that returns false still counts as a success: only exceptions change the
      status. */
  lemma FalseIsSuccess(results: seq<Outcome>, k: nat)
    requires k < |results|
    ensures Verdict(results[k := Returned(false)]).0 == Verdict(results[k := Returned(true)]).0
  {
    var f := results[k := Returned(false)];
    var t := results[k := Returned(true)];
    assert forall i :: 0 <= i < |results| ==> (f[i].Returned? <==> t[i].Returned?);
  }

  /** A failed image extraction changes the response only, not the status. */
  lemma ImageFailureKeepsStatus(results: seq<Outcome>)
    requires |results| > 0 && NoneRaised(results)
    ensures var last := |results| - 1;
      && Verdict(results[last := Returned(false)]) == (Docs.Done, ImageExtractionFailed)
      && Verdict(results[last := Returned(true)]) == (Docs.Done, Processed)
  {
    var last := |results| - 1;
    assert NoneRaised(results[last := Returned(false)]);
    assert NoneRaised(results[last := Returned(true)]);
  }

  /** `process_document`. `gathered` is the list of task outcomes, or the exception that
      escaped before classification; `writeError` is the exception raised by writing the
      classified status, if any; `recoveryError` is the exception raised by writing
      `"error"` in the handler, if any. Every exception escaping the block writes `"error"`
      and reports the failure, unless that write raises as well, which `process_document`
      then raises. The status writes attempted are listed in order. */
  method ProcessDocument(fileName: string, gathered: Result<seq<Outcome>, string>, writeError: Option<string>,
                         recoveryError: Option<string>)
    returns (documentName: string, writes: seq<Docs.Status>, report: Report)
    ensures documentName == DocumentName(fileName)
    ensures gathered.Err? ==> writes == [Docs.Error]
    ensures gathered.Err? && recoveryError.None? ==> report == Failed(gathered.error)
    ensures gathered.Ok? && writeError.None? ==> writes == [Verdict(gathered.value).0] && report == Verdict(gathered.value).1
    ensures gathered.Ok? && writeError.Some? ==> writes == [Verdict(gathered.value).0, Docs.Error]
    ensures gathered.Ok? && writeError.Some? && recoveryError.None? ==> report == Failed(writeError.value)
    ensures (gathered.Err? || writeError.Some?) && recoveryError.Some? ==> report == Raises(recoveryError.value)
    ensures report.Raises? <==> (gathered.Err? || writeError.Some?) && recoveryError.Some?
  {
    documentName := DocumentName(fileName);
    var escaped: Option<string> := None;
    if gathered.Err? {
      escaped := Some(gathered.error);
      writes := [];
    } else {
      var success, imagesExtracted := ClassifyResults(gathered.value);
      var status: Docs.Status;
      if success && imagesExtracted {
        status, report := Docs.Done, Processed;
      } else if success && !imagesExtracted {
        status, report := Docs.Done, ImageExtractionFailed;
      } else {
        status, report := Docs.Error, PartiallyFailed;
      }
      writes := [status];
      escaped := writeError;
    }
    if escaped.Some? {
      writes := writes + [Docs.Error];
      if recoveryError.Some? {
        report := Raises(recoveryError.value);
      } else {
        report := Failed(escaped.value);
      }
    }
  }
}
