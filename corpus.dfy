/** Documents, chunk metadata and the vector index they feed, with the abstract collaborators
    `embed_texts` (app/rag/embeddings.py) and `create_faiss_index` (app/rag/vector_store.py),
    and the one chunk/metadata layout shared by the three places that assemble an index. */
module Corpus {
  import opened Wrappers
  import opened Text
  import opened Chunker

  /** What a loader returns: `{"text", "source"}`, plus `"type"` for uploaded files. */
  datatype Document = Document(text: string, source: string, docType: Option<string>)

  /** A metadata dictionary; a field is `None` when the dictionary has no such key. */
  datatype Metadata = Metadata(source: string, docType: Option<string>, updatedAt: Option<int>, preview: Option<string>)

  /** An embedding; its numbers play no part in the model. */
  datatype Vector = Vector(components: seq<real>)

  /** The bundle `create_faiss_index` returns: vectors, chunk texts and metadata, positionally. */
  datatype Index = Index(vectors: seq<Vector>, texts: seq<string>, metadatas: seq<Metadata>)

  /** The exceptions that can escape the indexing pipeline. */
  datatype Error =
    | NoVectors                         // ValueError raised by create_faiss_index
    | DimensionMismatch                 // vectors of different lengths cannot be stacked
    | IncompatibleFormat(filename: string)  // ValueError raised by load_text_from_file
    | PdfUnreadable(path: string)       // PdfReader failed inside load_all_pdfs_text
    | ImageLoaderFailed                 // the vision call raised inside load_all_images_text
    | ManifestNotObject                 // AttributeError: `.keys()` on a manifest that is not a JSON object

  /** Number of characters of a chunk kept as its `text_preview`. */
  const PreviewLength := 100

  /** `embed_texts`: one call per text, in order; a text whose call fails is left out. */
  function EmbedTexts(texts: seq<string>, embed: string -> Option<Vector>): (r: seq<Vector>)
    ensures |r| <= |texts|
    ensures (forall i :: 0 <= i < |texts| ==> embed(texts[i]).Some?) ==>
      |r| == |texts| && forall i :: 0 <= i < |texts| ==> r[i] == embed(texts[i]).value
  {
    if texts == [] then []
    else
      var rest := EmbedTexts(texts[..|texts| - 1], embed);
      var last := texts[|texts| - 1];
      if embed(last).Some? then rest + [embed(last).value] else rest
  }

  /** The positions of the texts whose embedding call succeeds, in increasing order. */
  function EmbeddedPositions(texts: seq<string>, embed: string -> Option<Vector>): (idx: seq<nat>)
    ensures forall k :: 0 <= k < |idx| ==> idx[k] < |texts| && embed(texts[idx[k]]).Some?
    ensures forall k, l :: 0 <= k < l < |idx| ==> idx[k] < idx[l]
    ensures forall i :: 0 <= i < |texts| && embed(texts[i]).Some? ==> i in idx
  {
    if texts == [] then []
    else
      var n := |texts|;
      var front := EmbeddedPositions(texts[..n - 1], embed);
      assert forall i :: 0 <= i < n - 1 ==> texts[..n - 1][i] == texts[i];
      if embed(texts[n - 1]).Some? then front + [n - 1] else front
  }

  /** Vector `k` of `r` embeds the text at position `idx[k]`. */
  predicate Aligned(r: seq<Vector>, idx: seq<nat>, texts: seq<string>, embed: string -> Option<Vector>) {
    |r| == |idx| && forall k :: 0 <= k < |idx| ==> idx[k] < |texts| && embed(texts[idx[k]]).Some? && r[k] == embed(texts[idx[k]]).value
  }

  /** One more text keeps the alignment, whether its call succeeds or not. */
  lemma AlignedSnoc(rf: seq<Vector>, idf: seq<nat>, front: seq<string>, texts: seq<string>,
                    r: seq<Vector>, idx: seq<nat>, embed: string -> Option<Vector>)
    requires texts != [] && front == texts[..|texts| - 1]
    requires Aligned(rf, idf, front, embed)
    requires embed(texts[|texts| - 1]).Some? ==> r == rf + [embed(texts[|texts| - 1]).value] && idx == idf + [|front|]
    requires embed(texts[|texts| - 1]).None? ==> r == rf && idx == idf
    ensures Aligned(r, idx, texts, embed)
  {
    forall k | 0 <= k < |idf| ensures idx[k] < |texts| && embed(texts[idx[k]]).Some? && r[k] == embed(texts[idx[k]]).value {
      assert r[k] == rf[k] && idx[k] == idf[k] && front[idf[k]] == texts[idf[k]];
    }
  }

  /** The vectors `embed_texts` returns are those of the successful calls, in text order: vector
      `k` embeds the text at the `k`-th successful position, so a failed call shifts every later
      vector away from its text's position. */
  lemma {:induction false} EmbedTextsAligned(texts: seq<string>, embed: string -> Option<Vector>)
    ensures Aligned(EmbedTexts(texts, embed), EmbeddedPositions(texts, embed), texts, embed)
  {
    if texts != [] {
      var front := texts[..|texts| - 1];
      EmbedTextsAligned(front, embed);
      AlignedSnoc(EmbedTexts(front, embed), EmbeddedPositions(front, embed), front, texts,
                  EmbedTexts(texts, embed), EmbeddedPositions(texts, embed), embed);
    }
  }

  /** `create_faiss_index`: refuses an empty vector list and vectors of different dimensions. */
  function CreateIndex(vectors: seq<Vector>, texts: seq<string>, metadatas: seq<Metadata>): (r: Result<Index, Error>)
    ensures r.Success? <==> |vectors| > 0 && forall i :: 0 <= i < |vectors| ==> |vectors[i].components| == |vectors[0].components|
    ensures r.Success? ==> r.value == Index(vectors, texts, metadatas)
    ensures |vectors| == 0 ==> r == Failure(NoVectors)
  {
    if |vectors| == 0 then Failure(NoVectors)
    else if exists i :: 0 <= i < |vectors| && |vectors[i].components| != |vectors[0].components| then Failure(DimensionMismatch)
    else Success(Index(vectors, texts, metadatas))
  }

  /** The chunks of one document, with the default window of 500 and overlap of 100. */
  function DocChunks(d: Document): seq<string> {
    Chunks(d.text, DefaultChunkSize, DefaultChunkOverlap)
  }

  /** Which metadata dictionary each caller attaches to a chunk. */
  datatype Tagging =
    | SyncTags               // {"source", "text_preview"}                          (sync.py)
    | UploadTags(ts: int)    // {"source", "type", "updated_at", "text_preview"}    (upload_manager.py)
    | StartupTags(ts: int)   // {"source", "updated_at"}                            (main.py)

  function Tag(t: Tagging, d: Document, chunk: string): Metadata {
    match t
    case SyncTags => Metadata(d.source, None, None, Some(Prefix(chunk, PreviewLength)))
    case UploadTags(ts) => Metadata(d.source, d.docType, Some(ts), Some(Prefix(chunk, PreviewLength)))
    case StartupTags(ts) => Metadata(d.source, None, Some(ts), None)
  }

  /** A list assembled document by document: each document's part, in document order. */
  function Gather<T>(docs: seq<Document>, part: Document -> seq<T>): seq<T> {
    if docs == [] then [] else Gather(docs[..|docs| - 1], part) + part(docs[|docs| - 1])
  }

  /** All chunks of all documents: document order, then order within the document. */
  function AllChunks(docs: seq<Document>): seq<string> {
    Gather(docs, DocChunks)
  }

  /** The metadata attached to `chunks`, all produced by document `d`. */
  function TagAll(t: Tagging, d: Document, chunks: seq<string>): (r: seq<Metadata>)
    ensures |r| == |chunks|
  {
    seq(|chunks|, i requires 0 <= i < |chunks| => Tag(t, d, chunks[i]))
  }

  /** The metadata of one document's chunks. */
  function DocMetas(t: Tagging, d: Document): seq<Metadata> {
    TagAll(t, d, DocChunks(d))
  }

  function MetasOf(t: Tagging): Document -> seq<Metadata> {
    d => DocMetas(t, d)
  }

  /** The metadata list, built alongside `AllChunks`. */
  function AllMetas(docs: seq<Document>, t: Tagging): seq<Metadata> {
    Gather(docs, MetasOf(t))
  }

  /** Gathering two lists of documents one after the other. */
  lemma {:induction false} GatherAppend<T>(a: seq<Document>, b: seq<Document>, part: Document -> seq<T>)
    ensures Gather(a + b, part) == Gather(a, part) + Gather(b, part)
    decreases |b|
  {
    if b == [] {
      assert a + b == a;
    } else {
      var b' := b[..|b| - 1];
      GatherAppend(a, b', part);
      assert (a + b)[..|a + b| - 1] == a + b';
      assert (a + b)[|a + b| - 1] == b[|b| - 1];
    }
  }

  /** Element `k` of document `j`'s part sits after the parts of the documents before `j`. */
  lemma GatherAt<T>(docs: seq<Document>, part: Document -> seq<T>, j: nat, k: nat)
    requires j < |docs| && k < |part(docs[j])|
    ensures |Gather(docs[..j + 1], part)| == |Gather(docs[..j], part)| + |part(docs[j])|
    ensures var p := |Gather(docs[..j], part)| + k;
      p < |Gather(docs, part)| && Gather(docs, part)[p] == part(docs[j])[k]
  {
    var pre, upto, rest := docs[..j], docs[..j + 1], docs[j + 1..];
    assert upto[..j] == pre && upto[j] == docs[j];
    assert Gather(upto, part) == Gather(pre, part) + part(docs[j]);
    assert docs == upto + rest;
    GatherAppend(upto, rest, part);
  }

  /** Parts of equal lengths gather into lists of equal lengths. */
  lemma {:induction false} GatherLength<T, U>(docs: seq<Document>, f: Document -> seq<T>, g: Document -> seq<U>)
    requires forall i :: 0 <= i < |docs| ==> |f(docs[i])| == |g(docs[i])|
    ensures |Gather(docs, f)| == |Gather(docs, g)|
  {
    if docs != [] {
      var front := docs[..|docs| - 1];
      assert forall i :: 0 <= i < |front| ==> front[i] == docs[i];
      GatherLength(front, f, g);
    }
  }

  /** Where an element of a gathered list comes from; with parts of equal lengths, the same
      position of a parallel list comes from the same document and offset. */
  lemma {:induction false} GatherOrigin<T, U>(docs: seq<Document>, f: Document -> seq<T>, g: Document -> seq<U>, p: nat)
    returns (j: nat, k: nat)
    requires forall i :: 0 <= i < |docs| ==> |f(docs[i])| == |g(docs[i])|
    requires p < |Gather(docs, f)|
    ensures j < |docs| && k < |f(docs[j])| && k < |g(docs[j])| && p < |Gather(docs, g)|
    ensures Gather(docs, f)[p] == f(docs[j])[k] && Gather(docs, g)[p] == g(docs[j])[k]
    ensures p == |Gather(docs[..j], f)| + k
  {
    var n := |docs|;
    var front := docs[..n - 1];
    assert forall i :: 0 <= i < |front| ==> front[i] == docs[i];
    GatherLength(front, f, g);
    if p < |Gather(front, f)| {
      j, k := GatherOrigin(front, f, g, p);
      assert front[..j] == docs[..j];
    } else {
      j, k := n - 1, p - |Gather(front, f)|;
    }
  }

  /** A gathered list is empty exactly when every part is. */
  lemma {:induction false} GatherEmptyIff<T>(docs: seq<Document>, part: Document -> seq<T>)
    ensures Gather(docs, part) == [] <==> forall j :: 0 <= j < |docs| ==> part(docs[j]) == []
  {
    if docs != [] {
      var front := docs[..|docs| - 1];
      GatherEmptyIff(front, part);
      assert forall j :: 0 <= j < |front| ==> front[j] == docs[j];
    }
  }

  lemma SameLengths(docs: seq<Document>, t: Tagging)
    ensures forall i :: 0 <= i < |docs| ==> |DocChunks(docs[i])| == |MetasOf(t)(docs[i])|
  {
  }

  /** The chunk list and the metadata list are parallel. */
  lemma ParallelLength(docs: seq<Document>, t: Tagging)
    ensures |AllMetas(docs, t)| == |AllChunks(docs)|
  {
    SameLengths(docs, t);
    GatherLength(docs, DocChunks, MetasOf(t));
  }

  /** Assembling two lists of documents one after the other. */
  lemma AssembleAppend(a: seq<Document>, b: seq<Document>, t: Tagging)
    ensures AllChunks(a + b) == AllChunks(a) + AllChunks(b)
    ensures AllMetas(a + b, t) == AllMetas(a, t) + AllMetas(b, t)
  {
    GatherAppend(a, b, DocChunks);
    GatherAppend(a, b, MetasOf(t));
  }

  /** Chunk `k` of document `j` sits at position `offset + k`, where `offset` counts the chunks of
      the documents before `j`, and its metadata is the tag of document `j` for that chunk. */
  lemma Provenance(docs: seq<Document>, t: Tagging, j: nat, k: nat)
    requires j < |docs| && k < |DocChunks(docs[j])|
    ensures |AllChunks(docs[..j + 1])| == |AllChunks(docs[..j])| + |DocChunks(docs[j])|
    ensures var p := |AllChunks(docs[..j])| + k;
      p < |AllChunks(docs)| && p < |AllMetas(docs, t)|
      && AllChunks(docs)[p] == DocChunks(docs[j])[k]
      && AllMetas(docs, t)[p] == Tag(t, docs[j], DocChunks(docs[j])[k])
  {
    GatherAt(docs, DocChunks, j, k);
    assert |MetasOf(t)(docs[j])| == |DocChunks(docs[j])|;
    GatherAt(docs, MetasOf(t), j, k);
    ParallelLength(docs[..j], t);
  }

  /** Every metadata entry is its document's tag applied to the chunk at the same position. */
  lemma MetadataDescribesChunk(docs: seq<Document>, t: Tagging, p: nat)
    requires p < |AllChunks(docs)|
    ensures p < |AllMetas(docs, t)|
    ensures exists j :: 0 <= j < |docs| && AllMetas(docs, t)[p] == Tag(t, docs[j], AllChunks(docs)[p])
  {
    SameLengths(docs, t);
    var j, k := GatherOrigin(docs, DocChunks, MetasOf(t), p);
    assert AllMetas(docs, t)[p] == DocMetas(t, docs[j])[k];
  }

  /** A document yields no chunk exactly when its text is empty. */
  lemma NoChunksIffEmpty(d: Document)
    ensures DocChunks(d) == [] <==> d.text == []
  {
    if d.text != [] {
      ChunkCountIsCeiling(d.text, DefaultChunkSize, DefaultChunkOverlap);
    }
  }

  /** No chunk at all exactly when every document's text is empty. */
  lemma NoChunksIffAllEmpty(docs: seq<Document>)
    ensures AllChunks(docs) == [] <==> forall j :: 0 <= j < |docs| ==> docs[j].text == []
  {
    GatherEmptyIff(docs, DocChunks);
    forall j | 0 <= j < |docs| ensures DocChunks(docs[j]) == [] <==> docs[j].text == [] {
      NoChunksIffEmpty(docs[j]);
    }
  }
}
