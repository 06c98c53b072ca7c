/** Change detection and rebuild of app/rag/sync.py. The file system, the fingerprint (`file_hash`),
    the image loader and the embedding service are parameters; the manifest file is the field of a
    `ManifestStore`. */
module Sync {
  import opened Wrappers
  import opened Text
  import opened Chunker
  import opened Corpus
  import opened PdfLoader

  const ImageExtensions: seq<string> := [".png", ".jpg", ".jpeg", ".webp"]

  predicate IsImageName(name: string) {
    EndsWithAny(Lower(name), ImageExtensions)
  }

  /** The two watched folders and the names each accepts. */
  datatype Folder = PdfFolder | ImageFolder

  predicate Accepts(folder: Folder, name: string) {
    match folder
    case PdfFolder => IsPdfName(name)
    case ImageFolder => IsImageName(name)
  }

  /** The paths one folder contributes, in listing order; a missing folder (`None`) contributes none. */
  function Listed(dir: string, listing: Option<seq<string>>, folder: Folder): seq<string> {
    match listing
    case None => []
    case Some(names) => ListedNames(dir, names, folder)
  }

  function ListedNames(dir: string, names: seq<string>, folder: Folder): seq<string> {
    if names == [] then []
    else
      var last := names[|names| - 1];
      ListedNames(dir, names[..|names| - 1], folder) + (if Accepts(folder, last) then [Join(dir, last)] else [])
  }

  /** A path is listed exactly when it is the join of the folder with an accepted entry. */
  lemma {:induction false} ListedNamesMembership(dir: string, names: seq<string>, folder: Folder, f: string)
    ensures f in ListedNames(dir, names, folder) <==>
      exists i :: 0 <= i < |names| && Accepts(folder, names[i]) && f == Join(dir, names[i])
  {
    if names != [] {
      var n := |names|;
      ListedNamesMembership(dir, names[..n - 1], folder, f);
      assert forall i :: 0 <= i < n - 1 ==> names[..n - 1][i] == names[i];
    }
  }

  /** Every listed path ends in an accepted entry: its base name is a `.pdf` name for the PDF
      folder and an image name for the image folder. */
  lemma ListedBasenames(dir: string, listing: Option<seq<string>>, folder: Folder, f: string)
    requires listing.Some? ==> forall i :: 0 <= i < |listing.value| ==> '/' !in listing.value[i]
    requires f in Listed(dir, listing, folder)
    ensures listing.Some? && Accepts(folder, Basename(f)) && Basename(f) in listing.value
  {
    var names := listing.value;
    ListedNamesMembership(dir, names, folder, f);
    var i :| 0 <= i < |names| && Accepts(folder, names[i]) && f == Join(dir, names[i]);
    BasenameOfJoin(dir, names[i]);
  }

  /** One more entry: its path, when accepted, goes after those of the entries before it. */
  lemma ListedNamesSnoc(dir: string, names: seq<string>, folder: Folder, i: nat)
    requires i < |names|
    ensures ListedNames(dir, names[..i + 1], folder) ==
      ListedNames(dir, names[..i], folder) + (if Accepts(folder, names[i]) then [Join(dir, names[i])] else [])
  {
    assert names[..i + 1][..i] == names[..i];
  }

  /** The loop over one folder's entries in `gather_files`. */
  method AppendListed(files: seq<string>, dir: string, names: seq<string>, folder: Folder) returns (out: seq<string>)
    ensures out == files + ListedNames(dir, names, folder)
  {
    out := files;
    var i := 0;
    while i < |names|
      invariant 0 <= i <= |names|
      invariant out == files + ListedNames(dir, names[..i], folder)
    {
      ListedNamesSnoc(dir, names, folder, i);
      if Accepts(folder, names[i]) {
        out := out + [Join(dir, names[i])];
      }
      i := i + 1;
    }
    assert names[..|names|] == names;
  }

  /** `gather_files`: the accepted paths of both folders, sorted. */
  method GatherFiles(pdfDir: string, pdfListing: Option<seq<string>>, imgDir: string, imgListing: Option<seq<string>>)
    returns (files: seq<string>)
    ensures IsSorted(files)
    ensures multiset(files) == multiset(Listed(pdfDir, pdfListing, PdfFolder) + Listed(imgDir, imgListing, ImageFolder))
  {
    files := [];
    if pdfListing.Some? {
      files := AppendListed(files, pdfDir, pdfListing.value, PdfFolder);
    }
    if imgListing.Some? {
      files := AppendListed(files, imgDir, imgListing.value, ImageFolder);
    }
    files := SortStrings(files);
  }

  /** The path -> fingerprint map of the current files; `None` where hashing raised. */
  function Fingerprints(files: seq<string>, hash: string -> Option<string>): map<string, Option<string>> {
    map f | f in files :: hash(f)
  }

  /** The loop that fills `current_map`. */
  method FingerprintFiles(files: seq<string>, hash: string -> Option<string>) returns (current: map<string, Option<string>>)
    ensures current.Keys == set f | f in files
    ensures forall f :: f in current ==> current[f] == hash(f)
    ensures current == Fingerprints(files, hash)
  {
    current := map[];
    var i := 0;
    while i < |files|
      invariant 0 <= i <= |files|
      invariant current.Keys == set f | f in files[..i]
      invariant forall f :: f in current ==> current[f] == hash(f)
    {
      assert files[..i + 1] == files[..i] + [files[i]];
      current := current[files[i] := hash(files[i])];
      i := i + 1;
    }
    assert files[..|files|] == files;
  }

  /** The fingerprint map depends only on which files there are, not on their order. */
  lemma SameFingerprints(files: seq<string>, others: seq<string>, hash: string -> Option<string>)
    requires multiset(files) == multiset(others)
    ensures Fingerprints(files, hash) == Fingerprints(others, hash)
  {
    assert forall f :: f in files <==> f in multiset(files);
    assert forall f :: f in others <==> f in multiset(others);
  }

  /** `dict.get` on the manifest: a missing key reads as `None`, like a stored `null`. */
  function PyGet(m: map<string, Option<string>>, k: string): Option<string> {
    if k in m then m[k] else None
  }

  /** The change test: files added or removed, or a fingerprint differs. It holds exactly when the
      manifest is not the current map. */
  function NeedsRebuild(manifest: map<string, Option<string>>, current: map<string, Option<string>>): (r: bool)
    ensures r <==> manifest != current
  {
    var addedOrRemoved := manifest.Keys != current.Keys;
    var contentChanged := exists k :: k in current && PyGet(manifest, k) != current[k];
    if !addedOrRemoved && !contentChanged then
      assert forall k :: k in manifest <==> k in current;
      assert forall k :: k in current ==> manifest[k] == current[k];
      false
    else addedOrRemoved || contentChanged
  }

  /** The chunk/metadata loop: every chunk of every document, each with `{source, text_preview}`. */
  method AssembleSyncChunks(docs: seq<Document>) returns (chunks: seq<string>, metadatas: seq<Metadata>)
    ensures chunks == AllChunks(docs)
    ensures metadatas == AllMetas(docs, SyncTags)
  {
    chunks, metadatas := [], [];
    var i := 0;
    while i < |docs|
      invariant 0 <= i <= |docs|
      invariant chunks == AllChunks(docs[..i])
      invariant metadatas == AllMetas(docs[..i], SyncTags)
    {
      var doc := docs[i];
      var cs := ChunkText(doc.text, DefaultChunkSize, DefaultChunkOverlap);
      ghost var before, metasBefore := chunks, metadatas;
      var j := 0;
      while j < |cs|
        invariant 0 <= j <= |cs|
        invariant chunks == before + cs[..j]
        invariant metadatas == metasBefore + TagAll(SyncTags, doc, cs[..j])
      {
        assert cs[..j + 1] == cs[..j] + [cs[j]];
        assert TagAll(SyncTags, doc, cs[..j + 1]) == TagAll(SyncTags, doc, cs[..j]) + [Tag(SyncTags, doc, cs[j])];
        chunks := chunks + [cs[j]];
        metadatas := metadatas + [Metadata(doc.source, None, None, Some(Prefix(cs[j], PreviewLength)))];
        j := j + 1;
      }
      assert cs[..|cs|] == cs;
      assert docs[..i + 1][..i] == docs[..i];
      i := i + 1;
    }
    assert docs[..|docs|] == docs;
  }

  /** `build_documents_list`: the PDF documents, then the image documents. */
  function BuildDocuments(pdfs: Result<seq<Document>, Error>, images: Result<seq<Document>, Error>): Result<seq<Document>, Error> {
    match pdfs
    case Failure(e) => Failure(e)
    case Success(p) => Prepend(p, images)
  }

  /** What the rebuild branch yields once the manifest is saved: `True`, or the exception raised by
      a loader or by `create_faiss_index`. The index itself is dropped. */
  function RebuildOutcome(docs: Result<seq<Document>, Error>, embed: string -> Option<Vector>): Result<bool, Error> {
    match docs
    case Failure(e) => Failure(e)
    case Success(ds) =>
      match CreateIndex(EmbedTexts(AllChunks(ds), embed), AllChunks(ds), AllMetas(ds, SyncTags))
      case Failure(e) => Failure(e)
      case Success(_) => Success(true)
  }

  /** What `load_manifest` returns: a JSON object, path -> fingerprint with `None` for `null`
      (a missing or unparsable file loads as the empty object), or some other JSON value such as
      a list, which it returns unchecked. */
  datatype Loaded =
    | Object(entries: map<string, Option<string>>)
    | NotObject

  /** The persisted manifest (`data/manifest.json`). */
  class ManifestStore {
    var manifest: Loaded

    constructor (initial: Loaded)
      ensures manifest == initial
    {
      manifest := initial;
    }

    /** `sync_and_rebuild`. A manifest that is not a JSON object raises `AttributeError` at the
        change test, before anything is written. Otherwise: returns `False` and writes nothing
        when the manifest equals the current fingerprints, or saves the current fingerprints
        BEFORE extracting and indexing, so the manifest is updated even when the rebuild then
        raises. */
    method SyncAndRebuild(pdfDir: string, pdfListing: Option<seq<string>>, imgDir: string, imgListing: Option<seq<string>>,
                          hash: string -> Option<string>, reader: string -> Option<seq<Option<string>>>,
                          images: Result<seq<Document>, Error>, embed: string -> Option<Vector>)
      returns (r: Result<bool, Error>)
      modifies this
      ensures old(manifest).NotObject? ==> r == Failure(ManifestNotObject) && manifest == old(manifest)
      ensures var current := Fingerprints(Listed(pdfDir, pdfListing, PdfFolder) + Listed(imgDir, imgListing, ImageFolder), hash);
        old(manifest).Object? ==>
          manifest == Object(current)
          && (old(manifest).entries == current ==> r == Success(false))
          && (old(manifest).entries != current ==>
                r == RebuildOutcome(BuildDocuments(if pdfListing.None? then Success([]) else LoadedPdfs(pdfDir, pdfListing.value, reader), images), embed))
    {
      var files := GatherFiles(pdfDir, pdfListing, imgDir, imgListing);
      var current := FingerprintFiles(files, hash);
      ghost var listed := Listed(pdfDir, pdfListing, PdfFolder) + Listed(imgDir, imgListing, ImageFolder);
      SameFingerprints(files, listed, hash);
      if manifest.NotObject? {
        return Failure(ManifestNotObject);
      }
      if !NeedsRebuild(manifest.entries, current) {
        return Success(false);
      }
      manifest := Object(current);
      var pdfs := LoadAllPdfsText(pdfDir, pdfListing, reader);
      var docs := BuildDocuments(pdfs, images);
      if docs.Failure? {
        return Failure(docs.error);
      }
      var chunks, metadatas := AssembleSyncChunks(docs.value);
      var index := CreateIndex(EmbedTexts(chunks, embed), chunks, metadatas);
      if index.Failure? {
        return Failure(index.error);
      }
      r := Success(true);
    }

    /** Two syncs over the same files: whatever the first returns (even an exception raised after
        the manifest was saved), the second finds nothing to do. A manifest that is not a JSON
        object is never overwritten, so both syncs raise. */
    method SyncTwice(pdfDir: string, pdfListing: Option<seq<string>>, imgDir: string, imgListing: Option<seq<string>>,
                     hash: string -> Option<string>, reader: string -> Option<seq<Option<string>>>,
                     images: Result<seq<Document>, Error>, embed: string -> Option<Vector>)
      returns (first: Result<bool, Error>, second: Result<bool, Error>)
      modifies this
      ensures old(manifest).Object? ==> second == Success(false)
      ensures old(manifest).NotObject? ==> first == second == Failure(ManifestNotObject)
    {
      first := SyncAndRebuild(pdfDir, pdfListing, imgDir, imgListing, hash, reader, images, embed);
      second := SyncAndRebuild(pdfDir, pdfListing, imgDir, imgListing, hash, reader, images, embed);
    }
  }
}
