/** The upload sandbox and the temporary index of app/rag/upload_manager.py. The file system
    (`os.path.isfile`, `shutil.copy2`, `os.listdir`), PyPDF2, the vision call and the embedding
    service are parameters. */
module UploadManager {
  import opened Wrappers
  import opened Text
  import opened Chunker
  import opened Corpus
  import opened PdfLoader

  const SupportedImageExt: seq<string> := [".png", ".jpg", ".jpeg", ".webp"]
  const SupportedDocExt: seq<string> := [".pdf"] + SupportedImageExt

  /** Case-insensitive test against the supported suffixes. */
  predicate IsSupported(name: string) {
    EndsWithAny(Lower(name), SupportedDocExt)
  }

  predicate IsUploadImage(name: string) {
    EndsWithAny(Lower(name), SupportedImageExt)
  }

  /** The supported names are exactly the PDF names and the image names. */
  lemma SupportedIsPdfOrImage(name: string)
    ensures IsSupported(name) <==> IsPdfName(name) || IsUploadImage(name)
  {
    EndsWithAnyCons(Lower(name), ".pdf", SupportedImageExt);
  }

  /** A supported path keeps its supported suffix in its base name. */
  lemma SupportedBasename(src: string)
    requires IsSupported(src)
    ensures IsSupported(Basename(src))
  {
    var i :| 0 <= i < |SupportedDocExt| && EndsWith(Lower(src), SupportedDocExt[i]);
    var ext := SupportedDocExt[i];
    ExtensionsSlashFree(i);
    LoweredSuffixSlashFree(src, ext);
    SlashFreeSuffixInBasename(src, |ext|);
    LoweredSuffixKept(src, Basename(src), ext);
    assert EndsWith(Lower(Basename(src)), SupportedDocExt[i]);
  }

  lemma ExtensionsSlashFree(i: nat)
    requires i < |SupportedDocExt|
    ensures '/' !in SupportedDocExt[i]
  {
    assert SupportedDocExt == [".pdf", ".png", ".jpg", ".jpeg", ".webp"];
  }

  /** A suffix the lower-cased string ends in that has no '/' comes from characters that are not '/'. */
  lemma LoweredSuffixSlashFree(s: string, x: string)
    requires EndsWith(Lower(s), x) && '/' !in x
    ensures forall k :: |s| - |x| <= k < |s| ==> s[k] != '/'
  {
    forall k | |s| - |x| <= k < |s| ensures s[k] != '/' {
      LoweredSuffixChar(s, x, k);
      LowerCharKeepsSlash(s[k]);
    }
  }

  lemma LoweredSuffixChar(s: string, x: string, k: int)
    requires EndsWith(Lower(s), x) && '/' !in x
    requires |s| - |x| <= k < |s|
    ensures LowerChar(s[k]) != '/'
  {
    assert Lower(s)[k] == x[k - (|s| - |x|)];
  }

  lemma LowerCharKeepsSlash(c: char)
    ensures LowerChar(c) == '/' <==> c == '/'
  {
  }

  /** A long enough suffix `t` of `s` still ends, lower-cased, in what `s` does. */
  lemma LoweredSuffixKept(s: string, t: string, x: string)
    requires EndsWith(s, t) && |t| >= |x| && EndsWith(Lower(s), x)
    ensures EndsWith(Lower(t), x)
  {
    forall j | 0 <= j < |x| ensures Lower(t)[|t| - |x| + j] == x[j] {
      assert t[|t| - |x| + j] == s[|s| - |x| + j];
      assert Lower(s)[|s| - |x| + j] == x[j];
    }
  }

  /** The last `m` characters, when none of them is '/', are part of the base name. */
  lemma {:induction false} SlashFreeSuffixInBasename(p: string, m: nat)
    requires m <= |p|
    requires forall k :: |p| - m <= k < |p| ==> p[k] != '/'
    ensures |Basename(p)| >= m
  {
    if m > 0 {
      var front := p[..|p| - 1];
      forall k | |front| - (m - 1) <= k < |front| ensures front[k] != '/' {
        assert front[k] == p[k];
      }
      SlashFreeSuffixInBasename(front, m - 1);
    }
  }

  /** A source `save_uploaded_files` copies: it is a file, has a supported suffix and copies. */
  predicate Kept(src: string, isFile: string -> bool, copies: string -> bool) {
    isFile(src) && IsSupported(src) && copies(src)
  }

  /** The sandbox copies of the sources `keep` accepts, in input order. */
  function CopiesOf(tmpDir: string, paths: seq<string>, keep: string -> bool): seq<string> {
    if paths == [] then []
    else
      var last := paths[|paths| - 1];
      CopiesOf(tmpDir, paths[..|paths| - 1], keep) + (if keep(last) then [Join(tmpDir, Basename(last))] else [])
  }

  function KeptBy(isFile: string -> bool, copies: string -> bool): string -> bool {
    src => Kept(src, isFile, copies)
  }

  /** The sandbox paths `save_uploaded_files` returns, in input order. */
  function Saved(tmpDir: string, paths: seq<string>, isFile: string -> bool, copies: string -> bool): seq<string> {
    CopiesOf(tmpDir, paths, KeptBy(isFile, copies))
  }

  /** `save_uploaded_files`; `isFile` is `os.path.isfile`, `copies(src)` says whether `copy2` succeeds. */
  method SaveUploadedFiles(tmpDir: string, paths: seq<string>, isFile: string -> bool, copies: string -> bool)
    returns (saved: seq<string>)
    ensures saved == Saved(tmpDir, paths, isFile, copies)
  {
    saved := [];
    var i := 0;
    while i < |paths|
      invariant 0 <= i <= |paths|
      invariant saved == Saved(tmpDir, paths[..i], isFile, copies)
    {
      var src := paths[i];
      ghost var piece := if Kept(src, isFile, copies) then [Join(tmpDir, Basename(src))] else [];
      assert paths[..i + 1][..i] == paths[..i];
      assert Saved(tmpDir, paths[..i + 1], isFile, copies) == Saved(tmpDir, paths[..i], isFile, copies) + piece;
      if !isFile(src) {
        assert saved + piece == saved;
      } else if !IsSupported(src) {
        assert saved + piece == saved;
      } else if !copies(src) {
        assert saved + piece == saved;
      } else {
        saved := saved + [Join(tmpDir, Basename(src))];
      }
      i := i + 1;
    }
    assert paths[..|paths|] == paths;
  }

  /** A path is saved exactly when some kept source has it as its sandbox copy. */
  lemma SavedMembership(tmpDir: string, paths: seq<string>, isFile: string -> bool, copies: string -> bool, f: string)
    ensures f in Saved(tmpDir, paths, isFile, copies) <==>
      exists i :: 0 <= i < |paths| && Kept(paths[i], isFile, copies) && f == Join(tmpDir, Basename(paths[i]))
  {
    var keep := KeptBy(isFile, copies);
    if f in Saved(tmpDir, paths, isFile, copies) {
      var i := CopyFrom(tmpDir, paths, keep, f);
      assert keep(paths[i]);
    }
    if exists i :: 0 <= i < |paths| && Kept(paths[i], isFile, copies) && f == Join(tmpDir, Basename(paths[i])) {
      var i :| 0 <= i < |paths| && Kept(paths[i], isFile, copies) && f == Join(tmpDir, Basename(paths[i]));
      assert keep(paths[i]);
      KeptIsCopied(tmpDir, paths, keep, i);
    }
  }

  /** The last source adds its sandbox copy when it is kept, and nothing otherwise. */
  lemma CopiesSnoc(tmpDir: string, paths: seq<string>, keep: string -> bool)
    requires paths != []
    ensures var last := paths[|paths| - 1];
      CopiesOf(tmpDir, paths, keep) == CopiesOf(tmpDir, paths[..|paths| - 1], keep)
        + (if keep(last) then [Join(tmpDir, Basename(last))] else [])
  {
  }

  /** Every copy is the sandbox copy of a kept source; `i` is its position. */
  lemma {:induction false} CopyFrom(tmpDir: string, paths: seq<string>, keep: string -> bool, f: string)
    returns (i: nat)
    requires f in CopiesOf(tmpDir, paths, keep)
    ensures i < |paths| && keep(paths[i]) && f == Join(tmpDir, Basename(paths[i]))
  {
    var n := |paths|;
    var front := paths[..n - 1];
    CopiesSnoc(tmpDir, paths, keep);
    if f in CopiesOf(tmpDir, front, keep) {
      i := CopyFrom(tmpDir, front, keep, f);
      assert paths[i] == front[i];
    } else {
      i := n - 1;
    }
  }

  /** The sandbox copy of every kept source is among the copies. */
  lemma {:induction false} KeptIsCopied(tmpDir: string, paths: seq<string>, keep: string -> bool, i: nat)
    requires i < |paths| && keep(paths[i])
    ensures Join(tmpDir, Basename(paths[i])) in CopiesOf(tmpDir, paths, keep)
  {
    var n := |paths|;
    var front := paths[..n - 1];
    CopiesSnoc(tmpDir, paths, keep);
    if i < n - 1 {
      assert front[i] == paths[i];
      KeptIsCopied(tmpDir, front, keep, i);
    }
  }

  /** Every saved copy sits directly in the sandbox under a supported name, so the directory scan
      of `build_temp_index` picks it up. */
  lemma SavedFilesAreIndexable(tmpDir: string, paths: seq<string>, isFile: string -> bool, copies: string -> bool, f: string)
    requires f in Saved(tmpDir, paths, isFile, copies)
    ensures IsSupported(Basename(f)) && f == Join(tmpDir, Basename(f))
  {
    SavedMembership(tmpDir, paths, isFile, copies, f);
    var i :| 0 <= i < |paths| && Kept(paths[i], isFile, copies) && f == Join(tmpDir, Basename(paths[i]));
    var src := paths[i];
    assert IsSupported(src);
    var name := Basename(src);
    SupportedBasename(src);
    BasenameOfJoin(tmpDir, name);
    assert Basename(f) == name;
  }

  /** One page of an upload: its text followed by a newline, or nothing when the text is empty. */
  function PageLine(p: Option<string>): string {
    if PageText(p) != [] then PageText(p) + "\n" else []
  }

  /** The accumulated text of an uploaded PDF, before trimming. */
  function UploadPagesText(pages: seq<Option<string>>): string {
    if pages == [] then [] else UploadPagesText(pages[..|pages| - 1]) + PageLine(pages[|pages| - 1])
  }

  /** The `text += extracted + "\n"` loop. */
  method AccumulatePages(pages: seq<Option<string>>) returns (text: string)
    ensures text == UploadPagesText(pages)
  {
    text := "";
    var i := 0;
    while i < |pages|
      invariant 0 <= i <= |pages|
      invariant text == UploadPagesText(pages[..i])
    {
      assert pages[..i + 1][..i] == pages[..i];
      var extracted := pages[i];
      if extracted.Some? && extracted.value != [] {
        text := text + extracted.value + "\n";
      } else {
        assert text + PageLine(pages[i]) == text;
      }
      i := i + 1;
    }
    assert pages[..|pages|] == pages;
  }

  /** The accumulated upload text is blank exactly when every page is blank or missing. */
  lemma {:induction false} UploadPagesBlank(pages: seq<Option<string>>)
    ensures IsBlank(UploadPagesText(pages)) <==> forall i :: 0 <= i < |pages| ==> IsBlank(PageText(pages[i]))
  {
    if pages != [] {
      var n := |pages|;
      var front, last := pages[..n - 1], pages[n - 1];
      UploadPagesBlank(front);
      AllBlankSplit(pages, front);
      BlankConcat(UploadPagesText(front), PageLine(last));
      PageLineBlank(last);
    }
  }

  lemma PageLineBlank(p: Option<string>)
    ensures IsBlank(PageLine(p)) <==> IsBlank(PageText(p))
  {
    BlankConcat(PageText(p), "\n");
    assert IsSpace('\n');
  }

  /** What `load_text_from_file` gives for `path`: dispatch on the lower-cased base name. */
  function LoadedFile(path: string, reader: string -> Option<seq<Option<string>>>, vision: string -> Option<string>): Result<Document, Error> {
    var filename := Basename(path);
    if IsPdfName(filename) then
      var text := match reader(path) case None => "" case Some(pages) => Strip(UploadPagesText(pages));
      Success(Document(text, filename, Some("upload")))
    else if IsUploadImage(filename) then
      Success(Document(vision(path).GetOr(""), filename, Some("upload")))
    else Failure(IncompatibleFormat(filename))
  }

  /** `load_text_from_file`; `reader(path)` is `None` when PyPDF2 raises, `vision(path)` is `None`
      when the vision call raises. */
  method LoadTextFromFile(path: string, reader: string -> Option<seq<Option<string>>>, vision: string -> Option<string>)
    returns (r: Result<Document, Error>)
    ensures r == LoadedFile(path, reader, vision)
  {
    var filename := Basename(path);
    if IsPdfName(filename) {
      var pages := reader(path);
      if pages.None? {
        return Success(Document("", filename, Some("upload")));
      }
      var text := AccumulatePages(pages.value);
      return Success(Document(Strip(text), filename, Some("upload")));
    } else if IsUploadImage(filename) {
      var text := vision(path);
      if text.None? {
        return Success(Document("", filename, Some("upload")));
      }
      return Success(Document(text.value, filename, Some("upload")));
    } else {
      return Failure(IncompatibleFormat(filename));
    }
  }

  /** Loading succeeds exactly for a supported base name and raises `ValueError` otherwise; every
      loaded document is an upload named by the base name of its path. */
  lemma LoadedFileDispatch(path: string, reader: string -> Option<seq<Option<string>>>, vision: string -> Option<string>)
    ensures var r := LoadedFile(path, reader, vision);
      (r.Success? <==> IsSupported(Basename(path)))
      && (r.Success? ==> r.value.source == Basename(path) && r.value.docType == Some("upload"))
      && (r.Failure? ==> r.error == IncompatibleFormat(Basename(path)))
  {
    SupportedIsPdfOrImage(Basename(path));
  }

  /** The trimmed text of an uploaded PDF is empty exactly when every page is blank or missing,
      and trimming it again changes nothing. */
  lemma TrimmedUploadText(pages: seq<Option<string>>)
    ensures var t := Strip(UploadPagesText(pages));
      Strip(t) == t && (t == [] <==> forall i :: 0 <= i < |pages| ==> IsBlank(PageText(pages[i])))
  {
    UploadPagesBlank(pages);
    StripOfBlank(UploadPagesText(pages), forall i :: 0 <= i < |pages| ==> IsBlank(PageText(pages[i])));
  }

  lemma StripOfBlank(u: string, allBlank: bool)
    requires IsBlank(u) <==> allBlank
    ensures Strip(Strip(u)) == Strip(u) && (Strip(u) == [] <==> allBlank)
  {
    StripIdempotent(u);
  }

  /** A directory entry the scan of `build_temp_index` loads. */
  predicate Picked(tmpDir: string, name: string, isFile: string -> bool) {
    isFile(Join(tmpDir, name)) && IsSupported(name)
  }

  /** The documents loaded from the sandbox entries `names`, in listing order; the first loader
      exception ends the scan. */
  function SandboxDocs(tmpDir: string, names: seq<string>, isFile: string -> bool,
                       reader: string -> Option<seq<Option<string>>>, vision: string -> Option<string>): Result<seq<Document>, Error> {
    if names == [] then Success([])
    else
      var last := names[|names| - 1];
      match SandboxDocs(tmpDir, names[..|names| - 1], isFile, reader, vision)
      case Failure(e) => Failure(e)
      case Success(ds) =>
        if !Picked(tmpDir, last, isFile) then Success(ds)
        else
          match LoadedFile(Join(tmpDir, last), reader, vision)
          case Failure(e) => Failure(e)
          case Success(d) => Success(ds + [d])
  }

  lemma {:induction false} SandboxFailurePersists(tmpDir: string, names: seq<string>, isFile: string -> bool,
                                                  reader: string -> Option<seq<Option<string>>>, vision: string -> Option<string>, k: nat)
    requires k <= |names|
    requires SandboxDocs(tmpDir, names[..k], isFile, reader, vision).Failure?
    ensures SandboxDocs(tmpDir, names, isFile, reader, vision) == SandboxDocs(tmpDir, names[..k], isFile, reader, vision)
    decreases |names|
  {
    if k == |names| {
      assert names[..k] == names;
    } else {
      var front := names[..|names| - 1];
      assert front[..k] == names[..k];
      SandboxFailurePersists(tmpDir, front, isFile, reader, vision, k);
    }
  }

  /** Directory entries never contain '/', so the scan's filter already rules out the
      `ValueError` branch: loading the sandbox cannot fail, and every document is an upload
      named by a supported entry of the listing. */
  lemma {:induction false} SandboxDocsWellFormed(tmpDir: string, names: seq<string>, isFile: string -> bool,
                                                 reader: string -> Option<seq<Option<string>>>, vision: string -> Option<string>)
    requires forall i :: 0 <= i < |names| ==> '/' !in names[i]
    ensures SandboxDocs(tmpDir, names, isFile, reader, vision).Success?
    ensures forall d :: d in SandboxDocs(tmpDir, names, isFile, reader, vision).value ==>
      d.docType == Some("upload") && d.source in names && IsSupported(d.source)
  {
    if names != [] {
      var n := |names|;
      var front, last := names[..n - 1], names[n - 1];
      assert forall i :: 0 <= i < n - 1 ==> front[i] == names[i];
      SandboxDocsWellFormed(tmpDir, front, isFile, reader, vision);
      if Picked(tmpDir, last, isFile) {
        BasenameOfJoin(tmpDir, last);
        LoadedFileDispatch(Join(tmpDir, last), reader, vision);
      }
    }
  }

  /** With '/'-free entries there is one document per picked entry: none exactly when no entry
      is a supported file. */
  lemma {:induction false} SandboxDocsCount(tmpDir: string, names: seq<string>, isFile: string -> bool,
                                            reader: string -> Option<seq<Option<string>>>, vision: string -> Option<string>)
    requires forall i :: 0 <= i < |names| ==> '/' !in names[i]
    ensures SandboxDocs(tmpDir, names, isFile, reader, vision).Success?
    ensures |SandboxDocs(tmpDir, names, isFile, reader, vision).value| <= |names|
    ensures SandboxDocs(tmpDir, names, isFile, reader, vision).value == [] <==>
      forall i :: 0 <= i < |names| ==> !Picked(tmpDir, names[i], isFile)
  {
    SandboxDocsWellFormed(tmpDir, names, isFile, reader, vision);
    if names != [] {
      var n := |names|;
      var front, last := names[..n - 1], names[n - 1];
      assert forall i :: 0 <= i < n - 1 ==> front[i] == names[i];
      SandboxDocsCount(tmpDir, front, isFile, reader, vision);
    }
  }

  /** What `build_temp_index` returns once the sandbox is loaded: `None` for no document, else
      the index over all chunks tagged with the shared timestamp, or the exception of
      `create_faiss_index`. */
  function TempIndexOutcome(docs: Result<seq<Document>, Error>, embed: string -> Option<Vector>, timestamp: int): Result<Option<Index>, Error> {
    match docs
    case Failure(e) => Failure(e)
    case Success(ds) =>
      if ds == [] then Success(None)
      else
        var chunks := AllChunks(ds);
        match CreateIndex(EmbedTexts(chunks, embed), chunks, AllMetas(ds, UploadTags(timestamp)))
        case Failure(e) => Failure(e)
        case Success(index) => Success(Some(index))
  }

  /** The chunk/metadata loop of `build_temp_index`: documents with empty text are skipped, which
      is the same as letting them contribute their (empty) chunk list. */
  method AssembleUploadChunks(docs: seq<Document>, timestamp: int) returns (chunks: seq<string>, metadatas: seq<Metadata>)
    ensures chunks == AllChunks(docs)
    ensures metadatas == AllMetas(docs, UploadTags(timestamp))
  {
    chunks, metadatas := [], [];
    var i := 0;
    while i < |docs|
      invariant 0 <= i <= |docs|
      invariant chunks == AllChunks(docs[..i])
      invariant metadatas == AllMetas(docs[..i], UploadTags(timestamp))
    {
      var doc := docs[i];
      assert docs[..i + 1][..i] == docs[..i];
      if doc.text == [] {
        assert chunks + DocChunks(doc) == chunks;
        assert metadatas + TagAll(UploadTags(timestamp), doc, DocChunks(doc)) == metadatas;
        i := i + 1;
        continue;
      }
      var cs := ChunkText(doc.text, DefaultChunkSize, DefaultChunkOverlap);
      ghost var before, metasBefore := chunks, metadatas;
      chunks := chunks + cs;
      var j := 0;
      while j < |cs|
        invariant 0 <= j <= |cs|
        invariant metadatas == metasBefore + TagAll(UploadTags(timestamp), doc, cs[..j])
      {
        assert cs[..j + 1] == cs[..j] + [cs[j]];
        assert TagAll(UploadTags(timestamp), doc, cs[..j + 1]) == TagAll(UploadTags(timestamp), doc, cs[..j]) + [Tag(UploadTags(timestamp), doc, cs[j])];
        metadatas := metadatas + [Metadata(doc.source, doc.docType, Some(timestamp), Some(Prefix(cs[j], PreviewLength)))];
        j := j + 1;
      }
      assert cs[..|cs|] == cs;
      i := i + 1;
    }
    assert docs[..|docs|] == docs;
  }

  /** `build_temp_index`; `listing` is `None` when the sandbox is not a directory and `timestamp`
      is the `int(time.time())` read once for the whole index. */
  method BuildTempIndex(tmpDir: string, listing: Option<seq<string>>, isFile: string -> bool,
                        reader: string -> Option<seq<Option<string>>>, vision: string -> Option<string>,
                        embed: string -> Option<Vector>, timestamp: int)
    returns (r: Result<Option<Index>, Error>)
    ensures listing.None? ==> r == Success(None)
    ensures listing.Some? ==> r == TempIndexOutcome(SandboxDocs(tmpDir, listing.value, isFile, reader, vision), embed, timestamp)
  {
    if listing.None? {
      return Success(None);
    }
    var names := listing.value;
    var docs: seq<Document> := [];
    var i := 0;
    while i < |names|
      invariant 0 <= i <= |names|
      invariant SandboxDocs(tmpDir, names[..i], isFile, reader, vision) == Success(docs)
    {
      var fn := names[i];
      var path := Join(tmpDir, fn);
      assert names[..i + 1][..i] == names[..i];
      if isFile(path) && IsSupported(fn) {
        var doc := LoadTextFromFile(path, reader, vision);
        if doc.Failure? {
          SandboxFailurePersists(tmpDir, names, isFile, reader, vision, i + 1);
          return Failure(doc.error);
        }
        docs := docs + [doc.value];
      }
      i := i + 1;
    }
    assert names[..|names|] == names;
    if docs == [] {
      return Success(None);
    }
    var chunks, metadatas := AssembleUploadChunks(docs, timestamp);
    var vectors := EmbedTexts(chunks, embed);
    var index := CreateIndex(vectors, chunks, metadatas);
    if index.Failure? {
      return Failure(index.error);
    }
    r := Success(Some(index.value));
  }

  /** Documents were found but all of them are empty: there is nothing to embed and index
      creation raises. */
  lemma AllEmptyRaises(docs: seq<Document>, embed: string -> Option<Vector>, timestamp: int)
    requires docs != []
    requires forall j :: 0 <= j < |docs| ==> docs[j].text == []
    ensures TempIndexOutcome(Success(docs), embed, timestamp) == Failure(NoVectors)
  {
    NoChunksIffAllEmpty(docs);
  }

  /** Each chunk of the temporary index carries the source and type of a loaded document, the
      shared timestamp and its first 100 characters. */
  lemma UploadMetadataFields(docs: seq<Document>, timestamp: int, p: nat)
    requires p < |AllChunks(docs)|
    ensures p < |AllMetas(docs, UploadTags(timestamp))|
    ensures var m := AllMetas(docs, UploadTags(timestamp))[p];
      m.updatedAt == Some(timestamp) && m.preview == Some(Prefix(AllChunks(docs)[p], PreviewLength))
      && exists j :: 0 <= j < |docs| && m.source == docs[j].source && m.docType == docs[j].docType
  {
    MetadataDescribesChunk(docs, UploadTags(timestamp), p);
  }
}
