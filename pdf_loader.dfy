/** The PDF directory loader of app/rag/pdf_loader.py. The PDF library is abstract: `reader(path)`
    gives the page texts of the file at `path` as PyPDF2 extracts them (`None` for a page without
    text), or `None` when reading the file raises. */
module PdfLoader {
  import opened Wrappers
  import opened Text
  import opened Corpus

  /** `page.extract_text() or ""`. */
  function PageText(p: Option<string>): string {
    p.GetOr("")
  }

  /** The page texts, concatenated with no separator. */
  function ConcatPages(pages: seq<Option<string>>): string {
    if pages == [] then [] else ConcatPages(pages[..|pages| - 1]) + PageText(pages[|pages| - 1])
  }

  /** The `text += page.extract_text() or ""` loop. */
  method JoinPages(pages: seq<Option<string>>) returns (text: string)
    ensures text == ConcatPages(pages)
  {
    text := "";
    var i := 0;
    while i < |pages|
      invariant 0 <= i <= |pages|
      invariant text == ConcatPages(pages[..i])
    {
      assert pages[..i + 1][..i] == pages[..i];
      text := text + PageText(pages[i]);
      i := i + 1;
    }
    assert pages[..|pages|] == pages;
  }

  /** The concatenation is blank exactly when every page is blank (or missing). */
  lemma {:induction false} BlankPages(pages: seq<Option<string>>)
    ensures IsBlank(ConcatPages(pages)) <==> forall i :: 0 <= i < |pages| ==> IsBlank(PageText(pages[i]))
  {
    if pages != [] {
      var n := |pages|;
      var front := pages[..n - 1];
      BlankPages(front);
      AllBlankSplit(pages, front);
      BlankConcat(ConcatPages(front), PageText(pages[n - 1]));
    }
  }

  /** Every page is blank exactly when every page of `front`, all but the last, is and the last is. */
  lemma AllBlankSplit(pages: seq<Option<string>>, front: seq<Option<string>>)
    requires pages != [] && front == pages[..|pages| - 1]
    ensures (forall i :: 0 <= i < |pages| ==> IsBlank(PageText(pages[i]))) <==>
      (forall i :: 0 <= i < |front| ==> IsBlank(PageText(front[i]))) && IsBlank(PageText(pages[|pages| - 1]))
  {
    assert forall i :: 0 <= i < |front| ==> front[i] == pages[i];
  }

  predicate IsPdfName(name: string) {
    EndsWith(Lower(name), ".pdf")
  }

  /** The document one PDF contributes: none when its trimmed text is empty. */
  function PdfDocuments(name: string, pages: seq<Option<string>>): seq<Document> {
    var text := Strip(ConcatPages(pages));
    if text == [] then [] else [Document(text, name, None)]
  }

  /** Puts `docs` in front of the documents of a successful run; a failure stays a failure. */
  function Prepend(docs: seq<Document>, r: Result<seq<Document>, Error>): Result<seq<Document>, Error> {
    match r
    case Success(ds) => Success(docs + ds)
    case Failure(e) => Failure(e)
  }

  lemma PrependNothing(r: Result<seq<Document>, Error>)
    ensures Prepend([], r) == r
  {
    if r.Success? { assert [] + r.value == r.value; }
  }

  /** What one directory entry contributes: nothing for a non-PDF name, its document (if any) for
      a readable PDF, the exception for an unreadable one. */
  function LoadedEntry(dir: string, name: string, reader: string -> Option<seq<Option<string>>>): Result<seq<Document>, Error> {
    if !IsPdfName(name) then Success([])
    else
      match reader(Join(dir, name))
      case None => Failure(PdfUnreadable(Join(dir, name)))
      case Some(pages) => Success(PdfDocuments(name, pages))
  }

  /** Runs one entry, then the rest: an exception stops the scan. */
  function Then(first: Result<seq<Document>, Error>, rest: Result<seq<Document>, Error>): Result<seq<Document>, Error> {
    match first
    case Failure(e) => Failure(e)
    case Success(ds) => Prepend(ds, rest)
  }

  lemma PrependThen(docs: seq<Document>, first: Result<seq<Document>, Error>, rest: Result<seq<Document>, Error>)
    ensures first.Failure? ==> Prepend(docs, Then(first, rest)) == Failure(first.error)
    ensures first.Success? ==> Prepend(docs, Then(first, rest)) == Prepend(docs + first.value, rest)
  {
    if first.Success? && rest.Success? {
      assert docs + (first.value + rest.value) == (docs + first.value) + rest.value;
    }
  }

  /** What `load_all_pdfs_text` returns for directory entries `names`, in listing order; the first
      unreadable PDF raises. */
  function LoadedPdfs(dir: string, names: seq<string>, reader: string -> Option<seq<Option<string>>>): Result<seq<Document>, Error> {
    if names == [] then Success([]) else Then(LoadedEntry(dir, names[0], reader), LoadedPdfs(dir, names[1..], reader))
  }

  /** `load_all_pdfs_text(pdf_dir)`; `listing` is `None` when the directory does not exist. */
  method LoadAllPdfsText(dir: string, listing: Option<seq<string>>, reader: string -> Option<seq<Option<string>>>)
    returns (r: Result<seq<Document>, Error>)
    ensures listing.None? ==> r == Success([])
    ensures listing.Some? ==> r == LoadedPdfs(dir, listing.value, reader)
  {
    if listing.None? {
      return Success([]);
    }
    var names := listing.value;
    var docs: seq<Document> := [];
    var i := 0;
    assert names[0..] == names;
    PrependNothing(LoadedPdfs(dir, names, reader));
    while i < |names|
      invariant 0 <= i <= |names|
      invariant LoadedPdfs(dir, names, reader) == Prepend(docs, LoadedPdfs(dir, names[i..], reader))
    {
      var name := names[i];
      assert names[i..][1..] == names[i + 1..];
      ghost var one := LoadedEntry(dir, name, reader);
      PrependThen(docs, one, LoadedPdfs(dir, names[i + 1..], reader));
      if IsPdfName(name) {
        var path := Join(dir, name);
        var pages := reader(path);
        if pages.None? {
          return Failure(PdfUnreadable(path));
        }
        var text := JoinPages(pages.value);
        if Strip(text) != [] {
          docs := docs + [Document(Strip(text), name, None)];
        } else {
          assert docs + [] == docs;
        }
      } else {
        assert docs + [] == docs;
      }
      i := i + 1;
    }
    assert names[i..] == [] && docs + [] == docs;
    r := Success(docs);
  }

  /** A readable PDF gives a document exactly when some page has a non-whitespace character. */
  lemma PdfEmittedIff(name: string, pages: seq<Option<string>>)
    ensures |PdfDocuments(name, pages)| <= 1
    ensures PdfDocuments(name, pages) != [] <==> exists i :: 0 <= i < |pages| && !IsBlank(PageText(pages[i]))
  {
    BlankPages(pages);
  }

  /** Every loaded document comes from a `.pdf` entry of the listing, is named by that bare entry,
      and has a non-empty text with no surrounding whitespace. */
  lemma {:induction false} LoadedPdfsWellFormed(dir: string, names: seq<string>, reader: string -> Option<seq<Option<string>>>)
    ensures LoadedPdfs(dir, names, reader).Success? ==>
      forall d :: d in LoadedPdfs(dir, names, reader).value ==>
        d.source in names && IsPdfName(d.source) && d.docType == None
        && d.text != [] && Strip(d.text) == d.text
  {
    if names != [] {
      LoadedPdfsWellFormed(dir, names[1..], reader);
      if IsPdfName(names[0]) {
        match reader(Join(dir, names[0]))
        case Some(pages) => StripIdempotent(ConcatPages(pages));
        case None =>
      }
    }
  }
}
