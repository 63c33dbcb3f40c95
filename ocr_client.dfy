/** `OCRClient.extract_text` (`src/ocr.py`): a PDF is OCR'd page by page and
    the non-empty pages are labelled with their page numbers and joined; any
    other file is OCR'd as one image. Rendering and the OCR request are given
    as their outcome per page. */
module OcrClient {
  import opened Wrappers
  import opened Text

  /** What one `_extract_from_image` call did: returned content (null content
      is the empty text), or raised. */
  datatype PageResult = PageText(text: string) | PageRaised

  datatype OcrError = EmptyPdf | RequestFailed

  /** `file_path.lower().endswith(".pdf")` */
  predicate IsPdfPath(path: string) {
    EndsWith(Lower(path), ".pdf")
  }

  /** The section for page number `n` (1-based): "[Page n]\n" and its text. */
  function Section(n: nat, text: string): string {
    "[Page " + NatToString(n) + "]\n" + text
  }

  /** The sections for the pages, in page order: one per page whose text is
      non-empty, numbered by the page's own position. */
  function Sections(pages: seq<PageResult>): seq<string> {
    if pages == [] then []
    else
      var last := pages[|pages| - 1];
      Sections(pages[..|pages| - 1])
        + (if last.PageText? && last.text != "" then [Section(|pages|, last.text)] else [])
  }

  /** The positions of the pages that got a section, in order. */
  function Labelled(pages: seq<PageResult>): (r: seq<nat>)
    ensures forall k :: 0 <= k < |r| ==> r[k] < |pages|
  {
    if pages == [] then []
    else
      var last := pages[|pages| - 1];
      Labelled(pages[..|pages| - 1]) + (if last.PageText? && last.text != "" then [|pages| - 1] else [])
  }

  predicate Increasing(c: seq<nat>) {
    forall a, b :: 0 <= a < b < |c| ==> c[a] < c[b]
  }

  /** Section k is page `idx[k]` under its original 1-based number, and the
      labelled positions increase. */
  predicate LabelsMatch(pages: seq<PageResult>, sections: seq<string>, idx: seq<nat>) {
    |sections| == |idx| && Increasing(idx)
    && forall k :: 0 <= k < |idx| ==>
         idx[k] < |pages| && pages[idx[k]].PageText? && pages[idx[k]].text != ""
         && sections[k] == Section(idx[k] + 1, pages[idx[k]].text)
  }

  /** Every page with non-empty text is labelled. */
  predicate NoneDropped(pages: seq<PageResult>, idx: seq<nat>) {
    forall i :: 0 <= i < |pages| && pages[i].PageText? && pages[i].text != "" ==> i in idx
  }

  /** Section k is the k-th page with text, under its original page number,
      so a dropped page leaves a gap in the numbering. */
  lemma {:induction false} SectionsLabelled(pages: seq<PageResult>)
    ensures LabelsMatch(pages, Sections(pages), Labelled(pages))
  {
    if pages != [] {
      var init := pages[..|pages| - 1];
      SectionsLabelled(init);
      var last := pages[|pages| - 1];
      var s0, l0 := Sections(init), Labelled(init);
      var s, l := Sections(pages), Labelled(pages);
      assert forall i :: 0 <= i < |init| ==> init[i] == pages[i];
      if last.PageText? && last.text != "" {
        assert s == s0 + [Section(|pages|, last.text)] && l == l0 + [|pages| - 1];
        forall k | 0 <= k < |l| ensures l[k] < |pages| && pages[l[k]].PageText? && pages[l[k]].text != ""
                                   && s[k] == Section(l[k] + 1, pages[l[k]].text) {
          if k < |l0| { assert l[k] == l0[k] && s[k] == s0[k]; }
        }
        forall a, b | 0 <= a < b < |l| ensures l[a] < l[b] {
          assert l[a] == l0[a];
          if b < |l0| { assert l[b] == l0[b]; }
        }
      } else {
        assert s == s0 && l == l0;
      }
    }
  }

  /** Only pages with empty text are left out. */
  lemma {:induction false} SectionsComplete(pages: seq<PageResult>)
    ensures NoneDropped(pages, Labelled(pages))
  {
    if pages != [] {
      var init := pages[..|pages| - 1];
      SectionsComplete(init);
      var l0, l := Labelled(init), Labelled(pages);
      assert forall x :: x in l0 ==> x in l;
      forall i | 0 <= i < |pages| && pages[i].PageText? && pages[i].text != "" ensures i in l {
        if i < |init| {
          assert init[i] == pages[i];
        } else {
          assert l[|l| - 1] == i;
        }
      }
    }
  }

  /** A PDF whose pages all came back empty gives the empty text. */
  lemma {:induction false} NoTextNoSections(pages: seq<PageResult>)
    requires forall i :: 0 <= i < |pages| ==> pages[i] == PageText("")
    ensures Sections(pages) == []
    ensures Join("\n\n", Sections(pages)) == ""
  {
    if pages != [] {
      NoTextNoSections(pages[..|pages| - 1]);
    }
  }

  /** Some page's request raised. */
  predicate AnyRaised(pages: seq<PageResult>) {
    exists i :: 0 <= i < |pages| && pages[i].PageRaised?
  }

  /** The pages' OCR text assembled as `extract_text` returns it for a PDF. */
  function PdfText(pages: seq<PageResult>): Result<string, OcrError> {
    if pages == [] then Err(EmptyPdf)
    else if AnyRaised(pages) then Err(RequestFailed)
    else Ok(Join("\n\n", Sections(pages)))
  }

  /** `extract_text(file_path)` given the OCR outcome of each rendered page of
      a PDF, or of the file read as a single image. */
  method ExtractText(path: string, pages: seq<PageResult>, image: PageResult) returns (r: Result<string, OcrError>)
    ensures IsPdfPath(path) ==> r == PdfText(pages)
    ensures !IsPdfPath(path) && image.PageText? ==> r == Ok(image.text)
    ensures !IsPdfPath(path) && image.PageRaised? ==> r == Err(RequestFailed)
  {
    if !IsPdfPath(path) {
      return if image.PageText? then Ok(image.text) else Err(RequestFailed);
    }
    if pages == [] {
      return Err(EmptyPdf);
    }
    var allText: seq<string> := [];
    var i := 0;
    while i < |pages|
      invariant 0 <= i <= |pages|
      invariant allText == Sections(pages[..i])
      invariant forall j :: 0 <= j < i ==> pages[j].PageText?
    {
      match pages[i]
      case PageRaised =>
        return Err(RequestFailed);
      case PageText(text) =>
        assert pages[..i + 1][..i] == pages[..i];
        if text != "" {
          allText := allText + [Section(i + 1, text)];
        }
      i := i + 1;
    }
    assert pages[..i] == pages;
    r := Ok(Join("\n\n", allText));
  }
}
