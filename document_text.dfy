/**
 * Text extraction from uploaded documents (`extract_text_from_pdf` and
 * `extract_text_from_docx`).  The document libraries are not modelled: a
 * PDF is given as what its pages yield, a DOCX file as its paragraphs, and
 * a document the library cannot open as a distinct value.
 *
 * An error ends the extraction but keeps the text gathered before it: the
 * functions return whatever `text` holds when the exception is caught.
 */
module DocumentText {

  /** What reading one PDF page yields: its text, no text (`None`), or an error. */
  datatype PdfPage = PageText(text: string) | NoText | PageFault

  /** A PDF upload: one the library cannot open, or its pages in order. */
  datatype PdfFile = UnreadablePdf | PdfPages(pages: seq<PdfPage>)

  /** A DOCX upload: one the library cannot open, or its paragraphs in order. */
  datatype DocxFile = UnreadableDocx | DocxParagraphs(paragraphs: seq<string>)

  /** `page.extract_text() or ""` for a page that does not fail. */
  function PageString(page: PdfPage): string {
    if page.PageText? then page.text else ""
  }

  /** The texts of the pages, one after the other, with no separator. */
  function JoinPages(pages: seq<PdfPage>): string
    decreases |pages|
  {
    if pages == [] then "" else JoinPages(pages[..|pages| - 1]) + PageString(pages[|pages| - 1])
  }

  /** The index of the first page whose reading fails, or the number of pages. */
  function FirstFault(pages: seq<PdfPage>): (k: nat)
    ensures k <= |pages|
    ensures forall j :: 0 <= j < k ==> !pages[j].PageFault?
    ensures k < |pages| ==> pages[k].PageFault?
    decreases |pages|
  {
    if pages == [] then 0
    else if pages[0].PageFault? then 0
    else 1 + FirstFault(pages[1..])
  }

  /** The first failing page is the one before which no page fails. */
  lemma {:induction false} FirstFaultIs(pages: seq<PdfPage>, k: nat)
    requires k <= |pages|
    requires forall j :: 0 <= j < k ==> !pages[j].PageFault?
    requires k < |pages| ==> pages[k].PageFault?
    ensures FirstFault(pages) == k
    decreases |pages|
  {
    if k > 0 {
      assert forall j :: 0 <= j < k - 1 ==> pages[1..][j] == pages[j + 1];
      FirstFaultIs(pages[1..], k - 1);
    }
  }

  /** The text `extract_text_from_pdf` returns. */
  function PdfText(file: PdfFile): string {
    match file
    case UnreadablePdf => ""
    case PdfPages(pages) => JoinPages(pages[..FirstFault(pages)])
  }

  /** `extract_text_from_pdf`: appends each page's text in page order; an
      error reported by the library stops the loop (`failed` stands for the
      error message shown to the user). */
  method ExtractTextFromPdf(file: PdfFile) returns (text: string, failed: bool)
    ensures text == PdfText(file)
    ensures failed <==> file.UnreadablePdf? || FirstFault(file.pages) < |file.pages|
  {
    text, failed := "", false;
    if file.UnreadablePdf? {
      failed := true;
      return;
    }
    var pages := file.pages;
    var k := 0;
    while k < |pages|
      invariant k <= |pages|
      invariant forall j :: 0 <= j < k ==> !pages[j].PageFault?
      invariant text == JoinPages(pages[..k])
    {
      if pages[k].PageFault? {
        FirstFaultIs(pages, k);
        failed := true;
        return;
      }
      assert pages[..k + 1][..k] == pages[..k];
      text := text + PageString(pages[k]);
      k := k + 1;
    }
    assert pages[..k] == pages;
    FirstFaultIs(pages, k);
  }

  /** The text of consecutive runs of pages is the concatenation of their
      texts: nothing is inserted at a page break, so the last word of a page
      and the first word of the next one meet with no space between them. */
  lemma {:induction false} JoinPagesConcat(a: seq<PdfPage>, b: seq<PdfPage>)
    ensures JoinPages(a + b) == JoinPages(a) + JoinPages(b)
    decreases |b|
  {
    if b == [] {
      assert a + b == a;
    } else {
      assert (a + b)[..|a + b| - 1] == a + b[..|b| - 1];
      JoinPagesConcat(a, b[..|b| - 1]);
    }
  }

  /** The text of a PDF is a prefix of what all its readable pages hold:
      a failing page loses its own text and that of every later page. */
  lemma PdfTextIsPrefix(pages: seq<PdfPage>)
    ensures PdfText(PdfPages(pages)) <= JoinPages(pages)
  {
    var k := FirstFault(pages);
    var before, after := pages[..k], pages[k..];
    assert pages == before + after;
    JoinPagesConcat(before, after);
    var t := JoinPages(before);
    assert JoinPages(pages) == t + JoinPages(after);
    PrefixOfConcat(t, JoinPages(after));
    assert PdfText(PdfPages(pages)) == t;
  }

  lemma PrefixOfConcat(a: string, b: string)
    ensures a <= a + b
  {
    assert (a + b)[..|a|] == a;
  }

  /** Each paragraph's text followed by a line feed, one after the other. */
  function JoinParagraphs(paragraphs: seq<string>): string
    decreases |paragraphs|
  {
    if paragraphs == [] then ""
    else JoinParagraphs(paragraphs[..|paragraphs| - 1]) + paragraphs[|paragraphs| - 1] + "\n"
  }

  /** The text `extract_text_from_docx` returns. */
  function DocxText(file: DocxFile): string {
    match file
    case UnreadableDocx => ""
    case DocxParagraphs(paragraphs) => JoinParagraphs(paragraphs)
  }

  /** `extract_text_from_docx`: appends each paragraph's text and a line feed. */
  method ExtractTextFromDocx(file: DocxFile) returns (text: string, failed: bool)
    ensures text == DocxText(file)
    ensures failed <==> file.UnreadableDocx?
  {
    text, failed := "", false;
    if file.UnreadableDocx? {
      failed := true;
      return;
    }
    var paragraphs := file.paragraphs;
    for k := 0 to |paragraphs|
      invariant text == JoinParagraphs(paragraphs[..k])
    {
      assert paragraphs[..k + 1][..k] == paragraphs[..k];
      text := text + paragraphs[k] + "\n";
    }
    assert paragraphs[..|paragraphs|] == paragraphs;
  }

  /** The total length of a list of strings. */
  function TotalLength(ss: seq<string>): nat
    decreases |ss|
  {
    if ss == [] then 0 else TotalLength(ss[..|ss| - 1]) + |ss[|ss| - 1]|
  }

  /** The DOCX text holds every paragraph's characters and one line feed per
      paragraph, so a readable document with at least one paragraph never
      yields the empty text, even when every paragraph is empty. */
  lemma {:induction false} JoinParagraphsLength(paragraphs: seq<string>)
    ensures |JoinParagraphs(paragraphs)| == TotalLength(paragraphs) + |paragraphs|
    decreases |paragraphs|
  {
    if paragraphs != [] {
      JoinParagraphsLength(paragraphs[..|paragraphs| - 1]);
    }
  }

  /** The text of consecutive runs of paragraphs is the concatenation of their texts. */
  lemma {:induction false} JoinParagraphsConcat(a: seq<string>, b: seq<string>)
    ensures JoinParagraphs(a + b) == JoinParagraphs(a) + JoinParagraphs(b)
    decreases |b|
  {
    if b == [] {
      assert a + b == a;
    } else {
      assert (a + b)[..|a + b| - 1] == a + b[..|b| - 1];
      JoinParagraphsConcat(a, b[..|b| - 1]);
    }
  }
}
