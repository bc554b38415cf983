/**
 * `extract_skills_from_text` as a whole, and the handling of an upload:
 * the text is extracted according to the kind of file, and a non-empty
 * text is analysed.
 */
module Analysis {
  import opened Wrappers
  import opened Chars
  import opened Vocabulary
  import opened SkillScan
  import opened Experience
  import opened DocumentText

  /** `extract_skills_from_text(text)`: the skills of the vocabulary found in
      the upper-cased text, and the experience estimate read from it. */
  method ExtractSkillsFromText(text: string) returns (found: seq<string>, years: nat)
    ensures found == SkillsIn(TechSkills, Upper(text))
    ensures IsLargestCapture(Upper(text), years)
  {
    var t := Upper(text);
    found := ExtractSkills(TechSkills, t);
    years := EstimateExperience(t);
  }

  /** An uploaded file, by its declared type.  A text file is given already
      decoded. */
  datatype Upload = PdfUpload(pdf: PdfFile) | DocxUpload(docx: DocxFile) | TextUpload(decoded: string)

  /** The text extracted from an upload. */
  function UploadText(upload: Upload): string {
    match upload
    case PdfUpload(pdf) => PdfText(pdf)
    case DocxUpload(docx) => DocxText(docx)
    case TextUpload(decoded) => decoded
  }

  /** What the page keeps of an analysed résumé. */
  datatype ResumeAnalysis = ResumeAnalysis(text: string, skills: seq<string>, years: nat)

  /** Extracts the text of an upload and, when it is not empty, analyses it. */
  method ProcessUpload(upload: Upload) returns (result: Option<ResumeAnalysis>)
    ensures result.None? <==> UploadText(upload) == ""
    ensures result.Some? ==> result.value.text == UploadText(upload)
    ensures result.Some? ==> result.value.skills == SkillsIn(TechSkills, Upper(UploadText(upload)))
    ensures result.Some? ==> IsLargestCapture(Upper(UploadText(upload)), result.value.years)
  {
    var text: string;
    match upload {
      case PdfUpload(pdf) =>
        var failed;
        text, failed := ExtractTextFromPdf(pdf);
      case DocxUpload(docx) =>
        var failed;
        text, failed := ExtractTextFromDocx(docx);
      case TextUpload(decoded) =>
        text := decoded;
    }
    if text == "" {
      return None;
    }
    var skills, years := ExtractSkillsFromText(text);
    return Some(ResumeAnalysis(text, skills, years));
  }

  /** A readable DOCX file with at least one paragraph is always analysed,
      even when all its paragraphs are empty, because every paragraph adds a
      line feed. */
  lemma DocxWithParagraphsIsAnalysed(paragraphs: seq<string>)
    requires |paragraphs| > 0
    ensures UploadText(DocxUpload(DocxParagraphs(paragraphs))) != ""
  {
    JoinParagraphsLength(paragraphs);
  }
}
