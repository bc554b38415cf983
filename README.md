# Résumé screening: the scoring pipeline, modelled and proved in Dafny

The small Streamlit application in `app.py` screens a résumé against a job
profile. This project models its screening pipeline:

- **Text extraction** from an upload. A PDF is read page by page. A DOCX file
  is read paragraph by paragraph, each paragraph followed by a line feed. A
  text file is decoded from UTF-8; its decoding failure is not modelled. A non-empty text is then analysed.
- **Skill extraction.** The text is upper-cased. Every entry of the fixed
  `TECH_SKILLS` vocabulary is searched for as a literal between two
  regular-expression `\b` boundaries. The hits are kept in vocabulary order.
- **Experience estimation.** The estimate is the largest integer captured by
  `(\d+)\+?\s*(?:years?|yrs?)\s*(?:of\s*)?(?:experience|exp)`, or 0 when
  nothing is captured.
- **Match scoring** (`calculate_skill_match`). Required and preferred skills
  are compared with the candidate's skills by upper-case membership. Each list
  gets a percentage, which is 0 for an empty list. The overall score is 0.7 ×
  required + 0.3 × preferred.
- **Reports** the page derives from a match:
  - the missing required and missing preferred skills;
  - the matched/missing status table;
  - per-category counts, keeping only the positive ones;
  - the experience check;
  - the colour band of the overall score.

Modules, one per part of the pipeline:

- `Chars` has ASCII character classes and upper-casing.
- `Vocabulary` has the skill vocabulary, the four job profiles and the chart categories, copied from the source.
- `SkillScan`, `Experience`, `Scoring`, `Reports` and `DocumentText` model the parts above.
- `Analysis` puts them together.
- `Catalog` proves facts about the actual catalogue of profiles.
- `Sequences` and `Wrappers` are generic helpers.

The source's loops are modelled as methods with loops:

- the vocabulary loop;
- `re.search` over the positions of the text;
- the scan for digit runs;
- the status-table and category-count loops;
- the `text +=` loops of the two extractors.

Each method is proved against a specification function or predicate. The
source's comprehensions and arithmetic become functions.

Two points about the code as written, both modelled as written:

- **`\b` after `C++` and `C#`.** `\b` holds only where exactly one neighbour
  is a word character, and a position outside the text counts as a non-word
  character. So "C++" and "C#" are found only when a word character follows
  them: "C++11" yes, "C++ and Java" no, and never at the end of the text
  (`SkillScan.NonWordEndingSkillMatch`,
  `SkillScan.PlusPlusAndSharpNotFoundBeforeSpaceOrEnd`).
- **PDF read errors.** When reading a PDF fails part-way, `extract_text_from_pdf`
  catches the exception and returns the text of the pages read so far, not an
  empty string. The model follows the code (`DocumentText.PdfText`).

Other ways the code differs from a description in terms of sets:

- Skill lists are Python lists, so they are modelled as sequences. Duplicates and declared order are kept.
- A skill listed both as required and as preferred is labelled "Required" in both of its status-table rows.
- Pages are joined with no separator.

How captures are modelled:

- After `(\d+)`, the pattern continues with `+`, white space or `Y`, never a digit.
- So every `re.findall` capture is a maximal run of digits, immediately followed by a match of the rest of the pattern.
- `(\d+)` always stops at the end of the digit run it starts in. A shorter capture would leave a digit where the rest of the pattern must begin.
- An attempt at the first digit of a run therefore succeeds exactly when the rest of the pattern matches at the end of the run.
- When that attempt fails, every later start inside the same run fails as well. Its `(\d+)` must stop at the same end, where the rest of the pattern has just failed.
- When that attempt succeeds, no capture can start inside its match. The digits of the match are the whole run, and the part after them contains no digit.
- A capture therefore never starts in the middle of a run.
- `Experience.IsCapture` states captures this way. `Experience.GreedySuffixCorrect` proves that the rest of the pattern, matched greedily without backtracking, accepts exactly the positions where it matches with backtracking.

## Model

| member | source | states |
|---|---|---|
| Chars.UpperKeepsClasses | app.py:256 | the upper-cased text holds no ASCII lower-case letter, and at every position a character is a word character, a digit or white space exactly when the original one is, so `\b`, `\d` and `\s` behave alike on both |
| Chars.UpperIdempotent | app.py:256 | upper-casing an upper-cased text changes nothing |
| Scoring.UpperAllMembers | app.py:274-276 | a name is among the upper-cased skills exactly when it is the upper-cased form of one of the skills |
| SkillScan.SearchWholeWord | app.py:261-262 | `re.search` of `\b p \b`: a reported position is a whole-word match at which no earlier position matches; nothing is reported exactly when no position matches |
| SkillScan.ExtractSkills | app.py:257-263 | the loop appends exactly the vocabulary entries whose upper-cased form is found between boundaries, in vocabulary order |
| SkillScan.SkillsInMembers | app.py:259-263 | an entry is found if and only if it is in the vocabulary and its upper-cased form occurs between two boundaries |
| SkillScan.SkillsInOrdered | app.py:257-263 | the skills found are a subsequence of the vocabulary |
| SkillScan.SkillsInDistinct | app.py:257-263 | a duplicate-free vocabulary yields a duplicate-free result |
| SkillScan.SkillsInDependsOnlyOnOccurrence | app.py:259-263 | two texts in which the same entries occur give the same result, whatever the order or repetition of mentions |
| SkillScan.WordSkillMatch | app.py:261 | for a name that starts and ends with word characters, a match is an occurrence with no word character just before or just after it |
| SkillScan.NonWordEndingSkillMatch | app.py:261 | for a name that ends with a non-word character, a match needs a word character right after it |
| SkillScan.JavaNotInJavaScript | app.py:261 | "JAVA" is not found inside "JAVASCRIPT" |
| SkillScan.JavaInJava17 | app.py:261 | "JAVA" is found in "JAVA 17" |
| SkillScan.NoBoundaryInsideWord | app.py:261 | no boundary lies strictly inside a run of word characters |
| SkillScan.PlusPlusAndSharpNotFoundBeforeSpaceOrEnd | app.py:261 | neither "C++" nor "C#" is found in "C++ AND C#" |
| SkillScan.PlusPlusFoundBeforeWordChar | app.py:261 | "C++" is found in "C++11" |
| Experience.SkipSpaces | app.py:266 | greedy `\s*` ends at the first position that is not white space, and only white space lies before it |
| Experience.GreedyTailCorrect | app.py:266 | greedy matching of `\s*(?:of\s*)?(?:experience\|exp)` accepts exactly where the pattern matches |
| Experience.GreedyYearTailCorrect | app.py:266 | greedy matching of `\s*(?:years?\|yrs?)` plus the rest accepts exactly where the pattern matches |
| Experience.GreedySuffixCorrect | app.py:266 | greedy matching of everything after `(\d+)` accepts exactly where it matches with backtracking |
| Experience.CaptureIsWholeRun | app.py:266-267 | a capture starting inside a run of digits is that whole run |
| Experience.EstimateExperience | app.py:266-268 | the estimate is at least every captured value, and is 0 or equal to some captured value |
| Experience.LargestCaptureUnique | app.py:268 | the text determines the estimate |
| Analysis.ExtractSkillsFromText | app.py:254-270 | the skills found in the upper-cased text and the largest experience capture in it |
| Scoring.MatchedPlusMissing | app.py:279-280 | matched plus missing skills equals the length of the list |
| Scoring.MissingMembers | app.py:479-482 | a skill is missing exactly when it is listed and its upper-cased form is not among the candidate's |
| Scoring.MissingOrdered | app.py:479-482 | the missing skills keep their declared order |
| Scoring.MissingFromConcat | app.py:479-482 | the missing skills of two lists joined are the missing skills of each, joined |
| Scoring.CountMatchedMonotone | app.py:279-280 | a candidate with a superset of upper-cased skills matches at least as many |
| Scoring.PercentScore | app.py:283-284 | 0 for an empty list. Otherwise between 0 and 100, and 100 exactly when every skill matches |
| Scoring.PercentScoreMonotone | app.py:283-284 | more matches out of the same total never lower the percentage |
| Scoring.CalculateSkillMatch | app.py:272-297 | the totals are the list lengths; matches plus missing skills equal the totals; every score lies in [0,100]; an empty list scores 0; a sub-score is 100 exactly when its list is non-empty and nothing is missing; overall is 0.7 × required + 0.3 × preferred |
| Scoring.PerfectScoreIff | app.py:283-287 | the overall score is 100 exactly when both lists are non-empty and the candidate lacks nothing |
| Scoring.EmptyListCapsScore | app.py:283-287 | no preferred skills caps the overall score at 70; no required skills caps it at 30 |
| Scoring.MoreSkillsNeverLowerScore | app.py:274-287 | more skills, compared case-insensitively, never lower any of the three scores |
| Scoring.ScoreFormulaExample | app.py:283-287 | one of two required skills and one of one preferred skill give 50, 100 and 65 |
| Scoring.CheckExperience | app.py:503-507 | the requirement is met exactly when the years reach the profile's minimum. Otherwise the warning carries both numbers |
| Scoring.ScoreBand | app.py:378 | green exactly from 70, red exactly below 50, amber in between |
| Scoring.ScoreBandMonotone | app.py:378 | a higher score never lands in a worse band |
| Reports.SkillStatusTable | app.py:413-425 | one row per required skill, then one per preferred skill. Each row is "Matched" exactly when the skill is matched case-insensitively, and "Required" exactly when the skill is in the required list |
| Reports.StatusTableAgreesWithRecommendations | app.py:417-425 | the rows marked missing are exactly the missing required skills followed by the missing preferred skills |
| Reports.KindFollowsPosition | app.py:420 | with no skill in both lists, the first rows are the required ones and the rest the preferred ones |
| Reports.CountIn | app.py:458 | a category's count never exceeds the number of skills found |
| Reports.CategoryCounts | app.py:456-460 | the loop keeps exactly the categories with a positive count, with their counts, in declared order |
| Reports.PositiveCountsMembers | app.py:456-460 | a category is kept with a count exactly when that count is positive and is the number of found skills in the category |
| Reports.PositiveCountsOrdered | app.py:456-460 | the kept categories are a subsequence of the declared ones |
| Reports.PositiveCountsDistinct | app.py:448-460 | distinct declared categories give no category twice |
| DocumentText.FirstFault | app.py:237-239 | the index of the first page whose reading fails, or the page count when none fails |
| DocumentText.ExtractTextFromPdf | app.py:232-241 | the loop returns the pages' texts up to the first failing page, and reports a failure exactly when the file cannot be opened or a page fails |
| DocumentText.JoinPagesConcat | app.py:237-238 | the text of consecutive runs of pages is the concatenation of their texts |
| DocumentText.PdfTextIsPrefix | app.py:235-241 | a failure part-way keeps a prefix of the full text |
| DocumentText.ExtractTextFromDocx | app.py:243-252 | the loop returns each paragraph followed by a line feed, and reports a failure exactly when the file cannot be opened |
| DocumentText.JoinParagraphsLength | app.py:248-249 | the DOCX text has every paragraph's characters plus one line feed per paragraph |
| DocumentText.JoinParagraphsConcat | app.py:248-249 | the text of consecutive runs of paragraphs is the concatenation of their texts |
| Analysis.ProcessUpload | app.py:334-353 | an upload is analysed exactly when its extracted text is non-empty, and the analysis holds that text, its skills and its experience estimate |
| Analysis.DocxWithParagraphsIsAnalysed | app.py:243-252 | a readable DOCX file with at least one paragraph always has non-empty text |
| Catalog.UnlistedNotInVocabulary | app.py:202-230 | no vocabulary entry upper-cases to "SQL", "CELERY", "WEBPACK" or "BASH" |
| Catalog.UnlistedAlwaysMissing | app.py:479-482 | a profile skill with one of those names is missing for every résumé text |
| Catalog.CatalogNeverPerfect | app.py:174-230 | no résumé text reaches an overall score of 100 for any of the four profiles |
| Catalog.DataScientistRequiredCapped | app.py:182 | the Data Scientist required score never exceeds 87.5, because "SQL" is never found |

## Left out

- The Streamlit page is not modelled: configuration, CSS, sidebar, uploader, session state, and the metric, success, warning, error and info messages. The model keeps only the values these show.
- pdfplumber and python-docx are foreign libraries. A document is modelled as its sequence of pages or paragraphs, and a page as text, no text, or a failure. The error message is not modelled.
- The UTF-8 decoding of a text upload (app.py:341) is foreign code, so a text upload arrives already decoded. `str(uploaded_file.read(), "utf-8")` raises `UnicodeDecodeError` on bytes that are not valid UTF-8, and nothing catches it. That failure is not modelled.
- Dispatch on the MIME type is modelled as the three kinds of upload.
- The model is ASCII-only. Python's `str.upper`, `\w`, `\d`, `\s` and `re.IGNORECASE` also treat non-ASCII characters, and `int()` accepts non-ASCII digits. IGNORECASE has no other effect, because the text is upper-cased first.
- The pandas grouping and the plotly charts are rendering libraries. Only the lists and counts they are given are modelled.
- The sample résumés, the download buttons and the profiles' descriptions are static text.
- Scores are exact reals. The source's floating-point rounding of the 0.7 and 0.3 products, and the `.1f`/`.0f` display formatting, are not modelled.
- Experience.EstimateExperience: CPython's `int()` refuses a digit run longer than the interpreter's digit limit (4300 digits by default) and raises `ValueError`, so the page shows an error and stores nothing. That limit and error are not modelled: the model returns the number whatever its length.
- Experience.IsCapture: it characterises the captures of `re.findall` as maximal digit runs followed by the rest of the pattern. That characterisation is argued above, not proved against a model of the regular-expression engine.
- Vocabulary.TechSkills: the vocabulary's lack of duplicates is not proved. SkillScan.SkillsInDistinct is stated for any duplicate-free vocabulary.
- An end-to-end result for a particular sample résumé is not proved.
