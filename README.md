# Cover letter structuring and rendering, in Dafny

This project models the text-processing core of a small cover-letter generator (`main.py`). The generator asks a language model for a cover letter as plain text. The model covers two functions of `main.py`:

- `create_html_cover_letter` turns the text into a printable HTML page. Its first step is a single forward pass over the lines of the text. The pass picks out the date line. It collects the signature block, starting at the first line, other than the date line, that contains "Sincerely" or "Regards". It groups the remaining non-blank lines into paragraphs, one per run of consecutive non-blank lines. Its second step builds the page: a fixed head with the role, the company and the date, then one `<p>` element per paragraph, a signature `<div>` with one `<p>` per signature line, and a fixed tail with a print button.
- `extract_name_from_resume` is a helper that `main.py` defines but never calls; the applicant's name is left to the language model's prompt (main.py:118). It takes the applicant's name from a résumé. The name is the first of the first five lines that looks like a bare name: one to three words, made only of ASCII letters, whitespace, `.` and `-`. When no such line exists, the result is the placeholder `"Your Name"`.

Modules:

- `Seqs`: generic sequence helpers. These are a find-first search (`FindFrom`), the maximal runs of non-separator elements (`Chunks`), the non-separator elements (`Drop`), and the lemmas about them.
- `PyText`: the Python string operations the code relies on. These are `str.split(sep)` (`Split`), `str.split()` (`Words`), `str.join` (`Join`), `str.strip` (`Strip`, with Python's whitespace set) and the substring test `pat in s` (`Contains`).
- `Structurer`: the line pass. It has two forms.
  - `Structure(text)` says declaratively what the pass produces. Every line gets one role: date, body or signature. The date line is the first line, anywhere in the text, whose stripped form matches the date pattern. Signature mode begins at the first line other than the date line that contains a closing token. The body lines are all other lines. The paragraphs are the maximal runs of non-blank stripped body lines, each joined with single spaces.
  - `StructureLetter` is the loop of `create_html_cover_letter`, with its flags and buffers and the same branches and `continue`s. It is proved to compute `Structure`.
- `Renderer`: the HTML assembly.
  - `Render` is the page as a function of the letter.
  - `RenderHtml` grows the string with `+=` in two loops, as `create_html_cover_letter` does, and is proved to compute `Render`.
  - `ReadBody` is an independent reader of `<p>` lines. It is used to prove that the rendered body gives back the paragraphs and signature lines unchanged, because nothing is escaped.
  - The style sheet and script are copied character for character into constants.
- `CoverLetter`: `create_html_cover_letter` as the composition of the two steps, with the end-to-end properties.
- `ResumeName`: `extract_name_from_resume` as a find-first search with early return, with its match, default and cut-off properties.

Where the code and its own comments disagree, the model follows the code:

- The comment at main.py:153 says the date is usually at the top. The code takes the first line matching the date pattern anywhere in the text, even after paragraph text or inside the signature block, and that is what `Structure` and `DateLineIsFirstMatch` state.
- The date pattern is applied with `re.match`. That is a test on a prefix of the stripped line, with any capitalised word in the month position. It is not a check for a real month.
- The comment at main.py:56 asks for a line of 2-3 words with no numbers or special characters. The code accepts one to three words and allows `.` and `-` besides letters and whitespace. `IsNameLine` follows the code.

One more consequence of the code that is easy to miss: the placeholder `"Your Name"` is not returned only when no line qualifies. A line reading `Your Name` is itself a name line. `ResumeName.DefaultIff` states the exact condition, and `ResumeName.PlaceholderIsAName` exhibits the case.

## Model

| member | source | states |
|---|---|---|
| Structurer.MatchesDateIff | main.py:154 | the left-to-right date test accepts a text exactly when the pattern `[A-Z][a-z]+ \d{1,2}, \d{4}` matches at its start, for some choice of repetitions |
| Structurer.LayoutFacts | main.py:152-163 | the date index is the first line whose stripped text passes the date test; signature mode starts at the first closing-token line other than the date line; no earlier line qualifies for either |
| Structurer.DateLineFilled | main.py:154-155 | a captured date line is never empty, so `not date_line` means that no date has been captured yet |
| Structurer.DateTestPicksDate | main.py:154-156 | while no date is held, the date test fires exactly on the date line |
| Structurer.SignatureTestPicksSignature | main.py:159-163 | on any line other than the date line, the signature test (closing token, or the flag already set) fires exactly on the lines of the signature region |
| Structurer.ParagraphsSnoc | main.py:168-174 | flushing a run appends that run, joined with single spaces, as the next paragraph |
| Structurer.ScanDate | main.py:154-156 | taking the date line sets the date and changes nothing else: no list grows and the paragraph buffer is not flushed |
| Structurer.ScanSignature | main.py:159-163 | a signature line turns signature mode on and appends the stripped line if it is not blank |
| Structurer.BodyRole | main.py:154-163 | a line that passes neither the date test nor the signature test is a body line |
| Structurer.ScanText | main.py:166-167 | a non-blank body line extends the open run in the buffer |
| Structurer.ScanBlank | main.py:168-170 | a blank body line flushes a non-empty buffer as one paragraph and otherwise changes nothing |
| Structurer.FoldStep | main.py:152-170 | one iteration of the loop body keeps the state equal to what `Structure` says about the lines read so far |
| Structurer.FoldScanned | main.py:152-170 | after any number of lines, the date, the flag, the signature lines, the flushed paragraphs and the buffer are those of `Structure` for those lines |
| Structurer.FoldIsStructure | main.py:173-174 | after the last line, flushing the buffer gives exactly the letter `Structure` describes, including a run cut off by signature mode |
| Structurer.StructureLetter | main.py:141-174 | the loop, with its flags, buffer and `continue`s, computes `Structure(text)` |
| Structurer.Roles | main.py:152-163 | a line is the date line exactly when it is the first date-test line; it is a signature line exactly when it is not the date line and some line at or before it that is not the date line contains a closing token; otherwise it is a body line |
| Structurer.GatherIff | main.py:152-170 | a text is collected for a role exactly when some line with that role strips to it |
| Structurer.DateLineIsFirstMatch | main.py:154-156 | the date line is `""` exactly when no line's stripped text matches the pattern; otherwise it is the stripped text of the first such line, wherever it stands |
| Structurer.SignatureIsSticky | main.py:159-163 | from any closing line other than the date line on, every non-blank line other than the date line is in the signature lines, stripped, whatever it contains |
| Structurer.SignatureLinesAre | main.py:159-163 | the signature lines are exactly the non-blank stripped lines of the signature region |
| Structurer.BodyLinesAre | main.py:154-170 | the body lines are exactly the stripped lines that are neither the date line nor in signature mode |
| Structurer.ParagraphsAt | main.py:168-174 | the k-th paragraph is the k-th run joined with single spaces |
| Structurer.ParagraphsAreRuns | main.py:152-174 | the number of paragraphs is the number of places where a run of non-blank body lines begins; each paragraph is its run joined with spaces; the runs laid end to end are the non-blank body lines, in order |
| Structurer.ParagraphsAreMaximalRuns | main.py:164-174 | paragraph k is a stretch i..j of the stripped body lines joined with single spaces, with no blank line inside it and a blank line or the end of the body right before and right after it; exactly k runs begin before line i, so paragraphs come in text order |
| Seqs.ChunkBounds | main.py:164-174 | every run is a maximal stretch of non-separators: it is the slice i..j of the sequence, and positions i-1 and j are separators or lie outside it; run k is the one that k runs precede |
| Structurer.GatheredLinesFree | main.py:146 | no collected line contains a line break |
| Structurer.LetterShape | main.py:146-174 | the date line, every paragraph and every signature line is a single line, and paragraphs and signature lines are never empty |
| Structurer.EmptyText | main.py:146-174 | an empty text gives no date, no paragraphs and no signature lines |
| Renderer.RenderHtml | main.py:177-256 | the head, the blocks appended in the two loops, the signature `<div>` and the tail make the page `Render` describes |
| Renderer.AppendBlocks | main.py:232-233 | appending one `<p>{item}</p>\n` per item, in order, appends the blocks of all the items |
| Renderer.BlocksAppend | main.py:232-233 | the blocks of two lists laid end to end are the blocks of the joined list |
| Renderer.BlocksSnoc | main.py:232-233 | one more loop iteration appends exactly one block |
| Renderer.BlockAt | main.py:232-238 | item k appears verbatim as its block, after the blocks of the items before it and before those of the items after it |
| Renderer.UntagTagged | main.py:232-238 | a `<p>` line reads back as the text it wraps |
| Renderer.BlocksLines | main.py:232-238 | split into lines, the blocks of single-line items are their `<p>` lines |
| Renderer.ReadTaggedLines | main.py:232-238 | reading the `<p>` lines gives the items back and leaves the following lines untouched |
| Renderer.BodyRoundTrip | main.py:231-239 | the paragraphs and signature lines read back unchanged from the rendered body, whatever follows it |
| Renderer.BodyAfterHead | main.py:177-256 | whatever head and tail surround the body, the paragraphs and signature lines read back from the text after the head |
| Renderer.RenderRoundTrip | main.py:177-256 | single-line paragraphs and signature lines are inserted verbatim: they read back unchanged from the page after its head |
| CoverLetter.CreateHtmlCoverLetter | main.py:137-256 | the page is the rendering of the structured letter |
| CoverLetter.StructuredItemsAreLines | main.py:146-174 | the items of a structured letter are single lines, so they render as one `<p>` line each |
| CoverLetter.DocumentReadsBack | main.py:137-256 | for every text, the paragraphs and signature lines read back unchanged from the page after its head |
| CoverLetter.EmptyTextDocument | main.py:146-239 | an empty text still gives a page: the head with an empty date, then the empty signature `<div>`, then the tail |
| ResumeName.Candidates | main.py:53-55 | the search looks at the first five lines of the text, or at all of them when there are fewer |
| ResumeName.FirstNameSearch | main.py:55-59 | the search returns the stripped first name line when there is one, and the placeholder when no line qualifies |
| ResumeName.NameIsFirstMatch | main.py:55-58 | when line i of the first five is the first name line, the name is that line stripped |
| ResumeName.NoMatchGivesDefault | main.py:55-59 | when none of the first five lines is a name line, the result is `"Your Name"` |
| ResumeName.DefaultIff | main.py:55-59 | the result is `"Your Name"` exactly when no line qualifies or the first line that qualifies strips to `"Your Name"` |
| ResumeName.ExtractedNameShape | main.py:55-59 | any result other than the placeholder is the stripped text of one of the first five lines, consists of name characters only and has one to three words |
| ResumeName.LaterLinesIgnored | main.py:53-55 | once a text has five lines, whatever follows them does not change the result |
| ResumeName.PlaceholderIsAName | main.py:57-59 | the line `Your Name` is a name line, so the placeholder is also returned when a line qualifies |
| PyText.JoinSplit | main.py:146 | joining the pieces of a split with the separator gives back the text, so no character is lost |
| PyText.SplitAround | main.py:53 | splitting a text with a separator in the middle splits each side independently |
| PyText.StripShape | main.py:154 | the stripped text is a slice of the line with only whitespace before and after it; it is empty exactly when the line is all whitespace, and otherwise neither starts nor ends with whitespace |
| PyText.WordsEmptyIff | main.py:57 | a line has no words exactly when it strips to nothing |
| PyText.WordsStrip | main.py:57-58 | stripping a line does not change its words, so the returned stripped name has the word count the test checked |

## Left out

- `initialize_genai` (main.py:17-29) is not part of this model. It reads the environment and the UI sidebar and configures an external SDK.
- `extract_text_from_pdf` (main.py:32-47) is not part of this model. It is a wrapper over a PDF library.
- `generate_cover_letter` (main.py:62-134) is not part of this model. It is a network call to a language model, with the current date as input.
- `get_html_download_link` (main.py:263-267) is not part of this model. It is a base64 wrapper.
- `main` (main.py:270-360) is not part of this model. It is the UI layout.
- The `try`/`except` of `create_html_cover_letter` (main.py:139, 258-260) is not modelled. Splitting, stripping, matching and concatenation cannot fail on a string, so the function is modelled as total and never returns `None`.
- The style sheet and the script are kept as exact constant strings. Nothing is proved about their content.
- `\d` in the date pattern is restricted to the ASCII digits. Python also accepts other Unicode decimal digits there.
- Strings are sequences of Unicode scalar values. A Python `str` can also hold lone surrogates (U+D800 to U+DFFF); the model covers only texts without them. A surrogate is not whitespace, a letter or a digit, so no result would differ. There is no byte encoding.
- `RenderRoundTrip`, `BodyAfterHead` and `DocumentReadsBack` read back the paragraphs and the signature lines only. The head, which holds the date, the role and the company, is not parsed back.
- The name regex's `$` would also match before a final newline. The regex is applied to a stripped line, which has none, so `MatchesName` omits that case.
