# Sales Coach: the report engine and the request helpers, in Dafny

Sales Coach is a small web application. A user submits a sales-call transcript,
and a language model returns two free-text documents: an analysis of the call
and an annotated copy of the transcript with coaching notes. The application
turns them into a PDF report. This project models the deterministic core of
that path and proves properties of it:

- **Sanitizer** (`clean_text_for_pdf`): HTML tags are removed, `**bold**` and
  `*italic*` become `<b>`/`<i>` markup, and newlines become `<br/>` tags.
- **Headings** and **Segmenter** (`parse_analysis_content`): the six heading
  patterns are tried in order on every stripped line. The analysis text is cut
  into titled sections. Sections without content are dropped. When no section
  has content, the whole text becomes one section titled
  `Complete Analysis Results`. `Segmenter.ParseAnalysisContent` is the
  line-by-line scan of the code, with its pattern loop and its `break`. It is
  proved equal to the declarative `Segmenter.Segment`, which is defined over
  heading blocks.
- **Transcript** (`parse_annotated_transcript`): every non-blank line becomes
  one item, either a coaching note with its markers removed or a dialogue line.
- **Report** and **ReportLayout** (`generate_pdf_report`): the ordered story of
  blocks handed to the PDF renderer. It has a fixed preamble, then the blocks of
  each section, a page break and the transcript header, then one paragraph and
  one spacer per transcript item. `Report.GeneratePdfReport` appends the blocks
  in loops, as the code does, and is proved to build `Report.Story`. The layout
  lemmas then state what the report looks like: where the page break is, how
  many headings and coaching paragraphs it holds, and where each item lands.
- **App** (`app.py`): the upload check `allowed_file`, the preparation of a
  submitted transcript (strip, refuse when empty, truncate beyond 8000
  characters), and the in-memory session store `SESSION_STORE`.
- **PyText** gives Python's `str.strip`, `split`, `join`, `replace`,
  `startswith`, `in` and the regex pieces used above, with their own lemmas.
  **Wrappers** holds `Option` and `Result`.

Three behaviours of the code a reader might not expect:

- The fallback section is titled `Complete Analysis Results`, not
  `Analysis Results`. Its content is the stripped text, not the text verbatim.
- A blank analysis yields no section at all (`Segmenter.SegmentEmptyIff`). It
  does not yield a fallback section.
- The sanitizer is not idempotent on its own output (`Sanitizer.CleanTextNotIdempotent`).
  Its output contains `<b>` tags, and the next pass strips them.

Two consequences of the code, proved rather than assumed:

- The `###` pattern can never be the first match, because `##` is tried first
  (`Headings.Hash3NeverWins`).
- A numbered heading `3. Areas for Improvement` is titled `3.`, because the
  first regex group is the number (`Headings.NumberedExample`).

## Model

| member | source | states |
|---|---|---|
| Sanitizer.StripTags | pdf_generator.py:97 | removing tags never lengthens the text or adds a character; text without `<` is unchanged |
| Sanitizer.StripTagsLeavesNoTag | pdf_generator.py:97 | after tag removal no position starts a `<…>` tag |
| Sanitizer.Emphasis | pdf_generator.py:100-101 | a text without the delimiter is left unchanged |
| Sanitizer.CleanTextHasNoNewline | pdf_generator.py:91-107 | the cleaned text contains no newline |
| Sanitizer.CleanTextKeepsPlainText | pdf_generator.py:91-107 | text without `<`, `*` or a newline comes back unchanged |
| Sanitizer.CleanTextWithoutMarkup | pdf_generator.py:96-105 | without tags or stars only the two newline replacements act |
| Sanitizer.CleanTextBold | pdf_generator.py:100 | `**x**` becomes `<b>x</b>` |
| Sanitizer.CleanTextItalic | pdf_generator.py:101 | `*x*` becomes `<i>x</i>`, for empty `x` too |
| Sanitizer.CleanTextLoneDoubleStar | pdf_generator.py:100-101 | a lone `**` is no bold span but an empty italic one: it becomes `<i></i>` |
| Sanitizer.CleanTextParagraphBreak | pdf_generator.py:104 | a blank line becomes `<br/><br/>` |
| Sanitizer.CleanTextLineBreak | pdf_generator.py:105 | a single newline becomes `<br/>` |
| Sanitizer.StripTagsOfBold | pdf_generator.py:97 | tag removal turns `<b>x</b>` back into `x` |
| Sanitizer.CleanTextNotIdempotent | pdf_generator.py:91-107 | cleaning `**x**` twice gives `x`, not the `<b>x</b>` of one pass |
| Sanitizer.CleanTextBoldExample | pdf_generator.py:100 | `**a**` cleans to `<b>a</b>` |
| Sanitizer.CleanTextItalicExample | pdf_generator.py:101 | `*a*` cleans to `<i>a</i>` |
| Sanitizer.CleanTextParagraphExample | pdf_generator.py:104 | `a\n\nb` cleans to `a<br/><br/>b` |
| Sanitizer.CleanTextLineExample | pdf_generator.py:105 | `a\nb` cleans to `a<br/>b` |
| Sanitizer.CleanTextTwiceExample | pdf_generator.py:91-107 | `**a**` cleans to `<b>a</b>`, and cleaning that again gives `a` |
| Headings.FirstMatch | pdf_generator.py:140-162 | the pattern found is the first that matches, in the list's order; none is found exactly when no pattern matches |
| Headings.HeadingTitleOf | pdf_generator.py:150-158 | the title comes from the first matching pattern's first group, or from the whole line when that group is missing or empty |
| Headings.PlainLine | pdf_generator.py:114-121 | a line that starts with no `#`, `*` or digit and does not end in `:` is not a heading |
| Headings.HeadingNeedsMarker | pdf_generator.py:114-121 | every heading starts with `##`, `**`, a digit or an upper-case letter |
| Headings.Hash3NeverWins | pdf_generator.py:115-116 | the `###` pattern is never the first match |
| Headings.AllCapsWithinCapitalColon | pdf_generator.py:119-120 | every all-caps heading also matches the title-case pattern |
| Headings.CleanTitleShape | pdf_generator.py:156-158 | a cleaned title holds no `**`; it is the title without `**` less its trailing `:` when that ends in `:`, and exactly the title without `**` otherwise |
| Headings.CleanTitlePlain | pdf_generator.py:156-158 | a title without stars and trailing colon is kept as it is |
| Headings.HashTitle | pdf_generator.py:115-154 | `##x` is titled by `x` stripped, then cleaned (no `**`, one trailing `:` dropped), or by the whole line cleaned when `x` is blank |
| Headings.HashHeading | pdf_generator.py:115-158 | `## x` with plain `x` has title `x` |
| Headings.NumberedTitle | pdf_generator.py:118-152 | `3.` followed by anything has title `3.`, the number with its dot |
| Headings.BoldColonTitle | pdf_generator.py:117-158 | `**x:**…` is titled by `x` stripped and cleaned |
| Headings.CapitalColonTitle | pdf_generator.py:120-158 | a line that starts upper-case and ends in `:` is titled by the cleaned line, that is the line less its colon when it holds no `*` |
| Headings.TitleShape | pdf_generator.py:150-158 | every title holds no `**`; it is the raw title without `**` less its trailing `:` when that ends in `:`, and exactly the raw title without `**` otherwise |
| Headings.HashExample | pdf_generator.py:115-158 | `### Sub` has title `# Sub` |
| Headings.NumberedExample | pdf_generator.py:118-152 | `3. Areas for Improvement` has title `3.` |
| Headings.BoldColonExample | pdf_generator.py:117-158 | `**Summary:** rest` has title `Summary` |
| Segmenter.MatchHeading | pdf_generator.py:138-162 | the pattern loop with its `break` finds a heading exactly when one pattern matches, with that pattern's title |
| Segmenter.ScanLine | pdf_generator.py:128-165 | one step of the line loop keeps the saved sections, the open title and its lines in step with the blocks read so far |
| Segmenter.CloseScan | pdf_generator.py:167-184 | closing the last section, the fallback and the filter give `Segment` of the text |
| Segmenter.ParseAnalysisContent | pdf_generator.py:109-184 | the scan returns exactly `Segment(text)` |
| Segmenter.BlocksEmpty | pdf_generator.py:140-165 | there are no blocks exactly when no line is a heading |
| Segmenter.PreambleLost | pdf_generator.py:134-144 | lines before the first heading reach no headed section (only the fallback, when nothing is kept) |
| Segmenter.BlocksAppend | pdf_generator.py:128-165 | the text cut before a heading yields the blocks of each part |
| Segmenter.KeptAppend | pdf_generator.py:144-172 | keeping sections distributes over the blocks |
| Segmenter.DropBlankEmpty | pdf_generator.py:175 | filtering leaves nothing exactly when every content is blank |
| Segmenter.KeptWellFormed | pdf_generator.py:144-172 | every kept section has a title and non-empty, stripped content |
| Segmenter.SegmentWellFormed | pdf_generator.py:144-184 | every section returned has a title and non-empty, stripped content |
| Segmenter.SegmentEmptyIff | pdf_generator.py:174-184 | no section is returned exactly when the text is blank |
| Segmenter.NoHeadingFallback | pdf_generator.py:174-179 | a non-blank text without heading is one `Complete Analysis Results` section of the stripped text |
| Segmenter.FallbackOnly | pdf_generator.py:174-179 | when no titled block has content, the fallback section is the only one |
| SegmenterExamples.OneLineSection | pdf_generator.py:143-172 | a heading with one trimmed line is one section |
| SegmenterExamples.TwoSections | pdf_generator.py:109-184 | two `## t` headings, each with one plain line, give two sections in order |
| SegmenterExamples.TwoEmptyHeadings | pdf_generator.py:174-182 | two headings without content fall back to the whole text |
| SegmenterExamples.SinglePlainLine | pdf_generator.py:174-179 | one plain line is the fallback section |
| SegmenterExamples.TwoSectionsExample | pdf_generator.py:109-184 | `## Summary\nGood call\n## Next Steps\nFollow up` gives the two sections |
| SegmenterExamples.PlainTextExample | pdf_generator.py:174-179 | `Just plain feedback text` gives the fallback section |
| SegmenterExamples.EmptyHeadingsExample | pdf_generator.py:174-182 | `## A\n## B` gives the fallback section holding the text |
| Transcript.DropMarker | pdf_generator.py:204-206 | removing a marker never lengthens the text |
| Transcript.DropBoldCoach | pdf_generator.py:205 | removing bold coach markers never lengthens the text |
| Transcript.ParseLine | pdf_generator.py:194-219 | a line becomes a coaching item exactly when it holds a marker; a dialogue item holds the line itself; a coaching item's content is stripped |
| Transcript.ParseAnnotatedTranscript | pdf_generator.py:186-221 | the loop returns exactly `Items` of the lines |
| Transcript.ItemsAppend | pdf_generator.py:193-219 | the items of two runs of lines are the items of each, in order |
| Transcript.ItemsFollowLines | pdf_generator.py:191-219 | there is one item per non-blank line, in order, each the item of that stripped line |
| Transcript.NonBlankTrimmed | pdf_generator.py:194-196 | the lines kept are non-empty and stripped, and no more than the lines read |
| Transcript.NonBlankKeeps | pdf_generator.py:194-196 | every non-blank line is kept |
| Transcript.ItemOfLine | pdf_generator.py:198-219 | an item is coaching exactly when the line has a coaching marker; a dialogue item is the stripped line; every content is stripped |
| Transcript.DropMarkerAbsent | pdf_generator.py:204-206 | a text without the marker is unchanged |
| Transcript.DropBoldCoachNoStar | pdf_generator.py:205 | a text without `*` is unchanged |
| Transcript.CleanCommentPlain | pdf_generator.py:204-208 | a text with no marker, no star and no closing bracket is unchanged |
| Transcript.DropCoachTag | pdf_generator.py:204 | `[COACH: x]` loses its opening tag and the blank after it |
| Transcript.BracketNote | pdf_generator.py:199-212 | `[COACH: x]` is coaching, with content `x` |
| Transcript.FeedbackMention | pdf_generator.py:201-213 | a line that mentions `FEEDBACK:` is coaching and keeps its whole text |
| Transcript.NoMarkerLetters | pdf_generator.py:199-201 | a line without `[`, `*`, `N` and `F` is dialogue |
| Transcript.DialogueNoteDialogue | pdf_generator.py:186-221 | dialogue, note, dialogue lines give the three items in order |
| Transcript.CoachExample | pdf_generator.py:186-221 | `Rep: Hello`, `[COACH: good opener]`, `Customer: Hi` give dialogue, coaching, dialogue |
| Transcript.FeedbackExample | pdf_generator.py:201 | `Rep: any FEEDBACK: yes` is coaching with the whole line as content |
| Report.AppendParts | pdf_generator.py:284-288 | the piece loop appends the blocks of every non-blank piece |
| Report.AppendSection | pdf_generator.py:277-292 | one section appends its optional heading, its body blocks and a 12-point spacer |
| Report.AppendSections | pdf_generator.py:274-292 | the section loop appends the blocks of every section in order |
| Report.AppendItem | pdf_generator.py:309-318 | one item appends its paragraph and a 6-point spacer |
| Report.AppendItems | pdf_generator.py:308-318 | the item loop appends the blocks of every item in order |
| Report.GeneratePdfReport | pdf_generator.py:223-318 | the story built is exactly `Story(date, analysis, annotated)` |
| ReportLayout.PartsBlocksAreBody | pdf_generator.py:284-288 | the pieces of a long body give only body paragraphs and 6-point spacers |
| ReportLayout.BodyBlocksAreBody | pdf_generator.py:280-290 | a section body holds only body paragraphs and 6-point spacers |
| ReportLayout.PartsAlternating | pdf_generator.py:284-288 | non-blank pieces alternate paragraph, spacer |
| ReportLayout.LongBodyLayout | pdf_generator.py:283-288 | a long body alternates stripped, non-empty paragraphs without `<br/><br/>` with 6-point spacers; paragraph k holds the k-th non-blank piece of the cut at `<br/><br/>`, stripped |
| ReportLayout.PartsLayout | pdf_generator.py:284-288 | one paragraph per non-blank piece, holding it stripped and followed by a 6-point spacer, in the order of the pieces |
| ReportLayout.SectionParts | pdf_generator.py:277-292 | a section is its optional heading, its body and a 12-point spacer |
| ReportLayout.SectionLayout | pdf_generator.py:277-292 | a section has one heading exactly when its title is shown, ends in one 12-point spacer and has no page break or transcript paragraph |
| ReportLayout.SectionsLayout | pdf_generator.py:274-292 | the sections hold one heading per shown title, one 12-point spacer per section, and no page break or transcript paragraph |
| ReportLayout.TitledOfWellFormed | pdf_generator.py:277 | every well-formed section either shows its title or is titled `Analysis Results` |
| ReportLayout.ItemParagraphShape | pdf_generator.py:309-316 | an item's paragraph is a coach comment exactly for coaching items, carries the coach prefix, and has no newline |
| ReportLayout.ItemsLayout | pdf_generator.py:308-318 | item `k` is block `2k`, followed by a 6-point spacer |
| ReportLayout.ItemsCounts | pdf_generator.py:308-318 | there is one coach comment per coaching item and one dialogue paragraph per other item |
| ReportLayout.ItemsAvoid | pdf_generator.py:308-318 | the transcript items hold no page break and no 12-point spacer |
| ReportLayout.PreambleBlocks | pdf_generator.py:231-265 | the preamble holds no page break, no 12-point spacer and no section or transcript paragraph |
| ReportLayout.TranscriptHeadBlocks | pdf_generator.py:294-303 | the transcript head starts with the only page break it has |
| ReportLayout.StoryPrefix | pdf_generator.py:231-265 | the story starts with the preamble, whose third block is the information table for the date |
| ReportLayout.StoryPageBreak | pdf_generator.py:274-295 | the story has exactly one page break, right after the sections |
| ReportLayout.StorySectionSpacers | pdf_generator.py:274-292 | the story has one 12-point spacer per section |
| ReportLayout.StoryHeadings | pdf_generator.py:271-278 | the story has one sub-heading per section with a shown title; the others are titled `Analysis Results` |
| ReportLayout.StoryComments | pdf_generator.py:306-316 | the story has one coach comment per coaching item and one dialogue paragraph per other item |
| ReportLayout.StoryTranscript | pdf_generator.py:294-318 | after the transcript head, item `k` is paragraph `2k` followed by a 6-point spacer, and the story ends there |
| ReportLayout.EmptyReport | pdf_generator.py:223-318 | a blank analysis and an empty transcript give the preamble and the transcript head only |
| App.Extension | app.py:59 | the extension is the text after the last dot, and holds no dot |
| App.AllowedFileIff | app.py:58-59 | a name is allowed exactly when some dot is followed, with no further dot, by `txt`, `csv` or `md` in any case |
| App.AllowedFileOf | app.py:58-59 | only the text after the last dot decides |
| App.AllowedFileExamples | app.py:58-59 | `a.TXT` is allowed; `txt` and `a.` are not |
| App.PrepareTranscript | app.py:197-205 | refused exactly when blank; otherwise the stripped text, or its first 8000 characters followed by the note, never longer than those two together |
| App.PrepareTranscriptIdempotent | app.py:197-205 | preparing an accepted transcript again changes nothing |
| App.Stored | app.py:44-49 | a set creates the session if needed, holds the new value for the key, and keeps every other entry |
| App.Cleared | app.py:51-55 | a clear removes that session's entry and keeps every other |
| App.LookupStored | app.py:39-49 | a get after a set returns the value set |
| App.LookupStoredOther | app.py:39-49 | a set changes no other (session, key) entry |
| App.StoredSessions | app.py:44-49 | a set adds the session id to the store and no other |
| App.LookupCleared | app.py:39-55 | after a clear, every get of that session returns its default; other sessions are unchanged |
| App.SessionStore.constructor | app.py:31 | the store starts empty |
| App.SessionStore.Set | app.py:44-49 | `set_session_data`: the new store is `Stored`, a get of that key returns the value whatever the default, all else unchanged |
| App.SessionStore.Clear | app.py:51-55 | `clear_session_data`: the new store is `Cleared`, every get of the session returns its default, other sessions unchanged |

## Left out

- Rendering: fonts, colours, sizes, margins, table styling, `doc.build` and the PDF bytes belong to reportlab. A `Spacer` keeps its height only; the width is always 1.
- The custom paragraph styles (`setup_custom_styles`) are names only.
- The clock: the report date is a parameter. The `strftime` format is not modelled.
- The `print` diagnostics in `generate_pdf_report` and the unused `transcript_original` parameter.
- `None` inputs: an absent current section is modelled as `""`; the code only tests it for truth, and both are false. `clean_text_for_pdf` also only tests its text for truth, so `None` and `""` both give `""` there. A `None` analysis or transcript is not modelled: `parse_analysis_content` and `parse_annotated_transcript` raise on it when they split it into lines, and `generate_pdf_report` raises when it takes its length. No caller in `app.py` passes `None`.
- Regex classes: `\d` is the ASCII digits, and `\s` is the set of `str.isspace` characters up to U+3000. A `$` is the end of a line, since lines hold no newline.
- App.AllowedFile: lowers ASCII letters only, where Python's `lower()` is Unicode-aware. The verdict is the same for every name. No non-ASCII character lowers to one of the letters of `txt`, `csv` or `md`, except the Kelvin sign (to `k`) and U+0130 (to `i` plus a combining dot), and neither letter occurs in those extensions.
- App: Flask routing, JSON decoding, file saving, the language-model calls and `get_session_id` (a random UUID kept in a cookie) are not modelled. The session id is an explicit parameter of every store operation.
- App.SessionStore.Clear: the `session.clear()` that empties the browser cookie is not modelled.
- The values of the session store are of one type `V`, where Python mixes types in one dictionary.
