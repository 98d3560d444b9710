/**
 * The story of a PDF report (`generate_pdf_report` in pdf_generator.py): the
 * ordered list of blocks handed to the renderer. Rendering, fonts and colours
 * are abstract; the report date, which the program reads from the clock, is a
 * parameter.
 */
module Report {
  import opened PyText
  import opened Sanitizer
  import opened Segmenter
  import opened Transcript

  /** The paragraph styles the story uses. */
  datatype Style = CustomTitle | SectionHeader | SubSection | AnalysisContent | AnnotationText | CoachComment

  /** One block of the story; `Spacer(h)` is a spacer `h` points high. */
  datatype Flowable =
    | Para(style: Style, text: string)
    | Spacer(height: nat)
    | InfoTable(rows: seq<(string, string)>)
    | PageBreak

  const ReportTitle := "Sales Call Analysis Report"
  const SummaryText :=
    "This report provides comprehensive analysis and coaching feedback for a sales call transcript. "
    + "The analysis includes performance insights, improvement recommendations, and annotated feedback "
    + "throughout the conversation."
  const TranscriptIntro :=
    "The following section contains the original transcript with inline coaching comments and feedback."
  /** A cleaned section body longer than this is cut into several paragraphs. */
  const LongBody := 3000
  /** Where a long body is cut: a paragraph break after cleaning. */
  const BreakTag := "<br/><br/>"
  /** The light-bulb emoji and label in front of every coaching paragraph. */
  const CoachPrefix := "\U{1F4A1} Coach: "

  // ---- The story, as a function of the inputs ----

  /** The three rows of the report information table. */
  function InfoRows(date: string): seq<(string, string)> {
    [("Report Generated:", date), ("Analysis Type:", "Sales Call Coaching"), ("Tool:", "Sales Coach AI")]
  }

  /** Title, information table and executive summary, up to the analysis header. */
  function Preamble(date: string): seq<Flowable> {
    [ Para(CustomTitle, ReportTitle), Spacer(20), InfoTable(InfoRows(date)), Spacer(30),
      Para(SectionHeader, "Executive Summary"), Para(AnalysisContent, SummaryText), Spacer(20),
      Para(SectionHeader, "Detailed Analysis Results") ]
  }

  /** The page break and the opening of the annotated transcript. */
  function TranscriptHead(): seq<Flowable> {
    [ PageBreak, Para(SectionHeader, "Annotated Transcript with Coaching Feedback"),
      Para(AnalysisContent, TranscriptIntro), Spacer(15) ]
  }

  /** A section gets its own heading unless its title is empty or the generic one. */
  predicate ShowsTitle(title: string) {
    title != "" && title != "Analysis Results"
  }

  /** A piece of a long body: a paragraph and a small spacer, unless it is blank. */
  function PartBlocks(part: string): seq<Flowable> {
    if Strip(part) != "" then [Para(AnalysisContent, Strip(part)), Spacer(6)] else []
  }

  /** The blocks of the pieces of a long body, one piece after the other. */
  function PartsBlocks(parts: seq<string>): seq<Flowable> {
    if parts == [] then [] else PartsBlocks(parts[..|parts| - 1]) + PartBlocks(parts[|parts| - 1])
  }

  /** A cleaned section body: one paragraph, or one per piece when it is long. */
  function BodyBlocks(clean: string): seq<Flowable> {
    if |clean| > LongBody then PartsBlocks(Split(clean, BreakTag))
    else [Para(AnalysisContent, clean)]
  }

  function SectionBlocks(sec: Section): seq<Flowable> {
    (if ShowsTitle(sec.title) then [Para(SubSection, sec.title)] else [])
    + BodyBlocks(CleanText(sec.content)) + [Spacer(12)]
  }

  /** The blocks of the analysis sections, one section after the other. */
  function SectionsBlocks(sections: seq<Section>): seq<Flowable> {
    if sections == [] then []
    else SectionsBlocks(sections[..|sections| - 1]) + SectionBlocks(sections[|sections| - 1])
  }

  /** The paragraph of one transcript item. */
  function ItemParagraph(item: Item): Flowable {
    var clean := CleanText(item.content);
    if item.kind == Coaching then Para(CoachComment, CoachPrefix + clean) else Para(AnnotationText, clean)
  }

  function ItemBlocks(item: Item): seq<Flowable> {
    [ItemParagraph(item), Spacer(6)]
  }

  /** The blocks of the transcript items, one item after the other. */
  function ItemsBlocks(items: seq<Item>): seq<Flowable> {
    if items == [] then [] else ItemsBlocks(items[..|items| - 1]) + ItemBlocks(items[|items| - 1])
  }

  /** The whole story for an analysis text, an annotated transcript and a date. */
  function Story(date: string, analysis: string, annotated: string): seq<Flowable> {
    Preamble(date) + SectionsBlocks(Segment(analysis))
    + TranscriptHead() + ItemsBlocks(Items(Lines(annotated)))
  }

  // ---- Building the story ----

  lemma PartsStep(story: seq<Flowable>, parts: seq<string>, j: nat)
    requires j < |parts|
    ensures story + PartsBlocks(parts[..j + 1]) == story + PartsBlocks(parts[..j]) + PartBlocks(parts[j])
  {
    assert parts[..j + 1][..j] == parts[..j];
    Assoc(story, PartsBlocks(parts[..j]), PartBlocks(parts[j]));
  }

  lemma SectionsStep(sections: seq<Section>, i: nat)
    requires i < |sections|
    ensures SectionsBlocks(sections[..i + 1]) == SectionsBlocks(sections[..i]) + SectionBlocks(sections[i])
  {
    assert sections[..i + 1][..i] == sections[..i];
  }

  lemma ItemsStep(items: seq<Item>, k: nat)
    requires k < |items|
    ensures ItemsBlocks(items[..k + 1]) == ItemsBlocks(items[..k]) + ItemBlocks(items[k])
  {
    assert items[..k + 1][..k] == items[..k];
  }

  /** What appending one piece's paragraph and spacer, when it is not blank, adds. */
  lemma PartAppended(before: seq<Flowable>, part: string)
    ensures Strip(part) != "" ==> before + [Para(AnalysisContent, Strip(part))] + [Spacer(6)] == before + PartBlocks(part)
    ensures Strip(part) == "" ==> before == before + PartBlocks(part)
  {
  }

  /** The blocks of one piece after another, appended as the long-body loop does. */
  method AppendParts(story: seq<Flowable>, parts: seq<string>) returns (r: seq<Flowable>)
    ensures r == story + PartsBlocks(parts)
  {
    r := story;
    var j := 0;
    while j < |parts|
      invariant j <= |parts|
      invariant r == story + PartsBlocks(parts[..j])
    {
      var part := parts[j];
      PartsStep(story, parts, j);
      PartAppended(r, part);
      if Strip(part) != "" {
        r := r + [Para(AnalysisContent, Strip(part))];
        r := r + [Spacer(6)];
      }
      j := j + 1;
    }
    assert parts[..j] == parts;
  }

  /** The blocks of one analysis section, appended as the section loop does. */
  method AppendSection(story: seq<Flowable>, section: Section) returns (r: seq<Flowable>)
    ensures r == story + SectionBlocks(section)
  {
    r := story;
    ghost var head: seq<Flowable> := [];
    if ShowsTitle(section.title) {
      r := r + [Para(SubSection, section.title)];
      head := [Para(SubSection, section.title)];
    }
    var clean := CleanText(section.content);
    ghost var titled := r;
    if |clean| > LongBody {
      var parts := Split(clean, BreakTag);
      r := AppendParts(r, parts);
    } else {
      r := r + [Para(AnalysisContent, clean)];
    }
    assert r == titled + BodyBlocks(clean);
    r := r + [Spacer(12)];
    assert titled == story + head;
    assert SectionBlocks(section) == head + BodyBlocks(clean) + [Spacer(12)];
    Assoc(story, head, BodyBlocks(clean));
    Assoc(story, head + BodyBlocks(clean), [Spacer(12)]);
  }

  /** The blocks of one transcript item, appended as the transcript loop does. */
  method AppendItem(story: seq<Flowable>, item: Item) returns (r: seq<Flowable>)
    ensures r == story + ItemBlocks(item)
  {
    if item.kind == Coaching {
      var clean := CleanText(item.content);
      r := story + [Para(CoachComment, CoachPrefix + clean)];
    } else {
      var clean := CleanText(item.content);
      r := story + [Para(AnnotationText, clean)];
    }
    r := r + [Spacer(6)];
  }

  /** The blocks of the analysis sections, appended by the section loop. */
  method AppendSections(story: seq<Flowable>, sections: seq<Section>) returns (r: seq<Flowable>)
    ensures r == story + SectionsBlocks(sections)
  {
    r := story;
    var i := 0;
    while i < |sections|
      invariant i <= |sections|
      invariant r == story + SectionsBlocks(sections[..i])
    {
      r := AppendSection(r, sections[i]);
      SectionsStep(sections, i);
      Assoc(story, SectionsBlocks(sections[..i]), SectionBlocks(sections[i]));
      i := i + 1;
    }
    assert sections[..i] == sections;
  }

  /** The blocks of the transcript items, appended by the transcript loop. */
  method AppendItems(story: seq<Flowable>, items: seq<Item>) returns (r: seq<Flowable>)
    ensures r == story + ItemsBlocks(items)
  {
    r := story;
    var k := 0;
    while k < |items|
      invariant k <= |items|
      invariant r == story + ItemsBlocks(items[..k])
    {
      r := AppendItem(r, items[k]);
      ItemsStep(items, k);
      Assoc(story, ItemsBlocks(items[..k]), ItemBlocks(items[k]));
      k := k + 1;
    }
    assert items[..k] == items;
  }

  /**
   * The story, built as the report generator appends to its list: the
   * preamble, the blocks of each analysis section, the transcript header and
   * the blocks of each transcript item.
   */
  method GeneratePdfReport(analysis: string, annotated: string, date: string) returns (story: seq<Flowable>)
    ensures story == Story(date, analysis, annotated)
  {
    story := [ Para(CustomTitle, ReportTitle), Spacer(20), InfoTable(InfoRows(date)), Spacer(30),
               Para(SectionHeader, "Executive Summary"), Para(AnalysisContent, SummaryText), Spacer(20),
               Para(SectionHeader, "Detailed Analysis Results") ];
    var sections := ParseAnalysisContent(analysis);
    story := AppendSections(story, sections);
    story := story + [ PageBreak, Para(SectionHeader, "Annotated Transcript with Coaching Feedback"),
                       Para(AnalysisContent, TranscriptIntro), Spacer(15) ];
    var items := ParseAnnotatedTranscript(annotated);
    story := AppendItems(story, items);
  }
}
