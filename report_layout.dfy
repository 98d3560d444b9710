/**
 * What the story of a report looks like: where the page break falls, how
 * many blocks each analysis section and each transcript item contributes,
 * and what the paragraphs of a long section body and of the transcript hold.
 */
module ReportLayout {
  import opened PyText
  import opened Sanitizer
  import opened Segmenter
  import opened Transcript
  import opened Report

  // ---- Counting ----

  /** The number of paragraphs of style `st`. */
  function Styled(bs: seq<Flowable>, st: Style): nat {
    if bs == [] then 0
    else Styled(bs[..|bs| - 1], st) + (if bs[|bs| - 1].Para? && bs[|bs| - 1].style == st then 1 else 0)
  }

  /** The number of sections that get their own heading. */
  function Titled(sections: seq<Section>): nat {
    if sections == [] then 0
    else Titled(sections[..|sections| - 1]) + (if ShowsTitle(sections[|sections| - 1].title) then 1 else 0)
  }

  /** The number of sections titled with the generic `Analysis Results`. */
  function Generic(sections: seq<Section>): nat {
    if sections == [] then 0
    else Generic(sections[..|sections| - 1]) + (if sections[|sections| - 1].title == "Analysis Results" then 1 else 0)
  }

  /** The number of coaching items. */
  function Coached(items: seq<Item>): nat {
    if items == [] then 0
    else Coached(items[..|items| - 1]) + (if items[|items| - 1].kind == Coaching then 1 else 0)
  }

  lemma {:induction false} StyledAppend(a: seq<Flowable>, b: seq<Flowable>, st: Style)
    ensures Styled(a + b, st) == Styled(a, st) + Styled(b, st)
    decreases |b|
  {
    if b != [] {
      var last := b[|b| - 1];
      assert (a + b)[..|a + b| - 1] == a + b[..|b| - 1];
      StyledAppend(a, b[..|b| - 1], st);
    } else {
      assert a + b == a;
    }
  }

  lemma StyledPair(p: Flowable, q: Flowable, st: Style)
    requires !q.Para?
    ensures Styled([p, q], st) == if p.Para? && p.style == st then 1 else 0
  {
    assert [p][..0] == [];
    assert Styled([p], st) == if p.Para? && p.style == st then 1 else 0;
    assert [p, q][..1] == [p];
  }

  /** Blocks none of which is a paragraph of style `st` count zero for it. */
  lemma {:induction false} StyledNone(bs: seq<Flowable>, st: Style)
    requires forall b :: b in bs ==> !(b.Para? && b.style == st)
    ensures Styled(bs, st) == 0
    decreases |bs|
  {
    if bs != [] {
      assert bs[|bs| - 1] in bs;
      forall b | b in bs[..|bs| - 1] ensures !(b.Para? && b.style == st) {
        assert b in bs;
      }
      StyledNone(bs[..|bs| - 1], st);
    }
  }

  // ---- The blocks of a section body ----

  /** A body block: a plain analysis paragraph or a small spacer. */
  predicate BodyBlock(b: Flowable) {
    (b.Para? && b.style == AnalysisContent) || b == Spacer(6)
  }

  lemma {:induction false} PartsBlocksAreBody(parts: seq<string>)
    ensures forall b :: b in PartsBlocks(parts) ==> BodyBlock(b)
    decreases |parts|
  {
    if parts != [] {
      PartsBlocksAreBody(parts[..|parts| - 1]);
    }
  }

  lemma BodyBlocksAreBody(clean: string)
    ensures forall b :: b in BodyBlocks(clean) ==> BodyBlock(b)
  {
    if |clean| > LongBody {
      PartsBlocksAreBody(Split(clean, BreakTag));
    }
  }

  /** A paragraph cut from a long body: non-empty, stripped, and free of the break it was cut at. */
  predicate PieceParagraph(b: Flowable) {
    b.Para? && b.style == AnalysisContent && b.text != ""
    && Strip(b.text) == b.text && !Contains(b.text, BreakTag)
  }

  /** Paragraphs and 6-point spacers alternate, starting with a paragraph. */
  predicate Alternating(bs: seq<Flowable>) {
    |bs| % 2 == 0
    && forall k :: 0 <= k < |bs| ==> if k % 2 == 0 then PieceParagraph(bs[k]) else bs[k] == Spacer(6)
  }

  lemma AlternatingAppend(a: seq<Flowable>, b: seq<Flowable>)
    requires Alternating(a) && Alternating(b)
    ensures Alternating(a + b)
  {
    forall k | 0 <= k < |a + b|
      ensures if k % 2 == 0 then PieceParagraph((a + b)[k]) else (a + b)[k] == Spacer(6)
    {
      if k >= |a| {
        assert (a + b)[k] == b[k - |a|];
        assert (k - |a|) % 2 == k % 2;
      }
    }
  }

  lemma PartAlternating(part: string)
    requires !Contains(part, BreakTag)
    ensures Alternating(PartBlocks(part))
  {
    if Strip(part) != "" {
      StripIdempotent(part);
      StripAvoids(part, BreakTag);
    }
  }

  lemma {:induction false} PartsAlternating(parts: seq<string>)
    requires forall i :: 0 <= i < |parts| ==> !Contains(parts[i], BreakTag)
    ensures Alternating(PartsBlocks(parts))
    decreases |parts|
  {
    if parts != [] {
      var init := parts[..|parts| - 1];
      forall i | 0 <= i < |init| ensures !Contains(init[i], BreakTag) {
        assert init[i] == parts[i];
      }
      PartsAlternating(init);
      PartAlternating(parts[|parts| - 1]);
      AlternatingAppend(PartsBlocks(init), PartBlocks(parts[|parts| - 1]));
    }
  }

  /**
   * A body longer than 3000 characters becomes paragraphs, each followed by a
   * 6-point spacer; every paragraph is non-empty, stripped and holds no
   * paragraph break, since the body was cut at every one of them. Paragraph
   * `k` holds the `k`-th non-blank piece of the cut, stripped.
   */
  lemma LongBodyLayout(clean: string)
    requires |clean| > LongBody
    ensures Alternating(BodyBlocks(clean))
    ensures var pieces := NonBlank(Split(clean, BreakTag));
            |BodyBlocks(clean)| == 2 * |pieces|
            && forall k :: 0 <= k < |pieces| ==>
                 BodyBlocks(clean)[2 * k] == Para(AnalysisContent, pieces[k]) && BodyBlocks(clean)[2 * k + 1] == Spacer(6)
  {
    SplitPiecesAvoidSep(clean, BreakTag);
    PartsAlternating(Split(clean, BreakTag));
    PartsLayout(Split(clean, BreakTag));
  }

  /**
   * The pieces of a long body give one paragraph per non-blank piece, holding
   * that piece stripped, each followed by a 6-point spacer, in the order of
   * the pieces.
   */
  lemma {:induction false} PartsLayout(parts: seq<string>)
    ensures var pieces := NonBlank(parts);
            |PartsBlocks(parts)| == 2 * |pieces|
            && forall k :: 0 <= k < |pieces| ==>
                 PartsBlocks(parts)[2 * k] == Para(AnalysisContent, pieces[k]) && PartsBlocks(parts)[2 * k + 1] == Spacer(6)
    decreases |parts|
  {
    if parts != [] {
      var init, last := parts[..|parts| - 1], parts[|parts| - 1];
      assert parts == init + [last];
      PartsLayout(init);
      NonBlankSnoc(init, last);
      if !IsBlank(last) {
        var pieces := NonBlank(parts);
        var ps := seq(|pieces|, k requires 0 <= k < |pieces| => Para(AnalysisContent, pieces[k]));
        PairsSnoc(PartsBlocks(init), ps, Spacer(6));
      } else {
        assert PartsBlocks(parts) == PartsBlocks(init) + [];
      }
    }
  }

  // ---- The blocks of a section ----

  /** A section's blocks: its heading when shown, its body, and a 12-point spacer. */
  lemma SectionParts(sec: Section)
    ensures var head: seq<Flowable> := if ShowsTitle(sec.title) then [Para(SubSection, sec.title)] else [];
            SectionBlocks(sec) == head + BodyBlocks(CleanText(sec.content)) + [Spacer(12)]
            && (forall b :: b in head ==> b.Para? && b.style == SubSection)
            && forall b :: b in BodyBlocks(CleanText(sec.content)) ==> BodyBlock(b)
  {
    BodyBlocksAreBody(CleanText(sec.content));
  }

  /** A block of the analysis part: no page break and no transcript paragraph. */
  predicate AnalysisBlock(b: Flowable) {
    b != PageBreak && !(b.Para? && b.style in {CoachComment, AnnotationText})
  }

  /** The counts of a heading, a body and a closing 12-point spacer, whatever they hold. */
  lemma ClosedBlocks(head: seq<Flowable>, body: seq<Flowable>)
    requires |head| <= 1 && forall b :: b in head ==> b.Para? && b.style == SubSection
    requires forall b :: b in body ==> BodyBlock(b)
    ensures Styled(head + body + [Spacer(12)], SubSection) == |head|
    ensures (head + body + [Spacer(12)])[|head + body|] == Spacer(12)
    ensures multiset(head + body + [Spacer(12)])[Spacer(12)] == 1
    ensures forall b :: b in head + body + [Spacer(12)] ==> AnalysisBlock(b)
  {
    StyledNone(body, SubSection);
    StyledNone([Spacer(12)], SubSection);
    StyledAppend(head, body, SubSection);
    StyledAppend(head + body, [Spacer(12)], SubSection);
    if head != [] {
      assert head[..0] == [];
    }
    assert Spacer(12) !in body && Spacer(12) !in head;
  }

  /**
   * A section contributes its heading exactly when its title is shown, then
   * its body, and ends with a 12-point spacer, the only one it holds.
   */
  lemma SectionLayout(sec: Section)
    ensures Styled(SectionBlocks(sec), SubSection) == if ShowsTitle(sec.title) then 1 else 0
    ensures ShowsTitle(sec.title) ==> SectionBlocks(sec)[0] == Para(SubSection, sec.title)
    ensures SectionBlocks(sec)[|SectionBlocks(sec)| - 1] == Spacer(12)
    ensures multiset(SectionBlocks(sec))[Spacer(12)] == 1
    ensures forall b :: b in SectionBlocks(sec) ==> AnalysisBlock(b)
  {
    var head: seq<Flowable> := if ShowsTitle(sec.title) then [Para(SubSection, sec.title)] else [];
    SectionParts(sec);
    ClosedBlocks(head, BodyBlocks(CleanText(sec.content)));
  }

  /** Counting 12-point spacers and analysis blocks across the blocks of one more section. */
  lemma SectionsJoin(a: seq<Flowable>, b: seq<Flowable>, n: nat)
    requires multiset(a)[Spacer(12)] == n && multiset(b)[Spacer(12)] == 1
    requires forall x :: x in a ==> AnalysisBlock(x)
    requires forall x :: x in b ==> AnalysisBlock(x)
    ensures multiset(a + b)[Spacer(12)] == n + 1
    ensures forall x :: x in a + b ==> AnalysisBlock(x)
  {
  }

  /**
   * The analysis part holds one sub-heading per shown title, one 12-point
   * spacer per section, and neither a page break nor a transcript paragraph.
   */
  lemma {:induction false} SectionsLayout(sections: seq<Section>)
    ensures Styled(SectionsBlocks(sections), SubSection) == Titled(sections)
    ensures multiset(SectionsBlocks(sections))[Spacer(12)] == |sections|
    ensures forall b :: b in SectionsBlocks(sections) ==> AnalysisBlock(b)
    decreases |sections|
  {
    if sections != [] {
      var init := sections[..|sections| - 1];
      var last := sections[|sections| - 1];
      SectionsLayout(init);
      SectionLayout(last);
      StyledAppend(SectionsBlocks(init), SectionBlocks(last), SubSection);
      SectionsJoin(SectionsBlocks(init), SectionBlocks(last), |init|);
    }
  }

  /** In the sections of an analysis, only the generic title goes without a heading. */
  lemma {:induction false} TitledOfWellFormed(sections: seq<Section>)
    requires forall sec :: sec in sections ==> WellFormed(sec)
    ensures Titled(sections) + Generic(sections) == |sections|
    decreases |sections|
  {
    if sections != [] {
      var init := sections[..|sections| - 1];
      assert sections[|sections| - 1] in sections;
      forall sec | sec in init ensures WellFormed(sec) {
        assert sec in sections;
      }
      TitledOfWellFormed(init);
    }
  }

  // ---- The blocks of the transcript ----

  /**
   * The paragraph of an item: a coaching comment exactly for coaching items,
   * carrying the coach prefix, and in no case a raw line break.
   */
  lemma ItemParagraphShape(item: Item)
    ensures ItemParagraph(item).Para?
    ensures ItemParagraph(item).style == CoachComment <==> item.kind == Coaching
    ensures ItemParagraph(item).style == AnnotationText <==> item.kind == Dialogue
    ensures item.kind == Coaching ==> ItemParagraph(item).text == CoachPrefix + CleanText(item.content)
    ensures '\n' !in ItemParagraph(item).text
  {
    CleanTextHasNoNewline(item.content);
    assert '\n' !in CoachPrefix;
  }

  lemma ItemsLast(items: seq<Item>)
    requires items != []
    ensures ItemsBlocks(items) == ItemsBlocks(items[..|items| - 1]) + [ItemParagraph(items[|items| - 1]), Spacer(6)]
  {
  }

  /** Appending one more paragraph and its spacer keeps every earlier paragraph at its place. */
  lemma PairsSnoc<T>(bs: seq<T>, ps: seq<T>, spacer: T)
    requires ps != [] && |bs| == 2 * (|ps| - 1)
    requires forall k :: 0 <= k < |ps| - 1 ==> bs[2 * k] == ps[k] && bs[2 * k + 1] == spacer
    ensures var full := bs + [ps[|ps| - 1], spacer];
            |full| == 2 * |ps| && forall k :: 0 <= k < |ps| ==> full[2 * k] == ps[k] && full[2 * k + 1] == spacer
  {
    var full := bs + [ps[|ps| - 1], spacer];
    forall k | 0 <= k < |ps|
      ensures full[2 * k] == ps[k] && full[2 * k + 1] == spacer
    {
      if k < |ps| - 1 {
        assert full[2 * k] == bs[2 * k] && full[2 * k + 1] == bs[2 * k + 1];
      }
    }
  }

  /** One paragraph and one 6-point spacer per item, in the order of the items. */
  lemma {:induction false} ItemsLayout(items: seq<Item>)
    ensures |ItemsBlocks(items)| == 2 * |items|
    ensures forall k :: 0 <= k < |items| ==>
              ItemsBlocks(items)[2 * k] == ItemParagraph(items[k]) && ItemsBlocks(items)[2 * k + 1] == Spacer(6)
    decreases |items|
  {
    if items != [] {
      var init := items[..|items| - 1];
      var ps := seq(|items|, k requires 0 <= k < |items| => ItemParagraph(items[k]));
      ItemsLayout(init);
      ItemsLast(items);
      assert forall k :: 0 <= k < |init| ==> init[k] == items[k];
      PairsSnoc(ItemsBlocks(init), ps, Spacer(6));
    }
  }

  /** An item's blocks hold one paragraph, of the style its kind calls for. */
  lemma ItemStyled(item: Item)
    ensures Styled(ItemBlocks(item), CoachComment) == if item.kind == Coaching then 1 else 0
    ensures Styled(ItemBlocks(item), AnnotationText) == if item.kind == Coaching then 0 else 1
    ensures Styled(ItemBlocks(item), SubSection) == 0
  {
    var p := ItemParagraph(item);
    assert p.Para? && (p.style == CoachComment <==> item.kind == Coaching);
    assert p.style == CoachComment || p.style == AnnotationText;
    StyledPair(p, Spacer(6), CoachComment);
    StyledPair(p, Spacer(6), AnnotationText);
    StyledPair(p, Spacer(6), SubSection);
  }

  lemma {:induction false} ItemsCounts(items: seq<Item>)
    ensures Styled(ItemsBlocks(items), CoachComment) == Coached(items)
    ensures Styled(ItemsBlocks(items), AnnotationText) == |items| - Coached(items)
    ensures Styled(ItemsBlocks(items), SubSection) == 0
    decreases |items|
  {
    if items != [] {
      var init := items[..|items| - 1];
      var last := items[|items| - 1];
      ItemsCounts(init);
      ItemStyled(last);
      StyledAppend(ItemsBlocks(init), ItemBlocks(last), CoachComment);
      StyledAppend(ItemsBlocks(init), ItemBlocks(last), AnnotationText);
      StyledAppend(ItemsBlocks(init), ItemBlocks(last), SubSection);
    }
  }

  /** The transcript part holds no page break and no 12-point spacer. */
  lemma ItemsAvoid(items: seq<Item>)
    ensures PageBreak !in ItemsBlocks(items) && Spacer(12) !in ItemsBlocks(items)
  {
    ItemsLayout(items);
    var bs := ItemsBlocks(items);
    forall i | 0 <= i < |bs| ensures bs[i] != PageBreak && bs[i] != Spacer(12) {
      var k := i / 2;
      assert i == 2 * k || i == 2 * k + 1;
      ItemParagraphShape(items[k]);
    }
  }

  // ---- The whole story ----

  /** The preamble holds no page break, no 12-point spacer, and no paragraph of the styles counted below. */
  lemma PreambleBlocks(date: string)
    ensures PageBreak !in Preamble(date) && Spacer(12) !in Preamble(date)
    ensures forall b :: b in Preamble(date) ==> !(b.Para? && b.style in {SubSection, CoachComment, AnnotationText})
  {
  }

  /** The transcript header opens with the story's page break and holds no other. */
  lemma TranscriptHeadBlocks()
    ensures TranscriptHead()[0] == PageBreak && PageBreak !in TranscriptHead()[1..]
    ensures Spacer(12) !in TranscriptHead()
    ensures forall b :: b in TranscriptHead() ==> !(b.Para? && b.style in {SubSection, CoachComment, AnnotationText})
  {
  }

  lemma FixedStyled(date: string, st: Style)
    requires st in {SubSection, CoachComment, AnnotationText}
    ensures Styled(Preamble(date), st) == 0 && Styled(TranscriptHead(), st) == 0
  {
    PreambleBlocks(date);
    TranscriptHeadBlocks();
    StyledNone(Preamble(date), st);
    StyledNone(TranscriptHead(), st);
  }

  /** The paragraphs of a style in the story: those of its four parts. */
  lemma StyledStory(date: string, analysis: string, annotated: string, st: Style)
    ensures Styled(Story(date, analysis, annotated), st)
            == Styled(Preamble(date), st) + Styled(SectionsBlocks(Segment(analysis)), st)
               + Styled(TranscriptHead(), st) + Styled(ItemsBlocks(Items(Lines(annotated))), st)
  {
    var pre := Preamble(date);
    var secs := SectionsBlocks(Segment(analysis));
    var its := ItemsBlocks(Items(Lines(annotated)));
    StyledAppend(pre, secs, st);
    StyledAppend(pre + secs, TranscriptHead(), st);
    StyledAppend(pre + secs + TranscriptHead(), its, st);
  }

  /** A page break only in the header that follows the sections. */
  lemma PageBreakAt(pre: seq<Flowable>, secs: seq<Flowable>, head: seq<Flowable>, its: seq<Flowable>)
    requires PageBreak !in pre && PageBreak !in secs && PageBreak !in its
    requires head != [] && head[0] == PageBreak && PageBreak !in head[1..]
    ensures var story := pre + secs + head + its;
            |pre + secs| < |story| && story[|pre + secs|] == PageBreak && multiset(story)[PageBreak] == 1
  {
    assert head == [PageBreak] + head[1..];
    assert multiset(head)[PageBreak] == 1;
  }

  /** The story opens with the fixed preamble, whose information table carries the date. */
  lemma PrefixOfFour<T>(p: seq<T>, a: seq<T>, b: seq<T>, c: seq<T>)
    ensures |p| <= |p + a + b + c| && (p + a + b + c)[..|p|] == p
    ensures forall i :: 0 <= i < |p| ==> (p + a + b + c)[i] == p[i]
  {
  }

  lemma InfoTableThird(date: string)
    ensures |Preamble(date)| == 8 && Preamble(date)[2] == InfoTable(InfoRows(date))
  {
  }

  /** The story opens with the preamble, whose third block is the information table for the date. */
  lemma StoryPrefix(date: string, analysis: string, annotated: string)
    ensures Story(date, analysis, annotated)[..|Preamble(date)|] == Preamble(date)
    ensures Story(date, analysis, annotated)[2] == InfoTable(InfoRows(date))
  {
    var secs, its := SectionsBlocks(Segment(analysis)), ItemsBlocks(Items(Lines(annotated)));
    assert Story(date, analysis, annotated) == Preamble(date) + secs + TranscriptHead() + its;
    PrefixOfFour(Preamble(date), secs, TranscriptHead(), its);
    InfoTableThird(date);
  }

  /** The story holds exactly one page break, right after the blocks of the analysis sections. */
  lemma StoryPageBreak(date: string, analysis: string, annotated: string)
    ensures var story := Story(date, analysis, annotated);
            var n := |Preamble(date)| + |SectionsBlocks(Segment(analysis))|;
            n < |story| && story[n] == PageBreak && multiset(story)[PageBreak] == 1
  {
    PreambleBlocks(date);
    TranscriptHeadBlocks();
    SectionsLayout(Segment(analysis));
    ItemsAvoid(Items(Lines(annotated)));
    PageBreakAt(Preamble(date), SectionsBlocks(Segment(analysis)), TranscriptHead(), ItemsBlocks(Items(Lines(annotated))));
  }

  /** One 12-point spacer per analysis section, and no other. */
  lemma StorySectionSpacers(date: string, analysis: string, annotated: string)
    ensures multiset(Story(date, analysis, annotated))[Spacer(12)] == |Segment(analysis)|
  {
    PreambleBlocks(date);
    TranscriptHeadBlocks();
    SectionsLayout(Segment(analysis));
    ItemsAvoid(Items(Lines(annotated)));
  }

  /**
   * One section heading per section whose title is shown; of the sections an
   * analysis parses into, only those titled `Analysis Results` have none.
   */
  lemma StoryHeadings(date: string, analysis: string, annotated: string)
    ensures Styled(Story(date, analysis, annotated), SubSection) == Titled(Segment(analysis))
    ensures Titled(Segment(analysis)) + Generic(Segment(analysis)) == |Segment(analysis)|
  {
    FixedStyled(date, SubSection);
    SectionsLayout(Segment(analysis));
    ItemsCounts(Items(Lines(annotated)));
    StyledStory(date, analysis, annotated, SubSection);
    SegmentWellFormed(analysis);
    TitledOfWellFormed(Segment(analysis));
  }

  /** One coaching comment per coaching item and one dialogue paragraph per dialogue item. */
  lemma StoryComments(date: string, analysis: string, annotated: string)
    ensures var items := Items(Lines(annotated));
            Styled(Story(date, analysis, annotated), CoachComment) == Coached(items)
            && Styled(Story(date, analysis, annotated), AnnotationText) == |items| - Coached(items)
  {
    var secs := SectionsBlocks(Segment(analysis));
    SectionsLayout(Segment(analysis));
    ItemsCounts(Items(Lines(annotated)));
    forall st | st in {CoachComment, AnnotationText} ensures Styled(secs, st) == 0 {
      StyledNone(secs, st);
    }
    FixedStyled(date, CoachComment);
    FixedStyled(date, AnnotationText);
    StyledStory(date, analysis, annotated, CoachComment);
    StyledStory(date, analysis, annotated, AnnotationText);
  }

  /**
   * After the transcript header the story ends with one paragraph and one
   * 6-point spacer per transcript item, in the order of the lines.
   */
  lemma StoryTranscript(date: string, analysis: string, annotated: string)
    ensures var story := Story(date, analysis, annotated);
            var items := Items(Lines(annotated));
            var m := |Preamble(date)| + |SectionsBlocks(Segment(analysis))| + |TranscriptHead()|;
            |story| == m + 2 * |items|
            && forall k :: 0 <= k < |items| ==> story[m + 2 * k] == ItemParagraph(items[k]) && story[m + 2 * k + 1] == Spacer(6)
  {
    var items := Items(Lines(annotated));
    var front := Preamble(date) + SectionsBlocks(Segment(analysis)) + TranscriptHead();
    ItemsLayout(items);
    assert Story(date, analysis, annotated) == front + ItemsBlocks(items);
  }

  /** A blank analysis and an empty transcript leave only the fixed blocks. */
  lemma EmptyReport(date: string, analysis: string)
    requires IsBlank(analysis)
    ensures Story(date, analysis, "") == Preamble(date) + TranscriptHead()
  {
    SegmentEmptyIff(analysis);
    EmptyTranscriptItems();
    WithoutEmpty(Preamble(date), SectionsBlocks([]), TranscriptHead(), ItemsBlocks([]));
  }

  /** The empty transcript has no items. */
  lemma EmptyTranscriptItems()
    ensures Items(Lines("")) == []
  {
    assert Lines("") == [""];
    assert Items([""]) == [];
  }

  lemma WithoutEmpty<T>(a: seq<T>, e1: seq<T>, b: seq<T>, e2: seq<T>)
    requires e1 == [] && e2 == []
    ensures a + e1 + b + e2 == a + b
  {
  }
}
