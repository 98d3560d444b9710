/**
 * Worked segmentations: texts built from headings and plain lines, and the
 * sections the segmenter makes of them.
 */
module SegmenterExamples {
  import opened PyText
  import opened Headings
  import opened Segmenter

  /** A non-empty line without a newline and without whitespace at either end. */
  predicate TrimmedLine(x: string) {
    Trimmed(x) && '\n' !in x
  }

  /** A title the clean-up leaves alone: trimmed, no `*`, no trailing `:`. */
  predicate PlainTitle(x: string) {
    TrimmedLine(x) && '*' !in x && x[|x| - 1] != ':'
  }

  /** A trimmed line that no heading pattern can match. */
  predicate NonHeadingLine(l: string) {
    TrimmedLine(l) && l[0] != '#' && l[0] != '*' && !IsAsciiDigit(l[0]) && l[|l| - 1] != ':'
  }

  /** `## ` before a plain title gives a trimmed line. */
  lemma HashLineTrimmed(x: string)
    requires PlainTitle(x)
    ensures TrimmedLine("## " + x)
  {
    var l := "## " + x;
    assert l[0] == '#' && l[|l| - 1] == x[|x| - 1];
    assert forall c :: c in l ==> c in x || c == '#' || c == ' ';
  }

  /** `## ` and a plain title: a heading line with that title. */
  lemma ClassifyHashLine(x: string)
    requires PlainTitle(x)
    ensures Classify("## " + x) == HeadingLine(x)
  {
    HashLineTrimmed(x);
    StripOfTrimmed("## " + x);
    HashHeading(x);
  }

  /** A plain line is kept as written. */
  lemma ClassifyPlainLine(l: string)
    requires NonHeadingLine(l)
    ensures Classify(l) == TextLine(l)
  {
    StripOfTrimmed(l);
    Headings.PlainLine(l);
  }

  /** A heading with one trimmed line under it: one section with that line as content. */
  lemma OneLineSection(t: string, b: string)
    requires t != "" && TrimmedLine(b)
    ensures Kept(Blocks([HeadingLine(t), TextLine(b)])) == [Section(t, b)]
  {
    assert NoHeading([TextLine(b)]);
    assert Texts([TextLine(b)]) == [b];
    HeadingThenPlain(t, [TextLine(b)]);
    assert [HeadingLine(t)] + [TextLine(b)] == [HeadingLine(t), TextLine(b)];
    StripOfTrimmed(b);
    var bs := [Block(t, [b])];
    assert Join(bs[0].body, "\n") == b;
    assert bs[1..] == [];
  }

  /** Classification is line by line. */
  lemma KindsAppend(x: seq<string>, y: seq<string>)
    ensures Kinds(x + y) == Kinds(x) + Kinds(y)
  {
    var l, r := Kinds(x + y), Kinds(x) + Kinds(y);
    assert |l| == |r|;
    forall i | 0 <= i < |l| ensures l[i] == r[i] {
      if i < |x| {
        assert (x + y)[i] == x[i];
      } else {
        assert (x + y)[i] == y[i - |x|];
      }
    }
  }

  /** Two lines are classified one at a time. */
  lemma KindsTwo(a: string, b: string)
    ensures Kinds([a, b]) == [Classify(a), Classify(b)]
  {
    var ks := Kinds([a, b]);
    assert |ks| == 2;
  }

  /** The kinds of two lines, given the kind of each. */
  lemma KindsOfTwo(a: string, b: string, ka: LineKind, kb: LineKind)
    requires Classify(a) == ka && Classify(b) == kb
    ensures Kinds([a, b]) == [ka, kb]
  {
    KindsTwo(a, b);
  }

  /** A heading line over a plain line. */
  lemma KindsOfPair(t: string, b: string)
    requires PlainTitle(t) && NonHeadingLine(b)
    ensures Kinds(["## " + t, b]) == [HeadingLine(t), TextLine(b)]
  {
    ClassifyHashLine(t);
    ClassifyPlainLine(b);
    KindsOfTwo("## " + t, b, HeadingLine(t), TextLine(b));
  }

  /** Two heading lines. */
  lemma KindsOfHeadings(t1: string, t2: string)
    requires PlainTitle(t1) && PlainTitle(t2)
    ensures Kinds(["## " + t1, "## " + t2]) == [HeadingLine(t1), HeadingLine(t2)]
  {
    ClassifyHashLine(t1);
    ClassifyHashLine(t2);
    KindsOfTwo("## " + t1, "## " + t2, HeadingLine(t1), HeadingLine(t2));
  }

  /** The line kinds of a text of two headings, each over one plain line. */
  lemma TwoSectionsKinds(t1: string, b1: string, t2: string, b2: string)
    requires PlainTitle(t1) && NonHeadingLine(b1) && PlainTitle(t2) && NonHeadingLine(b2)
    ensures Kinds(Lines(Join(["## " + t1, b1, "## " + t2, b2], "\n")))
            == [HeadingLine(t1), TextLine(b1)] + [HeadingLine(t2), TextLine(b2)]
  {
    var x, y := ["## " + t1, b1], ["## " + t2, b2];
    assert x + y == ["## " + t1, b1, "## " + t2, b2];
    HashLineTrimmed(t1);
    HashLineTrimmed(t2);
    LinesOfJoin(x + y);
    KindsAppend(x, y);
    KindsOfPair(t1, b1);
    KindsOfPair(t2, b2);
  }

  /** The sections kept from two headings, each over one trimmed line. */
  lemma TwoSectionsKept(t1: string, b1: string, t2: string, b2: string)
    requires t1 != "" && TrimmedLine(b1) && t2 != "" && TrimmedLine(b2)
    ensures Kept(Blocks([HeadingLine(t1), TextLine(b1)] + [HeadingLine(t2), TextLine(b2)]))
            == [Section(t1, b1), Section(t2, b2)]
  {
    var first := [HeadingLine(t1), TextLine(b1)];
    var second := [HeadingLine(t2), TextLine(b2)];
    BlocksAppend(first, second);
    KeptAppend(Blocks(first), Blocks(second));
    OneLineSection(t1, b1);
    OneLineSection(t2, b2);
  }

  /** Two headings, each with one line under it: two sections, in order, with those titles and lines. */
  lemma TwoSections(t1: string, b1: string, t2: string, b2: string)
    requires PlainTitle(t1) && NonHeadingLine(b1) && PlainTitle(t2) && NonHeadingLine(b2)
    ensures Segment(Join(["## " + t1, b1, "## " + t2, b2], "\n"))
            == [Section(t1, b1), Section(t2, b2)]
  {
    TwoSectionsKinds(t1, b1, t2, b2);
    TwoSectionsKept(t1, b1, t2, b2);
  }

  /** Two headings in a row with no content: their blocks keep no section. */
  lemma EmptyBlocks(t1: string, t2: string)
    ensures Kept(Blocks([HeadingLine(t1), HeadingLine(t2)])) == []
  {
    var ks := [HeadingLine(t1), HeadingLine(t2)];
    var tail := ks[1..];
    assert tail == [HeadingLine(t2)] && tail[1..] == [];
    assert Body(tail) == [];
    assert Blocks(tail) == [Block(t2, [])];
    assert Blocks(ks) == [Block(t1, [])] + [Block(t2, [])];
    var bs := Blocks(ks);
    assert bs[1..] == [Block(t2, [])] && bs[1..][1..] == [];
    assert Join([], "\n") == "";
    StripOfTrimmed("");
    assert Kept(bs[1..]) == [];
  }

  /** The line kinds of a text of two heading lines. */
  lemma TwoHeadingsKinds(t1: string, t2: string)
    requires PlainTitle(t1) && PlainTitle(t2)
    ensures Kinds(Lines(Join(["## " + t1, "## " + t2], "\n"))) == [HeadingLine(t1), HeadingLine(t2)]
  {
    HashLineTrimmed(t1);
    HashLineTrimmed(t2);
    LinesOfJoin(["## " + t1, "## " + t2]);
    KindsOfHeadings(t1, t2);
  }

  /** Two trimmed lines joined by a newline: a text that is its own strip. */
  lemma JoinedTrimmed(a: string, b: string)
    requires TrimmedLine(a) && TrimmedLine(b)
    ensures var text := Join([a, b], "\n"); text != "" && Strip(text) == text
  {
    var text := Join([a, b], "\n");
    JoinCons(a, [b], "\n");
    assert [a] + [b] == [a, b];
    assert text[0] == a[0] && text[|text| - 1] == b[|b| - 1];
    StripOfTrimmed(text);
  }

  /** Two headings with nothing under them: no section has content, so the whole text is the fallback. */
  lemma TwoEmptyHeadings(t1: string, t2: string)
    requires PlainTitle(t1) && PlainTitle(t2)
    ensures var text := Join(["## " + t1, "## " + t2], "\n");
            Segment(text) == [Section(FallbackTitle, text)]
  {
    var text := Join(["## " + t1, "## " + t2], "\n");
    TwoHeadingsKinds(t1, t2);
    EmptyBlocks(t1, t2);
    HashLineTrimmed(t1);
    HashLineTrimmed(t2);
    JoinedTrimmed("## " + t1, "## " + t2);
    FallbackOnly(text);
  }

  /** A single plain line: one section with the fallback title and the whole line. */
  lemma SinglePlainLine(l: string)
    requires NonHeadingLine(l)
    ensures Segment(l) == [Section(FallbackTitle, l)]
  {
    SplitNoSep(l, "\n");
    ClassifyPlainLine(l);
    assert Kinds(Lines(l)) == [TextLine(l)];
    StripOfTrimmed(l);
    NoHeadingFallback(l);
  }

  // ---- Worked examples ----

  /** Four pieces joined: the pieces with a separator between each two. */
  lemma JoinFour(a: string, b: string, c: string, d: string, sep: string)
    ensures Join([a, b, c, d], sep) == a + sep + b + sep + c + sep + d
  {
    JoinCons(a, [b, c, d], sep);
    JoinCons(b, [c, d], sep);
    JoinCons(c, [d], sep);
    assert [a] + [b, c, d] == [a, b, c, d] && [b] + [c, d] == [b, c, d] && [c] + [d] == [c, d];
  }

  /** The example text is its four lines joined. */
  lemma TwoSectionsText(text: string)
    requires text == "## Summary\nGood call\n## Next Steps\nFollow up"
    ensures text == Join(["## Summary", "Good call", "## Next Steps", "Follow up"], "\n")
  {
    JoinFour("## Summary", "Good call", "## Next Steps", "Follow up", "\n");
  }

  /** The two headings of the example. */
  lemma TwoSectionsHeadings(t1: string, t2: string)
    requires t1 == "Summary" && t2 == "Next Steps"
    ensures "## " + t1 == "## Summary" && "## " + t2 == "## Next Steps"
    ensures PlainTitle(t1) && PlainTitle(t2)
  {
  }

  /** The two body lines of the example. */
  lemma TwoSectionsBodies(b1: string, b2: string)
    requires b1 == "Good call" && b2 == "Follow up"
    ensures NonHeadingLine(b1) && NonHeadingLine(b2)
  {
  }

  /** `## Summary`, `Good call`, `## Next Steps`, `Follow up`: the two titled sections. */
  lemma TwoSectionsExample(text: string)
    requires text == "## Summary\nGood call\n## Next Steps\nFollow up"
    ensures Segment(text) == [Section("Summary", "Good call"), Section("Next Steps", "Follow up")]
  {
    TwoSectionsText(text);
    TwoSectionsHeadings("Summary", "Next Steps");
    TwoSectionsBodies("Good call", "Follow up");
    TwoSections("Summary", "Good call", "Next Steps", "Follow up");
  }

  /** Feedback without headings becomes one section under the fallback title. */
  lemma PlainTextExample(text: string)
    requires text == "Just plain feedback text"
    ensures Segment(text) == [Section(FallbackTitle, text)]
  {
    SinglePlainLine(text);
  }

  /** `## A` then `## B`: neither heading has content, so the whole text is the fallback section. */
  lemma EmptyHeadingsExample(text: string)
    requires text == "## A\n## B"
    ensures Segment(text) == [Section(FallbackTitle, "## A\n## B")]
  {
    assert text == Join(["## " + "A", "## " + "B"], "\n");
    TwoEmptyHeadings("A", "B");
  }
}
