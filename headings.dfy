/**
 * The six heading matchers of the analysis segmenter, tried in order on a
 * stripped line, and the section title the first one to match yields.
 *
 * Each matcher is written out for the one regular expression it stands for,
 * applied with `re.match` (anchored at the start) to a line that holds no
 * newline: lines come from splitting the analysis text on `'\n'`, so `$` is
 * the end of the line and `.` never meets a newline.
 */
module Headings {
  import opened Wrappers
  import opened PyText

  /** The outcome of one anchored match: the captured groups, if it matched. */
  datatype Match = NoMatch | Matched(groups: seq<string>)

  /** The first pattern that matched, and its groups. */
  datatype Hit = Hit(pattern: nat, groups: seq<string>)

  const PatternCount: nat := 6

  /** `^##\s*(.*?)$`: the group is everything after `##` and the blanks that follow it. */
  function MatchHash2(line: string): Match {
    if StartsWith(line, "##") then Matched([LStrip(line[2..])]) else NoMatch
  }

  /** `^###\s*(.*?)$` */
  function MatchHash3(line: string): Match {
    if StartsWith(line, "###") then Matched([LStrip(line[3..])]) else NoMatch
  }

  /** `^\*\*(.*?):\*\*`: the lazy group stops at the first `:**`. */
  function MatchBoldColon(line: string): Match {
    if StartsWith(line, "**") then
      match LazyUntil(line[2..], ":**")
      case Some(k) => Matched([line[2..][..k]])
      case None => NoMatch
    else NoMatch
  }

  /** `^(\d+\.)\s*(.*?)$`: the first group is the number with its dot. */
  function MatchNumbered(line: string): Match {
    var n := DigitRun(line);
    if 0 < n < |line| && line[n] == '.' then
      Matched([line[..n + 1], LStrip(line[n + 1..])])
    else NoMatch
  }

  /** `^[A-Z][A-Z\s]+:$`: no groups. */
  function MatchAllCaps(line: string): Match {
    if |line| >= 3 && IsAsciiUpper(line[0]) && line[|line| - 1] == ':'
       && forall i :: 1 <= i < |line| - 1 ==> IsAsciiUpper(line[i]) || IsSpace(line[i])
    then Matched([])
    else NoMatch
  }

  /** `^[A-Z].*?:$`: no groups. */
  function MatchCapitalColon(line: string): Match {
    if |line| >= 2 && IsAsciiUpper(line[0]) && line[|line| - 1] == ':' then Matched([])
    else NoMatch
  }

  /** The patterns in the order the segmenter tries them. */
  function MatchPattern(p: nat, line: string): Match
    requires p < PatternCount
  {
    if p == 0 then MatchHash2(line)
    else if p == 1 then MatchHash3(line)
    else if p == 2 then MatchBoldColon(line)
    else if p == 3 then MatchNumbered(line)
    else if p == 4 then MatchAllCaps(line)
    else MatchCapitalColon(line)
  }

  /** The first pattern, from `from` on, that matches `line`: earlier patterns win. */
  function FirstMatch(line: string, from: nat): (r: Option<Hit>)
    requires from <= PatternCount
    ensures r.Some? ==> from <= r.value.pattern < PatternCount
                        && MatchPattern(r.value.pattern, line) == Matched(r.value.groups)
    ensures r.Some? ==> forall q :: from <= q < r.value.pattern ==> MatchPattern(q, line) == NoMatch
    ensures r.None? <==> forall q :: from <= q < PatternCount ==> MatchPattern(q, line) == NoMatch
    decreases PatternCount - from
  {
    if from == PatternCount then None
    else
      match MatchPattern(from, line)
      case Matched(g) => Some(Hit(from, g))
      case NoMatch => FirstMatch(line, from + 1)
  }

  /** The title before clean-up: the stripped first group if it is non-empty, else the stripped line. */
  function RawTitle(line: string, groups: seq<string>): string {
    if |groups| >= 1 && groups[0] != "" then Strip(groups[0]) else Strip(line)
  }

  /** Every `**` removed, then one trailing `:`. */
  function CleanTitle(t: string): string {
    DropSuffix(Replace(t, "**", ""), ":")
  }

  /** The title of a heading line, or `None` when `line` is not a heading. */
  function HeadingTitle(line: string): Option<string> {
    match FirstMatch(line, 0)
    case None => None
    case Some(h) => Some(CleanTitle(RawTitle(line, h.groups)))
  }

  /** When pattern `p` is the first to match, the title comes from its groups. */
  lemma HeadingTitleOf(line: string, p: nat, g: seq<string>)
    requires p < PatternCount && MatchPattern(p, line) == Matched(g)
    requires forall q :: 0 <= q < p ==> MatchPattern(q, line) == NoMatch
    ensures HeadingTitle(line) == Some(CleanTitle(RawTitle(line, g)))
  {
    var r := FirstMatch(line, 0);
    assert r.Some?;
    assert r.value.pattern == p;
  }

  /** A line that starts with neither `#` nor `*` is not caught by the first three patterns. */
  lemma NoMarkupPrefix(line: string)
    requires line != [] && line[0] != '#' && line[0] != '*'
    ensures MatchPattern(0, line) == NoMatch && MatchPattern(1, line) == NoMatch
    ensures MatchPattern(2, line) == NoMatch
  {
    if |line| >= 2 {
      assert line[..2][0] == line[0];
    }
    if |line| >= 3 {
      assert line[..3][0] == line[0];
    }
  }

  /**
   * A line that starts with none of `#`, `*` or a digit and does not end with
   * `:` is not a heading.
   */
  lemma PlainLine(line: string)
    requires line != [] && line[0] != '#' && line[0] != '*' && !IsAsciiDigit(line[0])
    requires line[|line| - 1] != ':'
    ensures HeadingTitle(line) == None
  {
    NoMarkupPrefix(line);
    assert FirstMatch(line, 0).None?;
  }

  /** The clean-up removes every `**`, then the trailing `:` when there is one, and nothing else. */
  lemma CleanTitleShape(t: string)
    ensures !Contains(CleanTitle(t), "**")
    ensures EndsWith(Replace(t, "**", ""), ":") ==> CleanTitle(t) + ":" == Replace(t, "**", "")
    ensures !EndsWith(Replace(t, "**", ""), ":") ==> CleanTitle(t) == Replace(t, "**", "")
  {
    var raw := Replace(t, "**", "");
    RemoveDoubleStar(t);
    if EndsWith(raw, ":") {
      if Contains(raw[..|raw| - 1], "**") {
        ContainsInPrefix(raw, |raw| - 1, "**");
      }
      assert raw == raw[..|raw| - 1] + ":";
    }
  }

  /** A text without `*` and without a final `:` is its own cleaned title. */
  lemma CleanTitlePlain(t: string)
    requires '*' !in t && (t == [] || t[|t| - 1] != ':')
    ensures CleanTitle(t) == t
  {
    AbsentFirstChar(t, "**");
    ReplaceAbsent(t, "**", "");
  }

  /** A heading starts with `##`, `**`, a digit or an upper-case ASCII letter; no other line is one. */
  lemma HeadingNeedsMarker(line: string)
    ensures HeadingTitle(line).Some? ==>
      StartsWith(line, "##") || StartsWith(line, "**")
      || (line != [] && (IsAsciiDigit(line[0]) || IsAsciiUpper(line[0])))
  {
    if HeadingTitle(line).Some? {
      var h := FirstMatch(line, 0).value;
      if h.pattern == 1 {
        StartsWithTrans(line, "###", "##");
      }
    }
  }

  /** The `###` matcher never wins: every line it accepts is taken by `##` first. */
  lemma Hash3NeverWins(line: string)
    ensures FirstMatch(line, 0).Some? ==> FirstMatch(line, 0).value.pattern != 1
  {
    StartsWithTrans(line, "###", "##");
  }

  /** The all-caps matcher accepts only lines the capital-colon matcher accepts too. */
  lemma AllCapsWithinCapitalColon(line: string)
    ensures MatchAllCaps(line).Matched? ==> MatchCapitalColon(line).Matched?
  {
  }

  /** Stripping after stripping the left: the same as stripping. */
  lemma StripOfLStrip(x: string)
    ensures Strip(LStrip(x)) == Strip(x)
  {
  }

  /** `lstrip()` leaves nothing exactly when the text is all whitespace. */
  lemma LStripEmpty(x: string)
    ensures LStrip(x) == [] <==> AllSpace(x)
  {
    var l := LStrip(x);
    LStripSuffix(x);
    if l == [] {
      assert x[..|x|] == x;
    } else {
      assert x[|x| - |l|] == l[0];
    }
  }

  /** The `##` matcher's group: the text after `##` without its leading blanks. */
  lemma MatchHash2Of(x: string)
    ensures MatchPattern(0, "##" + x) == Matched([LStrip(x)])
  {
    var line := "##" + x;
    assert line[..2] == "##" && line[2..] == x;
  }

  /** `##` followed by text: the title is that text, stripped and cleaned; a bare `##` names itself. */
  lemma HashTitle(x: string)
    ensures HeadingTitle("##" + x)
            == Some(CleanTitle(if AllSpace(x) then Strip("##" + x) else Strip(x)))
  {
    MatchHash2Of(x);
    HeadingTitleOf("##" + x, 0, [LStrip(x)]);
    LStripEmpty(x);
    if !AllSpace(x) {
      StripOfLStrip(x);
    }
  }

  /** `## ` followed by a trimmed title with no markup is a heading with exactly that title. */
  lemma HashHeading(x: string)
    requires x != [] && !IsSpace(x[0]) && !IsSpace(x[|x| - 1])
    requires '*' !in x && x[|x| - 1] != ':'
    ensures HeadingTitle("## " + x) == Some(x)
  {
    assert "## " + x == "##" + (" " + x);
    HashTitle(" " + x);
    StripBlankPrefix(x);
    CleanTitlePlain(x);
  }

  /** The numbered matcher's groups on `N.` followed by text. */
  lemma MatchNumberedOf(d: string, rest: string)
    requires d != [] && forall i :: 0 <= i < |d| ==> IsAsciiDigit(d[i])
    ensures MatchPattern(3, d + "." + rest) == Matched([d + ".", LStrip(rest)])
  {
    var line := d + "." + rest;
    assert line == d + ("." + rest);
    DigitRunOf(d, "." + rest);
    assert line[|d|] == '.' && line[..|d| + 1] == d + "." && line[|d| + 1..] == rest;
  }

  /** A numbered heading keeps only its number: `N. text` gives the title `N.`. */
  lemma NumberedTitle(d: string, rest: string)
    requires d != [] && forall i :: 0 <= i < |d| ==> IsAsciiDigit(d[i])
    ensures HeadingTitle(d + "." + rest) == Some(d + ".")
  {
    var line := d + "." + rest;
    assert line[0] == d[0];
    NoMarkupPrefix(line);
    MatchNumberedOf(d, rest);
    var g := d + ".";
    HeadingTitleOf(line, 3, [g, LStrip(rest)]);
    assert IsAsciiDigit(g[0]) && g[|g| - 1] == '.';
    StripOfTrimmed(g);
    CleanTitlePlain(g);
  }

  /** `**X:** rest` gives the title `X`, stripped and cleaned; `rest` plays no part. */
  lemma BoldColonTitle(x: string, rest: string)
    requires x != "" && ':' !in x && '\n' !in x
    ensures HeadingTitle("**" + x + ":**" + rest) == Some(CleanTitle(Strip(x)))
  {
    var line := "**" + x + ":**" + rest;
    BoldColonMatch(x, rest);
    StarNoHash(line);
    HeadingTitleOf(line, 2, [x]);
  }

  /** The bold-colon pattern captures the text up to the first `:**`. */
  lemma BoldColonMatch(x: string, rest: string)
    requires ':' !in x && '\n' !in x
    ensures MatchPattern(2, "**" + x + ":**" + rest) == Matched([x])
  {
    var line := "**" + x + ":**" + rest;
    var s := line[2..];
    assert line[..2] == "**";
    assert s == x + ":**" + rest;
    assert s[..|x|] == x;
    assert s[|x|..][..3] == ":**";
    forall j | 0 <= j < |x| ensures !StartsWith(s[j..], ":**") {
      assert s[j..][0] == x[j];
    }
    LazyUntilAt(s, ":**", |x|);
  }

  /** A line starting with `*` matches neither `#` pattern. */
  lemma StarNoHash(line: string)
    requires line != [] && line[0] == '*'
    ensures MatchPattern(0, line) == NoMatch && MatchPattern(1, line) == NoMatch
  {
    if |line| >= 2 {
      assert line[..2][0] == '*';
    }
    if |line| >= 3 {
      assert line[..3][0] == '*';
    }
  }

  /** An upper-case-initial line ending in `:` is caught, without groups, by one of the last two patterns. */
  lemma CapitalColonMatch(line: string)
    requires |line| >= 2 && IsAsciiUpper(line[0]) && line[|line| - 1] == ':'
    ensures HeadingTitle(line) == Some(CleanTitle(RawTitle(line, [])))
  {
    NoMarkupPrefix(line);
    assert MatchPattern(3, line) == NoMatch by {
      assert DigitRun(line) == 0;
    }
    if MatchAllCaps(line).Matched? {
      HeadingTitleOf(line, 4, []);
    } else {
      HeadingTitleOf(line, 5, []);
    }
  }

  /** A line ending in `:`, without stars, is cleaned to itself minus the colon. */
  lemma CleanTitleColonLine(line: string)
    requires line != [] && line[|line| - 1] == ':' && '*' !in line
    ensures CleanTitle(line) == line[..|line| - 1]
  {
    AbsentFirstChar(line, "**");
    ReplaceAbsent(line, "**", "");
  }

  /** An upper-case-initial line ending in `:` gives itself, cleaned; without stars, minus the colon. */
  lemma CapitalColonTitle(line: string)
    requires |line| >= 2 && IsAsciiUpper(line[0]) && line[|line| - 1] == ':'
    ensures HeadingTitle(line) == Some(CleanTitle(line))
    ensures '*' !in line ==> HeadingTitle(line) == Some(line[..|line| - 1])
  {
    CapitalColonMatch(line);
    StripOfTrimmed(line);
    if '*' !in line {
      CleanTitleColonLine(line);
    }
  }

  /** Every heading title has all `**` removed, and its trailing `:` dropped when it had one. */
  lemma TitleShape(line: string)
    requires HeadingTitle(line).Some?
    ensures !Contains(HeadingTitle(line).value, "**")
    ensures var raw := Replace(RawTitle(line, FirstMatch(line, 0).value.groups), "**", "");
            EndsWith(raw, ":") ==> HeadingTitle(line).value + ":" == raw
    ensures var raw := Replace(RawTitle(line, FirstMatch(line, 0).value.groups), "**", "");
            !EndsWith(raw, ":") ==> HeadingTitle(line).value == raw
  {
    CleanTitleShape(RawTitle(line, FirstMatch(line, 0).value.groups));
  }

  /** The text `# Sub` is its own stripped, cleaned title. */
  lemma HashExampleParts(line: string)
    requires line == "### Sub"
    ensures line == "##" + line[2..] && !AllSpace(line[2..])
    ensures CleanTitle(Strip(line[2..])) == "# Sub"
  {
    var x := line[2..];
    assert x == "# Sub";
    assert |x| == 5 && !IsSpace(x[0]) && !IsSpace(x[4]) && '*' !in x;
    StripOfTrimmed(x);
    CleanTitlePlain(x);
  }

  /** The heading example `### Sub`: the `##` matcher takes it and leaves `# Sub`. */
  lemma HashExample(line: string)
    requires line == "### Sub"
    ensures HeadingTitle(line) == Some("# Sub")
  {
    HashExampleParts(line);
    HashTitle(line[2..]);
  }

  /** `3. Areas for Improvement` is the number `3`, a dot and the rest. */
  lemma NumberedExampleParts(line: string)
    requires line == "3. Areas for Improvement"
    ensures line == line[..1] + "." + line[2..]
    ensures line[..1] + "." == "3." && IsAsciiDigit(line[0])
  {
  }

  /** The heading example `3. Areas for Improvement`: the title is `3.`. */
  lemma NumberedExample(line: string)
    requires line == "3. Areas for Improvement"
    ensures HeadingTitle(line) == Some("3.")
  {
    NumberedExampleParts(line);
    NumberedTitle(line[..1], line[2..]);
  }

  /** `**Summary:** rest` is `**`, the plain word `Summary`, `:**` and the rest. */
  lemma BoldColonExampleParts(line: string)
    requires line == "**Summary:** rest"
    ensures line == "**" + line[2..9] + ":**" + line[12..]
    ensures line[2..9] == "Summary"
  {
  }

  /** `Summary` is its own stripped, cleaned title. */
  lemma SummaryTitle(x: string)
    requires x == "Summary"
    ensures ':' !in x && '\n' !in x && CleanTitle(Strip(x)) == "Summary"
  {
    assert |x| == 7 && !IsSpace(x[0]) && !IsSpace(x[6]) && '*' !in x && x[6] != ':';
    StripOfTrimmed(x);
    CleanTitlePlain(x);
  }

  /** The heading example `**Summary:** rest`: the title is `Summary`. */
  lemma BoldColonExample(line: string)
    requires line == "**Summary:** rest"
    ensures HeadingTitle(line) == Some("Summary")
  {
    BoldColonExampleParts(line);
    SummaryTitle(line[2..9]);
    BoldColonTitle(line[2..9], line[12..]);
  }
}
