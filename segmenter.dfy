/**
 * The analysis segmenter: it cuts the analysis text into titled sections at
 * heading lines, drops sections without content, and falls back to one
 * section holding the whole text when no section has any.
 *
 * A heading line opens a block; the block's body is every later line up to
 * the next heading, a whitespace-only line counting as the empty line. The
 * specification `Segment` is written over these blocks, and the method
 * `ParseAnalysisContent`, which scans the lines one at a time as the code
 * does, is proved to compute it.
 */
module Segmenter {
  import opened Wrappers
  import opened PyText
  import opened Headings

  /** One section of the analysis: its title and its stripped content. */
  datatype Section = Section(title: string, content: string)

  /** A heading line's title and the normalised lines that follow it. */
  datatype Block = Block(title: string, body: seq<string>)

  /** The title of the one section that stands for the whole text. */
  const FallbackTitle: string := "Complete Analysis Results"

  /** What the scan makes of one line: a heading with its title, or a text line as kept in a body. */
  datatype LineKind = HeadingLine(title: string) | TextLine(text: string)

  /**
   * A line is a heading when it is not blank and its stripped form matches one
   * of the patterns; any other line is kept as written, a blank one as `""`.
   */
  function Classify(l: string): LineKind {
    var line := Strip(l);
    if line == "" then TextLine("")
    else match HeadingTitle(line)
      case Some(t) => HeadingLine(t)
      case None => TextLine(l)
  }

  function Kinds(ls: seq<string>): (ks: seq<LineKind>)
    ensures |ks| == |ls| && forall i :: 0 <= i < |ls| ==> ks[i] == Classify(ls[i])
  {
    seq(|ls|, i requires 0 <= i < |ls| => Classify(ls[i]))
  }

  predicate NoHeading(ks: seq<LineKind>) {
    forall i :: 0 <= i < |ks| ==> ks[i].TextLine?
  }

  function Texts(ks: seq<LineKind>): seq<string>
    requires NoHeading(ks)
  {
    seq(|ks|, i requires 0 <= i < |ks| => ks[i].text)
  }

  /** The body that follows a heading: the text lines up to the next heading. */
  function Body(rest: seq<LineKind>): seq<string> {
    if rest == [] || rest[0].HeadingLine? then [] else [rest[0].text] + Body(rest[1..])
  }

  /** One block per heading line, in order, each with the body that follows it. */
  function Blocks(ks: seq<LineKind>): seq<Block> {
    if ks == [] then []
    else if ks[0].HeadingLine? then [Block(ks[0].title, Body(ks[1..]))] + Blocks(ks[1..])
    else Blocks(ks[1..])
  }

  /** A block's section content: its lines joined by newlines, then stripped. */
  function Content(b: Block): string {
    Strip(Join(b.body, "\n"))
  }

  /** The sections of the blocks that have a title and some content. */
  function Kept(bs: seq<Block>): seq<Section> {
    if bs == [] then []
    else
      (if bs[0].title != "" && !IsBlank(Join(bs[0].body, "\n")) then [Section(bs[0].title, Content(bs[0]))] else [])
      + Kept(bs[1..])
  }

  /** The sections whose content is not blank. */
  function DropBlank(ss: seq<Section>): seq<Section> {
    if ss == [] then []
    else (if !IsBlank(ss[0].content) then [ss[0]] else []) + DropBlank(ss[1..])
  }

  /** The kept sections if there are any, else the whole text as one section unless it is blank. */
  function WithFallback(kept: seq<Section>, text: string): seq<Section> {
    if kept != [] then kept
    else if !IsBlank(text) then [Section(FallbackTitle, Strip(text))]
    else []
  }

  /** The sections of the analysis text. */
  function Segment(text: string): seq<Section> {
    WithFallback(Kept(Blocks(Kinds(Lines(text)))), text)
  }

  // ---- Lemmas about bodies and blocks ----

  /** Before its first heading, a body is the text lines themselves. */
  lemma {:induction false} BodyAppendPlain(r: seq<LineKind>, s: seq<LineKind>)
    requires NoHeading(r)
    ensures Body(r + s) == Texts(r) + Body(s)
    decreases |r|
  {
    if r != [] {
      assert (r + s)[0] == r[0];
      assert (r + s)[1..] == r[1..] + s;
      assert Texts(r) == [r[0].text] + Texts(r[1..]);
      BodyAppendPlain(r[1..], s);
    } else {
      assert r + s == s;
    }
  }

  /** A body stops at the first heading: what comes after it plays no part. */
  lemma {:induction false} BodyStops(r: seq<LineKind>, s: seq<LineKind>)
    requires !NoHeading(r)
    ensures Body(r + s) == Body(r)
    decreases |r|
  {
    assert (r + s)[0] == r[0];
    if r[0].TextLine? {
      assert (r + s)[1..] == r[1..] + s;
      var i :| 0 <= i < |r| && r[i].HeadingLine?;
      assert r[1..][i - 1] == r[i];
      BodyStops(r[1..], s);
    }
  }

  /** There are no blocks exactly when there is no heading line. */
  lemma {:induction false} BlocksEmpty(ks: seq<LineKind>)
    ensures Blocks(ks) == [] <==> NoHeading(ks)
    decreases |ks|
  {
    if ks != [] {
      BlocksEmpty(ks[1..]);
      assert forall i :: 1 <= i < |ks| ==> ks[i] == ks[1..][i - 1];
    }
  }

  /** A body that meets a heading at the seam ends at the seam. */
  lemma BodyCut(r: seq<LineKind>, b: seq<LineKind>)
    requires b == [] || b[0].HeadingLine?
    ensures Body(r + b) == Body(r)
  {
    if NoHeading(r) {
      BodyAppendPlain(r, b);
      BodyAppendPlain(r, []);
      assert r + [] == r;
    } else {
      BodyStops(r, b);
    }
  }

  /** Blocks on either side of a heading boundary do not interact. */
  lemma {:induction false} BlocksAppend(a: seq<LineKind>, b: seq<LineKind>)
    requires b == [] || b[0].HeadingLine?
    ensures Blocks(a + b) == Blocks(a) + Blocks(b)
    decreases |a|
  {
    if a == [] {
      assert a + b == b;
    } else {
      assert (a + b)[0] == a[0];
      assert (a + b)[1..] == a[1..] + b;
      BlocksAppend(a[1..], b);
      if a[0].HeadingLine? {
        BodyCut(a[1..], b);
      }
    }
  }

  /** A heading followed by text lines is one block, whose body is those lines. */
  lemma HeadingThenPlain(t: string, mid: seq<LineKind>)
    requires NoHeading(mid)
    ensures Blocks([HeadingLine(t)] + mid) == [Block(t, Texts(mid))]
  {
    var ks := [HeadingLine(t)] + mid;
    assert ks[0] == HeadingLine(t) && ks[1..] == mid;
    BodyAppendPlain(mid, []);
    assert mid + [] == mid;
    assert Body(mid) == Texts(mid) by {
      assert Texts(mid) + [] == Texts(mid);
    }
    BlocksEmpty(mid);
    assert Blocks(ks) == [Block(t, Body(mid))] + Blocks(mid);
  }

  /**
   * Sections follow their headings: the blocks split at a heading into those
   * before it, the block it opens with the text lines after it, and those
   * from the next heading on.
   */
  lemma BlocksAtHeading(pre: seq<LineKind>, t: string, mid: seq<LineKind>, rest: seq<LineKind>)
    requires NoHeading(mid) && (rest == [] || rest[0].HeadingLine?)
    ensures Blocks(pre + [HeadingLine(t)] + mid + rest)
            == Blocks(pre) + [Block(t, Texts(mid))] + Blocks(rest)
  {
    var h := [HeadingLine(t)];
    Assoc(pre, h, mid);
    Assoc(pre, h + mid, rest);
    assert (h + mid + rest)[0] == HeadingLine(t);
    BlocksAppend(pre, h + mid + rest);
    BlocksAppend(h + mid, rest);
    HeadingThenPlain(t, mid);
    Assoc(Blocks(pre), [Block(t, Texts(mid))], Blocks(rest));
  }

  /** Lines before the first heading belong to no block. */
  lemma {:induction false} PreambleIgnored(pre: seq<LineKind>, rest: seq<LineKind>)
    requires NoHeading(pre)
    ensures Blocks(pre + rest) == Blocks(rest)
    decreases |pre|
  {
    if pre == [] {
      assert pre + rest == rest;
    } else {
      assert (pre + rest)[0] == pre[0];
      assert (pre + rest)[1..] == pre[1..] + rest;
      assert forall i :: 0 <= i < |pre[1..]| ==> pre[1..][i] == pre[i + 1];
      PreambleIgnored(pre[1..], rest);
    }
  }

  /** Text before the first heading contributes to no headed section (it can
      still reach the fallback section when nothing is kept). */
  lemma PreambleLost(pre: seq<LineKind>, rest: seq<LineKind>)
    requires NoHeading(pre)
    ensures Kept(Blocks(pre + rest)) == Kept(Blocks(rest))
  {
    PreambleIgnored(pre, rest);
  }

  /** The blocks after one more line: a heading opens a block, a text line extends the open one. */
  function Extend(bs: seq<Block>, k: LineKind): seq<Block> {
    if k.HeadingLine? then bs + [Block(k.title, [])]
    else if bs == [] then []
    else bs[..|bs| - 1] + [Block(bs[|bs| - 1].title, bs[|bs| - 1].body + [k.text])]
  }

  /** How the blocks grow when one more line is read, as the scanning loop sees it. */
  lemma {:induction false} BlocksSnoc(p: seq<LineKind>, k: LineKind)
    ensures Blocks(p + [k]) == Extend(Blocks(p), k)
    decreases |p|
  {
    if p == [] {
      assert p + [k] == [k];
      assert Blocks([k][1..]) == [];
    } else {
      BlocksSnoc(p[1..], k);
      if NoHeading(p[1..]) {
        SnocAfterLastHeading(p, k);
      } else {
        SnocBeforeLastHeading(p, k);
      }
    }
  }

  /** One more line after a text whose tail holds no heading. */
  lemma SnocAfterLastHeading(p: seq<LineKind>, k: LineKind)
    requires p != [] && NoHeading(p[1..])
    requires Blocks(p[1..] + [k]) == Extend(Blocks(p[1..]), k)
    ensures Blocks(p + [k]) == Extend(Blocks(p), k)
  {
    var q := p[1..];
    assert (p + [k])[0] == p[0];
    assert (p + [k])[1..] == q + [k];
    BlocksEmpty(q);
    if p[0].HeadingLine? {
      SnocOneBlock(p[0].title, q, k);
    }
  }

  /** One more line after a heading and its text lines extends that one block. */
  lemma SnocOneBlock(t: string, q: seq<LineKind>, k: LineKind)
    requires NoHeading(q) && Blocks(q) == []
    requires Blocks(q + [k]) == Extend([], k)
    ensures [Block(t, Body(q + [k]))] + Blocks(q + [k]) == Extend([Block(t, Body(q))], k)
  {
    BodyAppendPlain(q, [k]);
    BodyAppendPlain(q, []);
    assert q + [] == q;
    assert Texts(q) + [] == Texts(q);
    assert Body([k]) == if k.HeadingLine? then [] else [k.text] by {
      assert [k][1..] == [];
    }
    assert [Block(t, Body(q))][..0] == [];
  }

  /** One more line after a text whose tail holds a heading: only the tail's blocks change. */
  lemma SnocBeforeLastHeading(p: seq<LineKind>, k: LineKind)
    requires p != [] && !NoHeading(p[1..])
    requires Blocks(p[1..] + [k]) == Extend(Blocks(p[1..]), k)
    ensures Blocks(p + [k]) == Extend(Blocks(p), k)
  {
    var q := p[1..];
    assert (p + [k])[0] == p[0];
    assert (p + [k])[1..] == q + [k];
    if p[0].HeadingLine? {
      BlocksEmpty(q);
      BodyStops(q, [k]);
      ExtendCons(Block(p[0].title, Body(q)), Blocks(q), k);
    }
  }

  /** Extending blocks after a first one leaves the first one alone. */
  lemma ExtendCons(b: Block, bs: seq<Block>, k: LineKind)
    requires bs != []
    ensures Extend([b] + bs, k) == [b] + Extend(bs, k)
  {
    if k.TextLine? {
      assert ([b] + bs)[..|bs|] == [b] + bs[..|bs| - 1];
    }
  }

  // ---- Lemmas about sections ----

  lemma {:induction false} KeptAppend(a: seq<Block>, b: seq<Block>)
    ensures Kept(a + b) == Kept(a) + Kept(b)
    decreases |a|
  {
    if a == [] {
      assert a + b == b;
    } else {
      var h := if a[0].title != "" && !IsBlank(Join(a[0].body, "\n")) then [Section(a[0].title, Content(a[0]))] else [];
      assert (a + b)[0] == a[0];
      assert (a + b)[1..] == a[1..] + b;
      assert Kept(a + b) == h + Kept(a[1..] + b);
      KeptAppend(a[1..], b);
      Assoc(h, Kept(a[1..]), Kept(b));
    }
  }

  lemma {:induction false} DropBlankAppend(a: seq<Section>, b: seq<Section>)
    ensures DropBlank(a + b) == DropBlank(a) + DropBlank(b)
    decreases |a|
  {
    if a == [] {
      assert a + b == b;
    } else {
      var h := if !IsBlank(a[0].content) then [a[0]] else [];
      assert (a + b)[0] == a[0];
      assert (a + b)[1..] == a[1..] + b;
      assert DropBlank(a + b) == h + DropBlank(a[1..] + b);
      DropBlankAppend(a[1..], b);
      Assoc(h, DropBlank(a[1..]), DropBlank(b));
    }
  }

  /** Nothing is left after dropping the blank sections exactly when every section is blank. */
  lemma {:induction false} DropBlankEmpty(ss: seq<Section>)
    ensures DropBlank(ss) == [] <==> forall i :: 0 <= i < |ss| ==> IsBlank(ss[i].content)
    decreases |ss|
  {
    if ss != [] {
      DropBlankEmpty(ss[1..]);
      forall i | 1 <= i < |ss| ensures ss[i] == ss[1..][i - 1] {
      }
    }
  }

  /** A section as the segmenter promises it: titled, with content non-blank and already stripped. */
  predicate WellFormed(sec: Section) {
    sec.title != "" && sec.content != "" && Strip(sec.content) == sec.content
  }

  /** The section of a titled block with a non-blank body is well formed. */
  lemma ContentWellFormed(b: Block)
    requires b.title != "" && !IsBlank(Join(b.body, "\n"))
    ensures WellFormed(Section(b.title, Content(b)))
  {
    StripIdempotent(Join(b.body, "\n"));
  }

  /** Every kept section is well formed. */
  lemma {:induction false} KeptWellFormed(bs: seq<Block>)
    ensures forall sec :: sec in Kept(bs) ==> WellFormed(sec)
    decreases |bs|
  {
    if bs != [] {
      KeptWellFormed(bs[1..]);
      if bs[0].title != "" && !IsBlank(Join(bs[0].body, "\n")) {
        ContentWellFormed(bs[0]);
      }
    }
  }

  // ---- The scanning loop ----

  /**
   * What the loop state means after reading the lines whose blocks are `bs`:
   * `current` is the title of the open block (`""` before the first heading,
   * standing for `None`), `content` its body when it has a title, and the
   * saved sections, blank ones aside, are those of the closed blocks.
   */
  predicate Tracks(bs: seq<Block>, current: string, content: seq<string>, saved: seq<Section>) {
    (bs == [] ==> current == "" && saved == [])
    && (bs != [] ==>
          current == bs[|bs| - 1].title
          && (current != "" ==> content == bs[|bs| - 1].body)
          && DropBlank(saved) == Kept(bs[..|bs| - 1]))
  }

  /** The kept section of one block. */
  lemma KeptOne(b: Block)
    ensures Kept([b]) == if b.title != "" && !IsBlank(Join(b.body, "\n")) then [Section(b.title, Content(b))] else []
  {
    assert [b][1..] == [];
  }

  /** The section the loop saves for a block survives the blank filter exactly when the block is kept. */
  lemma SavedSection(b: Block)
    requires b.title != ""
    ensures DropBlank([Section(b.title, Strip(Join(b.body, "\n")))]) == Kept([b])
  {
    KeptOne(b);
    StripIdempotent(Join(b.body, "\n"));
    var sec := Section(b.title, Strip(Join(b.body, "\n")));
    assert DropBlank([sec]) == (if !IsBlank(sec.content) then [sec] else []) + DropBlank([]) by {
      assert [sec][1..] == [];
    }
  }

  /** Closing the open block, saving its section or not as the loop decides, accounts for every block. */
  lemma CloseBlock(bs: seq<Block>, current: string, content: seq<string>, saved: seq<Section>, save: bool)
    requires Tracks(bs, current, content, saved)
    requires save ==> current != ""
    requires current != "" && !save ==> content == []
    ensures DropBlank(saved + if save then [Section(current, Strip(Join(content, "\n")))] else []) == Kept(bs)
  {
    var added := if save then [Section(current, Strip(Join(content, "\n")))] else [];
    DropBlankAppend(saved, added);
    if bs == [] {
      assert saved == [] && added == [];
    } else {
      CloseLast(bs, current, content, saved, save);
    }
  }

  /** The kept sections of all blocks: those of the closed ones, then that of the last. */
  lemma KeptSplitLast(bs: seq<Block>)
    requires bs != []
    ensures Kept(bs) == Kept(bs[..|bs| - 1]) + Kept([bs[|bs| - 1]])
  {
    var init, last := bs[..|bs| - 1], bs[|bs| - 1];
    assert init + [last] == bs;
    KeptAppend(init, [last]);
  }

  /** What the loop saves, or does not save, for the open block is what `Kept` keeps of it. */
  lemma CloseSection(last: Block, current: string, content: seq<string>, save: bool)
    requires current == last.title && (current != "" ==> content == last.body)
    requires save ==> current != ""
    requires current != "" && !save ==> content == []
    ensures DropBlank(if save then [Section(current, Strip(Join(content, "\n")))] else []) == Kept([last])
  {
    if save {
      SavedSection(last);
    } else {
      KeptOne(last);
      assert Join([], "\n") == "";
    }
  }

  lemma CloseLast(bs: seq<Block>, current: string, content: seq<string>, saved: seq<Section>, save: bool)
    requires bs != [] && Tracks(bs, current, content, saved)
    requires save ==> current != ""
    requires current != "" && !save ==> content == []
    ensures DropBlank(if save then [Section(current, Strip(Join(content, "\n")))] else []) == Kept([bs[|bs| - 1]])
    ensures Kept(bs) == DropBlank(saved) + Kept([bs[|bs| - 1]])
  {
    KeptSplitLast(bs);
    CloseSection(bs[|bs| - 1], current, content, save);
  }

  /** A text line read while a block is open extends its body; before any heading it is dropped. */
  lemma StepText(bs: seq<Block>, current: string, content: seq<string>, saved: seq<Section>, t: string)
    requires Tracks(bs, current, content, saved)
    ensures Tracks(Extend(bs, TextLine(t)), current, content + [t], saved)
  {
    if bs != [] {
      var bs' := Extend(bs, TextLine(t));
      assert bs'[..|bs'| - 1] == bs[..|bs| - 1];
    }
  }

  /** A blank line is kept as `""` once a section or some content exists, else skipped. */
  lemma StepBlank(bs: seq<Block>, current: string, content: seq<string>, saved: seq<Section>)
    requires Tracks(bs, current, content, saved)
    ensures Tracks(Extend(bs, TextLine("")), current,
                   if content != [] || current != "" then content + [""] else content, saved)
  {
    StepText(bs, current, content, saved, "");
  }

  /** A heading, once the open block is accounted for, opens a new block with that title. */
  lemma OpenBlock(bs: seq<Block>, saved: seq<Section>, title: string)
    requires DropBlank(saved) == Kept(bs)
    ensures Tracks(Extend(bs, HeadingLine(title)), title, [], saved)
  {
    var bs' := Extend(bs, HeadingLine(title));
    assert bs' != [] && bs'[..|bs'| - 1] == bs && bs'[|bs'| - 1] == Block(title, []);
  }

  /** The blank filter on a single section. */
  lemma DropBlankOne(sec: Section)
    ensures DropBlank([sec]) == if !IsBlank(sec.content) then [sec] else []
  {
    assert [sec][1..] == [];
  }

  /** The fallback section survives the blank filter exactly when the text is not blank. */
  lemma FallbackFiltered(text: string)
    ensures DropBlank([Section(FallbackTitle, Strip(text))]) == WithFallback([], text)
  {
    DropBlankOne(Section(FallbackTitle, Strip(text)));
    BlankOfStrip(text);
  }

  /** The filtered result, with the fallback when nothing is left, is the specification's. */
  lemma Finish(text: string, saved: seq<Section>)
    ensures var chosen := if saved == [] || forall i :: 0 <= i < |saved| ==> IsBlank(saved[i].content)
                          then [Section(FallbackTitle, Strip(text))] else saved;
            DropBlank(chosen) == WithFallback(DropBlank(saved), text)
  {
    DropBlankEmpty(saved);
    if DropBlank(saved) == [] {
      FallbackFiltered(text);
    }
  }

  /**
   * The heading test of the scan: try the patterns in order and take the
   * title from the first that matches.
   */
  method MatchHeading(line: string) returns (found: bool, title: string)
    ensures found <==> HeadingTitle(line).Some?
    ensures found ==> HeadingTitle(line) == Some(title)
  {
    var p := 0;
    while p < PatternCount
      invariant 0 <= p <= PatternCount
      invariant forall q :: 0 <= q < p ==> MatchPattern(q, line) == NoMatch
    {
      var m := MatchPattern(p, line);
      if m.Matched? {
        HeadingTitleOf(line, p, m.groups);
        return true, CleanTitle(RawTitle(line, m.groups));
      }
      p := p + 1;
    }
    assert FirstMatch(line, 0).None?;
    return false, "";
  }

  /**
   * One step of the scan: a blank line extends the open body, a heading line
   * saves the open section when it has content (or when nothing is saved yet)
   * and opens a new one, and any other line extends the open body.
   */
  method ScanLine(ghost bs: seq<Block>, original: string, current: string, content: seq<string>, saved: seq<Section>)
    returns (current': string, content': seq<string>, saved': seq<Section>)
    requires Tracks(bs, current, content, saved)
    ensures Tracks(Extend(bs, Classify(original)), current', content', saved')
  {
    current', content', saved' := current, content, saved;
    var line := Strip(original);
    if line == "" {
      StepBlank(bs, current, content, saved);
      if content != [] || current != "" {
        content' := content + [""];
      }
      return;
    }
    var isHeader, title := MatchHeading(line);
    if isHeader {
      var save := current != "" && (content != [] || saved == []);
      CloseBlock(bs, current, content, saved, save);
      if save {
        saved' := saved + [Section(current, Strip(Join(content, "\n")))];
      } else {
        assert saved + [] == saved;
      }
      OpenBlock(bs, saved', title);
      current' := title;
      content' := [];
    } else {
      StepText(bs, current, content, saved, original);
      content' := content + [original];
    }
  }

  /** The blocks of the first `k + 1` lines, from those of the first `k`. */
  lemma ScanStep(ks: seq<LineKind>, k: nat)
    requires k < |ks|
    ensures Blocks(ks[..k + 1]) == Extend(Blocks(ks[..k]), ks[k])
  {
    assert ks[..k + 1] == ks[..k] + [ks[k]];
    BlocksSnoc(ks[..k], ks[k]);
  }

  /** `parse_analysis_content`: scan the lines, saving a section at each heading, then filter. */
  method ParseAnalysisContent(text: string) returns (sections: seq<Section>)
    ensures sections == Segment(text)
  {
    var saved: seq<Section> := [];
    var current := "";
    var content: seq<string> := [];
    var lines := Lines(text);
    ghost var ks := Kinds(lines);
    var k := 0;
    while k < |lines|
      invariant 0 <= k <= |lines|
      invariant Tracks(Blocks(ks[..k]), current, content, saved)
    {
      ScanStep(ks, k);
      assert ks[k] == Classify(lines[k]);
      current, content, saved := ScanLine(Blocks(ks[..k]), lines[k], current, content, saved);
      k := k + 1;
    }
    assert ks[..k] == ks;
    sections := CloseScan(text, current, content, saved);
  }

  /** The end of the scan: save the open section if it has content, fall back if nothing has, filter. */
  method CloseScan(text: string, current: string, content: seq<string>, saved: seq<Section>)
    returns (sections: seq<Section>)
    requires Tracks(Blocks(Kinds(Lines(text))), current, content, saved)
    ensures sections == Segment(text)
  {
    var saved' := saved;
    var save := current != "" && content != [];
    CloseBlock(Blocks(Kinds(Lines(text))), current, content, saved, save);
    if save {
      saved' := saved + [Section(current, Strip(Join(content, "\n")))];
    } else {
      assert saved + [] == saved;
    }
    Finish(text, saved');
    if saved' == [] || forall i :: 0 <= i < |saved'| ==> IsBlank(saved'[i].content) {
      sections := [Section(FallbackTitle, Strip(text))];
    } else {
      sections := saved';
    }
    sections := DropBlank(sections);
  }

  // ---- Properties of the sections ----

  /** Every section has a title and content that is non-blank and equal to its own strip. */
  lemma SegmentWellFormed(text: string)
    ensures forall sec :: sec in Segment(text) ==> WellFormed(sec)
  {
    KeptWellFormed(Blocks(Kinds(Lines(text))));
    if Kept(Blocks(Kinds(Lines(text)))) == [] && !IsBlank(text) {
      StripIdempotent(text);
      assert Segment(text) == [Section(FallbackTitle, Strip(text))];
    }
  }

  /** A whitespace-only text has only blank lines, so no heading line. */
  lemma BlankTextNoHeading(text: string)
    requires Strip(text) == ""
    ensures NoHeading(Kinds(Lines(text)))
  {
    var ls := Lines(text);
    SplitChars(text, "\n");
    forall i | 0 <= i < |ls| ensures Strip(ls[i]) == "" {
      forall j | 0 <= j < |ls[i]| ensures IsSpace(ls[i][j]) {
        assert ls[i][j] in ls[i];
        assert ls[i][j] in text;
        var m :| 0 <= m < |text| && text[m] == ls[i][j];
      }
    }
  }

  /** There are no sections exactly when the text is empty or whitespace only. */
  lemma SegmentEmptyIff(text: string)
    ensures Segment(text) == [] <==> Strip(text) == ""
  {
    if Strip(text) == "" {
      BlankTextNoHeading(text);
      BlocksEmpty(Kinds(Lines(text)));
    }
  }

  /** With no heading line, a non-blank text is one section with the fallback title. */
  lemma NoHeadingFallback(text: string)
    requires NoHeading(Kinds(Lines(text))) && Strip(text) != ""
    ensures Segment(text) == [Section(FallbackTitle, Strip(text))]
  {
    BlocksEmpty(Kinds(Lines(text)));
  }

  /** When no block is kept, a non-blank text is the one fallback section. */
  lemma FallbackOnly(text: string)
    requires Kept(Blocks(Kinds(Lines(text)))) == [] && !IsBlank(text)
    ensures Segment(text) == [Section(FallbackTitle, Strip(text))]
  {
  }
}
