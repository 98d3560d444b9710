/**
 * `clean_text_for_pdf`: the chain of substitutions that turns a payload of
 * analysis or transcript text into the renderer's small markup vocabulary.
 * Tag-like markup is removed, `**x**` becomes `<b>x</b>`, `*x*` becomes
 * `<i>x</i>`, and newlines become `<br/>` line breaks.
 */
module Sanitizer {
  import opened Wrappers
  import opened PyText

  /** Index of the first `c` in `s`, if there is one. */
  function IndexOfChar(s: string, c: char): (r: Option<nat>)
    ensures r.Some? ==> r.value < |s| && s[r.value] == c && c !in s[..r.value]
    ensures r.None? ==> c !in s
    decreases |s|
  {
    if s == [] then None
    else if s[0] == c then Some(0)
    else
      match IndexOfChar(s[1..], c)
      case None => None
      case Some(k) =>
        assert s[..k + 1] == [s[0]] + s[1..][..k];
        Some(k + 1)
  }

  /**
   * Length of the match of `<[^>]+>` at the front of `s`, if the pattern
   * matches there: a `<`, at least one character other than `>`, then the
   * first `>` (the negated class does match newlines).
   */
  function TagAt(s: string): (r: Option<nat>)
    ensures r.Some? ==> 3 <= r.value <= |s| && s[0] == '<' && s[r.value - 1] == '>' && '>' !in s[1..r.value - 1]
    ensures r.None? && s != [] && s[0] == '<' ==> '>' !in s[1..] || s[1] == '>'
  {
    if s != [] && s[0] == '<' then
      match IndexOfChar(s[1..], '>')
      case Some(k) =>
        assert s[1..][..k] == s[1..k + 1];
        if k >= 1 then Some(k + 2) else None
      case None => None
    else None
  }

  /** `re.sub(r'<[^>]+>', '', s)`: every tag found scanning left to right removed. */
  function StripTags(s: string): (r: string)
    ensures |r| <= |s|
    ensures forall c :: c in r ==> c in s
    ensures '<' !in s ==> r == s
    decreases |s|
  {
    if s == [] then ""
    else
      match TagAt(s)
      case Some(n) => StripTags(s[n..])
      case None =>
        var rest := StripTags(s[1..]);
        assert forall c :: c in [s[0]] + rest ==> c == s[0] || c in s[1..];
        [s[0]] + rest
  }

  /** The sanitiser's first step leaves no text that `<[^>]+>` could match. */
  lemma {:induction false} StripTagsLeavesNoTag(s: string)
    ensures forall i :: 0 <= i < |StripTags(s)| ==> TagAt(StripTags(s)[i..]).None?
    decreases |s|
  {
    if s != [] {
      match TagAt(s)
      case Some(n) =>
        StripTagsLeavesNoTag(s[n..]);
      case None =>
        var rest := StripTags(s[1..]);
        var r := [s[0]] + rest;
        assert StripTags(s) == r;
        StripTagsLeavesNoTag(s[1..]);
        forall i | 0 <= i < |r| ensures TagAt(r[i..]).None? {
          if i > 0 {
            assert r[i..] == rest[i - 1..];
          } else if s[0] == '<' {
            if '>' !in s[1..] {
              assert '>' !in r[1..];
            } else {
              assert s[1] == '>';
              assert s[1..][0] == '>';
              assert rest[0] == '>';
              assert r[1..][0] == '>';
            }
          }
        }
    }
  }

  /**
   * `re.sub(d + r'(.*?)' + d, openTag + r'\1' + closeTag, s)` for a
   * delimiter `d`: each span from a `d` to the nearest following `d` on the
   * same line, found scanning left to right, is wrapped in the two tags and
   * loses its delimiters. A `d` with no closing `d` on its line is kept.
   */
  function Emphasis(s: string, d: string, openTag: string, closeTag: string): (r: string)
    requires d != []
    ensures !Contains(s, d) ==> r == s
    decreases |s|
  {
    if StartsWith(s, d) then
      var body := s[|d|..];
      match LazyUntil(body, d)
      case Some(k) => openTag + body[..k] + closeTag + Emphasis(body[k + |d|..], d, openTag, closeTag)
      case None => [s[0]] + Emphasis(s[1..], d, openTag, closeTag)
    else if s == [] then ""
    else [s[0]] + Emphasis(s[1..], d, openTag, closeTag)
  }

  /** `clean_text_for_pdf(text)` (pdf_generator.py:91-107). */
  function CleanText(text: string): string {
    if text == "" then ""
    else
      var untagged := StripTags(text);
      var bold := Emphasis(untagged, "**", "<b>", "</b>");
      var italic := Emphasis(bold, "*", "<i>", "</i>");
      var paragraphs := Replace(italic, "\n\n", "<br/><br/>");
      Replace(paragraphs, "\n", "<br/>")
  }

  /** A text without a newline is left alone by both newline replacements. */
  lemma NoNewlineReplacements(s: string)
    requires '\n' !in s
    ensures Replace(Replace(s, "\n\n", "<br/><br/>"), "\n", "<br/>") == s
  {
    if Contains(s, "\n\n") {
      ContainsFirstChar(s, "\n\n");
    }
    ReplaceAbsent(s, "\n\n", "<br/><br/>");
    ContainsChar(s, '\n');
    ReplaceAbsent(s, "\n", "<br/>");
  }

  /** The sanitised text never contains a newline: every one became a `<br/>`. */
  lemma CleanTextHasNoNewline(text: string)
    ensures '\n' !in CleanText(text)
  {
    if text != "" {
      var untagged := StripTags(text);
      var bold := Emphasis(untagged, "**", "<b>", "</b>");
      var italic := Emphasis(bold, "*", "<i>", "</i>");
      var paragraphs := Replace(italic, "\n\n", "<br/><br/>");
      ReplaceRemovesChar(paragraphs, '\n', "<br/>");
    }
  }

  /** Text with no `<`, no `*` and no newline comes out unchanged. */
  lemma CleanTextKeepsPlainText(text: string)
    requires '<' !in text && '*' !in text && '\n' !in text
    ensures CleanText(text) == text
  {
    if Contains(text, "**") {
      ContainsFirstChar(text, "**");
    }
    if Contains(text, "*") {
      ContainsFirstChar(text, "*");
    }
    NoNewlineReplacements(text);
  }

  /** A delimited span `d x d` with no `d[0]` and no newline in `x` becomes `openTag x closeTag`. */
  lemma EmphasisSpan(x: string, d: string, openTag: string, closeTag: string)
    requires d != [] && d[0] !in x && '\n' !in x
    ensures Emphasis(d + x + d, d, openTag, closeTag) == openTag + x + closeTag
  {
    var s := d + x + d;
    assert StartsWith(s, d);
    var body := s[|d|..];
    assert body == x + d;
    forall j | 0 <= j < |x| ensures !StartsWith(body[j..], d) {
      assert body[j..][0] == x[j];
    }
    assert body[..|x|] == x;
    assert body[|x|..] == d;
    LazyUntilAt(body, d, |x|);
    assert body[|x| + |d|..] == "";
  }

  /** Without `<` and `*` only the two newline replacements act. */
  lemma CleanTextWithoutMarkup(text: string)
    requires text != "" && '<' !in text && '*' !in text
    ensures CleanText(text) == Replace(Replace(text, "\n\n", "<br/><br/>"), "\n", "<br/>")
  {
    if Contains(text, "**") {
      ContainsFirstChar(text, "**");
    }
    if Contains(text, "*") {
      ContainsFirstChar(text, "*");
    }
  }

  /** `**x**` on one line, with no `*` or `<` inside, becomes `<b>x</b>`. */
  lemma CleanTextBold(x: string)
    requires '*' !in x && '<' !in x && '\n' !in x
    ensures CleanText("**" + x + "**") == "<b>" + x + "</b>"
  {
    var s := "**" + x + "**";
    assert '<' !in s;
    EmphasisSpan(x, "**", "<b>", "</b>");
    var out := "<b>" + x + "</b>";
    assert '*' !in out;
    if Contains(out, "*") {
      ContainsFirstChar(out, "*");
    }
    assert '\n' !in out;
    NoNewlineReplacements(out);
  }

  /** A text in which no two `c` are adjacent does not contain `cc`. */
  lemma {:induction false} NoAdjacentPair(s: string, c: char)
    requires forall i :: 0 <= i < |s| - 1 ==> s[i] != c || s[i + 1] != c
    ensures !Contains(s, [c, c])
    decreases |s|
  {
    if s != [] {
      var t := s[1..];
      forall i | 0 <= i < |t| - 1 ensures t[i] != c || t[i + 1] != c {
        assert t[i] == s[i + 1] && t[i + 1] == s[i + 2];
      }
      NoAdjacentPair(t, c);
      if |s| >= 2 {
        assert s[..2] == [s[0], s[1]];
      }
    }
  }

  /** One-line `*x*` with `x` non-empty has no `**` in it. */
  lemma NoDoubleStar(x: string)
    requires x != [] && '*' !in x
    ensures !Contains("*" + x + "*", "**")
  {
    var s := "*" + x + "*";
    forall i | 0 <= i < |s| - 1 ensures s[i] != '*' || s[i + 1] != '*' {
      if i == 0 {
        assert s[1] == x[0];
      } else {
        assert s[i] == x[i - 1];
      }
    }
    NoAdjacentPair(s, '*');
    assert "**" == ['*', '*'];
  }

  /** The bold pass leaves a lone `**` alone: no closing `**` follows it. */
  lemma LoneDoubleStarBold(s: string)
    requires s == "**"
    ensures Emphasis(s, "**", "<b>", "</b>") == s
  {
    assert StartsWith(s, "**") && s[|"**"|..] == "";
    assert LazyUntil("", "**") == None;
    assert s[1..] == "*" && !Contains("*", "**");
  }

  /** The italic pass reads a lone `**` as an opening and a closing `*` around nothing. */
  lemma LoneDoubleStarItalic(s: string)
    requires s == "**"
    ensures Emphasis(s, "*", "<i>", "</i>") == "<i></i>"
  {
    assert StartsWith(s, "*") && s[|"*"|..] == "*";
    assert StartsWith("*", "*");
    assert LazyUntil("*", "*") == Some(0);
    assert "*"[0 + 1..] == "";
  }

  /** A lone `**` is an italic span around nothing: it becomes `<i></i>`. */
  lemma CleanTextLoneDoubleStar(s: string)
    requires s == "**"
    ensures CleanText(s) == "<i></i>"
  {
    assert '<' !in s;
    LoneDoubleStarBold(s);
    LoneDoubleStarItalic(s);
    NoNewlineReplacements("<i></i>");
  }

  /** `*x*` on one line, with no `*` or `<` inside, becomes `<i>x</i>`. */
  lemma CleanTextItalic(x: string)
    requires '*' !in x && '<' !in x && '\n' !in x
    ensures CleanText("*" + x + "*") == "<i>" + x + "</i>"
  {
    if x == [] {
      assert "*" + x + "*" == "**" && "<i>" + x + "</i>" == "<i></i>";
      CleanTextLoneDoubleStar("**");
    } else {
      ItalicSpan(x);
    }
  }

  /** The italic case with something between the stars. */
  lemma ItalicSpan(x: string)
    requires x != [] && '*' !in x && '<' !in x && '\n' !in x
    ensures CleanText("*" + x + "*") == "<i>" + x + "</i>"
  {
    var s := "*" + x + "*";
    assert '<' !in s;
    NoDoubleStar(x);
    EmphasisSpan(x, "*", "<i>", "</i>");
    var out := "<i>" + x + "</i>";
    assert '\n' !in out;
    NoNewlineReplacements(out);
  }

  /** The paragraph replacement step on `x \n\n y` with newline-free `x` and `y`. */
  lemma ReplaceParagraphBreak(x: string, y: string)
    requires '\n' !in x && '\n' !in y
    ensures Replace(x + "\n\n" + y, "\n\n", "<br/><br/>") == x + "<br/><br/>" + y
  {
    assert x + "\n\n" + y == x + ("\n\n" + y);
    ReplacePlainPrefix(x, "\n\n" + y, "\n\n", "<br/><br/>");
    ReplaceAtFront(y, "\n\n", "<br/><br/>");
    AbsentFirstChar(y, "\n\n");
    ReplaceAbsent(y, "\n\n", "<br/><br/>");
  }

  /** A blank line between two plain lines becomes a paragraph break `<br/><br/>`. */
  lemma CleanTextParagraphBreak(x: string, y: string)
    requires '<' !in x + y && '*' !in x + y && '\n' !in x + y
    ensures CleanText(x + "\n\n" + y) == x + "<br/><br/>" + y
  {
    var t := x + "\n\n" + y;
    assert '<' !in t && '*' !in t;
    CleanTextWithoutMarkup(t);
    assert '\n' !in x && '\n' !in y;
    ReplaceParagraphBreak(x, y);
    var u := x + "<br/><br/>" + y;
    NewlineFreeAround(x, y);
    ContainsChar(u, '\n');
    ReplaceAbsent(u, "\n", "<br/>");
  }

  lemma NewlineFreeAround(x: string, y: string)
    requires '\n' !in x && '\n' !in y
    ensures '\n' !in x + "<br/><br/>" + y
  {
    assert '\n' !in "<br/><br/>";
  }

  /** On `x \n y` the paragraph step changes nothing. */
  lemma ReplaceLoneNewlineUntouched(x: string, y: string)
    requires '\n' !in x && '\n' !in y
    ensures Replace(x + "\n" + y, "\n\n", "<br/><br/>") == x + "\n" + y
  {
    var ny := "\n" + y;
    assert x + "\n" + y == x + ny;
    ReplacePlainPrefix(x, ny, "\n\n", "<br/><br/>");
    assert !StartsWith(ny, "\n\n") by {
      if |ny| >= 2 {
        assert ny[1] == y[0];
      }
    }
    assert ny[1..] == y;
    AbsentFirstChar(y, "\n\n");
    ReplaceAbsent(y, "\n\n", "<br/><br/>");
  }

  /** The line replacement step on `x \n y` with newline-free `x` and `y`. */
  lemma ReplaceLineBreak(x: string, y: string)
    requires '\n' !in x && '\n' !in y
    ensures Replace(x + "\n" + y, "\n", "<br/>") == x + "<br/>" + y
  {
    assert x + "\n" + y == x + ("\n" + y);
    ReplacePlainPrefix(x, "\n" + y, "\n", "<br/>");
    ReplaceAtFront(y, "\n", "<br/>");
    ContainsChar(y, '\n');
    ReplaceAbsent(y, "\n", "<br/>");
  }

  /** A single newline between two plain lines becomes a line break `<br/>`. */
  lemma CleanTextLineBreak(x: string, y: string)
    requires '<' !in x + y && '*' !in x + y && '\n' !in x + y
    ensures CleanText(x + "\n" + y) == x + "<br/>" + y
  {
    var t := x + "\n" + y;
    assert '<' !in t && '*' !in t;
    CleanTextWithoutMarkup(t);
    assert '\n' !in x && '\n' !in y;
    ReplaceLoneNewlineUntouched(x, y);
    ReplaceLineBreak(x, y);
  }

  /** `IndexOfChar` finds exactly the first occurrence. */
  lemma IndexOfCharAt(s: string, c: char, k: nat)
    requires k < |s| && s[k] == c && c !in s[..k]
    ensures IndexOfChar(s, c) == Some(k)
  {
  }

  /** A prefix without `<` passes through the tag remover untouched. */
  lemma {:induction false} StripTagsPlainPrefix(a: string, t: string)
    requires '<' !in a
    ensures StripTags(a + t) == a + StripTags(t)
    decreases |a|
  {
    if a != [] {
      assert (a + t)[0] == a[0];
      assert (a + t)[1..] == a[1..] + t;
      assert TagAt(a + t) == None;
      assert StripTags(a + t) == [a[0]] + StripTags(a[1..] + t);
      StripTagsPlainPrefix(a[1..], t);
      assert a == [a[0]] + a[1..];
    } else {
      assert a + t == t;
    }
  }

  /** Removing the bold tags the sanitiser itself writes. */
  lemma StripTagsOfBold(x: string)
    requires '<' !in x && '>' !in x
    ensures StripTags("<b>" + x + "</b>") == x
  {
    var s := "<b>" + x + "</b>";
    assert s[1..][1] == '>' && s[1..][..1] == "b";
    IndexOfCharAt(s[1..], '>', 1);
    assert TagAt(s) == Some(3);
    assert s[3..] == x + "</b>";
    StripTagsPlainPrefix(x, "</b>");
    var e := "</b>";
    assert e[1..][2] == '>' && e[1..][..2] == "/b";
    IndexOfCharAt(e[1..], '>', 2);
    assert TagAt(e) == Some(4);
    assert e[4..] == "";
    assert x + "" == x;
  }

  /**
   * The sanitiser is not idempotent: on any plain one-line `x`, a second
   * pass strips the `<b>` tags that the first pass produced.
   */
  lemma CleanTextNotIdempotent(x: string)
    requires x != "" && '<' !in x && '>' !in x && '*' !in x && '\n' !in x
    ensures CleanText("**" + x + "**") == "<b>" + x + "</b>"
    ensures CleanText(CleanText("**" + x + "**")) == x
    ensures CleanText(CleanText("**" + x + "**")) != CleanText("**" + x + "**")
  {
    CleanTextBold(x);
    StripTagsOfBold(x);
    var b := "<b>" + x + "</b>";
    assert b != "";
    assert StripTags(b) == x;
    CleanTextKeepsPlainText(x);
    assert |b| > |x|;
  }

  /** The pieces of the bold example. */
  lemma BoldExampleParts(text: string)
    requires text == "**a**"
    ensures text == "**" + text[2..3] + "**"
    ensures '*' !in text[2..3] && '<' !in text[2..3] && '>' !in text[2..3] && '\n' !in text[2..3]
    ensures text[2..3] == "a" && "<b>" + text[2..3] + "</b>" == "<b>a</b>"
  {
  }

  /** The sanitiser's bold example. */
  lemma CleanTextBoldExample(text: string)
    requires text == "**a**"
    ensures CleanText(text) == "<b>a</b>"
  {
    BoldExampleParts(text);
    CleanTextBold(text[2..3]);
  }

  /** The pieces of the italic example. */
  lemma ItalicExampleParts(text: string)
    requires text == "*a*"
    ensures text == "*" + text[1..2] + "*"
    ensures text[1..2] != "" && '*' !in text[1..2] && '<' !in text[1..2] && '\n' !in text[1..2]
    ensures "<i>" + text[1..2] + "</i>" == "<i>a</i>"
  {
  }

  /** The sanitiser's italic example. */
  lemma CleanTextItalicExample(text: string)
    requires text == "*a*"
    ensures CleanText(text) == "<i>a</i>"
  {
    ItalicExampleParts(text);
    CleanTextItalic(text[1..2]);
  }

  /** The pieces of the two line-break examples: `a`, the breaks, `b`. */
  lemma BreakExampleParts(text: string, n: nat, br: string, out: string)
    requires (text == "a\n\nb" && n == 2 && br == "<br/><br/>" && out == "a<br/><br/>b")
             || (text == "a\nb" && n == 1 && br == "<br/>" && out == "a<br/>b")
    ensures 1 + n < |text| && text == text[..1] + text[1..1 + n] + text[1 + n..]
    ensures var x, y := text[..1], text[1 + n..];
            '<' !in x + y && '*' !in x + y && '\n' !in x + y && x + br + y == out
  {
  }

  /** The sanitiser's paragraph-break example. */
  lemma CleanTextParagraphExample(text: string)
    requires text == "a\n\nb"
    ensures CleanText(text) == "a<br/><br/>b"
  {
    BreakExampleParts(text, 2, "<br/><br/>", "a<br/><br/>b");
    assert text[1..3] == "\n\n";
    CleanTextParagraphBreak(text[..1], text[3..]);
  }

  /** The sanitiser's line-break example. */
  lemma CleanTextLineExample(text: string)
    requires text == "a\nb"
    ensures CleanText(text) == "a<br/>b"
  {
    BreakExampleParts(text, 1, "<br/>", "a<br/>b");
    assert text[1..2] == "\n";
    CleanTextLineBreak(text[..1], text[2..]);
  }

  /** The non-idempotence counterexample `**a**`: one pass gives `<b>a</b>`, a second gives `a`. */
  lemma CleanTextTwiceExample(text: string)
    requires text == "**a**"
    ensures CleanText(text) == "<b>a</b>"
    ensures CleanText(CleanText(text)) == "a"
  {
    BoldExampleParts(text);
    CleanTextNotIdempotent(text[2..3]);
  }
}
