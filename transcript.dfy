/**
 * The annotated-transcript parser: every non-blank line of the transcript
 * becomes one item, a coaching comment when the line carries one of the
 * coaching markers (with the markers cut out of it) and a line of dialogue
 * otherwise.
 */
module Transcript {
  import opened Wrappers
  import opened PyText

  datatype ItemKind = Dialogue | Coaching

  /** One transcript item: its kind and its text. */
  datatype Item = Item(kind: ItemKind, content: string)

  /** The coaching test on a stripped line: four prefixes and two infixes. */
  predicate IsCoachingLine(line: string) {
    || StartsWith(line, "[COACH:")
    || StartsWith(line, "**[COACH")
    || StartsWith(line, "COACHING NOTE:")
    || StartsWith(line, "**COACHING")
    || Contains(line, "COACH INSIGHT:")
    || Contains(line, "FEEDBACK:")
  }

  /**
   * `re.sub(marker + opt? + r'\s*', '', s)` for a literal marker: every
   * occurrence of the marker, scanning from the left, is cut out together with
   * the optional character right after it and the whitespace after that.
   */
  function DropMarker(s: string, marker: string, opt: Option<char>): (r: string)
    requires marker != []
    ensures |r| <= |s|
    decreases |s|
  {
    if s == [] then []
    else if StartsWith(s, marker) then
      var rest := s[|marker|..];
      var rest' := if opt.Some? && rest != [] && rest[0] == opt.value then rest[1..] else rest;
      DropMarker(LStrip(rest'), marker, opt)
    else [s[0]] + DropMarker(s[1..], marker, opt)
  }

  /**
   * Where `\*\*\[?COACH.*?:\s*` matches at the front of `s`, what follows the
   * match: `**`, an optional `[`, `COACH`, everything up to the first `:`, the
   * `:` and the whitespace after it.
   */
  function BoldCoachAt(s: string): (r: Option<string>)
    ensures r.Some? ==> |r.value| < |s|
  {
    if !StartsWith(s, "**") then None
    else
      var r := s[2..];
      var r' := if r != [] && r[0] == '[' then r[1..] else r;
      if !StartsWith(r', "COACH") then None
      else
        match LazyUntil(r'[5..], ":")
        case None => None
        case Some(k) => Some(LStrip(r'[5..][k + 1..]))
  }

  /** `re.sub(r'\*\*\[?COACH.*?:\s*', '', s)`. */
  function DropBoldCoach(s: string): (r: string)
    ensures |r| <= |s|
    decreases |s|
  {
    if s == [] then []
    else
      match BoldCoachAt(s)
      case Some(rest) => DropBoldCoach(rest)
      case None => [s[0]] + DropBoldCoach(s[1..])
  }

  /** The five substitutions of the coaching clean-up, in the order the code applies them. */
  function CleanComment(line: string): string {
    var a := DropMarker(line, "[COACH", Some(':'));
    var b := DropBoldCoach(a);
    var c := DropMarker(b, "COACHING NOTE:", None);
    var d := DropSuffix(c, "]");
    DropSuffix(d, "**")
  }

  /** The item a non-blank stripped line becomes. */
  function ItemOf(line: string): Item {
    if IsCoachingLine(line) then Item(Coaching, Strip(CleanComment(line)))
    else Item(Dialogue, line)
  }

  /** The items of the lines: blank lines are skipped, the others become one item each. */
  function Items(ls: seq<string>): seq<Item> {
    if ls == [] then []
    else (if IsBlank(ls[0]) then [] else [ItemOf(Strip(ls[0]))]) + Items(ls[1..])
  }

  /** The lines that are not blank, in order, each stripped. */
  function NonBlank(ls: seq<string>): seq<string> {
    if ls == [] then []
    else (if IsBlank(ls[0]) then [] else [Strip(ls[0])]) + NonBlank(ls[1..])
  }

  // ---- The parser ----

  /** `parse_annotated_transcript`: one pass over the lines, appending an item per non-blank line. */
  method ParseAnnotatedTranscript(text: string) returns (items: seq<Item>)
    ensures items == Items(Lines(text))
  {
    var lines := Lines(text);
    items := [];
    var k := 0;
    while k < |lines|
      invariant 0 <= k <= |lines|
      invariant items == Items(lines[..k])
    {
      ItemsPrefixStep(lines, k);
      var line := Strip(lines[k]);
      if line != "" {
        var item := ParseLine(line);
        items := items + [item];
      } else {
        assert items + [] == items;
      }
      k := k + 1;
    }
    assert lines[..k] == lines;
  }

  /**
   * The loop body on a non-blank stripped line: a coaching item when the line
   * holds a marker, with its cleaned and stripped comment, else a dialogue
   * item holding the line itself.
   */
  method ParseLine(line: string) returns (item: Item)
    ensures item.kind == Coaching <==> IsCoachingLine(line)
    ensures item.kind == Dialogue ==> item.content == line
    ensures item.kind == Coaching ==> Strip(item.content) == item.content
    ensures item == ItemOf(line)
  {
    if IsCoachingLine(line) {
      var clean := CleanComment(line);
      StripIdempotent(clean);
      item := Item(Coaching, Strip(clean));
    } else {
      item := Item(Dialogue, line);
    }
  }

  // ---- Lemmas about the items ----

  lemma {:induction false} ItemsAppend(a: seq<string>, b: seq<string>)
    ensures Items(a + b) == Items(a) + Items(b)
    decreases |a|
  {
    if a == [] {
      assert a + b == b;
    } else {
      var h := if IsBlank(a[0]) then [] else [ItemOf(Strip(a[0]))];
      assert (a + b)[0] == a[0];
      assert (a + b)[1..] == a[1..] + b;
      assert Items(a + b) == h + Items(a[1..] + b);
      ItemsAppend(a[1..], b);
      Assoc(h, Items(a[1..]), Items(b));
    }
  }

  lemma {:induction false} NonBlankAppend(a: seq<string>, b: seq<string>)
    ensures NonBlank(a + b) == NonBlank(a) + NonBlank(b)
    decreases |a|
  {
    if a == [] {
      assert a + b == b;
    } else {
      var h := if IsBlank(a[0]) then [] else [Strip(a[0])];
      assert (a + b)[0] == a[0];
      assert (a + b)[1..] == a[1..] + b;
      assert NonBlank(a + b) == h + NonBlank(a[1..] + b);
      NonBlankAppend(a[1..], b);
      Assoc(h, NonBlank(a[1..]), NonBlank(b));
    }
  }

  /** One more line keeps its stripped form at the end unless it is blank. */
  lemma NonBlankSnoc(ls: seq<string>, l: string)
    ensures NonBlank(ls + [l]) == NonBlank(ls) + if IsBlank(l) then [] else [Strip(l)]
  {
    NonBlankAppend(ls, [l]);
    assert [l][1..] == [];
  }

  /** The items of one more line of a prefix. */
  lemma ItemsPrefixStep(lines: seq<string>, k: nat)
    requires k < |lines|
    ensures Items(lines[..k + 1]) == Items(lines[..k]) + if IsBlank(lines[k]) then [] else [ItemOf(Strip(lines[k]))]
  {
    assert lines[..k + 1] == lines[..k] + [lines[k]];
    ItemsSnoc(lines[..k], lines[k]);
  }

  /** One more line adds at most one item, at the end. */
  lemma ItemsSnoc(ls: seq<string>, l: string)
    ensures Items(ls + [l]) == Items(ls) + if IsBlank(l) then [] else [ItemOf(Strip(l))]
  {
    ItemsAppend(ls, [l]);
    ItemsOne(l);
  }

  /** The items of a single line. */
  lemma ItemsOne(l: string)
    ensures Items([l]) == if IsBlank(l) then [] else [ItemOf(Strip(l))]
  {
    var ls := [l];
    assert ls[0] == l && ls[1..] == [];
    assert Items(ls) == (if IsBlank(l) then [] else [ItemOf(Strip(l))]) + Items([]);
  }

  /** `ys` is `xs` with `f` applied to each element. */
  predicate Pointwise<A, B(==)>(ys: seq<B>, xs: seq<A>, f: A -> B) {
    |ys| == |xs| && forall i :: 0 <= i < |ys| ==> ys[i] == f(xs[i])
  }

  /** Pointwise images extend at the front. */
  lemma PointwiseCons<A, B>(x: A, ys: seq<B>, xs: seq<A>, f: A -> B)
    requires Pointwise(ys, xs, f)
    ensures Pointwise([f(x)] + ys, [x] + xs, f)
  {
    var a, b := [f(x)] + ys, [x] + xs;
    forall i | 0 < i < |a| ensures a[i] == f(b[i]) {
      assert a[i] == ys[i - 1] && b[i] == xs[i - 1];
    }
  }

  /** The items are, position by position, what the lines become. */
  predicate Follows(items: seq<Item>, lines: seq<string>) {
    Pointwise(items, lines, ItemOf)
  }

  /**
   * One item per non-blank line, in input order: the `i`-th item is the one
   * the `i`-th non-blank line becomes.
   */
  lemma {:induction false} ItemsFollowLines(ls: seq<string>)
    ensures Follows(Items(ls), NonBlank(ls))
    decreases |ls|
  {
    if ls != [] {
      ItemsFollowLines(ls[1..]);
      var rest, nb := Items(ls[1..]), NonBlank(ls[1..]);
      if IsBlank(ls[0]) {
        assert Items(ls) == [] + rest && [] + rest == rest;
        assert NonBlank(ls) == [] + nb && [] + nb == nb;
      } else {
        PointwiseCons(Strip(ls[0]), rest, nb, ItemOf);
      }
    }
  }

  /** The kept lines are stripped and non-blank, and there are never more of them than lines. */
  lemma {:induction false} NonBlankTrimmed(ls: seq<string>)
    ensures forall l :: l in NonBlank(ls) ==> Trimmed(l)
    ensures |NonBlank(ls)| <= |ls|
    decreases |ls|
  {
    if ls != [] {
      NonBlankTrimmed(ls[1..]);
      var head := if IsBlank(ls[0]) then [] else [Strip(ls[0])];
      assert NonBlank(ls) == head + NonBlank(ls[1..]);
      forall l | l in NonBlank(ls) ensures Trimmed(l) {
        if l !in NonBlank(ls[1..]) {
          assert l in head;
        }
      }
    }
  }

  /** Every non-blank line is kept, stripped. */
  lemma {:induction false} NonBlankKeeps(ls: seq<string>, i: nat)
    requires i < |ls| && !IsBlank(ls[i])
    ensures Strip(ls[i]) in NonBlank(ls)
    decreases i
  {
    if i > 0 {
      NonBlankKeeps(ls[1..], i - 1);
      assert ls[1..][i - 1] == ls[i];
    }
  }

  /**
   * What an item says about its line: it is coaching exactly when the line
   * carries a coaching marker; dialogue keeps the stripped line whole; every
   * item's text is its own strip.
   */
  lemma ItemOfLine(l: string)
    requires !IsBlank(l)
    ensures ItemOf(Strip(l)).kind == Coaching <==> IsCoachingLine(Strip(l))
    ensures ItemOf(Strip(l)).kind == Dialogue ==> ItemOf(Strip(l)).content == Strip(l)
    ensures ItemOf(Strip(l)).kind == Dialogue ==> ItemOf(Strip(l)).content != ""
    ensures Strip(ItemOf(Strip(l)).content) == ItemOf(Strip(l)).content
  {
    var line := Strip(l);
    if IsCoachingLine(line) {
      StripIdempotent(CleanComment(line));
    } else {
      StripIdempotent(l);
    }
  }

  // ---- The clean-up on lines without markers ----

  /** A marker that does not occur is not cut. */
  lemma {:induction false} DropMarkerAbsent(s: string, marker: string, opt: Option<char>)
    requires marker != [] && !Contains(s, marker)
    ensures DropMarker(s, marker, opt) == s
    decreases |s|
  {
    if s != [] {
      DropMarkerAbsent(s[1..], marker, opt);
      assert s == [s[0]] + s[1..];
    }
  }

  /** Without a `*`, nothing matches the bold-coach pattern. */
  lemma {:induction false} DropBoldCoachNoStar(s: string)
    requires '*' !in s
    ensures DropBoldCoach(s) == s
    decreases |s|
  {
    if s != [] {
      assert !StartsWith(s, "**") by {
        if |s| >= 2 {
          assert s[..2][0] == s[0];
        }
      }
      assert '*' !in s[1..] by {
        assert forall c :: c in s[1..] ==> c in s;
      }
      DropBoldCoachNoStar(s[1..]);
      assert s == [s[0]] + s[1..];
    }
  }

  /** A text with none of the markers and no closing `]` or `*` passes the clean-up unchanged. */
  lemma CleanCommentPlain(s: string)
    requires '[' !in s && '*' !in s && !Contains(s, "COACHING NOTE:")
    requires s == [] || s[|s| - 1] != ']'
    ensures CleanComment(s) == s
  {
    var a := DropMarker(s, "[COACH", Some(':'));
    assert a == s by {
      AbsentFirstChar(s, "[COACH");
      DropMarkerAbsent(s, "[COACH", Some(':'));
    }
    var b := DropBoldCoach(a);
    assert b == s by {
      DropBoldCoachNoStar(s);
    }
    var c := DropMarker(b, "COACHING NOTE:", None);
    assert c == s by {
      DropMarkerAbsent(s, "COACHING NOTE:", None);
    }
    assert DropSuffix(c, "]") == s by {
      DropSuffixOtherEnd(s, "]");
    }
    assert DropSuffix(s, "**") == s by {
      assert s == [] || s[|s| - 1] != '*' by {
        if s != [] {
          assert s[|s| - 1] in s;
        }
      }
      DropSuffixOtherEnd(s, "**");
    }
  }

  /** The text of a note is a trimmed text with no brackets, no `*` and no `COACHING NOTE:`. */
  predicate PlainNote(x: string) {
    x != [] && !IsSpace(x[0]) && !IsSpace(x[|x| - 1])
    && '[' !in x && ']' !in x && '*' !in x && !Contains(x, "COACHING NOTE:")
  }

  /** A marker at the front, with its optional character, is cut together with the blanks after it. */
  lemma DropMarkerAtFront(m: string, o: char, t: string)
    requires m != []
    ensures DropMarker(m + [o] + t, m, Some(o)) == DropMarker(LStrip(t), m, Some(o))
  {
    var s := m + [o] + t;
    assert s[..|m|] == m;
    assert s[|m|..] == [o] + t;
    assert s[|m|..][1..] == t;
  }

  /** One leading blank before a text that does not start with one is stripped. */
  lemma LStripOneBlank(t: string)
    requires t != [] && !IsSpace(t[0])
    ensures LStrip(" " + t) == t
  {
    assert (" " + t)[1..] == t;
  }

  /** `[COACH:` and its blanks are cut from the front, and nothing else is cut before the end. */
  lemma DropCoachTag(x: string)
    requires x != [] && !IsSpace(x[0]) && '[' !in x
    ensures DropMarker("[COACH: " + x + "]", "[COACH", Some(':')) == x + "]"
  {
    var t := x + "]";
    assert "[COACH: " + x + "]" == "[COACH" + [':'] + (" " + t);
    DropMarkerAtFront("[COACH", ':', " " + t);
    LStripOneBlank(t);
    assert '[' !in t by {
      assert forall c :: c in t ==> c in x || c == ']';
    }
    AbsentFirstChar(t, "[COACH");
    DropMarkerAbsent(t, "[COACH", Some(':'));
  }

  /** The comment cleaning turns a bracketed note back into its text. */
  lemma CleanBracketNote(x: string)
    requires PlainNote(x)
    ensures CleanComment("[COACH: " + x + "]") == x
  {
    var t := x + "]";
    DropCoachTag(x);
    assert '*' !in t by {
      assert forall c :: c in t ==> c in x || c == ']';
    }
    DropBoldCoachNoStar(t);
    ContainsSnoc(x, ']', "COACHING NOTE:");
    DropMarkerAbsent(t, "COACHING NOTE:", None);
    assert DropSuffix(t, "]") == x by {
      assert t[..|t| - 1] == x;
    }
    assert DropSuffix(x, "**") == x by {
      assert x[|x| - 1] in x;
      DropSuffixOtherEnd(x, "**");
    }
  }

  /** A bracketed coaching note: the item is the note's text. */
  lemma BracketNote(x: string)
    requires PlainNote(x)
    ensures IsCoachingLine("[COACH: " + x + "]")
    ensures ItemOf("[COACH: " + x + "]") == Item(Coaching, x)
  {
    var s := "[COACH: " + x + "]";
    assert StartsWith(s, "[COACH:") by {
      assert s[..7] == "[COACH:";
    }
    CleanBracketNote(x);
    StripOfTrimmed(x);
  }

  /**
   * The accepted misclassification: a line that mentions `FEEDBACK:` counts as
   * coaching even when it is dialogue, and, carrying no marker to cut, keeps
   * its text whole.
   */
  lemma FeedbackMention(line: string)
    requires PlainNote(line) && Contains(line, "FEEDBACK:")
    ensures ItemOf(line) == Item(Coaching, line)
  {
    CleanCommentPlain(line);
    StripOfTrimmed(line);
  }

  // ---- Worked examples ----

  /**
   * A line without `[`, `*`, `N` or `F` carries no coaching marker: each of
   * the six markers holds one of these characters.
   */
  lemma NoMarkerLetters(l: string)
    requires '[' !in l && '*' !in l && 'N' !in l && 'F' !in l
    ensures !IsCoachingLine(l)
  {
    AbsentChar(l, "[COACH:", 0);
    AbsentChar(l, "**[COACH", 0);
    AbsentChar(l, "COACHING NOTE:", 6);
    AbsentChar(l, "**COACHING", 0);
    AbsentChar(l, "COACH INSIGHT:", 7);
    AbsentChar(l, "FEEDBACK:", 0);
  }

  /** A dialogue line for the worked examples: trimmed, one line, and without the marker letters. */
  predicate PlainDialogue(l: string) {
    l != [] && !IsSpace(l[0]) && !IsSpace(l[|l| - 1]) && '\n' !in l
    && '[' !in l && '*' !in l && 'N' !in l && 'F' !in l
  }

  /** A plain dialogue line is one dialogue item. */
  lemma ItemsDialogue(a: string)
    requires PlainDialogue(a)
    ensures Items([a]) == [Item(Dialogue, a)]
  {
    StripOfTrimmed(a);
    ItemsOne(a);
    NoMarkerLetters(a);
  }

  /** A bracketed note without newlines is a single line, and one coaching item. */
  lemma NoteLine(x: string)
    requires PlainNote(x) && '\n' !in x
    ensures '\n' !in "[COACH: " + x + "]"
    ensures Items(["[COACH: " + x + "]"]) == [Item(Coaching, x)]
  {
    NoteNoNewline(x);
    ItemsNote(x);
  }

  /** Brackets around a newline-free note add no newline. */
  lemma NoteNoNewline(x: string)
    requires '\n' !in x
    ensures '\n' !in "[COACH: " + x + "]"
  {
    var n := "[COACH: " + x + "]";
    assert n == "[COACH: " + x + "]";
    forall i | 0 <= i < |n| ensures n[i] != '\n' {
      if 8 <= i < 8 + |x| {
        assert n[i] == x[i - 8];
      }
    }
  }

  /** A bracketed note on a line of its own is one coaching item. */
  lemma ItemsNote(x: string)
    requires PlainNote(x)
    ensures Items(["[COACH: " + x + "]"]) == [Item(Coaching, x)]
  {
    var n := "[COACH: " + x + "]";
    assert n[0] == '[' && n[|n| - 1] == ']';
    StripOfTrimmed(n);
    ItemsOne(n);
    BracketNote(x);
  }

  /** The items of three lines are those of each line, in order. */
  lemma ItemsThree(a: string, n: string, b: string)
    ensures Items([a, n, b]) == Items([a]) + Items([n]) + Items([b])
  {
    assert [a, n, b] == [a] + [n] + [b];
    ItemsAppend([a] + [n], [b]);
    ItemsAppend([a], [n]);
  }

  /** Three newline-free lines joined by newlines split back into those lines. */
  lemma LinesThree(a: string, n: string, b: string)
    requires '\n' !in a && '\n' !in n && '\n' !in b
    ensures Lines(Join([a, n, b], "\n")) == [a, n, b]
  {
    LinesOfJoin([a, n, b]);
  }

  /** Three newline-free lines joined by newlines give the items of each line, in order. */
  lemma ItemsOfThreeLines(a: string, n: string, b: string)
    requires '\n' !in a && '\n' !in n && '\n' !in b
    ensures Items(Lines(Join([a, n, b], "\n"))) == Items([a]) + Items([n]) + Items([b])
  {
    LinesThree(a, n, b);
    ItemsThree(a, n, b);
  }

  /** A dialogue line, a bracketed coaching note, a dialogue line: three items in that order. */
  lemma DialogueNoteDialogue(a: string, x: string, b: string)
    requires PlainDialogue(a) && PlainNote(x) && '\n' !in x && PlainDialogue(b)
    ensures Items(Lines(Join([a, "[COACH: " + x + "]", b], "\n")))
            == [Item(Dialogue, a), Item(Coaching, x), Item(Dialogue, b)]
  {
    NoteLine(x);
    ItemsOfThreeLines(a, "[COACH: " + x + "]", b);
    ItemsDialogue(a);
    ItemsDialogue(b);
    ThreeSingletons(Item(Dialogue, a), Item(Coaching, x), Item(Dialogue, b));
  }

  /** Three one-element sequences in a row make the three-element sequence. */
  lemma ThreeSingletons<T>(p: T, q: T, r: T)
    ensures [p] + [q] + [r] == [p, q, r]
  {
  }

  /** Three pieces joined: the pieces with a separator between each two. */
  lemma JoinThree(a: string, b: string, c: string, sep: string)
    ensures Join([a, b, c], sep) == a + sep + b + sep + c
  {
    JoinCons(a, [b, c], sep);
    JoinCons(b, [c], sep);
    assert [a] + [b, c] == [a, b, c] && [b] + [c] == [b, c];
  }

  /** The example transcript is its three lines joined. */
  lemma CoachExampleText(text: string)
    requires text == "Rep: Hello\n[COACH: good opener]\nCustomer: Hi"
    ensures text == Join(["Rep: Hello", "[COACH: " + "good opener" + "]", "Customer: Hi"], "\n")
  {
    JoinThree("Rep: Hello", "[COACH: " + "good opener" + "]", "Customer: Hi", "\n");
  }

  /** The first dialogue line of the example carries no marker. */
  lemma RepHelloDialogue(l: string)
    requires l == "Rep: Hello"
    ensures PlainDialogue(l)
  {
  }

  /** The last dialogue line of the example carries no marker. */
  lemma CustomerHiDialogue(l: string)
    requires l == "Customer: Hi"
    ensures PlainDialogue(l)
  {
  }

  /** The note of the example is plain text. */
  lemma CoachExampleNote(x: string)
    requires x == "good opener"
    ensures PlainNote(x) && '\n' !in x
  {
    AbsentChar(x, "COACHING NOTE:", 0);
  }

  /** `Rep: Hello`, `[COACH: good opener]`, `Customer: Hi`: dialogue, coaching `good opener`, dialogue. */
  lemma CoachExample(text: string)
    requires text == "Rep: Hello\n[COACH: good opener]\nCustomer: Hi"
    ensures Items(Lines(text))
            == [Item(Dialogue, "Rep: Hello"), Item(Coaching, "good opener"), Item(Dialogue, "Customer: Hi")]
  {
    CoachExampleText(text);
    RepHelloDialogue("Rep: Hello");
    CustomerHiDialogue("Customer: Hi");
    CoachExampleNote("good opener");
    DialogueNoteDialogue("Rep: Hello", "good opener", "Customer: Hi");
  }

  /** `Rep: any FEEDBACK: yes` is taken for coaching and kept whole. */
  lemma FeedbackExample(line: string)
    requires line == "Rep: any FEEDBACK: yes"
    ensures ItemOf(line) == Item(Coaching, line)
  {
    ContainsAt(line, "FEEDBACK:", 9);
    FeedbackExampleNote(line);
    FeedbackMention(line);
  }

  /** The line of the feedback example is plain text. */
  lemma FeedbackExampleNote(line: string)
    requires line == "Rep: any FEEDBACK: yes"
    ensures PlainNote(line)
  {
    FeedbackExampleBrackets(line);
    AbsentChar(line, "COACHING NOTE:", 4);
  }

  /** The line of the feedback example holds no bracket, no star and no `I`, and is trimmed. */
  lemma FeedbackExampleBrackets(line: string)
    requires line == "Rep: any FEEDBACK: yes"
    ensures '[' !in line && ']' !in line && '*' !in line && "COACHING NOTE:"[4] !in line
    ensures line != [] && !IsSpace(line[0]) && !IsSpace(line[|line| - 1])
  {
  }
}
