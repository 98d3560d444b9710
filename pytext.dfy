/**
 * The parts of Python's `str` and `re` semantics that the report pipeline
 * relies on: whitespace, `strip`, `startswith`, `endswith`, `in`, `split`,
 * `join`, `replace`, `lower`, and the few regular-expression pieces that the
 * fixed patterns of the pipeline are made of (a greedy `\d+`, a lazy `.*?`
 * up to a delimiter, a pattern anchored by `$`).
 *
 * Python's `len`, indexing and slicing count code points; so do Dafny's on
 * `string`, whose characters are Unicode scalar values.
 */
module PyText {
  import opened Wrappers

  /** `str.isspace()` on one character; also what `\s` matches in a `re` pattern over `str`. */
  predicate IsSpace(c: char) {
    || ('\t' <= c <= '\r')
    || ('\U{1C}' <= c <= '\U{1F}')
    || c == ' '
    || c == '\U{85}'
    || c == '\U{A0}'
    || c == '\U{1680}'
    || ('\U{2000}' <= c <= '\U{200A}')
    || c == '\U{2028}'
    || c == '\U{2029}'
    || c == '\U{202F}'
    || c == '\U{205F}'
    || c == '\U{3000}'
  }

  /** The character class `[A-Z]`: a literal range, so ASCII letters only. */
  predicate IsAsciiUpper(c: char) {
    'A' <= c <= 'Z'
  }

  /** The class `\d`, restricted to the ASCII digits. */
  predicate IsAsciiDigit(c: char) {
    '0' <= c <= '9'
  }

  predicate AllSpace(s: string) {
    forall i :: 0 <= i < |s| ==> IsSpace(s[i])
  }

  /** `s.lstrip()`: the longest suffix of `s` that does not start with whitespace. */
  function LStrip(s: string): (r: string)
    ensures |r| <= |s|
    ensures AllSpace(s[..|s| - |r|])
    ensures r == [] || !IsSpace(r[0])
  {
    if s != [] && IsSpace(s[0]) then LStrip(s[1..]) else s
  }

  /**
   * What `lstrip()` keeps is a suffix of its argument. Kept out of the
   * contract of `LStrip`, where it makes proofs about many stripped texts at
   * once expensive.
   */
  lemma {:induction false} LStripSuffix(s: string)
    ensures LStrip(s) == s[|s| - |LStrip(s)|..]
    decreases |s|
  {
    if s != [] && IsSpace(s[0]) {
      LStripSuffix(s[1..]);
      assert s[1..][|s| - 1 - |LStrip(s)|..] == s[|s| - |LStrip(s)|..];
    }
  }

  /** `s.rstrip()`: the longest prefix of `s` that does not end with whitespace. */
  function RStrip(s: string): (r: string)
    ensures |r| <= |s| && r == s[..|r|]
    ensures AllSpace(s[|r|..])
    ensures r == [] || !IsSpace(r[|r| - 1])
  {
    if s != [] && IsSpace(s[|s| - 1]) then
      var init := s[..|s| - 1];
      var r := RStrip(init);
      assert s[..|r|] == init[..|r|];
      assert forall i :: |r| <= i < |s| ==> IsSpace(s[i]) by {
        forall i | |r| <= i < |s|
          ensures IsSpace(s[i])
        {
          if i < |s| - 1 {
            assert s[i] == init[|r|..][i - |r|];
          }
        }
      }
      r
    else s
  }

  /** `s.strip()`: `s` without its leading and trailing whitespace. */
  function Strip(s: string): (r: string)
    ensures r == [] <==> AllSpace(s)
    ensures r != [] ==> !IsSpace(r[0]) && !IsSpace(r[|r| - 1])
  {
    var l := LStrip(s);
    LStripSuffix(s);
    assert s == s[..|s| - |l|] + l;
    RStrip(l)
  }

  /** `not s.strip()`: the text is empty or whitespace only. */
  predicate IsBlank(s: string) {
    Strip(s) == ""
  }

  /** A text is blank exactly when its `strip()` is. */
  lemma BlankOfStrip(s: string)
    ensures IsBlank(Strip(s)) <==> IsBlank(s)
  {
    StripIdempotent(s);
  }

  /** A text with no whitespace at either end and not empty: what `strip()` leaves of a non-blank line. */
  predicate Trimmed(l: string) {
    l != [] && !IsSpace(l[0]) && !IsSpace(l[|l| - 1])
  }

  /** A text that neither starts nor ends with whitespace is its own `strip()`. */
  lemma StripOfTrimmed(s: string)
    requires s == [] || (!IsSpace(s[0]) && !IsSpace(s[|s| - 1]))
    ensures Strip(s) == s
  {
  }

  /** One leading blank before a trimmed text is stripped away. */
  lemma StripBlankPrefix(x: string)
    requires x != [] && !IsSpace(x[0]) && !IsSpace(x[|x| - 1])
    ensures Strip(" " + x) == x && !AllSpace(" " + x)
  {
    assert (" " + x)[1] == x[0];
    assert (" " + x)[1..] == x;
    assert LStrip(" " + x) == x;
  }

  /** `strip()` is idempotent. */
  lemma StripIdempotent(s: string)
    ensures Strip(Strip(s)) == Strip(s)
  {
    StripOfTrimmed(Strip(s));
  }

  /** Concatenation is associative. */
  lemma Assoc<T>(a: seq<T>, b: seq<T>, c: seq<T>)
    ensures a + b + c == a + (b + c)
  {
  }

  /** `s.startswith(p)`. */
  predicate StartsWith(s: string, p: string) {
    |p| <= |s| && s[..|p|] == p
  }

  /** `s.endswith(p)`. */
  predicate EndsWith(s: string, p: string) {
    |p| <= |s| && s[|s| - |p|..] == p
  }

  /** A prefix of a prefix is a prefix. */
  lemma StartsWithTrans(s: string, a: string, p: string)
    ensures StartsWith(s, a) && StartsWith(a, p) ==> StartsWith(s, p)
  {
    if StartsWith(s, a) && StartsWith(a, p) {
      assert s[..|p|] == s[..|a|][..|p|];
    }
  }

  /** `p in s`: `p` occurs in `s` at some position. */
  predicate Contains(s: string, p: string)
    decreases |s|
  {
    StartsWith(s, p) || (s != [] && Contains(s[1..], p))
  }

  /** An occurrence at a known position is an occurrence. */
  lemma {:induction false} ContainsAt(s: string, p: string, i: nat)
    requires i + |p| <= |s| && s[i..i + |p|] == p
    ensures Contains(s, p)
    decreases i
  {
    if i > 0 {
      assert s[1..][i - 1..i - 1 + |p|] == s[i..i + |p|];
      ContainsAt(s[1..], p, i - 1);
    } else {
      assert s[..|p|] == p;
    }
  }

  /** An explicit position of a pattern in a text that contains it. */
  lemma {:induction false} ContainsIndex(s: string, p: string) returns (i: nat)
    requires Contains(s, p)
    ensures i + |p| <= |s| && s[i..i + |p|] == p
    decreases |s|
  {
    if StartsWith(s, p) {
      i := 0;
    } else {
      var j := ContainsIndex(s[1..], p);
      assert s[1..][j..j + |p|] == s[j + 1..j + 1 + |p|];
      i := j + 1;
    }
  }

  /** An occurrence inside a slice is an occurrence in the whole text. */
  lemma ContainsInSlice(s: string, a: nat, b: nat, p: string)
    requires a <= b <= |s| && Contains(s[a..b], p)
    ensures Contains(s, p)
  {
    var t := s[a..b];
    var i := ContainsIndex(t, p);
    forall m | 0 <= m < |p| ensures s[a + i + m] == p[m] {
      assert p[m] == t[i..i + |p|][m] == t[i + m];
    }
    assert s[a + i..a + i + |p|] == p;
    ContainsAt(s, p, a + i);
  }

  /** `strip()` keeps a slice of its argument, so it creates no occurrence of a pattern. */
  lemma StripAvoids(s: string, p: string)
    requires !Contains(s, p)
    ensures !Contains(Strip(s), p)
  {
    var l := LStrip(s);
    LStripSuffix(s);
    var k := |s| - |l|;
    var r := RStrip(l);
    assert Strip(s) == r == l[..|r|];
    assert l[..|r|] == s[k..k + |r|];
    if Contains(Strip(s), p) {
      ContainsInSlice(s, k, k + |Strip(s)|, p);
    }
  }

  /** Appending a character that cannot end the pattern creates no occurrence of it. */
  lemma ContainsSnoc(x: string, c: char, p: string)
    requires p != [] && c != p[|p| - 1] && !Contains(x, p)
    ensures !Contains(x + [c], p)
  {
    var t := x + [c];
    if Contains(t, p) {
      var i := ContainsIndex(t, p);
      if i + |p| <= |x| {
        assert x[i..i + |p|] == t[i..i + |p|];
        ContainsAt(x, p, i);
      }
      assert false;
    }
  }

  /** For a one-character pattern, `in` on strings is membership. */
  lemma {:induction false} ContainsChar(s: string, c: char)
    ensures Contains(s, [c]) <==> c in s
    decreases |s|
  {
    if s != [] {
      ContainsChar(s[1..], c);
      assert s == [s[0]] + s[1..];
    }
  }

  /** A text that contains a non-empty pattern contains the pattern's first character. */
  lemma {:induction false} ContainsFirstChar(s: string, p: string)
    requires p != [] && Contains(s, p)
    ensures p[0] in s
    decreases |s|
  {
    if StartsWith(s, p) {
      assert s[0] == s[..|p|][0];
    } else {
      ContainsFirstChar(s[1..], p);
      assert p[0] in s[1..];
    }
  }

  /** A text that lacks the first character of a non-empty pattern does not contain the pattern. */
  lemma AbsentFirstChar(s: string, p: string)
    requires p != [] && p[0] !in s
    ensures !Contains(s, p)
  {
    if Contains(s, p) {
      ContainsFirstChar(s, p);
    }
  }

  /** `sep.join(parts)`. */
  function Join(parts: seq<string>, sep: string): string
  {
    if parts == [] then ""
    else if |parts| == 1 then parts[0]
    else parts[0] + sep + Join(parts[1..], sep)
  }

  /**
   * `s.split(sep)` for a non-empty separator: the pieces between the
   * occurrences of `sep` found scanning left to right without overlap.
   */
  function Split(s: string, sep: string): (parts: seq<string>)
    requires sep != []
    ensures |parts| >= 1 && StartsWith(s, parts[0])
    decreases |s|
  {
    if StartsWith(s, sep) then [""] + Split(s[|sep|..], sep)
    else if s == [] then [""]
    else
      var rest := Split(s[1..], sep);
      [[s[0]] + rest[0]] + rest[1..]
  }

  /** Joining a piece in front of other pieces puts a separator between them. */
  lemma JoinCons(x: string, rest: seq<string>, sep: string)
    requires rest != []
    ensures Join([x] + rest, sep) == x + sep + Join(rest, sep)
  {
    assert ([x] + rest)[1..] == rest;
  }

  /** Joining one piece gives the piece. */
  lemma JoinOne(x: string, sep: string)
    ensures Join([x], sep) == x
  {
  }

  /** Putting one more character in front of the first piece puts it in front of the join. */
  lemma JoinConsHead(c: char, parts: seq<string>, sep: string)
    requires |parts| >= 1
    ensures Join([[c] + parts[0]] + parts[1..], sep) == [c] + Join(parts, sep)
  {
    var q := [[c] + parts[0]] + parts[1..];
    if |parts| > 1 {
      assert q[1..] == parts[1..];
    }
  }

  /** `sep.join(s.split(sep)) == s`: splitting loses nothing. */
  lemma {:induction false} JoinSplit(s: string, sep: string)
    requires sep != []
    ensures Join(Split(s, sep), sep) == s
    decreases |s|
  {
    if StartsWith(s, sep) {
      JoinSplit(s[|sep|..], sep);
      JoinSplitAtSep(s, sep);
    } else if s != [] {
      JoinSplit(s[1..], sep);
      JoinSplitAtChar(s, sep);
    }
  }

  /** A text is its first `n` characters followed by the rest. */
  lemma SliceJoin<T>(s: seq<T>, n: nat)
    requires n <= |s|
    ensures [] + s[..n] + s[n..] == s
  {
  }

  /** The step of `JoinSplit` at a separator. */
  lemma JoinSplitAtSep(s: string, sep: string)
    requires sep != [] && StartsWith(s, sep)
    requires Join(Split(s[|sep|..], sep), sep) == s[|sep|..]
    ensures Join(Split(s, sep), sep) == s
  {
    var rest := Split(s[|sep|..], sep);
    assert Split(s, sep) == [""] + rest;
    JoinCons("", rest, sep);
    SliceJoin(s, |sep|);
  }

  /** The step of `JoinSplit` at an ordinary character. */
  lemma JoinSplitAtChar(s: string, sep: string)
    requires sep != [] && !StartsWith(s, sep) && s != []
    requires Join(Split(s[1..], sep), sep) == s[1..]
    ensures Join(Split(s, sep), sep) == s
  {
    JoinConsHead(s[0], Split(s[1..], sep), sep);
    assert s == [s[0]] + s[1..];
  }

  /** No piece of `s.split(sep)` contains `sep`. */
  lemma {:induction false} SplitPiecesAvoidSep(s: string, sep: string)
    requires sep != []
    ensures forall i :: 0 <= i < |Split(s, sep)| ==> !Contains(Split(s, sep)[i], sep)
    decreases |s|
  {
    var parts := Split(s, sep);
    if StartsWith(s, sep) {
      SplitPiecesAvoidSep(s[|sep|..], sep);
      var rest := Split(s[|sep|..], sep);
      assert parts == [""] + rest;
      forall i | 0 <= i < |parts| ensures !Contains(parts[i], sep) {
        if i > 0 {
          assert parts[i] == rest[i - 1];
        }
      }
    } else if s == [] {
    } else {
      SplitPiecesAvoidSep(s[1..], sep);
      var rest := Split(s[1..], sep);
      var first := [s[0]] + rest[0];
      assert parts == [first] + rest[1..];
      assert first[1..] == rest[0];
      StartsWithTrans(s, first, sep);
      forall i | 0 <= i < |parts| ensures !Contains(parts[i], sep) {
        if i > 0 {
          assert parts[i] == rest[i];
        }
      }
    }
  }

  /**
   * `s.replace(pat, repl)`: the occurrences of a non-empty `pat`, found
   * scanning left to right without overlap, each replaced by `repl`.
   */
  function Replace(s: string, pat: string, repl: string): string
    requires pat != []
    decreases |s|
  {
    if StartsWith(s, pat) then repl + Replace(s[|pat|..], pat, repl)
    else if s == [] then ""
    else [s[0]] + Replace(s[1..], pat, repl)
  }

  /** `s.replace(pat, repl) == repl.join(s.split(pat))`. */
  lemma {:induction false} ReplaceIsSplitJoin(s: string, pat: string, repl: string)
    requires pat != []
    ensures Replace(s, pat, repl) == Join(Split(s, pat), repl)
    decreases |s|
  {
    if StartsWith(s, pat) {
      ReplaceIsSplitJoin(s[|pat|..], pat, repl);
      ReplaceAtPattern(s, pat, repl);
    } else if s != [] {
      ReplaceIsSplitJoin(s[1..], pat, repl);
      ReplaceAtChar(s, pat, repl);
    }
  }

  /** The step of `ReplaceIsSplitJoin` at an occurrence of the pattern. */
  lemma ReplaceAtPattern(s: string, pat: string, repl: string)
    requires pat != [] && StartsWith(s, pat)
    requires Replace(s[|pat|..], pat, repl) == Join(Split(s[|pat|..], pat), repl)
    ensures Replace(s, pat, repl) == Join(Split(s, pat), repl)
  {
    var rest := Split(s[|pat|..], pat);
    assert Split(s, pat) == [""] + rest;
    JoinCons("", rest, repl);
    assert Replace(s, pat, repl) == repl + Join(rest, repl);
    assert "" + repl == repl;
  }

  /** The step of `ReplaceIsSplitJoin` at an ordinary character. */
  lemma ReplaceAtChar(s: string, pat: string, repl: string)
    requires pat != [] && !StartsWith(s, pat) && s != []
    requires Replace(s[1..], pat, repl) == Join(Split(s[1..], pat), repl)
    ensures Replace(s, pat, repl) == Join(Split(s, pat), repl)
  {
    var rest := Split(s[1..], pat);
    assert Split(s, pat) == [[s[0]] + rest[0]] + rest[1..];
    JoinConsHead(s[0], rest, repl);
  }

  /** Replacing a pattern that does not occur changes nothing. */
  lemma {:induction false} ReplaceAbsent(s: string, pat: string, repl: string)
    requires pat != [] && !Contains(s, pat)
    ensures Replace(s, pat, repl) == s
    decreases |s|
  {
    if s != [] {
      ReplaceAbsent(s[1..], pat, repl);
      assert s == [s[0]] + s[1..];
    }
  }

  /** A prefix that holds no first character of `pat` passes through `replace` untouched. */
  lemma {:induction false} ReplacePlainPrefix(a: string, t: string, pat: string, repl: string)
    requires pat != [] && pat[0] !in a
    ensures Replace(a + t, pat, repl) == a + Replace(t, pat, repl)
    decreases |a|
  {
    if a != [] {
      assert (a + t)[0] == a[0];
      assert (a + t)[1..] == a[1..] + t;
      ReplacePlainPrefix(a[1..], t, pat, repl);
      assert a == [a[0]] + a[1..];
    } else {
      assert a + t == t;
    }
  }

  /** An occurrence of `pat` at the front is replaced. */
  lemma ReplaceAtFront(t: string, pat: string, repl: string)
    requires pat != []
    ensures Replace(pat + t, pat, repl) == repl + Replace(t, pat, repl)
  {
    assert (pat + t)[..|pat|] == pat;
    assert (pat + t)[|pat|..] == t;
  }

  /** Replacing every `c` by a text without `c` leaves no `c`. */
  lemma {:induction false} ReplaceRemovesChar(s: string, c: char, repl: string)
    requires c !in repl
    ensures c !in Replace(s, [c], repl)
    decreases |s|
  {
    if s != [] {
      if StartsWith(s, [c]) {
        ReplaceRemovesChar(s[1..], c, repl);
      } else {
        ReplaceRemovesChar(s[1..], c, repl);
        assert s[..1] == [s[0]];
      }
    }
  }

  /** `re.sub(re.escape(suffix) + '$', '', s)` on a text without newlines: drop `suffix` once, at the very end. */
  function DropSuffix(s: string, suffix: string): string {
    if EndsWith(s, suffix) then s[..|s| - |suffix|] else s
  }

  /** A text that does not end in the suffix's last character keeps its end. */
  lemma DropSuffixOtherEnd(s: string, suffix: string)
    requires suffix != [] && (s == [] || s[|s| - 1] != suffix[|suffix| - 1])
    ensures DropSuffix(s, suffix) == s
  {
  }

  /** A text that contains a pattern contains each character of it. */
  lemma {:induction false} ContainsSomeChar(s: string, p: string, j: nat)
    requires j < |p| && Contains(s, p)
    ensures p[j] in s
    decreases |s|
  {
    if StartsWith(s, p) {
      assert s[..|p|][j] == s[j];
    } else {
      ContainsSomeChar(s[1..], p, j);
      assert p[j] in s[1..];
    }
  }

  /** A text that lacks some character of a pattern neither starts with nor contains the pattern. */
  lemma AbsentChar(s: string, p: string, j: nat)
    requires j < |p| && p[j] !in s
    ensures !StartsWith(s, p) && !Contains(s, p)
  {
    if Contains(s, p) {
      ContainsSomeChar(s, p, j);
    }
  }

  /** `str.lower()` on one character, ASCII letters only. */
  function LowerChar(c: char): char {
    if IsAsciiUpper(c) then (c as int + 32) as char else c
  }

  /** `str.lower()`, ASCII letters only. */
  function AsciiLower(s: string): string {
    seq(|s|, i requires 0 <= i < |s| => LowerChar(s[i]))
  }

  /** How many characters `\d+` takes at the front of `s` (greedily); 0 when it does not match. */
  function DigitRun(s: string): (n: nat)
    ensures n <= |s|
    ensures forall i :: 0 <= i < n ==> IsAsciiDigit(s[i])
    ensures n == |s| || !IsAsciiDigit(s[n])
  {
    if s != [] && IsAsciiDigit(s[0]) then 1 + DigitRun(s[1..]) else 0
  }

  /** The slices of a text, seen from its tail. */
  lemma TailSlices(s: string)
    requires s != []
    ensures forall k :: 1 <= k <= |s| ==> s[k..] == s[1..][k - 1..]
    ensures forall k :: 1 <= k <= |s| ==> s[..k] == [s[0]] + s[1..][..k - 1]
  {
  }

  /**
   * What a lazy `(.*?)` followed by `delim` captures at the front of `s`:
   * the length of the SHORTEST prefix of `s` that holds no newline (`.`
   * does not match one) and is followed by `delim`, if there is one.
   */
  function LazyUntil(s: string, delim: string): (r: Option<nat>)
    requires delim != []
    ensures r.Some? ==> r.value <= |s| && StartsWith(s[r.value..], delim) && '\n' !in s[..r.value]
    ensures r.Some? ==> forall k :: 0 <= k < r.value ==> !StartsWith(s[k..], delim)
    ensures r.None? ==> forall k :: 0 <= k <= |s| && '\n' !in s[..k] ==> !StartsWith(s[k..], delim)
    decreases |s|
  {
    if StartsWith(s, delim) then Some(0)
    else if s == [] || s[0] == '\n' then None
    else
      var r := LazyUntil(s[1..], delim);
      TailSlices(s);
      match r
      case None => None
      case Some(k) => Some(k + 1)
  }

  /** The lazy span stops at the first delimiter it meets. */
  lemma LazyUntilAt(s: string, d: string, k: nat)
    requires d != [] && k <= |s| && StartsWith(s[k..], d) && '\n' !in s[..k]
    requires forall j :: 0 <= j < k ==> !StartsWith(s[j..], d)
    ensures LazyUntil(s, d) == Some(k)
  {
  }

  /** A run of digits followed by a non-digit is exactly the digit run. */
  lemma {:induction false} DigitRunOf(d: string, t: string)
    requires forall i :: 0 <= i < |d| ==> IsAsciiDigit(d[i])
    requires t == [] || !IsAsciiDigit(t[0])
    ensures DigitRun(d + t) == |d|
    decreases |d|
  {
    if d != [] {
      assert (d + t)[1..] == d[1..] + t;
      DigitRunOf(d[1..], t);
    } else {
      assert d + t == t;
    }
  }

  /** An occurrence in a prefix is an occurrence in the whole text. */
  lemma {:induction false} ContainsInPrefix(s: string, k: nat, p: string)
    requires k <= |s| && Contains(s[..k], p)
    ensures Contains(s, p)
    decreases k
  {
    if StartsWith(s[..k], p) {
      assert s[..|p|] == s[..k][..|p|];
    } else {
      assert s[..k][1..] == s[1..][..k - 1];
      ContainsInPrefix(s[1..], k - 1, p);
    }
  }

  /** Removing every `**` leaves no `**`, even where the removal brings two stars together. */
  lemma {:induction false} RemoveDoubleStar(s: string)
    ensures !Contains(Replace(s, "**", ""), "**")
    decreases |s|
  {
    if StartsWith(s, "**") {
      assert Replace(s, "**", "") == "" + Replace(s[2..], "**", "");
      assert "" + Replace(s[2..], "**", "") == Replace(s[2..], "**", "");
      RemoveDoubleStar(s[2..]);
    } else if s != [] {
      var rest := Replace(s[1..], "**", "");
      RemoveDoubleStar(s[1..]);
      var r := [s[0]] + rest;
      assert r[1..] == rest;
      if s[0] == '*' && |s| >= 2 {
        assert s[1] != '*' by {
          assert s[..2] == [s[0], s[1]];
        }
        assert !StartsWith(s[1..], "**");
        assert rest == [s[1]] + Replace(s[2..], "**", "") by {
          assert s[1..][1..] == s[2..];
        }
      }
    }
  }

  /** Splitting a text that lacks the separator's first character gives the text itself. */
  lemma {:induction false} SplitNoSep(x: string, sep: string)
    requires sep != [] && sep[0] !in x
    ensures Split(x, sep) == [x]
    decreases |x|
  {
    if x != [] {
      assert !StartsWith(x, sep) by {
        assert x[0] != sep[0];
        if |sep| <= |x| {
          assert x[..|sep|][0] == x[0];
        }
      }
      SplitNoSep(x[1..], sep);
      assert x == [x[0]] + x[1..];
    } else {
      assert !StartsWith(x, sep);
    }
  }

  /** A first piece without the separator's first character is split off whole. */
  lemma {:induction false} SplitPlainPrefix(x: string, sep: string, rest: string)
    requires sep != [] && sep[0] !in x
    ensures Split(x + sep + rest, sep) == [x] + Split(rest, sep)
    decreases |x|
  {
    var s := x + sep + rest;
    if x == [] {
      assert s == sep + rest;
      assert s[..|sep|] == sep && s[|sep|..] == rest;
    } else {
      assert !StartsWith(s, sep) by {
        assert s[0] == x[0];
        if |sep| <= |s| {
          assert s[..|sep|][0] == s[0];
        }
      }
      assert s[1..] == x[1..] + sep + rest;
      SplitPlainPrefix(x[1..], sep, rest);
      assert x == [x[0]] + x[1..];
    }
  }

  /** Splitting pieces joined by a separator that none of them contains gives the pieces back. */
  lemma {:induction false} SplitJoin(parts: seq<string>, sep: string)
    requires sep != [] && parts != []
    requires forall i :: 0 <= i < |parts| ==> sep[0] !in parts[i]
    ensures Split(Join(parts, sep), sep) == parts
    decreases |parts|
  {
    if |parts| == 1 {
      SplitNoSep(parts[0], sep);
    } else {
      SplitPlainPrefix(parts[0], sep, Join(parts[1..], sep));
      SplitJoin(parts[1..], sep);
      assert parts == [parts[0]] + parts[1..];
    }
  }

  /** Every character of every piece comes from the text that was split. */
  lemma {:induction false} SplitChars(s: string, sep: string)
    requires sep != []
    ensures forall i, c :: 0 <= i < |Split(s, sep)| && c in Split(s, sep)[i] ==> c in s
    decreases |s|
  {
    if StartsWith(s, sep) {
      SplitChars(s[|sep|..], sep);
      SplitCharsAtSep(s, sep);
    } else if s != [] {
      SplitChars(s[1..], sep);
      SplitCharsAtChar(s, sep);
    }
  }

  /** The step of `SplitChars` at a separator. */
  lemma SplitCharsAtSep(s: string, sep: string)
    requires sep != [] && StartsWith(s, sep)
    requires forall i, c :: 0 <= i < |Split(s[|sep|..], sep)| && c in Split(s[|sep|..], sep)[i] ==> c in s[|sep|..]
    ensures forall i, c :: 0 <= i < |Split(s, sep)| && c in Split(s, sep)[i] ==> c in s
  {
    forall i, c | 0 <= i < |Split(s, sep)| && c in Split(s, sep)[i] ensures c in s {
      if i > 0 {
        assert Split(s, sep)[i] == Split(s[|sep|..], sep)[i - 1];
        assert c in s[|sep|..];
      }
    }
  }

  /** The step of `SplitChars` at an ordinary character. */
  lemma SplitCharsAtChar(s: string, sep: string)
    requires sep != [] && !StartsWith(s, sep) && s != []
    requires forall i, c :: 0 <= i < |Split(s[1..], sep)| && c in Split(s[1..], sep)[i] ==> c in s[1..]
    ensures forall i, c :: 0 <= i < |Split(s, sep)| && c in Split(s, sep)[i] ==> c in s
  {
    var rest := Split(s[1..], sep);
    var parts := Split(s, sep);
    assert parts == [[s[0]] + rest[0]] + rest[1..];
    assert s == [s[0]] + s[1..];
    forall i, c | 0 <= i < |parts| && c in parts[i] ensures c in s {
      if i == 0 {
        assert c in [s[0]] + rest[0];
        if c != s[0] {
          assert c in rest[0];
        }
      } else {
        assert parts[i] == rest[i];
      }
    }
  }

  /** `text.split('\n')`: the lines of a text. */
  function Lines(text: string): seq<string> {
    Split(text, "\n")
  }

  /** Lines round-trip with joining: the lines of joined newline-free lines are those lines. */
  lemma LinesOfJoin(ls: seq<string>)
    requires ls != [] && forall i :: 0 <= i < |ls| ==> '\n' !in ls[i]
    ensures Lines(Join(ls, "\n")) == ls
  {
    SplitJoin(ls, "\n");
  }

  /** The lines of a text hold no newline. */
  lemma LinesHaveNoNewline(text: string)
    ensures forall i :: 0 <= i < |Lines(text)| ==> '\n' !in Lines(text)[i]
  {
    SplitPiecesAvoidSep(text, "\n");
    forall i | 0 <= i < |Lines(text)| ensures '\n' !in Lines(text)[i] {
      ContainsChar(Lines(text)[i], '\n');
    }
  }
}
