/** String helpers shared by the client controller (JavaScript semantics) and the
    server-side transformer (Python semantics). Strings are sequences of code points. */
module Strings {

  /** Code points removed by JavaScript's String.prototype.trim and skipped by
      parseInt: the WhiteSpace and LineTerminator productions of ECMAScript. */
  predicate IsJsSpace(c: char) {
    c == '\t' || c == '\U{b}' || c == '\U{c}' || c == ' ' || c == '\U{a0}' || c == '\U{feff}'
    || c == '\n' || c == '\r' || c == '\U{2028}' || c == '\U{2029}'
    || c == '\U{1680}' || ('\U{2000}' <= c <= '\U{200a}') || c == '\U{202f}' || c == '\U{205f}'
    || c == '\U{3000}'
  }

  /** Code points for which Python's str.isspace holds; str.split() and str.strip()
      with no argument use exactly these. */
  predicate IsPySpace(c: char) {
    ('\t' <= c <= '\r') || ('\U{1c}' <= c <= ' ') || c == '\U{85}' || c == '\U{a0}'
    || c == '\U{1680}' || ('\U{2000}' <= c <= '\U{200a}') || c == '\U{2028}' || c == '\U{2029}'
    || c == '\U{202f}' || c == '\U{205f}' || c == '\U{3000}'
  }

  /** Which language's notion of whitespace a trimming operation uses. */
  datatype Space = Js | Py

  predicate IsSpace(sp: Space, c: char) {
    match sp
    case Js => IsJsSpace(c)
    case Py => IsPySpace(c)
  }

  predicate StartsWith(s: string, prefix: string) {
    |prefix| <= |s| && s[..|prefix|] == prefix
  }

  /** Drops the longest prefix made of characters satisfying `ws`. */
  function DropLeading(s: string, ws: Space): (r: string)
    ensures |r| <= |s| && r == s[|s| - |r|..]
    ensures r == [] || !IsSpace(ws, r[0])
  {
    if s == [] || !IsSpace(ws, s[0]) then s else DropLeading(s[1..], ws)
  }

  /** Drops the longest suffix made of characters satisfying `ws`. */
  function DropTrailing(s: string, ws: Space): (r: string)
    ensures |r| <= |s| && r == s[..|r|]
    ensures r == [] || !IsSpace(ws, r[|r| - 1])
  {
    if s == [] || !IsSpace(ws, s[|s| - 1]) then s else DropTrailing(s[..|s| - 1], ws)
  }

  /** JavaScript `s.trim()`. */
  function JsTrim(s: string): (r: string)
    ensures r == [] || (!IsJsSpace(r[0]) && !IsJsSpace(r[|r| - 1]))
  {
    DropTrailing(DropLeading(s, Js), Js)
  }

  /** `r` is the window of `s` starting at `i`, and everything outside it is white space. */
  predicate TrimmedAt(ws: Space, s: string, r: string, i: int) {
    && 0 <= i <= |s| - |r| && r == s[i..i + |r|]
    && AllSpace(ws, s, 0, i) && AllSpace(ws, s, i + |r|, |s|)
  }

  /** Every character of `s` at positions `lo` to `hi - 1` is white space. */
  predicate AllSpace(ws: Space, s: string, lo: int, hi: int) {
    forall k :: lo <= k < hi && 0 <= k < |s| ==> IsSpace(ws, s[k])
  }

  /** Trimming both ends keeps a window of `s` and drops only white space around it. */
  lemma TrimWindow(s: string, ws: Space, t: string, r: string)
    requires t == DropLeading(s, ws) && r == DropTrailing(t, ws)
    ensures TrimmedAt(ws, s, r, |s| - |t|)
  {
    WindowParts(s, ws, t, r);
  }

  /** The parts of `TrimmedAt`, each stated on its own. */
  lemma WindowParts(s: string, ws: Space, t: string, r: string)
    requires t == DropLeading(s, ws) && r == DropTrailing(t, ws)
    ensures 0 <= |s| - |t| <= |s| - |r| && r == s[|s| - |t|..|s| - |t| + |r|]
    ensures AllSpace(ws, s, 0, |s| - |t|)
    ensures AllSpace(ws, s, |s| - |t| + |r|, |s|)
  {
    DroppedLeadingSpace(s, ws);
    TrailingWindow(s, ws, t, r);
  }

  lemma TrailingWindow(s: string, ws: Space, t: string, r: string)
    requires t == DropLeading(s, ws) && r == DropTrailing(t, ws)
    ensures 0 <= |s| - |t| <= |s| - |r| && r == s[|s| - |t|..|s| - |t| + |r|]
    ensures AllSpace(ws, s, |s| - |t| + |r|, |s|)
  {
    DroppedTrailingSpace(t, ws);
    ShiftWindow(s, ws, t, r);
  }

  /** A prefix `r` of a suffix `t` of `s`, with white space after it in `t`, is a window
      of `s` with white space after it in `s`. */
  lemma ShiftWindow(s: string, ws: Space, t: string, r: string)
    requires |t| <= |s| && t == s[|s| - |t|..] && |r| <= |t| && r == t[..|r|]
    requires AllSpace(ws, t, |r|, |t|)
    ensures 0 <= |s| - |t| <= |s| - |r| && r == s[|s| - |t|..|s| - |t| + |r|]
    ensures AllSpace(ws, s, |s| - |t| + |r|, |s|)
  {
    var i := |s| - |t|;
    WindowOfSuffix(s, t, r, i);
    ShiftSpaces(s, i, t, |r|, ws);
  }

  lemma WindowOfSuffix(s: string, t: string, r: string, i: int)
    requires 0 <= i <= |s| && t == s[i..] && |r| <= |t| && r == t[..|r|]
    ensures r == s[i..i + |r|]
  {
  }

  lemma ShiftSpaces(s: string, i: int, t: string, m: int, ws: Space)
    requires 0 <= i <= |s| && t == s[i..] && 0 <= m
    requires AllSpace(ws, t, m, |t|)
    ensures AllSpace(ws, s, i + m, |s|)
  {
    forall k | i + m <= k < |s|
      ensures IsSpace(ws, s[k])
    {
      assert s[k] == t[k - i];
    }
  }

  /** Every character DropLeading removes is white space. */
  lemma {:induction false} DroppedLeadingSpace(s: string, ws: Space)
    ensures AllSpace(ws, s, 0, |s| - |DropLeading(s, ws)|)
    decreases |s|
  {
    if s != [] && IsSpace(ws, s[0]) {
      DroppedLeadingSpace(s[1..], ws);
    }
  }

  /** Every character DropTrailing removes is white space. */
  lemma {:induction false} DroppedTrailingSpace(s: string, ws: Space)
    ensures AllSpace(ws, s, |DropTrailing(s, ws)|, |s|)
    decreases |s|
  {
    if s != [] && IsSpace(ws, s[|s| - 1]) {
      DroppedTrailingSpace(s[..|s| - 1], ws);
    }
  }

  /** `trim` keeps a window of the text, removes only white space around it, and leaves
      no white space at either end. */
  lemma JsTrimMeaning(s: string)
    ensures JsTrim(s) == [] || (!IsJsSpace(JsTrim(s)[0]) && !IsJsSpace(JsTrim(s)[|JsTrim(s)| - 1]))
    ensures exists i :: TrimmedAt(Js, s, JsTrim(s), i)
  {
    var t := DropLeading(s, Js);
    TrimWindow(s, Js, t, DropTrailing(t, Js));
    assert TrimmedAt(Js, s, JsTrim(s), |s| - |t|);
  }

  /** Python `s.strip()`. */
  function PyStrip(s: string): (r: string)
    ensures r == [] || (!IsPySpace(r[0]) && !IsPySpace(r[|r| - 1]))
  {
    DropTrailing(DropLeading(s, Py), Py)
  }

  /** `strip` keeps a window of the text, removes only white space around it, and leaves
      no white space at either end. */
  lemma PyStripMeaning(s: string)
    ensures PyStrip(s) == [] || (!IsPySpace(PyStrip(s)[0]) && !IsPySpace(PyStrip(s)[|PyStrip(s)| - 1]))
    ensures exists i :: TrimmedAt(Py, s, PyStrip(s), i)
  {
    var t := DropLeading(s, Py);
    TrimWindow(s, Py, t, DropTrailing(t, Py));
    assert TrimmedAt(Py, s, PyStrip(s), |s| - |t|);
  }

  /** The longest prefix of `s` containing no Python whitespace. */
  function Word(s: string): (r: string)
    ensures |r| <= |s| && r == s[..|r|]
    ensures |r| < |s| ==> IsPySpace(s[|r|])
    ensures s != [] && !IsPySpace(s[0]) ==> r != []
  {
    if s == [] || IsPySpace(s[0]) then [] else [s[0]] + Word(s[1..])
  }

  /** Python `s.split()`: the maximal runs of non-whitespace characters, in order. */
  function Split(s: string): (r: seq<string>)
    decreases |s|
  {
    var t := DropLeading(s, Py);
    if t == [] then []
    else
      var w := Word(t);
      [w] + Split(t[|w|..])
  }

  /** A word contains no whitespace. */
  lemma {:induction false} WordIsToken(s: string)
    requires s != [] && !IsPySpace(s[0])
    ensures IsToken(Word(s))
    decreases |s|
  {
    if |s| > 1 && !IsPySpace(s[1]) {
      WordIsToken(s[1..]);
      ConsTail(s[0], Word(s[1..]));
    }
  }

  /** Every word of `s.split()` is a non-empty run of non-whitespace characters. */
  lemma {:induction false} SplitTokens(s: string)
    ensures forall k :: 0 <= k < |Split(s)| ==> IsToken(Split(s)[k])
    decreases |s|
  {
    var t := DropLeading(s, Py);
    if t != [] {
      var w := Word(t);
      WordIsToken(t);
      SplitTokens(t[|w|..]);
      ConsTail(w, Split(t[|w|..]));
    }
  }

  /** A non-empty run of non-whitespace characters. */
  predicate IsToken(w: string) {
    w != [] && forall i :: 0 <= i < |w| ==> !IsPySpace(w[i])
  }

  /** No whitespace from index `i` on; a scan that unfolds on constant strings. */
  predicate NonSpaceFrom(w: string, i: nat)
    decreases |w| - i
  {
    i >= |w| || (!IsPySpace(w[i]) && NonSpaceFrom(w, i + 1))
  }

  lemma {:induction false} NonSpaceFromMeaning(w: string, i: nat)
    requires i <= |w| && NonSpaceFrom(w, i)
    ensures forall j :: i <= j < |w| ==> !IsPySpace(w[j])
    decreases |w| - i
  {
    if i < |w| {
      NonSpaceFromMeaning(w, i + 1);
    }
  }

  lemma TokenConcat(a: string, b: string)
    requires IsToken(a) && IsToken(b)
    ensures IsToken(a + b)
  {
    assert forall i :: |a| <= i < |a + b| ==> (a + b)[i] == b[i - |a|];
  }

  /** Python `sub in s` for strings. */
  predicate Contains(s: string, sub: string)
    decreases |s|
  {
    StartsWith(s, sub) || (s != [] && Contains(s[1..], sub))
  }

  /** Python `s.find(c)` for a one-character needle: the first index of `c`, or -1. */
  function FindChar(s: string, c: char): (r: int)
    ensures -1 <= r < |s|
    ensures r == -1 <==> c !in s
    ensures r >= 0 ==> s[r] == c && c !in s[..r]
  {
    if s == [] then -1
    else if s[0] == c then 0
    else
      var k := FindChar(s[1..], c);
      assert s[1..][..(if k < 0 then 0 else k)] == s[1..(if k < 0 then 1 else k + 1)];
      if k < 0 then -1 else k + 1
  }

  /** Python `s.replace(pat, rep)` for a non-empty `pat`: every non-overlapping
      occurrence, scanning left to right, is replaced. */
  function Replace(s: string, pat: string, rep: string): (r: string)
    requires pat != []
    ensures !Contains(s, pat) ==> r == s
    decreases |s|
  {
    if s == [] then []
    else if StartsWith(s, pat) then rep + Replace(s[|pat|..], pat, rep)
    else [s[0]] + Replace(s[1..], pat, rep)
  }

  /** `pat` occurs in `s` starting at `i`. */
  predicate OccursAt(s: string, pat: string, i: int) {
    0 <= i <= |s| - |pat| && s[i..i + |pat|] == pat
  }

  /** Replacing where the first occurrence of `pat` starts at `i`: the text before it is
      kept, the occurrence becomes `rep`, and the scan resumes after it. */
  lemma {:induction false} ReplaceFirst(s: string, pat: string, rep: string, i: int)
    requires pat != [] && OccursAt(s, pat, i)
    requires forall j :: 0 <= j < i ==> !OccursAt(s, pat, j)
    ensures Replace(s, pat, rep) == s[..i] + rep + Replace(s[i + |pat|..], pat, rep)
    decreases i
  {
    if i == 0 {
      ReplaceAtStart(s, pat, rep);
    } else {
      var t := s[1..];
      ShiftOccurrences(s, pat, i);
      ReplaceFirst(t, pat, rep, i - 1);
      ReplaceAfterFirstChar(s, t, pat, rep, i);
    }
  }

  /** When `pat` does not start `s`, the first occurrence found in `s[1..]` is the first
      occurrence in `s`. */
  lemma ReplaceAfterFirstChar(s: string, t: string, pat: string, rep: string, i: int)
    requires pat != [] && 0 < i && OccursAt(s, pat, i) && !OccursAt(s, pat, 0) && t == s[1..]
    requires Replace(t, pat, rep) == t[..i - 1] + rep + Replace(t[i - 1 + |pat|..], pat, rep)
    ensures Replace(s, pat, rep) == s[..i] + rep + Replace(s[i + |pat|..], pat, rep)
  {
    var after := Replace(s[i + |pat|..], pat, rep);
    ReplaceNotAtStart(s, pat, rep);
    assert t[i - 1 + |pat|..] == s[i + |pat|..];
    ReplaceFirstGlue(s, t, rep, after, i, Replace(s, pat, rep), Replace(t, pat, rep));
  }

  lemma ReplaceAtStart(s: string, pat: string, rep: string)
    requires pat != [] && OccursAt(s, pat, 0)
    ensures Replace(s, pat, rep) == s[..0] + rep + Replace(s[|pat|..], pat, rep)
  {
    assert s[..|pat|] == s[0..|pat|];
    assert StartsWith(s, pat);
    assert s[..0] + rep == rep;
  }

  lemma ReplaceNotAtStart(s: string, pat: string, rep: string)
    requires pat != [] && s != [] && !OccursAt(s, pat, 0)
    ensures Replace(s, pat, rep) == [s[0]] + Replace(s[1..], pat, rep)
  {
    if |pat| <= |s| {
      assert s[..|pat|] == s[0..|pat|];
    }
  }

  /** Occurrences in `s[1..]` are those in `s`, one position earlier. */
  lemma ShiftOccurrences(s: string, pat: string, i: int)
    requires 0 < i && OccursAt(s, pat, i)
    requires forall j :: 0 <= j < i ==> !OccursAt(s, pat, j)
    ensures OccursAt(s[1..], pat, i - 1)
    ensures forall j :: 0 <= j < i - 1 ==> !OccursAt(s[1..], pat, j)
  {
    assert s[1..][i - 1..i - 1 + |pat|] == s[i..i + |pat|];
    forall j | 0 <= j < i - 1
      ensures !OccursAt(s[1..], pat, j)
    {
      ShiftOccurs(s, pat, j);
      assert !OccursAt(s, pat, j + 1);
    }
  }

  lemma ShiftOccurs(s: string, pat: string, j: int)
    requires 0 <= j && s != []
    ensures OccursAt(s[1..], pat, j) <==> OccursAt(s, pat, j + 1)
  {
    if j + |pat| <= |s| - 1 {
      assert s[1..][j..j + |pat|] == s[j + 1..j + 1 + |pat|];
    }
  }

  lemma ReplaceFirstGlue(s: string, t: string, rep: string, after: string, i: int, x: string, y: string)
    requires 0 < i <= |s| && t == s[1..]
    requires x == [s[0]] + y && y == t[..i - 1] + rep + after
    ensures x == s[..i] + rep + after
  {
    assert [s[0]] + t[..i - 1] == s[..i];
  }

  /** Python `s.replace(pat, rep)`: unchanged without an occurrence; otherwise the first
      occurrence is replaced and the rest of the text is replaced in turn. */
  lemma ReplaceMeaning(s: string, pat: string, rep: string)
    requires pat != []
    ensures !Contains(s, pat) ==> Replace(s, pat, rep) == s
    ensures forall i :: OccursAt(s, pat, i) && (forall j :: 0 <= j < i ==> !OccursAt(s, pat, j)) ==>
              Replace(s, pat, rep) == s[..i] + rep + Replace(s[i + |pat|..], pat, rep)
  {
    forall i | OccursAt(s, pat, i) && (forall j :: 0 <= j < i ==> !OccursAt(s, pat, j))
      ensures Replace(s, pat, rep) == s[..i] + rep + Replace(s[i + |pat|..], pat, rep)
    {
      ReplaceFirst(s, pat, rep, i);
    }
  }

  /** The words of a list other than `x`, in order. */
  function Without(ws: seq<string>, x: string): (r: seq<string>)
    ensures forall w :: w in r <==> w in ws && w != x
  {
    if ws == [] then [] else (if ws[0] == x then [] else [ws[0]]) + Without(ws[1..], x)
  }

  /** A word that does not contain the token `x`, followed by white space or the end,
      is copied by the replacement. */
  lemma {:induction false} ReplaceSkipsWord(w: string, rest: string, x: string, rep: string)
    requires IsToken(x) && !Contains(w, x) && (rest == [] || IsPySpace(rest[0]))
    ensures Replace(w + rest, x, rep) == w + Replace(rest, x, rep)
    decreases |w|
  {
    if w == [] {
      assert w + rest == rest;
    } else {
      var s := w + rest;
      var after := Replace(rest, x, rep);
      NoTokenAtWordStart(w, rest, x);
      assert s[1..] == w[1..] + rest;
      assert !Contains(w[1..], x);
      ReplaceSkipsWord(w[1..], rest, x, rep);
      calc {
        Replace(s, x, rep);
        [s[0]] + Replace(w[1..] + rest, x, rep);
        [w[0]] + (w[1..] + after);
        { ConcatAssoc([w[0]], w[1..], after); }
        ([w[0]] + w[1..]) + after;
        { assert [w[0]] + w[1..] == w; }
        w + after;
      }
    }
  }

  /** A token that is not inside the word `w` does not start where `w` starts, when `w`
      is followed by white space or the end. */
  lemma NoTokenAtWordStart(w: string, rest: string, x: string)
    requires IsToken(x) && !StartsWith(w, x) && (rest == [] || IsPySpace(rest[0]))
    ensures !StartsWith(w + rest, x)
  {
    var s := w + rest;
    if |x| <= |w| {
      assert s[..|x|] == w[..|x|];
    } else if |x| <= |s| {
      assert s[|w|] == rest[0];
      assert !IsPySpace(x[|w|]);
    }
  }

  /** Cutting out a token that no other word contains removes exactly its copies from
      the words. */
  lemma {:induction false} ReplaceTokenWords(s: string, x: string)
    requires IsToken(x)
    requires OnlyWhole(Split(s), x)
    ensures Split(Replace(s, x, "")) == Without(Split(s), x)
    decreases |s|, 1
  {
    if s == [] {
    } else if IsPySpace(s[0]) {
      ReplaceTokenWordsSpace(s, x);
    } else {
      ReplaceTokenWordsWord(s, x);
    }
  }

  lemma {:induction false} ReplaceTokenWordsSpace(s: string, x: string)
    requires IsToken(x) && s != [] && IsPySpace(s[0])
    requires OnlyWhole(Split(s), x)
    ensures Split(Replace(s, x, "")) == Without(Split(s), x)
    decreases |s|, 0
  {
    var u := s[1..];
    assert s == [s[0]] + u;
    ReplaceAfterSpace(s[0], u, x, "");
    SplitAfterSpace(s[0], u);
    ReplaceTokenWords(u, x);
    SplitAfterSpace(s[0], Replace(u, x, ""));
  }

  lemma {:induction false} ReplaceTokenWordsWord(s: string, x: string)
    requires IsToken(x) && s != [] && !IsPySpace(s[0])
    requires OnlyWhole(Split(s), x)
    ensures Split(Replace(s, x, "")) == Without(Split(s), x)
    decreases |s|, 0
  {
    var w := Word(s);
    var rest := s[|w|..];
    FirstWord(s);
    OnlyWholeCons(w, Split(rest), x);
    ReplaceTokenWords(rest, x);
    ReplaceOneWord(w, rest, x);
    WithoutCons(w, Split(rest), x);
  }

  /** `x` occurs in the words only as a whole word. */
  predicate OnlyWhole(ws: seq<string>, x: string) {
    forall w :: w in ws ==> w == x || !Contains(w, x)
  }

  lemma OnlyWholeCons(w: string, ws: seq<string>, x: string)
    requires OnlyWhole([w] + ws, x)
    ensures OnlyWhole(ws, x) && (w == x || !Contains(w, x))
  {
    assert w in [w] + ws;
    assert forall v :: v in ws ==> v in [w] + ws;
  }

  /** A text starting with a non-space character: its first word, and the words after. */
  lemma FirstWord(s: string)
    requires s != [] && !IsPySpace(s[0])
    ensures IsToken(Word(s)) && s == Word(s) + s[|Word(s)|..]
    ensures Split(s) == [Word(s)] + Split(s[|Word(s)|..])
    ensures s[|Word(s)|..] == [] || IsPySpace(s[|Word(s)|..][0])
  {
    var w := Word(s);
    WordIsToken(s);
    WordSplitsText(s, w);
    SplitStep(s, s, w, s[|w|..]);
  }

  lemma WordSplitsText(s: string, w: string)
    requires w == Word(s)
    ensures s == w + s[|w|..]
    ensures s[|w|..] == [] || IsPySpace(s[|w|..][0])
  {
    if |w| < |s| {
      assert s[|w|..][0] == s[|w|];
    }
  }

  /** The replacement on a word followed by white space or the end: the word vanishes if
      it is the token, and is kept otherwise. */
  lemma ReplaceOneWord(w: string, rest: string, x: string)
    requires IsToken(w) && IsToken(x) && (rest == [] || IsPySpace(rest[0]))
    requires w == x || !Contains(w, x)
    ensures Split(Replace(w + rest, x, "")) == (if w == x then [] else [w]) + Split(Replace(rest, x, ""))
  {
    if w == x {
      var u := Replace(rest, x, "");
      assert Replace(w + rest, x, "") == u by {
        assert StartsWith(w + rest, x);
        assert (w + rest)[|x|..] == rest;
        ConcatEmpty(u);
      }
      ConcatEmpty(Split(u));
    } else {
      ReplaceSkipsWord(w, rest, x, "");
      WordThenReplaced(w, rest, x);
    }
  }

  lemma WithoutCons(w: string, ws: seq<string>, x: string)
    ensures Without([w] + ws, x) == (if w == x then [] else [w]) + Without(ws, x)
  {
    ConsTail(w, ws);
  }

  /** A leading white-space character is copied by the replacement. */
  lemma ReplaceAfterSpace(c: char, u: string, x: string, rep: string)
    requires IsPySpace(c) && IsToken(x)
    ensures Replace([c] + u, x, rep) == [c] + Replace(u, x, rep)
  {
    assert !StartsWith([c] + u, x) by {
      assert ([c] + u)[0] != x[0];
    }
    ConsTail(c, u);
  }

  /** A leading white-space character does not change the words. */
  lemma SplitAfterSpace(c: char, u: string)
    requires IsPySpace(c)
    ensures Split([c] + u) == Split(u)
  {
    DropLeadingSpace(c, u);
    SplitViaDrop([c] + u, u);
  }

  /** A word, then the replaced remainder that starts with white space or is empty. */
  lemma WordThenReplaced(w: string, rest: string, x: string)
    requires IsToken(w) && IsToken(x) && (rest == [] || IsPySpace(rest[0]))
    ensures Split(w + Replace(rest, x, "")) == [w] + Split(Replace(rest, x, ""))
  {
    if rest == [] {
      WordAtEnd(w, x);
    } else {
      WordThenReplacedSpace(w, rest, x);
    }
  }

  lemma WordAtEnd(w: string, x: string)
    requires IsToken(w) && x != []
    ensures Split(w + Replace([], x, "")) == [w] + Split(Replace([], x, ""))
  {
    var u := Replace([], x, "");
    assert u == [];
    assert w + u == w;
    SplitOfToken(w);
    assert Split(u) == [];
    ConcatEmpty([w]);
  }

  lemma WordThenReplacedSpace(w: string, rest: string, x: string)
    requires IsToken(w) && IsToken(x) && rest != [] && IsPySpace(rest[0])
    ensures Split(w + Replace(rest, x, "")) == [w] + Split(Replace(rest, x, ""))
  {
    var c := rest[0];
    var v := Replace(rest[1..], x, "");
    assert rest == [c] + rest[1..];
    ReplaceAfterSpace(c, rest[1..], x, "");
    assert Replace(rest, x, "") == [c] + v;
    WordThenSpace(w, c, v);
  }

  lemma WordThenSpace(w: string, c: char, v: string)
    requires IsToken(w) && IsPySpace(c)
    ensures Split(w + ([c] + v)) == [w] + Split([c] + v)
  {
    SplitOfToken(w);
    ConcatAssoc(w, [c], v);
    SplitConcat(w, c, v);
    SplitAfterSpace(c, v);
  }


  predicate IsDigit(c: char) { '0' <= c <= '9' }

  function DigitValue(c: char): nat
    requires IsDigit(c)
  {
    (c as int) - ('0' as int)
  }

  function DigitChar(d: nat): (c: char)
    requires d < 10
    ensures IsDigit(c) && DigitValue(c) == d
  {
    (('0' as int) + d) as char
  }

  predicate AllDigits(s: string) {
    forall i :: 0 <= i < |s| ==> IsDigit(s[i])
  }

  /** The value of a string of decimal digits, most significant first. */
  function DigitsValue(s: string): nat
    requires AllDigits(s)
  {
    if s == [] then 0 else DigitsValue(s[..|s| - 1]) * 10 + DigitValue(s[|s| - 1])
  }

  /** Decimal rendering of a natural number, as JavaScript's String(n) and Python's str(n). */
  function NatToString(n: nat): (r: string)
    ensures r != [] && AllDigits(r)
    ensures |r| > 1 ==> r[0] != '0'
  {
    if n < 10 then [DigitChar(n)] else NatToString(n / 10) + [DigitChar(n % 10)]
  }

  /** Decimal rendering of an integer, with a leading '-' for negatives. */
  function IntToString(i: int): (r: string)
    ensures r != []
  {
    if i < 0 then "-" + NatToString(-i) else NatToString(i)
  }

  /** The longest prefix of decimal digits. */
  function DigitPrefix(s: string): (r: string)
    ensures AllDigits(r) && |r| <= |s| && r == s[..|r|]
    ensures |r| < |s| ==> !IsDigit(s[|r|])
  {
    if s == [] || !IsDigit(s[0]) then [] else [s[0]] + DigitPrefix(s[1..])
  }

  lemma {:induction false} DigitPrefixOfDigits(s: string)
    requires AllDigits(s)
    ensures DigitPrefix(s) == s
  {
    if s != [] {
      DigitPrefixOfDigits(s[1..]);
    }
  }

  /** JavaScript `parseInt(s)` for decimal text: leading whitespace is skipped, an
      optional sign is read, then the longest run of digits; None stands for NaN. */
  function ParseInt(s: string): (r: Option<int>)
    ensures r.Some? ==> exists i :: 0 <= i < |s| && IsDigit(s[i])
  {
    var t := DropLeading(s, Js);
    var negative := t != [] && t[0] == '-';
    var body := if t != [] && (t[0] == '-' || t[0] == '+') then t[1..] else t;
    var d := DigitPrefix(body);
    if d == [] then None
    else
      assert IsDigit(s[|s| - |body|]);
      Some(if negative then -(DigitsValue(d) as int) else DigitsValue(d) as int)
  }

  lemma {:induction false} DigitsValueOfNat(n: nat)
    ensures DigitsValue(NatToString(n)) == n
  {
    if n >= 10 {
      DigitsValueOfNat(n / 10);
      var s := NatToString(n);
      assert s[..|s| - 1] == NatToString(n / 10);
    }
  }

  /** Distinct numbers have distinct decimal renderings. */
  lemma NatToStringInjective(a: nat, b: nat)
    requires NatToString(a) == NatToString(b)
    ensures a == b
  {
    DigitsValueOfNat(a);
    DigitsValueOfNat(b);
  }

  /** parseInt inverts the decimal rendering used for hidden inputs and data attributes. */
  lemma ParseIntOfIntToString(i: int)
    ensures ParseInt(IntToString(i)) == Some(i)
  {
    var n: nat := if i < 0 then -i else i;
    var s := NatToString(n);
    var text := IntToString(i);
    assert text[0] == '-' || IsDigit(text[0]);
    NoSpaceNoDrop(text, Js);
    ParseDigits(s);
    DigitsValueOfNat(n);
    if i < 0 {
      assert text[1..] == s;
    } else {
      assert text == s;
    }
  }

  lemma NoSpaceNoDrop(s: string, ws: Space)
    requires s != [] && (s[0] == '-' || IsDigit(s[0]))
    ensures DropLeading(s, ws) == s
  {
    assert !IsSpace(ws, s[0]);
  }

  lemma ParseDigits(s: string)
    requires s != [] && AllDigits(s)
    ensures DigitPrefix(s) == s
    ensures s[0] != '-' && s[0] != '+'
  {
    DigitPrefixOfDigits(s);
  }

  lemma ParseIntOfNatToString(n: nat)
    ensures ParseInt(NatToString(n)) == Some(n)
  {
    ParseIntOfIntToString(n);
  }

  /** Python's int() digit group: digits with single underscores between them. */
  predicate IsPyDigitGroup(s: string) {
    && s != [] && IsDigit(s[0]) && IsDigit(s[|s| - 1])
    && (forall i :: 0 <= i < |s| ==> IsDigit(s[i]) || s[i] == '_')
    && (forall i :: 0 <= i < |s| - 1 ==> s[i] == '_' ==> s[i + 1] != '_')
  }

  function DropUnderscores(s: string): (r: string)
    requires forall i :: 0 <= i < |s| ==> IsDigit(s[i]) || s[i] == '_'
    ensures AllDigits(r)
  {
    if s == [] then [] else (if s[0] == '_' then [] else [s[0]]) + DropUnderscores(s[1..])
  }

  /** Python `int(s)` for base-10 text: surrounding whitespace, an optional sign and a
      digit group; None stands for the ValueError raised on anything else. */
  function PyInt(s: string): (r: Option<int>)
    ensures r.Some? ==> PyStrip(s) != []
  {
    var t := PyStrip(s);
    var body := if t != [] && (t[0] == '-' || t[0] == '+') then t[1..] else t;
    if !IsPyDigitGroup(body) then None
    else
      var v := DigitsValue(DropUnderscores(body)) as int;
      Some(if t[0] == '-' then -v else v)
  }

  /** A substring of a suffix is a substring. */
  lemma {:induction false} ContainsSuffix(s: string, k: int, x: string)
    requires 0 <= k <= |s| && Contains(s[k..], x)
    ensures Contains(s, x)
    decreases k
  {
    if k > 0 {
      assert s[1..][k - 1..] == s[k..];
      ContainsSuffix(s[1..], k - 1, x);
    }
  }

  lemma {:induction false} LongerNotContained(s: string, x: string)
    requires |x| > |s|
    ensures !Contains(s, x)
    decreases |s|
  {
    if s != [] {
      LongerNotContained(s[1..], x);
    }
  }

  lemma {:induction false} WordBeforeSpace(y: string, c: char, z: string)
    requires IsPySpace(c)
    ensures Word(y + [c] + z) == Word(y)
    decreases |y|
  {
    if y != [] && !IsPySpace(y[0]) {
      assert (y + [c] + z)[1..] == y[1..] + [c] + z;
      WordBeforeSpace(y[1..], c, z);
    }
  }

  lemma {:induction false} WordOfToken(w: string)
    requires IsToken(w)
    ensures Word(w) == w
    decreases |w|
  {
    if |w| > 1 {
      assert IsToken(w[1..]) by {
        assert forall i :: 0 <= i < |w| - 1 ==> w[1..][i] == w[i + 1];
      }
      WordOfToken(w[1..]);
    }
  }

  /** Split only looks at what is left after the leading whitespace. */
  lemma SplitViaDrop(x: string, y: string)
    requires DropLeading(x, Py) == DropLeading(y, Py)
    ensures Split(x) == Split(y)
  {
  }

  lemma {:induction false} DropLeadingConcat(a: string, y: string)
    ensures DropLeading(a + y, Py) == if DropLeading(a, Py) == [] then DropLeading(y, Py) else DropLeading(a, Py) + y
    decreases |a|
  {
    if a != [] && IsPySpace(a[0]) {
      assert (a + y)[1..] == a[1..] + y;
      DropLeadingConcat(a[1..], y);
    } else if a == [] {
      assert a + y == y;
    }
  }

  /** A whitespace character separates: the words of `a c b` are those of `a`, then
      those of `b`. */
  lemma {:induction false} SplitConcat(a: string, c: char, b: string)
    requires IsPySpace(c)
    ensures Split(a + [c] + b) == Split(a) + Split(b)
    decreases |a|, 1
  {
    if DropLeading(a, Py) == [] {
      var t := [c] + b;
      DropLeadingConcat(a, t);
      ConcatAssoc(a, [c], b);
      DropLeadingSpace(c, b);
      SplitViaDrop(a + [c] + b, b);
      assert Split(a) == [];
      ConcatEmpty(Split(b));
    } else {
      SplitConcatWord(a, c, b);
    }
  }

  lemma DropLeadingSpace(c: char, b: string)
    requires IsPySpace(c)
    ensures DropLeading([c] + b, Py) == DropLeading(b, Py)
  {
    ConsTail(c, b);
  }

  lemma {:induction false} SplitConcatWord(a: string, c: char, b: string)
    requires IsPySpace(c) && DropLeading(a, Py) != []
    ensures Split(a + [c] + b) == Split(a) + Split(b)
    decreases |a|, 0
  {
    var s := a + [c] + b;
    var d := DropLeading(a, Py);
    var w := Word(d);
    var rest := d[|w|..];
    var t := [c] + b;
    DropLeadingConcat(a, t);
    ConcatAssoc(a, [c], b);
    assert DropLeading(s, Py) == d + t;
    ConcatAssoc(d, [c], b);
    WordBeforeSpace(d, c, b);
    assert Word(d + t) == w;
    DropConcat(d, t, |w|);
    ConcatAssoc(rest, [c], b);
    assert (d + t)[|w|..] == rest + [c] + b;
    SplitStep(s, d + t, w, rest + [c] + b);
    SplitStep(a, d, w, rest);
    SplitConcat(rest, c, b);
    ConcatAssoc([w], Split(rest), Split(b));
  }

  lemma DropConcat<T>(x: seq<T>, y: seq<T>, n: int)
    requires 0 <= n <= |x|
    ensures (x + y)[n..] == x[n..] + y
  {
  }

  /** One step of Split: the first word, then the words of what follows it. */
  lemma SplitStep(x: string, t: string, w: string, rest: string)
    requires t == DropLeading(x, Py) && t != [] && w == Word(t) && rest == t[|w|..]
    ensures Split(x) == [w] + Split(rest)
  {
  }

  lemma ConcatAssoc<T>(x: seq<T>, y: seq<T>, z: seq<T>)
    ensures x + (y + z) == (x + y) + z
  {
  }

  lemma ConcatEmpty<T>(x: seq<T>)
    ensures x + [] == x && [] + x == x
  {
  }

  lemma ConsTail<T>(c: T, y: seq<T>)
    ensures ([c] + y)[1..] == y
    ensures forall k :: 0 <= k < |y| ==> ([c] + y)[k + 1] == y[k]
  {
  }

  lemma PrefixOfPrefix<T>(s: seq<T>, w: seq<T>, n: int)
    requires |w| <= |s| && w == s[..|w|] && 0 <= n <= |w|
    ensures w[..n] == s[..n]
  {
  }

  lemma SplitOfToken(w: string)
    requires IsToken(w)
    ensures Split(w) == [w]
  {
    WordOfToken(w);
    assert w[|w|..] == [];
  }

  lemma {:induction false} SplitDropTrailing(x: string)
    ensures Split(DropTrailing(x, Py)) == Split(x)
    decreases |x|
  {
    if x != [] && IsPySpace(x[|x| - 1]) {
      var y := x[..|x| - 1];
      assert x == y + [x[|x| - 1]] + [];
      SplitConcat(y, x[|x| - 1], []);
      ConcatEmpty(Split(y));
      assert Split(x) == Split(y);
      assert DropTrailing(x, Py) == DropTrailing(y, Py);
      SplitDropTrailing(y);
    }
  }

  /** Stripping surrounding whitespace does not change the words. */
  lemma SplitStrip(x: string)
    ensures Split(PyStrip(x)) == Split(x)
  {
    var d := DropLeading(x, Py);
    assert DropLeading(d, Py) == d;
    SplitDropTrailing(d);
    SplitViaDrop(d, x);
  }

  /** Every word is a substring. */
  lemma {:induction false} TokenIsSubstring(s: string, w: string)
    requires w in Split(s)
    ensures Contains(s, w)
    decreases |s|
  {
    var t := DropLeading(s, Py);
    var v := Word(t);
    var k := |s| - |t|;
    assert s[k..] == t;
    if w == v {
      assert StartsWith(t, w);
    } else {
      assert w in Split(t[|v|..]);
      TokenIsSubstring(t[|v|..], w);
      ContainsSuffix(t, |v|, w);
    }
    ContainsSuffix(s, k, w);
  }

  /** Whether `x` is a substring of one of the words `ws`. */
  predicate InSomeWord(ws: seq<string>, x: string) {
    ws != [] && (Contains(ws[0], x) || InSomeWord(ws[1..], x))
  }

  lemma InSomeWordCons(w: string, ws: seq<string>, x: string)
    ensures InSomeWord([w] + ws, x) <==> Contains(w, x) || InSomeWord(ws, x)
  {
    ConsTail(w, ws);
  }

  /** A substring without whitespace lies inside a single word. */
  lemma {:induction false} SubstringInToken(s: string, x: string)
    requires IsToken(x) && Contains(s, x)
    ensures InSomeWord(Split(s), x)
    decreases |s|, 1
  {
    if IsPySpace(s[0]) {
      assert s[0] != x[0];
      assert !StartsWith(s, x);
      assert Split(s) == Split(s[1..]) by {
        SplitViaDrop(s, s[1..]);
      }
      SubstringInToken(s[1..], x);
    } else if StartsWith(s, x) {
      SubstringAtWord(s, x);
    } else {
      SubstringAfterFirst(s, x);
    }
  }

  lemma SubstringAtWord(s: string, x: string)
    requires IsToken(x) && StartsWith(s, x) && !IsPySpace(s[0])
    ensures InSomeWord(Split(s), x)
  {
    var w := Word(s);
    assert Split(s) == [w] + Split(s[|w|..]) by {
      SplitStep(s, s, w, s[|w|..]);
    }
    assert forall i :: 0 <= i < |x| ==> s[i] == x[i];
    assert |w| < |s| ==> IsPySpace(s[|w|]);
    assert |x| <= |w|;
    PrefixOfPrefix(s, w, |x|);
    assert StartsWith(w, x);
    InSomeWordCons(w, Split(s[|w|..]), x);
  }

  lemma {:induction false} SubstringAfterFirst(s: string, x: string)
    requires IsToken(x) && Contains(s, x) && !StartsWith(s, x) && !IsPySpace(s[0])
    ensures InSomeWord(Split(s), x)
    decreases |s|, 0
  {
    var w := Word(s);
    assert Split(s) == [w] + Split(s[|w|..]) by {
      SplitStep(s, s, w, s[|w|..]);
    }
    assert Contains(s[1..], x);
    SubstringInToken(s[1..], x);
    InSomeWordCons(w, Split(s[|w|..]), x);
    if |w| == 1 {
      assert s[1..] == s[|w|..];
    } else {
      SplitOfTail(s, w);
      InSomeWordCons(w[1..], Split(s[|w|..]), x);
      assert Contains(w[1..], x) ==> Contains(w, x);
    }
  }

  lemma SplitOfTail(s: string, w: string)
    requires |w| > 1 && w == Word(s) && !IsPySpace(s[0])
    ensures Split(s[1..]) == [w[1..]] + Split(s[|w|..])
  {
    ConsTail(s[0], Word(s[1..]));
    assert Word(s[1..]) == w[1..];
    assert s[1..][|w| - 1..] == s[|w|..];
    SplitStep(s[1..], s[1..], w[1..], s[|w|..]);
  }

  /** A string containing `a + b` contains `a`. */
  lemma {:induction false} ContainsPrefixOfNeedle(s: string, a: string, b: string)
    requires Contains(s, a + b)
    ensures Contains(s, a)
    decreases |s|
  {
    if StartsWith(s, a + b) {
      assert s[..|a|] == (a + b)[..|a|] == a;
    } else {
      ContainsPrefixOfNeedle(s[1..], a, b);
    }
  }

  /** Searching a concatenation whose first part lacks the character. */
  lemma {:induction false} FindCharConcat(a: string, b: string, c: char)
    requires FindChar(a, c) == -1
    ensures FindChar(a + b, c) == if FindChar(b, c) < 0 then -1 else |a| + FindChar(b, c)
    decreases |a|
  {
    if a != [] {
      assert (a + b)[1..] == a[1..] + b;
      FindCharConcat(a[1..], b, c);
    } else {
      assert a + b == b;
    }
  }

  /** Stripping a string that starts with a non-space keeps a prefix of it, at least up
      to any later non-space position `k`. */
  lemma StripKeepsPrefix(s: string, k: int)
    requires 0 <= k < |s| && !IsPySpace(s[0]) && !IsPySpace(s[k])
    ensures |PyStrip(s)| > k && PyStrip(s) == s[..|PyStrip(s)|]
  {
    assert DropLeading(s, Py) == s;
    TrailingKeeps(s, k);
  }

  lemma {:induction false} TrailingKeeps(s: string, k: int)
    requires 0 <= k < |s| && !IsPySpace(s[k])
    ensures |DropTrailing(s, Py)| > k
    decreases |s|
  {
    if IsPySpace(s[|s| - 1]) {
      TrailingKeeps(s[..|s| - 1], k);
    }
  }

  lemma {:induction false} DropUnderscoresOfDigits(s: string)
    requires AllDigits(s)
    ensures DropUnderscores(s) == s
    decreases |s|
  {
    if s != [] {
      DropUnderscoresOfDigits(s[1..]);
      assert s == [s[0]] + s[1..];
    }
  }

  /** Python's int() inverts the decimal rendering. */
  lemma PyIntOfNatToString(n: nat)
    ensures PyInt(NatToString(n)) == Some(n)
  {
    PyIntOfDigits(NatToString(n));
    DigitsValueOfNat(n);
  }

  /** Python's int() reads a string of decimal digits as its value. */
  lemma PyIntOfDigits(d: string)
    requires d != [] && AllDigits(d)
    ensures PyInt(d) == Some(DigitsValue(d))
  {
    StripDigits(d);
    assert IsPyDigitGroup(d);
    DropUnderscoresOfDigits(d);
  }

  lemma StripDigits(d: string)
    requires d != [] && AllDigits(d)
    ensures PyStrip(d) == d
  {
    NoSpaceNoDrop(d, Py);
    assert !IsPySpace(d[|d| - 1]);
  }

  datatype Option<+T> = None | Some(value: T)
}
