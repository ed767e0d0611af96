/** The server-side reading of a choice list (src/extension.py:154-161, 182-230): which
    list item is the correct answer, and the text an alternative displays. The Markdown
    stash of raw HTML blocks is a list of strings; an item whose text holds a stash
    placeholder refers to one of them by number. */
module ChoiceItems {
  import opened Strings

  /** One `<li>` of a choice list: its leading text ("" when the element has none) and,
      when it holds an `<input type="checkbox">`, whether that input carries `checked`. */
  datatype Item = Item(text: string, checkbox: Option<bool>)

  /** Python's `list[n]`: a negative index counts from the end; None is IndexError. */
  function ListIndex(blocks: seq<string>, n: int): (r: Option<string>)
    ensures r.Some? <==> -|blocks| <= n < |blocks|
    ensures 0 <= n < |blocks| ==> r == Some(blocks[n])
  {
    if 0 <= n < |blocks| then Some(blocks[n])
    else if -|blocks| <= n < 0 then Some(blocks[n + |blocks|])
    else None
  }

  /** `__is_answer(stash_key)` (extension.py:154-161): the number after the first ':'
      names a stash block, which is the answer when it mentions `checked`. A missing ':'
      or a non-number (ValueError) and an index out of range (IndexError) give false. */
  function IsAnswerKey(key: string, stash: seq<string>): bool {
    IndexIsAnswer(KeyIndex(key), stash)
  }

  /** The number after the first ':' of a key, as Python's int() reads it. */
  function KeyIndex(key: string): Option<int> {
    var colon := FindChar(key, ':');
    if colon < 0 then None else PyInt(key[colon + 1..])
  }

  /** Whether the stashed block a parsed index names is checked. */
  predicate IndexIsAnswer(v: Option<int>, stash: seq<string>) {
    match v
    case None => false
    case Some(n) =>
      match ListIndex(stash, n)
      case None => false
      case Some(html) => Contains(html, "checked") || Contains(html, "checked=\"checked\"")
  }

  const Etx: char := '\U{3}'

  /** The text before the first ETX character, when there is one. */
  function StashKey(t: string): Option<string> {
    var e := FindChar(t, Etx);
    if e < 0 then None else Some(t[..e])
  }

  /** `t.startswith("[X]") or t.startswith("[x]")`, written character by character. */
  predicate AnswerMarker(t: string) {
    |t| >= 3 && t[0] == '[' && (t[1] == 'X' || t[1] == 'x') && t[2] == ']'
  }

  /** The same with `[ ]` allowed too. */
  predicate AnyMarker(t: string) {
    |t| >= 3 && t[0] == '[' && (t[1] == 'X' || t[1] == 'x' || t[1] == ' ') && t[2] == ']'
  }

  /** The three tests of the choice loop (extension.py:185-209): a checked checkbox, a
      `[X]`/`[x]` marker at the start of the stripped text, or a stash placeholder before
      the first ETX that `__is_answer` accepts. */
  predicate ItemIsAnswer(it: Item, stash: seq<string>) {
    || it.checkbox == Some(true)
    || (it.text != [] && AnswerMarker(PyStrip(it.text)))
    || (it.text != [] && StashKey(it.text).Some? && IsAnswerKey(StashKey(it.text).value, stash))
  }

  /** A marker at the very start of the text is cut off and the rest stripped. */
  function Unmarked(text: string): string {
    if AnyMarker(text) then PyStrip(text[3..]) else text
  }

  /** Everything up to and including the first ETX is dropped. */
  function AfterEtx(t: string): string {
    var e := FindChar(t, Etx);
    if e >= 0 then t[e + 1..] else t
  }

  /** The display text (extension.py:215-228); an item without text displays "". */
  function DisplayText(it: Item): string {
    if it.text == [] then [] else AfterEtx(Unmarked(it.text))
  }

  /** The second test of `__is_answer` adds nothing: a block containing
      `checked="checked"` contains `checked`. */
  lemma CheckedTestSubsumed(html: string)
    ensures Contains(html, "checked=\"checked\"") ==> Contains(html, "checked")
  {
    assert "checked=\"checked\"" == "checked" + "=\"checked\"";
    if Contains(html, "checked=\"checked\"") {
      ContainsPrefixOfNeedle(html, "checked", "=\"checked\"");
    }
  }

  /** Dropping through the first ETX leaves a text without ETX unchanged, and otherwise
      exactly the part after the first ETX. */
  lemma AfterEtxMeaning(t: string)
    ensures Etx !in t ==> AfterEtx(t) == t
    ensures Etx in t ==> exists head :: Etx !in head && t == head + [Etx] + AfterEtx(t)
  {
    var e := FindChar(t, Etx);
    if e >= 0 {
      assert t == t[..e] + [Etx] + t[e + 1..];
    }
  }

  /** An item written `[X] rest` or `[x] rest` is an answer, whatever else it holds. */
  lemma MarkedAnswer(m: string, rest: string, checkbox: Option<bool>, stash: seq<string>)
    requires m == "[X]" || m == "[x]"
    ensures ItemIsAnswer(Item(m + rest, checkbox), stash)
  {
    assert |m| == 3 && m[0] == '[' && m[2] == ']' && AnyMarker(m);
    MarkerKept(m, rest);
    assert AnswerMarker(PyStrip(m + rest));
  }

  /** An item written with any of the three markers displays the stripped rest, when that
      has no ETX. */
  lemma MarkedDisplay(m: string, rest: string, checkbox: Option<bool>)
    requires m == "[X]" || m == "[x]" || m == "[ ]"
    requires Etx !in PyStrip(rest)
    ensures DisplayText(Item(m + rest, checkbox)) == PyStrip(rest)
  {
    assert |m| == 3 && m[0] == '[' && m[2] == ']' && AnyMarker(m);
    MarkerKept(m, rest);
  }

  /** An item written `[ ] rest`, without a checked checkbox and without an ETX, is not an
      answer. */
  lemma UnmarkedNotAnswer(rest: string, checkbox: Option<bool>, stash: seq<string>)
    requires checkbox != Some(true) && Etx !in rest
    ensures !ItemIsAnswer(Item("[ ]" + rest, checkbox), stash)
  {
    BlankMarkerStripped(rest);
    NoEtxAdded("[ ]", rest);
    NoTestHolds(Item("[ ]" + rest, checkbox), stash);
  }

  lemma BlankMarkerStripped(rest: string)
    ensures !AnswerMarker(PyStrip("[ ]" + rest))
  {
    MarkerKept("[ ]", rest);
  }

  lemma NoEtxAdded(m: string, rest: string)
    requires Etx !in m && Etx !in rest
    ensures Etx !in m + rest
  {
  }

  /** An item none of whose three tests can hold. */
  lemma NoTestHolds(it: Item, stash: seq<string>)
    requires it.checkbox != Some(true) && !AnswerMarker(PyStrip(it.text)) && Etx !in it.text
    ensures !ItemIsAnswer(it, stash)
  {
  }

  /** A three-character marker starting and ending with a non-space survives stripping,
      and is cut off by the display rule. */
  lemma MarkerKept(m: string, rest: string)
    requires |m| == 3 && !IsPySpace(m[0]) && !IsPySpace(m[2]) && AnyMarker(m)
    ensures Unmarked(m + rest) == PyStrip(rest)
    ensures |PyStrip(m + rest)| >= 3 && PyStrip(m + rest)[..3] == m
  {
    MarkerCut(m, rest);
    MarkerStripped(m, rest);
  }

  lemma MarkerCut(m: string, rest: string)
    requires |m| == 3 && AnyMarker(m)
    ensures Unmarked(m + rest) == PyStrip(rest)
  {
    var s := m + rest;
    assert s[..3] == m && s[3..] == rest;
  }

  lemma MarkerStripped(m: string, rest: string)
    requires |m| == 3 && !IsPySpace(m[0]) && !IsPySpace(m[2])
    ensures |PyStrip(m + rest)| >= 3 && PyStrip(m + rest)[..3] == m
  {
    var s := m + rest;
    assert s[0] == m[0] && s[2] == m[2];
    StripKeepsPrefix(s, 2);
    var p := PyStrip(s);
    assert p[..3] == s[..3];
    assert s[..3] == m;
  }

  /** The placeholder Python-Markdown's stash writes for block number `n`. */
  function Placeholder(n: nat): string {
    "\U{2}wzxhzdk:" + NatToString(n) + [Etx]
  }

  /** An item whose text starts with a stash placeholder is the answer exactly when it has
      a checked checkbox or the named block exists and mentions `checked`; it displays
      what follows the placeholder. */
  lemma PlaceholderItem(n: nat, rest: string, checkbox: Option<bool>, stash: seq<string>)
    ensures var it := Item(Placeholder(n) + rest, checkbox);
            ItemIsAnswer(it, stash) <==> checkbox == Some(true) || (n < |stash| && Contains(stash[n], "checked"))
    ensures DisplayText(Item(Placeholder(n) + rest, checkbox)) == rest
  {
    var s := Placeholder(n) + rest;
    PlaceholderSplits(n, rest);
    PlaceholderUnmarked(n, rest);
    PlaceholderKey(n, stash);
  }

  lemma PlaceholderSplits(n: nat, rest: string)
    ensures StashKey(Placeholder(n) + rest) == Some("\U{2}wzxhzdk:" + NatToString(n))
    ensures AfterEtx(Placeholder(n) + rest) == rest
  {
    var d := NatToString(n);
    assert Etx !in "\U{2}wzxhzdk:";
    assert Etx !in d by {
      assert forall i :: 0 <= i < |d| ==> IsDigit(d[i]);
    }
    SplitAtEtx("\U{2}wzxhzdk:", d, rest);
  }

  /** The first ETX after a part without one. */
  lemma SplitAtEtx(pre: string, d: string, rest: string)
    requires Etx !in pre && Etx !in d
    ensures StashKey(pre + d + [Etx] + rest) == Some(pre + d)
    ensures AfterEtx(pre + d + [Etx] + rest) == rest
  {
    var head := pre + d;
    assert Etx !in head;
    assert pre + d + [Etx] + rest == head + ([Etx] + rest);
    FindCharConcat(head, [Etx] + rest, Etx);
    assert (head + ([Etx] + rest))[..|head|] == head;
    assert (head + ([Etx] + rest))[|head| + 1..] == rest;
  }

  lemma PlaceholderUnmarked(n: nat, rest: string)
    ensures var s := Placeholder(n) + rest;
            s != [] && !AnyMarker(s) && !AnswerMarker(PyStrip(s))
  {
    var s := Placeholder(n) + rest;
    assert s[0] == '\U{2}';
    StripKeepsPrefix(s, 0);
    assert PyStrip(s)[0] == '\U{2}';
  }

  lemma PlaceholderKey(n: nat, stash: seq<string>)
    ensures IsAnswerKey("\U{2}wzxhzdk:" + NatToString(n), stash) <==> n < |stash| && Contains(stash[n], "checked")
  {
    var d := NatToString(n);
    PlaceholderKeyIndex(d);
    PyIntOfNatToString(n);
    IndexIsAnswerMeaning(n, stash);
  }

  lemma PlaceholderKeyIndex(d: string)
    ensures KeyIndex("\U{2}wzxhzdk:" + d) == PyInt(d)
  {
    PlaceholderKeyForm(d);
    KeyIndexOf("\U{2}wzxhzdk", d);
  }

  lemma PlaceholderKeyForm(d: string)
    ensures "\U{2}wzxhzdk:" + d == "\U{2}wzxhzdk" + ":" + d
    ensures ':' !in "\U{2}wzxhzdk"
  {
  }

  /** The index of a key whose first part has no ':'. */
  lemma KeyIndexOf(pre: string, d: string)
    requires ':' !in pre
    ensures KeyIndex(pre + ":" + d) == PyInt(d)
  {
    AfterColon(pre, d);
  }

  lemma IndexIsAnswerMeaning(n: nat, stash: seq<string>)
    ensures IndexIsAnswer(Some(n), stash) <==> n < |stash| && Contains(stash[n], "checked")
  {
    if n < |stash| {
      CheckedTestSubsumed(stash[n]);
    }
  }

  /** The text after the first ':' of a key whose first part has none. */
  lemma AfterColon(pre: string, d: string)
    requires ':' !in pre
    ensures var key := pre + ":" + d;
            FindChar(key, ':') == |pre| && key[|pre| + 1..] == d
  {
    assert pre + ":" + d == pre + (":" + d);
    FindCharConcat(pre, ":" + d, ':');
  }

  /** The judgement of every item, in order. */
  function Answers(items: seq<Item>, stash: seq<string>): (r: seq<bool>)
    ensures |r| == |items|
  {
    seq(|items|, i requires 0 <= i < |items| => ItemIsAnswer(items[i], stash))
  }

  /** The index a variable holds that starts at -1 and is overwritten with the position of
      every true flag, after the flags `flags`. */
  function LastTrue(flags: seq<bool>): int {
    if flags == [] then -1
    else if flags[|flags| - 1] then |flags| - 1
    else LastTrue(flags[..|flags| - 1])
  }

  /** `LastTrue` is -1 exactly when no flag is set, and otherwise the last position set. */
  lemma {:induction false} LastTrueMeaning(flags: seq<bool>)
    ensures -1 <= LastTrue(flags) < |flags|
    ensures LastTrue(flags) == -1 <==> forall i :: 0 <= i < |flags| ==> !flags[i]
    ensures LastTrue(flags) >= 0 ==> flags[LastTrue(flags)]
    ensures forall j :: LastTrue(flags) < j < |flags| ==> !flags[j]
  {
    if flags != [] && !flags[|flags| - 1] {
      var front := flags[..|flags| - 1];
      LastTrueMeaning(front);
      assert forall i :: 0 <= i < |front| ==> front[i] == flags[i];
    }
  }

  /** The value of `answer_idx` after the choice loop over `items`. */
  function LastAnswer(items: seq<Item>, stash: seq<string>): int {
    LastTrue(Answers(items, stash))
  }

  /** `answer_idx` is -1 exactly when no item is judged an answer; otherwise it is the
      position of an answer after which no item is one. */
  lemma LastAnswerMeaning(items: seq<Item>, stash: seq<string>)
    ensures -1 <= LastAnswer(items, stash) < |items|
    ensures LastAnswer(items, stash) == -1 <==> forall i :: 0 <= i < |items| ==> !ItemIsAnswer(items[i], stash)
    ensures LastAnswer(items, stash) >= 0 ==> ItemIsAnswer(items[LastAnswer(items, stash)], stash)
    ensures forall j :: LastAnswer(items, stash) < j < |items| ==> !ItemIsAnswer(items[j], stash)
  {
    var flags := Answers(items, stash);
    LastTrueMeaning(flags);
    assert forall i :: 0 <= i < |items| ==> flags[i] == ItemIsAnswer(items[i], stash);
  }

  /** One rendered alternative: its `data-alt-index` and its display text. */
  datatype Alternative = Alternative(index: nat, text: string)

  /** The alternatives of a list, one per item, in order. */
  function Alternatives(items: seq<Item>): (r: seq<Alternative>)
    ensures |r| == |items|
    ensures forall i :: 0 <= i < |items| ==> r[i] == Alternative(i, DisplayText(items[i]))
  {
    if items == [] then []
    else
      var front := items[..|items| - 1];
      assert forall i :: 0 <= i < |front| ==> front[i] == items[i];
      Alternatives(front) + [Alternative(|items| - 1, DisplayText(items[|items| - 1]))]
  }

  /** Adding one more item: `answer_idx` becomes its position when it is an answer and
      stays otherwise. */
  lemma LastAnswerStep(items: seq<Item>, it: Item, stash: seq<string>)
    ensures LastAnswer(items + [it], stash)
            == if ItemIsAnswer(it, stash) then |items| else LastAnswer(items, stash)
  {
    var flags := Answers(items + [it], stash);
    assert flags[..|items|] == Answers(items, stash);
  }

  /** The loop of `create_exercise_form` over the choices (extension.py:181-212, 236-245):
      one alternative per choice, and `answer_idx`, reset to -1, overwritten by the
      position of every choice judged an answer. */
  method ChoiceLoop(choices: seq<Item>, stash: seq<string>) returns (alts: seq<Alternative>, answerIdx: int)
    ensures alts == Alternatives(choices)
    ensures answerIdx == LastAnswer(choices, stash)
  {
    alts := [];
    answerIdx := -1;
    for i := 0 to |choices|
      invariant alts == Alternatives(choices[..i])
      invariant answerIdx == LastAnswer(choices[..i], stash)
    {
      assert choices[..i + 1] == choices[..i] + [choices[i]];
      LastAnswerStep(choices[..i], choices[i], stash);
      if ItemIsAnswer(choices[i], stash) {
        answerIdx := i;
      }
      alts := alts + [Alternative(i, DisplayText(choices[i]))];
    }
    assert choices[..|choices|] == choices;
  }

  /** The value written to `data-answer-idx` is read back by the client's parseInt as the
      same index (src/static/quiz.js:515, 709), -1 included. */
  lemma AnswerIdxReadBack(items: seq<Item>, stash: seq<string>)
    ensures ParseInt(IntToString(LastAnswer(items, stash))) == Some(LastAnswer(items, stash))
  {
    ParseIntOfIntToString(LastAnswer(items, stash));
  }
}
