/** The client-side parser of choice lists (src/static/quiz.js:24-47): each list item's
    text content is trimmed, a leading '[ ]', '[X]' or '[x]' marker is stripped, and the
    index of the marked item is remembered. */
module ChoiceMarkup {
  import opened Strings

  /** One parsed alternative: `{text, isCorrect}`. */
  datatype Choice = Choice(text: string, isCorrect: bool)

  predicate MarkedCorrect(t: string) {
    StartsWith(t, "[X]") || StartsWith(t, "[x]")
  }

  predicate MarkedIncorrect(t: string) {
    StartsWith(t, "[ ]")
  }

  /** One iteration of the forEach body over a list item's `textContent`. */
  function ParseItem(textContent: string): Choice {
    var t := JsTrim(textContent);
    if MarkedIncorrect(t) then Choice(JsTrim(t[3..]), false)
    else if MarkedCorrect(t) then Choice(JsTrim(t[3..]), true)
    else Choice(t, false)
  }

  /** An item is correct exactly when its trimmed text starts with '[X]' or '[x]'; a
      marker of either kind is cut off and the rest trimmed; other items keep their
      trimmed text. The display text never has whitespace at either end. */
  lemma ParseItemMeaning(textContent: string)
    ensures var t := JsTrim(textContent);
            var c := ParseItem(textContent);
            && (c.isCorrect <==> MarkedCorrect(t))
            && (MarkedIncorrect(t) || MarkedCorrect(t) ==> c.text == JsTrim(t[3..]))
            && (!MarkedIncorrect(t) && !MarkedCorrect(t) ==> c.text == t)
            && (c.text == [] || (!IsJsSpace(c.text[0]) && !IsJsSpace(c.text[|c.text| - 1])))
  {
    var t := JsTrim(textContent);
    MarkersExclusive(t);
    if MarkedIncorrect(t) || MarkedCorrect(t) {
      var _ := JsTrim(t[3..]);
    }
  }

  /** No text carries both markers. */
  lemma MarkersExclusive(t: string)
    ensures !(MarkedIncorrect(t) && MarkedCorrect(t))
  {
    if |t| >= 3 {
      assert t[..3][1] == t[1];
      assert "[ ]"[1] != "[X]"[1] && "[ ]"[1] != "[x]"[1];
    }
  }

  /** The list built by the forEach loop: one parsed alternative per item, in order. */
  function ParseAll(items: seq<string>): (r: seq<Choice>)
    ensures |r| == |items|
  {
    if items == [] then [] else ParseAll(items[..|items| - 1]) + [ParseItem(items[|items| - 1])]
  }

  /** The alternative at position k comes from the item at position k. */
  lemma {:induction false} ParseAllAt(items: seq<string>, k: int)
    requires 0 <= k < |items|
    ensures ParseAll(items)[k] == ParseItem(items[k])
  {
    if k < |items| - 1 {
      ParseAllAt(items[..|items| - 1], k);
    }
  }

  lemma ParseAllStep(items: seq<string>, i: int)
    requires 0 <= i < |items|
    ensures ParseAll(items[..i + 1]) == ParseAll(items[..i]) + [ParseItem(items[i])]
  {
    assert items[..i + 1][..i] == items[..i];
  }

  /** The index that `correctAnswerIndex` holds after the loop has seen `alts`: each
      marked alternative overwrites it, starting from -1. */
  function LastCorrect(alts: seq<Choice>): int {
    if alts == [] then -1
    else if alts[|alts| - 1].isCorrect then |alts| - 1
    else LastCorrect(alts[..|alts| - 1])
  }

  lemma LastCorrectStep(alts: seq<Choice>, c: Choice)
    ensures LastCorrect(alts + [c]) == if c.isCorrect then |alts| else LastCorrect(alts)
  {
    assert (alts + [c])[..|alts|] == alts;
  }

  /** `LastCorrect` is -1 exactly when nothing is marked, and otherwise the index of the
      last marked alternative. */
  lemma {:induction false} LastCorrectMeaning(alts: seq<Choice>)
    ensures -1 <= LastCorrect(alts) < |alts|
    ensures LastCorrect(alts) == -1 <==> forall i :: 0 <= i < |alts| ==> !alts[i].isCorrect
    ensures LastCorrect(alts) >= 0 ==> alts[LastCorrect(alts)].isCorrect
    ensures forall j :: LastCorrect(alts) < j < |alts| ==> !alts[j].isCorrect
  {
    if alts != [] && !alts[|alts| - 1].isCorrect {
      var front := alts[..|alts| - 1];
      LastCorrectMeaning(front);
      assert forall i :: 0 <= i < |front| ==> front[i] == alts[i];
    }
  }

  /** The parsing loop of `processChoiceExercises`. `correctAnswerIndex` starts at -1 and
      every marked item overwrites it, so it ends as the index of the last marked item. */
  method ParseChoices(items: seq<string>) returns (alternatives: seq<Choice>, correctAnswerIndex: int)
    ensures alternatives == ParseAll(items)
    ensures correctAnswerIndex == LastCorrect(alternatives)
  {
    alternatives := [];
    correctAnswerIndex := -1;
    var i := 0;
    while i < |items|
      invariant 0 <= i <= |items|
      invariant alternatives == ParseAll(items[..i])
      invariant correctAnswerIndex == LastCorrect(alternatives)
    {
      var choice := ParseItem(items[i]);
      if choice.isCorrect {
        correctAnswerIndex := i;
      }
      ParseAllStep(items, i);
      LastCorrectStep(alternatives, choice);
      alternatives := alternatives + [choice];
      i := i + 1;
    }
    assert items[..i] == items;
  }
}
