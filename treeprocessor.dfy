/** `QuizTreeprocessor.run` (src/extension.py:393-434): three exercise objects, choice,
    text and self-progress, each looping over a snapshot of the document's elements,
    visiting the ones it matches and counting the visits that did not raise. The
    document is the sequence of elements the snapshot holds; a visit that raises is
    named by the set `faults` of (kind, position) pairs. */
module Treeprocessor {
  import opened Strings
  import opened Classes
  import opened ChoiceItems
  import opened ExerciseTree

  /** How the exercise objects number the elements they visit. As written each object
      keeps its own `counter` (extension.py:26, 31); `Shared` is one counter for all. */
  datatype CounterRule = PerKind | Shared

  /** The (kind, position) pairs whose visit raises inside `create_exercise_form`. */
  type Faults = set<(Kind, nat)>

  /** An exercise object as the loop sees it: its kind, its `match` override on the class
      attribute, and what its `visit` makes of an element given the counter value and
      whether the visit raises. */
  datatype Exercise = Exercise(kind: Kind, matches: string -> bool, visit: (Element, nat, bool) -> Element)

  /** The exercise object of kind `k`, with the raw HTML blocks `stash`. */
  function ExerciseOf(k: Kind, stash: seq<string>): Exercise {
    Exercise(k, (cls: string) => Matches(k, cls),
             (el: Element, n: nat, throws: bool) => Visited(k, el, n, throws, stash))
  }

  /** The running count behind the ids (extension.py:26, 31). */
  class Counter {
    var value: nat

    constructor()
      ensures value == 0
    {
      value := 0;
    }
  }

  /** An `ExerciseAdmonition`: its behaviour, its counter and the id it assigned last. */
  class Admonition {
    const exercise: Exercise
    const counter: Counter
    var id: Option<string>

    constructor(e: Exercise, c: Counter)
      ensures exercise == e && counter == c && id == None
    {
      exercise := e;
      counter := c;
      id := None;
    }

    /** `visit` (extension.py:111-123). The counter is incremented and the id recorded
        before anything in the visit can raise. */
    method Visit(el: Element, throws: bool) returns (r: Element)
      modifies this, counter
      ensures counter.value == old(counter.value) + 1
      ensures r == exercise.visit(el, counter.value, throws)
      ensures id == r.id
    {
      counter.value := counter.value + 1;
      r := exercise.visit(el, counter.value, throws);
      id := r.id;
    }
  }

  // ---------------------------------------------------------------------------------
  // One exercise's loop over the snapshot
  // ---------------------------------------------------------------------------------

  /** How many elements of `doc` the test `m` accepts. */
  function MatchCount(m: string -> bool, doc: seq<Element>): (r: nat)
    ensures r <= |doc|
  {
    if doc == [] then 0
    else MatchCount(m, doc[..|doc| - 1]) + (if m(doc[|doc| - 1].cls) then 1 else 0)
  }

  /** How many matched elements of `doc` raise in their visit. */
  function FaultCount(e: Exercise, doc: seq<Element>, faults: Faults): (r: nat)
    ensures r <= MatchCount(e.matches, doc)
  {
    if doc == [] then 0
    else
      FaultCount(e, doc[..|doc| - 1], faults)
      + (if e.matches(doc[|doc| - 1].cls) && (e.kind, |doc| - 1) in faults then 1 else 0)
  }

  /** The counter value the visit of position `j` uses in a pass whose counter starts at
      `c`, or 0 when the element is not matched. */
  function Number(m: string -> bool, doc: seq<Element>, c: nat, j: nat): nat
    requires j < |doc|
  {
    if m(doc[j].cls) then c + MatchCount(m, doc[..j]) + 1 else 0
  }

  datatype PassResult = PassResult(doc: seq<Element>, counter: nat, processed: nat)

  /** The state after the loop body has run for the first `i` elements of the snapshot,
      with the counter starting at `c`. */
  function PassUpTo(e: Exercise, doc: seq<Element>, c: nat, i: nat, faults: Faults): (r: PassResult)
    requires i <= |doc|
    ensures |r.doc| == |doc|
    ensures forall j :: i <= j < |doc| ==> r.doc[j] == doc[j]
  {
    if i == 0 then PassResult(doc, c, 0)
    else
      var p := PassUpTo(e, doc, c, i - 1, faults);
      var el := doc[i - 1];
      if !e.matches(el.cls) then p
      else
        var throws := (e.kind, i - 1) in faults;
        PassResult(p.doc[i - 1 := e.visit(el, p.counter + 1, throws)], p.counter + 1,
                   p.processed + if throws then 0 else 1)
  }

  /** The loop `for el in elements` of one exercise (extension.py:412-427). */
  function Pass(e: Exercise, doc: seq<Element>, c: nat, faults: Faults): PassResult {
    PassUpTo(e, doc, c, |doc|, faults)
  }

  /** After `i` elements the counter has grown by the matches among them, and every
      match that did not raise is counted as processed. */
  lemma {:induction false} PassUpToCounts(e: Exercise, doc: seq<Element>, c: nat, i: nat, faults: Faults)
    requires i <= |doc|
    ensures var r := PassUpTo(e, doc, c, i, faults);
            && r.counter == c + MatchCount(e.matches, doc[..i])
            && r.processed + FaultCount(e, doc[..i], faults) == MatchCount(e.matches, doc[..i])
  {
    if i > 0 {
      PassUpToCounts(e, doc, c, i - 1, faults);
      CountsStep(e, doc, i, faults);
    }
  }

  lemma CountsStep(e: Exercise, doc: seq<Element>, i: nat, faults: Faults)
    requires 0 < i <= |doc|
    ensures var hit := e.matches(doc[i - 1].cls);
            && MatchCount(e.matches, doc[..i]) == MatchCount(e.matches, doc[..i - 1]) + (if hit then 1 else 0)
            && FaultCount(e, doc[..i], faults)
               == FaultCount(e, doc[..i - 1], faults) + (if hit && (e.kind, i - 1) in faults then 1 else 0)
  {
    var front := doc[..i];
    assert front[..i - 1] == doc[..i - 1];
    assert front[i - 1] == doc[i - 1];
  }

  /** Each element before `i` that is matched has been visited with its own counter
      value, whether or not an earlier visit raised; the others are untouched. */
  lemma {:induction false} PassUpToAt(e: Exercise, doc: seq<Element>, c: nat, i: nat, faults: Faults, j: nat)
    requires j < i <= |doc|
    ensures PassUpTo(e, doc, c, i, faults).doc[j]
            == if e.matches(doc[j].cls) then e.visit(doc[j], Number(e.matches, doc, c, j), (e.kind, j) in faults)
               else doc[j]
  {
    var p := PassUpTo(e, doc, c, i - 1, faults);
    var r := PassUpTo(e, doc, c, i, faults);
    if j < i - 1 {
      PassUpToAt(e, doc, c, i - 1, faults, j);
      assert r.doc[j] == p.doc[j];
    } else {
      PassUpToCounts(e, doc, c, i - 1, faults);
      assert p.doc[j] == doc[j];
    }
  }

  /** The whole pass: the counter grows by the number of matches, the processed count by
      the matches that did not raise, every matched element is visited with its own
      counter value and every other element is left as it was. */
  lemma PassMeaning(e: Exercise, doc: seq<Element>, c: nat, faults: Faults)
    ensures var r := Pass(e, doc, c, faults);
            && |r.doc| == |doc|
            && r.counter == c + MatchCount(e.matches, doc)
            && r.processed == MatchCount(e.matches, doc) - FaultCount(e, doc, faults)
            && forall j :: 0 <= j < |doc| ==>
                 r.doc[j] == if e.matches(doc[j].cls)
                             then e.visit(doc[j], Number(e.matches, doc, c, j), (e.kind, j) in faults)
                             else doc[j]
  {
    PassUpToCounts(e, doc, c, |doc|, faults);
    assert doc[..|doc|] == doc;
    forall j | 0 <= j < |doc|
      ensures Pass(e, doc, c, faults).doc[j]
              == if e.matches(doc[j].cls) then e.visit(doc[j], Number(e.matches, doc, c, j), (e.kind, j) in faults)
                 else doc[j]
    {
      PassUpToAt(e, doc, c, |doc|, faults, j);
    }
  }

  /** A match at `i` is counted among the matches before any later position. */
  lemma {:induction false} MatchCountGrows(m: string -> bool, doc: seq<Element>, i: nat, n: nat)
    requires i < n <= |doc| && m(doc[i].cls)
    ensures MatchCount(m, doc[..i]) < MatchCount(m, doc[..n])
  {
    var front := doc[..n];
    assert front[..n - 1] == doc[..n - 1];
    if i < n - 1 {
      MatchCountGrows(m, doc, i, n - 1);
    }
  }

  /** Within one pass two matched elements get different counter values. */
  lemma NumbersInPass(m: string -> bool, doc: seq<Element>, c: nat, j: nat, j': nat)
    requires j < |doc| && j' < |doc| && j != j'
    requires Number(m, doc, c, j) > 0 && Number(m, doc, c, j') > 0
    ensures Number(m, doc, c, j) != Number(m, doc, c, j')
  {
    if j < j' {
      MatchCountGrows(m, doc, j, j');
    } else {
      MatchCountGrows(m, doc, j', j);
    }
  }

  /** A counter value of a pass lies above its start and at most at its end. */
  lemma NumberRange(m: string -> bool, doc: seq<Element>, c: nat, j: nat)
    requires j < |doc| && Number(m, doc, c, j) > 0
    ensures c < Number(m, doc, c, j) <= c + MatchCount(m, doc)
  {
    assert doc[..|doc|] == doc;
    MatchCountGrows(m, doc, j, |doc|);
  }

  // ---------------------------------------------------------------------------------
  // The run
  // ---------------------------------------------------------------------------------

  /** The `match` override of kind `k` as a test on the class attribute. */
  function Matcher(k: Kind): string -> bool {
    (cls: string) => Matches(k, cls)
  }

  datatype RunResult = RunResult(choice: PassResult, text: PassResult, selfProgress: PassResult)

  /** The counter value a pass starts with: its own fresh counter, or where the previous
      pass left the shared one. */
  function Start(rule: CounterRule, prev: PassResult): nat {
    if rule == Shared then prev.counter else 0
  }

  /** `run` (extension.py:402-434): choice, then text, then self-progress, each over the
      document the previous one left. */
  function Ran(doc: seq<Element>, rule: CounterRule, faults: Faults, stash: seq<string>): RunResult {
    RunWith(ExerciseOf(ChoiceKind, stash), ExerciseOf(TextKind, stash), ExerciseOf(SelfProgressKind, stash),
            doc, rule, faults)
  }

  /** The three loops of `run` with the exercise objects `x0`, `x1` and `x2`, in order. */
  function RunWith(x0: Exercise, x1: Exercise, x2: Exercise, doc: seq<Element>, rule: CounterRule, faults: Faults): RunResult {
    var p0 := Pass(x0, doc, 0, faults);
    var p1 := Pass(x1, p0.doc, Start(rule, p0), faults);
    RunResult(p0, p1, Pass(x2, p1.doc, Start(rule, p1), faults))
  }

  /** What `processed_count` grows by. */
  function Processed(r: RunResult): nat {
    r.choice.processed + r.text.processed + r.selfProgress.processed
  }

  /** The counter value of the last visit of element `j` during the run, 0 when no pass
      matches it. */
  function LastVisit(doc: seq<Element>, rule: CounterRule, faults: Faults, stash: seq<string>, j: nat): nat
    requires j < |doc|
  {
    var r := Ran(doc, rule, faults, stash);
    var n2 := Number(Matcher(SelfProgressKind), r.text.doc, Start(rule, r.text), j);
    var n1 := Number(Matcher(TextKind), r.choice.doc, Start(rule, r.choice), j);
    if n2 > 0 then n2 else if n1 > 0 then n1 else Number(Matcher(ChoiceKind), doc, 0, j)
  }

  /** The three passes of a run, spelled out for element `j`. */
  lemma RunPasses(doc: seq<Element>, rule: CounterRule, faults: Faults, stash: seq<string>)
    ensures var r := Ran(doc, rule, faults, stash);
            && |r.choice.doc| == |doc| && |r.text.doc| == |doc| && |r.selfProgress.doc| == |doc|
            && r.choice.counter == MatchCount(Matcher(ChoiceKind), doc)
            && r.text.counter == Start(rule, r.choice) + MatchCount(Matcher(TextKind), r.choice.doc)
            && r.selfProgress.counter == Start(rule, r.text) + MatchCount(Matcher(SelfProgressKind), r.text.doc)
            && (forall j :: 0 <= j < |doc| ==>
                  r.choice.doc[j] == if Matches(ChoiceKind, doc[j].cls)
                                     then Visited(ChoiceKind, doc[j], Number(Matcher(ChoiceKind), doc, 0, j), (ChoiceKind, j) in faults, stash)
                                     else doc[j])
            && (forall j :: 0 <= j < |doc| ==>
                  r.text.doc[j] == if Matches(TextKind, r.choice.doc[j].cls)
                                   then Visited(TextKind, r.choice.doc[j], Number(Matcher(TextKind), r.choice.doc, Start(rule, r.choice), j), (TextKind, j) in faults, stash)
                                   else r.choice.doc[j])
            && (forall j :: 0 <= j < |doc| ==>
                  r.selfProgress.doc[j] == if Matches(SelfProgressKind, r.text.doc[j].cls)
                                           then Visited(SelfProgressKind, r.text.doc[j], Number(Matcher(SelfProgressKind), r.text.doc, Start(rule, r.text), j), (SelfProgressKind, j) in faults, stash)
                                           else r.text.doc[j])
  {
    var r := Ran(doc, rule, faults, stash);
    PassMeaning(ExerciseOf(ChoiceKind, stash), doc, 0, faults);
    PassMeaning(ExerciseOf(TextKind, stash), r.choice.doc, Start(rule, r.choice), faults);
    PassMeaning(ExerciseOf(SelfProgressKind, stash), r.text.doc, Start(rule, r.text), faults);
  }

  /** Every element whose class attribute contains `exercise` is visited by some pass,
      and no other element is. */
  lemma RunVisitsExercises(doc: seq<Element>, rule: CounterRule, faults: Faults, stash: seq<string>, j: nat)
    requires j < |doc|
    ensures LastVisit(doc, rule, faults, stash, j) > 0 <==> Contains(doc[j].cls, Base)
  {
    RunPasses(doc, rule, faults, stash);
    KindsCover(doc[j].cls);
  }

  /** A visit of an element without `id_` tokens keeps it without them. */
  lemma VisitKeepsNoIdToken(k: Kind, el: Element, n: nat, throws: bool, stash: seq<string>)
    requires Matches(k, el.cls) && NoIdToken(el.cls)
    ensures NoIdToken(Visited(k, el, n, throws, stash).cls)
  {
    VisitedId(k, el, n, throws, stash);
    var cls := ExtraClasses(k, el.cls);
    NoIdTokenMeaning(el.cls);
    NoIdTokenMeaning(cls);
    AddedClassesNotIds();
    if k == TextKind {
      TextClassAdded(el.cls);
    } else {
      MarkerClassAdded(k, el.cls);
    }
  }

  lemma AddedClassesNotIds()
    ensures !IsIdToken("exercise-choice") && !IsIdToken("exercise-short") && !IsIdToken("exercise-long")
    ensures !IsIdToken("exercise-text") && !IsIdToken("exercise-self-progress")
  {
    NotIdToken("exercise-choice");
    NotIdToken("exercise-short");
    NotIdToken("exercise-long");
    NotIdToken("exercise-text");
    NotIdToken("exercise-self-progress");
  }

  lemma NotIdToken(w: string)
    requires |w| > 0 && w[0] == 'e'
    ensures !IsIdToken(w)
  {
    if |w| >= 3 {
      assert w[..3][0] != "id_"[0];
    }
  }

  /** For an element without `id_` tokens: its last visit decides its id, `exercise_<n>`
      with that visit's counter value, whatever visits raise; an element no pass visits
      is left as it was. */
  lemma RunIds(doc: seq<Element>, rule: CounterRule, faults: Faults, stash: seq<string>, j: nat)
    requires j < |doc| && NoIdToken(doc[j].cls)
    ensures var r := Ran(doc, rule, faults, stash);
            var n := LastVisit(doc, rule, faults, stash, j);
            && |r.selfProgress.doc| == |doc|
            && (n > 0 ==> r.selfProgress.doc[j].id == Some("exercise_" + NatToString(n)))
            && (n == 0 ==> r.selfProgress.doc[j] == doc[j])
  {
    var r := Ran(doc, rule, faults, stash);
    RunAt(doc, rule, faults, stash, j);
    var d1, d2 := r.choice.doc, r.text.doc;
    var n0 := Number(Matcher(ChoiceKind), doc, 0, j);
    var n1 := Number(Matcher(TextKind), d1, Start(rule, r.choice), j);
    var n2 := Number(Matcher(SelfProgressKind), d2, Start(rule, r.text), j);
    LastOfThree(doc[j], d1[j], d2[j], r.selfProgress.doc[j], n0, n1, n2,
                (ChoiceKind, j) in faults, (TextKind, j) in faults, (SelfProgressKind, j) in faults, stash);
  }

  /** Element `j` through the three passes of a run. */
  lemma RunAt(doc: seq<Element>, rule: CounterRule, faults: Faults, stash: seq<string>, j: nat)
    requires j < |doc|
    ensures var r := Ran(doc, rule, faults, stash);
            var d1, d2 := r.choice.doc, r.text.doc;
            var n0 := Number(Matcher(ChoiceKind), doc, 0, j);
            var n1 := Number(Matcher(TextKind), d1, Start(rule, r.choice), j);
            var n2 := Number(Matcher(SelfProgressKind), d2, Start(rule, r.text), j);
            && |d1| == |doc| && |d2| == |doc| && |r.selfProgress.doc| == |doc|
            && (Matches(ChoiceKind, doc[j].cls) <==> n0 > 0)
            && (Matches(TextKind, d1[j].cls) <==> n1 > 0)
            && (Matches(SelfProgressKind, d2[j].cls) <==> n2 > 0)
            && d1[j] == (if n0 > 0 then Visited(ChoiceKind, doc[j], n0, (ChoiceKind, j) in faults, stash) else doc[j])
            && d2[j] == (if n1 > 0 then Visited(TextKind, d1[j], n1, (TextKind, j) in faults, stash) else d1[j])
            && r.selfProgress.doc[j] == (if n2 > 0 then Visited(SelfProgressKind, d2[j], n2, (SelfProgressKind, j) in faults, stash) else d2[j])
  {
    RunPasses(doc, rule, faults, stash);
  }

  /** One element through three visits, each taken when its number is positive: the
      last visit taken decides its id. */
  lemma LastOfThree(e0: Element, e1: Element, e2: Element, e3: Element, n0: nat, n1: nat, n2: nat,
                    f0: bool, f1: bool, f2: bool, stash: seq<string>)
    requires NoIdToken(e0.cls)
    requires (Matches(ChoiceKind, e0.cls) <==> n0 > 0) && (Matches(TextKind, e1.cls) <==> n1 > 0)
    requires Matches(SelfProgressKind, e2.cls) <==> n2 > 0
    requires e1 == if n0 > 0 then Visited(ChoiceKind, e0, n0, f0, stash) else e0
    requires e2 == if n1 > 0 then Visited(TextKind, e1, n1, f1, stash) else e1
    requires e3 == if n2 > 0 then Visited(SelfProgressKind, e2, n2, f2, stash) else e2
    ensures var n := if n2 > 0 then n2 else if n1 > 0 then n1 else n0;
            && (n > 0 ==> e3.id == Some("exercise_" + NatToString(n)))
            && (n == 0 ==> e3 == e0)
  {
    if n0 > 0 {
      VisitKeepsNoIdToken(ChoiceKind, e0, n0, f0, stash);
    }
    if n1 > 0 {
      VisitKeepsNoIdToken(TextKind, e1, n1, f1, stash);
    }
    if n2 > 0 {
      VisitedId(SelfProgressKind, e2, n2, f2, stash);
    } else if n1 > 0 {
      VisitedId(TextKind, e1, n1, f1, stash);
    } else if n0 > 0 {
      VisitedId(ChoiceKind, e0, n0, f0, stash);
    }
  }

  /** The pass (0, 1 or 2) of the last visit of a visited element, with the range of
      counter values that pass uses under a shared counter. */
  lemma LastVisitPass(doc: seq<Element>, faults: Faults, stash: seq<string>, j: nat) returns (p: nat)
    requires j < |doc| && LastVisit(doc, Shared, faults, stash, j) > 0
    ensures p <= 2
    ensures var r := Ran(doc, Shared, faults, stash);
            r.choice.counter <= r.text.counter <= r.selfProgress.counter
    ensures var r := Ran(doc, Shared, faults, stash);
            var n := LastVisit(doc, Shared, faults, stash, j);
            && (p == 0 ==> n == Number(Matcher(ChoiceKind), doc, 0, j) && 0 < n <= r.choice.counter)
            && (p == 1 ==> n == Number(Matcher(TextKind), r.choice.doc, r.choice.counter, j)
                           && r.choice.counter < n <= r.text.counter)
            && (p == 2 ==> n == Number(Matcher(SelfProgressKind), r.text.doc, r.text.counter, j)
                           && r.text.counter < n <= r.selfProgress.counter)
  {
    var r := Ran(doc, Shared, faults, stash);
    var d1, d2 := r.choice.doc, r.text.doc;
    RunPasses(doc, Shared, faults, stash);
    if Number(Matcher(SelfProgressKind), d2, r.text.counter, j) > 0 {
      NumberRange(Matcher(SelfProgressKind), d2, r.text.counter, j);
      p := 2;
    } else if Number(Matcher(TextKind), d1, r.choice.counter, j) > 0 {
      NumberRange(Matcher(TextKind), d1, r.choice.counter, j);
      p := 1;
    } else {
      NumberRange(Matcher(ChoiceKind), doc, 0, j);
      p := 0;
    }
  }

  /** With one shared counter, no two elements' last visits use the same counter value. */
  lemma SharedNumbersDistinct(doc: seq<Element>, faults: Faults, stash: seq<string>, j: nat, j': nat)
    requires j < |doc| && j' < |doc| && j != j'
    requires LastVisit(doc, Shared, faults, stash, j) > 0 && LastVisit(doc, Shared, faults, stash, j') > 0
    ensures LastVisit(doc, Shared, faults, stash, j) != LastVisit(doc, Shared, faults, stash, j')
  {
    var r := Ran(doc, Shared, faults, stash);
    var p := LastVisitPass(doc, faults, stash, j);
    var p' := LastVisitPass(doc, faults, stash, j');
    // Passes use disjoint ranges of counter values; within a pass, values differ.
    if p == p' {
      if p == 0 {
        NumbersInPass(Matcher(ChoiceKind), doc, 0, j, j');
      } else if p == 1 {
        NumbersInPass(Matcher(TextKind), r.choice.doc, r.choice.counter, j, j');
      } else {
        NumbersInPass(Matcher(SelfProgressKind), r.text.doc, r.text.counter, j, j');
      }
    }
  }

  /** The id text of `exercise_<n>` determines `n`. */
  lemma ExerciseIdInjective(a: nat, b: nat)
    requires "exercise_" + NatToString(a) == "exercise_" + NatToString(b)
    ensures a == b
  {
    var x, y := "exercise_" + NatToString(a), "exercise_" + NatToString(b);
    assert x[9..] == NatToString(a);
    assert y[9..] == NatToString(b);
    NatToStringInjective(a, b);
  }

  /** With one shared counter, two different elements whose class attributes contain
      `exercise` and have no `id_` tokens end the run with different ids, whatever
      visits raise. */
  lemma SharedIdsDistinct(doc: seq<Element>, faults: Faults, stash: seq<string>, j: nat, j': nat)
    requires j < |doc| && j' < |doc| && j != j'
    requires Contains(doc[j].cls, Base) && NoIdToken(doc[j].cls)
    requires Contains(doc[j'].cls, Base) && NoIdToken(doc[j'].cls)
    ensures var r := Ran(doc, Shared, faults, stash).selfProgress.doc;
            |r| == |doc| && r[j].id.Some? && r[j].id != r[j'].id
  {
    RunVisitsExercises(doc, Shared, faults, stash, j);
    RunVisitsExercises(doc, Shared, faults, stash, j');
    RunIds(doc, Shared, faults, stash, j);
    RunIds(doc, Shared, faults, stash, j');
    SharedNumbersDistinct(doc, faults, stash, j, j');
    var n, n' := LastVisit(doc, Shared, faults, stash, j), LastVisit(doc, Shared, faults, stash, j');
    if "exercise_" + NatToString(n) == "exercise_" + NatToString(n') {
      ExerciseIdInjective(n, n');
    }
  }

  /** A text visit keeps the element a text exercise, so the self-progress pass skips it. */
  lemma TextVisitNotSelfProgress(el: Element, n: nat, throws: bool, stash: seq<string>)
    requires Matches(TextKind, el.cls) && NoIdToken(el.cls)
    ensures !Matches(SelfProgressKind, Visited(TextKind, el, n, throws, stash).cls)
  {
    VisitedId(TextKind, el, n, throws, stash);
    TextClassNotSelfProgress(el.cls);
  }

  lemma TextClassNotSelfProgress(cls: string)
    requires Matches(TextKind, cls)
    ensures !Matches(SelfProgressKind, ExtraClasses(TextKind, cls))
  {
    TypeTokensKept(cls);
  }

  /** Text augmentation keeps a type token, so the element still has one of choice,
      short, long, text. */
  lemma TypeTokensKept(cls: string)
    requires HasClass(cls, ["short", "long", "text"])
    ensures HasClass(ExtraClasses(TextKind, cls), ["choice", "short", "long", "text"])
  {
    TextClassKeepsTokens(cls);
    TypeTokenInLonger(cls, ExtraClasses(TextKind, cls));
  }

  lemma TypeTokenInLonger(cls: string, r: string)
    requires Split(cls) <= Split(r) && HasClass(cls, ["short", "long", "text"])
    ensures HasClass(r, ["choice", "short", "long", "text"])
  {
    TypeTokenInPrefix(Split(cls), Split(r));
  }

  /** The same on the token lists alone. */
  lemma TypeTokenInPrefix(a: seq<string>, b: seq<string>)
    requires a <= b && exists k :: 0 <= k < 3 && ["short", "long", "text"][k] in a
    ensures exists k :: 0 <= k < 4 && ["choice", "short", "long", "text"][k] in b
  {
    var ws := ["short", "long", "text"];
    var k :| 0 <= k < |ws| && ws[k] in a;
    PrefixMember(a, b, ws[k]);
    var all := ["choice", "short", "long", "text"];
    if k == 0 {
      assert all[1] in b;
    } else if k == 1 {
      assert all[2] in b;
    } else {
      assert all[3] in b;
    }
  }

  lemma PrefixMember<T>(a: seq<T>, b: seq<T>, x: T)
    requires a <= b && x in a
    ensures x in b
  {
    var i :| 0 <= i < |a| && a[i] == x;
    assert b[i] == x;
  }

  /** A pass over a document of two elements. */
  lemma PassOfTwo(e: Exercise, a: Element, b: Element, c: nat, faults: Faults)
    ensures var r := Pass(e, [a, b], c, faults);
            var ca := if e.matches(a.cls) then c + 1 else c;
            && r.doc == [if e.matches(a.cls) then e.visit(a, ca, (e.kind, 0) in faults) else a,
                         if e.matches(b.cls) then e.visit(b, ca + 1, (e.kind, 1) in faults) else b]
            && r.counter == if e.matches(b.cls) then ca + 1 else ca
  {
    var p0 := PassUpTo(e, [a, b], c, 0, faults);
    var p1 := PassUpTo(e, [a, b], c, 1, faults);
    assert p0.doc == [a, b] && p0.counter == c;
    assert p1.doc == [if e.matches(a.cls) then e.visit(a, p1.counter, (e.kind, 0) in faults) else a, b];
  }

  /** A run on two elements, the first visited only by the second exercise object and
      the second only by the third. */
  lemma RunOfTwo(x0: Exercise, x1: Exercise, x2: Exercise, a: Element, b: Element, rule: CounterRule, faults: Faults)
    requires !x0.matches(a.cls) && !x0.matches(b.cls)
    requires x1.matches(a.cls) && !x1.matches(b.cls)
    requires !x2.matches(x1.visit(a, 1, (x1.kind, 0) in faults).cls) && x2.matches(b.cls)
    ensures RunWith(x0, x1, x2, [a, b], rule, faults).selfProgress.doc
            == [x1.visit(a, 1, (x1.kind, 0) in faults), x2.visit(b, if rule == Shared then 2 else 1, (x2.kind, 1) in faults)]
  {
    var r := RunWith(x0, x1, x2, [a, b], rule, faults);
    PassOfTwo(x0, a, b, 0, faults);
    PassOfTwo(x1, a, b, 0, faults);
    var v := x1.visit(a, 1, (x1.kind, 0) in faults);
    PassOfTwo(x2, v, b, Start(rule, r.text), faults);
  }

  /** The run on a text exercise followed by a self-progress exercise: each is visited
      once, the second with counter value 1 as written and 2 with a shared counter. */
  lemma TextThenSelfProgress(e0: Element, e1: Element, rule: CounterRule, faults: Faults, stash: seq<string>)
    requires Matches(TextKind, e0.cls) && !Matches(ChoiceKind, e0.cls) && NoIdToken(e0.cls)
    requires Matches(SelfProgressKind, e1.cls)
    ensures Ran([e0, e1], rule, faults, stash).selfProgress.doc
            == [Visited(TextKind, e0, 1, (TextKind, 0) in faults, stash),
                Visited(SelfProgressKind, e1, if rule == Shared then 2 else 1, (SelfProgressKind, 1) in faults, stash)]
  {
    var x0, x1, x2 := ExerciseOf(ChoiceKind, stash), ExerciseOf(TextKind, stash), ExerciseOf(SelfProgressKind, stash);
    KindsCover(e1.cls);
    assert !x0.matches(e0.cls) && !x0.matches(e1.cls);
    assert x1.matches(e0.cls) && !x1.matches(e1.cls);
    var t := (TextKind, 0) in faults;
    TextVisitNotSelfProgress(e0, 1, t, stash);
    assert x1.visit(e0, 1, t) == Visited(TextKind, e0, 1, t, stash);
    assert !x2.matches(x1.visit(e0, 1, t).cls) && x2.matches(e1.cls);
    RunOfTwo(x0, x1, x2, e0, e1, rule, faults);
  }

  /** As written, with one counter per exercise object: a text exercise followed by a
      self-progress exercise, neither with an `id_` token, both get the id `exercise_1`;
      with a shared counter they get `exercise_1` and `exercise_2`. */
  lemma PerKindIdsCollide(e0: Element, e1: Element, faults: Faults, stash: seq<string>)
    requires Matches(TextKind, e0.cls) && !Matches(ChoiceKind, e0.cls) && NoIdToken(e0.cls)
    requires Matches(SelfProgressKind, e1.cls) && NoIdToken(e1.cls)
    ensures var r := Ran([e0, e1], PerKind, faults, stash).selfProgress.doc;
            |r| == 2 && r[0].id == r[1].id == Some("exercise_1")
  {
    TextThenSelfProgress(e0, e1, PerKind, faults, stash);
    var a := Visited(TextKind, e0, 1, (TextKind, 0) in faults, stash);
    var b := Visited(SelfProgressKind, e1, 1, (SelfProgressKind, 1) in faults, stash);
    VisitedId(TextKind, e0, 1, (TextKind, 0) in faults, stash);
    VisitedId(SelfProgressKind, e1, 1, (SelfProgressKind, 1) in faults, stash);
    IdOne();
    assert a.id == Some("exercise_1") && b.id == Some("exercise_1");
  }

  /** With the counter shared, the same document gets two different ids: the corrected
      behaviour on the input of `PerKindIdsCollide`. */
  lemma SharedIdsOnCollision(e0: Element, e1: Element, faults: Faults, stash: seq<string>)
    requires Matches(TextKind, e0.cls) && !Matches(ChoiceKind, e0.cls) && NoIdToken(e0.cls)
    requires Matches(SelfProgressKind, e1.cls) && NoIdToken(e1.cls)
    ensures var r := Ran([e0, e1], Shared, faults, stash).selfProgress.doc;
            |r| == 2 && r[0].id == Some("exercise_1") && r[1].id == Some("exercise_2")
  {
    TextThenSelfProgress(e0, e1, Shared, faults, stash);
    var a := Visited(TextKind, e0, 1, (TextKind, 0) in faults, stash);
    var b := Visited(SelfProgressKind, e1, 2, (SelfProgressKind, 1) in faults, stash);
    VisitedId(TextKind, e0, 1, (TextKind, 0) in faults, stash);
    VisitedId(SelfProgressKind, e1, 2, (SelfProgressKind, 1) in faults, stash);
    IdOne();
    IdTwo();
    assert a.id == Some("exercise_1") && b.id == Some("exercise_2");
  }

  lemma IdOne()
    ensures "exercise_" + NatToString(1) == "exercise_1"
  {
    assert NatToString(1) == "1";
  }

  lemma IdTwo()
    ensures "exercise_" + NatToString(2) == "exercise_2"
  {
    assert NatToString(2) == "2";
  }

  // ---------------------------------------------------------------------------------
  // The processor
  // ---------------------------------------------------------------------------------

  class QuizTreeprocessor {
    var processedCount: nat

    constructor()
      ensures processedCount == 0
    {
      processedCount := 0;
    }

    /** `run` (extension.py:402-434) on the snapshot `doc`, with one counter per exercise
        object (`PerKind`, as written) or one shared by all three. */
    method Run(doc: array<Element>, rule: CounterRule, faults: Faults, stash: seq<string>)
      modifies this, doc
      ensures doc[..] == Ran(old(doc[..]), rule, faults, stash).selfProgress.doc
      ensures processedCount == old(processedCount) + Processed(Ran(old(doc[..]), rule, faults, stash))
    {
      var c0 := new Counter();
      var c1, c2 := c0, c0;
      if rule == PerKind {
        c1 := new Counter();
        c2 := new Counter();
      }
      var choice := new Admonition(ExerciseOf(ChoiceKind, stash), c0);
      var text := new Admonition(ExerciseOf(TextKind, stash), c1);
      var selfProgress := new Admonition(ExerciseOf(SelfProgressKind, stash), c2);
      ghost var r := Ran(doc[..], rule, faults, stash);
      RunPass(choice, doc, faults);
      assert text.counter.value == Start(rule, r.choice);
      RunPass(text, doc, faults);
      assert selfProgress.counter.value == Start(rule, r.text);
      RunPass(selfProgress, doc, faults);
    }

    /** One exercise's loop (extension.py:412-427): a visit that raises is not counted,
        and the loop goes on with the next element. */
    method RunPass(ex: Admonition, doc: array<Element>, faults: Faults)
      modifies this, doc, ex, ex.counter
      ensures var p := Pass(ex.exercise, old(doc[..]), old(ex.counter.value), faults);
              && doc[..] == p.doc
              && ex.counter.value == p.counter
              && processedCount == old(processedCount) + p.processed
    {
      ghost var d0 := doc[..];
      ghost var c0 := ex.counter.value;
      ghost var done := processedCount;
      for i := 0 to doc.Length
        invariant ex.counter.value == PassUpTo(ex.exercise, d0, c0, i, faults).counter
        invariant doc[..] == PassUpTo(ex.exercise, d0, c0, i, faults).doc
        invariant processedCount == done + PassUpTo(ex.exercise, d0, c0, i, faults).processed
      {
        var el := doc[i];
        if ex.exercise.matches(el.cls) {
          var throws := (ex.exercise.kind, i) in faults;
          var visited := ex.Visit(el, throws);
          doc[i] := visited;
          if !throws {
            processedCount := processedCount + 1;
          }
        }
      }
    }
  }
}
