/** The page-level passes of src/static/quiz.js: the JavaScript fallbacks that build
    choice and text forms (quiz.js:2-229), title numbering (quiz.js:310-337), the
    stored-record cleanup (quiz.js:340-376) and the DOMContentLoaded sequence that ties
    them to the per-form setup (quiz.js:378-839). The page is an array of exercise
    containers in document order. */
module Page {
  import opened Strings
  import opened Records
  import opened Storage
  import opened ChoiceMarkup
  import opened Controller
  import opened ExerciseForm

  /** A `form.quiz-form` inside a container, with the state the handlers read. */
  datatype Form = Form(alts: seq<Alt>, text: Option<string>, enabled: bool, wiring: Wiring)

  /** An `.admonition` element: its class tokens, id, `data-answer-idx`, the text of its
      `.admonition-title` if it has one, the `textContent` of the items of its first `ul`
      if it has one, its form if it has one, and its answer block. */
  datatype Container = Container(
    classes: set<string>,
    id: string,
    answerIdx: Option<string>,
    title: Option<string>,
    list: Option<seq<string>>,
    form: Option<Form>,
    hasAnswerBlock: bool,
    answerShown: bool)

  /** The selectors the passes and the fallback ids query. */
  datatype Selector =
    | ChoiceBoxes     // .admonition.exercise.choice
    | ShortBoxes      // .admonition.exercise.text.short
    | LongBoxes       // .admonition.exercise.text.long
    | Exercises       // .admonition.exercise
    | TextIdBoxes     // .admonition.exercise.exercise-short, .admonition.exercise.exercise-text

  predicate IsExercise(c: Container) {
    "admonition" in c.classes && "exercise" in c.classes
  }

  predicate Selects(sel: Selector, c: Container) {
    match sel
    case ChoiceBoxes => IsExercise(c) && "choice" in c.classes
    case ShortBoxes => IsExercise(c) && "text" in c.classes && "short" in c.classes
    case LongBoxes => IsExercise(c) && "text" in c.classes && "long" in c.classes
    case Exercises => IsExercise(c)
    case TextIdBoxes => IsExercise(c) && ("exercise-short" in c.classes || "exercise-text" in c.classes)
  }

  /** How many containers of `cs` the selector matches. */
  function Rank(cs: seq<Container>, sel: Selector): nat {
    if cs == [] then 0 else Rank(cs[..|cs| - 1], sel) + (if Selects(sel, cs[|cs| - 1]) then 1 else 0)
  }

  /** A matched container comes after every earlier match, so its position in the
      query result is larger. */
  lemma {:induction false} RankGrows(cs: seq<Container>, sel: Selector, i: int, j: int)
    requires 0 <= i < j <= |cs| && Selects(sel, cs[i])
    ensures Rank(cs[..i], sel) < Rank(cs[..j], sel)
  {
    assert cs[..j][..j - 1] == cs[..j - 1];
    if j - 1 > i {
      RankGrows(cs, sel, i, j - 1);
    } else {
      assert cs[..j - 1] == cs[..i];
    }
  }

  // ---------------------------------------------------------------------------------
  // The forEach passes over a query result
  // ---------------------------------------------------------------------------------

  datatype Pass = ChoicePass | ShortPass | LongPass | NumberingPass

  function SelectorOf(p: Pass): Selector {
    match p
    case ChoicePass => ChoiceBoxes
    case ShortPass => ShortBoxes
    case LongPass => LongBoxes
    case NumberingPass => Exercises
  }

  /** The alternatives the JavaScript form builder creates: no marks, empty hidden values. */
  function BlankAlts(alternatives: seq<Choice>): (r: seq<Alt>)
    ensures |r| == |alternatives|
    ensures forall j :: 0 <= j < |r| ==> r[j] == Alt(alternatives[j].text, false, false, false, false, "")
  {
    seq(|alternatives|, j requires 0 <= j < |alternatives| => Alt(alternatives[j].text, false, false, false, false, ""))
  }

  const NoWiring := Wiring(false, false, 0, false)

  /** One iteration of processChoiceExercises for the `n`-th choice container
      (quiz.js:3-97): the id is always overwritten by position; a container without a
      list is left at that; one that already has a form gets its handlers; otherwise the
      list is parsed and replaced by a new form with handlers attached, and the index of
      the last marked item is stored as `data-answer-idx`. */
  function ProcessChoice(c: Container, n: nat): Container {
    var c1 := c.(id := "exercise_choice_" + NatToString(n));
    if c.list.None? then c1
    else if c.form.Some? then c1.(form := Some(c.form.value.(wiring := Attached(c.form.value.wiring))))
    else
      var alternatives := ParseAll(c.list.value);
      c1.(list := None,
          form := Some(Form(BlankAlts(alternatives), None, true, Attached(NoWiring))),
          answerIdx := Some(IntToString(LastCorrect(alternatives))))
  }

  /** The form processTextExercises appends: an empty input and no alternatives. */
  const TextForm := Form([], Some(""), true, NoWiring)

  /** One iteration of a text pass for the `n`-th match (quiz.js:152-189, 192-228): a
      container that already has a form is skipped; otherwise it gets an id, the class
      `exercise-short` or `exercise-long`, and a form. */
  function ProcessText(c: Container, n: nat, long: bool): Container {
    if c.form.Some? then c
    else c.(id := (if long then "exercise_text_long_" else "exercise_text_short_") + NatToString(n),
            classes := c.classes + {if long then "exercise-long" else "exercise-short"},
            form := Some(TextForm))
  }

  /** The title addExerciseNumbering writes for the `n`-th exercise (quiz.js:322-330). */
  function Label(classes: set<string>, n: nat): string {
    if "exercise-choice" in classes || "exercise-long" in classes || "exercise-short" in classes || "exercise-text" in classes
    then "Question " + NatToString(n)
    else "Exercise " + NatToString(n)
  }

  /** One iteration of a pass for the `n`-th match. */
  function Step(p: Pass, c: Container, n: nat): Container {
    match p
    case ChoicePass => ProcessChoice(c, n)
    case ShortPass => ProcessText(c, n, false)
    case LongPass => ProcessText(c, n, true)
    case NumberingPass => if c.title.Some? then c.(title := Some(Label(c.classes, n))) else c
  }

  /** What a pass leaves at position `j`: matches are numbered from 1 in document order,
      over the query result taken before the loop. */
  function StepAt(cs: seq<Container>, j: int, p: Pass): Container
    requires 0 <= j < |cs|
  {
    if Selects(SelectorOf(p), cs[j]) then Step(p, cs[j], Rank(cs[..j], SelectorOf(p)) + 1) else cs[j]
  }

  function Passed(cs: seq<Container>, p: Pass): (r: seq<Container>)
    ensures |r| == |cs|
    ensures forall j :: 0 <= j < |cs| ==> r[j] == StepAt(cs, j, p)
  {
    seq(|cs|, j requires 0 <= j < |cs| => StepAt(cs, j, p))
  }

  /** `document.querySelectorAll(selector).forEach(function (c, index) { ... })`. */
  method RunPass(page: array<Container>, p: Pass)
    modifies page
    ensures page[..] == Passed(old(page[..]), p)
  {
    ghost var cs := page[..];
    var index := 0;
    var i := 0;
    while i < page.Length
      invariant 0 <= i <= page.Length
      invariant index == Rank(cs[..i], SelectorOf(p))
      invariant forall j :: 0 <= j < i ==> page[j] == StepAt(cs, j, p)
      invariant forall j :: i <= j < page.Length ==> page[j] == cs[j]
    {
      index := StepIn(page, i, p, index, cs);
      i := i + 1;
    }
  }

  lemma RankStep(cs: seq<Container>, sel: Selector, i: int)
    requires 0 <= i < |cs|
    ensures Rank(cs[..i + 1], sel) == Rank(cs[..i], sel) + if Selects(sel, cs[i]) then 1 else 0
  {
    assert cs[..i + 1][..i] == cs[..i];
  }

  /** The forEach callback at position `i`, run when the container there matches;
      `index` counts the matches before it. */
  method StepIn(page: array<Container>, i: int, p: Pass, index: nat, ghost cs: seq<Container>) returns (next: nat)
    requires 0 <= i < page.Length && i < |cs| && page[i] == cs[i]
    requires index == Rank(cs[..i], SelectorOf(p))
    modifies page
    ensures next == Rank(cs[..i + 1], SelectorOf(p))
    ensures page[i] == StepAt(cs, i, p)
    ensures forall j :: 0 <= j < page.Length && j != i ==> page[j] == old(page[j])
  {
    RankStep(cs, SelectorOf(p), i);
    next := index;
    if Selects(SelectorOf(p), page[i]) {
      page[i] := Step(p, page[i], index + 1);
      next := index + 1;
    }
  }

  /** Two different numbers give two different ids with the same prefix. */
  lemma PrefixedIdsDiffer(prefix: string, a: nat, b: nat)
    requires a != b
    ensures prefix + NatToString(a) != prefix + NatToString(b)
  {
    if prefix + NatToString(a) == prefix + NatToString(b) {
      assert (prefix + NatToString(a))[|prefix|..] == NatToString(a);
      assert (prefix + NatToString(b))[|prefix|..] == NatToString(b);
      NatToStringInjective(a, b);
    }
  }

  /** Every choice container gets the id `exercise_choice_N` for its position N, so no
      two choice containers share an id, whatever ids they had. */
  lemma ChoiceIdsDistinct(cs: seq<Container>, i: int, j: int)
    requires 0 <= i < j < |cs|
    requires Selects(ChoiceBoxes, cs[i]) && Selects(ChoiceBoxes, cs[j])
    ensures Passed(cs, ChoicePass)[i].id == "exercise_choice_" + NatToString(Rank(cs[..i], ChoiceBoxes) + 1)
    ensures Passed(cs, ChoicePass)[i].id != Passed(cs, ChoicePass)[j].id
  {
    ChoiceIdAt(cs, i);
    ChoiceIdAt(cs, j);
    RankGrows(cs, ChoiceBoxes, i, j);
    PrefixedIdsDiffer("exercise_choice_", Rank(cs[..i], ChoiceBoxes) + 1, Rank(cs[..j], ChoiceBoxes) + 1);
  }

  lemma ChoiceIdAt(cs: seq<Container>, i: int)
    requires 0 <= i < |cs| && Selects(ChoiceBoxes, cs[i])
    ensures Passed(cs, ChoicePass)[i].id == "exercise_choice_" + NatToString(Rank(cs[..i], ChoiceBoxes) + 1)
  {
    var n := Rank(cs[..i], ChoiceBoxes) + 1;
    assert Passed(cs, ChoicePass)[i] == ProcessChoice(cs[i], n);
    ProcessChoiceId(cs[i], n);
  }

  lemma ProcessChoiceId(c: Container, n: nat)
    ensures ProcessChoice(c, n).id == "exercise_choice_" + NatToString(n)
  {
  }

  /** A choice container with a list and no form gets a form with one blank alternative
      per item, in order, carrying the item's display text; `data-answer-idx` reads back
      with parseInt as the index of the last marked item, or -1; the list is gone and the
      handlers are attached once. */
  lemma ProcessChoiceBuildsForm(c: Container, n: nat)
    requires c.list.Some? && c.form.None?
    ensures var r := ProcessChoice(c, n);
            var alternatives := ParseAll(c.list.value);
            && r.list.None? && r.form.Some? && r.classes == c.classes
            && |r.form.value.alts| == |c.list.value|
            && (forall j :: 0 <= j < |c.list.value| ==>
                  r.form.value.alts[j].text == ParseItem(c.list.value[j]).text
                  && !r.form.value.alts[j].selected && r.form.value.alts[j].hidden == "")
            && ParseInt(r.answerIdx.value) == Some(LastCorrect(alternatives))
            && r.form.value.wiring.handlersAttached && WellWired(r.form.value.wiring)
  {
    var alternatives := ParseAll(c.list.value);
    ParseIntOfIntToString(LastCorrect(alternatives));
    forall j | 0 <= j < |c.list.value|
      ensures alternatives[j] == ParseItem(c.list.value[j])
    {
      ParseAllAt(c.list.value, j);
    }
  }

  /** A container with both `short` and `long` is handled by the short pass only: the
      long pass finds its form and skips it. */
  lemma ShortWinsOverLong(cs: seq<Container>, i: int)
    requires 0 <= i < |cs| && Selects(ShortBoxes, cs[i]) && Selects(LongBoxes, cs[i])
    requires cs[i].form.None?
    ensures var short := Passed(cs, ShortPass);
            var both := Passed(short, LongPass);
            && both[i] == short[i]
            && "exercise-short" in both[i].classes && both[i].form == Some(TextForm)
            && both[i].id == "exercise_text_short_" + NatToString(Rank(cs[..i], ShortBoxes) + 1)
  {
  }

  /** Numbering counts every exercise, titled or not: of two exercises the later one has
      the larger number, and a titled one is labelled with its own number. */
  lemma NumberingCounts(cs: seq<Container>, i: int, j: int)
    requires 0 <= i < j < |cs| && IsExercise(cs[i]) && IsExercise(cs[j])
    ensures Rank(cs[..i], Exercises) < Rank(cs[..j], Exercises)
    ensures cs[i].title.Some? ==> Passed(cs, NumberingPass)[i].title == Some(Label(cs[i].classes, Rank(cs[..i], Exercises) + 1))
    ensures cs[i].title.None? ==> Passed(cs, NumberingPass)[i] == cs[i]
  {
    RankGrows(cs, Exercises, i, j);
  }

  // ---------------------------------------------------------------------------------
  // cleanupInvalidStates (quiz.js:340-376)
  // ---------------------------------------------------------------------------------

  /** `AsWritten` removes every submitted record with `selectedAnswer: null`; the
      comment at quiz.js:354 and the records that text and self-progress submits write
      (quiz.js:678, 753) show that only choice records were meant. */
  datatype CleanupRule = AsWritten | ChoiceRecordsOnly

  /** Whether the cleanup pass removes the stored value `v` under `key`. */
  predicate Invalid(rule: CleanupRule, key: string, v: Value) {
    var state := Parse(v);
    && StartsWith(key, "exercise_")
    && (|| state.None?
        || (&& state.value.submitted && state.value.selectedAnswer == NullSelected
            && (rule == AsWritten || StartsWith(key, "exercise_choice_"))))
  }

  function InvalidKeys(durable: map<string, Value>, rule: CleanupRule): set<string> {
    set k | k in durable && Invalid(rule, k, durable[k])
  }

  /** The effect of the cleanup pass: with the durable store available, the invalid keys
      are gone and nothing else changes; otherwise nothing happens. */
  function Cleaned(s: StoreState, rule: CleanupRule): StoreState {
    if !s.available then s else s.(durable := s.durable - InvalidKeys(s.durable, rule))
  }

  /** The loop that fills `keysToRemove`: it reads every durable key once. */
  method FindInvalidKeys(durable: map<string, Value>, rule: CleanupRule) returns (keysToRemove: set<string>)
    ensures forall k :: k in keysToRemove <==> k in durable && Invalid(rule, k, durable[k])
  {
    keysToRemove := {};
    var rest := durable.Keys;
    while rest != {}
      invariant rest <= durable.Keys
      invariant forall k :: k in keysToRemove <==> k in durable && k !in rest && Invalid(rule, k, durable[k])
      decreases |rest|
    {
      var k :| k in rest;
      if Invalid(rule, k, durable[k]) {
        keysToRemove := keysToRemove + {k};
      }
      rest := rest - {k};
    }
  }

  /** `cleanupInvalidStates()`; it talks to localStorage directly, and those calls are
      taken not to throw. */
  method CleanupInvalidStates(store: Store, rule: CleanupRule)
    modifies store
    ensures store.State() == Cleaned(old(store.State()), rule)
  {
    if !store.available {
      return;
    }
    var keysToRemove := FindInvalidKeys(store.durable, rule);
    assert keysToRemove == InvalidKeys(store.durable, rule);
    RemoveKeys(store, keysToRemove);
  }

  /** The loop over `keysToRemove` calling `localStorage.removeItem`. */
  method RemoveKeys(store: Store, keys: set<string>)
    modifies store
    ensures store.State() == old(store.State()).(durable := old(store.durable) - keys)
  {
    var rest := keys;
    while rest != {}
      invariant rest <= keys
      invariant store.durable == old(store.durable) - (keys - rest)
      invariant store.State() == old(store.State()).(durable := store.durable)
      decreases |rest|
    {
      var k :| k in rest;
      store.durable := store.durable - {k};
      rest := rest - {k};
    }
  }

  /** Cleanup keeps exactly the valid records: a key survives, with its value, iff it is
      not invalid; memory and availability are untouched. */
  lemma CleanupKeepsValid(s: StoreState, rule: CleanupRule, key: string)
    requires s.available && key in s.durable
    ensures key in Cleaned(s, rule).durable <==> !Invalid(rule, key, s.durable[key])
    ensures key in Cleaned(s, rule).durable ==> Cleaned(s, rule).durable[key] == s.durable[key]
    ensures Cleaned(s, rule).data == s.data && Cleaned(s, rule).available
  {
  }

  /** As written, the record of any completed text or self-progress submit (stored with
      `selectedAnswer: null`) under a key starting with `exercise_` is removed on the next
      load, so the answer comes back as not submitted. The corrected rule keeps it. */
  lemma CleanupForgetsTextSubmit(m: Meta, u: Ui, s: StoreState, now: int)
    requires !IsChoice(m.classes) && StartsWith(m.id, "exercise_") && !StartsWith(m.id, "exercise_choice_")
    requires DurableWriteSucceeds(s)
    ensures var stored := AfterSubmit(m, u, s, now).store;
            && m.id in stored.durable
            && Invalid(AsWritten, m.id, stored.durable[m.id])
            && !Invalid(ChoiceRecordsOnly, m.id, stored.durable[m.id])
  {
    SubmitStoresText(m, u, s, now);
  }

  /** The corrected rule still removes what the cleanup was written for: records that do
      not parse, and submitted choice records without a selection. A record written by a
      choice submit that read a number survives it. */
  lemma ChoiceCleanupRemovesBroken(key: string, v: Value, rec: StateRecord, n: int)
    requires StartsWith(key, "exercise_choice_")
    ensures v.Raw? ==> Invalid(ChoiceRecordsOnly, key, v)
    ensures rec.submitted && rec.selectedAnswer == NullSelected ==> Invalid(ChoiceRecordsOnly, key, Stringify(rec))
    ensures !Invalid(ChoiceRecordsOnly, key, Stringify(rec.(selectedAnswer := SelectedIndex(n))))
  {
    assert StartsWith(key, "exercise_") by {
      assert key[..|"exercise_"|] == key[..|"exercise_choice_"|][..|"exercise_"|];
    }
  }

  // ---------------------------------------------------------------------------------
  // The DOMContentLoaded handler (quiz.js:378-839)
  // ---------------------------------------------------------------------------------

  /** The id a container without one gets (quiz.js:412-424): its position among the
      choice containers, the text containers, or all exercises. */
  function FallbackId(cs: seq<Container>, i: int): string
    requires 0 <= i < |cs|
  {
    var c := cs[i];
    if "choice" in c.classes then "exercise_choice_" + NatToString(Rank(cs[..i], ChoiceBoxes) + 1)
    else if "exercise-short" in c.classes || "exercise-text" in c.classes then
      "exercise_text_" + NatToString(Rank(cs[..i], TextIdBoxes) + 1)
    else "exercise_" + NatToString(Rank(cs[..i], Exercises) + 1)
  }

  /** Positions in a query result depend only on the class tokens. */
  lemma {:induction false} RankByClasses(a: seq<Container>, b: seq<Container>, sel: Selector)
    requires |a| == |b| && forall j :: 0 <= j < |a| ==> a[j].classes == b[j].classes
    ensures Rank(a, sel) == Rank(b, sel)
  {
    if a != [] {
      RankByClasses(a[..|a| - 1], b[..|b| - 1], sel);
    }
  }

  lemma FallbackIdByClasses(a: seq<Container>, b: seq<Container>, i: int)
    requires |a| == |b| && 0 <= i < |a| && forall j :: 0 <= j < |a| ==> a[j].classes == b[j].classes
    ensures FallbackId(a, i) == FallbackId(b, i)
  {
    RankByClasses(a[..i], b[..i], ChoiceBoxes);
    RankByClasses(a[..i], b[..i], TextIdBoxes);
    RankByClasses(a[..i], b[..i], Exercises);
  }

  function ToMeta(c: Container): Meta {
    Meta(c.classes, c.id, c.answerIdx, c.hasAnswerBlock)
  }

  function ToUi(c: Container): Ui
    requires c.form.Some?
  {
    Ui(c.form.value.alts, c.form.value.text, c.answerShown, c.form.value.enabled)
  }

  /** A container after its form has been set up. */
  function WithSetUp(c: Container, r: SetUp): Container {
    c.(id := r.meta.id, answerShown := r.ui.answerShown,
       form := Some(Form(r.ui.alts, r.ui.text, r.ui.enabled, r.wiring)))
  }

  /** The per-form step for the container at position `i`: only a form inside an
      exercise container is set up. */
  function SetupAt(cs: seq<Container>, i: int, c: Container, s: StoreState): (Container, StoreState)
    requires 0 <= i < |cs|
  {
    if IsExercise(c) && c.form.Some? then
      var r := AfterSetup(ToMeta(c), ToUi(c), c.form.value.wiring, s, FallbackId(cs, i));
      (WithSetUp(c, r), r.store)
    else (c, s)
  }

  /** The first `n` containers set up in document order, the store threaded through. */
  function SetupUpTo(cs: seq<Container>, s: StoreState, n: nat): (r: (seq<Container>, StoreState))
    requires n <= |cs|
    ensures |r.0| == |cs|
  {
    if n == 0 then (cs, s)
    else
      var (cs1, s1) := SetupUpTo(cs, s, n - 1);
      var (c, s2) := SetupAt(cs, n - 1, cs1[n - 1], s1);
      (cs1[n - 1 := c], s2)
  }

  /** Setting up the first `n` containers leaves the others alone, and every one of the
      first `n` that is an exercise with a form ends marked processed, keeps its
      classes, and its id is its own or, failing that, the fallback. */
  lemma {:induction false} SetupUpToMeaning(cs: seq<Container>, s: StoreState, n: nat)
    requires n <= |cs|
    ensures var r := SetupUpTo(cs, s, n).0;
            && (forall j :: n <= j < |cs| ==> r[j] == cs[j])
            && (forall j :: 0 <= j < n ==> r[j].classes == cs[j].classes)
            && (forall j :: 0 <= j < n && IsExercise(cs[j]) && cs[j].form.Some? ==>
                  && r[j].form.Some? && r[j].form.value.wiring.processed
                  && (!cs[j].form.value.wiring.processed ==>
                        r[j].id == if cs[j].id == "" then FallbackId(cs, j) else cs[j].id))
  {
    if n > 0 {
      SetupUpToMeaning(cs, s, n - 1);
    }
  }

  /** The forEach over `form.quiz-form`, each form driven by an Exercise object. */
  method SetupForms(page: array<Container>, store: Store)
    modifies page, store
    ensures (page[..], store.State()) == SetupUpTo(old(page[..]), old(store.State()), page.Length)
  {
    ghost var cs := page[..];
    var i := 0;
    while i < page.Length
      invariant 0 <= i <= page.Length
      invariant (page[..], store.State()) == SetupUpTo(cs, old(store.State()), i)
    {
      var c := page[i];
      ghost var s := store.State();
      ghost var before := page[..];
      SetupUpToMeaning(cs, old(store.State()), i);
      if IsExercise(c) && c.form.Some? {
        var e := new Exercise(ToMeta(c), ToUi(c), c.form.value.wiring);
        FallbackIdByClasses(page[..], cs, i);
        e.Setup(store, FallbackId(page[..], i));
        page[i] := WithSetUp(c, SetUp(e.Info(), e.View(), e.Wires(), store.State()));
      }
      assert (page[i], store.State()) == SetupAt(cs, i, c, s);
      assert page[..] == before[i := page[i]];
      i := i + 1;
    }
  }

  /** Everything the DOMContentLoaded handler does before the page waits for events. */
  function Loaded(cs: seq<Container>, s: StoreState, now: nat, rule: CleanupRule): (seq<Container>, StoreState) {
    var built := Passed(Passed(Passed(Passed(cs, ChoicePass), ShortPass), LongPass), NumberingPass);
    var probed := Probe(s, now).0;
    SetupUpTo(built, Cleaned(probed, rule), |built|)
  }

  /** The DOMContentLoaded handler; `rule` selects the cleanup as written or corrected. */
  method Load(page: array<Container>, store: Store, now: nat, rule: CleanupRule)
    modifies page, store
    ensures (page[..], store.State()) == Loaded(old(page[..]), old(store.State()), now, rule)
  {
    RunPass(page, ChoicePass);
    RunPass(page, ShortPass);
    RunPass(page, LongPass);
    RunPass(page, NumberingPass);
    var _ := store.Init(now);
    CleanupInvalidStates(store, rule);
    SetupForms(page, store);
  }
}
