/** What the per-form handlers of the DOMContentLoaded listener (src/static/quiz.js:393-838)
    do to one exercise, stated on values: the visible state of the form before an event,
    the storage state, and the state after it. The class in exercise.dfy performs the same
    steps in place and is proved to end where these functions say. */
module Controller {
  import opened Strings
  import opened Records
  import opened Storage

  /** One `.quiz-alternative` label: its text, its `selected`, `correct`, `incorrect` and
      `disabled` classes, and the value of the hidden input inside it. */
  datatype Alt = Alt(
    text: string,
    selected: bool,
    correct: bool,
    incorrect: bool,
    disabled: bool,
    hidden: string)

  /** The visible state of one exercise form: its alternatives, the value of its
      `.quiz-text-input` when it has one, whether the answer block carries `show`, and
      whether the form's inputs and buttons are enabled. */
  datatype Ui = Ui(alts: seq<Alt>, text: Option<string>, answerShown: bool, enabled: bool)

  /** What the handlers read but never change: the container's class tokens, the key the
      record is stored under, `data-answer-idx`, and whether an answer block exists. */
  datatype Meta = Meta(classes: set<string>, id: string, answerIdx: Option<string>, hasAnswerBlock: bool)

  /** The test `classList.contains("exercise") && classList.contains("choice")`. */
  predicate IsChoice(classes: set<string>) {
    "exercise" in classes && "choice" in classes
  }

  /** The four-way test for a text exercise (quiz.js:557-560, 571-574, 646-649, 719-722). */
  predicate IsText(classes: set<string>) {
    || "exercise-short" in classes || "exercise-long" in classes || "exercise-text" in classes
    || ("exercise" in classes && "text" in classes)
  }

  /** `parseInt(exerciseContainer.dataset.answerIdx)`; an absent attribute gives NaN. */
  function CorrectIndex(m: Meta): Option<int> {
    if m.answerIdx.None? then None else ParseInt(m.answerIdx.value)
  }

  /** The per-alternative updates that the forEach loops apply to every alternative. */
  datatype Reset =
    | Disable        // disableForm: add `disabled`
    | Enable         // enableForm: remove `disabled`
    | ClearMarks     // submit: remove `correct`, `incorrect` and `selected`
    | ClearFeedback  // edit: remove `correct` and `incorrect`, empty the hidden input
    | Unselect       // edit: remove `selected`
    | Deselect       // click: remove `selected`, empty the hidden input

  function ResetAlt(a: Alt, op: Reset): Alt {
    match op
    case Disable => a.(disabled := true)
    case Enable => a.(disabled := false)
    case ClearMarks => a.(correct := false, incorrect := false, selected := false)
    case ClearFeedback => a.(correct := false, incorrect := false, hidden := "")
    case Unselect => a.(selected := false)
    case Deselect => a.(selected := false, hidden := "")
  }

  function ResetAll(alts: seq<Alt>, op: Reset): (r: seq<Alt>)
    ensures |r| == |alts|
    ensures forall j :: 0 <= j < |alts| ==> r[j] == ResetAlt(alts[j], op)
  {
    seq(|alts|, j requires 0 <= j < |alts| => ResetAlt(alts[j], op))
  }

  /** `disableForm()` (quiz.js:449-464). */
  function Disabled(u: Ui): Ui {
    u.(alts := ResetAll(u.alts, Disable), enabled := false)
  }

  /** `enableForm()` (quiz.js:467-480). */
  function Enabled(u: Ui): Ui {
    u.(alts := ResetAll(u.alts, Enable), enabled := true)
  }

  /** `answerBlock.classList.add("show")`, guarded by `if (answerBlock)`. */
  function Shown(m: Meta, u: Ui): Ui {
    if m.hasAnswerBlock then u.(answerShown := true) else u
  }

  /** `answerBlock.classList.remove("show")`, guarded by `if (answerBlock)`. */
  function Hidden(m: Meta, u: Ui): Ui {
    if m.hasAnswerBlock then u.(answerShown := false) else u
  }

  // ---------------------------------------------------------------------------------
  // Selecting an alternative (quiz.js:113-141, 605-634)
  // ---------------------------------------------------------------------------------

  /** A click changes anything only when a handler is listening, the alternative is
      not disabled and the submit button is enabled. */
  predicate ClickTakesEffect(u: Ui, listening: bool, i: int) {
    listening && 0 <= i < |u.alts| && !u.alts[i].disabled && u.enabled
  }

  /** A click on alternative `i`. The value written into the hidden input is the
      alternative's `data-alt-index` or `data-value`, which both generators of the form
      set to its position. */
  function AfterClick(u: Ui, listening: bool, i: int): (r: Ui)
    ensures ClickTakesEffect(u, listening, i) ==>
      && |r.alts| == |u.alts| && r.text == u.text
      && r.answerShown == u.answerShown && r.enabled == u.enabled
      && forall j :: 0 <= j < |u.alts| ==>
           && (r.alts[j].selected <==> j == i)
           && r.alts[j].hidden == (if j == i then NatToString(i) else "")
           && r.alts[j].(selected := u.alts[j].selected, hidden := u.alts[j].hidden) == u.alts[j]
    ensures !ClickTakesEffect(u, listening, i) ==> r == u
  {
    if ClickTakesEffect(u, listening, i) then
      var cleared := ResetAll(u.alts, Deselect);
      u.(alts := cleared[i := cleared[i].(selected := true, hidden := NatToString(i))])
    else u
  }

  // ---------------------------------------------------------------------------------
  // Submitting (quiz.js:673-760)
  // ---------------------------------------------------------------------------------

  /** The position of the first hidden input with a non-empty value, or -1. */
  function FirstChosen(alts: seq<Alt>): (k: int)
    ensures -1 <= k < |alts|
    ensures k == -1 <==> forall j :: 0 <= j < |alts| ==> alts[j].hidden == ""
    ensures k >= 0 ==> alts[k].hidden != "" && forall j :: 0 <= j < k ==> alts[j].hidden == ""
  {
    if alts == [] then -1
    else if alts[0].hidden != "" then 0
    else
      var k := FirstChosen(alts[1..]);
      if k < 0 then -1 else k + 1
  }

  datatype SubmitOutcome =
    | NoSelection         // the "Please select an option." alert: nothing else happens
    | Saved(durably: bool)  // the record was stored; `durably` is setItem's result
    | Crashed             // `alternatives[correctAnswerIndex]` was undefined

  datatype Submission = Submission(outcome: SubmitOutcome, ui: Ui, store: StoreState)

  /** The `selectedAnswer` field written for a choice: JSON.stringify turns NaN into null. */
  function SelectedOf(sel: Option<int>): Selected {
    if sel.Some? then SelectedIndex(sel.value) else NullSelected
  }

  /** The record written by a submit. */
  function SubmitRecord(selected: Selected, answer: AnswerText, now: int): StateRecord {
    StateRecord(true, selected, answer, Some(now))
  }

  /** The common tail of every submit that gets that far: show the answer, disable the
      form, store the record. */
  function Finish(m: Meta, u: Ui, s: StoreState, selected: Selected, answer: AnswerText, now: int): Submission {
    var (s1, ok) := Set(s, m.id, Stringify(SubmitRecord(selected, answer, now)));
    Submission(Saved(ok), Disabled(Shown(m, u)), s1)
  }

  /** The text stored by a text submit: the trimmed value, or null without an input. */
  function SubmittedText(u: Ui): AnswerText {
    if u.text.Some? then TextValue(JsTrim(u.text.value)) else NullText
  }

  /** The grading loop and marks of a choice submit for the alternative `k` that holds
      the first non-empty hidden value: every alternative loses `correct`, `incorrect` and
      `selected`; then `k` gets `correct` when `right`, and otherwise `incorrect`, with
      `correct` on the alternative `corr` names. None stands for the TypeError raised when
      `corr` names no alternative and the range is not `checked`. */
  function Graded(alts: seq<Alt>, k: int, right: bool, corr: Option<int>, checked: bool): (r: Option<seq<Alt>>)
    requires 0 <= k < |alts|
    ensures r.None? <==> !checked && !right && !(corr.Some? && 0 <= corr.value < |alts|)
    ensures r.Some? ==> |r.value| == |alts| && forall j :: 0 <= j < |alts| ==>
      r.value[j] == alts[j].(selected := false,
                             correct := if right then j == k else Some(j) == corr,
                             incorrect := !right && j == k)
  {
    var cleared := ResetAll(alts, ClearMarks);
    if right then Some(cleared[k := cleared[k].(correct := true)])
    else
      var wrong := cleared[k := cleared[k].(incorrect := true)];
      if corr.Some? && 0 <= corr.value < |alts| then Some(wrong[corr.value := wrong[corr.value].(correct := true)])
      else if checked then Some(wrong)
      else None
  }

  /** The submit handler; `checked` adds the range test that restore makes before
      highlighting the correct alternative (quiz.js:531). Without it an incorrect answer
      marks `alternatives[correctAnswerIndex]` unguarded (quiz.js:716), so a missing or
      out-of-range `data-answer-idx` stops the handler after the stale marks are cleared
      and the chosen alternative is marked `incorrect`. */
  function SubmitAs(m: Meta, u: Ui, s: StoreState, now: int, checked: bool): (r: Submission)
    ensures |r.ui.alts| == |u.alts|
  {
    if IsChoice(m.classes) then
      var k := FirstChosen(u.alts);
      if k < 0 then Submission(NoSelection, u, s)
      else
        var sel := ParseInt(u.alts[k].hidden);
        if sel == Some(-1) then Submission(NoSelection, u, s)
        else
          var corr := CorrectIndex(m);
          var right := sel.Some? && corr == sel;
          var g := Graded(u.alts, k, right, corr, checked);
          if g.None? then Submission(Crashed, u.(alts := Graded(u.alts, k, right, corr, true).value), s)
          else Finish(m, u.(alts := g.value), s, SelectedOf(sel), NullText, now)
    else if IsText(m.classes) then
      Finish(m, u, s, NullSelected, SubmittedText(u), now)
    else
      Finish(m, u, s, NullSelected, NullText, now)
  }

  /** The submit handler as written. */
  function AfterSubmit(m: Meta, u: Ui, s: StoreState, now: int): Submission {
    SubmitAs(m, u, s, now, false)
  }

  /** The submit handler with the range check: it never stops half way, and it does
      what the handler as written does whenever that one completes. */
  function AfterSubmitChecked(m: Meta, u: Ui, s: StoreState, now: int): (r: Submission)
    ensures r.outcome != Crashed
    ensures AfterSubmit(m, u, s, now).outcome != Crashed ==> r == AfterSubmit(m, u, s, now)
  {
    SubmitAs(m, u, s, now, true)
  }

  /** With no hidden input filled in, a choice submit is rejected: no storage call, no
      class change, nothing enabled or disabled. */
  lemma SubmitWithoutSelection(m: Meta, u: Ui, s: StoreState, now: int)
    requires IsChoice(m.classes)
    requires forall j :: 0 <= j < |u.alts| ==> u.alts[j].hidden == ""
    ensures AfterSubmit(m, u, s, now) == Submission(NoSelection, u, s)
  {
  }

  /** The shape of a choice submit that gets past the selection check. */
  lemma ChoiceSubmitShape(m: Meta, u: Ui, s: StoreState, now: int, checked: bool, k: int, sel: Option<int>, corr: Option<int>)
    requires IsChoice(m.classes)
    requires k == FirstChosen(u.alts) && k >= 0
    requires sel == ParseInt(u.alts[k].hidden) && sel != Some(-1)
    requires corr == CorrectIndex(m)
    ensures var right := sel.Some? && corr == sel;
            var g := Graded(u.alts, k, right, corr, checked);
            SubmitAs(m, u, s, now, checked) ==
              if g.None? then Submission(Crashed, u.(alts := Graded(u.alts, k, right, corr, true).value), s)
              else Finish(m, u.(alts := g.value), s, SelectedOf(sel), NullText, now)
  {
  }

  /** A choice submit that gets past the selection check grades the chosen alternative
      `k`: `correct` when its value equals the answer index, otherwise `incorrect` with
      `correct` on the answer. `selected` is taken off every alternative, the answer block
      is shown, the form disabled and the record stored under the exercise's id. As
      written (`checked` false) it stops half way, with nothing stored and nothing
      disabled, exactly when the answer is wrong and the answer index names no
      alternative; with the range check it never stops half way. */
  lemma SubmitGradesChoice(m: Meta, u: Ui, s: StoreState, now: int, checked: bool)
    requires IsChoice(m.classes)
    requires FirstChosen(u.alts) >= 0
    requires ParseInt(u.alts[FirstChosen(u.alts)].hidden) != Some(-1)
    ensures var k := FirstChosen(u.alts);
            var sel := ParseInt(u.alts[k].hidden);
            var corr := CorrectIndex(m);
            var right := sel.Some? && corr == sel;
            var r := SubmitAs(m, u, s, now, checked);
            && (r.outcome == Crashed <==> !checked && !right && !(corr.Some? && 0 <= corr.value < |u.alts|))
            && (r.outcome == Crashed ==> r.store == s && r.ui.enabled == u.enabled && r.ui.answerShown == u.answerShown)
            && (r.outcome != Crashed ==>
                 && r.outcome == Saved(DurableWriteSucceeds(s))
                 && !r.ui.enabled && r.ui.answerShown == (m.hasAnswerBlock || u.answerShown)
                 && r.store == Set(s, m.id, Stringify(SubmitRecord(SelectedOf(sel), NullText, now))).0)
            && (forall j :: 0 <= j < |u.alts| ==>
                 && !r.ui.alts[j].selected && r.ui.alts[j].hidden == u.alts[j].hidden
                 && (r.ui.alts[j].incorrect <==> !right && j == k)
                 && (r.outcome != Crashed ==> r.ui.alts[j].disabled)
                 && (r.ui.alts[j].correct <==> (if right then j == k else Some(j) == corr)))
  {
    var k := FirstChosen(u.alts);
    var sel := ParseInt(u.alts[k].hidden);
    var corr := CorrectIndex(m);
    ChoiceSubmitShape(m, u, s, now, checked, k, sel, corr);
    GradedSubmit(m, u, s, now, checked, k, sel, corr);
  }

  /** `SubmitGradesChoice` for given `k`, `sel` and `corr`. */
  lemma GradedSubmit(m: Meta, u: Ui, s: StoreState, now: int, checked: bool, k: int, sel: Option<int>, corr: Option<int>)
    requires 0 <= k < |u.alts|
    requires var right := sel.Some? && corr == sel;
             var g := Graded(u.alts, k, right, corr, checked);
             SubmitAs(m, u, s, now, checked) ==
               if g.None? then Submission(Crashed, u.(alts := Graded(u.alts, k, right, corr, true).value), s)
               else Finish(m, u.(alts := g.value), s, SelectedOf(sel), NullText, now)
    ensures var right := sel.Some? && corr == sel;
            var r := SubmitAs(m, u, s, now, checked);
            && (r.outcome == Crashed <==> !checked && !right && !(corr.Some? && 0 <= corr.value < |u.alts|))
            && (r.outcome == Crashed ==> r.store == s && r.ui.enabled == u.enabled && r.ui.answerShown == u.answerShown)
            && (r.outcome != Crashed ==>
                 && r.outcome == Saved(DurableWriteSucceeds(s))
                 && !r.ui.enabled && r.ui.answerShown == (m.hasAnswerBlock || u.answerShown)
                 && r.store == Set(s, m.id, Stringify(SubmitRecord(SelectedOf(sel), NullText, now))).0)
            && (forall j :: 0 <= j < |u.alts| ==>
                 && !r.ui.alts[j].selected && r.ui.alts[j].hidden == u.alts[j].hidden
                 && (r.ui.alts[j].incorrect <==> !right && j == k)
                 && (r.outcome != Crashed ==> r.ui.alts[j].disabled)
                 && (r.ui.alts[j].correct <==> (if right then j == k else Some(j) == corr)))
  {
  }

  /** A text submit stores the trimmed value of the input (null when the form has no
      input) with `selectedAnswer: null`; a self-progress submit stores null for both.
      Either way the answer block is shown and the form disabled. */
  lemma SubmitStoresText(m: Meta, u: Ui, s: StoreState, now: int)
    requires !IsChoice(m.classes)
    ensures var r := AfterSubmit(m, u, s, now);
            var answer := if IsText(m.classes) then SubmittedText(u) else NullText;
            && r.outcome == Saved(DurableWriteSucceeds(s))
            && r.ui == Disabled(Shown(m, u))
            && r.store == Set(s, m.id, Stringify(SubmitRecord(NullSelected, answer, now))).0
            && (answer.TextValue? ==> answer.text == JsTrim(u.text.value))
  {
  }

  /** After a completed submit the form is disabled, so clicks change nothing. */
  lemma SubmittedFormIgnoresClicks(m: Meta, u: Ui, s: StoreState, now: int, listening: bool, i: int)
    requires AfterSubmit(m, u, s, now).outcome.Saved?
    ensures var r := AfterSubmit(m, u, s, now).ui;
            AfterClick(r, listening, i) == r
  {
  }

  /** A click followed by a submit reads back the clicked position. */
  lemma ClickThenSubmitReadsClick(u: Ui, i: int)
    requires ClickTakesEffect(u, true, i)
    ensures var c := AfterClick(u, true, i);
            FirstChosen(c.alts) == i && ParseInt(c.alts[i].hidden) == Some(i)
  {
    ParseIntOfNatToString(i);
  }

  // ---------------------------------------------------------------------------------
  // Restoring from storage (quiz.js:482-597)
  // ---------------------------------------------------------------------------------

  /** `storage.getItem(id)` followed by `JSON.parse`, removing a record that does not
      parse (quiz.js:487-500). Only a truthy stored string is parsed. */
  function LoadRecord(s: StoreState, key: string): (r: (StoreState, Option<StateRecord>))
    ensures var (s1, raw) := Get(s, key);
            && (raw.Some? && raw.value.Json? ==> r == (s1, Some(raw.value.rec)))
            && (raw.Some? && raw.value.Raw? && raw.value.text != "" ==> r == (Remove(s1, key), None))
            && (raw.None? || raw.value == Raw("") ==> r == (s1, None))
  {
    var (s1, raw) := Get(s, key);
    if raw.Some? && Truthy(raw.value) then
      var rec := Parse(raw.value);
      if rec.None? then (Remove(s1, key), None) else (s1, rec)
    else (s1, None)
  }

  /** `inputField.value = savedState.answerText` when the form has an input and the
      field is present; null is written as the empty string. */
  function Prefill(u: Ui, t: AnswerText): Ui {
    if u.text.Some? && t != NoText then u.(text := Some(AssignedText(t))) else u
  }

  /** The marks restore puts on a submitted choice whose `selectedAnswer` is `v`:
      `correct` or `incorrect` as a submit would, then `selected` and the hidden value. */
  function RestoredMarks(alts: seq<Alt>, v: int, corr: Option<int>): (r: seq<Alt>)
    requires 0 <= v < |alts|
    ensures |r| == |alts|
    ensures forall j :: 0 <= j < |alts| ==>
      && (r[j].selected <==> j == v || alts[j].selected)
      && (r[j].correct <==> (if corr == Some(v) then j == v else Some(j) == corr) || alts[j].correct)
      && (r[j].incorrect <==> (j == v && corr != Some(v)) || alts[j].incorrect)
      && r[j].hidden == (if j == v then NatToString(v) else alts[j].hidden)
      && r[j].disabled == alts[j].disabled && r[j].text == alts[j].text
  {
    var marked :=
      if corr == Some(v) then alts[v := alts[v].(correct := true)]
      else
        var wrong := alts[v := alts[v].(incorrect := true)];
        if corr.Some? && 0 <= corr.value < |alts| then wrong[corr.value := wrong[corr.value].(correct := true)]
        else wrong;
    marked[v := marked[v].(selected := true, hidden := NatToString(v))]
  }

  datatype Restored = Restored(ui: Ui, store: StoreState)

  /** The restore step of the per-form setup, from the initial `disableForm()` on. */
  function AfterRestore(m: Meta, u: Ui, s: StoreState): (r: Restored)
    ensures |r.ui.alts| == |u.alts|
  {
    var (s1, rec) := LoadRecord(s, m.id);
    RestoreFrom(m, Disabled(u), s1, rec)
  }

  /** What restore does with the record it loaded (quiz.js:502-597). */
  function RestoreFrom(m: Meta, u0: Ui, s1: StoreState, rec: Option<StateRecord>): (r: Restored)
    ensures |r.ui.alts| == |u0.alts|
  {
    if rec.None? then Restored(Hidden(m, Enabled(u0)), s1)
    else if rec.value.submitted then RestoreSubmitted(m, Shown(m, Disabled(u0)), s1, rec.value)
    else
      var u1 := if IsText(m.classes) then Prefill(u0, rec.value.answerText) else u0;
      Restored(Enabled(Hidden(m, u1)), s1)
  }

  /** Restore of a submitted record, once the form is disabled and the answer shown
      (quiz.js:513-568). */
  function RestoreSubmitted(m: Meta, u1: Ui, s1: StoreState, rec: StateRecord): (r: Restored)
    ensures |r.ui.alts| == |u1.alts|
  {
    if IsChoice(m.classes) then
      var sel := rec.selectedAnswer;
      if sel.SelectedIndex? && 0 <= sel.index < |u1.alts| then
        Restored(u1.(alts := RestoredMarks(u1.alts, sel.index, CorrectIndex(m))), s1)
      else Restored(Hidden(m, Enabled(u1)), Remove(s1, m.id))
    else if IsText(m.classes) then Restored(Prefill(u1, rec.answerText), s1)
    else Restored(u1, s1)
  }

  /** With no stored record, or one not marked submitted, the form ends enabled with the
      answer hidden; a text exercise gets the saved `answerText` back. */
  lemma RestoreUnsubmitted(m: Meta, u: Ui, s: StoreState)
    requires LoadRecord(s, m.id).1.None? || !LoadRecord(s, m.id).1.value.submitted
    ensures var r := AfterRestore(m, u, s);
            && r.ui.enabled && (m.hasAnswerBlock ==> !r.ui.answerShown)
            && (forall j :: 0 <= j < |r.ui.alts| ==> !r.ui.alts[j].disabled)
            && r.store == LoadRecord(s, m.id).0
            && (var rec := LoadRecord(s, m.id).1;
                r.ui.text == if rec.Some? && IsText(m.classes) then Prefill(u, rec.value.answerText).text else u.text)
  {
  }

  /** A submitted choice record whose `selectedAnswer` does not name an alternative is
      removed from storage, and the form ends enabled with the answer hidden. */
  lemma RestoreQuarantinesOutOfRange(m: Meta, u: Ui, s: StoreState)
    requires IsChoice(m.classes)
    requires var rec := LoadRecord(s, m.id).1;
             && rec.Some? && rec.value.submitted
             && !(rec.value.selectedAnswer.SelectedIndex? && 0 <= rec.value.selectedAnswer.index < |u.alts|)
    ensures var r := AfterRestore(m, u, s);
            && r.store == Remove(LoadRecord(s, m.id).0, m.id)
            && m.id !in r.store.data
            && r.ui.enabled && (m.hasAnswerBlock ==> !r.ui.answerShown)
            && (forall j :: 0 <= j < |r.ui.alts| ==> !r.ui.alts[j].disabled)
  {
  }

  /** A stored string that is not JSON is removed, and the form starts blank. */
  lemma RestoreRemovesCorrupt(m: Meta, u: Ui, s: StoreState, text: string)
    requires ReadsDurable(s, m.id) && s.durable[m.id] == Raw(text) && text != ""
    ensures var r := AfterRestore(m, u, s);
            && r.store == Remove(Get(s, m.id).0, m.id)
            && m.id !in r.store.data && (DurableWriteSucceeds(Get(s, m.id).0) ==> m.id !in r.store.durable)
            && r.ui.enabled && (m.hasAnswerBlock ==> !r.ui.answerShown)
  {
  }

  /** The shape of a restore that finds a submitted choice record whose selection
      names an alternative. */
  lemma RestoreSubmittedChoiceShape(m: Meta, u: Ui, s: StoreState, rec: StateRecord)
    requires IsChoice(m.classes)
    requires LoadRecord(s, m.id).1 == Some(rec) && rec.submitted
    requires rec.selectedAnswer.SelectedIndex? && 0 <= rec.selectedAnswer.index < |u.alts|
    ensures var u1 := Shown(m, Disabled(Disabled(u)));
            AfterRestore(m, u, s) ==
              Restored(u1.(alts := RestoredMarks(u1.alts, rec.selectedAnswer.index, CorrectIndex(m))), LoadRecord(s, m.id).0)
  {
  }

  /** Restoring a submitted choice record whose selection `v` names an alternative of a
      form without marks gives the marks of a submit of `v`, plus `selected` on `v`, in a
      disabled form with the answer shown. */
  lemma RestoreSubmittedChoice(m: Meta, u: Ui, s: StoreState, rec: StateRecord)
    requires IsChoice(m.classes)
    requires LoadRecord(s, m.id).1 == Some(rec) && rec.submitted
    requires rec.selectedAnswer.SelectedIndex? && 0 <= rec.selectedAnswer.index < |u.alts|
    requires forall j :: 0 <= j < |u.alts| ==> !u.alts[j].selected && !u.alts[j].correct && !u.alts[j].incorrect
    ensures var back := AfterRestore(m, u, s);
            var v := rec.selectedAnswer.index;
            var corr := CorrectIndex(m);
            && back.store == LoadRecord(s, m.id).0
            && !back.ui.enabled && back.ui.answerShown == (m.hasAnswerBlock || u.answerShown)
            && |back.ui.alts| == |u.alts|
            && (forall j :: 0 <= j < |u.alts| ==>
                  && (back.ui.alts[j].correct <==> (if corr == Some(v) then j == v else Some(j) == corr))
                  && (back.ui.alts[j].incorrect <==> j == v && corr != Some(v))
                  && (back.ui.alts[j].selected <==> j == v)
                  && back.ui.alts[j].disabled)
            && back.ui.alts[v].hidden == NatToString(v)
  {
    RestoreSubmittedChoiceShape(m, u, s, rec);
  }

  /** Round trip: clicking alternative `i`, submitting with the range check, and loading
      the page again gives the graded form back, whatever the answer index is. The blank
      page's alternatives carry no marks; the marks after restore are those the submit
      left, plus `selected` on `i`, and the form stays disabled with the answer shown.
      This needs a durable store that does not throw: a read answered from memory after
      a durable write would miss the record. */
  lemma ClickSubmitRestore(m: Meta, u: Ui, s: StoreState, now: int, i: int, blank: seq<Alt>)
    requires IsChoice(m.classes) && Reliable(s)
    requires ClickTakesEffect(u, true, i)
    requires |blank| == |u.alts|
    requires forall j :: 0 <= j < |blank| ==> !blank[j].selected && !blank[j].correct && !blank[j].incorrect
    ensures var sub := AfterSubmitChecked(m, AfterClick(u, true, i), s, now);
            var back := AfterRestore(m, u.(alts := blank, answerShown := false), sub.store);
            && sub.outcome == Saved(s.available)
            && !back.ui.enabled && back.ui.answerShown == m.hasAnswerBlock
            && (forall j :: 0 <= j < |blank| ==>
                  && back.ui.alts[j].correct == sub.ui.alts[j].correct
                  && back.ui.alts[j].incorrect == sub.ui.alts[j].incorrect
                  && (back.ui.alts[j].selected <==> j == i))
            && back.ui.alts[i].hidden == NatToString(i)
  {
    var rec := SubmitRecord(SelectedIndex(i), NullText, now);
    ClickSubmitStores(m, u, s, now, i);
    var sub := AfterSubmitChecked(m, AfterClick(u, true, i), s, now);
    StoredRecordReads(s, m.id, rec);
    var v := u.(alts := blank, answerShown := false);
    RestoreSubmittedChoice(m, v, sub.store, rec);
    var back := AfterRestore(m, v, sub.store);
    SameMarks(sub.ui.alts, back.ui.alts, i, CorrectIndex(m));
  }

  /** Two lists of alternatives that both carry the marks of a graded selection `v`
      carry the same marks. */
  lemma SameMarks(a: seq<Alt>, b: seq<Alt>, v: int, corr: Option<int>)
    requires |a| == |b|
    requires forall j :: 0 <= j < |a| ==>
      && (a[j].correct <==> (if corr == Some(v) then j == v else Some(j) == corr))
      && (a[j].incorrect <==> j == v && corr != Some(v))
    requires forall j :: 0 <= j < |b| ==>
      && (b[j].correct <==> (if corr == Some(v) then j == v else Some(j) == corr))
      && (b[j].incorrect <==> j == v && corr != Some(v))
    ensures forall j :: 0 <= j < |a| ==> a[j].correct == b[j].correct && a[j].incorrect == b[j].incorrect
  {
  }

  /** The checked submit after an effective click stores the clicked position. */
  lemma ClickSubmitStores(m: Meta, u: Ui, s: StoreState, now: int, i: int)
    requires IsChoice(m.classes) && Reliable(s)
    requires ClickTakesEffect(u, true, i)
    ensures var sub := AfterSubmitChecked(m, AfterClick(u, true, i), s, now);
            && sub.outcome == Saved(s.available)
            && sub.store == Set(s, m.id, Stringify(SubmitRecord(SelectedIndex(i), NullText, now))).0
            && |sub.ui.alts| == |u.alts|
            && forall j :: 0 <= j < |u.alts| ==>
                 var corr := CorrectIndex(m);
                 && (sub.ui.alts[j].correct <==> (if corr == Some(i) then j == i else Some(j) == corr))
                 && (sub.ui.alts[j].incorrect <==> j == i && corr != Some(i))
  {
    var c := AfterClick(u, true, i);
    ClickThenSubmitReadsClick(u, i);
    SubmitGradesChoice(m, c, s, now, true);
    ReliableStaysReliable(s, m.id, Stringify(SubmitRecord(SelectedIndex(i), NullText, now)));
  }

  /** Under a reliable durable store the record just written is the one read back. */
  lemma StoredRecordReads(s: StoreState, key: string, rec: StateRecord)
    requires Reliable(s)
    ensures LoadRecord(Set(s, key, Stringify(rec)).0, key).1 == Some(rec)
    ensures Get(Set(s, key, Stringify(rec)).0, key).1 == Some(Json(rec))
    ensures Reliable(Set(s, key, Stringify(rec)).0)
  {
    ReliableStaysReliable(s, key, Stringify(rec));
    SetThenGet(s, key, Stringify(rec));
  }

  // ---------------------------------------------------------------------------------
  // Setting up a form (quiz.js:393-424, 599-671)
  // ---------------------------------------------------------------------------------

  /** The bookkeeping of one form: `data-quiz-processed`, `data-handlers-attached`, how
      many sets of click listeners its alternatives carry, and whether its text input
      has the autosave listener. */
  datatype Wiring = Wiring(processed: bool, handlersAttached: bool, listeners: nat, autosaving: bool)

  /** The attachment guard shared by attachChoiceEventHandlers (quiz.js:107-110, 145)
      and the per-form setup (quiz.js:604, 638). */
  function Attached(w: Wiring): Wiring {
    if w.handlersAttached then w else w.(handlersAttached := true, listeners := w.listeners + 1)
  }

  /** Listeners are attached exactly when the flag is set, and then once. */
  predicate WellWired(w: Wiring) {
    w.listeners == if w.handlersAttached then 1 else 0
  }

  /** The guard makes attachment idempotent: a second attachment adds no listener, and
      the flag keeps counting the listeners. */
  lemma AttachedOnce(w: Wiring)
    ensures Attached(Attached(w)) == Attached(w)
    ensures Attached(w).handlersAttached && Attached(w).processed == w.processed
    ensures Attached(w).listeners == if w.handlersAttached then w.listeners else w.listeners + 1
    ensures WellWired(w) ==> WellWired(Attached(w))
  {
  }

  datatype SetUp = SetUp(meta: Meta, ui: Ui, wiring: Wiring, store: StoreState)

  /** The body of the forEach over `form.quiz-form` for one form of an exercise:
      nothing when the form is already marked processed; otherwise mark it, give the
      container `fallbackId` when it has no id, restore from storage, attach the click
      handlers of a choice exercise and the autosave listener of a text exercise
      whose form has an input. */
  function AfterSetup(m: Meta, u: Ui, w: Wiring, s: StoreState, fallbackId: string): SetUp {
    if w.processed then SetUp(m, u, w, s)
    else
      var m1 := if m.id == "" then m.(id := fallbackId) else m;
      var r := AfterRestore(m1, u, s);
      var w1 := w.(processed := true);
      var w2 := if IsChoice(m.classes) then Attached(w1) else w1;
      var w3 := if IsText(m.classes) && u.text.Some? then w2.(autosaving := true) else w2;
      SetUp(m1, r.ui, w3, r.store)
  }

  /** The processed guard: a form is set up once. Setting it up again changes nothing,
      and a set-up form is marked processed, keeps its classes, takes the fallback id
      only when it had none, and carries its listeners once. */
  lemma SetupOnce(m: Meta, u: Ui, w: Wiring, s: StoreState, fallbackId: string, s2: StoreState, otherId: string)
    requires WellWired(w)
    ensures var r := AfterSetup(m, u, w, s, fallbackId);
            && r.wiring.processed && r.meta.classes == m.classes
            && (m.id != "" ==> r.meta.id == m.id)
            && (!w.processed && m.id == "" ==> r.meta.id == fallbackId)
            && WellWired(r.wiring)
            && (!w.processed && IsChoice(m.classes) ==> r.wiring.handlersAttached)
            && (!w.processed && IsText(m.classes) && u.text.Some? ==> r.wiring.autosaving)
            && AfterSetup(r.meta, r.ui, r.wiring, s2, otherId) == SetUp(r.meta, r.ui, r.wiring, s2)
  {
    AttachedOnce(w.(processed := true));
  }

  // ---------------------------------------------------------------------------------
  // Editing (quiz.js:763-838)
  // ---------------------------------------------------------------------------------

  datatype Edited = Edited(crashed: bool, ui: Ui, store: StoreState)

  /** The tail of the edit handler: hide the answer, and rewrite a record that was read
      with `submitted` set to false. */
  function EditFinish(m: Meta, u: Ui, s: StoreState, last: Option<StateRecord>): (r: Edited)
    ensures |r.ui.alts| == |u.alts|
  {
    if last.Some? then Edited(false, Hidden(m, u), Set(s, m.id, Stringify(last.value.(submitted := false))).0)
    else Edited(false, Hidden(m, u), s)
  }

  /** The record the edit handler reads: only a truthy stored string is parsed, and one
      that does not parse is ignored but not removed. */
  function LastState(raw: Option<Value>): (r: Option<StateRecord>)
    ensures r.Some? <==> raw.Some? && raw.value.Json?
    ensures r.Some? ==> r.value == raw.value.rec
  {
    if raw.Some? && Truthy(raw.value) then Parse(raw.value) else None
  }

  /** The first part of the edit handler: enable the form, take the feedback marks and
      hidden values off every alternative, and put the stored text back into the input,
      or clear it (quiz.js:781-803). */
  function Reopened(u: Ui, last: Option<StateRecord>): (r: Ui)
    ensures |r.alts| == |u.alts|
  {
    var u1 := Enabled(u);
    var u2 := u1.(alts := ResetAll(u1.alts, ClearFeedback));
    if u2.text.None? then u2
    else if last.Some? && last.value.answerText != NoText then u2.(text := Some(AssignedText(last.value.answerText)))
    else u2.(text := Some(""))
  }

  /** The edit button's handler. A stored `selectedAnswer` of null passes the range test
      `null >= 0 && null < alternatives.length` whenever there is an alternative, and
      then `alternatives[null]` is undefined: the handler stops with `crashed`. */
  function AfterEdit(m: Meta, u: Ui, s: StoreState): (r: Edited)
    ensures |r.ui.alts| == |u.alts|
  {
    var (s1, raw) := Get(s, m.id);
    var last := LastState(raw);
    var u3 := Reopened(u, last);
    if last.Some? && last.value.selectedAnswer != NoSelected then
      Reselected(m, u3.(alts := ResetAll(u3.alts, Unselect)), s1, last.value)
    else EditFinish(m, u3, s1, last)
  }

  /** The edit handler once every `selected` is removed, for a record that has a
      `selectedAnswer` field (quiz.js:807-837). */
  function Reselected(m: Meta, u4: Ui, s1: StoreState, last: StateRecord): (r: Edited)
    requires last.selectedAnswer != NoSelected
    ensures |r.ui.alts| == |u4.alts|
  {
    var sel := last.selectedAnswer;
    if sel.NullSelected? then
      if |u4.alts| > 0 then Edited(true, u4, s1) else EditFinish(m, u4, s1, Some(last))
    else if 0 <= sel.index < |u4.alts| then
      EditFinish(m, u4.(alts := u4.alts[sel.index := u4.alts[sel.index].(selected := true, hidden := NatToString(sel.index))]), s1, Some(last))
    else EditFinish(m, u4, s1, Some(last))
  }

  /** Edit re-enables the form, takes `correct` and `incorrect` off every alternative
      and, unless it stops on a null selection, hides the answer and re-marks a stored
      in-range selection as `selected`, and only that one. The stored record is
      rewritten with `submitted` false and every other field kept. */
  lemma EditReopens(m: Meta, u: Ui, s: StoreState)
    ensures var r := AfterEdit(m, u, s);
            var (s1, raw) := Get(s, m.id);
            var last := LastState(raw);
            && r.ui.enabled && |r.ui.alts| == |u.alts|
            && (forall j :: 0 <= j < |u.alts| ==> !r.ui.alts[j].correct && !r.ui.alts[j].incorrect && !r.ui.alts[j].disabled)
            && (r.crashed <==> last.Some? && last.value.selectedAnswer == NullSelected && |u.alts| > 0)
            && (!r.crashed ==> m.hasAnswerBlock ==> !r.ui.answerShown)
            && (!r.crashed && last.Some? ==> r.store == Set(s1, m.id, Stringify(last.value.(submitted := false))).0)
            && (last.None? || r.crashed ==> r.store == s1)
            && (last.Some? && last.value.selectedAnswer.SelectedIndex? ==>
                  forall j :: 0 <= j < |u.alts| ==> (r.ui.alts[j].selected <==> j == last.value.selectedAnswer.index))
  {
    var (s1, raw) := Get(s, m.id);
    var last := LastState(raw);
    var u3 := Reopened(u, last);
    ReopenedIsCleared(u, last);
    if last.Some? && last.value.selectedAnswer != NoSelected {
      var u4 := u3.(alts := ResetAll(u3.alts, Unselect));
      assert Cleared(u4.alts) && forall j :: 0 <= j < |u4.alts| ==> !u4.alts[j].selected;
      ReselectedMeaning(m, u4, s1, last.value);
    } else {
      EditFinishMeaning(m, u3, s1, last);
    }
  }

  /** No alternative carries `correct`, `incorrect` or `disabled`. */
  predicate Cleared(alts: seq<Alt>) {
    forall j :: 0 <= j < |alts| ==> !alts[j].correct && !alts[j].incorrect && !alts[j].disabled
  }

  lemma ReopenedIsCleared(u: Ui, last: Option<StateRecord>)
    ensures Reopened(u, last).enabled && Cleared(Reopened(u, last).alts)
  {
  }

  /** The tail of the edit handler changes only the answer block and the store. */
  lemma EditFinishMeaning(m: Meta, u: Ui, s: StoreState, last: Option<StateRecord>)
    ensures var r := EditFinish(m, u, s, last);
            && !r.crashed && r.ui.alts == u.alts && r.ui.enabled == u.enabled
            && (m.hasAnswerBlock ==> !r.ui.answerShown)
            && r.store == if last.Some? then Set(s, m.id, Stringify(last.value.(submitted := false))).0 else s
  {
  }

  /** Re-marking the stored selection: a null selection stops the handler when there is
      an alternative; an in-range index is marked `selected`, and nothing else is. */
  lemma ReselectedMeaning(m: Meta, u4: Ui, s1: StoreState, last: StateRecord)
    requires last.selectedAnswer != NoSelected
    requires u4.enabled && Cleared(u4.alts) && forall j :: 0 <= j < |u4.alts| ==> !u4.alts[j].selected
    ensures var r := Reselected(m, u4, s1, last);
            && r.ui.enabled && Cleared(r.ui.alts)
            && (r.crashed <==> last.selectedAnswer == NullSelected && |u4.alts| > 0)
            && (!r.crashed ==> m.hasAnswerBlock ==> !r.ui.answerShown)
            && (!r.crashed ==> r.store == Set(s1, m.id, Stringify(last.(submitted := false))).0)
            && (r.crashed ==> r.store == s1)
            && (last.selectedAnswer.SelectedIndex? ==>
                  forall j :: 0 <= j < |u4.alts| ==> (r.ui.alts[j].selected <==> j == last.selectedAnswer.index))
  {
    var sel := last.selectedAnswer;
    if sel.SelectedIndex? && 0 <= sel.index < |u4.alts| {
      var a := u4.alts[sel.index := u4.alts[sel.index].(selected := true, hidden := NatToString(sel.index))];
      EditFinishMeaning(m, u4.(alts := a), s1, Some(last));
    } else if sel.SelectedIndex? || |u4.alts| == 0 {
      EditFinishMeaning(m, u4, s1, Some(last));
    }
  }

  /** The shape of an edit of a form without alternatives that reads a record. */
  lemma EditWithoutAltsShape(m: Meta, u: Ui, s: StoreState, rec: StateRecord)
    requires |u.alts| == 0
    requires Get(s, m.id).1 == Some(Json(rec))
    ensures var u3 := if u.text.None? then Enabled(u)
                      else if rec.answerText != NoText then Enabled(u).(text := Some(AssignedText(rec.answerText)))
                      else Enabled(u).(text := Some(""));
            AfterEdit(m, u, s) == EditFinish(m, u3.(alts := []), Get(s, m.id).0, Some(rec))
  {
  }

  /** Editing a form with a text input and no alternatives, while a record whose
      `answerText` is `t` is stored, puts `t` back and rewrites the record with
      `submitted` false. */
  lemma EditRestoresText(m: Meta, u: Ui, s: StoreState, rec: StateRecord, t: string)
    requires |u.alts| == 0 && u.text.Some? && Reliable(s)
    requires Get(s, m.id).1 == Some(Json(rec)) && rec.answerText == TextValue(t)
    ensures var ed := AfterEdit(m, u, s);
            && !ed.crashed && ed.ui.enabled && ed.ui.text == Some(t)
            && LoadRecord(ed.store, m.id).1 == Some(rec.(submitted := false))
  {
    EditWithoutAltsShape(m, u, s, rec);
    var s1 := Get(s, m.id).0;
    ReliableStaysReliable(s, m.id, Stringify(rec));
    StoredRecordReads(s1, m.id, rec.(submitted := false));
  }

  /** Round trip for a text exercise: submit, then edit, gives back the trimmed answer
      in an enabled form, and the stored record keeps that answer with `submitted` now
      false. */
  lemma SubmitThenEditText(m: Meta, u: Ui, s: StoreState, now: int)
    requires !IsChoice(m.classes) && IsText(m.classes) && u.text.Some? && Reliable(s)
    requires |u.alts| == 0
    ensures var sub := AfterSubmit(m, u, s, now);
            var ed := AfterEdit(m, sub.ui, sub.store);
            var rec := SubmitRecord(NullSelected, TextValue(JsTrim(u.text.value)), now);
            && !ed.crashed && ed.ui.enabled
            && ed.ui.text == Some(JsTrim(u.text.value))
            && LoadRecord(ed.store, m.id).1 == Some(rec.(submitted := false))
  {
    var rec := SubmitRecord(NullSelected, TextValue(JsTrim(u.text.value)), now);
    SubmitStoresText(m, u, s, now);
    var sub := AfterSubmit(m, u, s, now);
    StoredRecordReads(s, m.id, rec);
    EditRestoresText(m, sub.ui, sub.store, rec, JsTrim(u.text.value));
  }

  // ---------------------------------------------------------------------------------
  // Debounced autosave of the text input (quiz.js:645-671)
  // ---------------------------------------------------------------------------------

  /** `saveTimeout`: the id of the timer that is still to fire, if any, and the id the
      next `setTimeout` returns. */
  datatype Timer = Timer(pending: Option<nat>, next: nat)

  /** The input listener: `clearTimeout(saveTimeout)` then a new `setTimeout`. */
  function Schedule(t: Timer): (r: Timer)
    ensures r.pending == Some(t.next) && r.next == t.next + 1
  {
    Timer(Some(t.next), t.next + 1)
  }

  /** `n` input events in a row. */
  function Typed(t: Timer, n: nat): Timer {
    if n == 0 then t else Schedule(Typed(t, n - 1))
  }

  datatype AutosaveOutcome =
    | Stale                   // a cancelled timer: nothing happens
    | Unparsable              // JSON.parse threw inside the timer: nothing is written
    | Autosaved(durably: bool)  // the record was written; `durably` is setItem's result

  datatype Fired = Fired(outcome: AutosaveOutcome, timer: Timer, store: StoreState)

  /** Timer `fired` going off while the input holds `text`. The record read back keeps
      every field and gets the current, untrimmed value as `answerText`; with nothing
      stored it starts from `{}`. */
  function AfterFire(m: Meta, t: Timer, fired: nat, text: string, s: StoreState): Fired {
    if t.pending != Some(fired) then Fired(Stale, t, s)
    else
      var (s1, raw) := Get(s, m.id);
      var t1 := t.(pending := None);
      var base := if raw.Some? && Truthy(raw.value) then Parse(raw.value) else Some(EmptyRecord);
      if base.None? then Fired(Unparsable, t1, s1)
      else
        var (s2, ok) := Set(s1, m.id, Stringify(base.value.(answerText := TextValue(text))));
        Fired(Autosaved(ok), t1, s2)
  }

  /** Debounce: after `n` inputs only the timer of the last one can write. Every timer
      an earlier input set up was cancelled, so its firing changes nothing. */
  lemma {:induction false} OnlyLastInputSaves(t: Timer, n: nat, m: Meta, text: string, s: StoreState, fired: nat)
    requires n >= 1
    requires t.pending.Some? ==> t.pending.value < t.next
    ensures Typed(t, n).pending == Some(t.next + n - 1) && Typed(t, n).next == t.next + n
    ensures fired != t.next + n - 1 ==> AfterFire(m, Typed(t, n), fired, text, s) == Fired(Stale, Typed(t, n), s)
  {
    if n > 1 {
      OnlyLastInputSaves(t, n - 1, m, text, s, fired);
    }
  }

  /** Autosave changes only `answerText`: read back from a store that does not throw,
      the record has every other field as before, or is `{answerText}` alone when
      nothing was stored. */
  lemma AutosaveKeepsOtherFields(m: Meta, t: Timer, text: string, s: StoreState)
    requires t.pending.Some? && Reliable(s)
    requires LoadRecord(s, m.id).1.Some? || Get(s, m.id).1.None?
    ensures var f := AfterFire(m, t, t.pending.value, text, s);
            var before := LoadRecord(s, m.id).1;
            var expected := if before.Some? then before.value else EmptyRecord;
            && f.outcome.Autosaved? && f.timer.pending.None?
            && LoadRecord(f.store, m.id).1 == Some(expected.(answerText := TextValue(text)))
  {
    var (s1, raw) := Get(s, m.id);
    var before := LoadRecord(s, m.id).1;
    var expected := if before.Some? then before.value else EmptyRecord;
    var v := Stringify(expected.(answerText := TextValue(text)));
    ReliableStaysReliable(s, m.id, v);
    ReliableStaysReliable(s1, m.id, v);
    SetThenGet(s1, m.id, v);
  }

  // ---------------------------------------------------------------------------------
  // The crash at quiz.js:716
  // ---------------------------------------------------------------------------------

  /** A choice list with no marked item gets `data-answer-idx="-1"`. Submitting any
      selection for it stops at `alternatives[-1]`: nothing is stored, the form stays
      enabled and the answer hidden. The checked version stores the submit. */
  lemma SubmitWithoutMarkedAnswerCrashes(classes: set<string>, id: string, s: StoreState, now: int)
    requires "exercise" in classes && "choice" in classes
    ensures var m := Meta(classes, id, Some("-1"), true);
            var u := Ui([Alt("a", false, false, false, false, "0"), Alt("b", false, false, false, false, "")], None, false, true);
            && AfterSubmit(m, u, s, now).outcome == Crashed
            && AfterSubmit(m, u, s, now).store == s
            && AfterSubmitChecked(m, u, s, now).outcome == Saved(DurableWriteSucceeds(s))
  {
    var m := Meta(classes, id, Some("-1"), true);
    var u := Ui([Alt("a", false, false, false, false, "0"), Alt("b", false, false, false, false, "")], None, false, true);
    assert FirstChosen(u.alts) == 0;
    ParseIntOfIntToString(0);
    assert IntToString(0) == "0";
    ParseIntOfIntToString(-1);
    assert IntToString(-1) == "-1";
    assert CorrectIndex(m) == Some(-1);
    UnmarkedSubmit(m, u, s, now, false);
    UnmarkedSubmit(m, u, s, now, true);
  }

  /** A choice submit of the first alternative, with value 0, against the answer index
      -1. */
  lemma UnmarkedSubmit(m: Meta, u: Ui, s: StoreState, now: int, checked: bool)
    requires IsChoice(m.classes) && FirstChosen(u.alts) == 0
    requires ParseInt(u.alts[0].hidden) == Some(0) && CorrectIndex(m) == Some(-1)
    ensures var r := SubmitAs(m, u, s, now, checked);
            && r.outcome == (if checked then Saved(DurableWriteSucceeds(s)) else Crashed)
            && (!checked ==> r.store == s)
  {
    ChoiceSubmitShape(m, u, s, now, checked, 0, Some(0), Some(-1));
  }
}
