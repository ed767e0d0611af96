/** One exercise form as the handlers of src/static/quiz.js see it: the alternatives are
    updated in place by the forEach loops, and the other visible state, the id and the
    bookkeeping attributes are fields. Each handler is proved to end in the state that
    the matching function of the Controller module describes. */
module ExerciseForm {
  import opened Strings
  import opened Records
  import opened Storage
  import opened Controller

  class Exercise {
    /** The container's class tokens, `data-answer-idx` and whether it has an answer block. */
    const classes: set<string>
    const answerIdx: Option<string>
    const hasAnswerBlock: bool
    /** The `.quiz-alternative` labels of the form, in document order. */
    const alts: array<Alt>

    var id: string
    /** The value of the `.quiz-text-input`, when the form has one. */
    var text: Option<string>
    var answerShown: bool
    var enabled: bool
    var processed: bool
    var handlersAttached: bool
    var listeners: nat
    var autosaving: bool
    /** `saveTimeout` of the autosave closure. */
    var timer: Timer

    function Info(): Meta
      reads this
    {
      Meta(classes, id, answerIdx, hasAnswerBlock)
    }

    function View(): Ui
      reads this, alts
    {
      Ui(alts[..], text, answerShown, enabled)
    }

    function Wires(): Wiring
      reads this
    {
      Wiring(processed, handlersAttached, listeners, autosaving)
    }

    /** A form as the page holds it before the DOMContentLoaded handler reaches it. */
    constructor (m: Meta, u: Ui, w: Wiring)
      ensures Info() == m && View() == u && Wires() == w && timer == Timer(None, 0)
      ensures fresh(alts)
    {
      classes := m.classes;
      answerIdx := m.answerIdx;
      hasAnswerBlock := m.hasAnswerBlock;
      id := m.id;
      alts := new Alt[|u.alts|](j requires 0 <= j < |u.alts| => u.alts[j]);
      text := u.text;
      answerShown := u.answerShown;
      enabled := u.enabled;
      processed := w.processed;
      handlersAttached := w.handlersAttached;
      listeners := w.listeners;
      autosaving := w.autosaving;
      timer := Timer(None, 0);
      new;
      assert alts[..] == u.alts;
    }

    /** One of the forEach loops over the alternatives. */
    method ResetEach(op: Reset)
      modifies alts
      ensures alts[..] == ResetAll(old(alts[..]), op)
    {
      var j := 0;
      while j < alts.Length
        invariant 0 <= j <= alts.Length
        invariant forall k :: 0 <= k < j ==> alts[k] == ResetAlt(old(alts[k]), op)
        invariant forall k :: j <= k < alts.Length ==> alts[k] == old(alts[k])
      {
        alts[j] := ResetAlt(alts[j], op);
        j := j + 1;
      }
    }

    /** `disableForm()` (quiz.js:449-464). */
    method DisableForm()
      modifies this, alts
      ensures View() == Disabled(old(View()))
      ensures Info() == old(Info()) && Wires() == old(Wires()) && timer == old(timer)
    {
      enabled := false;
      ResetEach(Disable);
    }

    /** `enableForm()` (quiz.js:467-480). */
    method EnableForm()
      modifies this, alts
      ensures View() == Enabled(old(View()))
      ensures Info() == old(Info()) && Wires() == old(Wires()) && timer == old(timer)
    {
      enabled := true;
      ResetEach(Enable);
    }

    /** The attachment guard (quiz.js:107-110, 145 and 604-638). */
    method AttachHandlers()
      modifies this
      ensures Wires() == Attached(old(Wires()))
      ensures Info() == old(Info()) && text == old(text) && answerShown == old(answerShown)
      ensures enabled == old(enabled) && timer == old(timer)
    {
      if !handlersAttached {
        listeners := listeners + 1;
        handlersAttached := true;
      }
    }

    /** A click on alternative `i`; it does something only through an attached listener. */
    method Click(i: int)
      modifies alts
      ensures View() == AfterClick(old(View()), listeners > 0, i)
    {
      if listeners > 0 && 0 <= i < alts.Length && !alts[i].disabled && enabled {
        ResetEach(Deselect);
        alts[i] := alts[i].(selected := true, hidden := NatToString(i));
      }
    }

    /** The `for (let input of hiddenInputs)` loop of the submit handler. */
    method FirstChosenIndex() returns (k: int)
      ensures k == FirstChosen(alts[..])
    {
      k := 0;
      while k < alts.Length && alts[k].hidden == ""
        invariant 0 <= k <= alts.Length
        invariant forall j :: 0 <= j < k ==> alts[j].hidden == ""
      {
        k := k + 1;
      }
      if k == alts.Length {
        k := -1;
      }
    }

    /** The grading part of a choice submit (quiz.js:702-717): clear the marks, then mark
        the chosen alternative `k` and, for a wrong answer, the one `corr` names. As
        written, `alternatives[corr]` for a `corr` out of range throws. */
    method Grade(k: int, right: bool, corr: Option<int>, checked: bool) returns (crashed: bool)
      requires 0 <= k < alts.Length
      modifies alts
      ensures var g := Graded(old(alts[..]), k, right, corr, checked);
              && crashed == g.None?
              && alts[..] == if g.None? then Graded(old(alts[..]), k, right, corr, true).value else g.value
    {
      ghost var before := alts[..];
      ResetEach(ClearMarks);
      crashed := false;
      if right {
        alts[k] := alts[k].(correct := true);
      } else {
        alts[k] := alts[k].(incorrect := true);
        if corr.Some? && 0 <= corr.value < alts.Length {
          alts[corr.value] := alts[corr.value].(correct := true);
        } else if !checked {
          crashed := true;
        }
      }
      GradedIs(before, k, right, corr, if crashed then true else checked, alts[..]);
    }

    /** The common tail of a submit: show the answer, disable the form, store the record
        (quiz.js:740-758). */
    method FinishSubmit(store: Store, selected: Selected, answer: AnswerText, now: int) returns (outcome: SubmitOutcome)
      modifies this, alts, store
      ensures Submission(outcome, View(), store.State()) == Finish(old(Info()), old(View()), old(store.State()), selected, answer, now)
      ensures Info() == old(Info()) && Wires() == old(Wires()) && timer == old(timer)
    {
      if hasAnswerBlock {
        answerShown := true;
      }
      DisableForm();
      var ok := store.SetItem(id, Stringify(SubmitRecord(selected, answer, now)));
      outcome := Saved(ok);
    }

    /** The submit handler (quiz.js:673-760); `checked` adds the range test before
        `alternatives[correctAnswerIndex]` is marked. */
    method Submit(store: Store, now: int, checked: bool) returns (outcome: SubmitOutcome)
      requires processed
      modifies this, alts, store
      ensures Submission(outcome, View(), store.State()) == SubmitAs(old(Info()), old(View()), old(store.State()), now, checked)
      ensures Info() == old(Info()) && Wires() == old(Wires()) && timer == old(timer)
    {
      if IsChoice(classes) {
        var k := FirstChosenIndex();
        if k < 0 {
          return NoSelection;
        }
        var sel := ParseInt(alts[k].hidden);
        if sel == Some(-1) {
          return NoSelection;
        }
        ChoiceSubmitShape(Info(), View(), store.State(), now, checked, k, sel, CorrectIndex(Info()));
        outcome := SubmitGraded(store, now, checked, k, sel);
      } else if IsText(classes) {
        outcome := FinishSubmit(store, NullSelected, SubmittedText(View()), now);
      } else {
        outcome := FinishSubmit(store, NullSelected, NullText, now);
      }
    }

    /** Grade alternative `k`, whose hidden value parsed to `sel`, and store the record
        unless grading stopped half way. */
    method SubmitGraded(store: Store, now: int, checked: bool, k: int, sel: Option<int>) returns (outcome: SubmitOutcome)
      requires 0 <= k < alts.Length
      modifies this, alts, store
      ensures var corr := CorrectIndex(old(Info()));
              var right := sel.Some? && corr == sel;
              var g := Graded(old(alts[..]), k, right, corr, checked);
              Submission(outcome, View(), store.State()) ==
                if g.None? then Submission(Crashed, old(View()).(alts := Graded(old(alts[..]), k, right, corr, true).value), old(store.State()))
                else Finish(old(Info()), old(View()).(alts := g.value), old(store.State()), SelectedOf(sel), NullText, now)
      ensures Info() == old(Info()) && Wires() == old(Wires()) && timer == old(timer)
    {
      var corr := CorrectIndex(Info());
      var crashed := Grade(k, sel.Some? && corr == sel, corr, checked);
      if crashed {
        return Crashed;
      }
      outcome := FinishSubmit(store, SelectedOf(sel), NullText, now);
    }

    /** `storage.getItem(exerciseId)` and `JSON.parse`, removing a record that does not
        parse (quiz.js:486-500). */
    method LoadSaved(store: Store) returns (saved: Option<StateRecord>)
      modifies store
      ensures (store.State(), saved) == LoadRecord(old(store.State()), id)
    {
      var raw := store.GetItem(id);
      saved := None;
      if raw.Some? && Truthy(raw.value) {
        saved := Parse(raw.value);
        if saved.None? {
          store.RemoveItem(id);
        }
      }
    }

    /** `inputField.value = savedState.answerText` when both are there. */
    method PrefillText(t: AnswerText)
      modifies this
      ensures View() == Prefill(old(View()), t)
      ensures Info() == old(Info()) && Wires() == old(Wires()) && timer == old(timer)
    {
      if text.Some? && t != NoText {
        text := Some(AssignedText(t));
      }
    }

    /** The marks a restored choice submit puts back on the stored selection `v`, with
        `corr` the answer index (quiz.js:522-547). */
    method MarkRestored(v: nat, corr: Option<int>)
      requires v < alts.Length
      modifies alts
      ensures alts[..] == RestoredMarks(old(alts[..]), v, corr)
    {
      ghost var before := alts[..];
      if corr == Some(v) {
        alts[v] := alts[v].(correct := true);
      } else {
        alts[v] := alts[v].(incorrect := true);
        if corr.Some? && 0 <= corr.value < alts.Length {
          alts[corr.value] := alts[corr.value].(correct := true);
        }
      }
      alts[v] := alts[v].(selected := true, hidden := NatToString(v));
      assert alts[..] == RestoredMarks(before, v, corr);
    }

    /** Enable the form and hide the answer again. */
    method Reenable()
      modifies this, alts
      ensures View() == Hidden(old(Info()), Enabled(old(View())))
      ensures Info() == old(Info()) && Wires() == old(Wires()) && timer == old(timer)
    {
      EnableForm();
      if hasAnswerBlock {
        answerShown := false;
      }
    }

    /** Restore of a submitted record, once the form is disabled and the answer shown
        (quiz.js:513-568). */
    method RestoreSubmittedRecord(store: Store, rec: StateRecord)
      modifies this, alts, store
      ensures Restored(View(), store.State()) == RestoreSubmitted(old(Info()), old(View()), old(store.State()), rec)
      ensures Info() == old(Info()) && Wires() == old(Wires()) && timer == old(timer)
    {
      if IsChoice(classes) {
        var sel := rec.selectedAnswer;
        if sel.SelectedIndex? && 0 <= sel.index < alts.Length {
          MarkRestored(sel.index, CorrectIndex(Info()));
        } else {
          store.RemoveItem(id);
          Reenable();
        }
      } else if IsText(classes) {
        PrefillText(rec.answerText);
      }
    }

    /** The restore step of the per-form setup (quiz.js:482-597). */
    method Restore(store: Store)
      modifies this, alts, store
      ensures Restored(View(), store.State()) == AfterRestore(old(Info()), old(View()), old(store.State()))
      ensures Info() == old(Info()) && Wires() == old(Wires()) && timer == old(timer)
    {
      DisableForm();
      var saved := LoadSaved(store);
      if saved.None? {
        Reenable();
      } else if saved.value.submitted {
        Reveal();
        RestoreSubmittedRecord(store, saved.value);
      } else {
        Resume(saved.value);
      }
    }

    /** Disable the form and show the answer: the record was submitted. */
    method Reveal()
      modifies this, alts
      ensures View() == Shown(old(Info()), Disabled(old(View())))
      ensures Info() == old(Info()) && Wires() == old(Wires()) && timer == old(timer)
    {
      DisableForm();
      if hasAnswerBlock {
        answerShown := true;
      }
    }

    /** Put an unsubmitted text answer back and leave the form open. */
    method Resume(rec: StateRecord)
      modifies this, alts
      ensures var u1 := if IsText(classes) then Prefill(old(View()), rec.answerText) else old(View());
              View() == Enabled(Hidden(old(Info()), u1))
      ensures Info() == old(Info()) && Wires() == old(Wires()) && timer == old(timer)
    {
      if IsText(classes) {
        PrefillText(rec.answerText);
      }
      if hasAnswerBlock {
        answerShown := false;
      }
      EnableForm();
    }

    /** The body of the forEach over `form.quiz-form` for this form (quiz.js:393-671).
        Whether the form has a text input does not change while it is restored, so it is
        read before. */
    method Setup(store: Store, fallbackId: string)
      modifies this, alts, store
      ensures SetUp(Info(), View(), Wires(), store.State()) ==
              AfterSetup(old(Info()), old(View()), old(Wires()), old(store.State()), fallbackId)
      ensures timer == old(timer)
    {
      if processed {
        return;
      }
      Claim(fallbackId);
      var hasInput := text.Some?;
      Restore(store);
      Wire(hasInput);
    }

    /** Mark the form processed and give the container the fallback id when it has none. */
    method Claim(fallbackId: string)
      modifies this
      ensures Info() == if old(id) == "" then old(Info()).(id := fallbackId) else old(Info())
      ensures View() == old(View()) && Wires() == old(Wires()).(processed := true) && timer == old(timer)
    {
      processed := true;
      if id == "" {
        id := fallbackId;
      }
    }

    /** Attach the click handlers of a choice exercise and the autosave listener of a
        text exercise with an input. */
    method Wire(hasInput: bool)
      modifies this
      ensures var w := if IsChoice(classes) then Attached(old(Wires())) else old(Wires());
              Wires() == if IsText(classes) && hasInput then w.(autosaving := true) else w
      ensures Info() == old(Info()) && View() == old(View()) && timer == old(timer)
    {
      if IsChoice(classes) {
        AttachHandlers();
      }
      if IsText(classes) && hasInput {
        autosaving := true;
      }
    }

    /** Enable the form, clear the feedback marks and hidden values, and restore or
        clear the text (quiz.js:781-803). */
    method Reopen(last: Option<StateRecord>)
      modifies this, alts
      ensures View() == Reopened(old(View()), last)
      ensures Info() == old(Info()) && Wires() == old(Wires()) && timer == old(timer)
    {
      EnableForm();
      ResetEach(ClearFeedback);
      if text.Some? {
        if last.Some? && last.value.answerText != NoText {
          text := Some(AssignedText(last.value.answerText));
        } else {
          text := Some("");
        }
      }
    }

    /** The tail of the edit handler: hide the answer and rewrite the record that was read
        with `submitted` false (quiz.js:826-837). */
    method FinishEdit(store: Store, last: Option<StateRecord>)
      modifies this, store
      ensures Edited(false, View(), store.State()) == EditFinish(old(Info()), old(View()), old(store.State()), last)
      ensures Info() == old(Info()) && Wires() == old(Wires()) && timer == old(timer)
    {
      if hasAnswerBlock {
        answerShown := false;
      }
      if last.Some? {
        var _ := store.SetItem(id, Stringify(last.value.(submitted := false)));
      }
    }

    /** The edit handler's handling of a stored `selectedAnswer` once every `selected`
        is removed (quiz.js:807-837). */
    method Reselect(store: Store, last: StateRecord) returns (crashed: bool)
      requires last.selectedAnswer != NoSelected
      modifies this, alts, store
      ensures Edited(crashed, View(), store.State()) == Reselected(old(Info()), old(View()), old(store.State()), last)
      ensures Info() == old(Info()) && Wires() == old(Wires()) && timer == old(timer)
    {
      var sel := last.selectedAnswer;
      if sel.NullSelected? && alts.Length > 0 {
        return true;
      }
      if sel.SelectedIndex? && 0 <= sel.index < alts.Length {
        alts[sel.index] := alts[sel.index].(selected := true, hidden := NatToString(sel.index));
      }
      FinishEdit(store, Some(last));
      crashed := false;
    }

    /** The edit button's handler (quiz.js:763-838). */
    method Edit(store: Store) returns (crashed: bool)
      requires processed
      modifies this, alts, store
      ensures Edited(crashed, View(), store.State()) == AfterEdit(old(Info()), old(View()), old(store.State()))
      ensures Info() == old(Info()) && Wires() == old(Wires()) && timer == old(timer)
    {
      var raw := store.GetItem(id);
      var last := LastState(raw);
      Reopen(last);
      if last.Some? && last.value.selectedAnswer != NoSelected {
        ResetEach(Unselect);
        crashed := Reselect(store, last.value);
      } else {
        FinishEdit(store, last);
        crashed := false;
      }
    }

    /** An input event on the text input: the value changes, and the autosave listener,
        when attached, replaces the pending timer (quiz.js:654-669). */
    method Input(value: string)
      requires text.Some?
      modifies this
      ensures text == Some(value)
      ensures timer == if autosaving then Schedule(old(timer)) else old(timer)
      ensures Info() == old(Info()) && Wires() == old(Wires())
      ensures answerShown == old(answerShown) && enabled == old(enabled)
    {
      text := Some(value);
      if autosaving {
        timer := Schedule(timer);
      }
    }

    /** Timer `fired` going off (quiz.js:659-668). */
    method Fire(store: Store, fired: nat) returns (outcome: AutosaveOutcome)
      requires text.Some?
      modifies this, store
      ensures Info() == old(Info()) && Wires() == old(Wires()) && text == old(text)
      ensures Fired(outcome, timer, store.State()) == AfterFire(Info(), old(timer), fired, text.value, old(store.State()))
      ensures answerShown == old(answerShown) && enabled == old(enabled)
    {
      if timer.pending != Some(fired) {
        return Stale;
      }
      timer := timer.(pending := None);
      var current := store.GetItem(id);
      var state := if current.Some? && Truthy(current.value) then Parse(current.value) else Some(EmptyRecord);
      if state.None? {
        return Unparsable;
      }
      var ok := store.SetItem(id, Stringify(state.value.(answerText := TextValue(text.value))));
      outcome := Autosaved(ok);
    }
  }

  /** The marks that the submit loop leaves are those of Graded. */
  lemma GradedIs(before: seq<Alt>, k: int, right: bool, corr: Option<int>, checked: bool, after: seq<Alt>)
    requires 0 <= k < |before|
    requires Graded(before, k, right, corr, checked).Some?
    requires |after| == |before|
    requires forall j :: 0 <= j < |before| ==>
      after[j] == before[j].(selected := false,
                             correct := if right then j == k else Some(j) == corr,
                             incorrect := !right && j == k)
    ensures Graded(before, k, right, corr, checked).value == after
  {
  }
}
