# mkdocs-quiz, modelled in Dafny

mkdocs-quiz turns MkDocs admonitions of class `exercise` into interactive quizzes.
It has three kinds of exercise: multiple choice (`choice`), free text (`short`, `long` or
`text`) and self-progress (a plain `exercise`). It works in two halves:

* **At build time**, a Python-Markdown tree processor (`src/extension.py`) walks a
  snapshot of the document tree three times: once for choice exercises, then for text,
  then for self-progress.
  * Each visit gives the element an id, adds a marker class and builds a
    `form.quiz-form`.
  * The visit moves the description into the form and the answer block to the end.
  * For a choice exercise, it records in `data-answer-idx` the index of the last
    alternative marked as the answer.
* **In the browser**, `src/static/quiz.js` rebuilds missing forms, numbers the
  exercises and probes `localStorage`. It removes stored records it considers invalid.
  Then, for each form, it restores the saved state and attaches the click, autosave,
  submit and edit handlers.
  * Every record is stored under the exercise's id as a JSON object
    `{submitted, selectedAnswer, answerText, timestamp}`.
  * The storage adapter falls back to an in-memory map for good once a `localStorage`
    call throws.

## How the model is laid out

The model follows the two source files and keeps each one's form.

| module | models |
|---|---|
| `Strings` | the string operations both files rely on: JavaScript `trim` and `parseInt`, Python `strip`, `split`, `int` and `str.replace`, and decimal rendering |
| `Classes` | `has_class`, `__match_class`, the three `match` overrides, the `add_extra_classes` overrides and the text widget choice |
| `ChoiceItems` | the server-side reading of a choice list: the three answer tests, `__is_answer`, the display text and the loop that picks `answer_idx` |
| `ExerciseTree` | one `visit`, on an element given as a datatype of direct children: id assignment, the description move, the form, the answer block |
| `Treeprocessor` | `QuizTreeprocessor.run` as a class over an `array` of elements; each exercise object is a class with a `Counter` object |
| `Records` | stored values as an abstraction of their JSON text: the text of a record object, or text `JSON.parse` rejects |
| `Storage` | the adaptive storage object as a class whose fields are the memory map, the durable map, the `available` flag and a fault plan |
| `ChoiceMarkup` | the client-side parser of list items |
| `Controller` | every per-form handler as a function on the visible state of one form, with the properties proved about those functions |
| `ExerciseForm` | the same handlers as methods of an `Exercise` class whose alternatives are an `array`; each method is proved to end in the state the matching `Controller` function gives |
| `Page` | the page-level passes over an `array` of exercise containers, the cleanup loop over the durable keys, and the DOMContentLoaded sequence |

Several things that are not code become parameters of the model:

* **Storage faults.** Whether a durable `localStorage` call throws is a parameter: a
  sequence of booleans that the store consumes one per call.
* **The clock.** `Date.now()` is the parameter `now`.
* **Failing visits.** A visit that raises inside `create_exercise_form` is named by a
  set `faults` of (kind, position) pairs.
* **The timer.** `setTimeout` ids are a counter in a `Timer` value; whether the
  500 ms delay has passed is modelled by which timer fires.

## Where the code departs from the documented design

The model follows the code:

* Storage keys are the bare exercise ids; no page-path prefix is added.
* The JavaScript choice pass always overwrites a choice container's id with
  `exercise_choice_N`, numbered by position, whatever id the Python side gave it.
* Nothing triggers a second set-up of a page after DOMContentLoaded. The processed
  guard is modelled, and `SetupOnce` proves it makes a second set-up a no-op.
* The design takes the marked item of a choice list as its answer. When several items
  are marked, the code keeps the last one: `correctAnswerIndex = i` at
  src/static/quiz.js:36-39 and `self.answer_idx = i` at src/extension.py:211 are
  overwritten on each marked item. `ChoiceMarkup.LastCorrectMeaning` and
  `ChoiceItems.LastAnswerMeaning` state this.

## Model

| member | source | states |
|---|---|---|
| Strings.JsTrimMeaning | src/static/quiz.js:29 | the trimmed text is a window of the original, everything outside the window is JavaScript white space, and the result neither starts nor ends with white space |
| Strings.PyStripMeaning | src/extension.py:196 | the stripped text is a window of the original, everything outside the window is Python white space, and the result neither starts nor ends with white space |
| Strings.SplitTokens | src/extension.py:93 | every word `str.split()` returns is a non-empty run without white space |
| Strings.FindChar | src/extension.py:157 | the index of the first occurrence of the character, or -1 exactly when it does not occur |
| Strings.ReplaceMeaning | src/extension.py:40 | `str.replace` leaves a string without the pattern unchanged; otherwise the text before the first occurrence is kept, that occurrence becomes the replacement, and the scan resumes after it |
| Strings.ReplaceTokenWords | src/extension.py:40 | replacing a token by "", when no other word of the attribute contains it, yields the attribute's words with every copy of that token removed |
| Strings.ParseIntOfNatToString | src/static/quiz.js:692 | `parseInt` reads back the decimal rendering of a position stored in a hidden input |
| Strings.ParseIntOfIntToString | src/static/quiz.js:709 | `parseInt` reads back the decimal rendering of any integer, negative ones included |
| Strings.PyIntOfNatToString | src/extension.py:157 | Python `int` reads back the decimal rendering of a stash index |
| Strings.NatToStringInjective | src/extension.py:32 | different counter values render to different digit strings |
| Classes.HasOneClass | src/extension.py:89-94 | `has_class` with one wanted class is token membership in the split attribute |
| Classes.HasClassConcat | src/extension.py:89-94 | `has_class` with a concatenated list holds iff it holds for one of the parts |
| Classes.MatchClassAgrees | src/extension.py:96-105 | whenever an override matches, `__match_class` names `exercise`; for choice and text the two tests agree, and for self-progress `__match_class` only tests the substring |
| Classes.KindsCover | src/extension.py:145-152 | self-progress never overlaps choice or text; an attribute containing `exercise` is matched by some kind, and without it by none |
| Classes.ChoiceAndTextOverlap | src/extension.py:275-282 | an exercise marked both `choice` and `text` is matched by both kinds |
| Classes.BaseIsSubstring | src/extension.py:342-349 | an attribute with the token `exercise` is matched by some kind |
| Classes.LooseBaseMatch | src/extension.py:345 | a single token such as `exercises` is taken for a self-progress exercise though `exercise` is not one of its tokens |
| Classes.OneTokenHasClass | src/extension.py:93-94 | for a one-token attribute `has_class` is membership of that token in the wanted list |
| Classes.AppendedTokens | src/extension.py:266 | appending a class with an f-string and `strip` gives the old tokens followed by the new one |
| Classes.AddedClassesAreTokens | src/extension.py:262-266 | each marker class the overrides add is a single token |
| Classes.MarkerClassAdded | src/extension.py:262-266 | the choice and self-progress overrides add their marker class as a new last token unless the attribute already contains it |
| Classes.MarkerClassIdempotent | src/extension.py:362-366 | adding the choice or self-progress marker class twice is the same as once |
| Classes.TextClassAdded | src/extension.py:324-333 | branches in the source's order: with `short` among the tokens and `exercise-short` not a substring it appends `exercise-short`; failing that the same for `long`, then for `text`; the attribute is unchanged exactly when none of the three guards holds |
| Classes.TextClassKeepsTokens | src/extension.py:324-333 | the text override keeps every existing token, in order |
| Classes.TextClassIdempotentForOneType | src/extension.py:328-333 | with at most one type token, applying the text override twice is the same as once |
| Classes.TextClassNotIdempotent | src/extension.py:328-333 | with both `short` and `text` among the tokens (and no `long`), the first call appends `exercise-short` and a second call appends `exercise-text` |
| Classes.TextShortWordsNotIdempotent | src/extension.py:328-333 | any attribute whose tokens are `exercise`, `text` and `short` is changed by a second call of the text override |
| Classes.TextShortNotIdempotent | src/extension.py:328-333 | the attribute `exercise text short` is changed by a second call of the text override |
| Classes.TypeTokenKept | src/extension.py:328-333 | appending a marker class neither adds nor removes a type token |
| Classes.TextWidgetChoice | src/extension.py:288-313 | a one-line input exactly for `short`; otherwise a 4-row text area, with the detailed placeholder exactly for `long` without `short` |
| ChoiceItems.ListIndex | src/extension.py:158 | Python list indexing succeeds exactly for indexes in `-len..len-1` and gives the element at a non-negative one |
| ChoiceItems.IndexIsAnswerMeaning | src/extension.py:154-161 | `__is_answer` for a stash index is true iff the index is in range and that raw block contains `checked` |
| ChoiceItems.PlaceholderKey | src/extension.py:157-159 | a stash placeholder key is an answer iff its block exists and contains `checked` |
| ChoiceItems.KeyIndexOf | src/extension.py:157 | `__is_answer` parses the text after the first `:` as the index |
| ChoiceItems.CheckedTestSubsumed | src/extension.py:159 | the `checked="checked"` test adds nothing to the `checked` test |
| ChoiceItems.AfterEtxMeaning | src/extension.py:226-228 | the display text drops everything up to and including the first ETX, and nothing when there is none |
| ChoiceItems.MarkedAnswer | src/extension.py:194-198 | an item whose text starts with `[x]` or `[X]` is an answer |
| ChoiceItems.MarkedDisplay | src/extension.py:218-223 | a marked item displays its stripped text after the marker |
| ChoiceItems.UnmarkedNotAnswer | src/extension.py:185-209 | an item `[ ] …` without a checked checkbox or stash reference is not an answer |
| ChoiceItems.NoTestHolds | src/extension.py:185-209 | when none of the three answer tests applies the item is not an answer |
| ChoiceItems.MarkerKept | src/extension.py:194-223 | a marker survives `strip` at the head of the text, and the display text is what follows it, stripped |
| ChoiceItems.PlaceholderItem | src/extension.py:200-228 | an item that is a stash placeholder is an answer iff its checkbox is checked or its raw block contains `checked`, and it displays the text after the placeholder |
| ChoiceItems.SplitAtEtx | src/extension.py:202-228 | the stash key is the text before the first ETX, and the display text is what follows it |
| ChoiceItems.LastAnswerMeaning | src/extension.py:185-212 | `answer_idx` is -1 iff no item is an answer, and otherwise the last answer's index |
| ChoiceItems.Alternatives | src/extension.py:236-245 | one alternative per item, carrying its position and display text |
| ChoiceItems.ChoiceLoop | src/extension.py:181-248 | the loop builds exactly the alternatives above and ends with `answer_idx` at the last answer |
| ChoiceItems.AnswerIdxReadBack | src/extension.py:253 | `str(answer_idx)` read back with `parseInt` in the browser is `answer_idx`, -1 included |
| ChoiceMarkup.ParseItemMeaning | src/static/quiz.js:29-46 | an item is correct iff its trimmed text starts with `[x]`/`[X]`; marked items keep the trimmed text after the marker, others their trimmed text |
| ChoiceMarkup.MarkersExclusive | src/static/quiz.js:34-41 | no item is marked both `[ ]` and `[x]` |
| ChoiceMarkup.ParseAllAt | src/static/quiz.js:28-47 | the alternatives are the items parsed one by one, in order |
| ChoiceMarkup.LastCorrectMeaning | src/static/quiz.js:26-41 | the answer index is -1 iff no item is correct, and otherwise the index of the last correct item |
| ChoiceMarkup.ParseChoices | src/static/quiz.js:24-47 | the loop produces exactly those alternatives and that answer index |
| ExerciseTree.Find | src/extension.py:48-49 | `find` gives the first child on the path, or nothing when no child is on it |
| ExerciseTree.FirstIdToken | src/extension.py:36-41 | the first class token starting with `id_`, or nothing when there is none |
| ExerciseTree.AssignedIdMeaning | src/extension.py:29-44 | without an `id_` token the id is `exercise_<counter>`; otherwise it is the first such token less its prefix, and, when no other token contains that token's text, the new attribute's tokens are the old ones with every copy of it removed |
| ExerciseTree.IdTokenCut | src/extension.py:40 | cutting a token that no other token contains and stripping leaves exactly the other tokens, in order |
| ExerciseTree.CounterIdsDiffer | src/extension.py:31-32 | two counter values give two different ids |
| ExerciseTree.AddDescription | src/extension.py:46-66 | the loop splits the children into those that stay and those moved into the form, in order |
| ExerciseTree.DescriptionKeepsAll | src/extension.py:56-65 | no child is lost or duplicated by the move |
| ExerciseTree.DescriptionWhoStays | src/extension.py:56-61 | exactly the title and the answer block stay; every other child moves into the form |
| ExerciseTree.ChoicesOfOneList | src/extension.py:166-175 | with one list among the moved children, the choices are its items and that list is removed |
| ExerciseTree.ListItemsInclude | src/extension.py:167 | `findall` over `ul/li` includes every item of a matching list |
| ExerciseTree.VisitedId | src/extension.py:111-123 | every visited element has an id; a matched one without `id_` gets `exercise_<n>` and its kind's marker class |
| ExerciseTree.VisitedHasForm | src/extension.py:118 | a visited element always has a `form.quiz-form` |
| ExerciseTree.AnswerLastKeepsForm | src/extension.py:77-81 | moving the answer block to the end keeps the form |
| ExerciseTree.ChoiceVisitAnswerIdx | src/extension.py:177-253 | with no choices `data-answer-idx` is left alone; otherwise it is set to the last answer's index and reads back as that index |
| Treeprocessor.Admonition.Visit | src/extension.py:111-123 | a visit increments the object's counter, gives the element the id of that count, and records it |
| Treeprocessor.PassUpToCounts | src/extension.py:412-427 | after the first i elements the counter has grown by the number of matches, and the processed count falls short of it by the visits that raised |
| Treeprocessor.PassMeaning | src/extension.py:412-427 | one pass visits exactly the matching elements of the snapshot, numbering them by how many matched before, and leaves the others unchanged |
| Treeprocessor.NumbersInPass | src/extension.py:31 | within one pass two visited elements get different numbers |
| Treeprocessor.NumberRange | src/extension.py:31 | the numbers of one pass lie between the counter's start and its end |
| Treeprocessor.RunPasses | src/extension.py:402-427 | the three passes run in order, each over the result of the previous one, with counters as the rule says |
| Treeprocessor.RunVisitsExercises | src/extension.py:405-418 | an element is visited by some pass iff its class attribute contains `exercise` |
| Treeprocessor.VisitKeepsNoIdToken | src/extension.py:111-115 | a visit of an element without `id_` tokens adds none |
| Treeprocessor.RunIds | src/extension.py:402-427 | after the run, an element without `id_` tokens carries the id of its last visit, or is unchanged when no pass matched it |
| Treeprocessor.LastVisitPass | src/extension.py:412-419 | with a shared counter each pass numbers its elements above the numbers of the passes before it |
| Treeprocessor.SharedNumbersDistinct | src/extension.py:31 | with a shared counter no two visited elements get the same last number |
| Treeprocessor.SharedIdsDistinct | src/extension.py:31-32 | with a shared counter two exercises without `id_` tokens get different ids |
| Treeprocessor.TextVisitNotSelfProgress | src/extension.py:342-349 | an element the text pass visited is not matched again by the self-progress pass |
| Treeprocessor.TypeTokensKept | src/extension.py:324-349 | the text marker class keeps the type token that excludes the element from self-progress |
| Treeprocessor.TextThenSelfProgress | src/extension.py:402-427 | a text exercise followed by a self-progress one gets visit number 1, and the second gets 2 with a shared counter and 1 with per-object counters |
| Treeprocessor.PerKindIdsCollide | src/extension.py:26-32 | as written, that pair both get the id `exercise_1` |
| Treeprocessor.SharedIdsOnCollision | src/extension.py:26-32 | with a shared counter, that pair get `exercise_1` and `exercise_2` |
| Treeprocessor.QuizTreeprocessor.RunPass | src/extension.py:412-427 | one exercise's loop ends in the pass function's document, counter and processed count |
| Treeprocessor.QuizTreeprocessor.Run | src/extension.py:402-432 | the document and `processed_count` are those of the three passes in order |
| Records.Stringify | src/static/quiz.js:751-758 | the JSON text of a record is a truthy string |
| Records.Parse | src/static/quiz.js:492 | `JSON.parse` succeeds exactly on record text and gives back the record that was stringified |
| Storage.Probe | src/static/quiz.js:236-249 | `init` marks the store available iff neither probing call throws; the probe key is gone after a success and the memory map is untouched |
| Storage.Set | src/static/quiz.js:251-265 | `setItem` returns true iff the store is available and the write does not throw; then it writes the durable map, otherwise the memory map, and a throwing write switches the fallback on |
| Storage.MemoryLookup | src/static/quiz.js:276-281 | the memory map answers with a value only when that value is truthy |
| Storage.Get | src/static/quiz.js:267-282 | `getItem` answers from the durable map when it is available and the call does not throw, and from memory otherwise; nothing is written |
| Storage.Remove | src/static/quiz.js:284-295 | `removeItem` always deletes the memory copy and deletes the durable copy exactly when that call succeeds |
| Storage.SetThenGet | src/static/quiz.js:251-282 | a value just set is read back, except after a durable write whose read throws, which answers from the old memory map |
| Storage.FallbackIsPermanent | src/static/quiz.js:240-247 | once unavailable the store stays unavailable and never touches the durable map or consumes a fault |
| Storage.AlwaysThrowingStore | src/static/quiz.js:236-295 | when localStorage throws, `init` fails and the store works from memory, set, get and remove included |
| Storage.ReliableStaysReliable | src/static/quiz.js:236-295 | a store whose durable calls never throw stays that way through every operation |
| Storage.Store.constructor | src/static/quiz.js:232-234 | a new store is unavailable with an empty memory map over the existing localStorage contents |
| Storage.Store.Init | src/static/quiz.js:236-249 | the method ends in the state and result of `Probe` |
| Storage.Store.SetItem | src/static/quiz.js:251-265 | the method ends in the state and result of `Set` |
| Storage.Store.GetItem | src/static/quiz.js:267-282 | the method ends in the state and result of `Get` |
| Storage.Store.RemoveItem | src/static/quiz.js:284-295 | the method ends in the state of `Remove` |
| Controller.AfterClick | src/static/quiz.js:113-141 | a click through an attached listener on an enabled, not disabled alternative selects it alone and stores its position; any other click changes nothing |
| Controller.FirstChosen | src/static/quiz.js:689-695 | the first alternative with a non-empty hidden value, or -1 when all are empty |
| Controller.Graded | src/static/quiz.js:702-717 | grading fails iff the answer is wrong, unchecked, and the answer index names no alternative; otherwise it clears the marks and marks the chosen and correct alternatives |
| Controller.AfterSubmitChecked | src/static/quiz.js:673-760 | the corrected submit never stops half way, and equals the submit as written whenever that one completes |
| Controller.SubmitWithoutSelection | src/static/quiz.js:697-700 | a choice submit with no hidden value filled in changes nothing |
| Controller.SubmitGradesChoice | src/static/quiz.js:681-758 | a choice submit marks the choice `correct`, or `incorrect` with `correct` on the answer; it stores the record and disables the form; as written it stops half way exactly when the answer is wrong and the index names no alternative |
| Controller.SubmitStoresText | src/static/quiz.js:719-758 | a text submit stores the trimmed input with `selectedAnswer: null`, a self-progress submit null for both; both show the answer and disable the form |
| Controller.SubmittedFormIgnoresClicks | src/static/quiz.js:114-119 | after a completed submit clicks change nothing |
| Controller.ClickThenSubmitReadsClick | src/static/quiz.js:689-693 | a click followed by a submit reads the clicked position back |
| Controller.LoadRecord | src/static/quiz.js:487-500 | a record is loaded from a JSON string; a non-empty string that does not parse is removed; nothing loads from an empty or missing value |
| Controller.RestoredMarks | src/static/quiz.js:527-541 | restore marks the stored selection `correct`, or `incorrect` with `correct` on an in-range answer, then `selected` with its hidden value; nothing else changes |
| Controller.RestoreUnsubmitted | src/static/quiz.js:569-597 | with no record or an unsubmitted one the form ends enabled with the answer hidden and a text answer put back |
| Controller.RestoreQuarantinesOutOfRange | src/static/quiz.js:545-555 | a submitted choice record whose selection names no alternative is removed and the form re-enabled |
| Controller.RestoreRemovesCorrupt | src/static/quiz.js:495-499 | a stored string that is not JSON is removed and the form starts blank |
| Controller.RestoreSubmittedChoice | src/static/quiz.js:502-547 | a submitted in-range choice record comes back graded, selected and disabled with the answer shown |
| Controller.ClickSubmitRestore | src/static/quiz.js:482-547 | round trip: click, corrected submit, reload gives back the same marks and selection in a disabled form, over a store that does not throw |
| Controller.ClickSubmitStores | src/static/quiz.js:689-758 | the corrected submit after a click stores the clicked position and grades it |
| Controller.StoredRecordReads | src/static/quiz.js:486-500 | over a store that does not throw, the record just written is the one loaded back |
| Controller.AttachedOnce | src/static/quiz.js:107-145 | the `data-handlers-attached` guard attaches listeners once, however often it runs |
| Controller.SetupOnce | src/static/quiz.js:393-424 | a form is set up once: it is marked processed, takes the fallback id only without an id, carries its listeners once, and a second set-up changes nothing |
| Controller.LastState | src/static/quiz.js:769-778 | edit parses a JSON string and ignores, without removing, one that does not parse |
| Controller.EditReopens | src/static/quiz.js:763-838 | edit enables the form and clears the feedback marks; unless it stops on a null selection, it hides the answer, re-selects an in-range stored selection, and rewrites the record with `submitted` false |
| Controller.ReselectedMeaning | src/static/quiz.js:806-837 | a null selection stops the handler when there is an alternative; an in-range index is re-selected alone |
| Controller.EditFinishMeaning | src/static/quiz.js:826-837 | the tail of edit only hides the answer and rewrites the record |
| Controller.EditRestoresText | src/static/quiz.js:796-837 | edit puts a stored text answer back and marks the record unsubmitted |
| Controller.SubmitThenEditText | src/static/quiz.js:719-838 | round trip: submit then edit gives back the trimmed answer in an open form, and the record keeps it unsubmitted |
| Controller.Schedule | src/static/quiz.js:654-659 | an input event cancels the pending timer and schedules a new one |
| Controller.OnlyLastInputSaves | src/static/quiz.js:654-669 | after several inputs only the last timer can write; the others fire to no effect |
| Controller.AutosaveKeepsOtherFields | src/static/quiz.js:659-668 | autosave changes only `answerText` of the stored record, or stores `{answerText}` when there was none |
| Controller.SubmitWithoutMarkedAnswerCrashes | src/static/quiz.js:709-716 | a choice list with no marked answer makes every submit stop at `alternatives[-1]` with nothing stored; the corrected submit stores it |
| ExerciseForm.Exercise.ResetEach | src/static/quiz.js:458-462 | the forEach over the alternatives applies one reset to each and to nothing else |
| ExerciseForm.Exercise.DisableForm | src/static/quiz.js:449-464 | the form ends in the `Disabled` view, every alternative disabled, the rest unchanged |
| ExerciseForm.Exercise.EnableForm | src/static/quiz.js:467-480 | the form ends in the `Enabled` view |
| ExerciseForm.Exercise.AttachHandlers | src/static/quiz.js:107-145 | the wiring ends as the `Attached` guard says |
| ExerciseForm.Exercise.Click | src/static/quiz.js:113-141 | a click ends in the state `AfterClick` gives |
| ExerciseForm.Exercise.FirstChosenIndex | src/static/quiz.js:685-695 | the loop over the hidden inputs returns `FirstChosen` |
| ExerciseForm.Exercise.Grade | src/static/quiz.js:702-717 | the grading loop leaves the marks of `Graded` and reports a crash exactly when `Graded` fails |
| ExerciseForm.Exercise.FinishSubmit | src/static/quiz.js:740-758 | the tail of submit ends in the state `Finish` gives |
| ExerciseForm.Exercise.Submit | src/static/quiz.js:673-760 | the submit handler ends in the state and outcome of `SubmitAs` |
| ExerciseForm.Exercise.LoadSaved | src/static/quiz.js:486-500 | loading ends in the state and record of `LoadRecord` |
| ExerciseForm.Exercise.MarkRestored | src/static/quiz.js:522-547 | the restored marks are those of `RestoredMarks` |
| ExerciseForm.Exercise.RestoreSubmittedRecord | src/static/quiz.js:513-568 | restoring a submitted record ends as `RestoreSubmitted` says |
| ExerciseForm.Exercise.Restore | src/static/quiz.js:482-597 | the restore step ends as `AfterRestore` says |
| ExerciseForm.Exercise.Setup | src/static/quiz.js:393-671 | the per-form set-up ends as `AfterSetup` says |
| ExerciseForm.Exercise.Reopen | src/static/quiz.js:781-803 | the first part of edit ends in the `Reopened` view |
| ExerciseForm.Exercise.Reselect | src/static/quiz.js:807-837 | the selection part of edit ends as `Reselected` says |
| ExerciseForm.Exercise.Edit | src/static/quiz.js:763-838 | the edit handler ends as `AfterEdit` says |
| ExerciseForm.Exercise.Input | src/static/quiz.js:654-669 | an input event sets the value and, with autosave attached, reschedules the timer |
| ExerciseForm.Exercise.Fire | src/static/quiz.js:659-668 | a timer going off ends as `AfterFire` says |
| Page.RankGrows | src/static/quiz.js:3 | a later match has a larger position in the query result |
| Page.BlankAlts | src/static/quiz.js:56-78 | the JavaScript builder makes one unmarked alternative with an empty hidden value per item |
| Page.RunPass | src/static/quiz.js:2-229 | the forEach over a query result updates matching containers in document order, numbered from 1, and leaves the others alone |
| Page.ChoiceIdsDistinct | src/static/quiz.js:5-6 | every choice container gets `exercise_choice_N` for its position, so no two share an id |
| Page.ProcessChoiceBuildsForm | src/static/quiz.js:24-97 | a list without a form becomes a form with one blank alternative per item, their display texts in order, and an answer index that reads back as the last marked item |
| Page.ShortWinsOverLong | src/static/quiz.js:152-228 | a container marked both `short` and `long` is handled by the short pass only |
| Page.NumberingCounts | src/static/quiz.js:310-337 | numbering counts every exercise, titled or not, and labels a titled one with its own number |
| Page.FindInvalidKeys | src/static/quiz.js:347-365 | the loop collects exactly the durable keys whose records are invalid |
| Page.RemoveKeys | src/static/quiz.js:368-371 | the removal loop deletes exactly the collected keys from the durable map |
| Page.CleanupInvalidStates | src/static/quiz.js:340-376 | cleanup ends in the `Cleaned` state: nothing happens when the store is unavailable, and otherwise exactly the invalid keys are removed |
| Page.CleanupKeepsValid | src/static/quiz.js:347-371 | a record survives cleanup, with its value, iff it is not invalid; memory and availability are untouched |
| Page.CleanupForgetsTextSubmit | src/static/quiz.js:355 | as written, the record of a completed text or self-progress submit is removed on the next load; the corrected rule keeps it |
| Page.ChoiceCleanupRemovesBroken | src/static/quiz.js:349-362 | the corrected rule still removes unparsable records and submitted choice records without a selection, and keeps a graded choice record |
| Page.FallbackIdByClasses | src/static/quiz.js:412-424 | the fallback id depends only on the class tokens of the containers |
| Page.SetupUpToMeaning | src/static/quiz.js:393-424 | setting up the first n containers leaves the rest alone; each exercise form among them is marked processed and keeps its own id, or takes the fallback |
| Page.SetupForms | src/static/quiz.js:393-839 | the forEach over the forms ends in the state of setting up every container in document order |
| Page.Load | src/static/quiz.js:378-839 | the DOMContentLoaded handler ends as the four passes, the probe, the cleanup and the per-form set-up give, in that order |

## Left out

- Markup and the DOM: HTML strings, `etree.tostring` of an item's children, `innerHTML`, the edit button element and styles are not modelled. Parsing and rendering are abstracted as datatypes.
- Logging (`logger`, `console.log`), `alert`, `debugBrowserInfo` and the final 1-second `setTimeout` that logs the storage state are left out: they change no modelled state.
- The 500 ms debounce delay is not modelled as time. A timer either fires or is replaced.
- JSON values are abstracted: a stored string is the text of a record object or text that `JSON.parse` rejects. A JSON root that is not an object (`null`, `5`) is left out.
- Raw strings in the durable store are opaque. Floating-point numbers in records, `parseInt` of hexadecimal or non-ASCII digits, and the `data-value`/`data-alt-index` alternatives of the click handler are left out. The hidden value is the alternative's position.
- Every alternative is taken to have its hidden input (the `if (hiddenInput)` tests).
- The order in which `localStorage.length`/`key(i)` lists keys is not modelled. The cleanup loop takes the keys in any order.
- The cleanup pass calls `localStorage` directly, and those calls are taken never to throw.
- ExerciseTree.Visited: exercises nested inside other elements, and lists nested inside lists, are left out. An element's children are its direct children; `.//ul/li` reads the items of the lists among them.
- ExerciseTree.Visited: renaming the answer title through the translation function `_` is left out. The `create_answer` hook always returns "" and is not modelled.
- Treeprocessor.Admonition.Visit: an exception is modelled only inside `create_exercise_form`, named by the `faults` set. The per-choice `try/except` is taken never to fire.
- ChoiceItems.ChoiceLoop: the `answer_idx` attribute the object keeps between calls is not modelled. The loop's result is written straight to `data-answer-idx`.
- `src/plugin.py` (page hooks and asset copying) is not part of this model.
- Classes.TextClassIdempotentForOneType: the text override is idempotent only with at most one type token. With both `short` and `text` (for example `exercise text short`), a second call appends `exercise-text` (`TextShortNotIdempotent`). The gap is latent in a run: the text pass visits each element once.
- ExerciseTree.AssignedIdMeaning: when another token contains the `id_` token's text (`id_a` and `xid_a`), `str.replace` also cuts that text out of the other token. The contract gives the resulting tokens only when no other token contains it; the id is stated in every case.
- Treeprocessor.QuizTreeprocessor.Run: the snapshot visits the elements present before each pass. Elements that a visit creates are not matched again.

## Findings

| source | as written | input that shows it | evidently intended | confidence | as-written member | corrected member |
|---|---|---|---|---|---|---|
| src/static/quiz.js:716 | a wrong answer marks `alternatives[correctAnswerIndex]` without a range check | a choice list with no marked item (`data-answer-idx="-1"`), answered with its first alternative | mark the correct alternative only when the index names one, as restore does at quiz.js:531, then store the submit | high (not executed) | Controller.SubmitWithoutMarkedAnswerCrashes | Controller.AfterSubmitChecked |
| src/static/quiz.js:355 | every submitted record with `selectedAnswer: null` under a key starting with `exercise_` is removed | a submitted text exercise `exercise_text_short_1`, whose record holds `selectedAnswer: null`, reloaded | remove only choice records without a selection, as the comment at quiz.js:354 says; text and self-progress submits always store null | high (not executed) | Page.CleanupForgetsTextSubmit | Page.ChoiceCleanupRemovesBroken |
| src/extension.py:26 | each exercise object keeps its own counter, so the ids `exercise_N` of different kinds collide | an admonition `exercise short` followed by a plain admonition `exercise`: both get `exercise_1` | one running count, so ids are unique on a page | medium (not executed) | Treeprocessor.PerKindIdsCollide | Treeprocessor.SharedIdsDistinct |
