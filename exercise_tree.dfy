/** What `ExerciseAdmonition.visit` does to one admonition element (src/extension.py:
    29-87, 111-123, 163-255, 284-321, 351-360): the id, the added classes, the quiz form
    that receives the description, the form elements each kind builds, and the answer
    block moved to the end. An element is its class attribute, its id and
    `data-answer-idx` attributes and its direct children. */
module ExerciseTree {
  import opened Strings
  import opened Classes
  import opened ChoiceItems

  /** What each kind's `create_exercise_form` puts into the form-elements div. An empty
      list of alternatives stands for the empty string returned when no choices are
      found. */
  datatype FormElements =
    | ChoiceHtml(alts: seq<Alternative>)
    | TextHtml(widget: Widget)
    | MarkDoneHtml

  /** A direct child of an admonition. `hasChildren` is the truth value ElementTree
      gives an element: whether it has child elements. */
  datatype Node =
    | Para(cls: string)
    | Div(cls: string, hasChildren: bool)
    | List(cls: string, items: seq<Item>)
    | QuizForm(content: seq<Node>, elements: Option<FormElements>)
    | Other

  datatype Element = Element(cls: string, id: Option<string>, answerIdx: Option<string>, children: seq<Node>)

  /** The element paths the visit looks children up by. */
  datatype Path = TitlePath | AnswerPath | ListPath | TaskListPath

  predicate OnPath(p: Path, n: Node) {
    match p
    case TitlePath => n.Para? && n.cls == "admonition-title"
    case AnswerPath => n.Div? && n.cls == "admonition answer"
    case ListPath => n.List?
    case TaskListPath => n.List? && n.cls == "task-list"
  }

  /** ElementTree's `find`: the first child on the path. */
  function Find(ns: seq<Node>, p: Path): (r: Option<nat>)
    ensures r.Some? ==> r.value < |ns| && OnPath(p, ns[r.value])
    ensures r.Some? ==> forall j :: 0 <= j < r.value ==> !OnPath(p, ns[j])
    ensures r.None? ==> forall j :: 0 <= j < |ns| ==> !OnPath(p, ns[j])
  {
    if ns == [] then None
    else if OnPath(p, ns[0]) then Some(0)
    else
      match Find(ns[1..], p)
      case None => None
      case Some(k) => Some(k + 1)
  }

  function RemoveAt(ns: seq<Node>, i: nat): (r: seq<Node>)
    requires i < |ns|
    ensures |r| == |ns| - 1
  {
    ns[..i] + ns[i + 1..]
  }

  // ---------------------------------------------------------------------------------
  // __set_element_id
  // ---------------------------------------------------------------------------------

  /** The id prefix: the class `__match_class` names, formatted by Python as "None" when
      there is none. */
  function IdPrefix(m: Option<string>): string {
    if m.Some? then m.value else "None"
  }

  predicate IsIdToken(w: string) {
    StartsWith(w, "id_")
  }

  /** The position of the first token starting with `id_`. */
  function FirstIdToken(ws: seq<string>): (r: Option<nat>)
    ensures r.Some? ==> r.value < |ws| && IsIdToken(ws[r.value])
    ensures r.Some? ==> forall j :: 0 <= j < r.value ==> !IsIdToken(ws[j])
    ensures r.None? ==> forall j :: 0 <= j < |ws| ==> !IsIdToken(ws[j])
  {
    if ws == [] then None
    else if IsIdToken(ws[0]) then Some(0)
    else
      match FirstIdToken(ws[1..])
      case None => None
      case Some(k) => Some(k + 1)
  }

  /** No class token starts with `id_`. */
  predicate NoIdToken(cls: string) {
    FirstIdToken(Split(cls)).None?
  }

  lemma NoIdTokenMeaning(cls: string)
    ensures NoIdToken(cls) <==> forall w :: w in Split(cls) ==> !IsIdToken(w)
  {
    NoneFound(Split(cls));
  }

  lemma NoneFound(ws: seq<string>)
    ensures FirstIdToken(ws).None? <==> forall w :: w in ws ==> !IsIdToken(w)
  {
    var f := FirstIdToken(ws);
    if f.Some? {
      assert ws[f.value] in ws;
    }
  }

  /** `__set_element_id` (extension.py:29-44) after its counter has reached `n`: the id
      and the new class attribute. */
  function AssignedId(prefix: string, n: nat, cls: string): (string, string) {
    var ws := Split(cls);
    match FirstIdToken(ws)
    case None => (prefix + "_" + NatToString(n), cls)
    case Some(k) => (ws[k][3..], PyStrip(Replace(cls, ws[k], "")))
  }

  /** Without an `id_` token the id is the prefix and the counter, and the classes stay;
      otherwise the first `id_` token names the id, minus its prefix, and, when no other
      class token contains that token's text, the new attribute's tokens are the old ones
      with every copy of that token removed. */
  lemma AssignedIdMeaning(prefix: string, n: nat, cls: string)
    ensures NoIdToken(cls) ==> AssignedId(prefix, n, cls) == (prefix + "_" + NatToString(n), cls)
    ensures forall k :: 0 <= k < |Split(cls)| && IsIdToken(Split(cls)[k]) && (forall j :: 0 <= j < k ==> !IsIdToken(Split(cls)[j])) ==>
              && AssignedId(prefix, n, cls).0 == Split(cls)[k][3..]
              && (OnlyWhole(Split(cls), Split(cls)[k]) ==> Split(AssignedId(prefix, n, cls).1) == Without(Split(cls), Split(cls)[k]))
  {
    var ws := Split(cls);
    forall k | 0 <= k < |ws| && IsIdToken(ws[k]) && (forall j :: 0 <= j < k ==> !IsIdToken(ws[j]))
      ensures AssignedId(prefix, n, cls).0 == ws[k][3..]
      ensures OnlyWhole(ws, ws[k]) ==> Split(AssignedId(prefix, n, cls).1) == Without(ws, ws[k])
    {
      AssignedFromToken(prefix, n, cls, k);
    }
  }

  /** The id and attribute taken from the first `id_` token, at index `k`. */
  lemma AssignedFromToken(prefix: string, n: nat, cls: string, k: nat)
    requires k < |Split(cls)| && IsIdToken(Split(cls)[k])
    requires forall j :: 0 <= j < k ==> !IsIdToken(Split(cls)[j])
    ensures AssignedId(prefix, n, cls).0 == Split(cls)[k][3..]
    ensures OnlyWhole(Split(cls), Split(cls)[k]) ==> Split(AssignedId(prefix, n, cls).1) == Without(Split(cls), Split(cls)[k])
  {
    var ws := Split(cls);
    FirstFound(ws, k);
    if OnlyWhole(ws, ws[k]) {
      IdTokenCut(cls, ws[k]);
    }
  }

  /** Cutting a class token that no other token contains, then stripping, leaves the other
      tokens. */
  lemma IdTokenCut(cls: string, x: string)
    requires x != [] && x in Split(cls) && OnlyWhole(Split(cls), x)
    ensures Split(PyStrip(Replace(cls, x, ""))) == Without(Split(cls), x)
  {
    SplitTokens(cls);
    ReplaceTokenWords(cls, x);
    SplitStrip(Replace(cls, x, ""));
  }

  /** A token starting with `id_` with none before it is the one `FirstIdToken` finds. */
  lemma FirstFound(ws: seq<string>, k: nat)
    requires k < |ws| && IsIdToken(ws[k]) && forall j :: 0 <= j < k ==> !IsIdToken(ws[j])
    ensures FirstIdToken(ws) == Some(k)
  {
  }

  /** Two counter-made ids with the same prefix differ when the counters differ. */
  lemma CounterIdsDiffer(prefix: string, a: nat, b: nat)
    requires a != b
    ensures prefix + "_" + NatToString(a) != prefix + "_" + NatToString(b)
  {
    var sa := prefix + "_" + NatToString(a);
    var sb := prefix + "_" + NatToString(b);
    if sa == sb {
      assert sa[|prefix| + 1..] == NatToString(a);
      assert sb[|prefix| + 1..] == NatToString(b);
      NatToStringInjective(a, b);
    }
  }

  // ---------------------------------------------------------------------------------
  // __add_exercise_description
  // ---------------------------------------------------------------------------------

  /** The positions of the children that stay: the first title and the first answer
      block. */
  function Staying(ns: seq<Node>): set<nat> {
    (if Find(ns, TitlePath).Some? then {Find(ns, TitlePath).value} else {})
    + (if Find(ns, AnswerPath).Some? then {Find(ns, AnswerPath).value} else {})
  }

  /** The children whose positions are (`keep`) or are not (`!keep`) in `stay`, in order. */
  function Select(ns: seq<Node>, stay: set<nat>, keep: bool): seq<Node> {
    if ns == [] then []
    else Select(ns[..|ns| - 1], stay, keep) + (if (|ns| - 1 in stay) == keep then [ns[|ns| - 1]] else [])
  }

  /** Selecting both ways splits the children: nothing is lost or duplicated. */
  lemma {:induction false} SelectSplits(ns: seq<Node>, stay: set<nat>)
    ensures multiset(Select(ns, stay, true)) + multiset(Select(ns, stay, false)) == multiset(ns)
    ensures |Select(ns, stay, true)| + |Select(ns, stay, false)| == |ns|
  {
    if ns != [] {
      var front := ns[..|ns| - 1];
      var x := ns[|ns| - 1];
      SelectSplits(front, stay);
      assert ns == front + [x];
      SelectStep(front, x, Select(front, stay, true), Select(front, stay, false),
                Select(ns, stay, true), Select(ns, stay, false));
    }
  }

  /** Appending `x` to one side of a split of `front` splits `front + [x]`. */
  lemma SelectStep<T>(front: seq<T>, x: T, t: seq<T>, f: seq<T>, t': seq<T>, f': seq<T>)
    requires multiset(t) + multiset(f) == multiset(front) && |t| + |f| == |front|
    requires (t' == t + [x] && f' == f) || (t' == t && f' == f + [x])
    ensures multiset(t') + multiset(f') == multiset(front + [x]) && |t'| + |f'| == |front| + 1
  {
    assert multiset(front + [x]) == multiset(front) + multiset{x};
    if t' == t + [x] {
      assert multiset(t + [x]) == multiset(t) + multiset{x};
    } else {
      assert multiset(f + [x]) == multiset(f) + multiset{x};
    }
  }

  /** The staying children are only among those at a position in `stay`. */
  lemma {:induction false} SelectStaying(ns: seq<Node>, stay: set<nat>)
    ensures forall x :: x in Select(ns, stay, true) ==> exists i :: 0 <= i < |ns| && i in stay && ns[i] == x
    ensures forall i :: 0 <= i < |ns| && i !in stay ==> ns[i] in Select(ns, stay, false)
    ensures forall i :: 0 <= i < |ns| && i in stay ==> ns[i] in Select(ns, stay, true)
  {
    if ns != [] {
      var front := ns[..|ns| - 1];
      SelectStaying(front, stay);
      forall i | 0 <= i < |front|
        ensures front[i] == ns[i]
      {
      }
    }
  }

  /** `__add_exercise_description` (extension.py:46-66) for direct children: every child
      except the first title and the first answer block moves, in order, into the new
      form, which is appended after the children that stay. */
  method AddDescription(children: seq<Node>) returns (kept: seq<Node>, content: seq<Node>)
    ensures kept == Select(children, Staying(children), true)
    ensures content == Select(children, Staying(children), false)
  {
    var stay := Staying(children);
    kept, content := [], [];
    for i := 0 to |children|
      invariant kept == Select(children[..i], stay, true)
      invariant content == Select(children[..i], stay, false)
    {
      assert children[..i + 1][..i] == children[..i];
      if i in stay {
        kept := kept + [children[i]];
      } else {
        content := content + [children[i]];
      }
    }
    assert children[..|children|] == children;
  }

  /** The description step loses and duplicates nothing: the children that stay and
      those moved into the form are, together, the children before. */
  lemma DescriptionKeepsAll(ns: seq<Node>)
    ensures multiset(Select(ns, Staying(ns), true)) + multiset(Select(ns, Staying(ns), false)) == multiset(ns)
  {
    SelectSplits(ns, Staying(ns));
  }

  /** The first title and the first answer block stay, no other child stays, and every
      child that is neither a title nor an answer block moves into the form. */
  lemma DescriptionWhoStays(ns: seq<Node>)
    ensures forall x :: x in Select(ns, Staying(ns), true) ==> OnPath(TitlePath, x) || OnPath(AnswerPath, x)
    ensures Find(ns, TitlePath).Some? ==> ns[Find(ns, TitlePath).value] in Select(ns, Staying(ns), true)
    ensures Find(ns, AnswerPath).Some? ==> ns[Find(ns, AnswerPath).value] in Select(ns, Staying(ns), true)
    ensures forall i :: 0 <= i < |ns| && !OnPath(TitlePath, ns[i]) && !OnPath(AnswerPath, ns[i]) ==>
              ns[i] in Select(ns, Staying(ns), false)
  {
    var stay := Staying(ns);
    assert forall i :: i in stay ==> i < |ns| && (OnPath(TitlePath, ns[i]) || OnPath(AnswerPath, ns[i]));
    SelectStaying(ns, stay);
  }

  // ---------------------------------------------------------------------------------
  // ChoiceExercise.create_exercise_form: finding the list
  // ---------------------------------------------------------------------------------

  /** The items of every list on the path, in order (`findall(".//ul/li")` over direct
      children). */
  function ListItems(ns: seq<Node>, p: Path): seq<Item> {
    if ns == [] then []
    else ListItems(ns[..|ns| - 1], p)
         + (if OnPath(p, ns[|ns| - 1]) && ns[|ns| - 1].List? then ns[|ns| - 1].items else [])
  }

  /** The choices and the list removed from the form. The first list is used when it
      has items; otherwise the first `task-list` list, with only task-list items. */
  datatype ChoiceSource = ChoiceSource(choices: seq<Item>, removed: Option<nat>)

  function FindChoices(content: seq<Node>): (r: ChoiceSource)
    ensures r.removed.Some? ==> r.removed.value < |content| && content[r.removed.value].List?
  {
    var ul := Find(content, ListPath);
    if ul.Some? && content[ul.value].items != [] then ChoiceSource(ListItems(content, ListPath), ul)
    else ChoiceSource(ListItems(content, TaskListPath), Find(content, TaskListPath))
  }

  /** A list has its own items among the collected ones. */
  lemma {:induction false} ListItemsInclude(ns: seq<Node>, p: Path, i: nat)
    requires i < |ns| && OnPath(p, ns[i]) && ns[i].List?
    ensures |ListItems(ns, p)| >= |ns[i].items|
    ensures ns[i].items != [] ==> ListItems(ns, p) != []
  {
    if i < |ns| - 1 {
      ListItemsInclude(ns[..|ns| - 1], p, i);
    }
  }

  /** The choices are empty exactly when no list has items: when the first list has
      none, only task lists count. A single list gives its own items. */
  lemma ChoicesOfOneList(cls: string, items: seq<Item>, before: seq<Node>, after: seq<Node>)
    requires forall j :: 0 <= j < |before| ==> !before[j].List?
    requires forall j :: 0 <= j < |after| ==> !after[j].List?
    requires items != []
    ensures FindChoices(before + [List(cls, items)] + after) == ChoiceSource(items, Some(|before|))
  {
    var ns := before + [List(cls, items)] + after;
    assert ns[|before|] == List(cls, items);
    assert Find(ns, ListPath) == Some(|before|);
    NoListsNoItems(before, ListPath);
    NoListsNoItems(after, ListPath);
    ListItemsConcat(before + [List(cls, items)], after, ListPath);
    ListItemsConcat(before, [List(cls, items)], ListPath);
    assert ListItems([List(cls, items)], ListPath) == ListItems([], ListPath) + items;
  }

  lemma {:induction false} NoListsNoItems(ns: seq<Node>, p: Path)
    requires forall j :: 0 <= j < |ns| ==> !ns[j].List?
    ensures ListItems(ns, p) == []
  {
    if ns != [] {
      NoListsNoItems(ns[..|ns| - 1], p);
    }
  }

  lemma {:induction false} ListItemsConcat(a: seq<Node>, b: seq<Node>, p: Path)
    ensures ListItems(a + b, p) == ListItems(a, p) + ListItems(b, p)
    decreases |b|
  {
    if b == [] {
      assert a + b == a;
    } else {
      var b' := b[..|b| - 1];
      assert (a + b)[..|a + b| - 1] == a + b';
      ListItemsConcat(a, b', p);
    }
  }

  // ---------------------------------------------------------------------------------
  // The visit
  // ---------------------------------------------------------------------------------

  /** `__add_exercise_form_elements` (extension.py:68-87): an answer block that has child
      elements is moved to the end with `quiz-answer no-indent` added to its class; one
      without child elements is left where it is. */
  function AnswerLast(ns: seq<Node>): seq<Node> {
    var a := Find(ns, AnswerPath);
    if a.Some? && ns[a.value].hasChildren then
      RemoveAt(ns, a.value) + [Div(ns[a.value].cls + " quiz-answer no-indent", true)]
    else ns
  }

  /** The form content after the choice list is removed, the form elements, and the
      `data-answer-idx` attribute (extension.py:163-255, 284-321, 351-360). */
  function FormFor(k: Kind, cls: string, content: seq<Node>, stash: seq<string>, answerIdx: Option<string>)
    : (seq<Node>, FormElements, Option<string>)
  {
    match k
    case ChoiceKind =>
      var src := FindChoices(content);
      var rest := if src.removed.Some? then RemoveAt(content, src.removed.value) else content;
      if src.choices == [] then (rest, ChoiceHtml([]), answerIdx)
      else (rest, ChoiceHtml(Alternatives(src.choices)), Some(IntToString(LastAnswer(src.choices, stash))))
    case TextKind => (content, TextHtml(TextWidget(cls)), answerIdx)
    case SelfProgressKind => (content, MarkDoneHtml, answerIdx)
  }

  /** The first two steps of `visit` (extension.py:113-115): `__set_element_id` with
      the counter at `n`, then `add_extra_classes`. */
  function Stamp(k: Kind, el: Element, n: nat): Element {
    var a := AssignedId(IdPrefix(MatchClass(k, el.cls)), n, el.cls);
    el.(id := Some(a.0), cls := ExtraClasses(k, a.1))
  }

  /** The rest of `visit` (extension.py:117-121): the form, the description moved into
      it, and the form elements; only the children and `data-answer-idx` change. When
      `throws`, the visit stops with an exception inside `create_exercise_form`: the
      description has moved, the form has no form elements and the answer block is not
      moved. */
  function Build(k: Kind, e: Element, throws: bool, stash: seq<string>): (r: Element)
    ensures r.id == e.id && r.cls == e.cls
  {
    var stay := Staying(e.children);
    var kept := Select(e.children, stay, true);
    var content := Select(e.children, stay, false);
    if throws then e.(children := kept + [QuizForm(content, None)])
    else
      var (rest, html, attr) := FormFor(k, e.cls, content, stash, e.answerIdx);
      e.(answerIdx := attr, children := AnswerLast(kept + [QuizForm(rest, Some(html))]))
  }

  /** `visit` (extension.py:111-123). */
  function Visited(k: Kind, el: Element, n: nat, throws: bool, stash: seq<string>): Element {
    Build(k, Stamp(k, el, n), throws, stash)
  }

  /** The form the visit builds, found among the new children. */
  predicate HasForm(el: Element) {
    exists i :: 0 <= i < |el.children| && el.children[i].QuizForm?
  }

  /** Every visit sets an id; for a matched element without `id_` tokens it is
      `exercise_<n>`, and the class attribute is that of `add_extra_classes`. */
  lemma VisitedId(k: Kind, el: Element, n: nat, throws: bool, stash: seq<string>)
    ensures Visited(k, el, n, throws, stash).id.Some?
    ensures Matches(k, el.cls) && NoIdToken(el.cls) ==>
              && Visited(k, el, n, throws, stash).id == Some("exercise_" + NatToString(n))
              && Visited(k, el, n, throws, stash).cls == ExtraClasses(k, el.cls)
  {
    if Matches(k, el.cls) && NoIdToken(el.cls) {
      StampPlain(k, el, n);
    }
  }

  lemma StampPlain(k: Kind, el: Element, n: nat)
    requires Matches(k, el.cls) && NoIdToken(el.cls)
    ensures Stamp(k, el, n).id == Some("exercise_" + NatToString(n))
    ensures Stamp(k, el, n).cls == ExtraClasses(k, el.cls)
  {
    MatchClassAgrees(k, el.cls);
    var a := AssignedId(IdPrefix(MatchClass(k, el.cls)), n, el.cls);
    AssignedIdPlain(Base, n, el.cls);
    assert a.1 == el.cls;
    var e := Stamp(k, el, n);
    assert e.cls == ExtraClasses(k, a.1);
    BasePrefix();
    assert a.0 == Base + "_" + NatToString(n);
  }

  lemma BasePrefix()
    ensures Base + "_" == "exercise_"
  {
  }

  lemma AssignedIdPlain(prefix: string, n: nat, cls: string)
    requires NoIdToken(cls)
    ensures AssignedId(prefix, n, cls) == (prefix + "_" + NatToString(n), cls)
  {
  }

  /** Every visit leaves a quiz form among the children, also when it throws. */
  lemma VisitedHasForm(k: Kind, el: Element, n: nat, throws: bool, stash: seq<string>)
    ensures HasForm(Visited(k, el, n, throws, stash))
  {
    var e := Stamp(k, el, n);
    var r := Visited(k, el, n, throws, stash);
    var stay := Staying(e.children);
    var kept := Select(e.children, stay, true);
    if throws {
      assert r.children[|kept|].QuizForm?;
    } else {
      var (rest, html, attr) := FormFor(k, e.cls, Select(e.children, stay, false), stash, e.answerIdx);
      AnswerLastKeepsForm(kept + [QuizForm(rest, Some(html))], |kept|);
    }
  }

  /** Moving the answer block keeps the form. */
  lemma AnswerLastKeepsForm(ns: seq<Node>, i: nat)
    requires i < |ns| && ns[i].QuizForm?
    ensures exists j :: 0 <= j < |AnswerLast(ns)| && AnswerLast(ns)[j].QuizForm?
  {
    var a := Find(ns, AnswerPath);
    if a.Some? && ns[a.value].hasChildren {
      var r := RemoveAt(ns, a.value);
      assert a.value != i;
      if i < a.value {
        assert r[i] == ns[i];
      } else {
        assert r[i - 1] == ns[i];
      }
      assert AnswerLast(ns)[if i < a.value then i else i - 1] == ns[i];
    } else {
      assert AnswerLast(ns)[i] == ns[i];
    }
  }

  /** A choice visit that finds choices writes the index of the last answer, which the
      client reads back with parseInt; one that finds none leaves the attribute as it was. */
  lemma ChoiceVisitAnswerIdx(el: Element, n: nat, stash: seq<string>)
    ensures var r := Visited(ChoiceKind, el, n, false, stash);
            var choices := FindChoices(Select(el.children, Staying(el.children), false)).choices;
            && (choices == [] ==> r.answerIdx == el.answerIdx)
            && (choices != [] ==>
                  && r.answerIdx == Some(IntToString(LastAnswer(choices, stash)))
                  && ParseInt(r.answerIdx.value) == Some(LastAnswer(choices, stash)))
  {
    var choices := FindChoices(Select(el.children, Staying(el.children), false)).choices;
    AnswerIdxReadBack(choices, stash);
  }
}
