/** The class-attribute logic of src/extension.py: `has_class`, `__match_class`, the
    three `match` overrides, the `add_extra_classes` overrides and the choice of text
    widget. A class attribute is a string, "" when the attribute is absent. */
module Classes {
  import opened Strings

  /** `has_class(el, classes)` (extension.py:89-94): one of the wanted classes is a
      whitespace-separated token of the attribute. A single string is passed as `[s]`. */
  predicate HasClass(cls: string, wanted: seq<string>) {
    exists k :: 0 <= k < |wanted| && wanted[k] in Split(cls)
  }

  /** With one wanted class, `has_class` is token membership, so a class containing
      whitespace never matches. */
  lemma HasOneClass(cls: string, w: string)
    ensures HasClass(cls, [w]) <==> w in Split(cls)
    ensures HasClass(cls, [w]) ==> IsToken(w)
  {
    if w in Split(cls) {
      assert [w][0] in Split(cls);
      SplitTokens(cls);
    }
  }

  lemma HasClassConcat(cls: string, a: seq<string>, b: seq<string>)
    ensures HasClass(cls, a + b) <==> HasClass(cls, a) || HasClass(cls, b)
  {
    if HasClass(cls, a + b) {
      var k :| 0 <= k < |a + b| && (a + b)[k] in Split(cls);
      if k < |a| {
        assert a[k] == (a + b)[k];
      } else {
        assert b[k - |a|] == (a + b)[k];
      }
    }
    if HasClass(cls, a) {
      var k :| 0 <= k < |a| && a[k] in Split(cls);
      assert (a + b)[k] == a[k];
    }
    if HasClass(cls, b) {
      var k :| 0 <= k < |b| && b[k] in Split(cls);
      assert (a + b)[|a| + k] == b[k];
    }
  }

  /** The three exercise kinds, in the order the tree processor runs them. */
  datatype Kind = ChoiceKind | TextKind | SelfProgressKind

  /** The base class every kind is constructed with. */
  const Base := "exercise"

  /** The subclasses each kind is constructed with (extension.py:142, 273, 340). */
  function Subclasses(k: Kind): seq<string> {
    match k
    case ChoiceKind => ["choice"]
    case TextKind => ["short", "long", "text"]
    case SelfProgressKind => []
  }

  /** The `match` overrides (extension.py:145-152, 275-282, 342-349). The base class is
      looked for as a substring of the attribute, the subclasses as tokens. */
  predicate Matches(k: Kind, cls: string) {
    && Contains(cls, Base)
    && match k
       case ChoiceKind => HasClass(cls, ["choice"])
       case TextKind => HasClass(cls, ["short", "long", "text"])
       case SelfProgressKind => !HasClass(cls, ["choice", "short", "long", "text"])
  }

  /** `__match_class` (extension.py:96-105), which `visit` uses to name the id. */
  function MatchClass(k: Kind, cls: string): Option<string> {
    if !Contains(cls, Base) then None
    else if Subclasses(k) != [] then (if HasClass(cls, Subclasses(k)) then Some(Base) else None)
    else Some(Base)
  }

  /** Whenever an override matches, `__match_class` names the base class, so every id the
      processor assigns has the prefix `exercise_`. For choice and text the two tests
      agree; the base test of a self-progress exercise skips the exclusion. */
  lemma MatchClassAgrees(k: Kind, cls: string)
    ensures Matches(k, cls) ==> MatchClass(k, cls) == Some(Base)
    ensures k != SelfProgressKind ==> (MatchClass(k, cls).Some? <==> Matches(k, cls))
    ensures k == SelfProgressKind ==> (MatchClass(k, cls).Some? <==> Contains(cls, Base))
  {
  }

  /** Self-progress never overlaps choice or text, and an attribute containing
      `exercise` is matched by at least one kind; without it, by none. */
  lemma KindsCover(cls: string)
    ensures Matches(SelfProgressKind, cls) ==> !Matches(ChoiceKind, cls) && !Matches(TextKind, cls)
    ensures Contains(cls, Base) <==> Matches(ChoiceKind, cls) || Matches(TextKind, cls) || Matches(SelfProgressKind, cls)
  {
    assert ["choice", "short", "long", "text"] == ["choice"] + ["short", "long", "text"];
    HasClassConcat(cls, ["choice"], ["short", "long", "text"]);
  }

  /** A choice exercise that is also marked `text` is matched by both choice and text. */
  lemma ChoiceAndTextOverlap(cls: string)
    requires Contains(cls, Base) && "choice" in Split(cls) && "text" in Split(cls)
    ensures Matches(ChoiceKind, cls) && Matches(TextKind, cls)
  {
    assert ["choice"][0] in Split(cls);
    assert ["short", "long", "text"][2] in Split(cls);
  }

  /** An attribute with `exercise` among its tokens is matched by some kind. */
  lemma BaseIsSubstring(cls: string)
    ensures "exercise" in Split(cls) ==> Matches(SelfProgressKind, cls) || Matches(ChoiceKind, cls) || Matches(TextKind, cls)
  {
    if "exercise" in Split(cls) {
      TokenIsSubstring(cls, "exercise");
      KindsCover(cls);
    }
  }

  /** The base test is a substring test: a single token such as `exercises` that
      merely starts with `exercise` is taken for a self-progress exercise, although
      `exercise` is not one of its tokens. */
  lemma LooseBaseMatch(w: string)
    requires IsToken(w) && StartsWith(w, Base) && w != Base
    requires w != "choice" && w != "short" && w != "long" && w != "text"
    ensures Matches(SelfProgressKind, w) && Base !in Split(w)
  {
    SplitOfToken(w);
    assert Contains(w, Base);
    var others := ["choice", "short", "long", "text"];
    assert w !in others;
    OneTokenHasClass(w, w, others);
    assert !HasClass(w, others);
  }

  /** An attribute with a single token has one of the wanted classes exactly when that
      token is among them. */
  lemma OneTokenHasClass(cls: string, t: string, wanted: seq<string>)
    requires Split(cls) == [t]
    ensures HasClass(cls, wanted) <==> t in wanted
  {
    if t in wanted {
      var k :| 0 <= k < |wanted| && wanted[k] == t;
      assert wanted[k] in Split(cls);
    }
  }

  // ---------------------------------------------------------------------------------
  // add_extra_classes
  // ---------------------------------------------------------------------------------

  /** `f"{current_classes} {extra}".strip()`. */
  function Appended(cls: string, extra: string): string {
    PyStrip(cls + " " + extra)
  }

  /** Appending a class adds exactly that token at the end and keeps the others. */
  lemma AppendedTokens(cls: string, extra: string)
    requires IsToken(extra)
    ensures Split(Appended(cls, extra)) == Split(cls) + [extra]
    ensures Contains(Appended(cls, extra), extra)
  {
    SplitStrip(cls + " " + extra);
    assert cls + " " + extra == cls + [' '] + extra;
    SplitConcat(cls, ' ', extra);
    SplitOfToken(extra);
    assert extra in Split(Appended(cls, extra));
    TokenIsSubstring(Appended(cls, extra), extra);
  }

  /** The `add_extra_classes` overrides (extension.py:262-266, 324-333, 362-366). The
      "already present" tests are substring tests on the attribute; the text override
      adds at most one class, with precedence short, long, text. */
  function ExtraClasses(k: Kind, cls: string): string {
    match k
    case ChoiceKind =>
      if !Contains(cls, "exercise-choice") then Appended(cls, "exercise-choice") else cls
    case TextKind =>
      if HasClass(cls, ["short"]) && !Contains(cls, "exercise-short") then Appended(cls, "exercise-short")
      else if HasClass(cls, ["long"]) && !Contains(cls, "exercise-long") then Appended(cls, "exercise-long")
      else if HasClass(cls, ["text"]) && !Contains(cls, "exercise-text") then Appended(cls, "exercise-text")
      else cls
    case SelfProgressKind =>
      if !Contains(cls, "exercise-self-progress") then Appended(cls, "exercise-self-progress") else cls
  }

  /** The classes the overrides add are single tokens. */
  lemma AddedClassesAreTokens()
    ensures IsToken("exercise-choice") && IsToken("exercise-short") && IsToken("exercise-long")
    ensures IsToken("exercise-text") && IsToken("exercise-self-progress")
  {
    LiteralToken("exercise-choice");
    LiteralToken("exercise-short");
    LiteralToken("exercise-long");
    LiteralToken("exercise-text");
    SelfProgressClassIsToken();
  }

  lemma LiteralToken(w: string)
    requires NonSpaceFrom(w, 0) && w != []
    ensures IsToken(w)
  {
    NonSpaceFromMeaning(w, 0);
  }

  lemma SelfProgressClassIsToken()
    ensures IsToken("exercise-self-progress")
  {
    LiteralToken("exercise-self");
    LiteralToken("-progress");
    TokenConcat("exercise-self", "-progress");
    assert "exercise-self" + "-progress" == "exercise-self-progress";
  }

  /** The class each kind marks an exercise with. */
  function KindClass(k: Kind): string {
    match k
    case ChoiceKind => "exercise-choice"
    case TextKind => "exercise-text"
    case SelfProgressKind => "exercise-self-progress"
  }

  /** For choice and self-progress: the marker class is present afterwards; it is added
      as a new last token exactly when it was not already a substring, and the tokens
      are otherwise kept. */
  lemma MarkerClassAdded(k: Kind, cls: string)
    requires k != TextKind
    ensures Contains(ExtraClasses(k, cls), KindClass(k))
    ensures Split(ExtraClasses(k, cls)) == if Contains(cls, KindClass(k)) then Split(cls) else Split(cls) + [KindClass(k)]
  {
    if !Contains(cls, KindClass(k)) {
      AddedClassesAreTokens();
      AppendedTokens(cls, KindClass(k));
    }
  }

  /** Choice and self-progress augmentation is idempotent. */
  lemma MarkerClassIdempotent(k: Kind, cls: string)
    requires k != TextKind
    ensures ExtraClasses(k, ExtraClasses(k, cls)) == ExtraClasses(k, cls)
  {
    MarkerClassAdded(k, cls);
  }

  /** The guards of the text override's three branches (extension.py:328, 330, 332):
      the type is a token and its class is not yet a substring of the attribute. */
  predicate TextGuard(cls: string, t: string) {
    HasClass(cls, [t]) && !Contains(cls, "exercise-" + t)
  }

  /** Text augmentation follows the elif chain: the first branch whose guard holds, in
      the order short, long, text, appends its class as a new last token and keeps the
      others; the attribute is unchanged exactly when no guard holds. */
  lemma TextClassAdded(cls: string)
    ensures var r := ExtraClasses(TextKind, cls);
            && (TextGuard(cls, "short") ==> Split(r) == Split(cls) + ["exercise-short"])
            && (!TextGuard(cls, "short") && TextGuard(cls, "long") ==> Split(r) == Split(cls) + ["exercise-long"])
            && (!TextGuard(cls, "short") && !TextGuard(cls, "long") && TextGuard(cls, "text") ==>
                  Split(r) == Split(cls) + ["exercise-text"])
            && (r == cls <==> !TextGuard(cls, "short") && !TextGuard(cls, "long") && !TextGuard(cls, "text"))
  {
    GuardNames();
    AddedClassesAreTokens();
    if TextGuard(cls, "short") {
      AppendedGrows(cls, "exercise-short");
    } else if TextGuard(cls, "long") {
      AppendedGrows(cls, "exercise-long");
    } else if TextGuard(cls, "text") {
      AppendedGrows(cls, "exercise-text");
    }
  }

  lemma GuardNames()
    ensures "exercise-" + "short" == "exercise-short"
    ensures "exercise-" + "long" == "exercise-long"
    ensures "exercise-" + "text" == "exercise-text"
  {
  }

  /** Appending a class token changes the attribute. */
  lemma AppendedGrows(cls: string, extra: string)
    requires IsToken(extra)
    ensures Split(Appended(cls, extra)) == Split(cls) + [extra]
    ensures Appended(cls, extra) != cls
  {
    AppendedTokens(cls, extra);
  }

  /** Text augmentation keeps the tokens in front of what it adds. */
  lemma TextClassKeepsTokens(cls: string)
    ensures Split(cls) <= Split(ExtraClasses(TextKind, cls))
  {
    AddedClassesAreTokens();
    if HasClass(cls, ["short"]) && !Contains(cls, "exercise-short") {
      AppendedTokens(cls, "exercise-short");
    } else if HasClass(cls, ["long"]) && !Contains(cls, "exercise-long") {
      AppendedTokens(cls, "exercise-long");
    } else if HasClass(cls, ["text"]) && !Contains(cls, "exercise-text") {
      AppendedTokens(cls, "exercise-text");
    }
  }

  /** With at most one of short, long, text among the tokens, text augmentation is
      idempotent. */
  lemma TextClassIdempotentForOneType(cls: string)
    requires !(HasClass(cls, ["short"]) && HasClass(cls, ["long"]))
    requires !(HasClass(cls, ["short"]) && HasClass(cls, ["text"]))
    requires !(HasClass(cls, ["long"]) && HasClass(cls, ["text"]))
    ensures ExtraClasses(TextKind, ExtraClasses(TextKind, cls)) == ExtraClasses(TextKind, cls)
  {
    if HasClass(cls, ["short"]) && !Contains(cls, "exercise-short") {
      var r := Appended(cls, "exercise-short");
      assert HasClass(r, ["short"]) && Contains(r, "exercise-short") by {
        TypeTokenKept(cls, "short", "exercise-short");
      }
      assert !HasClass(r, ["long"]) by {
        TypeTokenKept(cls, "long", "exercise-short");
      }
      assert !HasClass(r, ["text"]) by {
        TypeTokenKept(cls, "text", "exercise-short");
      }
    } else if HasClass(cls, ["long"]) && !Contains(cls, "exercise-long") {
      var r := Appended(cls, "exercise-long");
      assert !HasClass(r, ["short"]) by {
        TypeTokenKept(cls, "short", "exercise-long");
      }
      assert HasClass(r, ["long"]) && Contains(r, "exercise-long") by {
        TypeTokenKept(cls, "long", "exercise-long");
      }
      assert !HasClass(r, ["text"]) by {
        TypeTokenKept(cls, "text", "exercise-long");
      }
    } else if HasClass(cls, ["text"]) && !Contains(cls, "exercise-text") {
      var r := Appended(cls, "exercise-text");
      assert !HasClass(r, ["short"]) by {
        TypeTokenKept(cls, "short", "exercise-text");
      }
      assert !HasClass(r, ["long"]) by {
        TypeTokenKept(cls, "long", "exercise-text");
      }
      assert HasClass(r, ["text"]) && Contains(r, "exercise-text") by {
        TypeTokenKept(cls, "text", "exercise-text");
      }
    }
  }

  /** With both `short` and `text` among the tokens the text override is not idempotent:
      the first call appends `exercise-short`, which switches the short branch off, so the
      second call falls through to the text branch and appends `exercise-text`. */
  lemma TextClassNotIdempotent(cls: string)
    requires "short" in Split(cls) && "text" in Split(cls) && "long" !in Split(cls)
    requires forall w :: w in Split(cls) ==> |w| < |"exercise-text"|
    ensures var r := ExtraClasses(TextKind, cls);
            && Split(r) == Split(cls) + ["exercise-short"]
            && Split(ExtraClasses(TextKind, r)) == Split(r) + ["exercise-text"]
            && ExtraClasses(TextKind, r) != r
  {
    AddedClassesAreTokens();
    HasOneClass(cls, "short");
    ShortWordsMissing(Split(cls), "exercise-short");
    if Contains(cls, "exercise-short") {
      SubstringInToken(cls, "exercise-short");
    }
    var r := Appended(cls, "exercise-short");
    AppendedGrows(cls, "exercise-short");
    assert ExtraClasses(TextKind, cls) == r;
    TypeTokenKept(cls, "long", "exercise-short");
    TypeTokenKept(cls, "text", "exercise-short");
    HasOneClass(cls, "long");
    HasOneClass(cls, "text");
    assert !Contains(r, "exercise-text") by {
      if Contains(r, "exercise-text") {
        SubstringInToken(r, "exercise-text");
        InSomeWordAppend(Split(cls), "exercise-short", "exercise-text");
        ShortWordsMissing(Split(cls), "exercise-text");
        ShortClassLacksTextClass();
        assert false;
      }
    }
    AppendedGrows(r, "exercise-text");
  }

  /** The counterexample: an attribute `exercise text short` is augmented twice. */
  lemma TextShortNotIdempotent(cls: string)
    requires cls == "exercise text short"
    ensures ExtraClasses(TextKind, ExtraClasses(TextKind, cls)) != ExtraClasses(TextKind, cls)
  {
    ExerciseTextShortWords();
    TextShortWordsNotIdempotent(cls);
  }

  /** Any attribute whose tokens are `exercise`, `text` and `short` is augmented twice. */
  lemma TextShortWordsNotIdempotent(cls: string)
    requires Split(cls) == ["exercise", "text", "short"]
    ensures ExtraClasses(TextKind, ExtraClasses(TextKind, cls)) != ExtraClasses(TextKind, cls)
  {
    TextShortWordList(Split(cls));
    TextClassNotIdempotent(cls);
  }

  lemma TextShortWordList(ws: seq<string>)
    requires ws == ["exercise", "text", "short"]
    ensures "short" in ws && "text" in ws && "long" !in ws
    ensures forall w :: w in ws ==> |w| < |"exercise-text"|
  {
    assert |"long"| != |"exercise"| && |"long"| != |"short"|;
    assert "long"[0] != "text"[0];
  }

  lemma ExerciseTextShortWords()
    ensures Split("exercise text short") == ["exercise", "text", "short"]
  {
    LiteralToken("exercise");
    LiteralToken("text");
    LiteralToken("short");
    ThreeWords("exercise", "text", "short");
    ExerciseTextShortSpelled();
  }

  lemma ExerciseTextShortSpelled()
    ensures "exercise text short" == "exercise" + [' '] + ("text" + [' '] + "short")
  {
  }

  /** Three tokens separated by single spaces are the words of the attribute. */
  lemma ThreeWords(a: string, b: string, c: string)
    requires IsToken(a) && IsToken(b) && IsToken(c)
    ensures Split(a + [' '] + (b + [' '] + c)) == [a, b, c]
  {
    var x := b + [' '] + c;
    TwoWords(b, c);
    TwoWords'(a, x, [b, c]);
  }

  lemma TwoWords(a: string, b: string)
    requires IsToken(a) && IsToken(b)
    ensures Split(a + [' '] + b) == [a, b]
  {
    SplitOfToken(b);
    TwoWords'(a, b, [b]);
  }

  lemma TwoWords'(a: string, x: string, ws: seq<string>)
    requires IsToken(a) && Split(x) == ws
    ensures Split(a + [' '] + x) == [a] + ws
  {
    SplitConcat(a, ' ', x);
    SplitOfToken(a);
  }

  /** Words shorter than `x` do not contain it. */
  lemma {:induction false} ShortWordsMissing(ws: seq<string>, x: string)
    requires forall w :: w in ws ==> |w| < |x|
    ensures !InSomeWord(ws, x)
    decreases |ws|
  {
    if ws != [] {
      assert ws[0] in ws;
      LongerNotContained(ws[0], x);
      ShortWordsMissing(ws[1..], x);
    }
  }

  lemma {:induction false} InSomeWordAppend(ws: seq<string>, w: string, x: string)
    ensures InSomeWord(ws + [w], x) <==> InSomeWord(ws, x) || Contains(w, x)
    decreases |ws|
  {
    if ws == [] {
      assert [] + [w] == [w];
      assert [w][1..] == [];
    } else {
      assert (ws + [w])[1..] == ws[1..] + [w];
      InSomeWordAppend(ws[1..], w, x);
    }
  }

  lemma ShortClassLacksTextClass()
    ensures !Contains("exercise-short", "exercise-text")
  {
    var s := "exercise-short";
    var x := "exercise-text";
    assert s[9] != x[9];
    assert !StartsWith(s, x);
    assert s[1] != x[0];
    assert !StartsWith(s[1..], x);
    LongerNotContained(s[2..], x);
    assert s[1..][1..] == s[2..];
  }

  /** Appending one of the added classes keeps `has_class` for a type token as it was,
      and the added class is then present. */
  lemma TypeTokenKept(cls: string, t: string, e: string)
    requires t == "short" || t == "long" || t == "text"
    requires e == "exercise-short" || e == "exercise-long" || e == "exercise-text"
    ensures HasClass(Appended(cls, e), [t]) <==> HasClass(cls, [t])
    ensures Contains(Appended(cls, e), e)
  {
    AddedClassesAreTokens();
    AppendedTokens(cls, e);
    HasOneClass(cls, t);
    HasOneClass(Appended(cls, e), t);
    assert t != e by {
      assert |t| < |e|;
    }
  }



  // ---------------------------------------------------------------------------------
  // TextExercise.create_exercise_form: the widget
  // ---------------------------------------------------------------------------------

  /** The input a text form offers. */
  datatype Widget = LineInput(placeholder: string) | TextArea(placeholder: string, rows: nat)

  const GenericPlaceholder := "Enter your answer..."
  const DetailedPlaceholder := "Enter your detailed answer..."

  /** The widget branch of `TextExercise.create_exercise_form` (extension.py:288-313). */
  function TextWidget(cls: string): Widget {
    if HasClass(cls, ["short"]) then LineInput(GenericPlaceholder)
    else if HasClass(cls, ["long"]) then TextArea(DetailedPlaceholder, 4)
    else if HasClass(cls, ["text"]) then TextArea(GenericPlaceholder, 4)
    else TextArea(GenericPlaceholder, 4)
  }

  /** A single-line input exactly for `short`; otherwise a four-row text area, with the
      detailed placeholder exactly for `long` without `short`. */
  lemma TextWidgetChoice(cls: string)
    ensures TextWidget(cls).LineInput? <==> "short" in Split(cls)
    ensures TextWidget(cls).TextArea? ==> TextWidget(cls).rows == 4
    ensures TextWidget(cls).placeholder == DetailedPlaceholder <==> "short" !in Split(cls) && "long" in Split(cls)
  {
    HasOneClass(cls, "short");
    HasOneClass(cls, "long");
  }
}
