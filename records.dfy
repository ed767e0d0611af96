/** The per-exercise answer record that the client keeps in storage, and the
    abstraction of the strings that hold it (src/static/quiz.js:661, 751-756, 834-835). */
module Records {
  import opened Strings

  /** The `selectedAnswer` field: absent (undefined), null, or a number. */
  datatype Selected = NoSelected | NullSelected | SelectedIndex(index: int)

  /** The `answerText` field: absent (undefined), null, or a string. */
  datatype AnswerText = NoText | NullText | TextValue(text: string)

  /** A parsed record. Only the truthiness of `submitted` is ever read, so an absent
      `submitted` is represented as false. */
  datatype StateRecord = StateRecord(
    submitted: bool,
    selectedAnswer: Selected,
    answerText: AnswerText,
    timestamp: Option<int>)

  /** The object literal `{}` that autosave starts from when nothing is stored. */
  const EmptyRecord := StateRecord(false, NoSelected, NoText, None)

  /** A string held in storage: either `JSON.stringify` of a record, or some other
      text, which `JSON.parse` rejects. */
  datatype Value = Json(rec: StateRecord) | Raw(text: string)

  /** `JSON.stringify(record)`. */
  function Stringify(r: StateRecord): (v: Value)
    ensures Truthy(v)
  {
    Json(r)
  }

  /** `JSON.parse(text)`; None stands for the SyntaxError it throws. */
  function Parse(v: Value): (r: Option<StateRecord>)
    ensures r.Some? <==> v.Json?
    ensures forall rec :: v == Stringify(rec) ==> r == Some(rec)
  {
    match v
    case Json(rec) => Some(rec)
    case Raw(_) => None
  }

  /** JavaScript truthiness of a string: only the empty string is falsy. The text of
      a JSON object is never empty. */
  predicate Truthy(v: Value) {
    v.Json? || v.text != ""
  }

  /** What assigning the field to an input's `value` leaves there: the setters of
      input and textarea values turn null into the empty string. */
  function AssignedText(t: AnswerText): string
    requires t != NoText
  {
    match t
    case NullText => ""
    case TextValue(s) => s
  }
}
