/** ClueParser: one `.clue` cell of a standard round becomes a clue record
    and zero or more field errors.  The decision tables for clue text, image
    link, value and response are functions; the class builds its fields step
    by step as the source's constructor does, and its constructor is proved
    to produce the record those tables define. */
module Clues {
  import opened Base
  import opened Values
  import opened Diagnostics
  import opened Records
  import opened Url
  import Response

  /** A `.clue_text` element: its text content and its first `<a>`, if any. */
  datatype ClueText = ClueText(text: string, firstLink: Option<Link>)

  /** A `.clue` cell as the constructor queries it: the `.clue_text` element,
      and the text contents of `.clue_value`, `.clue_value_daily_double` and
      `.correct_response` — each None when the element is absent. */
  datatype ClueCell = ClueCell(
    clueText: Option<ClueText>,
    valueText: Option<string>,
    dailyDoubleText: Option<string>,
    responseText: Option<string>)

  /** `clueTextElement?.textContent` */
  function TextOf(el: Option<ClueText>): Option<string>
  {
    if el.Some? then Some(el.value.text) else None
  }

  /** The two placeholders that mark a field as not played or not recorded. */
  predicate IsBlank(s: string)
  {
    s == MISSING_PLACEHOLDER || s == UNREVEALED_PLACEHOLDER
  }

  /** The fields of a constructed ClueParser. */
  datatype ClueRecord = ClueRecord(
    clue: string,
    answer: string,
    value: Number,
    wagerable: Option<bool>,
    imageSrc: Option<string>,
    errors: seq<FieldError>)
  {
    /** isEmpty: both the clue and the answer are missing or unrevealed. */
    predicate IsEmpty()
    {
      IsBlank(clue) && IsBlank(answer)
    }

    /** The clue jsonify emits; a standard clue is never long-form. */
    function ToClue(): Clue
    {
      Clue(clue, answer, value, wagerable, None, imageSrc)
    }

    /** jsonify: the clue and the report of its errors. */
    function Jsonify(): (Clue, Option<string>)
    {
      (ToClue(), Report(errors))
    }
  }

  /** jsonify copies every field but the errors into the clue, and reports
      an error iff the parser recorded one, each error on its own line. */
  lemma ClueJsonify(r: ClueRecord)
    ensures var (clue, error) := r.Jsonify();
            && clue.clue == r.clue && clue.answer == r.answer && clue.value == r.value
            && clue.wagerable == r.wagerable && clue.imageSrc == r.imageSrc && clue.longForm.None?
            && (error.None? <==> r.errors == [])
            && (error.Some? ==> Present(error) && error.value == Join(Messages(r.errors)))
  {
    ReportDefinedIffErrors(r.errors);
  }

  // ---------------------------------------------------------------------
  // Decision tables

  /** The clue text, and whether the clue counts as unrevealed. */
  function ClueTextRule(el: Option<ClueText>): (string, bool)
  {
    var text := TextOf(el);
    if !Present(text) then (UNREVEALED_PLACEHOLDER, true)
    else if text.value == MISSING_CLUE_FLAG then (MISSING_PLACEHOLDER, false)
    else (text.value, false)
  }

  /** A link is sanitised only if there is one; a rejected link leaves
      `imageSrc` as "" and records one error. */
  function ImageRule(el: Option<ClueText>, place: Place): (Option<string>, seq<FieldError>)
  {
    if el.None? || el.value.firstLink.None? then (None, [])
    else
      var s := SanitizeURL(el.value.firstLink.value);
      (Some(s.url), if Present(s.error) then [BadImageUrl(place, s.error.value)] else [])
  }

  /** `clueValueText.slice(startIdx)`: a leading `$` is dropped. */
  function DigitsOf(valueText: string): string
  {
    if StartsWith(valueText, "$") then valueText[1..] else valueText
  }

  /** Printed value first, then daily double, then the unrevealed default. */
  function ValueRule(cell: ClueCell, i: nat, j: nat, round: nat, m: Multiplier): (Number, Option<bool>, seq<FieldError>)
  {
    if Present(cell.valueText) then
      var v := ParseInt(DigitsOf(cell.valueText.value));
      (v, None, if v.NaN? then [BadValue(round, i, j, cell.valueText.value)] else [])
    else if Present(cell.dailyDoubleText) then
      (Num(ExpectedClueValue(i, round, m)), Some(true),
       if StartsWith(cell.dailyDoubleText.value, "DD: ") then [] else [BadDailyDouble(round, i, j)])
    else
      (Num(ExpectedClueValue(i, round, m)), None, [])
  }

  /** The answer of a revealed clue comes from `.correct_response`. */
  function AnswerRule(unrevealed: bool, response: Option<string>, round: nat, i: nat, j: nat): (string, seq<FieldError>)
  {
    if unrevealed then (UNREVEALED_PLACEHOLDER, [])
    else if response == Some(MISSING_CLUE_FLAG) then (MISSING_PLACEHOLDER, [])
    else if !Present(response) then (ERROR_PLACEHOLDER, [MissingResponse(round, i, j)])
    else (Response.ParseCorrectResponse(response.value), [])
  }

  /** The ClueParser built from a cell at row `i`, column `j`; its errors are
      pushed in the order image, value, answer. */
  function ClueSpec(cell: ClueCell, i: nat, j: nat, round: nat, m: Multiplier): ClueRecord
  {
    var (text, unrevealed) := ClueTextRule(cell.clueText);
    var (src, imageErrors) := ImageRule(cell.clueText, Cell(round, i, j));
    var (value, wagerable, valueErrors) := ValueRule(cell, i, j, round, m);
    var (answer, answerErrors) := AnswerRule(unrevealed, cell.responseText, round, i, j);
    ClueRecord(text, answer, value, wagerable, src, imageErrors + valueErrors + answerErrors)
  }

  // ---------------------------------------------------------------------

  // The steps of the constructor.  Each threads the error list through and
  // pushes what its table says.

  method ReadClueText(el: Option<ClueText>) returns (text: string, unrevealed: bool)
    ensures (text, unrevealed) == ClueTextRule(el)
  {
    unrevealed := false;
    var clueText := TextOf(el);
    if !Present(clueText) {
      unrevealed := true;
      text := UNREVEALED_PLACEHOLDER;
    } else if clueText.value == MISSING_CLUE_FLAG {
      text := MISSING_PLACEHOLDER;
    } else {
      text := clueText.value;
    }
  }

  method ReadImageLink(el: Option<ClueText>, place: Place, errors: seq<FieldError>)
    returns (src: Option<string>, errors': seq<FieldError>)
    ensures src == ImageRule(el, place).0
    ensures errors' == errors + ImageRule(el, place).1
  {
    src, errors' := None, errors;
    if el.Some? && el.value.firstLink.Some? {
      var sanitized := SanitizeURL(el.value.firstLink.value);
      src := Some(sanitized.url);
      if Present(sanitized.error) {
        errors' := errors' + [BadImageUrl(place, sanitized.error.value)];
      }
    }
  }

  method ReadValue(cell: ClueCell, i: nat, j: nat, round: nat, multiplier: Multiplier, errors: seq<FieldError>)
    returns (value: Number, wagerable: Option<bool>, errors': seq<FieldError>)
    ensures (value, wagerable) == (ValueRule(cell, i, j, round, multiplier).0, ValueRule(cell, i, j, round, multiplier).1)
    ensures errors' == errors + ValueRule(cell, i, j, round, multiplier).2
  {
    wagerable, errors' := None, errors;
    if Present(cell.valueText) {
      var valueText := cell.valueText.value;
      var startIdx := if StartsWith(valueText, "$") then 1 else 0;
      value := ParseInt(valueText[startIdx..]);
      if value.NaN? {
        errors' := errors' + [BadValue(round, i, j, valueText)];
      }
    } else if Present(cell.dailyDoubleText) {
      if !StartsWith(cell.dailyDoubleText.value, "DD: ") {
        errors' := errors' + [BadDailyDouble(round, i, j)];
      }
      value := Num(ExpectedClueValue(i, round, multiplier));
      wagerable := Some(true);
    } else {
      value := Num(ExpectedClueValue(i, round, multiplier));
    }
  }

  method ReadAnswer(unrevealed: bool, response: Option<string>, round: nat, i: nat, j: nat, errors: seq<FieldError>)
    returns (answer: string, errors': seq<FieldError>)
    ensures answer == AnswerRule(unrevealed, response, round, i, j).0
    ensures errors' == errors + AnswerRule(unrevealed, response, round, i, j).1
  {
    errors' := errors;
    if unrevealed {
      answer := UNREVEALED_PLACEHOLDER;
    } else if response == Some(MISSING_CLUE_FLAG) {
      answer := MISSING_PLACEHOLDER;
    } else if !Present(response) {
      errors' := errors' + [MissingResponse(round, i, j)];
      answer := ERROR_PLACEHOLDER;
    } else {
      answer := Response.ParseCorrectResponse(response.value);
    }
  }

  class ClueParser {
    const clue: string
    const value: Number
    const answer: string
    const wagerable: Option<bool>
    const imageSrc: Option<string>
    const errors: seq<FieldError>

    function Record(): ClueRecord
    {
      ClueRecord(clue, answer, value, wagerable, imageSrc, errors)
    }

    constructor (cell: ClueCell, i: nat, j: nat, round: nat, multiplier: Multiplier)
      ensures Record() == ClueSpec(cell, i, j, round, multiplier)
    {
      var errs: seq<FieldError> := [];
      var text, unrevealed := ReadClueText(cell.clueText);
      var src;
      src, errs := ReadImageLink(cell.clueText, Cell(round, i, j), errs);
      var v, wager;
      v, wager, errs := ReadValue(cell, i, j, round, multiplier, errs);
      var ans;
      ans, errs := ReadAnswer(unrevealed, cell.responseText, round, i, j, errs);
      clue, value, answer, wagerable, imageSrc, errors := text, v, ans, wager, src, errs;
    }
  }

  // ---------------------------------------------------------------------
  // Properties of a parsed clue

  /** Clue text: absent or "" is unrevealed, "=" is missing, anything else is
      kept verbatim. */
  lemma ClueTextCases(cell: ClueCell, i: nat, j: nat, round: nat, m: Multiplier)
    ensures var r := ClueSpec(cell, i, j, round, m);
            && (!Present(TextOf(cell.clueText)) ==> r.clue == UNREVEALED_PLACEHOLDER && r.answer == UNREVEALED_PLACEHOLDER)
            && (TextOf(cell.clueText) == Some(MISSING_CLUE_FLAG) ==> r.clue == MISSING_PLACEHOLDER)
            && (Present(TextOf(cell.clueText)) && TextOf(cell.clueText).value != MISSING_CLUE_FLAG ==>
                  r.clue == TextOf(cell.clueText).value)
  {
  }

  /** An unrevealed clue is empty and has no response error, whatever its
      `.correct_response` holds. */
  lemma UnrevealedClueIsEmpty(cell: ClueCell, i: nat, j: nat, round: nat, m: Multiplier)
    requires !Present(TextOf(cell.clueText))
    ensures ClueSpec(cell, i, j, round, m).IsEmpty()
    ensures MissingResponse(round, i, j) !in ClueSpec(cell, i, j, round, m).errors
  {
    ErrorKinds(cell, i, j, round, m);
  }

  /** Image errors are all BadImageUrl, value errors BadValue or BadDailyDouble. */
  lemma ErrorKinds(cell: ClueCell, i: nat, j: nat, round: nat, m: Multiplier)
    ensures forall e :: e in ImageRule(cell.clueText, Cell(round, i, j)).1 ==> e.BadImageUrl?
    ensures forall e :: e in ValueRule(cell, i, j, round, m).2 ==> e.BadValue? || e.BadDailyDouble?
  {
  }

  /** The response rules of a clue that is not unrevealed: "=" is missing, an
      absent or empty response is exactly one error, anything else is
      normalised.  The clue flag "=" does not make a clue unrevealed. */
  lemma AnswerCases(cell: ClueCell, i: nat, j: nat, round: nat, m: Multiplier)
    requires Present(TextOf(cell.clueText))
    ensures var r := ClueSpec(cell, i, j, round, m);
            && (cell.responseText == Some(MISSING_CLUE_FLAG) ==>
                  r.answer == MISSING_PLACEHOLDER && MissingResponse(round, i, j) !in r.errors)
            && (!Present(cell.responseText) ==>
                  r.answer == ERROR_PLACEHOLDER && multiset(r.errors)[MissingResponse(round, i, j)] == 1)
            && (Present(cell.responseText) && cell.responseText.value != MISSING_CLUE_FLAG ==>
                  r.answer == Response.ParseCorrectResponse(cell.responseText.value)
                  && MissingResponse(round, i, j) !in r.errors)
  {
    var r := ClueSpec(cell, i, j, round, m);
    var imageErrors := ImageRule(cell.clueText, Cell(round, i, j)).1;
    var valueErrors := ValueRule(cell, i, j, round, m).2;
    var answerErrors := AnswerRule(false, cell.responseText, round, i, j).1;
    ErrorKinds(cell, i, j, round, m);
    assert r.errors == imageErrors + valueErrors + answerErrors;
    assert MissingResponse(round, i, j) !in imageErrors + valueErrors;
    assert multiset(imageErrors + valueErrors)[MissingResponse(round, i, j)] == 0;
  }

  /** Value priority: a printed value wins over a daily double (a leading `$`
      is optional, NaN records exactly one error); then daily-double text gives the
      expected value and `wagerable`, with an error but the same value when
      the `DD: ` prefix is missing; then the expected value alone. */
  lemma ValueCases(cell: ClueCell, i: nat, j: nat, round: nat, m: Multiplier)
    ensures var r := ClueSpec(cell, i, j, round, m);
            var expected := Num(ExpectedClueValue(i, round, m));
            && (Present(cell.valueText) ==>
                  && r.value == ParseInt(DigitsOf(cell.valueText.value))
                  && r.wagerable.None?
                  && multiset(r.errors)[BadValue(round, i, j, cell.valueText.value)] == (if r.value.NaN? then 1 else 0))
            && (!Present(cell.valueText) && Present(cell.dailyDoubleText) ==>
                  && r.value == expected && r.wagerable == Some(true)
                  && multiset(r.errors)[BadDailyDouble(round, i, j)] ==
                       (if StartsWith(cell.dailyDoubleText.value, "DD: ") then 0 else 1))
            && (!Present(cell.valueText) && !Present(cell.dailyDoubleText) ==>
                  r.value == expected && r.wagerable.None?)
  {
    var r := ClueSpec(cell, i, j, round, m);
    ErrorKinds(cell, i, j, round, m);
    var imageErrors := ImageRule(cell.clueText, Cell(round, i, j)).1;
    var answerErrors := AnswerRule(ClueTextRule(cell.clueText).1, cell.responseText, round, i, j).1;
    var valueErrors := ValueRule(cell, i, j, round, m).2;
    assert forall e :: e in answerErrors ==> e.MissingResponse?;
    assert r.errors == imageErrors + valueErrors + answerErrors;
    assert multiset(r.errors) == multiset(imageErrors) + multiset(valueErrors) + multiset(answerErrors);
    if Present(cell.valueText) {
      var bad := BadValue(round, i, j, cell.valueText.value);
      assert bad !in imageErrors && bad !in answerErrors;
      assert multiset(r.errors)[bad] == multiset(valueErrors)[bad];
    } else if Present(cell.dailyDoubleText) {
      var bad := BadDailyDouble(round, i, j);
      assert bad !in imageErrors && bad !in answerErrors;
      assert multiset(r.errors)[bad] == multiset(valueErrors)[bad];
    }
  }

  /** "$400" is the value 400. */
  lemma DollarValueExample(cell: ClueCell, i: nat, j: nat, round: nat, m: Multiplier)
    requires cell.valueText == Some("$400")
    ensures ClueSpec(cell, i, j, round, m).value == Num(400)
    ensures ClueSpec(cell, i, j, round, m).wagerable.None?
  {
    DollarDigits();
    assert ValueRule(cell, i, j, round, m) == (Num(400), None, []);
  }

  lemma DollarDigits()
    ensures ParseInt(DigitsOf("$400")) == Num(400)
  {
    assert DigitsOf("$400") == "400";
    ParseIntDigits("400");
    FourHundred();
  }

  lemma FourHundred()
    ensures DigitsValue("400", 10) == 400
  {
    assert "400"[..2] == "40" && "40"[..1] == "4" && "4"[..0] == [];
  }

  /** The image link: none gives no `imageSrc` and no error; otherwise it is
      accepted iff its protocol is http: or https:, and a rejected link gives
      `imageSrc == ""` and exactly one error. */
  lemma ImageCases(cell: ClueCell, i: nat, j: nat, round: nat, m: Multiplier)
    ensures var r := ClueSpec(cell, i, j, round, m);
            && (cell.clueText.None? || cell.clueText.value.firstLink.None? ==>
                  r.imageSrc.None? && forall e :: e in r.errors ==> !e.BadImageUrl?)
            && (cell.clueText.Some? && cell.clueText.value.firstLink.Some? ==>
                  var link := cell.clueText.value.firstLink.value;
                  if link.parsed.Some? && AllowedProtocol(link.parsed.value.protocol) then
                    r.imageSrc == Some(link.parsed.value.serialized) && forall e :: e in r.errors ==> !e.BadImageUrl?
                  else
                    r.imageSrc == Some("") && |r.errors| > 0 && r.errors[0].BadImageUrl?
                    && forall k :: 0 < k < |r.errors| ==> !r.errors[k].BadImageUrl?)
  {
    var r := ClueSpec(cell, i, j, round, m);
    var answerErrors := AnswerRule(ClueTextRule(cell.clueText).1, cell.responseText, round, i, j).1;
    ErrorKinds(cell, i, j, round, m);
    assert forall e :: e in answerErrors ==> e.MissingResponse?;
    var rest := ValueRule(cell, i, j, round, m).2 + answerErrors;
    assert forall e :: e in rest ==> !e.BadImageUrl?;
    assert r.errors == ImageRule(cell.clueText, Cell(round, i, j)).1 + rest;
  }

  /** Which cells give an empty clue: every cell without clue text, and a
      cell with clue text exactly when that text is "=" or a placeholder and
      the response is "=" or normalises to a placeholder; so a clue
      recorded as "=" with response "=" is one. */
  lemma EmptyCases(cell: ClueCell, i: nat, j: nat, round: nat, m: Multiplier)
    ensures !Present(TextOf(cell.clueText)) ==> ClueSpec(cell, i, j, round, m).IsEmpty()
    ensures var t, resp := TextOf(cell.clueText), cell.responseText;
            Present(t) ==>
              (ClueSpec(cell, i, j, round, m).IsEmpty() <==>
                 (t.value == MISSING_CLUE_FLAG || IsBlank(t.value))
                 && (resp == Some(MISSING_CLUE_FLAG)
                     || (Present(resp) && IsBlank(Response.ParseCorrectResponse(resp.value)))))
    ensures TextOf(cell.clueText) == Some(MISSING_CLUE_FLAG) && cell.responseText == Some(MISSING_CLUE_FLAG) ==>
              ClueSpec(cell, i, j, round, m).IsEmpty()
  {
  }

  /** A clue recorded as "=" whose response is absent is NOT empty: it is not
      unrevealed, so the missing response is an error. */
  lemma MissingClueWithoutResponse(cell: ClueCell, i: nat, j: nat, round: nat, m: Multiplier)
    requires TextOf(cell.clueText) == Some(MISSING_CLUE_FLAG) && cell.responseText.None?
    ensures ClueSpec(cell, i, j, round, m).clue == MISSING_PLACEHOLDER
    ensures ClueSpec(cell, i, j, round, m).answer == ERROR_PLACEHOLDER
    ensures !ClueSpec(cell, i, j, round, m).IsEmpty()
  {
  }
}
