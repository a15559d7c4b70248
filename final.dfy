/** FinalBoardParser: the final round is one category holding one clue.  Its
    category name, clue text and response each become the error placeholder
    and an error when missing; the image link is sanitised but the result is
    not part of the board. */
module Finals {
  import opened Base
  import opened Values
  import opened Diagnostics
  import opened Records
  import opened Clues
  import Response

  /** The `#final_jeopardy_round` container as the constructor queries it:
      the text of `.category_name`, the `.clue_text` element, and the text of
      `.correct_response`. */
  datatype FinalDiv = FinalDiv(categoryName: Option<string>, clueText: Option<ClueText>, responseText: Option<string>)

  /** The fields of a constructed FinalBoardParser. */
  datatype FinalRecord = FinalRecord(
    category: string,
    clue: string,
    answer: string,
    imageSrc: Option<string>,
    errors: seq<FieldError>)
  {
    /** The board jsonify builds; `imageSrc` is not copied into the clue. */
    function BoardOf(): Board
    {
      Board([category],
        [Category(category, "", [Clue(clue, answer, Num(0), Some(true), Some(true), None)])])
    }
  }

  /** A required text field of the final round: absent or "" is an error. */
  function FinalField(text: Option<string>, className: string): (string, seq<FieldError>)
  {
    if !Present(text) then (ERROR_PLACEHOLDER, [MissingInFinal(className)]) else (text.value, [])
  }

  /** The response is normalised; absent or "" is an error. */
  function FinalAnswer(text: Option<string>): (string, seq<FieldError>)
  {
    if !Present(text) then (ERROR_PLACEHOLDER, [MissingInFinal("correct_response")])
    else (Response.ParseCorrectResponse(text.value), [])
  }

  /** The FinalBoardParser built from the container; its errors are pushed in
      the order category name, clue text, image link, response. */
  function FinalSpec(div: FinalDiv): FinalRecord
  {
    var (category, categoryErrors) := FinalField(div.categoryName, "category_name");
    var (clue, clueErrors) := FinalField(TextOf(div.clueText), "clue_text");
    var (src, imageErrors) := ImageRule(div.clueText, FinalRound);
    var (answer, answerErrors) := FinalAnswer(div.responseText);
    FinalRecord(category, clue, answer, src, categoryErrors + clueErrors + imageErrors + answerErrors)
  }

  class FinalBoardParser {
    const category: string
    const clue: string
    const answer: string
    const imageSrc: Option<string>
    const errors: seq<FieldError>

    function Record(): FinalRecord
    {
      FinalRecord(category, clue, answer, imageSrc, errors)
    }

    constructor (div: FinalDiv)
      ensures Record() == FinalSpec(div)
    {
      var errs: seq<FieldError> := [];
      var categoryName := div.categoryName;
      var name: string;
      if !Present(categoryName) {
        errs := errs + [MissingInFinal("category_name")];
        name := ERROR_PLACEHOLDER;
      } else {
        name := categoryName.value;
      }
      var clueText := TextOf(div.clueText);
      var text: string;
      if !Present(clueText) {
        errs := errs + [MissingInFinal("clue_text")];
        text := ERROR_PLACEHOLDER;
      } else {
        text := clueText.value;
      }
      var src;
      src, errs := ReadImageLink(div.clueText, FinalRound, errs);
      var answerText := div.responseText;
      var response: string;
      if !Present(answerText) {
        errs := errs + [MissingInFinal("correct_response")];
        response := ERROR_PLACEHOLDER;
      } else {
        response := Response.ParseCorrectResponse(answerText.value);
      }
      category, clue, answer, imageSrc, errors := name, text, response, src, errs;
    }

    method Jsonify() returns (board: Board, error: Option<string>)
      ensures board == Record().BoardOf()
      ensures error == Report(Record().errors)
    {
      board := Board([category],
        [Category(category, "", [Clue(clue, answer, Num(0), Some(true), Some(true), None)])]);
      error := if |errors| > 0 then Some(Join(Messages(errors))) else None;
    }
  }

  /** The final board has one category name equal to its one category's name,
      note "", and one clue worth 0 that is wagerable, long-form and has no
      `imageSrc`, whatever the container holds. */
  lemma FinalShape(div: FinalDiv)
    ensures var b := FinalSpec(div).BoardOf();
            && |b.categoryNames| == 1 && |b.categories| == 1
            && b.categoryNames[0] == b.categories[0].name
            && b.categories[0].note == ""
            && |b.categories[0].clues| == 1
            && b.categories[0].clues[0].value == Num(0)
            && b.categories[0].clues[0].wagerable == Some(true)
            && b.categories[0].clues[0].longForm == Some(true)
            && b.categories[0].clues[0].imageSrc.None?
  {
  }

  /** Each of the three fields is the placeholder, with exactly one error
      naming its class, iff its text is absent or empty; otherwise it is the
      text (the response normalised). */
  lemma FinalFields(div: FinalDiv)
    ensures var r := FinalSpec(div);
            && (r.category == ERROR_PLACEHOLDER && MissingInFinal("category_name") in r.errors <==> !Present(div.categoryName))
            && (Present(div.categoryName) ==> r.category == div.categoryName.value)
            && (MissingInFinal("clue_text") in r.errors <==> !Present(TextOf(div.clueText)))
            && (!Present(TextOf(div.clueText)) ==> r.clue == ERROR_PLACEHOLDER)
            && (Present(TextOf(div.clueText)) ==> r.clue == TextOf(div.clueText).value)
            && (MissingInFinal("correct_response") in r.errors <==> !Present(div.responseText))
            && (!Present(div.responseText) ==> r.answer == ERROR_PLACEHOLDER)
            && (Present(div.responseText) ==> r.answer == Response.ParseCorrectResponse(div.responseText.value))
  {
    var r := FinalSpec(div);
    var (category, ce) := FinalField(div.categoryName, "category_name");
    var (clue, te) := FinalField(TextOf(div.clueText), "clue_text");
    var (src, ie) := ImageRule(div.clueText, FinalRound);
    var (answer, ae) := FinalAnswer(div.responseText);
    ImageErrorsAreImage(div.clueText);
    assert r.errors == ce + te + ie + ae;
    assert MissingInFinal("category_name") !in te + ie + ae;
    assert MissingInFinal("clue_text") !in ce + ie + ae;
    assert MissingInFinal("correct_response") !in ce + te + ie;
  }

  lemma ImageErrorsAreImage(el: Option<ClueText>)
    ensures forall e :: e in ImageRule(el, FinalRound).1 ==> e == BadImageUrl(FinalRound, e.reason)
  {
  }

  /** The image link is sanitised as in a standard round, and a rejected
      link records an error, but the board never carries an `imageSrc`: two
      containers differing only in their links give the same board. */
  lemma FinalImageNotEmitted(div: FinalDiv, link: Option<Url.Link>)
    requires div.clueText.Some?
    ensures var other := div.(clueText := Some(div.clueText.value.(firstLink := link)));
            FinalSpec(other).BoardOf() == FinalSpec(div).BoardOf()
  {
  }

  /** The final round has at most four errors, so its report is undefined iff
      every field was found and any link was accepted. */
  lemma FinalReport(div: FinalDiv)
    ensures |FinalSpec(div).errors| <= 4
    ensures Report(FinalSpec(div).errors).None? <==>
              Present(div.categoryName) && Present(TextOf(div.clueText)) && Present(div.responseText)
              && (div.clueText.Some? && div.clueText.value.firstLink.Some? ==>
                    Url.SanitizeURL(div.clueText.value.firstLink.value).error.None?)
  {
    ReportDefinedIffErrors(FinalSpec(div).errors);
  }
}
