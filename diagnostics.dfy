/** Field-level diagnostics.  Every parser collects these instead of throwing;
    its `jsonify` turns the list into one "\n"-joined report, or leaves the
    report undefined when there is nothing to say. */
module Diagnostics {
  import opened Base

  /** Where an image link was found. */
  datatype Place = FinalRound | Cell(round: nat, i: nat, j: nat)

  datatype FieldError =
    | MissingGameTitle
    | MissingInFinal(className: string)
    | MissingCategoryName(category: nat, round: nat)
    | MissingResponse(round: nat, i: nat, j: nat)
    | BadImageUrl(place: Place, reason: string)
    | BadValue(round: nat, i: nat, j: nat, text: string)
    | BadDailyDouble(round: nat, i: nat, j: nat)

  // The fixed parts of the messages, kept as named constants.
  const ROUND: string := "round "
  const CLUE: string := ", clue ("
  const NO_TITLE: string := "could not find id game_title on page"
  const NO_CLASS: string := "could not find class "
  const IN_FINAL: string := " in final round"
  const NO_CATEGORY_NAME: string := "could not find class category_name in category "
  const NO_RESPONSE: string := "could not find class correct_response in "
  const BAD_IMAGE: string := "could not parse image URL in "
  const BAD_VALUE: string := "could not parse value of "
  const BAD_DD: string := "DD value of "
  const NO_DD_PREFIX: string := " does not start with 'DD: '"
  const FINAL_ROUND: string := "final round: "
  const ROUND_SEP: string := " round "

  /** "round R, clue (I, J)" */
  function CluePosition(round: nat, i: nat, j: nat): string
  {
    ROUND + NatToString(round) + CLUE + NatToString(i) + ", " + NatToString(j) + ")"
  }

  /** The message the source pushes for each kind of error. */
  function Describe(e: FieldError): (msg: string)
    ensures msg != ""
  {
    match e
    case MissingGameTitle => NO_TITLE
    case MissingInFinal(cls) => NO_CLASS + cls + IN_FINAL
    case MissingCategoryName(c, round) => NO_CATEGORY_NAME + NatToString(c) + ROUND_SEP + NatToString(round)
    case MissingResponse(round, i, j) => NO_RESPONSE + CluePosition(round, i, j)
    case BadImageUrl(FinalRound, reason) => BAD_IMAGE + FINAL_ROUND + reason
    case BadImageUrl(Cell(round, i, j), reason) => BAD_IMAGE + CluePosition(round, i, j) + ": " + reason
    case BadValue(round, i, j, text) => BAD_VALUE + CluePosition(round, i, j) + ": " + text
    case BadDailyDouble(round, i, j) => BAD_DD + CluePosition(round, i, j) + NO_DD_PREFIX
  }

  /** The message of each error, in order. */
  function Messages(es: seq<FieldError>): (ms: seq<string>)
    ensures |ms| == |es|
  {
    if es == [] then [] else Messages(es[..|es| - 1]) + [Describe(es[|es| - 1])]
  }

  lemma {:induction false} MessagesAt(es: seq<FieldError>, k: nat)
    requires k < |es|
    ensures Messages(es)[k] == Describe(es[k])
  {
    if k < |es| - 1 {
      MessagesAt(es[..|es| - 1], k);
    }
  }

  lemma {:induction false} MessagesAppend(a: seq<FieldError>, b: seq<FieldError>)
    ensures Messages(a + b) == Messages(a) + Messages(b)
    decreases |b|
  {
    if b != [] {
      var b' := b[..|b| - 1];
      assert (a + b)[..|a + b| - 1] == a + b';
      assert (a + b)[|a + b| - 1] == b[|b| - 1];
      MessagesAppend(a, b');
      calc {
        Messages(a + b);
        Messages(a + b') + [Describe(b[|b| - 1])];
        Messages(a) + Messages(b') + [Describe(b[|b| - 1])];
        Messages(a) + (Messages(b') + [Describe(b[|b| - 1])]);
        Messages(a) + Messages(b);
      }
    } else {
      assert a + b == a;
    }
  }

  /** `errors.length ? errors.join("\n") : undefined` */
  function Report(es: seq<FieldError>): Option<string>
  {
    if |es| == 0 then None else Some(Join(Messages(es)))
  }

  /** The report is defined exactly when there is an error, and then it is a
      non-empty string, so a caller's `if (error)` sees it. */
  lemma ReportDefinedIffErrors(es: seq<FieldError>)
    ensures Report(es).None? <==> es == []
    ensures Report(es).Some? ==> Present(Report(es))
  {
    if es != [] {
      forall k | 0 <= k < |es|
        ensures Messages(es)[k] != ""
      {
        MessagesAt(es, k);
      }
      JoinNonEmpty(Messages(es));
    }
  }

  /** Pushing the report of `b` after the lines of `a` and joining again gives
      the report of `a + b`: nested joins flatten. */
  lemma ReportAppend(a: seq<FieldError>, b: seq<FieldError>)
    requires a != [] && b != []
    ensures Report(a + b) == Some(Report(a).value + "\n" + Report(b).value)
  {
    MessagesAppend(a, b);
    JoinAppend(Messages(a), Messages(b));
  }

  /** Collecting reports: `acc` holds the lines pushed so far and `flat` the
      field errors they stand for; joining `acc` gives the report of `flat`. */
  ghost predicate Tracks(acc: seq<string>, flat: seq<FieldError>)
  {
    (|acc| == 0 <==> flat == []) && (flat != [] ==> Join(acc) == Join(Messages(flat)))
  }

  /** `if (error) errors.push(error)` */
  function PushIfPresent(acc: seq<string>, error: Option<string>): seq<string>
  {
    if Present(error) then acc + [error.value] else acc
  }

  lemma TracksMessages(es: seq<FieldError>)
    ensures Tracks(Messages(es), es)
  {
  }

  /** Pushing the report of `more`, when it is truthy, keeps the lines in
      step with the field errors. */
  lemma TracksPush(acc: seq<string>, flat: seq<FieldError>, more: seq<FieldError>)
    requires Tracks(acc, flat)
    ensures Tracks(PushIfPresent(acc, Report(more)), flat + more)
  {
    ReportDefinedIffErrors(more);
    if more == [] {
      assert flat + more == flat;
    } else if flat == [] {
      assert acc + [Report(more).value] == [Report(more).value];
      assert flat + more == more;
    } else {
      JoinAppend(acc, [Report(more).value]);
      ReportAppend(flat, more);
    }
  }

  /** `errors.length > 0 ? errors.join("\n") : undefined` is the report. */
  lemma TracksReport(acc: seq<string>, flat: seq<FieldError>)
    requires Tracks(acc, flat)
    ensures (if |acc| > 0 then Some(Join(acc)) else None) == Report(flat)
  {
  }
}
