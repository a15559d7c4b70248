/** GameParser and parseGame: the page's title, note and up to three round
    containers become a game record and one "\n"-joined report.  Two things
    abort the whole parse with an exception: a title the multiplier cannot
    read, and a standard round with too few categories for the deal. */
module Games {
  import opened Base
  import opened Values
  import opened Diagnostics
  import opened Records
  import opened Boards
  import opened Finals

  /** The page as the constructor queries it: the text of `#game_title` and
      `#game_comments`, and the three round containers. */
  datatype Page = Page(
    title: Option<string>,
    comments: Option<string>,
    jeopardy: Option<RoundDiv>,
    doubleJeopardy: Option<RoundDiv>,
    finalJeopardy: Option<FinalDiv>)

  /** Why the constructor throws. */
  datatype Fatal =
    | UnparseableTitle(title: string)   // "could not parse title " + title
    | TooFewCategories(round: nat)      // categories[col] is undefined in the deal

  /** What parseGame does: it throws, or returns the game and its report. */
  datatype Outcome = Threw(fatal: Fatal) | Returned(game: Game, error: Option<string>)

  /** The title, or the placeholder when absent or empty. */
  function TitleOf(page: Page): string
  {
    if !Present(page.title) then ERROR_PLACEHOLDER else page.title.value
  }

  /** The errors the game itself records (before any round). */
  function RootErrors(page: Page): seq<FieldError>
  {
    if !Present(page.title) then [MissingGameTitle] else []
  }

  /** `note ?? ""` */
  function NoteOf(page: Page): string
  {
    if page.comments.Some? then page.comments.value else ""
  }

  /** Whether a standard round container would crash the deal. */
  predicate Crashes(div: Option<RoundDiv>)
  {
    div.Some? && !EnoughCategories(div.value)
  }

  /** The exception the constructor throws, in the order its steps run:
      the multiplier first, then the Jeopardy! deal, then the Double Jeopardy!
      deal.  The final round never throws. */
  function FatalOf(page: Page, parseDate: string -> Option<Date>): Option<Fatal>
  {
    if ClueValueMultiplier(TitleOf(page), parseDate).None? then Some(UnparseableTitle(TitleOf(page)))
    else if Crashes(page.jeopardy) then Some(TooFewCategories(0))
    else if Crashes(page.doubleJeopardy) then Some(TooFewCategories(1))
    else None
  }

  /** The state of a constructed GameParser. */
  datatype GameRecord = GameRecord(
    title: string,
    note: string,
    j: Option<RoundRecord>,
    dj: Option<RoundRecord>,
    fj: Option<FinalRecord>,
    errors: seq<FieldError>)
  {
    /** `this.j && !this.j.isEmpty()` */
    predicate HasJ() { j.Some? && !j.value.IsEmpty() }
    predicate HasDJ() { dj.Some? && !dj.value.IsEmpty() }

    /** The boards jsonify pushes, in order. */
    function Boards(): seq<Board>
    {
      (if HasJ() then [j.value.BoardOf()] else [])
      + (if HasDJ() then [dj.value.BoardOf()] else [])
      + (if fj.Some? then [fj.value.BoardOf()] else [])
    }

    function GameOf(): Game
    {
      Game(title, AUTHOR, COPYRIGHT, note, Boards())
    }

    /** The errors of each board jsonify pushes, or none for a board it
        skips. */
    function JErrors(): seq<FieldError> { if HasJ() then j.value.AllErrors() else [] }
    function DJErrors(): seq<FieldError> { if HasDJ() then dj.value.AllErrors() else [] }
    function FJErrors(): seq<FieldError> { if fj.Some? then fj.value.errors else [] }

    /** Every error the report joins: the game's own, then those of each
        board that is pushed. */
    function AllErrors(): seq<FieldError>
    {
      errors + JErrors() + DJErrors() + FJErrors()
    }
  }

  /** The GameParser built from a page that does not throw. */
  function GameSpec(page: Page, parseDate: string -> Option<Date>): GameRecord
    requires FatalOf(page, parseDate).None?
  {
    var m := ClueValueMultiplier(TitleOf(page), parseDate).value;
    GameRecord(
      TitleOf(page),
      NoteOf(page),
      if page.jeopardy.Some? then Some(RoundSpec(0, page.jeopardy.value, m)) else None,
      if page.doubleJeopardy.Some? then Some(RoundSpec(1, page.doubleJeopardy.value, m)) else None,
      if page.finalJeopardy.Some? then Some(FinalSpec(page.finalJeopardy.value)) else None,
      RootErrors(page))
  }

  /** parseGame as a whole. */
  function GameOutcome(page: Page, parseDate: string -> Option<Date>): Outcome
  {
    match FatalOf(page, parseDate)
    case Some(fatal) => Threw(fatal)
    case None =>
      var rec := GameSpec(page, parseDate);
      Returned(rec.GameOf(), Report(rec.AllErrors()))
  }

  class GameParser {
    const title: string
    const note: string
    const j: Option<BoardParser>
    const dj: Option<BoardParser>
    const fj: Option<FinalBoardParser>
    const errors: seq<FieldError>

    function Record(): GameRecord
    {
      GameRecord(
        title,
        note,
        if j.Some? then Some(j.value.Record()) else None,
        if dj.Some? then Some(dj.value.Record()) else None,
        if fj.Some? then Some(fj.value.Record()) else None,
        errors)
    }

    /** The constructor runs only when it does not throw (see ParseGame). */
    constructor (page: Page, parseDate: string -> Option<Date>)
      requires FatalOf(page, parseDate).None?
      ensures Record() == GameSpec(page, parseDate)
    {
      var errs: seq<FieldError> := [];
      var gameTitle := page.title;
      var t: string;
      if !Present(gameTitle) {
        errs := errs + [MissingGameTitle];
        t := ERROR_PLACEHOLDER;
      } else {
        t := gameTitle.value;
      }
      var multiplier := ClueValueMultiplier(t, parseDate).value;
      var n := if page.comments.Some? then page.comments.value else "";
      var jParser: Option<BoardParser> := None;
      if page.jeopardy.Some? {
        var p := new BoardParser(0, page.jeopardy.value, multiplier);
        jParser := Some(p);
      }
      var djParser: Option<BoardParser> := None;
      if page.doubleJeopardy.Some? {
        var p := new BoardParser(1, page.doubleJeopardy.value, multiplier);
        djParser := Some(p);
      }
      var fjParser: Option<FinalBoardParser> := None;
      if page.finalJeopardy.Some? {
        var p := new FinalBoardParser(page.finalJeopardy.value);
        fjParser := Some(p);
      }
      title, note, j, dj, fj, errors := t, n, jParser, djParser, fjParser, errs;
    }

    method Jsonify() returns (game: Game, error: Option<string>)
      ensures game == Record().GameOf()
      ensures error == Report(Record().AllErrors())
    {
      var boards: seq<Board>, errs;
      boards, errs := JsonifyRound(j, [], Messages(errors));
      boards, errs := JsonifyRound(dj, boards, errs);
      boards, errs := JsonifyFinal(fj, boards, errs);
      RecordParts();
      GameLinesReport(Record());
      error := if |errs| > 0 then Some(Join(errs)) else None;
      game := Game(title, AUTHOR, COPYRIGHT, note, boards);
    }

    /** The record's boards and errors are those of the parsers. */
    lemma RecordParts()
      ensures Record().Boards() == RoundBoard(j) + RoundBoard(dj) + FinalBoard(fj)
      ensures Record().errors == errors
      ensures Record().JErrors() == RoundErrors(j)
      ensures Record().DJErrors() == RoundErrors(dj)
      ensures Record().FJErrors() == FinalErrors(fj)
    {
    }
  }

  /** What jsonify pushes for a standard round: nothing when the round is
      absent or empty. */
  function RoundBoard(p: Option<BoardParser>): seq<Board>
  {
    if p.Some? && !p.value.IsEmpty() then [p.value.Record().BoardOf()] else []
  }

  function RoundErrors(p: Option<BoardParser>): seq<FieldError>
  {
    if p.Some? && !p.value.IsEmpty() then p.value.Record().AllErrors() else []
  }

  /** What jsonify pushes for the final round: nothing when it is absent. */
  function FinalBoard(p: Option<FinalBoardParser>): seq<Board>
  {
    if p.Some? then [p.value.Record().BoardOf()] else []
  }

  function FinalErrors(p: Option<FinalBoardParser>): seq<FieldError>
  {
    if p.Some? then p.value.Record().errors else []
  }

  /** A standard round in jsonify: its board and its truthy report are pushed
      when the round is there and not empty. */
  method JsonifyRound(p: Option<BoardParser>, boards: seq<Board>, errs: seq<string>)
    returns (boards': seq<Board>, errs': seq<string>)
    ensures boards' == boards + RoundBoard(p)
    ensures errs' == PushIfPresent(errs, Report(RoundErrors(p)))
  {
    boards', errs' := boards, errs;
    if p.Some? && !p.value.IsEmpty() {
      var board, error := p.value.Jsonify();
      boards' := boards + [board];
      errs' := PushIfPresent(errs, error);
    } else {
      assert boards + [] == boards;
    }
  }

  /** The final round in jsonify: its board and its truthy report are
      pushed when the round is there. */
  method JsonifyFinal(p: Option<FinalBoardParser>, boards: seq<Board>, errs: seq<string>)
    returns (boards': seq<Board>, errs': seq<string>)
    ensures boards' == boards + FinalBoard(p)
    ensures errs' == PushIfPresent(errs, Report(FinalErrors(p)))
  {
    boards', errs' := boards, errs;
    if p.Some? {
      var board, error := p.value.Jsonify();
      boards' := boards + [board];
      errs' := PushIfPresent(errs, error);
    } else {
      assert boards + [] == boards;
    }
  }

  /** The lines jsonify joins: the game's own messages, then each pushed
      board's truthy report. */
  ghost function GameLines(rec: GameRecord): seq<string>
  {
    PushIfPresent(PushIfPresent(PushIfPresent(Messages(rec.errors), Report(rec.JErrors())),
      Report(rec.DJErrors())), Report(rec.FJErrors()))
  }

  lemma GameLinesReport(rec: GameRecord)
    ensures var lines := GameLines(rec);
            (if |lines| > 0 then Some(Join(lines)) else None) == Report(rec.AllErrors())
  {
    TracksMessages(rec.errors);
    TracksPush(Messages(rec.errors), rec.errors, rec.JErrors());
    TracksPush(PushIfPresent(Messages(rec.errors), Report(rec.JErrors())), rec.errors + rec.JErrors(), rec.DJErrors());
    TracksPush(PushIfPresent(PushIfPresent(Messages(rec.errors), Report(rec.JErrors())), Report(rec.DJErrors())),
      rec.errors + rec.JErrors() + rec.DJErrors(), rec.FJErrors());
    TracksReport(GameLines(rec), rec.AllErrors());
  }

  /** parseGame: construct, then jsonify; a throw is the Threw outcome. */
  method ParseGame(page: Page, parseDate: string -> Option<Date>) returns (r: Outcome)
    ensures r == GameOutcome(page, parseDate)
  {
    var fatal := FatalOf(page, parseDate);
    if fatal.Some? {
      return Threw(fatal.value);
    }
    var parser := new GameParser(page, parseDate);
    var game, error := parser.Jsonify();
    r := Returned(game, error);
  }

  // ---------------------------------------------------------------------
  // Properties of parseGame

  /** A missing or empty `#game_title` is fatal: the placeholder does not
      match the title pattern, so the multiplier throws. */
  lemma MissingTitleIsFatal(page: Page, parseDate: string -> Option<Date>)
    requires !Present(page.title)
    ensures GameOutcome(page, parseDate) == Threw(UnparseableTitle(ERROR_PLACEHOLDER))
  {
    ErrorPlaceholderDoesNotMatch();
  }

  /** A standard round with fewer than min(6, #clues) categories makes the
      whole parse throw, once the title has been read. */
  lemma TooFewCategoriesIsFatal(page: Page, parseDate: string -> Option<Date>)
    requires ClueValueMultiplier(TitleOf(page), parseDate).Some?
    ensures Crashes(page.jeopardy) ==> GameOutcome(page, parseDate) == Threw(TooFewCategories(0))
    ensures !Crashes(page.jeopardy) && Crashes(page.doubleJeopardy) ==>
              GameOutcome(page, parseDate) == Threw(TooFewCategories(1))
    ensures !Crashes(page.jeopardy) && !Crashes(page.doubleJeopardy) ==> GameOutcome(page, parseDate).Returned?
  {
  }

  /** The returned game has the constant author and copyright, and the
      title or the placeholder. */
  lemma GameHeader(page: Page, parseDate: string -> Option<Date>)
    requires FatalOf(page, parseDate).None?
    ensures var g := GameOutcome(page, parseDate).game;
            && g.author == AUTHOR && g.copyright == COPYRIGHT
            && g.title == (if Present(page.title) then page.title.value else ERROR_PLACEHOLDER)
            && g.note == NoteOf(page)
  {
  }

  /** At most three boards: J when present and not empty, then DJ likewise,
      then FJ when present. */
  lemma GameBoards(page: Page, parseDate: string -> Option<Date>)
    requires FatalOf(page, parseDate).None?
    ensures var rec := GameSpec(page, parseDate);
            var boards := GameOutcome(page, parseDate).game.boards;
            && |boards| <= 3
            && |boards| == (if rec.HasJ() then 1 else 0) + (if rec.HasDJ() then 1 else 0)
                             + (if page.finalJeopardy.Some? then 1 else 0)
            && (rec.HasJ() ==> boards[0] == rec.j.value.BoardOf())
            && (rec.HasDJ() ==> boards[if rec.HasJ() then 1 else 0] == rec.dj.value.BoardOf())
            && (page.finalJeopardy.Some? ==> boards[|boards| - 1] == FinalSpec(page.finalJeopardy.value).BoardOf())
  {
    var rec := GameSpec(page, parseDate);
    BoardOrder(rec);
    assert GameOutcome(page, parseDate).game.boards == rec.Boards();
  }

  lemma BoardOrder(rec: GameRecord)
    ensures var boards := rec.Boards();
            && |boards| == (if rec.HasJ() then 1 else 0) + (if rec.HasDJ() then 1 else 0) + (if rec.fj.Some? then 1 else 0)
            && (rec.HasJ() ==> boards[0] == rec.j.value.BoardOf())
            && (rec.HasDJ() ==> boards[if rec.HasJ() then 1 else 0] == rec.dj.value.BoardOf())
            && (rec.fj.Some? ==> boards[|boards| - 1] == rec.fj.value.BoardOf())
  {
  }

  /** The report is undefined iff nothing went wrong anywhere it collects
      from; a defined report is a non-empty string. */
  lemma GameReport(page: Page, parseDate: string -> Option<Date>)
    requires FatalOf(page, parseDate).None?
    ensures var r := GameOutcome(page, parseDate);
            var rec := GameSpec(page, parseDate);
            && (r.error.None? <==>
                  && Present(page.title)
                  && (rec.HasJ() ==> rec.j.value.AllErrors() == [])
                  && (rec.HasDJ() ==> rec.dj.value.AllErrors() == [])
                  && (rec.fj.Some? ==> rec.fj.value.errors == []))
            && (r.error.Some? ==> Present(r.error))
  {
    var rec := GameSpec(page, parseDate);
    ReportDefinedIffErrors(rec.AllErrors());
  }

  /** An empty standard round contributes neither a board nor errors: the
      outcome is the one for a page without that round. */
  lemma EmptyRoundIsDropped(page: Page, parseDate: string -> Option<Date>)
    requires page.jeopardy.Some? && EnoughCategories(page.jeopardy.value)
    requires var m := ClueValueMultiplier(TitleOf(page), parseDate);
             m.Some? && RoundSpec(0, page.jeopardy.value, m.value).IsEmpty()
    ensures GameOutcome(page, parseDate) == GameOutcome(page.(jeopardy := None), parseDate)
  {
    var other := page.(jeopardy := None);
    assert TitleOf(other) == TitleOf(page);
    if FatalOf(page, parseDate).None? {
      var a := GameSpec(page, parseDate);
      assert GameSpec(other, parseDate) == a.(j := None);
      DropEmptyJ(a);
    }
  }

  lemma DropEmptyJ(rec: GameRecord)
    requires rec.j.Some? && rec.j.value.IsEmpty()
    ensures rec.(j := None).Boards() == rec.Boards()
    ensures rec.(j := None).AllErrors() == rec.AllErrors()
  {
  }

  /** In particular a round with no clue cells, which never crashes, is
      dropped. */
  lemma NoCluesIsDropped(page: Page, parseDate: string -> Option<Date>)
    requires page.jeopardy.Some? && page.jeopardy.value.clues == []
    requires ClueValueMultiplier(TitleOf(page), parseDate).Some?
    ensures GameOutcome(page, parseDate) == GameOutcome(page.(jeopardy := None), parseDate)
  {
    var m := ClueValueMultiplier(TitleOf(page), parseDate).value;
    EmptyRounds(0, page.jeopardy.value, m);
    EmptyRoundIsDropped(page, parseDate);
  }
}
