/** BoardParser: a standard round (index 0 or 1).  Category cells become
    named categories; clue cells are dealt round-robin into six columns, the
    k-th cell going to column k % 6 at row k / 6. */
module Boards {
  import opened Base
  import opened Values
  import opened Diagnostics
  import opened Records
  import opened Clues
  import Speaker

  /** A `.category` cell: text of `.category_name` and `.category_comments`. */
  datatype CategoryCell = CategoryCell(name: Option<string>, comments: Option<string>)

  /** A round container: its `.category` cells and its `.clue` cells, in
      document order. */
  datatype RoundDiv = RoundDiv(categories: seq<CategoryCell>, clues: seq<ClueCell>)

  /** The number of columns the deal assumes. */
  const COLUMNS: nat := 6

  /** A category name: absent or "" is an error, "=" is missing. */
  function CategoryNameRule(name: Option<string>, c: nat, round: nat): (string, seq<FieldError>)
  {
    if !Present(name) then (ERROR_PLACEHOLDER, [MissingCategoryName(c, round)])
    else if name.value == MISSING_CLUE_FLAG then (MISSING_PLACEHOLDER, [])
    else (name.value, [])
  }

  /** `note` rewritten only when truthy, then `note ?? ""`. */
  function CategoryNote(comments: Option<string>): string
  {
    match comments
    case None => ""
    case Some(note) => if note != "" then Speaker.SpeakerRewrite(note) else note
  }

  /** The name errors of the first categories, in category order. */
  function CategoryNameErrors(cats: seq<CategoryCell>, round: nat): seq<FieldError>
  {
    if cats == [] then []
    else CategoryNameErrors(cats[..|cats| - 1], round) + CategoryNameRule(cats[|cats| - 1].name, |cats| - 1, round).1
  }

  /** The clue cells dealt to column `c`: those at indices k with k % 6 == c,
      in document order. */
  function Column(cells: seq<ClueCell>, c: nat): seq<ClueCell>
  {
    if cells == [] then []
    else Column(cells[..|cells| - 1], c) + (if (|cells| - 1) % COLUMNS == c then [cells[|cells| - 1]] else [])
  }

  /** The t-th clue of column c is parsed at row t, column c. */
  function ColumnClues(col: seq<ClueCell>, c: nat, round: nat, m: Multiplier): (r: seq<ClueRecord>)
    ensures |r| == |col|
  {
    seq(|col|, t requires 0 <= t < |col| => ClueSpec(col[t], t, c, round, m))
  }

  datatype CategoryRecord = CategoryRecord(name: string, note: string, clues: seq<ClueRecord>)
  {
    /** The category as JSON. */
    function ToCategory(): Category
    {
      Category(name, note, ToClues(clues))
    }
  }

  function ToClues(recs: seq<ClueRecord>): (r: seq<Clue>)
    ensures |r| == |recs|
  {
    seq(|recs|, t requires 0 <= t < |recs| => recs[t].ToClue())
  }

  function CluesErrors(clues: seq<ClueRecord>): seq<FieldError>
  {
    if clues == [] then [] else CluesErrors(clues[..|clues| - 1]) + clues[|clues| - 1].errors
  }

  /** Clue errors in category-major order. */
  function CategoriesClueErrors(cats: seq<CategoryRecord>): seq<FieldError>
  {
    if cats == [] then [] else CategoriesClueErrors(cats[..|cats| - 1]) + CluesErrors(cats[|cats| - 1].clues)
  }

  /** The state of a constructed BoardParser. */
  datatype RoundRecord = RoundRecord(categories: seq<CategoryRecord>, errors: seq<FieldError>)
  {
    /** isEmpty: every clue of every category is empty. */
    predicate IsEmpty()
    {
      forall c, t :: 0 <= c < |categories| && 0 <= t < |categories[c].clues| ==> categories[c].clues[t].IsEmpty()
    }

    /** The board jsonify builds. */
    function BoardOf(): Board
    {
      Board(
        seq(|categories|, c requires 0 <= c < |categories| => categories[c].name),
        seq(|categories|, c requires 0 <= c < |categories| => categories[c].ToCategory()))
    }

    /** Every error of the board: category names first, then the clues in
        category-major order. */
    function AllErrors(): seq<FieldError>
    {
      errors + CategoriesClueErrors(categories)
    }
  }

  /** The BoardParser built from a round container. */
  function RoundSpec(round: nat, div: RoundDiv, m: Multiplier): RoundRecord
  {
    RoundRecord(
      seq(|div.categories|, c requires 0 <= c < |div.categories| =>
        CategoryRecord(
          CategoryNameRule(div.categories[c].name, c, round).0,
          CategoryNote(div.categories[c].comments),
          ColumnClues(Column(div.clues, c), c, round, m))),
      CategoryNameErrors(div.categories, round))
  }

  /** The deal indexes `categories[col]` for col = k % 6; it throws a
      TypeError unless there are at least min(6, #clues) categories. */
  predicate EnoughCategories(div: RoundDiv)
  {
    |div.categories| >= Min(COLUMNS, |div.clues|)
  }

  /** A category while the constructor fills it. */
  datatype CategoryDraft = CategoryDraft(name: string, note: string, clues: seq<ClueParser>)

  function ParserRecords(ps: seq<ClueParser>): (r: seq<ClueRecord>)
    ensures |r| == |ps|
  {
    seq(|ps|, t requires 0 <= t < |ps| => ps[t].Record())
  }

  lemma ColumnSnoc(cells: seq<ClueCell>, k: nat, c: nat)
    requires k < |cells|
    ensures Column(cells[..k + 1], c) == Column(cells[..k], c) + (if k % COLUMNS == c then [cells[k]] else [])
  {
    assert cells[..k + 1][..k] == cells[..k];
  }

  /** Reading one `.category` cell: its name, its note and the errors it adds. */
  method ReadCategory(cell: CategoryCell, i: nat, round: nat, errors: seq<FieldError>)
    returns (name: string, note: string, errors': seq<FieldError>)
    ensures name == CategoryNameRule(cell.name, i, round).0
    ensures note == CategoryNote(cell.comments)
    ensures errors' == errors + CategoryNameRule(cell.name, i, round).1
  {
    errors' := errors;
    var categoryName := cell.name;
    if !Present(categoryName) {
      errors' := errors' + [MissingCategoryName(i, round)];
      name := ERROR_PLACEHOLDER;
    } else if categoryName.value == MISSING_CLUE_FLAG {
      name := MISSING_PLACEHOLDER;
    } else {
      name := categoryName.value;
    }
    var comments := cell.comments;
    if Present(comments) {
      comments := Some(Speaker.SpeakerRewrite(comments.value));
    }
    note := if comments.Some? then comments.value else "";
  }

  /** Dealing cell k to column k % 6 at row k / 6 extends that column's
      records by one and leaves the other columns alone. */
  lemma DealStep(cells: seq<ClueCell>, k: nat, round: nat, m: Multiplier, c: nat, before: seq<ClueParser>, p: ClueParser)
    requires k < |cells|
    requires ParserRecords(before) == ColumnClues(Column(cells[..k], c), c, round, m)
    requires c == k % COLUMNS ==> p.Record() == ClueSpec(cells[k], k / COLUMNS, c, round, m)
    ensures ParserRecords(if c == k % COLUMNS then before + [p] else before)
            == ColumnClues(Column(cells[..k + 1], c), c, round, m)
  {
    ColumnSnoc(cells, k, c);
    if c == k % COLUMNS {
      var col := Column(cells[..k], c);
      assert |col| == k / COLUMNS by {
        ColumnLength(cells[..k], c);
        DivModLength(k);
      }
      calc {
        ParserRecords(before + [p]);
        { ParserRecordsSnoc(before, p); }
        ParserRecords(before) + [p.Record()];
        ColumnClues(col, c, round, m) + [ClueSpec(cells[k], |col|, c, round, m)];
        { ColumnCluesSnoc(col, cells[k], c, round, m); }
        ColumnClues(col + [cells[k]], c, round, m);
      }
    }
  }

  lemma ParserRecordsSnoc(ps: seq<ClueParser>, p: ClueParser)
    ensures ParserRecords(ps + [p]) == ParserRecords(ps) + [p.Record()]
  {
    assert forall t :: 0 <= t < |ps| ==> (ps + [p])[t] == ps[t];
  }

  lemma ColumnCluesSnoc(col: seq<ClueCell>, cell: ClueCell, c: nat, round: nat, m: Multiplier)
    ensures ColumnClues(col + [cell], c, round, m) == ColumnClues(col, c, round, m) + [ClueSpec(cell, |col|, c, round, m)]
  {
    assert forall t :: 0 <= t < |col| ==> (col + [cell])[t] == col[t];
  }

  lemma DivModLength(k: nat)
    ensures (k + COLUMNS - 1 - k % COLUMNS) / COLUMNS == k / COLUMNS
  {
  }

  lemma Regroup(a: seq<FieldError>, b: seq<FieldError>, c: seq<FieldError>)
    ensures a + b + c == a + (b + c)
  {
  }

  /** `if (error) errors.push(error)` for each clue in turn. */
  function PushClueReports(acc: seq<string>, recs: seq<ClueRecord>): seq<string>
  {
    if recs == [] then acc
    else PushIfPresent(PushClueReports(acc, recs[..|recs| - 1]), recs[|recs| - 1].Jsonify().1)
  }

  /** The clue reports of every category, in category order. */
  function PushCategoryReports(acc: seq<string>, cats: seq<CategoryRecord>): seq<string>
  {
    if cats == [] then acc
    else PushClueReports(PushCategoryReports(acc, cats[..|cats| - 1]), cats[|cats| - 1].clues)
  }

  lemma {:induction false} PushClueReportsTracks(acc: seq<string>, flat: seq<FieldError>, recs: seq<ClueRecord>)
    requires Tracks(acc, flat)
    ensures Tracks(PushClueReports(acc, recs), flat + CluesErrors(recs))
  {
    if recs == [] {
      assert flat + CluesErrors(recs) == flat;
    } else {
      var init := recs[..|recs| - 1];
      var last := recs[|recs| - 1];
      PushClueReportsTracks(acc, flat, init);
      TracksPush(PushClueReports(acc, init), flat + CluesErrors(init), last.errors);
      Regroup(flat, CluesErrors(init), last.errors);
    }
  }

  lemma {:induction false} PushCategoryReportsTracks(acc: seq<string>, flat: seq<FieldError>, cats: seq<CategoryRecord>)
    requires Tracks(acc, flat)
    ensures Tracks(PushCategoryReports(acc, cats), flat + CategoriesClueErrors(cats))
  {
    if cats == [] {
      assert flat + CategoriesClueErrors(cats) == flat;
    } else {
      var init := cats[..|cats| - 1];
      var last := cats[|cats| - 1];
      PushCategoryReportsTracks(acc, flat, init);
      PushClueReportsTracks(PushCategoryReports(acc, init), flat + CategoriesClueErrors(init), last.clues);
      Regroup(flat, CategoriesClueErrors(init), CluesErrors(last.clues));
    }
  }

  lemma PushCategoryReportsStep(acc: seq<string>, cats: seq<CategoryRecord>, c: nat)
    requires c < |cats|
    ensures PushCategoryReports(acc, cats[..c + 1]) == PushClueReports(PushCategoryReports(acc, cats[..c]), cats[c].clues)
  {
    assert cats[..c + 1][..c] == cats[..c];
  }

  /** Pushing the collected lines and joining them gives the report of every
      error of the round. */
  lemma RoundReport(rec: RoundRecord)
    ensures var lines := PushCategoryReports(Messages(rec.errors), rec.categories);
            (if |lines| > 0 then Some(Join(lines)) else None) == Report(rec.AllErrors())
  {
    TracksMessages(rec.errors);
    PushCategoryReportsTracks(Messages(rec.errors), rec.errors, rec.categories);
    TracksReport(PushCategoryReports(Messages(rec.errors), rec.categories), rec.AllErrors());
  }

  /** The clues of one category as JSON, pushing each truthy clue error onto
      `errs`. */
  method JsonifyClues(parsers: seq<ClueParser>, errs: seq<string>)
    returns (clues: seq<Clue>, errs': seq<string>)
    ensures clues == ToClues(ParserRecords(parsers))
    ensures errs' == PushClueReports(errs, ParserRecords(parsers))
  {
    ghost var recs := ParserRecords(parsers);
    clues := [];
    errs' := errs;
    var t := 0;
    while t < |parsers|
      invariant 0 <= t <= |parsers|
      invariant |clues| == t
      invariant forall t' :: 0 <= t' < t ==> clues[t'] == recs[t'].ToClue()
      invariant errs' == PushClueReports(errs, recs[..t])
    {
      var (clue, error) := parsers[t].Record().Jsonify();
      if error.Some? && error.value != "" {
        errs' := errs' + [error.value];
      }
      assert recs[..t + 1][..t] == recs[..t];
      clues := clues + [clue];
      t := t + 1;
    }
    assert recs[..t] == recs;
  }

  /** The round a list of filled categories and name errors stands for. */
  function DraftsRecord(drafts: seq<CategoryDraft>, errors: seq<FieldError>): RoundRecord
  {
    RoundRecord(DraftRecords(drafts), errors)
  }

  function DraftRecords(drafts: seq<CategoryDraft>): (r: seq<CategoryRecord>)
    ensures |r| == |drafts|
  {
    seq(|drafts|, c requires 0 <= c < |drafts| =>
      CategoryRecord(drafts[c].name, drafts[c].note, ParserRecords(drafts[c].clues)))
  }

  /** `this.categories.map(...)` in jsonify: each category as JSON, pushing
      the truthy clue errors onto `errs` as it goes. */
  method JsonifyCategories(drafts: seq<CategoryDraft>, errs: seq<string>)
    returns (cats: seq<Category>, errs': seq<string>)
    ensures |cats| == |drafts|
    ensures forall c :: 0 <= c < |drafts| ==> cats[c] == DraftRecords(drafts)[c].ToCategory()
    ensures errs' == PushCategoryReports(errs, DraftRecords(drafts))
  {
    ghost var recs := DraftRecords(drafts);
    cats := [];
    errs' := errs;
    var c := 0;
    while c < |drafts|
      invariant 0 <= c <= |drafts|
      invariant |cats| == c
      invariant forall c' :: 0 <= c' < c ==> cats[c'] == recs[c'].ToCategory()
      invariant errs' == PushCategoryReports(errs, recs[..c])
    {
      var clues;
      clues, errs' := JsonifyClues(drafts[c].clues, errs');
      PushCategoryReportsStep(errs, recs, c);
      cats := cats + [Category(drafts[c].name, drafts[c].note, clues)];
      c := c + 1;
    }
    assert recs[..c] == recs;
  }

  /** The first loop of the constructor: one empty category per
      `.category` cell. */
  method ReadCategories(cats: seq<CategoryCell>, round: nat)
    returns (drafts: seq<CategoryDraft>, errs: seq<FieldError>)
    ensures |drafts| == |cats|
    ensures forall c :: 0 <= c < |cats| ==>
              drafts[c] == CategoryDraft(CategoryNameRule(cats[c].name, c, round).0, CategoryNote(cats[c].comments), [])
    ensures errs == CategoryNameErrors(cats, round)
  {
    drafts := [];
    errs := [];
    var i := 0;
    while i < |cats|
      invariant 0 <= i <= |cats|
      invariant |drafts| == i
      invariant forall c :: 0 <= c < i ==>
                  drafts[c] == CategoryDraft(CategoryNameRule(cats[c].name, c, round).0, CategoryNote(cats[c].comments), [])
      invariant errs == CategoryNameErrors(cats[..i], round)
    {
      var name, note;
      name, note, errs := ReadCategory(cats[i], i, round, errs);
      drafts := drafts + [CategoryDraft(name, note, [])];
      assert cats[..i + 1][..i] == cats[..i];
      i := i + 1;
    }
    assert cats[..|cats|] == cats;
  }

  /** The second loop of the constructor: clue cell k is parsed at row k / 6,
      column k % 6 and pushed onto category k % 6. */
  method DealClues(drafts: seq<CategoryDraft>, cells: seq<ClueCell>, round: nat, multiplier: Multiplier)
    returns (drafts': seq<CategoryDraft>)
    requires |drafts| >= Min(COLUMNS, |cells|)
    requires forall c :: 0 <= c < |drafts| ==> drafts[c].clues == []
    ensures |drafts'| == |drafts|
    ensures forall c :: 0 <= c < |drafts| ==>
              drafts'[c].name == drafts[c].name && drafts'[c].note == drafts[c].note
    ensures forall c :: 0 <= c < |drafts| ==>
              ParserRecords(drafts'[c].clues) == ColumnClues(Column(cells, c), c, round, multiplier)
  {
    drafts' := drafts;
    var col := 0;
    var row := 0;
    var k := 0;
    while k < |cells|
      invariant 0 <= k <= |cells|
      invariant col == k % COLUMNS && row == k / COLUMNS
      invariant |drafts'| == |drafts|
      invariant forall c :: 0 <= c < |drafts| ==>
                  drafts'[c].name == drafts[c].name && drafts'[c].note == drafts[c].note
      invariant forall c :: 0 <= c < |drafts| ==>
                  ParserRecords(drafts'[c].clues) == ColumnClues(Column(cells[..k], c), c, round, multiplier)
    {
      assert col < |drafts| by {
        assert col <= k;
      }
      drafts' := PushClue(drafts', cells, k, row, col, round, multiplier);
      DivModStep(k);
      col := col + 1;
      if col > 5 {
        col := 0;
        row := row + 1;
      }
      k := k + 1;
    }
    assert cells[..|cells|] == cells;
  }

  /** One step of the deal: `new ClueParser(cell k, row, col, ...)` pushed
      onto category `col`. */
  method PushClue(drafts: seq<CategoryDraft>, cells: seq<ClueCell>, k: nat, row: nat, col: nat, round: nat, multiplier: Multiplier)
    returns (drafts': seq<CategoryDraft>)
    requires k < |cells| && col == k % COLUMNS && row == k / COLUMNS && col < |drafts|
    requires forall c :: 0 <= c < |drafts| ==>
               ParserRecords(drafts[c].clues) == ColumnClues(Column(cells[..k], c), c, round, multiplier)
    ensures |drafts'| == |drafts|
    ensures forall c :: 0 <= c < |drafts| ==>
              drafts'[c].name == drafts[c].name && drafts'[c].note == drafts[c].note
    ensures forall c :: 0 <= c < |drafts| ==>
              ParserRecords(drafts'[c].clues) == ColumnClues(Column(cells[..k + 1], c), c, round, multiplier)
  {
    var parser := new ClueParser(cells[k], row, col, round, multiplier);
    forall c | 0 <= c < |drafts|
      ensures ParserRecords(if c == col then drafts[c].clues + [parser] else drafts[c].clues)
              == ColumnClues(Column(cells[..k + 1], c), c, round, multiplier)
    {
      DealStep(cells, k, round, multiplier, c, drafts[c].clues, parser);
    }
    drafts' := drafts[col := drafts[col].(clues := drafts[col].clues + [parser])];
  }

  lemma DraftsMatchSpec(drafts: seq<CategoryDraft>, errs: seq<FieldError>, round: nat, div: RoundDiv, m: Multiplier)
    requires |drafts| == |div.categories|
    requires forall c :: 0 <= c < |drafts| ==>
               && drafts[c].name == CategoryNameRule(div.categories[c].name, c, round).0
               && drafts[c].note == CategoryNote(div.categories[c].comments)
               && ParserRecords(drafts[c].clues) == ColumnClues(Column(div.clues, c), c, round, m)
    requires errs == CategoryNameErrors(div.categories, round)
    ensures DraftsRecord(drafts, errs) == RoundSpec(round, div, m)
  {
  }

  class BoardParser {
    const categories: seq<CategoryDraft>
    const errors: seq<FieldError>

    function Record(): RoundRecord
    {
      DraftsRecord(categories, errors)
    }

    /** isEmpty */
    predicate IsEmpty()
    {
      Record().IsEmpty()
    }

    constructor (round: nat, div: RoundDiv, multiplier: Multiplier)
      requires EnoughCategories(div)
      ensures Record() == RoundSpec(round, div, multiplier)
    {
      var drafts, errs := ReadCategories(div.categories, round);
      // Pull clues
      drafts := DealClues(drafts, div.clues, round, multiplier);
      DraftsMatchSpec(drafts, errs, round, div, multiplier);
      categories := drafts;
      errors := errs;
    }

    method Jsonify() returns (board: Board, error: Option<string>)
      ensures board == Record().BoardOf()
      ensures error == Report(Record().AllErrors())
    {
      var errs := Messages(errors);
      var names := seq(|categories|, c requires 0 <= c < |categories| => categories[c].name);
      var cats;
      cats, errs := JsonifyCategories(categories, errs);
      RoundReport(Record());
      error := if |errs| > 0 then Some(Join(errs)) else None;
      board := Board(names, cats);
    }
  }

  lemma DivModStep(k: nat)
    ensures (k + 1) % COLUMNS == (if k % COLUMNS == 5 then 0 else k % COLUMNS + 1)
    ensures (k + 1) / COLUMNS == (if k % COLUMNS == 5 then k / COLUMNS + 1 else k / COLUMNS)
  {
  }

  // ---------------------------------------------------------------------
  // The deal

  /** Column c of the first n cells holds ceil((n - c) / 6) cells. */
  lemma {:induction false} ColumnLength(cells: seq<ClueCell>, c: nat)
    requires c < COLUMNS
    ensures |Column(cells, c)| == (|cells| + COLUMNS - 1 - c) / COLUMNS
  {
    if cells != [] {
      var n := |cells| - 1;
      ColumnLength(cells[..n], c);
      assert (n + COLUMNS - c) / COLUMNS == (n + COLUMNS - 1 - c) / COLUMNS + (if n % COLUMNS == c then 1 else 0);
    }
  }

  /** The k-th cell is the (k / 6)-th of column k % 6. */
  lemma {:induction false} ColumnAt(cells: seq<ClueCell>, k: nat)
    requires k < |cells|
    ensures k / COLUMNS < |Column(cells, k % COLUMNS)|
    ensures Column(cells, k % COLUMNS)[k / COLUMNS] == cells[k]
  {
    var n := |cells| - 1;
    if k == n {
      ColumnLength(cells[..n], k % COLUMNS);
      assert |Column(cells[..n], k % COLUMNS)| == k / COLUMNS;
    } else {
      ColumnAt(cells[..n], k);
      assert cells[..n][k] == cells[k];
    }
  }

  /** Columns at index 6 or more, or at least the number of cells, stay empty. */
  lemma {:induction false} ColumnBeyond(cells: seq<ClueCell>, c: nat)
    requires c >= COLUMNS || c >= |cells|
    ensures Column(cells, c) == []
  {
    if cells != [] {
      ColumnBeyond(cells[..|cells| - 1], c);
    }
  }

  /** The sizes of columns 0..n-1 added up. */
  function ColumnTotal(cells: seq<ClueCell>, n: nat): nat
  {
    if n == 0 then 0 else ColumnTotal(cells, n - 1) + |Column(cells, n - 1)|
  }

  lemma {:induction false} ColumnTotalSnoc(cells: seq<ClueCell>, n: nat)
    requires cells != []
    ensures ColumnTotal(cells, n) == ColumnTotal(cells[..|cells| - 1], n) + (if (|cells| - 1) % COLUMNS < n then 1 else 0)
  {
    if n > 0 {
      ColumnTotalSnoc(cells, n - 1);
    }
  }

  lemma {:induction false} ColumnTotalEmpty(n: nat)
    ensures ColumnTotal([], n) == 0
  {
    if n > 0 {
      ColumnTotalEmpty(n - 1);
    }
  }

  /** Every cell is dealt to exactly one of the six columns. */
  lemma {:induction false} ColumnsCoverCells(cells: seq<ClueCell>)
    ensures ColumnTotal(cells, COLUMNS) == |cells|
  {
    if cells == [] {
      ColumnTotalEmpty(COLUMNS);
    } else {
      ColumnTotalSnoc(cells, COLUMNS);
      ColumnsCoverCells(cells[..|cells| - 1]);
    }
  }

  /** With enough categories for the deal, no cell is lost. */
  lemma {:induction false} ColumnTotalEnough(cells: seq<ClueCell>, n: nat)
    requires n >= Min(COLUMNS, |cells|)
    ensures ColumnTotal(cells, n) == |cells|
  {
    if n == Min(COLUMNS, |cells|) {
      if n < COLUMNS {
        ColumnTotalBeyondCells(cells, n);
      } else {
        ColumnsCoverCells(cells);
      }
    } else {
      ColumnTotalEnough(cells, n - 1);
      ColumnBeyond(cells, n - 1);
    }
  }

  lemma {:induction false} ColumnTotalBeyondCells(cells: seq<ClueCell>, n: nat)
    requires |cells| <= n <= COLUMNS
    ensures ColumnTotal(cells, n) == |cells|
    decreases COLUMNS - n
  {
    if n == COLUMNS {
      ColumnsCoverCells(cells);
    } else {
      ColumnTotalBeyondCells(cells, n + 1);
      ColumnBeyond(cells, n);
    }
  }

  // ---------------------------------------------------------------------
  // Properties of a parsed round

  /** The k-th clue cell is parsed at row k / 6, column k % 6, and stored as
      clue k / 6 of category k % 6. */
  lemma DealPlacement(round: nat, div: RoundDiv, m: Multiplier, k: nat)
    requires k < |div.clues| && k % COLUMNS < |div.categories|
    ensures var clues := RoundSpec(round, div, m).categories[k % COLUMNS].clues;
            k / COLUMNS < |clues| && clues[k / COLUMNS] == ClueSpec(div.clues[k], k / COLUMNS, k % COLUMNS, round, m)
  {
    ColumnAt(div.clues, k);
  }

  /** Categories at index 6 or beyond receive no clues. */
  lemma WideCategoriesGetNoClues(round: nat, div: RoundDiv, m: Multiplier, c: nat)
    requires COLUMNS <= c < |div.categories|
    ensures RoundSpec(round, div, m).categories[c].clues == []
  {
    ColumnBeyond(div.clues, c);
  }

  /** The number of clues over the first categories. */
  function ClueCount(cats: seq<CategoryRecord>): nat
  {
    if cats == [] then 0 else ClueCount(cats[..|cats| - 1]) + |cats[|cats| - 1].clues|
  }

  lemma {:induction false} ClueCountIsColumnTotal(round: nat, div: RoundDiv, m: Multiplier, n: nat)
    requires n <= |div.categories|
    ensures ClueCount(RoundSpec(round, div, m).categories[..n]) == ColumnTotal(div.clues, n)
  {
    if n > 0 {
      var cats := RoundSpec(round, div, m).categories;
      assert cats[..n][..n - 1] == cats[..n - 1];
      ClueCountIsColumnTotal(round, div, m, n - 1);
    }
  }

  /** A round that does not crash keeps every clue cell: the categories hold
      as many clues as there were cells. */
  lemma CluesPreserved(round: nat, div: RoundDiv, m: Multiplier)
    requires EnoughCategories(div)
    ensures ClueCount(RoundSpec(round, div, m).categories) == |div.clues|
  {
    var cats := RoundSpec(round, div, m).categories;
    ClueCountIsColumnTotal(round, div, m, |div.categories|);
    assert cats[..|cats|] == cats;
    ColumnTotalEnough(div.clues, |div.categories|);
  }

  /** The deal crashes exactly when some cell's column has no category. */
  lemma CrashCondition(div: RoundDiv)
    ensures !EnoughCategories(div) <==> exists k :: 0 <= k < |div.clues| && k % COLUMNS >= |div.categories|
  {
    if !EnoughCategories(div) {
      var k := |div.categories|;
      assert k < |div.clues| && k % COLUMNS == k;
    }
  }

  /** The name errors are exactly one per category whose name is absent or empty. */
  lemma {:induction false} CategoryNameErrorsExact(cats: seq<CategoryCell>, round: nat, c: nat)
    requires c < |cats|
    ensures MissingCategoryName(c, round) in CategoryNameErrors(cats, round) <==> !Present(cats[c].name)
    ensures forall e :: e in CategoryNameErrors(cats, round) ==> e.MissingCategoryName? && e.category < |cats|
  {
    var n := |cats| - 1;
    if c < n {
      CategoryNameErrorsExact(cats[..n], round, c);
    } else if n > 0 {
      CategoryNameErrorsExact(cats[..n], round, 0);
    }
    if n > 0 {
      assert cats[..n][c % n] == cats[c % n];
    } else {
      assert cats[..n] == [];
    }
  }

  /** The board: names and categories line up, one per category cell, and
      each name follows the name rule. */
  lemma BoardNames(round: nat, div: RoundDiv, m: Multiplier)
    ensures var b := RoundSpec(round, div, m).BoardOf();
            && |b.categoryNames| == |b.categories| == |div.categories|
            && forall c :: 0 <= c < |div.categories| ==>
                 && b.categoryNames[c] == b.categories[c].name
                 && (!Present(div.categories[c].name) ==> b.categoryNames[c] == ERROR_PLACEHOLDER)
                 && (div.categories[c].name == Some(MISSING_CLUE_FLAG) ==> b.categoryNames[c] == MISSING_PLACEHOLDER)
                 && (Present(div.categories[c].name) && div.categories[c].name.value != MISSING_CLUE_FLAG ==>
                       b.categoryNames[c] == div.categories[c].name.value)
  {
  }

  /** A round with no clue cells is empty, and so is one whose clue cells all
      lack clue text. */
  lemma EmptyRounds(round: nat, div: RoundDiv, m: Multiplier)
    ensures div.clues == [] ==> RoundSpec(round, div, m).IsEmpty()
    ensures (forall k :: 0 <= k < |div.clues| ==> !Present(TextOf(div.clues[k].clueText))) ==>
              RoundSpec(round, div, m).IsEmpty()
  {
    var rec := RoundSpec(round, div, m);
    if forall k :: 0 <= k < |div.clues| ==> !Present(TextOf(div.clues[k].clueText)) {
      forall c, t | 0 <= c < |rec.categories| && 0 <= t < |rec.categories[c].clues|
        ensures rec.categories[c].clues[t].IsEmpty()
      {
        var col := Column(div.clues, c);
        ColumnCells(div.clues, c, t);
        UnrevealedClueIsEmpty(col[t], t, c, round, m);
      }
    }
  }

  /** Every clue of the board is the record of one clue cell: clue t of
      category c is cell 6 * t + c, parsed at row t, column c. */
  lemma ClueOrigin(round: nat, div: RoundDiv, m: Multiplier, c: nat, t: nat)
    requires c < |div.categories|
    requires t < |RoundSpec(round, div, m).categories[c].clues|
    ensures var k := COLUMNS * t + c;
            && k < |div.clues| && k % COLUMNS == c && k / COLUMNS == t
            && RoundSpec(round, div, m).categories[c].clues[t] == ClueSpec(div.clues[k], t, c, round, m)
  {
    if c >= COLUMNS {
      WideCategoriesGetNoClues(round, div, m, c);
    }
    ColumnLength(div.clues, c);
    var k := COLUMNS * t + c;
    assert k % COLUMNS == c && k / COLUMNS == t;
    DealPlacement(round, div, m, k);
  }

  /** A round that does not crash is empty exactly when every clue cell, parsed
      at its row and column, gives an empty clue. */
  lemma EmptyRoundIffEmptyCells(round: nat, div: RoundDiv, m: Multiplier)
    requires EnoughCategories(div)
    ensures RoundSpec(round, div, m).IsEmpty() <==>
              forall k :: 0 <= k < |div.clues| ==> ClueSpec(div.clues[k], k / COLUMNS, k % COLUMNS, round, m).IsEmpty()
  {
    var rec := RoundSpec(round, div, m);
    if rec.IsEmpty() {
      forall k | 0 <= k < |div.clues|
        ensures ClueSpec(div.clues[k], k / COLUMNS, k % COLUMNS, round, m).IsEmpty()
      {
        assert k % COLUMNS < |div.categories|;
        DealPlacement(round, div, m, k);
      }
    }
    if forall k :: 0 <= k < |div.clues| ==> ClueSpec(div.clues[k], k / COLUMNS, k % COLUMNS, round, m).IsEmpty() {
      forall c, t | 0 <= c < |rec.categories| && 0 <= t < |rec.categories[c].clues|
        ensures rec.categories[c].clues[t].IsEmpty()
      {
        ClueOrigin(round, div, m, c, t);
      }
    }
  }

  /** Every cell of a column is a cell of the round. */
  lemma {:induction false} ColumnCells(cells: seq<ClueCell>, c: nat, t: nat)
    requires t < |Column(cells, c)|
    ensures Column(cells, c)[t] in cells
  {
    var n := |cells| - 1;
    if t < |Column(cells[..n], c)| {
      ColumnCells(cells[..n], c, t);
    }
  }
}
