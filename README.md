# jeparser, modelled in Dafny

jeparser is a browser extension that turns a J! Archive game page into a
JSON `Game` record: a title, a note, and up to three boards (Jeopardy!,
Double Jeopardy!, Final Jeopardy!), each board holding categories and
clues. The extractor in `src/parser.ts` does not stop at a missing field.
It puts one of three sentinel strings in the field (`***ERROR***`,
`***Unrevealed***`, `***Missing***`) and records a diagnostic. All the
diagnostics end up joined with `"\n"` into a single error report. Only two
things abort a parse:

- a title that does not match the show-title pattern;
- a standard round with fewer category cells than the cyclic deal of its
  clue cells needs.

The popup then either shows the game or shows the error, and names the
download file after the title.

This project models that core:

- **Page inputs.** The page is a plain value giving the text of each
  element the extractor queries (`Page`, `RoundDiv`, `CategoryCell`,
  `ClueCell`, `ClueText`, `FinalDiv`). JavaScript truthiness is modelled as
  `Present`: an absent text and an empty text are treated the same.
- **Parsers.** The four parser classes are Dafny classes with `const`
  fields, because the source assigns those fields only while constructing.
  `Clues.ClueParser`, `Boards.BoardParser`, `Finals.FinalBoardParser` and
  `Games.GameParser` each fill a local error list step by step, as the
  source does. Each constructor is proved equal to a pure reference
  definition (`ClueSpec`, `RoundSpec`, `FinalSpec`, `GameSpec`). The
  properties are proved as lemmas about those definitions.
- **The deal.** The round-robin loop over the clue cells (`col`/`row`
  counters) is `Boards.DealClues` with its invariants. It is proved to put
  the k-th cell at row k / 6 of column k % 6.
- **Error reports.** Each error is a structured `FieldError`. `Describe`
  produces the source's message wording. The `jsonify` methods push a
  board's or clue's report only when it is truthy, as the source does. They
  are proved to produce exactly `Report(all errors in order)`.
- **Aborts.** A thrown `TypeError` or `Error` is the `Threw` outcome of
  `Games.ParseGame`. The constructors require what the code needs to avoid
  throwing.
- **Leaf helpers.**
  - `getClueValueMultiplier`, with the title pattern matched exactly.
  - `getExpectedClueValue`.
  - `sanitizeURL`'s protocol whitelist.
  - `parseCorrectResponse`: tag stripping, and the quote replacement, which
    as written replaces `'` by `'`.
  - The speaker rewrite of category notes.
- **Popup.**
  - The file-name derivation (`/[^a-z0-9]/gi` → `_`, lower case,
    `.jep.json`).
  - The show-or-report decision.

Where the code and its documentation disagree, the model follows the code:

- A clue recorded as `"="` whose response is absent is not empty. Its
  answer is `***ERROR***`, with one error (`Clues.MissingClueWithoutResponse`).
- A rejected image link gives `imageSrc == ""`, not an absent `imageSrc`
  (`Clues.ImageCases`).
- A missing title is fatal, not a soft error (`Games.MissingTitleIsFatal`).
- The final round's image link is sanitised, but its result is never
  emitted (`Finals.FinalImageNotEmitted`).

Modules, in dependency order: `Base`, `Diagnostics`, `Url`, `Values`,
`Speaker`, `Response`, `Records`, `Clues`, `Boards`, `Finals`, `Games`,
`Popup`.

## Model

| member | source | states |
|---|---|---|
| Diagnostics.Describe | src/parser.ts:278-279 | each diagnostic renders as a non-empty line, in the wording of the pushes at lines 121, 199, 208, 219, 226, 279, 385, 401, 408 and 425 |
| Diagnostics.Report | src/parser.ts:451 | no contract of its own; its properties are in Diagnostics.ReportDefinedIffErrors and Diagnostics.ReportAppend |
| Base.Join | src/parser.ts:174 | no contract of its own; its properties are in Base.JoinAppend and Base.JoinNonEmpty |
| Base.JoinAppend | src/parser.ts:174 | joining two non-empty lists is joining each and putting one `"\n"` between them |
| Base.JoinNonEmpty | src/parser.ts:174 | a join of one or more non-empty lines is non-empty |
| Base.DigitRunDigits | src/parser.ts:53 | every character of the longest digit run from a position is a digit |
| Base.WordRunWords | src/parser.ts:53 | every character of the longest word-character run from a position is a word character |
| Base.DigitRunIs | src/parser.ts:53 | a run of digits that ends at the end of the text or before a non-digit is exactly what `\d+` takes |
| Base.WordRunIs | src/parser.ts:59 | a run of word characters that ends at the end of the text or before a non-word character is exactly what `\w+` takes |
| Diagnostics.ReportDefinedIffErrors | src/parser.ts:451-452 | `errors.length ? errors.join("\n") : undefined` is undefined exactly when there are no errors, and a defined report is a non-empty string |
| Diagnostics.ReportAppend | src/parser.ts:344 | the report of two non-empty error lists is their two reports joined by one `"\n"` |
| Diagnostics.MessagesAppend | src/parser.ts:325-340 | rendering the errors of two lists in turn renders their concatenation |
| Diagnostics.TracksPush | src/parser.ts:336-338 | pushing a truthy sub-report onto the copied errors gives the same joined text as joining all underlying errors; an undefined sub-report pushes nothing |
| Diagnostics.TracksReport | src/parser.ts:344 | the lines collected this way join to exactly the report of all errors |
| Url.SanitizeURL | src/parser.ts:92-104 | no error iff the URL parses and its protocol is `http:` or `https:`, and then the url is the serialised URL; otherwise the url is `""` and the error is non-empty, and it is `invalid protocol <p>` for any other protocol |
| Values.ClueValueMultiplier | src/parser.ts:72-82 | no multiplier (a throw) iff the title does not match the pattern; the multiplier is 1 iff the captured date parses and is strictly before 2001-11-26, else 2 |
| Values.Before | src/parser.ts:78 | no contract of its own; its properties are in Values.CutoverDayIsDoubled and Values.ClueValueMultiplier |
| Values.HeaderEnd | src/parser.ts:53 | a header found at a position starts with `#` there and ends inside the text |
| Values.DateEnd | src/parser.ts:53 | a capture read from a position is non-empty and ends inside the text |
| Values.TitleMatchAt | src/parser.ts:53 | a match of the title pattern at a position starts with `#` there |
| Values.TitleCapture | src/parser.ts:73 | no contract of its own; its properties are in Values.NoHashNoMatch, Values.TitleCaptureSkips, Values.TitleCaptureAtFirstHash and Values.ShowTitleMatches |
| Values.NoHashNoMatch | src/parser.ts:73 | a title with no `#` from the start of the search on does not match |
| Values.HeaderEndOf | src/parser.ts:53 | `#`, a digit run, ` - `, a word run and `, ` make a header whose capture starts right after the `, ` |
| Values.DateEndOf | src/parser.ts:53 | a word run, ` `, a digit run, `, ` and a digit run make a capture that ends with the last run |
| Values.HeaderEndComplete | src/parser.ts:53 | every text with `#`, digits, ` - `, word characters and `, ` at the given places has a header there, ending after the `, ` |
| Values.DateEndComplete | src/parser.ts:53 | every text with word characters, ` `, digits, `, ` and a digit run that stops at the given places has a capture there, ending at that stop |
| Values.TitleMatchOf | src/parser.ts:53 | a header at a position and a capture read from its end make the match at that position, and the capture is the text between |
| Values.TitleCaptureSkips | src/parser.ts:73 | positions without `#` are skipped: the search from before them finds what the search from after them finds |
| Values.TitleCaptureAtFirstHash | src/parser.ts:73 | when the pattern matches at the first `#` from the start of the search, that match is what `match` returns |
| Values.ShowTitleNumber | src/parser.ts:51 | in `Show #3966 - Monday, November 26, 2001` the characters after `#` up to ` - ` are digits |
| Values.ShowTitleWeekday | src/parser.ts:51 | in that title the weekday `Monday` is word characters |
| Values.ShowTitleHeader | src/parser.ts:51-53 | the header of that title runs from its `#` to the start of `November` |
| Values.ShowTitleDate | src/parser.ts:51-53 | the capture of that title runs from `November` to the end of the year |
| Values.ShowTitleCapture | src/parser.ts:51 | the text between is `November 26, 2001` |
| Values.ShowTitlePrefix | src/parser.ts:51-53 | `Show ` has no `#`, so the search starts looking at the `#` |
| Values.ShowTitleMatches | src/parser.ts:51-53 | the example title `Show #3966 - Monday, November 26, 2001` matches, and the capture is `November 26, 2001` |
| Values.ErrorPlaceholderDoesNotMatch | src/parser.ts:48-53 | the title pattern does not match `***ERROR***`, because no title without `#` matches |
| Values.CutoverDayIsDoubled | src/parser.ts:48 | 2001-11-26 is not before the cut-over date, so that show is doubled; 2001-11-25 is before it |
| Values.ExpectedClueValueBounds | src/parser.ts:88-90 | for rows 0-4, rounds 0-1 and multiplier 1 or 2, the expected value is positive and at most 2000 |
| Values.TrimStart | src/parser.ts:398 | `parseInt` reads from a suffix of the text that does not start with white space, and every character dropped before it is JavaScript white space |
| Values.TrimStartNoSpace | src/parser.ts:398 | text that is empty or does not start with white space is read as it is |
| Values.ParseInt | src/parser.ts:398 | no contract of its own; its properties are in Values.ParseIntDigits, Values.ParseIntNoDigit and Values.ParseIntNegative |
| Values.ExpectedClueValue | src/parser.ts:88-90 | no contract of its own; its properties are in Values.ExpectedClueValueBounds |
| Values.DigitPrefix | src/parser.ts:398 | the parsed prefix is the longest run of digits of the radix |
| Values.ParseIntDigits | src/parser.ts:398 | a non-empty run of decimal digits parses to its decimal value; the empty string is NaN |
| Values.ParseIntNoDigit | src/parser.ts:398-399 | text starting with a non-space, non-sign, non-digit is NaN |
| Values.ParseIntNegative | src/parser.ts:398 | a leading `-` before a run of digits negates their non-negative value, so a parsed value can be negative |
| Speaker.SpeakerAt | src/parser.ts:59 | a match at a position is `(`, a non-empty run of word characters, `: `, a capture on one line and `)`, and the `.*` is greedy: no `)` follows the closing one on that line |
| Speaker.MatchFromOpen | src/parser.ts:59 | from a `(`, a match is a non-empty run of word characters, `: `, a capture on one line and `)`, with no `)` after the closing one on that line |
| Speaker.FindSpeaker | src/parser.ts:59 | a match found is well placed, lies at or after the start, and is the match at its own position |
| Speaker.FindSpeakerLeftmost | src/parser.ts:59 | the match found is the leftmost one: no earlier position from the start has a match; no match is found only when no position has one |
| Speaker.LeftmostStep | src/parser.ts:59 | one position back, the search either stops at a match there with nothing before it, or finds what the search from the next position finds |
| Speaker.SpeakerRewrite | src/parser.ts:288-292 | no contract of its own; its properties are in Speaker.SpeakerRewriteProperties |
| Speaker.SpeakerRewriteProperties | src/parser.ts:288-292 | a note with no `(` is unchanged; a rewritten note is shorter by at least the five characters of `(w: )` |
| Speaker.CloseOnLine | src/parser.ts:59 | for a well-placed match, the last `)` on its line is found, at or after the match's own `)` |
| Speaker.SpeakerAtComplete | src/parser.ts:59 | every well-placed `(word: text)` is found from its `(`, with the same capture start and a `)` no earlier than its own |
| Speaker.WholeNoteRewrite | src/parser.ts:288-292 | a note that is one `(word: text)` with no `)` or line break in the text is rewritten to the text |
| Speaker.ShortNoteExample | src/parser.ts:288-292 | `(A: h)` is rewritten to `h` |
| Response.StripTagsShrinks | src/parser.ts:182 | removing tags never lengthens the text and introduces no character |
| Response.StripTagsIsTagFree | src/parser.ts:182 | after removing tags, no `<` is followed later by a `>` |
| Response.StripTagsFixesTagFree | src/parser.ts:182 | tag-free text is left unchanged |
| Response.ReplaceQuotesIsIdentity | src/parser.ts:57 | replacing `'` by `'` leaves every string unchanged |
| Response.StripTags | src/parser.ts:182 | no contract of its own; its properties are in Response.StripTagsShrinks, Response.StripTagsIsTagFree, Response.StripTagsFixesTagFree and Response.StripTagsRemovesTag |
| Response.StripTagsRemovesTag | src/parser.ts:182 | after tag-free text, a `<…>` with no `>` inside is removed whole and the rest is stripped in turn |
| Response.ReplaceQuotes | src/parser.ts:184 | no contract of its own; Response.ReplaceQuotesIsIdentity shows it changes nothing |
| Response.ParseCorrectResponse | src/parser.ts:180-185 | no contract of its own; its properties are in Response.ParseCorrectResponseProperties and Response.EmphasisExample |
| Response.EmphasisExample | src/parser.ts:180-185 | an answer wrapped in `<em>…</em>` comes back as its text, apostrophes included |
| Response.ParseCorrectResponseProperties | src/parser.ts:180-185 | text without `<` is unchanged, the result is never longer and is tag-free, and normalising twice is normalising once |
| Clues.ReadClueText | src/parser.ts:368-377 | the clue text follows the rule: absent or empty is unrevealed, `"="` is missing, anything else is kept |
| Clues.ReadImageLink | src/parser.ts:379-388 | the image source and the errors appended follow the image rule for the given place |
| Clues.ReadValue | src/parser.ts:390-416 | the value, the wagerable flag and the errors appended follow the value-priority rule |
| Clues.ReadAnswer | src/parser.ts:418-430 | the answer and the errors appended follow the response rule |
| Clues.ClueParser.constructor | src/parser.ts:357-431 | the constructed fields are `ClueSpec` of the clue cell, its row, column, round and multiplier |
| Clues.ClueJsonify | src/parser.ts:443-453 | jsonify copies clue, answer, value, wagerable and imageSrc, never sets longForm, and reports an error iff one was recorded, as the `"\n"`-join of them all |
| Clues.ClueTextCases | src/parser.ts:365-377 | absent or empty clue text gives `***Unrevealed***` for the clue and the answer; `"="` gives `***Missing***`; other text is kept verbatim |
| Clues.UnrevealedClueIsEmpty | src/parser.ts:419-420 | an unrevealed clue is empty and has no response error, whatever its response holds |
| Clues.AnswerCases | src/parser.ts:418-430 | when the clue is not unrevealed: response `"="` gives `***Missing***` and no error; an absent or empty response gives `***ERROR***` and exactly one response error; any other response is normalised with no response error |
| Clues.ValueCases | src/parser.ts:391-416 | a printed value wins, parsed after an optional `$`, with exactly one value error if it is NaN and none otherwise; otherwise daily-double text gives the expected value with `wagerable = true`, and exactly one daily-double error if the `DD: ` prefix is missing and none otherwise; otherwise the expected value with `wagerable` undefined |
| Clues.DollarValueExample | src/parser.ts:396-398 | a printed `$400` is the value 400 and not wagerable |
| Clues.ImageCases | src/parser.ts:379-388 | no link gives no imageSrc and no image error; an accepted link gives the serialised URL; a rejected one gives `""` and exactly one image error, recorded first |
| Clues.ErrorKinds | src/parser.ts:384-408 | the image rule records only image errors, and the value rule records only value and daily-double errors |
| Clues.EmptyCases | src/parser.ts:433-441 | a cell without clue text gives an empty clue; a cell with clue text does exactly when that text is `"="` or a placeholder and the response is `"="` or normalises to a placeholder; a clue `"="` with response `"="` is empty |
| Clues.ClueRecord.IsEmpty | src/parser.ts:433-441 | no contract of its own; which cells give an empty clue is in Clues.EmptyCases, Clues.UnrevealedClueIsEmpty and Clues.MissingClueWithoutResponse |
| Clues.ClueRecord.Jsonify | src/parser.ts:443-453 | no contract of its own; its properties are in Clues.ClueJsonify |
| Clues.MissingClueWithoutResponse | src/parser.ts:373-374 | a clue recorded as `"="` with no response is not empty: its answer is `***ERROR***` |
| Boards.ReadCategory | src/parser.ts:272-298 | one category cell gives the name rule's name, the rewritten note and no clues, and appends the name rule's errors |
| Boards.ReadCategories | src/parser.ts:268-299 | the loop over the category cells fills one draft per cell, with the name errors in category order |
| Boards.DealClues | src/parser.ts:301-314 | the loop with `col`/`row` counters leaves each category holding the parsers of its column's cells, the t-th parsed at row t and the category's column |
| Boards.PushClue | src/parser.ts:306-308 | one step of the deal: after the k-th cell is pushed to category `col`, every category holds the parsed cells of its column among the first k + 1 cells, and names and notes are unchanged |
| Boards.BoardParser.constructor | src/parser.ts:265-315 | given enough categories for the deal, the constructed state is `RoundSpec` of the round, the container and the multiplier |
| Boards.JsonifyClues | src/parser.ts:334-340 | the clues of one category become JSON in order, and each truthy clue report is pushed in order |
| Boards.JsonifyCategories | src/parser.ts:331-341 | every category becomes its JSON form, and the clue reports are pushed in category-major order |
| Boards.BoardParser.Jsonify | src/parser.ts:324-346 | the board is the record's board, and the error is the report of the name errors followed by every clue error in category-major order |
| Boards.RoundReport | src/parser.ts:325-344 | the copied errors plus each truthy clue report join to exactly the report of all errors of the board |
| Boards.ColumnLength | src/parser.ts:305-314 | column c of n cells holds ⌈(n − c) / 6⌉ cells |
| Boards.ColumnAt | src/parser.ts:305-314 | the k-th cell is the (k / 6)-th cell of column k % 6 |
| Boards.ColumnBeyond | src/parser.ts:310-313 | columns at index 6 or more, or at least the number of cells, get no cell |
| Boards.ColumnsCoverCells | src/parser.ts:305-314 | the six columns together hold every cell |
| Boards.DealPlacement | src/parser.ts:302-314 | the k-th clue cell is parsed at row k / 6 and column k % 6, and stored as clue k / 6 of category k % 6 |
| Boards.WideCategoriesGetNoClues | src/parser.ts:310-313 | categories at index 6 or beyond receive no clues |
| Boards.CluesPreserved | src/parser.ts:305-314 | a round that does not crash keeps every clue cell: the categories hold as many clues as there were cells |
| Boards.CrashCondition | src/parser.ts:306 | the deal indexes a category that does not exist exactly when there are fewer than min(6, #cells) categories |
| Boards.CategoryNameErrorsExact | src/parser.ts:277-281 | there is a name error for category c iff its name is absent or empty, and there are no other errors |
| Boards.BoardNames | src/parser.ts:276-286 | `categoryNames[c] == categories[c].name` and both have one entry per category cell; an absent or empty name is `***ERROR***`, a `"="` name is `***Missing***`, and any other name is kept |
| Boards.RoundRecord.IsEmpty | src/parser.ts:317-322 | no contract of its own; its properties are in Boards.EmptyRounds and Games.EmptyRoundIsDropped |
| Boards.BoardParser.IsEmpty | src/parser.ts:317-322 | no contract of its own; it is the isEmpty of the parser's record, whose properties are in Boards.EmptyRounds |
| Boards.EmptyRounds | src/parser.ts:317-322 | a round with no clue cells is empty, and so is one whose clue cells all lack clue text |
| Boards.ClueOrigin | src/parser.ts:300-314 | clue t of category c comes from cell `6t + c`, which lies in column c and row t |
| Boards.EmptyRoundIffEmptyCells | src/parser.ts:317-322 | given enough categories for the deal, a round is empty iff every clue cell, read at its own row and column, gives an empty clue |
| Boards.CategoryNameRule | src/parser.ts:276-286 | no contract of its own; its properties are in Boards.CategoryNameErrorsExact, Boards.BoardNames and Boards.ReadCategory |
| Boards.CategoryNote | src/parser.ts:288-296 | no contract of its own; its properties are in Speaker.SpeakerRewriteProperties, Speaker.WholeNoteRewrite and Boards.ReadCategory |
| Finals.FinalBoardParser.constructor | src/parser.ts:194-231 | the constructed fields are `FinalSpec` of the container, with errors in the order category name, clue text, image, response |
| Finals.FinalBoardParser.Jsonify | src/parser.ts:233-254 | the board is the fixed single-clue board of the record, and the error is the report of its errors |
| Finals.FinalShape | src/parser.ts:233-251 | the final board has one category named after its one name, note `""`, and one clue with value 0, `wagerable` and `longForm` true, and no imageSrc |
| Finals.FinalFields | src/parser.ts:197-230 | each of category name, clue text and response is `***ERROR***`, with an error naming its class, iff its text is absent or empty; otherwise it is the text, the response normalised |
| Finals.FinalImageNotEmitted | src/parser.ts:214-221 | two containers differing only in their image link give the same board |
| Finals.FinalReport | src/parser.ts:252 | at most four errors, and no report iff every field was found and any link was accepted |
| Games.GameParser.constructor | src/parser.ts:115-145 | for a page that does not throw, the constructed state is `GameSpec` of the page: the title or `***ERROR***`, `note ?? ""`, and a parser for each round container present |
| Games.GameParser.Jsonify | src/parser.ts:147-176 | the game is the record's game, and the error is the report of the root errors, then those of J and DJ when present and not empty, then those of FJ when present |
| Games.JsonifyRound | src/parser.ts:158-167 | a standard round pushes its board and its truthy report exactly when it is present and not empty |
| Games.JsonifyFinal | src/parser.ts:168-172 | the final round pushes its board and its truthy report exactly when it is present |
| Games.GameLinesReport | src/parser.ts:156-175 | the lines jsonify collects join to exactly the report of all errors of the game |
| Games.ParseGame | src/parser.ts:64-67 | parseGame either throws what the constructor throws, or returns the game and report of `GameSpec` |
| Games.MissingTitleIsFatal | src/parser.ts:119-126 | a missing or empty title makes parseGame throw `could not parse title ***ERROR***` |
| Games.TooFewCategoriesIsFatal | src/parser.ts:125-140 | once the title parses, too few categories in J throws for round 0, otherwise in DJ for round 1, and otherwise parseGame returns |
| Games.FatalOf | src/parser.ts:126-140 | no contract of its own; its properties are in Games.MissingTitleIsFatal, Games.TooFewCategoriesIsFatal and Games.ParseGame |
| Games.GameHeader | src/parser.ts:148-154 | the game has the constant author `J! Archive` and copyright `Jeopardy!`, the title or `***ERROR***`, and `note ?? ""` |
| Games.GameBoards | src/parser.ts:158-172 | at most three boards: J first when present and not empty, then DJ likewise, then FJ last when present |
| Games.BoardOrder | src/parser.ts:158-172 | the boards pushed are counted and ordered J, DJ, FJ, whichever are included |
| Games.GameReport | src/parser.ts:155-175 | the game's report is undefined iff the title is present and every board pushed has no error; a defined report is non-empty |
| Games.EmptyRoundIsDropped | src/parser.ts:158-162 | an empty Jeopardy! round contributes neither a board nor errors: the outcome equals that of the page without the round |
| Games.DropEmptyJ | src/parser.ts:158-162 | removing an empty J round changes neither the boards nor the errors reported |
| Games.NoCluesIsDropped | src/parser.ts:318-321 | in particular, a round with no clue cells is dropped |
| Popup.Decide | src/popup/popup.ts:22-29 | a truthy error is reported even when there is a game; otherwise a null game reports `unknown error`; the game is shown iff there is one and no truthy error |
| Popup.FileStem | src/popup/popup.ts:59 | the stem has the title's length, and each character is the title's character lower-cased if it is in `[A-Za-z0-9]`, else `_` |
| Popup.StemChar | src/popup/popup.ts:59 | no contract of its own; its properties are in Popup.FileStem, Popup.StemCharacters and Popup.SameStem |
| Popup.FileName | src/popup/popup.ts:60 | the download name is the stem followed by `.jep.json` |
| Popup.StemCharacters | src/popup/popup.ts:59 | every stem character is in `[a-z0-9_]`, and it is `_` wherever the title has a character outside `[A-Za-z0-9]` |
| Popup.StemKeepsAlphanumerics | src/popup/popup.ts:59 | an alphanumeric title character survives in the stem up to ASCII case |
| Popup.StemIdempotent | src/popup/popup.ts:59 | deriving a stem from a stem leaves it unchanged |
| Popup.SameStem | src/popup/popup.ts:59-60 | titles that agree character by character up to case and up to which non-alphanumerics they hold get the same file name |
| Popup.ShowTitleExample | src/popup/popup.ts:59 | `Show #1, 2001` gives the stem `show__1__2001` |

## Left out

- DOM querying (`querySelector`, `getElementsByClassName`, `getElementsByTagName`, `textContent`, `href`) is replaced by the input datatypes, which list the text each query would return.
- `Date.parse` is a parameter `parseDate` of the multiplier and of the game parser. An invalid date, which compares false with `<`, is `None` and gives multiplier 2.
- WHATWG URL parsing and serialisation in `new URL` / `toString()` are abstracted. Each link carries an optional parsed protocol and serialisation. A parse failure's message is the fixed string `Invalid URL`.
- Url.SanitizeURL: the `"unknown error"` branch for a thrown non-`Error` is unreachable and is not modelled.
- `parseInt` is modelled on unbounded integers. Its floating-point rounding of very long digit strings is not modelled.
- Exceptions are modelled as the structured `Fatal` outcome. A `TypeError`'s message text is not modelled.
- `JSON.stringify` and `encodeURIComponent` are not modelled. Neither is any DOM mutation in the popup: `showGame`, `reportExecuteScriptError` and the download link's attributes.
- Tab messaging and the async control flow of the popup are not modelled.
- Popup.FileStem: a title is a sequence of Unicode scalar values. A character outside the Basic Multilingual Plane, which JavaScript's regex replacement sees as two UTF-16 code units and turns into two `_`, is turned into one `_` here.
- `src/content-script.ts` is an earlier, superseded version of the extractor and is not part of this model. Neither are `source/content-script.ts`, `source/popup/options.ts` or the build configuration.
- The `SPEAKER_REGEX` rewrite is modelled on its first match only. Its backtracking through greedy `.*` is modelled as choosing the last `)` on the line of the match.
