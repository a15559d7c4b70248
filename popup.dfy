/** The popup's two decisions: whether the content script's response is shown
    as a game or as an error message, and the name of the file the game is
    offered for download under. */
module Popup {
  import opened Base
  import opened Records

  const UNKNOWN_ERROR: string := "unknown error"
  const FILE_SUFFIX: string := ".jep.json"

  /** The content script's reply: `game: Game | null` and an optional error. */
  datatype Response = Response(game: Option<Game>, error: Option<string>)

  /** What the popup ends up doing with a reply. */
  datatype Display = ReportError(message: string) | ShowGame(game: Game)

  /** requestGame, after the reply has arrived: a truthy error wins, then a
      missing game is an unknown error, else the game is shown. */
  function Decide(response: Response): (d: Display)
    ensures d.ShowGame? <==> response.game.Some? && !Present(response.error)
    ensures d.ShowGame? ==> d.game == response.game.value
    ensures Present(response.error) ==> d == ReportError(response.error.value)
    ensures !Present(response.error) && response.game.None? ==> d == ReportError(UNKNOWN_ERROR)
  {
    if Present(response.error) then ReportError(response.error.value)
    else if response.game.None? then ReportError(UNKNOWN_ERROR)
    else ShowGame(response.game.value)
  }

  predicate IsAsciiLetter(c: char)
  {
    ('a' <= c <= 'z') || ('A' <= c <= 'Z')
  }

  /** The characters `/[^a-z0-9]/gi` leaves alone. */
  predicate Kept(c: char)
  {
    IsAsciiLetter(c) || IsDigit(c)
  }

  /** toLowerCase on a character the replacement has kept (or on '_'): only
      ASCII upper-case letters change. */
  function Lower(c: char): (l: char)
    ensures 'A' <= c <= 'Z' ==> 'a' <= l <= 'z' && l as int - c as int == 'a' as int - 'A' as int
    ensures !('A' <= c <= 'Z') ==> l == c
  {
    if 'A' <= c <= 'Z' then (c as int - 'A' as int + 'a' as int) as char else c
  }

  /** The stem of the download name, character by character: a kept
      character in lower case, anything else '_'. */
  function StemChar(c: char): char
  {
    if Kept(c) then Lower(c) else '_'
  }

  function FileStem(title: string): (stem: string)
    ensures |stem| == |title|
    ensures forall k :: 0 <= k < |title| ==> stem[k] == StemChar(title[k])
  {
    if title == [] then [] else FileStem(title[..|title| - 1]) + [StemChar(title[|title| - 1])]
  }

  /** The `download` attribute of the link. */
  function FileName(title: string): (name: string)
    ensures name == FileStem(title) + FILE_SUFFIX
    ensures |name| == |title| + |FILE_SUFFIX|
  {
    FileStem(title) + FILE_SUFFIX
  }

  /** The characters a stem is made of. */
  predicate StemAlphabet(c: char)
  {
    ('a' <= c <= 'z') || IsDigit(c) || c == '_'
  }

  /** Every character of the stem is a lower-case ASCII letter, a digit or
      '_', and it is '_' exactly where the title has a character outside
      [A-Za-z0-9]. */
  lemma StemCharacters(title: string)
    ensures forall k :: 0 <= k < |FileStem(title)| ==> StemAlphabet(FileStem(title)[k])
    ensures forall k :: 0 <= k < |title| && !Kept(title[k]) ==> FileStem(title)[k] == '_'
    ensures forall k :: 0 <= k < |title| && title[k] != '_' && FileStem(title)[k] == '_' ==> !Kept(title[k])
  {
  }

  /** Letters and digits survive up to case: the stem agrees with the title,
      ignoring ASCII case, wherever the title is alphanumeric. */
  lemma StemKeepsAlphanumerics(title: string, k: nat)
    requires k < |title| && Kept(title[k])
    ensures Lower(FileStem(title)[k]) == Lower(title[k])
    ensures Kept(FileStem(title)[k])
  {
  }

  /** Deriving a stem from a stem changes nothing. */
  lemma {:induction false} StemIdempotent(title: string)
    ensures FileStem(FileStem(title)) == FileStem(title)
  {
    var stem := FileStem(title);
    forall k | 0 <= k < |stem|
      ensures FileStem(stem)[k] == stem[k]
    {
      assert stem[k] == StemChar(title[k]);
    }
  }

  /** Titles that differ only in ASCII case or in which non-alphanumeric
      characters they hold get the same file name. */
  lemma {:induction false} SameStem(a: string, b: string)
    requires |a| == |b|
    requires forall k :: 0 <= k < |a| ==> StemChar(a[k]) == StemChar(b[k])
    ensures FileName(a) == FileName(b)
  {
    assert FileStem(a) == FileStem(b);
  }

  /** For example, the usual archive title. */
  lemma ShowTitleExample()
    ensures FileStem("Show #1, 2001") == "show__1__2001"
  {
  }
}
