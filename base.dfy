/** Shared vocabulary of the extractor: optional values, the reserved sentinel
    strings, JavaScript truthiness of an optional string, and the "\n" join
    that the error reports use. */
module Base {

  datatype Option<+T> = None | Some(value: T)

  /** Used when a field has an error. */
  const ERROR_PLACEHOLDER: string := "***ERROR***"
  /** Used when a field was not revealed in the game playthrough. */
  const UNREVEALED_PLACEHOLDER: string := "***Unrevealed***"
  /** Used when a field was not recorded by the archive. */
  const MISSING_PLACEHOLDER: string := "***Missing***"
  /** The archive's marker for a clue or response it did not record. */
  const MISSING_CLUE_FLAG: string := "="

  /** JavaScript truthiness of `string | undefined`: `!x` holds for an absent
      value and for the empty string alike. */
  predicate Present(s: Option<string>)
  {
    s.Some? && s.value != ""
  }

  /** `s.startsWith(prefix)` */
  predicate StartsWith(s: string, prefix: string)
  {
    prefix <= s
  }

  /** `lines.join("\n")` */
  function Join(lines: seq<string>): string
  {
    if |lines| == 0 then ""
    else if |lines| == 1 then lines[0]
    else Join(lines[..|lines| - 1]) + "\n" + lines[|lines| - 1]
  }

  /** Joining two non-empty lists is joining each and putting one "\n" between. */
  lemma {:induction false} JoinAppend(a: seq<string>, b: seq<string>)
    requires |a| > 0 && |b| > 0
    ensures Join(a + b) == Join(a) + "\n" + Join(b)
    decreases |b|
  {
    if |b| == 1 {
      assert (a + b)[..|a + b| - 1] == a;
    } else {
      var b' := b[..|b| - 1];
      assert (a + b)[..|a + b| - 1] == a + b';
      JoinAppend(a, b');
    }
  }

  /** A join of non-empty lines is non-empty, so `if (error)` is taken exactly
      when there was at least one line. */
  lemma {:induction false} JoinNonEmpty(lines: seq<string>)
    requires |lines| > 0
    requires forall k :: 0 <= k < |lines| ==> lines[k] != ""
    ensures Join(lines) != ""
  {
    if |lines| > 1 {
      assert |Join(lines)| >= |lines[|lines| - 1]|;
    }
  }

  // Character classes of JavaScript regular expressions (no `u` flag).

  predicate IsDigit(c: char) { '0' <= c <= '9' }

  /** `\w` without the `u` flag. */
  predicate IsWordChar(c: char)
  {
    ('a' <= c <= 'z') || ('A' <= c <= 'Z') || IsDigit(c) || c == '_'
  }

  /** The length of the longest run of digits starting at `k`. */
  function DigitRun(s: string, k: nat): (n: nat)
    requires k <= |s|
    ensures k + n <= |s|
    ensures k + n < |s| ==> !IsDigit(s[k + n])
    decreases |s| - k
  {
    if k < |s| && IsDigit(s[k]) then 1 + DigitRun(s, k + 1) else 0
  }

  /** The length of the longest run of word characters starting at `k`. */
  function WordRun(s: string, k: nat): (n: nat)
    requires k <= |s|
    ensures k + n <= |s|
    ensures k + n < |s| ==> !IsWordChar(s[k + n])
    decreases |s| - k
  {
    if k < |s| && IsWordChar(s[k]) then 1 + WordRun(s, k + 1) else 0
  }

  /** Every character of a digit run is a digit. */
  lemma {:induction false} DigitRunDigits(s: string, k: nat)
    requires k <= |s|
    ensures forall q :: k <= q < k + DigitRun(s, k) ==> IsDigit(s[q])
    decreases |s| - k
  {
    if k < |s| && IsDigit(s[k]) {
      DigitRunDigits(s, k + 1);
    }
  }

  /** Every character of a word run is a word character. */
  lemma {:induction false} WordRunWords(s: string, k: nat)
    requires k <= |s|
    ensures forall q :: k <= q < k + WordRun(s, k) ==> IsWordChar(s[q])
    decreases |s| - k
  {
    if k < |s| && IsWordChar(s[k]) {
      WordRunWords(s, k + 1);
    }
  }

  /** Does `s` hold the literal `lit` at position `k`? */
  predicate LiteralAt(s: string, k: nat, lit: string)
  {
    k + |lit| <= |s| && s[k..k + |lit|] == lit
  }

  /** A run of digits that stops at the end or at a non-digit is the run
      `\d+` and `parseInt` take. */
  lemma DigitRunIs(s: string, k: nat, n: nat)
    requires k + n <= |s|
    requires forall q :: k <= q < k + n ==> IsDigit(s[q])
    requires k + n == |s| || !IsDigit(s[k + n])
    ensures DigitRun(s, k) == n
  {
    DigitRunDigits(s, k);
  }

  /** The same for `\w+`. */
  lemma WordRunIs(s: string, k: nat, n: nat)
    requires k + n <= |s|
    requires forall q :: k <= q < k + n ==> IsWordChar(s[q])
    requires k + n == |s| || !IsWordChar(s[k + n])
    ensures WordRun(s, k) == n
  {
    WordRunWords(s, k);
  }

  /** One character, two and three, read as literals. */
  lemma CharAt(s: string, k: nat, c0: char)
    requires k < |s| && s[k] == c0
    ensures LiteralAt(s, k, [c0])
  {
    assert s[k..k + 1] == [c0];
  }

  lemma PairAt(s: string, k: nat, c0: char, c1: char)
    requires k + 1 < |s| && s[k] == c0 && s[k + 1] == c1
    ensures LiteralAt(s, k, [c0, c1])
  {
    assert s[k..k + 2] == [c0, c1];
  }

  lemma TripleAt(s: string, k: nat, c0: char, c1: char, c2: char)
    requires k + 2 < |s| && s[k] == c0 && s[k + 1] == c1 && s[k + 2] == c2
    ensures LiteralAt(s, k, [c0, c1, c2])
  {
    assert s[k..k + 3] == [c0, c1, c2];
  }

  function DigitChar(d: nat): (c: char)
    requires d < 10
    ensures IsDigit(c)
  {
    ('0' as int + d) as char
  }

  /** The decimal text of a non-negative integer, as template literals print it. */
  function NatToString(n: nat): (r: string)
    ensures |r| > 0
    decreases n
  {
    if n < 10 then [DigitChar(n)] else NatToString(n / 10) + [DigitChar(n % 10)]
  }

  function Min(a: int, b: int): int
  {
    if a <= b then a else b
  }
}
