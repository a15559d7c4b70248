/** The category-note rewrite `note.replace(/\(\w+: (.*)\)/, "$1")`: the
    first `(Speaker: text)` annotation is replaced by its text.  The pattern is
    unanchored and not global; `.*` is greedy and stops at a line terminator. */
module Speaker {
  import opened Base

  /** The characters `.` does not match. */
  predicate IsLineTerminator(c: char)
  {
    c == '\n' || c == '\r' || c as int == 0x2028 || c as int == 0x2029
  }

  /** The first line terminator at or after `k`, or the end of `s`. */
  function LineEnd(s: string, k: nat): (e: nat)
    requires k <= |s|
    ensures k <= e <= |s|
    ensures e < |s| ==> IsLineTerminator(s[e])
    ensures forall q :: k <= q < e ==> !IsLineTerminator(s[q])
    decreases |s| - k
  {
    if k == |s| || IsLineTerminator(s[k]) then k else LineEnd(s, k + 1)
  }

  /** The last `)` in `s[lo..hi]`, if any. */
  function LastClose(s: string, lo: nat, hi: nat): (r: Option<nat>)
    requires lo <= hi <= |s|
    ensures r.Some? ==> lo <= r.value < hi && s[r.value] == ')'
    ensures r.Some? ==> forall q :: r.value < q < hi ==> s[q] != ')'
    ensures r.None? ==> forall q :: lo <= q < hi ==> s[q] != ')'
    decreases hi - lo
  {
    if hi == lo then None
    else if s[hi - 1] == ')' then Some(hi - 1)
    else LastClose(s, lo, hi - 1)
  }

  /** A match: `s[open]` is `(`, the capture is `s[capture..close]` and
      `s[close]` is the closing `)`. */
  datatype SpeakerMatch = SpeakerMatch(open: nat, capture: nat, close: nat)

  /** `(`, a run of word characters, `: `, a capture on one line, `)`. */
  predicate WellPlaced(s: string, m: SpeakerMatch)
  {
    && m.open + 3 < m.capture <= m.close < |s| && s[m.open] == '(' && s[m.close] == ')'
    && s[m.capture - 2] == ':' && s[m.capture - 1] == ' '
    && (forall q :: m.open < q < m.capture - 2 ==> IsWordChar(s[q]))
    && (forall q :: m.capture <= q < m.close ==> !IsLineTerminator(s[q]))
  }

  /** The match starting at the `(` at `p`, if any.  `\w+` must be followed
      by `:`, a non-word character, so it takes the whole run of word
      characters; the greedy `(.*)\)` ends at the last `)` before the line
      ends. */
  function MatchFromOpen(s: string, p: nat): (r: Option<SpeakerMatch>)
    requires p < |s| && s[p] == '('
    ensures r.Some? ==> r.value.open == p && WellPlaced(s, r.value)
    ensures r.Some? ==> forall q :: r.value.close < q < LineEnd(s, r.value.capture) ==> s[q] != ')'
  {
    var w := WordRun(s, p + 1);
    WordRunWords(s, p + 1);
    var colon := p + 1 + w;
    if w == 0 || !LiteralAt(s, colon, ": ") then None
    else
      var start := colon + 2;
      match LastClose(s, start, LineEnd(s, start))
      case None => None
      case Some(close) => Some(SpeakerMatch(p, start, close))
  }

  /** The match starting at `p`, if any: there must be a `(` there. */
  function SpeakerAt(s: string, p: nat): (r: Option<SpeakerMatch>)
    requires p <= |s|
    ensures r.Some? ==> r.value.open == p && WellPlaced(s, r.value)
    ensures r.Some? ==> forall q :: r.value.close < q < LineEnd(s, r.value.capture) ==> s[q] != ')'
  {
    if p < |s| && s[p] == '(' then MatchFromOpen(s, p) else None
  }

  /** No position in `[lo, hi)` starts a match. */
  predicate NoMatchIn(s: string, lo: nat, hi: nat)
  {
    forall p :: lo <= p < hi && p <= |s| ==> SpeakerAt(s, p).None?
  }

  /** The leftmost match at or after `from`. */
  function FindSpeaker(s: string, from: nat): (r: Option<SpeakerMatch>)
    requires from <= |s|
    ensures r.Some? ==> from <= r.value.open && WellPlaced(s, r.value)
    ensures r.Some? ==> SpeakerAt(s, r.value.open) == r
    decreases |s| - from
  {
    if from == |s| then None
    else match SpeakerAt(s, from)
      case Some(m) => Some(m)
      case None => FindSpeaker(s, from + 1)
  }

  /** A position without a match in front of a stretch without one. */
  lemma NoMatchExtend(s: string, from: nat, hi: nat)
    requires from <= |s| && SpeakerAt(s, from).None?
    requires NoMatchIn(s, from + 1, hi)
    ensures NoMatchIn(s, from, hi)
  {
    forall p | from <= p < hi && p <= |s| ensures SpeakerAt(s, p).None? {
      if p != from {
        assert from + 1 <= p;
      }
    }
  }

  /** `r`, the result of a search from `from`, is the leftmost match: no
      position before it has one, and when there is none, no position at all. */
  predicate Leftmost(s: string, from: nat, r: Option<SpeakerMatch>)
  {
    if r.Some? then NoMatchIn(s, from, r.value.open) else NoMatchIn(s, from, |s| + 1)
  }

  /** At the end of the text nothing is found, and there is nothing to find. */
  lemma LeftmostAtEnd(s: string)
    ensures Leftmost(s, |s|, FindSpeaker(s, |s|))
  {
    assert SpeakerAt(s, |s|).None?;
    assert NoMatchIn(s, |s| + 1, |s| + 1);
    NoMatchExtend(s, |s|, |s| + 1);
  }

  /** One step back of the search: a match at `k - 1` is the one found and
      nothing lies before it; without one, the search from `k - 1` finds what
      the search from `k` does. */
  lemma LeftmostStep(s: string, k: nat)
    requires 0 < k <= |s|
    requires Leftmost(s, k, FindSpeaker(s, k))
    ensures Leftmost(s, k - 1, FindSpeaker(s, k - 1))
  {
    var from := k - 1;
    var r := FindSpeaker(s, from);
    if SpeakerAt(s, from).Some? {
      assert r == SpeakerAt(s, from);
      assert NoMatchIn(s, from, from);
    } else {
      assert r == FindSpeaker(s, k);
      var hi := if r.Some? then r.value.open else |s| + 1;
      NoMatchExtend(s, from, hi);
    }
  }

  /** The match found is the leftmost one, and none is found only when no
      position has a match. */
  lemma FindSpeakerLeftmost(s: string, from: nat)
    requires from <= |s|
    ensures FindSpeaker(s, from).Some? ==> NoMatchIn(s, from, FindSpeaker(s, from).value.open)
    ensures FindSpeaker(s, from).None? ==> NoMatchIn(s, from, |s| + 1)
  {
    LeftmostAtEnd(s);
    var k := |s|;
    while k > from
      invariant from <= k <= |s|
      invariant Leftmost(s, k, FindSpeaker(s, k))
    {
      LeftmostStep(s, k);
      k := k - 1;
    }
    assert k == from;
    assert Leftmost(s, from, FindSpeaker(s, from));
  }

  function SpeakerRewrite(note: string): string
  {
    match FindSpeaker(note, 0)
    case None => note
    case Some(m) => note[..m.open] + note[m.capture..m.close] + note[m.close + 1..]
  }

  lemma {:induction false} NoOpenNoMatch(s: string, from: nat)
    requires from <= |s|
    requires forall q :: from <= q < |s| ==> s[q] != '('
    ensures FindSpeaker(s, from).None?
    decreases |s| - from
  {
    if from < |s| {
      NoOpenNoMatch(s, from + 1);
    }
  }

  /** A note with no `(` is kept verbatim; any rewrite removes at least the
      parentheses, the speaker name, the colon and the space. */
  lemma SpeakerRewriteProperties(note: string)
    ensures '(' !in note ==> SpeakerRewrite(note) == note
    ensures SpeakerRewrite(note) == note || |SpeakerRewrite(note)| <= |note| - 5
  {
    if '(' !in note {
      NoOpenNoMatch(note, 0);
    }
  }

  /** The greedy `(.*)\)` of a well-placed match finds a `)` on the line,
      at or after the match's own. */
  lemma CloseOnLine(s: string, m: SpeakerMatch)
    requires WellPlaced(s, m)
    ensures LastClose(s, m.capture, LineEnd(s, m.capture)).Some?
    ensures m.close <= LastClose(s, m.capture, LineEnd(s, m.capture)).value
  {
    assert m.close < LineEnd(s, m.capture) by {
      assert !IsLineTerminator(s[m.close]);
    }
  }

  /** Every well-placed `(word: text)` is found from its `(`: the match there
      has the same capture start and, `.*` being greedy, closes no earlier. */
  lemma SpeakerAtComplete(s: string, m: SpeakerMatch)
    requires WellPlaced(s, m)
    ensures SpeakerAt(s, m.open).Some?
    ensures SpeakerAt(s, m.open).value.capture == m.capture
    ensures m.close <= SpeakerAt(s, m.open).value.close
  {
    var p := m.open;
    WordRunIs(s, p + 1, m.capture - 3 - p);
    assert p + 1 + WordRun(s, p + 1) + 2 == m.capture;
    PairAt(s, p + 1 + WordRun(s, p + 1), ':', ' ');
    CloseOnLine(s, m);
    var lc := LastClose(s, m.capture, LineEnd(s, m.capture));
    assert MatchFromOpen(s, p) == Some(SpeakerMatch(p, m.capture, lc.value));
  }

  /** A note that is one `(word: text)` annotation, with no `)` and no line
      break in the text, is rewritten to the text. */
  lemma WholeNoteRewrite(w: string, t: string)
    requires w != [] && forall q :: 0 <= q < |w| ==> IsWordChar(w[q])
    requires forall q :: 0 <= q < |t| ==> t[q] != ')' && !IsLineTerminator(t[q])
    ensures SpeakerRewrite("(" + w + ": " + t + ")") == t
  {
    var note := "(" + w + ": " + t + ")";
    var m := SpeakerMatch(0, |w| + 3, |w| + 3 + |t|);
    assert note[m.capture - 2..m.capture] == ": ";
    forall q | m.open < q < m.capture - 2 ensures IsWordChar(note[q]) {
      assert note[q] == w[q - 1];
    }
    forall q | m.capture <= q < m.close ensures !IsLineTerminator(note[q]) {
      assert note[q] == t[q - m.capture];
    }
    assert WellPlaced(note, m);
    SpeakerAtComplete(note, m);
    assert FindSpeaker(note, 0) == SpeakerAt(note, 0);
    var r := FindSpeaker(note, 0).value;
    assert r.close == m.close;
    assert note[m.capture..m.close] == t;
  }

  /** For example, `(A: h)` becomes `h`. */
  lemma ShortNoteExample()
    ensures SpeakerRewrite("(A: h)") == "h"
  {
    WholeNoteRewrite("A", "h");
    assert "(" + "A" + ": " + "h" + ")" == "(A: h)";
  }
}
