/** The correct-response normaliser: remove every `<...>` tag, then apply the
    quote replacement, which as written replaces `'` by `'`. */
module Response {

  /** The index of the first `>` at or after position `k`. */
  function CloseAt(s: string, k: nat): (r: nat)
    requires k <= |s| && '>' in s[k..]
    ensures k <= r < |s| && s[r] == '>'
    ensures forall q :: k <= q < r ==> s[q] != '>'
    decreases |s| - k
  {
    if s[k] == '>' then k else CloseAt(s, k + 1)
  }

  /** `s.replace(/<[^>]*>/g, "")`: scanning from the left, a `<` that has a
      `>` somewhere after it starts a tag that runs to the first such `>`;
      a `<` with no `>` after it is kept. */
  function StripTags(s: string): string
    decreases |s|
  {
    if s == [] then []
    else if s[0] == '<' && '>' in s[1..] then StripTags(s[CloseAt(s, 1) + 1..])
    else [s[0]] + StripTags(s[1..])
  }

  /** `s.replace(/'/g, "'")`: every apostrophe is written back as itself. */
  function ReplaceQuotes(s: string): string
  {
    if s == [] then []
    else (if s[0] == '\'' then "'" else [s[0]]) + ReplaceQuotes(s[1..])
  }

  /** parseCorrectResponse */
  function ParseCorrectResponse(answerText: string): string
  {
    ReplaceQuotes(StripTags(answerText))
  }

  /** No `<` is followed, anywhere later, by a `>`: nothing left a tag regex can match. */
  ghost predicate TagFree(s: string)
  {
    forall i, j :: 0 <= i < j < |s| && s[i] == '<' ==> s[j] != '>'
  }

  /** The quote step, as written, changes nothing. */
  lemma {:induction false} ReplaceQuotesIsIdentity(s: string)
    ensures ReplaceQuotes(s) == s
  {
    if s != [] {
      ReplaceQuotesIsIdentity(s[1..]);
      assert (if s[0] == '\'' then "'" else [s[0]]) == [s[0]];
      assert s == [s[0]] + s[1..];
    }
  }

  /** Text with no `<` comes back unchanged. */
  lemma {:induction false} StripTagsWithoutOpen(s: string)
    requires '<' !in s
    ensures StripTags(s) == s
  {
    if s != [] {
      assert s[0] != '<';
      assert '<' !in s[1..];
      StripTagsWithoutOpen(s[1..]);
      assert s == [s[0]] + s[1..];
    }
  }

  /** Stripping never lengthens, and only keeps characters of the input. */
  lemma {:induction false} StripTagsShrinks(s: string)
    ensures |StripTags(s)| <= |s|
    ensures forall c :: c in StripTags(s) ==> c in s
    decreases |s|
  {
    if s != [] {
      if s[0] == '<' && '>' in s[1..] {
        var rest := s[CloseAt(s, 1) + 1..];
        StripTagsShrinks(rest);
        forall c | c in StripTags(s) ensures c in s {
          var k :| 0 <= k < |rest| && rest[k] == c;
          assert s[CloseAt(s, 1) + 1 + k] == c;
        }
      } else {
        StripTagsShrinks(s[1..]);
        forall c | c in StripTags(s) ensures c in s {
          if c != s[0] {
            assert c in StripTags(s[1..]);
          }
        }
      }
    }
  }

  /** In the output, no `<` is followed by a `>`. */
  lemma {:induction false} StripTagsIsTagFree(s: string)
    ensures TagFree(StripTags(s))
    decreases |s|
  {
    if s != [] {
      if s[0] == '<' && '>' in s[1..] {
        StripTagsIsTagFree(s[CloseAt(s, 1) + 1..]);
      } else {
        var rest := StripTags(s[1..]);
        StripTagsIsTagFree(s[1..]);
        var r := [s[0]] + rest;
        assert StripTags(s) == r;
        if s[0] == '<' {
          StripTagsShrinks(s[1..]);
          assert '>' !in rest;
        }
        forall i, j | 0 <= i < j < |r| && r[i] == '<' ensures r[j] != '>' {
          if i > 0 {
            assert rest[i - 1] == '<' && r[j] == rest[j - 1];
          } else {
            assert r[j] == rest[j - 1] && rest[j - 1] in rest;
          }
        }
      }
    }
  }

  /** Tag-free text is a fixed point of stripping. */
  lemma {:induction false} StripTagsFixesTagFree(s: string)
    requires TagFree(s)
    ensures StripTags(s) == s
  {
    if s != [] {
      if s[0] == '<' {
        assert forall q :: 1 <= q < |s| ==> s[q] != '>';
        assert '>' !in s[1..];
      }
      assert TagFree(s[1..]) by {
        forall i, j | 0 <= i < j < |s[1..]| && s[1..][i] == '<' ensures s[1..][j] != '>' {
          assert s[i + 1] == '<';
        }
      }
      StripTagsFixesTagFree(s[1..]);
      assert s == [s[0]] + s[1..];
    }
  }

  /** Stripping twice is stripping once. */
  lemma StripTagsIdempotent(s: string)
    ensures StripTags(StripTags(s)) == StripTags(s)
  {
    StripTagsIsTagFree(s);
    StripTagsFixesTagFree(StripTags(s));
  }

  /** The normaliser keeps text without `<` as it is, never lengthens its
      input, leaves no tag behind, and normalising twice is normalising once. */
  lemma ParseCorrectResponseProperties(s: string)
    ensures '<' !in s ==> ParseCorrectResponse(s) == s
    ensures |ParseCorrectResponse(s)| <= |s|
    ensures TagFree(ParseCorrectResponse(s))
    ensures ParseCorrectResponse(ParseCorrectResponse(s)) == ParseCorrectResponse(s)
  {
    ReplaceQuotesIsIdentity(StripTags(s));
    ReplaceQuotesIsIdentity(StripTags(StripTags(s)));
    if '<' !in s {
      StripTagsWithoutOpen(s);
    }
    StripTagsShrinks(s);
    StripTagsIsTagFree(s);
    StripTagsIdempotent(s);
  }

  /** A tag after tag-free text is removed whole, and the rest is stripped
      in turn. */
  lemma {:induction false} StripTagsRemovesTag(a: string, t: string, b: string)
    requires '<' !in a && '>' !in t
    ensures StripTags(a + ['<'] + t + ['>'] + b) == a + StripTags(b)
    decreases |a|
  {
    var s := a + ['<'] + t + ['>'] + b;
    if a == [] {
      assert s == ['<'] + t + ['>'] + b;
      assert s[1 + |t|] == '>';
      assert '>' in s[1..];
      var close := CloseAt(s, 1);
      assert forall q :: 1 <= q < 1 + |t| ==> s[q] == t[q - 1];
      assert close == 1 + |t|;
      assert s[close + 1..] == b;
    } else {
      assert s[0] == a[0] && s[0] != '<';
      assert s[1..] == a[1..] + ['<'] + t + ['>'] + b;
      StripTagsRemovesTag(a[1..], t, b);
      assert a == [a[0]] + a[1..];
    }
  }

  /** An emphasised answer loses its tags and keeps its text. */
  lemma EmphasisExample(w: string)
    requires '<' !in w
    ensures ParseCorrectResponse("<em>" + w + "</em>") == w
  {
    var em, close := "em", "/em";
    assert '>' !in em && '>' !in close;
    var tail := w + ['<'] + close + ['>'] + [];
    var full := [] + ['<'] + em + ['>'] + tail;
    assert "<em>" + w + "</em>" == full;
    StripTagsRemovesTag([], em, tail);
    StripTagsRemovesTag(w, close, []);
    assert StripTags(full) == w;
    ReplaceQuotesIsIdentity(w);
  }
}
