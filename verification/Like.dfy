/** Escaping of search terms for `ILIKE … ESCAPE '\'`, against the matcher that
    the server applies to the pattern. */
module Like {
  import opened Text

  /** `escape_like`: three replacements, the backslash first. */
  function EscapeLike(value: string): string {
    ReplaceChar(ReplaceChar(ReplaceChar(value, '\\', "\\\\"), '%', "\\%"), '_', "\\_")
  }

  /** The pattern bound for a `$contains` filter. */
  function ContainsPattern(value: string): string {
    "%" + EscapeLike(value) + "%"
  }

  /** LIKE matching with escape character `\`; `same(p, t)` says that pattern
      character `p` matches text character `t`. A pattern that ends in the
      escape character matches nothing. */
  predicate Matches(same: (char, char) -> bool, pattern: string, text: string)
    decreases |pattern| + |text|
  {
    if pattern == [] then text == []
    else if pattern[0] == '%' then
      Matches(same, pattern[1..], text) || (text != [] && Matches(same, pattern, text[1..]))
    else if pattern[0] == '_' then
      text != [] && Matches(same, pattern[1..], text[1..])
    else if pattern[0] == '\\' then
      |pattern| > 1 && text != [] && same(pattern[1], text[0]) && Matches(same, pattern[2..], text[1..])
    else
      text != [] && same(pattern[0], text[0]) && Matches(same, pattern[1..], text[1..])
  }

  /** `value` occurs in `text` at position `i`, character by character. */
  predicate OccursAt(same: (char, char) -> bool, value: string, text: string, i: nat) {
    i + |value| <= |text| && forall k | 0 <= k < |value| :: same(value[k], text[i + k])
  }

  /** `value` occurs somewhere in `text`. */
  predicate Contains(same: (char, char) -> bool, value: string, text: string) {
    exists i | 0 <= i <= |text| :: OccursAt(same, value, text, i)
  }

  function EscapeOne(c: char): string {
    if c == '\\' || c == '%' || c == '_' then ['\\', c] else [c]
  }

  /** The three chained replacements are one pass: later replacements never
      touch what an earlier one inserted. */
  lemma {:induction false} EscapeLikeStep(value: string)
    requires value != []
    ensures EscapeLike(value) == EscapeOne(value[0]) + EscapeLike(value[1..])
  {
    var head, tail := value[..1], value[1..];
    assert value == head + tail;
    ReplaceCharConcat(head, tail, '\\', "\\\\");
    var h1, t1 := ReplaceChar(head, '\\', "\\\\"), ReplaceChar(tail, '\\', "\\\\");
    ReplaceCharConcat(h1, t1, '%', "\\%");
    var h2, t2 := ReplaceChar(h1, '%', "\\%"), ReplaceChar(t1, '%', "\\%");
    ReplaceCharConcat(h2, t2, '_', "\\_");
    assert ReplaceChar(h2, '_', "\\_") == EscapeOne(value[0]) by {
      assert head == [value[0]];
      if value[0] == '\\' {
        assert h1 == "\\\\" && h1[1..] == "\\" && h1[1..][1..] == "";
        assert h2 == "\\\\" && h2[1..] == "\\" && h2[1..][1..] == "";
      } else if value[0] == '%' {
        assert h1 == "%";
        assert h2 == "\\%" && h2[1..] == "%" && h2[1..][1..] == "";
      }
    }
  }

  lemma {:induction false} PercentMatchesAll(same: (char, char) -> bool, text: string)
    ensures Matches(same, "%", text)
  {
    if text != [] {
      PercentMatchesAll(same, text[1..]);
    }
  }

  /** An escaped term followed by `%` matches exactly the texts that start with it. */
  lemma {:induction false} EscapedPrefix(same: (char, char) -> bool, value: string, text: string)
    ensures Matches(same, EscapeLike(value) + "%", text) <==> OccursAt(same, value, text, 0)
  {
    if value == [] {
      assert EscapeLike(value) + "%" == "%";
      PercentMatchesAll(same, text);
    } else {
      var tail := EscapeLike(value[1..]) + "%";
      EscapeLikeStep(value);
      var pattern := EscapeLike(value) + "%";
      assert pattern == EscapeOne(value[0]) + tail;
      assert pattern[|EscapeOne(value[0])|..] == tail;
      if text != [] {
        EscapedPrefix(same, value[1..], text[1..]);
        assert Matches(same, pattern, text) <==> same(value[0], text[0]) && Matches(same, tail, text[1..]);
        OccursAtStep(same, value, text);
      }
    }
  }

  lemma {:induction false} OccursAtStep(same: (char, char) -> bool, value: string, text: string)
    requires value != [] && text != []
    ensures OccursAt(same, value, text, 0) <==> same(value[0], text[0]) && OccursAt(same, value[1..], text[1..], 0)
  {
    var v, t := value[1..], text[1..];
    if same(value[0], text[0]) && OccursAt(same, v, t, 0) {
      forall k | 0 <= k < |value| ensures same(value[k], text[0 + k]) {
        if k > 0 {
          assert same(v[k - 1], t[0 + (k - 1)]);
        }
      }
    }
    if OccursAt(same, value, text, 0) {
      assert same(value[0], text[0 + 0]);
      forall k | 0 <= k < |v| ensures same(v[k], t[0 + k]) {
        assert same(value[k + 1], text[0 + (k + 1)]);
      }
    }
  }

  /** A leading `%` lets the rest of the pattern start anywhere in the text. */
  lemma {:induction false} LeadingPercent(same: (char, char) -> bool, rest: string, text: string)
    ensures Matches(same, "%" + rest, text) <==> exists i | 0 <= i <= |text| :: Matches(same, rest, text[i..])
  {
    var pattern := "%" + rest;
    assert pattern[1..] == rest;
    assert text[0..] == text;
    if text == [] {
      assert Matches(same, pattern, text) <==> Matches(same, rest, text);
    } else {
      var tail := text[1..];
      LeadingPercent(same, rest, tail);
      if Matches(same, pattern, tail) {
        var i :| 0 <= i <= |tail| && Matches(same, rest, tail[i..]);
        assert tail[i..] == text[i + 1..];
      }
      if i :| 0 <= i <= |text| && Matches(same, rest, text[i..]) {
        if i > 0 {
          assert text[i..] == tail[i - 1..];
        }
      }
    }
  }

  /** The bound pattern matches a text exactly when the search term occurs in
      it, for every term (wildcards and backslashes included) and every text. */
  lemma {:induction false} ContainsPatternIsSubstring(same: (char, char) -> bool, value: string, text: string)
    ensures Matches(same, ContainsPattern(value), text) <==> Contains(same, value, text)
  {
    var rest := EscapeLike(value) + "%";
    assert ContainsPattern(value) == "%" + rest;
    LeadingPercent(same, rest, text);
    forall i: nat | i <= |text|
      ensures Matches(same, rest, text[i..]) <==> OccursAt(same, value, text, i)
    {
      EscapedPrefix(same, value, text[i..]);
      OccursAtShift(same, value, text, i);
    }
  }

  lemma {:induction false} OccursAtShift(same: (char, char) -> bool, value: string, text: string, i: nat)
    requires i <= |text|
    ensures OccursAt(same, value, text[i..], 0) <==> OccursAt(same, value, text, i)
  {
    var t := text[i..];
    if i + |value| <= |text| {
      forall k | 0 <= k < |value| ensures same(value[k], t[0 + k]) <==> same(value[k], text[i + k]) {
      }
    }
  }
}
