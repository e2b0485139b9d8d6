/** The tokens of a JSON pointer, as the loader of the specification reads them. */
module RefTokens {
  import opened Options
  import opened Splitting

  function UnescapeRefString(ref: string): string {
    Replace(Replace(ref, "~1", "/"), "~0", "~")
  }

  /** The tokens of the fragment of a reference; none if it does not start with a slash. */
  method FragmentTokens(fragment: string) returns (tokens: Option<seq<string>>)
    ensures tokens.None? <==> !("/" <= fragment)
    ensures tokens.Some? ==> tokens.value == Unescaped(Split(fragment[1..], "/"))
  {
    if !("/" <= fragment) {
      return None;
    }
    var parts := Split(fragment[1..], "/");
    var read: seq<string> := [];
    for i := 0 to |parts|
      invariant read == Unescaped(parts[..i])
    {
      assert parts[..i + 1][..i] == parts[..i];
      read := read + [UnescapeRefString(parts[i])];
    }
    assert parts[..|parts|] == parts;
    tokens := Some(read);
  }

  function Unescaped(parts: seq<string>): (tokens: seq<string>)
    ensures |tokens| == |parts|
    ensures forall i | 0 <= i < |parts| :: tokens[i] == UnescapeRefString(parts[i])
  {
    if parts == [] then [] else Unescaped(parts[..|parts| - 1]) + [UnescapeRefString(parts[|parts| - 1])]
  }

  /** Section 4 of RFC 6901: "~" is written "~0" and "/" is written "~1". */
  function Escape(token: string): string {
    Replace(Replace(token, "~", "~0"), "/", "~1")
  }

  /** A pointer to `tokens`. */
  function Pointer(tokens: seq<string>): string {
    if tokens == [] then "" else "/" + Escape(tokens[0]) + Pointer(tokens[1..])
  }

  function EscapeChar(c: char): string {
    if c == '~' then "~0" else if c == '/' then "~1" else [c]
  }

  /** Escaping, one character at a time. */
  function Spelled(token: string): string {
    if token == "" then "" else EscapeChar(token[0]) + Spelled(token[1..])
  }

  /** A token after the first pass of unescaping: only the tildes are still escaped. */
  function HalfSpelled(token: string): string {
    if token == "" then "" else (if token[0] == '~' then "~0" else [token[0]]) + HalfSpelled(token[1..])
  }

  lemma {:induction false} TildesFirst(token: string)
    ensures Replace(token, "~", "~0") == HalfSpelled(token)
  {
    if token != "" {
      TildesFirst(token[1..]);
      assert token[..1] == [token[0]];
    }
  }

  lemma {:induction false} SlashesSecond(token: string)
    ensures Replace(HalfSpelled(token), "/", "~1") == Spelled(token)
  {
    if token != "" {
      SlashesSecond(token[1..]);
      var rest := HalfSpelled(token[1..]);
      if token[0] == '~' {
        var s := "~0" + rest;
        assert s[..1] == "~" && s[1..] == "0" + rest && s[1..][..1] == "0" && s[1..][1..] == rest;
      } else {
        var s := [token[0]] + rest;
        assert s[..1] == [token[0]] && s[1..] == rest;
      }
    }
  }

  lemma EscapeIsSpelled(token: string)
    ensures Escape(token) == Spelled(token)
  {
    TildesFirst(token);
    SlashesSecond(token);
  }

  /** The escapes themselves: "~0" for a tilde, "~1" for a slash, and every other character stands for itself. */
  lemma EscapesAre(c: char, rest: string)
    ensures Escape([c] + rest) == (if c == '~' then "~0" else if c == '/' then "~1" else [c]) + Escape(rest)
    ensures Escape("") == ""
  {
    EscapeIsSpelled([c] + rest);
    EscapeIsSpelled(rest);
    assert ([c] + rest)[1..] == rest;
  }

  lemma {:induction false} FirstPass(token: string)
    ensures Replace(Spelled(token), "~1", "/") == HalfSpelled(token)
  {
    if token != "" {
      FirstPass(token[1..]);
      var rest := Spelled(token[1..]);
      var s := EscapeChar(token[0]) + rest;
      if token[0] == '~' {
        assert s[..2] == "~0" && s[1..] == "0" + rest;
        ReplaceSkips('0', rest, "~1", "/");
      } else if token[0] == '/' {
        assert s[..2] == "~1" && s[2..] == rest;
      } else {
        ReplaceSkips(token[0], rest, "~1", "/");
      }
    }
  }

  lemma {:induction false} SecondPass(token: string)
    ensures Replace(HalfSpelled(token), "~0", "~") == token
  {
    if token != "" {
      SecondPass(token[1..]);
      var rest := HalfSpelled(token[1..]);
      assert token == [token[0]] + token[1..];
      if token[0] == '~' {
        var s := "~0" + rest;
        assert s[..2] == "~0" && s[2..] == rest;
      } else {
        ReplaceSkips(token[0], rest, "~0", "~");
      }
    }
  }

  /** A character that does not start the pattern is copied. */
  lemma ReplaceSkips(c: char, rest: string, from: string, to: string)
    requires from != "" && c != from[0]
    ensures Replace([c] + rest, from, to) == [c] + Replace(rest, from, to)
  {
    var s := [c] + rest;
    assert s[1..] == rest;
    if |from| <= |s| {
      assert s[..|from|][0] == c;
    } else {
      assert |rest| < |from|;
    }
  }

  /** Unescaping gives back every token that was escaped. */
  lemma UnescapeInvertsEscape(token: string)
    ensures UnescapeRefString(Escape(token)) == token
  {
    EscapeIsSpelled(token);
    FirstPass(token);
    SecondPass(token);
  }

  /** No slash, and every tilde followed by 0 or 1. */
  predicate WellEscaped(s: string) {
    && '/' !in s
    && forall i | 0 <= i < |s| && s[i] == '~' :: i + 1 < |s| && s[i + 1] in "01"
  }

  lemma {:induction false} SpelledIsWellEscaped(token: string)
    ensures WellEscaped(Spelled(token))
  {
    if token != "" {
      SpelledIsWellEscaped(token[1..]);
      var head, rest := EscapeChar(token[0]), Spelled(token[1..]);
      forall i | 0 <= i < |head + rest| && (head + rest)[i] == '~'
        ensures i + 1 < |head + rest| && (head + rest)[i + 1] in "01"
      {
        if |head| <= i {
          assert rest[i - |head|] == '~';
        }
      }
    }
  }

  /** Every well escaped text spells some token. */
  lemma {:induction false} WellEscapedIsSpelled(s: string) returns (token: string)
    requires WellEscaped(s)
    ensures Spelled(token) == s
    decreases |s|
  {
    if s == "" {
      token := "";
    } else {
      var n := if s[0] == '~' then 2 else 1;
      forall i | 0 <= i < |s[n..]| && s[n..][i] == '~'
        ensures i + 1 < |s[n..]| && s[n..][i + 1] in "01"
      {
        assert s[i + n] == '~';
      }
      assert '/' !in s[n..];
      var rest := WellEscapedIsSpelled(s[n..]);
      var c := if s[0] != '~' then s[0] else if s[1] == '0' then '~' else '/';
      token := [c] + rest;
      assert token[1..] == rest;
      assert s == s[..n] + s[n..];
      assert s[..n] == EscapeChar(c);
    }
  }

  /** Escaping what was unescaped gives back the well escaped texts and no others. */
  lemma EscapeInvertsUnescapeIff(s: string)
    ensures Escape(UnescapeRefString(s)) == s <==> WellEscaped(s)
  {
    EscapeIsSpelled(UnescapeRefString(s));
    SpelledIsWellEscaped(UnescapeRefString(s));
    if WellEscaped(s) {
      var token := WellEscapedIsSpelled(s);
      EscapeIsSpelled(token);
      UnescapeInvertsEscape(token);
    }
  }

  function Escaped(tokens: seq<string>): (parts: seq<string>)
    ensures |parts| == |tokens|
    ensures forall i | 0 <= i < |tokens| :: parts[i] == Escape(tokens[i])
  {
    if tokens == [] then [] else [Escape(tokens[0])] + Escaped(tokens[1..])
  }

  lemma {:induction false} PointerIsJoined(tokens: seq<string>)
    requires tokens != []
    ensures Pointer(tokens) == "/" + Join(Escaped(tokens), "/")
  {
    if |tokens| == 1 {
      assert Pointer(tokens[1..]) == "";
    } else {
      PointerIsJoined(tokens[1..]);
    }
  }

  /** A pointer is read back as the tokens it was written from, whatever characters they hold. */
  lemma PointerRoundTrip(tokens: seq<string>)
    requires tokens != []
    ensures "/" <= Pointer(tokens)
    ensures Unescaped(Split(Pointer(tokens)[1..], "/")) == tokens
  {
    PointerIsJoined(tokens);
    var parts := Escaped(tokens);
    assert Pointer(tokens)[1..] == Join(parts, "/");
    forall i | 0 <= i < |tokens|
      ensures '/' !in parts[i] && UnescapeRefString(parts[i]) == tokens[i]
    {
      EscapeIsSpelled(tokens[i]);
      SpelledIsWellEscaped(tokens[i]);
      UnescapeInvertsEscape(tokens[i]);
    }
    PlainPartsAreClean(parts, "/");
    SplitUndoesJoinIffClean(parts, "/");
  }
}
