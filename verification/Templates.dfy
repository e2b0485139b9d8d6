/**
 Path templates: how `CreateNode` cuts a template into suffix tokens, and the order in which a
 node's suffixes are tried. Regular-expression suffixes are switched off, as in DefaultOptions.
 */
module Templates {
  import opened Options
  import opened GoStrings

  datatype SuffixKind = Constant | Variable | Everything {
    function Rank(): nat {
      match this case Constant => 0 case Variable => 1 case Everything => 2
    }
  }

  /** The (kind, pattern) pair that identifies a suffix; `EqualSuffix` is equality of tokens. */
  datatype Token = Token(kind: SuffixKind, pattern: string) {
    predicate IsSlash() {
      this == Token(Constant, "/")
    }

    /** What a token cut from a template looks like: a lone slash, or text without '/' and '{'. */
    predicate WellFormed() {
      if kind == Constant then pattern == "/" || (pattern != "" && '/' !in pattern && '{' !in pattern)
      else pattern == ""
    }
  }

  predicate WellFormed(ts: seq<Token>) {
    forall t <- ts :: t.WellFormed()
  }

  /** `SuffixList.Less`: by kind, then the greater pattern first. */
  predicate TokenLess(a: Token, b: Token) {
    a.kind.Rank() < b.kind.Rank() || (a.kind == b.kind && Less(b.pattern, a.pattern))
  }

  lemma TokenTrichotomy(a: Token, b: Token)
    ensures !(TokenLess(a, b) && TokenLess(b, a))
    ensures TokenLess(a, b) || a == b || TokenLess(b, a)
    ensures a == b ==> !TokenLess(a, b)
  {
    LessTrichotomy(a.pattern, b.pattern);
  }

  lemma TokenTransitive(a: Token, b: Token, c: Token)
    requires TokenLess(a, b) && TokenLess(b, c)
    ensures TokenLess(a, c)
  {
    if a.kind == b.kind == c.kind {
      LessTransitive(c.pattern, b.pattern, a.pattern);
    }
  }

  // Cutting a template into tokens

  /** One token off the front of a template, with the variable name it introduces, if any. */
  datatype Scan = Scan(token: Token, names: seq<string>, rest: string)

  /** The length of the constant text in front: up to the first '/' or '{'. */
  function ConstantLength(s: string): (n: nat)
    ensures n <= |s|
    ensures '/' !in s[..n] && '{' !in s[..n]
    ensures n < |s| ==> s[n] == '/' || s[n] == '{'
  {
    if s == "" || s[0] == '/' || s[0] == '{' then 0
    else
      var n := 1 + ConstantLength(s[1..]);
      assert s[..n] == [s[0]] + s[1..][..n - 1];
      n
  }

  lemma {:induction false} ConstantLengthIs(s: string, n: nat)
    requires n <= |s| && '/' !in s[..n] && '{' !in s[..n]
    requires n < |s| ==> s[n] == '/' || s[n] == '{'
    ensures ConstantLength(s) == n
  {
    if n > 0 {
      assert s[..n] == [s[0]] + s[1..][..n - 1];
      ConstantLengthIs(s[1..], n - 1);
    }
  }

  function VariableKind(name: string, wildcard: bool): SuffixKind {
    if wildcard && HasSuffix(name, "*") then Everything else Variable
  }

  /** The body of CreateNode's loop up to the search for an existing suffix; None for a missing '}'. */
  function NextToken(s: string, wildcard: bool): (r: Option<Scan>)
    requires s != ""
    ensures r.Some? ==> |r.value.rest| < |s| && r.value.token.WellFormed()
  {
    if s[0] == '/' then Some(Scan(Token(Constant, "/"), [], s[1..]))
    else
      var n := ConstantLength(s);
      if n > 0 then Some(Scan(Token(Constant, s[..n]), [], s[n..]))
      else
        var i := IndexByte(s, '}');
        if i < 0 then None
        else
          var name := TrimSpace(s[1..i]);
          Some(Scan(Token(VariableKind(name, wildcard), ""), [name], s[i + 1..]))
  }

  /** The tokens and names of a template; when a '}' is missing, those in front of the bad variable. */
  datatype Template = Template(tokens: seq<Token>, names: seq<string>, ok: bool)

  function Parse(s: string, wildcard: bool): (t: Template)
    ensures WellFormed(t.tokens)
    decreases |s|
  {
    if s == "" then Template([], [], true)
    else
      match NextToken(s, wildcard)
      case None => Template([], [], false)
      case Some(x) =>
        var t := Parse(x.rest, wildcard);
        Template([x.token] + t.tokens, x.names + t.names, t.ok)
  }

  /** CreateNode first drops final slashes. */
  function TemplateOf(path: string, wildcard: bool): (t: Template)
    ensures WellFormed(t.tokens)
  {
    Parse(TrimSlashes(path), wildcard)
  }

  function CountVariables(ts: seq<Token>): (n: nat)
    ensures n <= |ts|
  {
    if ts == [] then 0 else (if ts[0].kind == Constant then 0 else 1) + CountVariables(ts[1..])
  }

  lemma {:induction false} ParseNamesEveryVariable(s: string, wildcard: bool)
    requires Parse(s, wildcard).ok
    ensures |Parse(s, wildcard).names| == CountVariables(Parse(s, wildcard).tokens)
    decreases |s|
  {
    if s != "" {
      var x := NextToken(s, wildcard).value;
      ParseNamesEveryVariable(x.rest, wildcard);
      var t := Parse(s, wildcard);
      assert t.tokens[1..] == Parse(x.rest, wildcard).tokens;
    }
  }

  /** The variables and wildcards of a chain, without the text between them. */
  function VariablesOf(ts: seq<Token>): seq<Token> {
    if ts == [] then [] else (if ts[0].kind == Constant then [] else [ts[0]]) + VariablesOf(ts[1..])
  }

  /** The name ends in '*'. */
  predicate Starred(name: string) {
    name != "" && name[|name| - 1] == '*'
  }

  /** The variables are in the order of their names, and those with a final '*' are wildcards. */
  ghost predicate KindsFollow(vs: seq<Token>, names: seq<string>, wildcard: bool) {
    && |vs| == |names|
    && forall i | 0 <= i < |names| :: vs[i].kind == if wildcard && Starred(names[i]) then Everything else Variable
  }

  lemma NextVariableKind(s: string, wildcard: bool)
    requires s != "" && NextToken(s, wildcard).Some?
    ensures var x := NextToken(s, wildcard).value;
            KindsFollow(VariablesOf([x.token]), x.names, wildcard)
  {
    hide TrimSpace, IndexByte, ConstantLength;
    var x := NextToken(s, wildcard).value;
    assert [x.token][1..] == [];
    if x.token.kind != Constant {
      var n := x.names[0];
      assert n != "" ==> n[|n| - 1..] == [n[|n| - 1]];
      assert "*" == ['*'] && "*"[0] == '*';
    }
  }

  lemma KindsJoin(t: Token, ts: seq<Token>, names: seq<string>, more: seq<string>, wildcard: bool)
    requires KindsFollow(VariablesOf([t]), names, wildcard) && KindsFollow(VariablesOf(ts), more, wildcard)
    ensures KindsFollow(VariablesOf([t] + ts), names + more, wildcard)
  {
    hide KindsFollow, VariablesOf;
    VariablesOfCons(t, ts);
    KindsAppend(VariablesOf([t]), VariablesOf(ts), names, more, wildcard);
  }

  lemma VariablesOfCons(t: Token, ts: seq<Token>)
    ensures VariablesOf([t] + ts) == VariablesOf([t]) + VariablesOf(ts)
  {
    assert ([t] + ts)[1..] == ts && [t][1..] == [];
    assert VariablesOf([]) == [];
  }

  lemma KindsAppend(vs: seq<Token>, ws: seq<Token>, names: seq<string>, more: seq<string>, wildcard: bool)
    requires KindsFollow(vs, names, wildcard) && KindsFollow(ws, more, wildcard)
    ensures KindsFollow(vs + ws, names + more, wildcard)
  {
    hide Starred;
  }

  /** The braces are variables, but those whose name ends in '*' are wildcards, where wildcards are supported. */
  lemma {:induction false} StarMakesWildcard(s: string, wildcard: bool)
    requires Parse(s, wildcard).ok
    ensures var t := Parse(s, wildcard); KindsFollow(VariablesOf(t.tokens), t.names, wildcard)
    decreases |s|
  {
    hide NextToken, KindsFollow;
    if s == "" {
      NothingFollows(wildcard);
    } else {
      var x := NextToken(s, wildcard).value;
      NextVariableKind(s, wildcard);
      StarMakesWildcard(x.rest, wildcard);
      KindsJoin(x.token, Parse(x.rest, wildcard).tokens, x.names, Parse(x.rest, wildcard).names, wildcard);
    }
  }

  lemma NothingFollows(wildcard: bool)
    ensures KindsFollow(VariablesOf([]), [], wildcard)
  {}

  /** A template is accepted exactly if a closing brace follows every opening one. */
  lemma {:induction false} AcceptedIff(s: string, wildcard: bool)
    ensures Parse(s, wildcard).ok <==> forall i | 0 <= i < |s| && s[i] == '{' :: '}' in s[i..]
    decreases |s|
  {
    hide TrimSpace, ConstantLength;
    if s != "" {
      assert s[0..] == s;
      if NextToken(s, wildcard).Some? {
        var x := NextToken(s, wildcard).value;
        AcceptedIff(x.rest, wildcard);
        NextClosesBraces(s, wildcard);
      }
    }
  }

  lemma NextClosesBraces(s: string, wildcard: bool)
    requires s != "" && NextToken(s, wildcard).Some?
    ensures var rest := NextToken(s, wildcard).value.rest;
            (forall i | 0 <= i < |s| && s[i] == '{' :: '}' in s[i..]) <==>
            (forall i | 0 <= i < |rest| && rest[i] == '{' :: '}' in rest[i..])
  {
    hide TrimSpace;
    var rest := NextToken(s, wildcard).value.rest;
    var n := |s| - |rest|;
    assert rest == s[n..];
    assert s[n - 1] == '}' || '{' !in s[..n] by {
      if s[0] == '/' {
        assert s[..n] == "/";
      }
    }
    ClosedAfter(s, n);
  }

  /** Up to a closing brace, or where nothing is opened, every brace is closed. */
  lemma ClosedAfter(s: string, n: nat)
    requires 0 < n <= |s| && (s[n - 1] == '}' || '{' !in s[..n])
    ensures (forall i | 0 <= i < |s| && s[i] == '{' :: '}' in s[i..]) <==>
            (forall i | 0 <= i < |s[n..]| && s[n..][i] == '{' :: '}' in s[n..][i..])
  {
    forall i | 0 <= i < |s[n..]|
      ensures s[n..][i] == s[n + i] && s[n..][i..] == s[n + i..]
    {}
    forall i | n <= i < |s|
      ensures s[i] == s[n..][i - n] && s[i..] == s[n..][i - n..]
    {}
    forall i | 0 <= i < n && s[i] == '{'
      ensures '}' in s[i..]
    {
      assert s[i] in s[..n];
      assert s[i..][n - 1 - i] == s[n - 1];
    }
  }

  /** Names are trimmed, and end at the first closing brace. */
  lemma {:induction false} NamesAreTrimmed(s: string, wildcard: bool)
    ensures forall n <- Parse(s, wildcard).names ::
              '}' !in n && (n == "" || (!IsSpace(n[0]) && !IsSpace(n[|n| - 1])))
    decreases |s|
  {
    hide ConstantLength, IndexByte;
    if s != "" && NextToken(s, wildcard).Some? {
      var x := NextToken(s, wildcard).value;
      NextIsCanonical(s, wildcard);
      NamesAreTrimmed(x.rest, wildcard);
      assert x.names != [] ==> x.names == [x.names[0]] && TrimSpace(x.names[0]) == x.names[0];
    }
  }

  // Parsing is the inverse of writing a template down

  /** The tokens and names some template has, in the spacing-free form. */
  predicate Canonical(ts: seq<Token>, names: seq<string>, wildcard: bool) {
    if ts == [] then names == []
    else
      && ts[0].WellFormed()
      && if ts[0].kind == Constant then
           && Canonical(ts[1..], names, wildcard)
           && (ts[0].IsSlash() || |ts| == 1 || ts[1].kind != Constant || ts[1].IsSlash())
         else
           && names != []
           && '}' !in names[0] && TrimSpace(names[0]) == names[0]
           && ts[0].kind == VariableKind(names[0], wildcard)
           && Canonical(ts[1..], names[1..], wildcard)
  }

  function Render(ts: seq<Token>, names: seq<string>): string
    requires |names| == CountVariables(ts)
  {
    if ts == [] then ""
    else if ts[0].kind == Constant then ts[0].pattern + Render(ts[1..], names)
    else "{" + names[0] + "}" + Render(ts[1..], names[1..])
  }

  lemma {:induction false} CanonicalCounts(ts: seq<Token>, names: seq<string>, wildcard: bool)
    requires Canonical(ts, names, wildcard)
    ensures |names| == CountVariables(ts)
  {
    if ts != [] {
      CanonicalCounts(ts[1..], if ts[0].kind == Constant then names else names[1..], wildcard);
    }
  }

  lemma {:induction false} TrimSpaceKeepsOut(s: string, c: char)
    requires c !in s
    ensures c !in TrimSpace(s)
  {
    if s != "" {
      if IsSpace(s[0]) {
        TrimSpaceKeepsOut(s[1..], c);
      } else if IsSpace(s[|s| - 1]) {
        TrimSpaceKeepsOut(s[..|s| - 1], c);
      }
    }
  }

  lemma NextIsCanonical(s: string, wildcard: bool)
    requires s != "" && NextToken(s, wildcard).Some?
    ensures var x := NextToken(s, wildcard).value;
            if x.token.kind == Constant then
              x.names == [] && (x.token.IsSlash() || x.rest == "" || x.rest[0] == '/' || x.rest[0] == '{')
            else
              && |x.names| == 1 && '}' !in x.names[0] && TrimSpace(x.names[0]) == x.names[0]
              && x.token.kind == VariableKind(x.names[0], wildcard)
  {
    if s[0] != '/' && ConstantLength(s) == 0 {
      var i := IndexByte(s, '}');
      assert forall k :: 0 <= k < |s[1..i]| ==> s[1..i][k] == s[..i][k + 1];
      TrimSpaceKeepsOut(s[1..i], '}');
    }
  }

  lemma NextAfterConstant(s: string, wildcard: bool)
    requires s != "" && (s[0] == '/' || s[0] == '{') && NextToken(s, wildcard).Some?
    ensures var t := NextToken(s, wildcard).value.token; t.kind != Constant || t.IsSlash()
  {}

  /** The tokens of an accepted template are canonical: no two constants meet except at a slash. */
  lemma {:induction false} ParseIsCanonical(s: string, wildcard: bool)
    requires Parse(s, wildcard).ok
    ensures var t := Parse(s, wildcard); Canonical(t.tokens, t.names, wildcard)
    decreases |s|
  {
    if s != "" {
      NextIsCanonical(s, wildcard);
      var x := NextToken(s, wildcard).value;
      if x.token.kind == Constant && !x.token.IsSlash() && x.rest != "" {
        NextAfterConstant(x.rest, wildcard);
      }
      hide NextToken, WellFormed, TrimSpace;
      var t, u := Parse(s, wildcard), Parse(x.rest, wildcard);
      ParseIsCanonical(x.rest, wildcard);
      assert t.tokens[1..] == u.tokens && t.names[|x.names|..] == u.names;
    }
  }

  lemma NextConstant(t: Token, rest: string, wildcard: bool)
    requires t.WellFormed() && t.kind == Constant
    requires t.IsSlash() || rest == "" || rest[0] == '/' || rest[0] == '{'
    ensures NextToken(t.pattern + rest, wildcard) == Some(Scan(t, [], rest))
  {
    var s, n := t.pattern + rest, |t.pattern|;
    assert s[..n] == t.pattern && s[n..] == rest;
    if !t.IsSlash() {
      assert s[0] in s[..n];
      ConstantLengthIs(s, n);
    }
  }

  lemma NextVariable(name: string, rest: string, wildcard: bool)
    requires '}' !in name && TrimSpace(name) == name
    ensures NextToken("{" + name + "}" + rest, wildcard)
         == Some(Scan(Token(VariableKind(name, wildcard), ""), [name], rest))
  {
    var s, i := "{" + name + "}" + rest, |name| + 1;
    assert s[..i] == "{" + name && s[1..i] == name && s[i + 1..] == rest;
    IndexByteIs(s, '}', i);
  }

  lemma ParseConstant(t: Token, rest: string, wildcard: bool)
    requires t.WellFormed() && t.kind == Constant
    requires t.IsSlash() || rest == "" || rest[0] == '/' || rest[0] == '{'
    ensures var u := Parse(rest, wildcard);
            Parse(t.pattern + rest, wildcard) == Template([t] + u.tokens, u.names, u.ok)
  {
    hide NextToken;
    NextConstant(t, rest, wildcard);
    assert [] + Parse(rest, wildcard).names == Parse(rest, wildcard).names;
  }

  lemma ParseVariable(name: string, rest: string, wildcard: bool)
    requires '}' !in name && TrimSpace(name) == name
    ensures var u := Parse(rest, wildcard);
            Parse("{" + name + "}" + rest, wildcard) ==
              Template([Token(VariableKind(name, wildcard), "")] + u.tokens, [name] + u.names, u.ok)
  {
    hide NextToken, VariableKind, TrimSpace;
    NextVariable(name, rest, wildcard);
  }

  lemma CanonicalFront(ts: seq<Token>, names: seq<string>, wildcard: bool)
    requires Canonical(ts, names, wildcard) && ts != []
    ensures |names| == CountVariables(ts)
    ensures ts[0].kind == Constant ==>
              && ts[0].WellFormed() && Canonical(ts[1..], names, wildcard) && |names| == CountVariables(ts[1..])
              && Render(ts, names) == ts[0].pattern + Render(ts[1..], names)
              && var rest := Render(ts[1..], names); ts[0].IsSlash() || rest == "" || rest[0] == '/' || rest[0] == '{'
    ensures ts[0].kind != Constant ==>
              && names != [] && Canonical(ts[1..], names[1..], wildcard) && |names| - 1 == CountVariables(ts[1..])
              && Render(ts, names) == "{" + names[0] + "}" + Render(ts[1..], names[1..])
              && '}' !in names[0] && TrimSpace(names[0]) == names[0]
              && ts[0] == Token(VariableKind(names[0], wildcard), "")
  {
    hide TrimSpace, VariableKind;
    CanonicalCounts(ts, names, wildcard);
  }

  lemma ParseNothing(wildcard: bool)
    ensures Parse("", wildcard) == Template([], [], true)
  {}

  /** Reading back a written template gives its tokens and names. */
  lemma {:induction false} ParseInvertsRender(ts: seq<Token>, names: seq<string>, wildcard: bool)
    requires Canonical(ts, names, wildcard)
    ensures |names| == CountVariables(ts)
    ensures Parse(Render(ts, names), wildcard) == Template(ts, names, true)
  {
    hide NextToken, TrimSpace, VariableKind, Parse, Token.WellFormed;
    if ts == [] {
      ParseNothing(wildcard);
    } else {
      CanonicalFront(ts, names, wildcard);
      assert ts == [ts[0]] + ts[1..];
      if ts[0].kind == Constant {
        ParseInvertsRender(ts[1..], names, wildcard);
        ParseConstant(ts[0], Render(ts[1..], names), wildcard);
      } else {
        ParseInvertsRender(ts[1..], names[1..], wildcard);
        ParseVariable(names[0], Render(ts[1..], names[1..]), wildcard);
        assert names == [names[0]] + names[1..];
      }
    }
  }

  lemma NextBraceFree(s: string, wildcard: bool)
    requires s != "" && '{' !in s
    ensures NextToken(s, wildcard).Some?
    ensures var x := NextToken(s, wildcard).value;
            x.token.kind == Constant && x.names == [] && s == x.token.pattern + x.rest && '{' !in x.rest
  {
    var n := ConstantLength(s);
    assert s == s[..n] + s[n..] && s == s[..1] + s[1..];
  }

  /** A template without braces is all constants, which spell it out. */
  lemma {:induction false} ParseBraceFree(s: string, wildcard: bool)
    requires '{' !in s
    ensures var t := Parse(s, wildcard);
            t.ok && t.names == [] && CountVariables(t.tokens) == 0 && Render(t.tokens, []) == s
    decreases |s|
  {
    if s != "" {
      NextBraceFree(s, wildcard);
      hide NextToken, WellFormed;
      var x := NextToken(s, wildcard).value;
      ParseBraceFree(x.rest, wildcard);
      assert Parse(s, wildcard).tokens[1..] == Parse(x.rest, wildcard).tokens;
    }
  }
}
