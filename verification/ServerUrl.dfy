/** Server URL templates: matching a raw URL against one, and listing its parameter names. */
module ServerUrl {
  import opened Options
  import opened GoStrings

  // What a URL template says

  datatype Part = Lit(c: char) | Hole(name: string)

  /** The parts of a template; None if a '{' has no '}' after it. */
  function Parts(url: string): (ps: Option<seq<Part>>)
    decreases |url|
  {
    if url == "" then Some([])
    else if url[0] == '{' then
      var i := IndexByte(url, '}');
      if i < 0 then None
      else Prepend(Hole(TrimSpace(url[1..i])), Parts(url[i + 1..]))
    else Prepend(Lit(url[0]), Parts(url[1..]))
  }

  function Prepend(p: Part, ps: Option<seq<Part>>): Option<seq<Part>> {
    if ps.Some? then Some([p] + ps.value) else None
  }

  /** One final '/' of the template is not required of the URL. */
  function Required(ps: seq<Part>): seq<Part> {
    if ps != [] && ps[|ps| - 1] == Lit('/') then ps[..|ps| - 1] else ps
  }

  /** The template's text starts with this character. */
  predicate StartsWith(ps: seq<Part>, c: char) {
    ps != [] && (if ps[0].Hole? then c == '{' else c == ps[0].c)
  }

  function HoleNames(ps: seq<Part>): (names: seq<string>) {
    if ps == [] then []
    else (if ps[0].Hole? then [ps[0].name] else []) + HoleNames(ps[1..])
  }

  /** A captured value may hold neither a '/' nor the template's next character. */
  ghost predicate Plain(v: string, after: seq<Part>) {
    forall c <- v :: c != '/' && !StartsWith(after, c)
  }

  /** A capture runs until a '/', the template's next character, or the end of the URL. */
  ghost predicate StopsAt(input: string, after: seq<Part>) {
    input == "" || input[0] == '/' || StartsWith(after, input[0])
  }

  /** The URL is the template, less an optional final '/', with the values filled in, and then `rest`. */
  ghost predicate Captures(ps: seq<Part>, input: string, vs: seq<string>, rest: string) {
    if ps == [] || ps == [Lit('/')] then vs == [] && rest == input
    else if ps[0].Lit? then input != "" && input[0] == ps[0].c && Captures(ps[1..], input[1..], vs, rest)
    else
      && vs != [] && vs[0] <= input && Plain(vs[0], ps[1..])
      && StopsAt(input[|vs[0]|..], ps[1..])
      && Captures(ps[1..], input[|vs[0]|..], vs[1..], rest)
  }

  /** An empty remainder counts as "/"; any other must start with one. */
  predicate Remainder(rest: string, remaining: string) {
    if rest == "" then remaining == "/" else rest[0] == '/' && remaining == rest
  }

  // MatchRawURL

  /** How much of the input a capture takes. */
  function CaptureLength(input: string, pattern: string): (n: nat)
    ensures n <= |input|
  {
    var np := if pattern == "" then -1 else IndexByte(input, pattern[0]);
    var ns := IndexByte(input, '/');
    var i := if np < 0 then ns else if ns < 0 then np else if np < ns then np else ns;
    if i < 0 then |input| else i
  }

  lemma CaptureStops(input: string, pattern: string, after: seq<Part>)
    requires Parts(pattern) == Some(after)
    ensures var n := CaptureLength(input, pattern); Plain(input[..n], after) && StopsAt(input[n..], after)
  {
    var n := CaptureLength(input, pattern);
    assert pattern != "" ==> forall c :: StartsWith(after, c) <==> c == pattern[0];
    forall c | c in input[..n] ensures c != '/' && !StartsWith(after, c) {
      var k :| 0 <= k < n && input[k] == c;
      var ns := IndexByte(input, '/');
      assert 0 <= ns ==> c == input[..ns][k];
      if pattern != "" {
        var np := IndexByte(input, pattern[0]);
        assert 0 <= np ==> c == input[..np][k];
      }
    }
  }

  lemma PlainTail(input: string, after: seq<Part>, n: nat)
    requires 0 < n <= |input| && Plain(input[..n], after)
    ensures Plain(input[1..][..n - 1], after)
  {
    var tail := input[1..][..n - 1];
    forall c | c in tail ensures c != '/' && !StartsWith(after, c) {
      var k :| 0 <= k < |tail| && tail[k] == c;
      assert input[..n][k + 1] == c;
      assert c in input[..n];
    }
  }

  lemma {:induction false} OneCapture(input: string, after: seq<Part>, m: nat, n: nat)
    requires m <= |input| && Plain(input[..m], after) && StopsAt(input[m..], after)
    requires n <= |input| && Plain(input[..n], after) && StopsAt(input[n..], after)
    ensures m == n
  {
    assert m > 0 ==> input[0] in input[..m];
    assert n > 0 ==> input[0] in input[..n];
    assert input[0..] == input;
    if m > 0 && n > 0 {
      assert input[m..] == input[1..][m - 1..] && input[n..] == input[1..][n - 1..];
      PlainTail(input, after, m);
      PlainTail(input, after, n);
      OneCapture(input[1..], after, m - 1, n - 1);
    }
  }

  lemma CaptureIsForced(input: string, pattern: string, after: seq<Part>, v: string)
    requires Parts(pattern) == Some(after)
    requires v <= input && Plain(v, after) && StopsAt(input[|v|..], after)
    ensures |v| == CaptureLength(input, pattern)
  {
    CaptureStops(input, pattern, after);
    assert input[..|v|] == v;
    OneCapture(input, after, |v|, CaptureLength(input, pattern));
  }

  /** The loop of MatchRawURL: the captures and what is left of the input, or None. */
  function Match(pattern: string, input: string): Option<(seq<string>, string)>
    decreases |pattern|
  {
    if pattern == "" || pattern == "/" then Some(([], input))
    else if pattern[0] == '{' then
      var i := IndexByte(pattern, '}');
      if i < 0 then None
      else
        var n := CaptureLength(input, pattern[i + 1..]);
        match Match(pattern[i + 1..], input[n..])
        case None => None
        case Some(r) => Some(([input[..n]] + r.0, r.1))
    else if input == "" || input[0] != pattern[0] then None
    else Match(pattern[1..], input[1..])
  }

  lemma PartsOfMore(pattern: string)
    requires pattern != "" && pattern != "/" && Parts(pattern).Some?
    ensures Parts(pattern).value != [] && Parts(pattern).value != [Lit('/')]
  {
    assert Parts(pattern).value[0] == Lit('/') ==> pattern[0] == '/';
    if pattern[0] == '/' {
      var tail := pattern[1..];
      assert tail != "" && Parts(tail).Some? && Parts(tail).value != [];
      assert |Parts(pattern).value| == 1 + |Parts(tail).value|;
    }
  }

  lemma {:induction false} MatchCaptures(pattern: string, input: string)
    requires Match(pattern, input).Some?
    ensures Parts(pattern).Some?
    ensures var r := Match(pattern, input).value; Captures(Parts(pattern).value, input, r.0, r.1)
    decreases |pattern|
  {
    if pattern != "" && pattern != "/" {
      var r := Match(pattern, input).value;
      if pattern[0] == '{' {
        var i := IndexByte(pattern, '}');
        var p := pattern[i + 1..];
        var n := CaptureLength(input, p);
        MatchCaptures(p, input[n..]);
        CaptureStops(input, p, Parts(p).value);
        PartsOfMore(pattern);
        assert Parts(pattern).value[1..] == Parts(p).value && r.0[1..] == Match(p, input[n..]).value.0;
      } else {
        MatchCaptures(pattern[1..], input[1..]);
        PartsOfMore(pattern);
        assert Parts(pattern).value[1..] == Parts(pattern[1..]).value;
      }
    }
  }

  lemma {:induction false} CapturesMatch(pattern: string, input: string, vs: seq<string>, rest: string)
    requires Parts(pattern).Some? && Captures(Parts(pattern).value, input, vs, rest)
    ensures Match(pattern, input) == Some((vs, rest))
    decreases |pattern|
  {
    if pattern != "" && pattern != "/" {
      PartsOfMore(pattern);
      var ps := Parts(pattern).value;
      if pattern[0] == '{' {
        var p := pattern[IndexByte(pattern, '}') + 1..];
        assert ps[1..] == Parts(p).value && ps[0].Hole?;
        CaptureIsForced(input, p, ps[1..], vs[0]);
        hide Plain, StopsAt, CaptureLength;
        CapturesMatch(p, input[|vs[0]|..], vs[1..], rest);
        assert input[..|vs[0]|] == vs[0];
        assert vs == [vs[0]] + vs[1..];
      } else {
        assert ps[1..] == Parts(pattern[1..]).value;
        CapturesMatch(pattern[1..], input[1..], vs, rest);
      }
    }
  }

  /** What remains to be matched, after these captures, decides the whole. */
  ghost predicate Follows(url: string, input: string, params: seq<string>, pattern: string, remaining: string) {
    Match(url, input) == match Match(pattern, remaining)
                         case None => None
                         case Some(r) => Some((params + r.0, r.1))
  }

  lemma FollowsStart(url: string, input: string)
    ensures Follows(url, input, [], url, input)
  {
    if Match(url, input).Some? {
      var r := Match(url, input).value;
      assert [] + r.0 == r.0;
    }
  }

  lemma MatchHole(pattern: string, input: string)
    requires pattern != "" && pattern[0] == '{'
    ensures var i := IndexByte(pattern, '}');
            if i < 0 then Match(pattern, input) == None
            else
              var n := CaptureLength(input, pattern[i + 1..]);
              Match(pattern, input) == match Match(pattern[i + 1..], input[n..])
                                       case None => None
                                       case Some(r) => Some(([input[..n]] + r.0, r.1))
  {}

  lemma FollowsHole(url: string, input: string, params: seq<string>, pattern: string, remaining: string)
    requires Follows(url, input, params, pattern, remaining) && pattern != "" && pattern[0] == '{'
    ensures var i := IndexByte(pattern, '}');
            if i < 0 then Match(url, input) == None
            else
              var n := CaptureLength(remaining, pattern[i + 1..]);
              Follows(url, input, params + [remaining[..n]], pattern[i + 1..], remaining[n..])
  {
    hide Match, IndexByte, CaptureLength;
    MatchHole(pattern, remaining);
    var i := IndexByte(pattern, '}');
    if 0 <= i {
      var p := pattern[i + 1..];
      var n := CaptureLength(remaining, p);
      var rest := Match(p, remaining[n..]);
      if rest.Some? {
        assert params + ([remaining[..n]] + rest.value.0) == (params + [remaining[..n]]) + rest.value.0;
      }
    }
  }

  lemma FollowsLit(url: string, input: string, params: seq<string>, pattern: string, remaining: string)
    requires Follows(url, input, params, pattern, remaining)
    requires pattern != "" && pattern != "/" && pattern[0] != '{'
    ensures if remaining == "" || remaining[0] != pattern[0] then Match(url, input) == None
            else Follows(url, input, params, pattern[1..], remaining[1..])
  {}

  lemma FollowsEnd(url: string, input: string, params: seq<string>, pattern: string, remaining: string)
    requires Follows(url, input, params, pattern, remaining) && (pattern == "" || pattern == "/")
    ensures Match(url, input) == Some((params, remaining))
  {
    assert params + [] == params;
  }

  /** A capture runs to the nearer of the next pattern character and the next slash. */
  lemma NearerStop(input: string, pattern: string)
    ensures var np := if |pattern| > 0 then IndexByte(input, pattern[0]) else -1;
            var ns := IndexByte(input, '/');
            var i := if np < 0 then ns else if ns < 0 then np else if np < ns then np else ns;
            CaptureLength(input, pattern) == if i < 0 then |input| else i
  {
    hide IndexByte;
  }

  /** MatchRawURL, as the loop it is. */
  method MatchRawURL(url: string, input: string) returns (params: seq<string>, remaining: string, ok: bool)
    ensures ok ==> Parts(url).Some?
    ensures ok ==> exists rest :: Captures(Parts(url).value, input, params, rest) && Remainder(rest, remaining)
    ensures ok ==> exists rest :: Captures(Parts(url).value, input, params, rest)
                                  && remaining == (if rest == "" then "/" else rest) && remaining[0] == '/'
    ensures !ok ==> params == [] && remaining == ""
    ensures !ok && Parts(url).Some? ==>
              forall vs, rest :: Captures(Parts(url).value, input, vs, rest) ==> rest != "" && rest[0] != '/'
  {
    hide Follows, Match, Captures, Parts, CaptureLength, IndexByte;
    var pattern := url;
    remaining := input;
    params := [];
    FollowsStart(url, input);
    while |pattern| > 0
      invariant Follows(url, input, params, pattern, remaining)
      decreases |pattern|
    {
      var c := pattern[0];
      if |pattern| == 1 && c == '/' {
        break;
      }
      if c == '{' {
        FollowsHole(url, input, params, pattern, remaining);
        var i := IndexByte(pattern, '}');
        if i < 0 {
          NoMatch(url, input);
          return [], "", false;
        }
        pattern := pattern[i + 1..];
        var np := -1;
        if |pattern| > 0 {
          np := IndexByte(remaining, pattern[0]);
        }
        var ns := IndexByte(remaining, '/');
        if np < 0 {
          i := ns;
        } else if ns < 0 {
          i := np;
        } else {
          i := if np < ns then np else ns;
        }
        if i < 0 {
          i := |remaining|;
        }
        assert i == CaptureLength(remaining, pattern) by { NearerStop(remaining, pattern); }
        params := params + [remaining[..i]];
        remaining := remaining[i..];
        continue;
      }
      FollowsLit(url, input, params, pattern, remaining);
      if |remaining| == 0 || remaining[0] != c {
        NoMatch(url, input);
        return [], "", false;
      }
      pattern := pattern[1..];
      remaining := remaining[1..];
    }
    FollowsEnd(url, input, params, pattern, remaining);
    MatchCaptures(url, input);
    OnlyMatch(url, input);
    ghost var rest := remaining;
    if remaining == "" {
      remaining := "/";
    }
    if remaining[0] != '/' {
      return [], "", false;
    }
    assert Remainder(rest, remaining);
    ok := true;
  }

  lemma OnlyMatch(url: string, input: string)
    requires Match(url, input).Some? && Parts(url).Some?
    ensures forall vs, rest :: Captures(Parts(url).value, input, vs, rest) ==> Match(url, input) == Some((vs, rest))
  {
    forall vs, rest | Captures(Parts(url).value, input, vs, rest)
      ensures Match(url, input) == Some((vs, rest))
    {
      CapturesMatch(url, input, vs, rest);
    }
  }

  lemma NoMatch(url: string, input: string)
    requires Match(url, input) == None
    ensures Parts(url).Some? ==> forall vs, rest :: !Captures(Parts(url).value, input, vs, rest)
  {
    if Parts(url).Some? {
      forall vs, rest ensures !Captures(Parts(url).value, input, vs, rest) {
        if Captures(Parts(url).value, input, vs, rest) {
          CapturesMatch(url, input, vs, rest);
        }
      }
    }
  }

  // ParameterNames

  /** What is still to be read, after these names, decides the whole. */
  ghost predicate NamesFollow(url: string, names: seq<string>, pattern: string) {
    NamesOf(url) == match NamesOf(pattern)
                    case None => None
                    case Some(more) => Some(names + more)
  }

  function NamesOf(url: string): Option<seq<string>> {
    if Parts(url).Some? then Some(HoleNames(Parts(url).value)) else None
  }

  lemma NamesOfHole(pattern: string, i: nat)
    requires i == IndexByte(pattern, '{')
    ensures var p := pattern[i + 1..];
            var j := IndexByte(p, '}');
            NamesOf(pattern) == if j < 0 || NamesOf(p[j + 1..]) == None then None
                                else Some([TrimSpace(p[..j])] + NamesOf(p[j + 1..]).value)
  {
    hide IndexByte, TrimSpace;
    SkipLiterals(pattern, i);
    assert pattern[i..][1..] == pattern[i + 1..];
    var p := pattern[i + 1..];
    var j := IndexByte(p, '}');
    HoleAhead(pattern[i..], j);
    if 0 <= j && Parts(p[j + 1..]).Some? {
      assert Parts(pattern[i..]).value[1..] == Parts(p[j + 1..]).value;
    }
  }

  lemma NamesFollowHole(url: string, names: seq<string>, pattern: string, i: nat)
    requires NamesFollow(url, names, pattern) && i == IndexByte(pattern, '{')
    ensures var p := pattern[i + 1..];
            var j := IndexByte(p, '}');
            if j < 0 then NamesOf(url) == None else NamesFollow(url, names + [TrimSpace(p[..j])], p[j + 1..])
  {
    hide IndexByte, TrimSpace, NamesOf;
    NamesOfHole(pattern, i);
    var p := pattern[i + 1..];
    var j := IndexByte(p, '}');
    if 0 <= j && NamesOf(p[j + 1..]).Some? {
      var name, more := TrimSpace(p[..j]), NamesOf(p[j + 1..]).value;
      assert names + ([name] + more) == (names + [name]) + more;
    }
  }

  lemma NamesFollowEnd(url: string, names: seq<string>, pattern: string)
    requires NamesFollow(url, names, pattern) && '{' !in pattern
    ensures NamesOf(url) == Some(names)
  {
    assert pattern[..|pattern|] == pattern && pattern[|pattern|..] == "";
    SkipLiterals(pattern, |pattern|);
    assert names + [] == names;
  }

  /** ParameterNames fails exactly when a '{' is left open, and lists the holes' names otherwise. */
  method ParameterNames(url: string) returns (params: Option<seq<string>>)
    ensures params == if Parts(url).Some? then Some(HoleNames(Parts(url).value)) else None
  {
    hide NamesFollow, Parts, HoleNames;
    var pattern, names := url, [];
    NamesFollowStart(url);
    while |pattern| > 0
      invariant NamesFollow(url, names, pattern)
      decreases |pattern|
    {
      var i := IndexByte(pattern, '{');
      if i < 0 {
        break;
      }
      NamesFollowHole(url, names, pattern, i);
      pattern := pattern[i + 1..];
      i := IndexByte(pattern, '}');
      if i < 0 {
        return None;
      }
      names := names + [TrimSpace(pattern[..i])];
      pattern := pattern[i + 1..];
    }
    NamesFollowEnd(url, names, pattern);
    params := Some(names);
  }

  lemma NamesFollowStart(url: string)
    ensures NamesFollow(url, [], url)
  {
    if NamesOf(url).Some? {
      assert [] + NamesOf(url).value == NamesOf(url).value;
    }
  }

  lemma {:induction false} SkipLiterals(pattern: string, n: nat)
    requires n <= |pattern| && '{' !in pattern[..n]
    ensures Parts(pattern).Some? <==> Parts(pattern[n..]).Some?
    ensures Parts(pattern).Some? ==> HoleNames(Parts(pattern).value) == HoleNames(Parts(pattern[n..]).value)
  {
    if n == 0 {
      assert pattern[0..] == pattern;
    } else {
      assert pattern[0] in pattern[..n];
      assert pattern[1..][..n - 1] == pattern[1..n] && pattern[1..][n - 1..] == pattern[n..];
      assert forall c :: c in pattern[1..n] ==> c in pattern[..n];
      SkipLiterals(pattern[1..], n - 1);
    }
  }

  lemma HoleAhead(pattern: string, i: int)
    requires pattern != "" && pattern[0] == '{' && i == IndexByte(pattern[1..], '}')
    ensures i < 0 ==> Parts(pattern) == None
    ensures 0 <= i ==> Parts(pattern) == Prepend(Hole(TrimSpace(pattern[1..][..i])), Parts(pattern[1..][i + 1..]))
  {
    assert IndexByte(pattern, '}') == if i < 0 then -1 else i + 1;
    if 0 <= i {
      assert pattern[1..][..i] == pattern[1..i + 1] && pattern[1..][i + 1..] == pattern[i + 2..];
    }
  }

  // What a match means

  function FillParts(ps: seq<Part>, vs: seq<string>): string
    requires |HoleNames(ps)| == |vs|
  {
    if ps == [] then ""
    else if ps[0].Lit? then [ps[0].c] + FillParts(ps[1..], vs)
    else vs[0] + FillParts(ps[1..], vs[1..])
  }

  /** A match captures one value for each name, and the filled template followed by the rest is the URL. */
  lemma {:induction false} MatchIsInvertible(ps: seq<Part>, input: string, vs: seq<string>, rest: string)
    requires Captures(ps, input, vs, rest)
    ensures |vs| == |HoleNames(ps)| == |HoleNames(Required(ps))|
    ensures FillParts(Required(ps), vs) + rest == input
  {
    if ps == [] {
    } else if ps == [Lit('/')] {
      assert Required(ps) == [];
    } else {
      RequiredTail(ps);
      if ps[0].Lit? {
        MatchIsInvertible(ps[1..], input[1..], vs, rest);
      } else {
        MatchIsInvertible(ps[1..], input[|vs[0]|..], vs[1..], rest);
      }
    }
  }

  /** A plain value holds no slash and not the character that the template goes on with, be that a brace. */
  lemma PlainIff(v: string, after: seq<Part>)
    ensures Plain(v, after) <==>
              && '/' !in v
              && (after != [] && after[0].Lit? ==> after[0].c !in v)
              && (after != [] && after[0].Hole? ==> '{' !in v)
  {}

  /** A template as it is written. */
  function Written(ps: seq<Part>): string {
    if ps == [] then ""
    else (if ps[0].Lit? then [ps[0].c] else "{" + ps[0].name + "}") + Written(ps[1..])
  }

  /** Parts that a template can have: literals that are no braces, and trimmed names without a closing brace. */
  predicate Writable(ps: seq<Part>) {
    forall p <- ps :: if p.Lit? then p.c != '{' else '}' !in p.name && TrimSpace(p.name) == p.name
  }

  lemma ReadHole(name: string, rest: string)
    requires '}' !in name && TrimSpace(name) == name
    ensures Parts("{" + name + "}" + rest) == Prepend(Hole(name), Parts(rest))
  {
    hide TrimSpace, IndexByte, Prepend;
    var url, i := "{" + name + "}" + rest, |name| + 1;
    assert url[..i] == "{" + name && url[i] == '}' && url[1..i] == name && url[i + 1..] == rest;
    IndexByteIs(url, '}', i);
  }

  lemma ReadLit(c: char, rest: string)
    requires c != '{'
    ensures Parts([c] + rest) == Prepend(Lit(c), Parts(rest))
  {
    hide TrimSpace, IndexByte, Prepend;
    assert ([c] + rest)[1..] == rest;
  }

  /** Reading a written template gives its parts back. */
  lemma {:induction false} PartsInvertWritten(ps: seq<Part>)
    requires Writable(ps)
    ensures Parts(Written(ps)) == Some(ps)
  {
    hide Parts, TrimSpace;
    if ps == [] {
      ReadNothing();
    } else {
      assert ps[0] in ps && forall p <- ps[1..] :: p in ps;
      PartsInvertWritten(ps[1..]);
      assert ps == [ps[0]] + ps[1..];
      if ps[0].Lit? {
        ReadLit(ps[0].c, Written(ps[1..]));
      } else {
        ReadHole(ps[0].name, Written(ps[1..]));
      }
    }
  }

  lemma ReadNothing()
    ensures Parts("") == Some([])
  {}

  /** A template can be read exactly if a closing brace follows every opening one. */
  lemma {:induction false} PartsIff(url: string)
    ensures Parts(url).Some? <==> forall i | 0 <= i < |url| && url[i] == '{' :: '}' in url[i..]
    decreases |url|
  {
    hide TrimSpace;
    if url != "" {
      if url[0] == '{' {
        var j := IndexByte(url, '}');
        assert url[0..] == url;
        if 0 <= j {
          PartsIff(url[j + 1..]);
          ClosedAfter(url, j + 1);
        }
      } else {
        PartsIff(url[1..]);
        ClosedAfter(url, 1);
      }
    }
  }

  /** Up to a closing brace, or where nothing is opened, every brace is closed. */
  lemma ClosedAfter(s: string, n: nat)
    requires 0 < n <= |s| && (s[n - 1] == '}' || (n == 1 && s[0] != '{'))
    ensures (forall i | 0 <= i < |s| && s[i] == '{' :: '}' in s[i..]) <==>
            (forall i | 0 <= i < |s[n..]| && s[n..][i] == '{' :: '}' in s[n..][i..])
  {
    forall i | 0 <= i < |s[n..]|
      ensures s[n..][i] == s[n + i] && s[n..][i..] == s[n + i..]
    {}
    forall i | n <= i < |s|
      ensures s[i] == s[n..][i - n] && s[i..] == s[n..][i - n..]
    {}
    if s[n - 1] == '}' {
      forall i | 0 <= i < n
        ensures '}' in s[i..]
      {
        assert s[i..][n - 1 - i] == '}';
      }
    }
  }

  /** The names of any template are trimmed. */
  lemma {:induction false} NamesAreTrimmed(url: string)
    requires Parts(url).Some?
    ensures forall n <- HoleNames(Parts(url).value) :: n == "" || (!IsSpace(n[0]) && !IsSpace(n[|n| - 1]))
    decreases |url|
  {
    hide IndexByte;
    if url != "" {
      var tail := if url[0] == '{' then url[IndexByte(url, '}') + 1..] else url[1..];
      NamesAreTrimmed(tail);
      assert Parts(url).value[1..] == Parts(tail).value;
    }
  }

  /** Values that may be put in place of the holes: plain, and no two holes touch. */
  ghost predicate Fillable(ps: seq<Part>, vs: seq<string>)
    requires |HoleNames(ps)| == |vs|
  {
    if ps == [] then true
    else if ps[0].Lit? then Fillable(ps[1..], vs)
    else Plain(vs[0], ps[1..]) && (|ps| > 1 ==> ps[1].Lit?) && Fillable(ps[1..], vs[1..])
  }

  lemma RequiredTail(ps: seq<Part>)
    requires ps != [] && ps != [Lit('/')]
    ensures Required(ps) != [] && Required(ps)[0] == ps[0] && Required(ps)[1..] == Required(ps[1..])
  {}

  /** Conversely a URL made by filling in plain values is matched, and gives them back. */
  lemma {:induction false} FilledIsMatched(ps: seq<Part>, vs: seq<string>, rest: string)
    requires |HoleNames(ps)| == |HoleNames(Required(ps))| == |vs| && Fillable(ps, vs)
    requires rest == "" || rest[0] == '/'
    ensures Captures(ps, FillParts(Required(ps), vs) + rest, vs, rest)
  {
    hide Required;
    if ps == [] || ps == [Lit('/')] {
      RequiredOfNothing(ps);
    } else {
      RequiredTail(ps);
      var qs := Required(ps);
      var input := FillParts(qs, vs) + rest;
      if ps[0].Lit? {
        FilledIsMatched(ps[1..], vs, rest);
        assert input[1..] == FillParts(qs[1..], vs) + rest;
      } else {
        FilledIsMatched(ps[1..], vs[1..], rest);
        var left := FillParts(qs[1..], vs[1..]) + rest;
        assert input[|vs[0]|..] == left;
        FillStops(ps[1..], qs[1..], vs[1..], rest);
      }
    }
  }

  lemma RequiredOfNothing(ps: seq<Part>)
    requires ps == [] || ps == [Lit('/')]
    ensures Required(ps) == []
  {}

  /** What is filled in after a hole starts with the next literal, or with the slash of the rest. */
  lemma FillStops(ps: seq<Part>, qs: seq<Part>, vs: seq<string>, rest: string)
    requires |HoleNames(ps)| == |HoleNames(qs)| == |vs| && qs == Required(ps)
    requires ps != [] ==> ps[0].Lit?
    requires rest == "" || rest[0] == '/'
    ensures StopsAt(FillParts(qs, vs) + rest, ps)
  {
    if ps == [] || ps == [Lit('/')] {
      assert qs == [] && FillParts(qs, vs) + rest == rest;
    } else {
      RequiredTail(ps);
    }
  }
}
