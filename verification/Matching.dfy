/**
 What it means for a request path to match a chain of suffix tokens, which chain wins when several
 match, and how a match relates to the text of the path.
 */
module Matching {
  import opened Options
  import opened GoStrings
  import opened Templates

  function SegmentEnd(r: string): (i: nat)
    ensures i <= |r|
    ensures '/' !in r[..i]
    ensures i < |r| ==> r[i] == '/'
  {
    var i := IndexByte(r, '/');
    if i < 0 then |r| else i
  }

  lemma SegmentEndIs(r: string, i: nat)
    requires i <= |r| && '/' !in r[..i]
    requires i < |r| ==> r[i] == '/'
    ensures SegmentEnd(r) == i
  {
    if i < |r| {
      IndexByteIs(r, '/', i);
    } else {
      assert r[..i] == r;
    }
  }

  /**
   The derivation relation. The chain of suffixes `ts` consumes all of `r`, capturing these values:
   a constant takes its own text, or is passed over if it is "/" and nothing is left; a variable
   takes the rest of the segment; a wildcard takes the rest of the path and ends the chain.
   */
  function Run(ts: seq<Token>, r: string): (captures: Option<seq<string>>) {
    if ts == [] then
      if r == "" then Some([]) else None
    else
      match ts[0].kind
      case Constant =>
        if ts[0].pattern <= r then Run(ts[1..], r[|ts[0].pattern|..])
        else if r == "" && ts[0].pattern == "/" then Run(ts[1..], r)
        else None
      case Variable =>
        var i := SegmentEnd(r);
        (match Run(ts[1..], r[i..])
         case None => None
         case Some(vs) => Some([r[..i]] + vs))
      case Everything =>
        if |ts| == 1 then Some([r]) else None
  }

  // Priority

  /** A chain is tried before its extensions; otherwise the first differing suffix decides. */
  predicate PathLess(a: seq<Token>, b: seq<Token>) {
    b != [] && (a == [] || TokenLess(a[0], b[0]) || (a[0] == b[0] && PathLess(a[1..], b[1..])))
  }

  lemma {:induction false} PathTrichotomy(a: seq<Token>, b: seq<Token>)
    ensures !(PathLess(a, b) && PathLess(b, a))
    ensures PathLess(a, b) || a == b || PathLess(b, a)
    ensures a == b ==> !PathLess(a, b)
  {
    if a != [] && b != [] {
      TokenTrichotomy(a[0], b[0]);
      PathTrichotomy(a[1..], b[1..]);
      assert a == [a[0]] + a[1..] && b == [b[0]] + b[1..];
    }
  }

  /** The first suffix that differs decides between two chains. */
  lemma {:induction false} DifferenceDecides(ts: seq<Token>, us: seq<Token>, i: nat)
    requires i < |ts| && i < |us| && ts[..i] == us[..i] && ts[i] != us[i] && PathLess(ts, us)
    ensures TokenLess(ts[i], us[i])
  {
    TokenTrichotomy(ts[0], us[0]);
    if i > 0 {
      assert ts[..i][0] == us[..i][0];
      assert ts[1..][..i - 1] == ts[..i][1..] && us[1..][..i - 1] == us[..i][1..];
      DifferenceDecides(ts[1..], us[1..], i - 1);
    }
  }

  lemma {:induction false} ExtensionComesLater(ts: seq<Token>, us: seq<Token>)
    requires PathLess(ts, us)
    ensures !(us <= ts)
  {
    if ts != [] && us != [] && ts[0] == us[0] {
      TokenTrichotomy(ts[0], us[0]);
      ExtensionComesLater(ts[1..], us[1..]);
    } else if ts != [] {
      TokenTrichotomy(ts[0], us[0]);
    }
  }

  /** What is left of the path when chains that begin alike part. */
  lemma {:induction false} SameStartSameRest(ts: seq<Token>, us: seq<Token>, r: string, i: nat) returns (rest: string)
    requires i <= |ts| && i <= |us| && ts[..i] == us[..i] && Run(ts, r).Some? && Run(us, r).Some?
    ensures Run(ts[i..], rest).Some? && Run(us[i..], rest).Some?
  {
    if i == 0 {
      rest := r;
      assert ts[0..] == ts && us[0..] == us;
    } else {
      assert ts[..i][0] == us[..i][0];
      assert ts[1..][..i - 1] == ts[..i][1..] && us[1..][..i - 1] == us[..i][1..];
      var left :=
        match ts[0].kind
        case Constant => if ts[0].pattern <= r then r[|ts[0].pattern|..] else r
        case Variable => r[SegmentEnd(r)..]
        case Everything => r;
      if ts[0].kind == Everything {
        assert ts == us;
        rest := if i == 1 then "" else r;
        assert ts[i..] == [];
      } else {
        rest := SameStartSameRest(ts[1..], us[1..], left, i - 1);
        assert ts[1..][i - 1..] == ts[i..] && us[1..][i - 1..] == us[i..];
      }
    }
  }

  /** Of two different constants that match at the same place, the longer text is tried first. */
  lemma LongerTextFirst(a: Token, b: Token, more: seq<Token>, others: seq<Token>, r: string)
    requires a.WellFormed() && b.WellFormed() && a.kind == b.kind == Constant && TokenLess(a, b)
    requires Run([a] + more, r).Some? && Run([b] + others, r).Some?
    ensures |a.pattern| > |b.pattern| && b.pattern <= a.pattern <= r
  {
    hide Less;
    LessTrichotomy(a.pattern, b.pattern);
    assert a.pattern != b.pattern;
    if r != "" {
      GreaterPrefixIsLonger(r, b.pattern, a.pattern);
    }
  }

  // Captured values and the text of the path

  /** One value for each variable; those of ordinary variables stay inside a segment. */
  predicate Fits(ts: seq<Token>, vs: seq<string>) {
    if ts == [] then vs == []
    else if ts[0].kind == Constant then Fits(ts[1..], vs)
    else vs != [] && (ts[0].kind == Variable ==> '/' !in vs[0]) && Fits(ts[1..], vs[1..])
  }

  lemma {:induction false} FitsCounts(ts: seq<Token>, vs: seq<string>)
    requires Fits(ts, vs)
    ensures |vs| == CountVariables(ts)
  {
    if ts != [] {
      FitsCounts(ts[1..], if ts[0].kind == Constant then vs else vs[1..]);
    }
  }

  /** The path got by putting the values in place of the variables. */
  function Fill(ts: seq<Token>, vs: seq<string>): string
    requires Fits(ts, vs)
  {
    if ts == [] then ""
    else if ts[0].kind == Constant then ts[0].pattern + Fill(ts[1..], vs)
    else vs[0] + Fill(ts[1..], vs[1..])
  }

  /** Filling in the captured values gives the path back, followed only by slashes. */
  lemma {:induction false} CapturesRebuildPath(ts: seq<Token>, r: string) returns (k: nat)
    requires Run(ts, r).Some?
    ensures Fits(ts, Run(ts, r).value)
    ensures Fill(ts, Run(ts, r).value) == r + Slashes(k)
  {
    hide Slashes, SegmentEnd;
    if ts == [] {
      k := NoSlashes();
    } else {
      match ts[0].kind
      case Constant =>
        if ts[0].pattern <= r {
          k := CapturesRebuildPath(ts[1..], r[|ts[0].pattern|..]);
          assert r == ts[0].pattern + r[|ts[0].pattern|..];
        } else {
          var j := CapturesRebuildPath(ts[1..], r);
          k := MoreSlashes(Fill(ts[1..], Run(ts[1..], r).value), j);
        }
      case Variable =>
        var i := SegmentEnd(r);
        k := CapturesRebuildPath(ts[1..], r[i..]);
        assert Run(ts, r).value[1..] == Run(ts[1..], r[i..]).value;
        assert r == r[..i] + r[i..];
      case Everything =>
        assert Fits(ts[1..], Run(ts, r).value[1..]);
        k := NoSlashes();
    }
  }

  lemma NoSlashes() returns (k: nat)
    ensures forall s: string :: s == s + Slashes(k)
  {
    k := 0;
  }

  lemma MoreSlashes(s: string, j: nat) returns (k: nat)
    requires s == "" + Slashes(j)
    ensures "/" + s == "" + Slashes(k)
  {
    k := j + 1;
    SlashesAre("/" + s);
  }

  /** Every variable fills a whole segment and a wildcard comes last. */
  predicate Segmentwise(ts: seq<Token>) {
    ts == [] ||
    (&& Segmentwise(ts[1..])
     && match ts[0].kind
        case Constant => true
        case Variable => |ts| == 1 || ts[1].IsSlash()
        case Everything => |ts| == 1)
  }

  /** The captured value is the filled-in one; a final wildcard may have lost closing slashes. */
  predicate SameUpToSlashes(ts: seq<Token>, given: seq<string>, captured: seq<string>) {
    && |given| == |captured|
    && forall i :: 0 <= i < |given| ==>
         || captured[i] == given[i]
         || (i == |given| - 1 && ts != [] && ts[|ts| - 1].kind == Everything
             && captured[i] <= given[i]
             && given[i] == captured[i] + Slashes(|given[i]| - |captured[i]|))
  }

  lemma {:induction false} PrefixOfPadded(p: string, r: string, rest: string, k: nat)
    requires p + rest == r + Slashes(k)
    requires '/' !in p
    ensures p <= r && rest == r[|p|..] + Slashes(k)
  {
    if p == "" {
      assert rest == p + rest;
    } else {
      assert p[0] in p && (p + rest)[0] == p[0];
      assert (p + rest)[1..] == p[1..] + rest;
      assert r != "" && (r + Slashes(k))[1..] == r[1..] + Slashes(k);
      PrefixOfPadded(p[1..], r[1..], rest, k);
      assert r[1..][|p| - 1..] == r[|p|..];
    }
  }

  lemma PrefixOfSlashed(r: string, rest: string, k: nat)
    requires r != "" && "/" + rest == r + Slashes(k)
    ensures r[0] == '/' && rest == r[1..] + Slashes(k)
  {
    assert ("/" + rest)[0] == (r + Slashes(k))[0] == r[0];
    assert rest == ("/" + rest)[1..] == (r + Slashes(k))[1..] == r[1..] + Slashes(k);
  }

  /** How a constant in front of the filled text meets the path, which may lack closing slashes. */
  lemma ConstantStep(t: Token, r: string, rest: string, k: nat) returns (left: string, j: nat)
    requires t.kind == Constant && t.WellFormed()
    requires t.pattern + rest == r + Slashes(k)
    ensures rest == left + Slashes(j)
    ensures if t.pattern <= r then left == r[|t.pattern|..] else r == "" && t.pattern == "/" && left == r
  {
    if t.pattern != "/" {
      PrefixOfPadded(t.pattern, r, rest, k);
      left, j := r[|t.pattern|..], k;
    } else if r == "" {
      assert rest == ("/" + rest)[1..] == Slashes(k)[1..];
      SlashesAre(rest);
      left, j := r, |rest|;
      assert rest == "" + Slashes(j);
    } else {
      PrefixOfSlashed(r, rest, k);
      left, j := r[1..], k;
    }
  }

  /** A variable takes back exactly the value put in, since a slash or nothing follows it. */
  lemma VariableStep(ts: seq<Token>, vs: seq<string>, r: string, k: nat)
    requires Segmentwise(ts) && Fits(ts, vs) && ts != [] && ts[0].kind == Variable
    requires Fill(ts, vs) == r + Slashes(k)
    ensures vs[0] <= r && SegmentEnd(r) == |vs[0]|
    ensures Fill(ts[1..], vs[1..]) == r[|vs[0]|..] + Slashes(k)
  {
    var rest := Fill(ts[1..], vs[1..]);
    PrefixOfPadded(vs[0], r, rest, k);
    var left := r[|vs[0]|..];
    assert left != "" ==> left[0] == rest[0] == '/';
    SegmentEndIs(r, |vs[0]|);
  }

  lemma SameAfter(ts: seq<Token>, vs: seq<string>, ws: seq<string>)
    requires ts != [] && Segmentwise(ts) && Fits(ts, vs)
    requires ts[0].kind == Constant ==> SameUpToSlashes(ts[1..], vs, ws)
    requires ts[0].kind == Variable ==> ws != [] && ws[0] == vs[0] && SameUpToSlashes(ts[1..], vs[1..], ws[1..])
    requires ts[0].kind == Everything ==>
               |ws| == 1 && ws[0] <= vs[0] && vs[0] == ws[0] + Slashes(|vs[0]| - |ws[0]|)
    ensures SameUpToSlashes(ts, vs, ws)
  {
    match ts[0].kind
    case Constant =>
      if |ts| == 1 {
        assert vs == [];
      }
    case Variable =>
      if |ts| == 1 {
        assert vs[1..] == [];
      }
      assert forall i | 1 <= i < |vs| :: vs[i] == vs[1..][i - 1];
    case Everything =>
      assert Fits(ts[1..], vs[1..]) && ts[1..] == [];
  }

  /** Every instance of a well-shaped chain matches, and gives back the values put in. */
  lemma {:induction false} InstanceRuns(ts: seq<Token>, vs: seq<string>, r: string, k: nat)
    requires WellFormed(ts) && Segmentwise(ts) && Fits(ts, vs)
    requires Fill(ts, vs) == r + Slashes(k)
    ensures Run(ts, r).Some? && SameUpToSlashes(ts, vs, Run(ts, r).value)
  {
    if ts == [] {
      assert r == "";
    } else {
      hide SameUpToSlashes, Slashes;
      assert ts[0] in ts && WellFormed(ts[1..]);
      match ts[0].kind {
        case Constant =>
          var left, j := ConstantStep(ts[0], r, Fill(ts[1..], vs), k);
          InstanceRuns(ts[1..], vs, left, j);
        case Variable =>
          VariableStep(ts, vs, r, k);
          InstanceRuns(ts[1..], vs[1..], r[|vs[0]|..], k);
          assert Run(ts, r).value[1..] == Run(ts[1..], r[|vs[0]|..]).value;
        case Everything =>
          assert Fill(ts[1..], vs[1..]) == "" && vs == [vs[0]];
          assert vs[0] == r + Slashes(k);
      }
      SameAfter(ts, vs, Run(ts, r).value);
    }
  }

  // Literal chains

  /** The chain of a brace-free template takes exactly that template's text. */
  lemma {:induction false} LiteralRuns(ts: seq<Token>)
    requires WellFormed(ts) && CountVariables(ts) == 0
    ensures Run(ts, Render(ts, [])) == Some([])
  {
    if ts != [] {
      assert ts[0] in ts && WellFormed(ts[1..]);
      LiteralRuns(ts[1..]);
      var r := Render(ts, []);
      assert r[|ts[0].pattern|..] == Render(ts[1..], []);
    }
  }

  lemma {:induction false} SlashFreePrefix(s: string, q: string)
    requires q <= s && '/' !in q
    ensures |q| <= SegmentEnd(s)
  {
    if q != "" {
      assert q[0] in q && s[0] == q[0];
      SlashFreePrefix(s[1..], q[1..]);
    }
  }

  /** A constant that ends at a segment's end is the longest that fits there. */
  lemma LongestConstant(p: Token, q: Token, rest: string)
    requires p.kind == q.kind == Constant && p.WellFormed() && q.WellFormed()
    requires p.IsSlash() || rest == "" || rest[0] == '/'
    requires q.pattern <= p.pattern + rest
    ensures |q.pattern| <= |p.pattern|
  {
    if !q.IsSlash() {
      var s := p.pattern + rest;
      SlashFreePrefix(s, q.pattern);
      assert q.pattern[0] in q.pattern;
      if !p.IsSlash() {
        assert s[..|p.pattern|] == p.pattern;
        SegmentEndIs(s, |p.pattern|);
      }
    }
  }

  /** Of the literal chain's first constant and another that matches, the literal one is no later. */
  lemma LiteralStep(p: Token, q: Token, rest: string)
    requires p.kind == q.kind == Constant && p.WellFormed() && q.WellFormed()
    requires p.IsSlash() || rest == "" || rest[0] == '/'
    requires q.pattern <= p.pattern + rest
    ensures p == q || TokenLess(p, q)
  {
    hide Less;
    LongestConstant(p, q, rest);
    LessTrichotomy(p.pattern, q.pattern);
    if Less(p.pattern, q.pattern) {
      GreaterPrefixIsLonger(p.pattern + rest, p.pattern, q.pattern);
    }
  }

  lemma RenderedRest(ts: seq<Token>, wildcard: bool)
    requires Canonical(ts, [], wildcard) && CountVariables(ts) == 0 && ts != []
    ensures ts[0].WellFormed() && ts[0].kind == Constant
    ensures Canonical(ts[1..], [], wildcard) && CountVariables(ts[1..]) == 0
    ensures var rest := Render(ts[1..], []);
            Render(ts, []) == ts[0].pattern + rest && (ts[0].IsSlash() || rest == "" || rest[0] == '/')
  {}

  /** No chain that matches a literal path is tried before the literal chain itself. */
  lemma {:induction false} LiteralComesFirst(ts: seq<Token>, us: seq<Token>, wildcard: bool)
    requires Canonical(ts, [], wildcard) && CountVariables(ts) == 0
    requires WellFormed(us) && Run(us, Render(ts, [])).Some?
    ensures us == ts || PathLess(ts, us)
  {
    if ts != [] {
      RenderedRest(ts, wildcard);
      if us != [] && us[0].kind == Constant {
        hide Less, Canonical, Render, CountVariables;
        assert us[0] in us && WellFormed(us[1..]);
        var rest := Render(ts[1..], []);
        LiteralStep(ts[0], us[0], rest);
        if ts[0] == us[0] {
          assert (ts[0].pattern + rest)[|ts[0].pattern|..] == rest;
          LiteralComesFirst(ts[1..], us[1..], wildcard);
          assert ts == [ts[0]] + ts[1..] && us == [us[0]] + us[1..];
        }
      }
    }
  }
}
