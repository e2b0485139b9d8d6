/** Option, used wherever the Go code returns nil for "nothing". */
module Options {
  datatype Option<+T> = None | Some(value: T)
}

/** The parts of Go's `strings` package the modelled code uses. A string is a sequence of bytes. */
module GoStrings {
  /** strings.IndexByte: the first position of `c`, or -1. */
  function IndexByte(s: string, c: char): (i: int)
    ensures -1 <= i < |s|
    ensures i < 0 <==> c !in s
    ensures 0 <= i ==> s[i] == c && c !in s[..i]
  {
    if s == "" then -1
    else if s[0] == c then 0
    else
      var j := IndexByte(s[1..], c);
      assert s == [s[0]] + s[1..];
      assert 0 <= j ==> s[..j + 1] == [s[0]] + s[1..][..j];
      if j < 0 then -1 else j + 1
  }

  lemma {:induction false} IndexByteIs(s: string, c: char, i: nat)
    requires i < |s| && s[i] == c && c !in s[..i]
    ensures IndexByte(s, c) == i
  {
    if i > 0 {
      assert s[0] in s[..i];
      assert s[..i] == [s[0]] + s[1..][..i - 1];
      IndexByteIs(s[1..], c, i - 1);
    }
  }

  predicate HasPrefix(s: string, p: string) {
    p <= s
  }

  predicate HasSuffix(s: string, p: string) {
    |p| <= |s| && s[|s| - |p|..] == p
  }

  /** The string of `n` slashes. */
  function Slashes(n: nat): (s: string)
    ensures |s| == n
    ensures forall i :: 0 <= i < n ==> s[i] == '/'
  {
    seq(n, i => '/')
  }

  lemma SlashesAre(s: string)
    requires forall i :: 0 <= i < |s| ==> s[i] == '/'
    ensures s == Slashes(|s|)
  {
    assert |s| == |Slashes(|s|)|;
  }

  /** What a loop that drops every final '/' leaves. */
  function TrimSlashes(s: string): (r: string)
    ensures r <= s
    ensures !HasSuffix(r, "/")
    ensures s == r + Slashes(|s| - |r|)
  {
    if HasSuffix(s, "/") then
      var r := TrimSlashes(s[..|s| - 1]);
      assert s == s[..|s| - 1] + "/";
      assert Slashes(|s| - 1 - |r|) + "/" == Slashes(|s| - |r|) by {
        SlashesAre(Slashes(|s| - 1 - |r|) + "/");
      }
      r
    else
      s
  }

  predicate IsSpace(c: char) {
    c == ' ' || '\t' <= c <= '\r'
  }

  /** strings.TrimSpace, for ASCII white space. */
  function TrimSpace(s: string): (r: string)
    ensures r == "" || (!IsSpace(r[0]) && !IsSpace(r[|r| - 1]))
    ensures s == "" || (!IsSpace(s[0]) && !IsSpace(s[|s| - 1])) ==> r == s
  {
    if s == "" then s
    else if IsSpace(s[0]) then TrimSpace(s[1..])
    else if IsSpace(s[|s| - 1]) then TrimSpace(s[..|s| - 1])
    else s
  }

  /** Go's `<` on strings: bytewise, a proper prefix first. */
  predicate Less(a: string, b: string) {
    b != "" && (a == "" || a[0] < b[0] || (a[0] == b[0] && Less(a[1..], b[1..])))
  }

  /** The strings agree up to `i`, where `a` ends or has the smaller character. */
  predicate DiffersAt(a: string, b: string, i: int) {
    0 <= i < |b| && i <= |a| && a[..i] == b[..i] && (i == |a| || a[i] < b[i])
  }

  lemma SameStart(a: string, b: string, i: int)
    requires DiffersAt(a, b, i)
    ensures i == 0 || (a != "" && a[0] == b[0])
  {
    assert i > 0 ==> a[..i][0] == b[..i][0];
  }

  lemma {:induction false} LessIff(a: string, b: string)
    ensures Less(a, b) <==> exists i :: DiffersAt(a, b, i)
  {
    if a == "" || b == "" || a[0] != b[0] {
      assert b != "" && (a == "" || a[0] < b[0]) ==> DiffersAt(a, b, 0);
      forall i | DiffersAt(a, b, i)
        ensures b != "" && (a == "" || a[0] < b[0])
      {
        SameStart(a, b, i);
      }
    } else {
      LessIff(a[1..], b[1..]);
      forall i | DiffersAt(a[1..], b[1..], i)
        ensures DiffersAt(a, b, i + 1)
      {
        assert a[..i + 1] == [a[0]] + a[1..][..i] && b[..i + 1] == [b[0]] + b[1..][..i];
      }
      forall i | DiffersAt(a, b, i)
        ensures DiffersAt(a[1..], b[1..], i - 1)
      {
        if i > 0 {
          assert a[1..][..i - 1] == a[..i][1..] && b[1..][..i - 1] == b[..i][1..];
        }
      }
    }
  }

  lemma {:induction false} LessTrichotomy(a: string, b: string)
    ensures !(Less(a, b) && Less(b, a))
    ensures Less(a, b) || a == b || Less(b, a)
    ensures a == b ==> !Less(a, b)
  {
    if a != "" && b != "" && a[0] == b[0] {
      LessTrichotomy(a[1..], b[1..]);
      assert a == [a[0]] + a[1..] && b == [b[0]] + b[1..];
    }
  }

  lemma {:induction false} LessTransitive(a: string, b: string, c: string)
    requires Less(a, b) && Less(b, c)
    ensures Less(a, c)
  {
    if a != "" && a[0] == b[0] && b[0] == c[0] {
      LessTransitive(a[1..], b[1..], c[1..]);
    }
  }

  /** Of two prefixes of one string the longer one is the greater. */
  lemma {:induction false} GreaterPrefixIsLonger(s: string, p: string, q: string)
    requires p <= s && q <= s && Less(p, q)
    ensures |p| < |q| && p <= q
  {
    if p != "" {
      assert p[1..] <= s[1..] && q[1..] <= s[1..];
      GreaterPrefixIsLonger(s[1..], p[1..], q[1..]);
      assert p == [p[0]] + p[1..] && q == [q[0]] + q[1..];
    }
  }
}
