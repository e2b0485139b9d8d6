/** strings.Index, strings.Split and strings.Replace, and when they can be undone. */
module Splitting {

  /** `sep` starts at place `j` of `s`. */
  predicate At(s: string, sep: string, j: int) {
    0 <= j && j + |sep| <= |s| && s[j..j + |sep|] == sep
  }

  /** strings.Index: the leftmost place where `sep` starts, or -1. */
  function Index(s: string, sep: string): (i: int)
    ensures -1 <= i
    ensures 0 <= i ==> At(s, sep, i)
    ensures forall j | At(s, sep, j) :: 0 <= i <= j
  {
    if |s| < |sep| then -1
    else if s[..|sep|] == sep then 0
    else
      var i := Index(s[1..], sep);
      assert forall j | 1 <= j :: At(s, sep, j) <==> At(s[1..], sep, j - 1) by {
        forall j | 1 <= j
          ensures At(s, sep, j) <==> At(s[1..], sep, j - 1)
        {
          if j + |sep| <= |s| {
            assert s[1..][j - 1..j - 1 + |sep|] == s[j..j + |sep|];
          }
        }
      }
      if i < 0 then -1 else i + 1
  }

  /** strings.Split. An empty separator splits into bytes. */
  function Split(s: string, sep: string): (parts: seq<string>)
    ensures sep != "" ==> parts != []
    ensures Join(parts, sep) == s
    decreases |s|
  {
    if sep == "" then
      if s == "" then []
      else
        assert s == [s[0]] + s[1..];
        [[s[0]]] + Split(s[1..], sep)
    else if Index(s, sep) < 0 then
      [s]
    else
      var i := Index(s, sep);
      var rest := Split(s[i + |sep|..], sep);
      assert s == s[..i] + sep + s[i + |sep|..];
      [s[..i]] + rest
  }

  /** strings.Join. */
  function Join(parts: seq<string>, sep: string): string {
    if parts == [] then ""
    else if |parts| == 1 then parts[0]
    else parts[0] + sep + Join(parts[1..], sep)
  }

  /**
   No separator is found in the joined parts but the ones put between them: followed by the separator,
   a part holds it nowhere earlier, and the last part does not hold it at all.
   */
  ghost predicate Clean(parts: seq<string>, sep: string) {
    && parts != []
    && (forall i | 0 <= i < |parts| - 1 :: Index(parts[i] + sep, sep) == |parts[i]|)
    && Index(parts[|parts| - 1], sep) < 0
  }

  /** The first separator of the joined parts is never after the first part, whatever comes next. */
  lemma FirstSeparator(part: string, sep: string, rest: string)
    requires sep != ""
    ensures Index(part + sep + rest, sep) == Index(part + sep, sep)
    ensures 0 <= Index(part + sep, sep) <= |part|
  {
    var short, long := part + sep, part + sep + rest;
    assert At(short, sep, |part|);
    assert long == short + rest;
    forall j | 0 <= j && j + |sep| <= |short|
      ensures At(long, sep, j) <==> At(short, sep, j)
    {
      assert long[j..j + |sep|] == short[j..j + |sep|];
    }
    var i := Index(short, sep);
    assert At(long, sep, i);
    var k := Index(long, sep);
    assert At(short, sep, k);
  }

  /** Splitting undoes joining for the clean lists and for no others. */
  lemma {:induction false} SplitUndoesJoinIffClean(parts: seq<string>, sep: string)
    requires sep != "" && parts != []
    ensures Split(Join(parts, sep), sep) == parts <==> Clean(parts, sep)
  {
    hide Index, At;
    if |parts| == 1 {
      assert parts == [parts[0]];
    } else {
      var rest := Join(parts[1..], sep);
      FirstSeparator(parts[0], sep, rest);
      var s := parts[0] + sep + rest;
      var i := Index(s, sep);
      assert Split(s, sep) == [s[..i]] + Split(s[i + |sep|..], sep);
      if i == |parts[0]| {
        assert s[..i] == parts[0] && s[i + |sep|..] == rest;
        SplitUndoesJoinIffClean(parts[1..], sep);
        assert parts == [parts[0]] + parts[1..];
        CleanTail(parts, sep);
      } else {
        assert |Split(s, sep)[0]| == i;
      }
    }
  }

  lemma CleanTail(parts: seq<string>, sep: string)
    requires |parts| > 1 && Index(parts[0] + sep, sep) == |parts[0]|
    ensures Clean(parts, sep) <==> Clean(parts[1..], sep)
  {
    assert forall i | 1 <= i < |parts| :: parts[i] == parts[1..][i - 1];
  }

  /** Parts without the first character of the separator are clean. */
  lemma PlainPartsAreClean(parts: seq<string>, sep: string)
    requires sep != "" && parts != []
    requires forall i | 0 <= i < |parts| :: sep[0] !in parts[i]
    ensures Clean(parts, sep)
  {
    forall i | 0 <= i < |parts| - 1
      ensures Index(parts[i] + sep, sep) == |parts[i]|
    {
      NotBefore(parts[i], parts[i] + sep, sep);
      assert At(parts[i] + sep, sep, |parts[i]|);
    }
    NotBefore(parts[|parts| - 1], parts[|parts| - 1], sep);
  }

  lemma NotBefore(part: string, s: string, sep: string)
    requires sep != "" && sep[0] !in part && part <= s
    ensures forall j | At(s, sep, j) :: |part| <= j
  {
    forall j | At(s, sep, j)
      ensures |part| <= j
    {
      assert s[j..j + |sep|][0] == s[j];
    }
  }

  /** For a separator of one character, clean means that no part holds it. */
  lemma CleanForOneCharacter(parts: seq<string>, c: char)
    requires parts != []
    ensures Clean(parts, [c]) <==> forall i | 0 <= i < |parts| :: c !in parts[i]
  {
    if Clean(parts, [c]) {
      forall i, j | 0 <= i < |parts| && 0 <= j < |parts[i]|
        ensures parts[i][j] != c
      {
        var s := if i < |parts| - 1 then parts[i] + [c] else parts[i];
        if parts[i][j] == c {
          assert s[j..j + 1] == [c];
          assert At(s, [c], j);
        }
      }
    } else if forall i | 0 <= i < |parts| :: c !in parts[i] {
      PlainPartsAreClean(parts, [c]);
    }
  }

  /** What splitting yields is always clean. */
  lemma SplitIsClean(s: string, sep: string)
    requires sep != ""
    ensures Clean(Split(s, sep), sep)
  {
    SplitUndoesJoinIffClean(Split(s, sep), sep);
  }

  /** strings.Replace without a limit: from left to right, never overlapping. */
  function Replace(s: string, from: string, to: string): string
    requires from != ""
    decreases |s|
  {
    if |s| < |from| then s
    else if s[..|from|] == from then to + Replace(s[|from|..], from, to)
    else [s[0]] + Replace(s[1..], from, to)
  }
}
