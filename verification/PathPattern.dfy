/** Go slices of strings: a view of the front part of an array that others may share. */
module GoSlices {
  datatype Slice = Nil | Slice(data: array<string>, len: nat) {
    ghost predicate Valid() {
      Slice? ==> len <= data.Length
    }

    ghost function Contents(): (s: seq<string>)
      requires Valid()
      reads if Slice? then {data} else {}
    {
      if Slice? then data[..len] else []
    }
  }

  /** Ranging over a slice. */
  method Read(s: Slice) returns (values: seq<string>)
    requires s.Valid()
    ensures values == s.Contents()
  {
    values := [];
    if s.Slice? {
      values := s.data[..s.len];
    }
  }

  /** make([]string, 0, capacity) */
  method Make(capacity: nat) returns (s: Slice)
    ensures s.Slice? && s.Valid() && s.Contents() == [] && fresh(s.data) && s.data.Length == capacity
  {
    var data := new string[capacity];
    s := Slice(data, 0);
  }

  /** append: writes into the shared array while it has room, moves to a bigger one when it has none. */
  method Append(s: Slice, x: string) returns (r: Slice)
    requires s.Slice? && s.Valid()
    modifies s.data
    ensures r.Slice? && r.Valid() && r.Contents() == old(s.Contents()) + [x]
    ensures s.data[..s.len] == old(s.data[..s.len])
    ensures s.len < s.data.Length ==> r == Slice(s.data, s.len + 1) && s.data[..] == old(s.data[..])[s.len := x]
    ensures s.len == s.data.Length ==> fresh(r.data) && s.data[..] == old(s.data[..])
  {
    ghost var was := s.data[..];
    if s.len < s.data.Length {
      s.data[s.len] := x;
      assert s.data[..] == was[s.len := x];
      assert s.data[..s.len] == was[..s.len];
      r := Slice(s.data, s.len + 1);
    } else {
      var bigger := new string[2 * s.data.Length + 1];
      for i := 0 to s.len
        invariant bigger[..i] == s.data[..i] && s.data[..] == was
      {
        bigger[i] := s.data[i];
      }
      bigger[s.len] := x;
      r := Slice(bigger, s.len + 1);
    }
  }
}

/** The tree of suffixes as the router builds it in place and searches it. */
module PathPattern {
  import opened Options
  import opened GoStrings
  import opened GoSlices
  import opened Templates
  import opened Matching
  import opened RouteTable

  datatype Suffix<T(!new)> = Suffix(token: Token, node: Node<T>)

  ghost predicate Sorted<T(!new)>(s: seq<Suffix<T>>) {
    forall i, j | 0 <= i < j < |s| :: TokenLess(s[i].token, s[j].token)
  }

  ghost predicate WeaklySorted<T(!new)>(s: seq<Suffix<T>>) {
    forall i, j | 0 <= i < j < |s| :: !TokenLess(s[j].token, s[i].token)
  }

  ghost predicate HasToken<T(!new)>(s: seq<Suffix<T>>, t: Token) {
    exists i :: 0 <= i < |s| && s[i].token == t
  }

  ghost predicate DistinctTokens<T(!new)>(s: seq<Suffix<T>>) {
    forall i, j | 0 <= i < j < |s| :: s[i].token != s[j].token
  }

  /** sort.Sort on a suffix list; a list whose tokens differ has only one sorted order. */
  method Sort<T(!new)>(s: seq<Suffix<T>>) returns (r: seq<Suffix<T>>)
    ensures WeaklySorted(r) && multiset(r) == multiset(s)
    ensures DistinctTokens(s) ==> Sorted(r)
  {
    hide TokenLess, WeaklySorted, Sorted, DistinctTokens;
    r := [];
    EmptyInOrder<T>();
    for i := 0 to |s|
      invariant WeaklySorted(r) && multiset(r) == multiset(s[..i])
      invariant DistinctTokens(s) ==> Sorted(r)
    {
      var k := |r|;
      while k > 0 && TokenLess(s[i].token, r[k - 1].token)
        invariant 0 <= k <= |r|
        invariant forall j | k <= j < |r| :: TokenLess(s[i].token, r[j].token)
      {
        k := k - 1;
      }
      InsertedInOrder(r, k, s[i]);
      if DistinctTokens(s) {
        SameElements(r, s[..i]);
        InsertedStrictly(s, i, r, k);
      }
      assert r == r[..k] + r[k..] && s[..i + 1] == s[..i] + [s[i]];
      r := r[..k] + [s[i]] + r[k..];
    }
    assert s[..|s|] == s;
  }

  lemma EmptyInOrder<T(!new)>()
    ensures WeaklySorted<T>([]) && Sorted<T>([])
  {}

  lemma SameElements<X>(r: seq<X>, s: seq<X>)
    requires multiset(r) == multiset(s)
    ensures forall x :: x in r <==> x in s
  {
    assert forall x :: x in r <==> x in multiset(r);
    assert forall x :: x in s <==> x in multiset(s);
  }

  lemma InsertedInOrder<T(!new)>(r: seq<Suffix<T>>, k: nat, x: Suffix<T>)
    requires WeaklySorted(r) && k <= |r|
    requires k > 0 ==> !TokenLess(x.token, r[k - 1].token)
    requires forall j | k <= j < |r| :: TokenLess(x.token, r[j].token)
    ensures forall j | 0 <= j < k :: !TokenLess(x.token, r[j].token)
    ensures WeaklySorted(r[..k] + [x] + r[k..])
  {
    hide TokenLess;
    forall j | 0 <= j < k ensures !TokenLess(x.token, r[j].token) {
      TokenTrichotomy(r[j].token, r[k - 1].token);
      if TokenLess(x.token, r[j].token) && j < k - 1 && r[j].token != r[k - 1].token {
        TokenTransitive(x.token, r[j].token, r[k - 1].token);
      }
    }
    forall j | k <= j < |r| ensures !TokenLess(r[j].token, x.token) {
      TokenTrichotomy(r[j].token, x.token);
    }
  }

  lemma InsertedStrictly<T(!new)>(s: seq<Suffix<T>>, i: nat, r: seq<Suffix<T>>, k: nat)
    requires DistinctTokens(s) && i < |s| && Sorted(r) && k <= |r|
    requires forall x :: x in r <==> x in s[..i]
    requires forall j | 0 <= j < k :: !TokenLess(s[i].token, r[j].token)
    requires forall j | k <= j < |r| :: TokenLess(s[i].token, r[j].token)
    ensures Sorted(r[..k] + [s[i]] + r[k..])
  {
    hide TokenLess;
    forall j | 0 <= j < k ensures TokenLess(r[j].token, s[i].token) {
      assert r[j] in s[..i];
      var l :| 0 <= l < i && s[l] == r[j];
      TokenTrichotomy(r[j].token, s[i].token);
    }
  }

  lemma DistinctWhenExtended<T(!new)>(s: seq<Suffix<T>>, x: Suffix<T>)
    requires Sorted(s) && !HasToken(s, x.token)
    ensures DistinctTokens(s + [x])
  {
    hide TokenLess;
    forall i, j | 0 <= i < j < |s| ensures s[i].token != s[j].token {
      TokenTrichotomy(s[i].token, s[j].token);
    }
  }

  // Derivations that start at a node inside the tree

  ghost predicate DerivesFrom<T>(m: Table<T>, at: seq<Token>, r: string, us: seq<Token>) {
    at + us in m && m[at + us].value.Some? && Run(us, r).Some?
  }

  ghost predicate NoneFrom<T>(m: Table<T>, at: seq<Token>, r: string) {
    forall us :: !DerivesFrom(m, at, r, us)
  }

  ghost predicate FirstFrom<T>(m: Table<T>, at: seq<Token>, r: string, us: seq<Token>) {
    DerivesFrom(m, at, r, us) && forall ws | DerivesFrom(m, at, r, ws) :: ws == us || PathLess(us, ws)
  }

  lemma FromRoot<T>(m: Table<T>, r: string)
    ensures forall us :: DerivesFrom(m, [], r, us) <==> Derives(m, r, us)
  {
    forall us ensures DerivesFrom(m, [], r, us) <==> Derives(m, r, us) {
      assert [] + us == us;
    }
  }

  // One suffix at a time

  ghost predicate NoneThrough<T>(m: Table<T>, at: seq<Token>, r: string, t: Token) {
    forall us :: !DerivesFrom(m, at, r, [t] + us)
  }

  ghost predicate FirstThrough<T>(m: Table<T>, at: seq<Token>, r: string, t: Token, us: seq<Token>) {
    && DerivesFrom(m, at, r, [t] + us)
    && forall ws | DerivesFrom(m, at, r, [t] + ws) :: ws == us || PathLess(us, ws)
  }

  /** What a constant or a variable captures and leaves. */
  function Consume(t: Token, r: string): Option<(seq<string>, string)>
    requires t.kind != Everything
  {
    if t.kind == Variable then Some(([r[..SegmentEnd(r)]], r[SegmentEnd(r)..]))
    else if t.pattern <= r then Some(([], r[|t.pattern|..]))
    else if r == "" && t.pattern == "/" then Some(([], r))
    else None
  }

  lemma RunStep(t: Token, us: seq<Token>, r: string)
    requires t.kind != Everything
    ensures Consume(t, r) == None ==> Run([t] + us, r) == None
    ensures Consume(t, r).Some? ==>
              var rest := Run(us, Consume(t, r).value.1);
              Run([t] + us, r) == if rest.Some? then Some(Consume(t, r).value.0 + rest.value) else None
  {
    assert ([t] + us)[1..] == us;
    if Consume(t, r).Some? {
      var rest := Run(us, Consume(t, r).value.1);
      assert rest.Some? ==> [] + rest.value == rest.value;
    }
  }

  lemma Below<T>(m: Table<T>, at: seq<Token>, r: string, t: Token, us: seq<Token>)
    requires t.kind != Everything
    ensures DerivesFrom(m, at, r, [t] + us)
        <==> Consume(t, r).Some? && DerivesFrom(m, at + [t], Consume(t, r).value.1, us)
  {
    RunStep(t, us, r);
    assert at + ([t] + us) == (at + [t]) + us;
  }

  /** What the search below a constant or variable suffix says about the search through it. */
  lemma BelowResult<T>(m: Table<T>, at: seq<Token>, r: string, t: Token, found: bool, us: seq<Token>)
    requires t.kind != Everything
    requires !found && Consume(t, r).Some? ==> NoneFrom(m, at + [t], Consume(t, r).value.1)
    requires found ==> Consume(t, r).Some? && FirstFrom(m, at + [t], Consume(t, r).value.1, us)
    ensures !found ==> NoneThrough(m, at, r, t)
    ensures found ==> FirstThrough(m, at, r, t, us) && Run(us, Consume(t, r).value.1).Some?
    ensures found ==> Run([t] + us, r).value == Consume(t, r).value.0 + Run(us, Consume(t, r).value.1).value
  {
    RunStep(t, us, r);
    forall ws ensures DerivesFrom(m, at, r, [t] + ws)
                  <==> Consume(t, r).Some? && DerivesFrom(m, at + [t], Consume(t, r).value.1, ws) {
      Below(m, at, r, t, ws);
    }
  }

  /** A wildcard ends the chain. */
  lemma ThroughEverything<T>(m: Table<T>, at: seq<Token>, r: string, t: Token)
    requires t.kind == Everything && at + [t] in m
    ensures if m[at + [t]].value.Some? then FirstThrough(m, at, r, t, []) else NoneThrough(m, at, r, t)
    ensures Run([t] + [], r) == Some([r])
  {
    assert [t] + [] == [t];
    forall us ensures DerivesFrom(m, at, r, [t] + us) <==> us == [] && m[at + [t]].value.Some? {
      assert us == [] ==> at + ([t] + us) == at + [t];
    }
  }

  /** `list` is the suffix list of the node at `at`. */
  ghost predicate IsListAt<T(!new)>(m: Table<T>, index: Index<T>, list: seq<Suffix<T>>, at: seq<Token>) {
    m.Keys == index.Keys && PrefixClosed(index.Keys) && ListsChildren(index, at, list)
  }

  lemma FindAnswers<T(!new)>(m: Table<T>, index: Index<T>, list: seq<Suffix<T>>, at: seq<Token>, t: Token,
                            child: Node?<T>)
    requires IsListAt(m, index, list, at)
    requires if child == null then !HasToken(list, t) else Suffix(t, child) in list
    ensures at + [t] in m <==> child != null
    ensures child != null ==> at + [t] in index && index[at + [t]] == child
  {}

  /** A chain that leaves a node leaves it through one of the listed suffixes. */
  lemma LeavesThroughListed<T(!new)>(m: Table<T>, index: Index<T>, list: seq<Suffix<T>>, at: seq<Token>,
                                    r: string, us: seq<Token>)
    requires IsListAt(m, index, list, at)
    requires DerivesFrom(m, at, r, us) && us != []
    ensures us == [us[0]] + us[1..] && HasToken(list, us[0])
  {
    assert (at + us)[..|at| + 1] == at + [us[0]];
  }

  lemma SuffixLeadsDown<T(!new)>(m: Table<T>, index: Index<T>, list: seq<Suffix<T>>, at: seq<Token>, i: nat)
    requires IsListAt(m, index, list, at) && i < |list|
    ensures at + [list[i].token] in index && index[at + [list[i].token]] == list[i].node
  {
    assert list[i] in list;
  }

  /** Nothing derives at the node itself or through its first `i` suffixes. */
  ghost predicate NoneBefore<T(!new)>(m: Table<T>, at: seq<Token>, r: string, list: seq<Suffix<T>>, i: nat) {
    && i <= |list| && !DerivesFrom(m, at, r, [])
    && forall j | 0 <= j < i :: NoneThrough(m, at, r, list[j].token)
  }

  lemma NoneOverall<T(!new)>(m: Table<T>, index: Index<T>, list: seq<Suffix<T>>, at: seq<Token>, r: string)
    requires IsListAt(m, index, list, at) && NoneBefore(m, at, r, list, |list|)
    ensures NoneFrom(m, at, r)
  {
    forall us ensures !DerivesFrom(m, at, r, us) {
      if us != [] && DerivesFrom(m, at, r, us) {
        LeavesThroughListed(m, index, list, at, r, us);
      }
    }
  }

  lemma FirstOverall<T(!new)>(m: Table<T>, index: Index<T>, list: seq<Suffix<T>>, at: seq<Token>, r: string,
                             i: nat, us: seq<Token>)
    requires IsListAt(m, index, list, at)
    requires NoneBefore(m, at, r, list, i) && i < |list|
    requires FirstThrough(m, at, r, list[i].token, us)
    ensures FirstFrom(m, at, r, [list[i].token] + us)
  {
    var t := list[i].token;
    assert ([t] + us)[1..] == us;
    forall ws | DerivesFrom(m, at, r, ws) ensures ws == [t] + us || PathLess([t] + us, ws) {
      LeavesThroughListed(m, index, list, at, r, ws);
      var j :| 0 <= j < |list| && list[j].token == ws[0];
      assert j >= i;
    }
  }

  /** The outcome of a search below `at`, started with the captures `seen`: nothing derives, or the first does. */
  ghost predicate Found<T(!new)>(m: Table<T>, index: Index<T>, at: seq<Token>, r: string, seen: seq<string>,
                                node: Node?<T>, values: seq<string>, us: seq<Token>) {
    if node == null then NoneFrom(m, at, r)
    else
      && FirstFrom(m, at, r, us)
      && at + us in index && node == index[at + us]
      && values == seen + Run(us, r).value
  }

  /** The same for a search through one suffix. */
  ghost predicate FoundThrough<T(!new)>(m: Table<T>, index: Index<T>, at: seq<Token>, t: Token, r: string,
                                       seen: seq<string>, node: Node?<T>, values: seq<string>, us: seq<Token>) {
    if node == null then NoneThrough(m, at, r, t)
    else
      && FirstThrough(m, at, r, t, us)
      && at + ([t] + us) in index && node == index[at + ([t] + us)]
      && values == seen + Run([t] + us, r).value
  }

  lemma FoundHere<T(!new)>(m: Table<T>, index: Index<T>, at: seq<Token>, seen: seq<string>, node: Node<T>)
    requires at in m && m[at].value.Some? && at in index && index[at] == node
    ensures Found(m, index, at, "", seen, node, seen, [])
  {
    assert at + [] == at && seen + [] == seen;
  }

  lemma FoundFromRoot<T(!new)>(m: Table<T>, index: Index<T>, r: string, node: Node?<T>, values: seq<string>,
                              ts: seq<Token>)
    requires Found(m, index, [], r, [], node, values, ts)
    ensures node == null ==> forall us :: !Derives(m, r, us)
    ensures node != null ==> First(m, r, ts) && ts in index && node == index[ts] && values == Run(ts, r).value
  {
    FromRoot(m, r);
    if node != null {
      assert [] + ts == ts && [] + Run(ts, r).value == Run(ts, r).value;
    }
  }

  lemma FoundBelow<T(!new)>(m: Table<T>, index: Index<T>, at: seq<Token>, t: Token, r: string, seen: seq<string>,
                           node: Node?<T>, values: seq<string>, us: seq<Token>)
    requires t.kind != Everything
    requires match Consume(t, r)
             case None => node == null
             case Some(c) => Found(m, index, at + [t], c.1, seen + c.0, node, values, us)
    ensures FoundThrough(m, index, at, t, r, seen, node, values, us)
  {
    hide NoneFrom, FirstFrom, NoneThrough, FirstThrough, Run, Consume;
    BelowResult(m, at, r, t, node != null, us);
    assert at + ([t] + us) == (at + [t]) + us;
    if node != null {
      var c := Consume(t, r).value;
      assert (seen + c.0) + Run(us, c.1).value == seen + (c.0 + Run(us, c.1).value);
    }
  }

  lemma FoundWildcard<T(!new)>(m: Table<T>, index: Index<T>, at: seq<Token>, t: Token, r: string, seen: seq<string>,
                              child: Node<T>)
    requires t.kind == Everything && at + [t] in m && at + [t] in index && index[at + [t]] == child
    ensures FoundThrough(m, index, at, t, r, seen, if m[at + [t]].value.Some? then child else null, seen + [r], [])
  {
    ThroughEverything(m, at, r, t);
    assert at + ([t] + []) == at + [t];
  }

  lemma FoundOverall<T(!new)>(m: Table<T>, index: Index<T>, list: seq<Suffix<T>>, at: seq<Token>, r: string,
                             i: nat, seen: seq<string>, node: Node<T>, values: seq<string>, us: seq<Token>)
    requires IsListAt(m, index, list, at)
    requires NoneBefore(m, at, r, list, i) && i < |list|
    requires FoundThrough(m, index, at, list[i].token, r, seen, node, values, us)
    ensures Found(m, index, at, r, seen, node, values, [list[i].token] + us)
  {
    FirstOverall(m, index, list, at, r, i, us);
  }

  lemma NoneBeforeStart<T(!new)>(m: Table<T>, at: seq<Token>, r: string, list: seq<Suffix<T>>)
    requires at in m && !(r == "" && m[at].value.Some?)
    ensures NoneBefore(m, at, r, list, 0)
  {
    assert at + [] == at;
  }

  lemma NoneBeforeNext<T(!new)>(m: Table<T>, index: Index<T>, list: seq<Suffix<T>>, at: seq<Token>, r: string,
                               i: nat, seen: seq<string>, values: seq<string>, us: seq<Token>)
    requires NoneBefore(m, at, r, list, i) && i < |list|
    requires FoundThrough(m, index, at, list[i].token, r, seen, null, values, us)
    ensures NoneBefore(m, at, r, list, i + 1)
  {}

  lemma NotFound<T(!new)>(m: Table<T>, index: Index<T>, list: seq<Suffix<T>>, at: seq<Token>, r: string,
                         seen: seq<string>)
    requires IsListAt(m, index, list, at) && NoneBefore(m, at, r, list, |list|)
    ensures Found(m, index, at, r, seen, null, [], [])
  {
    NoneOverall(m, index, list, at, r);
  }

  lemma ExtendPrefixClosed(ps: set<seq<Token>>, p: seq<Token>, t: Token)
    requires PrefixClosed(ps) && p in ps
    ensures PrefixClosed(ps + {p + [t]})
  {
    forall n | 0 <= n <= |p| + 1 ensures (p + [t])[..n] in ps + {p + [t]} {
      if n <= |p| {
        assert (p + [t])[..n] == p[..n];
      } else {
        assert (p + [t])[..n] == p + [t];
      }
    }
  }

  lemma SnocInjective(p: seq<Token>, t: Token, q: seq<Token>, u: Token)
    ensures p + [t] == q + [u] <==> p == q && t == u
  {
    if p + [t] == q + [u] {
      assert (p + [t])[..|p|] == p && (q + [u])[..|p|] == q;
      assert (p + [t])[|p|] == t && (q + [u])[|p|] == u;
    }
  }

  type Index<T(!new)> = map<seq<Token>, Node<T>>

  /** The node at `p` lists its children in order, each once. */
  ghost predicate ListsChildren<T(!new)>(index: Index<T>, p: seq<Token>, list: seq<Suffix<T>>) {
    && Sorted(list)
    && (forall s | s in list :: p + [s.token] in index && index[p + [s.token]] == s.node)
    && (forall t | p + [t] in index :: HasToken(list, t))
  }

  /** The nodes form a tree whose edges are the listed suffixes. */
  ghost predicate Linked<T(!new)>(index: Index<T>, lists: map<seq<Token>, seq<Suffix<T>>>) {
    && lists.Keys == index.Keys
    && [] in index && PrefixClosed(index.Keys)
    && (forall p, q | p in index && q in index && index[p] == index[q] :: p == q)
    && (forall p | p in index :: ListsChildren(index, p, lists[p]))
  }

  lemma ChildListed<T(!new)>(index: Index<T>, at: seq<Token>, token: Token, child: Node<T>,
                            before: seq<Suffix<T>>, after: seq<Suffix<T>>)
    requires ListsChildren(index, at, before) && Sorted(after)
    requires forall x :: x in after <==> x in before + [Suffix(token, child)]
    requires at + [token] !in index
    ensures ListsChildren(index[at + [token] := child], at, after)
  {
    var index' := index[at + [token] := child];
    forall t | at + [t] in index' ensures HasToken(after, t) {
      SnocInjective(at, t, at, token);
      if t == token {
        assert Suffix(token, child) in before + [Suffix(token, child)];
      } else {
        var i :| 0 <= i < |before| && before[i].token == t;
        assert before[i] in before + [Suffix(token, child)];
      }
    }
    forall x | x in after ensures at + [x.token] in index' && index'[at + [x.token]] == x.node {
      assert x in before || x == Suffix(token, child);
    }
  }

  lemma OthersListed<T(!new)>(index: Index<T>, p: seq<Token>, list: seq<Suffix<T>>,
                             at: seq<Token>, token: Token, child: Node<T>)
    requires ListsChildren(index, p, list) && p != at && at + [token] !in index
    ensures ListsChildren(index[at + [token] := child], p, list)
  {
    forall t ensures p + [t] != at + [token] {
      SnocInjective(p, t, at, token);
    }
  }

  /** Hanging a new node below `at`, and listing it there, keeps the tree a tree. */
  lemma ExtendLinked<T(!new)>(index: Index<T>, lists: map<seq<Token>, seq<Suffix<T>>>, at: seq<Token>, token: Token,
                             child: Node<T>, after: seq<Suffix<T>>)
    requires Linked(index, lists) && at in index && at + [token] !in index
    requires forall p | p in index :: index[p] != child
    requires Sorted(after) && forall x :: x in after <==> x in lists[at] + [Suffix(token, child)]
    ensures Linked(index[at + [token] := child], lists[at := after][at + [token] := []])
  {
    var down := at + [token];
    var index', lists' := index[down := child], lists[at := after][down := []];
    assert index'.Keys == index.Keys + {down};
    ExtendPrefixClosed(index.Keys, at, token);
    forall p | p in index' ensures ListsChildren(index', p, lists'[p]) {
      if p == at {
        ChildListed(index, at, token, child, lists[at], after);
      } else if p != down {
        OthersListed(index, p, lists[p], at, token, child);
      } else {
        forall t ensures down + [t] !in index' {
          assert (down + [t])[..|down|] == down;
        }
      }
    }
  }

  /** The same for a list that was appended to and sorted. */
  lemma ExtendSorted<T(!new)>(index: Index<T>, lists: map<seq<Token>, seq<Suffix<T>>>, at: seq<Token>, token: Token,
                             child: Node<T>, after: seq<Suffix<T>>)
    requires Linked(index, lists) && at in index && !HasToken(lists[at], token)
    requires child !in index.Values
    requires multiset(after) == multiset(lists[at] + [Suffix(token, child)])
    requires DistinctTokens(lists[at] + [Suffix(token, child)]) ==> Sorted(after)
    ensures Linked(index[at + [token] := child], lists[at := after][at + [token] := []])
    ensures at + [token] !in index
  {
    assert ListsChildren(index, at, lists[at]);
    DistinctWhenExtended(lists[at], Suffix(token, child));
    SameElements(after, lists[at] + [Suffix(token, child)]);
    ExtendLinked(index, lists, at, token, child, after);
  }

  method DropSlashes(path: string) returns (r: string)
    ensures r == TrimSlashes(path)
  {
    r := path;
    while HasSuffix(r, "/")
      invariant TrimSlashes(r) == TrimSlashes(path)
      decreases |r|
    {
      r := r[..|r| - 1];
    }
  }

  /** Cuts one token off a template; not `ok` if a '}' is missing. */
  method CutToken(remaining: string, wildcard: bool)
    returns (ok: bool, token: Token, names: seq<string>, rest: string)
    requires remaining != ""
    ensures var x := NextToken(remaining, wildcard);
            if ok then x == Some(Templates.Scan(token, names, rest)) else x == None
  {
    ok, names := true, [];
    if HasPrefix(remaining, "/") {
      token, rest := Token(Constant, "/"), remaining[1..];
      return;
    }
    var i := ConstantLength(remaining);
    if i > 0 {
      token, rest := Token(Constant, remaining[..i]), remaining[i..];
      return;
    }
    var close := IndexByte(remaining, '}');
    token, rest := Token(Variable, ""), remaining;
    if close < 0 {
      ok := false;
      return;
    }
    var name := TrimSpace(remaining[1..close]);
    rest := remaining[close + 1..];
    if wildcard && HasSuffix(name, "*") {
      token := Token(Everything, "");
    }
    names := [name];
  }

  /** `t` is what was read so far, followed by `rest`. */
  ghost predicate Continues(t: Template, tokens: seq<Token>, names: seq<string>, rest: Template) {
    t.tokens == tokens + rest.tokens && t.names == names + rest.names && t.ok == rest.ok
  }

  lemma ParseStart(path: string, wildcard: bool)
    ensures Continues(TemplateOf(path, wildcard), [], [], Parse(TrimSlashes(path), wildcard))
  {}

  lemma ParseStep(t: Template, tokens: seq<Token>, names: seq<string>, s: string, wildcard: bool)
    requires s != "" && Continues(t, tokens, names, Parse(s, wildcard))
    ensures match NextToken(s, wildcard)
            case None => t == Template(tokens, names, false)
            case Some(x) => Continues(t, tokens + [x.token], names + x.names, Parse(x.rest, wildcard))
  {
    hide NextToken, Templates.WellFormed;
    match NextToken(s, wildcard)
    case None =>
      assert tokens + [] == tokens && names + [] == names;
    case Some(x) =>
      var rest := Parse(x.rest, wildcard);
      assert tokens + ([x.token] + rest.tokens) == (tokens + [x.token]) + rest.tokens;
      assert names + (x.names + rest.names) == (names + x.names) + rest.names;
  }

  lemma ParseEnd(t: Template, tokens: seq<Token>, names: seq<string>, wildcard: bool)
    requires Continues(t, tokens, names, Parse("", wildcard))
    ensures t == Template(tokens, names, true)
  {}

  class Node<T(!new)> {
    var variableNames: seq<string>
    var value: Option<T>
    var suffixes: seq<Suffix<T>>

    /** At the root of a tree: where each node is, and a bound on the depth. */
    ghost var index: map<seq<Token>, Node<T>>
    ghost var height: nat

    constructor ()
      ensures Valid() && index == map[[] := this]
      ensures variableNames == [] && value == None && suffixes == []
      ensures Model() == EmptyTable<T>()
    {
      variableNames, value, suffixes := [], None, [];
      height := 0;
      new;
      index := map[[] := this];
    }

    ghost function Lists(): map<seq<Token>, seq<Suffix<T>>>
      reads this, index.Values
    {
      map p | p in index :: index[p].suffixes
    }

    /** This node is the root of a tree. */
    ghost predicate Valid()
      reads this, index.Values
    {
      && [] in index && index[[]] == this
      && Linked(index, Lists())
      && (forall p | p in index :: |p| <= height)
    }

    /** What the tree stands for. */
    ghost function Model(): Table<T>
      reads this, index.Values
    {
      map p | p in index :: Entry(index[p].variableNames, index[p].value)
    }

    /** The search for an existing suffix. */
    method Find(token: Token) returns (child: Node?<T>)
      ensures child != null ==> Suffix(token, child) in suffixes
      ensures child == null ==> !HasToken(suffixes, token)
    {
      for i := 0 to |suffixes|
        invariant forall j | 0 <= j < i :: suffixes[j].token != token
      {
        if suffixes[i].token == token {
          return suffixes[i].node;
        }
      }
      child := null;
    }

    // Field updates, and what they change as seen from the root

    /** This node sits at `at`, and nowhere else, in the tree of `root`. */
    ghost predicate At(root: Node<T>, at: seq<Token>)
      reads root
    {
      at in root.index && root.index[at] == this && forall p | p in root.index && root.index[p] == this :: p == at
    }

    method SetSuffixes(ghost root: Node<T>, ghost at: seq<Token>, list: seq<Suffix<T>>)
      requires At(root, at)
      modifies this`suffixes
      ensures suffixes == list
      ensures root.Lists() == old(root.Lists())[at := list]
      ensures root.Model() == old(root.Model())
    {
      suffixes := list;
    }

    method SetNames(ghost root: Node<T>, ghost at: seq<Token>, names: seq<string>)
      requires At(root, at)
      modifies this`variableNames
      ensures root.Lists() == old(root.Lists())
      ensures root.Model() == old(root.Model())[at := Entry(names, value)]
    {
      variableNames := names;
    }

    method SetValue(ghost root: Node<T>, ghost at: seq<Token>, v: Option<T>)
      requires At(root, at)
      modifies this`value
      ensures root.Lists() == old(root.Lists())
      ensures root.Model() == old(root.Model())[at := Entry(variableNames, v)]
    {
      value := v;
    }

    ghost method Register(at: seq<Token>, child: Node<T>)
      requires at !in index
      modifies this`index, this`height
      ensures index == old(index)[at := child]
      ensures height >= old(height) && height >= |at|
      ensures Lists() == old(Lists())[at := child.suffixes]
      ensures Model() == old(Model())[at := Entry(child.variableNames, child.value)]
    {
      index := index[at := child];
      height := if |at| > height then |at| else height;
    }

    /** Creates a node, appends it to the suffixes of this one and sorts them. */
    method Hang(ghost root: Node<T>, ghost at: seq<Token>, token: Token) returns (child: Node<T>)
      requires At(root, at) && at + [token] !in root.index
      modifies this`suffixes, root`index, root`height
      ensures fresh(child) && root.index == old(root.index)[at + [token] := child]
      ensures multiset(suffixes) == multiset(old(suffixes) + [Suffix(token, child)])
      ensures DistinctTokens(old(suffixes) + [Suffix(token, child)]) ==> Sorted(suffixes)
      ensures root.Lists() == old(root.Lists())[at := suffixes][at + [token] := []]
      ensures root.Model() == old(root.Model())[at + [token] := Entry([], None)]
      ensures root.height >= old(root.height) && root.height >= |at + [token]|
    {
      hide WeaklySorted, Sorted, DistinctTokens, Lists, Model, Valid;
      child := new Node<T>();
      var list := Sort(suffixes + [Suffix(token, child)]);
      SetSuffixes(root, at, list);
      root.Register(at + [token], child);
    }

    /** The same, seen as a change to the tree. */
    method Extend(ghost root: Node<T>, ghost at: seq<Token>, token: Token) returns (child: Node<T>)
      requires root.Valid() && at in root.index && root.index[at] == this
      requires !HasToken(suffixes, token)
      modifies this`suffixes, root`index, root`height
      ensures root.Valid() && root.index == old(root.index)[at + [token] := child] && fresh(child)
      ensures root.Model() == old(root.Model())[at + [token] := Entry([], None)]
    {
      ghost var index, lists := root.index, root.Lists();
      assert ListsChildren(index, at, lists[at]);
      child := Hang(root, at, token);
      ExtendSorted(index, lists, at, token, child, suffixes);
    }

    lemma ListAt(root: Node<T>, at: seq<Token>)
      requires root.Valid() && at in root.index && root.index[at] == this
      ensures IsListAt(root.Model(), root.index, suffixes, at)
      ensures at in root.Model() && root.Model()[at] == Entry(variableNames, value) && |at| <= root.height
    {
      assert suffixes == root.Lists()[at];
    }

    lemma RootPlaced()
      requires Valid()
      ensures [] in index && index[[]] == this
    {}

    lemma Placed(p: seq<Token>)
      requires Valid() && p in index
      ensures index[p].At(this, p)
    {}

    /** `current` sits where the tokens read so far lead; the nodes up to there exist, and nothing else is new. */
    ghost predicate Midway(before: Table<T>, t: Template, done: seq<Token>, names: seq<string>, rest: Template,
                           current: Node<T>)
      reads this, index.Values
    {
      && Valid() && done in index && index[done] == current
      && Model() == Touch(before, done)
      && Continues(t, done, names, rest)
    }

    lemma MidwayStart(path: string, wildcard: bool)
      requires Valid()
      ensures Closed(Model())
      ensures Midway(Model(), TemplateOf(path, wildcard), [], [], Parse(TrimSlashes(path), wildcard), this)
    {
      hide TemplateOf, Parse;
      TouchNothing(Model());
      ParseStart(path, wildcard);
    }

    /** Walks down the tree along the tokens of the template, creating the nodes that are missing. */
    method CreateNode(path: string, wildcard: bool) returns (node: Node?<T>)
      requires Valid()
      modifies this, index.Values
      ensures Valid() && fresh(index.Values - old(index.Values))
      ensures Model() == Create(old(Model()), TemplateOf(path, wildcard))
      ensures var t := TemplateOf(path, wildcard);
              if t.ok then t.tokens in index && node == index[t.tokens] else node == null
    {
      hide Linked, Midway, Touch, Continues, TemplateOf, Create, Parse;
      MidwayStart(path, wildcard);
      var remaining := DropSlashes(path);
      node := Walk(Model(), TemplateOf(path, wildcard), remaining, wildcard);
    }

    method Walk(ghost before: Table<T>, ghost t: Template, path: string, wildcard: bool) returns (node: Node?<T>)
      requires Closed(before) && Midway(before, t, [], [], Parse(path, wildcard), this)
      modifies this, index.Values
      ensures Valid() && fresh(index.Values - old(index.Values))
      ensures Model() == Create(before, t)
      ensures if t.ok then t.tokens in index && node == index[t.tokens] else node == null
    {
      hide Midway, Valid, Closed, Parse, NextToken, Create;
      var remaining, names := path, [];
      ghost var done: seq<Token> := [];
      var current: Node<T> := this;
      while remaining != ""
        invariant Midway(before, t, done, names, Parse(remaining, wildcard), current)
        invariant fresh(index.Values - old(index.Values))
        decreases |remaining|
      {
        var ok, token, newNames, rest := CutToken(remaining, wildcard);
        if !ok {
          StuckMidway(before, t, done, names, remaining, current, wildcard);
          return null;
        }
        current := Advance(before, t, done, names, remaining, current, token, newNames, rest, wildcard);
        names, remaining, done := names + newNames, rest, done + [token];
      }
      node := Arrive(before, t, done, names, current, wildcard);
    }

    lemma StuckMidway(before: Table<T>, t: Template, done: seq<Token>, names: seq<string>, remaining: string,
                      current: Node<T>, wildcard: bool)
      requires remaining != "" && NextToken(remaining, wildcard) == None
      requires Midway(before, t, done, names, Parse(remaining, wildcard), current)
      ensures Valid() && !t.ok && Model() == Create(before, t)
    {
      ParseStep(t, done, names, remaining, wildcard);
    }

    /** One step down, for the token just read. */
    method Advance(ghost before: Table<T>, ghost t: Template, ghost done: seq<Token>, ghost names: seq<string>,
                   ghost remaining: string, current: Node<T>, token: Token, ghost newNames: seq<string>,
                   ghost rest: string, ghost wildcard: bool)
      returns (child: Node<T>)
      requires Closed(before) && remaining != ""
      requires NextToken(remaining, wildcard) == Some(Templates.Scan(token, newNames, rest))
      requires Midway(before, t, done, names, Parse(remaining, wildcard), current)
      modifies this, index.Values
      ensures Midway(before, t, done + [token], names + newNames, Parse(rest, wildcard), child)
      ensures fresh(index.Values - old(index.Values))
    {
      ParseStep(t, done, names, remaining, wildcard);
      TouchStep(before, done, token);
      hide Linked, Parse, NextToken, Continues, Touch;
      child := Descend(done, current, token);
    }

    /** The end of the template: this is the right node. */
    method Arrive(ghost before: Table<T>, ghost t: Template, ghost done: seq<Token>, names: seq<string>,
                  current: Node<T>, ghost wildcard: bool)
      returns (node: Node<T>)
      requires Midway(before, t, done, names, Parse("", wildcard), current)
      modifies this, index.Values
      ensures Valid() && index == old(index)
      ensures Model() == Create(before, t) && t.ok && t.tokens in index && node == index[t.tokens]
    {
      ParseEnd(t, done, names, wildcard);
      Placed(done);
      hide Linked, Parse, Continues, Touch;
      current.SetNames(this, done, names);
      node := current;
    }

    /** The child of `current` for a token: the existing one, or a new one. */
    method Descend(ghost at: seq<Token>, current: Node<T>, token: Token) returns (child: Node<T>)
      requires Valid() && at in index && index[at] == current
      modifies this, index.Values
      ensures Valid() && fresh(index.Values - old(index.Values))
      ensures at + [token] in index && index[at + [token]] == child
      ensures Model() == if at + [token] in old(Model()) then old(Model())
                         else old(Model())[at + [token] := Entry([], None)]
    {
      hide Linked, PrefixClosed, IsListAt, Model;
      current.ListAt(this, at);
      var existing := current.Find(token);
      FindAnswers(Model(), index, current.suffixes, at, token, existing);
      if existing != null {
        child := existing;
      } else {
        child := current.Extend(this, at, token);
      }
    }

    method Add(path: string, v: Option<T>, wildcard: bool) returns (ok: bool)
      requires Valid()
      modifies this, index.Values
      ensures Valid() && fresh(index.Values - old(index.Values))
      ensures ok == TemplateOf(path, wildcard).ok
      ensures Model() == RouteTable.Add(old(Model()), TemplateOf(path, wildcard), v)
    {
      hide Linked, TemplateOf, Create;
      var node := CreateNode(path, wildcard);
      ok := node != null;
      if ok {
        Placed(TemplateOf(path, wildcard).tokens);
        node.SetValue(this, TemplateOf(path, wildcard).tokens, v);
      }
    }

    /** The node that the first derivation leads to, with what it captures. */
    method Match(path: string) returns (node: Node?<T>, values: Slice, ghost ts: seq<Token>)
      requires Valid()
      ensures values.Valid()
      ensures node == null ==> forall us :: !Derives(Model(), TrimSlashes(path), us)
      ensures node != null ==> First(Model(), TrimSlashes(path), ts) && ts in index && node == index[ts]
      ensures node != null ==> values.Contents() == Run(ts, TrimSlashes(path)).value
    {
      hide Linked, Found, Model, Run, First, Derives, Node.Valid;
      RootPlaced();
      var trimmed := DropSlashes(path);
      var variableValues := Make(8);
      node, values, ts := MatchRemaining(this, [], trimmed, variableValues);
      FoundFromRoot(Model(), index, trimmed, node, values.Contents(), ts);
    }

    /**
     Searches below this node, which sits at `at` in the tree of `root`, backtracking over the
     shared slice `pv`. What the caller sees of that slice stays as it was.
     */
    method MatchRemaining(ghost root: Node<T>, ghost at: seq<Token>, remaining: string, pv: Slice)
      returns (node: Node?<T>, values: Slice, ghost us: seq<Token>)
      requires root.Valid() && at in root.index && root.index[at] == this
      requires pv.Slice? && pv.Valid()
      modifies pv.data
      ensures pv.Contents() == old(pv.Contents()) && values.Valid()
      ensures Found(old(root.Model()), old(root.index), at, remaining, old(pv.Contents()), node, values.Contents(), us)
      decreases root.height - |at|, 1
    {
      hide Linked, Found, FoundThrough, NoneBefore, IsListAt, Model, Node.Valid;
      ghost var m, index, list, seen := root.Model(), root.index, suffixes, pv.Contents();
      ListAt(root, at);
      if |remaining| == 0 && value != None {
        FoundHere(m, index, at, seen, this);
        return this, pv, [];
      }
      NoneBeforeStart(m, at, remaining, list);
      for i := 0 to |suffixes|
        invariant pv.Contents() == seen
        invariant NoneBefore(m, at, remaining, list, i)
      {
        SuffixLeadsDown(m, index, list, at, i);
        node, values, us := TrySuffix(root, at, suffixes[i], remaining, pv);
        if node != null {
          FoundOverall(m, index, list, at, remaining, i, seen, node, values.Contents(), us);
          us := [list[i].token] + us;
          return;
        }
        NoneBeforeNext(m, index, list, at, remaining, i, seen, values.Contents(), us);
      }
      node, values, us := null, Nil, [];
      NotFound(m, index, list, at, remaining, seen);
    }

    /** The body of the search loop: one suffix of this node. */
    method TrySuffix(ghost root: Node<T>, ghost at: seq<Token>, suffix: Suffix<T>, remaining: string, pv: Slice)
      returns (node: Node?<T>, values: Slice, ghost us: seq<Token>)
      requires root.Valid()
      requires at + [suffix.token] in root.index && root.index[at + [suffix.token]] == suffix.node
      requires pv.Slice? && pv.Valid()
      modifies pv.data
      ensures pv.Contents() == old(pv.Contents()) && values.Valid()
      ensures FoundThrough(old(root.Model()), old(root.index), at, suffix.token, remaining, old(pv.Contents()),
                           node, values.Contents(), us)
      decreases root.height - |at|, 0
    {
      hide Linked, Found, FoundThrough, Node.Valid, Model;
      ghost var m, index, down, seen := root.Model(), root.index, at + [suffix.token], pv.Contents();
      suffix.node.ListAt(root, down);
      us := [];
      if suffix.token.kind == Everything {
        FoundWildcard(m, index, at, suffix.token, remaining, seen, suffix.node);
        values := GoSlices.Append(pv, remaining);
        node := if suffix.node.value != None then suffix.node else null;
        return;
      }
      var matches, newRemaining, newValues := true, remaining, pv;
      if suffix.token.kind == Constant {
        var pattern := suffix.token.pattern;
        if HasPrefix(remaining, pattern) {
          newRemaining := remaining[|pattern|..];
        } else {
          matches := |remaining| == 0 && pattern == "/";
        }
      } else {
        var e := IndexByte(remaining, '/');
        if e < 0 {
          e := |remaining|;
        }
        newRemaining := remaining[e..];
        newValues := GoSlices.Append(pv, remaining[..e]);
      }
      node, values := null, Nil;
      ghost var consumed := Consume(suffix.token, remaining);
      assert if matches then consumed == Some((consumed.value.0, newRemaining)) else consumed == None;
      if matches {
        assert newValues.Contents() == seen + consumed.value.0;
        node, values, us := suffix.node.MatchRemaining(root, down, newRemaining, newValues);
      }
      FoundBelow(m, index, at, suffix.token, remaining, seen, node, values.Contents(), us);
    }
  }

  // One table, one tree

  function TokensOf<T(!new)>(s: seq<Suffix<T>>): (ts: seq<Token>)
    ensures |ts| == |s| && forall i | 0 <= i < |s| :: ts[i] == s[i].token
  {
    if s == [] then [] else [s[0].token] + TokensOf(s[1..])
  }

  ghost predicate StrictlySorted(ts: seq<Token>) {
    forall i, j | 0 <= i < j < |ts| :: TokenLess(ts[i], ts[j])
  }

  lemma HeadNotInTail(a: seq<Token>)
    requires StrictlySorted(a) && a != []
    ensures a[0] !in a[1..]
  {
    TokenTrichotomy(a[0], a[0]);
  }

  lemma {:induction false} SortedIsUnique(a: seq<Token>, b: seq<Token>)
    requires StrictlySorted(a) && StrictlySorted(b) && forall t :: t in a <==> t in b
    ensures a == b
  {
    assert b != [] ==> b[0] in b;
    if a != [] {
      assert a[0] in b && b != [] && b[0] in a;
      TokenTrichotomy(a[0], b[0]);
      assert a[0] == b[0];
      HeadNotInTail(a);
      HeadNotInTail(b);
      assert forall t :: t in a <==> t == a[0] || t in a[1..];
      assert forall t :: t in b <==> t == b[0] || t in b[1..];
      SortedIsUnique(a[1..], b[1..]);
      assert a == [a[0]] + a[1..] && b == [b[0]] + b[1..];
    }
  }

  /** Trees that stand for the same table have the same suffixes in the same order at every node. */
  lemma SameTableSameTree<T(!new)>(r: Node<T>, s: Node<T>, p: seq<Token>)
    requires r.Valid() && s.Valid() && r.Model() == s.Model() && p in r.Model()
    ensures p in r.index && p in s.index
    ensures TokensOf(r.index[p].suffixes) == TokensOf(s.index[p].suffixes)
    ensures r.index[p].variableNames == s.index[p].variableNames && r.index[p].value == s.index[p].value
  {
    assert r.Model()[p] == s.Model()[p];
    r.index[p].ListAt(r, p);
    s.index[p].ListAt(s, p);
    ListedTokens(r.Model(), r.index, r.index[p].suffixes, p);
    ListedTokens(s.Model(), s.index, s.index[p].suffixes, p);
    SortedIsUnique(TokensOf(r.index[p].suffixes), TokensOf(s.index[p].suffixes));
  }

  lemma ListedTokens<T(!new)>(m: Table<T>, index: Index<T>, list: seq<Suffix<T>>, at: seq<Token>)
    requires IsListAt(m, index, list, at)
    ensures StrictlySorted(TokensOf(list)) && forall t :: t in TokensOf(list) <==> at + [t] in m
  {
    forall t ensures t in TokensOf(list) <==> at + [t] in m {
      if t in TokensOf(list) {
        var i :| 0 <= i < |list| && list[i].token == t;
        assert list[i] in list;
      }
      if at + [t] in m {
        var i :| 0 <= i < |list| && list[i].token == t;
        assert TokensOf(list)[i] == t;
      }
    }
  }
}
