/**
 What a tree of suffixes stands for: a finite, prefix-closed map from token chains to the variable
 names and value stored there. Adding a template is an update of this map.
 */
module RouteTable {
  import opened Options
  import opened GoStrings
  import opened Templates
  import opened Matching

  datatype Entry<T> = Entry(names: seq<string>, value: Option<T>)

  type Table<T> = map<seq<Token>, Entry<T>>

  function EmptyTable<T>(): Table<T> {
    map[[] := Entry([], None)]
  }

  ghost predicate PrefixClosed(ps: set<seq<Token>>) {
    forall p, n | p in ps && 0 <= n <= |p| :: p[..n] in ps
  }

  ghost predicate Closed<T>(m: Table<T>) {
    [] in m && PrefixClosed(m.Keys)
  }

  /** What every reachable table keeps. */
  ghost predicate Sound<T>(m: Table<T>) {
    && Closed(m)
    && forall p | p in m :: WellFormed(p) && (m[p].value.Some? ==> |m[p].names| == CountVariables(p))
  }

  function Prefixes(ts: seq<Token>): (ps: set<seq<Token>>)
    ensures forall p :: p in ps <==> p <= ts
  {
    var ps := set i | 0 <= i <= |ts| :: ts[..i];
    assert forall p :: p in ps <==> p <= ts by {
      forall p | p <= ts ensures p in ps {
        assert p == ts[..|p|];
      }
    }
    ps
  }

  /** Creates the nodes on the way to `ts` that are missing. */
  function Touch<T>(m: Table<T>, ts: seq<Token>): (t: Table<T>)
    ensures forall p :: p in t <==> p in m || p <= ts
    ensures forall p | p in t :: t[p] == if p in m then m[p] else Entry([], None)
  {
    map p | p in m.Keys + Prefixes(ts) :: if p in m then m[p] else Entry([], None)
  }

  lemma TouchClosed<T>(m: Table<T>, ts: seq<Token>)
    requires Closed(m)
    ensures Closed(Touch(m, ts))
  {
    forall p, n | p in Touch(m, ts) && 0 <= n <= |p|
      ensures p[..n] in Touch(m, ts)
    {
      assert p <= ts ==> p[..n] == ts[..n];
    }
  }

  lemma TouchNothing<T>(m: Table<T>)
    requires [] in m
    ensures Touch(m, []) == m
  {
    assert Touch(m, []).Keys == m.Keys;
  }

  lemma TouchStep<T>(m: Table<T>, p: seq<Token>, t: Token)
    requires Closed(m)
    ensures Touch(m, p + [t]) == if p + [t] in Touch(m, p) then Touch(m, p) else Touch(m, p)[p + [t] := Entry([], None)]
  {
    forall q ensures q in Prefixes(p + [t]) <==> q in Prefixes(p) || q == p + [t] {
      if q <= p + [t] && q != p + [t] {
        assert q == (p + [t])[..|q|] == p[..|q|];
      }
    }
    if p + [t] in m {
      assert (p + [t])[..|p|] == p;
      forall q | q <= p ensures q in m {
        assert q == p[..|q|];
      }
    }
    assert Touch(m, p + [t]).Keys == Touch(m, p).Keys + {p + [t]};
  }

  /** `CreateNode` on a table: the node exists afterwards and, if the template is good, has its names. */
  function Create<T>(m: Table<T>, t: Template): (r: Table<T>)
  {
    var m' := Touch(m, t.tokens);
    if t.ok then m'[t.tokens := Entry(t.names, m'[t.tokens].value)] else m'
  }

  /** `Add` on a table. */
  function Add<T>(m: Table<T>, t: Template, value: Option<T>): (r: Table<T>)
  {
    var m' := Create(m, t);
    if t.ok then m'[t.tokens := m'[t.tokens].(value := value)] else m'
  }

  lemma NamesEveryVariable(path: string, wildcard: bool)
    requires TemplateOf(path, wildcard).ok
    ensures |TemplateOf(path, wildcard).names| == CountVariables(TemplateOf(path, wildcard).tokens)
  {
    ParseNamesEveryVariable(TrimSlashes(path), wildcard);
  }

  /** Adding a template, good or bad, with a value or none, keeps a table sound. */
  lemma AddSound<T>(m: Table<T>, path: string, value: Option<T>, wildcard: bool)
    requires Sound(m)
    ensures Sound(Add(m, TemplateOf(path, wildcard), value))
  {
    hide TemplateOf, PrefixClosed, Token.WellFormed;
    var t := TemplateOf(path, wildcard);
    var r := Add(m, t, value);
    TouchClosed(m, t.tokens);
    assert r.Keys == Touch(m, t.tokens).Keys;
    if t.ok {
      NamesEveryVariable(path, wildcard);
    }
    forall p | p in r ensures WellFormed(p) {
      if p !in m {
        assert p <= t.tokens;
      }
    }
  }

  // Matching

  /** `ts` leads from the root to a valued node and consumes the path. */
  ghost predicate Derives<T>(m: Table<T>, r: string, ts: seq<Token>) {
    ts in m && m[ts].value.Some? && Run(ts, r).Some?
  }

  /** The derivation tried before all others. */
  ghost predicate First<T>(m: Table<T>, r: string, ts: seq<Token>) {
    Derives(m, r, ts) && forall us | Derives(m, r, us) :: us == ts || PathLess(ts, us)
  }

  lemma FirstIsUnique<T>(m: Table<T>, r: string, ts: seq<Token>, us: seq<Token>)
    requires First(m, r, ts) && First(m, r, us)
    ensures ts == us
  {
    PathTrichotomy(ts, us);
  }

  /**
   The order in which suffixes are tried, in terms of the suffixes themselves. Where the first derivation parts
   from another one, it has a constant against a variable or a wildcard, a variable against a wildcard, or the
   longer one of two constants that the path goes on with; and it does not go on from where another one ends.
   */
  lemma FirstAtDifference<T>(m: Table<T>, r: string, ts: seq<Token>, us: seq<Token>, i: nat)
    requires Sound(m) && First(m, r, ts) && Derives(m, r, us)
    requires i < |ts| && i < |us| && ts[..i] == us[..i] && ts[i] != us[i]
    ensures match ts[i].kind
            case Constant =>
              us[i].kind == Variable || us[i].kind == Everything
              || (us[i].kind == Constant && |ts[i].pattern| > |us[i].pattern| && us[i].pattern <= ts[i].pattern)
            case Variable => us[i].kind == Everything
            case Everything => false
  {
    hide Run;
    assert PathLess(ts, us);
    DifferenceDecides(ts, us, i);
    assert ts[i] in ts && us[i] in us;
    if ts[i].kind == Constant && us[i].kind == Constant {
      var rest := SameStartSameRest(ts, us, r, i);
      assert ts[i..] == [ts[i]] + ts[i + 1..] && us[i..] == [us[i]] + us[i + 1..];
      LongerTextFirst(ts[i], us[i], ts[i + 1..], us[i + 1..], rest);
    }
  }

  lemma FirstIsNoExtension<T>(m: Table<T>, r: string, ts: seq<Token>, us: seq<Token>)
    requires First(m, r, ts) && Derives(m, r, us) && us <= ts
    ensures us == ts
  {
    hide Run;
    if us != ts {
      ExtensionComesLater(ts, us);
    }
  }

  /** A wildcard is never chosen where a variable leads on to a derivation. */
  lemma VariableBeforeWildcard<T>(m: Table<T>, r: string, p: seq<Token>, us: seq<Token>, ws: seq<Token>)
    requires Sound(m) && Derives(m, r, p + [Token(Variable, "")] + us)
    ensures !First(m, r, p + [Token(Everything, "")] + ws)
  {
    hide Run, PathLess;
    var ts, vs := p + [Token(Everything, "")] + ws, p + [Token(Variable, "")] + us;
    assert ts[..|p|] == vs[..|p|] && ts[|p|] == Token(Everything, "") && vs[|p|] == Token(Variable, "");
    if First(m, r, ts) {
      FirstAtDifference(m, r, ts, vs, |p|);
    }
  }

  /** Captures pair up with the node's names and rebuild the path up to closing slashes. */
  lemma CapturesFitNames<T>(m: Table<T>, r: string, ts: seq<Token>) returns (k: nat)
    requires Sound(m) && Derives(m, r, ts)
    ensures |Run(ts, r).value| == |m[ts].names|
    ensures Fits(ts, Run(ts, r).value) && Fill(ts, Run(ts, r).value) == r + Slashes(k)
  {
    k := CapturesRebuildPath(ts, r);
    FitsCounts(ts, Run(ts, r).value);
  }

  /** A request that is an instance of a stored well-shaped template has a derivation. */
  lemma InstanceDerives<T>(m: Table<T>, ts: seq<Token>, vs: seq<string>)
    requires Sound(m) && ts in m && m[ts].value.Some?
    requires Segmentwise(ts) && Fits(ts, vs)
    ensures Derives(m, TrimSlashes(Fill(ts, vs)), ts)
  {
    var s := Fill(ts, vs);
    var r := TrimSlashes(s);
    InstanceRuns(ts, vs, r, |s| - |r|);
  }

  lemma LiteralTemplate(path: string, wildcard: bool)
    requires '{' !in path
    ensures var t := TemplateOf(path, wildcard);
            Canonical(t.tokens, [], wildcard) && CountVariables(t.tokens) == 0
            && Render(t.tokens, []) == TrimSlashes(path)
  {
    var r := TrimSlashes(path);
    assert forall i | 0 <= i < |r| :: r[i] == path[i];
    ParseBraceFree(r, wildcard);
    ParseIsCanonical(r, wildcard);
  }

  lemma LiteralIsFirst<T>(m: Table<T>, ts: seq<Token>, wildcard: bool)
    requires Sound(m) && ts in m && m[ts].value.Some?
    requires Canonical(ts, [], wildcard) && CountVariables(ts) == 0
    ensures First(m, Render(ts, []), ts) && Run(ts, Render(ts, [])) == Some([])
  {
    LiteralRuns(ts);
    forall us | Derives(m, Render(ts, []), us) ensures us == ts || PathLess(ts, us) {
      LiteralComesFirst(ts, us, wildcard);
    }
  }

  /** A brace-free template with a value is the first derivation of its own path, with no captures. */
  lemma LiteralWins<T>(m: Table<T>, path: string, ts: seq<Token>, wildcard: bool)
    requires Sound(m) && '{' !in path && ts == TemplateOf(path, wildcard).tokens
    requires ts in m && m[ts].value.Some?
    ensures First(m, TrimSlashes(path), ts) && Run(ts, TrimSlashes(path)) == Some([])
  {
    LiteralTemplate(path, wildcard);
    LiteralIsFirst(m, ts, wildcard);
  }

  // The order in which templates are added

  /** A template together with its value. */
  datatype Item<T> = Item(template: Template, value: T) {
    function Stored(): Entry<T> {
      Entry(template.names, Some(value))
    }
  }

  function AddAll<T>(m: Table<T>, items: seq<Item<T>>): Table<T> {
    if items == [] then m
    else
      var last := items[|items| - 1];
      Add(AddAll(m, items[..|items| - 1]), last.template, Some(last.value))
  }

  ghost predicate WellFormedItems<T>(items: set<Item<T>>) {
    forall it <- items :: it.template.ok
  }

  /** Two templates with the same tokens agree on names and value; vacuous when tokens are distinct. */
  ghost predicate Consistent<T(!new)>(items: set<Item<T>>) {
    forall a, b | a in items && b in items && a.template.tokens == b.template.tokens ::
      a.Stored() == b.Stored()
  }

  ghost predicate OnTheWay<T>(items: set<Item<T>>, p: seq<Token>) {
    p == [] || exists it :: it in items && p <= it.template.tokens
  }

  ghost predicate IsEndOf<T>(items: set<Item<T>>, p: seq<Token>) {
    exists it :: it in items && it.template.tokens == p
  }

  /** The entry is what one of the templates that end here stores. */
  ghost predicate Stores<T>(items: set<Item<T>>, p: seq<Token>, e: Entry<T>) {
    exists it :: it in items && it.template.tokens == p && e == it.Stored()
  }

  /**
   `m` has the nodes that lead to the templates; where templates end it has what one of them stores, which need
   not be the same for all if they collide, and elsewhere nothing.
   */
  ghost predicate Routes<T>(m: Table<T>, items: set<Item<T>>) {
    && (forall p :: p in m <==> OnTheWay(items, p))
    && (forall p | p in m && IsEndOf(items, p) :: Stores(items, p, m[p]))
    && (forall p | p in m && !IsEndOf(items, p) :: m[p] == Entry([], None))
  }

  /** `m` has the nodes that lead to the templates, and the values of the templates and no others. */
  ghost predicate IsTableOf<T>(m: Table<T>, items: set<Item<T>>) {
    && (forall p :: p in m <==> OnTheWay(items, p))
    && (forall it | it in items :: m[it.template.tokens] == it.Stored())
    && (forall p | p in m && !IsEndOf(items, p) :: m[p] == Entry([], None))
  }

  lemma TableIsUnique<T>(m: Table<T>, n: Table<T>, items: set<Item<T>>)
    requires IsTableOf(m, items) && IsTableOf(n, items)
    ensures m == n
  {
    forall p ensures p in m <==> p in n {
      assert p in m <==> OnTheWay(items, p);
    }
    forall p | p in m ensures m[p] == n[p] {
      if IsEndOf(items, p) {
        var it :| it in items && it.template.tokens == p;
        assert m[p] == it.Stored();
      }
    }
  }

  lemma OnTheWayWith<T>(items: set<Item<T>>, x: Item<T>, p: seq<Token>)
    ensures OnTheWay(items + {x}, p) <==> OnTheWay(items, p) || p <= x.template.tokens
    ensures IsEndOf(items + {x}, p) <==> IsEndOf(items, p) || p == x.template.tokens
  {
    assert x in items + {x};
    if OnTheWay(items, p) && p != [] {
      var it :| it in items && p <= it.template.tokens;
      assert it in items + {x};
    }
    if IsEndOf(items, p) {
      var it :| it in items && it.template.tokens == p;
      assert it in items + {x};
    }
  }

  lemma EndIsOnTheWay<T>(items: set<Item<T>>, it: Item<T>)
    requires it in items
    ensures OnTheWay(items, it.template.tokens)
  {}

  /** A table of templates that do not disagree is a table of whatever they store. */
  lemma TableIffRoutesAndConsistent<T(!new)>(m: Table<T>, items: set<Item<T>>)
    ensures IsTableOf(m, items) <==> Routes(m, items) && Consistent(items)
  {
    hide OnTheWay;
    forall it | it in items
      ensures OnTheWay(items, it.template.tokens) && IsEndOf(items, it.template.tokens)
    {
      EndIsOnTheWay(items, it);
    }
    if IsTableOf(m, items) {
      forall p | p in m && IsEndOf(items, p)
        ensures Stores(items, p, m[p])
      {
        var it :| it in items && it.template.tokens == p;
      }
    }
    if Routes(m, items) && Consistent(items) {
      forall it | it in items
        ensures it.template.tokens in m && m[it.template.tokens] == it.Stored()
      {
        assert Stores(items, it.template.tokens, m[it.template.tokens]);
      }
    }
  }

  lemma StoresMore<T>(items: set<Item<T>>, x: Item<T>, p: seq<Token>, e: Entry<T>)
    requires Stores(items, p, e)
    ensures Stores(items + {x}, p, e)
  {
    var it :| it in items && it.template.tokens == p && e == it.Stored();
    assert it in items + {x};
  }

  lemma AddKeepsRoutes<T>(m: Table<T>, items: set<Item<T>>, x: Item<T>)
    requires Routes(m, items) && x.template.ok
    ensures Routes(Add(m, x.template, Some(x.value)), items + {x})
  {
    hide OnTheWay, IsEndOf, Stores;
    var ts := x.template.tokens;
    var r := Add(m, x.template, Some(x.value));
    assert r == Touch(m, ts)[ts := x.Stored()];
    forall p
      ensures p in r <==> OnTheWay(items + {x}, p)
      ensures p in r && IsEndOf(items + {x}, p) ==> Stores(items + {x}, p, r[p])
      ensures p in r && !IsEndOf(items + {x}, p) ==> r[p] == Entry([], None)
    {
      OnTheWayWith(items, x, p);
      assert p in m <==> OnTheWay(items, p);
      if p == ts {
        StoredAtEnd(items + {x}, x);
      } else if IsEndOf(items, p) {
        EndIsStored(m, items, p);
        StoresMore(items, x, p, m[p]);
      }
    }
  }

  lemma StoredAtEnd<T>(items: set<Item<T>>, it: Item<T>)
    requires it in items
    ensures Stores(items, it.template.tokens, it.Stored())
  {}

  lemma EndIsStored<T>(m: Table<T>, items: set<Item<T>>, p: seq<Token>)
    requires Routes(m, items) && IsEndOf(items, p)
    ensures p in m && Stores(items, p, m[p])
  {
    hide OnTheWay, Stores;
    var it :| it in items && it.template.tokens == p;
    EndIsOnTheWay(items, it);
  }

  ghost function Elements<T>(xs: seq<Item<T>>): set<Item<T>> {
    set x | x in xs
  }

  lemma AddAllGivesTable<T(!new)>(xs: seq<Item<T>>)
    requires WellFormedItems(Elements(xs)) && Consistent(Elements(xs))
    ensures IsTableOf(AddAll(EmptyTable<T>(), xs), Elements(xs))
  {
    hide Routes, IsTableOf, Consistent;
    AddAllGivesRoutes(xs);
    TableIffRoutesAndConsistent(AddAll(EmptyTable<T>(), xs), Elements(xs));
  }

  /** Good templates, colliding or not, end exactly at the nodes with values, and each value is of one of them. */
  lemma {:induction false} AddAllGivesRoutes<T>(xs: seq<Item<T>>)
    requires WellFormedItems(Elements(xs))
    ensures Routes(AddAll(EmptyTable<T>(), xs), Elements(xs))
  {
    if xs != [] {
      var init, last := xs[..|xs| - 1], xs[|xs| - 1];
      assert xs == init + [last];
      assert Elements(xs) == Elements(init) + {last};
      assert last in Elements(xs);
      AddAllGivesRoutes(init);
      AddKeepsRoutes(AddAll(EmptyTable<T>(), init), Elements(init), last);
    }
  }

  ghost predicate OrderIrrelevant<T(!new)>(xs: seq<Item<T>>) {
    forall ys | multiset(ys) == multiset(xs) ::
      AddAll(EmptyTable<T>(), ys) == AddAll(EmptyTable<T>(), xs)
  }

  lemma SameElements<T>(xs: seq<Item<T>>, ys: seq<Item<T>>)
    requires multiset(xs) == multiset(ys)
    ensures Elements(xs) == Elements(ys)
  {
    assert forall x :: x in xs <==> x in multiset(xs);
    assert forall x :: x in ys <==> x in multiset(ys);
  }

  lemma MovedToEnd<X>(xs: seq<X>, i: nat)
    requires i < |xs|
    ensures multiset(xs[..i] + xs[i + 1..] + [xs[i]]) == multiset(xs)
  {
    assert xs == xs[..i] + [xs[i]] + xs[i + 1..];
  }

  lemma AddedAtEnd<T>(init: seq<Item<T>>, x: Item<T>)
    requires x.template.ok
    ensures var m := AddAll(EmptyTable<T>(), init + [x]);
            x.template.tokens in m && m[x.template.tokens] == x.Stored()
  {
    var ys := init + [x];
    assert ys[..|ys| - 1] == init && ys[|ys| - 1] == x;
  }

  /** The order that ends in `x` stores what `x` says. */
  lemma AddedLast<T(!new)>(xs: seq<Item<T>>, x: Item<T>)
    requires OrderIrrelevant(xs) && x in xs && x.template.ok
    ensures var m := AddAll(EmptyTable<T>(), xs);
            x.template.tokens in m && m[x.template.tokens] == x.Stored()
  {
    hide AddAll;
    var i :| 0 <= i < |xs| && xs[i] == x;
    MovedToEnd(xs, i);
    AddedAtEnd(xs[..i] + xs[i + 1..], x);
  }

  /** The table is the same for every order exactly when colliding templates do not disagree. */
  lemma OrderIrrelevantIffConsistent<T(!new)>(xs: seq<Item<T>>)
    requires WellFormedItems(Elements(xs))
    ensures OrderIrrelevant(xs) <==> Consistent(Elements(xs))
  {
    if Consistent(Elements(xs)) {
      AddAllGivesTable(xs);
      forall ys | multiset(ys) == multiset(xs)
        ensures AddAll(EmptyTable<T>(), ys) == AddAll(EmptyTable<T>(), xs)
      {
        SameElements(xs, ys);
        AddAllGivesTable(ys);
        TableIsUnique(AddAll(EmptyTable<T>(), ys), AddAll(EmptyTable<T>(), xs),
                      Elements(xs));
      }
    }
    if OrderIrrelevant(xs) {
      forall a, b | a in Elements(xs) && b in Elements(xs)
                    && a.template.tokens == b.template.tokens
        ensures a.Stored() == b.Stored()
      {
        AddedLast(xs, a);
        AddedLast(xs, b);
      }
    }
  }
}
