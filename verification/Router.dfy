/** The legacy router: one tree for the whole document, filled in map order, and route look-up. */
module Router {
  import opened Options
  import opened GoStrings
  import opened GoSlices
  import opened Templates
  import opened Matching
  import opened RouteTable
  import opened PathPattern
  import ServerUrl

  /** What the router stores for an operation. */
  datatype Route = Route(path: string, verb: string)

  /** The paths of a document, each with the verbs it has operations for. */
  type Paths = map<string, set<string>>

  function TemplateFor(path: string, verb: string): Template {
    TemplateOf(verb + " " + path, true)
  }

  function ItemFor(path: string, verb: string): Item<Route> {
    Item(TemplateFor(path, verb), Route(path, verb))
  }

  ghost function VerbItems(path: string, verbs: set<string>): set<Item<Route>> {
    set v | v in verbs :: ItemFor(path, v)
  }

  ghost function ItemsAt(paths: Paths, keys: set<string>): set<Item<Route>> {
    set p, v | p in keys && p in paths && v in paths[p] :: ItemFor(p, v)
  }

  ghost function Items(paths: Paths): set<Item<Route>> {
    ItemsAt(paths, paths.Keys)
  }

  /** No two operations have templates with the same tokens. */
  ghost predicate DistinctTemplates(paths: Paths) {
    forall p, v, q, w | p in paths && v in paths[p] && q in paths && w in paths[q]
                        && TemplateFor(p, v).tokens == TemplateFor(q, w).tokens :: p == q && v == w
  }

  /** Different templates never store different entries under the same tokens exactly when none collide. */
  lemma DistinctIffConsistent(paths: Paths)
    ensures DistinctTemplates(paths) <==> Consistent(Items(paths))
  {
    if Consistent(Items(paths)) {
      forall p, v, q, w | p in paths && v in paths[p] && q in paths && w in paths[q]
                          && TemplateFor(p, v).tokens == TemplateFor(q, w).tokens
        ensures p == q && v == w
      {
        assert ItemFor(p, v) in Items(paths) && ItemFor(q, w) in Items(paths);
        assert ItemFor(p, v).Stored() == ItemFor(q, w).Stored();
      }
    }
  }

  /** `root` is the tree that results from adding good templates in this order. */
  ghost predicate BuiltFrom(root: Node<Route>, order: seq<Item<Route>>)
    reads root, root.index.Values
  {
    && root.Valid() && Sound(root.Model())
    && root.Model() == AddAll(EmptyTable<Route>(), order)
    && WellFormedItems(Elements(order))
  }

  lemma NothingBuilt(root: Node<Route>)
    requires root.Valid() && root.Model() == EmptyTable<Route>()
    ensures BuiltFrom(root, [])
  {}

  /**
   NewRouter: adds every operation, in whatever order the two map iterations yield. It fails exactly
   when some template lacks a '}'; otherwise the tree has values exactly where templates of the document end,
   each of an operation that ends there. If no templates collide it is the one table that the document
   determines, whatever the order was.
   */
  method NewRouter(paths: Paths) returns (root: Node?<Route>)
    ensures root == null <==> exists it :: it in Items(paths) && !it.template.ok
    ensures root != null ==> fresh(root) && root.Valid() && Sound(root.Model())
    ensures root != null ==> Routes(root.Model(), Items(paths))
    ensures root != null && DistinctTemplates(paths) ==> IsTableOf(root.Model(), Items(paths))
  {
    hide BuiltFrom, ItemFor, Linked, IsTableOf, ItemsAt, Routes;
    var tree := new Node<Route>();
    ghost var order: seq<Item<Route>> := [];
    NothingBuilt(tree);
    NothingAdded(paths);
    var pathsLeft := paths.Keys;
    while pathsLeft != {}
      invariant BuiltFrom(tree, order) && fresh(tree) && fresh(tree.index.Values)
      invariant pathsLeft <= paths.Keys
      invariant Elements(order) == ItemsAt(paths, paths.Keys - pathsLeft)
      decreases pathsLeft
    {
      var path :| path in pathsLeft;
      MorePaths(paths, paths.Keys - pathsLeft, path);
      var ok;
      ok, order := AddVerbs(tree, path, paths[path], order);
      if !ok {
        return null;
      }
      assert paths.Keys - (pathsLeft - {path}) == (paths.Keys - pathsLeft) + {path};
      pathsLeft := pathsLeft - {path};
    }
    assert paths.Keys - pathsLeft == paths.Keys;
    AllBuilt(tree, order, paths);
    root := tree;
  }

  lemma NothingAdded(paths: Paths)
    ensures Elements<Route>([]) == ItemsAt(paths, paths.Keys - paths.Keys)
  {}

  lemma MorePaths(paths: Paths, done: set<string>, path: string)
    requires path in paths
    ensures ItemsAt(paths, done + {path}) == ItemsAt(paths, done) + VerbItems(path, paths[path])
    ensures VerbItems(path, paths[path]) <= Items(paths)
  {}

  lemma AllBuilt(root: Node<Route>, order: seq<Item<Route>>, paths: Paths)
    requires BuiltFrom(root, order) && Elements(order) == Items(paths)
    ensures root.Valid() && Sound(root.Model()) && forall it <- Items(paths) :: it.template.ok
    ensures Routes(root.Model(), Items(paths))
    ensures DistinctTemplates(paths) ==> IsTableOf(root.Model(), Items(paths))
  {
    hide Linked, IsTableOf, ItemFor, Routes;
    AddAllGivesRoutes(order);
    DistinctIffConsistent(paths);
    TableIffRoutesAndConsistent(root.Model(), Items(paths));
  }

  /** The inner loop: the operations of one path. */
  method AddVerbs(root: Node<Route>, path: string, verbs: set<string>, ghost before: seq<Item<Route>>)
    returns (ok: bool, ghost order: seq<Item<Route>>)
    requires BuiltFrom(root, before)
    modifies root, root.index.Values
    ensures fresh(root.index.Values - old(root.index.Values))
    ensures ok ==> BuiltFrom(root, order) && Elements(order) == Elements(before) + VerbItems(path, verbs)
    ensures !ok ==> exists it :: it in VerbItems(path, verbs) && !it.template.ok
  {
    hide BuiltFrom, ItemFor, Linked;
    order := before;
    var verbsLeft := verbs;
    while verbsLeft != {}
      invariant BuiltFrom(root, order) && fresh(root.index.Values - old(root.index.Values))
      invariant verbsLeft <= verbs
      invariant Elements(order) == Elements(before) + VerbItems(path, verbs - verbsLeft)
      decreases verbsLeft
    {
      var verb :| verb in verbsLeft;
      MoreVerbs(before, order, path, verbs - verbsLeft, verb);
      ok := AddOne(root, path, verb, order);
      if !ok {
        assert ItemFor(path, verb) in VerbItems(path, verbs);
        return;
      }
      assert verbs - (verbsLeft - {verb}) == (verbs - verbsLeft) + {verb};
      order := order + [ItemFor(path, verb)];
      verbsLeft := verbsLeft - {verb};
    }
    assert verbs - verbsLeft == verbs;
    ok := true;
  }

  lemma MoreVerbs(before: seq<Item<Route>>, order: seq<Item<Route>>, path: string, done: set<string>, verb: string)
    requires Elements(order) == Elements(before) + VerbItems(path, done)
    ensures Elements(order + [ItemFor(path, verb)]) == Elements(before) + VerbItems(path, done + {verb})
  {
    hide ItemFor;
    var x := ItemFor(path, verb);
    assert Elements(order + [x]) == Elements(order) + {x};
    assert VerbItems(path, done + {verb}) == VerbItems(path, done) + {x};
  }

  method AddOne(root: Node<Route>, path: string, verb: string, ghost before: seq<Item<Route>>) returns (ok: bool)
    requires BuiltFrom(root, before)
    modifies root, root.index.Values
    ensures fresh(root.index.Values - old(root.index.Values))
    ensures ok == ItemFor(path, verb).template.ok
    ensures ok ==> BuiltFrom(root, before + [ItemFor(path, verb)])
  {
    hide Linked, Add, AddAll, TemplateOf, Sound;
    AddSound(root.Model(), verb + " " + path, Some(Route(path, verb)), true);
    AddAllSnoc(before, ItemFor(path, verb));
    ok := root.Add(verb + " " + path, Some(Route(path, verb)), true);
    assert forall x :: x in before + [ItemFor(path, verb)] ==> x in before || x == ItemFor(path, verb);
  }

  lemma AddAllSnoc<T>(xs: seq<Item<T>>, x: Item<T>)
    ensures AddAll(EmptyTable<T>(), xs + [x]) == Add(AddAll(EmptyTable<T>(), xs), x.template, Some(x.value))
  {
    var ys := xs + [x];
    assert ys[..|ys| - 1] == xs && ys[|ys| - 1] == x;
  }

  // FindRoute

  /** The name a captured value is stored under: a wildcard's '*' is dropped. */
  function ParamKey(name: string): string {
    if HasSuffix(name, "*") then name[..|name| - 1] else name
  }

  function BindAll(names: seq<string>, values: seq<string>, given: map<string, string>): map<string, string>
    requires |names| == |values|
  {
    if names == [] then given
    else
      var n := |names| - 1;
      BindAll(names[..n], values[..n], given)[ParamKey(names[n]) := values[n]]
  }

  /** The loop that fills in path parameters; indexing the names is safe because there is one for each value. */
  method BindParams(names: seq<string>, values: seq<string>, given: map<string, string>)
    returns (params: map<string, string>)
    requires |names| == |values|
    ensures params == BindAll(names, values, given)
  {
    params := given;
    for i := 0 to |values|
      invariant params == BindAll(names[..i], values[..i], given)
    {
      var key := names[i];
      if HasSuffix(key, "*") {
        key := key[..|key| - 1];
      }
      assert names[..i + 1][..i] == names[..i] && values[..i + 1][..i] == values[..i];
      params := params[key := values[i]];
    }
    assert names[..|values|] == names && values[..|values|] == values;
  }

  /** No later name is stored under the same key. */
  ghost predicate LastOf(keys: seq<string>, i: nat)
    requires i < |keys|
  {
    forall j | i < j < |keys| :: ParamKey(keys[j]) != ParamKey(keys[i])
  }

  /** Every name finds its own value, unless a later variable has the same name. */
  lemma {:induction false} BoundToOwnValue(names: seq<string>, values: seq<string>, given: map<string, string>, i: nat)
    requires |names| == |values| && i < |names| && LastOf(names, i)
    ensures var params := BindAll(names, values, given);
            ParamKey(names[i]) in params && params[ParamKey(names[i])] == values[i]
  {
    var n := |names| - 1;
    if i < n {
      assert LastOf(names[..n], i) by {
        assert forall j | i < j < n :: names[..n][j] == names[j];
      }
      BoundToOwnValue(names[..n], values[..n], given, i);
    }
  }

  /** Server parameters stay, unless a variable has the same name. */
  lemma {:induction false} OtherKeysStay(names: seq<string>, values: seq<string>, given: map<string, string>, k: string)
    requires |names| == |values| && forall i | 0 <= i < |names| :: ParamKey(names[i]) != k
    ensures var params := BindAll(names, values, given);
            (k in params <==> k in given) && (k in params ==> params[k] == given[k])
  {
    if names != [] {
      OtherKeysStay(names[..|names| - 1], values[..|names| - 1], given, k);
    }
  }

  /** A variable `{k}` and a wildcard `{k*}` name the parameter `k`. */
  predicate NamesParam(name: string, k: string) {
    name == k + "*" || (name == k && (k == "" || k[|k| - 1] != '*'))
  }

  /**
   Each parameter that is named has the value of the last variable that names it, and each other one what the
   server gave it.
   */
  ghost predicate BindsByName(names: seq<string>, values: seq<string>, given: map<string, string>,
                              params: map<string, string>)
    requires |names| == |values|
  {
    && (forall i, k | 0 <= i < |names| && NamesParam(names[i], k)
                      && (forall j | i < j < |names| :: !NamesParam(names[j], k)) ::
          k in params && params[k] == values[i])
    && (forall k | forall i | 0 <= i < |names| :: !NamesParam(names[i], k) ::
          (k in params <==> k in given) && (k in params ==> params[k] == given[k]))
  }

  lemma FinalStar(name: string)
    ensures HasSuffix(name, "*") <==> name != "" && name[|name| - 1] == '*'
  {
    if name != "" {
      assert name[|name| - 1..] == [name[|name| - 1]] && "*" == ['*'];
    }
  }

  lemma KeyIsParam(name: string, k: string)
    ensures NamesParam(name, k) <==> ParamKey(name) == k
  {
    FinalStar(name);
    assert (k + "*")[|k|] == '*' && (k + "*")[..|k|] == k;
    if HasSuffix(name, "*") {
      assert name == name[..|name| - 1] + "*";
    }
  }

  lemma BoundByName(names: seq<string>, values: seq<string>, given: map<string, string>)
    requires |names| == |values|
    ensures BindsByName(names, values, given, BindAll(names, values, given))
  {
    hide NamesParam, ParamKey, BindAll;
    forall n, k
      ensures NamesParam(n, k) <==> ParamKey(n) == k
    {
      KeyIsParam(n, k);
    }
    var params := BindAll(names, values, given);
    forall i, k | 0 <= i < |names| && NamesParam(names[i], k)
                  && forall j | i < j < |names| :: !NamesParam(names[j], k)
      ensures k in params && params[k] == values[i]
    {
      BoundToOwnValue(names, values, given, i);
    }
    forall k | forall i | 0 <= i < |names| :: !NamesParam(names[i], k)
      ensures (k in params <==> k in given) && (k in params ==> params[k] == given[k])
    {
      OtherKeysStay(names, values, given, k);
    }
  }

  /** Each name is bound to its own value, the later one if a name is listed twice, and nothing else is bound. */
  ghost predicate BindsLast(names: seq<string>, values: seq<string>, params: map<string, string>)
    requires |names| == |values|
  {
    && (forall k :: k in params <==> k in names)
    && forall i | 0 <= i < |names| && names[i] !in names[i + 1..] :: params[names[i]] == values[i]
  }

  /** Binding the captures of the matched server's URL; the second error is ignored, and cannot occur. */
  method BindServer(url: string, input: string) returns (given: Option<map<string, string>>, remaining: string)
    ensures given.Some? ==> exists values, rest | ServerUrl.Parts(url).Some? ::
              && ServerUrl.Captures(ServerUrl.Parts(url).value, input, values, rest)
              && ServerUrl.Remainder(rest, remaining)
              && |ServerUrl.HoleNames(ServerUrl.Parts(url).value)| == |values|
              && BindsLast(ServerUrl.HoleNames(ServerUrl.Parts(url).value), values, given.value)
    ensures given.None? && ServerUrl.Parts(url).Some? ==>
              forall vs, rest | ServerUrl.Captures(ServerUrl.Parts(url).value, input, vs, rest) ::
                rest != "" && rest[0] != '/'
  {
    hide ServerUrl.Captures, ServerUrl.Parts, ServerUrl.HoleNames, BindsLast;
    var paramValues, ok;
    paramValues, remaining, ok := ServerUrl.MatchRawURL(url, input);
    if !ok {
      return None, remaining;
    }
    var paramNames := ServerUrl.ParameterNames(url);
    ghost var rest :| && ServerUrl.Captures(ServerUrl.Parts(url).value, input, paramValues, rest)
                      && ServerUrl.Remainder(rest, remaining);
    ServerUrl.MatchIsInvertible(ServerUrl.Parts(url).value, input, paramValues, rest);
    var params := BindNames(paramNames.value, paramValues);
    given := Some(params);
  }

  method BindNames(names: seq<string>, values: seq<string>) returns (params: map<string, string>)
    requires |names| == |values|
    ensures BindsLast(names, values, params)
  {
    params := map[];
    for i := 0 to |values|
      invariant BindsLast(names[..i], values[..i], params)
    {
      OneMoreBound(names, values, i, params);
      params := params[names[i] := values[i]];
    }
    assert names[..|values|] == names && values[..|values|] == values;
  }

  lemma OneMoreBound(names: seq<string>, values: seq<string>, n: nat, params: map<string, string>)
    requires n < |names| == |values| && BindsLast(names[..n], values[..n], params)
    ensures BindsLast(names[..n + 1], values[..n + 1], params[names[n] := values[n]])
  {
    var more := params[names[n] := values[n]];
    assert names[..n + 1] == names[..n] + [names[n]];
    forall i | 0 <= i <= n && names[i] !in names[..n + 1][i + 1..]
      ensures more[names[i]] == values[i]
    {
      if i < n {
        assert names[..n + 1][i + 1..] == names[..n][i + 1..] + [names[n]];
        assert names[..n][i] == names[i] && values[..n][i] == values[i];
      }
    }
  }

  datatype Outcome =
    | Found(route: Option<Route>, params: map<string, string>)
    | PathNotFound
    | MethodNotAllowed
    | NilNode  // the names of a node that was not found are asked for

  /** No stored template matches. */
  ghost predicate NoRoute(m: Table<Route>, r: string) {
    forall us :: !Derives(m, r, us)
  }

  /**
   FindRoute below the matched server, whose parameters are `given`: the route of the first
   derivation, with its captures bound to its names; without a derivation, the reason why.
   */
  method FindRoute(root: Node<Route>, paths: Paths, verb: string, remainingPath: string, given: map<string, string>)
    returns (r: Outcome, ghost ts: seq<Token>)
    requires root.Valid() && Sound(root.Model())
    ensures r.Found? ==> First(root.Model(), TrimSlashes(verb + " " + remainingPath), ts)
    ensures r.Found? ==> IsBinding(root.Model(), ts, TrimSlashes(verb + " " + remainingPath), given, r)
    ensures r.Found? ==>
              BindsByName(root.Model()[ts].names, Run(ts, TrimSlashes(verb + " " + remainingPath)).value, given,
                          r.params)
    ensures r.Found? <==> !NoRoute(root.Model(), TrimSlashes(verb + " " + remainingPath))
    ensures r.PathNotFound? <==>
              NoRoute(root.Model(), TrimSlashes(verb + " " + remainingPath)) && remainingPath !in paths
    ensures r.MethodNotAllowed? <==>
              && NoRoute(root.Model(), TrimSlashes(verb + " " + remainingPath))
              && remainingPath in paths && verb !in paths[remainingPath]
    ensures r.NilNode? <==>
              && NoRoute(root.Model(), TrimSlashes(verb + " " + remainingPath))
              && remainingPath in paths && verb in paths[remainingPath]
  {
    hide Linked, Sound, Derives, First, Run, NoRoute, IsBinding, BindsByName;
    var node, paramValues := null, Nil;
    node, paramValues, ts := root.Match(verb + " " + remainingPath);
    RouteOrNone(root.Model(), TrimSlashes(verb + " " + remainingPath));
    if node == null {
      if remainingPath !in paths {
        r := PathNotFound;
      } else if verb !in paths[remainingPath] {
        r := MethodNotAllowed;
      } else {
        r := NilNode;
      }
      return;
    }
    Bindable(root.Model(), TrimSlashes(verb + " " + remainingPath), ts);
    var values := GoSlices.Read(paramValues);
    var params := BindParams(node.variableNames, values, given);
    r := Found(node.value, params);
    assert IsBinding(root.Model(), ts, TrimSlashes(verb + " " + remainingPath), given, r) by {
      Binding(root.Model(), ts, TrimSlashes(verb + " " + remainingPath), given, r);
    }
    BoundByName(root.Model()[ts].names, Run(ts, TrimSlashes(verb + " " + remainingPath)).value, given);
  }

  lemma RouteOrNone(m: Table<Route>, r: string)
    ensures NoRoute(m, r) <==> forall us :: !Derives(m, r, us)
    ensures forall us | First(m, r, us) :: !NoRoute(m, r)
  {}

  lemma Binding(m: Table<Route>, ts: seq<Token>, path: string, given: map<string, string>, r: Outcome)
    requires ts in m && Run(ts, path).Some? && |m[ts].names| == |Run(ts, path).value|
    requires r == Found(m[ts].value, BindAll(m[ts].names, Run(ts, path).value, given))
    ensures IsBinding(m, ts, path, given, r)
  {}

  /** The stored route, with the captures bound to the stored names. */
  ghost predicate IsBinding(m: Table<Route>, ts: seq<Token>, path: string, given: map<string, string>, r: Outcome)
    requires r.Found?
  {
    && ts in m && Run(ts, path).Some? && |m[ts].names| == |Run(ts, path).value|
    && r == Found(m[ts].value, BindAll(m[ts].names, Run(ts, path).value, given))
  }

  lemma Bindable(m: Table<Route>, path: string, ts: seq<Token>)
    requires Sound(m) && First(m, path, ts)
    ensures Run(ts, path).Some? && ts in m
    ensures |m[ts].names| == |Run(ts, path).value|
  {
    var _ := CapturesFitNames(m, path, ts);
  }

  // When the document's own text is asked for

  /** Template text whose variables have no '/' between their braces. */
  predicate SlashFreeBraces(s: string)
    decreases |s|
  {
    if s == "" then true
    else if s[0] != '{' then SlashFreeBraces(s[1..])
    else
      var i := IndexByte(s, '}');
      0 <= i && '/' !in s[..i] && SlashFreeBraces(s[i + 1..])
  }

  /** What stands in the place of the variables: their own text, braces included. */
  function BraceTexts(s: string, wildcard: bool): seq<string>
    decreases |s|
  {
    if s == "" then []
    else
      match NextToken(s, wildcard)
      case None => []
      case Some(x) =>
        (if x.token.kind == Constant then [] else [FrontText(s, x)]) + BraceTexts(x.rest, wildcard)
  }

  lemma {:induction false} SlashFreeTail(s: string, n: nat)
    requires SlashFreeBraces(s) && n <= |s| && '{' !in s[..n]
    ensures SlashFreeBraces(s[n..])
  {
    if n == 0 {
      assert s[0..] == s;
    } else {
      assert s[0] in s[..n] && s[1..][n - 1..] == s[n..];
      assert s[..n] == [s[0]] + s[1..][..n - 1];
      SlashFreeTail(s[1..], n - 1);
    }
  }

  /** The text of the first token. */
  function FrontText(s: string, x: Scan): string
    requires |x.rest| <= |s|
  {
    if x.token.kind == Constant then x.token.pattern else s[..|s| - |x.rest|]
  }

  lemma NextTextIsFront(s: string, wildcard: bool)
    requires s != "" && NextToken(s, wildcard).Some?
    ensures var x := NextToken(s, wildcard).value; |x.rest| < |s| && s == FrontText(s, x) + x.rest
  {
    if s[0] == '/' {
      assert s == "/" + s[1..];
    } else {
      var n := ConstantLength(s);
      assert s == s[..n] + s[n..];
      var x := NextToken(s, wildcard).value;
      assert n == 0 ==> s == s[..|s| - |x.rest|] + x.rest;
    }
  }

  lemma NextOfSlashFree(s: string, wildcard: bool)
    requires s != "" && SlashFreeBraces(s) && NextToken(s, wildcard).Some?
    ensures var x := NextToken(s, wildcard).value;
            SlashFreeBraces(x.rest) && (x.token.kind != Constant ==> '/' !in FrontText(s, x))
  {
    if s[0] != '/' {
      SlashFreeTail(s, ConstantLength(s));
      if ConstantLength(s) == 0 {
        var i := IndexByte(s, '}');
        assert s[..i + 1] == s[..i] + [s[i]];
      }
    }
  }

  /** A template is an instance of itself. */
  lemma {:induction false} TemplateFitsItself(s: string, wildcard: bool)
    requires SlashFreeBraces(s) && Parse(s, wildcard).ok
    ensures Fits(Parse(s, wildcard).tokens, BraceTexts(s, wildcard))
    ensures Fill(Parse(s, wildcard).tokens, BraceTexts(s, wildcard)) == s
    decreases |s|
  {
    hide NextToken, IndexByte, WellFormed;
    if s != "" {
      NextTextIsFront(s, wildcard);
      NextOfSlashFree(s, wildcard);
      var x := NextToken(s, wildcard).value;
      TemplateFitsItself(x.rest, wildcard);
      var ts, vs := Parse(s, wildcard).tokens, BraceTexts(s, wildcard);
      assert ts[1..] == Parse(x.rest, wildcard).tokens;
      if x.token.kind == Constant {
        assert vs == BraceTexts(x.rest, wildcard);
      } else {
        assert vs[1..] == BraceTexts(x.rest, wildcard);
      }
    }
  }

  // Which templates match anything, and which documents reach the nil node

  /** A variable is not followed by text in its own segment, and a wildcard comes last. */
  predicate Live(ts: seq<Token>) {
    ts == [] ||
    (&& Live(ts[1..])
     && match ts[0].kind
        case Constant => true
        case Variable => |ts| == 1 || ts[1].kind != Constant || ts[1].IsSlash()
        case Everything => |ts| == 1)
  }

  /** After a variable the path is at its end or at a slash, where no other text matches. */
  lemma NoTextAfterVariable(t: Token, rest: string)
    requires t.WellFormed() && (rest != "" ==> rest[0] == '/')
    ensures t.kind == Constant && !t.IsSlash() ==> !(t.pattern <= rest)
  {
    if t.kind == Constant {
      assert t.pattern[0] in t.pattern;
    }
  }

  lemma {:induction false} RunningIsLive(ts: seq<Token>, r: string)
    requires Templates.WellFormed(ts) && Run(ts, r).Some?
    ensures Live(ts)
  {
    if ts != [] {
      assert ts[0] in ts && Templates.WellFormed(ts[1..]);
      match ts[0].kind
      case Constant =>
        RunningIsLive(ts[1..], if ts[0].pattern <= r then r[|ts[0].pattern|..] else r);
      case Variable =>
        var i := SegmentEnd(r);
        RunningIsLive(ts[1..], r[i..]);
        if |ts| > 1 {
          assert ts[1] in ts && ts[1..][0] == ts[1];
          NoTextAfterVariable(ts[1], r[i..]);
        }
      case Everything =>
    }
  }

  /** The text of a chain with empty variables. */
  function ConstantText(ts: seq<Token>): string {
    if ts == [] then "" else (if ts[0].kind == Constant then ts[0].pattern else "") + ConstantText(ts[1..])
  }

  lemma {:induction false} LiveRuns(ts: seq<Token>)
    requires Live(ts)
    ensures Run(ts, ConstantText(ts)).Some?
  {
    if ts != [] {
      LiveRuns(ts[1..]);
      var r, rest := ConstantText(ts), ConstantText(ts[1..]);
      if ts[0].kind == Constant {
        assert r[|ts[0].pattern|..] == rest;
      } else if ts[0].kind == Variable {
        assert r == rest && rest[0..] == rest;
        LiveStartsSegment(ts[1..]);
        SegmentEndIs(r, 0);
      }
    }
  }

  lemma {:induction false} LiveStartsSegment(ts: seq<Token>)
    requires Live(ts) && (ts == [] || ts[0].kind != Constant || ts[0].IsSlash())
    ensures ConstantText(ts) != "" ==> ConstantText(ts)[0] == '/'
  {
    if ts != [] && ts[0].kind != Constant {
      LiveStartsSegment(ts[1..]);
    }
  }

  /** A template matches some path exactly if it is live. */
  lemma MatchesSomethingIffLive(ts: seq<Token>)
    requires Templates.WellFormed(ts)
    ensures (exists r :: Run(ts, r).Some?) <==> Live(ts)
  {
    if Live(ts) {
      LiveRuns(ts);
    }
    forall r | Run(ts, r).Some?
      ensures Live(ts)
    {
      RunningIsLive(ts, r);
    }
  }

  lemma SegmentAfter(front: string, rest: string)
    requires '/' !in front
    ensures var s := front + rest;
            SegmentEnd(s) == |front| + SegmentEnd(rest) && s[SegmentEnd(s)..] == rest[SegmentEnd(rest)..]
  {
    var s, e := front + rest, |front| + SegmentEnd(rest);
    assert s[..e] == front + rest[..SegmentEnd(rest)];
    SegmentEndIs(s, e);
  }

  /** A live template of slash-free braces matches its own text. */
  lemma {:induction false} RunsOwn(s: string, wildcard: bool)
    requires Parse(s, wildcard).ok && SlashFreeBraces(s) && Live(Parse(s, wildcard).tokens)
    ensures Run(Parse(s, wildcard).tokens, s).Some?
    decreases |s|, 0
  {
    hide NextToken, SlashFreeBraces, SegmentEnd, Templates.WellFormed;
    if s != "" {
      NextTextIsFront(s, wildcard);
      NextOfSlashFree(s, wildcard);
      var x := NextToken(s, wildcard).value;
      var ts := Parse(s, wildcard).tokens;
      assert ts[1..] == Parse(x.rest, wildcard).tokens;
      if x.token.kind == Constant {
        RunsOwn(x.rest, wildcard);
        assert s[|x.token.pattern|..] == x.rest;
      } else if x.token.kind == Variable {
        SegmentAfter(FrontText(s, x), x.rest);
        RunsRest(x.rest, wildcard);
      }
    }
  }

  /** What follows a variable matches what is left once the variable has taken the segment. */
  lemma {:induction false} RunsRest(s: string, wildcard: bool)
    requires Parse(s, wildcard).ok && SlashFreeBraces(s) && Live(Parse(s, wildcard).tokens)
    requires var ts := Parse(s, wildcard).tokens; ts == [] || ts[0].kind != Constant || ts[0].IsSlash()
    ensures Run(Parse(s, wildcard).tokens, s[SegmentEnd(s)..]).Some?
    decreases |s|, 1
  {
    hide NextToken, SlashFreeBraces, SegmentEnd, Templates.WellFormed;
    if s == "" {
    } else {
      NextTextIsFront(s, wildcard);
      NextOfSlashFree(s, wildcard);
      var x := NextToken(s, wildcard).value;
      var ts, r := Parse(s, wildcard).tokens, s[SegmentEnd(s)..];
      assert ts[1..] == Parse(x.rest, wildcard).tokens;
      if x.token.kind == Constant {
        SegmentEndIs(s, 0);
        assert r == s;
        RunsOwn(s, wildcard);
      } else if x.token.kind == Variable {
        SegmentAfter(FrontText(s, x), x.rest);
        RunsRest(x.rest, wildcard);
        SegmentEndIs(r, 0);
        assert r[0..] == r;
      }
    }
  }

  /** So, of a template with slash-free braces, exactly the live ones match their own text. */
  lemma OwnTextRunsIffLive(s: string, wildcard: bool)
    requires Parse(s, wildcard).ok && SlashFreeBraces(s)
    ensures Run(Parse(s, wildcard).tokens, s).Some? <==> Live(Parse(s, wildcard).tokens)
  {
    if Live(Parse(s, wildcard).tokens) {
      RunsOwn(s, wildcard);
    } else if Run(Parse(s, wildcard).tokens, s).Some? {
      RunningIsLive(Parse(s, wildcard).tokens, s);
    }
  }

  /** For an operation of live template text, asking for that text always finds a node. */
  lemma OwnTextDerives(m: Table<Route>, paths: Paths, path: string, verb: string)
    requires Routes(m, Items(paths)) && path in paths && verb in paths[path]
    requires TemplateFor(path, verb).ok && Live(TemplateFor(path, verb).tokens)
    requires SlashFreeBraces(TrimSlashes(verb + " " + path))
    ensures !NoRoute(m, TrimSlashes(verb + " " + path))
  {
    var s := TrimSlashes(verb + " " + path);
    RunsOwn(s, true);
    TableDerives(m, paths, s, path, verb);
  }

  lemma TableDerives(m: Table<Route>, paths: Paths, r: string, path: string, verb: string)
    requires Routes(m, Items(paths)) && path in paths && verb in paths[path]
    requires Run(TemplateFor(path, verb).tokens, r).Some?
    ensures Derives(m, r, TemplateFor(path, verb).tokens)
  {
    hide Routes, Run, TemplateFor;
    assert ItemFor(path, verb) in Items(paths);
    assert IsEndOf(Items(paths), TemplateFor(path, verb).tokens);
    EndIsStored(m, Items(paths), TemplateFor(path, verb).tokens);
  }

  /**
   What is found is an operation of the document whose template matches the request, with its own names, also
   where templates collide.
   */
  lemma FoundIsOperation(m: Table<Route>, paths: Paths, r: string, ts: seq<Token>) returns (path: string, verb: string)
    requires Routes(m, Items(paths)) && Derives(m, r, ts)
    ensures path in paths && verb in paths[path] && TemplateFor(path, verb).tokens == ts
    ensures Run(TemplateFor(path, verb).tokens, r).Some?
    ensures m[ts] == Entry(TemplateFor(path, verb).names, Some(Route(path, verb)))
  {
    hide Run, TemplateFor, OnTheWay;
    assert IsEndOf(Items(paths), ts);
    var it :| it in Items(paths) && it.template.tokens == ts && m[ts] == it.Stored();
    path, verb :| path in paths && verb in paths[path] && it == ItemFor(path, verb);
  }

  /** A method name: no space, slash or brace in it. */
  predicate IsVerb(v: string) {
    v != "" && ' ' !in v && '/' !in v && '{' !in v
  }

  /** The verb is a token of its own in front of a path that starts with a slash. */
  lemma VerbComesFirst(path: string, verb: string)
    requires IsVerb(verb) && path != "" && path[0] == '/'
    ensures TemplateFor(path, verb).tokens != [] && TemplateFor(path, verb).tokens[0] == Token(Constant, verb + " ")
  {
    hide TrimSlashes, ConstantLength, IndexByte, TrimSpace;
    var s, n := verb + " " + path, |verb| + 1;
    var r := TrimSlashes(s);
    assert s == r + Slashes(|s| - |r|) && s[n - 1] == ' ';
    assert |r| >= n;
    assert r[..n] == verb + " " && (n < |r| ==> r[n] == s[n]);
    ConstantLengthIs(r, n);
    assert r[0] == verb[0] && verb[0] in verb;
  }

  lemma VerbIsPrefix(v: string, verb: string, rest: string)
    requires IsVerb(v) && IsVerb(verb) && v + " " <= verb + " " + rest
    ensures v == verb
  {
    var s := verb + " " + rest;
    assert s[..|v|] == v && s[..|verb|] == verb && s[|v|] == (v + " ")[|v|];
    IndexByteIs(s, ' ', |v|);
    IndexByteIs(s, ' ', |verb|);
  }

  /** In a document whose paths start with slashes, the operation that is found has the method that was asked for. */
  lemma FoundHasTheVerb(m: Table<Route>, paths: Paths, verb: string, remainingPath: string, ts: seq<Token>)
    requires Routes(m, Items(paths)) && Derives(m, TrimSlashes(verb + " " + remainingPath), ts) && IsVerb(verb)
    requires forall p, v | p in paths && v in paths[p] :: p != "" && p[0] == '/' && IsVerb(v)
    ensures m[ts].value.Some? && m[ts].value.value.verb == verb
  {
    hide TemplateFor, TrimSlashes, Routes, IsVerb;
    var p, v := FoundIsOperation(m, paths, TrimSlashes(verb + " " + remainingPath), ts);
    VerbComesFirst(p, v);
    VerbIsPrefix(v, verb, remainingPath);
  }

  /** A path has no route exactly if no template of the document matches it. */
  lemma NoRouteIff(m: Table<Route>, paths: Paths, r: string)
    requires Routes(m, Items(paths))
    ensures NoRoute(m, r) <==> forall p, v | p in paths && v in paths[p] :: Run(TemplateFor(p, v).tokens, r).None?
  {
    hide Run, TemplateFor, Routes;
    if NoRoute(m, r) {
      forall p, v | p in paths && v in paths[p]
        ensures Run(TemplateFor(p, v).tokens, r).None?
      {
        if Run(TemplateFor(p, v).tokens, r).Some? {
          TableDerives(m, paths, r, p, v);
        }
      }
    } else {
      var us :| Derives(m, r, us);
      var p, v := FoundIsOperation(m, paths, r, us);
    }
  }

  /** The path of the smallest document whose own text has no route. */
  const DEAD_PATH := "/a{x}b"

  const DEAD_TOKENS := [Token(Constant, "GET "), Token(Constant, "/"), Token(Constant, "a"), Token(Variable, ""),
                        Token(Constant, "b")]

  /**
   An input that reaches the nil node: the document's one path, asked for with its own text. The variable
   takes the rest of the segment, so that nothing is left for the text after it.
   */
  lemma DeadPathHasNoRoute(m: Table<Route>, paths: Paths)
    requires paths == map[DEAD_PATH := {"GET"}] && Routes(m, Items(paths))
    ensures NoRoute(m, TrimSlashes("GET" + " " + DEAD_PATH)) && TemplateFor(DEAD_PATH, "GET").ok
  {
    hide TemplateFor, Run, NoRoute, Routes, Items, TrimSlashes;
    DeadPathTokens();
    var s := TrimSlashes("GET" + " " + DEAD_PATH);
    assert Run(DEAD_TOKENS, s).None? by { DeadTokensMatchNothing(s); }
    NoRouteIff(m, paths, s);
  }

  lemma DeadPathTokens()
    ensures TemplateFor(DEAD_PATH, "GET") == Template(DEAD_TOKENS, ["x"], true)
  {
    hide Parse, NextToken, VariableKind, TrimSpace, TrimSlashes, Token.WellFormed;
    DeadPathParts();
    DeadPathIsTrimmed();
    ParseConstant(Token(Constant, "b"), "", true);
    ParseVariable("x", "b", true);
    ParseConstant(Token(Constant, "a"), "{x}b", true);
    ParseConstant(Token(Constant, "/"), "a{x}b", true);
    ParseConstant(Token(Constant, "GET "), "/a{x}b", true);
  }

  lemma DeadPathParts()
    ensures forall t <- DEAD_TOKENS :: t.WellFormed()
    ensures Parse("", true) == Template([], [], true)
    ensures TrimSpace("x") == "x" && VariableKind("x", true) == Variable
    ensures "b" == "b" + "" && "{x}b" == "{" + "x" + "}" + "b" && "a{x}b" == "a" + "{x}b" && "/a{x}b" == "/" + "a{x}b"
  {
    hide Less, TrimSlashes, ConstantLength, Slashes;
  }

  lemma DeadPathIsTrimmed()
    ensures TrimSlashes("GET" + " " + DEAD_PATH) == "GET /a{x}b" == "GET " + "/a{x}b"
  {
    hide Less, Slashes, Parse, NextToken;
    var s := "GET /a{x}b";
    assert "GET" + " " + DEAD_PATH == s;
    assert s[|s| - 1..] == "b";
    assert "/"[0] != "b"[0];
  }

  lemma DeadTokensMatchNothing(r: string)
    ensures Run(DEAD_TOKENS, r).None?
  {
    var ts := DEAD_TOKENS;
    assert ts[3..][0] == ts[3] && ts[3..][1] == ts[4];
    assert ts[2..][1..] == ts[3..] && ts[1..][1..] == ts[2..];
    assert !Live(ts[3..]);
    assert !Live(ts[2..]);
    assert !Live(ts[1..]);
    assert !Live(ts);
    if Run(ts, r).Some? {
      RunningIsLive(ts, r);
    }
  }
}
