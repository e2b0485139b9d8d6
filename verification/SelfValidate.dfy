/** Schema.Validate: the check of a schema against the specification, over a graph that may be cyclic. */
module SelfValidate {
  import opened Options
  import opened Schemas

  type Graph = map<Id, Schema>

  /** SchemaStringFormats and SchemaFormatValidationDisabled. */
  datatype Formats = Formats(custom: set<string>, disabled: bool)

  datatype Defect =
    | ReadOnlyAndWriteOnly
    | UnresolvedRef(ref: string)
    | UnsupportedFormat(format: string)
    | ArrayWithoutItems
    | UnsupportedType(typ: string)

  const STRING_FORMATS: set<string> := {
    "byte", "binary", "date", "date-time", "password", "regex", "time", "email", "idn-email",
    "hostname", "idn-hostname", "ipv4", "ipv6", "uri", "uri-reference", "iri", "iri-reference", "uri-template",
    "json-pointer", "relative-json-pointer" }

  /** References that have been resolved lead to schemas of the graph. */
  ghost predicate Closed(g: Graph) {
    forall id, r | id in g && Refers(g[id], r) && r.value.Some? :: r.value.value in g
  }

  /** The defect of a schema's own type and format, if it has one. */
  function TypeDefect(f: Formats, s: Schema): Option<Defect> {
    if s.typ == "" || s.typ == "boolean" || s.typ == "object" then None
    else if s.typ == "number" then
      if s.format in {"", "float", "double"} || f.disabled then None else Some(UnsupportedFormat(s.format))
    else if s.typ == "integer" then
      if s.format in {"", "int32", "int64"} || f.disabled then None else Some(UnsupportedFormat(s.format))
    else if s.typ == "string" then
      if s.format == "" || s.format in STRING_FORMATS || s.format in f.custom || f.disabled then None
      else Some(UnsupportedFormat(s.format))
    else if s.typ == "array" then
      if s.items.None? then Some(ArrayWithoutItems) else None
    else Some(UnsupportedType(s.typ))
  }

  /** `d` is what is wrong with the schema itself. */
  ghost predicate HasDefect(f: Formats, s: Schema, d: Defect) {
    || (d.ReadOnlyAndWriteOnly? && s.readOnly && s.writeOnly)
    || TypeDefect(f, s) == Some(d)
    || exists r :: Refers(s, r) && r.value.None? && d == UnresolvedRef(r.ref)
  }

  ghost predicate WellFormed(f: Formats, s: Schema) {
    forall d :: !HasDefect(f, s, d)
  }

  ghost predicate Edge(g: Graph, a: Id, b: Id) {
    a in g && exists r :: Refers(g[a], r) && r.value == Some(b)
  }

  ghost predicate Walk(g: Graph, p: seq<Id>) {
    p != [] && p[0] in g && forall i | 0 <= i < |p| - 1 :: Edge(g, p[i], p[i + 1])
  }

  ghost predicate Reachable(g: Graph, a: Id, b: Id) {
    exists p :: Walk(g, p) && p[0] == a && p[|p| - 1] == b
  }

  /** The reference leads to one of `ok`. */
  predicate Leads(r: SchemaRef, ok: set<Id>) {
    r.value.Some? && r.value.value in ok
  }

  /** Some oneOf alternative leads to one of `ok` and those before it are resolved: the check stops there. */
  ghost predicate Found(s: Schema, ok: set<Id>) {
    exists i :: 0 <= i < |s.oneOf| && FoundAt(s, ok, i)
  }

  ghost predicate FoundAt(s: Schema, ok: set<Id>, i: nat)
    requires i < |s.oneOf|
  {
    Leads(s.oneOf[i], ok) && forall j | 0 <= j < i :: s.oneOf[j].value.Some?
  }

  /** What the check asks of everything but the alternatives. */
  ghost predicate RestOk(f: Formats, s: Schema, ok: set<Id>) {
    TypeDefect(f, s).None? && forall r | Checks(s, r) :: Leads(r, ok)
  }

  /** No alternative can be found missing, and what follows overwrites the error of the last that failed. */
  ghost predicate Exhausted(f: Formats, s: Schema, ok: set<Id>) {
    && (forall r <- s.oneOf :: r.value.Some?)
    && RestOk(f, s, ok)
    && (s.oneOf == [] || exists r :: Checks(s, r))
  }

  /** The check of one schema if `ok` are the schemas that pass when it follows a reference. */
  ghost predicate PassesGiven(f: Formats, s: Schema, ok: set<Id>) {
    && !(s.readOnly && s.writeOnly)
    && (Found(s, ok) || Exhausted(f, s, ok))
  }

  /** The verdict when the schemas of `stack` are under way already. */
  ghost predicate Accepts(g: Graph, f: Formats, id: Id, stack: set<Id>)
    requires Closed(g) && id in g
    decreases g.Keys - stack
  {
    id in stack || PassesGiven(f, g[id], set c | c in g && Accepts(g, f, c, stack + {id}))
  }

  ghost function Accepted(g: Graph, f: Formats, stack: set<Id>): set<Id>
    requires Closed(g)
  {
    set c | c in g && Accepts(g, f, c, stack)
  }

  lemma AcceptsUnfolds(g: Graph, f: Formats, id: Id, stack: set<Id>)
    requires Closed(g) && id in g
    ensures Accepts(g, f, id, stack) <==> id in stack || PassesGiven(f, g[id], Accepted(g, f, stack + {id}))
  {
    assert Accepted(g, f, stack + {id}) == set c | c in g && Accepts(g, f, c, stack + {id});
  }

  function Elements(stack: seq<Id>): set<Id> {
    set x | x in stack
  }

  /** Some schema that can be reached from `id` has the defect. */
  ghost predicate Blames(g: Graph, f: Formats, id: Id, d: Defect) {
    exists y :: y in g && Reachable(g, id, y) && HasDefect(f, g[y], d)
  }

  lemma BlamesItself(g: Graph, f: Formats, id: Id, d: Defect)
    requires id in g && HasDefect(f, g[id], d)
    ensures Blames(g, f, id, d)
  {
    assert Walk(g, [id]) && [id][0] == id;
    assert Reachable(g, id, id);
  }

  lemma BlamesBeyond(g: Graph, f: Formats, id: Id, r: SchemaRef, d: Defect)
    requires id in g && Refers(g[id], r) && r.value.Some? && Blames(g, f, r.value.value, d)
    ensures Blames(g, f, id, d)
  {
    var y :| y in g && Reachable(g, r.value.value, y) && HasDefect(f, g[y], d);
    ReachBeyond(g, id, r.value.value, y);
  }

  lemma ReachBeyond(g: Graph, a: Id, b: Id, c: Id)
    requires Edge(g, a, b) && Reachable(g, b, c)
    ensures Reachable(g, a, c)
  {
    var p :| Walk(g, p) && p[0] == b && p[|p| - 1] == c;
    var q := [a] + p;
    forall i | 0 <= i < |q| - 1
      ensures Edge(g, q[i], q[i + 1])
    {
      if i > 0 {
        assert q[i] == p[i - 1] && q[i + 1] == p[i];
      }
    }
    assert Walk(g, q) && q[0] == a && q[|q| - 1] == c;
  }

  /** validate: nil (None) or the first defect that the check comes upon. */
  method Validate(g: Graph, f: Formats, id: Id, stack: seq<Id>) returns (err: Option<Defect>)
    requires Closed(g) && id in g
    ensures err.None? <==> Accepts(g, f, id, Elements(stack))
    ensures err.Some? ==> Blames(g, f, id, err.value)
    decreases g.Keys - Elements(stack), 2, 0
  {
    hide Accepts, Accepted, Checks, Blames, Closed, TypeDefect;
    AcceptsUnfolds(g, f, id, Elements(stack));
    if id in stack {
      return None;
    }
    var s := g[id];
    var below := stack + [id];
    assert Elements(below) == Elements(stack) + {id};
    if s.readOnly && s.writeOnly {
      BlamesItself(g, f, id, ReadOnlyAndWriteOnly);
      return Some(ReadOnlyAndWriteOnly);
    }
    var stop;
    err, stop := CheckAlternatives(g, f, id, below);
    if stop {
      return;
    }
    err := CheckRest(g, f, id, below, err);
  }

  /** The check of one referred schema. */
  method CheckRef(g: Graph, f: Formats, id: Id, r: SchemaRef, below: seq<Id>) returns (err: Option<Defect>)
    requires Closed(g) && id in g && id in below && Refers(g[id], r)
    ensures err.None? <==> Leads(r, Accepted(g, f, Elements(below)))
    ensures r.value.None? ==> err == Some(UnresolvedRef(r.ref))
    ensures err.Some? ==> Blames(g, f, id, err.value)
    decreases g.Keys - Elements(below), 2, 1
  {
    hide Accepts, Checks, Blames, TypeDefect;
    if r.value.None? {
      BlamesItself(g, f, id, UnresolvedRef(r.ref));
      return Some(UnresolvedRef(r.ref));
    }
    err := Validate(g, f, r.value.value, below);
    if err.Some? {
      BlamesBeyond(g, f, id, r, err.value);
    }
  }

  /** The loop over oneOf: it stops at the first alternative that passes or is unresolved. */
  method CheckAlternatives(g: Graph, f: Formats, id: Id, below: seq<Id>) returns (err: Option<Defect>, stop: bool)
    requires Closed(g) && id in g && id in below
    ensures stop && err.None? <==> Found(g[id], Accepted(g, f, Elements(below)))
    ensures !stop ==> forall r <- g[id].oneOf :: r.value.Some?
    ensures !stop ==> (err.None? <==> g[id].oneOf == [])
    ensures stop && err.Some? ==> exists r <- g[id].oneOf :: r.value.None?
    ensures err.Some? ==> Blames(g, f, id, err.value)
    decreases g.Keys - Elements(below), 3
  {
    hide Accepts, Accepted, Checks, Blames, Closed;
    var s := g[id];
    ghost var ok := Accepted(g, f, Elements(below));
    err := None;
    for i := 0 to |s.oneOf|
      invariant forall j | 0 <= j < i :: s.oneOf[j].value.Some? && !Leads(s.oneOf[j], ok)
      invariant err.None? <==> i == 0
      invariant err.Some? ==> Blames(g, f, id, err.value)
    {
      err := CheckRef(g, f, id, s.oneOf[i], below);
      if s.oneOf[i].value.None? {
        return err, true;
      }
      if err.None? {
        assert FoundAt(s, ok, i);
        return err, true;
      }
    }
    stop := false;
  }

  /** A loop over references that must all pass; `err` keeps its value if there are none. */
  method CheckAll(g: Graph, f: Formats, id: Id, refs: seq<SchemaRef>, below: seq<Id>, before: Option<Defect>)
    returns (err: Option<Defect>, stop: bool)
    requires Closed(g) && id in g && id in below && forall r <- refs :: Refers(g[id], r)
    ensures stop <==> exists r <- refs :: !Leads(r, Accepted(g, f, Elements(below)))
    ensures stop ==> err.Some? && Blames(g, f, id, err.value)
    ensures !stop ==> err == if refs == [] then before else None
    decreases g.Keys - Elements(below), 3
  {
    hide Accepts, Accepted, Checks, Blames, Closed;
    err := before;
    for i := 0 to |refs|
      invariant forall j | 0 <= j < i :: Leads(refs[j], Accepted(g, f, Elements(below)))
      invariant err == if i == 0 then before else None
    {
      err := CheckRef(g, f, id, refs[i], below);
      if err.Some? {
        assert refs[i] in refs;
        return err, true;
      }
    }
    stop := false;
  }

  /** The loop over the properties, in whatever order the map yields them. */
  method CheckProperties(g: Graph, f: Formats, id: Id, below: seq<Id>, before: Option<Defect>)
    returns (err: Option<Defect>, stop: bool)
    requires Closed(g) && id in g && id in below
    ensures stop <==> exists r <- g[id].properties.Values :: !Leads(r, Accepted(g, f, Elements(below)))
    ensures stop ==> err.Some? && Blames(g, f, id, err.value)
    ensures !stop ==> err == if g[id].properties == map[] then before else None
    decreases g.Keys - Elements(below), 3
  {
    hide Accepts, Accepted, Blames, Closed;
    var ps := g[id].properties;
    err := before;
    var rest := ps.Keys;
    while rest != {}
      invariant rest <= ps.Keys
      invariant forall k <- ps.Keys - rest :: Leads(ps[k], Accepted(g, f, Elements(below)))
      invariant err == if rest == ps.Keys then before else None
      decreases rest
    {
      var k :| k in rest;
      assert ps[k] in ps.Values;
      err := CheckRef(g, f, id, ps[k], below);
      if err.Some? {
        return err, true;
      }
      rest := rest - {k};
    }
    stop := false;
  }

  lemma WhatIsChecked(s: Schema)
    ensures (exists r :: Checks(s, r)) <==>
              || s.anyOf != [] || s.allOf != [] || s.negated.Some? || s.items.Some?
              || s.properties != map[] || s.additionalProperties.Some?
  {
    if s.anyOf != [] { assert Checks(s, s.anyOf[0]); }
    if s.allOf != [] { assert Checks(s, s.allOf[0]); }
    if s.negated.Some? { assert Checks(s, s.negated.value); }
    if s.items.Some? { assert Checks(s, s.items.value); }
    if s.additionalProperties.Some? { assert Checks(s, s.additionalProperties.value); }
    if s.properties != map[] {
      var k :| k in s.properties;
      assert Checks(s, s.properties[k]);
    }
  }

  /** Everything after oneOf. */
  method CheckRest(g: Graph, f: Formats, id: Id, below: seq<Id>, before: Option<Defect>) returns (err: Option<Defect>)
    requires Closed(g) && id in g && id in below && (before.Some? ==> Blames(g, f, id, before.value))
    ensures err.None? <==>
            && RestOk(f, g[id], Accepted(g, f, Elements(below)))
            && (before.None? || exists r :: Checks(g[id], r))
    ensures err.Some? ==> Blames(g, f, id, err.value)
    decreases g.Keys - Elements(below), 4
  {
    hide Accepts, Accepted, Blames, Closed, TypeDefect;
    var s := g[id];
    WhatIsChecked(s);
    var stop;
    err, stop := CheckAll(g, f, id, s.anyOf, below, before);
    if stop { return; }
    err, stop := CheckAll(g, f, id, s.allOf, below, err);
    if stop { return; }
    err, stop := CheckAll(g, f, id, Listed(s.negated), below, err);
    if stop { return; }
    var defect := TypeDefect(f, s);
    if defect.Some? {
      BlamesItself(g, f, id, defect.value);
      return defect;
    }
    err, stop := CheckAll(g, f, id, Listed(s.items), below, err);
    if stop { return; }
    err, stop := CheckProperties(g, f, id, below, err);
    if stop { return; }
    err, stop := CheckAll(g, f, id, Listed(s.additionalProperties), below, err);
  }

  /** With more schemas passing, more pass. */
  lemma PassesMore(f: Formats, s: Schema, ok: set<Id>, more: set<Id>)
    requires PassesGiven(f, s, ok) && forall r | Refers(s, r) && Leads(r, ok) :: Leads(r, more)
    ensures PassesGiven(f, s, more)
  {
    if Found(s, ok) {
      var i :| 0 <= i < |s.oneOf| && FoundAt(s, ok, i);
      assert Refers(s, s.oneOf[i]);
      assert FoundAt(s, more, i);
    } else {
      forall r | Checks(s, r)
        ensures Leads(r, more)
      {
        assert Refers(s, r);
      }
    }
  }

  lemma AcceptedMore(g: Graph, f: Formats, id: Id, stack: set<Id>, more: set<Id>)
    requires Closed(g) && id in g && Accepts(g, f, id, stack) && stack <= more
    ensures Accepts(g, f, id, more)
    decreases g.Keys - stack
  {
    hide PassesGiven;
    if id !in more {
      AcceptsUnfolds(g, f, id, stack);
      AcceptsUnfolds(g, f, id, more);
      forall c | c in Accepted(g, f, stack + {id})
        ensures c in Accepted(g, f, more + {id})
      {
        AcceptedMore(g, f, c, stack + {id}, more + {id});
      }
      PassesMore(f, g[id], Accepted(g, f, stack + {id}), Accepted(g, f, more + {id}));
    }
  }

  /** What passes on the assumption that `x` does passes without it, if `x` does pass. */
  lemma Cut(g: Graph, f: Formats, id: Id, x: Id, stack: set<Id>)
    requires Closed(g) && id in g && x in g && Accepts(g, f, x, stack) && Accepts(g, f, id, stack + {x})
    ensures Accepts(g, f, id, stack)
    decreases g.Keys - stack
  {
    hide PassesGiven;
    if id !in stack && id != x {
      AcceptsUnfolds(g, f, id, stack + {x});
      AcceptsUnfolds(g, f, id, stack);
      AcceptedMore(g, f, x, stack, stack + {id});
      assert stack + {x} + {id} == stack + {id} + {x};
      forall c | c in Accepted(g, f, stack + {x} + {id})
        ensures c in Accepted(g, f, stack + {id})
      {
        Cut(g, f, c, x, stack + {id});
      }
      PassesMore(f, g[id], Accepted(g, f, stack + {x} + {id}), Accepted(g, f, stack + {id}));
    }
  }

  /** Each schema of the set passes if following references is judged by the set itself. */
  ghost predicate SupportsItself(g: Graph, f: Formats, ok: set<Id>) {
    ok <= g.Keys && forall x <- ok :: PassesGiven(f, g[x], ok)
  }

  lemma SupportedIsAccepted(g: Graph, f: Formats, ok: set<Id>, id: Id, stack: set<Id>)
    requires Closed(g) && SupportsItself(g, f, ok) && id in ok
    ensures Accepts(g, f, id, stack)
    decreases g.Keys - stack
  {
    hide PassesGiven;
    if id !in stack {
      AcceptsUnfolds(g, f, id, stack);
      forall c | c in ok
        ensures c in Accepted(g, f, stack + {id})
      {
        SupportedIsAccepted(g, f, ok, c, stack + {id});
      }
      PassesMore(f, g[id], ok, Accepted(g, f, stack + {id}));
    }
  }

  lemma AcceptedSupportsItself(g: Graph, f: Formats)
    requires Closed(g)
    ensures SupportsItself(g, f, Accepted(g, f, {}))
  {
    hide PassesGiven, Accepts;
    forall x <- Accepted(g, f, {})
      ensures PassesGiven(f, g[x], Accepted(g, f, {}))
    {
      AcceptsUnfolds(g, f, x, {});
      forall c | c in Accepted(g, f, {} + {x})
        ensures c in Accepted(g, f, {})
      {
        Cut(g, f, c, x, {});
      }
      PassesMore(f, g[x], Accepted(g, f, {} + {x}), Accepted(g, f, {}));
    }
  }

  /**
   The verdict on any graph, oneOf or not, without a stack: nil exactly if some set of schemas with the
   root in it supports itself.
   */
  lemma AcceptsIffSupported(g: Graph, f: Formats, id: Id)
    requires Closed(g) && id in g
    ensures Accepts(g, f, id, {}) <==> exists ok :: SupportsItself(g, f, ok) && id in ok
  {
    if Accepts(g, f, id, {}) {
      AcceptedSupportsItself(g, f);
      assert id in Accepted(g, f, {});
    } else if ok :| SupportsItself(g, f, ok) && id in ok {
      SupportedIsAccepted(g, f, ok, id, {});
    }
  }

  ghost predicate AllWellFormed(g: Graph, f: Formats, id: Id) {
    forall y | y in g && Reachable(g, id, y) :: WellFormed(f, g[y])
  }

  ghost predicate NoOneOf(g: Graph, id: Id) {
    forall y | y in g && Reachable(g, id, y) :: g[y].oneOf == []
  }

  lemma WellFormedPasses(f: Formats, s: Schema, ok: set<Id>)
    requires WellFormed(f, s) && forall r | Refers(s, r) && r.value.Some? :: r.value.value in ok
    ensures PassesGiven(f, s, ok)
  {
    assert !HasDefect(f, s, ReadOnlyAndWriteOnly);
    if TypeDefect(f, s).Some? {
      assert HasDefect(f, s, TypeDefect(f, s).value);
    }
    forall r | Refers(s, r)
      ensures Leads(r, ok)
    {
      if r.value.None? {
        assert HasDefect(f, s, UnresolvedRef(r.ref));
      }
    }
    if s.oneOf != [] {
      assert Refers(s, s.oneOf[0]);
      assert FoundAt(s, ok, 0);
    }
  }

  /** If nothing that can be reached has a defect the verdict is nil, whatever the graph looks like. */
  lemma WellFormedIsAccepted(g: Graph, f: Formats, id: Id)
    requires Closed(g) && id in g && AllWellFormed(g, f, id)
    ensures Accepts(g, f, id, {})
  {
    hide PassesGiven, WellFormed, Refers, Reachable;
    var ok := set y | y in g && Reachable(g, id, y);
    ReachesItself(g, id);
    forall x <- ok
      ensures PassesGiven(f, g[x], ok)
    {
      forall r | Refers(g[x], r) && r.value.Some?
        ensures r.value.value in ok
      {
        assert Edge(g, x, r.value.value);
        ReachOn(g, id, x, r.value.value);
      }
      WellFormedPasses(f, g[x], ok);
    }
    assert SupportsItself(g, f, ok);
    AcceptsIffSupported(g, f, id);
  }

  lemma ReachesItself(g: Graph, id: Id)
    requires id in g
    ensures Reachable(g, id, id)
  {
    assert Walk(g, [id]) && [id][0] == id;
  }

  lemma ReachOn(g: Graph, a: Id, b: Id, c: Id)
    requires Reachable(g, a, b) && Edge(g, b, c)
    ensures Reachable(g, a, c)
  {
    var p :| Walk(g, p) && p[0] == a && p[|p| - 1] == b;
    var q := p + [c];
    forall i | 0 <= i < |q| - 1
      ensures Edge(g, q[i], q[i + 1])
    {
      if i < |p| - 1 {
        assert q[i] == p[i] && q[i + 1] == p[i + 1];
      }
    }
    assert Walk(g, q) && q[0] == a && q[|q| - 1] == c;
  }

  /** None of the schemas on the way has a oneOf. */
  ghost predicate OneOfFree(g: Graph, p: seq<Id>) {
    forall x <- p :: x in g && g[x].oneOf == []
  }

  /** Along schemas without oneOf a set that supports itself is closed under references. */
  lemma {:induction false} SupportReaches(g: Graph, f: Formats, ok: set<Id>, p: seq<Id>)
    requires SupportsItself(g, f, ok) && Walk(g, p) && p[0] in ok && OneOfFree(g, p[..|p| - 1])
    ensures p[|p| - 1] in ok
    decreases |p|
  {
    hide SupportsItself, Edge;
    if |p| > 1 {
      var q, x := p[..|p| - 1], p[|p| - 2];
      assert Walk(g, q);
      assert forall y <- q[..|q| - 1] :: y in q;
      SupportReaches(g, f, ok, q);
      assert x in q && Edge(g, x, p[|p| - 2 + 1]);
      SupportGoesOn(g, f, ok, x, p[|p| - 1]);
    }
  }

  lemma SupportGoesOn(g: Graph, f: Formats, ok: set<Id>, x: Id, y: Id)
    requires SupportsItself(g, f, ok) && x in ok && g[x].oneOf == [] && Edge(g, x, y)
    ensures y in ok
  {
    var r :| Refers(g[x], r) && r.value == Some(y);
    assert PassesGiven(f, g[x], ok) && Checks(g[x], r);
  }

  lemma PassingIsWellFormed(f: Formats, s: Schema, ok: set<Id>)
    requires PassesGiven(f, s, ok) && s.oneOf == []
    ensures WellFormed(f, s)
  {
    forall r | Refers(s, r)
      ensures r.value.Some?
    {
      assert Leads(r, ok);
    }
  }

  /**
   Of an accepted schema, nothing that is reached without passing a oneOf has a defect: what is wrong can
   only be at a oneOf or behind one.
   */
  lemma DefectsHideBehindOneOf(g: Graph, f: Formats, id: Id, p: seq<Id>)
    requires Closed(g) && id in g && Accepts(g, f, id, {})
    requires Walk(g, p) && p[0] == id && OneOfFree(g, p)
    ensures WellFormed(f, g[p[|p| - 1]])
  {
    hide PassesGiven, WellFormed, Walk, SupportsItself, Closed, Accepts;
    assert p != [] by { WalkStarts(g, p); }
    AcceptsIffSupported(g, f, id);
    var ok :| SupportsItself(g, f, ok) && id in ok;
    assert forall x <- p[..|p| - 1] :: x in p;
    SupportReaches(g, f, ok, p);
    SupportOf(g, f, ok, p[|p| - 1]);
    PassingIsWellFormed(f, g[p[|p| - 1]], ok);
  }

  lemma WalkStarts(g: Graph, p: seq<Id>)
    requires Walk(g, p)
    ensures p != []
  {}

  /** Without oneOf the verdict is nil exactly if nothing that can be reached has a defect. */
  lemma ValidateIffWellFormed(g: Graph, f: Formats, id: Id)
    requires Closed(g) && id in g && NoOneOf(g, id)
    ensures Accepts(g, f, id, {}) <==> AllWellFormed(g, f, id)
  {
    hide PassesGiven, WellFormed, NoOneOf, SupportsItself, Closed, Accepts;
    if Accepts(g, f, id, {}) {
      forall y | y in g && Reachable(g, id, y)
        ensures WellFormed(f, g[y])
      {
        var p :| Walk(g, p) && p[0] == id && p[|p| - 1] == y;
        NoOneOfOn(g, id, p);
        DefectsHideBehindOneOf(g, f, id, p);
      }
    } else if AllWellFormed(g, f, id) {
      WellFormedIsAccepted(g, f, id);
    }
  }

  lemma SupportOf(g: Graph, f: Formats, ok: set<Id>, y: Id)
    requires SupportsItself(g, f, ok) && y in ok
    ensures y in g && PassesGiven(f, g[y], ok)
  {}

  lemma NoOneOfOn(g: Graph, id: Id, p: seq<Id>)
    requires Closed(g) && NoOneOf(g, id) && Walk(g, p) && p[0] == id
    ensures OneOfFree(g, p)
  {
    forall i | 0 <= i < |p|
      ensures p[i] in g && g[p[i]].oneOf == []
    {
      var q := p[..i + 1];
      assert Walk(g, q) && q[0] == id && q[|q| - 1] == p[i];
      if i > 0 {
        assert Edge(g, p[i - 1], p[i - 1 + 1]);
      }
    }
  }

  /** A schema whose first alternative passes is accepted, whatever else is wrong with it. */
  const HIDDEN: Graph := map[
    0 := BLANK.(oneOf := [SchemaRef("", Some(1))], typ := "no such type", allOf := [SchemaRef("#/missing", None)]),
    1 := BLANK]

  lemma OneOfHidesDefects(f: Formats)
    ensures Closed(HIDDEN) && Accepts(HIDDEN, f, 0, {}) && !AllWellFormed(HIDDEN, f, 0)
  {
    var s := HIDDEN[0];
    var ok := {0, 1};
    assert FoundAt(s, ok, 0);
    assert PassesGiven(f, BLANK, ok) by {
      assert forall r :: !Checks(BLANK, r);
    }
    assert SupportsItself(HIDDEN, f, ok);
    AcceptsIffSupported(HIDDEN, f, 0);
    ReachesItself(HIDDEN, 0);
    assert HasDefect(f, s, UnsupportedType("no such type"));
  }
}
