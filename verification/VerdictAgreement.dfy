/** When two contexts give the same verdict, and what follows for the short cut that IsEmpty allows. */
module VerdictAgreement {
  import opened Options
  import opened Schemas
  import opened SchemaVerdict
  import opened SchemaEmpty

  /** Two contexts, with the ranks that show their visits end, and which schemas stand for which. */
  datatype Pairing = Pairing(c: Context, r1: Rank, d: Context, r2: Rank, rel: set<(Id, Id)>)

  /** A schema without its references. */
  function Bare(s: Schema): Schema {
    s.(oneOf := [], anyOf := [], allOf := [], negated := None, items := None, properties := map[],
       additionalProperties := None)
  }

  ghost predicate SameRef(p: Pairing, r: SchemaRef, q: SchemaRef) {
    r.ref == q.ref && Resolved(p.c.g, r) && Resolved(p.d.g, q) && (Target(p.c.g, r), Target(p.d.g, q)) in p.rel
  }

  ghost predicate SameRefs(p: Pairing, rs: seq<SchemaRef>, qs: seq<SchemaRef>) {
    |rs| == |qs| && forall i | 0 <= i < |rs| :: SameRef(p, rs[i], qs[i])
  }

  /** The schemas differ at most in what they refer to, and refer to schemas that stand for each other. */
  ghost predicate SameSchema(p: Pairing, s: Schema, t: Schema) {
    && Bare(s) == Bare(t)
    && SameRefs(p, s.oneOf, t.oneOf) && SameRefs(p, s.anyOf, t.anyOf) && SameRefs(p, s.allOf, t.allOf)
    && SameRefs(p, Listed(s.negated), Listed(t.negated)) && SameRefs(p, Listed(s.items), Listed(t.items))
    && SameRefs(p, Listed(s.additionalProperties), Listed(t.additionalProperties))
    && s.properties.Keys == t.properties.Keys
    && forall k <- s.properties :: SameRef(p, s.properties[k], t.properties[k])
  }

  ghost predicate Linked(p: Pairing) {
    && WellFounded(p.c.g, p.r1) && WellFounded(p.d.g, p.r2)
    && p.c.env == p.d.env && p.c.asreq == p.d.asreq && p.c.asrep == p.d.asrep
    && forall x <- p.rel :: x.0 in p.c.g && x.1 in p.d.g && SameSchema(p, p.c.g[x.0], p.d.g[x.1])
  }

  /** Either both take the short cut for the same schemas, or one never takes it and the other harmlessly. */
  ghost predicate Skips(p: Pairing, v: Json) {
    || (forall x <- p.rel :: x.0 in p.c.empty <==> x.1 in p.d.empty)
    || (&& p.d == WithoutShortcut(p.c) && (forall x <- p.rel :: x.0 == x.1)
        && Region(p.c, p.r2, Left(p.rel)) && NullFree(v))
  }

  ghost function Left(rel: set<(Id, Id)>): set<Id> {
    set x | x in rel :: x.0
  }

  ghost predicate Agreeing(p: Pairing, a: Id, b: Id, v: Json) {
    Linked(p) && (a, b) in p.rel && Skips(p, v)
  }

  lemma LinkedAt(p: Pairing, a: Id, b: Id)
    requires Linked(p) && (a, b) in p.rel
    ensures WellFounded(p.c.g, p.r1) && WellFounded(p.d.g, p.r2)
    ensures a in p.c.g && b in p.d.g && SameSchema(p, p.c.g[a], p.d.g[b])
    ensures p.c.env == p.d.env && p.c.asreq == p.d.asreq && p.c.asrep == p.d.asrep
  {
    hide SameSchema, WellFounded;
    assert ((a, b)).0 == a;
  }

  lemma SkipsAt(p: Pairing, a: Id, b: Id, v: Json)
    requires Linked(p) && (a, b) in p.rel && Skips(p, v)
    ensures (a in p.c.empty <==> b in p.d.empty)
            || (&& a == b && a in Left(p.rel) && p.d == WithoutShortcut(p.c)
                && Region(p.c, p.r2, Left(p.rel)) && NullFree(v))
  {
    hide Region, NullFree, SameSchema, WellFounded;
    assert ((a, b)).0 == a && ((a, b)).1 == b;
  }

  /** Schemas that stand for each other give the same verdict on every value. */
  lemma {:induction false} VerdictsAgree(p: Pairing, a: Id, b: Id, v: Json)
    requires Agreeing(p, a, b, v)
    ensures WellFounded(p.c.g, p.r1) && WellFounded(p.d.g, p.r2) && a in p.c.g && b in p.d.g
    ensures Valid(p.c, p.r1, a, v) <==> Valid(p.d, p.r2, b, v)
    decreases v, p.r1[a], 4
  {
    hide SetOperationsOk, ShapeOk, WellFounded, Region, Linked, Skips;
    LinkedAt(p, a, b);
    SkipsAt(p, a, b, v);
    if !v.Null? {
      if a in p.c.empty && b !in p.d.empty {
        EmptyAccepts(p.c, p.r2, Left(p.rel), a, v);
      } else if a !in p.c.empty {
        SetOperationsAgree(p, a, b, v);
        ShapesAgree(p, a, b, v);
      }
    }
  }

  lemma {:induction false} PartsAgree(p: Pairing, a: Id, b: Id, r: SchemaRef, q: SchemaRef, v: Json)
    requires Agreeing(p, a, b, v) && SameRef(p, r, q)
    requires a in p.c.g && b in p.d.g && Combines(p.c.g[a], r) && Combines(p.d.g[b], q)
    ensures WellFounded(p.c.g, p.r1) && WellFounded(p.d.g, p.r2)
    ensures PartValid(p.c, p.r1, a, r, v) <==> PartValid(p.d, p.r2, b, q, v)
    decreases v, p.r1[a], 0
  {
    hide Valid, SameSchema, Skips, Combines;
    VerdictsAgree(p, Target(p.c.g, r), Target(p.d.g, q), v);
  }

  lemma {:induction false} CountsAgree(p: Pairing, a: Id, b: Id, v: Json, n: nat)
    requires Agreeing(p, a, b, v) && a in p.c.g && b in p.d.g
    requires n <= |p.c.g[a].oneOf| && |p.c.g[a].oneOf| == |p.d.g[b].oneOf|
    ensures WellFounded(p.c.g, p.r1) && WellFounded(p.d.g, p.r2)
    ensures ChosenAmong(p.c, p.r1, a, v, n) == ChosenAmong(p.d, p.r2, b, v, n)
    decreases v, p.r1[a], 1, n
  {
    hide PartValid, WellFounded, Linked, Skips, Discriminates;
    LinkedAt(p, a, b);
    if n > 0 {
      CountsAgree(p, a, b, v, n - 1);
      var r, q := p.c.g[a].oneOf[n - 1], p.d.g[b].oneOf[n - 1];
      PartsAgree(p, a, b, r, q, v);
      OneMoreChosen(p.c, p.r1, a, v, n - 1);
      OneMoreChosen(p.d, p.r2, b, v, n - 1);
      SameDiscriminator(p.c.g[a], p.d.g[b], r, q, v);
    }
  }

  lemma SameDiscriminator(s: Schema, t: Schema, r: SchemaRef, q: SchemaRef, v: Json)
    requires Bare(s) == Bare(t) && r.ref == q.ref
    ensures Discriminates(s, r, v) <==> Discriminates(t, q, v)
  {
    assert Bare(s).discriminator == Bare(t).discriminator;
  }

  lemma {:induction false} NotAndOneOfAgree(p: Pairing, a: Id, b: Id, v: Json)
    requires Agreeing(p, a, b, v) && a in p.c.g && b in p.d.g
    ensures WellFounded(p.c.g, p.r1) && WellFounded(p.d.g, p.r2)
    ensures NotOk(p.c, p.r1, a, v) <==> NotOk(p.d, p.r2, b, v)
    ensures OneOfOk(p.c, p.r1, a, v) <==> OneOfOk(p.d, p.r2, b, v)
    decreases v, p.r1[a], 2
  {
    hide PartValid, ChosenAmong, WellFounded, Linked, Skips;
    LinkedAt(p, a, b);
    var s, t := p.c.g[a], p.d.g[b];
    assert |Listed(s.negated)| == |Listed(t.negated)|;
    if s.negated.Some? {
      assert SameRef(p, Listed(s.negated)[0], Listed(t.negated)[0]);
      PartsAgree(p, a, b, s.negated.value, t.negated.value, v);
    }
    CountsAgree(p, a, b, v, |s.oneOf|);
  }

  lemma {:induction false} AnyOfAndAllOfAgree(p: Pairing, a: Id, b: Id, v: Json)
    requires Agreeing(p, a, b, v) && a in p.c.g && b in p.d.g
    ensures WellFounded(p.c.g, p.r1) && WellFounded(p.d.g, p.r2)
    ensures AnyOfOk(p.c, p.r1, a, v) <==> AnyOfOk(p.d, p.r2, b, v)
    ensures AllOfOk(p.c, p.r1, a, v) <==> AllOfOk(p.d, p.r2, b, v)
    decreases v, p.r1[a], 2
  {
    hide PartValid, WellFounded, Linked, Skips;
    LinkedAt(p, a, b);
    var s, t := p.c.g[a], p.d.g[b];
    forall i | 0 <= i < |s.anyOf|
      ensures PartValid(p.c, p.r1, a, s.anyOf[i], v) <==> PartValid(p.d, p.r2, b, t.anyOf[i], v)
    {
      PartsAgree(p, a, b, s.anyOf[i], t.anyOf[i], v);
    }
    forall i | 0 <= i < |s.allOf|
      ensures PartValid(p.c, p.r1, a, s.allOf[i], v) <==> PartValid(p.d, p.r2, b, t.allOf[i], v)
    {
      PartsAgree(p, a, b, s.allOf[i], t.allOf[i], v);
    }
  }

  lemma {:induction false} SetOperationsAgree(p: Pairing, a: Id, b: Id, v: Json)
    requires Agreeing(p, a, b, v) && a in p.c.g && b in p.d.g
    ensures WellFounded(p.c.g, p.r1) && WellFounded(p.d.g, p.r2)
    ensures SetOperationsOk(p.c, p.r1, a, v) <==> SetOperationsOk(p.d, p.r2, b, v)
    decreases v, p.r1[a], 3
  {
    hide NotOk, OneOfOk, AnyOfOk, AllOfOk, WellFounded, Linked, Skips;
    LinkedAt(p, a, b);
    assert Bare(p.c.g[a]).enum == Bare(p.d.g[b]).enum;
    NotAndOneOfAgree(p, a, b, v);
    AnyOfAndAllOfAgree(p, a, b, v);
  }

  lemma SkipsInside(p: Pairing, v: Json, u: Json)
    requires Skips(p, v)
    requires (v.Arr? && u in v.items) || (v.Obj? && exists k :: k in v.fields && v.fields[k] == u)
    ensures Skips(p, u)
  {
    hide Region;
  }

  lemma {:induction false} ItemsAgree(p: Pairing, a: Id, b: Id, v: Json)
    requires Agreeing(p, a, b, v) && a in p.c.g && b in p.d.g && v.Arr?
    requires p.c.g[a].items.Some? && p.d.g[b].items.Some? && SameRef(p, p.c.g[a].items.value, p.d.g[b].items.value)
    ensures WellFounded(p.c.g, p.r1) && WellFounded(p.d.g, p.r2)
    ensures forall i | 0 <= i < |v.items| ::
              Valid(p.c, p.r1, Target(p.c.g, p.c.g[a].items.value), v.items[i])
              <==> Valid(p.d, p.r2, Target(p.d.g, p.d.g[b].items.value), v.items[i])
    decreases v, p.r1[a], 1
  {
    hide Valid, WellFounded, SameSchema, Skips;
    LinkedAt(p, a, b);
    forall i | 0 <= i < |v.items|
      ensures Valid(p.c, p.r1, Target(p.c.g, p.c.g[a].items.value), v.items[i])
         <==> Valid(p.d, p.r2, Target(p.d.g, p.d.g[b].items.value), v.items[i])
    {
      SkipsInside(p, v, v.items[i]);
      VerdictsAgree(p, Target(p.c.g, p.c.g[a].items.value), Target(p.d.g, p.d.g[b].items.value), v.items[i]);
    }
  }

  lemma {:induction false} FieldAgrees(p: Pairing, a: Id, b: Id, v: Json, k: string)
    requires Agreeing(p, a, b, v) && a in p.c.g && b in p.d.g && v.Obj? && k in v.fields
    ensures WellFounded(p.c.g, p.r1) && WellFounded(p.d.g, p.r2)
    ensures FieldOk(p.c, p.r1, a, k, v.fields[k]) <==> FieldOk(p.d, p.r2, b, k, v.fields[k])
    decreases v, p.r1[a], 1
  {
    hide Valid, WellFounded, Linked, Skips;
    LinkedAt(p, a, b);
    var s, t := p.c.g[a], p.d.g[b];
    SkipsInside(p, v, v.fields[k]);
    assert Bare(s).additionalPropertiesAllowed == Bare(t).additionalPropertiesAllowed;
    assert |Listed(s.additionalProperties)| == |Listed(t.additionalProperties)|;
    if k in s.properties {
      VerdictsAgree(p, Target(p.c.g, s.properties[k]), Target(p.d.g, t.properties[k]), v.fields[k]);
    } else if s.additionalProperties.Some? {
      assert SameRef(p, Listed(s.additionalProperties)[0], Listed(t.additionalProperties)[0]);
      VerdictsAgree(p, Target(p.c.g, s.additionalProperties.value), Target(p.d.g, t.additionalProperties.value),
                    v.fields[k]);
    }
  }

  lemma ExcusesAgree(p: Pairing, a: Id, b: Id, k: string)
    requires Linked(p) && (a, b) in p.rel
    ensures a in p.c.g && b in p.d.g
    ensures k in p.c.g[a].properties ==> Resolved(p.c.g, p.c.g[a].properties[k])
    ensures k in p.d.g[b].properties ==> Resolved(p.d.g, p.d.g[b].properties[k])
    ensures Excused(p.c, p.c.g[a], k) <==> Excused(p.d, p.d.g[b], k)
  {
    hide WellFounded, Linked;
    LinkedAt(p, a, b);
    var s, t := p.c.g[a], p.d.g[b];
    if k in s.properties {
      assert SameRef(p, s.properties[k], t.properties[k]);
      var x, y := Target(p.c.g, s.properties[k]), Target(p.d.g, t.properties[k]);
      LinkedAt(p, x, y);
      assert Bare(p.c.g[x]).readOnly == Bare(p.d.g[y]).readOnly && Bare(p.c.g[x]).writeOnly == Bare(p.d.g[y]).writeOnly;
    }
  }

  lemma {:induction false} ShapesAgree(p: Pairing, a: Id, b: Id, v: Json)
    requires Agreeing(p, a, b, v) && a in p.c.g && b in p.d.g && !v.Null?
    ensures WellFounded(p.c.g, p.r1) && WellFounded(p.d.g, p.r2)
    ensures ShapeOk(p.c, p.r1, a, v) <==> ShapeOk(p.d, p.r2, b, v)
    decreases v, p.r1[a], 2
  {
    hide Valid, FieldOk, WellFounded, Linked, Skips, Excused, ShapeOk;
    LinkedAt(p, a, b);
    var s, t := p.c.g[a], p.d.g[b];
    assert |Listed(s.items)| == |Listed(t.items)|;
    if v.Arr? {
      if s.items.Some? {
        assert SameRef(p, Listed(s.items)[0], Listed(t.items)[0]);
        ItemsAgree(p, a, b, v);
      }
      SameArrayShape(p, a, b, v);
    } else if v.Obj? {
      forall k | k in v.fields
        ensures FieldOk(p.c, p.r1, a, k, v.fields[k]) <==> FieldOk(p.d, p.r2, b, k, v.fields[k])
      {
        FieldAgrees(p, a, b, v, k);
      }
      forall k: string
        ensures k in s.properties ==> Resolved(p.c.g, s.properties[k])
        ensures k in t.properties ==> Resolved(p.d.g, t.properties[k])
        ensures Excused(p.c, s, k) <==> Excused(p.d, t, k)
      {
        ExcusesAgree(p, a, b, k);
      }
      SameObjectShape(p, a, b, v);
    } else {
      SameScalarShape(p, a, b, v);
    }
  }

  lemma SameNumber(s: Schema, t: Schema, n: real)
    requires Bare(s) == Bare(t) && Sane(s) && Sane(t)
    ensures NumberOk(s, n) <==> NumberOk(t, n)
  {
    hide IsInt;
    var x, y := Bare(s), Bare(t);
    assert x.typ == y.typ && x.min == y.min && x.max == y.max && x.multipleOf == y.multipleOf;
    assert x.exclusiveMin == y.exclusiveMin && x.exclusiveMax == y.exclusiveMax;
  }

  lemma SameString(env: Env, s: Schema, t: Schema, v: string)
    requires Bare(s) == Bare(t)
    ensures StringOk(env, s, v) <==> StringOk(env, t, v)
  {
    var x, y := Bare(s), Bare(t);
    assert x.typ == y.typ && x.minLength == y.minLength && x.maxLength == y.maxLength;
    assert x.pattern == y.pattern && x.format == y.format;
  }

  lemma SameScalarShape(p: Pairing, a: Id, b: Id, v: Json)
    requires WellFounded(p.c.g, p.r1) && WellFounded(p.d.g, p.r2) && a in p.c.g && b in p.d.g
    requires Bare(p.c.g[a]) == Bare(p.d.g[b]) && p.c.env == p.d.env && !v.Null? && !v.Arr? && !v.Obj?
    ensures ShapeOk(p.c, p.r1, a, v) <==> ShapeOk(p.d, p.r2, b, v)
  {
    hide NumberOk, StringOk, RefsResolved;
    assert Bare(p.c.g[a]).typ == Bare(p.d.g[b]).typ;
    match v
    case Num(n) => SameNumber(p.c.g[a], p.d.g[b], n);
    case Str(str) => SameString(p.c.env, p.c.g[a], p.d.g[b], str);
    case Bool(_) =>
  }

  lemma SameArrayShape(p: Pairing, a: Id, b: Id, v: Json)
    requires WellFounded(p.c.g, p.r1) && WellFounded(p.d.g, p.r2) && a in p.c.g && b in p.d.g
    requires Bare(p.c.g[a]) == Bare(p.d.g[b]) && p.c.env == p.d.env && v.Arr?
    requires p.c.g[a].items.Some? <==> p.d.g[b].items.Some?
    requires p.c.g[a].items.Some? ==>
               && Resolved(p.c.g, p.c.g[a].items.value) && Resolved(p.d.g, p.d.g[b].items.value)
               && forall i | 0 <= i < |v.items| ::
                    Valid(p.c, p.r1, Target(p.c.g, p.c.g[a].items.value), v.items[i])
                    <==> Valid(p.d, p.r2, Target(p.d.g, p.d.g[b].items.value), v.items[i])
    ensures ShapeOk(p.c, p.r1, a, v) <==> ShapeOk(p.d, p.r2, b, v)
  {
    hide Valid, WellFounded;
    var x, y := Bare(p.c.g[a]), Bare(p.d.g[b]);
    assert x.typ == y.typ && x.minItems == y.minItems && x.maxItems == y.maxItems && x.uniqueItems == y.uniqueItems;
  }

  lemma SameObjectShape(p: Pairing, a: Id, b: Id, v: Json)
    requires WellFounded(p.c.g, p.r1) && WellFounded(p.d.g, p.r2) && a in p.c.g && b in p.d.g
    requires Bare(p.c.g[a]) == Bare(p.d.g[b]) && v.Obj?
    requires forall k | k in v.fields ::
               FieldOk(p.c, p.r1, a, k, v.fields[k]) <==> FieldOk(p.d, p.r2, b, k, v.fields[k])
    requires forall k: string ::
               && (k in p.c.g[a].properties ==> Resolved(p.c.g, p.c.g[a].properties[k]))
               && (k in p.d.g[b].properties ==> Resolved(p.d.g, p.d.g[b].properties[k]))
               && (Excused(p.c, p.c.g[a], k) <==> Excused(p.d, p.d.g[b], k))
    ensures ShapeOk(p.c, p.r1, a, v) <==> ShapeOk(p.d, p.r2, b, v)
  {
    hide FieldOk, WellFounded, Excused;
    var x, y := Bare(p.c.g[a]), Bare(p.d.g[b]);
    assert x.typ == y.typ && x.minProps == y.minProps && x.maxProps == y.maxProps && x.required == y.required;
  }

  // What follows

  function Identity(within: set<Id>): (rel: set<(Id, Id)>)
    ensures forall x :: x in rel <==> x.0 == x.1 && x.0 in within
  {
    set id | id in within :: (id, id)
  }

  lemma IdentityLinks(p: Pairing, within: set<Id>)
    requires WellFounded(p.c.g, p.r1) && WellFounded(p.d.g, p.r2) && Closed(p.c.g, within)
    requires p.d == p.c.(empty := p.d.empty) && p.rel == Identity(within)
    ensures Linked(p) && Left(p.rel) == within
  {
    hide WellFounded, Refers, Identity;
    forall id | id in within
      ensures id in p.c.g && SameSchema(p, p.c.g[id], p.c.g[id])
    {
      SameAsItself(p, within, id);
    }
    forall id | id in within
      ensures id in Left(p.rel)
    {
      assert (id, id) in p.rel && ((id, id)).0 == id;
    }
  }

  lemma SameAsItself(p: Pairing, within: set<Id>, id: Id)
    requires WellFounded(p.c.g, p.r1) && Closed(p.c.g, within) && id in within
    requires p.d.g == p.c.g && p.rel == Identity(within)
    ensures id in p.c.g && SameSchema(p, p.c.g[id], p.c.g[id])
  {
    hide Refers, Bare;
    var s := p.c.g[id];
    forall r | Refers(s, r)
      ensures SameRef(p, r, r)
    {
      ReferredIsResolved(p.c.g, p.r1, id, r);
      assert (r.value.value, r.value.value) in Identity(within);
    }
    SameIfRefsAre(p, s);
  }

  lemma ReferredIsResolved(g: map<Id, Schema>, rank: Rank, id: Id, r: SchemaRef)
    requires WellFounded(g, rank) && id in g && Refers(g[id], r)
    ensures Resolved(g, r)
  {
    assert RefsResolved(g, g[id]);
  }

  lemma SameIfRefsAre(p: Pairing, s: Schema)
    requires forall r | Refers(s, r) :: SameRef(p, r, r)
    ensures SameSchema(p, s, s)
  {
    hide SameRef, Bare;
    forall k | k in s.properties
      ensures SameRef(p, s.properties[k], s.properties[k])
    {
      assert s.properties[k] in s.properties.Values && Refers(s, s.properties[k]);
    }
    assert forall r <- s.oneOf :: Refers(s, r);
  }

  /** The ranks only show that a visit ends: the verdict is the same for any. */
  lemma VerdictIgnoresRanks(c: Context, r1: Rank, r2: Rank, id: Id, v: Json)
    requires WellFounded(c.g, r1) && WellFounded(c.g, r2) && id in c.g
    ensures Valid(c, r1, id, v) <==> Valid(c, r2, id, v)
  {
    hide Valid, WellFounded, Linked, Region;
    var p := Pairing(c, r1, c, r2, Identity(c.g.Keys));
    AllIsClosed(c, r1);
    IdentityLinks(p, c.g.Keys);
    assert (id, id) in p.rel;
    VerdictsAgree(p, id, id, v);
  }

  lemma AllIsClosed(c: Context, rank: Rank)
    requires WellFounded(c.g, rank)
    ensures Closed(c.g, c.g.Keys)
  {
    hide WellFounded, Refers;
    forall id | id in c.g.Keys
      ensures forall r | Refers(c.g[id], r) && r.value.Some? :: r.value.value in c.g.Keys
    {
      forall r | Refers(c.g[id], r)
        ensures Resolved(c.g, r)
      {
        ReferredIsResolved(c.g, rank, id, r);
      }
    }
  }

  /** Where every empty schema is harmless the short cut preserves the verdict on null-free values. */
  lemma ShortcutPreservesVerdict(c: Context, rank: Rank, within: set<Id>, id: Id, v: Json)
    requires Region(c, rank, within) && id in within && NullFree(v)
    ensures id in c.g && (Valid(c, rank, id, v) <==> Valid(WithoutShortcut(c), rank, id, v))
  {
    hide Valid, Linked, NullFree, WellFounded, OnlyEmpty, Harmless;
    var p := Pairing(c, rank, WithoutShortcut(c), rank, Identity(within));
    IdentityLinks(p, within);
    assert (id, id) in p.rel;
    VerdictsAgree(p, id, id, v);
  }

  /** The short cut makes no difference to any verdict on a null-free value. */
  ghost predicate ShortcutPreserves(c: Context, rank: Rank, within: set<Id>)
    requires WellFounded(c.g, rank)
  {
    forall id, v | id in within && id in c.g && NullFree(v) ::
      Valid(c, rank, id, v) <==> Valid(WithoutShortcut(c), rank, id, v)
  }

  /**
   The short cut preserves the verdicts of any schemas that are closed under reference if and only if none of
   them that IsEmpty calls empty has a `not`, several oneOf alternatives, or one and a discriminator.
   */
  lemma ShortcutPreservesIffHarmless(c: Context, rank: Rank, within: set<Id>)
    requires WellFounded(c.g, rank) && Closed(c.g, within) && AnswersIsEmpty(c)
    ensures ShortcutPreserves(c, rank, within) <==> Harmless(c, within)
  {
    hide Valid, WellFounded, Refers, IsEmptyBody, NullFree;
    if Harmless(c, within) {
      forall id, v | id in within && id in c.g && NullFree(v)
        ensures Valid(c, rank, id, v) <==> Valid(WithoutShortcut(c), rank, id, v)
      {
        ShortcutPreservesVerdict(c, rank, within, id, v);
      }
    }
    if ShortcutPreserves(c, rank, within) {
      forall id | id in c.empty && id in within && id in c.g
        ensures HarmlessSchema(c.g[id])
      {
        PreservedIsHarmless(c, rank, within, id);
      }
    }
  }

  lemma PreservedIsHarmless(c: Context, rank: Rank, within: set<Id>, id: Id)
    requires WellFounded(c.g, rank) && Closed(c.g, within) && AnswersIsEmpty(c) && ShortcutPreserves(c, rank, within)
    requires id in c.empty && id in within && id in c.g
    ensures HarmlessSchema(c.g[id])
  {
    hide WellFounded, IsEmptyBody;
    assert NullFree(Bool(true)) && IsEmptyBody(c.g[id], c.empty);
    forall x | x in within && x in c.g && x in c.empty
      ensures Valid(WithoutShortcut(c), rank, x, Bool(true))
    {
      assert Valid(c, rank, x, Bool(true));
    }
    if !HarmlessSchema(c.g[id]) {
      HarmfulRejects(c, rank, within, id);
    }
  }
}
