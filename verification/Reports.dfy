/** What a reported violation means: the keyword it names is not satisfied by the value at the place it names. */
module Reports {
  import opened Options
  import opened Schemas
  import opened SchemaVerdict
  import opened SchemaErrors
  import opened Violations
  import Keywords

  predicate TypeAllows(typ: string, u: Json) {
    || typ == ""
    || (typ == "boolean" && u.Bool?)
    || (typ == "number" && u.Num?)
    || (typ == "integer" && u.Num? && IsInt(u.n))
    || (typ == "string" && u.Str?)
    || (typ == "array" && u.Arr?)
    || (typ == "object" && u.Obj?)
  }

  /** The keyword of this name is there and is not satisfied by a value that is no container. */
  ghost predicate BreaksScalar(env: Env, s: Schema, field: string, u: Json) {
    || (field == "nullable" && u.Null? && !s.nullable)
    || (field == "type" && !u.Null? && !TypeAllows(s.typ, u))
    || (field == "minimum" && u.Num? && s.min.Some? && u.n < s.min.value)
    || (field == "maximum" && u.Num? && s.max.Some? && u.n > s.max.value)
    || (field == "exclusiveMinimum" && u.Num? && s.exclusiveMin && s.min.Some? && u.n <= s.min.value)
    || (field == "exclusiveMaximum" && u.Num? && s.exclusiveMax && s.max.Some? && u.n >= s.max.value)
    || (field == "multipleOf" && u.Num? && s.multipleOf.Some?
        && forall k :: !Keywords.Times(u.n, s.multipleOf.value, k))
    || (field == "minLength" && u.Str? && |u.s| < s.minLength)
    || (field == "maxLength" && u.Str? && !Keywords.AtMost(|u.s|, s.maxLength))
    || (field == "pattern" && u.Str? && s.pattern != "" && !(env.compiles(s.pattern) && env.matches(s.pattern, u.s)))
    || (field == "format" && u.Str? && s.format != "" && !env.formatOk(s.format, u.s))
  }

  /** The same for a keyword of arrays and objects. */
  ghost predicate BreaksContainer(env: Env, s: Schema, field: string, u: Json) {
    || (field == "minItems" && u.Arr? && |u.items| < s.minItems)
    || (field == "maxItems" && u.Arr? && !Keywords.AtMost(|u.items|, s.maxItems))
    || (field == "uniqueItems" && u.Arr? && s.uniqueItems
        && exists i, j :: 0 <= i < j < |u.items| && env.itemKey(u.items[i]) == env.itemKey(u.items[j]))
    || (field == "minProperties" && u.Obj? && |u.fields| < s.minProps)
    || (field == "maxProperties" && u.Obj? && !Keywords.AtMost(|u.fields|, s.maxProps))
    || (field == "properties" && u.Obj? && s.additionalProperties.None? && s.additionalPropertiesAllowed == Some(false)
        && exists k :: k in u.fields && k !in s.properties)
  }

  /** The same for a combinator, which is not looked at if there is an enum. */
  ghost predicate BreaksCombinator(c: Context, rank: Rank, id: Id, field: string, u: Json)
    requires WellFounded(c.g, rank) && id in c.g
  {
    var s := c.g[id];
    || (field == "enum" && s.enum != [] && u !in s.enum)
    || (field == "not" && s.enum == [] && s.negated.Some? && Keywords.Accepted(c, rank, s.negated.value, u))
    || (field == "oneOf" && s.enum == [] && s.oneOf != []
        && forall i | 0 <= i < |s.oneOf| :: !Keywords.OnlyOne(c, rank, id, u, |s.oneOf|, i))
    || (field == "anyOf" && s.enum == [] && forall i | 0 <= i < |s.anyOf| :: !Keywords.Accepted(c, rank, s.anyOf[i], u))
    || (field == "allOf" && s.enum == []
        && exists i :: 0 <= i < |s.allOf| && !Keywords.Accepted(c, rank, s.allOf[i], u))
  }

  /** What a violation says of the value in which it is reported. */
  ghost predicate IsReal(c: Context, rank: Rank, x: Violation, v: Json)
    requires WellFounded(c.g, rank)
  {
    && x.schema in c.g
    && if x.field == "required" then
         x.path != [] && LackingAt(c, x.schema, v, x.path[..|x.path| - 1], x.path[|x.path| - 1])
       else
         exists u :: Leads(v, x.path, u) && Breaks(c, rank, x.schema, x.field, u)
  }

  /** The path leads to an object that lacks this required property. */
  ghost predicate LackingAt(c: Context, id: Id, v: Json, path: seq<string>, k: string)
    requires id in c.g
  {
    exists u :: Leads(v, path, u) && LacksRequired(c, id, k, u)
  }

  ghost predicate Breaks(c: Context, rank: Rank, id: Id, field: string, u: Json)
    requires WellFounded(c.g, rank) && id in c.g
  {
    || BreaksScalar(c.env, c.g[id], field, u)
    || BreaksContainer(c.env, c.g[id], field, u)
    || BreaksCombinator(c, rank, id, field, u)
  }

  ghost predicate LacksRequired(c: Context, id: Id, k: string, u: Json)
    requires id in c.g
  {
    u.Obj? && k !in u.fields && k in c.g[id].required && !Keywords.MayBeMissing(c, c.g[id], k)
  }

  // Each violation is real

  lemma RealHere(c: Context, rank: Rank, x: Violation, v: Json)
    requires WellFounded(c.g, rank) && x.schema in c.g && x.path == [] && x.field != "required"
    requires Breaks(c, rank, x.schema, x.field, v)
    ensures IsReal(c, rank, x, v)
  {
    assert Leads(v, [], v);
  }

  /** What is real inside an element or field is real outside. */
  lemma RealOutside(c: Context, rank: Rank, x: Violation, step: string, child: Json, parent: Json)
    requires WellFounded(c.g, rank) && IsReal(c, rank, x, child) && StepOut(child, step, parent)
    ensures IsReal(c, rank, x.(path := [step] + x.path), parent)
  {
    hide WellFounded, Breaks, LacksRequired;
    var path := [step] + x.path;
    var n := if x.field == "required" then |path| - 1 else |path|;
    assert path[..n][1..] == x.path[..n - 1] && path[..|path|] == path && x.path[..|x.path|] == x.path;
    forall u | Leads(child, x.path[..n - 1], u)
      ensures Leads(parent, path[..n], u)
    {}
  }

  lemma NumberViolationIsReal(c: Context, rank: Rank, id: Id, n: real, x: Violation)
    requires WellFounded(c.g, rank) && id in c.g && Sane(c.g[id]) && x in NumberViolations(c.g[id], id, n)
    ensures IsReal(c, rank, x, Num(n))
  {
    hide WellFounded, IsInt, Keywords.Times, BreaksContainer, BreaksCombinator, IsReal;
    if c.g[id].multipleOf.Some? {
      Keywords.MultipleIff(n, c.g[id].multipleOf.value);
    }
    NumberFields(c.g[id], id, n, x);
    RealHere(c, rank, x, Num(n));
  }

  lemma NumberFields(s: Schema, id: Id, n: real, x: Violation)
    requires Sane(s) && x in NumberViolations(s, id, n)
    ensures x.path == [] && x.schema == id && x.field != "required"
    ensures || (x.field == "type" && !TypeAllows(s.typ, Num(n)))
            || (x.field == "minimum" && s.min.Some? && n < s.min.value)
            || (x.field == "maximum" && s.max.Some? && n > s.max.value)
            || (x.field == "exclusiveMinimum" && s.exclusiveMin && n <= s.min.value)
            || (x.field == "exclusiveMaximum" && s.exclusiveMax && n >= s.max.value)
            || (x.field == "multipleOf" && s.multipleOf.Some? && !IsInt(n / s.multipleOf.value))
  {
    hide IsInt;
  }

  lemma StringViolationIsReal(c: Context, rank: Rank, id: Id, t: string, x: Violation)
    requires WellFounded(c.g, rank) && id in c.g && x in StringViolations(c.env, c.g[id], id, t)
    ensures IsReal(c, rank, x, Str(t))
  {
    hide WellFounded, BreaksContainer, BreaksCombinator, IsReal;
    RealHere(c, rank, x, Str(t));
  }

  lemma CombinatorViolationIsReal(c: Context, rank: Rank, id: Id, v: Json, x: Violation)
    requires WellFounded(c.g, rank) && id in c.g && x in CombinatorViolations(c, rank, id, v)
    ensures IsReal(c, rank, x, v)
  {
    hide WellFounded, BreaksContainer, BreaksScalar, IsReal, Keywords.Accepted, Keywords.OnlyOne, ChosenAmong,
         PartValid;
    var s := c.g[id];
    Keywords.OneChosen(c, rank, id, v, |s.oneOf|);
    forall r | Combines(s, r)
      ensures PartValid(c, rank, id, r, v) <==> Keywords.Accepted(c, rank, r, v)
    {
      Keywords.PartIff(c, rank, id, r, v);
    }
    assert forall i | 0 <= i < |s.anyOf| :: Combines(s, s.anyOf[i]);
    assert forall i | 0 <= i < |s.allOf| :: Combines(s, s.allOf[i]);
    RealHere(c, rank, x, v);
  }

  lemma {:induction false} MissingIsReal(c: Context, rank: Rank, id: Id, v: Json, n: nat, x: Violation)
    requires WellFounded(c.g, rank) && id in c.g && RefsResolved(c.g, c.g[id]) && v.Obj? && n <= |c.g[id].required|
    requires x in MissingViolations(c, id, v, n)
    ensures IsReal(c, rank, x, v)
  {
    hide WellFounded, RefsResolved, Excused, Keywords.MayBeMissing;
    var k := c.g[id].required[n - 1];
    if x in MissingViolations(c, id, v, n - 1) {
      MissingIsReal(c, rank, id, v, n - 1, x);
    } else {
      Keywords.FieldIff(c, rank, id, k, Null);
      assert x == Violation([k] + [], id, "required", v) && [k] + [] == [k] && [k][..0] == [];
      assert Leads(v, [], v) && LacksRequired(c, id, k, v);
    }
  }

  /** Every violation names a keyword that the value at its place does not satisfy. */
  lemma {:induction false} ViolationIsReal(c: Context, rank: Rank, id: Id, v: Json, x: Violation)
    requires WellFounded(c.g, rank) && id in c.g && x in ViolationsOf(c, rank, id, v)
    ensures IsReal(c, rank, x, v)
    decreases v, 1
  {
    hide WellFounded, IsReal, ShapeViolations, CombinatorViolations, SetOperationsOk, BreaksContainer,
         BreaksCombinator;
    if v.Null? {
      RealHere(c, rank, x, v);
    } else if !SetOperationsOk(c, rank, id, v) {
      CombinatorViolationIsReal(c, rank, id, v, x);
    } else {
      ShapeViolationIsReal(c, rank, id, v, x);
    }
  }

  lemma {:induction false} ShapeViolationIsReal(c: Context, rank: Rank, id: Id, v: Json, x: Violation)
    requires WellFounded(c.g, rank) && id in c.g && !v.Null? && x in ShapeViolations(c, rank, id, v)
    ensures IsReal(c, rank, x, v)
    decreases v, 0, 2
  {
    hide IsReal, NumberViolations, StringViolations, BreaksCombinator, ViolationsOf, CountViolations, FieldViolations,
         ItemViolations, MissingViolations;
    match v
    case Bool(_) => RealHere(c, rank, x, v);
    case Num(n) => NumberViolationIsReal(c, rank, id, n, x);
    case Str(t) => StringViolationIsReal(c, rank, id, t, x);
    case Arr(xs) => ArrayViolationIsReal(c, rank, id, v, x);
    case Obj(f) => ObjectViolationIsReal(c, rank, id, v, x);
  }

  lemma {:induction false} ArrayViolationIsReal(c: Context, rank: Rank, id: Id, v: Json, x: Violation)
    requires WellFounded(c.g, rank) && id in c.g && v.Arr? && x in ShapeViolations(c, rank, id, v)
    ensures IsReal(c, rank, x, v)
    decreases v, 0, 1
  {
    hide IsReal, BreaksCombinator, ViolationsOf, ItemViolations, Distinct, ItemKeys, WellFounded, CountViolations,
         Keywords.AtMost;
    var s := c.g[id];
    var count := CountViolations(id, v, |v.items|, s.minItems, s.maxItems, "minItems", "maxItems");
    if x in ItemViolations(c, rank, id, v, |v.items|) {
      ItemViolationIsReal(c, rank, id, v, |v.items|, x);
    } else {
      if x in count {
        CountFields(id, v, |v.items|, s.minItems, s.maxItems, "minItems", "maxItems", x);
      } else {
        RepeatedKeys(c.env, v.items);
      }
      RealHere(c, rank, x, v);
    }
  }

  lemma CountFields(id: Id, v: Json, n: nat, least: Uint64, most: Option<Uint64>, leastField: string,
                    mostField: string, x: Violation)
    requires x in CountViolations(id, v, n, least, most, leastField, mostField)
    ensures x.path == [] && x.schema == id
    ensures (x.field == leastField && n < least) || (x.field == mostField && !Keywords.AtMost(n, most))
  {}

  lemma RepeatedKeys(env: Env, xs: seq<Json>)
    ensures Distinct(ItemKeys(env, xs)) || exists i, j :: 0 <= i < j < |xs| && env.itemKey(xs[i]) == env.itemKey(xs[j])
  {
    var ks := ItemKeys(env, xs);
    if i, j :| 0 <= i < j < |ks| && ks[i] == ks[j] {
      assert env.itemKey(xs[i]) == env.itemKey(xs[j]);
    }
  }

  lemma {:induction false} ItemViolationIsReal(c: Context, rank: Rank, id: Id, v: Json, n: nat, x: Violation)
    requires WellFounded(c.g, rank) && id in c.g && v.Arr? && n <= |v.items| && x in ItemViolations(c, rank, id, v, n)
    ensures IsReal(c, rank, x, v)
    decreases v, 0, 0, n
  {
    hide IsReal, ViolationsOf;
    assert RefsResolved(c.g, c.g[id]);
    if x in ItemViolations(c, rank, id, v, n - 1) {
      ItemViolationIsReal(c, rank, id, v, n - 1, x);
    } else {
      var items := Target(c.g, c.g[id].items.value);
      var y :| y in ViolationsOf(c, rank, items, v.items[n - 1]) && x == y.(path := [Decimal(n - 1)] + y.path);
      ViolationIsReal(c, rank, items, v.items[n - 1], y);
      RealOutside(c, rank, y, Decimal(n - 1), v.items[n - 1], v);
    }
  }

  lemma {:induction false} ObjectViolationIsReal(c: Context, rank: Rank, id: Id, v: Json, x: Violation)
    requires WellFounded(c.g, rank) && id in c.g && v.Obj? && x in ShapeViolations(c, rank, id, v)
    ensures IsReal(c, rank, x, v)
    decreases v, 0, 1
  {
    hide IsReal, BreaksCombinator, FieldViolations, MissingViolations, CountViolations, Keywords.AtMost, RefsResolved;
    assert RefsResolved(c.g, c.g[id]);
    var s := c.g[id];
    var count := CountViolations(id, v, |v.fields|, s.minProps, s.maxProps, "minProperties", "maxProperties");
    if x in MissingViolations(c, id, v, |c.g[id].required|) {
      MissingIsReal(c, rank, id, v, |c.g[id].required|, x);
    } else if k :| k in v.fields && x in FieldViolations(c, rank, id, k, v.fields[k], v) {
      FieldViolationIsReal(c, rank, id, k, v, x);
    } else {
      if x in count {
        CountFields(id, v, |v.fields|, s.minProps, s.maxProps, "minProperties", "maxProperties", x);
      }
      RealHere(c, rank, x, v);
    }
  }

  lemma {:induction false} FieldViolationIsReal(c: Context, rank: Rank, id: Id, k: string, v: Json, x: Violation)
    requires WellFounded(c.g, rank) && id in c.g && v.Obj? && k in v.fields
    requires x in FieldViolations(c, rank, id, k, v.fields[k], v)
    ensures IsReal(c, rank, x, v)
    decreases v, 0, 0
  {
    hide IsReal, ViolationsOf;
    var s := c.g[id];
    if k in s.properties || s.additionalProperties.Some? {
      var r := if k in s.properties then s.properties[k] else s.additionalProperties.value;
      var y :| y in ViolationsOf(c, rank, Target(c.g, r), v.fields[k]) && x == y.(path := [k] + y.path);
      ViolationIsReal(c, rank, Target(c.g, r), v.fields[k], y);
      RealOutside(c, rank, y, k, v.fields[k], v);
    } else {
      RealHere(c, rank, x, v);
    }
  }

  // Nothing is left out

  /** A value is accepted exactly if it has no violations. */
  lemma {:induction false} ValidIffNoViolations(c: Context, rank: Rank, id: Id, v: Json)
    requires WellFounded(c.g, rank) && id in c.g
    ensures Valid(c, rank, id, v) <==> ViolationsOf(c, rank, id, v) == {}
    decreases v, 1
  {
    hide WellFounded, SetOperationsOk, ShapeOk, ShapeViolations, CombinatorViolations, Broken;
    SomethingBroken(id, "nullable", Null);
    if !v.Null? {
      CombinatorsIffNone(c, rank, id, v);
      if SetOperationsOk(c, rank, id, v) {
        ShapeIffNone(c, rank, id, v);
      }
    }
  }

  lemma SomethingBroken(id: Id, field: string, v: Json)
    ensures forall broken :: Broken(broken, id, field, v) == {} <==> !broken
  {}

  lemma CombinatorsIffNone(c: Context, rank: Rank, id: Id, v: Json)
    requires WellFounded(c.g, rank) && id in c.g
    ensures SetOperationsOk(c, rank, id, v) <==> CombinatorViolations(c, rank, id, v) == {}
  {
    hide NotOk, OneOfOk, AnyOfOk, AllOfOk, WellFounded;
  }

  lemma {:induction false} ShapeIffNone(c: Context, rank: Rank, id: Id, v: Json)
    requires WellFounded(c.g, rank) && id in c.g && !v.Null?
    ensures ShapeOk(c, rank, id, v) <==> ShapeViolations(c, rank, id, v) == {}
    decreases v, 0, 2
  {
    hide Valid, FieldOk, ViolationsOf, FieldViolations, ItemViolations, MissingViolations, CountViolations, CountOk,
         NumberViolations, StringViolations, NumberOk, StringOk, IsInt, Distinct, ItemKeys, Excused, Broken;
    assert RefsResolved(c.g, c.g[id]) && Sane(c.g[id]);
    var s := c.g[id];
    match v
    case Bool(_) => SomethingBroken(id, "type", Str("boolean"));
    case Num(n) => NumberIffNone(s, id, n);
    case Str(t) => StringIffNone(c.env, s, id, t);
    case Arr(xs) => ArrayIffNone(c, rank, id, v);
    case Obj(f) => ObjectIffNone(c, rank, id, v);
  }

  lemma NumberIffNone(s: Schema, id: Id, n: real)
    requires Sane(s)
    ensures NumberOk(s, n) <==> NumberViolations(s, id, n) == {}
  {
    hide IsInt;
  }

  lemma StringIffNone(env: Env, s: Schema, id: Id, t: string)
    ensures StringOk(env, s, t) <==> StringViolations(env, s, id, t) == {}
  {}

  lemma CountIffNone(id: Id, v: Json, n: nat, least: Uint64, most: Option<Uint64>, leastField: string,
                     mostField: string)
    ensures CountOk(n, least, most) <==> CountViolations(id, v, n, least, most, leastField, mostField) == {}
  {}

  lemma NoneInside(step: string, vs: set<Violation>)
    ensures Inside(step, vs) == {} <==> vs == {}
    ensures vs != {} ==> exists x :: x in Inside(step, vs) && x.path != [] && x.path[0] == step
  {
    if x :| x in vs {
      assert x.(path := [step] + x.path) in Inside(step, vs);
    }
  }

  lemma {:induction false} ArrayIffNone(c: Context, rank: Rank, id: Id, v: Json)
    requires WellFounded(c.g, rank) && id in c.g && v.Arr?
    ensures ShapeOk(c, rank, id, v) <==> ShapeViolations(c, rank, id, v) == {}
    decreases v, 0, 1
  {
    hide Valid, ViolationsOf, ItemViolations, CountViolations, CountOk, Distinct, ItemKeys, Broken;
    var s := c.g[id];
    assert RefsResolved(c.g, s);
    SomethingBroken(id, "type", Str("array"));
    SomethingBroken(id, "uniqueItems", v);
    CountIffNone(id, v, |v.items|, s.minItems, s.maxItems, "minItems", "maxItems");
    ItemsIffNone(c, rank, id, v, |v.items|);
  }

  lemma {:induction false} ItemsIffNone(c: Context, rank: Rank, id: Id, v: Json, n: nat)
    requires WellFounded(c.g, rank) && id in c.g && v.Arr? && n <= |v.items|
    ensures c.g[id].items.Some? ==> Resolved(c.g, c.g[id].items.value)
    ensures ItemViolations(c, rank, id, v, n) == {} <==>
              c.g[id].items.Some? ==>
                forall i | 0 <= i < n :: Valid(c, rank, Target(c.g, c.g[id].items.value), v.items[i])
    decreases v, 0, 0, n
  {
    hide Valid, ViolationsOf;
    assert RefsResolved(c.g, c.g[id]);
    if n > 0 && c.g[id].items.Some? {
      var items := Target(c.g, c.g[id].items.value);
      ItemsIffNone(c, rank, id, v, n - 1);
      ValidIffNoViolations(c, rank, items, v.items[n - 1]);
      NoneInside(Decimal(n - 1), ViolationsOf(c, rank, items, v.items[n - 1]));
    }
  }

  lemma {:induction false} ObjectIffNone(c: Context, rank: Rank, id: Id, v: Json)
    requires WellFounded(c.g, rank) && id in c.g && v.Obj?
    ensures ShapeOk(c, rank, id, v) <==> ShapeViolations(c, rank, id, v) == {}
    decreases v, 0, 1
  {
    hide FieldOk, FieldViolations, MissingViolations, CountViolations, CountOk, Excused, Broken;
    var s, f := c.g[id], v.fields;
    assert RefsResolved(c.g, s);
    SomethingBroken(id, "type", Str("object"));
    CountIffNone(id, v, |f|, s.minProps, s.maxProps, "minProperties", "maxProperties");
    MissingIffNone(c, id, v, |s.required|);
    forall k | k in f
      ensures FieldOk(c, rank, id, k, f[k]) <==> FieldViolations(c, rank, id, k, f[k], v) == {}
    {
      FieldIffNone(c, rank, id, k, v);
    }
    var fields := set k, x | k in f && x in FieldViolations(c, rank, id, k, f[k], v) :: x;
    assert fields == {} <==> forall k <- f :: FieldViolations(c, rank, id, k, f[k], v) == {} by {
      if fields == {} {
        forall k <- f
          ensures FieldViolations(c, rank, id, k, f[k], v) == {}
        {
          assert forall x <- FieldViolations(c, rank, id, k, f[k], v) :: x in fields;
        }
      }
    }
  }

  lemma {:induction false} FieldIffNone(c: Context, rank: Rank, id: Id, k: string, v: Json)
    requires WellFounded(c.g, rank) && id in c.g && v.Obj? && k in v.fields
    ensures FieldOk(c, rank, id, k, v.fields[k]) <==> FieldViolations(c, rank, id, k, v.fields[k], v) == {}
    decreases v, 0, 0
  {
    hide Valid, ViolationsOf, Broken;
    var s := c.g[id];
    assert RefsResolved(c.g, s);
    SomethingBroken(id, "properties", v);
    if k in s.properties || s.additionalProperties.Some? {
      var r := if k in s.properties then s.properties[k] else s.additionalProperties.value;
      ValidIffNoViolations(c, rank, Target(c.g, r), v.fields[k]);
      NoneInside(k, ViolationsOf(c, rank, Target(c.g, r), v.fields[k]));
    }
  }

  lemma {:induction false} MissingIffNone(c: Context, id: Id, v: Json, n: nat)
    requires id in c.g && RefsResolved(c.g, c.g[id]) && v.Obj? && n <= |c.g[id].required|
    ensures MissingViolations(c, id, v, n) == {} <==>
              forall i | 0 <= i < n :: c.g[id].required[i] in v.fields || Excused(c, c.g[id], c.g[id].required[i])
  {
    hide Excused, Broken, Inside;
    if n > 0 {
      MissingIffNone(c, id, v, n - 1);
      SomethingBroken(id, "required", v);
      var k := c.g[id].required[n - 1];
      NoneInside(k, Broken(k !in v.fields && !Excused(c, c.g[id], k), id, "required", v));
    }
  }

  /** A violation at this step into the value, or further inside. */
  ghost predicate ReportedAt(c: Context, rank: Rank, id: Id, v: Json, step: string)
    requires WellFounded(c.g, rank) && id in c.g
  {
    exists x :: x in ViolationsOf(c, rank, id, v) && x.path != [] && x.path[0] == step
  }

  /** Each item that is not accepted is reported at its place, not just the first one. */
  lemma EachItemIsReported(c: Context, rank: Rank, id: Id, v: Json, i: nat)
    requires WellFounded(c.g, rank) && id in c.g && id !in c.empty && v.Arr? && i < |v.items|
    requires SetOperationsOk(c, rank, id, v) && (c.g[id].typ == "" || c.g[id].typ == "array")
    requires c.g[id].items.Some? && !Keywords.Accepted(c, rank, c.g[id].items.value, v.items[i])
    ensures ReportedAt(c, rank, id, v, Decimal(i))
  {
    hide Valid, SetOperationsOk, ItemViolations, CountViolations, Broken, Distinct, ItemKeys;
    assert RefsResolved(c.g, c.g[id]);
    var items := Target(c.g, c.g[id].items.value);
    ValidIffNoViolations(c, rank, items, v.items[i]);
    NoneInside(Decimal(i), ViolationsOf(c, rank, items, v.items[i]));
    ItemIsAmong(c, rank, id, v, i, |v.items|);
    var x :| && x in Inside(Decimal(i), ViolationsOf(c, rank, items, v.items[i]))
             && x.path != [] && x.path[0] == Decimal(i);
    assert x in ViolationsOf(c, rank, id, v);
  }

  lemma {:induction false} ItemIsAmong(c: Context, rank: Rank, id: Id, v: Json, i: nat, n: nat)
    requires WellFounded(c.g, rank) && id in c.g && v.Arr? && i < n <= |v.items| && c.g[id].items.Some?
    ensures Resolved(c.g, c.g[id].items.value)
    ensures Inside(Decimal(i), ViolationsOf(c, rank, Target(c.g, c.g[id].items.value), v.items[i]))
         <= ItemViolations(c, rank, id, v, n)
  {
    hide ViolationsOf, Inside;
    assert RefsResolved(c.g, c.g[id]);
    if i < n - 1 {
      ItemIsAmong(c, rank, id, v, i, n - 1);
    }
  }

  /** Each field that its schema does not accept is reported at its name. */
  lemma EachFieldIsReported(c: Context, rank: Rank, id: Id, v: Json, k: string, r: SchemaRef)
    requires WellFounded(c.g, rank) && id in c.g && id !in c.empty && v.Obj? && k in v.fields
    requires SetOperationsOk(c, rank, id, v) && (c.g[id].typ == "" || c.g[id].typ == "object")
    requires if k in c.g[id].properties then r == c.g[id].properties[k] else c.g[id].additionalProperties == Some(r)
    requires !Keywords.Accepted(c, rank, r, v.fields[k])
    ensures ReportedAt(c, rank, id, v, k)
  {
    hide Valid, SetOperationsOk, CountViolations, MissingViolations, Broken;
    assert RefsResolved(c.g, c.g[id]);
    ValidIffNoViolations(c, rank, Target(c.g, r), v.fields[k]);
    NoneInside(k, ViolationsOf(c, rank, Target(c.g, r), v.fields[k]));
    var x :| x in Inside(k, ViolationsOf(c, rank, Target(c.g, r), v.fields[k])) && x.path != [] && x.path[0] == k;
    assert x in FieldViolations(c, rank, id, k, v.fields[k], v);
    assert x in ViolationsOf(c, rank, id, v);
  }

  /** Each required property that is missing without excuse is reported by its name. */
  lemma EachMissingIsReported(c: Context, rank: Rank, id: Id, v: Json, k: string)
    requires WellFounded(c.g, rank) && id in c.g && id !in c.empty && LacksRequired(c, id, k, v)
    requires SetOperationsOk(c, rank, id, v) && (c.g[id].typ == "" || c.g[id].typ == "object")
    ensures Violation([k], id, "required", v) in ViolationsOf(c, rank, id, v)
  {
    hide Valid, SetOperationsOk, CountViolations, FieldViolations, MissingViolations, Excused, Keywords.MayBeMissing;
    assert RefsResolved(c.g, c.g[id]);
    Keywords.FieldIff(c, rank, id, k, Null);
    var i :| 0 <= i < |c.g[id].required| && c.g[id].required[i] == k;
    MissingIsAmong(c, id, v, i, |c.g[id].required|);
  }

  lemma {:induction false} MissingIsAmong(c: Context, id: Id, v: Json, i: nat, n: nat)
    requires id in c.g && RefsResolved(c.g, c.g[id]) && v.Obj? && i < n <= |c.g[id].required|
    requires var k := c.g[id].required[i]; k !in v.fields && !Excused(c, c.g[id], k)
    ensures Violation([c.g[id].required[i]], id, "required", v) in MissingViolations(c, id, v, n)
  {
    hide Excused;
    if i < n - 1 {
      MissingIsAmong(c, id, v, i, n - 1);
    } else {
      var k := c.g[id].required[i];
      var x := Violation([], id, "required", v);
      assert x in Broken(true, id, "required", v) && x.(path := [k] + x.path) == Violation([k], id, "required", v);
    }
  }
}
