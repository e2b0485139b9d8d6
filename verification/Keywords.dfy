/** What each keyword of a schema asks of a value, said of the verdict itself. */
module Keywords {
  import opened Options
  import opened Schemas
  import opened SchemaVerdict

  /** `n` is `k` times `unit`. */
  ghost predicate Times(n: real, unit: real, k: int) {
    n == k as real * unit
  }

  lemma WholeIff(n: real)
    ensures IsInt(n) <==> exists k :: Times(n, 1.0, k)
  {
    if IsInt(n) {
      assert Times(n, 1.0, n.Floor);
    }
    forall k | Times(n, 1.0, k)
      ensures IsInt(n)
    {
      assert n == k as real;
    }
  }

  lemma MultipleIff(n: real, unit: real)
    requires unit != 0.0
    ensures IsInt(n / unit) <==> exists k :: Times(n, unit, k)
  {
    var q := n / unit;
    assert n == q * unit;
    if IsInt(q) {
      assert Times(n, unit, q.Floor);
    }
    forall k | Times(n, unit, k)
      ensures IsInt(q)
    {
      QuotientIs(n, unit, k);
    }
  }

  lemma QuotientIs(n: real, unit: real, k: int)
    requires unit != 0.0 && n == k as real * unit
    ensures n / unit == k as real
  {}

  /** A null is accepted exactly by a nullable schema, whatever else it says. */
  lemma NullIff(c: Context, rank: Rank, id: Id)
    requires WellFounded(c.g, rank) && id in c.g
    ensures Valid(c, rank, id, Null) <==> c.g[id].nullable
  {}

  lemma BooleanIff(c: Context, rank: Rank, id: Id, b: bool)
    requires WellFounded(c.g, rank) && id in c.g && id !in c.empty
    ensures Valid(c, rank, id, Bool(b)) <==>
              SetOperationsOk(c, rank, id, Bool(b)) && (c.g[id].typ == "" || c.g[id].typ == "boolean")
  {
    hide SetOperationsOk, WellFounded;
  }

  /** type, minimum, maximum, their exclusive forms, and multipleOf. */
  lemma NumberIff(c: Context, rank: Rank, id: Id, n: real)
    requires WellFounded(c.g, rank) && id in c.g && id !in c.empty
    ensures var s := c.g[id];
            Valid(c, rank, id, Num(n)) <==>
              && SetOperationsOk(c, rank, id, Num(n))
              && (s.typ == "" || s.typ == "number" || (s.typ == "integer" && exists k :: Times(n, 1.0, k)))
              && (s.min.Some? ==> s.min.value <= n && (s.exclusiveMin ==> s.min.value < n))
              && (s.max.Some? ==> n <= s.max.value && (s.exclusiveMax ==> n < s.max.value))
              && (s.multipleOf.Some? ==> exists k :: Times(n, s.multipleOf.value, k))
  {
    hide SetOperationsOk, IsInt, Times, RefsResolved;
    var s := c.g[id];
    assert Sane(s);
    WholeIff(n);
    if s.multipleOf.Some? {
      MultipleIff(n, s.multipleOf.value);
    }
    assert Valid(c, rank, id, Num(n)) <==> SetOperationsOk(c, rank, id, Num(n)) && NumberOk(s, n);
  }

  /**
   A lower limit on a count. The code converts it to a signed number, so that one from 2^63 on is never missed;
   an upper limit from there on is never met.
   */
  predicate AtLeast(n: nat, least: Uint64) {
    least <= n || 0x8000_0000_0000_0000 <= least
  }

  predicate AtMost(n: nat, most: Option<Uint64>) {
    most.Some? ==> n <= most.value < 0x8000_0000_0000_0000
  }

  lemma CountIff(n: nat, least: Uint64, most: Option<Uint64>)
    ensures CountOk(n, least, most) <==> AtLeast(n, least) && AtMost(n, most)
  {}

  /** type, minLength, maxLength, pattern and format. */
  lemma StringIff(c: Context, rank: Rank, id: Id, t: string)
    requires WellFounded(c.g, rank) && id in c.g && id !in c.empty
    ensures var s := c.g[id];
            Valid(c, rank, id, Str(t)) <==>
              && SetOperationsOk(c, rank, id, Str(t))
              && (s.typ == "" || s.typ == "string")
              && AtLeast(|t|, s.minLength) && AtMost(|t|, s.maxLength)
              && (s.pattern != "" ==> c.env.compiles(s.pattern) && c.env.matches(s.pattern, t))
              && (s.format != "" ==> c.env.formatOk(s.format, t))
  {
    hide SetOperationsOk, WellFounded;
    assert Valid(c, rank, id, Str(t)) <==> SetOperationsOk(c, rank, id, Str(t)) && StringOk(c.env, c.g[id], t);
    CountIff(|t|, c.g[id].minLength, c.g[id].maxLength);
  }

  /** The schema that is referred to accepts the value. */
  ghost predicate Accepted(c: Context, rank: Rank, r: SchemaRef, v: Json)
    requires WellFounded(c.g, rank)
  {
    r.value.Some? && r.value.value in c.g && Valid(c, rank, r.value.value, v)
  }

  /** type, minItems, maxItems, uniqueItems and items. */
  lemma ArrayIff(c: Context, rank: Rank, id: Id, xs: seq<Json>)
    requires WellFounded(c.g, rank) && id in c.g && id !in c.empty
    ensures var s := c.g[id];
            Valid(c, rank, id, Arr(xs)) <==>
              && SetOperationsOk(c, rank, id, Arr(xs))
              && (s.typ == "" || s.typ == "array")
              && AtLeast(|xs|, s.minItems) && AtMost(|xs|, s.maxItems)
              && (s.uniqueItems ==>
                    forall i, j | 0 <= i < j < |xs| :: c.env.itemKey(xs[i]) != c.env.itemKey(xs[j]))
              && (s.items.Some? ==> forall i | 0 <= i < |xs| :: Accepted(c, rank, s.items.value, xs[i]))
  {
    hide SetOperationsOk, CountOk, ItemKeys;
    var s := c.g[id];
    assert RefsResolved(c.g, s);
    CountIff(|xs|, s.minItems, s.maxItems);
    var ks := ItemKeys(c.env, xs);
    assert Distinct(ks) <==> forall i, j | 0 <= i < j < |xs| :: c.env.itemKey(xs[i]) != c.env.itemKey(xs[j]);
  }

  /** A field is judged by its property or else by additionalProperties, a schema or a bare true or false. */
  ghost predicate FieldAccepted(c: Context, rank: Rank, id: Id, k: string, v: Json)
    requires WellFounded(c.g, rank) && id in c.g
  {
    var s := c.g[id];
    && (k in s.properties ==> Accepted(c, rank, s.properties[k], v))
    && (k !in s.properties && s.additionalProperties.Some? ==> Accepted(c, rank, s.additionalProperties.value, v))
    && (k !in s.properties && s.additionalProperties.None? ==> s.additionalPropertiesAllowed != Some(false))
  }

  /** A required name may be missing from a request if it is read-only, from a response if it is write-only. */
  ghost predicate MayBeMissing(c: Context, s: Schema, k: string) {
    && k in s.properties && s.properties[k].value.Some? && s.properties[k].value.value in c.g
    && var p := c.g[s.properties[k].value.value];
       (c.asreq && p.readOnly) || (c.asrep && p.writeOnly)
  }

  lemma FieldIff(c: Context, rank: Rank, id: Id, k: string, v: Json)
    requires WellFounded(c.g, rank) && id in c.g
    ensures FieldOk(c, rank, id, k, v) <==> FieldAccepted(c, rank, id, k, v)
    ensures k in c.g[id].properties ==> Resolved(c.g, c.g[id].properties[k])
    ensures Excused(c, c.g[id], k) <==> MayBeMissing(c, c.g[id], k)
  {
    hide Valid;
    assert RefsResolved(c.g, c.g[id]);
  }

  /** type, minProperties, maxProperties, properties, additionalProperties and required. */
  lemma ObjectIff(c: Context, rank: Rank, id: Id, f: map<string, Json>)
    requires WellFounded(c.g, rank) && id in c.g && id !in c.empty
    ensures var s := c.g[id];
            Valid(c, rank, id, Obj(f)) <==>
              && SetOperationsOk(c, rank, id, Obj(f))
              && (s.typ == "" || s.typ == "object")
              && AtLeast(|f|, s.minProps) && AtMost(|f|, s.maxProps)
              && (forall k <- f :: FieldAccepted(c, rank, id, k, f[k]))
              && (forall k <- s.required :: k in f || MayBeMissing(c, s, k))
  {
    hide SetOperationsOk, CountOk, FieldOk, FieldAccepted, Excused, MayBeMissing, WellFounded;
    var s := c.g[id];
    CountIff(|f|, s.minProps, s.maxProps);
    forall k | k in f
      ensures FieldOk(c, rank, id, k, f[k]) <==> FieldAccepted(c, rank, id, k, f[k])
    {
      FieldIff(c, rank, id, k, f[k]);
    }
    forall k: string
      ensures k in s.properties ==> Resolved(c.g, s.properties[k])
      ensures Excused(c, s, k) <==> MayBeMissing(c, s, k)
    {
      FieldIff(c, rank, id, k, Null);
    }
    assert Valid(c, rank, id, Obj(f)) <==> SetOperationsOk(c, rank, id, Obj(f)) && ShapeOk(c, rank, id, Obj(f));
  }

  // Combinators

  /** A oneOf alternative that counts: it accepts the value and, if there is a discriminator, is the one it names. */
  ghost predicate Counts(c: Context, rank: Rank, id: Id, v: Json, i: nat)
    requires WellFounded(c.g, rank) && id in c.g && i < |c.g[id].oneOf|
  {
    Accepted(c, rank, c.g[id].oneOf[i], v) && NamedByDiscriminator(c.g[id], v, c.g[id].oneOf[i].ref)
  }

  /** The value is an object whose discriminating property is a string that the mapping sends to `ref`. */
  ghost predicate NamedByDiscriminator(s: Schema, v: Json, ref: string) {
    s.discriminator.Some? ==>
      var d := s.discriminator.value;
      && v.Obj? && d.propertyName in v.fields
      && exists name | name in d.mapping :: v.fields[d.propertyName] == Str(name) && d.mapping[name] == ref
  }

  lemma DiscriminatorIff(s: Schema, r: SchemaRef, v: Json)
    ensures Discriminates(s, r, v) <==> NamedByDiscriminator(s, v, r.ref)
  {}

  lemma CountsIff(c: Context, rank: Rank, id: Id, v: Json, i: nat)
    requires WellFounded(c.g, rank) && id in c.g && i < |c.g[id].oneOf|
    ensures Counts(c, rank, id, v, i) <==> Chosen(c, rank, id, i, v)
  {
    hide Valid, Discriminates, NamedByDiscriminator;
    var r := c.g[id].oneOf[i];
    assert Combines(c.g[id], r);
    DiscriminatorIff(c.g[id], r, v);
  }

  /** Of the first `n` alternatives this one counts and no other. */
  ghost predicate OnlyOne(c: Context, rank: Rank, id: Id, v: Json, n: nat, i: nat)
    requires WellFounded(c.g, rank) && id in c.g && i < n <= |c.g[id].oneOf|
  {
    Counts(c, rank, id, v, i) && forall j | 0 <= j < n && j != i :: !Counts(c, rank, id, v, j)
  }

  lemma {:induction false} OneChosen(c: Context, rank: Rank, id: Id, v: Json, n: nat)
    requires WellFounded(c.g, rank) && id in c.g && n <= |c.g[id].oneOf|
    ensures ChosenAmong(c, rank, id, v, n) == 0 <==> forall i | 0 <= i < n :: !Counts(c, rank, id, v, i)
    ensures ChosenAmong(c, rank, id, v, n) == 1 <==> exists i :: 0 <= i < n && OnlyOne(c, rank, id, v, n, i)
  {
    hide Chosen, WellFounded, ChosenAmong, Counts;
    if n == 0 {
      NoneOfNoneChosen(c, rank, id, v);
    } else {
      OneChosen(c, rank, id, v, n - 1);
      OneMoreChosen(c, rank, id, v, n - 1);
      CountsIff(c, rank, id, v, n - 1);
      if Counts(c, rank, id, v, n - 1) {
        assert OnlyOne(c, rank, id, v, n, n - 1) <==> forall i | 0 <= i < n - 1 :: !Counts(c, rank, id, v, i);
      } else {
        OneOfFewer(c, rank, id, v, n, n - 1);
      }
    }
  }

  lemma OneOfFewer(c: Context, rank: Rank, id: Id, v: Json, n: nat, m: nat)
    requires WellFounded(c.g, rank) && id in c.g && m + 1 == n <= |c.g[id].oneOf| && !Counts(c, rank, id, v, m)
    ensures (exists i :: 0 <= i < n && OnlyOne(c, rank, id, v, n, i)) <==>
            (exists i :: 0 <= i < m && OnlyOne(c, rank, id, v, m, i))
  {
    hide WellFounded, Counts;
    forall i | 0 <= i < n && OnlyOne(c, rank, id, v, n, i)
      ensures i < m && OnlyOne(c, rank, id, v, m, i)
    {}
    forall i | 0 <= i < m && OnlyOne(c, rank, id, v, m, i)
      ensures OnlyOne(c, rank, id, v, n, i)
    {}
  }

  lemma NoneOfNoneChosen(c: Context, rank: Rank, id: Id, v: Json)
    requires WellFounded(c.g, rank) && id in c.g
    ensures ChosenAmong(c, rank, id, v, 0) == 0
  {}

  /** An enum settles the matter; otherwise all of not, oneOf, anyOf and allOf have to agree. */
  lemma CombinatorsIff(c: Context, rank: Rank, id: Id, v: Json)
    requires WellFounded(c.g, rank) && id in c.g
    ensures var s := c.g[id];
            SetOperationsOk(c, rank, id, v) <==>
              if s.enum != [] then v in s.enum
              else
                && (s.negated.Some? ==> !Accepted(c, rank, s.negated.value, v))
                && (s.oneOf != [] ==> exists i :: 0 <= i < |s.oneOf| && OnlyOne(c, rank, id, v, |s.oneOf|, i))
                && (s.anyOf != [] ==> exists i :: 0 <= i < |s.anyOf| && Accepted(c, rank, s.anyOf[i], v))
                && (forall i | 0 <= i < |s.allOf| :: Accepted(c, rank, s.allOf[i], v))
  {
    hide Chosen, Counts, ChosenAmong, OnlyOne, Accepted, PartValid, WellFounded;
    var s := c.g[id];
    OneChosen(c, rank, id, v, |s.oneOf|);
    forall r | Combines(s, r)
      ensures PartValid(c, rank, id, r, v) <==> Accepted(c, rank, r, v)
    {
      PartIff(c, rank, id, r, v);
    }
    assert forall i | 0 <= i < |s.anyOf| :: Combines(s, s.anyOf[i]);
    assert forall i | 0 <= i < |s.allOf| :: Combines(s, s.allOf[i]);
  }

  lemma PartIff(c: Context, rank: Rank, id: Id, r: SchemaRef, v: Json)
    requires WellFounded(c.g, rank) && id in c.g && Combines(c.g[id], r)
    ensures PartValid(c, rank, id, r, v) <==> Accepted(c, rank, r, v)
  {
    hide Valid;
  }
}
