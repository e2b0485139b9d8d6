/** IsEmpty, and what the short cut it allows does to verdicts. */
module SchemaEmpty {
  import opened Options
  import opened Schemas
  import opened SchemaVerdict

  predicate EmptyRef(empty: set<Id>, r: SchemaRef) {
    r.value.Some? && r.value.value in empty
  }

  /** The body of IsEmpty, given its answers for the schemas referred to. */
  ghost predicate IsEmptyBody(s: Schema, empty: set<Id>) {
    && s.typ == "" && s.format == "" && s.enum == []
    && !s.uniqueItems && !s.exclusiveMin && !s.exclusiveMax
    && !s.nullable && !s.readOnly && !s.writeOnly && !s.allowEmptyValue
    && s.min == None && s.max == None && s.multipleOf == None
    && s.minLength == 0 && s.maxLength == None && s.pattern == ""
    && s.minItems == 0 && s.maxItems == None
    && s.required == [] && s.minProps == 0 && s.maxProps == None
    && (s.negated.Some? ==> EmptyRef(empty, s.negated.value))
    && (s.additionalProperties.Some? ==> EmptyRef(empty, s.additionalProperties.value))
    && s.additionalPropertiesAllowed != Some(false)
    && (s.items.Some? ==> EmptyRef(empty, s.items.value))
    && (forall k <- s.properties :: EmptyRef(empty, s.properties[k]))
    && (forall r <- s.oneOf :: EmptyRef(empty, r))
    && (forall r <- s.anyOf :: EmptyRef(empty, r))
    && (forall r <- s.allOf :: EmptyRef(empty, r))
  }

  /** A schema without its references, and without what IsEmpty does not look at. */
  function Unset(s: Schema): Schema {
    s.(oneOf := [], anyOf := [], allOf := [], negated := None, items := None, properties := map[],
       additionalProperties := None, additionalPropertiesAllowed := None, discriminator := None)
  }

  /** IsEmpty holds exactly if nothing else is set, objects are not closed, and all schemas referred to are empty. */
  lemma IsEmptyIff(s: Schema, empty: set<Id>)
    ensures IsEmptyBody(s, empty) <==>
              && Unset(s) == BLANK && s.additionalPropertiesAllowed != Some(false)
              && forall r | Refers(s, r) :: r.value.Some? && r.value.value in empty
  {
    if forall r | Refers(s, r) :: r.value.Some? && r.value.value in empty {
      assert s.negated.Some? ==> Refers(s, s.negated.value);
      assert s.items.Some? ==> Refers(s, s.items.value);
      assert s.additionalProperties.Some? ==> Refers(s, s.additionalProperties.value);
      assert forall k <- s.properties :: Refers(s, s.properties[k]);
      assert forall r <- s.oneOf :: Refers(s, r);
      assert forall r <- s.anyOf :: Refers(s, r);
      assert forall r <- s.allOf :: Refers(s, r);
    }
  }

  /** The answers are what a terminating run of IsEmpty gives: they satisfy its recursion. */
  ghost predicate AnswersIsEmpty(c: Context) {
    forall id <- c.g :: id in c.empty <==> IsEmptyBody(c.g[id], c.empty)
  }

  /** The references of these schemas lead to these schemas. */
  ghost predicate Closed(g: map<Id, Schema>, within: set<Id>) {
    forall id <- within :: id in g && forall r | Refers(g[id], r) && r.value.Some? :: r.value.value in within
  }

  /** The short cut is taken for schemas that IsEmpty calls empty, if not for all of them. */
  ghost predicate OnlyEmpty(c: Context, within: set<Id>) {
    forall id | id in c.empty && id in within :: id in c.g && IsEmptyBody(c.g[id], c.empty)
  }

  /** An empty schema has no `not`, and of oneOf at most a single alternative without a discriminator. */
  ghost predicate Harmless(c: Context, within: set<Id>) {
    forall id | id in c.empty && id in within && id in c.g :: HarmlessSchema(c.g[id])
  }

  predicate HarmlessSchema(s: Schema) {
    s.negated == None && (s.oneOf == [] || (|s.oneOf| == 1 && s.discriminator == None))
  }

  predicate NullFree(v: Json) {
    match v
    case Null => false
    case Arr(xs) => forall i | 0 <= i < |xs| :: NullFree(xs[i])
    case Obj(f) => forall k <- f :: NullFree(f[k])
    case _ => true
  }

  function WithoutShortcut(c: Context): Context {
    c.(empty := {})
  }

  // An empty schema accepts everything, the long way too

  /** The schemas among which an empty one is to be visited the long way. */
  ghost predicate Region(c: Context, rank: Rank, within: set<Id>) {
    WellFounded(c.g, rank) && Closed(c.g, within) && OnlyEmpty(c, within) && Harmless(c, within)
  }

  lemma EmptyTarget(c: Context, rank: Rank, within: set<Id>, id: Id, r: SchemaRef)
    requires Region(c, rank, within) && id in within && id in c.empty && Refers(c.g[id], r)
    requires r !in Listed(c.g[id].negated)
    ensures Resolved(c.g, r) && Target(c.g, r) in within && Target(c.g, r) in c.empty
  {
    assert IsEmptyBody(c.g[id], c.empty);
    if r in c.g[id].properties.Values {
      var k :| k in c.g[id].properties && c.g[id].properties[k] == r;
      assert EmptyRef(c.empty, c.g[id].properties[k]);
    } else {
      assert EmptyRef(c.empty, r);
    }
  }

  lemma {:induction false} EmptyAccepts(c: Context, rank: Rank, within: set<Id>, id: Id, v: Json)
    requires Region(c, rank, within) && id in within && id in c.empty && NullFree(v)
    ensures id in c.g && Valid(WithoutShortcut(c), rank, id, v)
    decreases v, rank[id], 2
  {
    hide Valid, PartValid, FieldOk, Refers, OnlyEmpty, Harmless;
    EmptyBody(c, rank, within, id);
    var d, s := WithoutShortcut(c), c.g[id];
    EmptyPartsAccept(c, rank, within, id, v);
    if v.Arr? && s.items.Some? {
      ItemsAreReferred(s);
      EmptyTarget(c, rank, within, id, s.items.value);
      forall i | 0 <= i < |v.items|
        ensures Valid(d, rank, Target(c.g, s.items.value), v.items[i])
      {
        EmptyAccepts(c, rank, within, Target(c.g, s.items.value), v.items[i]);
      }
    }
    if v.Obj? {
      forall k | k in v.fields
        ensures FieldOk(d, rank, id, k, v.fields[k])
      {
        EmptyFieldAccepts(c, rank, within, id, v, k);
      }
    }
    EmptyShape(c, rank, id, v);
  }

  lemma EmptyBody(c: Context, rank: Rank, within: set<Id>, id: Id)
    requires Region(c, rank, within) && id in within && id in c.empty
    ensures id in c.g && IsEmptyBody(c.g[id], c.empty) && HarmlessSchema(c.g[id])
  {}

  lemma ItemsAreReferred(s: Schema)
    ensures s.items.Some? ==> Refers(s, s.items.value) && (s.negated.None? ==> s.items.value !in Listed(s.negated))
  {}

  lemma EmptyShape(c: Context, rank: Rank, id: Id, v: Json)
    requires WellFounded(c.g, rank) && id in c.g && !v.Null? && IsEmptyBody(c.g[id], c.empty)
    requires var d := WithoutShortcut(c); SetOperationsOk(d, rank, id, v)
    requires var d, s := WithoutShortcut(c), c.g[id];
             && (v.Arr? && s.items.Some? ==>
                   forall i | 0 <= i < |v.items| :: Valid(d, rank, Target(c.g, s.items.value), v.items[i]))
             && (v.Obj? ==> forall k | k in v.fields :: FieldOk(d, rank, id, k, v.fields[k]))
    ensures Valid(WithoutShortcut(c), rank, id, v)
  {}

  lemma {:induction false} EmptyPartAccepts(c: Context, rank: Rank, within: set<Id>, id: Id, r: SchemaRef, v: Json)
    requires Region(c, rank, within) && id in within && id in c.empty && NullFree(v)
    requires r in c.g[id].oneOf || r in c.g[id].anyOf || r in c.g[id].allOf
    ensures Combines(c.g[id], r) && PartValid(WithoutShortcut(c), rank, id, r, v)
    decreases v, rank[id], 0
  {
    hide Valid, NullFree;
    EmptyBody(c, rank, within, id);
    assert EmptyRef(c.empty, r);
    EmptyTarget(c, rank, within, id, r);
    EmptyAccepts(c, rank, within, Target(c.g, r), v);
  }

  lemma {:induction false} EmptyPartsAccept(c: Context, rank: Rank, within: set<Id>, id: Id, v: Json)
    requires Region(c, rank, within) && id in within && id in c.empty && NullFree(v)
    ensures id in c.g && SetOperationsOk(WithoutShortcut(c), rank, id, v)
    decreases v, rank[id], 1
  {
    hide NullFree, EmptyRef, Region, PartValid;
    EmptyBody(c, rank, within, id);
    assert WellFounded(c.g, rank) by { RegionIsWellFounded(c, rank, within); }
    var d, s := WithoutShortcut(c), c.g[id];
    forall r | r in s.oneOf || r in s.anyOf || r in s.allOf
      ensures Combines(s, r) && PartValid(d, rank, id, r, v)
    {
      EmptyPartAccepts(c, rank, within, id, r, v);
    }
    PartsSuffice(d, rank, id, v);
  }

  lemma RegionIsWellFounded(c: Context, rank: Rank, within: set<Id>)
    requires Region(c, rank, within)
    ensures WellFounded(c.g, rank)
  {}

  lemma PartsSuffice(d: Context, rank: Rank, id: Id, v: Json)
    requires WellFounded(d.g, rank) && id in d.g && d.g[id].enum == [] && HarmlessSchema(d.g[id])
    requires forall r | r in d.g[id].oneOf || r in d.g[id].anyOf || r in d.g[id].allOf ::
               Combines(d.g[id], r) && PartValid(d, rank, id, r, v)
    ensures SetOperationsOk(d, rank, id, v)
  {
    hide PartValid, WellFounded;
    var s := d.g[id];
    if s.oneOf != [] {
      assert s.oneOf[0] in s.oneOf;
      assert Chosen(d, rank, id, 0, v);
      OneMoreChosen(d, rank, id, v, 0);
    }
    if s.anyOf != [] {
      assert s.anyOf[0] in s.anyOf;
      assert PartValid(d, rank, id, s.anyOf[0], v);
    }
    forall i | 0 <= i < |s.allOf|
      ensures PartValid(d, rank, id, s.allOf[i], v)
    {
      assert s.allOf[i] in s.allOf;
    }
    assert NotOk(d, rank, id, v) && OneOfOk(d, rank, id, v) && AnyOfOk(d, rank, id, v) && AllOfOk(d, rank, id, v);
  }

  lemma {:induction false} EmptyFieldAccepts(c: Context, rank: Rank, within: set<Id>, id: Id, v: Json, k: string)
    requires Region(c, rank, within) && id in within && id in c.empty && v.Obj? && k in v.fields && NullFree(v)
    ensures id in c.g && FieldOk(WithoutShortcut(c), rank, id, k, v.fields[k])
    decreases v, rank[id], 0
  {
    hide Valid, Refers;
    EmptyBody(c, rank, within, id);
    var s := c.g[id];
    FieldsAreReferred(s, k);
    if k in s.properties {
      EmptyTarget(c, rank, within, id, s.properties[k]);
      EmptyAccepts(c, rank, within, Target(c.g, s.properties[k]), v.fields[k]);
    } else if s.additionalProperties.Some? {
      EmptyTarget(c, rank, within, id, s.additionalProperties.value);
      EmptyAccepts(c, rank, within, Target(c.g, s.additionalProperties.value), v.fields[k]);
    }
  }

  lemma FieldsAreReferred(s: Schema, k: string)
    requires s.negated.None?
    ensures k in s.properties ==> Refers(s, s.properties[k]) && s.properties[k] !in Listed(s.negated)
    ensures s.additionalProperties.Some? ==>
              Refers(s, s.additionalProperties.value) && s.additionalProperties.value !in Listed(s.negated)
  {}

  // And a schema that is not harmless rejects `true` the long way

  lemma HarmfulRejects(c: Context, rank: Rank, within: set<Id>, id: Id)
    requires WellFounded(c.g, rank) && Closed(c.g, within) && id in within && id in c.g && id in c.empty
    requires IsEmptyBody(c.g[id], c.empty) && !HarmlessSchema(c.g[id])
    requires forall x | x in within && x in c.g && x in c.empty :: Valid(WithoutShortcut(c), rank, x, Bool(true))
    ensures !Valid(WithoutShortcut(c), rank, id, Bool(true))
  {
    hide WellFounded, Valid;
    var d, s, v := WithoutShortcut(c), c.g[id], Bool(true);
    forall r | r in s.oneOf || s.negated == Some(r)
      ensures Combines(s, r) && PartValid(d, rank, id, r, v)
    {
      EmptyPartRef(c, rank, within, id, r);
    }
    if s.negated.Some? {
      assert !NotOk(d, rank, id, v);
    } else {
      forall i | 0 <= i < |s.oneOf|
        ensures Chosen(d, rank, id, i, v) <==> s.discriminator == None
      {
        assert s.oneOf[i] in s.oneOf;
      }
      AllOrNone(d, rank, id, v, |s.oneOf|);
      assert !OneOfOk(d, rank, id, v);
    }
    LongWay(d, rank, id, v);
  }

  lemma EmptyPartRef(c: Context, rank: Rank, within: set<Id>, id: Id, r: SchemaRef)
    requires WellFounded(c.g, rank) && Closed(c.g, within) && id in within && id in c.g && id in c.empty
    requires IsEmptyBody(c.g[id], c.empty)
    requires r in c.g[id].oneOf || c.g[id].negated == Some(r)
    requires forall x | x in within && x in c.g && x in c.empty :: Valid(WithoutShortcut(c), rank, x, Bool(true))
    ensures Combines(c.g[id], r) && PartValid(WithoutShortcut(c), rank, id, r, Bool(true))
  {
    hide Valid;
    assert EmptyRef(c.empty, r) && Refers(c.g[id], r);
  }

  lemma LongWay(d: Context, rank: Rank, id: Id, v: Json)
    requires WellFounded(d.g, rank) && id in d.g && id !in d.empty && d.g[id].enum == [] && !v.Null?
    requires !NotOk(d, rank, id, v) || !OneOfOk(d, rank, id, v)
    ensures !Valid(d, rank, id, v)
  {}

  lemma {:induction false} AllOrNone(d: Context, rank: Rank, id: Id, v: Json, n: nat)
    requires WellFounded(d.g, rank) && id in d.g && n <= |d.g[id].oneOf|
    requires forall i | 0 <= i < n :: Chosen(d, rank, id, i, v) <==> d.g[id].discriminator == None
    ensures ChosenAmong(d, rank, id, v, n) == if d.g[id].discriminator == None then n else 0
  {
    hide Chosen, WellFounded;
    if n > 0 {
      AllOrNone(d, rank, id, v, n - 1);
      OneMoreChosen(d, rank, id, v, n - 1);
    }
  }

  // The three kinds of schema that are not harmless

  const REF_0 := SchemaRef("", Some(0))

  /** Schema 0 is `{}`, schema 1 `not: {}`; 2 has two empty alternatives, 3 has one and a discriminator. */
  function ExcludedGraph(): map<Id, Schema> {
    map[0 := BLANK, 1 := BLANK.(negated := Some(REF_0)), 2 := BLANK.(oneOf := [REF_0, REF_0]),
        3 := BLANK.(oneOf := [REF_0], discriminator := Some(Discriminator("kind", map[])))]
  }

  lemma ExcludedGraphWellFounded(rank: Rank)
    requires rank == map[0 := 0, 1 := 1, 2 := 1, 3 := 1]
    ensures WellFounded(ExcludedGraph(), rank)
  {
    var g := ExcludedGraph();
    forall id | id in g ensures RefsResolved(g, g[id]) && Sane(g[id]) {
      assert id in {0, 1, 2, 3};
    }
    forall id, r | id in g && Combines(g[id], r) ensures Resolved(g, r) && rank[Target(g, r)] < rank[id] {
      assert r == REF_0;
    }
  }

  lemma ExcludedGraphAnswers(c: Context)
    requires c.g == ExcludedGraph() && c.empty == {0, 1, 2, 3}
    ensures AnswersIsEmpty(c)
  {
    assert EmptyRef(c.empty, REF_0);
    forall id | id in c.g ensures IsEmptyBody(c.g[id], c.empty) {
      assert id in {0, 1, 2, 3};
    }
  }

  /** IsEmpty is true of them, so they accept everything; without the short cut they accept nothing but null. */
  lemma ShortcutChangesNot(c: Context, rank: Rank, v: Json)
    requires c.g == ExcludedGraph() && c.empty == {0, 1, 2, 3} && rank == map[0 := 0, 1 := 1, 2 := 1, 3 := 1]
    requires v == Bool(true)
    ensures WellFounded(c.g, rank) && AnswersIsEmpty(c)
    ensures Valid(c, rank, 1, v) && !Valid(WithoutShortcut(c), rank, 1, v)
  {
    hide IsEmptyBody;
    ExcludedGraphWellFounded(rank);
    ExcludedGraphAnswers(c);
    var d := WithoutShortcut(c);
    AcceptsTrue(d, rank);
    assert Combines(c.g[1], REF_0) && PartValid(d, rank, 1, REF_0, v);
    assert !NotOk(d, rank, 1, v);
  }

  lemma ShortcutChangesOneOf(c: Context, rank: Rank, v: Json)
    requires c.g == ExcludedGraph() && c.empty == {0, 1, 2, 3} && rank == map[0 := 0, 1 := 1, 2 := 1, 3 := 1]
    requires v == Bool(true)
    ensures WellFounded(c.g, rank) && AnswersIsEmpty(c)
    ensures Valid(c, rank, 2, v) && !Valid(WithoutShortcut(c), rank, 2, v)
  {
    hide IsEmptyBody;
    ExcludedGraphWellFounded(rank);
    ExcludedGraphAnswers(c);
    var d := WithoutShortcut(c);
    AcceptsTrue(d, rank);
    assert d.g[2].oneOf == [REF_0, REF_0] && Combines(d.g[2], REF_0);
    assert PartValid(d, rank, 2, REF_0, v) && d.g[2].oneOf[0] == d.g[2].oneOf[1] == REF_0;
    assert d.g[2].discriminator == None;
    assert Chosen(d, rank, 2, 0, v) && Chosen(d, rank, 2, 1, v);
    OneMoreChosen(d, rank, 2, v, 0);
    OneMoreChosen(d, rank, 2, v, 1);
    assert !OneOfOk(d, rank, 2, v);
  }

  /** IsEmpty does not look at the discriminator, which the visit of a oneOf does. */
  lemma ShortcutChangesDiscriminator(c: Context, rank: Rank, v: Json)
    requires c.g == ExcludedGraph() && c.empty == {0, 1, 2, 3} && rank == map[0 := 0, 1 := 1, 2 := 1, 3 := 1]
    requires v == Bool(true)
    ensures WellFounded(c.g, rank) && AnswersIsEmpty(c)
    ensures Valid(c, rank, 3, v) && !Valid(WithoutShortcut(c), rank, 3, v)
  {
    hide IsEmptyBody;
    ExcludedGraphWellFounded(rank);
    ExcludedGraphAnswers(c);
    var d := WithoutShortcut(c);
    assert d.g[3].oneOf == [REF_0] && Combines(d.g[3], REF_0) && d.g[3].discriminator.Some?;
    assert !Chosen(d, rank, 3, 0, v);
    OneMoreChosen(d, rank, 3, v, 0);
    assert !OneOfOk(d, rank, 3, v);
  }

  lemma AcceptsTrue(d: Context, rank: Rank)
    requires WellFounded(d.g, rank) && 0 in d.g && d.g[0] == BLANK && d.empty == {}
    ensures Valid(d, rank, 0, Bool(true))
  {
    assert NotOk(d, rank, 0, Bool(true)) && OneOfOk(d, rank, 0, Bool(true));
    assert AnyOfOk(d, rank, 0, Bool(true)) && AllOfOk(d, rank, 0, Bool(true));
    assert SetOperationsOk(d, rank, 0, Bool(true)) && ShapeOk(d, rank, 0, Bool(true));
  }
}
