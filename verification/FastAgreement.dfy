/** On which values the visitor for fast-parsed values agrees with the other one. */
module FastAgreement {
  import opened Options
  import opened Schemas
  import opened SchemaVerdict
  import opened FastVerdict
  import opened SchemaEmpty
  import opened VerdictAgreement

  /** Schemas, each with the flag as it is when the visitor comes to it, and the value that it comes with. */
  type Visits = set<(Id, bool, Fast)>

  ghost predicate ComesTo(at: Visits, r: SchemaRef, flag: bool, f: Fast) {
    r.value.Some? ==> (r.value.value, flag, f) in at
  }

  /** The schema that a field of this name is visited with, if there is one. */
  function FieldSchema(s: Schema, k: string): Option<SchemaRef> {
    if k in s.properties then Some(s.properties[k]) else s.additionalProperties
  }

  /** Combinators overwrite the flag; with an enum there is no need to look at them. */
  ghost predicate Combining(at: Visits, s: Schema, f: Fast) {
    s.enum == [] ==>
      && (forall r | r in s.oneOf || r in s.anyOf || r in Listed(s.negated) :: ComesTo(at, r, true, f))
      && (forall r <- s.allOf :: ComesTo(at, r, false, f))
  }

  /** Items and fields inherit the flag. */
  ghost predicate Entering(at: Visits, s: Schema, flag: bool, f: Fast) {
    && (f.FastArr? && s.items.Some? ==> forall i | 0 <= i < |f.items| :: ComesTo(at, s.items.value, flag, f.items[i]))
    && (f.FastObj? ==>
          forall i | 0 <= i < |f.fields| && FieldSchema(s, f.fields[i].0).Some? ::
            ComesTo(at, FieldSchema(s, f.fields[i].0).value, flag, f.fields[i].1))
  }

  /** The visits contain all that follow from them. */
  ghost predicate Complete(c: Context, at: Visits) {
    forall x <- at ::
      && x.0 in c.g
      && (x.0 in c.empty || (Combining(at, c.g[x.0], x.2) && Entering(at, c.g[x.0], x.1, x.2)))
  }

  /** No schema that closes its objects is visited with the flag off and an object with an undeclared field. */
  ghost predicate MeetsOnlyDeclared(c: Context, at: Visits) {
    forall x | x in at && x.0 in c.g && x.0 !in c.empty && Closes(c.g[x.0]) :: x.1 || AllDeclared(c.g[x.0], x.2)
  }

  ghost predicate AllDeclared(s: Schema, f: Fast) {
    f.FastObj? ==> !HasUndeclared(s, f)
  }

  ghost predicate Met(c: Context, rank: Rank, at: Visits, id: Id, flag: bool, f: Fast) {
    WellFounded(c.g, rank) && Complete(c, at) && MeetsOnlyDeclared(c, at) && (id, flag, f) in at
  }

  lemma MetAt(c: Context, rank: Rank, at: Visits, id: Id, flag: bool, f: Fast)
    requires Met(c, rank, at, id, flag, f)
    ensures WellFounded(c.g, rank) && id in c.g && id in rank
    ensures id !in c.empty ==> Combining(at, c.g[id], f) && Entering(at, c.g[id], flag, f)
    ensures id !in c.empty && Closes(c.g[id]) && !flag ==> AllDeclared(c.g[id], f)
  {
    hide Combining, Entering, AllDeclared;
    var x := (id, flag, f);
    assert x.0 == id && x.1 == flag && x.2 == f;
  }

  lemma ReferenceMet(c: Context, rank: Rank, at: Visits, id: Id, flag: bool, f: Fast, r: SchemaRef, b: bool, g: Fast)
    requires Met(c, rank, at, id, flag, f) && id in c.g && Refers(c.g[id], r) && ComesTo(at, r, b, g)
    ensures Resolved(c.g, r) && Met(c, rank, at, Target(c.g, r), b, g)
  {
    hide Complete, MeetsOnlyDeclared, Refers;
    ReferredIsResolved(c.g, rank, id, r);
  }

  /** On such values it makes no difference to the fast visitor whether errors are collected. */
  lemma {:induction false} CollectingChangesNothing(c: Context, rank: Rank, at: Visits, id: Id, flag: bool, f: Fast)
    requires Met(c, rank, at, id, flag, f)
    ensures WellFounded(c.g, rank) && id in c.g
    ensures FastValid(c, rank, id, f, Mode(flag, false)) <==> FastValid(c, rank, id, f, Mode(flag, true))
    decreases f, rank[id], 3
  {
    hide FastSetOperationsOk, FastShapeOk, Met, WellFounded, Combining, Entering;
    MetAt(c, rank, at, id, flag, f);
    if id !in c.empty {
      SameSetOperations(c, rank, at, id, flag, f);
      SameShape(c, rank, at, id, flag, f);
    }
  }

  lemma {:induction false} SamePart(c: Context, rank: Rank, at: Visits, id: Id, flag: bool, f: Fast, r: SchemaRef,
                                    b: bool)
    requires Met(c, rank, at, id, flag, f) && id in c.g && Combines(c.g[id], r) && ComesTo(at, r, b, f)
    ensures WellFounded(c.g, rank)
    ensures FastPart(c, rank, id, r, f, Mode(b, false)) <==> FastPart(c, rank, id, r, f, Mode(b, true))
    decreases f, rank[id], 0
  {
    hide FastValid, Complete, MeetsOnlyDeclared, ComesTo;
    assert Refers(c.g[id], r);
    ReferenceMet(c, rank, at, id, flag, f, r, b, f);
    CollectingChangesNothing(c, rank, at, Target(c.g, r), b, f);
  }

  lemma {:induction false} SameSetOperations(c: Context, rank: Rank, at: Visits, id: Id, flag: bool, f: Fast)
    requires Met(c, rank, at, id, flag, f) && id in c.g && id !in c.empty
    ensures WellFounded(c.g, rank)
    ensures FastSetOperationsOk(c, rank, id, f, Mode(flag, false))
       <==> FastSetOperationsOk(c, rank, id, f, Mode(flag, true))
    decreases f, rank[id], 2
  {
    hide FastPart, Met, WellFounded, ComesTo, Entering, FastNotOk, FastOneOfOk, FastAnyOfOk, FastAllOfOk;
    MetAt(c, rank, at, id, flag, f);
    var s := c.g[id];
    if s.enum == [] {
      forall r | r in s.oneOf || r in s.anyOf || r in Listed(s.negated)
        ensures Combines(s, r)
        ensures FastPart(c, rank, id, r, f, Mode(true, false)) <==> FastPart(c, rank, id, r, f, Mode(true, true))
      {
        SamePart(c, rank, at, id, flag, f, r, true);
      }
      forall r <- s.allOf
        ensures Combines(s, r)
        ensures FastPart(c, rank, id, r, f, Mode(false, false)) <==> FastPart(c, rank, id, r, f, Mode(false, true))
      {
        SamePart(c, rank, at, id, flag, f, r, false);
      }
      SameNotAndOneOf(c, rank, id, flag, f);
      SameAnyOfAndAllOf(c, rank, id, flag, f);
    }
  }

  lemma SameNotAndOneOf(c: Context, rank: Rank, id: Id, flag: bool, f: Fast)
    requires WellFounded(c.g, rank) && id in c.g
    requires forall r | r in c.g[id].oneOf || r in Listed(c.g[id].negated) ::
               && Combines(c.g[id], r)
               && (FastPart(c, rank, id, r, f, Mode(true, false)) <==> FastPart(c, rank, id, r, f, Mode(true, true)))
    ensures FastNotOk(c, rank, id, f, Mode(flag, false)) <==> FastNotOk(c, rank, id, f, Mode(flag, true))
    ensures FastOneOfOk(c, rank, id, f, Mode(flag, false)) <==> FastOneOfOk(c, rank, id, f, Mode(flag, true))
  {
    hide FastPart, WellFounded, FastChosenAmong, FastDiscriminates, Combines;
    var s := c.g[id];
    forall i | 0 <= i < |s.oneOf|
      ensures FastChosen(c, rank, id, i, f, Mode(flag, false)) <==> FastChosen(c, rank, id, i, f, Mode(flag, true))
    {
      assert s.oneOf[i] in s.oneOf;
    }
    SameCount(c, rank, id, flag, f, |s.oneOf|);
    if s.negated.Some? {
      assert s.negated.value in Listed(s.negated);
    }
  }

  lemma {:induction false} SameCount(c: Context, rank: Rank, id: Id, flag: bool, f: Fast, n: nat)
    requires WellFounded(c.g, rank) && id in c.g && n <= |c.g[id].oneOf|
    requires forall i | 0 <= i < n ::
               FastChosen(c, rank, id, i, f, Mode(flag, false)) <==> FastChosen(c, rank, id, i, f, Mode(flag, true))
    ensures FastChosenAmong(c, rank, id, f, Mode(flag, false), n)
         == FastChosenAmong(c, rank, id, f, Mode(flag, true), n)
  {
    hide FastChosen, WellFounded;
    if n > 0 {
      SameCount(c, rank, id, flag, f, n - 1);
      OneMoreFastChosen(c, rank, id, f, Mode(flag, false), n - 1);
      OneMoreFastChosen(c, rank, id, f, Mode(flag, true), n - 1);
    }
  }

  lemma SameAnyOfAndAllOf(c: Context, rank: Rank, id: Id, flag: bool, f: Fast)
    requires WellFounded(c.g, rank) && id in c.g
    requires forall r <- c.g[id].anyOf ::
               && Combines(c.g[id], r)
               && (FastPart(c, rank, id, r, f, Mode(true, false)) <==> FastPart(c, rank, id, r, f, Mode(true, true)))
    requires forall r <- c.g[id].allOf ::
               && Combines(c.g[id], r)
               && (FastPart(c, rank, id, r, f, Mode(false, false)) <==> FastPart(c, rank, id, r, f, Mode(false, true)))
    ensures FastAnyOfOk(c, rank, id, f, Mode(flag, false)) <==> FastAnyOfOk(c, rank, id, f, Mode(flag, true))
    ensures FastAllOfOk(c, rank, id, f, Mode(flag, false)) <==> FastAllOfOk(c, rank, id, f, Mode(flag, true))
  {
    hide FastPart, WellFounded, Combines;
    var s := c.g[id];
    assert forall i | 0 <= i < |s.anyOf| :: s.anyOf[i] in s.anyOf;
    assert forall i | 0 <= i < |s.allOf| :: s.allOf[i] in s.allOf;
  }

  lemma {:induction false} SameShape(c: Context, rank: Rank, at: Visits, id: Id, flag: bool, f: Fast)
    requires Met(c, rank, at, id, flag, f) && id in c.g && id !in c.empty
    ensures WellFounded(c.g, rank)
    ensures FastShapeOk(c, rank, id, f, Mode(flag, false)) <==> FastShapeOk(c, rank, id, f, Mode(flag, true))
    decreases f, rank[id], 1
  {
    hide FastValid, FastFieldOk, Met, ComesTo, Refers, Combining, AllDeclared, FieldSchema;
    MetAt(c, rank, at, id, flag, f);
    var s := c.g[id];
    if f.FastArr? && s.items.Some? {
      assert Refers(s, s.items.value) by { ItemsAreReferred(s); }
      forall i | 0 <= i < |f.items|
        ensures Resolved(c.g, s.items.value)
        ensures FastValid(c, rank, Target(c.g, s.items.value), f.items[i], Mode(flag, false))
           <==> FastValid(c, rank, Target(c.g, s.items.value), f.items[i], Mode(flag, true))
      {
        ReferenceMet(c, rank, at, id, flag, f, s.items.value, flag, f.items[i]);
        CollectingChangesNothing(c, rank, at, Target(c.g, s.items.value), flag, f.items[i]);
      }
    }
    if f.FastObj? {
      forall i | 0 <= i < |f.fields|
        ensures FastFieldOk(c, rank, id, f.fields[i].0, f.fields[i].1, Mode(flag, false))
           <==> FastFieldOk(c, rank, id, f.fields[i].0, f.fields[i].1, Mode(flag, true))
      {
        SameField(c, rank, at, id, flag, f, i);
      }
    }
  }

  lemma {:induction false} SameField(c: Context, rank: Rank, at: Visits, id: Id, flag: bool, f: Fast, i: nat)
    requires Met(c, rank, at, id, flag, f) && id in c.g && id !in c.empty && f.FastObj? && i < |f.fields|
    ensures WellFounded(c.g, rank)
    ensures FastFieldOk(c, rank, id, f.fields[i].0, f.fields[i].1, Mode(flag, false))
       <==> FastFieldOk(c, rank, id, f.fields[i].0, f.fields[i].1, Mode(flag, true))
    decreases f, rank[id], 0
  {
    hide FastValid, Met, WellFounded, ComesTo, Combining;
    MetAt(c, rank, at, id, flag, f);
    var s, k, g := c.g[id], f.fields[i].0, f.fields[i].1;
    assert f.fields[i] in f.fields && g < f;
    if FieldSchema(s, k).Some? {
      var r := FieldSchema(s, k).value;
      assert k in s.properties ==> s.properties[k] in s.properties.Values;
      ReferenceMet(c, rank, at, id, flag, f, r, flag, g);
      CollectingChangesNothing(c, rank, at, Target(c.g, r), flag, g);
    }
  }

  function Everywhere(g: map<Id, Schema>): (at: Positions)
    ensures forall x <- at :: x.0 in g
    ensures forall id, flag: bool | id in g :: (id, flag) in at
  {
    (set id | id in g :: (id, true)) + (set id | id in g :: (id, false))
  }

  lemma EverywhereIsVisited(g: map<Id, Schema>, rank: Rank)
    requires WellFounded(g, rank)
    ensures Visited(g, Everywhere(g))
  {
    hide WellFounded, Refers;
    forall id, r | id in g && Refers(g[id], r)
      ensures Resolved(g, r)
    {
      ReferredIsResolved(g, rank, id, r);
    }
    forall x <- Everywhere(g)
      ensures GoesOn(Everywhere(g), g[x.0], x.1)
    {
      EverywhereGoesOn(g, x.0, x.1);
    }
  }

  lemma EverywhereGoesOn(g: map<Id, Schema>, id: Id, flag: bool)
    requires id in g && forall r | Refers(g[id], r) :: Resolved(g, r)
    ensures GoesOn(Everywhere(g), g[id], flag)
  {
    hide Everywhere;
    forall r, b: bool | Refers(g[id], r)
      ensures LeadsTo(Everywhere(g), r, b)
    {
      assert Resolved(g, r);
    }
  }

  /**
   The two visitors agree on a value: always when errors are collected, and otherwise if no schema that closes its
   objects by a bare `additionalProperties: false` is visited with the flag off and an object that has an
   undeclared field. So they agree on every value that keeps to the declared properties.
   */
  lemma FastAgrees(c: Context, rank: Rank, id: Id, f: Fast, mode: Mode, at: Visits)
    requires Comparable(c, rank, id, f)
    requires mode.multiError || (Complete(c, at) && MeetsOnlyDeclared(c, at) && (id, mode.failfast, f) in at)
    ensures FastValid(c, rank, id, f, mode) <==> Valid(c, rank, id, Decode(f))
  {
    hide WellFounded, FastValid, Valid, SeenAlike, Plain, Complete, MeetsOnlyDeclared, Visited, Everywhere;
    if !mode.multiError {
      CollectingChangesNothing(c, rank, at, id, mode.failfast, f);
    }
    EverywhereIsVisited(c.g, rank);
    FastAgreesOnEveryValue(c, rank, id, f, Mode(mode.failfast, true), Everywhere(c.g));
  }
}
