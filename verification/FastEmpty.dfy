/** What the short cut that IsEmpty allows does to the verdicts of the fast visitor. */
module FastEmpty {
  import opened Options
  import opened Schemas
  import opened SchemaEmpty
  import opened FastVerdict

  predicate FastNullFree(f: Fast) {
    match f
    case FastNull => false
    case FastArr(xs) => forall i | 0 <= i < |xs| :: FastNullFree(xs[i])
    case FastObj(fs) => forall i | 0 <= i < |fs| :: FastNullFree(fs[i].1)
    case _ => true
  }

  /** A schema of the region, and a value to be visited in any mode. */
  ghost predicate Inside(c: Context, rank: Rank, within: set<Id>, id: Id, f: Fast) {
    Region(c, rank, within) && id in within && FastNullFree(f)
  }

  lemma InsideAt(c: Context, rank: Rank, within: set<Id>, id: Id, f: Fast)
    requires Inside(c, rank, within, id, f)
    ensures WellFounded(c.g, rank) && id in c.g && id in rank && id in within && FastNullFree(f)
    ensures id in c.empty ==> IsEmptyBody(c.g[id], c.empty) && HarmlessSchema(c.g[id])
  {}

  lemma ReferredInside(c: Context, rank: Rank, within: set<Id>, id: Id, f: Fast, r: SchemaRef, g: Fast)
    requires Inside(c, rank, within, id, f) && id in c.g && Refers(c.g[id], r) && FastNullFree(g)
    ensures Resolved(c.g, r) && Inside(c, rank, within, Target(c.g, r), g)
  {
    hide Refers, IsEmptyBody, FastNullFree;
    assert RefsResolved(c.g, c.g[id]);
    IsResolved(c.g, rank, id, r);
  }

  lemma IsResolved(g: map<Id, Schema>, rank: Rank, id: Id, r: SchemaRef)
    requires WellFounded(g, rank) && id in g && Refers(g[id], r)
    ensures Resolved(g, r)
  {
    assert RefsResolved(g, g[id]);
  }

  lemma PartInside(c: Context, rank: Rank, within: set<Id>, id: Id, f: Fast, r: SchemaRef)
    requires Inside(c, rank, within, id, f) && id in c.g && Combines(c.g[id], r)
    ensures Resolved(c.g, r) && Inside(c, rank, within, Target(c.g, r), f)
    ensures Target(c.g, r) in rank && id in rank && rank[Target(c.g, r)] < rank[id]
  {
    hide IsEmptyBody, FastNullFree, Closed, OnlyEmpty, Harmless;
    ReferredInside(c, rank, within, id, f, r, f);
  }

  // An empty schema accepts everything, the long way too

  lemma {:induction false} EmptyAcceptsFast(c: Context, rank: Rank, within: set<Id>, id: Id, f: Fast, mode: Mode)
    requires Inside(c, rank, within, id, f) && id in c.empty
    ensures WellFounded(c.g, rank) && id in c.g && FastValid(WithoutShortcut(c), rank, id, f, mode)
    decreases f, rank[id], 2
  {
    hide FastValid, FastPart, FastFieldOk, Inside, WellFounded, FastSetOperationsOk;
    InsideAt(c, rank, within, id, f);
    var d, s := WithoutShortcut(c), c.g[id];
    EmptyPartsAcceptFast(c, rank, within, id, f, mode);
    if f.FastArr? && s.items.Some? {
      ItemsAreReferred(s);
      EmptyTarget(c, rank, within, id, s.items.value) by { InsideIsRegion(c, rank, within, id, f); }
      forall i | 0 <= i < |f.items|
        ensures FastValid(d, rank, Target(c.g, s.items.value), f.items[i], mode)
      {
        ReferredInside(c, rank, within, id, f, s.items.value, f.items[i]);
        EmptyAcceptsFast(c, rank, within, Target(c.g, s.items.value), f.items[i], mode);
      }
    }
    if f.FastObj? {
      forall i | 0 <= i < |f.fields|
        ensures FastFieldOk(d, rank, id, f.fields[i].0, f.fields[i].1, mode)
      {
        EmptyFieldAcceptsFast(c, rank, within, id, f, i, mode);
      }
    }
    EmptyFastShape(c, rank, id, f, mode);
  }

  lemma InsideIsRegion(c: Context, rank: Rank, within: set<Id>, id: Id, f: Fast)
    requires Inside(c, rank, within, id, f)
    ensures Region(c, rank, within)
  {}

  lemma EmptyFastShape(c: Context, rank: Rank, id: Id, f: Fast, mode: Mode)
    requires WellFounded(c.g, rank) && id in c.g && !f.FastNull? && IsEmptyBody(c.g[id], c.empty)
    requires FastSetOperationsOk(WithoutShortcut(c), rank, id, f, mode)
    requires f.FastArr? && c.g[id].items.Some? ==> forall i | 0 <= i < |f.items| ::
               FastValid(WithoutShortcut(c), rank, Target(c.g, c.g[id].items.value), f.items[i], mode)
    requires f.FastObj? ==> forall i | 0 <= i < |f.fields| ::
               FastFieldOk(WithoutShortcut(c), rank, id, f.fields[i].0, f.fields[i].1, mode)
    ensures FastValid(WithoutShortcut(c), rank, id, f, mode)
  {
    hide FastSetOperationsOk, FastFieldOk;
  }

  predicate Taken(s: Schema, r: SchemaRef) {
    r in s.oneOf || r in s.anyOf || r in s.allOf
  }

  /** The combined schema accepts with the flag on and with the flag off. */
  ghost predicate PartsAccept(d: Context, rank: Rank, id: Id, r: SchemaRef, f: Fast, mode: Mode)
    requires WellFounded(d.g, rank) && id in d.g
  {
    && Combines(d.g[id], r)
    && FastPart(d, rank, id, r, f, mode.(failfast := true)) && FastPart(d, rank, id, r, f, mode.(failfast := false))
  }

  lemma {:induction false} EmptyPartAcceptsFast(c: Context, rank: Rank, within: set<Id>, id: Id, r: SchemaRef, f: Fast,
                                                mode: Mode)
    requires Inside(c, rank, within, id, f) && id in c.empty && id in c.g
    requires Taken(c.g[id], r)
    ensures WellFounded(c.g, rank) && Combines(c.g[id], r) && FastPart(WithoutShortcut(c), rank, id, r, f, mode)
    decreases f, rank[id], 0
  {
    hide FastValid, Inside, WellFounded;
    InsideAt(c, rank, within, id, f);
    PartInside(c, rank, within, id, f, r);
    assert EmptyRef(c.empty, r);
    EmptyAcceptsFast(c, rank, within, Target(c.g, r), f, mode);
  }

  lemma {:induction false} EmptyPartsAcceptFast(c: Context, rank: Rank, within: set<Id>, id: Id, f: Fast, mode: Mode)
    requires Inside(c, rank, within, id, f) && id in c.empty
    ensures WellFounded(c.g, rank) && id in c.g && FastSetOperationsOk(WithoutShortcut(c), rank, id, f, mode)
    decreases f, rank[id], 1
  {
    hide Inside, FastPart, WellFounded, FastSetOperationsOk, EmptyRef;
    InsideAt(c, rank, within, id, f);
    var d, s := WithoutShortcut(c), c.g[id];
    forall r | Taken(s, r)
      ensures PartsAccept(d, rank, id, r, f, mode)
    {
      EmptyPartAcceptsFast(c, rank, within, id, r, f, mode.(failfast := true));
      EmptyPartAcceptsFast(c, rank, within, id, r, f, mode.(failfast := false));
    }
    FastPartsSuffice(d, rank, id, f, mode);
  }

  lemma FastPartsSuffice(d: Context, rank: Rank, id: Id, f: Fast, mode: Mode)
    requires WellFounded(d.g, rank) && id in d.g && d.g[id].enum == [] && HarmlessSchema(d.g[id])
    requires forall r | Taken(d.g[id], r) :: PartsAccept(d, rank, id, r, f, mode)
    ensures FastSetOperationsOk(d, rank, id, f, mode)
  {
    hide FastPart, WellFounded;
    var s := d.g[id];
    if s.oneOf != [] {
      assert Taken(s, s.oneOf[0]);
      assert FastChosen(d, rank, id, 0, f, mode);
      OneMoreFastChosen(d, rank, id, f, mode, 0);
    }
    if s.anyOf != [] {
      assert Taken(s, s.anyOf[0]);
      assert FastPart(d, rank, id, s.anyOf[0], f, mode.(failfast := true));
    }
    forall i | 0 <= i < |s.allOf|
      ensures FastPart(d, rank, id, s.allOf[i], f, mode.(failfast := false))
    {
      assert Taken(s, s.allOf[i]);
    }
    assert FastNotOk(d, rank, id, f, mode) && FastOneOfOk(d, rank, id, f, mode);
    assert FastAnyOfOk(d, rank, id, f, mode) && FastAllOfOk(d, rank, id, f, mode);
  }

  lemma {:induction false} EmptyFieldAcceptsFast(c: Context, rank: Rank, within: set<Id>, id: Id, f: Fast, i: nat,
                                                 mode: Mode)
    requires Inside(c, rank, within, id, f) && id in c.empty && f.FastObj? && i < |f.fields|
    ensures WellFounded(c.g, rank) && id in c.g
    ensures FastFieldOk(WithoutShortcut(c), rank, id, f.fields[i].0, f.fields[i].1, mode)
    decreases f, rank[id], 0
  {
    hide FastValid, Inside, WellFounded, Refers;
    InsideAt(c, rank, within, id, f);
    var s, k, g := c.g[id], f.fields[i].0, f.fields[i].1;
    assert f.fields[i] in f.fields && g < f;
    FieldsAreReferred(s, k);
    if k in s.properties || s.additionalProperties.Some? {
      var r := if k in s.properties then s.properties[k] else s.additionalProperties.value;
      EmptyTarget(c, rank, within, id, r) by { InsideIsRegion(c, rank, within, id, f); }
      ReferredInside(c, rank, within, id, f, r, g);
      EmptyAcceptsFast(c, rank, within, Target(c.g, r), g, mode);
    }
  }

  // So the short cut changes nothing where every empty schema is harmless

  lemma {:induction false} FastShortcutPreserves(c: Context, rank: Rank, within: set<Id>, id: Id, f: Fast, mode: Mode)
    requires Inside(c, rank, within, id, f)
    ensures WellFounded(c.g, rank) && id in c.g
    ensures FastValid(c, rank, id, f, mode) <==> FastValid(WithoutShortcut(c), rank, id, f, mode)
    decreases f, rank[id], 3
  {
    hide FastSetOperationsOk, FastShapeOk, Inside, WellFounded;
    InsideAt(c, rank, within, id, f);
    if id in c.empty {
      EmptyAcceptsFast(c, rank, within, id, f, mode);
    } else {
      forall r, m: Mode | Combines(c.g[id], r)
        ensures FastPart(c, rank, id, r, f, m) <==> FastPart(WithoutShortcut(c), rank, id, r, f, m)
      {
        PartPreserved(c, rank, within, id, r, f, m);
      }
      SetOperationsPreserved(c, rank, id, f, mode);
      ShapePreserved(c, rank, within, id, f, mode);
    }
  }

  lemma {:induction false} PartPreserved(c: Context, rank: Rank, within: set<Id>, id: Id, r: SchemaRef, f: Fast,
                                         mode: Mode)
    requires Inside(c, rank, within, id, f) && id in c.g && Combines(c.g[id], r)
    ensures WellFounded(c.g, rank)
    ensures FastPart(c, rank, id, r, f, mode) <==> FastPart(WithoutShortcut(c), rank, id, r, f, mode)
    decreases f, rank[id], 0
  {
    hide FastValid, Inside, WellFounded, Combines;
    InsideAt(c, rank, within, id, f);
    PartInside(c, rank, within, id, f, r);
    FastShortcutPreserves(c, rank, within, Target(c.g, r), f, mode);
  }

  lemma SetOperationsPreserved(c: Context, rank: Rank, id: Id, f: Fast, mode: Mode)
    requires WellFounded(c.g, rank) && id in c.g
    requires forall r, m: Mode | Combines(c.g[id], r) ::
               FastPart(c, rank, id, r, f, m) <==> FastPart(WithoutShortcut(c), rank, id, r, f, m)
    ensures FastSetOperationsOk(c, rank, id, f, mode) <==> FastSetOperationsOk(WithoutShortcut(c), rank, id, f, mode)
  {
    hide FastPart, WellFounded, FastNotOk, FastOneOfOk, FastAnyOfOk, FastAllOfOk;
    NotAndOneOfPreserved(c, rank, id, f, mode);
    AnyOfAndAllOfPreserved(c, rank, id, f, mode);
  }

  lemma NotAndOneOfPreserved(c: Context, rank: Rank, id: Id, f: Fast, mode: Mode)
    requires WellFounded(c.g, rank) && id in c.g
    requires forall r, m: Mode | Combines(c.g[id], r) ::
               FastPart(c, rank, id, r, f, m) <==> FastPart(WithoutShortcut(c), rank, id, r, f, m)
    ensures FastNotOk(c, rank, id, f, mode) <==> FastNotOk(WithoutShortcut(c), rank, id, f, mode)
    ensures FastOneOfOk(c, rank, id, f, mode) <==> FastOneOfOk(WithoutShortcut(c), rank, id, f, mode)
  {
    hide FastPart, WellFounded, FastChosenAmong, FastDiscriminates;
    var d, s := WithoutShortcut(c), c.g[id];
    forall i | 0 <= i < |s.oneOf|
      ensures FastChosen(c, rank, id, i, f, mode) <==> FastChosen(d, rank, id, i, f, mode)
    {
      assert Combines(s, s.oneOf[i]);
    }
    CountsPreserved(c, rank, id, f, mode, |s.oneOf|);
    if s.negated.Some? {
      assert Combines(s, s.negated.value);
    }
  }

  lemma AnyOfAndAllOfPreserved(c: Context, rank: Rank, id: Id, f: Fast, mode: Mode)
    requires WellFounded(c.g, rank) && id in c.g
    requires forall r, m: Mode | Combines(c.g[id], r) ::
               FastPart(c, rank, id, r, f, m) <==> FastPart(WithoutShortcut(c), rank, id, r, f, m)
    ensures FastAnyOfOk(c, rank, id, f, mode) <==> FastAnyOfOk(WithoutShortcut(c), rank, id, f, mode)
    ensures FastAllOfOk(c, rank, id, f, mode) <==> FastAllOfOk(WithoutShortcut(c), rank, id, f, mode)
  {
    hide FastPart, WellFounded;
    var d, s := WithoutShortcut(c), c.g[id];
    var on, off := mode.(failfast := true), mode.(failfast := false);
    forall i | 0 <= i < |s.anyOf|
      ensures FastPart(c, rank, id, s.anyOf[i], f, on) <==> FastPart(d, rank, id, s.anyOf[i], f, on)
    {
      assert Combines(s, s.anyOf[i]);
    }
    forall i | 0 <= i < |s.allOf|
      ensures FastPart(c, rank, id, s.allOf[i], f, off) <==> FastPart(d, rank, id, s.allOf[i], f, off)
    {
      assert Combines(s, s.allOf[i]);
    }
  }

  lemma {:induction false} CountsPreserved(c: Context, rank: Rank, id: Id, f: Fast, mode: Mode, n: nat)
    requires WellFounded(c.g, rank) && id in c.g && n <= |c.g[id].oneOf|
    requires forall i | 0 <= i < n ::
               FastChosen(c, rank, id, i, f, mode) <==> FastChosen(WithoutShortcut(c), rank, id, i, f, mode)
    ensures FastChosenAmong(c, rank, id, f, mode, n) == FastChosenAmong(WithoutShortcut(c), rank, id, f, mode, n)
  {
    hide FastChosen, WellFounded;
    if n > 0 {
      CountsPreserved(c, rank, id, f, mode, n - 1);
      OneMoreFastChosen(c, rank, id, f, mode, n - 1);
      OneMoreFastChosen(WithoutShortcut(c), rank, id, f, mode, n - 1);
    }
  }

  lemma {:induction false} ShapePreserved(c: Context, rank: Rank, within: set<Id>, id: Id, f: Fast, mode: Mode)
    requires Inside(c, rank, within, id, f)
    ensures WellFounded(c.g, rank) && id in c.g
    ensures FastShapeOk(c, rank, id, f, mode) <==> FastShapeOk(WithoutShortcut(c), rank, id, f, mode)
    decreases f, rank[id], 1
  {
    hide FastValid, FastFieldOk, Inside, Refers;
    InsideAt(c, rank, within, id, f);
    var d, s := WithoutShortcut(c), c.g[id];
    if f.FastArr? && s.items.Some? {
      assert Refers(s, s.items.value) by { ItemsAreReferred(s); }
      forall i | 0 <= i < |f.items|
        ensures FastValid(c, rank, Target(c.g, s.items.value), f.items[i], mode)
           <==> FastValid(d, rank, Target(c.g, s.items.value), f.items[i], mode)
      {
        ReferredInside(c, rank, within, id, f, s.items.value, f.items[i]);
        FastShortcutPreserves(c, rank, within, Target(c.g, s.items.value), f.items[i], mode);
      }
    }
    if f.FastObj? {
      forall i | 0 <= i < |f.fields|
        ensures FastFieldOk(c, rank, id, f.fields[i].0, f.fields[i].1, mode)
           <==> FastFieldOk(d, rank, id, f.fields[i].0, f.fields[i].1, mode)
      {
        FieldPreserved(c, rank, within, id, f, i, mode);
      }
    }
  }

  lemma {:induction false} FieldPreserved(c: Context, rank: Rank, within: set<Id>, id: Id, f: Fast, i: nat, mode: Mode)
    requires Inside(c, rank, within, id, f) && f.FastObj? && i < |f.fields|
    ensures WellFounded(c.g, rank) && id in c.g
    ensures FastFieldOk(c, rank, id, f.fields[i].0, f.fields[i].1, mode)
       <==> FastFieldOk(WithoutShortcut(c), rank, id, f.fields[i].0, f.fields[i].1, mode)
    decreases f, rank[id], 0
  {
    hide FastValid, Inside, WellFounded;
    InsideAt(c, rank, within, id, f);
    var s, k, g := c.g[id], f.fields[i].0, f.fields[i].1;
    assert f.fields[i] in f.fields && g < f;
    if k in s.properties || s.additionalProperties.Some? {
      var r := if k in s.properties then s.properties[k] else s.additionalProperties.value;
      assert k in s.properties ==> s.properties[k] in s.properties.Values;
      ReferredInside(c, rank, within, id, f, r, g);
      FastShortcutPreserves(c, rank, within, Target(c.g, r), g, mode);
    }
  }

  // And only there

  /** The short cut makes no difference to any of the fast visitor's verdicts on a null-free value. */
  ghost predicate ShortcutPreservesFast(c: Context, rank: Rank, within: set<Id>)
    requires WellFounded(c.g, rank)
  {
    forall id, f, mode: Mode | id in within && id in c.g && FastNullFree(f) ::
      FastValid(c, rank, id, f, mode) <==> FastValid(WithoutShortcut(c), rank, id, f, mode)
  }

  /** The fast visitor's verdicts are preserved exactly if the other visitor's are. */
  lemma ShortcutPreservesFastIffHarmless(c: Context, rank: Rank, within: set<Id>)
    requires WellFounded(c.g, rank) && Closed(c.g, within) && AnswersIsEmpty(c)
    ensures ShortcutPreservesFast(c, rank, within) <==> Harmless(c, within)
  {
    hide FastValid, WellFounded, Refers, IsEmptyBody, FastNullFree;
    if Harmless(c, within) {
      forall id, f, mode: Mode | id in within && id in c.g && FastNullFree(f)
        ensures FastValid(c, rank, id, f, mode) <==> FastValid(WithoutShortcut(c), rank, id, f, mode)
      {
        FastShortcutPreserves(c, rank, within, id, f, mode);
      }
    }
    if ShortcutPreservesFast(c, rank, within) {
      forall id | id in c.empty && id in within && id in c.g
        ensures HarmlessSchema(c.g[id])
      {
        FastPreservedIsHarmless(c, rank, within, id);
      }
    }
  }

  lemma FastPreservedIsHarmless(c: Context, rank: Rank, within: set<Id>, id: Id)
    requires WellFounded(c.g, rank) && Closed(c.g, within) && AnswersIsEmpty(c)
    requires ShortcutPreservesFast(c, rank, within)
    requires id in c.empty && id in within && id in c.g
    ensures HarmlessSchema(c.g[id])
  {
    hide WellFounded, IsEmptyBody;
    assert FastNullFree(FastBool(true)) && IsEmptyBody(c.g[id], c.empty);
    forall x, mode: Mode | x in within && x in c.g && x in c.empty
      ensures FastValid(WithoutShortcut(c), rank, x, FastBool(true), mode)
    {
      assert FastValid(c, rank, x, FastBool(true), mode);
    }
    if !HarmlessSchema(c.g[id]) {
      HarmfulRejectsFast(c, rank, within, id, Mode(false, false));
    }
  }

  lemma HarmfulRejectsFast(c: Context, rank: Rank, within: set<Id>, id: Id, mode: Mode)
    requires WellFounded(c.g, rank) && Closed(c.g, within) && id in within && id in c.g && id in c.empty
    requires IsEmptyBody(c.g[id], c.empty) && !HarmlessSchema(c.g[id])
    requires forall x, m: Mode | x in within && x in c.g && x in c.empty ::
               FastValid(WithoutShortcut(c), rank, x, FastBool(true), m)
    ensures !FastValid(WithoutShortcut(c), rank, id, FastBool(true), mode)
  {
    hide WellFounded, FastValid, Closed;
    var d, s, f := WithoutShortcut(c), c.g[id], FastBool(true);
    forall r, m: Mode | r in s.oneOf || s.negated == Some(r)
      ensures Combines(s, r) && FastPart(d, rank, id, r, f, m)
    {
      EmptyPartRefFast(c, rank, within, id, r, m);
    }
    if s.negated.Some? {
      assert !FastNotOk(d, rank, id, f, mode);
    } else {
      forall i | 0 <= i < |s.oneOf|
        ensures FastChosen(d, rank, id, i, f, mode) <==> s.discriminator == None
      {
        assert s.oneOf[i] in s.oneOf;
      }
      FastAllOrNone(d, rank, id, f, mode, |s.oneOf|);
      assert !FastOneOfOk(d, rank, id, f, mode);
    }
    FastLongWay(d, rank, id, f, mode);
  }

  lemma EmptyPartRefFast(c: Context, rank: Rank, within: set<Id>, id: Id, r: SchemaRef, mode: Mode)
    requires WellFounded(c.g, rank) && Closed(c.g, within) && id in within && id in c.g && id in c.empty
    requires IsEmptyBody(c.g[id], c.empty) && (r in c.g[id].oneOf || c.g[id].negated == Some(r))
    requires forall x, m: Mode | x in within && x in c.g && x in c.empty ::
               FastValid(WithoutShortcut(c), rank, x, FastBool(true), m)
    ensures Combines(c.g[id], r) && FastPart(WithoutShortcut(c), rank, id, r, FastBool(true), mode)
  {
    hide FastValid;
    assert EmptyRef(c.empty, r) && Refers(c.g[id], r);
  }

  lemma FastLongWay(d: Context, rank: Rank, id: Id, f: Fast, mode: Mode)
    requires WellFounded(d.g, rank) && id in d.g && id !in d.empty && d.g[id].enum == []
    requires !FastNotOk(d, rank, id, f, mode) || !FastOneOfOk(d, rank, id, f, mode)
    ensures !FastValid(d, rank, id, f, mode)
  {}

  lemma {:induction false} FastAllOrNone(d: Context, rank: Rank, id: Id, f: Fast, mode: Mode, n: nat)
    requires WellFounded(d.g, rank) && id in d.g && n <= |d.g[id].oneOf|
    requires forall i | 0 <= i < n :: FastChosen(d, rank, id, i, f, mode) <==> d.g[id].discriminator == None
    ensures FastChosenAmong(d, rank, id, f, mode, n) == if d.g[id].discriminator == None then n else 0
  {
    hide FastChosen, WellFounded;
    if n > 0 {
      FastAllOrNone(d, rank, id, f, mode, n - 1);
      OneMoreFastChosen(d, rank, id, f, mode, n - 1);
    }
  }
}
