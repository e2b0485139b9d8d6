/**
 What each keyword asks of a value of the fast parser, nulls and repeated names included, said of the verdict
 itself. Numbers, strings and booleans are judged as by the other visitor.
 */
module FastKeywords {
  import opened Options
  import opened Schemas
  import opened FastVerdict
  import Keywords

  /** A null is judged like any other value, and the only thing that the keywords ask is that the schema is nullable. */
  lemma FastNullIff(c: Context, rank: Rank, id: Id, mode: Mode)
    requires WellFounded(c.g, rank) && id in c.g
    ensures FastValid(c, rank, id, FastNull, mode) <==>
              id in c.empty || (FastSetOperationsOk(c, rank, id, FastNull, mode) && c.g[id].nullable)
  {
    hide WellFounded, FastSetOperationsOk;
  }

  /** The schema that is referred to accepts the value in the mode. */
  ghost predicate FastAccepted(c: Context, rank: Rank, r: SchemaRef, f: Fast, mode: Mode)
    requires WellFounded(c.g, rank)
  {
    r.value.Some? && r.value.value in c.g && FastValid(c, rank, r.value.value, f, mode)
  }

  /** type, minItems, maxItems, uniqueItems and items, which inherit the mode. */
  lemma FastArrayIff(c: Context, rank: Rank, id: Id, xs: seq<Fast>, mode: Mode)
    requires WellFounded(c.g, rank) && id in c.g && id !in c.empty
    ensures var s := c.g[id];
            FastValid(c, rank, id, FastArr(xs), mode) <==>
              && FastSetOperationsOk(c, rank, id, FastArr(xs), mode)
              && (s.typ == "" || s.typ == "array")
              && Keywords.AtLeast(|xs|, s.minItems) && Keywords.AtMost(|xs|, s.maxItems)
              && (s.uniqueItems ==>
                    forall i, j | 0 <= i < j < |xs| :: c.env.fastKey(xs[i]) != c.env.fastKey(xs[j]))
              && (s.items.Some? ==> forall i | 0 <= i < |xs| :: FastAccepted(c, rank, s.items.value, xs[i], mode))
  {
    hide FastSetOperationsOk, CountOk, FastKeys;
    var s := c.g[id];
    assert RefsResolved(c.g, s);
    Keywords.CountIff(|xs|, s.minItems, s.maxItems);
    var ks := FastKeys(c.env, xs);
    assert Distinct(ks) <==> forall i, j | 0 <= i < j < |xs| :: c.env.fastKey(xs[i]) != c.env.fastKey(xs[j]);
  }

  /**
   A field is judged by its property or else by additionalProperties. A bare false is heeded only if errors are
   collected or the flag is on.
   */
  ghost predicate FastFieldAccepted(c: Context, rank: Rank, id: Id, k: string, f: Fast, mode: Mode)
    requires WellFounded(c.g, rank) && id in c.g
  {
    var s := c.g[id];
    && (k in s.properties ==> FastAccepted(c, rank, s.properties[k], f, mode))
    && (k !in s.properties && s.additionalProperties.Some? ==>
          FastAccepted(c, rank, s.additionalProperties.value, f, mode))
    && (k !in s.properties && s.additionalProperties == None && s.additionalPropertiesAllowed == Some(false) ==>
          !mode.failfast && !mode.multiError)
  }

  lemma FastFieldIff(c: Context, rank: Rank, id: Id, k: string, f: Fast, mode: Mode)
    requires WellFounded(c.g, rank) && id in c.g
    ensures FastFieldOk(c, rank, id, k, f, mode) <==> FastFieldAccepted(c, rank, id, k, f, mode)
  {
    hide FastValid;
    assert RefsResolved(c.g, c.g[id]);
  }

  /** The fields are counted, and judged, one by one, also if a name is repeated. */
  lemma FastObjectIff(c: Context, rank: Rank, id: Id, fs: seq<(string, Fast)>, mode: Mode)
    requires WellFounded(c.g, rank) && id in c.g && id !in c.empty
    ensures var s := c.g[id];
            FastValid(c, rank, id, FastObj(fs), mode) <==>
              && FastSetOperationsOk(c, rank, id, FastObj(fs), mode)
              && (s.typ == "" || s.typ == "object")
              && Keywords.AtLeast(|fs|, s.minProps) && Keywords.AtMost(|fs|, s.maxProps)
              && (forall i | 0 <= i < |fs| :: FastFieldAccepted(c, rank, id, fs[i].0, fs[i].1, mode))
              && (forall k <- s.required ::
                    (exists i :: 0 <= i < |fs| && fs[i].0 == k) || Keywords.MayBeMissing(c, s, k))
  {
    hide FastSetOperationsOk, CountOk, FastFieldOk, FastFieldAccepted, Excused, Keywords.MayBeMissing, WellFounded;
    var s, f := c.g[id], FastObj(fs);
    Keywords.CountIff(|fs|, s.minProps, s.maxProps);
    forall i | 0 <= i < |fs|
      ensures FastFieldOk(c, rank, id, fs[i].0, fs[i].1, mode) <==>
              FastFieldAccepted(c, rank, id, fs[i].0, fs[i].1, mode)
    {
      FastFieldIff(c, rank, id, fs[i].0, fs[i].1, mode);
    }
    forall k: string
      ensures k in s.properties ==> Resolved(c.g, s.properties[k])
      ensures Excused(c, s, k) <==> Keywords.MayBeMissing(c, s, k)
    {
      Keywords.FieldIff(c, rank, id, k, Null);
    }
    assert FastValid(c, rank, id, f, mode) <==>
             FastSetOperationsOk(c, rank, id, f, mode) && FastShapeOk(c, rank, id, f, mode);
  }

  // Combinators

  /** The text that a value stands for where a string is expected. */
  function Text(f: Fast): string {
    if f.FastStr? then f.s else ""
  }

  /** The first field of this name. */
  ghost predicate IsFirst(fs: seq<(string, Fast)>, key: string, i: int) {
    0 <= i < |fs| && fs[i].0 == key && forall j | 0 <= j < i :: fs[j].0 != key
  }

  /**
   The mapping sends the text of the discriminating property to `ref`. Of an array the property is the item at the
   index that its name spells.
   */
  ghost predicate FastNamed(env: Env, s: Schema, f: Fast, ref: string) {
    s.discriminator.Some? ==>
      var d := s.discriminator.value;
      || (f.FastObj? && exists i :: IsFirst(f.fields, d.propertyName, i)
                                    && (Text(f.fields[i].1), ref) in d.mapping.Items)
      || (f.FastArr? && exists i :: env.atoi(d.propertyName) == Some(i) && 0 <= i < |f.items|
                                    && (Text(f.items[i]), ref) in d.mapping.Items)
  }

  lemma {:induction false} FirstFieldIs(fs: seq<(string, Fast)>, key: string, i: int)
    requires IsFirst(fs, key, i)
    ensures FirstField(fs, key) == Some(fs[i].1)
  {
    if i > 0 {
      assert fs[0].0 != key;
      assert forall j | 0 <= j < i - 1 :: fs[1..][j] == fs[j + 1];
      FirstFieldIs(fs[1..], key, i - 1);
    }
  }

  lemma {:induction false} SomeIsFirst(fs: seq<(string, Fast)>, key: string)
    requires FirstField(fs, key).Some?
    ensures exists i :: IsFirst(fs, key, i)
  {
    if fs[0].0 == key {
      assert IsFirst(fs, key, 0);
    } else {
      SomeIsFirst(fs[1..], key);
      var i :| IsFirst(fs[1..], key, i);
      forall j | 0 <= j < i + 1
        ensures fs[j].0 != key
      {
        if j > 0 {
          assert fs[j] == fs[1..][j - 1];
        }
      }
      assert IsFirst(fs, key, i + 1);
    }
  }

  lemma FastNamedIff(env: Env, s: Schema, r: SchemaRef, f: Fast)
    ensures FastDiscriminates(env, s, r, f) <==> FastNamed(env, s, f, r.ref)
  {
    hide FirstField;
    if s.discriminator.Some? && f.FastObj? {
      var key := s.discriminator.value.propertyName;
      if FirstField(f.fields, key).Some? {
        SomeIsFirst(f.fields, key);
      }
      forall i | IsFirst(f.fields, key, i)
        ensures FirstField(f.fields, key) == Some(f.fields[i].1)
      {
        FirstFieldIs(f.fields, key, i);
      }
    }
  }

  ghost predicate FastCounts(c: Context, rank: Rank, id: Id, f: Fast, mode: Mode, i: nat)
    requires WellFounded(c.g, rank) && id in c.g && i < |c.g[id].oneOf|
  {
    && FastAccepted(c, rank, c.g[id].oneOf[i], f, Mode(true, mode.multiError))
    && FastNamed(c.env, c.g[id], f, c.g[id].oneOf[i].ref)
  }

  lemma FastCountsIff(c: Context, rank: Rank, id: Id, f: Fast, mode: Mode, i: nat)
    requires WellFounded(c.g, rank) && id in c.g && i < |c.g[id].oneOf|
    ensures FastCounts(c, rank, id, f, mode, i) <==> FastChosen(c, rank, id, i, f, mode)
  {
    hide FastValid, FastDiscriminates, FastNamed;
    assert Combines(c.g[id], c.g[id].oneOf[i]);
    FastNamedIff(c.env, c.g[id], c.g[id].oneOf[i], f);
  }

  /** Of the first `n` alternatives this one counts and no other. */
  ghost predicate OnlyFast(c: Context, rank: Rank, id: Id, f: Fast, mode: Mode, n: nat, i: nat)
    requires WellFounded(c.g, rank) && id in c.g && i < n <= |c.g[id].oneOf|
  {
    && FastCounts(c, rank, id, f, mode, i)
    && forall j | 0 <= j < n && j != i :: !FastCounts(c, rank, id, f, mode, j)
  }

  lemma {:induction false} OneFastChosen(c: Context, rank: Rank, id: Id, f: Fast, mode: Mode, n: nat)
    requires WellFounded(c.g, rank) && id in c.g && n <= |c.g[id].oneOf|
    ensures FastChosenAmong(c, rank, id, f, mode, n) == 0 <==>
              forall i | 0 <= i < n :: !FastCounts(c, rank, id, f, mode, i)
    ensures FastChosenAmong(c, rank, id, f, mode, n) == 1 <==>
              exists i :: 0 <= i < n && OnlyFast(c, rank, id, f, mode, n, i)
  {
    hide FastChosen, WellFounded, FastChosenAmong, FastCounts;
    if n == 0 {
      NoneOfNoFast(c, rank, id, f, mode);
    } else {
      OneFastChosen(c, rank, id, f, mode, n - 1);
      OneMoreFastChosen(c, rank, id, f, mode, n - 1);
      FastCountsIff(c, rank, id, f, mode, n - 1);
      if FastCounts(c, rank, id, f, mode, n - 1) {
        assert OnlyFast(c, rank, id, f, mode, n, n - 1) <==>
                 forall i | 0 <= i < n - 1 :: !FastCounts(c, rank, id, f, mode, i);
      } else {
        OneOfFewerFast(c, rank, id, f, mode, n, n - 1);
      }
    }
  }

  lemma OneOfFewerFast(c: Context, rank: Rank, id: Id, f: Fast, mode: Mode, n: nat, m: nat)
    requires WellFounded(c.g, rank) && id in c.g && m + 1 == n <= |c.g[id].oneOf|
    requires !FastCounts(c, rank, id, f, mode, m)
    ensures (exists i :: 0 <= i < n && OnlyFast(c, rank, id, f, mode, n, i)) <==>
            (exists i :: 0 <= i < m && OnlyFast(c, rank, id, f, mode, m, i))
  {
    hide WellFounded, FastCounts;
    forall i | 0 <= i < n && OnlyFast(c, rank, id, f, mode, n, i)
      ensures i < m && OnlyFast(c, rank, id, f, mode, m, i)
    {}
    forall i | 0 <= i < m && OnlyFast(c, rank, id, f, mode, m, i)
      ensures OnlyFast(c, rank, id, f, mode, n, i)
    {}
  }

  lemma NoneOfNoFast(c: Context, rank: Rank, id: Id, f: Fast, mode: Mode)
    requires WellFounded(c.g, rank) && id in c.g
    ensures FastChosenAmong(c, rank, id, f, mode, 0) == 0
  {}

  /**
   An enum settles the matter, by the text of the value; otherwise all of not, oneOf, anyOf and allOf have to agree.
   They go on with the flag on, but allOf with the flag off.
   */
  lemma FastCombinatorsIff(c: Context, rank: Rank, id: Id, f: Fast, mode: Mode)
    requires WellFounded(c.g, rank) && id in c.g
    ensures var s, on, off := c.g[id], Mode(true, mode.multiError), Mode(false, mode.multiError);
            FastSetOperationsOk(c, rank, id, f, mode) <==>
              if s.enum != [] then Str(Text(f)) in s.enum
              else
                && (s.negated.Some? ==> !FastAccepted(c, rank, s.negated.value, f, on))
                && (s.oneOf != [] ==>
                      exists i :: 0 <= i < |s.oneOf| && OnlyFast(c, rank, id, f, mode, |s.oneOf|, i))
                && (s.anyOf != [] ==> exists i :: 0 <= i < |s.anyOf| && FastAccepted(c, rank, s.anyOf[i], f, on))
                && (forall i | 0 <= i < |s.allOf| :: FastAccepted(c, rank, s.allOf[i], f, off))
  {
    hide FastNotOk, FastOneOfOk, FastAnyOfOk, FastAllOfOk, OnlyFast, FastAccepted, WellFounded;
    FastNotAndOneOfIff(c, rank, id, f, mode);
    FastAnyOfAndAllOfIff(c, rank, id, f, mode);
  }

  lemma FastNotAndOneOfIff(c: Context, rank: Rank, id: Id, f: Fast, mode: Mode)
    requires WellFounded(c.g, rank) && id in c.g
    ensures var s := c.g[id];
            && (FastNotOk(c, rank, id, f, mode) <==>
                  s.negated.Some? ==> !FastAccepted(c, rank, s.negated.value, f, Mode(true, mode.multiError)))
            && (FastOneOfOk(c, rank, id, f, mode) <==>
                  s.oneOf != [] ==> exists i :: 0 <= i < |s.oneOf| && OnlyFast(c, rank, id, f, mode, |s.oneOf|, i))
  {
    hide FastChosen, FastCounts, FastChosenAmong, OnlyFast, FastAccepted, FastPart, WellFounded;
    var s := c.g[id];
    OneFastChosen(c, rank, id, f, mode, |s.oneOf|);
    if s.negated.Some? {
      assert Combines(s, s.negated.value);
      FastPartIff(c, rank, id, s.negated.value, f, Mode(true, mode.multiError));
    }
  }

  lemma FastAnyOfAndAllOfIff(c: Context, rank: Rank, id: Id, f: Fast, mode: Mode)
    requires WellFounded(c.g, rank) && id in c.g
    ensures var s, on, off := c.g[id], Mode(true, mode.multiError), Mode(false, mode.multiError);
            && (FastAnyOfOk(c, rank, id, f, mode) <==>
                  s.anyOf != [] ==> exists i :: 0 <= i < |s.anyOf| && FastAccepted(c, rank, s.anyOf[i], f, on))
            && (FastAllOfOk(c, rank, id, f, mode) <==>
                  forall i | 0 <= i < |s.allOf| :: FastAccepted(c, rank, s.allOf[i], f, off))
  {
    hide FastAccepted, FastPart, WellFounded;
    var s, on, off := c.g[id], Mode(true, mode.multiError), Mode(false, mode.multiError);
    forall i | 0 <= i < |s.anyOf|
      ensures Combines(s, s.anyOf[i])
      ensures FastPart(c, rank, id, s.anyOf[i], f, on) <==> FastAccepted(c, rank, s.anyOf[i], f, on)
    {
      assert Combines(s, s.anyOf[i]);
      FastPartIff(c, rank, id, s.anyOf[i], f, on);
    }
    forall i | 0 <= i < |s.allOf|
      ensures Combines(s, s.allOf[i])
      ensures FastPart(c, rank, id, s.allOf[i], f, off) <==> FastAccepted(c, rank, s.allOf[i], f, off)
    {
      assert Combines(s, s.allOf[i]);
      FastPartIff(c, rank, id, s.allOf[i], f, off);
    }
  }

  lemma FastPartIff(c: Context, rank: Rank, id: Id, r: SchemaRef, f: Fast, mode: Mode)
    requires WellFounded(c.g, rank) && id in c.g && Combines(c.g[id], r)
    ensures FastPart(c, rank, id, r, f, mode) <==> FastAccepted(c, rank, r, f, mode)
  {
    hide FastValid;
  }
}
