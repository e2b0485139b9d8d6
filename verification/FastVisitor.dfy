/** visitFastJSON: the visitor for fast-parsed values. Errors are counted here, their contents left out. */
module FastVisitor {
  import opened Options
  import opened Schemas
  import opened SchemaVerdict
  import opened SchemaVisitor
  import opened FastVerdict

  /** Values without parts have no discriminators to look up. */
  lemma {:induction false} NoDiscriminators(c: Context, rank: Rank, id: Id, v: Json)
    requires WellFounded(c.g, rank) && id in c.g && !v.Arr? && !v.Obj?
    ensures StringDiscriminators(c, rank, id, v)
    decreases rank[id]
  {
    forall r | Combines(c.g[id], r) ensures StringDiscriminators(c, rank, Target(c.g, r), v) {
      NoDiscriminators(c, rank, Target(c.g, r), v);
    }
  }

  lemma FastPartVerdict(c: Context, rank: Rank, id: Id, r: SchemaRef, f: Fast, mode: Mode)
    requires WellFounded(c.g, rank) && id in c.g && Combines(c.g[id], r)
    ensures Resolved(c.g, r) && Target(c.g, r) in rank && id in rank && rank[Target(c.g, r)] < rank[id]
    ensures FastPart(c, rank, id, r, f, mode) <==> FastValid(c, rank, Target(c.g, r), f, mode)
  {}

  lemma FastVerdictIs(c: Context, rank: Rank, id: Id, f: Fast, mode: Mode)
    requires WellFounded(c.g, rank) && id in c.g
    ensures FastValid(c, rank, id, f, mode)
       <==> id in c.empty || (FastSetOperationsOk(c, rank, id, f, mode) && FastShapeOk(c, rank, id, f, mode))
  {}

  lemma FastNothingToCombine(c: Context, rank: Rank, id: Id, f: Fast, mode: Mode)
    requires WellFounded(c.g, rank) && id in c.g
    ensures c.g[id].oneOf == [] ==> FastOneOfOk(c, rank, id, f, mode)
    ensures c.g[id].anyOf == [] ==> FastAnyOfOk(c, rank, id, f, mode)
    ensures c.g[id].oneOf != [] ==>
              (FastOneOfOk(c, rank, id, f, mode) <==> FastChosenAmong(c, rank, id, f, mode, |c.g[id].oneOf|) == 1)
    ensures FastChosenAmong(c, rank, id, f, mode, 0) == 0
  {}

  ghost predicate FastItemsOk(c: Context, rank: Rank, id: Id, f: Fast, mode: Mode)
    requires WellFounded(c.g, rank) && id in c.g && f.FastArr? && c.g[id].items.Some?
  {
    forall i | 0 <= i < |f.items| :: FastValid(c, rank, Target(c.g, c.g[id].items.value), f.items[i], mode)
  }

  ghost predicate FastFieldsOk(c: Context, rank: Rank, id: Id, f: Fast, mode: Mode)
    requires WellFounded(c.g, rank) && id in c.g && f.FastObj?
  {
    forall i | 0 <= i < |f.fields| :: FastFieldOk(c, rank, id, f.fields[i].0, f.fields[i].1, mode)
  }

  ghost predicate FastRequiredOk(c: Context, rank: Rank, id: Id, f: Fast)
    requires WellFounded(c.g, rank) && id in c.g && f.FastObj?
  {
    forall k <- c.g[id].required :: HasField(f, k) || Excused(c, c.g[id], k)
  }

  lemma FastArrayShape(c: Context, rank: Rank, id: Id, f: Fast, mode: Mode)
    requires WellFounded(c.g, rank) && id in c.g && f.FastArr?
    ensures FastShapeOk(c, rank, id, f, mode) <==>
              && (c.g[id].typ == "" || c.g[id].typ == "array")
              && CountOk(|f.items|, c.g[id].minItems, c.g[id].maxItems)
              && (c.g[id].uniqueItems ==> Distinct(FastKeys(c.env, f.items)))
              && (c.g[id].items.Some? ==> FastItemsOk(c, rank, id, f, mode))
  {}

  lemma FastObjectShape(c: Context, rank: Rank, id: Id, f: Fast, mode: Mode)
    requires WellFounded(c.g, rank) && id in c.g && f.FastObj?
    ensures FastShapeOk(c, rank, id, f, mode) <==>
              && (c.g[id].typ == "" || c.g[id].typ == "object")
              && CountOk(|f.fields|, c.g[id].minProps, c.g[id].maxProps)
              && FastFieldsOk(c, rank, id, f, mode) && FastRequiredOk(c, rank, id, f)
  {}

  lemma FastScalarShape(c: Context, rank: Rank, id: Id, f: Fast, mode: Mode)
    requires WellFounded(c.g, rank) && id in c.g && !f.FastArr? && !f.FastObj?
    ensures Sane(c.g[id])
    ensures f.FastNull? ==> (FastShapeOk(c, rank, id, f, mode) <==> Valid(c, rank, id, Null))
    ensures f.FastBool? ==> (FastShapeOk(c, rank, id, f, mode) <==> ShapeOk(c, rank, id, Bool(f.b)))
    ensures f.FastNum? ==> (FastShapeOk(c, rank, id, f, mode) <==> NumberOk(c.g[id], f.n))
    ensures f.FastStr? ==> (FastShapeOk(c, rank, id, f, mode) <==> StringOk(c.env, c.g[id], f.s))
  {}

  lemma FastFieldIs(c: Context, rank: Rank, id: Id, k: string, f: Fast, mode: Mode)
    requires WellFounded(c.g, rank) && id in c.g
    ensures var s := c.g[id];
            if k in s.properties then
              && Resolved(c.g, s.properties[k])
              && (FastFieldOk(c, rank, id, k, f, mode) <==> FastValid(c, rank, Target(c.g, s.properties[k]), f, mode))
            else if s.additionalProperties.Some? then
              && Resolved(c.g, s.additionalProperties.value)
              && (FastFieldOk(c, rank, id, k, f, mode)
                  <==> FastValid(c, rank, Target(c.g, s.additionalProperties.value), f, mode))
            else
              FastFieldOk(c, rank, id, k, f, mode)
              <==> s.additionalPropertiesAllowed != Some(false) || (!mode.failfast && !mode.multiError)
  {}

  /** isSliceOfUniqueItemsFastJson */
  method IsSliceOfUniqueItemsFast(env: Env, xs: seq<Fast>) returns (unique: bool)
    ensures unique <==> Distinct(FastKeys(env, xs))
  {
    ghost var ks := FastKeys(env, xs);
    var m: set<string> := {};
    for i := 0 to |xs|
      invariant m == KeySet(ks[..i])
    {
      assert ks[..i + 1] == ks[..i] + [ks[i]];
      m := m + {env.fastKey(xs[i])};
    }
    assert ks[..|xs|] == ks;
    DistinctByCount(ks);
    unique := |xs| == |m|;
  }

  class FastValidator {
    const base: Validator

    constructor (base: Validator)
      ensures this.base == base
    {
      this.base := base;
    }

    ghost predicate Ready(settings: Settings, id: Id)
      reads this, base, settings
    {
      && WellFounded(base.c.g, base.rank) && base.CacheOk() && id in base.c.g
      && settings.asreq == base.c.asreq && settings.asrep == base.c.asrep
    }

    ghost function ModeOf(settings: Settings): Mode
      reads settings
    {
      Mode(settings.failfast, settings.multiError)
    }

    method VisitFastJSON(settings: Settings, id: Id, f: Fast) returns (ok: bool)
      requires Ready(settings, id)
      modifies settings`failfast, base`compiled
      ensures base.CacheOk() && settings.failfast == old(settings.failfast)
      ensures ok <==> FastValid(base.c, base.rank, id, f, old(ModeOf(settings)))
      decreases f, 0, base.rank[id], 4
    {
      hide WellFounded, FastValid, FastSetOperationsOk, FastShapeOk;
      FastVerdictIs(base.c, base.rank, id, f, ModeOf(settings));
      if id in base.c.empty {
        return true;
      }
      ok := VisitFastSetOperations(settings, id, f);
      if ok {
        ok := VisitFastShape(settings, id, f);
      }
    }

    /** The switch on the value's type; scalars share the other visitor's checks. */
    method VisitFastShape(settings: Settings, id: Id, f: Fast) returns (ok: bool)
      requires Ready(settings, id) && id !in base.c.empty
      modifies settings`failfast, base`compiled
      ensures base.CacheOk() && settings.failfast == old(settings.failfast)
      ensures ok <==> FastShapeOk(base.c, base.rank, id, f, old(ModeOf(settings)))
      decreases f, 0, base.rank[id], 3
    {
      hide WellFounded, FastShapeOk, Valid, ShapeOk, NumberOk, StringOk, StringDiscriminators, Reported;
      var err;
      if f.FastArr? {
        ok := VisitFastJSONArray(settings, id, f);
        return;
      } else if f.FastObj? {
        ok := VisitFastJSONObject(settings, id, f);
        return;
      }
      FastScalarShape(base.c, base.rank, id, f, ModeOf(settings));
      match f {
        case FastNull =>
          NoDiscriminators(base.c, base.rank, id, Null);
          err := base.VisitJSONNull(settings, id);
        case FastBool(b) =>
          NoDiscriminators(base.c, base.rank, id, Bool(b));
          err := base.VisitJSONBoolean(settings, id, Bool(b));
        case FastNum(n) =>
          NoDiscriminators(base.c, base.rank, id, Num(n));
          err := base.VisitJSONNumber(settings, id, Num(n));
        case FastStr(s) =>
          NoDiscriminators(base.c, base.rank, id, Str(s));
          err := base.VisitJSONString(settings, id, Str(s));
      }
      ok := err.NoError?;
    }

    method VisitFastPart(settings: Settings, id: Id, r: SchemaRef, f: Fast, failfast: bool) returns (ok: bool)
      requires Ready(settings, id) && Combines(base.c.g[id], r)
      modifies settings`failfast, base`compiled
      ensures base.CacheOk() && settings.failfast == old(settings.failfast)
      ensures ok <==> FastPart(base.c, base.rank, id, r, f, Mode(failfast, settings.multiError))
      decreases f, 0, base.rank[id], 1
    {
      hide WellFounded, FastValid, FastPart, Combines;
      FastPartVerdict(base.c, base.rank, id, r, f, Mode(failfast, settings.multiError));
      var oldfailfast := settings.failfast;
      settings.failfast := failfast;
      ok := VisitFastJSON(settings, r.value.value, f);
      settings.failfast := oldfailfast;
    }

    method VisitFastOneOf(settings: Settings, id: Id, f: Fast) returns (ok: nat)
      requires Ready(settings, id)
      modifies settings`failfast, base`compiled
      ensures base.CacheOk() && settings.failfast == old(settings.failfast)
      ensures ok == FastChosenAmong(base.c, base.rank, id, f, old(ModeOf(settings)), |base.c.g[id].oneOf|)
      decreases f, 0, base.rank[id], 2
    {
      hide WellFounded, FastPart, FastChosenAmong, Get;
      ghost var mode := ModeOf(settings);
      var s := base.c.g[id];
      ok := 0;
      FastNothingToCombine(base.c, base.rank, id, f, mode);
      for i := 0 to |s.oneOf|
        invariant base.CacheOk() && settings.failfast == old(settings.failfast)
        invariant ok == FastChosenAmong(base.c, base.rank, id, f, mode, i)
      {
        OneMoreFastChosen(base.c, base.rank, id, f, mode, i);
        var accepted := VisitFastPart(settings, id, s.oneOf[i], f, true);
        if accepted {
          if s.discriminator.Some? {
            var discriminatorVal := Get(base.c.env, f, s.discriminator.value.propertyName);
            if discriminatorVal.Some? {
              var name := StringBytes(discriminatorVal.value);
              if name in s.discriminator.value.mapping && s.discriminator.value.mapping[name] == s.oneOf[i].ref {
                ok := ok + 1;
              }
            }
          } else {
            ok := ok + 1;
          }
        }
      }
    }

    method VisitFastSetOperations(settings: Settings, id: Id, f: Fast) returns (ok: bool)
      requires Ready(settings, id)
      modifies settings`failfast, base`compiled
      ensures base.CacheOk() && settings.failfast == old(settings.failfast)
      ensures ok <==> FastSetOperationsOk(base.c, base.rank, id, f, old(ModeOf(settings)))
      decreases f, 0, base.rank[id], 3
    {
      hide WellFounded, FastPart, FastNotOk, FastOneOfOk, FastAnyOfOk, FastAllOfOk, FastChosenAmong;
      var s := base.c.g[id];
      FastNothingToCombine(base.c, base.rank, id, f, ModeOf(settings));
      if |s.enum| != 0 {
        return Str(StringBytes(f)) in s.enum;
      }
      ok := VisitFastNot(settings, id, f);
      if !ok {
        return;
      }
      if |s.oneOf| > 0 {
        var n := VisitFastOneOf(settings, id, f);
        if n != 1 {
          return false;
        }
      }
      ok := VisitFastAnyOf(settings, id, f);
      if ok {
        ok := VisitFastAllOf(settings, id, f);
      }
    }

    method VisitFastNot(settings: Settings, id: Id, f: Fast) returns (ok: bool)
      requires Ready(settings, id)
      modifies settings`failfast, base`compiled
      ensures base.CacheOk() && settings.failfast == old(settings.failfast)
      ensures ok <==> FastNotOk(base.c, base.rank, id, f, old(ModeOf(settings)))
      decreases f, 0, base.rank[id], 2
    {
      hide WellFounded, FastPart;
      ok := true;
      if base.c.g[id].negated.Some? {
        var accepted := VisitFastPart(settings, id, base.c.g[id].negated.value, f, true);
        ok := !accepted;
      }
    }

    method VisitFastAnyOf(settings: Settings, id: Id, f: Fast) returns (ok: bool)
      requires Ready(settings, id)
      modifies settings`failfast, base`compiled
      ensures base.CacheOk() && settings.failfast == old(settings.failfast)
      ensures ok <==> FastAnyOfOk(base.c, base.rank, id, f, old(ModeOf(settings)))
      decreases f, 0, base.rank[id], 2
    {
      hide WellFounded, FastPart;
      var s := base.c.g[id];
      ghost var mode := ModeOf(settings).(failfast := true);
      if |s.anyOf| == 0 {
        return true;
      }
      for i := 0 to |s.anyOf|
        invariant base.CacheOk() && settings.failfast == old(settings.failfast)
        invariant forall j | 0 <= j < i :: !FastPart(base.c, base.rank, id, s.anyOf[j], f, mode)
      {
        ok := VisitFastPart(settings, id, s.anyOf[i], f, true);
        if ok {
          return;
        }
      }
      ok := false;
    }

    method VisitFastAllOf(settings: Settings, id: Id, f: Fast) returns (ok: bool)
      requires Ready(settings, id)
      modifies settings`failfast, base`compiled
      ensures base.CacheOk() && settings.failfast == old(settings.failfast)
      ensures ok <==> FastAllOfOk(base.c, base.rank, id, f, old(ModeOf(settings)))
      decreases f, 0, base.rank[id], 2
    {
      hide WellFounded, FastPart;
      var s := base.c.g[id];
      ghost var mode := ModeOf(settings).(failfast := false);
      for i := 0 to |s.allOf|
        invariant base.CacheOk() && settings.failfast == old(settings.failfast)
        invariant forall j | 0 <= j < i :: FastPart(base.c, base.rank, id, s.allOf[j], f, mode)
      {
        ok := VisitFastPart(settings, id, s.allOf[i], f, false);
        if !ok {
          return;
        }
      }
      ok := true;
    }

    /** A failed check ends the visit, unless errors are being collected. */
    method Note(settings: Settings, errors: nat) returns (stop: bool, more: nat)
      ensures stop <==> settings.failfast || !settings.multiError
      ensures more == errors + 1
    {
      stop, more := settings.failfast || !settings.multiError, errors + 1;
    }

    method VisitFastJSONArray(settings: Settings, id: Id, f: Fast) returns (ok: bool)
      requires f.FastArr? && Ready(settings, id)
      modifies settings`failfast, base`compiled
      ensures base.CacheOk() && settings.failfast == old(settings.failfast)
      ensures ok <==> FastShapeOk(base.c, base.rank, id, f, old(ModeOf(settings)))
      decreases f, 0, base.rank[id], 2
    {
      hide WellFounded, FastShapeOk, FastValid;
      FastArrayShape(base.c, base.rank, id, f, ModeOf(settings));
      ghost var mode := ModeOf(settings);
      var s, me, stop := base.c.g[id], 0, false;
      if s.typ != "" && s.typ != "array" {
        return false;
      }
      if s.minItems != 0 && |f.items| < Int64(s.minItems) {
        stop, me := Note(settings, me);
        if stop { return false; }
      }
      if s.maxItems.Some? && |f.items| > Int64(s.maxItems.value) {
        stop, me := Note(settings, me);
        if stop { return false; }
      }
      if s.uniqueItems {
        var unique := IsSliceOfUniqueItemsFast(base.c.env, f.items);
        if !unique {
          stop, me := Note(settings, me);
          if stop { return false; }
        }
      }
      if s.items.Some? {
        stop, me := VisitFastItems(settings, id, f, me);
        if stop { return false; }
      }
      ok := me == 0;
    }

    method VisitFastItems(settings: Settings, id: Id, f: Fast, before: nat) returns (stop: bool, me: nat)
      requires f.FastArr? && Ready(settings, id) && base.c.g[id].items.Some?
      modifies settings`failfast, base`compiled
      ensures base.CacheOk() && settings.failfast == old(settings.failfast) && me >= before
      ensures stop ==> !FastItemsOk(base.c, base.rank, id, f, old(ModeOf(settings)))
      ensures !stop ==> (me == before <==> FastItemsOk(base.c, base.rank, id, f, old(ModeOf(settings))))
      decreases f, 0, base.rank[id], 1
    {
      hide WellFounded, FastValid;
      ghost var mode := ModeOf(settings);
      ItemsResolved(id);
      var items := base.c.g[id].items.value.value.value;
      me, stop := before, false;
      for i := 0 to |f.items|
        invariant base.CacheOk() && settings.failfast == old(settings.failfast) && me >= before
        invariant me == before <==> forall j | 0 <= j < i :: FastValid(base.c, base.rank, items, f.items[j], mode)
      {
        var accepted := VisitFastJSON(settings, items, f.items[i]);
        if !accepted {
          if !settings.multiError {
            return true, me;
          }
          me := me + 1;
        }
      }
    }

    lemma ItemsResolved(id: Id)
      requires WellFounded(base.c.g, base.rank) && id in base.c.g && base.c.g[id].items.Some?
      ensures Resolved(base.c.g, base.c.g[id].items.value)
    {}

    method VisitFastJSONObject(settings: Settings, id: Id, f: Fast) returns (ok: bool)
      requires f.FastObj? && Ready(settings, id)
      modifies settings`failfast, base`compiled
      ensures base.CacheOk() && settings.failfast == old(settings.failfast)
      ensures ok <==> FastShapeOk(base.c, base.rank, id, f, old(ModeOf(settings)))
      decreases f, 0, base.rank[id], 2
    {
      hide WellFounded, FastShapeOk, FastFieldOk, Excused;
      FastObjectShape(base.c, base.rank, id, f, ModeOf(settings));
      var s, me, stop := base.c.g[id], 0, false;
      if s.typ != "" && s.typ != "object" {
        return false;
      }
      if s.minProps != 0 && |f.fields| < Int64(s.minProps) {
        stop, me := Note(settings, me);
        if stop { return false; }
      }
      if s.maxProps.Some? && |f.fields| > Int64(s.maxProps.value) {
        stop, me := Note(settings, me);
        if stop { return false; }
      }
      var reqValidationErr;
      reqValidationErr, me := VisitFastFields(settings, id, f, me);
      if reqValidationErr {
        return false;
      }
      stop, me := VisitFastRequired(settings, id, f, me);
      if stop { return false; }
      ok := me == 0;
    }

    /** All fields are visited; an error is kept in `failed` or counted, or, for an undeclared field, forgotten. */
    method VisitFastFields(settings: Settings, id: Id, f: Fast, before: nat) returns (failed: bool, me: nat)
      requires f.FastObj? && Ready(settings, id)
      modifies settings`failfast, base`compiled
      ensures base.CacheOk() && settings.failfast == old(settings.failfast) && me >= before
      ensures !failed && me == before <==> FastFieldsOk(base.c, base.rank, id, f, old(ModeOf(settings)))
      decreases f, 0, base.rank[id], 1
    {
      hide WellFounded, FastFieldOk, FastValid;
      ghost var mode := ModeOf(settings);
      me, failed := before, false;
      for i := 0 to |f.fields|
        invariant base.CacheOk() && settings.failfast == old(settings.failfast) && me >= before
        invariant !failed && me == before <==>
                    forall j | 0 <= j < i :: FastFieldOk(base.c, base.rank, id, f.fields[j].0, f.fields[j].1, mode)
      {
        assert f.fields[i].1 < f;
        var bad, counted := VisitFastField(settings, id, f.fields[i].0, f.fields[i].1);
        failed := failed || bad;
        me := me + counted;
      }
    }

    method VisitFastField(settings: Settings, id: Id, k: string, f: Fast) returns (failed: bool, counted: nat)
      requires Ready(settings, id)
      modifies settings`failfast, base`compiled
      ensures base.CacheOk() && settings.failfast == old(settings.failfast)
      ensures !failed && counted == 0 <==> FastFieldOk(base.c, base.rank, id, k, f, old(ModeOf(settings)))
      decreases f, 1, 0, 0
    {
      hide WellFounded, FastFieldOk, FastValid;
      FastFieldIs(base.c, base.rank, id, k, f, ModeOf(settings));
      var s := base.c.g[id];
      var accepted := true;
      failed, counted := false, 0;
      if k in s.properties {
        accepted := VisitFastJSON(settings, s.properties[k].value.value, f);
      } else if s.additionalProperties.Some? || s.additionalPropertiesAllowed == None
                || s.additionalPropertiesAllowed.value
      {
        if s.additionalProperties.Some? {
          accepted := VisitFastJSON(settings, s.additionalProperties.value.value.value, f);
        }
      } else {
        if settings.failfast {
          failed := true;
        } else if settings.multiError {
          counted := 1;
        }
        return;
      }
      if !accepted {
        if settings.failfast || !settings.multiError {
          failed := true;
        } else {
          counted := 1;
        }
      }
    }

    method VisitFastRequired(settings: Settings, id: Id, f: Fast, before: nat) returns (stop: bool, me: nat)
      requires f.FastObj? && Ready(settings, id)
      ensures me >= before
      ensures stop ==> !FastRequiredOk(base.c, base.rank, id, f)
      ensures !stop ==> (me == before <==> FastRequiredOk(base.c, base.rank, id, f))
    {
      hide WellFounded;
      PropertiesResolved(base.c, base.rank, id);
      var s := base.c.g[id];
      me, stop := before, false;
      for i := 0 to |s.required|
        invariant me >= before
        invariant me == before <==>
                  forall j | 0 <= j < i :: HasField(f, s.required[j]) || Excused(base.c, s, s.required[j])
      {
        var k := s.required[i];
        if FirstField(f.fields, k) == None {
          if k in s.properties && base.c.g[s.properties[k].value.value].readOnly && settings.asreq {
            continue;
          }
          if k in s.properties && base.c.g[s.properties[k].value.value].writeOnly && settings.asrep {
            continue;
          }
          assert k in s.required && !HasField(f, k) && !Excused(base.c, s, k);
          stop, me := Note(settings, me);
          if stop { return; }
        }
      }
    }
  }
}
