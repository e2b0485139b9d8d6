/** visitJSON: the visitor for decoded values, with its settings, its pattern cache and its errors. */
module SchemaVisitor {
  import opened Options
  import opened Schemas
  import opened SchemaVerdict
  import opened SchemaErrors
  import opened Violations

  class Settings {
    var failfast: bool
    var multiError: bool
    var asreq: bool
    var asrep: bool

    constructor ()
      ensures !failfast && !multiError && !asreq && !asrep
    {
      failfast, multiError, asreq, asrep := false, false, false, false;
    }
  }

  datatype SchemaValidationOption = FailFast | MultiErrors | VisitAsRequest | VisitAsResponse

  /** The fields are what the options ask for; request and response exclude each other, the later one counts. */
  ghost predicate SettingsFor(opts: seq<SchemaValidationOption>, settings: Settings)
    reads settings
  {
    && (settings.failfast <==> FailFast in opts)
    && (settings.multiError <==> MultiErrors in opts)
    && settings.asreq == LastIs(opts, VisitAsRequest, VisitAsResponse)
    && settings.asrep == LastIs(opts, VisitAsResponse, VisitAsRequest)
  }

  /** `one` occurs, and `other` does not occur after its last occurrence. */
  ghost predicate LastIs(opts: seq<SchemaValidationOption>, one: SchemaValidationOption,
                         other: SchemaValidationOption)
  {
    exists i :: 0 <= i < |opts| && opts[i] == one && forall j | i < j < |opts| :: opts[j] != other
  }

  /** newSchemaValidationSettings: the options assign fields of one record, in turn. */
  method NewSettings(opts: seq<SchemaValidationOption>) returns (settings: Settings)
    ensures fresh(settings) && SettingsFor(opts, settings)
    ensures !(settings.asreq && settings.asrep)
  {
    settings := new Settings();
    for i := 0 to |opts|
      invariant SettingsFor(opts[..i], settings) && !(settings.asreq && settings.asrep)
    {
      match opts[i] {
        case FailFast => settings.failfast := true;
        case MultiErrors => settings.multiError := true;
        case VisitAsRequest => settings.asreq, settings.asrep := true, false;
        case VisitAsResponse => settings.asreq, settings.asrep := false, true;
      }
      assert opts[..i + 1] == opts[..i] + [opts[i]];
      LastIsSnoc(opts[..i], opts[i], VisitAsRequest, VisitAsResponse);
      LastIsSnoc(opts[..i], opts[i], VisitAsResponse, VisitAsRequest);
    }
    assert opts[..|opts|] == opts;
  }

  lemma LastIsSnoc(opts: seq<SchemaValidationOption>, x: SchemaValidationOption,
                   one: SchemaValidationOption, other: SchemaValidationOption)
    requires one != other
    ensures LastIs(opts + [x], one, other) <==> x == one || (x != other && LastIs(opts, one, other))
  {
    var more := opts + [x];
    if x == one {
      assert more[|opts|] == one;
    }
    if x != other && LastIs(opts, one, other) {
      var i :| 0 <= i < |opts| && opts[i] == one && forall j | i < j < |opts| :: opts[j] != other;
      assert more[i] == one && forall j | i < j < |more| :: more[j] != other;
    }
    if LastIs(more, one, other) && x != one {
      var i :| 0 <= i < |more| && more[i] == one && forall j | i < j < |more| :: more[j] != other;
      assert more[|opts|] == x;
      assert opts[i] == one && forall j | i < j < |opts| :: opts[j] == more[j];
    }
  }

  // Errors at the top level of a result

  /** A list of errors without lists in it, no object twice. */
  ghost predicate Flat(errs: seq<Error>) {
    && (forall x <- errs :: x.ErrSchema? || x.Ptr?)
    && (forall i, j | 0 <= i < j < |errs| && errs[i].Ptr? && errs[j].Ptr? :: errs[i].e != errs[j].e)
  }

  ghost function Pointers(errs: seq<Error>): set<SchemaError> {
    set x | x in errs && x.Ptr? :: x.e
  }

  ghost function Objects(err: Error): set<SchemaError> {
    match err
    case Ptr(e) => {e}
    case Multi(errs) => Pointers(errs)
    case _ => {}
  }

  ghost predicate WellShaped(err: Error) {
    err != OneOfConflict && (err.Multi? ==> err.errs != [] && Flat(err.errs))
  }

  ghost predicate AllTruthful(c: Context, rank: Rank, es: set<SchemaError>, v: Json)
    requires WellFounded(c.g, rank)
    reads es
  {
    forall e <- es :: Truthful(c, rank, e.schema, e.field, e.reversePath, v)
  }

  /** markSchemaErrorKey and markSchemaErrorIndex: one more step, on every error object once. */
  method Mark(err: Error, step: string, ghost c: Context, ghost rank: Rank, ghost child: Json, ghost parent: Json)
    requires WellFounded(c.g, rank) && WellShaped(err)
    requires AllTruthful(c, rank, Objects(err), child) && StepOut(child, step, parent)
    modifies Objects(err)
    ensures forall e <- Objects(err) :: e.reversePath == old(e.reversePath) + [step]
    ensures AllTruthful(c, rank, Objects(err), parent)
    ensures Told(Objects(err)) == Inside(step, old(Told(Objects(err))))
  {
    hide WellFounded, StepOut, Truthful, Told, Inside, Reversed;
    ghost var es := Objects(err);
    ghost var paths := PathsOf(es);
    if err.Ptr? {
      TruthfulOutside(c, rank, err.e.schema, err.e.field, err.e.reversePath, child, step, parent);
      err.e.reversePath := err.e.reversePath + [step];
    } else if err.Multi? {
      for i := 0 to |err.errs|
        invariant forall j | 0 <= j < i && err.errs[j].Ptr? ::
                    && err.errs[j].e.reversePath == old(err.errs[j].e.reversePath) + [step]
                    && Truthful(c, rank, err.errs[j].e.schema, err.errs[j].e.field, err.errs[j].e.reversePath, parent)
        invariant forall j | i <= j < |err.errs| && err.errs[j].Ptr? ::
                    err.errs[j].e.reversePath == old(err.errs[j].e.reversePath)
      {
        if err.errs[i].Ptr? {
          var e := err.errs[i].e;
          TruthfulOutside(c, rank, e.schema, e.field, e.reversePath, child, step, parent);
          e.reversePath := e.reversePath + [step];
        }
      }
    }
    ToldInside(es, step, paths);
  }

  /** What the errors would tell if their reverse paths were these. */
  ghost function ToldFrom(paths: map<SchemaError, seq<string>>): set<Violation> {
    set e | e in paths :: Violation(Reversed(paths[e]), e.schema, e.field, e.value)
  }

  lemma PathsOf(es: set<SchemaError>) returns (paths: map<SchemaError, seq<string>>)
    ensures paths.Keys == es && (forall e <- es :: paths[e] == e.reversePath) && ToldFrom(paths) == Told(es)
  {
    paths := map e | e in es :: e.reversePath;
  }

  lemma ToldInside(es: set<SchemaError>, step: string, paths: map<SchemaError, seq<string>>)
    requires paths.Keys == es && forall e <- es :: e.reversePath == paths[e] + [step]
    ensures Told(es) == Inside(step, ToldFrom(paths))
  {
    hide Reversed;
    var was := ToldFrom(paths);
    forall e <- es
      ensures Reversed(e.reversePath) == [step] + Reversed(paths[e])
      ensures Violation(Reversed(e.reversePath), e.schema, e.field, e.value) in Inside(step, was)
    {
      ReversedSnoc(paths[e], step);
      var x := Violation(Reversed(paths[e]), e.schema, e.field, e.value);
      assert x in was && x.(path := [step] + x.path) in Inside(step, was);
    }
    forall y <- Inside(step, was)
      ensures y in Told(es)
    {
      var x :| x in was && y == x.(path := [step] + x.path);
      var e :| e in es && x == Violation(Reversed(paths[e]), e.schema, e.field, e.value);
    }
  }

  /** Appends an error to the list, or the errors of a list one by one. */
  function Collect(me: seq<Error>, err: Error): seq<Error> {
    if err.Multi? then me + err.errs else me + [err]
  }

  lemma CollectFlat(me: seq<Error>, err: Error)
    requires Flat(me) && WellShaped(err) && !err.NoError? && Objects(err) !! Pointers(me)
    ensures Flat(Collect(me, err)) && Collect(me, err) != []
    ensures Pointers(Collect(me, err)) == Pointers(me) + Objects(err)
  {
    var more := if err.Multi? then err.errs else [err];
    var all := me + more;
    assert Pointers(more) == Objects(err);
    forall i, j | 0 <= i < j < |all| && all[i].Ptr? && all[j].Ptr? ensures all[i].e != all[j].e {
      if i < |me| <= j {
        assert all[i] in me && all[j] in more;
        assert all[i].e in Pointers(me) && all[j].e in Pointers(more);
      }
    }
    forall e ensures e in Pointers(all) <==> e in Pointers(me) + Pointers(more) {
      assert Ptr(e) in all <==> Ptr(e) in me || Ptr(e) in more;
    }
  }

  ghost predicate Reported(c: Context, rank: Rank, err: Error, v: Json)
    requires WellFounded(c.g, rank)
    reads Objects(err)
  {
    WellShaped(err) && AllTruthful(c, rank, Objects(err), v)
  }

  ghost predicate Gathered(c: Context, rank: Rank, me: seq<Error>, v: Json)
    requires WellFounded(c.g, rank)
    reads Pointers(me)
  {
    Flat(me) && AllTruthful(c, rank, Pointers(me), v)
  }

  /** What the error objects tell. */
  ghost function Told(es: set<SchemaError>): set<Violation>
    reads es
  {
    set e | e in es :: Violation(Reversed(e.reversePath), e.schema, e.field, e.value)
  }

  /** Errors are collected, and none of them is replaced by the bare one. */
  predicate Collecting(settings: Settings)
    reads settings
  {
    settings.multiError && !settings.failfast
  }

  /** The errors tell nothing but these violations, and all of them where errors are collected. */
  ghost predicate Tells(settings: Settings, es: set<SchemaError>, all: set<Violation>)
    reads settings, es
  {
    Told(es) <= all && (Collecting(settings) ==> Told(es) == all)
  }

  lemma TellsTogether(settings: Settings, es: set<SchemaError>, told: set<Violation>, es': set<SchemaError>,
                      told': set<Violation>)
    requires Tells(settings, es, told) && Tells(settings, es', told')
    ensures Tells(settings, es + es', told + told')
  {
    assert Told(es + es') == Told(es) + Told(es');
  }

  lemma TellsNothing(settings: Settings)
    ensures Tells(settings, {}, {})
  {}

  lemma TellsPart(settings: Settings, es: set<SchemaError>, told: set<Violation>, all: set<Violation>)
    requires Tells(settings, es, told) && told <= all && !Collecting(settings)
    ensures Tells(settings, es, all)
  {}

  lemma ToldOne(e: SchemaError)
    ensures Told({e}) == {Violation(Reversed(e.reversePath), e.schema, e.field, e.value)}
    ensures Told({}) == {}
  {}

  lemma NothingGathered(c: Context, rank: Rank, v: Json)
    requires WellFounded(c.g, rank)
    ensures Gathered(c, rank, [], v) && Pointers([]) == {}
    ensures Reported(c, rank, NoError, v) && Reported(c, rank, ErrSchema, v)
    ensures Objects(NoError) == Objects(ErrSchema) == {}
  {}

  lemma CollectGathered(c: Context, rank: Rank, me: seq<Error>, err: Error, v: Json)
    requires WellFounded(c.g, rank) && Gathered(c, rank, me, v) && Reported(c, rank, err, v)
    requires !err.NoError? && Objects(err) !! Pointers(me)
    ensures Gathered(c, rank, Collect(me, err), v) && Collect(me, err) != []
    ensures Pointers(Collect(me, err)) == Pointers(me) + Objects(err)
  {
    CollectFlat(me, err);
  }

  /** `if len(me) > 0 { return me }; return nil` */
  function Finish(me: seq<Error>): Error {
    if |me| > 0 then Multi(me) else NoError
  }

  lemma FinishReported(c: Context, rank: Rank, me: seq<Error>, v: Json)
    requires WellFounded(c.g, rank) && Gathered(c, rank, me, v)
    ensures Reported(c, rank, Finish(me), v) && Objects(Finish(me)) == Pointers(me)
  {}

  // Counting the distinct keys of a list

  ghost function KeySet(ks: seq<string>): set<string> {
    set k | k in ks
  }

  lemma {:induction false} DistinctByCount(ks: seq<string>)
    ensures |KeySet(ks)| <= |ks|
    ensures |KeySet(ks)| == |ks| <==> Distinct(ks)
  {
    if ks == [] {
      assert KeySet(ks) == {};
    } else {
      var init, last := ks[..|ks| - 1], ks[|ks| - 1];
      DistinctByCount(init);
      assert ks == init + [last];
      assert KeySet(ks) == KeySet(init) + {last};
      if last in init {
        assert KeySet(ks) == KeySet(init);
        var i :| 0 <= i < |init| && init[i] == last;
        assert ks[i] == ks[|ks| - 1];
      } else {
        if Distinct(init) {
          assert Distinct(ks);
        }
        if Distinct(ks) {
          assert forall i | 0 <= i < |init| :: init[i] == ks[i];
        }
      }
    }
  }

  /** isSliceOfUniqueItems */
  method IsSliceOfUniqueItems(env: Env, xs: seq<Json>) returns (unique: bool)
    ensures unique <==> Distinct(ItemKeys(env, xs))
  {
    ghost var ks := ItemKeys(env, xs);
    var m: set<string> := {};
    for i := 0 to |xs|
      invariant m == KeySet(ks[..i])
    {
      assert ks[..i + 1] == ks[..i] + [ks[i]];
      m := m + {env.itemKey(xs[i])};
    }
    assert ks[..|xs|] == ks;
    DistinctByCount(ks);
    unique := |xs| == |m|;
  }

  // From the parts of a verdict to the verdict

  lemma FirstBroken(c: Context, rank: Rank, id: Id, v: Json)
    requires WellFounded(c.g, rank) && id in c.g
    ensures var s, all := c.g[id], CombinatorViolations(c, rank, id, v);
            if s.enum != [] then all == if v in s.enum then {} else Broken(true, id, "enum", v)
            else if !NotOk(c, rank, id, v) then all == Broken(true, id, "not", v)
            else if !OneOfOk(c, rank, id, v) then all == Broken(true, id, "oneOf", v)
            else if !AnyOfOk(c, rank, id, v) then all == Broken(true, id, "anyOf", v)
            else all == if AllOfOk(c, rank, id, v) then {} else Broken(true, id, "allOf", v)
  {
    hide NotOk, OneOfOk, AnyOfOk, AllOfOk;
  }

  lemma SetRejects(c: Context, rank: Rank, id: Id, v: Json)
    requires WellFounded(c.g, rank) && id in c.g && !v.Null? && id !in c.empty
    ensures !SetOperationsOk(c, rank, id, v) ==> Rejects(c, rank, id, v)
  {}

  lemma ShapeRejects(c: Context, rank: Rank, id: Id, v: Json)
    requires WellFounded(c.g, rank) && id in c.g && !v.Null? && id !in c.empty
    ensures !ShapeOk(c, rank, id, v) ==> Rejects(c, rank, id, v)
  {}

  lemma NullVerdict(c: Context, rank: Rank, id: Id)
    requires WellFounded(c.g, rank) && id in c.g
    ensures if c.g[id].nullable then Valid(c, rank, id, Null) else Rejects(c, rank, id, Null)
  {}

  lemma Verdict(c: Context, rank: Rank, id: Id, v: Json)
    requires WellFounded(c.g, rank) && id in c.g && !v.Null?
    ensures Valid(c, rank, id, v) <==> id in c.empty || (SetOperationsOk(c, rank, id, v) && ShapeOk(c, rank, id, v))
  {}

  lemma PartVerdict(c: Context, rank: Rank, id: Id, r: SchemaRef, v: Json)
    requires WellFounded(c.g, rank) && id in c.g && Combines(c.g[id], r)
    ensures Resolved(c.g, r) && Target(c.g, r) in rank && id in rank && rank[Target(c.g, r)] < rank[id]
    ensures PartValid(c, rank, id, r, v) <==> Valid(c, rank, Target(c.g, r), v)
    ensures StringDiscriminators(c, rank, id, v) ==> StringDiscriminators(c, rank, Target(c.g, r), v)
  {}

  class Validator {
    const c: Context
    ghost const rank: Rank

    /** The schemas whose compiledPattern is set. */
    var compiled: set<Id>

    constructor (c: Context, ghost rank: Rank)
      requires WellFounded(c.g, rank)
      ensures this.c == c && this.rank == rank && compiled == {} && CacheOk()
    {
      this.c, this.rank, compiled := c, rank, {};
    }

    ghost predicate CacheOk()
      reads this
    {
      forall id <- compiled :: id in c.g && c.g[id].pattern != "" && c.env.compiles(c.g[id].pattern)
    }

    ghost predicate Ready(settings: Settings, id: Id, v: Json)
      reads this, settings
    {
      && WellFounded(c.g, rank) && CacheOk() && id in c.g
      && settings.asreq == c.asreq && settings.asrep == c.asrep
      && StringDiscriminators(c, rank, id, v)
    }

    /** `if settings.failfast { return errSchema }; return &SchemaError{...}` */
    method Fail(settings: Settings, id: Id, field: string, v: Json, value: Json, origin: Error) returns (err: Error)
      requires WellFounded(c.g, rank) && Rejects(c, rank, id, v) && field != "required"
      ensures !err.NoError? && !err.Multi? && Reported(c, rank, err, v) && fresh(Objects(err))
      ensures err.ErrSchema? <==> settings.failfast
      ensures Tells(settings, Objects(err), Broken(true, id, field, value))
    {
      hide WellFounded, Rejects, Valid, Truthful;
      if settings.failfast {
        NothingGathered(c, rank, v);
        return ErrSchema;
      }
      var e := new SchemaError(id, field, value, origin);
      TruthfulHere(c, rank, id, field, v);
      ToldOne(e);
      err := Ptr(e);
    }

    /** An error ends the visit unless errors are being collected. */
    method Note(settings: Settings, me: seq<Error>, id: Id, field: string, v: Json, heedFailfast: bool)
      returns (stop: bool, err: Error, more: seq<Error>)
      requires WellFounded(c.g, rank) && Rejects(c, rank, id, v) && field != "required"
      requires Gathered(c, rank, me, v)
      ensures !err.NoError? && Reported(c, rank, err, v) && fresh(Objects(err)) && (stop ==> !Collecting(settings))
      ensures Tells(settings, Objects(err), Broken(true, id, field, v))
      ensures Gathered(c, rank, more, v) && more != [] && Pointers(more) == Pointers(me) + Objects(err)
    {
      hide WellFounded, Rejects, Valid, Truthful, Reported, Gathered;
      ghost var pointers := Pointers(me);
      assert forall p <- pointers :: allocated(p);
      if heedFailfast && settings.failfast {
        stop := true;
        err := Fail(settings, id, field, v, v, NoError);
      } else {
        stop := !settings.multiError;
        var e := new SchemaError(id, field, v, NoError);
        HereReported(e, v);
        ToldOne(e);
        err := Ptr(e);
      }
      CollectGathered(c, rank, me, err, v);
      more := Collect(me, err);
    }

    /** A check of a keyword: an error if it is broken, in the way of this mode. */
    method Check(settings: Settings, me: seq<Error>, id: Id, field: string, v: Json, broken: bool, heedFailfast: bool,
                 ghost told: set<Violation>, ghost all: set<Violation>)
      returns (stop: bool, err: Error, more: seq<Error>)
      requires WellFounded(c.g, rank) && (broken ==> Rejects(c, rank, id, v)) && field != "required"
      requires Gathered(c, rank, me, v) && Tells(settings, Pointers(me), told)
      requires Broken(broken, id, field, v) <= all
      ensures stop ==> broken && !err.NoError? && Reported(c, rank, err, v) && Tells(settings, Objects(err), all)
      ensures stop ==> fresh(Objects(err))
      ensures !stop ==> Gathered(c, rank, more, v) && forall p <- Pointers(more) :: p in Pointers(me) || fresh(p)
      ensures !stop ==> Tells(settings, Pointers(more), told + Broken(broken, id, field, v))
      ensures !stop ==> (more == [] <==> me == [] && !broken)
    {
      hide WellFounded, Rejects, Valid, Truthful, Reported, Gathered, Told;
      stop, err, more := false, NoError, me;
      if broken {
        stop, err, more := Note(settings, me, id, field, v, heedFailfast);
        if stop {
          TellsPart(settings, Objects(err), Broken(true, id, field, v), all);
        } else {
          TellsTogether(settings, Pointers(me), told, Objects(err), Broken(true, id, field, v));
        }
      } else {
        assert told + Broken(false, id, field, v) == told;
      }
    }

    lemma HereReported(e: SchemaError, v: Json)
      requires WellFounded(c.g, rank) && Rejects(c, rank, e.schema, v) && e.field != "required" && e.reversePath == []
      ensures Reported(c, rank, Ptr(e), v) && Objects(Ptr(e)) == {e}
    {
      TruthfulHere(c, rank, e.schema, e.field, v);
    }

    method VisitJSONNumber(settings: Settings, id: Id, v: Json) returns (err: Error)
      requires v.Num? && Ready(settings, id, v) && id !in c.empty
      ensures err.NoError? <==> NumberOk(c.g[id], v.n)
      ensures Reported(c, rank, err, v) && fresh(Objects(err))
      ensures Tells(settings, Objects(err), NumberViolations(c.g[id], id, v.n))
    {
      hide WellFounded, StringDiscriminators, Rejects, Valid, ShapeOk, Reported, Gathered, Pointers, IsInt, Tells,
           NumberViolations, Broken, NumberOk, BoundsOk, TypeTold, BoundsTold;
      NumberRejects(c, rank, id, v);
      NothingGathered(c, rank, v);
      TellsNothing(settings);
      var s, n, me, stop := c.g[id], v.n, [], false;
      ghost var all, told := NumberViolations(s, id, n), {};
      NumberParts(s, id, n);
      if s.typ == "integer" {
        stop, err, me := Check(settings, me, id, "type", v, !IsInt(n), true, told, all);
        if stop { return; }
      } else if s.typ != "" && s.typ != "number" {
        err := Fail(settings, id, "type", v, Str("number, integer"), NoError);
        return;
      }
      stop, err, me := VisitBounds(settings, id, v, me, TypeTold(s, id, n), all);
      if stop { return; }
      told := TypeTold(s, id, n) + BoundsTold(s, id, n);
      stop, err, me := Check(settings, me, id, "multipleOf", v,
                             s.multipleOf.Some? && !IsInt(n / s.multipleOf.value), true, told, all);
      if stop { return; }
      FinishReported(c, rank, me, v);
      err := Finish(me);
    }

    /** The checks of the four bounds of a number. */
    method VisitBounds(settings: Settings, id: Id, v: Json, before: seq<Error>, ghost told: set<Violation>,
                       ghost all: set<Violation>)
      returns (stop: bool, err: Error, me: seq<Error>)
      requires v.Num? && WellFounded(c.g, rank) && id in c.g && Sane(c.g[id])
      requires !BoundsOk(c.g[id], v.n) ==> Rejects(c, rank, id, v)
      requires Gathered(c, rank, before, v) && Tells(settings, Pointers(before), told)
      requires BoundsTold(c.g[id], id, v.n) <= all
      ensures stop ==> !BoundsOk(c.g[id], v.n)
      ensures stop ==> !err.NoError? && Reported(c, rank, err, v) && Tells(settings, Objects(err), all)
      ensures stop ==> fresh(Objects(err))
      ensures !stop ==> Gathered(c, rank, me, v) && forall p <- Pointers(me) :: p in Pointers(before) || fresh(p)
      ensures !stop ==> Tells(settings, Pointers(me), told + BoundsTold(c.g[id], id, v.n))
      ensures !stop ==> (me == [] <==> before == [] && BoundsOk(c.g[id], v.n))
    {
      hide WellFounded, Rejects, Valid, Reported, Gathered, Pointers, Tells, Broken;
      var s, n := c.g[id], v.n;
      ghost var so := told;
      stop, err, me :=
        Check(settings, before, id, "exclusiveMinimum", v, s.exclusiveMin && !(s.min.value < n), true, so, all);
      if stop { return; }
      so := so + Broken(s.exclusiveMin && !(s.min.value < n), id, "exclusiveMinimum", v);
      stop, err, me :=
        Check(settings, me, id, "exclusiveMaximum", v, s.exclusiveMax && !(s.max.value > n), true, so, all);
      if stop { return; }
      so := so + Broken(s.exclusiveMax && !(s.max.value > n), id, "exclusiveMaximum", v);
      stop, err, me := Check(settings, me, id, "minimum", v, s.min.Some? && !(s.min.value <= n), true, so, all);
      if stop { return; }
      so := so + Broken(s.min.Some? && !(s.min.value <= n), id, "minimum", v);
      stop, err, me := Check(settings, me, id, "maximum", v, s.max.Some? && !(s.max.value >= n), true, so, all);
      if stop { return; }
      so := so + Broken(s.max.Some? && !(s.max.value >= n), id, "maximum", v);
      assert so == told + BoundsTold(s, id, n);
    }

    method VisitJSONBoolean(settings: Settings, id: Id, v: Json) returns (err: Error)
      requires v.Bool? && Ready(settings, id, v) && id !in c.empty
      ensures err.NoError? <==> ShapeOk(c, rank, id, v)
      ensures Reported(c, rank, err, v) && fresh(Objects(err))
      ensures Tells(settings, Objects(err), ShapeViolations(c, rank, id, v))
    {
      hide WellFounded, StringDiscriminators, Rejects, Valid, Reported, Tells;
      ShapeRejects(c, rank, id, v);
      NothingGathered(c, rank, v);
      TellsNothing(settings);
      if c.g[id].typ != "" && c.g[id].typ != "boolean" {
        err := Fail(settings, id, "type", v, Str("boolean"), NoError);
      } else {
        err := NoError;
      }
    }

    method VisitJSONNull(settings: Settings, id: Id) returns (err: Error)
      requires Ready(settings, id, Null)
      ensures err.NoError? <==> Valid(c, rank, id, Null)
      ensures Reported(c, rank, err, Null) && fresh(Objects(err))
      ensures Tells(settings, Objects(err), ViolationsOf(c, rank, id, Null))
    {
      hide WellFounded, StringDiscriminators, Valid, Reported, Tells;
      NullVerdict(c, rank, id);
      NothingGathered(c, rank, Null);
      TellsNothing(settings);
      if c.g[id].nullable {
        return NoError;
      }
      err := Fail(settings, id, "nullable", Null, Null, NoError);
    }

    /** The compiled pattern is kept for later visits; only patterns that compile are kept. */
    method VisitJSONString(settings: Settings, id: Id, v: Json) returns (err: Error)
      requires v.Str? && Ready(settings, id, v) && id !in c.empty
      modifies this`compiled
      ensures CacheOk()
      ensures err.NoError? <==> StringOk(c.env, c.g[id], v.s)
      ensures Reported(c, rank, err, v) && fresh(Objects(err))
      ensures Tells(settings, Objects(err), StringViolations(c.env, c.g[id], id, v.s))
    {
      hide WellFounded, StringDiscriminators, Rejects, Valid, ShapeOk, Reported, Gathered, Pointers, Tells,
           StringViolations, Broken, StringOk, LengthTold, PatternOk;
      StringRejects(c, rank, id, v);
      NothingGathered(c, rank, v);
      TellsNothing(settings);
      var s, me, stop := c.g[id], [], false;
      ghost var all, told := StringViolations(c.env, s, id, v.s), {};
      StringParts(c.env, s, id, v.s);
      if s.typ != "" && s.typ != "string" {
        err := Fail(settings, id, "type", v, Str("string"), NoError);
        return;
      }
      stop, err, me := VisitLength(settings, id, v, all);
      if stop { return; }
      told := LengthTold(s, id, v.s);
      stop, err, me := VisitPattern(settings, id, v, me, told, all);
      if stop { return; }
      told := told + Broken(!PatternOk(c.env, s, v.s), id, "pattern", v);
      stop, err, me :=
        Check(settings, me, id, "format", v, s.format != "" && !c.env.formatOk(s.format, v.s), false, told, all);
      if stop { return; }
      FinishReported(c, rank, me, v);
      err := Finish(me);
    }

    /** The check of the pattern, which is compiled first if it has not been before. */
    method VisitPattern(settings: Settings, id: Id, v: Json, before: seq<Error>, ghost told: set<Violation>,
                        ghost all: set<Violation>)
      returns (stop: bool, err: Error, me: seq<Error>)
      requires v.Str? && Ready(settings, id, v) && Gathered(c, rank, before, v)
      requires Tells(settings, Pointers(before), told)
      requires !PatternOk(c.env, c.g[id], v.s) ==> Rejects(c, rank, id, v)
      requires Broken(!PatternOk(c.env, c.g[id], v.s), id, "pattern", v) <= all
      modifies this`compiled
      ensures CacheOk()
      ensures stop ==> !PatternOk(c.env, c.g[id], v.s)
      ensures stop ==> !err.NoError? && Reported(c, rank, err, v) && Tells(settings, Objects(err), all)
      ensures stop ==> fresh(Objects(err))
      ensures !stop ==> Gathered(c, rank, me, v) && forall p <- Pointers(me) :: p in Pointers(before) || fresh(p)
      ensures !stop ==> Tells(settings, Pointers(me), told + Broken(!PatternOk(c.env, c.g[id], v.s), id, "pattern", v))
      ensures !stop ==> (me == [] <==> before == [] && PatternOk(c.env, c.g[id], v.s))
    {
      hide WellFounded, StringDiscriminators, Rejects, Valid, Reported, Gathered, Pointers, Tells, Broken;
      NothingBroken(id, "pattern", v);
      assert told + {} == told;
      var s := c.g[id];
      me, stop, err := before, false, NoError;
      if s.pattern != "" && id !in compiled {
        if c.env.compiles(s.pattern) {
          compiled := compiled + {id};
        } else {
          stop, err, me := Check(settings, me, id, "pattern", v, true, false, told, all);
          if stop { return; }
        }
      }
      if id in compiled {
        stop, err, me := Check(settings, me, id, "pattern", v, !c.env.matches(s.pattern, v.s), false, told, all);
      }
    }

    /** The checks on the length of a string. */
    method VisitLength(settings: Settings, id: Id, v: Json, ghost all: set<Violation>)
      returns (stop: bool, err: Error, me: seq<Error>)
      requires v.Str? && WellFounded(c.g, rank) && id in c.g && LengthTold(c.g[id], id, v.s) <= all
      requires !StringOk(c.env, c.g[id], v.s) ==> Rejects(c, rank, id, v)
      ensures stop ==> !StringOk(c.env, c.g[id], v.s)
      ensures stop ==> !err.NoError? && Reported(c, rank, err, v) && Tells(settings, Objects(err), all)
      ensures stop ==> fresh(Objects(err))
      ensures !stop ==> Gathered(c, rank, me, v) && fresh(Pointers(me))
      ensures !stop ==> Tells(settings, Pointers(me), LengthTold(c.g[id], id, v.s))
      ensures !stop ==> (me == [] <==> LengthTold(c.g[id], id, v.s) == {})
    {
      hide WellFounded, Rejects, Valid, Reported, Gathered, Pointers, Tells;
      NothingGathered(c, rank, v);
      TellsNothing(settings);
      me, stop, err := [], false, NoError;
      var s := c.g[id];
      ghost var told: set<Violation> := {};
      if s.minLength != 0 || s.maxLength.Some? {
        var length := |v.s|;
        stop, err, me :=
          Check(settings, me, id, "minLength", v, s.minLength != 0 && length < Int64(s.minLength), true, told, all);
        if stop { return; }
        told := told + Broken(s.minLength != 0 && length < Int64(s.minLength), id, "minLength", v);
        stop, err, me := Check(settings, me, id, "maxLength", v,
                               s.maxLength.Some? && length > Int64(s.maxLength.value), true, told, all);
      }
    }

    /** Runs a combined schema with `failfast` overwritten, and puts the flag back. */
    method VisitPart(settings: Settings, id: Id, r: SchemaRef, v: Json, failfast: bool) returns (err: Error)
      requires Ready(settings, id, v) && Combines(c.g[id], r)
      modifies settings`failfast, this`compiled
      ensures CacheOk() && settings.failfast == old(settings.failfast)
      ensures err.NoError? <==> PartValid(c, rank, id, r, v)
      decreases v, 0, rank[id], 1
    {
      hide WellFounded, StringDiscriminators, Valid, PartValid, Reported, Combines;
      PartVerdict(c, rank, id, r, v);
      var oldfailfast := settings.failfast;
      settings.failfast := failfast;
      err := VisitJSON(settings, r.value.value, v);
      settings.failfast := oldfailfast;
    }

    method VisitNot(settings: Settings, id: Id, v: Json) returns (ok: bool)
      requires Ready(settings, id, v)
      modifies settings`failfast, this`compiled
      ensures CacheOk() && settings.failfast == old(settings.failfast)
      ensures ok <==> NotOk(c, rank, id, v)
      decreases v, 0, rank[id], 2
    {
      hide WellFounded, StringDiscriminators, PartValid;
      var s := c.g[id];
      ok := true;
      if s.negated.Some? {
        var err := VisitPart(settings, id, s.negated.value, v, true);
        ok := !err.NoError?;
      }
    }

    /** Whether the discriminator, if any, allows an alternative. */
    method Allowed(id: Id, i: nat, v: Json) returns (allowed: bool)
      requires WellFounded(c.g, rank) && id in c.g && i < |c.g[id].oneOf| && StringDiscriminators(c, rank, id, v)
      ensures allowed <==> Discriminates(c.g[id], c.g[id].oneOf[i], v)
    {
      hide WellFounded, StringDiscriminators;
      var s := c.g[id];
      allowed := true;
      if s.discriminator.Some? {
        allowed := false;
        var pn := s.discriminator.value.propertyName;
        if v.Obj? && pn in v.fields {
          DiscriminatorIsString(c, rank, id, v);
          var name := v.fields[pn].s;
          allowed := name in s.discriminator.value.mapping && s.discriminator.value.mapping[name] == s.oneOf[i].ref;
        }
      }
    }

    /** Counts the alternatives that accept the value and that the discriminator allows. */
    method VisitOneOf(settings: Settings, id: Id, v: Json) returns (ok: nat)
      requires Ready(settings, id, v)
      modifies settings`failfast, this`compiled
      ensures CacheOk() && settings.failfast == old(settings.failfast)
      ensures c.g[id].oneOf == [] || (ok == 1 <==> OneOfOk(c, rank, id, v))
      decreases v, 0, rank[id], 2
    {
      hide WellFounded, StringDiscriminators, PartValid, OneOfOk, Discriminates, ChosenAmong;
      var s := c.g[id];
      ok := 0;
      AllChosen(c, rank, id, v);
      for i := 0 to |s.oneOf|
        invariant CacheOk() && settings.failfast == old(settings.failfast)
        invariant ok == ChosenAmong(c, rank, id, v, i)
      {
        var err := VisitPart(settings, id, s.oneOf[i], v, true);
        OneMoreChosen(c, rank, id, v, i);
        if err.NoError? {
          var allowed := Allowed(id, i, v);
          if allowed {
            ok := ok + 1;
          }
        }
      }
    }

    method VisitAnyOf(settings: Settings, id: Id, v: Json) returns (ok: bool)
      requires Ready(settings, id, v)
      modifies settings`failfast, this`compiled
      ensures CacheOk() && settings.failfast == old(settings.failfast)
      ensures c.g[id].anyOf == [] || (ok <==> AnyOfOk(c, rank, id, v))
      decreases v, 0, rank[id], 2
    {
      hide WellFounded, StringDiscriminators, PartValid;
      var s := c.g[id];
      ok := false;
      for i := 0 to |s.anyOf|
        invariant CacheOk() && settings.failfast == old(settings.failfast)
        invariant !ok && forall j | 0 <= j < i :: !PartValid(c, rank, id, s.anyOf[j], v)
      {
        var err := VisitPart(settings, id, s.anyOf[i], v, true);
        if err.NoError? {
          return true;
        }
      }
    }

    /** The error of the first member of allOf that rejects the value, visited without failfast. */
    method VisitAllOf(settings: Settings, id: Id, v: Json) returns (origin: Error)
      requires Ready(settings, id, v)
      modifies settings`failfast, this`compiled
      ensures CacheOk() && settings.failfast == old(settings.failfast)
      ensures origin.NoError? <==> AllOfOk(c, rank, id, v)
      decreases v, 0, rank[id], 2
    {
      hide WellFounded, StringDiscriminators, PartValid;
      var s := c.g[id];
      for i := 0 to |s.allOf|
        invariant CacheOk() && settings.failfast == old(settings.failfast)
        invariant forall j | 0 <= j < i :: PartValid(c, rank, id, s.allOf[j], v)
      {
        origin := VisitPart(settings, id, s.allOf[i], v, false);
        if !origin.NoError? {
          return;
        }
      }
      origin := NoError;
    }

    method VisitSetOperations(settings: Settings, id: Id, v: Json) returns (err: Error)
      requires Ready(settings, id, v) && id !in c.empty && !v.Null?
      modifies settings`failfast, this`compiled
      ensures CacheOk() && settings.failfast == old(settings.failfast)
      ensures err.NoError? <==> SetOperationsOk(c, rank, id, v)
      ensures Reported(c, rank, err, v) && fresh(Objects(err))
      ensures Tells(settings, Objects(err), CombinatorViolations(c, rank, id, v))
      decreases v, 0, rank[id], 3
    {
      hide WellFounded, StringDiscriminators, Rejects, Valid, PartValid, Reported, NotOk, OneOfOk, AnyOfOk, AllOfOk,
           Tells, CombinatorViolations, Broken;
      TellsNothing(settings);
      FirstBroken(c, rank, id, v);
      SetRejects(c, rank, id, v);
      NothingToCombine(c, rank, id, v);
      NothingGathered(c, rank, v);
      var s := c.g[id];
      if |s.enum| != 0 {
        if v in s.enum {
          return NoError;
        }
        err := Fail(settings, id, "enum", v, v, NoError);
        return;
      }
      var accepted := VisitNot(settings, id, v);
      if !accepted {
        err := Fail(settings, id, "not", v, v, NoError);
        return;
      }
      if |s.oneOf| > 0 {
        var ok := VisitOneOf(settings, id, v);
        if ok != 1 {
          err := Fail(settings, id, "oneOf", v, v, if ok > 1 then OneOfConflict else NoError);
          return;
        }
      }
      if |s.anyOf| > 0 {
        var ok := VisitAnyOf(settings, id, v);
        if !ok {
          err := Fail(settings, id, "anyOf", v, v, NoError);
          return;
        }
      }
      var origin := VisitAllOf(settings, id, v);
      if !origin.NoError? {
        err := Fail(settings, id, "allOf", v, v, origin);
        return;
      }
      err := NoError;
    }

    method VisitJSON(settings: Settings, id: Id, v: Json) returns (err: Error)
      requires Ready(settings, id, v)
      modifies settings`failfast, this`compiled
      ensures CacheOk() && settings.failfast == old(settings.failfast)
      ensures err.NoError? <==> Valid(c, rank, id, v)
      ensures Reported(c, rank, err, v) && fresh(Objects(err))
      ensures Tells(settings, Objects(err), ViolationsOf(c, rank, id, v))
      decreases v, 0, rank[id], 4
    {
      hide WellFounded, StringDiscriminators, Valid, ShapeOk, SetOperationsOk, Reported, Tells, ShapeViolations,
           CombinatorViolations;
      NothingGathered(c, rank, v);
      TellsNothing(settings);
      if v.Null? {
        assert v == Null;
        err := VisitJSONNull(settings, id);
        return;
      }
      Verdict(c, rank, id, v);
      if id in c.empty {
        return NoError;
      }
      err := VisitSetOperations(settings, id, v);
      if !err.NoError? {
        return;
      }
      err := VisitShape(settings, id, v);
    }

    /** The switch on the value's type. */
    method VisitShape(settings: Settings, id: Id, v: Json) returns (err: Error)
      requires Ready(settings, id, v) && id !in c.empty && !v.Null?
      modifies settings`failfast, this`compiled
      ensures CacheOk() && settings.failfast == old(settings.failfast)
      ensures err.NoError? <==> ShapeOk(c, rank, id, v)
      ensures Reported(c, rank, err, v) && fresh(Objects(err))
      ensures Tells(settings, Objects(err), ShapeViolations(c, rank, id, v))
      decreases v, 0, rank[id], 3
    {
      hide WellFounded, StringDiscriminators, Valid, ShapeOk, Reported, NumberOk, StringOk, Tells, NumberViolations,
           StringViolations;
      match v
      case Bool(_) => err := VisitJSONBoolean(settings, id, v);
      case Num(_) =>
        NumberRejects(c, rank, id, v);
        err := VisitJSONNumber(settings, id, v);
      case Str(_) =>
        StringRejects(c, rank, id, v);
        err := VisitJSONString(settings, id, v);
      case Arr(_) => err := VisitJSONArray(settings, id, v);
      case Obj(_) => err := VisitJSONObject(settings, id, v);
    }

    method VisitJSONArray(settings: Settings, id: Id, v: Json) returns (err: Error)
      requires v.Arr? && Ready(settings, id, v) && id !in c.empty
      modifies settings`failfast, this`compiled
      ensures CacheOk() && settings.failfast == old(settings.failfast)
      ensures err.NoError? <==> ShapeOk(c, rank, id, v)
      ensures Reported(c, rank, err, v) && fresh(Objects(err))
      ensures Tells(settings, Objects(err), ShapeViolations(c, rank, id, v))
      decreases v, 0, rank[id], 2
    {
      hide WellFounded, StringDiscriminators, Rejects, Valid, ShapeOk, Reported, Gathered, Pointers, Truthful, Tells,
           ShapeViolations, ItemViolations, CountViolations, Broken;
      ShapeRejects(c, rank, id, v);
      ArrayShape(c, rank, id, v);
      ArrayParts(c, rank, id, v);
      var s, unique, stop, me := c.g[id], true, false, [];
      ghost var all := ShapeViolations(c, rank, id, v);
      if s.typ != "" && s.typ != "array" {
        err := Fail(settings, id, "type", v, Str("array"), NoError);
        return;
      }
      if s.uniqueItems {
        unique := IsSliceOfUniqueItems(c.env, v.items);
      }
      stop, err, me := VisitCount(settings, id, v, |v.items|, s.minItems, s.maxItems, "minItems", "maxItems", all);
      if stop { return; }
      ghost var told := CountViolations(id, v, |v.items|, s.minItems, s.maxItems, "minItems", "maxItems");
      stop, err, me := Check(settings, me, id, "uniqueItems", v, !unique, true, told, all);
      if stop { return; }
      told := told + Broken(!unique, id, "uniqueItems", v);
      if s.items.Some? {
        stop, err, me := VisitItems(settings, id, v, me, told, all);
        if stop { return; }
      }
      assert told + {} == told;
      FinishReported(c, rank, me, v);
      err := Finish(me);
    }

    /** The checks on the number of elements or fields. */
    method VisitCount(settings: Settings, id: Id, v: Json, n: nat, least: Uint64, most: Option<Uint64>,
                      leastField: string, mostField: string, ghost all: set<Violation>)
      returns (stop: bool, err: Error, me: seq<Error>)
      requires WellFounded(c.g, rank) && (!CountOk(n, least, most) ==> Rejects(c, rank, id, v))
      requires leastField != "required" && mostField != "required"
      requires CountViolations(id, v, n, least, most, leastField, mostField) <= all
      ensures stop ==> !err.NoError? && !CountOk(n, least, most) && Reported(c, rank, err, v) && fresh(Objects(err))
      ensures stop ==> Tells(settings, Objects(err), all)
      ensures !stop ==> Gathered(c, rank, me, v) && fresh(Pointers(me)) && (me == [] <==> CountOk(n, least, most))
      ensures !stop ==>
                Tells(settings, Pointers(me), CountViolations(id, v, n, least, most, leastField, mostField))
    {
      hide WellFounded, Rejects, Valid, Reported, Gathered, Pointers, Truthful, Tells, Broken;
      NothingGathered(c, rank, v);
      TellsNothing(settings);
      me, stop, err := [], false, NoError;
      stop, err, me := Check(settings, me, id, leastField, v, least != 0 && n < Int64(least), true, {}, all);
      if stop { return; }
      ghost var told := {} + Broken(least != 0 && n < Int64(least), id, leastField, v);
      stop, err, me := Check(settings, me, id, mostField, v, most.Some? && n > Int64(most.value), true, told, all);
      assert {} + Broken(least != 0 && n < Int64(least), id, leastField, v) ==
             Broken(least != 0 && n < Int64(least), id, leastField, v);
    }

    /** The loop over the elements; `stop` with an error, or the errors gathered. */
    method VisitItems(settings: Settings, id: Id, v: Json, before: seq<Error>, ghost told: set<Violation>,
                      ghost all: set<Violation>)
      returns (stop: bool, err: Error, me: seq<Error>)
      requires v.Arr? && Ready(settings, id, v) && c.g[id].items.Some? && Gathered(c, rank, before, v)
      requires Tells(settings, Pointers(before), told) && ItemViolations(c, rank, id, v, |v.items|) <= all
      modifies settings`failfast, this`compiled
      ensures CacheOk() && settings.failfast == old(settings.failfast)
      ensures stop ==> !err.NoError? && !ItemsOk(c, rank, id, v)
      ensures stop ==> Reported(c, rank, err, v) && fresh(Objects(err)) && Tells(settings, Objects(err), all)
      ensures !stop ==> Gathered(c, rank, me, v) && forall p <- Pointers(me) :: p in Pointers(before) || fresh(p)
      ensures !stop ==> (me == [] <==> before == [] && ItemsOk(c, rank, id, v))
      ensures !stop ==> Tells(settings, Pointers(me), told + ItemViolations(c, rank, id, v, |v.items|))
      decreases v, 0, rank[id], 1
    {
      hide WellFounded, StringDiscriminators, Valid, Reported, Gathered, Pointers, Truthful, Tells, ViolationsOf,
           ItemViolations, StepOut, Inside;
      ItemsResolved(c, rank, id);
      NoItemViolations(c, rank, id, v);
      var items := c.g[id].items.value.value.value;
      me, err := before, NoError;
      assert told + {} == told;
      for i := 0 to |v.items|
        invariant CacheOk() && settings.failfast == old(settings.failfast)
        invariant Gathered(c, rank, me, v) && forall p <- Pointers(me) :: p in Pointers(before) || fresh(p)
        invariant me == [] <==> before == [] && forall j | 0 <= j < i :: Valid(c, rank, items, v.items[j])
        invariant Tells(settings, Pointers(me), told + ItemViolations(c, rank, id, v, i))
      {
        stop, err, me := VisitItem(settings, id, v, i, me, told, all);
        if stop { return; }
      }
      stop := false;
    }

    /** The body of that loop. */
    method VisitItem(settings: Settings, id: Id, v: Json, i: nat, before: seq<Error>, ghost told: set<Violation>,
                     ghost all: set<Violation>)
      returns (stop: bool, err: Error, me: seq<Error>)
      requires v.Arr? && Ready(settings, id, v) && c.g[id].items.Some? && Gathered(c, rank, before, v)
      requires i < |v.items| && Tells(settings, Pointers(before), told + ItemViolations(c, rank, id, v, i))
      requires ItemViolations(c, rank, id, v, |v.items|) <= all
      modifies settings`failfast, this`compiled
      ensures CacheOk() && settings.failfast == old(settings.failfast)
      ensures Resolved(c.g, c.g[id].items.value)
      ensures stop ==> !err.NoError? && !Valid(c, rank, Target(c.g, c.g[id].items.value), v.items[i])
      ensures stop ==> Reported(c, rank, err, v) && fresh(Objects(err)) && Tells(settings, Objects(err), all)
      ensures !stop ==> Gathered(c, rank, me, v) && forall p <- Pointers(me) :: p in Pointers(before) || fresh(p)
      ensures !stop ==>
                if Valid(c, rank, Target(c.g, c.g[id].items.value), v.items[i]) then me == before else me != []
      ensures !stop ==> Tells(settings, Pointers(me), told + ItemViolations(c, rank, id, v, i + 1))
      decreases v, 0, rank[id], 0
    {
      hide WellFounded, StringDiscriminators, Valid, Reported, Gathered, Pointers, Truthful, Tells, ViolationsOf,
           ItemViolations, Inside;
      ItemsReady(c, rank, id, v);
      MoreItemViolations(c, rank, id, v, i);
      var items := c.g[id].items.value.value.value;
      ghost var so := told + ItemViolations(c, rank, id, v, i);
      stop, err, me := VisitInside(settings, items, v.items[i], Decimal(i), v, before, false, so, all);
      assert so + Inside(Decimal(i), ViolationsOf(c, rank, items, v.items[i])) ==
             told + ItemViolations(c, rank, id, v, i + 1);
    }

    /**
     Visits a value inside another, marks its errors with the step out, and gathers them unless one is
     enough. An object's visitor replaces them by the bare error when failing fast, an array's does not.
     */
    method VisitInside(settings: Settings, id: Id, child: Json, step: string, ghost parent: Json,
                       before: seq<Error>, heedFailfast: bool, ghost told: set<Violation>, ghost all: set<Violation>)
      returns (stop: bool, err: Error, me: seq<Error>)
      requires Ready(settings, id, child) && StepOut(child, step, parent) && Gathered(c, rank, before, parent)
      requires Tells(settings, Pointers(before), told) && Inside(step, ViolationsOf(c, rank, id, child)) <= all
      modifies settings`failfast, this`compiled
      ensures CacheOk() && settings.failfast == old(settings.failfast)
      ensures stop ==> !err.NoError? && !Valid(c, rank, id, child)
      ensures stop ==> Reported(c, rank, err, parent) && fresh(Objects(err)) && Tells(settings, Objects(err), all)
      ensures !stop ==> Gathered(c, rank, me, parent) && forall p <- Pointers(me) :: p in Pointers(before) || fresh(p)
      ensures !stop ==> if Valid(c, rank, id, child) then me == before else me != []
      ensures !stop ==> Tells(settings, Pointers(me), told + Inside(step, ViolationsOf(c, rank, id, child)))
      decreases child, 0, rank[id], 5
    {
      hide WellFounded, StringDiscriminators, Valid, Truthful, StepOut, Told, ViolationsOf, Inside;
      me, stop, err := before, false, NoError;
      NothingGathered(c, rank, parent);
      ghost var pointers := Pointers(before);
      assert forall p <- pointers :: allocated(p);
      ghost var inside := Inside(step, ViolationsOf(c, rank, id, child));
      err := VisitJSON(settings, id, child);
      assert Tells(settings, Pointers(before), told);
      if err.NoError? {
        ToldNothing(settings, err, step, ViolationsOf(c, rank, id, child));
        TellsTogether(settings, Pointers(before), told, {}, inside);
        assert Pointers(before) + {} == Pointers(before);
        return;
      }
      if heedFailfast && settings.failfast {
        ToldNothing(settings, ErrSchema, step, {});
        return true, ErrSchema, me;
      }
      ghost var was := Told(Objects(err));
      Mark(err, step, c, rank, child, parent);
      InsideKeeps(step, was, ViolationsOf(c, rank, id, child));
      assert Tells(settings, Objects(err), inside);
      if !settings.multiError {
        TellsPart(settings, Objects(err), inside, all);
        stop := true;
        return;
      }
      assert Tells(settings, Pointers(before), told);
      TellsTogether(settings, Pointers(before), told, Objects(err), inside);
      CollectGathered(c, rank, me, err, parent);
      me := Collect(me, err);
    }

    method VisitJSONObject(settings: Settings, id: Id, v: Json) returns (err: Error)
      requires v.Obj? && Ready(settings, id, v) && id !in c.empty
      modifies settings`failfast, this`compiled
      ensures CacheOk() && settings.failfast == old(settings.failfast)
      ensures err.NoError? <==> ShapeOk(c, rank, id, v)
      ensures Reported(c, rank, err, v) && fresh(Objects(err))
      ensures Tells(settings, Objects(err), ShapeViolations(c, rank, id, v))
      decreases v, 0, rank[id], 2
    {
      hide WellFounded, StringDiscriminators, Rejects, Valid, ShapeOk, Reported, Gathered, Pointers, Truthful, FieldsOk,
           RequiredOk, CountOk, Tells, ShapeViolations, FieldsTold, CountViolations, Broken, MissingViolations;
      ShapeRejects(c, rank, id, v);
      ObjectShape(c, rank, id, v);
      ObjectParts(c, rank, id, v);
      var s, stop, me := c.g[id], false, [];
      ghost var all := ShapeViolations(c, rank, id, v);
      if s.typ != "" && s.typ != "object" {
        err := Fail(settings, id, "type", v, Str("object"), NoError);
        return;
      }
      stop, err, me :=
        VisitCount(settings, id, v, |v.fields|, s.minProps, s.maxProps, "minProperties", "maxProperties", all);
      if stop { return; }
      ghost var told := CountViolations(id, v, |v.fields|, s.minProps, s.maxProps, "minProperties", "maxProperties");
      stop, err, me := VisitFields(settings, id, v, me, told, all);
      if stop { return; }
      told := told + FieldsTold(c, rank, id, v, v.fields.Keys);
      stop, err, me := VisitRequired(settings, id, v, me, told, all);
      if stop { return; }
      FinishReported(c, rank, me, v);
      err := Finish(me);
    }

    /** The loop over the fields, in whatever order the map yields them. */
    method VisitFields(settings: Settings, id: Id, v: Json, before: seq<Error>, ghost told: set<Violation>,
                       ghost all: set<Violation>)
      returns (stop: bool, err: Error, me: seq<Error>)
      requires v.Obj? && Ready(settings, id, v) && Gathered(c, rank, before, v)
      requires Tells(settings, Pointers(before), told) && FieldsTold(c, rank, id, v, v.fields.Keys) <= all
      requires !FieldsOk(c, rank, id, v) ==> Rejects(c, rank, id, v)
      modifies settings`failfast, this`compiled
      ensures CacheOk() && settings.failfast == old(settings.failfast)
      ensures stop ==> !err.NoError? && !FieldsOk(c, rank, id, v)
      ensures stop ==> Reported(c, rank, err, v) && fresh(Objects(err)) && Tells(settings, Objects(err), all)
      ensures !stop ==> Gathered(c, rank, me, v) && forall p <- Pointers(me) :: p in Pointers(before) || fresh(p)
      ensures !stop ==> (me == [] <==> before == [] && FieldsOk(c, rank, id, v))
      ensures !stop ==> Tells(settings, Pointers(me), told + FieldsTold(c, rank, id, v, v.fields.Keys))
      decreases v, 0, rank[id], 1
    {
      hide WellFounded, StringDiscriminators, Valid, Reported, Gathered, Pointers, Truthful, FieldOk, Rejects, Tells,
           FieldsTold, FieldViolations;
      me, stop, err := before, false, NoError;
      var left := v.fields.Keys;
      NoFieldsTold(c, rank, id, v);
      assert left - left == {} && told + {} == told;
      while left != {}
        invariant CacheOk() && settings.failfast == old(settings.failfast)
        invariant left <= v.fields.Keys
        invariant Gathered(c, rank, me, v) && forall p <- Pointers(me) :: p in Pointers(before) || fresh(p)
        invariant me == [] <==>
                  before == [] && forall k | k in v.fields && k !in left :: FieldOk(c, rank, id, k, v.fields[k])
        invariant Tells(settings, Pointers(me), told + FieldsTold(c, rank, id, v, v.fields.Keys - left))
        decreases left
      {
        var k :| k in left;
        ghost var done := v.fields.Keys - left;
        MoreFieldsTold(c, rank, id, v, done, k);
        stop, err, me := VisitField(settings, id, v, k, me, told + FieldsTold(c, rank, id, v, done), all);
        if stop { return; }
        left := left - {k};
        assert v.fields.Keys - left == done + {k};
        assert told + FieldsTold(c, rank, id, v, done) + FieldViolations(c, rank, id, k, v.fields[k], v) ==
               told + FieldsTold(c, rank, id, v, done + {k});
      }
      assert v.fields.Keys - left == v.fields.Keys;
    }

    /** The body of that loop. */
    method VisitField(settings: Settings, id: Id, v: Json, k: string, before: seq<Error>, ghost told: set<Violation>,
                      ghost all: set<Violation>)
      returns (stop: bool, err: Error, me: seq<Error>)
      requires v.Obj? && k in v.fields && Ready(settings, id, v) && Gathered(c, rank, before, v)
      requires Tells(settings, Pointers(before), told) && FieldViolations(c, rank, id, k, v.fields[k], v) <= all
      requires !FieldOk(c, rank, id, k, v.fields[k]) ==> Rejects(c, rank, id, v)
      modifies settings`failfast, this`compiled
      ensures CacheOk() && settings.failfast == old(settings.failfast)
      ensures stop ==> !err.NoError? && !FieldOk(c, rank, id, k, v.fields[k])
      ensures stop ==> Reported(c, rank, err, v) && fresh(Objects(err)) && Tells(settings, Objects(err), all)
      ensures !stop ==> Gathered(c, rank, me, v) && forall p <- Pointers(me) :: p in Pointers(before) || fresh(p)
      ensures !stop ==> if FieldOk(c, rank, id, k, v.fields[k]) then me == before else me != []
      ensures !stop ==> Tells(settings, Pointers(me), told + FieldViolations(c, rank, id, k, v.fields[k], v))
      decreases v, 0, rank[id], 0
    {
      hide WellFounded, StringDiscriminators, Valid, Reported, Gathered, Pointers, Truthful, FieldOk, Rejects, StepOut,
           Tells, FieldViolations, Inside, ViolationsOf, Broken;
      FieldReady(c, rank, id, v, k);
      FieldTold(c, rank, id, v, k);
      var s := c.g[id];
      me, stop, err := before, false, NoError;
      if k in s.properties {
        stop, err, me :=
          VisitInside(settings, s.properties[k].value.value, v.fields[k], k, v, me, true, told, all);
        return;
      }
      if s.additionalProperties.Some? || s.additionalPropertiesAllowed == None || s.additionalPropertiesAllowed.value {
        if s.additionalProperties.Some? {
          stop, err, me :=
            VisitInside(settings, s.additionalProperties.value.value.value, v.fields[k], k, v, me, true, told, all);
        } else {
          assert told + {} == told;
        }
        return;
      }
      stop, err, me := Check(settings, me, id, "properties", v, true, true, told, all);
    }

    /** The loop over the required names. */
    method VisitRequired(settings: Settings, id: Id, v: Json, before: seq<Error>, ghost told: set<Violation>,
                         ghost all: set<Violation>)
      returns (stop: bool, err: Error, me: seq<Error>)
      requires v.Obj? && Ready(settings, id, v) && Gathered(c, rank, before, v)
      requires Tells(settings, Pointers(before), told) && RefsResolved(c.g, c.g[id])
      requires MissingViolations(c, id, v, |c.g[id].required|) <= all
      requires !RequiredOk(c, rank, id, v) ==> Rejects(c, rank, id, v)
      ensures stop ==> !err.NoError? && !RequiredOk(c, rank, id, v)
      ensures stop ==> Reported(c, rank, err, v) && fresh(Objects(err)) && Tells(settings, Objects(err), all)
      ensures !stop ==> Gathered(c, rank, me, v) && forall p <- Pointers(me) :: p in Pointers(before) || fresh(p)
      ensures !stop ==> (me == [] <==> before == [] && RequiredOk(c, rank, id, v))
      ensures !stop ==> Tells(settings, Pointers(me), told + MissingViolations(c, id, v, |c.g[id].required|))
    {
      hide WellFounded, StringDiscriminators, Valid, Reported, Gathered, Pointers, Truthful, Rejects, Tells, Excused,
           MissingViolations, Broken, Inside;
      var s := c.g[id];
      me, stop, err := before, false, NoError;
      NoneMissing(c, id, v);
      assert told + {} == told;
      for i := 0 to |s.required|
        invariant Gathered(c, rank, me, v) && forall p <- Pointers(me) :: p in Pointers(before) || fresh(p)
        invariant me == [] <==>
                    before == [] && forall j | 0 <= j < i :: s.required[j] in v.fields || Excused(c, s, s.required[j])
        invariant Tells(settings, Pointers(me), told + MissingViolations(c, id, v, i))
      {
        MoreMissing(c, id, v, i, told);
        var k := s.required[i];
        if k !in v.fields {
          ExcusedIs(c, id, k);
          if k in s.properties && c.g[s.properties[k].value.value].readOnly && settings.asreq {
            continue;
          }
          if k in s.properties && c.g[s.properties[k].value.value].writeOnly && settings.asrep {
            continue;
          }
          assert k in s.required && !Excused(c, s, k);
          stop, err, me := Missing(settings, id, v, k, me, told + MissingViolations(c, id, v, i), all);
          if stop { return; }
        }
      }
    }

    /** The error for a missing property, which is marked with its name. */
    method Missing(settings: Settings, id: Id, v: Json, k: string, before: seq<Error>, ghost told: set<Violation>,
                   ghost all: set<Violation>)
      returns (stop: bool, err: Error, me: seq<Error>)
      requires WellFounded(c.g, rank) && Rejects(c, rank, id, v) && Gathered(c, rank, before, v)
      requires v.Obj? && k !in v.fields && k in c.g[id].required
      requires Tells(settings, Pointers(before), told) && Inside(k, Broken(true, id, "required", v)) <= all
      ensures stop ==> !err.NoError? && Reported(c, rank, err, v) && fresh(Objects(err))
      ensures stop ==> Tells(settings, Objects(err), all)
      ensures !stop ==> Gathered(c, rank, me, v) && forall p <- Pointers(me) :: p in Pointers(before) || fresh(p)
      ensures !stop ==> me != [] && Tells(settings, Pointers(me), told + Inside(k, Broken(true, id, "required", v)))
    {
      hide WellFounded, Valid, Reported, Gathered, Truthful, Rejects, Told;
      NothingGathered(c, rank, v);
      me, stop, err := before, false, NoError;
      ghost var missing := Inside(k, Broken(true, id, "required", v));
      if settings.failfast {
        ToldNothing(settings, ErrSchema, k, {});
        return true, ErrSchema, me;
      }
      ghost var pointers := Pointers(me);
      assert forall p <- pointers :: allocated(p);
      var e := new SchemaError(id, "required", v, NoError);
      e.reversePath := e.reversePath + [k];
      MissingReported(e, v, k);
      ToldMissing(e, k);
      err := Ptr(e);
      assert Told({e}) == missing;
      assert Objects(err) == {e};
      if !settings.multiError {
        TellsPart(settings, Objects(err), missing, all);
        stop := true;
        return;
      }
      CollectGathered(c, rank, me, err, v);
      TellsTogether(settings, Pointers(me), told, Objects(err), missing);
      me := Collect(me, err);
    }

    lemma ToldMissing(e: SchemaError, k: string)
      requires e.reversePath == [k]
      ensures Told({e}) == Inside(k, Broken(true, e.schema, e.field, e.value))
    {
      ToldOne(e);
      assert Reversed([k]) == [k] by { ReversedSnoc([], k); }
      assert [k] + [] == [k];
      var x := Violation([], e.schema, e.field, e.value);
      assert Inside(k, {x}) == {x.(path := [k] + x.path)} by { InsideOne(k, x); }
    }

    lemma InsideOne(k: string, x: Violation)
      ensures Inside(k, {x}) == {x.(path := [k] + x.path)}
    {}

    lemma MissingReported(e: SchemaError, v: Json, k: string)
      requires WellFounded(c.g, rank) && Rejects(c, rank, e.schema, v) && e.field == "required" && e.reversePath == [k]
      requires v.Obj? && k !in v.fields && k in c.g[e.schema].required
      ensures Reported(c, rank, Ptr(e), v) && Objects(Ptr(e)) == {e}
    {
      TruthfulMissing(c, rank, e.schema, k, v);
    }
  }

  lemma NumberRejects(c: Context, rank: Rank, id: Id, v: Json)
    requires WellFounded(c.g, rank) && id in c.g && v.Num? && id !in c.empty
    ensures Sane(c.g[id])
    ensures ShapeOk(c, rank, id, v) <==> NumberOk(c.g[id], v.n)
    ensures !NumberOk(c.g[id], v.n) ==> Rejects(c, rank, id, v)
  {}

  ghost function TypeTold(s: Schema, id: Id, n: real): set<Violation> {
    Broken(s.typ == "integer" && !IsInt(n), id, "type", Num(n))
  }

  ghost function BoundsTold(s: Schema, id: Id, n: real): set<Violation>
    requires Sane(s)
  {
    Broken(s.exclusiveMin && !(s.min.value < n), id, "exclusiveMinimum", Num(n))
    + Broken(s.exclusiveMax && !(s.max.value > n), id, "exclusiveMaximum", Num(n))
    + Broken(s.min.Some? && !(s.min.value <= n), id, "minimum", Num(n))
    + Broken(s.max.Some? && !(s.max.value >= n), id, "maximum", Num(n))
  }

  predicate BoundsOk(s: Schema, n: real)
    requires (s.exclusiveMin ==> s.min.Some?) && (s.exclusiveMax ==> s.max.Some?)
  {
    && (s.exclusiveMin ==> s.min.value < n) && (s.exclusiveMax ==> n < s.max.value)
    && (s.min.Some? ==> s.min.value <= n) && (s.max.Some? ==> n <= s.max.value)
  }

  lemma NumberParts(s: Schema, id: Id, n: real)
    requires Sane(s)
    ensures var v, all := Num(n), NumberViolations(s, id, n);
            var multiple := s.multipleOf.Some? && !IsInt(n / s.multipleOf.value);
            if s.typ != "" && s.typ != "number" && s.typ != "integer" then
              all == Broken(true, id, "type", Str("number, integer")) && !NumberOk(s, n)
            else
              && TypeTold(s, id, n) <= all && BoundsTold(s, id, n) <= all
              && Broken(multiple, id, "multipleOf", v) <= all
              && all == TypeTold(s, id, n) + BoundsTold(s, id, n) + Broken(multiple, id, "multipleOf", v)
              && (NumberOk(s, n) <==> !(s.typ == "integer" && !IsInt(n)) && BoundsOk(s, n) && !multiple)
    ensures s.typ != "integer" ==> TypeTold(s, id, n) == {}
    ensures s.typ == "integer" ==> TypeTold(s, id, n) == {} + Broken(!IsInt(n), id, "type", Num(n))
  {
    hide Broken, IsInt;
    NothingBroken(id, "type", Num(n));
  }

  lemma NothingBroken(id: Id, field: string, v: Json)
    ensures Broken(false, id, field, v) == {}
  {}

  ghost function LengthTold(s: Schema, id: Id, t: string): set<Violation> {
    {} + Broken(s.minLength != 0 && |t| < Int64(s.minLength), id, "minLength", Str(t))
    + Broken(s.maxLength.Some? && |t| > Int64(s.maxLength.value), id, "maxLength", Str(t))
  }

  predicate PatternOk(env: Env, s: Schema, t: string) {
    s.pattern != "" ==> env.compiles(s.pattern) && env.matches(s.pattern, t)
  }

  lemma StringParts(env: Env, s: Schema, id: Id, t: string)
    ensures var v, all := Str(t), StringViolations(env, s, id, t);
            var pattern := !PatternOk(env, s, t);
            var format := s.format != "" && !env.formatOk(s.format, t);
            if s.typ != "" && s.typ != "string" then
              all == Broken(true, id, "type", Str("string"))
            else
              && LengthTold(s, id, t) <= all
              && Broken(pattern, id, "pattern", v) <= all && Broken(format, id, "format", v) <= all
              && all == LengthTold(s, id, t) + Broken(pattern, id, "pattern", v) + Broken(format, id, "format", v)
    ensures StringOk(env, s, t) <==>
              && (s.typ == "" || s.typ == "string") && LengthTold(s, id, t) == {}
              && PatternOk(env, s, t)
              && !(s.format != "" && !env.formatOk(s.format, t))
  {}

  lemma StringRejects(c: Context, rank: Rank, id: Id, v: Json)
    requires WellFounded(c.g, rank) && id in c.g && v.Str? && id !in c.empty
    ensures ShapeOk(c, rank, id, v) <==> StringOk(c.env, c.g[id], v.s)
    ensures !StringOk(c.env, c.g[id], v.s) ==> Rejects(c, rank, id, v)
  {}

  ghost predicate ItemsOk(c: Context, rank: Rank, id: Id, v: Json)
    requires WellFounded(c.g, rank) && id in c.g && v.Arr? && c.g[id].items.Some?
  {
    forall i | 0 <= i < |v.items| :: Valid(c, rank, Target(c.g, c.g[id].items.value), v.items[i])
  }

  lemma ArrayParts(c: Context, rank: Rank, id: Id, v: Json)
    requires WellFounded(c.g, rank) && id in c.g && v.Arr?
    ensures var s, all := c.g[id], ShapeViolations(c, rank, id, v);
            var count := CountViolations(id, v, |v.items|, s.minItems, s.maxItems, "minItems", "maxItems");
            var repeated := s.uniqueItems && !Distinct(ItemKeys(c.env, v.items));
            if s.typ != "" && s.typ != "array" then
              all == Broken(true, id, "type", Str("array"))
            else
              && count <= all && Broken(repeated, id, "uniqueItems", v) <= all
              && ItemViolations(c, rank, id, v, |v.items|) <= all
              && all == count + Broken(repeated, id, "uniqueItems", v) + ItemViolations(c, rank, id, v, |v.items|)
    ensures c.g[id].items.None? ==> ItemViolations(c, rank, id, v, |v.items|) == {}
  {
    hide WellFounded, CountViolations, Broken;
  }

  lemma ItemsResolved(c: Context, rank: Rank, id: Id)
    requires WellFounded(c.g, rank) && id in c.g && c.g[id].items.Some?
    ensures Resolved(c.g, c.g[id].items.value)
  {
    assert RefsResolved(c.g, c.g[id]);
  }

  lemma NoItemViolations(c: Context, rank: Rank, id: Id, v: Json)
    requires WellFounded(c.g, rank) && id in c.g && v.Arr?
    ensures ItemViolations(c, rank, id, v, 0) == {}
  {}

  lemma MoreItemViolations(c: Context, rank: Rank, id: Id, v: Json, i: nat)
    requires WellFounded(c.g, rank) && id in c.g && v.Arr? && i < |v.items| && c.g[id].items.Some?
    ensures Resolved(c.g, c.g[id].items.value)
    ensures var u := ViolationsOf(c, rank, Target(c.g, c.g[id].items.value), v.items[i]);
            && ItemViolations(c, rank, id, v, i + 1) == ItemViolations(c, rank, id, v, i) + Inside(Decimal(i), u)
            && Inside(Decimal(i), u) <= ItemViolations(c, rank, id, v, |v.items|)
  {
    assert RefsResolved(c.g, c.g[id]);
    ItemViolationsGrow(c, rank, id, v, i + 1, |v.items|);
  }

  lemma {:induction false} ItemViolationsGrow(c: Context, rank: Rank, id: Id, v: Json, i: nat, n: nat)
    requires WellFounded(c.g, rank) && id in c.g && v.Arr? && i <= n <= |v.items|
    ensures ItemViolations(c, rank, id, v, i) <= ItemViolations(c, rank, id, v, n)
  {
    hide WellFounded, ViolationsOf;
    if i < n {
      ItemViolationsGrow(c, rank, id, v, i, n - 1);
    }
  }

  lemma InsideKeeps(step: string, some: set<Violation>, all: set<Violation>)
    ensures some <= all ==> Inside(step, some) <= Inside(step, all)
  {}

  lemma ToldNothing(settings: Settings, err: Error, step: string, all: set<Violation>)
    requires err.NoError? || err.ErrSchema?
    ensures Told(Objects(err)) == {} && Inside(step, {}) == {} && Objects(err) == {}
    ensures Tells(settings, Objects(err), all) ==> Tells(settings, {}, Inside(step, all))
  {}

  lemma ArrayShape(c: Context, rank: Rank, id: Id, v: Json)
    requires WellFounded(c.g, rank) && id in c.g && v.Arr?
    ensures ShapeOk(c, rank, id, v) <==>
              && (c.g[id].typ == "" || c.g[id].typ == "array") && CountOk(|v.items|, c.g[id].minItems, c.g[id].maxItems)
              && (c.g[id].uniqueItems ==> Distinct(ItemKeys(c.env, v.items)))
              && (c.g[id].items.Some? ==> ItemsOk(c, rank, id, v))
  {}

  lemma ItemsReady(c: Context, rank: Rank, id: Id, v: Json)
    requires WellFounded(c.g, rank) && id in c.g && v.Arr? && c.g[id].items.Some?
    requires StringDiscriminators(c, rank, id, v)
    ensures Resolved(c.g, c.g[id].items.value)
    ensures forall i | 0 <= i < |v.items| ::
              && StringDiscriminators(c, rank, Target(c.g, c.g[id].items.value), v.items[i])
              && StepOut(v.items[i], Decimal(i), v)
  {}

  ghost predicate FieldsOk(c: Context, rank: Rank, id: Id, v: Json)
    requires WellFounded(c.g, rank) && id in c.g && v.Obj?
  {
    forall k | k in v.fields :: FieldOk(c, rank, id, k, v.fields[k])
  }

  ghost predicate RequiredOk(c: Context, rank: Rank, id: Id, v: Json)
    requires WellFounded(c.g, rank) && id in c.g && v.Obj?
  {
    forall k <- c.g[id].required :: k in v.fields || Excused(c, c.g[id], k)
  }

  /** What is wrong with the fields of these names. */
  ghost function FieldsTold(c: Context, rank: Rank, id: Id, v: Json, done: set<string>): set<Violation>
    requires WellFounded(c.g, rank) && id in c.g && v.Obj?
  {
    set k, x | k in done && k in v.fields && x in FieldViolations(c, rank, id, k, v.fields[k], v) :: x
  }

  lemma NoFieldsTold(c: Context, rank: Rank, id: Id, v: Json)
    requires WellFounded(c.g, rank) && id in c.g && v.Obj?
    ensures FieldsTold(c, rank, id, v, {}) == {}
  {}

  lemma MoreFieldsTold(c: Context, rank: Rank, id: Id, v: Json, done: set<string>, k: string)
    requires WellFounded(c.g, rank) && id in c.g && v.Obj? && k in v.fields
    ensures FieldsTold(c, rank, id, v, done + {k})
         == FieldsTold(c, rank, id, v, done) + FieldViolations(c, rank, id, k, v.fields[k], v)
    ensures FieldViolations(c, rank, id, k, v.fields[k], v) <= FieldsTold(c, rank, id, v, v.fields.Keys)
  {
    hide WellFounded, FieldViolations;
  }

  lemma FieldTold(c: Context, rank: Rank, id: Id, v: Json, k: string)
    requires WellFounded(c.g, rank) && id in c.g && v.Obj? && k in v.fields
    ensures var s, told := c.g[id], FieldViolations(c, rank, id, k, v.fields[k], v);
            if k in s.properties then
              && Resolved(c.g, s.properties[k])
              && told == Inside(k, ViolationsOf(c, rank, Target(c.g, s.properties[k]), v.fields[k]))
            else if s.additionalProperties.Some? then
              && Resolved(c.g, s.additionalProperties.value)
              && told == Inside(k, ViolationsOf(c, rank, Target(c.g, s.additionalProperties.value), v.fields[k]))
            else if s.additionalPropertiesAllowed == Some(false) then told == Broken(true, id, "properties", v)
            else told == {}
  {
    hide ViolationsOf, Inside;
    assert RefsResolved(c.g, c.g[id]);
  }

  lemma NoneMissing(c: Context, id: Id, v: Json)
    requires id in c.g && RefsResolved(c.g, c.g[id]) && v.Obj?
    ensures MissingViolations(c, id, v, 0) == {}
  {}

  lemma MoreMissing(c: Context, id: Id, v: Json, i: nat, told: set<Violation>)
    requires id in c.g && RefsResolved(c.g, c.g[id]) && v.Obj? && i < |c.g[id].required|
    ensures var k := c.g[id].required[i];
            if k in v.fields || Excused(c, c.g[id], k) then
              MissingViolations(c, id, v, i + 1) == MissingViolations(c, id, v, i)
            else
              && told + MissingViolations(c, id, v, i + 1)
                 == told + MissingViolations(c, id, v, i) + Inside(k, Broken(true, id, "required", v))
              && Inside(k, Broken(true, id, "required", v)) <= MissingViolations(c, id, v, |c.g[id].required|)
  {
    hide Excused, RefsResolved;
    var k := c.g[id].required[i];
    assert Inside(k, {}) == {};
    MissingGrow(c, id, v, i + 1, |c.g[id].required|);
  }

  lemma {:induction false} MissingGrow(c: Context, id: Id, v: Json, i: nat, n: nat)
    requires id in c.g && RefsResolved(c.g, c.g[id]) && v.Obj? && i <= n <= |c.g[id].required|
    ensures MissingViolations(c, id, v, i) <= MissingViolations(c, id, v, n)
  {
    hide Excused, RefsResolved, Inside;
    if i < n {
      MissingGrow(c, id, v, i, n - 1);
    }
  }

  lemma ExcusedIs(c: Context, id: Id, k: string)
    requires id in c.g && RefsResolved(c.g, c.g[id])
    ensures var s := c.g[id];
            && (k in s.properties ==> Resolved(c.g, s.properties[k]))
            && (Excused(c, s, k) <==>
                  || (k in s.properties && c.g[s.properties[k].value.value].readOnly && c.asreq)
                  || (k in s.properties && c.g[s.properties[k].value.value].writeOnly && c.asrep))
  {}

  lemma ObjectParts(c: Context, rank: Rank, id: Id, v: Json)
    requires WellFounded(c.g, rank) && id in c.g && v.Obj?
    ensures RefsResolved(c.g, c.g[id])
    ensures var s, all := c.g[id], ShapeViolations(c, rank, id, v);
            var count := CountViolations(id, v, |v.fields|, s.minProps, s.maxProps, "minProperties", "maxProperties");
            var fields, missing := FieldsTold(c, rank, id, v, v.fields.Keys), MissingViolations(c, id, v, |s.required|);
            if s.typ != "" && s.typ != "object" then
              all == Broken(true, id, "type", Str("object"))
            else
              count <= all && fields <= all && missing <= all && all == count + fields + missing
  {
    hide CountViolations, Broken, FieldViolations, MissingViolations, RefsResolved;
    assert RefsResolved(c.g, c.g[id]);
    var f := v.fields;
    var all := set k, x | k in f && x in FieldViolations(c, rank, id, k, f[k], v) :: x;
    forall x
      ensures x in FieldsTold(c, rank, id, v, f.Keys) <==> x in all
    {
      assert x in all <==> exists k :: k in f && x in FieldViolations(c, rank, id, k, f[k], v);
    }
    assert FieldsTold(c, rank, id, v, f.Keys) == all;
  }

  lemma ObjectShape(c: Context, rank: Rank, id: Id, v: Json)
    requires WellFounded(c.g, rank) && id in c.g && v.Obj?
    ensures ShapeOk(c, rank, id, v) <==>
              && (c.g[id].typ == "" || c.g[id].typ == "object")
              && CountOk(|v.fields|, c.g[id].minProps, c.g[id].maxProps)
              && FieldsOk(c, rank, id, v) && RequiredOk(c, rank, id, v)
  {}

  lemma FieldReady(c: Context, rank: Rank, id: Id, v: Json, k: string)
    requires WellFounded(c.g, rank) && id in c.g && v.Obj? && k in v.fields && StringDiscriminators(c, rank, id, v)
    ensures StepOut(v.fields[k], k, v)
    ensures var s := c.g[id];
            if k in s.properties then
              && Resolved(c.g, s.properties[k])
              && StringDiscriminators(c, rank, Target(c.g, s.properties[k]), v.fields[k])
              && (FieldOk(c, rank, id, k, v.fields[k]) <==> Valid(c, rank, Target(c.g, s.properties[k]), v.fields[k]))
            else if s.additionalProperties.Some? then
              && Resolved(c.g, s.additionalProperties.value)
              && StringDiscriminators(c, rank, Target(c.g, s.additionalProperties.value), v.fields[k])
              && (FieldOk(c, rank, id, k, v.fields[k])
                  <==> Valid(c, rank, Target(c.g, s.additionalProperties.value), v.fields[k]))
            else
              FieldOk(c, rank, id, k, v.fields[k]) <==> s.additionalPropertiesAllowed != Some(false)
  {}

  lemma PropertiesResolved(c: Context, rank: Rank, id: Id)
    requires WellFounded(c.g, rank) && id in c.g
    ensures forall k <- c.g[id].properties :: Resolved(c.g, c.g[id].properties[k])
  {}

  // Counting oneOf alternatives

  lemma AllChosen(c: Context, rank: Rank, id: Id, v: Json)
    requires WellFounded(c.g, rank) && id in c.g
    ensures c.g[id].oneOf == [] || (ChosenAmong(c, rank, id, v, |c.g[id].oneOf|) == 1 <==> OneOfOk(c, rank, id, v))
    ensures ChosenAmong(c, rank, id, v, 0) == 0
  {}

  lemma NothingToCombine(c: Context, rank: Rank, id: Id, v: Json)
    requires WellFounded(c.g, rank) && id in c.g
    ensures c.g[id].oneOf == [] ==> OneOfOk(c, rank, id, v)
    ensures c.g[id].anyOf == [] ==> AnyOfOk(c, rank, id, v)
  {}

  lemma DiscriminatorIsString(c: Context, rank: Rank, id: Id, v: Json)
    requires WellFounded(c.g, rank) && id in c.g && StringDiscriminators(c, rank, id, v)
    requires c.g[id].oneOf != [] && c.g[id].discriminator.Some?
    requires v.Obj? && c.g[id].discriminator.value.propertyName in v.fields
    ensures v.fields[c.g[id].discriminator.value.propertyName].Str?
  {}
}
