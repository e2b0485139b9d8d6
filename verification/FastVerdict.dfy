/** The verdict of the visitor for fast-parsed values, and when it is the verdict on the decoded value. */
module FastVerdict {
  import opened Options
  import opened Schemas
  import opened SchemaVerdict
  import opened VerdictAgreement

  /** How errors are handled: by the flag that combinators overwrite, and by the fixed option. */
  datatype Mode = Mode(failfast: bool, multiError: bool)

  /** string(value.GetStringBytes()): empty unless the value is a string. */
  function StringBytes(f: Fast): string {
    if f.FastStr? then f.s else ""
  }

  /** value.Get(key) on an object's fields: the first with that name. */
  function FirstField(fields: seq<(string, Fast)>, key: string): (r: Option<Fast>)
    ensures r.Some? <==> exists i :: 0 <= i < |fields| && fields[i].0 == key
    ensures r.Some? ==> exists i :: 0 <= i < |fields| && fields[i] == (key, r.value)
  {
    if fields == [] then None
    else if fields[0].0 == key then Some(fields[0].1)
    else
      var r := FirstField(fields[1..], key);
      assert forall i | 1 <= i < |fields| :: fields[i] == fields[1..][i - 1];
      r
  }

  function Get(env: Env, f: Fast, key: string): Option<Fast> {
    match f
    case FastObj(fields) => FirstField(fields, key)
    case FastArr(items) =>
      (match env.atoi(key)
       case None => None
       case Some(i) => if 0 <= i < |items| then Some(items[i]) else None)
    case _ => None
  }

  predicate FastDiscriminates(env: Env, s: Schema, r: SchemaRef, f: Fast) {
    s.discriminator.Some? ==>
      var d := Get(env, f, s.discriminator.value.propertyName);
      d.Some? &&
      var name := StringBytes(d.value);
      name in s.discriminator.value.mapping && s.discriminator.value.mapping[name] == r.ref
  }

  ghost function FastKeys(env: Env, xs: seq<Fast>): (ks: seq<string>)
    ensures |ks| == |xs| && forall i | 0 <= i < |xs| :: ks[i] == env.fastKey(xs[i])
  {
    if xs == [] then [] else [env.fastKey(xs[0])] + FastKeys(env, xs[1..])
  }

  predicate HasField(f: Fast, k: string)
    requires f.FastObj?
  {
    exists i :: 0 <= i < |f.fields| && f.fields[i].0 == k
  }

  ghost predicate FastValid(c: Context, rank: Rank, id: Id, f: Fast, mode: Mode)
    requires WellFounded(c.g, rank) && id in c.g
    decreases f, 0, rank[id], 5
  {
    id in c.empty || (FastSetOperationsOk(c, rank, id, f, mode) && FastShapeOk(c, rank, id, f, mode))
  }

  ghost predicate FastPart(c: Context, rank: Rank, id: Id, r: SchemaRef, f: Fast, mode: Mode)
    requires WellFounded(c.g, rank) && id in c.g && Combines(c.g[id], r)
    decreases f, 0, rank[id], 0
  {
    FastValid(c, rank, Target(c.g, r), f, mode)
  }

  ghost predicate FastChosen(c: Context, rank: Rank, id: Id, i: nat, f: Fast, mode: Mode)
    requires WellFounded(c.g, rank) && id in c.g && i < |c.g[id].oneOf|
    decreases f, 0, rank[id], 1
  {
    FastPart(c, rank, id, c.g[id].oneOf[i], f, mode.(failfast := true))
    && FastDiscriminates(c.env, c.g[id], c.g[id].oneOf[i], f)
  }

  ghost function FastChosenAmong(c: Context, rank: Rank, id: Id, f: Fast, mode: Mode, n: nat): nat
    requires WellFounded(c.g, rank) && id in c.g && n <= |c.g[id].oneOf|
    decreases f, 0, rank[id], 2, n
  {
    if n == 0 then 0
    else FastChosenAmong(c, rank, id, f, mode, n - 1) + if FastChosen(c, rank, id, n - 1, f, mode) then 1 else 0
  }

  ghost predicate FastNotOk(c: Context, rank: Rank, id: Id, f: Fast, mode: Mode)
    requires WellFounded(c.g, rank) && id in c.g
    decreases f, 0, rank[id], 2
  {
    c.g[id].negated.Some? ==> !FastPart(c, rank, id, c.g[id].negated.value, f, mode.(failfast := true))
  }

  ghost predicate FastOneOfOk(c: Context, rank: Rank, id: Id, f: Fast, mode: Mode)
    requires WellFounded(c.g, rank) && id in c.g
    decreases f, 0, rank[id], 3
  {
    c.g[id].oneOf != [] ==> FastChosenAmong(c, rank, id, f, mode, |c.g[id].oneOf|) == 1
  }

  ghost predicate FastAnyOfOk(c: Context, rank: Rank, id: Id, f: Fast, mode: Mode)
    requires WellFounded(c.g, rank) && id in c.g
    decreases f, 0, rank[id], 2
  {
    c.g[id].anyOf != [] ==>
      exists i :: 0 <= i < |c.g[id].anyOf| && FastPart(c, rank, id, c.g[id].anyOf[i], f, mode.(failfast := true))
  }

  ghost predicate FastAllOfOk(c: Context, rank: Rank, id: Id, f: Fast, mode: Mode)
    requires WellFounded(c.g, rank) && id in c.g
    decreases f, 0, rank[id], 2
  {
    forall i | 0 <= i < |c.g[id].allOf| :: FastPart(c, rank, id, c.g[id].allOf[i], f, mode.(failfast := false))
  }

  predicate FastEnumOk(s: Schema, f: Fast) {
    Str(StringBytes(f)) in s.enum
  }

  ghost predicate FastSetOperationsOk(c: Context, rank: Rank, id: Id, f: Fast, mode: Mode)
    requires WellFounded(c.g, rank) && id in c.g
    decreases f, 0, rank[id], 4
  {
    if c.g[id].enum != [] then FastEnumOk(c.g[id], f)
    else
      && FastNotOk(c, rank, id, f, mode) && FastOneOfOk(c, rank, id, f, mode)
      && FastAnyOfOk(c, rank, id, f, mode) && FastAllOfOk(c, rank, id, f, mode)
  }

  ghost predicate FastShapeOk(c: Context, rank: Rank, id: Id, f: Fast, mode: Mode)
    requires WellFounded(c.g, rank) && id in c.g
    decreases f, 0, rank[id], 0
  {
    var s := c.g[id];
    match f
    case FastNull => s.nullable
    case FastBool(_) => s.typ == "" || s.typ == "boolean"
    case FastNum(n) => NumberOk(s, n)
    case FastStr(str) => StringOk(c.env, s, str)
    case FastArr(xs) =>
      && (s.typ == "" || s.typ == "array")
      && CountOk(|xs|, s.minItems, s.maxItems)
      && (s.uniqueItems ==> Distinct(FastKeys(c.env, xs)))
      && (s.items.Some? ==> forall i | 0 <= i < |xs| :: FastValid(c, rank, Target(c.g, s.items.value), xs[i], mode))
    case FastObj(fs) =>
      && (s.typ == "" || s.typ == "object")
      && CountOk(|fs|, s.minProps, s.maxProps)
      && (forall i | 0 <= i < |fs| :: FastFieldOk(c, rank, id, fs[i].0, fs[i].1, mode))
      && (forall k <- s.required :: HasField(f, k) || Excused(c, s, k))
  }

  /** An undeclared property of a closed object is let through unless errors are collected or failing is fast. */
  ghost predicate FastFieldOk(c: Context, rank: Rank, id: Id, k: string, f: Fast, mode: Mode)
    requires WellFounded(c.g, rank) && id in c.g
    decreases f, 1, 0, 0
  {
    var s := c.g[id];
    if k in s.properties then FastValid(c, rank, Target(c.g, s.properties[k]), f, mode)
    else if s.additionalProperties.Some? then FastValid(c, rank, Target(c.g, s.additionalProperties.value), f, mode)
    else s.additionalPropertiesAllowed != Some(false) || (!mode.failfast && !mode.multiError)
  }

  // The decoded value

  function Decode(f: Fast): Json
    decreases f, 1, 0
  {
    match f
    case FastNull => Null
    case FastBool(b) => Bool(b)
    case FastNum(n) => Num(n)
    case FastStr(s) => Str(s)
    case FastArr(xs) => Arr(DecodeItems(f, |xs|))
    case FastObj(fs) => Obj(DecodeFields(f, |fs|))
  }

  function DecodeItems(f: Fast, n: nat): (xs: seq<Json>)
    requires f.FastArr? && n <= |f.items|
    ensures |xs| == n && forall i | 0 <= i < n :: xs[i] == Decode(f.items[i])
    decreases f, 0, n
  {
    if n == 0 then [] else DecodeItems(f, n - 1) + [Decode(f.items[n - 1])]
  }

  function DecodeFields(f: Fast, n: nat): map<string, Json>
    requires f.FastObj? && n <= |f.fields|
    decreases f, 0, n
  {
    if n == 0 then map[]
    else DecodeFields(f, n - 1)[f.fields[n - 1].0 := Decode(f.fields[n - 1].1)]
  }

  lemma {:induction false} DecodedKeys(f: Fast, n: nat, k: string)
    requires f.FastObj? && n <= |f.fields|
    ensures k in DecodeFields(f, n) <==> exists i :: 0 <= i < n && f.fields[i].0 == k
  {
    hide Decode;
    if n > 0 {
      DecodedKeys(f, n - 1, k);
    }
  }

  lemma {:induction false} DecodedCount(f: Fast, n: nat)
    requires f.FastObj? && n <= |f.fields| && DistinctFields(f)
    ensures |DecodeFields(f, n)| == n
  {
    hide Decode;
    if n > 0 {
      DecodedCount(f, n - 1);
      DecodedKeys(f, n - 1, f.fields[n - 1].0);
    }
  }

  lemma {:induction false} DecodedField(f: Fast, n: nat, i: nat)
    requires f.FastObj? && i < n <= |f.fields| && DistinctFields(f)
    ensures f.fields[i].0 in DecodeFields(f, n) && DecodeFields(f, n)[f.fields[i].0] == Decode(f.fields[i].1)
  {
    hide Decode;
    if i < n - 1 {
      DecodedField(f, n - 1, i);
    }
  }

  predicate DistinctFields(f: Fast)
    requires f.FastObj?
  {
    forall i, j | 0 <= i < j < |f.fields| :: f.fields[i].0 != f.fields[j].0
  }

  /** Without nulls and repeated names, at any depth. */
  predicate Plain(f: Fast) {
    match f
    case FastNull => false
    case FastArr(xs) => forall i | 0 <= i < |xs| :: Plain(xs[i])
    case FastObj(fs) => DistinctFields(f) && forall i | 0 <= i < |fs| :: Plain(fs[i].1)
    case _ => true
  }

  // The graph that the fast visitor walks

  /** A schema as it is visited with the flag on, or off. */
  function Code(id: Id, failfast: bool): Id {
    2 * id + if failfast then 1 else 0
  }

  function Codes(g: map<Id, Schema>): (codes: set<Id>)
    ensures forall n :: n in codes <==> n / 2 in g
  {
    var codes := (set id | id in g :: 2 * id) + (set id | id in g :: 2 * id + 1);
    assert forall n: Id | n / 2 in g :: n == 2 * (n / 2) || n == 2 * (n / 2) + 1;
    codes
  }

  function Lift(r: SchemaRef, failfast: bool): SchemaRef {
    SchemaRef(r.ref, if r.value.Some? then Some(Code(r.value.value, failfast)) else None)
  }

  function LiftAll(rs: seq<SchemaRef>, failfast: bool): (qs: seq<SchemaRef>)
    ensures |qs| == |rs| && forall i | 0 <= i < |rs| :: qs[i] == Lift(rs[i], failfast)
  {
    if rs == [] then [] else LiftAll(rs[..|rs| - 1], failfast) + [Lift(rs[|rs| - 1], failfast)]
  }

  function LiftOption(r: Option<SchemaRef>, failfast: bool): Option<SchemaRef> {
    if r.Some? then Some(Lift(r.value, failfast)) else None
  }

  /** The schema closes its objects by a bare `additionalProperties: false`. */
  predicate Closes(s: Schema) {
    s.additionalProperties.None? && s.additionalPropertiesAllowed == Some(false)
  }

  /**
   What a schema amounts to: combinators overwrite the flag, and a schema that closes its objects does not,
   unless the flag is on or errors are collected.
   */
  function OpenSchema(s: Schema, failfast: bool, multiError: bool): Schema {
    s.(oneOf := LiftAll(s.oneOf, true), anyOf := LiftAll(s.anyOf, true), allOf := LiftAll(s.allOf, false),
       negated := LiftOption(s.negated, true), items := LiftOption(s.items, failfast),
       properties := map k | k in s.properties :: Lift(s.properties[k], failfast),
       additionalProperties := LiftOption(s.additionalProperties, failfast),
       additionalPropertiesAllowed :=
         if Closes(s) && !failfast && !multiError then None else s.additionalPropertiesAllowed)
  }

  function Opened(c: Context, multiError: bool): Context {
    var g := map n | n in Codes(c.g) :: OpenSchema(c.g[n / 2], n % 2 == 1, multiError);
    var empty := set n | n in Codes(c.g) && n / 2 in c.empty;
    Context(g, empty, c.env, c.asreq, c.asrep)
  }

  function OpenRank(g: map<Id, Schema>, rank: Rank): Rank
    requires rank.Keys == g.Keys
  {
    map n | n in Codes(g) :: rank[n / 2]
  }

  /** A graph and the graph that the fast visitor makes of it, with the ranks that show that visits end. */
  datatype View = View(c: Context, rank: Rank, o: Context, orank: Rank, multiError: bool)

  ghost predicate Opens(w: View) {
    && WellFounded(w.c.g, w.rank) && WellFounded(w.o.g, w.orank)
    && w.o.env == w.c.env && w.o.asreq == w.c.asreq && w.o.asrep == w.c.asrep
    && forall id, flag | id in w.c.g :: OpensAt(w, id, flag)
  }

  ghost predicate OpensAt(w: View, id: Id, flag: bool) {
    var a := Code(id, flag);
    && id in w.c.g && id in w.rank && a in w.o.g && a in w.orank && w.orank[a] == w.rank[id]
    && w.o.g[a] == OpenSchema(w.c.g[id], flag, w.multiError) && (a in w.o.empty <==> id in w.c.empty)
  }

  function Open(c: Context, rank: Rank, multiError: bool): View
    requires rank.Keys == c.g.Keys
  {
    View(c, rank, Opened(c, multiError), OpenRank(c.g, rank), multiError)
  }

  lemma LiftResolves(c: Context, rank: Rank, multiError: bool, r: SchemaRef, failfast: bool)
    requires WellFounded(c.g, rank) && Resolved(c.g, r)
    ensures var o := Opened(c, multiError);
            Resolved(o.g, Lift(r, failfast)) && Target(o.g, Lift(r, failfast)) == Code(Target(c.g, r), failfast)
    ensures OpenRank(c.g, rank)[Code(Target(c.g, r), failfast)] == rank[Target(c.g, r)]
  {
    hide WellFounded, OpenSchema;
    RankCovers(c, rank);
    var n := Code(Target(c.g, r), failfast);
    assert n / 2 == Target(c.g, r);
  }

  lemma RankCovers(c: Context, rank: Rank)
    requires WellFounded(c.g, rank)
    ensures rank.Keys == c.g.Keys
  {}

  lemma OpenedWellFounded(c: Context, rank: Rank, multiError: bool)
    requires WellFounded(c.g, rank)
    ensures WellFounded(Opened(c, multiError).g, OpenRank(c.g, rank))
  {
    hide WellFounded, OpenSchema, RefsResolved, Combines, Sane;
    RankCovers(c, rank);
    var o, orank := Opened(c, multiError), OpenRank(c.g, rank);
    forall n | n in o.g
      ensures RefsResolved(o.g, o.g[n]) && Sane(o.g[n])
    {
      OpenedResolved(c, rank, multiError, n);
    }
    forall n, q | n in o.g && Combines(o.g[n], q)
      ensures Resolved(o.g, q) && orank[Target(o.g, q)] < orank[n]
    {
      OpenedDescends(c, rank, multiError, n, q);
    }
    WellFoundedIs(o.g, orank);
  }

  lemma WellFoundedIs(g: map<Id, Schema>, rank: Rank)
    requires rank.Keys == g.Keys && forall id <- g :: RefsResolved(g, g[id]) && Sane(g[id])
    requires forall id, r | id in g && Combines(g[id], r) :: Resolved(g, r) && rank[Target(g, r)] < rank[id]
    ensures WellFounded(g, rank)
  {
    hide RefsResolved, Combines, Sane;
  }

  lemma OpenedResolved(c: Context, rank: Rank, multiError: bool, n: Id)
    requires WellFounded(c.g, rank) && n in Opened(c, multiError).g
    ensures RefsResolved(Opened(c, multiError).g, Opened(c, multiError).g[n]) && Sane(Opened(c, multiError).g[n])
  {
    hide WellFounded, Opened;
    OpenedIs(c, multiError, n);
    var s, o := c.g[n / 2], Opened(c, multiError);
    SchemaIsResolved(c.g, rank, n / 2);
    forall r, failfast | Resolved(c.g, r)
      ensures Resolved(o.g, Lift(r, failfast))
    {
      LiftResolves(c, rank, multiError, r, failfast);
    }
  }

  lemma SchemaIsResolved(g: map<Id, Schema>, rank: Rank, id: Id)
    requires WellFounded(g, rank) && id in g
    ensures RefsResolved(g, g[id]) && Sane(g[id])
  {}

  lemma OpenedIs(c: Context, multiError: bool, n: Id)
    requires n in Opened(c, multiError).g
    ensures n / 2 in c.g && Opened(c, multiError).g[n] == OpenSchema(c.g[n / 2], n % 2 == 1, multiError)
  {}

  lemma OpenedDescends(c: Context, rank: Rank, multiError: bool, n: Id, q: SchemaRef)
    requires WellFounded(c.g, rank) && n in Opened(c, multiError).g && Combines(Opened(c, multiError).g[n], q)
    ensures var o, orank := Opened(c, multiError), OpenRank(c.g, rank);
            Resolved(o.g, q) && n in orank && orank[Target(o.g, q)] < orank[n]
  {
    hide WellFounded, Opened;
    RankCovers(c, rank);
    OpenedIs(c, multiError, n);
    var r, failfast := LiftedFrom(c.g[n / 2], n % 2 == 1, multiError, q);
    PartDescends(c.g, rank, n / 2, r);
    LiftResolves(c, rank, multiError, r, failfast);
  }

  lemma PartDescends(g: map<Id, Schema>, rank: Rank, id: Id, r: SchemaRef)
    requires WellFounded(g, rank) && id in g && Combines(g[id], r)
    ensures Resolved(g, r) && Target(g, r) in rank && id in rank && rank[Target(g, r)] < rank[id]
  {}

  lemma LiftedFrom(s: Schema, failfast: bool, multiError: bool, q: SchemaRef) returns (r: SchemaRef, flag: bool)
    requires Combines(OpenSchema(s, failfast, multiError), q)
    ensures Combines(s, r) && q == Lift(r, flag)
  {
    if q in LiftAll(s.oneOf, true) {
      var i :| 0 <= i < |s.oneOf| && LiftAll(s.oneOf, true)[i] == q;
      r, flag := s.oneOf[i], true;
    } else if q in LiftAll(s.anyOf, true) {
      var i :| 0 <= i < |s.anyOf| && LiftAll(s.anyOf, true)[i] == q;
      r, flag := s.anyOf[i], true;
    } else if q in LiftAll(s.allOf, false) {
      var i :| 0 <= i < |s.allOf| && LiftAll(s.allOf, false)[i] == q;
      r, flag := s.allOf[i], false;
    } else {
      r, flag := s.negated.value, true;
    }
  }

  lemma OpenOpens(c: Context, rank: Rank, multiError: bool)
    requires WellFounded(c.g, rank)
    ensures rank.Keys == c.g.Keys && Opens(Open(c, rank, multiError))
  {
    hide WellFounded, OpenSchema;
    RankCovers(c, rank);
    OpenedWellFounded(c, rank, multiError);
    var w := Open(c, rank, multiError);
    forall id, flag | id in c.g
      ensures OpensAt(w, id, flag)
    {
      var a := Code(id, flag);
      assert a / 2 == id && (a % 2 == 1 <==> flag);
    }
  }

  // Agreement

  /**
   Where the two visitors look at a value in their own way, they see the same: a value compared with an
   enumeration is a string, or the enumeration holds non-empty strings; discriminators are looked up in
   objects and are strings; the items of a list that must be unique have keys that differ alike.
   */
  ghost predicate SeenAlike(c: Context, rank: Rank, id: Id, f: Fast)
    requires WellFounded(c.g, rank) && id in c.g
    decreases f, rank[id]
  {
    var s := c.g[id];
    && LooksAlike(c.env, s, f)
    && (forall r | Combines(s, r) :: SeenAlike(c, rank, Target(c.g, r), f))
    && (f.FastArr? && s.items.Some? ==>
          forall i | 0 <= i < |f.items| :: SeenAlike(c, rank, Target(c.g, s.items.value), f.items[i]))
    && (f.FastObj? ==> forall i | 0 <= i < |f.fields| ::
          && (f.fields[i].0 in s.properties ==>
                SeenAlike(c, rank, Target(c.g, s.properties[f.fields[i].0]), f.fields[i].1))
          && (f.fields[i].0 !in s.properties && s.additionalProperties.Some? ==>
                SeenAlike(c, rank, Target(c.g, s.additionalProperties.value), f.fields[i].1)))
  }

  /** The same for one schema alone. */
  ghost predicate LooksAlike(env: Env, s: Schema, f: Fast) {
    && (f.FastStr? || forall e <- s.enum :: e.Str? && e.s != "")
    && (s.oneOf != [] && s.discriminator.Some? ==>
          var d := Get(env, f, s.discriminator.value.propertyName); d == None || (f.FastObj? && d.value.FastStr?))
    && (f.FastArr? && s.uniqueItems ==>
          (Distinct(FastKeys(env, f.items)) <==> Distinct(ItemKeys(env, DecodeItems(f, |f.items|)))))
  }

  ghost predicate Comparable(c: Context, rank: Rank, id: Id, f: Fast) {
    WellFounded(c.g, rank) && id in c.g && Plain(f) && SeenAlike(c, rank, id, f)
  }

  ghost predicate Viewed(w: View, id: Id, f: Fast) {
    Opens(w) && Comparable(w.c, w.rank, id, f)
  }

  lemma ViewedAt(w: View, id: Id, f: Fast, flag: bool)
    requires Viewed(w, id, f)
    ensures WellFounded(w.c.g, w.rank) && WellFounded(w.o.g, w.orank) && OpensAt(w, id, flag)
    ensures w.o.env == w.c.env && w.o.asreq == w.c.asreq && w.o.asrep == w.c.asrep
    ensures Plain(f) && LooksAlike(w.c.env, w.c.g[id], f) && !f.FastNull? && !Decode(f).Null?
  {
    hide WellFounded, LooksAlike, OpensAt;
  }

  lemma {:induction false} FastAgreesOpened(w: View, id: Id, f: Fast, flag: bool)
    requires Viewed(w, id, f)
    ensures OpensAt(w, id, flag) && WellFounded(w.c.g, w.rank) && WellFounded(w.o.g, w.orank)
    ensures FastValid(w.c, w.rank, id, f, Mode(flag, w.multiError)) <==> Valid(w.o, w.orank, Code(id, flag), Decode(f))
    decreases f, w.rank[id], 3
  {
    hide FastSetOperationsOk, SetOperationsOk, FastShapeOk, ShapeOk, WellFounded, OpenSchema, Code, Viewed, LooksAlike;
    ViewedAt(w, id, f, flag);
    if id !in w.c.empty {
      FastSetOperationsAgree(w, id, f, flag);
      FastShapeAgrees(w, id, f, flag);
    }
  }

  lemma PartIsViewed(w: View, id: Id, r: SchemaRef, f: Fast, flag: bool)
    requires Viewed(w, id, f) && Combines(w.c.g[id], r)
    ensures Resolved(w.c.g, r) && Target(w.c.g, r) in w.rank && id in w.rank
    ensures w.rank[Target(w.c.g, r)] < w.rank[id] && Viewed(w, Target(w.c.g, r), f)
    ensures Resolved(w.o.g, Lift(r, flag)) && Target(w.o.g, Lift(r, flag)) == Code(Target(w.c.g, r), flag)
  {
    hide Plain, LooksAlike, OpenSchema, Code;
    assert OpensAt(w, Target(w.c.g, r), flag);
  }

  lemma {:induction false} FastPartAgrees(w: View, id: Id, r: SchemaRef, f: Fast, from: bool, flag: bool)
    requires Viewed(w, id, f) && Combines(w.c.g[id], r)
    requires Code(id, from) in w.o.g && Combines(w.o.g[Code(id, from)], Lift(r, flag))
    ensures WellFounded(w.c.g, w.rank) && WellFounded(w.o.g, w.orank)
    ensures FastPart(w.c, w.rank, id, r, f, Mode(flag, w.multiError))
       <==> PartValid(w.o, w.orank, Code(id, from), Lift(r, flag), Decode(f))
    decreases f, w.rank[id], 0
  {
    hide FastValid, Valid, WellFounded, Opens, OpensAt, Comparable, Combines, Resolved, Code, Lift, Decode;
    PartIsViewed(w, id, r, f, flag);
    FastAgreesOpened(w, Target(w.c.g, r), f, flag);
  }

  lemma EnumsAgree(env: Env, s: Schema, f: Fast)
    requires LooksAlike(env, s, f) && !f.FastNull?
    ensures FastEnumOk(s, f) <==> Decode(f) in s.enum
  {}

  lemma DiscriminatorsAgree(env: Env, s: Schema, r: SchemaRef, f: Fast, t: Schema, q: SchemaRef)
    requires Plain(f) && LooksAlike(env, s, f) && s.oneOf != [] && t.discriminator == s.discriminator && q.ref == r.ref
    ensures FastDiscriminates(env, s, r, f) <==> Discriminates(t, q, Decode(f))
  {
    if s.discriminator.Some? && f.FastObj? {
      var pn := s.discriminator.value.propertyName;
      var d := FirstField(f.fields, pn);
      if d.Some? {
        var i :| 0 <= i < |f.fields| && f.fields[i] == (pn, d.value);
        DecodedField(f, |f.fields|, i);
      }
      DecodedKeys(f, |f.fields|, pn);
    }
  }

  lemma OneMoreFastChosen(c: Context, rank: Rank, id: Id, f: Fast, mode: Mode, n: nat)
    requires WellFounded(c.g, rank) && id in c.g && n < |c.g[id].oneOf|
    ensures FastChosenAmong(c, rank, id, f, mode, n + 1)
         == FastChosenAmong(c, rank, id, f, mode, n) + if FastChosen(c, rank, id, n, f, mode) then 1 else 0
    ensures Combines(c.g[id], c.g[id].oneOf[n])
  {}

  lemma NoneOfNone(c: Context, r1: Rank, a: Id, f: Fast, mode: Mode, o: Context, r2: Rank, b: Id, v: Json)
    requires WellFounded(c.g, r1) && a in c.g && WellFounded(o.g, r2) && b in o.g
    ensures FastChosenAmong(c, r1, a, f, mode, 0) == ChosenAmong(o, r2, b, v, 0)
  {}

  /** A oneOf alternative counts for the one visitor exactly if its lifted form counts for the other. */
  lemma {:induction false} ChoiceAgrees(w: View, id: Id, f: Fast, flag: bool, i: nat)
    requires Viewed(w, id, f) && i < |w.c.g[id].oneOf|
    ensures OpensAt(w, id, flag) && WellFounded(w.c.g, w.rank) && WellFounded(w.o.g, w.orank)
    ensures |w.o.g[Code(id, flag)].oneOf| == |w.c.g[id].oneOf|
    ensures FastChosen(w.c, w.rank, id, i, f, Mode(flag, w.multiError))
       <==> Chosen(w.o, w.orank, Code(id, flag), i, Decode(f))
    decreases f, w.rank[id], 1
  {
    hide FastPart, PartValid, FastDiscriminates, Discriminates, WellFounded, Viewed, LooksAlike, Code, Decode;
    ViewedAt(w, id, f, flag);
    var r, t := w.c.g[id].oneOf[i], w.o.g[Code(id, flag)];
    assert t.oneOf[i] == Lift(r, true);
    FastPartAgrees(w, id, r, f, flag, true);
    DiscriminatorsAgree(w.c.env, w.c.g[id], r, f, t, Lift(r, true));
  }

  lemma {:induction false} FastChosenAgree(w: View, id: Id, f: Fast, flag: bool, n: nat)
    requires Viewed(w, id, f) && n <= |w.c.g[id].oneOf|
    ensures OpensAt(w, id, flag) && WellFounded(w.c.g, w.rank) && WellFounded(w.o.g, w.orank)
    ensures |w.o.g[Code(id, flag)].oneOf| == |w.c.g[id].oneOf|
    ensures FastChosenAmong(w.c, w.rank, id, f, Mode(flag, w.multiError), n)
         == ChosenAmong(w.o, w.orank, Code(id, flag), Decode(f), n)
    decreases f, w.rank[id], 2, n
  {
    hide FastChosen, Chosen, FastChosenAmong, ChosenAmong, WellFounded, Viewed, LooksAlike, Code, Decode;
    ViewedAt(w, id, f, flag);
    assert |w.o.g[Code(id, flag)].oneOf| == |w.c.g[id].oneOf|;
    if n == 0 {
      NoneOfNone(w.c, w.rank, id, f, Mode(flag, w.multiError), w.o, w.orank, Code(id, flag), Decode(f));
    } else {
      FastChosenAgree(w, id, f, flag, n - 1);
      ChoiceAgrees(w, id, f, flag, n - 1);
      OneMoreFastChosen(w.c, w.rank, id, f, Mode(flag, w.multiError), n - 1);
      OneMoreChosen(w.o, w.orank, Code(id, flag), Decode(f), n - 1);
    }
  }

  lemma {:induction false} FastNotAndOneOfAgree(w: View, id: Id, f: Fast, flag: bool)
    requires Viewed(w, id, f)
    ensures OpensAt(w, id, flag) && WellFounded(w.c.g, w.rank) && WellFounded(w.o.g, w.orank)
    ensures var a, m := Code(id, flag), Mode(flag, w.multiError);
            && (FastNotOk(w.c, w.rank, id, f, m) <==> NotOk(w.o, w.orank, a, Decode(f)))
            && (FastOneOfOk(w.c, w.rank, id, f, m) <==> OneOfOk(w.o, w.orank, a, Decode(f)))
    decreases f, w.rank[id], 3, 0
  {
    hide FastPart, PartValid, FastChosenAmong, ChosenAmong, WellFounded, Viewed, LooksAlike, Code, Decode;
    ViewedAt(w, id, f, flag);
    var s := w.c.g[id];
    if s.negated.Some? {
      FastPartAgrees(w, id, s.negated.value, f, flag, true);
    }
    FastChosenAgree(w, id, f, flag, |s.oneOf|);
  }

  lemma {:induction false} FastAnyOfAgrees(w: View, id: Id, f: Fast, flag: bool)
    requires Viewed(w, id, f)
    ensures OpensAt(w, id, flag) && WellFounded(w.c.g, w.rank) && WellFounded(w.o.g, w.orank)
    ensures FastAnyOfOk(w.c, w.rank, id, f, Mode(flag, w.multiError)) <==>
              AnyOfOk(w.o, w.orank, Code(id, flag), Decode(f))
    decreases f, w.rank[id], 1
  {
    hide FastPart, PartValid, WellFounded, Viewed, LooksAlike, Code, Decode;
    ViewedAt(w, id, f, flag);
    var rs, qs := w.c.g[id].anyOf, w.o.g[Code(id, flag)].anyOf;
    forall i | 0 <= i < |rs|
      ensures FastPart(w.c, w.rank, id, rs[i], f, Mode(true, w.multiError))
         <==> PartValid(w.o, w.orank, Code(id, flag), qs[i], Decode(f))
    {
      assert qs[i] == Lift(rs[i], true);
      FastPartAgrees(w, id, rs[i], f, flag, true);
    }
  }

  lemma {:induction false} FastAllOfAgrees(w: View, id: Id, f: Fast, flag: bool)
    requires Viewed(w, id, f)
    ensures OpensAt(w, id, flag) && WellFounded(w.c.g, w.rank) && WellFounded(w.o.g, w.orank)
    ensures FastAllOfOk(w.c, w.rank, id, f, Mode(flag, w.multiError)) <==>
              AllOfOk(w.o, w.orank, Code(id, flag), Decode(f))
    decreases f, w.rank[id], 1
  {
    hide FastPart, PartValid, WellFounded, Viewed, LooksAlike, Code, Decode;
    ViewedAt(w, id, f, flag);
    var rs, qs := w.c.g[id].allOf, w.o.g[Code(id, flag)].allOf;
    forall i | 0 <= i < |rs|
      ensures FastPart(w.c, w.rank, id, rs[i], f, Mode(false, w.multiError))
         <==> PartValid(w.o, w.orank, Code(id, flag), qs[i], Decode(f))
    {
      assert qs[i] == Lift(rs[i], false);
      FastPartAgrees(w, id, rs[i], f, flag, false);
    }
  }

  lemma {:induction false} FastSetOperationsAgree(w: View, id: Id, f: Fast, flag: bool)
    requires Viewed(w, id, f)
    ensures OpensAt(w, id, flag) && WellFounded(w.c.g, w.rank) && WellFounded(w.o.g, w.orank)
    ensures FastSetOperationsOk(w.c, w.rank, id, f, Mode(flag, w.multiError))
       <==> SetOperationsOk(w.o, w.orank, Code(id, flag), Decode(f))
    decreases f, w.rank[id], 3, 1
  {
    hide FastEnumOk, FastNotOk, FastOneOfOk, FastAnyOfOk, FastAllOfOk, NotOk, OneOfOk, AnyOfOk, AllOfOk;
    hide WellFounded, Viewed, LooksAlike, Code, Decode;
    ViewedAt(w, id, f, flag);
    assert w.o.g[Code(id, flag)].enum == w.c.g[id].enum;
    EnumsAgree(w.c.env, w.c.g[id], f);
    FastNotAndOneOfAgree(w, id, f, flag);
    FastAnyOfAgrees(w, id, f, flag);
    FastAllOfAgrees(w, id, f, flag);
  }

  lemma LiftIsOpened(w: View, r: SchemaRef, flag: bool)
    requires Opens(w) && Resolved(w.c.g, r)
    ensures Resolved(w.o.g, Lift(r, flag)) && Target(w.o.g, Lift(r, flag)) == Code(Target(w.c.g, r), flag)
  {
    hide WellFounded, OpenSchema, Code;
    assert OpensAt(w, Target(w.c.g, r), flag);
  }

  lemma ItemIsViewed(w: View, id: Id, f: Fast, i: nat, flag: bool)
    requires Viewed(w, id, f) && f.FastArr? && i < |f.items| && w.c.g[id].items.Some?
    ensures var r := w.c.g[id].items.value;
            && Resolved(w.c.g, r) && Viewed(w, Target(w.c.g, r), f.items[i])
            && Resolved(w.o.g, Lift(r, flag)) && Target(w.o.g, Lift(r, flag)) == Code(Target(w.c.g, r), flag)
  {
    hide WellFounded, LooksAlike, Opens, Code;
    SchemaIsResolved(w.c.g, w.rank, id);
    LiftIsOpened(w, w.c.g[id].items.value, flag);
  }

  lemma FieldIsViewed(w: View, id: Id, f: Fast, i: nat, r: SchemaRef, flag: bool)
    requires Viewed(w, id, f) && f.FastObj? && i < |f.fields|
    requires if f.fields[i].0 in w.c.g[id].properties then r == w.c.g[id].properties[f.fields[i].0]
             else w.c.g[id].additionalProperties == Some(r)
    ensures f.fields[i].1 < f && Resolved(w.c.g, r) && Viewed(w, Target(w.c.g, r), f.fields[i].1)
    ensures Resolved(w.o.g, Lift(r, flag)) && Target(w.o.g, Lift(r, flag)) == Code(Target(w.c.g, r), flag)
  {
    hide WellFounded, LooksAlike, Opens, Code;
    SchemaIsResolved(w.c.g, w.rank, id);
    assert f.fields[i] in f.fields;
    LiftIsOpened(w, r, flag);
  }

  ghost predicate ItemSame(w: View, id: Id, f: Fast, i: nat, flag: bool)
    requires WellFounded(w.c.g, w.rank) && WellFounded(w.o.g, w.orank) && id in w.c.g
    requires f.FastArr? && w.c.g[id].items.Some? && i < |f.items|
  {
    var r, q := w.c.g[id].items.value, Lift(w.c.g[id].items.value, flag);
    && Resolved(w.c.g, r) && Resolved(w.o.g, q)
    && (FastValid(w.c, w.rank, Target(w.c.g, r), f.items[i], Mode(flag, w.multiError))
        <==> Valid(w.o, w.orank, Target(w.o.g, q), Decode(f.items[i])))
  }

  lemma {:induction false} FastItemAgrees(w: View, id: Id, f: Fast, i: nat, flag: bool)
    requires Viewed(w, id, f) && f.FastArr? && w.c.g[id].items.Some? && i < |f.items|
    ensures WellFounded(w.c.g, w.rank) && WellFounded(w.o.g, w.orank) && ItemSame(w, id, f, i, flag)
    decreases f, w.rank[id], 0
  {
    hide FastValid, Valid, Decode, WellFounded, Viewed, Code, LooksAlike;
    ViewedAt(w, id, f, flag);
    var r := w.c.g[id].items.value;
    ItemIsViewed(w, id, f, i, flag);
    FastAgreesOpened(w, Target(w.c.g, r), f.items[i], flag);
  }

  lemma {:induction false} FastFieldAgrees(w: View, id: Id, f: Fast, i: nat, flag: bool)
    requires Viewed(w, id, f) && f.FastObj? && i < |f.fields|
    ensures OpensAt(w, id, flag) && WellFounded(w.c.g, w.rank) && WellFounded(w.o.g, w.orank)
    ensures FastFieldOk(w.c, w.rank, id, f.fields[i].0, f.fields[i].1, Mode(flag, w.multiError))
       <==> FieldOk(w.o, w.orank, Code(id, flag), f.fields[i].0, Decode(f.fields[i].1))
    decreases f, w.rank[id], 0
  {
    hide FastValid, Valid, Decode, WellFounded, Viewed, Code, LooksAlike;
    ViewedAt(w, id, f, flag);
    var s, k, g := w.c.g[id], f.fields[i].0, f.fields[i].1;
    if k in s.properties || s.additionalProperties.Some? {
      var r := if k in s.properties then s.properties[k] else s.additionalProperties.value;
      FieldIsViewed(w, id, f, i, r, flag);
      FastAgreesOpened(w, Target(w.c.g, r), g, flag);
    }
  }

  lemma ExcusesLift(w: View, id: Id, f: Fast, flag: bool, k: string)
    requires Viewed(w, id, f)
    ensures OpensAt(w, id, flag)
    ensures var t := w.o.g[Code(id, flag)];
            && (k in w.c.g[id].properties ==> Resolved(w.c.g, w.c.g[id].properties[k]))
            && (k in t.properties ==> Resolved(w.o.g, t.properties[k]))
            && (Excused(w.c, w.c.g[id], k) <==> Excused(w.o, t, k))
  {
    hide WellFounded, Comparable, Code;
    assert id in w.c.g by { ViewedAt(w, id, f, flag); }
    assert OpensAt(w, id, flag);
    SchemaIsResolved(w.c.g, w.rank, id);
    if k in w.c.g[id].properties {
      assert OpensAt(w, Target(w.c.g, w.c.g[id].properties[k]), flag);
    }
  }

  lemma {:induction false} FastShapeAgrees(w: View, id: Id, f: Fast, flag: bool)
    requires Viewed(w, id, f)
    ensures OpensAt(w, id, flag) && WellFounded(w.c.g, w.rank) && WellFounded(w.o.g, w.orank)
    ensures FastShapeOk(w.c, w.rank, id, f, Mode(flag, w.multiError)) <==>
              ShapeOk(w.o, w.orank, Code(id, flag), Decode(f))
    decreases f, w.rank[id], 1
  {
    hide FastShapeOk, ShapeOk, WellFounded, OpenSchema, Viewed, FieldOk, FastFieldOk, ItemSame, Code, LooksAlike;
    ViewedAt(w, id, f, flag);
    if f.FastArr? {
      if w.c.g[id].items.Some? {
        forall i | 0 <= i < |f.items|
          ensures ItemSame(w, id, f, i, flag)
        {
          FastItemAgrees(w, id, f, i, flag);
        }
      }
      FastArrayAgrees(w, id, f, flag);
    } else if f.FastObj? {
      forall i | 0 <= i < |f.fields|
        ensures FastFieldOk(w.c, w.rank, id, f.fields[i].0, f.fields[i].1, Mode(flag, w.multiError))
           <==> FieldOk(w.o, w.orank, Code(id, flag), f.fields[i].0, Decode(f.fields[i].1))
      {
        FastFieldAgrees(w, id, f, i, flag);
      }
      FastObjectAgrees(w, id, f, flag);
    } else {
      FastScalarAgrees(w, id, f, flag);
    }
  }

  lemma SameChecks(env: Env, s: Schema, flag: bool, multiError: bool)
    ensures var t := OpenSchema(s, flag, multiError);
            && t.typ == s.typ && (Sane(s) && Sane(t) ==> forall n :: NumberOk(t, n) <==> NumberOk(s, n))
            && (forall v :: StringOk(env, t, v) <==> StringOk(env, s, v))
  {
    hide IsInt;
  }

  lemma FastScalarAgrees(w: View, id: Id, f: Fast, flag: bool)
    requires OpensAt(w, id, flag) && WellFounded(w.c.g, w.rank) && WellFounded(w.o.g, w.orank) && w.o.env == w.c.env
    requires !f.FastNull? && !f.FastArr? && !f.FastObj?
    ensures FastShapeOk(w.c, w.rank, id, f, Mode(flag, w.multiError)) <==>
              ShapeOk(w.o, w.orank, Code(id, flag), Decode(f))
  {
    hide OpenSchema, RefsResolved, NumberOk, StringOk, Code;
    SameChecks(w.c.env, w.c.g[id], flag, w.multiError);
  }

  lemma FastArrayAgrees(w: View, id: Id, f: Fast, flag: bool)
    requires OpensAt(w, id, flag) && WellFounded(w.c.g, w.rank) && WellFounded(w.o.g, w.orank) && w.o.env == w.c.env
    requires f.FastArr? && LooksAlike(w.c.env, w.c.g[id], f)
    requires w.c.g[id].items.Some? ==> forall i | 0 <= i < |f.items| :: ItemSame(w, id, f, i, flag)
    ensures FastShapeOk(w.c, w.rank, id, f, Mode(flag, w.multiError)) <==>
              ShapeOk(w.o, w.orank, Code(id, flag), Decode(f))
  {
    hide FastValid, Valid, WellFounded, Code, CountOk, Get;
    SchemaIsResolved(w.c.g, w.rank, id);
    SchemaIsResolved(w.o.g, w.orank, Code(id, flag));
    var xs, s := DecodeItems(f, |f.items|), w.c.g[id];
    assert Decode(f) == Arr(xs);
    if s.items.Some? {
      var r, q := s.items.value, Lift(s.items.value, flag);
      assert w.o.g[Code(id, flag)].items == Some(q);
      forall i | 0 <= i < |f.items|
        ensures FastValid(w.c, w.rank, Target(w.c.g, r), f.items[i], Mode(flag, w.multiError))
           <==> Valid(w.o, w.orank, Target(w.o.g, q), xs[i])
      {
        assert ItemSame(w, id, f, i, flag);
      }
    }
  }

  lemma FastObjectAgrees(w: View, id: Id, f: Fast, flag: bool)
    requires Viewed(w, id, f) && f.FastObj? && OpensAt(w, id, flag)
    requires WellFounded(w.c.g, w.rank) && WellFounded(w.o.g, w.orank)
    requires forall i | 0 <= i < |f.fields| ::
               FastFieldOk(w.c, w.rank, id, f.fields[i].0, f.fields[i].1, Mode(flag, w.multiError))
               <==> FieldOk(w.o, w.orank, Code(id, flag), f.fields[i].0, Decode(f.fields[i].1))
    ensures FastShapeOk(w.c, w.rank, id, f, Mode(flag, w.multiError)) <==>
              ShapeOk(w.o, w.orank, Code(id, flag), Decode(f))
  {
    hide WellFounded, Viewed, LooksAlike, Excused, CountOk, FieldOk, FastFieldOk, Code;
    ViewedAt(w, id, f, flag);
    var m := DecodeFields(f, |f.fields|);
    DecodedCount(f, |f.fields|);
    assert Decode(f) == Obj(m) && |m| == |f.fields|;
    forall k
      ensures HasField(f, k) <==> k in m
    {
      DecodedKeys(f, |f.fields|, k);
    }
    forall i | 0 <= i < |f.fields|
      ensures f.fields[i].0 in m && m[f.fields[i].0] == Decode(f.fields[i].1)
    {
      DecodedField(f, |f.fields|, i);
    }
    FieldsAgree(w, id, f, m, flag);
    forall k: string
      ensures k in w.c.g[id].properties ==> Resolved(w.c.g, w.c.g[id].properties[k])
      ensures k in w.o.g[Code(id, flag)].properties ==> Resolved(w.o.g, w.o.g[Code(id, flag)].properties[k])
      ensures Excused(w.c, w.c.g[id], k) <==> Excused(w.o, w.o.g[Code(id, flag)], k)
    {
      ExcusesLift(w, id, f, flag, k);
    }
  }

  lemma FieldsAgree(w: View, id: Id, f: Fast, m: map<string, Json>, flag: bool)
    requires OpensAt(w, id, flag) && WellFounded(w.c.g, w.rank) && WellFounded(w.o.g, w.orank) && f.FastObj?
    requires forall k :: HasField(f, k) <==> k in m
    requires forall i | 0 <= i < |f.fields| :: f.fields[i].0 in m && m[f.fields[i].0] == Decode(f.fields[i].1)
    requires forall i | 0 <= i < |f.fields| ::
               FastFieldOk(w.c, w.rank, id, f.fields[i].0, f.fields[i].1, Mode(flag, w.multiError))
               <==> FieldOk(w.o, w.orank, Code(id, flag), f.fields[i].0, Decode(f.fields[i].1))
    ensures (forall i | 0 <= i < |f.fields| ::
               FastFieldOk(w.c, w.rank, id, f.fields[i].0, f.fields[i].1, Mode(flag, w.multiError)))
       <==> (forall k <- m :: FieldOk(w.o, w.orank, Code(id, flag), k, m[k]))
  {
    hide FastFieldOk, FieldOk, WellFounded, Decode, OpenSchema, Code;
    if forall i | 0 <= i < |f.fields| ::
        FastFieldOk(w.c, w.rank, id, f.fields[i].0, f.fields[i].1, Mode(flag, w.multiError)) {
      forall k | k in m
        ensures FieldOk(w.o, w.orank, Code(id, flag), k, m[k])
      {
        assert HasField(f, k);
        var i :| 0 <= i < |f.fields| && f.fields[i].0 == k;
        assert FastFieldOk(w.c, w.rank, id, f.fields[i].0, f.fields[i].1, Mode(flag, w.multiError));
      }
    }
  }

  /**
   On any graph and in any mode, the fast visitor's verdict on a value is the declared verdict on the decoded
   value in the opened graph: the one where the schemas that close their objects, and that the visitor comes to
   with the flag off while errors are not collected, do not close them.
   */
  lemma FastIsOpened(c: Context, rank: Rank, id: Id, f: Fast, mode: Mode)
    requires Comparable(c, rank, id, f)
    ensures rank.Keys == c.g.Keys
    ensures WellFounded(Opened(c, mode.multiError).g, OpenRank(c.g, rank))
    ensures Code(id, mode.failfast) in Opened(c, mode.multiError).g
    ensures FastValid(c, rank, id, f, mode)
       <==> Valid(Opened(c, mode.multiError), OpenRank(c.g, rank), Code(id, mode.failfast), Decode(f))
  {
    hide WellFounded, FastValid, Valid, SeenAlike, Plain, Opens, Opened, OpenRank;
    OpenOpens(c, rank, mode.multiError);
    FastAgreesOpened(Open(c, rank, mode.multiError), id, f, mode.failfast);
  }

  // When the two visitors agree

  /** Schemas, each with the flag as it is when the visitor comes to it. */
  type Positions = set<(Id, bool)>

  ghost predicate LeadsTo(at: Positions, r: SchemaRef, flag: bool) {
    r.value.Some? ==> (r.value.value, flag) in at
  }

  /** Where a visit goes on: combinators overwrite the flag, properties and items inherit it. */
  ghost predicate GoesOn(at: Positions, s: Schema, flag: bool) {
    && (forall r | r in s.oneOf || r in s.anyOf || r in Listed(s.negated) :: LeadsTo(at, r, true))
    && (forall r | r in s.allOf :: LeadsTo(at, r, false))
    && (forall r | r in Listed(s.items) || r in Listed(s.additionalProperties) || r in s.properties.Values ::
          LeadsTo(at, r, flag))
  }

  /** The positions contain all that are visited from them. */
  ghost predicate Visited(g: map<Id, Schema>, at: Positions) {
    forall x <- at :: x.0 in g && GoesOn(at, g[x.0], x.1)
  }

  /** No schema that closes its objects is visited with the flag off, or errors are collected. */
  ghost predicate KeepsClosed(g: map<Id, Schema>, at: Positions, multiError: bool) {
    multiError || forall x | x in at && x.0 in g && Closes(g[x.0]) :: x.1
  }

  function Coded(at: Positions): (rel: set<(Id, Id)>)
    ensures forall x :: x in at ==> (Code(x.0, x.1), x.0) in rel
    ensures forall y <- rel :: exists x :: x in at && y == (Code(x.0, x.1), x.0)
  {
    set x | x in at :: (Code(x.0, x.1), x.0)
  }

  function CodedPairing(w: View, at: Positions): Pairing {
    Pairing(w.o, w.orank, w.c, w.rank, Coded(at))
  }

  lemma LiftsToSame(w: View, at: Positions, r: SchemaRef, flag: bool)
    requires Opens(w) && Resolved(w.c.g, r) && LeadsTo(at, r, flag)
    ensures SameRef(CodedPairing(w, at), Lift(r, flag), r)
  {
    hide WellFounded, OpenSchema, Code, Coded;
    LiftIsOpened(w, r, flag);
    assert ((r.value.value, flag)).0 == r.value.value && ((r.value.value, flag)).1 == flag;
  }

  lemma KeptSchemaIsSame(w: View, at: Positions, id: Id, flag: bool)
    requires Opens(w) && Visited(w.c.g, at) && KeepsClosed(w.c.g, at, w.multiError) && (id, flag) in at
    ensures id in w.c.g && SameSchema(CodedPairing(w, at), OpenSchema(w.c.g[id], flag, w.multiError), w.c.g[id])
  {
    hide WellFounded, OpensAt, SameRef, CodedPairing, KeepsClosed, GoesOn, Lift;
    assert ((id, flag)).0 == id && ((id, flag)).1 == flag;
    var s, t, p := w.c.g[id], OpenSchema(w.c.g[id], flag, w.multiError), CodedPairing(w, at);
    StaysClosed(w, at, id, flag);
    forall r, b | GoesOnTo(s, flag, r, b)
      ensures SameRef(p, Lift(r, b), r)
    {
      ReferredIsResolved(w.c.g, w.rank, id, r);
      GoesOnLeads(at, s, flag, r, b);
      LiftsToSame(w, at, r, b);
    }
    assert forall k <- s.properties :: s.properties[k] in s.properties.Values;
  }

  /** The visit of a schema goes on to this reference with the flag so set. */
  ghost predicate GoesOnTo(s: Schema, flag: bool, r: SchemaRef, b: bool) {
    || ((r in s.oneOf || r in s.anyOf || r in Listed(s.negated)) && b)
    || (r in s.allOf && !b)
    || ((r in Listed(s.items) || r in Listed(s.additionalProperties) || r in s.properties.Values) && b == flag)
  }

  lemma GoesOnLeads(at: Positions, s: Schema, flag: bool, r: SchemaRef, b: bool)
    requires GoesOn(at, s, flag) && GoesOnTo(s, flag, r, b)
    ensures Refers(s, r) && LeadsTo(at, r, b)
  {}

  lemma StaysClosed(w: View, at: Positions, id: Id, flag: bool)
    requires KeepsClosed(w.c.g, at, w.multiError) && (id, flag) in at && id in w.c.g
    ensures Bare(OpenSchema(w.c.g[id], flag, w.multiError)) == Bare(w.c.g[id])
  {
    assert ((id, flag)).0 == id && ((id, flag)).1 == flag;
  }

  /**
   The two visitors agree on every value if errors are collected, or no schema that closes its objects by a bare
   `additionalProperties: false` is visited, from this one, with the flag off.
   */
  lemma FastAgreesOnEveryValue(c: Context, rank: Rank, id: Id, f: Fast, mode: Mode, at: Positions)
    requires Comparable(c, rank, id, f)
    requires Visited(c.g, at) && (id, mode.failfast) in at && KeepsClosed(c.g, at, mode.multiError)
    ensures FastValid(c, rank, id, f, mode) <==> Valid(c, rank, id, Decode(f))
  {
    hide WellFounded, FastValid, Valid, SeenAlike, Plain, Visited, KeepsClosed, Coded, Opens, Opened, OpenRank;
    FastIsOpened(c, rank, id, f, mode);
    OpenOpens(c, rank, mode.multiError);
    var w := Open(c, rank, mode.multiError);
    KeptIsLinked(w, at);
    var p := CodedPairing(w, at);
    assert (Code(((id, mode.failfast)).0, ((id, mode.failfast)).1), ((id, mode.failfast)).0) in p.rel;
    KeptSkips(w, at, Decode(f));
    VerdictsAgree(p, Code(id, mode.failfast), id, Decode(f));
  }

  lemma KeptIsLinked(w: View, at: Positions)
    requires Opens(w) && Visited(w.c.g, at) && KeepsClosed(w.c.g, at, w.multiError)
    ensures Linked(CodedPairing(w, at))
  {
    hide WellFounded, SameSchema, KeepsClosed, GoesOn, OpenSchema, Code, Coded;
    var p := CodedPairing(w, at);
    forall y | y in p.rel
      ensures y.0 in w.o.g && y.1 in w.c.g && SameSchema(p, w.o.g[y.0], w.c.g[y.1])
    {
      var x :| x in at && y == (Code(x.0, x.1), x.0);
      assert x == (x.0, x.1);
      KeptSchemaIsSame(w, at, x.0, x.1);
      assert OpensAt(w, x.0, x.1);
    }
  }

  lemma KeptSkips(w: View, at: Positions, v: Json)
    requires Opens(w) && Visited(w.c.g, at)
    ensures Skips(CodedPairing(w, at), v)
  {
    hide WellFounded, GoesOn, OpenSchema, Code, Coded;
    var p := CodedPairing(w, at);
    forall y | y in p.rel
      ensures y.0 in w.o.empty <==> y.1 in w.c.empty
    {
      var x :| x in at && y == (Code(x.0, x.1), x.0);
      assert OpensAt(w, x.0, x.1);
    }
  }

  // A closed schema visited with the flag off

  ghost predicate HasUndeclared(s: Schema, f: Fast)
    requires f.FastObj?
  {
    exists i :: 0 <= i < |f.fields| && f.fields[i].0 !in s.properties
  }

  /** What the fast visitor asks of an object but for its undeclared fields. */
  ghost predicate DeclaredOk(c: Context, rank: Rank, id: Id, f: Fast, mode: Mode)
    requires WellFounded(c.g, rank) && id in c.g && f.FastObj?
  {
    var s := c.g[id];
    && (s.typ == "" || s.typ == "object")
    && CountOk(|f.fields|, s.minProps, s.maxProps)
    && (forall i | 0 <= i < |f.fields| && f.fields[i].0 in s.properties ::
          FastFieldOk(c, rank, id, f.fields[i].0, f.fields[i].1, mode))
    && (forall k <- s.required :: HasField(f, k) || Excused(c, s, k))
  }

  /** Every schema that closes its objects rejects every object with an undeclared field. */
  lemma ClosedObjectsAreClosed(c: Context, rank: Rank, id: Id, v: Json, k: string)
    requires WellFounded(c.g, rank) && id in c.g && id !in c.empty && Closes(c.g[id])
    requires v.Obj? && k in v.fields && k !in c.g[id].properties
    ensures !Valid(c, rank, id, v)
  {
    assert !FieldOk(c, rank, id, k, v.fields[k]);
  }

  /**
   The fast visitor rejects such an object too, unless it comes to the schema with the flag off and errors are not
   collected. Then it drops the error, and accepts the object exactly if nothing else is wrong with it. The mode is
   the one in force at this schema: allOf clears the flag, and the other combinators set it.
   */
  lemma FastVisitorOpensClosedObjects(c: Context, rank: Rank, id: Id, f: Fast, mode: Mode)
    requires WellFounded(c.g, rank) && id in c.g && id !in c.empty && Closes(c.g[id])
    requires f.FastObj? && HasUndeclared(c.g[id], f)
    ensures FastValid(c, rank, id, f, mode) <==>
              && mode == Mode(false, false)
              && FastSetOperationsOk(c, rank, id, f, mode) && DeclaredOk(c, rank, id, f, mode)
  {
    hide WellFounded, FastSetOperationsOk, FastShapeOk, FastFieldOk, HasUndeclared;
    ClosedShape(c, rank, id, f, mode);
  }

  lemma ClosedShape(c: Context, rank: Rank, id: Id, f: Fast, mode: Mode)
    requires WellFounded(c.g, rank) && id in c.g && Closes(c.g[id]) && f.FastObj? && HasUndeclared(c.g[id], f)
    ensures FastShapeOk(c, rank, id, f, mode) <==> mode == Mode(false, false) && DeclaredOk(c, rank, id, f, mode)
  {
    hide WellFounded, FastValid, Excused, CountOk;
    var j :| 0 <= j < |f.fields| && f.fields[j].0 !in c.g[id].properties;
    assert FastFieldOk(c, rank, id, f.fields[j].0, f.fields[j].1, mode) <==> mode == Mode(false, false);
  }

  /**
   So, of every schema that closes its objects, an object that the fast visitor accepts with the flag off
   stays accepted when an undeclared field is added that its counts and combinators let through, and the
   other visitor rejects it.
   */
  lemma AddedFieldIsLetThrough(c: Context, rank: Rank, id: Id, f: Fast, k: string, x: Fast)
    requires WellFounded(c.g, rank) && id in c.g && id !in c.empty && Closes(c.g[id]) && f.FastObj?
    requires FastValid(c, rank, id, f, Mode(false, false)) && k !in c.g[id].properties && !HasField(f, k)
    requires c.g[id].maxProps.Some? ==> |f.fields| + 1 <= Int64(c.g[id].maxProps.value)
    requires FastSetOperationsOk(c, rank, id, FastObj(f.fields + [(k, x)]), Mode(false, false))
    ensures FastValid(c, rank, id, FastObj(f.fields + [(k, x)]), Mode(false, false))
    ensures !Valid(c, rank, id, Decode(FastObj(f.fields + [(k, x)])))
  {
    hide WellFounded, FastSetOperationsOk, FastFieldOk, Excused, Valid;
    var g, s, mode := FastObj(f.fields + [(k, x)]), c.g[id], Mode(false, false);
    assert g.fields[|f.fields|] == (k, x);
    assert HasField(g, k) && HasUndeclared(s, g);
    forall i | 0 <= i < |g.fields| && g.fields[i].0 in s.properties
      ensures FastFieldOk(c, rank, id, g.fields[i].0, g.fields[i].1, mode)
    {
      assert g.fields[i] == f.fields[i];
    }
    forall j | 0 <= j < |f.fields|
      ensures HasField(g, f.fields[j].0)
    {
      assert g.fields[j].0 == f.fields[j].0;
    }
    assert DeclaredOk(c, rank, id, g, mode);
    FastVisitorOpensClosedObjects(c, rank, id, g, mode);
    DecodedKeys(g, |g.fields|, k);
    ClosedObjectsAreClosed(c, rank, id, Decode(g), k);
  }

  /** Schema 0 is `type: object, additionalProperties: false`; 1 has it below allOf, and 2 below anyOf. */
  function ClosedGraph(): map<Id, Schema> {
    map[0 := BLANK.(typ := "object", additionalPropertiesAllowed := Some(false)),
        1 := BLANK.(allOf := [SchemaRef("", Some(0))]),
        2 := BLANK.(anyOf := [SchemaRef("", Some(0))])]
  }

  lemma ClosedGraphIsWellFounded(c: Context, rank: Rank)
    requires c.g == ClosedGraph() && rank == map[0 := 0, 1 := 1, 2 := 1]
    ensures WellFounded(c.g, rank)
  {
    hide RefsResolved, Sane;
    forall id <- c.g
      ensures RefsResolved(c.g, c.g[id]) && Sane(c.g[id])
      ensures forall r | Combines(c.g[id], r) :: id != 0 && r == SchemaRef("", Some(0))
    {
      OneReference(c.g, c.g[id]);
    }
  }

  lemma OneReference(g: map<Id, Schema>, s: Schema)
    requires 0 in g
    requires s == BLANK.(typ := s.typ, additionalPropertiesAllowed := s.additionalPropertiesAllowed, allOf := s.allOf,
                         anyOf := s.anyOf)
    requires forall r | r in s.allOf || r in s.anyOf :: r == SchemaRef("", Some(0))
    ensures RefsResolved(g, s) && Sane(s)
    ensures forall r | Combines(s, r) :: (s.allOf != [] || s.anyOf != []) && r == SchemaRef("", Some(0))
  {}

  /** An input on which the visitors differ: the smallest closed schema, and one field. */
  lemma ClosedGraphDiffers(c: Context, rank: Rank, f: Fast, mode: Mode)
    requires c.g == ClosedGraph() && c.empty == {} && rank == map[0 := 0, 1 := 1, 2 := 1]
    requires f == FastObj([("extra", FastBool(true))])
    ensures WellFounded(c.g, rank)
    ensures !Valid(c, rank, 0, Decode(f))
    ensures FastValid(c, rank, 0, f, mode) <==> mode == Mode(false, false)
  {
    hide WellFounded, FastShapeOk, ShapeOk, FastValid, Valid;
    ClosedGraphIsWellFounded(c, rank);
    assert f.fields[0] == ("extra", FastBool(true));
    assert FastNotOk(c, rank, 0, f, mode) && FastOneOfOk(c, rank, 0, f, mode);
    assert FastAnyOfOk(c, rank, 0, f, mode) && FastAllOfOk(c, rank, 0, f, mode);
    assert FastSetOperationsOk(c, rank, 0, f, mode);
    FastVisitorOpensClosedObjects(c, rank, 0, f, mode);
    DecodedKeys(f, 1, "extra");
    ClosedObjectsAreClosed(c, rank, 0, Decode(f), "extra");
  }

  /**
   Below allOf the same object is let through whenever errors are not collected, with FailFast too; below anyOf it
   never is, in the default mode neither. The other visitor rejects it each time.
   */
  lemma CombinatorsOverwriteTheFlag(c: Context, rank: Rank, f: Fast, mode: Mode)
    requires c.g == ClosedGraph() && c.empty == {} && rank == map[0 := 0, 1 := 1, 2 := 1]
    requires f == FastObj([("extra", FastBool(true))])
    ensures WellFounded(c.g, rank)
    ensures !Valid(c, rank, 1, Decode(f)) && !Valid(c, rank, 2, Decode(f))
    ensures FastValid(c, rank, 1, f, mode) <==> !mode.multiError
    ensures !FastValid(c, rank, 2, f, mode)
  {
    ClosedGraphDiffers(c, rank, f, mode);
    BelowAllOf(c, rank, f, mode);
    BelowAnyOf(c, rank, f, mode);
  }

  lemma BelowAllOf(c: Context, rank: Rank, f: Fast, mode: Mode)
    requires c.g == ClosedGraph() && c.empty == {} && rank == map[0 := 0, 1 := 1, 2 := 1]
    requires f == FastObj([("extra", FastBool(true))]) && WellFounded(c.g, rank)
    ensures !Valid(c, rank, 1, Decode(f))
    ensures FastValid(c, rank, 1, f, mode) <==> !mode.multiError
  {
    hide WellFounded, Decode, FastShapeOk, ShapeOk;
    ClosedGraphDiffers(c, rank, f, mode.(failfast := false));
    var r := c.g[1].allOf[0];
    assert FastPart(c, rank, 1, r, f, mode.(failfast := false)) <==> !mode.multiError;
    assert FastAllOfOk(c, rank, 1, f, mode) <==> !mode.multiError;
    assert FastSetOperationsOk(c, rank, 1, f, mode) <==> !mode.multiError;
    assert FastShapeOk(c, rank, 1, f, mode) by { BlankShape(c, rank, 1, f, mode); }
    assert !PartValid(c, rank, 1, r, Decode(f)) && !AllOfOk(c, rank, 1, Decode(f));
  }

  lemma BelowAnyOf(c: Context, rank: Rank, f: Fast, mode: Mode)
    requires c.g == ClosedGraph() && c.empty == {} && rank == map[0 := 0, 1 := 1, 2 := 1]
    requires f == FastObj([("extra", FastBool(true))]) && WellFounded(c.g, rank)
    ensures !Valid(c, rank, 2, Decode(f)) && !FastValid(c, rank, 2, f, mode)
  {
    hide WellFounded, Decode, FastShapeOk, ShapeOk;
    ClosedGraphDiffers(c, rank, f, mode.(failfast := true));
    var r := c.g[2].anyOf[0];
    assert !FastPart(c, rank, 2, r, f, mode.(failfast := true)) && !FastAnyOfOk(c, rank, 2, f, mode);
    assert !PartValid(c, rank, 2, r, Decode(f)) && !AnyOfOk(c, rank, 2, Decode(f));
  }

  lemma BlankShape(c: Context, rank: Rank, id: Id, f: Fast, mode: Mode)
    requires WellFounded(c.g, rank) && id in c.g && c.g[id] == BLANK.(allOf := c.g[id].allOf)
    requires f == FastObj([("extra", FastBool(true))])
    ensures FastShapeOk(c, rank, id, f, mode)
  {
    hide WellFounded;
    assert f.fields[0] == ("extra", FastBool(true));
    assert FastFieldOk(c, rank, id, "extra", FastBool(true), mode);
  }
}
