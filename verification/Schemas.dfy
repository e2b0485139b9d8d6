/**
 Schema objects as a graph. A schema is known by its identity, so that references may close cycles;
 what the visitors ask of a schema is its fields and, through its references, other schemas.
 */
module Schemas {
  import opened Options

  /** A decoded JSON value. An object is a Go map: its fields have no order. */
  datatype Json =
    | Null
    | Bool(b: bool)
    | Num(n: real)
    | Str(s: string)
    | Arr(items: seq<Json>)
    | Obj(fields: map<string, Json>)
  {
    predicate Scalar() {
      Null? || Bool? || Num? || Str?
    }
  }

  type Id = nat

  const TWO_63: nat := 0x8000_0000_0000_0000

  type Uint64 = n: nat | n < 2 * TWO_63

  /** Go's conversion int64(n). */
  function Int64(n: Uint64): int {
    if n < TWO_63 then n else n - 2 * TWO_63
  }

  datatype SchemaRef = SchemaRef(ref: string, value: Option<Id>)

  datatype Discriminator = Discriminator(propertyName: string, mapping: map<string, string>)

  datatype Schema = Schema(
    oneOf: seq<SchemaRef>,
    anyOf: seq<SchemaRef>,
    allOf: seq<SchemaRef>,
    negated: Option<SchemaRef>,
    typ: string,
    format: string,
    enum: seq<Json>,
    additionalPropertiesAllowed: Option<bool>,
    uniqueItems: bool,
    exclusiveMin: bool,
    exclusiveMax: bool,
    nullable: bool,
    readOnly: bool,
    writeOnly: bool,
    allowEmptyValue: bool,
    min: Option<real>,
    max: Option<real>,
    multipleOf: Option<real>,
    minLength: Uint64,
    maxLength: Option<Uint64>,
    pattern: string,
    minItems: Uint64,
    maxItems: Option<Uint64>,
    items: Option<SchemaRef>,
    required: seq<string>,
    properties: map<string, SchemaRef>,
    minProps: Uint64,
    maxProps: Option<Uint64>,
    additionalProperties: Option<SchemaRef>,
    discriminator: Option<Discriminator>)

  /** A new Schema value, with every field unset. */
  const BLANK := Schema([], [], [], None, "", "", [], None, false, false, false, false, false, false, false,
                        None, None, None, 0, None, "", 0, None, None, [], map[], 0, None, None, None)

  /** A value as the fast parser leaves it: an object is a list of fields, perhaps with repeated names. */
  datatype Fast =
    | FastNull
    | FastBool(b: bool)
    | FastNum(n: real)
    | FastStr(s: string)
    | FastArr(items: seq<Fast>)
    | FastObj(fields: seq<(string, Fast)>)

  /** Regular expressions, formats, Atoi and the keys that list items are compared by are taken as given. */
  datatype Env = Env(
    compiles: string -> bool,
    matches: (string, string) -> bool,
    formatOk: (string, string) -> bool,
    atoi: string -> Option<int>,
    itemKey: Json -> string,
    fastKey: Fast -> string)

  /** Everything a visit consults and does not change; `empty` holds the schemas for which IsEmpty is true. */
  datatype Context = Context(g: map<Id, Schema>, empty: set<Id>, env: Env, asreq: bool, asrep: bool)

  predicate Resolved(g: map<Id, Schema>, r: SchemaRef) {
    r.value.Some? && r.value.value in g
  }

  function Target(g: map<Id, Schema>, r: SchemaRef): (id: Id)
    requires Resolved(g, r)
    ensures id in g
  {
    r.value.value
  }

  /** Every reference of the schema has been resolved. */
  ghost predicate RefsResolved(g: map<Id, Schema>, s: Schema) {
    && (forall r <- s.oneOf :: Resolved(g, r))
    && (forall r <- s.anyOf :: Resolved(g, r))
    && (forall r <- s.allOf :: Resolved(g, r))
    && (s.negated.Some? ==> Resolved(g, s.negated.value))
    && (s.items.Some? ==> Resolved(g, s.items.value))
    && (s.additionalProperties.Some? ==> Resolved(g, s.additionalProperties.value))
    && (forall k <- s.properties :: Resolved(g, s.properties[k]))
  }

  function Listed(r: Option<SchemaRef>): seq<SchemaRef> {
    if r.Some? then [r.value] else []
  }

  /** Every reference but the oneOf alternatives. */
  ghost predicate Checks(s: Schema, r: SchemaRef) {
    || r in s.anyOf || r in s.allOf || r in Listed(s.negated) || r in Listed(s.items)
    || r in s.properties.Values || r in Listed(s.additionalProperties)
  }

  /** Every reference a schema holds. */
  ghost predicate Refers(s: Schema, r: SchemaRef) {
    r in s.oneOf || Checks(s, r)
  }

  /** Exclusive bounds come with their bound, enumerated values are scalar, nothing is a multiple of zero. */
  ghost predicate Sane(s: Schema) {
    && (s.exclusiveMin ==> s.min.Some?)
    && (s.exclusiveMax ==> s.max.Some?)
    && (forall e <- s.enum :: e.Scalar())
    && s.multipleOf != Some(0.0)
  }

  /** The references followed without going into the value. */
  ghost predicate Combines(s: Schema, r: SchemaRef) {
    r in s.oneOf || r in s.anyOf || r in s.allOf || s.negated == Some(r)
  }

  type Rank = map<Id, nat>

  /** The graph of resolved references has no cycle of combinators: each leads down in rank. */
  ghost predicate WellFounded(g: map<Id, Schema>, rank: Rank) {
    && rank.Keys == g.Keys
    && (forall id <- g :: RefsResolved(g, g[id]) && Sane(g[id]))
    && (forall id, r | id in g && Combines(g[id], r) :: Resolved(g, r) && rank[Target(g, r)] < rank[id])
  }

  predicate IsInt(n: real) {
    n == n.Floor as real
  }

  predicate NumberOk(s: Schema, n: real)
    requires (s.exclusiveMin ==> s.min.Some?) && (s.exclusiveMax ==> s.max.Some?) && s.multipleOf != Some(0.0)
  {
    && (if s.typ == "integer" then IsInt(n) else s.typ == "" || s.typ == "number")
    && (s.exclusiveMin ==> s.min.value < n)
    && (s.exclusiveMax ==> n < s.max.value)
    && (s.min.Some? ==> s.min.value <= n)
    && (s.max.Some? ==> n <= s.max.value)
    && (s.multipleOf.Some? ==> IsInt(n / s.multipleOf.value))
  }

  predicate StringOk(env: Env, s: Schema, v: string) {
    && (s.typ == "" || s.typ == "string")
    && (s.minLength != 0 ==> Int64(s.minLength) <= |v|)
    && (s.maxLength.Some? ==> |v| <= Int64(s.maxLength.value))
    && (s.pattern != "" ==> env.compiles(s.pattern) && env.matches(s.pattern, v))
    && (s.format != "" ==> env.formatOk(s.format, v))
  }

  predicate CountOk(n: nat, least: Uint64, most: Option<Uint64>) {
    (least != 0 ==> Int64(least) <= n) && (most.Some? ==> n <= Int64(most.value))
  }

  ghost predicate Distinct(keys: seq<string>) {
    forall i, j | 0 <= i < j < |keys| :: keys[i] != keys[j]
  }

  ghost function ItemKeys(env: Env, xs: seq<Json>): (ks: seq<string>)
    ensures |ks| == |xs| && forall i | 0 <= i < |xs| :: ks[i] == env.itemKey(xs[i])
  {
    if xs == [] then [] else [env.itemKey(xs[0])] + ItemKeys(env, xs[1..])
  }

  /** A required property may be left out of a request if read-only and out of a response if write-only. */
  predicate Excused(c: Context, s: Schema, k: string)
    requires k in s.properties ==> Resolved(c.g, s.properties[k])
  {
    k in s.properties &&
    (|| (c.g[Target(c.g, s.properties[k])].readOnly && c.asreq)
     || (c.g[Target(c.g, s.properties[k])].writeOnly && c.asrep))
  }

  /** With a discriminator an alternative counts only if the mapping sends the property's value to it. */
  predicate Discriminates(s: Schema, r: SchemaRef, v: Json) {
    s.discriminator.Some? ==>
      && v.Obj? && s.discriminator.value.propertyName in v.fields
      && v.fields[s.discriminator.value.propertyName].Str?
      && var name := v.fields[s.discriminator.value.propertyName].s;
         name in s.discriminator.value.mapping && s.discriminator.value.mapping[name] == r.ref
  }
}

/** The verdict a schema gives on a value. */
module SchemaVerdict {
  import opened Options
  import opened Schemas

  ghost predicate Valid(c: Context, rank: Rank, id: Id, v: Json)
    requires WellFounded(c.g, rank) && id in c.g
    decreases v, 0, rank[id], 5
  {
    if v.Null? then c.g[id].nullable
    else id in c.empty || (SetOperationsOk(c, rank, id, v) && ShapeOk(c, rank, id, v))
  }

  /** The verdict of a schema that `id` combines, on the same value. */
  ghost predicate PartValid(c: Context, rank: Rank, id: Id, r: SchemaRef, v: Json)
    requires WellFounded(c.g, rank) && id in c.g && Combines(c.g[id], r)
    decreases v, 0, rank[id], 0
  {
    Valid(c, rank, Target(c.g, r), v)
  }

  /** A oneOf alternative that counts. */
  ghost predicate Chosen(c: Context, rank: Rank, id: Id, i: nat, v: Json)
    requires WellFounded(c.g, rank) && id in c.g && i < |c.g[id].oneOf|
    decreases v, 0, rank[id], 1
  {
    PartValid(c, rank, id, c.g[id].oneOf[i], v) && Discriminates(c.g[id], c.g[id].oneOf[i], v)
  }

  ghost predicate NotOk(c: Context, rank: Rank, id: Id, v: Json)
    requires WellFounded(c.g, rank) && id in c.g
    decreases v, 0, rank[id], 2
  {
    c.g[id].negated.Some? ==> !PartValid(c, rank, id, c.g[id].negated.value, v)
  }

  /** How many of the first `n` alternatives count. */
  ghost function ChosenAmong(c: Context, rank: Rank, id: Id, v: Json, n: nat): nat
    requires WellFounded(c.g, rank) && id in c.g && n <= |c.g[id].oneOf|
    decreases v, 0, rank[id], 2, n
  {
    if n == 0 then 0
    else ChosenAmong(c, rank, id, v, n - 1) + if Chosen(c, rank, id, n - 1, v) then 1 else 0
  }

  /** Exactly one alternative counts. */
  ghost predicate OneOfOk(c: Context, rank: Rank, id: Id, v: Json)
    requires WellFounded(c.g, rank) && id in c.g
    decreases v, 0, rank[id], 3
  {
    c.g[id].oneOf != [] ==> ChosenAmong(c, rank, id, v, |c.g[id].oneOf|) == 1
  }

  ghost predicate AnyOfOk(c: Context, rank: Rank, id: Id, v: Json)
    requires WellFounded(c.g, rank) && id in c.g
    decreases v, 0, rank[id], 2
  {
    c.g[id].anyOf != [] ==> exists i :: 0 <= i < |c.g[id].anyOf| && PartValid(c, rank, id, c.g[id].anyOf[i], v)
  }

  ghost predicate AllOfOk(c: Context, rank: Rank, id: Id, v: Json)
    requires WellFounded(c.g, rank) && id in c.g
    decreases v, 0, rank[id], 2
  {
    forall i | 0 <= i < |c.g[id].allOf| :: PartValid(c, rank, id, c.g[id].allOf[i], v)
  }

  /** enum, which settles the matter when present; otherwise not, oneOf, anyOf and allOf. */
  ghost predicate SetOperationsOk(c: Context, rank: Rank, id: Id, v: Json)
    requires WellFounded(c.g, rank) && id in c.g
    decreases v, 0, rank[id], 4
  {
    if c.g[id].enum != [] then v in c.g[id].enum
    else
      NotOk(c, rank, id, v) && OneOfOk(c, rank, id, v) && AnyOfOk(c, rank, id, v) && AllOfOk(c, rank, id, v)
  }

  ghost predicate ShapeOk(c: Context, rank: Rank, id: Id, v: Json)
    requires WellFounded(c.g, rank) && id in c.g && !v.Null?
    decreases v, 0, rank[id], 0
  {
    var s := c.g[id];
    match v
    case Bool(_) => s.typ == "" || s.typ == "boolean"
    case Num(n) => NumberOk(s, n)
    case Str(str) => StringOk(c.env, s, str)
    case Arr(xs) =>
      && (s.typ == "" || s.typ == "array")
      && CountOk(|xs|, s.minItems, s.maxItems)
      && (s.uniqueItems ==> Distinct(ItemKeys(c.env, xs)))
      && (s.items.Some? ==> forall i | 0 <= i < |xs| :: Valid(c, rank, Target(c.g, s.items.value), xs[i]))
    case Obj(f) =>
      && (s.typ == "" || s.typ == "object")
      && CountOk(|f|, s.minProps, s.maxProps)
      && (forall k <- f :: FieldOk(c, rank, id, k, f[k]))
      && (forall k <- s.required :: k in f || Excused(c, s, k))
  }

  /** A property of an object, declared or not. */
  ghost predicate FieldOk(c: Context, rank: Rank, id: Id, k: string, v: Json)
    requires WellFounded(c.g, rank) && id in c.g
    decreases v, 1, 0, 0
  {
    var s := c.g[id];
    if k in s.properties then Valid(c, rank, Target(c.g, s.properties[k]), v)
    else if s.additionalProperties.Some? then Valid(c, rank, Target(c.g, s.additionalProperties.value), v)
    else s.additionalPropertiesAllowed != Some(false)
  }

  /** Every discriminator property that the visit may consult is a string where it is present. */
  ghost predicate StringDiscriminators(c: Context, rank: Rank, id: Id, v: Json)
    requires WellFounded(c.g, rank) && id in c.g
    decreases v, rank[id]
  {
    var s := c.g[id];
    && (s.oneOf != [] && s.discriminator.Some? && v.Obj? && s.discriminator.value.propertyName in v.fields ==>
          v.fields[s.discriminator.value.propertyName].Str?)
    && (forall r | Combines(s, r) :: StringDiscriminators(c, rank, Target(c.g, r), v))
    && (v.Arr? && s.items.Some? ==>
          forall i | 0 <= i < |v.items| :: StringDiscriminators(c, rank, Target(c.g, s.items.value), v.items[i]))
    && (v.Obj? ==> forall k | k in v.fields ::
          && (k in s.properties ==> StringDiscriminators(c, rank, Target(c.g, s.properties[k]), v.fields[k]))
          && (k !in s.properties && s.additionalProperties.Some? ==>
                StringDiscriminators(c, rank, Target(c.g, s.additionalProperties.value), v.fields[k])))
  }

  lemma OneMoreChosen(c: Context, rank: Rank, id: Id, v: Json, n: nat)
    requires WellFounded(c.g, rank) && id in c.g && n < |c.g[id].oneOf|
    ensures ChosenAmong(c, rank, id, v, n + 1)
         == ChosenAmong(c, rank, id, v, n) + if Chosen(c, rank, id, n, v) then 1 else 0
    ensures Combines(c.g[id], c.g[id].oneOf[n])
  {}
}
