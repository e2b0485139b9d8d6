/** Everything that is wrong with a value, as the visitor reports it when it collects errors. */
module Violations {
  import opened Options
  import opened Schemas
  import opened SchemaVerdict
  import opened SchemaErrors

  /** A keyword of a schema that a place in the value does not satisfy, and the value that is reported with it. */
  datatype Violation = Violation(path: seq<string>, schema: Id, field: string, value: Json)

  function Broken(broken: bool, id: Id, field: string, v: Json): set<Violation> {
    if broken then {Violation([], id, field, v)} else {}
  }

  /** Violations inside an element or field, as seen from outside. */
  function Inside(step: string, vs: set<Violation>): set<Violation> {
    set x | x in vs :: x.(path := [step] + x.path)
  }

  /** The combinator that is found to fail first. */
  ghost function CombinatorViolations(c: Context, rank: Rank, id: Id, v: Json): set<Violation>
    requires WellFounded(c.g, rank) && id in c.g
  {
    if c.g[id].enum != [] then Broken(v !in c.g[id].enum, id, "enum", v)
    else if !NotOk(c, rank, id, v) then Broken(true, id, "not", v)
    else if !OneOfOk(c, rank, id, v) then Broken(true, id, "oneOf", v)
    else if !AnyOfOk(c, rank, id, v) then Broken(true, id, "anyOf", v)
    else Broken(!AllOfOk(c, rank, id, v), id, "allOf", v)
  }

  ghost function NumberViolations(s: Schema, id: Id, n: real): set<Violation>
    requires Sane(s)
  {
    var v := Num(n);
    if s.typ != "" && s.typ != "number" && s.typ != "integer" then Broken(true, id, "type", Str("number, integer"))
    else
      Broken(s.typ == "integer" && !IsInt(n), id, "type", v)
      + Broken(s.exclusiveMin && n <= s.min.value, id, "exclusiveMinimum", v)
      + Broken(s.exclusiveMax && s.max.value <= n, id, "exclusiveMaximum", v)
      + Broken(s.min.Some? && n < s.min.value, id, "minimum", v)
      + Broken(s.max.Some? && s.max.value < n, id, "maximum", v)
      + Broken(s.multipleOf.Some? && !IsInt(n / s.multipleOf.value), id, "multipleOf", v)
  }

  ghost function StringViolations(env: Env, s: Schema, id: Id, t: string): set<Violation> {
    var v := Str(t);
    if s.typ != "" && s.typ != "string" then Broken(true, id, "type", Str("string"))
    else
      Broken(s.minLength != 0 && |t| < Int64(s.minLength), id, "minLength", v)
      + Broken(s.maxLength.Some? && Int64(s.maxLength.value) < |t|, id, "maxLength", v)
      + Broken(s.pattern != "" && !(env.compiles(s.pattern) && env.matches(s.pattern, t)), id, "pattern", v)
      + Broken(s.format != "" && !env.formatOk(s.format, t), id, "format", v)
  }

  ghost function CountViolations(id: Id, v: Json, n: nat, least: Uint64, most: Option<Uint64>, leastField: string,
                                 mostField: string): set<Violation>
  {
    Broken(least != 0 && n < Int64(least), id, leastField, v)
    + Broken(most.Some? && Int64(most.value) < n, id, mostField, v)
  }

  /** Every violation of the schema by the value, at every depth. The value is not null. */
  ghost function ShapeViolations(c: Context, rank: Rank, id: Id, v: Json): set<Violation>
    requires WellFounded(c.g, rank) && id in c.g && !v.Null?
    decreases v, 0, 0, 0
  {
    var s := c.g[id];
    match v
    case Bool(_) => Broken(s.typ != "" && s.typ != "boolean", id, "type", Str("boolean"))
    case Num(n) => NumberViolations(s, id, n)
    case Str(t) => StringViolations(c.env, s, id, t)
    case Arr(xs) =>
      if s.typ != "" && s.typ != "array" then Broken(true, id, "type", Str("array"))
      else
        CountViolations(id, v, |xs|, s.minItems, s.maxItems, "minItems", "maxItems")
        + Broken(s.uniqueItems && !Distinct(ItemKeys(c.env, xs)), id, "uniqueItems", v)
        + ItemViolations(c, rank, id, v, |xs|)
    case Obj(f) =>
      if s.typ != "" && s.typ != "object" then Broken(true, id, "type", Str("object"))
      else
        CountViolations(id, v, |f|, s.minProps, s.maxProps, "minProperties", "maxProperties")
        + (set k, x | k in f && x in FieldViolations(c, rank, id, k, f[k], v) :: x)
        + MissingViolations(c, id, v, |s.required|)
  }

  /** What is wrong with the first `n` items. */
  ghost function ItemViolations(c: Context, rank: Rank, id: Id, v: Json, n: nat): set<Violation>
    requires WellFounded(c.g, rank) && id in c.g && v.Arr? && n <= |v.items|
    decreases v, 0, 0, 0, n
  {
    if n == 0 || c.g[id].items.None? then {}
    else
      ItemViolations(c, rank, id, v, n - 1)
      + Inside(Decimal(n - 1), ViolationsOf(c, rank, Target(c.g, c.g[id].items.value), v.items[n - 1]))
  }

  /** What is wrong with one field; an undeclared field of a closed object is a violation of the object. */
  ghost function FieldViolations(c: Context, rank: Rank, id: Id, k: string, u: Json, v: Json): set<Violation>
    requires WellFounded(c.g, rank) && id in c.g
    decreases u, 2, 0, 0
  {
    var s := c.g[id];
    if k in s.properties then Inside(k, ViolationsOf(c, rank, Target(c.g, s.properties[k]), u))
    else if s.additionalProperties.Some? then
      Inside(k, ViolationsOf(c, rank, Target(c.g, s.additionalProperties.value), u))
    else Broken(s.additionalPropertiesAllowed == Some(false), id, "properties", v)
  }

  /** Which of the first `n` required names are missing. */
  ghost function MissingViolations(c: Context, id: Id, v: Json, n: nat): set<Violation>
    requires id in c.g && RefsResolved(c.g, c.g[id]) && v.Obj? && n <= |c.g[id].required|
  {
    if n == 0 then {}
    else
      var k := c.g[id].required[n - 1];
      MissingViolations(c, id, v, n - 1)
      + Inside(k, Broken(k !in v.fields && !Excused(c, c.g[id], k), id, "required", v))
  }

  ghost function ViolationsOf(c: Context, rank: Rank, id: Id, v: Json): set<Violation>
    requires WellFounded(c.g, rank) && id in c.g
    decreases v, 1, 0, 0
  {
    if v.Null? then Broken(!c.g[id].nullable, id, "nullable", Null)
    else if id in c.empty then {}
    else if !SetOperationsOk(c, rank, id, v) then CombinatorViolations(c, rank, id, v)
    else ShapeViolations(c, rank, id, v)
  }
}
