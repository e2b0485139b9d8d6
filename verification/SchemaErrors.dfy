/** Errors of a visit, and the path from the visited value to the place an error speaks of. */
module SchemaErrors {
  import opened Options
  import opened Schemas
  import opened SchemaVerdict

  /** The path grows at its end while the visit unwinds, so it is kept in reverse. */
  class SchemaError {
    var reversePath: seq<string>
    const schema: Id
    const field: string
    const value: Json
    const origin: Error

    constructor (schema: Id, field: string, value: Json, origin: Error)
      ensures reversePath == [] && this.schema == schema && this.field == field
      ensures this.value == value && this.origin == origin
    {
      reversePath := [];
      this.schema, this.field, this.value, this.origin := schema, field, value, origin;
    }

    /** Copies the reverse path and turns the copy round in place. */
    method JSONPointer() returns (path: array<string>)
      ensures fresh(path) && path[..] == Reversed(reversePath)
    {
      ghost var n := |reversePath|;
      path := new string[|reversePath|];
      for i := 0 to |reversePath|
        invariant forall j | 0 <= j < i :: path[j] == reversePath[j]
      {
        path[i] := reversePath[i];
      }
      var left, right := 0, path.Length - 1;
      while left < right
        invariant 0 <= left <= n && right == n - 1 - left
        invariant forall j | 0 <= j < left :: path[j] == reversePath[n - 1 - j] && path[n - 1 - j] == reversePath[j]
        invariant forall j | left <= j < n - left :: path[j] == reversePath[j]
      {
        path[left], path[right] := path[right], path[left];
        left, right := left + 1, right - 1;
      }
      ReversedAt(reversePath);
    }
  }

  datatype Error =
    | NoError
    | ErrSchema
    | OneOfConflict
    | Ptr(e: SchemaError)
    | Multi(errs: seq<Error>)

  function Reversed(s: seq<string>): (r: seq<string>)
    ensures |r| == |s|
  {
    if s == [] then [] else Reversed(s[1..]) + [s[0]]
  }

  lemma {:induction false} ReversedAt(s: seq<string>)
    ensures forall i | 0 <= i < |s| :: Reversed(s)[i] == s[|s| - 1 - i]
  {
    if s != [] {
      ReversedAt(s[1..]);
      assert Reversed(s) == Reversed(s[1..]) + [s[0]];
      forall i | 0 <= i < |s| ensures Reversed(s)[i] == s[|s| - 1 - i] {
        if i < |s| - 1 {
          assert Reversed(s)[i] == Reversed(s[1..])[i];
        }
      }
    }
  }

  lemma {:induction false} ReversedSnoc(s: seq<string>, k: string)
    ensures Reversed(s + [k]) == [k] + Reversed(s)
  {
    if s == [] {
      assert [] + [k] == [k];
    } else {
      assert (s + [k])[1..] == s[1..] + [k];
      ReversedSnoc(s[1..], k);
    }
  }

  // Array indices as path elements

  function Digit(d: nat): char
    requires d < 10
  {
    "0123456789"[d]
  }

  /** strconv.FormatInt(n, 10) */
  function Decimal(n: nat): (s: string)
    ensures s != ""
  {
    if n < 10 then [Digit(n)] else Decimal(n / 10) + [Digit(n % 10)]
  }

  lemma {:induction false} DecimalIsInjective(m: nat, n: nat)
    requires Decimal(m) == Decimal(n)
    ensures m == n
  {
    var s, t := Decimal(m), Decimal(n);
    assert s[|s| - 1] == Digit(m % 10) && t[|t| - 1] == Digit(n % 10);
    if m >= 10 && n >= 10 {
      assert s[..|s| - 1] == Decimal(m / 10) && t[..|t| - 1] == Decimal(n / 10);
      DecimalIsInjective(m / 10, n / 10);
    }
  }

  /** The number that a string of digits spells. */
  function ValueOf(s: string): int {
    if s == "" then 0 else 10 * ValueOf(s[..|s| - 1]) + (s[|s| - 1] as int - '0' as int)
  }

  /** An index is spelled in decimal digits, without leading zeros. */
  lemma {:induction false} DecimalSpells(n: nat)
    ensures ValueOf(Decimal(n)) == n
    ensures forall c <- Decimal(n) :: '0' <= c <= '9'
    ensures Decimal(n)[0] == '0' ==> n == 0
  {
    var s := Decimal(n);
    DigitIs(n % 10);
    if n < 10 {
      assert s[..0] == "";
    } else {
      DecimalSpells(n / 10);
      assert s[..|s| - 1] == Decimal(n / 10);
    }
  }

  lemma DigitIs(d: nat)
    requires d < 10
    ensures Digit(d) as int == '0' as int + d
  {}

  // Truthful locations

  /** Following the path from `v` leads to `u`. */
  ghost predicate Leads(v: Json, path: seq<string>, u: Json)
    decreases |path|
  {
    if path == [] then u == v
    else
      match v
      case Arr(xs) => exists i :: 0 <= i < |xs| && path[0] == Decimal(i) && Leads(xs[i], path[1..], u)
      case Obj(f) => path[0] in f && Leads(f[path[0]], path[1..], u)
      case _ => false
  }

  /** A path leads to at most one place. */
  lemma {:induction false} LeadsToOnePlace(v: Json, path: seq<string>, u: Json, w: Json)
    requires Leads(v, path, u) && Leads(v, path, w)
    ensures u == w
    decreases |path|
  {
    if path != [] {
      match v
      case Arr(xs) =>
        var i :| 0 <= i < |xs| && path[0] == Decimal(i) && Leads(xs[i], path[1..], u);
        var j :| 0 <= j < |xs| && path[0] == Decimal(j) && Leads(xs[j], path[1..], w);
        DecimalIsInjective(i, j);
        LeadsToOnePlace(xs[i], path[1..], u, w);
      case Obj(f) =>
        LeadsToOnePlace(f[path[0]], path[1..], u, w);
    }
  }

  ghost predicate Rejects(c: Context, rank: Rank, schema: Id, u: Json)
    requires WellFounded(c.g, rank)
  {
    schema in c.g && !Valid(c, rank, schema, u)
  }

  /**
   The path leads to a value that the schema rejects. For a missing property the path goes on to the
   property's name, which the schema requires and the value does not have.
   */
  ghost predicate Truthful(c: Context, rank: Rank, schema: Id, field: string, reversePath: seq<string>, v: Json)
    requires WellFounded(c.g, rank)
  {
    if field == "required" then
      reversePath != [] &&
      exists u :: Leads(v, Reversed(reversePath[1..]), u) && Rejects(c, rank, schema, u)
               && u.Obj? && reversePath[0] !in u.fields && reversePath[0] in c.g[schema].required
    else
      exists u :: Leads(v, Reversed(reversePath), u) && Rejects(c, rank, schema, u)
  }

  lemma TruthfulHere(c: Context, rank: Rank, schema: Id, field: string, v: Json)
    requires WellFounded(c.g, rank) && field != "required" && Rejects(c, rank, schema, v)
    ensures Truthful(c, rank, schema, field, [], v)
  {
    assert Leads(v, Reversed([]), v);
  }

  lemma TruthfulMissing(c: Context, rank: Rank, schema: Id, k: string, v: Json)
    requires WellFounded(c.g, rank) && Rejects(c, rank, schema, v)
    requires v.Obj? && k !in v.fields && k in c.g[schema].required
    ensures Truthful(c, rank, schema, "required", [k], v)
  {
    assert Leads(v, Reversed([k][1..]), v);
  }

  /** One step out of the value: an element's index, or a field's name, is put in front of the path. */
  ghost predicate StepOut(child: Json, step: string, parent: Json) {
    || (parent.Arr? && exists i :: 0 <= i < |parent.items| && step == Decimal(i) && parent.items[i] == child)
    || (parent.Obj? && step in parent.fields && parent.fields[step] == child)
  }

  lemma TruthfulOutside(c: Context, rank: Rank, schema: Id, field: string, reversePath: seq<string>,
                        child: Json, step: string, parent: Json)
    requires WellFounded(c.g, rank) && Truthful(c, rank, schema, field, reversePath, child)
    requires StepOut(child, step, parent)
    ensures Truthful(c, rank, schema, field, reversePath + [step], parent)
  {
    var from := if field == "required" then 1 else 0;
    var path := Reversed(reversePath[from..]);
    assert (reversePath + [step])[from..] == reversePath[from..] + [step];
    assert reversePath[0..] == reversePath && (reversePath + [step])[0..] == reversePath + [step];
    ReversedSnoc(reversePath[from..], step);
    forall u | Leads(child, path, u) ensures Leads(parent, [step] + path, u) {
      assert ([step] + path)[1..] == path;
    }
  }
}
