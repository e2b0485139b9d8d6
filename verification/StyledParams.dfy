/**
 Decoding of styled parameters: path parameters in the styles simple, label and matrix, and lists in the
 query (sections 3.2.2, 3.2.5, 3.2.7 and 3.2.8 of RFC 6570).
 */
module StyledParams {
  import opened Options
  import opened Schemas
  import opened Splitting

  datatype Failure =
    | UnsupportedStyle
    | MissingPrefix(prefix: string)
    | NotPairs(src: string)
    | NotA(typ: string, raw: string)
    | AtItem(i: nat, cause: Failure)
    | AtProperty(name: string, cause: Failure)
    | Panicked

  datatype Outcome<+T> = Ok(value: T) | Err(failure: Failure)

  /** strconv.ParseFloat and strconv.ParseBool. */
  datatype Parsers = Parsers(float: string -> Option<real>, boolean: string -> Option<bool>)

  datatype SerializationMethod = SerializationMethod(style: string, explode: bool)

  /** A nil schema or one of no primitive type makes the code panic, but only if there is something to parse. */
  function ParsePrimitive(p: Parsers, raw: string, typ: Option<string>): Outcome<Json> {
    if raw == "" then Ok(Null)
    else if typ.None? then Err(Panicked)
    else if typ.value == "integer" || typ.value == "number" then
      if p.float(raw).None? then Err(NotA(typ.value, raw)) else Ok(Num(p.float(raw).value))
    else if typ.value == "boolean" then
      if p.boolean(raw).None? then Err(NotA(typ.value, raw)) else Ok(Bool(p.boolean(raw).value))
    else if typ.value == "string" then Ok(Str(raw))
    else Err(Panicked)
  }

  /** What each type reads: nothing is null, an integer is any number, and only primitive types are parsed. */
  lemma PrimitiveIff(p: Parsers, raw: string, typ: Option<string>, v: Json)
    ensures ParsePrimitive(p, raw, typ) == Ok(v) <==>
              || (raw == "" && v == Null)
              || (raw != "" && typ == Some("string") && v == Str(raw))
              || (raw != "" && typ == Some("boolean") && v.Bool? && p.boolean(raw) == Some(v.b))
              || (raw != "" && typ in {Some("number"), Some("integer")} && v.Num? && p.float(raw) == Some(v.n))
  {
    if typ.Some? {
      DifferentTypes(typ.value);
    }
  }

  lemma PrimitiveFails(p: Parsers, raw: string, typ: Option<string>)
    ensures ParsePrimitive(p, raw, typ) == Err(Panicked) <==>
              raw != "" && typ !in {Some("string"), Some("boolean"), Some("number"), Some("integer")}
    ensures forall t :: ParsePrimitive(p, raw, typ) == Err(NotA(t, raw)) <==>
              && raw != "" && typ == Some(t)
              && ((t == "boolean" && p.boolean(raw).None?) || (t in {"number", "integer"} && p.float(raw).None?))
  {
    if typ.Some? {
      DifferentTypes(typ.value);
    }
  }

  lemma DifferentTypes(t: string)
    ensures t == "string" ==> t[0] == 's'
    ensures t == "boolean" ==> t[0] == 'b'
    ensures t == "number" ==> t[0] == 'n'
    ensures t == "integer" ==> t[0] == 'i'
  {}

  /** A parse error is wrapped with where it happened; a panic passes through. */
  function Wrapped(f: Failure, outer: Failure): Failure {
    if f.Panicked? then f else outer
  }

  /** What a list of pieces means: every piece parsed, or the failure of the first that does not parse. */
  ghost predicate Means(p: Parsers, raw: seq<string>, typ: Option<string>, out: Outcome<seq<Json>>) {
    match out
    case Ok(vs) =>
      |vs| == |raw| && forall i | 0 <= i < |raw| :: ParsePrimitive(p, raw[i], typ) == Ok(vs[i])
    case Err(f) =>
      exists i :: 0 <= i < |raw| && FirstFailure(p, raw, typ, i, f)
  }

  ghost predicate FirstFailure(p: Parsers, raw: seq<string>, typ: Option<string>, i: nat, f: Failure)
    requires i < |raw|
  {
    && (forall j | 0 <= j < i :: ParsePrimitive(p, raw[j], typ).Ok?)
    && var cause := ParsePrimitive(p, raw[i], typ);
       cause.Err? && f == Wrapped(cause.failure, AtItem(i, cause.failure))
  }

  /** The failure of a list is the index of the first item that does not parse, with its cause; a panic is a panic. */
  lemma FailureNamesItem(p: Parsers, raw: seq<string>, typ: Option<string>, i: nat, cause: Failure)
    requires i < |raw| && ParsePrimitive(p, raw[i], typ) == Err(cause)
    requires forall j | 0 <= j < i :: ParsePrimitive(p, raw[j], typ).Ok?
    ensures Means(p, raw, typ, Err(if cause == Panicked then Panicked else AtItem(i, cause)))
  {
    assert FirstFailure(p, raw, typ, i, Wrapped(cause, AtItem(i, cause)));
  }

  lemma MeansOne(p: Parsers, raw: seq<string>, typ: Option<string>, a: Outcome<seq<Json>>, b: Outcome<seq<Json>>)
    requires Means(p, raw, typ, a) && Means(p, raw, typ, b)
    ensures a == b
  {
    if a.Ok? && b.Ok? {
      forall i | 0 <= i < |raw|
        ensures a.value[i] == b.value[i]
      {
        assert ParsePrimitive(p, raw[i], typ) == Ok(a.value[i]);
      }
      assert a.value == b.value;
    } else if a.Err? && b.Err? {
      var i :| 0 <= i < |raw| && FirstFailure(p, raw, typ, i, a.failure);
      var j :| 0 <= j < |raw| && FirstFailure(p, raw, typ, j, b.failure);
      assert i == j;
    }
  }

  method ParseArray(p: Parsers, raw: seq<string>, typ: Option<string>) returns (out: Outcome<seq<Json>>)
    ensures Means(p, raw, typ, out)
  {
    var value: seq<Json> := [];
    for i := 0 to |raw|
      invariant |value| == i
      invariant forall j | 0 <= j < i :: ParsePrimitive(p, raw[j], typ) == Ok(value[j])
    {
      var item := ParsePrimitive(p, raw[i], typ);
      if item.Err? {
        out := Err(Wrapped(item.failure, AtItem(i, item.failure)));
        assert FirstFailure(p, raw, typ, i, out.failure);
        return;
      }
      value := value + [item.value];
    }
    out := Ok(value);
  }

  function CutPrefix(raw: string, prefix: string): Outcome<string> {
    if prefix == "" then Ok(raw)
    else if |raw| < |prefix| || raw[..|prefix|] != prefix then Err(MissingPrefix(prefix))
    else Ok(raw[|prefix|..])
  }

  /** The prefix and the delimiter of a list in a path. */
  function ArrayStyle(param: string, sm: SerializationMethod): Option<(string, string)> {
    if sm.style == "simple" then Some(("", ","))
    else if sm.style == "label" then Some((".", if sm.explode then "." else ","))
    else if sm.style == "matrix" then
      Some((";" + param + "=", if sm.explode then ";" + param + "=" else ","))
    else None
  }

  /** A path parameter that is a list; None if the request has no value for it. */
  method DecodePathArray(p: Parsers, pathParams: map<string, string>, param: string, sm: SerializationMethod,
                         items: Option<string>)
    returns (out: Outcome<Option<seq<Json>>>)
    ensures ArrayStyle(param, sm).None? ==> out == Err(UnsupportedStyle)
    ensures ArrayStyle(param, sm).Some? && param !in pathParams ==> out == Ok(None)
    ensures ArrayStyle(param, sm).Some? && param in pathParams ==>
              DecodesPathArray(p, pathParams[param], ArrayStyle(param, sm).value, items, out)
  {
    var style := ArrayStyle(param, sm);
    if style.None? {
      return Err(UnsupportedStyle);
    }
    if param !in pathParams || pathParams[param] == "" {
      return Ok(None);
    }
    var src := CutPrefix(pathParams[param], style.value.0);
    if src.Err? {
      return Err(src.failure);
    }
    var parsed := ParseArray(p, Split(src.value, style.value.1), items);
    out := Present(parsed);
  }

  function Present<T>(o: Outcome<T>): Outcome<Option<T>> {
    match o
    case Ok(v) => Ok(Some(v))
    case Err(f) => Err(f)
  }

  /** The outcome for a text: none if it is empty, otherwise it lacks the prefix or its pieces are parsed. */
  ghost predicate DecodesPathArray(p: Parsers, raw: string, style: (string, string), items: Option<string>,
                                   out: Outcome<Option<seq<Json>>>)
  {
    if raw == "" then out == Ok(None)
    else if !(style.0 <= raw) then out == Err(MissingPrefix(style.0))
    else exists parsed :: Means(p, Split(raw[|style.0|..], style.1), items, parsed) && out == Present(parsed)
  }

  /** A list printed in a style. */
  function PrintArray(xs: seq<string>, style: (string, string)): string {
    style.0 + Join(xs, style.1)
  }

  /** A decoded list of strings that were not empty is the list itself. */
  function Texts(xs: seq<string>): (vs: seq<Json>)
    ensures |vs| == |xs| && forall i | 0 <= i < |xs| :: vs[i] == Str(xs[i])
  {
    if xs == [] then [] else Texts(xs[..|xs| - 1]) + [Str(xs[|xs| - 1])]
  }

  lemma TextsMean(p: Parsers, xs: seq<string>, out: Outcome<seq<Json>>)
    requires "" !in xs && Means(p, xs, Some("string"), out)
    ensures out == Ok(Texts(xs))
  {
    MeansOne(p, xs, Some("string"), out, Ok(Texts(xs)));
  }

  lemma JoinNotEmpty(parts: seq<string>, delim: string)
    requires parts != [] && delim != "" && (parts[0] != "" || |parts| > 1)
    ensures Join(parts, delim) != ""
  {}

  /** Each piece after its own mark. */
  function EachAfter(mark: string, xs: seq<string>): string {
    if xs == [] then "" else mark + xs[0] + EachAfter(mark, xs[1..])
  }

  lemma {:induction false} EachAfterIsJoined(mark: string, xs: seq<string>)
    requires xs != []
    ensures EachAfter(mark, xs) == mark + Join(xs, mark)
  {
    if |xs| == 1 {
      assert EachAfter(mark, xs[1..]) == "";
    } else {
      EachAfterIsJoined(mark, xs[1..]);
    }
  }

  /** How RFC 6570 writes a list in a path: {x}, {x*}, {.x}, {.x*}, {;x} and {;x*}. */
  function WrittenArray(xs: seq<string>, param: string, sm: SerializationMethod): string
    requires sm.style in {"simple", "label", "matrix"}
  {
    if sm.style == "simple" then Join(xs, ",")
    else if sm.style == "label" then
      if sm.explode then EachAfter(".", xs) else "." + Join(xs, ",")
    else
      if sm.explode then EachAfter(";" + param + "=", xs) else ";" + param + "=" + Join(xs, ",")
  }

  /** What stands between two items of a written list. */
  function Between(param: string, sm: SerializationMethod): string {
    if !sm.explode || sm.style == "simple" then "," else if sm.style == "label" then "." else ";" + param + "="
  }

  lemma WrittenIsPrinted(xs: seq<string>, param: string, sm: SerializationMethod)
    requires sm.style in {"simple", "label", "matrix"} && xs != []
    ensures ArrayStyle(param, sm).Some? && ArrayStyle(param, sm).value.1 == Between(param, sm)
    ensures WrittenArray(xs, param, sm) == PrintArray(xs, ArrayStyle(param, sm).value)
  {
    EachAfterIsJoined(Between(param, sm), xs);
  }

  /**
   A list of strings comes back from the text that writes it in any of the path styles exactly when none of its
   items is empty and it is clean for what stands between them.
   */
  lemma PathArrayRoundTrip(p: Parsers, xs: seq<string>, param: string, sm: SerializationMethod,
                           out: Outcome<Option<seq<Json>>>)
    requires sm.style in {"simple", "label", "matrix"} && xs != []
    requires ArrayStyle(param, sm).Some? ==>
               DecodesPathArray(p, WrittenArray(xs, param, sm), ArrayStyle(param, sm).value, Some("string"), out)
    ensures ArrayStyle(param, sm).Some? && (xs != [""] ==> WrittenArray(xs, param, sm) != "")
    ensures out == Ok(Some(Texts(xs))) <==> "" !in xs && Clean(xs, Between(param, sm))
  {
    hide Split, Join, Clean, Index, Means, Texts, WrittenArray, ArrayStyle, Between;
    WrittenIsPrinted(xs, param, sm);
    DelimiterNotEmpty(param, sm);
    var (prefix, delim) := ArrayStyle(param, sm).value;
    if xs != [""] {
      JoinNotEmpty(xs, delim);
    }
    var raw := prefix + Join(xs, delim);
    if raw != "" {
      assert raw[|prefix|..] == Join(xs, delim);
      var pieces := Split(raw[|prefix|..], delim);
      var parsed :| Means(p, pieces, Some("string"), parsed) && out == Present(parsed);
      SplitUndoesJoinIffClean(xs, delim);
      TextsComeBack(p, pieces, xs, parsed);
    }
  }

  /** What is parsed are the texts exactly if the pieces are, and none is empty. */
  lemma TextsComeBack(p: Parsers, pieces: seq<string>, xs: seq<string>, parsed: Outcome<seq<Json>>)
    requires Means(p, pieces, Some("string"), parsed)
    ensures parsed == Ok(Texts(xs)) <==> "" !in xs && pieces == xs
  {
    hide Means, Texts;
    if "" !in xs && pieces == xs {
      TextsMean(p, xs, parsed);
    }
    if parsed == Ok(Texts(xs)) {
      SameTexts(p, pieces, xs);
    }
  }

  lemma DelimiterNotEmpty(param: string, sm: SerializationMethod)
    ensures Between(param, sm) != ""
  {}

  /** Pieces that are parsed to strings are those strings, and not empty. */
  lemma SameTexts(p: Parsers, pieces: seq<string>, xs: seq<string>)
    requires Means(p, pieces, Some("string"), Ok(Texts(xs)))
    ensures pieces == xs && "" !in xs
  {
    forall i | 0 <= i < |xs|
      ensures pieces[i] == xs[i] != ""
    {
      assert ParsePrimitive(p, pieces[i], Some("string")) == Ok(Texts(xs)[i]);
    }
  }

  /** The prefix and the delimiters of an object in a path. */
  datatype ObjectStyle = ObjectStyle(prefix: string, props: string, value: string)

  function ObjectStyleOf(param: string, sm: SerializationMethod): Option<ObjectStyle> {
    if sm.style == "simple" then Some(ObjectStyle("", ",", if sm.explode then "=" else ","))
    else if sm.style == "label" then
      Some(if sm.explode then ObjectStyle(".", ".", "=") else ObjectStyle(".", ",", ","))
    else if sm.style == "matrix" then
      Some(if sm.explode then ObjectStyle(";", ";", "=") else ObjectStyle(";" + param + "=", ",", ","))
    else None
  }

  type Pairs = seq<(string, string)>

  /** The map that a list of pairs leaves when they are stored one after another. */
  function Stored(kvs: Pairs): map<string, string> {
    if kvs == [] then map[] else Stored(kvs[..|kvs| - 1])[kvs[|kvs| - 1].0 := kvs[|kvs| - 1].1]
  }

  /** The pairs a text spells in a style, if it does spell pairs. */
  function PairsOf(src: string, propDelim: string, valueDelim: string): Option<Pairs> {
    var parts := Split(src, propDelim);
    if propDelim == valueDelim then
      if |parts| % 2 != 0 then None else Some(TwoByTwo(parts))
    else
      EachInTwo(parts, valueDelim)
  }

  function TwoByTwo(parts: seq<string>): (kvs: Pairs)
    requires |parts| % 2 == 0
    ensures |kvs| == |parts| / 2
    ensures forall i | 0 <= i < |kvs| :: kvs[i] == (parts[2 * i], parts[2 * i + 1])
  {
    if parts == [] then [] else TwoByTwo(parts[..|parts| - 2]) + [(parts[|parts| - 2], parts[|parts| - 1])]
  }

  /** A name and its value, if the value delimiter occurs exactly once. */
  function NameAndValue(part: string, valueDelim: string): Option<(string, string)> {
    var prop := Split(part, valueDelim);
    if |prop| != 2 then None else Some((prop[0], prop[1]))
  }

  function EachInTwo(parts: seq<string>, valueDelim: string): (kvs: Option<Pairs>)
    ensures kvs.Some? <==> forall i | 0 <= i < |parts| :: NameAndValue(parts[i], valueDelim).Some?
    ensures kvs.Some? ==> |kvs.value| == |parts|
    ensures kvs.Some? ==> forall i | 0 <= i < |parts| :: NameAndValue(parts[i], valueDelim) == Some(kvs.value[i])
  {
    if parts == [] then Some([])
    else
      var front := EachInTwo(parts[..|parts| - 1], valueDelim);
      var last := NameAndValue(parts[|parts| - 1], valueDelim);
      assert forall i | 0 <= i < |parts| - 1 :: parts[..|parts| - 1][i] == parts[i];
      if front.None? || last.None? then None else Some(front.value + [last.value])
  }

  method PropsFromString(src: string, propDelim: string, valueDelim: string) returns (out: Outcome<map<string, string>>)
    ensures match PairsOf(src, propDelim, valueDelim)
            case None => out == Err(NotPairs(src))
            case Some(kvs) => out == Ok(Stored(kvs))
  {
    hide Split, Join, TwoByTwo;
    var props: map<string, string> := map[];
    var pairs := Split(src, propDelim);
    if propDelim == valueDelim {
      if |pairs| % 2 != 0 {
        return Err(NotPairs(src));
      }
      ghost var kvs := TwoByTwo(pairs);
      for i := 0 to |pairs| / 2
        invariant props == Stored(kvs[..i])
      {
        assert kvs[..i + 1][..i] == kvs[..i];
        props := props[pairs[i * 2] := pairs[i * 2 + 1]];
      }
      assert kvs[..|kvs|] == kvs;
      return Ok(props);
    }
    for i := 0 to |pairs|
      invariant EachInTwo(pairs[..i], valueDelim).Some?
      invariant props == Stored(EachInTwo(pairs[..i], valueDelim).value)
    {
      assert pairs[..i + 1][..i] == pairs[..i];
      var prop := Split(pairs[i], valueDelim);
      if |prop| != 2 {
        return Err(NotPairs(src));
      }
      ghost var before := EachInTwo(pairs[..i], valueDelim).value;
      assert (before + [(prop[0], prop[1])])[..i] == before;
      props := props[prop[0] := prop[1]];
    }
    assert pairs[..|pairs|] == pairs;
    out := Ok(props);
  }

  /** The value of a declared property; one that the text does not name counts as empty. */
  function PropertyOf(p: Parsers, props: map<string, string>, declared: map<string, Option<string>>, k: string)
    : Outcome<Json>
    requires k in declared
  {
    ParsePrimitive(p, if k in props then props[k] else "", declared[k])
  }

  /** So a declared property that is missing is null, whatever its type. */
  lemma MissingIsNull(p: Parsers, props: map<string, string>, declared: map<string, Option<string>>, k: string)
    requires k in declared && k !in props
    ensures PropertyOf(p, props, declared, k) == Ok(Null)
  {}

  /** What the text's properties mean for the declared ones: all parsed, or some failure among them. */
  ghost predicate MeansObject(p: Parsers, props: map<string, string>, declared: map<string, Option<string>>,
                              out: Outcome<map<string, Json>>)
  {
    match out
    case Ok(obj) =>
      obj.Keys == declared.Keys && forall k <- declared :: PropertyOf(p, props, declared, k) == Ok(obj[k])
    case Err(f) =>
      exists k :: k in declared && PropertyFailure(p, props, declared, k, f)
  }

  ghost predicate PropertyFailure(p: Parsers, props: map<string, string>, declared: map<string, Option<string>>,
                                  k: string, f: Failure)
    requires k in declared
  {
    var cause := PropertyOf(p, props, declared, k);
    cause.Err? && f == Wrapped(cause.failure, AtProperty(k, cause.failure))
  }

  /** The declared properties are visited in whatever order the map yields them. */
  method MakeObject(p: Parsers, props: map<string, string>, declared: map<string, Option<string>>)
    returns (out: Outcome<map<string, Json>>)
    ensures MeansObject(p, props, declared, out)
  {
    var obj: map<string, Json> := map[];
    var rest := declared.Keys;
    while rest != {}
      invariant rest <= declared.Keys && obj.Keys == declared.Keys - rest
      invariant forall k <- obj :: PropertyOf(p, props, declared, k) == Ok(obj[k])
      decreases rest
    {
      var k :| k in rest;
      rest := rest - {k};
      var value := PropertyOf(p, props, declared, k);
      if value.Err? {
        out := Err(Wrapped(value.failure, AtProperty(k, value.failure)));
        assert PropertyFailure(p, props, declared, k, out.failure);
        return;
      }
      obj := obj[k := value.value];
    }
    out := Ok(obj);
  }

  /** A path parameter that is an object. */
  method DecodePathObject(p: Parsers, pathParams: map<string, string>, param: string, sm: SerializationMethod,
                          declared: map<string, Option<string>>)
    returns (out: Outcome<Option<map<string, Json>>>)
    ensures ObjectStyleOf(param, sm).None? ==> out == Err(UnsupportedStyle)
    ensures ObjectStyleOf(param, sm).Some? && param !in pathParams ==> out == Ok(None)
    ensures ObjectStyleOf(param, sm).Some? && param in pathParams ==>
              DecodesPathObject(p, pathParams[param], ObjectStyleOf(param, sm).value, declared, out)
  {
    var style := ObjectStyleOf(param, sm);
    if style.None? {
      return Err(UnsupportedStyle);
    }
    if param !in pathParams || pathParams[param] == "" {
      return Ok(None);
    }
    var src := CutPrefix(pathParams[param], style.value.prefix);
    if src.Err? {
      return Err(src.failure);
    }
    var props := PropsFromString(src.value, style.value.props, style.value.value);
    if props.Err? {
      return Err(props.failure);
    }
    var obj := MakeObject(p, props.value, declared);
    out := Present(obj);
  }

  ghost predicate DecodesPathObject(p: Parsers, raw: string, style: ObjectStyle, declared: map<string, Option<string>>,
                                    out: Outcome<Option<map<string, Json>>>)
  {
    if raw == "" then out == Ok(None)
    else if !(style.prefix <= raw) then out == Err(MissingPrefix(style.prefix))
    else
      var src := raw[|style.prefix|..];
      match PairsOf(src, style.props, style.value)
      case None => out == Err(NotPairs(src))
      case Some(kvs) => exists obj :: MeansObject(p, Stored(kvs), declared, obj) && out == Present(obj)
  }

  /** The pieces between which the property delimiter is put. */
  function Pieces(kvs: Pairs, style: ObjectStyle): (parts: seq<string>)
    ensures style.props == style.value ==> |parts| == 2 * |kvs|
    ensures style.props == style.value ==>
              forall i | 0 <= i < |kvs| :: parts[2 * i] == kvs[i].0 && parts[2 * i + 1] == kvs[i].1
    ensures style.props != style.value ==> |parts| == |kvs|
    ensures style.props != style.value ==> forall i | 0 <= i < |kvs| :: parts[i] == kvs[i].0 + style.value + kvs[i].1
  {
    if kvs == [] then []
    else
      var (k, v) := kvs[|kvs| - 1];
      Pieces(kvs[..|kvs| - 1], style) + if style.props == style.value then [k, v] else [k + style.value + v]
  }

  function PrintObject(kvs: Pairs, style: ObjectStyle): string {
    style.prefix + Join(Pieces(kvs, style), style.props)
  }

  /** No name and no value holds the first character of a delimiter. */
  ghost predicate PlainPairs(kvs: Pairs, style: ObjectStyle)
    requires style.props != "" && style.value != ""
  {
    forall i | 0 <= i < |kvs| ::
      && style.props[0] !in kvs[i].0 && style.props[0] !in kvs[i].1
      && style.value[0] !in kvs[i].0 && style.value[0] !in kvs[i].1
  }

  lemma PlainPiecesAreClean(kvs: Pairs, style: ObjectStyle)
    requires kvs != [] && |style.props| == 1 && |style.value| == 1 && PlainPairs(kvs, style)
    ensures Clean(Pieces(kvs, style), style.props)
  {
    hide Clean, Index, Pieces;
    var parts := Pieces(kvs, style);
    forall i | 0 <= i < |parts|
      ensures style.props[0] !in parts[i]
    {
      if style.props == style.value {
        var j := i / 2;
        assert parts[2 * j] == kvs[j].0 && parts[2 * j + 1] == kvs[j].1;
        assert i == 2 * j || i == 2 * j + 1;
      } else {
        assert parts[i] == kvs[i].0 + style.value + kvs[i].1;
        assert style.props == [style.props[0]] && style.value == [style.value[0]];
      }
    }
    PlainPartsAreClean(parts, style.props);
  }

  /** Plain pairs are read back as they were printed. */
  lemma PairsRoundTrip(kvs: Pairs, style: ObjectStyle)
    requires kvs != [] && |style.props| == 1 && |style.value| == 1 && PlainPairs(kvs, style)
    ensures PairsOf(Join(Pieces(kvs, style), style.props), style.props, style.value) == Some(kvs)
  {
    hide Split, Join, Clean, Index, Pieces, TwoByTwo, EachInTwo, PlainPairs, NameAndValue;
    var parts := Pieces(kvs, style);
    PlainPiecesAreClean(kvs, style);
    SplitUndoesJoinIffClean(parts, style.props);
    if style.props == style.value {
      assert TwoByTwo(parts) == kvs;
    } else {
      forall i | 0 <= i < |parts|
        ensures NameAndValue(parts[i], style.value) == Some(kvs[i])
      {
        InTwo(kvs, style, i);
      }
      ReadEach(parts, style.value, kvs);
    }
  }

  lemma ReadEach(parts: seq<string>, valueDelim: string, kvs: Pairs)
    requires |parts| == |kvs| && forall i | 0 <= i < |parts| :: NameAndValue(parts[i], valueDelim) == Some(kvs[i])
    ensures EachInTwo(parts, valueDelim) == Some(kvs)
  {
    hide NameAndValue, EachInTwo;
    var read := EachInTwo(parts, valueDelim);
    assert read.Some?;
    forall i | 0 <= i < |kvs|
      ensures read.value[i] == kvs[i]
    {
      assert NameAndValue(parts[i], valueDelim) == Some(read.value[i]);
    }
    assert read.value == kvs;
  }

  lemma InTwo(kvs: Pairs, style: ObjectStyle, i: nat)
    requires i < |kvs| && |style.props| == 1 && |style.value| == 1 && PlainPairs(kvs, style)
    ensures NameAndValue(kvs[i].0 + style.value + kvs[i].1, style.value) == Some(kvs[i])
  {
    hide Split, Clean, Index;
    var two := [kvs[i].0, kvs[i].1];
    assert two[1..] == [kvs[i].1];
    assert Join(two, style.value) == kvs[i].0 + style.value + kvs[i].1;
    PlainPartsAreClean(two, style.value);
    SplitUndoesJoinIffClean(two, style.value);
  }

  /** The names are distinct: each name is listed once. */
  ghost predicate DistinctNames(kvs: Pairs) {
    forall i, j | 0 <= i < j < |kvs| :: kvs[i].0 != kvs[j].0
  }

  lemma {:induction false} StoredDistinct(kvs: Pairs)
    requires DistinctNames(kvs)
    ensures forall i | 0 <= i < |kvs| :: kvs[i].0 in Stored(kvs) && Stored(kvs)[kvs[i].0] == kvs[i].1
    ensures forall k <- Stored(kvs) :: exists i :: 0 <= i < |kvs| && kvs[i].0 == k
  {
    if kvs != [] {
      var front := kvs[..|kvs| - 1];
      StoredDistinct(front);
      forall i | 0 <= i < |kvs|
        ensures kvs[i].0 in Stored(kvs) && Stored(kvs)[kvs[i].0] == kvs[i].1
      {
        if i < |front| {
          assert kvs[i] == front[i];
        }
      }
      forall k <- Stored(kvs)
        ensures exists i :: 0 <= i < |kvs| && kvs[i].0 == k
      {
        if k != kvs[|kvs| - 1].0 {
          assert k in Stored(front);
          var i :| 0 <= i < |front| && front[i].0 == k;
          assert kvs[i].0 == k;
        }
      }
    }
  }

  /** The object of strings that a list of pairs describes. */
  function TextFields(kvs: Pairs): (m: map<string, Json>) {
    var stored := Stored(kvs);
    map k | k in stored :: Str(stored[k])
  }

  /** A schema that declares the listed names, as strings. */
  function Strings(kvs: Pairs): (declared: map<string, Option<string>>)
    ensures declared.Keys == Stored(kvs).Keys && forall k <- declared :: declared[k] == Some("string")
  {
    map k | k in Stored(kvs) :: Some("string")
  }

  lemma PiecesNotEmpty(kvs: Pairs, style: ObjectStyle)
    requires kvs != [] && style.props != "" && style.value != ""
    ensures Join(Pieces(kvs, style), style.props) != ""
  {
    hide Join, Pieces;
    if style.props != style.value {
      assert Pieces(kvs, style)[0] == kvs[0].0 + style.value + kvs[0].1;
    }
    JoinNotEmpty(Pieces(kvs, style), style.props);
  }

  /** The pairs read from any text hold no delimiter. */
  lemma PairsReadArePlain(src: string, style: ObjectStyle)
    requires |style.props| == 1 && |style.value| == 1 && PairsOf(src, style.props, style.value).Some?
    ensures PlainPairs(PairsOf(src, style.props, style.value).value, style)
  {
    hide Split, Clean, Index, TwoByTwo, EachInTwo, NameAndValue;
    var parts := Split(src, style.props);
    var kvs := PairsOf(src, style.props, style.value).value;
    SplitIsClean(src, style.props);
    CleanForOneCharacter(parts, style.props[0]);
    assert style.props == [style.props[0]] && style.value == [style.value[0]];
    if style.props != style.value {
      forall i | 0 <= i < |kvs|
        ensures style.props[0] !in kvs[i].0 && style.props[0] !in kvs[i].1
        ensures style.value[0] !in kvs[i].0 && style.value[0] !in kvs[i].1
      {
        assert NameAndValue(parts[i], style.value) == Some(kvs[i]);
        HalvesArePlain(parts[i], style.value, kvs[i]);
        assert forall c :: c in kvs[i].0 || c in kvs[i].1 ==> c in parts[i];
      }
    }
  }

  lemma HalvesArePlain(part: string, delim: string, kv: (string, string))
    requires |delim| == 1 && NameAndValue(part, delim) == Some(kv)
    ensures delim[0] !in kv.0 && delim[0] !in kv.1 && part == kv.0 + delim + kv.1
  {
    hide Split, Clean, Index;
    SplitIsClean(part, delim);
    var two := Split(part, delim);
    assert delim == [delim[0]] && two == [kv.0, kv.1] && two[1..] == [kv.1];
    CleanForOneCharacter(two, delim[0]);
    assert two[0] == kv.0 && two[1] == kv.1;
    assert Join(two, delim) == kv.0 + delim + Join(two[1..], delim) && Join([kv.1], delim) == kv.1;
  }

  /** A stored value was listed with its name. */
  lemma {:induction false} StoredIsListed(kvs: Pairs, k: string)
    requires k in Stored(kvs)
    ensures exists i :: 0 <= i < |kvs| && kvs[i] == (k, Stored(kvs)[k])
  {
    var n := |kvs| - 1;
    if k == kvs[n].0 {
      assert kvs[n] == (k, Stored(kvs)[k]);
    } else {
      StoredIsListed(kvs[..n], k);
      var i :| 0 <= i < n && kvs[..n][i] == (k, Stored(kvs[..n])[k]);
      assert kvs[i] == kvs[..n][i];
    }
  }

  /** A pair that comes back from what was read was read, so it is plain. */
  lemma ComesBackPlain(p: Parsers, kvs: Pairs, read: Pairs, style: ObjectStyle, i: nat)
    requires |style.props| == 1 && |style.value| == 1 && i < |kvs| && DistinctNames(kvs)
    requires PlainPairs(read, style) && MeansObject(p, Stored(read), Strings(kvs), Ok(TextFields(kvs)))
    ensures style.props[0] !in kvs[i].0 && style.props[0] !in kvs[i].1
    ensures style.value[0] !in kvs[i].0 && style.value[0] !in kvs[i].1 && kvs[i].1 != ""
  {
    hide Stored;
    StoredDistinct(kvs);
    var k := kvs[i].0;
    assert k in Strings(kvs) && PropertyOf(p, Stored(read), Strings(kvs), k) == Ok(Str(kvs[i].1));
    assert k in Stored(read) && Stored(read)[k] == kvs[i].1;
    StoredIsListed(read, k);
    var j :| 0 <= j < |read| && read[j] == (k, Stored(read)[k]);
    assert read[j] == kvs[i];
  }

  /** Names and values in turn, and names with their values assigned. */
  function InTurn(kvs: Pairs): seq<string> {
    if kvs == [] then [] else InTurn(kvs[..|kvs| - 1]) + [kvs[|kvs| - 1].0, kvs[|kvs| - 1].1]
  }

  function Assigned(kvs: Pairs): seq<string> {
    if kvs == [] then [] else Assigned(kvs[..|kvs| - 1]) + [kvs[|kvs| - 1].0 + "=" + kvs[|kvs| - 1].1]
  }

  /** How RFC 6570 writes an object in a path. */
  function WrittenObject(kvs: Pairs, param: string, sm: SerializationMethod): string
    requires sm.style in {"simple", "label", "matrix"}
  {
    if sm.style == "simple" then Join(if sm.explode then Assigned(kvs) else InTurn(kvs), ",")
    else if sm.style == "label" then
      if sm.explode then EachAfter(".", Assigned(kvs)) else "." + Join(InTurn(kvs), ",")
    else
      if sm.explode then EachAfter(";", Assigned(kvs)) else ";" + param + "=" + Join(InTurn(kvs), ",")
  }

  lemma {:induction false} PiecesAre(kvs: Pairs, style: ObjectStyle)
    ensures style.props == style.value ==> Pieces(kvs, style) == InTurn(kvs)
    ensures style.props != style.value && style.value == "=" ==> Pieces(kvs, style) == Assigned(kvs)
  {
    if kvs != [] {
      PiecesAre(kvs[..|kvs| - 1], style);
    }
  }

  lemma WrittenObjectIsPrinted(kvs: Pairs, param: string, sm: SerializationMethod)
    requires sm.style in {"simple", "label", "matrix"} && kvs != []
    ensures ObjectStyleOf(param, sm).Some?
    ensures WrittenObject(kvs, param, sm) == PrintObject(kvs, ObjectStyleOf(param, sm).value)
  {
    hide Join, Pieces, EachAfter;
    var style := ObjectStyleOf(param, sm).value;
    PiecesAre(kvs, style);
    if Assigned(kvs) != [] {
      EachAfterIsJoined(style.props, Assigned(kvs));
    }
  }

  /** No name and no value holds a character that delimits names and values in the style. */
  ghost predicate WithoutDelimiters(kvs: Pairs, sm: SerializationMethod) {
    forall i | 0 <= i < |kvs| ::
      && Delimiter(sm) !in kvs[i].0 && Delimiter(sm) !in kvs[i].1
      && (sm.explode ==> '=' !in kvs[i].0 && '=' !in kvs[i].1)
  }

  function Delimiter(sm: SerializationMethod): char {
    if !sm.explode || sm.style == "simple" then ',' else if sm.style == "label" then '.' else ';'
  }

  lemma PlainIsWithoutDelimiters(kvs: Pairs, param: string, sm: SerializationMethod)
    requires sm.style in {"simple", "label", "matrix"}
    ensures ObjectStyleOf(param, sm).Some?
    ensures PlainPairs(kvs, ObjectStyleOf(param, sm).value) <==> WithoutDelimiters(kvs, sm)
  {
    var style := ObjectStyleOf(param, sm).value;
    assert style.props[0] == Delimiter(sm) && style.value[0] == if sm.explode then '=' else Delimiter(sm);
  }

  /**
   In any of the path styles, an object whose declared properties are all present as strings comes back from the
   text that writes it, in any order of its properties, exactly when no value is empty and no name and no value
   holds a delimiter.
   */
  lemma PathObjectRoundTrip(p: Parsers, kvs: Pairs, param: string, sm: SerializationMethod,
                            out: Outcome<Option<map<string, Json>>>)
    requires sm.style in {"simple", "label", "matrix"} && kvs != [] && DistinctNames(kvs)
    requires ObjectStyleOf(param, sm).Some? ==>
               DecodesPathObject(p, WrittenObject(kvs, param, sm), ObjectStyleOf(param, sm).value, Strings(kvs), out)
    ensures ObjectStyleOf(param, sm).Some? && WrittenObject(kvs, param, sm) != ""
    ensures out == Ok(Some(TextFields(kvs))) <==>
              WithoutDelimiters(kvs, sm) && forall i | 0 <= i < |kvs| :: kvs[i].1 != ""
  {
    hide DecodesPathObject, TextFields, Strings, Stored, PlainPairs, DistinctNames, WithoutDelimiters, WrittenObject;
    WrittenObjectIsPrinted(kvs, param, sm);
    PlainIsWithoutDelimiters(kvs, param, sm);
    var style := ObjectStyleOf(param, sm).value;
    PiecesNotEmpty(kvs, style);
    if PlainPairs(kvs, style) && forall i | 0 <= i < |kvs| :: kvs[i].1 != "" {
      ObjectComesBack(p, kvs, style, out);
    }
    if out == Ok(Some(TextFields(kvs))) {
      OnlyPlainComesBack(p, kvs, style);
    }
  }

  lemma ObjectComesBack(p: Parsers, kvs: Pairs, style: ObjectStyle, out: Outcome<Option<map<string, Json>>>)
    requires |style.props| == 1 && |style.value| == 1 && kvs != [] && DistinctNames(kvs) && PlainPairs(kvs, style)
    requires forall i | 0 <= i < |kvs| :: kvs[i].1 != ""
    requires DecodesPathObject(p, PrintObject(kvs, style), style, Strings(kvs), out)
    ensures out == Ok(Some(TextFields(kvs)))
  {
    hide Split, Join, Stored, MeansObject, TextFields, Strings, PairsOf, PlainPairs, Pieces, DistinctNames;
    PairsRoundTrip(kvs, style);
    PiecesNotEmpty(kvs, style);
    var raw := PrintObject(kvs, style);
    assert raw[|style.prefix|..] == Join(Pieces(kvs, style), style.props);
    var obj :| MeansObject(p, Stored(kvs), Strings(kvs), obj) && out == Present(obj);
    TextFieldsMean(p, kvs, Strings(kvs), obj);
  }

  lemma OnlyPlainComesBack(p: Parsers, kvs: Pairs, style: ObjectStyle)
    requires |style.props| == 1 && |style.value| == 1 && DistinctNames(kvs)
    requires DecodesPathObject(p, PrintObject(kvs, style), style, Strings(kvs), Ok(Some(TextFields(kvs))))
    ensures PlainPairs(kvs, style) && forall i | 0 <= i < |kvs| :: kvs[i].1 != ""
  {
    hide Split, Join, Stored, MeansObject, TextFields, Strings, PairsOf, Pieces, DistinctNames;
    var src := PrintObject(kvs, style)[|style.prefix|..];
    var read := PairsOf(src, style.props, style.value).value;
    PairsReadArePlain(src, style);
    assert MeansObject(p, Stored(read), Strings(kvs), Ok(TextFields(kvs)));
    forall i | 0 <= i < |kvs|
      ensures style.props[0] !in kvs[i].0 && style.props[0] !in kvs[i].1
      ensures style.value[0] !in kvs[i].0 && style.value[0] !in kvs[i].1 && kvs[i].1 != ""
    {
      ComesBackPlain(p, kvs, read, style, i);
    }
  }

  lemma TextFieldsMean(p: Parsers, kvs: Pairs, declared: map<string, Option<string>>, obj: Outcome<map<string, Json>>)
    requires DistinctNames(kvs) && forall i | 0 <= i < |kvs| :: kvs[i].1 != ""
    requires declared == Strings(kvs)
    requires MeansObject(p, Stored(kvs), declared, obj)
    ensures obj == Ok(TextFields(kvs))
  {
    hide Stored, PropertyOf, MeansObject;
    var stored := Stored(kvs);
    forall k <- declared
      ensures PropertyOf(p, stored, declared, k) == Ok(TextFields(kvs)[k])
    {
      TextProperty(p, kvs, declared, k);
    }
    AllParse(p, stored, declared, TextFields(kvs), obj);
  }

  lemma AllParse(p: Parsers, props: map<string, string>, declared: map<string, Option<string>>,
                 fields: map<string, Json>, obj: Outcome<map<string, Json>>)
    requires fields.Keys == declared.Keys && MeansObject(p, props, declared, obj)
    requires forall k <- declared :: PropertyOf(p, props, declared, k) == Ok(fields[k])
    ensures obj == Ok(fields)
  {
    hide PropertyOf;
    match obj
    case Ok(o) =>
      forall k <- declared
        ensures o[k] == fields[k]
      {
        assert PropertyOf(p, props, declared, k) == Ok(o[k]);
      }
      assert o == fields;
    case Err(_) =>
  }

  lemma TextProperty(p: Parsers, kvs: Pairs, declared: map<string, Option<string>>, k: string)
    requires DistinctNames(kvs) && forall i | 0 <= i < |kvs| :: kvs[i].1 != ""
    requires k in Stored(kvs) && k in declared && declared[k] == Some("string")
    ensures PropertyOf(p, Stored(kvs), declared, k) == Ok(Str(Stored(kvs)[k]))
  {
    hide Stored;
    StoredDistinct(kvs);
    var i :| 0 <= i < |kvs| && kvs[i].0 == k;
  }

  /** The delimiter of a list in the query that is not exploded; any other style leaves it empty. */
  function QueryDelimiter(style: string): string {
    if style == "form" then ","
    else if style == "spaceDelimited" then " "
    else if style == "pipeDelimited" then "|"
    else ""
  }

  /** A query parameter that is a list, given the values that the query has for it, in their order. */
  method DecodeQueryArray(p: Parsers, values: seq<string>, sm: SerializationMethod, items: Option<string>)
    returns (out: Outcome<Option<seq<Json>>>)
    ensures sm.style == "deepObject" ==> out == Err(UnsupportedStyle)
    ensures sm.style != "deepObject" && values == [] ==> out == Ok(None)
    ensures sm.style != "deepObject" && values != [] ==> DecodesQueryArray(p, values, sm, items, out)
  {
    if sm.style == "deepObject" {
      return Err(UnsupportedStyle);
    }
    if |values| == 0 {
      return Ok(None);
    }
    var parsed;
    if !sm.explode {
      parsed := ParseArray(p, Split(values[0], QueryDelimiter(sm.style)), items);
    } else {
      parsed := ParseArray(p, values, items);
    }
    out := Present(parsed);
  }

  ghost predicate DecodesQueryArray(p: Parsers, values: seq<string>, sm: SerializationMethod, items: Option<string>,
                                    out: Outcome<Option<seq<Json>>>)
    requires values != []
  {
    exists parsed ::
      && Means(p, if sm.explode then values else Split(values[0], QueryDelimiter(sm.style)), items, parsed)
      && out == Present(parsed)
  }

  /** What a list looks like in the query: one value, or one for each item. */
  function WrittenQuery(xs: seq<string>, sm: SerializationMethod): seq<string> {
    if sm.explode then xs
    else if sm.style == "form" then [Join(xs, ",")]
    else if sm.style == "spaceDelimited" then [Join(xs, " ")]
    else [Join(xs, "|")]
  }

  /** The pieces that a written list is cut into. */
  function QueryPieces(xs: seq<string>, sm: SerializationMethod): seq<string>
    requires xs != []
  {
    if sm.explode then WrittenQuery(xs, sm) else Split(WrittenQuery(xs, sm)[0], QueryDelimiter(sm.style))
  }

  /** The list is exploded, or none of its items holds the delimiter of the style. */
  ghost predicate QueryClean(xs: seq<string>, sm: SerializationMethod) {
    var c := if sm.style == "form" then ',' else if sm.style == "spaceDelimited" then ' ' else '|';
    sm.explode || forall i | 0 <= i < |xs| :: c !in xs[i]
  }

  lemma QueryPiecesComeBack(xs: seq<string>, sm: SerializationMethod)
    requires sm.style in {"form", "spaceDelimited", "pipeDelimited"} && xs != []
    ensures QueryPieces(xs, sm) == xs <==> QueryClean(xs, sm)
  {
    hide Split, Join, Clean, Index;
    var delim := QueryDelimiter(sm.style);
    SplitUndoesJoinIffClean(xs, delim);
    CleanForOneCharacter(xs, delim[0]);
    assert delim == [delim[0]];
  }

  /** A list in the query comes back exactly when no item is empty and, unless exploded, none holds the delimiter. */
  lemma QueryArrayRoundTrip(p: Parsers, xs: seq<string>, sm: SerializationMethod, out: Outcome<Option<seq<Json>>>)
    requires sm.style in {"form", "spaceDelimited", "pipeDelimited"} && xs != []
    requires DecodesQueryArray(p, WrittenQuery(xs, sm), sm, Some("string"), out)
    ensures out == Ok(Some(Texts(xs))) <==> "" !in xs && QueryClean(xs, sm)
  {
    hide Split, Join, Means, Texts, QueryClean, QueryDelimiter;
    QueryPiecesComeBack(xs, sm);
    var parsed :| Means(p, QueryPieces(xs, sm), Some("string"), parsed) && out == Present(parsed);
    TextsComeBack(p, QueryPieces(xs, sm), xs, parsed);
  }
}
