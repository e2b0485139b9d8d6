/**
 Resolution of schema references: a depth-first walk over cells, filling in the `Value` of those that hold a
 reference. The graph of schemas may be cyclic, and a cell may be visited again while it is being filled.
 */
module RefResolver {
  import opened Options
  import RefWalk

  /** A place that holds a schema inline or a reference to one. */
  class SchemaRef {
    var Ref: string
    var Value: Schema?

    constructor (ref: string, value: Schema?)
      ensures Ref == ref && Value == value
    {
      Ref, Value := ref, value;
    }
  }

  /** The parts of a schema that hold other schemas. */
  class Schema {
    const Items: SchemaRef?
    const Properties: map<string, SchemaRef?>
    const AdditionalProperties: SchemaRef?
    const Not: SchemaRef?
    const AllOf: seq<SchemaRef?>
    const AnyOf: seq<SchemaRef?>
    const OneOf: seq<SchemaRef?>

    constructor (items: SchemaRef?, properties: map<string, SchemaRef?>, additionalProperties: SchemaRef?,
                 negated: SchemaRef?, allOf: seq<SchemaRef?>, anyOf: seq<SchemaRef?>, oneOf: seq<SchemaRef?>)
    {
      Items, Properties, AdditionalProperties, Not := items, properties, additionalProperties, negated;
      AllOf, AnyOf, OneOf := allOf, anyOf, oneOf;
    }
  }

  /** The cells a schema holds: an unset field is not a cell, a nil entry of a list or map is a nil cell. */
  function Cells(s: Schema): set<SchemaRef?> {
    Members(Listed(s.Items)) + s.Properties.Values + Members(Listed(s.AdditionalProperties)) + Members(Listed(s.Not))
    + Members(s.AllOf) + Members(s.AnyOf) + Members(s.OneOf)
  }

  function Listed(c: SchemaRef?): seq<SchemaRef?> {
    if c == null then [] else [c]
  }

  function Members(cells: seq<SchemaRef?>): set<SchemaRef?> {
    set c | c in cells
  }

  /**
   A document: its cells and schemas, and the cell each local reference points to. The last two show that walks
   end: the schema that the chain of references from a cell ends in, and a rank for cells that are pointed to.
   */
  datatype Document = Document(cells: set<SchemaRef>, schemas: set<Schema>, lookup: map<string, SchemaRef>,
                               ends: map<SchemaRef, Schema>, rank: map<SchemaRef, nat>)

  datatype Error = NilCell | Unresolvable(ref: string)

  /** A cell is inline or has a reference; its chain of references ends where that of the next cell does. */
  ghost predicate ChainOk(doc: Document, c: SchemaRef)
    reads c`Ref
  {
    && (c in doc.ends ==> doc.ends[c] in doc.schemas)
    && (if c.Ref == "" then c in doc.ends
        else if c.Ref in doc.lookup then
          var t := doc.lookup[c.Ref];
          (c in doc.ends <==> t in doc.ends) && (c in doc.ends ==> doc.ends[c] == doc.ends[t])
        else c !in doc.ends)
  }

  /** An inline cell holds its own schema; one that is filled in holds the schema its chain ends in. */
  ghost predicate CellOk(doc: Document, c: SchemaRef)
    reads c
  {
    && ChainOk(doc, c)
    && (c.Ref == "" ==> c.Value != null)
    && (c.Value != null ==> c in doc.ends && c.Value == doc.ends[c])
  }

  /** The cell refers to this one. */
  ghost predicate RefersTo(doc: Document, c: SchemaRef, t: SchemaRef)
    reads c`Ref
  {
    c.Ref != "" && c.Ref in doc.lookup && doc.lookup[c.Ref] == t
  }

  /** How much a cell has to wait for: nothing, or the alias that it refers to. */
  ghost function Level(doc: Document, c: SchemaRef): nat
    requires doc.lookup.Values <= doc.rank.Keys
    reads c`Ref, doc.lookup.Values`Ref
  {
    if c.Ref != "" && c.Ref in doc.lookup && doc.lookup[c.Ref].Ref != "" then doc.rank[doc.lookup[c.Ref]] + 1 else 0
  }

  /** An alias, a cell with a reference that others refer to, is above what its walk waits for. */
  ghost predicate AliasOk(doc: Document, t: SchemaRef)
    requires doc.lookup.Values <= doc.rank.Keys && t in doc.rank
    reads t`Ref, doc.cells`Ref, doc.lookup.Values`Ref
  {
    t.Ref != "" ==>
      && (t.Ref in doc.lookup && doc.lookup[t.Ref].Ref != "" ==> doc.rank[doc.lookup[t.Ref]] < doc.rank[t])
      && (t in doc.ends ==>
            forall d: SchemaRef | d in Cells(doc.ends[t]) && d in doc.cells :: Level(doc, d) <= doc.rank[t])
  }

  /**
   The document is closed, every cell has a reference or a schema, and no alias waits for itself. References may
   point to references, and schemas may be recursive.
   */
  ghost predicate Resolvable(doc: Document)
    reads doc.cells, doc.lookup.Values
  {
    && doc.lookup.Values <= doc.cells && doc.lookup.Values <= doc.rank.Keys
    && (forall c <- doc.cells :: CellOk(doc, c))
    && (forall t <- doc.lookup.Values :: AliasOk(doc, t))
    && (forall s <- doc.schemas, c: SchemaRef? | c in Cells(s) :: c == null || c in doc.cells)
  }

  /** The cells still to be filled in. */
  ghost function Unfilled(doc: Document): set<SchemaRef>
    reads doc.cells
  {
    set c | c in doc.cells && c.Value == null
  }

  lemma UnfilledIs(doc: Document, c: SchemaRef)
    ensures c in Unfilled(doc) <==> c in doc.cells && c.Value == null
  {}

  /** Nothing that was filled in has changed. */
  twostate predicate OnlyFills(doc: Document)
    reads doc.cells
  {
    forall c <- doc.cells :: old(c.Value) != null ==> c.Value == old(c.Value)
  }

  /** What an error says is true of the document. */
  ghost predicate Faulty(doc: Document, e: Error)
    reads doc.cells`Ref
  {
    match e
    case NilCell => exists s :: s in doc.schemas && null in Cells(s)
    case Unresolvable(ref) => ref != "" && ref !in doc.lookup && exists c :: c in doc.cells && c.Ref == ref
  }

  /** The cell holds a schema that has been visited. */
  ghost predicate Done(doc: Document, visited: set<Schema>, c: SchemaRef?)
    reads doc.cells
  {
    c != null && c in doc.cells && c.Value != null && c.Value in visited
  }

  ghost predicate AllDone(doc: Document, visited: set<Schema>, cells: set<SchemaRef?>)
    reads doc.cells
  {
    forall c <- cells :: Done(doc, visited, c)
  }

  ghost predicate Finished(doc: Document, visited: set<Schema>, s: Schema)
    reads doc.cells
  {
    AllDone(doc, visited, Cells(s))
  }

  /** Every visited schema is finished, but for the `grey` ones, which are under way. */
  ghost predicate Sound(doc: Document, visited: set<Schema>, grey: set<Schema>)
    reads doc.cells
  {
    && grey <= visited <= doc.schemas
    && forall s <- visited - grey :: Finished(doc, visited, s)
  }

  /** Whatever a field of the schema holds has been resolved: a visited schema has been filled in. */
  ghost predicate ChildrenResolved(visited: set<Schema>, s: Schema)
    reads s.Items, s.AdditionalProperties, s.Not, s.Properties.Values, s.AllOf, s.AnyOf, s.OneOf
  {
    && (s.Items != null ==> s.Items.Value != null && s.Items.Value in visited)
    && (s.AdditionalProperties != null ==>
          s.AdditionalProperties.Value != null && s.AdditionalProperties.Value in visited)
    && (s.Not != null ==> s.Not.Value != null && s.Not.Value in visited)
    && (forall k <- s.Properties ::
          s.Properties[k] != null && s.Properties[k].Value != null && s.Properties[k].Value in visited)
    && (forall i | 0 <= i < |s.AllOf| ::
          s.AllOf[i] != null && s.AllOf[i].Value != null && s.AllOf[i].Value in visited)
    && (forall i | 0 <= i < |s.AnyOf| ::
          s.AnyOf[i] != null && s.AnyOf[i].Value != null && s.AnyOf[i].Value in visited)
    && (forall i | 0 <= i < |s.OneOf| ::
          s.OneOf[i] != null && s.OneOf[i].Value != null && s.OneOf[i].Value in visited)
  }

  /** A finished schema has all its children resolved, of every kind. */
  lemma FinishedHasChildren(doc: Document, visited: set<Schema>, s: Schema)
    requires Finished(doc, visited, s)
    ensures ChildrenResolved(visited, s)
  {
    forall c <- Cells(s)
      ensures c != null && c.Value != null && c.Value in visited
    {
      assert Done(doc, visited, c);
    }
    assert forall k <- s.Properties :: s.Properties[k] in Cells(s);
    assert forall i | 0 <= i < |s.AllOf| :: s.AllOf[i] in Members(s.AllOf);
    assert forall i | 0 <= i < |s.AnyOf| :: s.AnyOf[i] in Members(s.AnyOf);
    assert forall i | 0 <= i < |s.OneOf| :: s.OneOf[i] in Members(s.OneOf);
    assert s.Items != null ==> s.Items in Members(Listed(s.Items));
    assert s.AdditionalProperties != null ==> s.AdditionalProperties in Members(Listed(s.AdditionalProperties));
    assert s.Not != null ==> s.Not in Members(Listed(s.Not));
  }

  /** So after a resolution has succeeded every visited schema has. */
  lemma AllHaveChildren(doc: Document, visited: set<Schema>)
    requires Sound(doc, visited, {})
    ensures forall s <- visited :: ChildrenResolved(visited, s)
  {
    hide Finished, ChildrenResolved;
    forall s <- visited
      ensures ChildrenResolved(visited, s)
    {
      FinishedHasChildren(doc, visited, s);
    }
  }

  lemma FinishedStays(doc: Document, visited: set<Schema>, more: set<Schema>, s: Schema)
    requires Finished(doc, visited, s) && visited <= more
    ensures Finished(doc, more, s)
  {
    assert forall c <- Cells(s) :: Done(doc, visited, c);
  }

  lemma NoneDone(doc: Document, visited: set<Schema>)
    ensures AllDone(doc, visited, {})
  {}

  /** A schema that starts being visited is grey. */
  lemma Greying(doc: Document, visited: set<Schema>, grey: set<Schema>, s: Schema)
    requires Sound(doc, visited, grey) && s in doc.schemas
    ensures Sound(doc, visited + {s}, grey + {s})
  {
    forall x <- (visited + {s}) - (grey + {s})
      ensures Finished(doc, visited + {s}, x)
    {
      FinishedStays(doc, visited, visited + {s}, x);
    }
  }

  /** A schema whose cells have all been resolved is no longer grey. */
  lemma Blackening(doc: Document, visited: set<Schema>, grey: set<Schema>, s: Schema)
    requires Sound(doc, visited, grey + {s}) && Finished(doc, visited, s)
    ensures Sound(doc, visited, grey)
  {}

  /** The cells that come after the properties, in their order. */
  function AfterProperties(s: Schema): seq<SchemaRef?> {
    Listed(s.AdditionalProperties) + Listed(s.Not) + s.AllOf + s.AnyOf + s.OneOf
  }

  lemma CellKinds(s: Schema)
    ensures Members(Listed(s.Items)) <= Cells(s) && s.Properties.Values <= Cells(s)
    ensures Members(AfterProperties(s)) <= Cells(s)
    ensures Cells(s) == {} + Members(Listed(s.Items)) + s.Properties.Values + Members(AfterProperties(s))
  {}

  // The document as the walk on values sees it

  ghost function CellOf(c: SchemaRef): RefWalk.Cell<Schema>
    reads c
  {
    var value: Option<Schema> := if c.Value == null then None else Some(c.Value);
    RefWalk.Cell(c.Ref, value)
  }

  ghost function WorldOf(doc: Document, visited: set<Schema>): (w: RefWalk.World<SchemaRef?, Schema>)
    reads doc.cells
    ensures w.visited == visited
  {
    RefWalk.World(map c: SchemaRef? | c in doc.cells :: CellOf(c), visited)
  }

  ghost function LayoutOf(doc: Document): RefWalk.Layout<SchemaRef?, Schema> {
    RefWalk.Layout(doc.lookup, map s | s in doc.schemas :: Cells(s))
  }

  ghost function PlaceOf(doc: Document, c: SchemaRef): RefWalk.Place<SchemaRef?, Schema>
    reads c
  {
    if c in doc.cells then RefWalk.Stored(c) else RefWalk.Copied(CellOf(c))
  }

  // How long a walk has to go on

  /** A cell of the document, or the copy of one that others refer to. */
  ghost predicate Stands(doc: Document, c: SchemaRef, from: SchemaRef)
    reads c, from
  {
    && from in doc.cells && c.Ref == from.Ref && c.Value == from.Value
    && (c != from ==> c !in doc.cells && from in doc.lookup.Values)
  }

  ghost function LevelOf(doc: Document, c: SchemaRef, from: SchemaRef): nat
    requires doc.lookup.Values <= doc.rank.Keys && (c != from ==> from in doc.rank)
    reads from`Ref, doc.lookup.Values`Ref
  {
    if from.Ref == "" then 0 else if c != from then doc.rank[from] + 1 else Level(doc, c)
  }

  ghost function Highest(rank: map<SchemaRef, nat>): (top: nat)
    ensures forall t <- rank :: rank[t] <= top
    decreases rank.Keys
  {
    if rank == map[] then 0
    else
      var t :| t in rank;
      var rest := Highest(rank - {t});
      assert forall u <- rank :: u == t || u in rank - {t};
      if rest < rank[t] then rank[t] else rest
  }

  /** The walks of these cells are below this level. */
  ghost predicate Below(doc: Document, cells: set<SchemaRef?>, bound: nat)
    requires doc.lookup.Values <= doc.rank.Keys
    reads doc.cells`Ref, doc.lookup.Values`Ref
  {
    forall d: SchemaRef | d in cells && d in doc.cells :: Level(doc, d) < bound
  }

  lemma BelowHighest(doc: Document, cells: set<SchemaRef?>)
    requires doc.lookup.Values <= doc.rank.Keys
    ensures Below(doc, cells, Highest(doc.rank) + 2)
  {}

  lemma BelowAlias(doc: Document, t: SchemaRef)
    requires Resolvable(doc) && t in doc.lookup.Values && t.Ref != "" && t in doc.ends
    ensures Below(doc, Cells(doc.ends[t]), doc.rank[t] + 1)
  {
    hide Cells;
    assert AliasOk(doc, t);
  }

  /** The cell that a reference points to, and what its walk waits for. */
  lemma TargetOf(doc: Document, c: SchemaRef, from: SchemaRef)
    requires Resolvable(doc) && Stands(doc, c, from) && c.Ref != "" && c.Ref in doc.lookup
    ensures var t := doc.lookup[c.Ref];
            && t in doc.cells && t in doc.rank && CellOk(doc, t)
            && (from in doc.ends <==> t in doc.ends) && (t in doc.ends ==> doc.ends[from] == doc.ends[t])
            && (if t.Ref == "" then true
                else if c == from then LevelOf(doc, c, from) == doc.rank[t] + 1 else doc.rank[t] < doc.rank[from])
  {
    hide Cells;
    assert CellOk(doc, from) && CellOk(doc, doc.lookup[c.Ref]);
    if c != from {
      assert AliasOk(doc, from);
    }
  }

  /** Stores the schema that was found in a cell of the document, or in a copy. */
  method Take(doc: Document, component: SchemaRef, ghost from: SchemaRef, schema: Schema, ghost visited: set<Schema>,
              ghost grey: set<Schema>)
    requires Resolvable(doc) && Sound(doc, visited, grey)
    requires component.Ref != "" && from in doc.cells && from in doc.ends && schema == doc.ends[from]
    requires if component in doc.cells then component == from else component.Ref == from.Ref
    modifies component`Value
    ensures Resolvable(doc) && OnlyFills(doc) && Unfilled(doc) <= old(Unfilled(doc))
    ensures Sound(doc, visited, grey) && component.Value == schema
    ensures WorldOf(doc, visited) ==
              RefWalk.Filled(old(WorldOf(doc, visited)), old(PlaceOf(doc, component)), schema)
  {
    hide Cells;
    assert CellOk(doc, from);
    component.Value := schema;
    forall s <- visited - grey, c: SchemaRef? | c in Cells(s)
      ensures Done(doc, visited, c)
    {
      assert old(Finished(doc, visited, s));
      assert old(Done(doc, visited, c));
    }
    forall c <- doc.cells
      ensures CellOk(doc, c)
    {
      assert old(CellOk(doc, c));
    }
    forall t <- doc.lookup.Values
      ensures AliasOk(doc, t)
    {
      assert old(AliasOk(doc, t));
    }
  }

  lemma FilledCell(doc: Document, c: SchemaRef, from: SchemaRef, visited: set<Schema>)
    requires Resolvable(doc) && Stands(doc, c, from) && c.Value != null
    ensures from in doc.ends && c.Value == doc.ends[from] && c.Value in doc.schemas
    ensures RefWalk.CellAt(WorldOf(doc, visited), PlaceOf(doc, c)) == Some(CellOf(c))
    ensures CellOf(c).value == Some(c.Value)
  {
    hide Cells, AliasOk;
    assert CellOk(doc, from);
  }

  lemma PlaceHolds(doc: Document, c: SchemaRef, from: SchemaRef, visited: set<Schema>)
    requires Resolvable(doc) && Stands(doc, c, from)
    ensures RefWalk.CellAt(WorldOf(doc, visited), PlaceOf(doc, c)) == Some(CellOf(c))
    ensures c.Ref == "" ==> c.Value != null && from in doc.ends && c.Value == doc.ends[from]
    ensures c.Value != null ==> from in doc.ends && c.Value == doc.ends[from]
    ensures from in doc.ends ==> doc.ends[from] in doc.schemas
  {
    hide Cells, AliasOk;
    assert CellOk(doc, from);
  }

  lemma EnteredWorld(doc: Document, c: SchemaRef, visited: set<Schema>)
    ensures WorldOf(doc, Entering(visited, c)) == RefWalk.Visit(WorldOf(doc, visited), CellOf(c).value)
  {}

  /** The visited schemas, with the one that the cell holds. */
  ghost function Entering(visited: set<Schema>, c: SchemaRef): set<Schema>
    reads c
  {
    if c.Value == null then visited else visited + {c.Value}
  }

  lemma CopyIsTarget(doc: Document, copy: SchemaRef, t: SchemaRef, ref: string, visited: set<Schema>)
    requires Resolvable(doc) && copy !in doc.cells && t in doc.cells && copy.Ref == t.Ref && copy.Value == t.Value
    requires ref in doc.lookup && doc.lookup[ref] == t
    ensures Stands(doc, copy, t)
    ensures t in WorldOf(doc, visited).cell && ref in LayoutOf(doc).lookup && LayoutOf(doc).lookup[ref] == t
    ensures PlaceOf(doc, copy) == RefWalk.Copied(WorldOf(doc, visited).cell[t])
  {}

  /** A level above the walks of the cells that come after the cell itself. */
  ghost function BoundOf(doc: Document, c: SchemaRef, from: SchemaRef, unfilled: bool): nat
    requires c != from ==> from in doc.rank
  {
    if unfilled && c != from then doc.rank[from] + 1 else Highest(doc.rank) + 2
  }

  lemma BoundIsAbove(doc: Document, c: SchemaRef, from: SchemaRef, unfilled: bool)
    requires Resolvable(doc) && from in doc.cells && from in doc.ends && c.Ref == from.Ref
    requires c != from ==> from in doc.lookup.Values
    requires unfilled ==> c.Ref != ""
    ensures Below(doc, Cells(doc.ends[from]), BoundOf(doc, c, from, unfilled))
  {
    hide Cells, Resolvable, Highest;
    assert doc.lookup.Values <= doc.rank.Keys by { RankCovers(doc); }
    BelowHighest(doc, Cells(doc.ends[from]));
    if unfilled && c != from {
      BelowAlias(doc, from);
    }
  }

  lemma RankCovers(doc: Document)
    requires Resolvable(doc)
    ensures doc.lookup.Values <= doc.rank.Keys && doc.lookup.Values <= doc.cells
  {}

  /** Every reference points to a cell, and no schema holds a nil cell. */
  ghost predicate FaultFree(doc: Document)
    reads doc.cells`Ref
  {
    && (forall s <- doc.schemas :: null !in Cells(s))
    && (forall c <- doc.cells :: c.Ref == "" || c.Ref in doc.lookup)
  }

  lemma NoFault(doc: Document, e: Error)
    ensures FaultFree(doc) ==> !Faulty(doc, e)
  {}

  lemma CellIsBelow(doc: Document, value: Schema, c: SchemaRef?, bound: nat)
    requires Resolvable(doc) && value in doc.schemas && c in Cells(value) && Below(doc, Cells(value), bound)
    ensures c == null || c in doc.cells
    ensures Below(doc, {c}, bound) && (c == null ==> exists s :: s in doc.schemas && null in Cells(s))
  {
    hide Cells, AliasOk;
  }

  lemma SchemaIsLaidOut(doc: Document, value: Schema)
    requires value in doc.schemas
    ensures value in LayoutOf(doc).cells && LayoutOf(doc).cells[value] == Cells(value)
  {}

  function ValuesAt(m: map<string, SchemaRef?>, names: set<string>): set<SchemaRef?> {
    set k | k in names && k in m :: m[k]
  }

  lemma ValuesGrow(m: map<string, SchemaRef?>, names: set<string>, name: string)
    ensures name in m ==> ValuesAt(m, names + {name}) == ValuesAt(m, names) + {m[name]}
    ensures ValuesAt(m, {}) == {}
  {}

  lemma AllValues(m: map<string, SchemaRef?>)
    ensures ValuesAt(m, m.Keys) == m.Values
  {}

  lemma DoneOf(doc: Document, visited: set<Schema>, components: map<string, SchemaRef?>)
    requires AllDone(doc, visited, components.Values)
    ensures forall k <- components :: Done(doc, visited, components[k])
  {
    assert forall k <- components :: components[k] in components.Values;
  }

  class SwaggerLoader {
    var visitedSchema: set<Schema>

    constructor ()
      ensures visitedSchema == {}
    {
      visitedSchema := {};
    }

    /** What every step of the resolution does: it fills in cells and visits schemas, and changes nothing else. */
    twostate predicate Steps(doc: Document)
      reads this, doc.cells, doc.lookup.Values
    {
      && Resolvable(doc) && OnlyFills(doc)
      && Unfilled(doc) <= old(Unfilled(doc))
      && old(visitedSchema) <= visitedSchema
    }

    /** `component` is `from`, a cell of the document, or a copy of it. */
    method ResolveSchemaRef(doc: Document, component: SchemaRef?, ghost from: SchemaRef, ghost grey: set<Schema>)
      returns (err: Option<Error>, ghost walk: RefWalk.Walk<SchemaRef?>)
      requires Resolvable(doc) && Sound(doc, visitedSchema, grey)
      requires component != null ==> Stands(doc, component, from)
      modifies this`visitedSchema, doc.cells`Value, (if component == null then {} else {component})`Value
      ensures Steps(doc)
      ensures err.None? ==> Sound(doc, visitedSchema, grey) && component != null
      ensures err.None? ==> from in doc.ends && component.Value == doc.ends[from] && component.Value in visitedSchema
      ensures err.None? ==>
                RefWalk.Run(LayoutOf(doc), walk, old(WorldOf(doc, visitedSchema)), old(PlaceOf(doc, component)))
                == Some((WorldOf(doc, visitedSchema), doc.ends[from]))
      ensures err.Some? ==> (component == null && err.value.NilCell?) || Faulty(doc, err.value)
      decreases Unfilled(doc), doc.schemas - visitedSchema,
                if component == null then 0 else LevelOf(doc, component, from),
                if component == null || from.Ref == "" then 0 else if component != from then 3 else 4
    {
      hide Finished, Faulty, Cells, AliasOk, WorldOf, LayoutOf, Highest, Sound;
      walk := RefWalk.Stop;
      ghost var under := grey;
      if component != null && component.Value != null {
        FilledCell(doc, component, from, visitedSchema);
        if component.Value in visitedSchema {
          RefWalk.RunStops(LayoutOf(doc), WorldOf(doc, visitedSchema), PlaceOf(doc, component), component.Value);
          return None, walk;
        }
        Greying(doc, visitedSchema, grey, component.Value);
        under := grey + {component.Value};
      }
      if component == null {
        return Some(NilCell), walk;
      }
      err, walk := Enter(doc, component, from, under);
      if err.None? && under != grey {
        Blackening(doc, visitedSchema, grey, component.Value);
      }
    }

    /** The rest of it, for a cell that holds no visited schema; one that it does hold is visited now. */
    method Enter(doc: Document, component: SchemaRef, ghost from: SchemaRef, ghost grey: set<Schema>)
      returns (err: Option<Error>, ghost walk: RefWalk.Walk<SchemaRef?>)
      requires Resolvable(doc) && Stands(doc, component, from)
      requires component.Value == null || component.Value !in visitedSchema
      requires Sound(doc, Entering(visitedSchema, component), grey)
      modifies this`visitedSchema, doc.cells`Value, component`Value
      ensures Steps(doc)
      ensures err.None? ==> Sound(doc, visitedSchema, grey) && from in doc.ends && component.Value == doc.ends[from]
      ensures err.None? ==> component.Value in visitedSchema && Finished(doc, visitedSchema, component.Value)
      ensures err.None? ==>
                RefWalk.Run(LayoutOf(doc), walk, old(WorldOf(doc, visitedSchema)), old(PlaceOf(doc, component)))
                == Some((WorldOf(doc, visitedSchema), doc.ends[from]))
      ensures err.Some? ==> Faulty(doc, err.value)
      decreases Unfilled(doc), doc.schemas - visitedSchema, LevelOf(doc, component, from),
                if from.Ref == "" then 0 else if component != from then 3 else 4, 2
    {
      hide Finished, Faulty, Cells, AliasOk, ChainOk, WorldOf, LayoutOf, Highest, Sound, PlaceOf, Below, Resolvable,
           Unfilled;
      walk := RefWalk.Stop;
      RankCovers(doc);
      UnfilledIs(doc, component);
      ghost var start, place, value := WorldOf(doc, visitedSchema), PlaceOf(doc, component), CellOf(component).value;
      ghost var before, unseen, held := Unfilled(doc), doc.schemas - visitedSchema, component.Value;
      PlaceHolds(doc, component, from, visitedSchema);
      EnteredWorld(doc, component, visitedSchema);
      if component.Value != null {
        visitedSchema := visitedSchema + {component.Value};
      }
      ghost var target, reached, steps := RefWalk.Stop, start, [];
      if component.Ref != "" {
        err, target, reached := Fill(doc, component, from, grey);
        if err.Some? {
          return;
        }
      }
      ghost var bound := BoundOf(doc, component, from, value.None?);
      BoundIsAbove(doc, component, from, value.None?);
      assert Unfilled(doc) <= before && doc.schemas - visitedSchema <= unseen;
      if held != null {
        assert held in unseen && held !in doc.schemas - visitedSchema;
      } else if component == from {
        UnfilledIs(doc, component);
        assert component in before && component !in Unfilled(doc);
      }
      err, steps := ResolveCells(doc, component.Value, grey, bound);
      if err.None? {
        if component.Ref == "" {
          RefWalk.RunInline(LayoutOf(doc), steps, start, place, component.Value);
        } else {
          RefWalk.RunReference(LayoutOf(doc), target, steps, start, place, (reached, doc.ends[from]));
        }
        walk := RefWalk.Walk(target, steps);
      }
    }

    /** Looks up the reference of a cell, resolves a copy of the cell found, and takes over its schema. */
    method Fill(doc: Document, component: SchemaRef, ghost from: SchemaRef, ghost grey: set<Schema>)
      returns (err: Option<Error>, ghost walk: RefWalk.Walk<SchemaRef?>,
               ghost reached: RefWalk.World<SchemaRef?, Schema>)
      requires Resolvable(doc) && Stands(doc, component, from) && component.Ref != "" && Sound(doc, visitedSchema, grey)
      modifies this`visitedSchema, doc.cells`Value, component`Value
      ensures Steps(doc)
      ensures err.None? ==> Sound(doc, visitedSchema, grey) && from in doc.ends && component.Value == doc.ends[from]
      ensures err.None? ==> component.Value in visitedSchema
      ensures err.None? ==>
                && RefWalk.RunTarget(LayoutOf(doc), walk, old(WorldOf(doc, visitedSchema)), component.Ref)
                   == Some((reached, doc.ends[from]))
                && WorldOf(doc, visitedSchema) == RefWalk.Filled(reached, old(PlaceOf(doc, component)), doc.ends[from])
      ensures err.Some? ==> Faulty(doc, err.value)
      decreases Unfilled(doc), doc.schemas - visitedSchema, LevelOf(doc, component, from),
                if component != from then 3 else 4, 1
    {
      hide Finished, Cells, AliasOk, ChainOk, WorldOf, LayoutOf, Sound, Resolvable;
      RankCovers(doc);
      ghost var start := WorldOf(doc, visitedSchema);
      walk, reached := RefWalk.Stop, start;
      if component.Ref !in doc.lookup {
        return Some(Unresolvable(component.Ref)), walk, reached;
      }
      TargetOf(doc, component, from);
      var target := doc.lookup[component.Ref];
      var resolved := new SchemaRef(target.Ref, target.Value);
      CopyIsTarget(doc, resolved, target, component.Ref, visitedSchema);
      err, walk := ResolveSchemaRef(doc, resolved, target, grey);
      if err.Some? {
        return;
      }
      reached := WorldOf(doc, visitedSchema);
      RefWalk.RunTargetIs(LayoutOf(doc), walk, start, component.Ref, target);
      Take(doc, component, from, resolved.Value, visitedSchema, grey);
    }

    /** Resolves the cells of a schema, kind by kind. */
    method ResolveCells(doc: Document, value: Schema, ghost grey: set<Schema>, ghost bound: nat)
      returns (err: Option<Error>, ghost steps: seq<RefWalk.Step<SchemaRef?>>)
      requires Resolvable(doc) && Sound(doc, visitedSchema, grey) && value in doc.schemas
      requires Below(doc, Cells(value), bound)
      modifies this`visitedSchema, doc.cells`Value
      ensures Steps(doc)
      ensures err.None? ==> Sound(doc, visitedSchema, grey) && Finished(doc, visitedSchema, value)
      ensures err.None? ==> ChildrenResolved(visitedSchema, value)
      ensures err.None? ==>
                RefWalk.RunBelow(LayoutOf(doc), steps, old(WorldOf(doc, visitedSchema)), value)
                == Some((WorldOf(doc, visitedSchema), value))
      ensures err.Some? ==> Faulty(doc, err.value)
      decreases Unfilled(doc), doc.schemas - visitedSchema, bound, 2
    {
      hide Sound, Faulty, AllDone, Members, AfterProperties, Cells, Resolvable, Unfilled, WorldOf, LayoutOf, Below,
           ChildrenResolved;
      CellKinds(value);
      NoneDone(doc, visitedSchema);
      ghost var start := WorldOf(doc, visitedSchema);
      steps := [];
      RefWalk.NoSteps(LayoutOf(doc), start);
      err, steps := ResolveAll(doc, value, Listed(value.Items), {}, grey, bound, steps, start);
      if err.Some? { return; }
      ghost var done := {} + Members(Listed(value.Items));
      err, steps := ResolveProperties(doc, value, done, grey, bound, steps, start);
      if err.Some? { return; }
      done := done + value.Properties.Values;
      err, steps := ResolveAll(doc, value, AfterProperties(value), done, grey, bound, steps, start);
      if err.Some? { return; }
      SchemaIsLaidOut(doc, value);
      FinishedHasChildren(doc, visitedSchema, value);
      RefWalk.RunBelowIs(LayoutOf(doc), steps, start, value, WorldOf(doc, visitedSchema));
    }

    /** What was walked so far, from `start`: the steps lead to the present, over the cells of `done`. */
    ghost predicate Walked(doc: Document, steps: seq<RefWalk.Step<SchemaRef?>>,
                           start: RefWalk.World<SchemaRef?, Schema>, done: set<SchemaRef?>)
      reads this, doc.cells
    {
      && RefWalk.RunSteps(LayoutOf(doc), steps, start) == Some(WorldOf(doc, visitedSchema))
      && RefWalk.Places(steps) == done
    }

    /** Resolves one more cell of a schema. */
    method ResolveNext(doc: Document, c: SchemaRef?, ghost done: set<SchemaRef?>, ghost grey: set<Schema>,
                       ghost bound: nat, ghost before: seq<RefWalk.Step<SchemaRef?>>,
                       ghost start: RefWalk.World<SchemaRef?, Schema>)
      returns (err: Option<Error>, ghost steps: seq<RefWalk.Step<SchemaRef?>>)
      requires Resolvable(doc) && Sound(doc, visitedSchema, grey) && (c == null || c in doc.cells)
      requires c == null ==> exists s :: s in doc.schemas && null in Cells(s)
      requires Below(doc, {c}, bound) && AllDone(doc, visitedSchema, done) && Walked(doc, before, start, done)
      modifies this`visitedSchema, doc.cells`Value
      ensures Steps(doc)
      ensures err.None? ==> Sound(doc, visitedSchema, grey) && AllDone(doc, visitedSchema, done + {c})
      ensures err.None? ==> Walked(doc, steps, start, done + {c})
      ensures err.Some? ==> Faulty(doc, err.value)
      decreases Unfilled(doc), doc.schemas - visitedSchema, bound, 0
    {
      hide Sound, Cells, AliasOk, WorldOf, LayoutOf, Highest;
      steps := before;
      if c == null {
        return Some(NilCell), steps;
      }
      ghost var walk;
      err, walk := ResolveSchemaRef(doc, c, c, grey);
      if err.None? {
        RefWalk.OneMoreStep(LayoutOf(doc), before, RefWalk.Step(c, walk), start);
        steps := before + [RefWalk.Step(c, walk)];
      }
    }

    /** Resolves a list of cells of a schema; those of `done` stay resolved. */
    method ResolveAll(doc: Document, value: Schema, cells: seq<SchemaRef?>, ghost done: set<SchemaRef?>,
                      ghost grey: set<Schema>, ghost bound: nat, ghost before: seq<RefWalk.Step<SchemaRef?>>,
                      ghost start: RefWalk.World<SchemaRef?, Schema>)
      returns (err: Option<Error>, ghost steps: seq<RefWalk.Step<SchemaRef?>>)
      requires Resolvable(doc) && Sound(doc, visitedSchema, grey) && value in doc.schemas
      requires Members(cells) <= Cells(value) && Below(doc, Cells(value), bound)
      requires AllDone(doc, visitedSchema, done) && Walked(doc, before, start, done)
      modifies this`visitedSchema, doc.cells`Value
      ensures Steps(doc)
      ensures err.None? ==> Sound(doc, visitedSchema, grey) && AllDone(doc, visitedSchema, done + Members(cells))
      ensures err.None? ==> Walked(doc, steps, start, done + Members(cells))
      ensures err.Some? ==> Faulty(doc, err.value)
      decreases Unfilled(doc), doc.schemas - visitedSchema, bound, 1
    {
      hide Sound, Cells, AliasOk, WorldOf, LayoutOf, Highest, Walked, AllDone, Faulty, Resolvable, Below;
      RankCovers(doc);
      err, steps := None, before;
      ghost var so := done;
      assert so == done + Members(cells[..0]);
      for i := 0 to |cells|
        invariant Steps(doc) && Sound(doc, visitedSchema, grey) && err.None?
        invariant so == done + Members(cells[..i])
        invariant AllDone(doc, visitedSchema, so) && Walked(doc, steps, start, so)
      {
        CellIsBelow(doc, value, cells[i], bound) by { assert cells[i] in Members(cells); }
        err, steps := ResolveNext(doc, cells[i], so, grey, bound, steps, start);
        if err.Some? {
          return;
        }
        so := so + {cells[i]};
        assert cells[..i + 1] == cells[..i] + [cells[i]];
      }
      assert cells[..|cells|] == cells;
    }

    /** Resolves the properties of a schema, in whatever order the map yields them. */
    method ResolveProperties(doc: Document, value: Schema, ghost done: set<SchemaRef?>, ghost grey: set<Schema>,
                             ghost bound: nat, ghost before: seq<RefWalk.Step<SchemaRef?>>,
                             ghost start: RefWalk.World<SchemaRef?, Schema>)
      returns (err: Option<Error>, ghost steps: seq<RefWalk.Step<SchemaRef?>>)
      requires Resolvable(doc) && Sound(doc, visitedSchema, grey) && value in doc.schemas
      requires value.Properties.Values <= Cells(value) && Below(doc, Cells(value), bound)
      requires AllDone(doc, visitedSchema, done) && Walked(doc, before, start, done)
      modifies this`visitedSchema, doc.cells`Value
      ensures Steps(doc)
      ensures err.None? ==>
                Sound(doc, visitedSchema, grey) && AllDone(doc, visitedSchema, done + value.Properties.Values)
      ensures err.None? ==> Walked(doc, steps, start, done + value.Properties.Values)
      ensures err.Some? ==> Faulty(doc, err.value)
      decreases Unfilled(doc), doc.schemas - visitedSchema, bound, 1
    {
      hide Sound, Cells, AliasOk, WorldOf, LayoutOf, Highest, Walked, AllDone, Faulty, Resolvable, Below;
      RankCovers(doc);
      err, steps := None, before;
      ghost var so := done;
      var names := value.Properties.Keys;
      ValuesGrow(value.Properties, {}, "");
      assert so == done + ValuesAt(value.Properties, value.Properties.Keys - names);
      while names != {}
        invariant names <= value.Properties.Keys && err.None?
        invariant Steps(doc) && Sound(doc, visitedSchema, grey)
        invariant so == done + ValuesAt(value.Properties, value.Properties.Keys - names)
        invariant AllDone(doc, visitedSchema, so) && Walked(doc, steps, start, so)
        decreases names
      {
        var name :| name in names;
        var c := value.Properties[name];
        CellIsBelow(doc, value, c, bound) by { assert c in value.Properties.Values; }
        err, steps := ResolveNext(doc, c, so, grey, bound, steps, start);
        if err.Some? {
          return;
        }
        so := so + {c};
        ValuesGrow(value.Properties, value.Properties.Keys - names, name);
        assert value.Properties.Keys - (names - {name}) == (value.Properties.Keys - names) + {name};
        names := names - {name};
      }
      AllValues(value.Properties);
      assert value.Properties.Keys - names == value.Properties.Keys;
    }

    /** The schema components of a document, in whatever order the map yields them. */
    method ResolveRefsIn(doc: Document, components: map<string, SchemaRef?>)
      returns (err: Option<Error>, ghost steps: seq<RefWalk.Step<SchemaRef?>>)
      requires Resolvable(doc) && Sound(doc, visitedSchema, {})
      requires forall k <- components :: components[k] == null || components[k] in doc.cells
      modifies this`visitedSchema, doc.cells`Value
      ensures Steps(doc)
      ensures err.None? ==>
                Sound(doc, visitedSchema, {}) && forall k <- components :: Done(doc, visitedSchema, components[k])
      ensures err.None? ==> forall s <- visitedSchema :: ChildrenResolved(visitedSchema, s)
      ensures err.None? ==>
                RefWalk.RunSteps(LayoutOf(doc), steps, old(WorldOf(doc, visitedSchema)))
                == Some(WorldOf(doc, visitedSchema))
      ensures err.None? ==> RefWalk.Places(steps) == components.Values
      ensures err.Some? ==> (null in components.Values && err.value.NilCell?) || Faulty(doc, err.value)
      ensures FaultFree(doc) && null !in components.Values ==> err.None?
    {
      hide Sound, Faulty, Cells, AliasOk, WorldOf, LayoutOf, Highest, FaultFree, Resolvable, AllDone, ChildrenResolved;
      err, steps := None, [];
      ghost var start := WorldOf(doc, visitedSchema);
      RefWalk.NoSteps(LayoutOf(doc), start);
      NoneDone(doc, visitedSchema);
      var names := components.Keys;
      ghost var so: set<SchemaRef?> := {};
      ValuesGrow(components, {}, "");
      assert so == ValuesAt(components, components.Keys - names);
      while names != {}
        invariant names <= components.Keys && err.None?
        invariant Steps(doc) && Sound(doc, visitedSchema, {})
        invariant so == ValuesAt(components, components.Keys - names)
        invariant AllDone(doc, visitedSchema, so) && Walked(doc, steps, start, so)
        decreases names
      {
        var name :| name in names;
        var c := components[name];
        assert c in components.Values;
        if c == null {
          err := Some(NilCell);
          return;
        }
        err, steps := ResolveComponent(doc, c, so, steps, start);
        if err.Some? {
          NoFault(doc, err.value);
          return;
        }
        so := so + {c};
        ValuesGrow(components, components.Keys - names, name);
        assert components.Keys - (names - {name}) == (components.Keys - names) + {name};
        names := names - {name};
      }
      AllValues(components);
      assert components.Keys - names == components.Keys;
      DoneOf(doc, visitedSchema, components);
      AllHaveChildren(doc, visitedSchema);
    }

    method ResolveComponent(doc: Document, c: SchemaRef, ghost done: set<SchemaRef?>,
                            ghost before: seq<RefWalk.Step<SchemaRef?>>, ghost start: RefWalk.World<SchemaRef?, Schema>)
      returns (err: Option<Error>, ghost steps: seq<RefWalk.Step<SchemaRef?>>)
      requires Resolvable(doc) && Sound(doc, visitedSchema, {}) && c in doc.cells
      requires AllDone(doc, visitedSchema, done) && Walked(doc, before, start, done)
      modifies this`visitedSchema, doc.cells`Value
      ensures Steps(doc)
      ensures err.None? ==> Sound(doc, visitedSchema, {}) && AllDone(doc, visitedSchema, done + {c})
      ensures err.None? ==> Walked(doc, steps, start, done + {c})
      ensures err.Some? ==> Faulty(doc, err.value)
    {
      hide Sound, Cells, AliasOk, WorldOf, LayoutOf, Highest, Walked, Faulty, AllDone;
      assert doc.lookup.Values <= doc.rank.Keys by { RankCovers(doc); }
      BelowHighest(doc, {c});
      err, steps := ResolveNext(doc, c, done, {}, Highest(doc.rank) + 2, before, start);
    }
  }

  /** `d` is a cell of the schema that `c` holds. */
  ghost predicate HoldsCell(c: SchemaRef, d: SchemaRef)
    reads c
  {
    c.Value != null && d in Cells(c.Value)
  }

  /**
   After a successful resolution nothing that can be reached from a resolved cell is unresolved, and every
   cell met on the way holds the very schema that its chain of references ends in.
   */
  lemma {:induction false} NothingUnresolved(doc: Document, visited: set<Schema>, path: seq<SchemaRef>)
    requires Resolvable(doc) && Sound(doc, visited, {}) && path != [] && Done(doc, visited, path[0])
    requires forall i | 0 <= i < |path| - 1 :: HoldsCell(path[i], path[i + 1])
    ensures forall i | 0 <= i < |path| ::
              && path[i].Value != null
              && path[i] in doc.ends && path[i].Value == doc.ends[path[i]]
  {
    hide Cells, Resolvable;
    if |path| > 1 {
      var c, d := path[0], path[1];
      assert HoldsCell(path[0], path[0 + 1]);
      assert Finished(doc, visited, c.Value);
      assert Done(doc, visited, d);
      forall i | 0 <= i < |path| - 2
        ensures HoldsCell(path[1..][i], path[1..][i + 1])
      {
        assert HoldsCell(path[i + 1], path[i + 1 + 1]);
      }
      NothingUnresolved(doc, visited, path[1..]);
      forall i | 1 <= i < |path|
        ensures path[i] == path[1..][i - 1]
      {}
    }
    FilledIsTarget(doc, path[0]);
  }

  lemma FilledIsTarget(doc: Document, c: SchemaRef)
    requires Resolvable(doc) && c in doc.cells
    ensures CellOk(doc, c)
  {}

  /** References that lead from one cell to the next, up to an inline cell. */
  ghost predicate Chain(doc: Document, path: seq<SchemaRef>)
    reads path
  {
    && path != [] && path[|path| - 1].Ref == ""
    && forall i | 0 <= i < |path| - 1 ::
         path[i].Ref != "" && path[i].Ref in doc.lookup && doc.lookup[path[i].Ref] == path[i + 1]
  }

  /** A cell that has been filled in holds the schema of the inline cell that its references lead to. */
  lemma {:induction false} FilledFromChain(doc: Document, path: seq<SchemaRef>)
    requires Resolvable(doc) && Chain(doc, path) && path[0] in doc.cells
    ensures path[0] in doc.ends && doc.ends[path[0]] == path[|path| - 1].Value
    ensures path[0].Value != null ==> path[0].Value == path[|path| - 1].Value
  {
    hide Cells, AliasOk;
    assert CellOk(doc, path[0]);
    if |path| > 1 {
      assert doc.lookup[path[0].Ref] == path[0 + 1];
      assert Chain(doc, path[1..]) by {
        forall i | 0 <= i < |path[1..]| - 1
          ensures doc.lookup[path[1..][i].Ref] == path[1..][i + 1]
        {
          assert doc.lookup[path[i + 1].Ref] == path[i + 1 + 1];
        }
      }
      FilledFromChain(doc, path[1..]);
    }
  }

  /** Of a reference to an inline cell that is the cell's own schema. */
  lemma TargetsOwnSchema(doc: Document, c: SchemaRef)
    requires Resolvable(doc) && c in doc.cells && c.Value != null && c.Ref in doc.lookup && c.Ref != ""
    requires doc.lookup[c.Ref].Ref == ""
    ensures c.Value == doc.lookup[c.Ref].Value
  {
    hide Cells, AliasOk;
    assert CellOk(doc, c) && CellOk(doc, doc.lookup[c.Ref]);
  }

  // Which documents are resolvable

  /**
   A document as it is read: closed, with nothing filled in, and with references to components and to inline cells
   of schemas.
   */
  ghost predicate Unresolved(doc: Document)
    reads doc.cells
  {
    && doc.lookup.Values <= doc.cells
    && (forall c <- doc.cells :: if c.Ref == "" then c.Value != null && c.Value in doc.schemas else c.Value == null)
    && (forall s <- doc.schemas, c: SchemaRef? | c in Cells(s) :: c == null || c in doc.cells)
    && (forall s <- doc.schemas, c: SchemaRef? | c in Cells(s) && c in doc.lookup.Values :: c != null && c.Ref == "")
  }

  /** The document as the walks on values see it before anything is resolved. */
  ghost function Before(doc: Document): RefWalk.World<SchemaRef?, Schema>
    reads doc.cells
  {
    WorldOf(doc, {})
  }

  lemma UnresolvedIsFresh(doc: Document)
    requires Unresolved(doc)
    ensures RefWalk.Fresh(LayoutOf(doc), Before(doc))
  {
    hide Cells;
  }

  ghost predicate RankedDocument(doc: Document, rank: map<SchemaRef?, nat>)
    reads doc.cells
  {
    Unresolved(doc) && RefWalk.Ranked(LayoutOf(doc), Before(doc), rank)
  }

  /** An alias and the cell it refers to, as the rank sees them. */
  lemma AliasWaits(doc: Document, rank: map<SchemaRef?, nat>, t: SchemaRef)
    requires RankedDocument(doc, rank) && t in doc.lookup.Values && t.Ref != ""
    ensures t in rank
    ensures t.Ref in doc.lookup ==>
              var u := doc.lookup[t.Ref];
              && u in doc.cells && (u.Ref != "" ==> u in rank && rank[u] < rank[t])
              && (u.Ref == "" ==> u.Value != null && u.Value in doc.schemas)
  {
    hide Cells;
    var l, w := LayoutOf(doc), Before(doc);
    assert t in RefWalk.AliasesOf(l, w);
    if t.Ref in doc.lookup && doc.lookup[t.Ref].Ref != "" {
      var u := doc.lookup[t.Ref];
      assert u in l.lookup.Values && RefWalk.Alias(l, w, u);
      assert RefWalk.WaitsFor(l, w, t, u);
    }
  }

  /** The schema that the chain of an alias ends in, if no reference on the way dangles. */
  ghost function EndOfAlias(doc: Document, rank: map<SchemaRef?, nat>, t: SchemaRef): (end: Option<Schema>)
    requires RankedDocument(doc, rank) && t in doc.lookup.Values && t.Ref != ""
    reads doc.cells
    ensures end.Some? ==> end.value in doc.schemas
    decreases (AliasWaits(doc, rank, t); rank[t])
  {
    AliasWaits(doc, rank, t);
    if t.Ref !in doc.lookup then None
    else
      var u := doc.lookup[t.Ref];
      if u.Ref == "" then Some(u.Value) else EndOfAlias(doc, rank, u)
  }

  ghost function EndOf(doc: Document, rank: map<SchemaRef?, nat>, c: SchemaRef): (end: Option<Schema>)
    requires RankedDocument(doc, rank) && c in doc.cells
    reads doc.cells
    ensures end.Some? ==> end.value in doc.schemas
  {
    if c.Ref == "" then Some(c.Value)
    else if c.Ref !in doc.lookup then None
    else
      var t := doc.lookup[c.Ref];
      if t.Ref == "" then Some(t.Value) else EndOfAlias(doc, rank, t)
  }

  /** The document with the ends of its chains and ranks for all cells that are pointed to. */
  ghost function Planned(doc: Document, rank: map<SchemaRef?, nat>): (plan: Document)
    requires RankedDocument(doc, rank)
    reads doc.cells
    ensures plan.cells == doc.cells && plan.schemas == doc.schemas && plan.lookup == doc.lookup
  {
    var ends := map c | c in doc.cells && EndOf(doc, rank, c).Some? :: EndOf(doc, rank, c).value;
    var full := map t | t in doc.lookup.Values :: if t in rank then rank[t] else 0;
    doc.(ends := ends, rank := full)
  }

  /** The cells of the schema that the chain of an alias ends in are no higher than the alias. */
  lemma {:induction false} EndIsBelow(doc: Document, rank: map<SchemaRef?, nat>, t: SchemaRef, d: SchemaRef)
    requires RankedDocument(doc, rank) && t in doc.lookup.Values && t.Ref != ""
    requires EndOfAlias(doc, rank, t).Some? && d in Cells(EndOfAlias(doc, rank, t).value) && d in doc.cells
    ensures t in rank && Planned(doc, rank).lookup.Values <= Planned(doc, rank).rank.Keys
    ensures Level(Planned(doc, rank), d) <= rank[t]
    decreases (AliasWaits(doc, rank, t); rank[t])
  {
    hide Cells, RankedDocument, Planned;
    AliasWaits(doc, rank, t);
    PlanCovers(doc, rank);
    var u := doc.lookup[t.Ref];
    if u.Ref != "" {
      EndIsBelow(doc, rank, u, d);
    } else {
      InlineEndIsBelow(doc, rank, t, u, d);
    }
  }

  lemma PlanCovers(doc: Document, rank: map<SchemaRef?, nat>)
    requires RankedDocument(doc, rank)
    ensures Planned(doc, rank).rank.Keys == doc.lookup.Values
    ensures forall t | t in doc.lookup.Values && t in rank :: Planned(doc, rank).rank[t] == rank[t]
  {
    hide EndOf, Unresolved;
  }

  lemma InlineEndIsBelow(doc: Document, rank: map<SchemaRef?, nat>, t: SchemaRef, u: SchemaRef, d: SchemaRef)
    requires RankedDocument(doc, rank) && t in doc.lookup.Values && t.Ref != "" && t in rank
    requires t.Ref in doc.lookup && doc.lookup[t.Ref] == u && u in doc.cells && u.Ref == "" && u.Value != null
    requires d in Cells(u.Value) && d in doc.cells && u.Value in doc.schemas
    ensures Planned(doc, rank).lookup.Values <= Planned(doc, rank).rank.Keys
    ensures Level(Planned(doc, rank), d) <= rank[t]
  {
    hide Cells, Planned;
    PlanCovers(doc, rank);
    var l, w := LayoutOf(doc), Before(doc);
    if d.Ref != "" && d.Ref in doc.lookup && doc.lookup[d.Ref].Ref != "" {
      var a := doc.lookup[d.Ref];
      assert RefWalk.Alias(l, w, a) && RefWalk.RefersTo(l, w, d, a);
      assert RefWalk.WaitsFor(l, w, t, a);
      assert a in RefWalk.AliasesOf(l, w) && t in RefWalk.AliasesOf(l, w);
    }
  }

  lemma RankedIsResolvable(doc: Document, rank: map<SchemaRef?, nat>)
    requires RankedDocument(doc, rank)
    ensures Resolvable(Planned(doc, rank))
  {
    hide Cells, RankedDocument, Planned, Level, EndOf, EndOfAlias;
    var plan := Planned(doc, rank);
    PlanCovers(doc, rank);
    assert Unresolved(doc) by { RankedIsUnresolved(doc, rank); }
    forall c <- doc.cells
      ensures CellOk(plan, c)
    {
      PlanChains(doc, rank, c);
    }
    forall t <- doc.lookup.Values
      ensures AliasOk(plan, t)
    {
      if t.Ref != "" {
        AliasWaits(doc, rank, t);
        PlanChains(doc, rank, t);
        forall d: SchemaRef | t in plan.ends && d in Cells(plan.ends[t]) && d in doc.cells
          ensures Level(plan, d) <= plan.rank[t]
        {
          EndIsEndOfAlias(doc, rank, t);
          EndIsBelow(doc, rank, t, d);
        }
      }
    }
  }

  lemma RankedIsUnresolved(doc: Document, rank: map<SchemaRef?, nat>)
    requires RankedDocument(doc, rank)
    ensures Unresolved(doc)
  {}

  lemma EndIsEndOfAlias(doc: Document, rank: map<SchemaRef?, nat>, t: SchemaRef)
    requires RankedDocument(doc, rank) && t in doc.lookup.Values && t.Ref != "" && t in doc.cells
    ensures EndOf(doc, rank, t) == EndOfAlias(doc, rank, t)
    ensures t in Planned(doc, rank).ends <==> EndOf(doc, rank, t).Some?
    ensures t in Planned(doc, rank).ends ==> Planned(doc, rank).ends[t] == EndOf(doc, rank, t).value
  {
    hide RankedDocument;
  }

  lemma PlanChains(doc: Document, rank: map<SchemaRef?, nat>, c: SchemaRef)
    requires RankedDocument(doc, rank) && c in doc.cells
    ensures CellOk(Planned(doc, rank), c)
  {
    hide Cells;
    if c.Ref != "" && c.Ref in doc.lookup {
      var t := doc.lookup[c.Ref];
      assert t in doc.cells;
      if t.Ref != "" {
        EndIsEndOfAlias(doc, rank, t);
      }
    }
  }

  /**
   A document whose aliases are no cells of schemas can be planned, so that the loader always returns and fails
   only on a fault, unless some of its aliases form a knot; then no walk over components that takes in one of
   them finishes.
   */
  lemma PlanOrKnot(doc: Document) returns (plan: Document, aliases: set<SchemaRef?>)
    requires Unresolved(doc)
    ensures plan.cells == doc.cells && plan.schemas == doc.schemas && plan.lookup == doc.lookup
    ensures aliases == {} ==> Resolvable(plan)
    ensures aliases != {} ==> RefWalk.Knot(LayoutOf(doc), Before(doc), aliases) && aliases <= doc.lookup.Values
    ensures forall steps: seq<RefWalk.Step<SchemaRef?>> | !(RefWalk.Places(steps) !! aliases) ::
              RefWalk.RunSteps(LayoutOf(doc), steps, Before(doc)).None?
  {
    hide Resolvable, Unresolved, LayoutOf, Before;
    hide RefWalk.Knot, RefWalk.Ranked, RefWalk.Untouched, RefWalk.RunSteps, RefWalk.Fresh;
    UnresolvedIsFresh(doc);
    var rank;
    rank, aliases := RefWalk.RankOrKnot(LayoutOf(doc), Before(doc));
    if aliases == {} {
      plan := Planned(doc, rank);
      RankedIsResolvable(doc, rank);
    } else {
      plan := doc;
      AliasesAreTargets(doc);
      forall steps: seq<RefWalk.Step<SchemaRef?>> | !(RefWalk.Places(steps) !! aliases)
        ensures RefWalk.RunSteps(LayoutOf(doc), steps, Before(doc)).None?
      {
        RefWalk.KnotNeverResolves(LayoutOf(doc), steps, Before(doc), aliases);
      }
    }
  }

  lemma AliasesAreTargets(doc: Document)
    ensures RefWalk.AliasesOf(LayoutOf(doc), Before(doc)) <= doc.lookup.Values
  {}
}
