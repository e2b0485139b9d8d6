/**
 The walk over references, on values: which finished walks there are, and which documents have none. `C` names
 the cells of a document and `S` its schemas.
 */
module RefWalk {
  import opened Options

  datatype Cell<S> = Cell(ref: string, value: Option<S>)

  /** What stays: the cell each reference points to, and the cells each schema holds. */
  datatype Layout<C(==), S(==)> = Layout(lookup: map<string, C>, cells: map<S, set<C>>)

  /** What a walk changes. */
  datatype World<C(==), S(==)> = World(cell: map<C, Cell<S>>, visited: set<S>)

  /** A cell of the document, or the copy of one that the lookup of a reference makes. */
  datatype Place<C, S> = Stored(c: C) | Copied(copy: Cell<S>)

  /**
   A finished walk from a place. It stops at a schema that has been visited; otherwise it walks to the target of
   the reference, if there is one, and then over the cells of the schema, in some order.
   */
  datatype Walk<C> = Stop | Walk(target: Walk<C>, below: seq<Step<C>>)

  datatype Step<C> = Step(c: C, walk: Walk<C>)

  function Places<C>(steps: seq<Step<C>>): set<C> {
    set s | s in steps :: s.c
  }

  function CellAt<C, S>(w: World<C, S>, p: Place<C, S>): Option<Cell<S>> {
    match p
    case Copied(copy) => Some(copy)
    case Stored(c) => if c in w.cell then Some(w.cell[c]) else None
  }

  function Visit<C, S>(w: World<C, S>, v: Option<S>): World<C, S> {
    if v.Some? then w.(visited := w.visited + {v.value}) else w
  }

  function Filled<C, S>(w: World<C, S>, p: Place<C, S>, v: S): World<C, S> {
    if p.Stored? && p.c in w.cell then w.(cell := w.cell[p.c := Cell(w.cell[p.c].ref, Some(v))]) else w
  }

  /** The world after a walk, and the schema it found at the place; None if this is no walk of the resolver. */
  function Run<C, S>(l: Layout<C, S>, walk: Walk<C>, w: World<C, S>, p: Place<C, S>): Option<(World<C, S>, S)>
    decreases walk, 0
  {
    if CellAt(w, p).None? then None
    else
      var c := CellAt(w, p).value;
      if c.value.Some? && c.value.value in w.visited then
        if walk.Stop? then Some((w, c.value.value)) else None
      else if walk.Stop? then None
      else if c.ref == "" then
        if c.value.None? then None else RunBelow(l, walk.below, Visit(w, c.value), c.value.value)
      else
        match RunTarget(l, walk.target, Visit(w, c.value), c.ref)
        case None => None
        case Some(found) => RunBelow(l, walk.below, Filled(found.0, p, found.1), found.1)
  }

  /** The walk to a copy of the cell that a reference points to. */
  function RunTarget<C, S>(l: Layout<C, S>, walk: Walk<C>, w: World<C, S>, ref: string): Option<(World<C, S>, S)>
    decreases walk, 1
  {
    if ref in l.lookup && l.lookup[ref] in w.cell then Run(l, walk, w, Copied(w.cell[l.lookup[ref]])) else None
  }

  /** The walk over all the cells of a schema. */
  function RunBelow<C, S>(l: Layout<C, S>, steps: seq<Step<C>>, w: World<C, S>, v: S): Option<(World<C, S>, S)>
    decreases steps, 1
  {
    if v !in l.cells || Places(steps) != l.cells[v] then None
    else
      match RunSteps(l, steps, w)
      case None => None
      case Some(after) => Some((after, v))
  }

  function RunSteps<C, S>(l: Layout<C, S>, steps: seq<Step<C>>, w: World<C, S>): Option<World<C, S>>
    decreases steps, 0
  {
    if steps == [] then Some(w)
    else
      match RunSteps(l, steps[..|steps| - 1], w)
      case None => None
      case Some(before) => RunStep(l, steps[|steps| - 1], before)
  }

  function RunStep<C, S>(l: Layout<C, S>, s: Step<C>, w: World<C, S>): Option<World<C, S>>
    decreases s, 0
  {
    match Run(l, s.walk, w, Stored(s.c))
    case None => None
    case Some(found) => Some(found.0)
  }

  lemma OneMoreStep<C, S>(l: Layout<C, S>, steps: seq<Step<C>>, s: Step<C>, w: World<C, S>)
    ensures RunSteps(l, steps + [s], w) ==
              match RunSteps(l, steps, w)
              case None => None
              case Some(before) => RunStep(l, s, before)
    ensures Places(steps + [s]) == Places(steps) + {s.c}
  {
    var more := steps + [s];
    assert more[..|more| - 1] == steps && more[|more| - 1] == s;
    assert forall x :: x in more <==> x in steps || x == s;
  }

  lemma RunStops<C, S>(l: Layout<C, S>, w: World<C, S>, p: Place<C, S>, v: S)
    requires CellAt(w, p).Some? && CellAt(w, p).value.value == Some(v) && v in w.visited
    ensures Run(l, Stop, w, p) == Some((w, v))
  {}

  lemma RunInline<C, S>(l: Layout<C, S>, steps: seq<Step<C>>, w: World<C, S>, p: Place<C, S>, v: S)
    requires CellAt(w, p) == Some(Cell("", Some(v))) && v !in w.visited
    ensures Run(l, Walk(Stop, steps), w, p) == RunBelow(l, steps, Visit(w, Some(v)), v)
  {}

  lemma RunTargetIs<C, S>(l: Layout<C, S>, walk: Walk<C>, w: World<C, S>, ref: string, t: C)
    requires ref in l.lookup && l.lookup[ref] == t && t in w.cell
    ensures RunTarget(l, walk, w, ref) == Run(l, walk, w, Copied(w.cell[t]))
  {}

  lemma RunBelowIs<C, S>(l: Layout<C, S>, steps: seq<Step<C>>, w: World<C, S>, v: S, n: World<C, S>)
    requires v in l.cells && Places(steps) == l.cells[v] && RunSteps(l, steps, w) == Some(n)
    ensures RunBelow(l, steps, w, v) == Some((n, v))
  {}

  lemma NoSteps<C, S>(l: Layout<C, S>, w: World<C, S>)
    ensures RunSteps(l, [], w) == Some(w) && Places<C>([]) == {}
  {}

  lemma RunReference<C, S>(l: Layout<C, S>, target: Walk<C>, steps: seq<Step<C>>, w: World<C, S>, p: Place<C, S>,
                           found: (World<C, S>, S))
    requires CellAt(w, p).Some? && CellAt(w, p).value.ref != ""
    requires CellAt(w, p).value.value.Some? ==> CellAt(w, p).value.value.value !in w.visited
    requires RunTarget(l, target, Visit(w, CellAt(w, p).value.value), CellAt(w, p).value.ref) == Some(found)
    ensures Run(l, Walk(target, steps), w, p) == RunBelow(l, steps, Filled(found.0, p, found.1), found.1)
  {}

  // What every finished walk keeps

  /** Cells that hold a reference and are filled in hold a visited schema. */
  ghost predicate FillsVisited<C, S>(w: World<C, S>) {
    forall c <- w.cell :: FilledIsVisited(w, w.cell[c])
  }

  predicate FilledIsVisited<C, S>(w: World<C, S>, c: Cell<S>) {
    c.ref != "" && c.value.Some? ==> c.value.value in w.visited
  }

  /** Cells stay, and so do their references and whatever is filled in; schemas stay visited. */
  ghost predicate Grows<C, S>(w: World<C, S>, n: World<C, S>) {
    && n.cell.Keys == w.cell.Keys && w.visited <= n.visited
    && forall c <- w.cell :: n.cell[c].ref == w.cell[c].ref && (w.cell[c].ref == "" ==> n.cell[c] == w.cell[c])
  }

  // References into a knot

  ghost predicate Unfilled<C, S>(w: World<C, S>, c: Cell<S>) {
    c.ref != "" && c.value.None?
  }

  /** The cell is not filled in and refers to one of the aliases. */
  ghost predicate RefersInto<C, S>(l: Layout<C, S>, w: World<C, S>, aliases: set<C>, d: C) {
    d in w.cell && Unfilled(w, w.cell[d]) && w.cell[d].ref in l.lookup && l.lookup[w.cell[d].ref] in aliases
  }

  ghost predicate HoldsReference<C, S>(l: Layout<C, S>, w: World<C, S>, aliases: set<C>, v: S) {
    v in l.cells && exists d :: d in l.cells[v] && RefersInto(l, w, aliases, d)
  }

  /** It refers to one of the aliases, or to a schema that holds a cell which does. */
  ghost predicate Tied<C, S>(l: Layout<C, S>, w: World<C, S>, aliases: set<C>, c: Cell<S>) {
    && Unfilled(w, c) && c.ref in l.lookup
    && var t := l.lookup[c.ref];
       t in aliases ||
       (t in w.cell && w.cell[t].ref == "" && w.cell[t].value.Some?
        && HoldsReference(l, w, aliases, w.cell[t].value.value))
  }

  /** Aliases, none of them a cell of a schema, each tied to the others or to itself. */
  ghost predicate Knot<C, S>(l: Layout<C, S>, w: World<C, S>, aliases: set<C>) {
    && (forall a <- aliases :: a in w.cell && Tied(l, w, aliases, w.cell[a]))
    && (forall v <- l.cells :: l.cells[v] !! aliases)
    && FillsVisited(w)
  }

  /** No schema that holds a reference into the knot has been visited. */
  ghost predicate Untouched<C, S>(l: Layout<C, S>, w: World<C, S>, aliases: set<C>) {
    forall v <- w.visited :: !HoldsReference(l, w, aliases, v)
  }

  /** What a finished walk leaves as it was. */
  ghost predicate Leaves<C, S>(l: Layout<C, S>, w: World<C, S>, n: World<C, S>, aliases: set<C>) {
    && Grows(w, n) && Knot(l, n, aliases)
    && (forall d <- w.cell :: RefersInto(l, n, aliases, d) <==> RefersInto(l, w, aliases, d))
    && (Untouched(l, w, aliases) ==> Untouched(l, n, aliases))
  }

  lemma LeavesItself<C, S>(l: Layout<C, S>, w: World<C, S>, aliases: set<C>)
    requires Knot(l, w, aliases)
    ensures Leaves(l, w, w, aliases)
  {}

  lemma LeavesTwice<C, S>(l: Layout<C, S>, w: World<C, S>, m: World<C, S>, n: World<C, S>, aliases: set<C>)
    requires Leaves(l, w, m, aliases) && Leaves(l, m, n, aliases)
    ensures Leaves(l, w, n, aliases)
  {
    hide Knot, Untouched, RefersInto;
  }

  lemma SameReferences<C, S>(l: Layout<C, S>, w: World<C, S>, n: World<C, S>, aliases: set<C>, v: S)
    requires n.cell.Keys == w.cell.Keys
    requires forall d <- w.cell :: RefersInto(l, n, aliases, d) <==> RefersInto(l, w, aliases, d)
    ensures HoldsReference(l, n, aliases, v) <==> HoldsReference(l, w, aliases, v)
  {
    if HoldsReference(l, w, aliases, v) {
      var d :| d in l.cells[v] && RefersInto(l, w, aliases, d);
      assert RefersInto(l, n, aliases, d);
    }
    if HoldsReference(l, n, aliases, v) {
      var d :| d in l.cells[v] && RefersInto(l, n, aliases, d);
      assert RefersInto(l, w, aliases, d);
    }
  }

  lemma LeavesReferences<C, S>(l: Layout<C, S>, w: World<C, S>, n: World<C, S>, aliases: set<C>, v: S)
    requires Leaves(l, w, n, aliases)
    ensures HoldsReference(l, n, aliases, v) <==> HoldsReference(l, w, aliases, v)
  {
    hide Knot, Untouched, RefersInto, HoldsReference;
    SameReferences(l, w, n, aliases, v);
  }

  lemma KnotWhenVisiting<C, S>(l: Layout<C, S>, w: World<C, S>, v: S, aliases: set<C>)
    requires Knot(l, w, aliases)
    ensures var n := Visit(w, Some(v));
            Knot(l, n, aliases) && forall d <- w.cell :: RefersInto(l, n, aliases, d) <==> RefersInto(l, w, aliases, d)
  {
    var n := Visit(w, Some(v));
    forall u
      ensures HoldsReference(l, n, aliases, u) <==> HoldsReference(l, w, aliases, u)
    {
      SameReferences(l, w, n, aliases, u);
    }
    forall a <- aliases
      ensures a in n.cell && Tied(l, n, aliases, n.cell[a])
    {
      assert Tied(l, w, aliases, w.cell[a]);
    }
    forall c <- n.cell
      ensures FilledIsVisited(n, n.cell[c])
    {
      assert FilledIsVisited(w, w.cell[c]);
    }
  }

  /** Visiting a schema that holds no reference into the knot. */
  lemma LeavesVisiting<C, S>(l: Layout<C, S>, w: World<C, S>, v: S, aliases: set<C>)
    requires Knot(l, w, aliases) && !HoldsReference(l, w, aliases, v)
    ensures Leaves(l, w, Visit(w, Some(v)), aliases)
  {
    hide Knot, RefersInto, HoldsReference;
    var n := Visit(w, Some(v));
    KnotWhenVisiting(l, w, v, aliases);
    forall u
      ensures HoldsReference(l, n, aliases, u) <==> HoldsReference(l, w, aliases, u)
    {
      SameReferences(l, w, n, aliases, u);
    }
  }

  /** Filling in a cell that is no alias and does not refer into the knot, with a visited schema. */
  lemma LeavesFilling<C, S>(l: Layout<C, S>, w: World<C, S>, p: Place<C, S>, v: S, aliases: set<C>)
    requires Knot(l, w, aliases) && v in w.visited
    requires p.Stored? ==>
               p.c !in aliases && !RefersInto(l, w, aliases, p.c) && (p.c in w.cell ==> w.cell[p.c].ref != "")
    ensures Leaves(l, w, Filled(w, p, v), aliases)
  {
    hide HoldsReference;
    var n := Filled(w, p, v);
    FilledReferences(l, w, p, v, aliases);
    forall u
      ensures HoldsReference(l, n, aliases, u) <==> HoldsReference(l, w, aliases, u)
    {
      SameReferences(l, w, n, aliases, u);
    }
    forall a <- aliases
      ensures a in n.cell && Tied(l, n, aliases, n.cell[a])
    {
      assert Tied(l, w, aliases, w.cell[a]);
    }
    forall c <- n.cell
      ensures FilledIsVisited(n, n.cell[c])
    {
      assert FilledIsVisited(w, w.cell[c]);
    }
  }

  lemma FilledReferences<C, S>(l: Layout<C, S>, w: World<C, S>, p: Place<C, S>, v: S, aliases: set<C>)
    requires p.Stored? ==> !RefersInto(l, w, aliases, p.c)
    ensures forall d <- w.cell :: RefersInto(l, Filled(w, p, v), aliases, d) <==> RefersInto(l, w, aliases, d)
  {}

  // The parts of a finished walk

  lemma StoppedWalk<C, S>(l: Layout<C, S>, walk: Walk<C>, w: World<C, S>, p: Place<C, S>)
    requires Run(l, walk, w, p).Some?
    ensures CellAt(w, p).Some?
    ensures var c := CellAt(w, p).value;
            c.value.Some? && c.value.value in w.visited ==> Run(l, walk, w, p) == Some((w, c.value.value))
  {}

  lemma InlineWalk<C, S>(l: Layout<C, S>, walk: Walk<C>, w: World<C, S>, p: Place<C, S>) returns (v: S, n: World<C, S>)
    requires Run(l, walk, w, p).Some? && CellAt(w, p).Some? && CellAt(w, p).value.ref == ""
    requires !(CellAt(w, p).value.value.Some? && CellAt(w, p).value.value.value in w.visited)
    ensures walk.Walk? && CellAt(w, p).value.value == Some(v) && Run(l, walk, w, p) == Some((n, v))
    ensures v in l.cells && Places(walk.below) == l.cells[v]
    ensures RunSteps(l, walk.below, Visit(w, Some(v))) == Some(n)
  {
    v, n := Run(l, walk, w, p).value.1, Run(l, walk, w, p).value.0;
  }

  lemma ReferenceWalk<C, S>(l: Layout<C, S>, walk: Walk<C>, w: World<C, S>, p: Place<C, S>)
    returns (m: World<C, S>, v: S, n: World<C, S>)
    requires Run(l, walk, w, p).Some? && CellAt(w, p).Some?
    requires CellAt(w, p).value.ref != "" && CellAt(w, p).value.value.None?
    ensures var ref := CellAt(w, p).value.ref;
            && walk.Walk? && ref in l.lookup && l.lookup[ref] in w.cell
            && Run(l, walk.target, w, Copied(w.cell[l.lookup[ref]])) == Some((m, v))
    ensures v in l.cells && Places(walk.below) == l.cells[v]
    ensures RunSteps(l, walk.below, Filled(m, p, v)) == Some(n) && Run(l, walk, w, p) == Some((n, v))
  {
    var ref := CellAt(w, p).value.ref;
    assert Visit(w, None) == w;
    var found := RunTarget(l, walk.target, w, ref).value;
    m, v, n := found.0, found.1, Run(l, walk, w, p).value.0;
  }

  // No walk that enters a knot finishes

  /** A place from which a walk does not enter the knot at once. */
  ghost predicate Outside<C, S>(l: Layout<C, S>, w: World<C, S>, aliases: set<C>, p: Place<C, S>) {
    match p
    case Stored(c) => c !in aliases && !RefersInto(l, w, aliases, c)
    case Copied(copy) => !Tied(l, w, aliases, copy)
  }

  ghost predicate MayStart<C, S>(w: World<C, S>, aliases: set<C>, p: Place<C, S>) {
    if p.Stored? then p.c !in aliases else FilledIsVisited(w, p.copy)
  }

  ghost predicate StaysOutside<C, S>(l: Layout<C, S>, w: World<C, S>, p: Place<C, S>, aliases: set<C>,
                                     n: World<C, S>, v: S) {
    && Outside(l, w, aliases, p) && Leaves(l, w, n, aliases) && v in n.visited
    && (v !in w.visited ==> !HoldsReference(l, w, aliases, v))
  }

  /** A walk that finishes, from a cell that is no alias or from a copy, does not come across the knot. */
  lemma {:induction false} FinishedStaysOutside<C, S>(l: Layout<C, S>, walk: Walk<C>, w: World<C, S>, p: Place<C, S>,
                                                      aliases: set<C>)
    requires Knot(l, w, aliases) && MayStart(w, aliases, p) && Run(l, walk, w, p).Some?
    ensures var found := Run(l, walk, w, p).value; StaysOutside(l, w, p, aliases, found.0, found.1)
    decreases walk, 0
  {
    hide Knot, StaysOutside, Run, MayStart;
    StoppedWalk(l, walk, w, p);
    var c := CellAt(w, p).value;
    if c.value.Some? && c.value.value in w.visited {
      StopStaysOutside(l, w, p, aliases);
    } else if c.ref == "" {
      InlineStaysOutside(l, walk, w, p, aliases);
    } else {
      ReferenceStaysOutside(l, walk, w, p, aliases);
    }
  }

  lemma StopStaysOutside<C, S>(l: Layout<C, S>, w: World<C, S>, p: Place<C, S>, aliases: set<C>)
    requires Knot(l, w, aliases) && MayStart(w, aliases, p) && CellAt(w, p).Some?
    requires CellAt(w, p).value.value.Some? && CellAt(w, p).value.value.value in w.visited
    ensures StaysOutside(l, w, p, aliases, w, CellAt(w, p).value.value.value)
  {
    LeavesItself(l, w, aliases);
  }

  lemma {:induction false} InlineStaysOutside<C, S>(l: Layout<C, S>, walk: Walk<C>, w: World<C, S>, p: Place<C, S>,
                                                    aliases: set<C>)
    requires Knot(l, w, aliases) && MayStart(w, aliases, p) && Run(l, walk, w, p).Some?
    requires CellAt(w, p).Some? && CellAt(w, p).value.ref == ""
    requires !(CellAt(w, p).value.value.Some? && CellAt(w, p).value.value.value in w.visited)
    ensures var found := Run(l, walk, w, p).value; StaysOutside(l, w, p, aliases, found.0, found.1)
    decreases walk, 0, 0
  {
    hide Knot, Run, Untouched, HoldsReference, RunSteps, Tied, Leaves;
    var v, n := InlineWalk(l, walk, w, p);
    var m := Visit(w, Some(v));
    KnotWhenVisiting(l, w, v, aliases);
    ApartFromAliases(l, w, aliases, v);
    StepsStayOutside(l, walk.below, m, aliases);
    NoReferenceHeld(l, m, aliases, v, walk.below);
    SameReferences(l, w, m, aliases, v);
    LeavesVisiting(l, w, v, aliases);
    LeavesTwice(l, w, m, n, aliases);
    LeavesGrows(l, m, n, aliases);
    InlineIsOutside(l, w, aliases, p);
  }

  lemma LeavesGrows<C, S>(l: Layout<C, S>, w: World<C, S>, n: World<C, S>, aliases: set<C>)
    requires Leaves(l, w, n, aliases)
    ensures Grows(w, n) && Knot(l, n, aliases)
    ensures forall d <- w.cell :: RefersInto(l, n, aliases, d) <==> RefersInto(l, w, aliases, d)
  {}

  lemma InlineIsOutside<C, S>(l: Layout<C, S>, w: World<C, S>, aliases: set<C>, p: Place<C, S>)
    requires MayStart(w, aliases, p) && CellAt(w, p).Some? && CellAt(w, p).value.ref == ""
    ensures Outside(l, w, aliases, p)
  {}

  lemma ApartFromAliases<C, S>(l: Layout<C, S>, w: World<C, S>, aliases: set<C>, v: S)
    requires Knot(l, w, aliases) && v in l.cells
    ensures l.cells[v] !! aliases
  {}

  lemma NoReferenceHeld<C, S>(l: Layout<C, S>, w: World<C, S>, aliases: set<C>, v: S, steps: seq<Step<C>>)
    requires v in l.cells && Places(steps) == l.cells[v] && forall s <- steps :: !RefersInto(l, w, aliases, s.c)
    ensures !HoldsReference(l, w, aliases, v)
  {}

  lemma {:induction false} StepsStayOutside<C, S>(l: Layout<C, S>, steps: seq<Step<C>>, w: World<C, S>, aliases: set<C>)
    requires Knot(l, w, aliases) && RunSteps(l, steps, w).Some? && Places(steps) !! aliases
    ensures Leaves(l, w, RunSteps(l, steps, w).value, aliases)
    ensures forall s <- steps :: !RefersInto(l, w, aliases, s.c)
    decreases steps, 0
  {
    hide Knot, Run, Untouched, HoldsReference, Tied, Leaves, RefersInto;
    if steps == [] {
      LeavesItself(l, w, aliases);
    } else {
      var front, last := steps[..|steps| - 1], steps[|steps| - 1];
      assert forall s <- front :: s in steps;
      assert last in steps && last.c in Places(steps);
      var m := RunSteps(l, front, w).value;
      StepsStayOutside(l, front, w, aliases);
      LeavesGrows(l, w, m, aliases);
      OneStepStaysOutside(l, last, m, aliases);
      var n := RunSteps(l, steps, w).value;
      LeavesTwice(l, w, m, n, aliases);
      assert last.c in m.cell ==> (RefersInto(l, m, aliases, last.c) <==> RefersInto(l, w, aliases, last.c));
      NotThere(l, w, m, aliases, last.c);
    }
  }

  lemma NotThere<C, S>(l: Layout<C, S>, w: World<C, S>, m: World<C, S>, aliases: set<C>, c: C)
    requires Grows(w, m) && !RefersInto(l, m, aliases, c)
    requires c in w.cell ==> (RefersInto(l, m, aliases, c) <==> RefersInto(l, w, aliases, c))
    ensures !RefersInto(l, w, aliases, c)
  {}

  lemma {:induction false} OneStepStaysOutside<C, S>(l: Layout<C, S>, s: Step<C>, w: World<C, S>, aliases: set<C>)
    requires Knot(l, w, aliases) && RunStep(l, s, w).Some? && s.c !in aliases
    ensures Leaves(l, w, RunStep(l, s, w).value, aliases) && !RefersInto(l, w, aliases, s.c)
    decreases s, 0
  {
    hide Knot, Run, Leaves, Untouched, HoldsReference, RefersInto;
    FinishedStaysOutside(l, s.walk, w, Stored(s.c), aliases);
  }

  lemma {:induction false} ReferenceStaysOutside<C, S>(l: Layout<C, S>, walk: Walk<C>, w: World<C, S>, p: Place<C, S>,
                                                       aliases: set<C>)
    requires Knot(l, w, aliases) && MayStart(w, aliases, p) && Run(l, walk, w, p).Some?
    requires CellAt(w, p).Some? && CellAt(w, p).value.ref != ""
    requires !(CellAt(w, p).value.value.Some? && CellAt(w, p).value.value.value in w.visited)
    ensures var found := Run(l, walk, w, p).value; StaysOutside(l, w, p, aliases, found.0, found.1)
    decreases walk, 0, 0
  {
    hide Knot, Run, RunSteps, Untouched, HoldsReference, Tied, Leaves, RefersInto;
    StartIsUnfilled(l, w, p, aliases);
    var m, v, n := ReferenceWalk(l, walk, w, p);
    var t := l.lookup[CellAt(w, p).value.ref];
    TargetMayStart(l, w, aliases, t);
    FinishedStaysOutside(l, walk.target, w, Copied(w.cell[t]), aliases);
    LeavesGrows(l, w, m, aliases);
    TargetIsNoAlias(l, w, m, aliases, p);
    var filled := Filled(m, p, v);
    LeavesFilling(l, m, p, v, aliases);
    LeavesGrows(l, m, filled, aliases);
    ApartFromAliases(l, w, aliases, v);
    StepsStayOutside(l, walk.below, filled, aliases);
    NoReferenceHeld(l, filled, aliases, v, walk.below);
    LeavesTwice(l, w, m, filled, aliases);
    LeavesReferences(l, w, filled, aliases, v);
    LeavesTwice(l, w, filled, n, aliases);
    LeavesGrows(l, filled, n, aliases);
    StoppedAtInline(l, walk.target, w, t);
    ReferenceIsOutside(l, w, aliases, p, v);
  }

  lemma StartIsUnfilled<C, S>(l: Layout<C, S>, w: World<C, S>, p: Place<C, S>, aliases: set<C>)
    requires Knot(l, w, aliases) && MayStart(w, aliases, p) && CellAt(w, p).Some? && CellAt(w, p).value.ref != ""
    requires !(CellAt(w, p).value.value.Some? && CellAt(w, p).value.value.value in w.visited)
    ensures CellAt(w, p).value.value.None?
  {}

  lemma TargetMayStart<C, S>(l: Layout<C, S>, w: World<C, S>, aliases: set<C>, t: C)
    requires Knot(l, w, aliases) && t in w.cell
    ensures MayStart(w, aliases, Place<C, S>.Copied(w.cell[t]))
  {}

  lemma TargetIsNoAlias<C, S>(l: Layout<C, S>, w: World<C, S>, m: World<C, S>, aliases: set<C>, p: Place<C, S>)
    requires Knot(l, w, aliases) && MayStart(w, aliases, p) && Grows(w, m)
    requires CellAt(w, p).Some? && CellAt(w, p).value.ref in l.lookup && CellAt(w, p).value.ref != ""
    requires l.lookup[CellAt(w, p).value.ref] in w.cell
    requires Outside(l, w, aliases, Place<C, S>.Copied(w.cell[l.lookup[CellAt(w, p).value.ref]]))
    ensures l.lookup[CellAt(w, p).value.ref] !in aliases
    ensures p.Stored? ==> !RefersInto(l, w, aliases, p.c) && p.c !in aliases && !RefersInto(l, m, aliases, p.c)
    ensures p.Stored? ==> p.c in m.cell && m.cell[p.c].ref != ""
  {}

  /** The walk to an inline cell finds its schema. */
  lemma StoppedAtInline<C, S>(l: Layout<C, S>, walk: Walk<C>, w: World<C, S>, t: C)
    requires t in w.cell && Run(l, walk, w, Copied(w.cell[t])).Some?
    ensures w.cell[t].ref == "" ==> w.cell[t].value == Some(Run(l, walk, w, Copied(w.cell[t])).value.1)
  {}

  lemma ReferenceIsOutside<C, S>(l: Layout<C, S>, w: World<C, S>, aliases: set<C>, p: Place<C, S>, v: S)
    requires MayStart(w, aliases, p) && CellAt(w, p).Some? && CellAt(w, p).value.ref in l.lookup
    requires var t := l.lookup[CellAt(w, p).value.ref];
             t !in aliases && (t in w.cell && w.cell[t].ref == "" ==> w.cell[t].value == Some(v))
    requires !HoldsReference(l, w, aliases, v)
    ensures Outside(l, w, aliases, p)
  {
    hide HoldsReference;
  }

  /** An alias of the knot that is itself to be filled in. */
  lemma AliasNeverFinishes<C, S>(l: Layout<C, S>, walk: Walk<C>, w: World<C, S>, a: C, aliases: set<C>)
    requires Knot(l, w, aliases) && Untouched(l, w, aliases) && a in aliases
    ensures Run(l, walk, w, Stored(a)).None?
  {
    hide Knot, Run, RunSteps, HoldsReference, RefersInto;
    if Run(l, walk, w, Stored(a)).Some? {
      AliasIsTied(l, w, aliases, a);
      var m, v, n := ReferenceWalk(l, walk, w, Stored(a));
      var t := l.lookup[w.cell[a].ref];
      TargetMayStart(l, w, aliases, t);
      FinishedStaysOutside(l, walk.target, w, Copied(w.cell[t]), aliases);
      if t in aliases {
        AliasIsTied(l, w, aliases, t);
      } else {
        StoppedAtInline(l, walk.target, w, t);
      }
    }
  }

  lemma AliasIsTied<C, S>(l: Layout<C, S>, w: World<C, S>, aliases: set<C>, a: C)
    requires Knot(l, w, aliases) && a in aliases
    ensures a in w.cell && Tied(l, w, aliases, w.cell[a])
  {}

  /**
   In a document with a knot no series of walks that takes in one of its aliases finishes, in whatever order the
   cells come: the resolver does not return from them, or returns an error.
   */
  lemma {:induction false} KnotNeverResolves<C, S>(l: Layout<C, S>, steps: seq<Step<C>>, w: World<C, S>,
                                                   aliases: set<C>)
    requires Knot(l, w, aliases) && Untouched(l, w, aliases) && !(Places(steps) !! aliases)
    ensures RunSteps(l, steps, w).None?
    decreases |steps|
  {
    hide Knot, Run, Untouched, HoldsReference, Tied, RefersInto;
    if RunSteps(l, steps, w).Some? {
      var front, last := steps[..|steps| - 1], steps[|steps| - 1];
      assert forall s :: s in steps <==> s in front || s == last;
      var m := RunSteps(l, front, w).value;
      if Places(front) !! aliases {
        StepsStayOutside(l, front, w, aliases);
        var a :| a in Places(steps) && a in aliases;
        assert last.c == a;
        AliasNeverFinishes(l, last.walk, m, a, aliases);
      } else {
        KnotNeverResolves(l, front, w, aliases);
      }
    }
  }

  // A document has a rank or a knot

  /** A cell that some reference points to and that holds a reference itself. */
  ghost predicate Alias<C, S>(l: Layout<C, S>, w: World<C, S>, t: C) {
    t in l.lookup.Values && t in w.cell && w.cell[t].ref != ""
  }

  ghost predicate RefersTo<C, S>(l: Layout<C, S>, w: World<C, S>, d: C, a: C) {
    d in w.cell && w.cell[d].ref != "" && w.cell[d].ref in l.lookup && l.lookup[w.cell[d].ref] == a
  }

  /** Before the walk to a copy of alias `t` is over, the walk to a copy of alias `a` has to be. */
  ghost predicate WaitsFor<C, S>(l: Layout<C, S>, w: World<C, S>, t: C, a: C) {
    && Alias(l, w, t) && Alias(l, w, a) && w.cell[t].ref in l.lookup
    && var u := l.lookup[w.cell[t].ref];
       u == a ||
       (u in w.cell && w.cell[u].ref == "" && w.cell[u].value.Some? && w.cell[u].value.value in l.cells
        && exists d :: d in l.cells[w.cell[u].value.value] && RefersTo(l, w, d, a))
  }

  function AliasesOf<C, S>(l: Layout<C, S>, w: World<C, S>): set<C> {
    set t | t in l.lookup.Values && t in w.cell && w.cell[t].ref != ""
  }

  /** The aliases can be ranked so that each waits only for lower ones. */
  ghost predicate Ranked<C, S>(l: Layout<C, S>, w: World<C, S>, rank: map<C, nat>) {
    && AliasesOf(l, w) <= rank.Keys
    && forall t, a | t in AliasesOf(l, w) && a in AliasesOf(l, w) && WaitsFor(l, w, t, a) :: rank[a] < rank[t]
  }

  /** A finite relation either descends along a rank or has elements that each have a successor among them. */
  lemma {:induction false} RankOrCore<C>(nodes: set<C>, edges: set<(C, C)>) returns (rank: map<C, nat>, core: set<C>)
    ensures core <= nodes && forall a <- core :: exists b :: b in core && (a, b) in edges
    ensures core == {} ==> rank.Keys == nodes
    ensures core == {} ==> forall a, b | a in nodes && b in nodes && (a, b) in edges :: rank[b] < rank[a]
    decreases nodes
  {
    if forall a <- nodes :: exists b :: b in nodes && (a, b) in edges {
      rank, core := map[], nodes;
    } else {
      var sink :| sink in nodes && forall b <- nodes :: (sink, b) !in edges;
      var lower;
      lower, core := RankOrCore(nodes - {sink}, edges);
      rank := map[];
      if core == {} {
        rank := map a | a in nodes :: if a == sink then 0 else lower[a] + 1;
      }
    }
  }

  /** Nothing is filled in yet, and no cell of a schema that is pointed to has a reference itself. */
  ghost predicate Fresh<C, S>(l: Layout<C, S>, w: World<C, S>) {
    && (forall c <- w.cell :: w.cell[c].ref != "" ==> w.cell[c].value.None?)
    && (forall v <- l.cells :: l.cells[v] !! AliasesOf(l, w))
    && w.visited == {}
  }

  /** Of such a document either the aliases can be ranked, or some of them form a knot. */
  lemma RankOrKnot<C, S>(l: Layout<C, S>, w: World<C, S>) returns (rank: map<C, nat>, aliases: set<C>)
    requires Fresh(l, w)
    ensures aliases == {} ==> Ranked(l, w, rank)
    ensures aliases != {} ==> Knot(l, w, aliases) && Untouched(l, w, aliases) && aliases <= AliasesOf(l, w)
  {
    hide WaitsFor;
    var nodes := AliasesOf(l, w);
    ghost var edges := set t, a | t in nodes && a in nodes && WaitsFor(l, w, t, a) :: (t, a);
    rank, aliases := RankOrCore(nodes, edges);
    if aliases == {} {
      forall t, a | t in nodes && a in nodes && WaitsFor(l, w, t, a)
        ensures rank[a] < rank[t]
      {
        assert (t, a) in edges;
      }
    } else {
      forall a <- aliases
        ensures a in w.cell && Tied(l, w, aliases, w.cell[a])
      {
        var b :| b in aliases && (a, b) in edges;
        WaitingIsTied(l, w, aliases, a, b);
      }
      CoreIsKnot(l, w, aliases);
    }
  }

  lemma WaitingIsTied<C, S>(l: Layout<C, S>, w: World<C, S>, aliases: set<C>, a: C, b: C)
    requires Fresh(l, w) && WaitsFor(l, w, a, b) && b in aliases
    ensures a in w.cell && Tied(l, w, aliases, w.cell[a])
  {
    var u := l.lookup[w.cell[a].ref];
    if u != b {
      var v := w.cell[u].value.value;
      var d :| d in l.cells[v] && RefersTo(l, w, d, b);
      assert RefersInto(l, w, aliases, d);
    }
  }

  lemma CoreIsKnot<C, S>(l: Layout<C, S>, w: World<C, S>, aliases: set<C>)
    requires Fresh(l, w) && aliases <= AliasesOf(l, w)
    requires forall a <- aliases :: a in w.cell && Tied(l, w, aliases, w.cell[a])
    ensures Knot(l, w, aliases) && Untouched(l, w, aliases)
  {
    hide Tied;
  }

  /** Not both: along a knot the ranks would have to descend for ever. */
  lemma KnotHasNoRank<C, S>(l: Layout<C, S>, w: World<C, S>, rank: map<C, nat>, aliases: set<C>)
    requires Knot(l, w, aliases) && aliases != {} && aliases <= AliasesOf(l, w)
    ensures !Ranked(l, w, rank)
  {
    hide Knot;
    if Ranked(l, w, rank) {
      var a :| a in aliases;
      NoDescent(l, w, rank, aliases, a);
    }
  }

  lemma {:induction false} NoDescent<C, S>(l: Layout<C, S>, w: World<C, S>, rank: map<C, nat>, aliases: set<C>, a: C)
    requires Knot(l, w, aliases) && a in aliases && a in AliasesOf(l, w) && Ranked(l, w, rank)
    ensures false
    decreases rank[a]
  {
    hide Ranked;
    AliasIsTied(l, w, aliases, a);
    var t := l.lookup[w.cell[a].ref];
    var b := t;
    if t !in aliases {
      var v := w.cell[t].value.value;
      var d :| d in l.cells[v] && RefersInto(l, w, aliases, d);
      b := l.lookup[w.cell[d].ref];
      assert RefersTo(l, w, d, b);
    }
    AliasIsTied(l, w, aliases, b);
    assert WaitsFor(l, w, a, b);
    RankDescends(l, w, rank, a, b);
    NoDescent(l, w, rank, aliases, b);
  }

  lemma RankDescends<C, S>(l: Layout<C, S>, w: World<C, S>, rank: map<C, nat>, t: C, a: C)
    requires Ranked(l, w, rank) && WaitsFor(l, w, t, a)
    ensures a in AliasesOf(l, w) && t in rank && a in rank && rank[a] < rank[t]
  {}

  // Documents with aliases beside the schemas

  /**
   A recursive schema, 10, whose one cell, 1, refers to it through an alias: cell 1 points to cell 2, and cell 2
   to the inline cell 0.
   */
  const CHAIN: Layout<nat, nat> :=
    Layout(map["#/components/schemas/Tree" := 0, "#/components/schemas/Alias" := 2], map[10 := {1}])

  const UNFILLED: World<nat, nat> := World(
    map[0 := Cell("", Some(10)), 1 := Cell("#/components/schemas/Alias", None),
        2 := Cell("#/components/schemas/Tree", None)], {})

  /** It is a knot of a single alias, so no order of its components is ever resolved. */
  lemma RecursionThroughAnAliasDiverges(steps: seq<Step<nat>>)
    requires Places(steps) == {0, 2}
    ensures RunSteps(CHAIN, steps, UNFILLED).None?
  {
    var d: nat := 1;
    assert d in CHAIN.cells[10] && RefersInto(CHAIN, UNFILLED, {2}, d);
    assert HoldsReference(CHAIN, UNFILLED, {2}, 10);
    assert Knot(CHAIN, UNFILLED, {2}) && 2 in Places(steps);
    KnotNeverResolves(CHAIN, steps, UNFILLED, {2});
  }

  /** An alias of an alias of a schema without cells is resolved. */
  lemma AliasOfAliasResolves() returns (walk: Walk<nat>, n: World<nat, nat>)
    ensures var l := Layout(CHAIN.lookup["#/components/schemas/Again" := 3], map[10 := {}]);
            var w := UNFILLED.(cell := UNFILLED.cell[3 := Cell("#/components/schemas/Alias", None)]);
            Run(l, walk, w, Stored(3)) == Some((n, 10)) && 3 in n.cell && n.cell[3].value == Some(10)
  {
    var l: Layout<nat, nat> := Layout(CHAIN.lookup["#/components/schemas/Again" := 3], map[10 := {}]);
    var w: World<nat, nat> := UNFILLED.(cell := UNFILLED.cell[3 := Cell("#/components/schemas/Alias", None)]);
    var inline, alias := Walk.Walk(Stop, []), Walk.Walk(Walk.Walk(Stop, []), []);
    var m := w.(visited := {10});
    assert Visit(w, Some(10)) == m && Places<nat>([]) == {};
    assert Run(l, inline, w, Copied(w.cell[0])) == Some((m, 10));
    assert Run(l, alias, w, Copied(w.cell[2])) == Some((m, 10));
    walk, n := Walk.Walk(alias, []), Filled(m, Stored(3), 10);
  }

  // An alias inside a schema

  /** Whenever the walk comes to the cells of a schema that has any, it takes this one first. */
  predicate TakesFirst<C(==)>(walk: Walk<C>, first: C) {
    walk.Walk? ==>
      && TakesFirst(walk.target, first)
      && (walk.below != [] ==> walk.below[0].c == first)
      && forall s <- walk.below :: TakesFirst(s.walk, first)
  }

  /**
   A schema, 10, with two cells that have references: cell 1 points to the schema itself, that is to the inline
   cell 0, and cell 2 points to cell 1.
   */
  const NESTED: Layout<nat, nat> :=
    Layout(map["#/components/schemas/Tree" := 0, "#/components/schemas/Tree/properties/one" := 1], map[10 := {1, 2}])

  const NESTED_CELLS: World<nat, nat> := World(
    map[0 := Cell("", Some(10)), 1 := Cell("#/components/schemas/Tree", None),
        2 := Cell("#/components/schemas/Tree/properties/one", None)], {})

  /** It is resolved if cell 1 always comes first: the walk finds cell 1 filled in when it comes to cell 2. */
  lemma AliasInSchemaResolves() returns (walk: Walk<nat>, n: World<nat, nat>)
    ensures TakesFirst(walk, 1)
    ensures Run(NESTED, walk, NESTED_CELLS, Stored(0)) == Some((n, 10))
    ensures 1 in n.cell && n.cell[1].value == Some(10) && 2 in n.cell && n.cell[2].value == Some(10)
  {
    var tree := "#/components/schemas/Tree";
    var w := Visit(NESTED_CELLS, Some(10));
    var m := Filled(w, Stored(1), 10);
    n := Filled(m, Stored(2), 10);
    var known := [Step(1, Stop), Step(2, Stop)];
    StepsOverTwo(n, n, n, known);
    RunStops(NESTED, m, Copied(m.cell[1]), 10);
    var two := Walk.Walk(Stop, known);
    RunReference(NESTED, Stop, known, m, Stored(2), (m, 10));
    var below := [Step(1, Stop), Step(2, two)];
    StepsOverTwo(m, m, n, below);
    RunStops(NESTED, w, Copied(w.cell[0]), 10);
    var one := Walk.Walk(Stop, below);
    RunReference(NESTED, Stop, below, w, Stored(1), (w, 10));
    var all := [Step(1, one), Step(2, Stop)];
    StepsOverTwo(w, n, n, all);
    RunInline(NESTED, all, NESTED_CELLS, Stored(0), 10);
    walk := Walk.Walk(Stop, all);
  }

  lemma StepsOverTwo(w: World<nat, nat>, m: World<nat, nat>, n: World<nat, nat>, steps: seq<Step<nat>>)
    requires |steps| == 2 && steps[0].c == 1 && steps[1].c == 2
    requires RunStep(NESTED, steps[0], w) == Some(m) && RunStep(NESTED, steps[1], m) == Some(n)
    ensures RunBelow(NESTED, steps, w, 10) == Some((n, 10))
  {
    hide Run, RunStep;
    assert steps[..1] == [steps[0]] && steps[..1][..0] == [];
    assert steps[0] in steps && steps[1] in steps;
    assert RunSteps(NESTED, steps[..1], w) == Some(m);
  }

  lemma {:induction false} NothingAfterFailure<C, S>(l: Layout<C, S>, steps: seq<Step<C>>, w: World<C, S>)
    requires steps != [] && RunStep(l, steps[0], w).None?
    ensures RunSteps(l, steps, w).None?
  {
    hide RunStep;
    if |steps| > 1 {
      NothingAfterFailure(l, steps[..|steps| - 1], w);
    } else {
      assert steps[..0] == [];
    }
  }

  lemma {:induction false} CellTwoNeverEnds(walk: Walk<nat>, w: World<nat, nat>)
    requires TakesFirst(walk, 2) && w == Visit(NESTED_CELLS, Some(10))
    ensures Run(NESTED, walk, w, Stored(2)).None?
    decreases walk
  {
    if walk.Walk? {
      if walk.target.Walk? {
        BelowNeverEnds(walk.target.below, w);
      }
      CopyOfOneNeverEnds(walk.target, w);
      assert RunTarget(NESTED, walk.target, w, w.cell[2].ref) == Run(NESTED, walk.target, w, Copied(w.cell[1]));
    }
  }

  lemma {:induction false} BelowNeverEnds(below: seq<Step<nat>>, w: World<nat, nat>)
    requires w == Visit(NESTED_CELLS, Some(10)) && (below != [] ==> below[0].c == 2)
    requires forall s <- below :: TakesFirst(s.walk, 2)
    ensures RunBelow(NESTED, below, w, 10).None?
    decreases below
  {
    if Places(below) == {1, 2} {
      assert below != [] by { assert 1 in Places(below); }
      assert below[0] in below;
      StepTwoNeverEnds(below[0], w);
      NothingAfterFailure(NESTED, below, w);
    }
  }

  lemma {:induction false} StepTwoNeverEnds(s: Step<nat>, w: World<nat, nat>)
    requires s.c == 2 && TakesFirst(s.walk, 2) && w == Visit(NESTED_CELLS, Some(10))
    ensures RunStep(NESTED, s, w).None?
    decreases s
  {
    CellTwoNeverEnds(s.walk, w);
  }

  /** The copy of cell 1 finds the schema under way, and goes over its cells once more. */
  lemma CopyOfOneNeverEnds(walk: Walk<nat>, w: World<nat, nat>)
    requires w == Visit(NESTED_CELLS, Some(10))
    requires walk.Walk? ==> RunBelow(NESTED, walk.below, w, 10).None?
    ensures Run(NESTED, walk, w, Copied(w.cell[1])).None?
  {
    hide RunBelow;
    if walk.Walk? {
      assert RunTarget(NESTED, walk.target, w, w.cell[1].ref) == Run(NESTED, walk.target, w, Copied(w.cell[0]));
    }
  }

  /**
   It is never resolved if cell 2 always comes first: cell 1 is not filled in yet, and the walk to a copy of it
   comes to cell 2 again. So for an alias inside a schema it is the order of the cells that decides.
   */
  lemma AliasInSchemaDiverges(walk: Walk<nat>)
    requires TakesFirst(walk, 2)
    ensures Run(NESTED, walk, NESTED_CELLS, Stored(0)).None?
  {
    var w := Visit(NESTED_CELLS, Some(10));
    if walk.Walk? {
      BelowNeverEnds(walk.below, w);
    }
  }
}
