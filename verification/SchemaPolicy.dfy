/** schemaUsesTopLevelComponent: the depth-first search of the OpenAPI policy tests over $ref and
    allOf, with one visited set shared by the whole recursion. */
module SchemaPolicy {
  import opened Common

  /** A schema reference is a heap cell; its address is what the visited set remembers. */
  type Ref = nat

  /** A cell: the text of its $ref and, when a schema is attached, the cells of its allOf. A nil
      pointer is None. */
  datatype Cell = Cell(ref: string, schema: Option<seq<Option<Ref>>>)

  /** The document: the heap, and components.schemas when every object on the way is present. */
  datatype Doc = Doc(heap: map<Ref, Cell>, components: Option<map<string, Option<Ref>>>)

  const PREFIX := "#/components/schemas/"

  predicate Points(heap: map<Ref, Cell>, p: Option<Ref>) { p.Some? ==> p.value in heap }

  /** Pointers lead to cells. */
  ghost predicate WellFormed(doc: Doc) {
    && (forall r :: r in doc.heap && doc.heap[r].schema.Some? ==>
          forall i :: 0 <= i < |doc.heap[r].schema.value| ==> Points(doc.heap, doc.heap[r].schema.value[i]))
    && (doc.components.Some? ==>
          forall name :: name in doc.components.value ==> Points(doc.heap, doc.components.value[name]))
  }

  predicate Hit(doc: Doc, r: Ref, target: string)
    requires r in doc.heap
  {
    doc.heap[r].ref == PREFIX + target
  }

  function CutPrefix(s: string): (name: Option<string>)
    ensures name.Some? <==> exists n :: s == PREFIX + n
    ensures name.Some? ==> s == PREFIX + name.value
  {
    if PREFIX <= s then
      assert s == PREFIX + s[|PREFIX|..];
      Some(s[|PREFIX|..])
    else None
  }

  /** A $ref edge: the cell names a component, and the component is there. */
  ghost predicate RefEdge(doc: Doc, a: Ref, b: Ref) {
    a in doc.heap && doc.components.Some? &&
    exists name :: doc.heap[a].ref == PREFIX + name && name in doc.components.value
                   && doc.components.value[name] == Some(b)
  }

  /** An allOf edge. A cell that names a component of a document without components has none:
      the search gives up on it. */
  ghost predicate AllOfEdge(doc: Doc, a: Ref, b: Ref) {
    && a in doc.heap && (doc.components.Some? || CutPrefix(doc.heap[a].ref).None?)
    && doc.heap[a].schema.Some? && Some(b) in doc.heap[a].schema.value
  }

  ghost predicate Edge(doc: Doc, a: Ref, b: Ref) { RefEdge(doc, a, b) || AllOfEdge(doc, a, b) }

  /** A walk along edges that meets no cell of `avoid` before its last one. */
  ghost predicate Walk(doc: Doc, avoid: set<Ref>, w: seq<Ref>) {
    && w != [] && (forall i :: 0 <= i < |w| ==> w[i] in doc.heap)
    && forall i :: 0 <= i < |w| - 1 ==> Edge(doc, w[i], w[i + 1]) && w[i] !in avoid
  }

  /** A cell that is the target reference can be reached from r, avoiding `avoid`. */
  ghost predicate Reaches(doc: Doc, target: string, avoid: set<Ref>, r: Ref) {
    exists w :: Walk(doc, avoid, w) && w[0] == r && Hit(doc, Last(w), target)
  }

  class Visited {
    var marked: set<Ref>

    constructor ()
      ensures marked == {}
    {
      marked := {};
    }
  }

  /** What a search that found nothing leaves behind: everything it newly marked is no hit, and all
      edges out of it lead to marked cells that are no hits. */
  ghost predicate Closed(doc: Doc, target: string, before: set<Ref>, after: set<Ref>) {
    forall a :: a in after - before ==> a in doc.heap && !Hit(doc, a, target) && Explored(doc, target, after, a)
  }

  ghost predicate Explored(doc: Doc, target: string, after: set<Ref>, a: Ref) {
    forall b :: Edge(doc, a, b) ==> b in after && b in doc.heap && !Hit(doc, b, target)
  }

  lemma EdgeStays(doc: Doc, a: Ref, b: Ref)
    requires WellFormed(doc) && Edge(doc, a, b)
    ensures b in doc.heap
  {
    if AllOfEdge(doc, a, b) {
      var kids := doc.heap[a].schema.value;
      var i :| 0 <= i < |kids| && kids[i] == Some(b);
    }
  }

  lemma {:induction false} ClosedStops(doc: Doc, target: string, before: set<Ref>, after: set<Ref>, w: seq<Ref>)
    requires Closed(doc, target, before, after) && Walk(doc, before, w)
    requires w[0] in after - before
    ensures !Hit(doc, Last(w), target)
    decreases |w|
  {
    if |w| > 1 {
      assert Edge(doc, w[0], w[1]) && Explored(doc, target, after, w[0]);
      var rest := w[1..];
      assert forall i :: 0 <= i < |rest| - 1 ==> Edge(doc, w[i + 1], w[i + 2]) && rest[i] == w[i + 1];
      if |rest| > 1 {
        ClosedStops(doc, target, before, after, rest);
      }
    }
  }

  lemma StepReaches(doc: Doc, target: string, avoid: set<Ref>, smaller: set<Ref>, a: Ref, b: Ref)
    requires a in doc.heap && a !in smaller && Edge(doc, a, b) && smaller <= avoid && Reaches(doc, target, avoid, b)
    ensures Reaches(doc, target, smaller, a)
  {
    var w :| Walk(doc, avoid, w) && w[0] == b && Hit(doc, Last(w), target);
    var v := [a] + w;
    assert forall i :: 0 < i < |v| ==> v[i] == w[i - 1];
    assert Last(v) == Last(w);
    assert Walk(doc, smaller, v);
  }

  lemma HitReaches(doc: Doc, target: string, avoid: set<Ref>, a: Ref)
    requires a in doc.heap && Hit(doc, a, target)
    ensures Reaches(doc, target, avoid, a)
  {
    assert Walk(doc, avoid, [a]) && Last([a]) == a;
  }

  lemma MarkedDoesNotReach(doc: Doc, target: string, avoid: set<Ref>, a: Ref)
    requires a in doc.heap && !Hit(doc, a, target) && a in avoid
    ensures !Reaches(doc, target, avoid, a)
  {
    forall w | Walk(doc, avoid, w) && w[0] == a
      ensures !Hit(doc, Last(w), target)
    {
      if |w| > 1 {
        assert false;
      }
    }
  }

  lemma ClosedDoesNotReach(doc: Doc, target: string, before: set<Ref>, after: set<Ref>, a: Ref)
    requires Closed(doc, target, before, after) && a in after - before
    ensures !Reaches(doc, target, before, a)
  {
    forall w | Walk(doc, before, w) && w[0] == a
      ensures !Hit(doc, Last(w), target)
    {
      ClosedStops(doc, target, before, after, w);
    }
  }

  lemma ClosedGrows(doc: Doc, target: string, v0: set<Ref>, v1: set<Ref>, v2: set<Ref>)
    requires v0 <= v1 <= v2
    requires Closed(doc, target, v0, v1) && Closed(doc, target, v1, v2)
    ensures Closed(doc, target, v0, v2)
  {
    forall a | a in v2 - v0
      ensures a in doc.heap && !Hit(doc, a, target) && Explored(doc, target, v2, a)
    {
      if a in v1 {
        assert a in v1 - v0 && Explored(doc, target, v1, a);
      } else {
        assert a in v2 - v1;
      }
    }
  }

  /** Any call answers true exactly when the target can be reached without passing through a cell
      that was marked before the call; so an inner call may miss a target that is reachable. */
  method Search(doc: Doc, p: Option<Ref>, target: string, visited: Visited) returns (found: bool)
    requires WellFormed(doc) && Points(doc.heap, p) && visited.marked <= doc.heap.Keys
    modifies visited
    ensures old(visited.marked) <= visited.marked <= doc.heap.Keys
    ensures found <==> p.Some? && Reaches(doc, target, old(visited.marked), p.value)
    ensures !found ==> Closed(doc, target, old(visited.marked), visited.marked)
    ensures !found && p.Some? ==> p.value in visited.marked && !Hit(doc, p.value, target)
    decreases |doc.heap.Keys - visited.marked|, 0
  {
    if p.None? {
      return false;
    }
    var r := p.value;
    if Hit(doc, r, target) {
      HitReaches(doc, target, visited.marked, r);
      return true;
    }
    ghost var v0 := visited.marked;
    if r in visited.marked {
      MarkedDoesNotReach(doc, target, v0, r);
      return false;
    }
    visited.marked := visited.marked + {r};
    ghost var v1 := visited.marked;
    assert doc.heap.Keys - v1 < doc.heap.Keys - v0;
    SubsetSmaller(doc.heap.Keys - v1, doc.heap.Keys - v0);
    var cell := doc.heap[r];
    var name := CutPrefix(cell.ref);
    if name.Some? {
      if doc.components.None? {
        assert forall b :: !Edge(doc, r, b);
        ClosedDoesNotReach(doc, target, v0, v1, r);
        return false;
      }
      if name.value in doc.components.value && doc.components.value[name.value].Some? {
        var component := doc.components.value[name.value];
        found := Search(doc, component, target, visited);
        assert RefEdge(doc, r, component.value);
        if found {
          StepReaches(doc, target, v1, v0, r, component.value);
          return true;
        }
      }
    }
    assert forall b :: RefEdge(doc, r, b) ==> b in visited.marked && !Hit(doc, b, target);
    if cell.schema.None? {
      FinishClosed(doc, target, v0, v1, visited.marked, r);
      return false;
    }
    ghost var v2 := visited.marked;
    SubsetSmaller(doc.heap.Keys - v2, doc.heap.Keys - v0);
    var hit := SearchKids(doc, cell.schema.value, target, visited);
    if hit.Some? {
      StepReaches(doc, target, v2, v0, r, hit.value);
      return true;
    }
    ClosedGrows(doc, target, v1, v2, visited.marked);
    FinishClosed(doc, target, v0, v1, visited.marked, r);
    found := false;
  }

  /** The loop over the allOf cells; hit is the first one from which the target was found. */
  method SearchKids(doc: Doc, kids: seq<Option<Ref>>, target: string, visited: Visited) returns (hit: Option<Ref>)
    requires WellFormed(doc) && visited.marked <= doc.heap.Keys
    requires forall i :: 0 <= i < |kids| ==> Points(doc.heap, kids[i])
    modifies visited
    ensures old(visited.marked) <= visited.marked <= doc.heap.Keys
    ensures hit.Some? ==> hit in kids && Reaches(doc, target, old(visited.marked), hit.value)
    ensures hit.None? ==> Closed(doc, target, old(visited.marked), visited.marked)
    ensures hit.None? ==>
              forall j :: 0 <= j < |kids| && kids[j].Some? ==>
                kids[j].value in visited.marked && !Hit(doc, kids[j].value, target)
    decreases |doc.heap.Keys - visited.marked|, 1
  {
    ghost var v0 := visited.marked;
    for i := 0 to |kids|
      invariant v0 <= visited.marked <= doc.heap.Keys
      invariant Closed(doc, target, v0, visited.marked)
      invariant forall j :: 0 <= j < i && kids[j].Some? ==>
                  kids[j].value in visited.marked && !Hit(doc, kids[j].value, target)
    {
      ghost var v1 := visited.marked;
      FewerLeft(doc.heap.Keys, v0, v1);
      var found := Search(doc, kids[i], target, visited);
      if found {
        ReachesAvoidingLess(doc, target, v1, v0, kids[i].value);
        return kids[i];
      }
      ClosedGrows(doc, target, v0, v1, visited.marked);
    }
    hit := None;
  }

  lemma FewerLeft(all: set<Ref>, v0: set<Ref>, v1: set<Ref>)
    requires v0 <= v1
    ensures |all - v1| <= |all - v0|
  {
    assert all - v0 == (all - v1) + (all * (v1 - v0));
  }

  lemma ReachesAvoidingLess(doc: Doc, target: string, avoid: set<Ref>, smaller: set<Ref>, a: Ref)
    requires smaller <= avoid && Reaches(doc, target, avoid, a)
    ensures Reaches(doc, target, smaller, a)
  {
    var w :| Walk(doc, avoid, w) && w[0] == a && Hit(doc, Last(w), target);
    assert Walk(doc, smaller, w);
  }

  lemma SubsetSmaller(a: set<Ref>, b: set<Ref>)
    requires a < b
    ensures |a| < |b|
  {
    assert b == a + (b - a) && b - a != {};
  }

  lemma FinishClosed(doc: Doc, target: string, v0: set<Ref>, v1: set<Ref>, after: set<Ref>, r: Ref)
    requires WellFormed(doc) && r in doc.heap && !Hit(doc, r, target) && r !in v0 && v1 == v0 + {r} && v1 <= after
    requires Closed(doc, target, v1, after)
    requires forall b :: Edge(doc, r, b) ==> b in after && !Hit(doc, b, target)
    ensures Closed(doc, target, v0, after) && !Reaches(doc, target, v0, r)
  {
    forall b | Edge(doc, r, b)
      ensures b in doc.heap
    {
      EdgeStays(doc, r, b);
    }
    assert Explored(doc, target, after, r);
    ClosedDoesNotReach(doc, target, v0, after, r);
  }

  /** The root call, with an empty visited set, is exact. */
  method UsesTopLevelComponent(doc: Doc, p: Option<Ref>, target: string) returns (found: bool)
    requires WellFormed(doc) && Points(doc.heap, p)
    ensures found <==> p.Some? && Reaches(doc, target, {}, p.value)
  {
    var visited := new Visited();
    found := Search(doc, p, target, visited);
  }

  // Plain reachability, and when the search decides it.

  /** A resolved reference or an allOf child, with nothing given up on. */
  ghost predicate PlainEdge(doc: Doc, a: Ref, b: Ref) {
    RefEdge(doc, a, b) || (a in doc.heap && doc.heap[a].schema.Some? && Some(b) in doc.heap[a].schema.value)
  }

  ghost predicate PlainWalk(doc: Doc, w: seq<Ref>) {
    && w != [] && (forall i :: 0 <= i < |w| ==> w[i] in doc.heap)
    && forall i :: 0 <= i < |w| - 1 ==> PlainEdge(doc, w[i], w[i + 1])
  }

  ghost predicate PlainReaches(doc: Doc, target: string, r: Ref) {
    exists w :: PlainWalk(doc, w) && w[0] == r && Hit(doc, Last(w), target)
  }

  predicate Refers(doc: Doc, a: Ref) { a in doc.heap && CutPrefix(doc.heap[a].ref).Some? }

  /** Below no cell that refers to a component is there a cell that refers to another one. */
  ghost predicate NothingBelowReferences(doc: Doc) {
    forall w :: PlainWalk(doc, w) && Refers(doc, w[0]) && Refers(doc, Last(w)) ==>
      doc.heap[w[0]].ref == doc.heap[Last(w)].ref
  }

  /** The search follows a plain walk up to the first cell that refers to a component; and to its end
      when components are present. */
  lemma {:induction false} FollowsWalk(doc: Doc, target: string, w: seq<Ref>)
    requires PlainWalk(doc, w) && Hit(doc, Last(w), target)
    requires doc.components.Some? || NothingBelowReferences(doc)
    ensures Reaches(doc, target, {}, w[0])
    decreases |w|
  {
    assert doc.heap[Last(w)].ref == PREFIX + target;
    if Hit(doc, w[0], target) {
      HitReaches(doc, target, {}, w[0]);
    } else {
      assert Refers(doc, Last(w));
      var rest := w[1..];
      assert PlainWalk(doc, rest) by {
        assert forall i :: 0 <= i < |rest| - 1 ==> PlainEdge(doc, w[i + 1], w[i + 2]) && rest[i] == w[i + 1];
      }
      FollowsWalk(doc, target, rest);
      assert PlainEdge(doc, w[0], w[1]);
      assert Edge(doc, w[0], w[1]);
      StepReaches(doc, target, {}, {}, w[0], w[1]);
    }
  }

  lemma ReachesPlainly(doc: Doc, target: string, r: Ref)
    requires Reaches(doc, target, {}, r)
    ensures PlainReaches(doc, target, r)
  {
    var w :| Walk(doc, {}, w) && w[0] == r && Hit(doc, Last(w), target);
    assert forall i :: 0 <= i < |w| - 1 ==> Edge(doc, w[i], w[i + 1]) && PlainEdge(doc, w[i], w[i + 1]);
    assert PlainWalk(doc, w);
  }

  /** The root call decides plain reachability for every cell and target exactly when components are
      present or no cell that refers to a component leads on to a reference to another one. */
  lemma PlainExactly(doc: Doc)
    ensures (forall r, target :: Reaches(doc, target, {}, r) <==> PlainReaches(doc, target, r))
            <==> doc.components.Some? || NothingBelowReferences(doc)
  {
    if doc.components.Some? || NothingBelowReferences(doc) {
      forall r, target
        ensures Reaches(doc, target, {}, r) <==> PlainReaches(doc, target, r)
      {
        if PlainReaches(doc, target, r) {
          var w :| PlainWalk(doc, w) && w[0] == r && Hit(doc, Last(w), target);
          FollowsWalk(doc, target, w);
        } else if Reaches(doc, target, {}, r) {
          ReachesPlainly(doc, target, r);
        }
      }
    } else {
      var w :| PlainWalk(doc, w) && Refers(doc, w[0]) && Refers(doc, Last(w))
        && doc.heap[w[0]].ref != doc.heap[Last(w)].ref;
      var target := CutPrefix(doc.heap[Last(w)].ref).value;
      assert Hit(doc, Last(w), target) && PlainReaches(doc, target, w[0]);
      GivesUp(doc, target, w[0]);
    }
  }

  /** Without components the search goes no further than a cell that refers to one. */
  lemma GivesUp(doc: Doc, target: string, r: Ref)
    requires doc.components.None? && Refers(doc, r) && !Hit(doc, r, target)
    ensures !Reaches(doc, target, {}, r)
  {
    forall w | Walk(doc, {}, w) && w[0] == r
      ensures !Hit(doc, Last(w), target)
    {
      if |w| > 1 {
        FirstStep(doc, w);
        assert false;
      }
    }
  }

  lemma FirstStep(doc: Doc, w: seq<Ref>)
    requires Walk(doc, {}, w) && |w| > 1
    ensures Edge(doc, w[0], w[1])
  {
  }

  /** The edges and the goal of the search, in the document's own terms. With components present the edges are
      exactly resolved references and allOf children; without, only the allOf children of cells that name no
      component. */
  lemma EdgesExactly(doc: Doc, a: Ref, b: Ref, target: string)
    requires a in doc.heap
    ensures var cell, prefix := doc.heap[a], "#/components/schemas/";
            && (Hit(doc, a, target) <==> cell.ref == "#/components/schemas/" + target)
            && (Edge(doc, a, b) <==>
                  || (doc.components.Some? && prefix <= cell.ref && cell.ref[|prefix|..] in doc.components.value
                      && doc.components.value[cell.ref[|prefix|..]] == Some(b))
                  || (cell.schema.Some? && Some(b) in cell.schema.value
                      && (doc.components.Some? || !(prefix <= cell.ref))))
  {
    var cell, prefix := doc.heap[a], "#/components/schemas/";
    if RefEdge(doc, a, b) {
      var name :| cell.ref == PREFIX + name && name in doc.components.value && doc.components.value[name] == Some(b);
      assert name == cell.ref[|prefix|..];
    }
    if prefix <= cell.ref {
      assert cell.ref == PREFIX + cell.ref[|prefix|..];
    }
  }

  /** An inner call can be wrong: from a marked cell the target is reachable, yet not avoiding it. */
  lemma InnerCallMayMiss(doc: Doc, target: string)
    requires doc.heap == map[0 := Cell("", Some([Some(1)])), 1 := Cell(PREFIX + target, None)]
    ensures Reaches(doc, target, {}, 0) && !Reaches(doc, target, {0}, 0)
  {
    assert PREFIX + target != "";
    assert CutPrefix("").None?;
    assert Some(1 as Ref) in [Some(1 as Ref)];
    assert AllOfEdge(doc, 0, 1);
    HitReaches(doc, target, {0}, 1);
    StepReaches(doc, target, {0}, {}, 0, 1);
    MarkedDoesNotReach(doc, target, {0}, 0);
  }
}
