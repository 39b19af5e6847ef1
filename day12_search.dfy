/** Day 12: hill climbing, the search. `shortest_path` is a best-first
    search from a start location: it keeps a table of the locations seen so
    far (how each was first reached and at what distance) and an ordered
    set of open entries, always expanding the entry of least total cost
    (distance so far plus the estimated cost to the end). The estimate is a
    floating-point straight-line distance in the program; here it is a
    parameter, any function of the location, and totals are exact reals. */
module HillSearch {
  import opened Common
  import opened Heightmap

  /** `Node`: how a location was first reached. */
  datatype Node = Node(loc: Vector2, parentLoc: Vector2, distToStart: nat, costToEnd: real)

  /** `Node::total_cost`. */
  function TotalCost(n: Node): real
  {
    n.distToStart as real + n.costToEnd
  }

  /** `OpenNode`: an entry of the open set. */
  datatype OpenNode = OpenNode(loc: Vector2, totalCost: real)

  // ---------------------------------------------------------------------
  // The order of the open set

  /** The derived `Ord` of `Vector2`: by x, then by y. */
  predicate LocLessEq(a: Vector2, b: Vector2)
  {
    a.x < b.x || (a.x == b.x && a.y <= b.y)
  }

  /** `Ord for OpenNode`: by total cost, then by location. */
  predicate Precedes(a: OpenNode, b: OpenNode)
  {
    a.totalCost < b.totalCost || (a.totalCost == b.totalCost && LocLessEq(a.loc, b.loc))
  }

  /** The order is a total order, so the open set has a first entry. */
  lemma PrecedesIsTotalOrder(a: OpenNode, b: OpenNode, c: OpenNode)
    ensures Precedes(a, a)
    ensures Precedes(a, b) || Precedes(b, a)
    ensures Precedes(a, b) && Precedes(b, a) ==> a == b
    ensures Precedes(a, b) && Precedes(b, c) ==> Precedes(a, c)
  {
  }

  predicate IsFirst(first: OpenNode, s: set<OpenNode>)
  {
    first in s && forall o :: o in s ==> Precedes(first, o)
  }

  /** `BTreeSet::pop_first` has an entry to take from a non-empty set. */
  lemma {:induction false} FirstExists(s: set<OpenNode>)
    requires s != {}
    ensures exists first :: IsFirst(first, s)
  {
    var x :| x in s;
    if s != {x} {
      FirstExists(s - {x});
      var f :| IsFirst(f, s - {x});
      if Precedes(x, f) {
        forall o | o in s ensures Precedes(x, o)
        {
          PrecedesIsTotalOrder(x, f, o);
        }
        assert IsFirst(x, s);
      } else {
        PrecedesIsTotalOrder(f, x, f);
        assert IsFirst(f, s);
      }
    } else {
      PrecedesIsTotalOrder(x, x, x);
      assert IsFirst(x, s);
    }
  }

  // ---------------------------------------------------------------------
  // Walks on the map

  /** A walk: every step is one `neighbours` allows. */
  predicate IsWalk(m: Map, p: seq<Vector2>)
  {
    |p| >= 1 && forall i :: 0 <= i < |p| - 1 ==> CanStep(m, p[i], p[i + 1])
  }

  /** A walk of `d` steps from `a` to `b`. */
  predicate WalkOf(m: Map, p: seq<Vector2>, a: Vector2, b: Vector2, d: nat)
  {
    IsWalk(m, p) && p[0] == a && p[|p| - 1] == b && |p| == d + 1
  }

  lemma WalkExtend(m: Map, p: seq<Vector2>, a: Vector2, b: Vector2, d: nat, n: Vector2)
    requires WalkOf(m, p, a, b, d) && CanStep(m, b, n)
    ensures WalkOf(m, p + [n], a, n, d + 1)
  {
  }

  // ---------------------------------------------------------------------
  // What the search keeps true

  /** The node table: the start is recorded at distance 0; every other
      location recorded is inside the map; every entry records its own
      location and its estimate, and a distance below the table's size
      that some walk from the start (`paths` holds one) actually has. */
  ghost predicate Recorded(m: Map, start: Vector2, costToEnd: Vector2 -> real,
                           nodes: map<Vector2, Node>, paths: map<Vector2, seq<Vector2>>)
  {
    start in nodes && nodes[start].distToStart == 0
    && forall l :: l in nodes ==>
         nodes[l].loc == l && nodes[l].costToEnd == costToEnd(l) && nodes[l].distToStart < |nodes|
         && (l == start || IsValidLoc(m, l))
         && l in paths && WalkOf(m, paths[l], start, l, nodes[l].distToStart)
  }

  ghost predicate HasEntry(open: set<OpenNode>, l: Vector2)
  {
    exists t :: OpenNode(l, t) in open
  }

  /** Every location one may step onto from `l` has been recorded. */
  ghost predicate Expanded(m: Map, nodes: map<Vector2, Node>, l: Vector2)
  {
    forall n :: CanStep(m, l, n) ==> n in nodes
  }

  /** Every open entry is a recorded location, and every recorded location
      still has an open entry, is being expanded (`pending`), or has been
      expanded and is not the end. */
  ghost predicate Frontier(m: Map, nodes: map<Vector2, Node>, open: set<OpenNode>, pending: set<Vector2>)
  {
    (forall o :: o in open ==> o.loc in nodes)
    && forall l :: l in nodes ==> HasEntry(open, l) || l in pending || (l != m.end && Expanded(m, nodes, l))
  }

  lemma RecordNeighbour(m: Map, start: Vector2, costToEnd: Vector2 -> real,
                        nodes: map<Vector2, Node>, paths: map<Vector2, seq<Vector2>>, w: Vector2, n: Vector2)
    requires Recorded(m, start, costToEnd, nodes, paths)
    requires w in nodes && CanStep(m, w, n) && n !in nodes
    ensures Recorded(m, start, costToEnd, nodes[n := Node(n, w, nodes[w].distToStart + 1, costToEnd(n))],
                     paths[n := paths[w] + [n]])
  {
    var nodes' := nodes[n := Node(n, w, nodes[w].distToStart + 1, costToEnd(n))];
    assert |nodes'| == |nodes| + 1 by {
      assert nodes'.Keys == nodes.Keys + {n};
    }
    WalkExtend(m, paths[w], start, w, nodes[w].distToStart, n);
  }

  lemma AddEntry(m: Map, nodes: map<Vector2, Node>, open: set<OpenNode>, pending: set<Vector2>,
                 n: Vector2, node: Node, t: real)
    requires Frontier(m, nodes, open, pending) && n !in nodes
    ensures Frontier(m, nodes[n := node], open + {OpenNode(n, t)}, pending)
  {
    var nodes' := nodes[n := node];
    var open' := open + {OpenNode(n, t)};
    forall l | l in nodes'
      ensures HasEntry(open', l) || l in pending || (l != m.end && Expanded(m, nodes', l))
    {
      if l == n {
        assert OpenNode(n, t) in open';
      } else if HasEntry(open, l) {
        var u :| OpenNode(l, u) in open;
        assert OpenNode(l, u) in open';
      }
    }
  }

  lemma ReplaceEntry(m: Map, nodes: map<Vector2, Node>, open: set<OpenNode>, pending: set<Vector2>,
                     n: Vector2, stale: real, t: real)
    requires Frontier(m, nodes, open, pending) && n in nodes
    ensures Frontier(m, nodes, (open - {OpenNode(n, stale)}) + {OpenNode(n, t)}, pending)
  {
    var open' := (open - {OpenNode(n, stale)}) + {OpenNode(n, t)};
    forall l | l in nodes
      ensures HasEntry(open', l) || l in pending || (l != m.end && Expanded(m, nodes, l))
    {
      if l == n {
        assert OpenNode(n, t) in open';
      } else if HasEntry(open, l) {
        var u :| OpenNode(l, u) in open;
        assert OpenNode(l, u) in open';
      }
    }
  }

  lemma PopEntry(m: Map, nodes: map<Vector2, Node>, open: set<OpenNode>, first: OpenNode)
    requires Frontier(m, nodes, open, {}) && first in open
    ensures Frontier(m, nodes, open - {first}, {first.loc})
  {
    forall l | l in nodes
      ensures HasEntry(open - {first}, l) || l in {first.loc} || (l != m.end && Expanded(m, nodes, l))
    {
      if l != first.loc && HasEntry(open, l) {
        var u :| OpenNode(l, u) in open;
        assert OpenNode(l, u) in open - {first};
      }
    }
  }

  lemma FinishExpansion(m: Map, nodes: map<Vector2, Node>, open: set<OpenNode>, w: Vector2)
    requires Frontier(m, nodes, open, {w}) && w != m.end && Expanded(m, nodes, w)
    ensures Frontier(m, nodes, open, {})
  {
  }

  /** Once nothing is open, every walk from the start stays among the
      recorded locations, none of which is the end. */
  lemma {:induction false} NothingLeft(m: Map, start: Vector2, nodes: map<Vector2, Node>, p: seq<Vector2>)
    requires Frontier(m, nodes, {}, {}) && start in nodes
    requires IsWalk(m, p) && p[0] == start
    ensures p[|p| - 1] in nodes && p[|p| - 1] != m.end
  {
    if |p| > 1 {
      var init := p[..|p| - 1];
      assert IsWalk(m, init);
      NothingLeft(m, start, nodes, init);
      assert CanStep(m, init[|init| - 1], p[|p| - 1]);
      assert !HasEntry({}, init[|init| - 1]);
    } else {
      assert !HasEntry({}, start);
    }
    assert !HasEntry({}, p[|p| - 1]);
  }

  // ---------------------------------------------------------------------
  // Why the search ends

  /** The locations inside a map of the given width and height. */
  function GridRow(y: int, width: int): (r: set<Vector2>)
    ensures forall v :: v in r <==> v.y == y && 0 <= v.x < width
    decreases width
  {
    if width <= 0 then {} else GridRow(y, width - 1) + {Vector2(width - 1, y)}
  }

  function Grid(width: int, height: int): (r: set<Vector2>)
    ensures forall v :: v in r <==> 0 <= v.x < width && 0 <= v.y < height
    decreases height
  {
    if height <= 0 then {} else Grid(width, height - 1) + GridRow(height - 1, width)
  }

  /** The locations inside the map not recorded yet. */
  function Unseen(m: Map, nodes: map<Vector2, Node>): set<Vector2>
  {
    Grid(m.size.x, m.size.y) - nodes.Keys
  }

  function Pow5(k: nat): (r: nat)
    ensures r >= 1
  {
    if k == 0 then 1 else 5 * Pow5(k - 1)
  }

  lemma {:induction false} Pow5Monotone(a: nat, b: nat)
    requires a <= b
    ensures Pow5(a) <= Pow5(b)
    decreases b - a
  {
    if a < b {
      Pow5Monotone(a, b - 1);
    }
  }

  /** An open entry weighs more the closer to the start its location was
      recorded: expanding it only adds entries of locations recorded
      farther out, at most four, each weighing at most a fifth of it. */
  ghost function Weight(o: OpenNode, nodes: map<Vector2, Node>): nat
  {
    if o.loc in nodes && nodes[o.loc].distToStart < |nodes| then Pow5(|nodes| - 1 - nodes[o.loc].distToStart) else 0
  }

  ghost function Pick(s: set<OpenNode>): OpenNode
    requires s != {}
  {
    var x :| x in s; x
  }

  ghost function Potential(s: set<OpenNode>, nodes: map<Vector2, Node>): nat
    decreases s
  {
    if s == {} then 0 else var x := Pick(s); Weight(x, nodes) + Potential(s - {x}, nodes)
  }

  lemma {:induction false} PotentialRemove(s: set<OpenNode>, y: OpenNode, nodes: map<Vector2, Node>)
    requires y in s
    ensures Potential(s, nodes) == Weight(y, nodes) + Potential(s - {y}, nodes)
    decreases s
  {
    var x := Pick(s);
    if y != x {
      calc {
        Potential(s, nodes);
        Weight(x, nodes) + Potential(s - {x}, nodes);
        { PotentialRemove(s - {x}, y, nodes); }
        Weight(x, nodes) + Weight(y, nodes) + Potential(s - {x} - {y}, nodes);
        { assert s - {x} - {y} == s - {y} - {x};
          PotentialRemove(s - {y}, x, nodes); }
        Weight(y, nodes) + Potential(s - {y}, nodes);
      }
    }
  }

  lemma PotentialBounds(s: set<OpenNode>, x: OpenNode, nodes: map<Vector2, Node>)
    ensures Potential(s - {x}, nodes) <= Potential(s, nodes)
    ensures Potential(s + {x}, nodes) <= Potential(s, nodes) + Weight(x, nodes)
  {
    if x in s {
      PotentialRemove(s, x, nodes);
      assert s + {x} == s;
    } else {
      assert s - {x} == s;
      PotentialRemove(s + {x}, x, nodes);
      assert s + {x} - {x} == s;
    }
  }

  /** What expanding an entry recorded at distance `d` may add to the
      potential per neighbour. */
  function Bound(nodes: map<Vector2, Node>, d: nat): nat
  {
    if d + 2 <= |nodes| then Pow5(|nodes| - 2 - d) else 0
  }

  lemma BoundBelowWeight(nodes: map<Vector2, Node>, d: nat)
    requires d < |nodes|
    ensures Times(4, Bound(nodes, d)) < Pow5(|nodes| - 1 - d)
  {
    var b := Bound(nodes, d);
    assert Times(2, b) == Times(1, b) + b == b + b;
    assert Times(4, b) == Times(3, b) + b == Times(2, b) + b + b;
  }

  /** Recording a new location, which lies inside the map, leaves fewer
      locations unseen. */
  lemma UnseenShrinks(m: Map, start: Vector2, costToEnd: Vector2 -> real, nodes: map<Vector2, Node>,
                      nodes': map<Vector2, Node>, paths': map<Vector2, seq<Vector2>>)
    requires Recorded(m, start, costToEnd, nodes', paths') && start in nodes && nodes.Keys < nodes'.Keys
    ensures Unseen(m, nodes') < Unseen(m, nodes)
  {
    assert !(nodes'.Keys <= nodes.Keys);
    var k :| k in nodes'.Keys && k !in nodes.Keys;
    assert IsValidLoc(m, k);
    assert k in Unseen(m, nodes) - Unseen(m, nodes');
  }

  /** Expanding the first open entry, which opens at most four entries
      whose weights stay below its own, lowers the potential. */
  lemma PotentialDrops(open0: set<OpenNode>, o: OpenNode, open': set<OpenNode>, nodes: map<Vector2, Node>)
    requires o in open0 && o.loc in nodes && nodes[o.loc].distToStart < |nodes|
    requires Potential(open', nodes) <= Potential(open0 - {o}, nodes) + Times(4, Bound(nodes, nodes[o.loc].distToStart))
    ensures Potential(open', nodes) < Potential(open0, nodes)
  {
    PotentialRemove(open0, o, nodes);
    BoundBelowWeight(nodes, nodes[o.loc].distToStart);
  }

  /** `i` times `b`, spelled out as repeated addition. */
  function Times(i: nat, b: nat): nat
  {
    if i == 0 then 0 else Times(i - 1, b) + b
  }

  // ---------------------------------------------------------------------
  // The search

  /** One neighbour `nLoc` of the expanded location `w`, reached at
      distance `nDistToStart`: a location seen for the first time is
      recorded and opened; a recorded one is reopened only when its new
      total cost is strictly below the recorded node's, replacing its open
      entry but not its node. */
  method Visit(m: Map, start: Vector2, costToEnd: Vector2 -> real,
               nodes: map<Vector2, Node>, open: set<OpenNode>, ghost paths: map<Vector2, seq<Vector2>>,
               w: Vector2, nDistToStart: nat, nLoc: Vector2)
    returns (nodes': map<Vector2, Node>, open': set<OpenNode>, ghost paths': map<Vector2, seq<Vector2>>)
    requires Recorded(m, start, costToEnd, nodes, paths) && Frontier(m, nodes, open, {w})
    requires w in nodes && nDistToStart == nodes[w].distToStart + 1 && CanStep(m, w, nLoc)
    ensures Recorded(m, start, costToEnd, nodes', paths') && Frontier(m, nodes', open', {w})
    ensures nLoc in nodes' && nodes.Keys <= nodes'.Keys && forall l :: l in nodes ==> nodes'[l] == nodes[l]
    ensures nLoc !in nodes ==> (nodes'[nLoc] == Node(nLoc, w, nDistToStart, costToEnd(nLoc))
      && open' == open + {OpenNode(nLoc, nDistToStart as real + costToEnd(nLoc))})
    ensures nLoc in nodes && nDistToStart as real + costToEnd(nLoc) >= TotalCost(nodes[nLoc]) ==>
      open' == open && nodes' == nodes
    ensures nLoc in nodes && nDistToStart as real + costToEnd(nLoc) < TotalCost(nodes[nLoc]) ==>
      nodes' == nodes
      && open' == (open - {OpenNode(nLoc, TotalCost(nodes[nLoc]))}) + {OpenNode(nLoc, nDistToStart as real + costToEnd(nLoc))}
    ensures nodes' != nodes ==> nodes.Keys < nodes'.Keys
    ensures nodes' == nodes ==> Potential(open', nodes) <= Potential(open, nodes) + Bound(nodes, nodes[w].distToStart)
  {
    var cost := costToEnd(nLoc);
    var totalCost := nDistToStart as real + cost;
    nodes', paths' := nodes, paths;
    if nLoc in nodes {
      var n := nodes[nLoc];
      if totalCost >= TotalCost(n) {
        return nodes, open, paths;
      }
      ReplaceEntry(m, nodes, open, {w}, nLoc, TotalCost(n), totalCost);
      assert n.costToEnd == cost && n.distToStart < |nodes|;
      assert nDistToStart < n.distToStart;
      ghost var weight := Pow5(|nodes| - 1 - n.distToStart);
      assert Weight(OpenNode(nLoc, totalCost), nodes) == weight;
      Pow5Monotone(|nodes| - 1 - n.distToStart, |nodes| - 2 - nodes[w].distToStart);
      assert weight <= Bound(nodes, nodes[w].distToStart);
      var removed := open - {OpenNode(nLoc, TotalCost(n))};
      PotentialBounds(open, OpenNode(nLoc, TotalCost(n)), nodes);
      PotentialBounds(removed, OpenNode(nLoc, totalCost), nodes);
      assert Potential(removed + {OpenNode(nLoc, totalCost)}, nodes) <= Potential(open, nodes) + weight;
      open' := removed;
    } else {
      RecordNeighbour(m, start, costToEnd, nodes, paths, w, nLoc);
      AddEntry(m, nodes, open, {w}, nLoc, Node(nLoc, w, nDistToStart, cost), totalCost);
      nodes' := nodes[nLoc := Node(nLoc, w, nDistToStart, cost)];
      paths' := paths[nLoc := paths[w] + [nLoc]];
      open' := open;
    }
    open' := open' + {OpenNode(nLoc, totalCost)};
  }

  /** The locations held by some slot of `slots`. */
  function SlotLocs(slots: seq<Option<Vector2>>): set<Vector2>
  {
    if slots == [] then {}
    else
      var last := slots[|slots| - 1];
      SlotLocs(slots[..|slots| - 1]) + (if last.Some? then {last.value} else {})
  }

  lemma {:induction false} SlotLocsHas(slots: seq<Option<Vector2>>, j: nat)
    requires j < |slots| && slots[j].Some?
    ensures slots[j].value in SlotLocs(slots)
  {
    if j < |slots| - 1 {
      SlotLocsHas(slots[..|slots| - 1], j);
    }
  }

  /** Once every location in a slot of `neighbours(w)` is recorded, so is
      every location one may step onto from `w`. */
  lemma SlotsCover(m: Map, w: Vector2, slots: seq<Option<Vector2>>, nodes: map<Vector2, Node>)
    requires Neighbours(m, w) == Returns(slots)
    requires SlotLocs(slots) <= nodes.Keys
    ensures Expanded(m, nodes, w)
  {
    forall n | CanStep(m, w, n)
      ensures n in nodes
    {
      NeighboursAreSteps(m, w, n);
      var j :| 0 <= j < |slots| && slots[j] == Some(n);
      SlotLocsHas(slots, j);
    }
  }

  /** Every location in a slot of `neighbours(w)` is one step from `w`. */
  lemma SlotsAreSteps(m: Map, w: Vector2, slots: seq<Option<Vector2>>)
    requires Neighbours(m, w) == Returns(slots)
    ensures |slots| == 4 && forall j :: 0 <= j < |slots| && slots[j].Some? ==> CanStep(m, w, slots[j].value)
  {
    forall j | 0 <= j < |slots| && slots[j].Some?
      ensures CanStep(m, w, slots[j].value)
    {
      NeighboursAreSteps(m, w, slots[j].value);
    }
  }

  /** The loop over the neighbours of `w`: afterwards each of them is
      recorded. */
  method Expand(m: Map, start: Vector2, costToEnd: Vector2 -> real,
                nodes: map<Vector2, Node>, open: set<OpenNode>, ghost paths: map<Vector2, seq<Vector2>>,
                w: Vector2, slots: seq<Option<Vector2>>)
    returns (nodes': map<Vector2, Node>, open': set<OpenNode>, ghost paths': map<Vector2, seq<Vector2>>)
    requires Recorded(m, start, costToEnd, nodes, paths) && Frontier(m, nodes, open, {w}) && w in nodes
    requires forall j :: 0 <= j < |slots| && slots[j].Some? ==> CanStep(m, w, slots[j].value)
    ensures Recorded(m, start, costToEnd, nodes', paths') && Frontier(m, nodes', open', {w})
    ensures SlotLocs(slots) <= nodes'.Keys
    ensures nodes.Keys <= nodes'.Keys && (nodes' != nodes ==> nodes.Keys < nodes'.Keys)
    ensures nodes' == nodes ==> Potential(open', nodes) <= Potential(open, nodes) + Times(|slots|, Bound(nodes, nodes[w].distToStart))
  {
    var nDistToStart := nodes[w].distToStart + 1;
    ghost var bound := Bound(nodes, nodes[w].distToStart);
    nodes', open', paths' := nodes, open, paths;
    for i := 0 to |slots|
      invariant Recorded(m, start, costToEnd, nodes', paths') && Frontier(m, nodes', open', {w})
      invariant w in nodes' && nodes'[w].distToStart + 1 == nDistToStart
      invariant SlotLocs(slots[..i]) <= nodes'.Keys
      invariant nodes.Keys <= nodes'.Keys && (nodes' != nodes ==> nodes.Keys < nodes'.Keys)
      invariant nodes' == nodes ==> Potential(open', nodes) <= Potential(open, nodes) + Times(i, bound)
    {
      assert slots[..i + 1][..i] == slots[..i];
      if slots[i].Some? {
        nodes', open', paths' := Visit(m, start, costToEnd, nodes', open', paths', w, nDistToStart, slots[i].value);
      }
    }
    assert slots[..|slots|] == slots;
  }

  /** `shortest_path`. A distance it returns is the length of a walk from
      `start` to the end; when it gives up, no walk leads from `start` to
      the end; on a well-formed map from a location inside it, it never
      panics; from the end itself it returns 0. The answer is not claimed
      to be the shortest: an entry that improves on a recorded location
      replaces only its open entry, and the table keeps the distance first
      recorded. */
  method ShortestPath(m: Map, start: Vector2, costToEnd: Vector2 -> real) returns (r: Outcome<Option<nat>>)
    ensures r.Returns? && r.value.Some? ==> exists p :: WalkOf(m, p, start, m.end, r.value.value)
    ensures r == Returns(None) ==> forall p :: IsWalk(m, p) && p[0] == start ==> p[|p| - 1] != m.end
    ensures WellFormed(m) && IsValidLoc(m, start) ==> r.Returns?
    ensures start == m.end ==> r == Returns(Some(0))
  {
    var startNode := Node(start, start, 0, costToEnd(start));
    var open: set<OpenNode> := {OpenNode(start, TotalCost(startNode))};
    var nodes: map<Vector2, Node> := map[start := startNode];
    ghost var paths: map<Vector2, seq<Vector2>> := map[start := [start]];
    assert HasEntry(open, start);
    while open != {}
      invariant Recorded(m, start, costToEnd, nodes, paths)
      invariant Frontier(m, nodes, open, {})
      invariant start == m.end ==> open == {OpenNode(start, TotalCost(startNode))} && nodes[start] == startNode
      decreases Unseen(m, nodes), Potential(open, nodes)
    {
      FirstExists(open);
      var openNode :| IsFirst(openNode, open);
      ghost var open0 := open;
      ghost var nodes0 := nodes;
      open := open - {openNode};
      PopEntry(m, nodes, open0, openNode);
      var node := nodes[openNode.loc];
      if openNode.loc == m.end {
        assert WalkOf(m, paths[openNode.loc], start, m.end, node.distToStart);
        return Returns(Some(node.distToStart));
      }
      var neighbours := Neighbours(m, openNode.loc);
      if neighbours.Panics? {
        if WellFormed(m) && IsValidLoc(m, start) {
          NeighboursOfValidLoc(m, openNode.loc);
        }
        return Panics;
      }
      SlotsAreSteps(m, openNode.loc, neighbours.value);
      nodes, open, paths := Expand(m, start, costToEnd, nodes, open, paths, openNode.loc, neighbours.value);
      SlotsCover(m, openNode.loc, neighbours.value, nodes);
      FinishExpansion(m, nodes, open, openNode.loc);
      if nodes == nodes0 {
        PotentialDrops(open0, openNode, open, nodes0);
      } else {
        UnseenShrinks(m, start, costToEnd, nodes0, nodes, paths);
      }
    }
    forall p | IsWalk(m, p) && p[0] == start
      ensures p[|p| - 1] != m.end
    {
      NothingLeft(m, start, nodes, p);
    }
    return Returns(None);
  }

  /** `solve_part1`: the map must parse; the search starts at its `S`, and
      a search that finds no path gives 0. A positive answer is the length
      of a walk from `S` to `E`, and on a map whose `S` lies inside it the
      answer is never a panic. */
  method SolvePart1(lines: seq<string>, costToEnd: Vector2 -> real) returns (r: Outcome<nat>)
    ensures Parse(lines).Panics? ==> r == Panics
    ensures r.Returns? && r.value > 0 ==>
      Parse(lines).Returns? && exists p :: WalkOf(Parse(lines).value, p, Parse(lines).value.start, Parse(lines).value.end, r.value)
    ensures Parse(lines).Returns? && IsValidLoc(Parse(lines).value, Parse(lines).value.start) ==> r.Returns?
  {
    var parsed := FromStr(lines);
    if parsed.Panics? {
      return Panics;
    }
    ParseIsWellFormed(lines);
    var m := parsed.value;
    var found := ShortestPath(m, m.start, costToEnd);
    if found.Panics? {
      return Panics;
    }
    if found.value.None? {
      return Returns(0);
    }
    return Returns(found.value.value);
  }
}
