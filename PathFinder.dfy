/**
 * The path finder of the computer-controlled side: the shortest walking route
 * from an attacking unit's cell to its target's cell on the 27 x 21 movement
 * grid. The search is Dijkstra's algorithm with unit step costs over the four
 * axis directions; every cell holding an alive unit is an obstacle.
 */
module PathFinder {
  import opened Wrappers

  /** Dimensions of the movement grid. */
  const Width: int := 27
  const Height: int := 21

  /** A board cell (the game library's `Edge`): a pair of integer coordinates. */
  datatype Cell = Cell(x: int, y: int)

  /** What the path finder reads of a unit: its cell and whether it is alive. */
  datatype Unit = Unit(x: int, y: int, alive: bool)

  function CellOf(u: Unit): Cell {
    Cell(u.x, u.y)
  }

  /** The bounds test of the search. */
  predicate InBounds(c: Cell) {
    0 <= c.x < Width && 0 <= c.y < Height
  }

  /** All cells of the grid. */
  function Board(): set<Cell> {
    set x: int, y: int | 0 <= x < Width && 0 <= y < Height :: Cell(x, y)
  }

  lemma InBoard(c: Cell)
    requires InBounds(c)
    ensures c in Board()
  {
    assert c == Cell(c.x, c.y);
  }

  /** The expansion directions, in the order the search tries them. */
  const Directions: seq<(int, int)> := [(0, 1), (1, 0), (0, -1), (-1, 0)]

  /** The neighbour of `c` in direction number `k`. */
  function Shift(c: Cell, k: nat): Cell
    requires k < |Directions|
  {
    Cell(c.x + Directions[k].0, c.y + Directions[k].1)
  }

  /** `b` is one step away from `a` in one of the four directions. */
  predicate Adjacent(a: Cell, b: Cell) {
    exists k :: 0 <= k < |Directions| && Shift(a, k) == b
  }

  function Abs(n: int): nat {
    if n < 0 then -n else n
  }

  /** The four directions are exactly the steps of Manhattan length one. */
  lemma AdjacentIffUnitStep(a: Cell, b: Cell)
    ensures Adjacent(a, b) <==> Abs(b.x - a.x) + Abs(b.y - a.y) == 1
  {
    if Abs(b.x - a.x) + Abs(b.y - a.y) == 1 {
      if b.y == a.y + 1 {
        assert Shift(a, 0) == b;
      } else if b.x == a.x + 1 {
        assert Shift(a, 1) == b;
      } else if b.y == a.y - 1 {
        assert Shift(a, 2) == b;
      } else {
        assert Shift(a, 3) == b;
      }
    }
  }

  // ---------------------------------------------------------------------------
  // Occupancy

  /** The occupancy set: the cell of every alive unit, whoever it is. */
  function AliveCells(units: seq<Unit>): set<Cell> {
    set u | u in units && u.alive :: CellOf(u)
  }

  /** Builds the occupancy set from the list of units on the board. */
  method OccupiedCells(units: seq<Unit>) returns (occupied: set<Cell>)
    ensures occupied == AliveCells(units)
  {
    occupied := {};
    for i := 0 to |units|
      invariant occupied == AliveCells(units[..i])
    {
      assert units[..i + 1] == units[..i] + [units[i]];
      if units[i].alive {
        occupied := occupied + {CellOf(units[i])};
      }
    }
    assert units[..|units|] == units;
  }

  /** A cell the search may step onto. */
  predicate Open(occupied: set<Cell>, c: Cell) {
    InBounds(c) && c !in occupied
  }

  /** Step `i` of `p` moves to a neighbouring cell. */
  predicate StepAt(p: seq<Cell>, i: int)
    requires 0 < i < |p|
  {
    Adjacent(p[i - 1], p[i])
  }

  /** Step `i` of `p`, read backwards, moves to a neighbouring cell. */
  predicate BackStepAt(p: seq<Cell>, i: int)
    requires 0 < i < |p|
  {
    Adjacent(p[i], p[i - 1])
  }

  /**
   * `p` walks from `s` to `t` one step at a time, and every cell after the
   * first is on the board and free. The first cell is exempt: the search
   * starts there without looking at it.
   */
  predicate IsRoute(occupied: set<Cell>, p: seq<Cell>, s: Cell, t: Cell) {
    && |p| > 0 && p[0] == s && p[|p| - 1] == t
    && (forall i :: 0 < i < |p| ==> Open(occupied, p[i]))
    && (forall i :: 0 < i < |p| ==> StepAt(p, i))
  }

  ghost predicate Reachable(occupied: set<Cell>, s: Cell, t: Cell) {
    exists p :: IsRoute(occupied, p, s, t)
  }

  /**
   * Under the literal occupancy rule an alive target blocks its own cell, so
   * no other cell can reach it.
   */
  lemma AliveTargetUnreachable(occupied: set<Cell>, s: Cell, t: Cell)
    requires t in occupied && s != t
    ensures !Reachable(occupied, s, t)
  {
    forall p: seq<Cell> | |p| > 0 && p[0] == s && p[|p| - 1] == t
      ensures |p| > 1 && !Open(occupied, p[|p| - 1])
    {
    }
  }

  /** A unit standing on its target's cell reaches it by the one-cell route. */
  lemma SameCellRoute(occupied: set<Cell>, s: Cell)
    ensures IsRoute(occupied, [s], s, s)
    ensures forall p :: IsRoute(occupied, p, s, s) && |p| <= 1 ==> p == [s]
  {
  }

  // ---------------------------------------------------------------------------
  // The distance / predecessor table

  /**
   * The search's record of a cell (the inner class `EdgeNode`): its best known
   * distance and the cell it was reached from (`None` for the start).
   */
  datatype EdgeNode = EdgeNode(edge: Cell, distance: nat, previous: Option<Cell>)

  /**
   * One relaxation step: the neighbour's record is replaced only on a strict
   * improvement, and then it is reached through `current`.
   */
  function Relax(nodes: map<Cell, EdgeNode>, current: Cell, neighbour: Cell, newDistance: nat)
    : (r: (map<Cell, EdgeNode>, bool))
    ensures r.1 <==> neighbour !in nodes || newDistance < nodes[neighbour].distance
    ensures !r.1 ==> r.0 == nodes
    ensures r.1 ==> r.0 == nodes[neighbour := EdgeNode(neighbour, newDistance, Some(current))]
    ensures forall c :: c in nodes ==> c in r.0 && r.0[c].distance <= nodes[c].distance
    ensures neighbour in r.0 && r.0[neighbour].distance <= newDistance
  {
    if neighbour !in nodes || newDistance < nodes[neighbour].distance then
      (nodes[neighbour := EdgeNode(neighbour, newDistance, Some(current))], true)
    else
      (nodes, false)
  }

  /** Record `c` is consistent: reached from a recorded cell one step closer. */
  ghost predicate WellLinked(occupied: set<Cell>, start: Cell, nodes: map<Cell, EdgeNode>, c: Cell)
    requires c in nodes
  {
    && nodes[c].edge == c
    && (c != start ==>
          && nodes[c].previous.Some?
          && nodes[c].previous.value in nodes
          && nodes[nodes[c].previous.value].distance + 1 == nodes[c].distance
          && Adjacent(nodes[c].previous.value, c)
          && Open(occupied, c))
  }

  /** The predecessor links lead from every recorded cell back to the start. */
  ghost predicate ChainsBack(occupied: set<Cell>, start: Cell, nodes: map<Cell, EdgeNode>) {
    && start in nodes && nodes[start] == EdgeNode(start, 0, None)
    && forall c {:trigger WellLinked(occupied, start, nodes, c)} :: c in nodes ==> WellLinked(occupied, start, nodes, c)
  }

  /**
   * Every recorded cell is either settled (already expanded) or on the
   * frontier; settled distances are at most `level`, the distance of the
   * last expanded cell, and frontier distances lie in [level, level + 1].
   */
  ghost predicate Layered(nodes: map<Cell, EdgeNode>, frontier: set<Cell>, settled: set<Cell>, level: nat) {
    && nodes.Keys == frontier + settled && frontier !! settled
    && (forall c :: c in settled ==> nodes[c].distance <= level)
    && (forall c :: c in frontier ==> level <= nodes[c].distance <= level + 1)
  }

  /** Every free neighbour of a settled cell is recorded at most one step further. */
  ghost predicate Closed(occupied: set<Cell>, nodes: map<Cell, EdgeNode>, settled: set<Cell>) {
    && settled <= nodes.Keys
    && forall c, k :: c in settled && 0 <= k < |Directions| && Open(occupied, Shift(c, k)) ==>
         Shift(c, k) in nodes && nodes[Shift(c, k)].distance <= nodes[c].distance + 1
  }

  ghost predicate SearchInvariant(
    occupied: set<Cell>, start: Cell, nodes: map<Cell, EdgeNode>,
    frontier: set<Cell>, settled: set<Cell>, level: nat)
  {
    ChainsBack(occupied, start, nodes) && Layered(nodes, frontier, settled, level)
    && Closed(occupied, nodes, settled)
  }

  /**
   * A route from the start to a cell that is not settled leaves the settled
   * region through a frontier cell whose recorded distance is at most its
   * position on the route.
   */
  lemma {:induction false} FrontierCut(
    occupied: set<Cell>, start: Cell, nodes: map<Cell, EdgeNode>,
    frontier: set<Cell>, settled: set<Cell>, level: nat,
    p: seq<Cell>, t: Cell, i: nat)
    requires SearchInvariant(occupied, start, nodes, frontier, settled, level)
    requires IsRoute(occupied, p, start, t) && t !in settled
    requires i < |p| && p[i] in nodes && nodes[p[i]].distance <= i
    ensures exists j :: i <= j < |p| && p[j] in frontier && nodes[p[j]].distance <= j
    decreases |p| - i
  {
    if p[i] !in frontier {
      assert p[i] in settled;
      assert i + 1 < |p|;
      assert StepAt(p, i + 1);
      var k :| 0 <= k < |Directions| && Shift(p[i], k) == p[i + 1];
      FrontierCut(occupied, start, nodes, frontier, settled, level, p, t, i + 1);
    }
  }

  /** A frontier cell of least distance has its true shortest distance. */
  lemma PolledIsShortest(
    occupied: set<Cell>, start: Cell, nodes: map<Cell, EdgeNode>,
    frontier: set<Cell>, settled: set<Cell>, level: nat, t: Cell)
    requires SearchInvariant(occupied, start, nodes, frontier, settled, level)
    requires t in frontier
    requires forall c :: c in frontier ==> nodes[t].distance <= nodes[c].distance
    ensures forall q :: IsRoute(occupied, q, start, t) ==> nodes[t].distance + 1 <= |q|
  {
    forall q | IsRoute(occupied, q, start, t)
      ensures nodes[t].distance + 1 <= |q|
    {
      FrontierCut(occupied, start, nodes, frontier, settled, level, q, t, 0);
    }
  }

  /** Once the frontier is empty, no unsettled cell is reachable. */
  lemma ExhaustedMeansUnreachable(
    occupied: set<Cell>, start: Cell, nodes: map<Cell, EdgeNode>,
    settled: set<Cell>, level: nat, t: Cell)
    requires SearchInvariant(occupied, start, nodes, {}, settled, level)
    requires t !in settled
    ensures !Reachable(occupied, start, t)
  {
    if Reachable(occupied, start, t) {
      var q :| IsRoute(occupied, q, start, t);
      FrontierCut(occupied, start, nodes, {}, settled, level, q, t, 0);
      assert false;
    }
  }

  // ---------------------------------------------------------------------------
  // The frontier

  /**
   * Takes a cell of least recorded distance off the frontier. Which of several
   * such cells comes first is left open, as it is for the priority queue.
   */
  method PollNearest(queue: set<Cell>, nodes: map<Cell, EdgeNode>) returns (nearest: Cell, rest: set<Cell>)
    requires queue != {} && queue <= nodes.Keys
    ensures nearest in queue && rest == queue - {nearest}
    ensures forall c :: c in queue ==> nodes[nearest].distance <= nodes[c].distance
  {
    nearest :| nearest in queue;
    var unseen := queue - {nearest};
    while unseen != {}
      invariant unseen <= queue && nearest in queue
      invariant forall c :: c in queue && c !in unseen ==> nodes[nearest].distance <= nodes[c].distance
      decreases |unseen|
    {
      var c :| c in unseen;
      if nodes[c].distance < nodes[nearest].distance {
        nearest := c;
      }
      unseen := unseen - {c};
    }
    rest := queue - {nearest};
  }

  // ---------------------------------------------------------------------------
  // Path reconstruction

  /** `Collections.reverse`: the same cells in the opposite order. */
  method Reverse(s: seq<Cell>) returns (r: seq<Cell>)
    ensures |r| == |s|
    ensures forall i :: 0 <= i < |s| ==> r[i] == s[|s| - 1 - i]
  {
    r := [];
    var i := |s|;
    while i > 0
      invariant 0 <= i <= |s|
      invariant |r| == |s| - i
      invariant forall j :: 0 <= j < |r| ==> r[j] == s[|s| - 1 - j]
    {
      i := i - 1;
      r := r + [s[i]];
    }
  }

  /**
   * Follows the predecessor links from `target` back to the start, then
   * reverses: the result is a route from the start to `target` with one cell
   * more than the recorded distance.
   */
  method ConstructPath(ghost occupied: set<Cell>, ghost start: Cell, nodes: map<Cell, EdgeNode>, target: Cell)
    returns (path: seq<Cell>)
    requires ChainsBack(occupied, start, nodes) && target in nodes
    ensures IsRoute(occupied, path, start, target)
    ensures |path| == nodes[target].distance + 1
  {
    var trail: seq<Cell> := [];
    var current: Option<Cell> := Some(target);
    while current.Some?
      invariant WalkedBack(occupied, start, nodes, target, trail, current)
      decreases if current.Some? then nodes[current.value].distance + 1 else 0
    {
      var node := nodes[current.value];
      WalkStep(occupied, start, nodes, target, trail, current.value);
      trail := trail + [node.edge];
      current := node.previous;
    }
    path := Reverse(trail);
    ReversedTrailIsRoute(occupied, start, nodes, target, trail, path);
  }

  /**
   * The state of the walk back from `target`: `trail` holds the cells walked
   * so far, each one step closer to the start, and `current` is the next cell
   * to visit (`None` once the start has been passed).
   */
  ghost predicate WalkedBack(
    occupied: set<Cell>, start: Cell, nodes: map<Cell, EdgeNode>, target: Cell,
    trail: seq<Cell>, current: Option<Cell>)
    requires target in nodes
  {
    && (current.Some? ==> current.value in nodes)
    && (current.Some? ==> |trail| + nodes[current.value].distance == nodes[target].distance)
    && (current.None? ==> |trail| == nodes[target].distance + 1 && trail[|trail| - 1] == start)
    && (trail == [] ==> current == Some(target))
    && (trail != [] ==> trail[0] == target)
    && (forall i :: 0 <= i < |trail| ==>
          trail[i] in nodes && nodes[trail[i]].distance + i == nodes[target].distance)
    && (forall i :: 0 < i < |trail| ==> BackStepAt(trail, i))
    && (current.Some? && trail != [] ==> Adjacent(current.value, trail[|trail| - 1]))
  }

  /** Visiting `current` and moving on to its predecessor keeps the walk's state. */
  lemma WalkStep(
    occupied: set<Cell>, start: Cell, nodes: map<Cell, EdgeNode>, target: Cell,
    trail: seq<Cell>, current: Cell)
    requires ChainsBack(occupied, start, nodes) && target in nodes
    requires WalkedBack(occupied, start, nodes, target, trail, Some(current))
    ensures WalkedBack(occupied, start, nodes, target, trail + [nodes[current].edge], nodes[current].previous)
  {
    assert WellLinked(occupied, start, nodes, current);
    var trail' := trail + [nodes[current].edge];
    forall i | 0 < i < |trail'|
      ensures BackStepAt(trail', i)
    {
      if i < |trail| {
        assert BackStepAt(trail, i);
      }
    }
  }

  /** The trail walked back from `target`, read backwards, is a route from the start. */
  lemma ReversedTrailIsRoute(
    occupied: set<Cell>, start: Cell, nodes: map<Cell, EdgeNode>, target: Cell,
    trail: seq<Cell>, path: seq<Cell>)
    requires ChainsBack(occupied, start, nodes) && target in nodes
    requires |trail| == nodes[target].distance + 1
    requires trail[0] == target && trail[|trail| - 1] == start
    requires forall i :: 0 <= i < |trail| ==>
      trail[i] in nodes && nodes[trail[i]].distance + i == nodes[target].distance
    requires forall i :: 0 < i < |trail| ==> BackStepAt(trail, i)
    requires |path| == |trail| && forall i :: 0 <= i < |trail| ==> path[i] == trail[|trail| - 1 - i]
    ensures IsRoute(occupied, path, start, target)
  {
    var n := |trail|;
    forall i | 0 < i < n
      ensures StepAt(path, i)
    {
      assert path[i] == trail[n - 1 - i] && path[i - 1] == trail[n - i];
      assert BackStepAt(trail, n - i);
    }
    forall i | 0 < i < n
      ensures Open(occupied, path[i])
    {
      assert path[i] == trail[n - 1 - i] && trail[n - 1 - i] != start;
      assert WellLinked(occupied, start, nodes, trail[n - 1 - i]);
    }
    assert path[0] == start && path[n - 1] == target;
  }

  /** Recording a newly reached free neighbour keeps the predecessor links sound. */
  lemma RecordKeepsChains(
    occupied: set<Cell>, start: Cell, nodes: map<Cell, EdgeNode>, current: Cell, k: nat)
    requires ChainsBack(occupied, start, nodes) && current in nodes && k < |Directions|
    requires Shift(current, k) !in nodes && Open(occupied, Shift(current, k))
    ensures ChainsBack(occupied, start,
      nodes[Shift(current, k) := EdgeNode(Shift(current, k), nodes[current].distance + 1, Some(current))])
  {
    var n := Shift(current, k);
    var updated := nodes[n := EdgeNode(n, nodes[current].distance + 1, Some(current))];
    assert Adjacent(current, n);
    forall c | c in updated
      ensures WellLinked(occupied, start, updated, c)
    {
      if c != n {
        assert WellLinked(occupied, start, nodes, c);
      }
    }
  }

  /**
   * The neighbour loop of one expansion: tries the four directions of
   * `current`, skips cells off the board or occupied, and relaxes the rest.
   * As no recorded distance exceeds `current`'s by more than one, only cells
   * not yet recorded are ever improved: they are recorded one step further
   * than `current` and pushed onto the frontier.
   */
  method ExpandNeighbours(
    occupied: set<Cell>, ghost start: Cell, nodes: map<Cell, EdgeNode>,
    queue: set<Cell>, current: Cell)
    returns (nodes': map<Cell, EdgeNode>, queue': set<Cell>)
    requires ChainsBack(occupied, start, nodes) && current in nodes
    requires forall c :: c in nodes ==> nodes[c].distance <= nodes[current].distance + 1
    ensures ChainsBack(occupied, start, nodes')
    ensures forall c :: c in nodes ==> c in nodes' && nodes'[c] == nodes[c]
    ensures queue' == queue + (nodes'.Keys - nodes.Keys)
    ensures forall c :: c in nodes' && c !in nodes ==>
      Open(occupied, c) && nodes'[c].distance == nodes[current].distance + 1
    ensures forall k :: 0 <= k < |Directions| && Open(occupied, Shift(current, k)) ==>
      Shift(current, k) in nodes' && nodes'[Shift(current, k)].distance <= nodes[current].distance + 1
  {
    nodes', queue' := nodes, queue;
    for k := 0 to |Directions|
      invariant Expanded(occupied, start, nodes, queue, current, nodes', queue', k)
    {
      nodes', queue' := TryDirection(occupied, start, nodes, queue, current, k, nodes', queue');
    }
  }

  /**
   * The state of the neighbour loop after directions 0 to k - 1 of `current`
   * were tried: `nodes'` extends `nodes` by new records one step further than
   * `current`, each pushed onto the frontier `queue'`.
   */
  ghost predicate Expanded(
    occupied: set<Cell>, start: Cell, nodes: map<Cell, EdgeNode>, queue: set<Cell>, current: Cell,
    nodes': map<Cell, EdgeNode>, queue': set<Cell>, k: nat)
    requires current in nodes && k <= |Directions|
  {
    && ChainsBack(occupied, start, nodes')
    && (forall c :: c in nodes ==> c in nodes' && nodes'[c] == nodes[c])
    && queue' == queue + (nodes'.Keys - nodes.Keys)
    && (forall c :: c in nodes' && c !in nodes ==>
          Open(occupied, c) && nodes'[c].distance == nodes[current].distance + 1)
    && (forall j :: 0 <= j < k && Open(occupied, Shift(current, j)) ==>
          Shift(current, j) in nodes' && nodes'[Shift(current, j)].distance <= nodes[current].distance + 1)
  }

  /** The body of the neighbour loop: tries direction `k` of `current`. */
  method TryDirection(
    occupied: set<Cell>, ghost start: Cell, ghost nodes: map<Cell, EdgeNode>, ghost queue: set<Cell>,
    current: Cell, k: nat, nodes': map<Cell, EdgeNode>, queue': set<Cell>)
    returns (nodes'': map<Cell, EdgeNode>, queue'': set<Cell>)
    requires current in nodes && k < |Directions|
    requires forall c :: c in nodes ==> nodes[c].distance <= nodes[current].distance + 1
    requires Expanded(occupied, start, nodes, queue, current, nodes', queue', k)
    ensures Expanded(occupied, start, nodes, queue, current, nodes'', queue'', k + 1)
  {
    nodes'', queue'' := nodes', queue';
    var neighbour := Shift(current, k);
    if !InBounds(neighbour) || neighbour in occupied {
      return;
    }
    var newDistance := nodes'[current].distance + 1;
    var (updated, improved) := Relax(nodes', current, neighbour, newDistance);
    if improved {
      RecordKeepsChains(occupied, start, nodes', current, k);
      queue'' := queue' + {neighbour};
    }
    nodes'' := updated;
  }

  /** No recorded distance exceeds that of a nearest frontier cell by more than one. */
  lemma NearestBoundsAll(
    occupied: set<Cell>, start: Cell, nodes: map<Cell, EdgeNode>,
    frontier: set<Cell>, settled: set<Cell>, level: nat, current: Cell)
    requires SearchInvariant(occupied, start, nodes, frontier, settled, level)
    requires current in frontier
    ensures forall c :: c in nodes ==> nodes[c].distance <= nodes[current].distance + 1
  {
  }

  /**
   * Expanding a nearest frontier cell and moving it to the settled cells
   * keeps the search invariant, with the level raised to its distance.
   */
  lemma SettleKeepsInvariant(
    occupied: set<Cell>, start: Cell, nodes: map<Cell, EdgeNode>,
    frontier: set<Cell>, settled: set<Cell>, level: nat, current: Cell,
    nodes': map<Cell, EdgeNode>, frontier': set<Cell>)
    requires SearchInvariant(occupied, start, nodes, frontier, settled, level)
    requires current in frontier
    requires forall c :: c in frontier ==> nodes[current].distance <= nodes[c].distance
    requires ChainsBack(occupied, start, nodes')
    requires forall c :: c in nodes ==> c in nodes' && nodes'[c] == nodes[c]
    requires frontier' == (frontier - {current}) + (nodes'.Keys - nodes.Keys)
    requires forall c :: c in nodes' && c !in nodes ==> nodes'[c].distance == nodes[current].distance + 1
    requires forall k :: 0 <= k < |Directions| && Open(occupied, Shift(current, k)) ==>
      Shift(current, k) in nodes' && nodes'[Shift(current, k)].distance <= nodes[current].distance + 1
    ensures SearchInvariant(occupied, start, nodes', frontier', settled + {current}, nodes[current].distance)
  {
    var reached := nodes[current].distance;
    assert Layered(nodes', frontier', settled + {current}, reached);
    forall c, k | c in settled + {current} && 0 <= k < |Directions| && Open(occupied, Shift(c, k))
      ensures Shift(c, k) in nodes' && nodes'[Shift(c, k)].distance <= nodes'[c].distance + 1
    {
      if c != current {
        assert Shift(c, k) in nodes;
      }
    }
  }

  // ---------------------------------------------------------------------------
  // The search

  /**
   * One round of the search after the nearest frontier cell `current` turned
   * out not to be the goal: its neighbours are relaxed and it becomes settled.
   */
  method SettleNearest(
    occupied: set<Cell>, ghost start: Cell, nodes: map<Cell, EdgeNode>, queue: set<Cell>,
    ghost settled: set<Cell>, ghost level: nat, current: Cell, rest: set<Cell>)
    returns (nodes': map<Cell, EdgeNode>, queue': set<Cell>)
    requires SearchInvariant(occupied, start, nodes, queue, settled, level)
    requires forall c :: c in nodes ==> InBounds(c)
    requires current in queue && rest == queue - {current}
    requires forall c :: c in queue ==> nodes[current].distance <= nodes[c].distance
    ensures SearchInvariant(occupied, start, nodes', queue', settled + {current}, nodes[current].distance)
    ensures forall c :: c in nodes' ==> InBounds(c)
    ensures forall c :: c in nodes ==> c in nodes' && nodes'[c] == nodes[c]
    ensures queue' == rest + (nodes'.Keys - nodes.Keys)
    ensures forall c :: c in nodes' && c !in nodes ==>
      Open(occupied, c) && nodes'[c].distance == nodes[current].distance + 1
  {
    NearestBoundsAll(occupied, start, nodes, queue, settled, level, current);
    nodes', queue' := ExpandNeighbours(occupied, start, nodes, rest, current);
    SettleKeepsInvariant(occupied, start, nodes, queue, settled, level, current, nodes', queue');
  }

  /** Settling one more cell of the board leaves fewer unsettled cells. */
  lemma SettlingShrinks(settled: set<Cell>, c: Cell)
    requires settled <= Board() && InBounds(c) && c !in settled
    ensures settled + {c} <= Board()
    ensures |Board() - (settled + {c})| < |Board() - settled|
  {
    InBoard(c);
    assert Board() - settled == (Board() - (settled + {c})) + {c};
  }

  /**
   * The search loop from `start`: a shortest route to `goal`, or the empty
   * sequence when the frontier runs out first.
   */
  method Search(occupied: set<Cell>, start: Cell, goal: Cell) returns (path: seq<Cell>)
    requires InBounds(start)
    ensures path != [] ==> IsRoute(occupied, path, start, goal)
    ensures path != [] ==> forall q :: IsRoute(occupied, q, start, goal) ==> |path| <= |q|
    ensures path == [] ==> !Reachable(occupied, start, goal)
  {
    var nodes := map[start := EdgeNode(start, 0, None)];
    var queue := {start};
    ghost var settled: set<Cell> := {};
    ghost var level: nat := 0;
    while queue != {}
      invariant SearchInvariant(occupied, start, nodes, queue, settled, level)
      invariant forall c :: c in nodes ==> InBounds(c)
      invariant settled <= Board()
      invariant goal !in settled
      decreases |Board() - settled|
    {
      var current, rest := PollNearest(queue, nodes);
      if current == goal {
        PolledIsShortest(occupied, start, nodes, queue, settled, level, goal);
        path := ConstructPath(occupied, start, nodes, current);
        return;
      }
      ghost var reached := nodes[current].distance;
      nodes, queue := SettleNearest(occupied, start, nodes, queue, settled, level, current, rest);
      SettlingShrinks(settled, current);
      settled := settled + {current};
      level := reached;
    }
    ExhaustedMeansUnreachable(occupied, start, nodes, settled, level, goal);
    return [];
  }

  /**
   * `getTargetPath`: the route from the attacker's cell to the target's cell,
   * or the empty sequence when either is off the board or the target cannot be
   * reached. Which of several shortest routes is returned is left open.
   */
  method GetTargetPath(attacker: Unit, target: Unit, existing: seq<Unit>) returns (path: seq<Cell>)
    ensures !InBounds(CellOf(attacker)) || !InBounds(CellOf(target)) ==> path == []
    ensures InBounds(CellOf(attacker)) && InBounds(CellOf(target)) ==>
      (path != [] <==> Reachable(AliveCells(existing), CellOf(attacker), CellOf(target)))
    ensures path != [] ==> IsRoute(AliveCells(existing), path, CellOf(attacker), CellOf(target))
    ensures forall q :: IsRoute(AliveCells(existing), q, CellOf(attacker), CellOf(target)) ==> |path| <= |q|
    ensures InBounds(CellOf(attacker)) && CellOf(attacker) == CellOf(target) ==> path == [CellOf(attacker)]
    ensures CellOf(attacker) != CellOf(target) && CellOf(target) in AliveCells(existing) ==> path == []
  {
    var start := CellOf(attacker);
    var goal := CellOf(target);
    if !InBounds(start) || !InBounds(goal) {
      return [];
    }
    var occupied := OccupiedCells(existing);
    path := Search(occupied, start, goal);
    SameCellRoute(occupied, start);
    if start != goal && goal in occupied {
      AliveTargetUnreachable(occupied, start, goal);
    }
  }
}
