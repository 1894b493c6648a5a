/**
 * Grid paths as the game's searches produce them. A path lists the cells
 * entered after the start, the last one being the goal; every cell is
 * inside the grid and not blocked, and each is edge-adjacent to the one
 * before it (the first to the start).
 *
 * Also here: the priority-queue order of Python's heapq on (f, (x, y))
 * entries, and the finite budget that bounds how often a search can
 * improve a cell's cost.
 */
module Grids {
  import opened Common

  /** A city grid: cells (x, y) with 0 <= x < width and 0 <= y < height. */
  datatype Grid = Grid(width: int, height: int, blocked: Pos -> bool)

  predicate InBounds(g: Grid, p: Pos)
  {
    0 <= p.x < g.width && 0 <= p.y < g.height
  }

  predicate Free(g: Grid, p: Pos)
  {
    InBounds(g, p) && !g.blocked(p)
  }

  /** Each cell is edge-adjacent to the one before it, the first to `from`. */
  predicate Walk(from: Pos, path: seq<Pos>)
    decreases |path|
  {
    path == [] || (Adjacent(from, path[0]) && Walk(path[0], path[1..]))
  }

  /** A direction of one step along an axis. */
  predicate UnitStep(dir: Pos)
  {
    Abs(dir.x) + Abs(dir.y) == 1
  }

  /** The cell one step from p in direction dir. */
  function Neighbour(p: Pos, dir: Pos): (n: Pos)
    requires UnitStep(dir)
    ensures Adjacent(p, n)
  {
    Pos(p.x + dir.x, p.y + dir.y)
  }

  predicate AllFree(g: Grid, path: seq<Pos>)
  {
    forall i :: 0 <= i < |path| ==> Free(g, path[i])
  }

  /** A route from start to goal: non-empty, ends at the goal, never revisits the start. */
  predicate IsPath(g: Grid, start: Pos, goal: Pos, path: seq<Pos>)
  {
    && path != []
    && path[|path| - 1] == goal
    && Walk(start, path)
    && AllFree(g, path)
    && start !in path
  }

  /** The cells of the grid. */
  function Cells(g: Grid): (cells: set<Pos>)
    ensures forall p :: p in cells <==> InBounds(g, p)
  {
    set x, y | 0 <= x < g.width && 0 <= y < g.height :: Pos(x, y)
  }

  /** An entry of a search's open list: its priority and its cell. */
  datatype Entry = Entry(f: real, pos: Pos)

  /** Python's order on (f, (x, y)) tuples, the order heappop takes entries in. */
  predicate EntryLess(a: Entry, b: Entry)
  {
    a.f < b.f || (a.f == b.f && (a.pos.x < b.pos.x || (a.pos.x == b.pos.x && a.pos.y < b.pos.y)))
  }

  /** Index of a smallest entry: the entry heappop removes. */
  method MinEntry(open: seq<Entry>) returns (k: int)
    requires open != []
    ensures 0 <= k < |open|
    ensures forall i :: 0 <= i < |open| ==> !EntryLess(open[i], open[k])
  {
    k := 0;
    var i := 1;
    while i < |open|
      invariant 0 <= k < i <= |open|
      invariant forall j :: 0 <= j < i ==> !EntryLess(open[j], open[k])
    {
      if EntryLess(open[i], open[k]) {
        k := i;
      }
      i := i + 1;
    }
  }

  /** Some entry of the open list is for cell p. */
  predicate InOpen(open: seq<Entry>, p: Pos)
  {
    exists i :: 0 <= i < |open| && open[i].pos == p
  }

  /**
   * The cost a cell may still drop to: its current cost, or `bound` for a
   * cell the search has not reached.
   */
  function Cap(costs: map<Pos, int>, p: Pos, bound: int): int
  {
    if p in costs then costs[p] else bound
  }

  /**
   * One token per cell and per cost value below its cap. Each improvement
   * of a cell's cost takes tokens out, so a search that only ever lowers
   * integer costs of grid cells improves a cell finitely often.
   */
  ghost function Budget(cells: set<Pos>, costs: map<Pos, int>, bound: int): set<(Pos, int)>
  {
    set p, k | p in cells && 0 <= k < Cap(costs, p, bound) :: (p, k)
  }

  lemma BudgetShrinks(cells: set<Pos>, costs: map<Pos, int>, bound: int, n: Pos, t: int)
    requires n in cells && 0 <= t < Cap(costs, n, bound)
    ensures Budget(cells, costs[n := t], bound) < Budget(cells, costs, bound)
  {
    assert (n, t) in Budget(cells, costs, bound);
    assert (n, t) !in Budget(cells, costs[n := t], bound);
  }

  lemma SubsetCard<T>(a: set<T>, b: set<T>)
    requires a <= b
    ensures |a| <= |b|
  {
    assert b == a + (b - a);
  }

  /** A search that has reached only the start and cells other than n has reached at most |cells| cells. */
  lemma ReachedBound(reached: set<Pos>, cells: set<Pos>, start: Pos, n: Pos)
    requires reached <= cells + {start}
    requires n in cells && n !in reached
    ensures |reached| <= |cells|
  {
    var rest := cells - {n};
    assert cells == rest + {n};
    assert |cells| == |rest| + 1;
    assert reached <= rest + {start};
    SubsetCard(reached, rest + {start});
  }

  /**
   * What a search keeps true of the step counts of the cells it has
   * reached (a cell not in `g` has not been reached): the start takes 0
   * steps; every other reached cell is a grid cell; no count reaches the
   * number of reached cells.
   */
  ghost predicate CostsOk(start: Pos, cells: set<Pos>, g: map<Pos, int>)
  {
    && start in g && g[start] == 0
    && g.Keys <= cells + {start}
    && (forall p :: p in g ==> 0 <= g[p] < |g.Keys|)
  }

  /**
   * What a search keeps true of `cameFrom`: the start has no predecessor,
   * every other reached cell has one, and it is an adjacent reached cell
   * of lower step count; a cell with a predecessor is free.
   */
  ghost predicate TreeOk(grid: Grid, start: Pos, g: map<Pos, int>, cameFrom: map<Pos, Pos>)
  {
    && start !in cameFrom
    && (forall p {:trigger p in cameFrom} :: p in g ==> p == start || p in cameFrom)
    && (forall p :: p in cameFrom ==>
          && p in g && cameFrom[p] in g && g[cameFrom[p]] < g[p]
          && Adjacent(cameFrom[p], p) && Free(grid, p))
  }

  /** Every queued cell has been reached. */
  ghost predicate QueueOk(g: map<Pos, int>, open: seq<Entry>)
  {
    forall i :: 0 <= i < |open| ==> open[i].pos in g
  }

  /** Every free neighbour of u has been reached in at most one step more than u. */
  ghost predicate Settled(grid: Grid, hops: map<Pos, int>, u: Pos)
  {
    u in hops && forall n {:trigger Adjacent(u, n)} :: Adjacent(u, n) && Free(grid, n) ==> n in hops && hops[n] <= hops[u] + 1
  }

  /**
   * Follows the predecessors back from `goal` to the start. The searches
   * append each cell and reverse the list at the end; here each cell is
   * put in front, which gives the same list. The route has at most as many
   * cells as the goal's step count.
   */
  method Reconstruct(ghost grid: Grid, ghost start: Pos, ghost cells: set<Pos>, ghost g: map<Pos, int>,
                     cameFrom: map<Pos, Pos>, goal: Pos)
    returns (path: seq<Pos>)
    requires CostsOk(start, cells, g) && TreeOk(grid, start, g, cameFrom) && goal in g
    ensures path == [] <==> goal == start
    ensures path != [] ==> IsPath(grid, start, goal, path)
    ensures |path| <= g[goal]
  {
    path := [];
    var current := goal;
    while current in cameFrom
      invariant current in g
      invariant Walk(current, path)
      invariant path == [] ==> current == goal
      invariant path != [] ==> path[|path| - 1] == goal
      invariant forall i :: 0 <= i < |path| ==> path[i] in cameFrom
      invariant |path| + g[current] <= g[goal]
      decreases g[current]
    {
      path := [current] + path;
      current := cameFrom[current];
    }
    assert current == start;
    forall i | 0 <= i < |path|
      ensures Free(grid, path[i])
    {
      assert path[i] in cameFrom;
    }
  }

  /** Lowering a cell's step count to one more than a reached cell's keeps the counts bounded and spends budget. */
  lemma RelaxCosts(start: Pos, cells: set<Pos>, g: map<Pos, int>, current: Pos, n: Pos, t: int)
    requires CostsOk(start, cells, g)
    requires current in g && t == g[current] + 1
    requires n in cells && n != start
    requires n in g ==> t < g[n]
    ensures CostsOk(start, cells, g[n := t])
    ensures t < Cap(g, n, |cells| + 1)
  {
    if n !in g {
      ReachedBound(g.Keys, cells, start, n);
      assert (g[n := t]).Keys == g.Keys + {n};
    } else {
      assert (g[n := t]).Keys == g.Keys;
    }
  }

  /** Making the current cell the predecessor of an improved free neighbour keeps the tree. */
  lemma RelaxTree(grid: Grid, start: Pos, g: map<Pos, int>, cameFrom: map<Pos, Pos>, current: Pos, n: Pos, t: int)
    requires TreeOk(grid, start, g, cameFrom) && start in g
    requires current in g && t == g[current] + 1
    requires Adjacent(current, n) && Free(grid, n) && n != start
    requires n in g ==> t < g[n]
    ensures TreeOk(grid, start, g[n := t], cameFrom[n := current])
  {
  }
}
