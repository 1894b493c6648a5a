/**
 * The tile map (src/logic/map.py): a grid of tile characters and a legend
 * giving each character's `blocked` flag and `surface_weight`, with the
 * unit-cost A* search over it.
 */
module Maps {
  import opened Common
  import opened Grids

  /** A legend entry; either key may be missing. */
  datatype TileInfo = TileInfo(blocked: Option<bool>, surfaceWeight: Option<real>)

  datatype GameMap = GameMap(
    width: int,
    height: int,
    tiles: seq<seq<char>>,
    legend: map<char, TileInfo>,
    goal: int)

  /** Python indexing: a negative index counts from the end. */
  function PyIndex<T>(s: seq<T>, i: int): T
    requires -|s| <= i < |s|
  {
    if i < 0 then s[|s| + i] else s[i]
  }

  /** `tiles[y][x]` does not raise. */
  predicate HasTile(m: GameMap, x: int, y: int)
  {
    -|m.tiles| <= y < |m.tiles| && -|PyIndex(m.tiles, y)| <= x < |PyIndex(m.tiles, y)|
  }

  function TileAt(m: GameMap, x: int, y: int): char
    requires HasTile(m, x, y)
  {
    PyIndex(PyIndex(m.tiles, y), x)
  }

  /** The tile's `blocked` flag, False when the legend has no entry for it or the entry no flag. */
  function IsBlocked(m: GameMap, x: int, y: int): (b: bool)
    requires HasTile(m, x, y)
    ensures b <==> TileAt(m, x, y) in m.legend && m.legend[TileAt(m, x, y)].blocked == Some(true)
  {
    var tile := TileAt(m, x, y);
    if tile in m.legend then
      match m.legend[tile].blocked
      case Some(b) => b
      case None => false
    else false
  }

  /** The tile's `surface_weight`, 1.0 when the legend has no entry for it or the entry no weight. */
  function GetSurfaceWeight(m: GameMap, x: int, y: int): (w: real)
    requires HasTile(m, x, y)
    ensures TileAt(m, x, y) !in m.legend || m.legend[TileAt(m, x, y)].surfaceWeight.None? ==> w == 1.0
    ensures TileAt(m, x, y) in m.legend && m.legend[TileAt(m, x, y)].surfaceWeight.Some? ==>
      w == m.legend[TileAt(m, x, y)].surfaceWeight.value
  {
    var tile := TileAt(m, x, y);
    if tile in m.legend then
      match m.legend[tile].surfaceWeight
      case Some(v) => v
      case None => 1.0
    else 1.0
  }

  /** The tiles form height rows of width characters. */
  predicate WellFormed(m: GameMap)
  {
    |m.tiles| == m.height && forall r :: 0 <= r < |m.tiles| ==> |m.tiles[r]| == m.width
  }

  function BlockedAt(m: GameMap, p: Pos): bool
  {
    HasTile(m, p.x, p.y) && IsBlocked(m, p.x, p.y)
  }

  /** The map as a grid whose blocked cells are the blocked tiles. */
  function MapGrid(m: GameMap): Grid
  {
    Grid(m.width, m.height, p => BlockedAt(m, p))
  }

  /**
   * The cells the cost dictionary is created with: keys (r, c) for
   * r < height and c < width, read back as (x, y) cells.
   */
  predicate Preset(m: GameMap, p: Pos)
  {
    0 <= p.x < m.height && 0 <= p.y < m.width
  }

  /**
   * A search's result: a route, or the KeyError raised when a neighbour is
   * missing from the cost dictionary, which can happen only on a
   * non-square map.
   */
  datatype AStarResult = Route(path: seq<Pos>) | MissingKey

  /** The unit-cost search's invariant: each cell's cost is its step count. */
  ghost predicate SearchInv(grid: Grid, start: Pos, cells: set<Pos>, g: map<Pos, int>, cameFrom: map<Pos, Pos>, open: seq<Entry>)
  {
    CostsOk(start, cells, g) && TreeOk(grid, start, g, cameFrom) && QueueOk(g, open)
  }

  /**
   * What the search keeps of the cells it has reached: each one outside
   * `skip` (the cell being expanded) has a queue entry or has had all its
   * free neighbours reached at most one step further; a reached end has a
   * queue entry, since popping it ends the search.
   */
  ghost predicate Reached(grid: Grid, end: Pos, g: map<Pos, int>, open: seq<Entry>, skip: set<Pos>)
  {
    && (forall u :: u in g && u !in skip ==> InOpen(open, u) || Settled(grid, g, u))
    && (end in g ==> InOpen(open, end))
  }

  /**
   * A* with unit step cost and the Manhattan heuristic. A cell is queued
   * again only when its cost improves and it has no entry in the queue.
   * The result is empty when start and end coincide or when no route
   * exists; a non-empty result is a route from start to end. On a square
   * map the cost dictionary has every cell and no KeyError arises.
   */
  method AStarPathfinding(m: GameMap, start: Pos, end: Pos) returns (r: AStarResult)
    requires WellFormed(m)
    ensures m.width == m.height ==> r.Route?
    ensures r.Route? && start == end ==> r.path == []
    ensures r.Route? && r.path != [] ==> IsPath(MapGrid(m), start, end, r.path)
    ensures r.Route? && r.path == [] && start != end ==> forall p :: !IsPath(MapGrid(m), start, end, p)
  {
    ghost var grid := MapGrid(m);
    ghost var cells := Cells(grid);
    ghost var bound := |cells| + 1;
    var open := [Entry(0.0, start)];
    var cameFrom: map<Pos, Pos> := map[];
    var g: map<Pos, int> := map[start := 0];
    assert open[0].pos == start;
    while open != []
      invariant SearchInv(grid, start, cells, g, cameFrom, open)
      invariant Reached(grid, end, g, open, {})
      decreases Budget(cells, g, bound), |open|
    {
      var k := MinEntry(open);
      var current := open[k].pos;
      QueueRemove(g, open, k);
      ghost var before := open;
      open := RemoveAt(open, k);
      if current == end {
        var path := Reconstruct(grid, start, cells, g, cameFrom, current);
        return Route(path);
      }
      PopReached(grid, end, g, before, k);
      var missing;
      g, cameFrom, open, missing := ExpandAll(m, grid, start, cells, bound, g, cameFrom, open, current, end);
      if missing {
        return MissingKey;
      }
    }
    QueueHoldsRoute(grid, start, end, cells, g, cameFrom, open);
    return Route([]);
  }

  /** Popping a cell other than the end leaves every other reached cell queued or settled. */
  lemma PopReached(grid: Grid, end: Pos, g: map<Pos, int>, open: seq<Entry>, k: int)
    requires Reached(grid, end, g, open, {}) && 0 <= k < |open| && open[k].pos != end
    ensures Reached(grid, end, g, RemoveAt(open, k), {open[k].pos})
  {
    var rest := RemoveAt(open, k);
    forall u | InOpen(open, u) && u != open[k].pos
      ensures InOpen(rest, u)
    {
      var i :| 0 <= i < |open| && open[i].pos == u;
      if i < k {
        assert rest[i] == open[i];
      } else {
        assert rest[i - 1] == open[i];
      }
    }
  }

  /** While a route exists the queue is not empty. */
  lemma QueueHoldsRoute(grid: Grid, start: Pos, end: Pos, cells: set<Pos>, g: map<Pos, int>,
                        cameFrom: map<Pos, Pos>, open: seq<Entry>)
    requires SearchInv(grid, start, cells, g, cameFrom, open) && Reached(grid, end, g, open, {})
    ensures forall p :: IsPath(grid, start, end, p) ==> open != []
  {
    forall p | IsPath(grid, start, end, p)
      ensures open != []
    {
      var i := QueuedOnWalk(grid, end, g, open, start, p);
    }
  }

  /**
   * Along a free walk to the end from a reached cell, some cell is queued:
   * the first cell that is not settled, or else the end itself.
   */
  lemma {:induction false} QueuedOnWalk(grid: Grid, end: Pos, g: map<Pos, int>, open: seq<Entry>,
                                        from: Pos, path: seq<Pos>) returns (i: int)
    requires Reached(grid, end, g, open, {}) && from in g
    requires Walk(from, path) && AllFree(grid, path)
    requires if path == [] then from == end else path[|path| - 1] == end
    ensures 0 <= i < |open|
    decreases |path|
  {
    if InOpen(open, from) {
      i :| 0 <= i < |open| && open[i].pos == from;
    } else {
      // A reached end is queued, so from is not the end and the walk goes on.
      assert Settled(grid, g, from);
      assert Adjacent(from, path[0]) && Free(grid, path[0]);
      assert AllFree(grid, path[1..]) by {
        forall j | 0 <= j < |path[1..]|
          ensures Free(grid, path[1..][j])
        {
          assert path[1..][j] == path[j + 1];
        }
      }
      i := QueuedOnWalk(grid, end, g, open, path[0], path[1..]);
    }
  }

  /** Taking an entry out of the queue keeps every queued cell reached. */
  lemma QueueRemove(g: map<Pos, int>, open: seq<Entry>, k: int)
    requires QueueOk(g, open) && 0 <= k < |open|
    ensures open[k].pos in g && QueueOk(g, RemoveAt(open, k))
  {
  }

  /** The expansion of one popped cell: its four neighbours in the order (0, 1), (0, -1), (1, 0), (-1, 0). */
  method ExpandAll(m: GameMap, ghost grid: Grid, ghost start: Pos, ghost cells: set<Pos>, ghost bound: int,
                   g: map<Pos, int>, cameFrom: map<Pos, Pos>, open: seq<Entry>, current: Pos, end: Pos)
    returns (g': map<Pos, int>, cameFrom': map<Pos, Pos>, open': seq<Entry>, missing: bool)
    requires WellFormed(m) && grid == MapGrid(m) && cells == Cells(grid) && bound == |cells| + 1
    requires SearchInv(grid, start, cells, g, cameFrom, open) && current in g
    requires Reached(grid, end, g, open, {current})
    ensures missing ==> m.width != m.height
    ensures !missing ==> SearchInv(grid, start, cells, g', cameFrom', open')
    ensures !missing ==> Reached(grid, end, g', open', {})
    ensures !missing ==> Budget(cells, g', bound) < Budget(cells, g, bound) || (g' == g && open' == open)
  {
    var dirs := ExpandDirs();
    g', cameFrom', open', missing := g, cameFrom, open, false;
    for d := 0 to 4
      invariant SearchInv(grid, start, cells, g', cameFrom', open')
      invariant Reached(grid, end, g', open', {current})
      invariant current in g' && g'[current] == g[current]
      invariant Explored(grid, g', current, g[current], d)
      invariant Budget(cells, g', bound) < Budget(cells, g, bound) || (g' == g && open' == open)
    {
      var neighbor := Neighbour(current, dirs[d]);
      ghost var before := g';
      g', cameFrom', open', missing := Expand(m, grid, start, cells, bound, g', cameFrom', open', current, neighbor, end);
      if missing {
        return;
      }
      ExploredOneMore(grid, before, g', current, g[current], d);
    }
    SettleExpanded(grid, end, g', open', current);
  }

  /** The order the neighbours of a cell are tried in. */
  function ExpandDirs(): (dirs: seq<Pos>)
    ensures |dirs| == 4 && forall k :: 0 <= k < 4 ==> UnitStep(dirs[k])
  {
    [Pos(0, 1), Pos(0, -1), Pos(1, 0), Pos(-1, 0)]
  }

  /** The free neighbours in the first d directions are at most one step behind a cell of cost c0. */
  ghost predicate Explored(grid: Grid, g: map<Pos, int>, current: Pos, c0: int, d: int)
  {
    forall k :: 0 <= k < d && k < 4 && Free(grid, Neighbour(current, ExpandDirs()[k])) ==>
      Neighbour(current, ExpandDirs()[k]) in g && g[Neighbour(current, ExpandDirs()[k])] <= c0 + 1
  }

  lemma ExploredOneMore(grid: Grid, g: map<Pos, int>, g': map<Pos, int>, current: Pos, c0: int, d: int)
    requires 0 <= d < 4 && Explored(grid, g, current, c0, d)
    requires forall p :: p in g ==> p in g' && g'[p] <= g[p]
    requires Free(grid, Neighbour(current, ExpandDirs()[d])) ==>
               Neighbour(current, ExpandDirs()[d]) in g' && g'[Neighbour(current, ExpandDirs()[d])] <= c0 + 1
    ensures Explored(grid, g', current, c0, d + 1)
  {
  }

  /** Once all four directions are explored, the expanded cell is settled. */
  lemma SettleExpanded(grid: Grid, end: Pos, g: map<Pos, int>, open: seq<Entry>, current: Pos)
    requires Reached(grid, end, g, open, {current}) && current in g
    requires Explored(grid, g, current, g[current], 4)
    ensures Reached(grid, end, g, open, {})
  {
    forall n | Adjacent(current, n) && Free(grid, n)
      ensures n in g && g[n] <= g[current] + 1
    {
      var k := if n.y > current.y then 0 else if n.y < current.y then 1 else if n.x > current.x then 2 else 3;
      assert n == Neighbour(current, ExpandDirs()[k]);
    }
    assert Settled(grid, g, current);
  }

  /**
   * One neighbour of the expanded cell: skipped when outside the map or
   * blocked; otherwise its cost is looked up (infinity for a preset key,
   * KeyError for a missing one) and, when one more step improves it, the
   * neighbour gets the expanded cell as predecessor, the new cost, and a
   * queue entry unless it has one.
   */
  method Expand(m: GameMap, ghost grid: Grid, ghost start: Pos, ghost cells: set<Pos>, ghost bound: int,
                g: map<Pos, int>, cameFrom: map<Pos, Pos>, open: seq<Entry>, current: Pos, neighbor: Pos, end: Pos)
    returns (g': map<Pos, int>, cameFrom': map<Pos, Pos>, open': seq<Entry>, missing: bool)
    requires WellFormed(m) && grid == MapGrid(m) && cells == Cells(grid) && bound == |cells| + 1
    requires SearchInv(grid, start, cells, g, cameFrom, open) && current in g
    requires Reached(grid, end, g, open, {current})
    requires Adjacent(current, neighbor)
    ensures missing ==> m.width != m.height
    ensures !missing ==> SearchInv(grid, start, cells, g', cameFrom', open') && current in g'
    ensures !missing ==> Reached(grid, end, g', open', {current})
    ensures !missing ==> g'[current] == g[current] && forall p :: p in g ==> p in g' && g'[p] <= g[p]
    ensures !missing && Free(grid, neighbor) ==> neighbor in g' && g'[neighbor] <= g[current] + 1
    ensures !missing ==> Budget(cells, g', bound) < Budget(cells, g, bound) || (g' == g && open' == open)
  {
    g', cameFrom', open', missing := g, cameFrom, open, false;
    if 0 <= neighbor.x < m.width && 0 <= neighbor.y < m.height {
      if !IsBlocked(m, neighbor.x, neighbor.y) {
        var tentative := g[current] + 1;
        var improves: bool;
        if neighbor in g {
          improves := tentative < g[neighbor];
        } else if Preset(m, neighbor) {
          improves := true;
        } else {
          return g, cameFrom, open, true;
        }
        if improves {
          assert Free(grid, neighbor) by {
            assert grid.blocked(neighbor) == BlockedAt(m, neighbor);
          }
          Relax(grid, start, cells, bound, g, cameFrom, open, current, neighbor, tentative);
          cameFrom' := cameFrom[neighbor := current];
          g' := g[neighbor := tentative];
          if !InOpen(open, neighbor) {
            open' := open + [Entry((tentative + Manhattan(neighbor, end)) as real, neighbor)];
            assert open'[|open|].pos == neighbor;
          }
          RelaxReached(grid, end, g, open, open', current, neighbor, tentative);
        }
      }
    }
  }

  /**
   * Lowering the cost of a cell that ends up queued keeps every other
   * reached cell queued or settled.
   */
  lemma RelaxReached(grid: Grid, end: Pos, g: map<Pos, int>, open: seq<Entry>, open': seq<Entry>,
                     current: Pos, n: Pos, t: int)
    requires Reached(grid, end, g, open, {current})
    requires n in g ==> t < g[n]
    requires |open| <= |open'| && open'[..|open|] == open && InOpen(open', n)
    ensures Reached(grid, end, g[n := t], open', {current})
  {
    forall u | InOpen(open, u)
      ensures InOpen(open', u)
    {
      var i :| 0 <= i < |open| && open[i].pos == u;
      assert open'[i] == open[i];
    }
  }

  /**
   * Improving a free, in-bounds neighbour of a reached cell to one more
   * than that cell's cost keeps the search invariant and spends budget.
   */
  lemma Relax(grid: Grid, start: Pos, cells: set<Pos>, bound: int, g: map<Pos, int>, cameFrom: map<Pos, Pos>,
              open: seq<Entry>, current: Pos, n: Pos, t: int)
    requires SearchInv(grid, start, cells, g, cameFrom, open)
    requires cells == Cells(grid) && bound == |cells| + 1
    requires current in g && t == g[current] + 1
    requires Adjacent(current, n) && Free(grid, n)
    requires n in g ==> t < g[n]
    ensures SearchInv(grid, start, cells, g[n := t], cameFrom[n := current], open)
    ensures forall f :: SearchInv(grid, start, cells, g[n := t], cameFrom[n := current], open + [Entry(f, n)])
    ensures Budget(cells, g[n := t], bound) < Budget(cells, g, bound)
  {
    assert n in cells;
    assert n != start;
    RelaxCosts(start, cells, g, current, n, t);
    RelaxTree(grid, start, g, cameFrom, current, n, t);
    BudgetShrinks(cells, g, bound, n, t);
  }

}
