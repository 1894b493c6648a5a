/**
 * The hard rival (src/logic/strategies/hard_strategy.py): A* routes whose
 * steps cost 1 / weather multiplier, greedy order scoring, and the
 * deliver / re-target / replan decisions driven by two timers.
 */
module HardStrategies {
  import opened Common
  import opened Grids
  import opened Orders
  import opened Inventories
  import opened Players
  import opened Strategies

  /** The search heuristic: Manhattan distance, zero exactly at the goal. */
  function Heuristic(a: Pos, b: Pos): (d: nat)
    ensures d == 0 <==> a == b
  {
    Manhattan(a, b)
  }

  /** The heuristic is symmetric, and one step changes it by at most one. */
  lemma HeuristicConsistent(a: Pos, b: Pos, goal: Pos)
    requires Adjacent(a, b)
    ensures Heuristic(a, goal) == Heuristic(goal, a)
    ensures Heuristic(a, goal) <= Heuristic(b, goal) + 1
  {
  }

  /** The order the neighbours of a cell are tried in. */
  function Dirs(): (dirs: seq<Pos>)
    ensures |dirs| == 4 && forall k :: 0 <= k < 4 ==> UnitStep(dirs[k])
  {
    [Pos(-1, 0), Pos(1, 0), Pos(0, -1), Pos(0, 1)]
  }

  /** Every adjacent cell is tried. */
  lemma DirOf(u: Pos, n: Pos) returns (k: int)
    requires Adjacent(u, n)
    ensures 0 <= k < 4 && n == Neighbour(u, Dirs()[k])
  {
    if n.x < u.x {
      k := 0;
    } else if n.x > u.x {
      k := 1;
    } else if n.y < u.y {
      k := 2;
    } else {
      k := 3;
    }
  }

  // ---------------------------------------------------------------------
  // The search state. `g` is the source's g_score; the ghost map `hops`
  // counts the steps behind each cost, so that g[p] == c * hops[p] with c
  // the cost of one step.
  // ---------------------------------------------------------------------

  ghost predicate Scaled(g: map<Pos, real>, hops: map<Pos, int>, c: real)
  {
    g.Keys == hops.Keys && forall p :: p in g ==> g[p] == c * (hops[p] as real)
  }

  /** No queued priority is below the cost of its cell. */
  ghost predicate EntriesOk(g: map<Pos, real>, open: seq<Entry>)
  {
    forall i :: 0 <= i < |open| ==> open[i].pos in g && open[i].f >= g[open[i].pos]
  }

  /** Cell u has a queued entry no worse than its cost plus its distance to the goal. */
  ghost predicate Fresh(g: map<Pos, real>, goal: Pos, open: seq<Entry>, u: Pos)
  {
    u in g && exists i :: 0 <= i < |open| && open[i].pos == u && open[i].f <= g[u] + (Heuristic(u, goal) as real)
  }

  /** Cell u is queued or has been expanded at its present cost. */
  ghost predicate CoveredAt(grid: Grid, goal: Pos, g: map<Pos, real>, hops: map<Pos, int>, open: seq<Entry>, u: Pos)
  {
    Fresh(g, goal, open, u) || Settled(grid, hops, u)
  }

  /** Every reached cell outside `skip` is covered. */
  ghost predicate Covered(grid: Grid, goal: Pos, g: map<Pos, real>, hops: map<Pos, int>, open: seq<Entry>, skip: set<Pos>)
  {
    forall u {:trigger CoveredAt(grid, goal, g, hops, open, u)} ::
      u in hops && u !in skip ==> CoveredAt(grid, goal, g, hops, open, u)
  }

  ghost predicate HardInv(grid: Grid, start: Pos, goal: Pos, c: real, cells: set<Pos>, g: map<Pos, real>,
                          hops: map<Pos, int>, cameFrom: map<Pos, Pos>, open: seq<Entry>, skip: set<Pos>)
  {
    && CostsOk(start, cells, hops)
    && TreeOk(grid, start, hops, cameFrom)
    && Scaled(g, hops, c)
    && EntriesOk(g, open)
    && Covered(grid, goal, g, hops, open, skip)
    && (goal in g ==> Fresh(g, goal, open, goal))
  }

  // ---------------------------------------------------------------------
  // Arithmetic on scaled step counts.
  // ---------------------------------------------------------------------

  /** Scaling by a positive step cost keeps the order of step counts. */
  lemma Scale(c: real, a: int, b: int)
    requires c > 0.0
    ensures a <= b <==> c * (a as real) <= c * (b as real)
    ensures a < b <==> c * (a as real) < c * (b as real)
  {
    assert c * (b as real) - c * (a as real) == c * ((b - a) as real);
    if a < b {
      assert c * ((b - a) as real) >= c * 1.0;
    } else if b < a {
      assert c * ((a - b) as real) >= c * 1.0;
    }
  }

  /** One more step adds one step cost. */
  lemma StepCost(c: real, h: int)
    ensures c * (h as real) + c == c * ((h + 1) as real)
  {
  }

  /** With steps costing at least 1, the heuristic never overestimates the rest of a route. */
  lemma Admissible(c: real, k: int, len: int)
    requires c >= 1.0 && 0 <= k <= len
    ensures c * (k as real) + ((len - k) as real) <= c * (len as real)
  {
    assert c * (len as real) - c * (k as real) == c * ((len - k) as real);
    assert c * ((len - k) as real) >= 1.0 * ((len - k) as real);
  }

  // ---------------------------------------------------------------------
  // Routes, position by position.
  // ---------------------------------------------------------------------

  /** Position j of a route: the start for j == 0, else its j-th cell. */
  function PathCell(start: Pos, path: seq<Pos>, j: int): Pos
    requires 0 <= j <= |path|
  {
    if j == 0 then start else path[j - 1]
  }

  lemma {:induction false} WalkStep(start: Pos, path: seq<Pos>, j: int)
    requires Walk(start, path) && 0 <= j < |path|
    ensures Adjacent(PathCell(start, path, j), PathCell(start, path, j + 1))
    decreases j
  {
    if j > 0 {
      WalkStep(path[0], path[1..], j - 1);
      assert PathCell(path[0], path[1..], j - 1) == PathCell(start, path, j);
      assert PathCell(path[0], path[1..], j) == PathCell(start, path, j + 1);
    }
  }

  /** From position j of a route to the goal, the heuristic is at most the steps left. */
  lemma {:induction false} ToGoal(start: Pos, path: seq<Pos>, goal: Pos, j: int)
    requires Walk(start, path) && path != [] && path[|path| - 1] == goal
    requires 0 <= j <= |path|
    ensures Heuristic(PathCell(start, path, j), goal) <= |path| - j
    decreases |path| - j
  {
    if j < |path| {
      ToGoal(start, path, goal, j + 1);
      WalkStep(start, path, j);
      HeuristicConsistent(PathCell(start, path, j), PathCell(start, path, j + 1), goal);
    }
  }

  // ---------------------------------------------------------------------
  // The frontier: along any route, the first cell not yet expanded at its
  // present cost is queued with a priority no larger than the route's
  // cost would make it.
  // ---------------------------------------------------------------------

  lemma {:induction false} FrontierFrom(grid: Grid, start: Pos, goal: Pos, c: real, g: map<Pos, real>,
                                        hops: map<Pos, int>, open: seq<Entry>, path: seq<Pos>, j: int)
    returns (i: int, k: int)
    requires c > 0.0 && Scaled(g, hops, c)
    requires Covered(grid, goal, g, hops, open, {}) && (goal in g ==> Fresh(g, goal, open, goal))
    requires IsPath(grid, start, goal, path)
    requires 0 <= j <= |path| && PathCell(start, path, j) in hops && hops[PathCell(start, path, j)] <= j
    ensures 0 <= i < |open| && j <= k <= |path|
    ensures open[i].f <= c * (k as real) + ((|path| - k) as real)
    decreases |path| - j
  {
    var queued := CoverStep(grid, start, goal, g, hops, open, path, j);
    if queued {
      i := FreshEntry(grid, start, goal, c, g, hops, open, path, j);
      k := j;
    } else {
      i, k := FrontierFrom(grid, start, goal, c, g, hops, open, path, j + 1);
    }
  }

  /** Position j of a route is queued, or the route's next cell is reached in one more step. */
  lemma CoverStep(grid: Grid, start: Pos, goal: Pos, g: map<Pos, real>, hops: map<Pos, int>,
                  open: seq<Entry>, path: seq<Pos>, j: int)
    returns (queued: bool)
    requires g.Keys == hops.Keys
    requires Covered(grid, goal, g, hops, open, {}) && (goal in g ==> Fresh(g, goal, open, goal))
    requires IsPath(grid, start, goal, path)
    requires 0 <= j <= |path| && PathCell(start, path, j) in hops && hops[PathCell(start, path, j)] <= j
    ensures queued ==> Fresh(g, goal, open, PathCell(start, path, j))
    ensures !queued ==> j < |path| && PathCell(start, path, j + 1) in hops && hops[PathCell(start, path, j + 1)] <= j + 1
  {
    var u := PathCell(start, path, j);
    assert CoveredAt(grid, goal, g, hops, open, u);
    queued := j == |path| || Fresh(g, goal, open, u);
    if !queued {
      SettledStep(grid, start, goal, hops, path, j);
    }
  }

  /** A queued cell of the route gives an entry within the bound. */
  lemma FreshEntry(grid: Grid, start: Pos, goal: Pos, c: real, g: map<Pos, real>,
                   hops: map<Pos, int>, open: seq<Entry>, path: seq<Pos>, j: int)
    returns (i: int)
    requires c > 0.0 && Scaled(g, hops, c) && IsPath(grid, start, goal, path)
    requires 0 <= j <= |path| && PathCell(start, path, j) in hops && hops[PathCell(start, path, j)] <= j
    requires Fresh(g, goal, open, PathCell(start, path, j))
    ensures 0 <= i < |open|
    ensures open[i].f <= c * (j as real) + ((|path| - j) as real)
  {
    var u := PathCell(start, path, j);
    ToGoal(start, path, goal, j);
    Scale(c, hops[u], j);
    i :| 0 <= i < |open| && open[i].pos == u && open[i].f <= g[u] + (Heuristic(u, goal) as real);
    FreshBound(open[i].f, g[u], c * (hops[u] as real), c * (j as real), Heuristic(u, goal), |path| - j);
  }

  /** The successor of a settled cell of the route is reached in one more step. */
  lemma SettledStep(grid: Grid, start: Pos, goal: Pos, hops: map<Pos, int>, path: seq<Pos>, j: int)
    requires IsPath(grid, start, goal, path) && 0 <= j < |path|
    requires Settled(grid, hops, PathCell(start, path, j)) && hops[PathCell(start, path, j)] <= j
    ensures PathCell(start, path, j + 1) in hops && hops[PathCell(start, path, j + 1)] <= j + 1
  {
    WalkStep(start, path, j);
    assert PathCell(start, path, j + 1) == path[j];
    assert Free(grid, path[j]);
  }

  lemma FreshBound(f: real, gu: real, cu: real, cj: real, h: int, rest: int)
    requires f <= gu + (h as real) && gu == cu && cu <= cj && h <= rest
    ensures f <= cj + (rest as real)
  {
  }

  /**
   * While a route exists the queue is not empty; with steps costing at
   * least 1 it holds an entry no larger than the route's cost.
   */
  lemma Frontier(grid: Grid, start: Pos, goal: Pos, c: real, cells: set<Pos>, g: map<Pos, real>,
                 hops: map<Pos, int>, cameFrom: map<Pos, Pos>, open: seq<Entry>, path: seq<Pos>)
    returns (i: int)
    requires c > 0.0 && HardInv(grid, start, goal, c, cells, g, hops, cameFrom, open, {})
    requires IsPath(grid, start, goal, path)
    ensures 0 <= i < |open|
    ensures c >= 1.0 ==> open[i].f <= c * (|path| as real)
  {
    var k;
    i, k := FrontierFrom(grid, start, goal, c, g, hops, open, path, 0);
    if c >= 1.0 {
      Admissible(c, k, |path|);
    }
  }

  /** When the goal is popped, it has been reached in no more steps than any route has. */
  lemma Optimal(grid: Grid, start: Pos, goal: Pos, c: real, cells: set<Pos>, g: map<Pos, real>,
                hops: map<Pos, int>, cameFrom: map<Pos, Pos>, open: seq<Entry>, m: int)
    requires c >= 1.0 && HardInv(grid, start, goal, c, cells, g, hops, cameFrom, open, {})
    requires 0 <= m < |open| && open[m].pos == goal
    requires forall i :: 0 <= i < |open| ==> !EntryLess(open[i], open[m])
    ensures goal in hops
    ensures forall path :: IsPath(grid, start, goal, path) ==> hops[goal] <= |path|
  {
    forall path | IsPath(grid, start, goal, path)
      ensures hops[goal] <= |path|
    {
      OptimalFor(grid, start, goal, c, cells, g, hops, cameFrom, open, m, path);
    }
  }

  lemma OptimalFor(grid: Grid, start: Pos, goal: Pos, c: real, cells: set<Pos>, g: map<Pos, real>,
                   hops: map<Pos, int>, cameFrom: map<Pos, Pos>, open: seq<Entry>, m: int, path: seq<Pos>)
    requires c >= 1.0 && HardInv(grid, start, goal, c, cells, g, hops, cameFrom, open, {})
    requires 0 <= m < |open| && open[m].pos == goal
    requires forall i :: 0 <= i < |open| ==> !EntryLess(open[i], open[m])
    requires IsPath(grid, start, goal, path)
    ensures goal in hops && hops[goal] <= |path|
  {
    var i := Frontier(grid, start, goal, c, cells, g, hops, cameFrom, open, path);
    PoppedBound(g, hops, c, open, m, i, |path|);
  }

  /** A popped entry no larger than one within c * len has a cell reached in at most len steps. */
  lemma PoppedBound(g: map<Pos, real>, hops: map<Pos, int>, c: real, open: seq<Entry>, m: int, i: int, len: int)
    requires c > 0.0 && Scaled(g, hops, c) && EntriesOk(g, open)
    requires 0 <= m < |open| && 0 <= i < |open| && !EntryLess(open[i], open[m])
    requires open[i].f <= c * (len as real)
    ensures open[m].pos in hops && hops[open[m].pos] <= len
  {
    var goal := open[m].pos;
    assert open[m].f >= g[goal];
    ScaledBound(open[m].f, open[i].f, g[goal], c, hops[goal], len);
  }

  /** A popped priority between a scaled cost and a scaled route length bounds the step count. */
  lemma ScaledBound(fm: real, fi: real, gg: real, c: real, h: int, len: int)
    requires c > 0.0 && gg <= fm <= fi && fi <= c * (len as real) && gg == c * (h as real)
    ensures h <= len
  {
    Scale(c, h, len);
  }

  // ---------------------------------------------------------------------
  // One improvement: the neighbour n of the expanded cell gets one step
  // more than that cell, the expanded cell as predecessor and a new entry.
  // ---------------------------------------------------------------------

  lemma HardRelax(grid: Grid, start: Pos, goal: Pos, c: real, cells: set<Pos>, bound: int, g: map<Pos, real>,
                  hops: map<Pos, int>, cameFrom: map<Pos, Pos>, open: seq<Entry>, current: Pos, n: Pos)
    requires c > 0.0 && cells == Cells(grid) && bound == |cells| + 1
    requires HardInv(grid, start, goal, c, cells, g, hops, cameFrom, open, {current})
    requires current in hops && Adjacent(current, n) && Free(grid, n)
    requires n in g ==> g[current] + c < g[n]
    ensures n != current
    ensures HardInv(grid, start, goal, c, cells, g[n := g[current] + c], hops[n := hops[current] + 1],
                    cameFrom[n := current], open + [Entry(g[current] + c + (Heuristic(n, goal) as real), n)], {current})
    ensures Budget(cells, hops[n := hops[current] + 1], bound) < Budget(cells, hops, bound)
  {
    var t := hops[current] + 1;
    Improvement(g, hops, c, start, current, n);
    assert n in cells;
    RelaxCosts(start, cells, hops, current, n, t);
    RelaxTree(grid, start, hops, cameFrom, current, n, t);
    BudgetShrinks(cells, hops, bound, n, t);
    var tg := g[current] + c;
    var open' := open + [Entry(tg + (Heuristic(n, goal) as real), n)];
    RelaxScaled(g, hops, c, current, n);
    RelaxEntries(g, open, n, tg, Heuristic(n, goal));
    RelaxCovered(grid, goal, g, hops, open, {current}, n, tg, t);
    RelaxGoal(g, goal, open, n, tg);
  }

  /** An improving step, read on step counts. */
  lemma Improvement(g: map<Pos, real>, hops: map<Pos, int>, c: real, start: Pos, current: Pos, n: Pos)
    requires c > 0.0 && Scaled(g, hops, c) && current in hops && start in hops && hops[start] == 0
    requires forall p :: p in hops ==> 0 <= hops[p]
    requires n in g ==> g[current] + c < g[n]
    ensures n in hops ==> hops[current] + 1 < hops[n]
    ensures n != start
  {
    StepCost(c, hops[current]);
    if n in g {
      Scale(c, hops[current] + 1, hops[n]);
    }
  }

  lemma RelaxScaled(g: map<Pos, real>, hops: map<Pos, int>, c: real, current: Pos, n: Pos)
    requires Scaled(g, hops, c) && current in hops
    ensures Scaled(g[n := g[current] + c], hops[n := hops[current] + 1], c)
  {
    StepCost(c, hops[current]);
  }

  lemma RelaxEntries(g: map<Pos, real>, open: seq<Entry>, n: Pos, tg: real, h: nat)
    requires EntriesOk(g, open) && (n in g ==> tg < g[n])
    ensures EntriesOk(g[n := tg], open + [Entry(tg + (h as real), n)])
  {
  }

  lemma RelaxCovered(grid: Grid, goal: Pos, g: map<Pos, real>, hops: map<Pos, int>, open: seq<Entry>,
                     skip: set<Pos>, n: Pos, tg: real, t: int)
    requires Covered(grid, goal, g, hops, open, skip) && g.Keys == hops.Keys
    requires n in hops ==> t < hops[n]
    ensures Covered(grid, goal, g[n := tg], hops[n := t], open + [Entry(tg + (Heuristic(n, goal) as real), n)], skip)
  {
    var g', hops', open' := g[n := tg], hops[n := t], open + [Entry(tg + (Heuristic(n, goal) as real), n)];
    forall u | u in hops' && u !in skip
      ensures CoveredAt(grid, goal, g', hops', open', u)
    {
      if u == n {
        assert open'[|open|].pos == u;
      } else {
        assert CoveredAt(grid, goal, g, hops, open, u);
        if Fresh(g, goal, open, u) {
          var i :| 0 <= i < |open| && open[i].pos == u && open[i].f <= g[u] + (Heuristic(u, goal) as real);
          assert open'[i] == open[i];
        } else {
          assert Settled(grid, hops', u);
        }
      }
    }
  }

  lemma RelaxGoal(g: map<Pos, real>, goal: Pos, open: seq<Entry>, n: Pos, tg: real)
    requires goal in g ==> Fresh(g, goal, open, goal)
    ensures goal in g[n := tg] ==> Fresh(g[n := tg], goal, open + [Entry(tg + (Heuristic(n, goal) as real), n)], goal)
  {
    var open' := open + [Entry(tg + (Heuristic(n, goal) as real), n)];
    if goal == n {
      assert open'[|open|].pos == goal;
    } else if goal in g {
      var i :| 0 <= i < |open| && open[i].pos == goal && open[i].f <= g[goal] + (Heuristic(goal, goal) as real);
      assert open'[i] == open[i];
    }
  }

  /** A neighbour whose cost does not improve is at most one step behind. */
  lemma NoImprovement(g: map<Pos, real>, hops: map<Pos, int>, c: real, current: Pos, n: Pos)
    requires c > 0.0 && Scaled(g, hops, c) && current in hops && n in g
    requires !(g[current] + c < g[n])
    ensures hops[n] <= hops[current] + 1
  {
    StepCost(c, hops[current]);
    Scale(c, hops[n], hops[current] + 1);
  }

  /** Popping the expanded cell's entry leaves every other cell covered. */
  lemma Pop(grid: Grid, start: Pos, goal: Pos, c: real, cells: set<Pos>, g: map<Pos, real>,
            hops: map<Pos, int>, cameFrom: map<Pos, Pos>, open: seq<Entry>, k: int)
    requires HardInv(grid, start, goal, c, cells, g, hops, cameFrom, open, {})
    requires 0 <= k < |open| && open[k].pos != goal
    ensures open[k].pos in hops
    ensures HardInv(grid, start, goal, c, cells, g, hops, cameFrom, RemoveAt(open, k), {open[k].pos})
  {
    var current := open[k].pos;
    var rest := RemoveAt(open, k);
    forall u | u in hops && u != current
      ensures CoveredAt(grid, goal, g, hops, rest, u)
    {
      assert CoveredAt(grid, goal, g, hops, open, u);
      if Fresh(g, goal, open, u) {
        var i :| 0 <= i < |open| && open[i].pos == u && open[i].f <= g[u] + (Heuristic(u, goal) as real);
        assert i != k;
        if i < k {
          assert rest[i] == open[i];
        } else {
          assert rest[i - 1] == open[i];
        }
      }
    }
    if goal in g {
      var i :| 0 <= i < |open| && open[i].pos == goal && open[i].f <= g[goal] + (Heuristic(goal, goal) as real);
      if i < k {
        assert rest[i] == open[i];
      } else {
        assert rest[i - 1] == open[i];
      }
    }
  }

  /** The free neighbours in the first d directions are at most one step behind a cell h0 steps away. */
  ghost predicate Tried(grid: Grid, hops: map<Pos, int>, current: Pos, h0: int, d: int)
  {
    forall k :: 0 <= k < d && k < 4 && Free(grid, Neighbour(current, Dirs()[k])) ==>
      Neighbour(current, Dirs()[k]) in hops && hops[Neighbour(current, Dirs()[k])] <= h0 + 1
  }

  lemma TriedOneMore(grid: Grid, hops: map<Pos, int>, hops': map<Pos, int>, current: Pos, h0: int, d: int)
    requires 0 <= d < 4 && Tried(grid, hops, current, h0, d)
    requires forall p :: p in hops ==> p in hops' && hops'[p] <= hops[p]
    requires Free(grid, Neighbour(current, Dirs()[d])) ==>
               Neighbour(current, Dirs()[d]) in hops' && hops'[Neighbour(current, Dirs()[d])] <= h0 + 1
    ensures Tried(grid, hops', current, h0, d + 1)
  {
  }

  /** Once every neighbour has been tried, the expanded cell is settled. */
  lemma Settle(grid: Grid, start: Pos, goal: Pos, c: real, cells: set<Pos>, g: map<Pos, real>,
               hops: map<Pos, int>, cameFrom: map<Pos, Pos>, open: seq<Entry>, current: Pos)
    requires HardInv(grid, start, goal, c, cells, g, hops, cameFrom, open, {current})
    requires current in hops
    requires Tried(grid, hops, current, hops[current], 4)
    ensures HardInv(grid, start, goal, c, cells, g, hops, cameFrom, open, {})
  {
    forall n | Adjacent(current, n) && Free(grid, n)
      ensures n in hops && hops[n] <= hops[current] + 1
    {
      var k := DirOf(current, n);
    }
    assert CoveredAt(grid, goal, g, hops, open, current);
  }

  /**
   * One neighbour of the expanded cell: skipped when outside the city or
   * blocked; otherwise it gets the expanded cell as predecessor, the new
   * cost and a queue entry whenever one more step improves its cost (a
   * cell without a cost costs infinity).
   */
  method TryNeighbour(grid: Grid, mult: real, ghost c: real, ghost start: Pos, goal: Pos, ghost cells: set<Pos>,
                      ghost bound: int, g: map<Pos, real>, ghost hops: map<Pos, int>, cameFrom: map<Pos, Pos>,
                      open: seq<Entry>, current: Pos, neighbor: Pos)
    returns (g': map<Pos, real>, ghost hops': map<Pos, int>, cameFrom': map<Pos, Pos>, open': seq<Entry>)
    requires mult > 0.0 && c == 1.0 / mult && cells == Cells(grid) && bound == |cells| + 1
    requires HardInv(grid, start, goal, c, cells, g, hops, cameFrom, open, {current})
    requires current in hops && Adjacent(current, neighbor)
    ensures HardInv(grid, start, goal, c, cells, g', hops', cameFrom', open', {current})
    ensures current in hops' && hops'[current] == hops[current]
    ensures forall p :: p in hops ==> p in hops' && hops'[p] <= hops[p]
    ensures Free(grid, neighbor) ==> neighbor in hops' && hops'[neighbor] <= hops[current] + 1
    ensures Budget(cells, hops', bound) < Budget(cells, hops, bound) || (hops' == hops && open' == open)
  {
    g', hops', cameFrom', open' := g, hops, cameFrom, open;
    if !(0 <= neighbor.x < grid.width && 0 <= neighbor.y < grid.height) {
      return;
    }
    if grid.blocked(neighbor) {
      return;
    }
    var terrainCost := 1.0 / mult;
    var tentative := g[current] + terrainCost;
    if neighbor !in g || tentative < g[neighbor] {
      HardRelax(grid, start, goal, c, cells, bound, g, hops, cameFrom, open, current, neighbor);
      cameFrom' := cameFrom[neighbor := current];
      g' := g[neighbor := tentative];
      hops' := hops[neighbor := hops[current] + 1];
      open' := open + [Entry(tentative + (Heuristic(neighbor, goal) as real), neighbor)];
    } else {
      NoImprovement(g, hops, c, current, neighbor);
    }
  }

  /** The expansion of one popped cell: its neighbours in the order of Dirs(). */
  method Expand(grid: Grid, mult: real, ghost c: real, ghost start: Pos, goal: Pos, ghost cells: set<Pos>,
                ghost bound: int, g: map<Pos, real>, ghost hops: map<Pos, int>, cameFrom: map<Pos, Pos>,
                open: seq<Entry>, current: Pos)
    returns (g': map<Pos, real>, ghost hops': map<Pos, int>, cameFrom': map<Pos, Pos>, open': seq<Entry>)
    requires mult > 0.0 && c == 1.0 / mult && cells == Cells(grid) && bound == |cells| + 1
    requires HardInv(grid, start, goal, c, cells, g, hops, cameFrom, open, {current}) && current in hops
    ensures HardInv(grid, start, goal, c, cells, g', hops', cameFrom', open', {})
    ensures Budget(cells, hops', bound) < Budget(cells, hops, bound) || (hops' == hops && open' == open)
  {
    var dirs := Dirs();
    g', hops', cameFrom', open' := g, hops, cameFrom, open;
    for d := 0 to 4
      invariant HardInv(grid, start, goal, c, cells, g', hops', cameFrom', open', {current})
      invariant current in hops' && hops'[current] == hops[current]
      invariant Tried(grid, hops', current, hops[current], d)
      invariant Budget(cells, hops', bound) < Budget(cells, hops, bound) || (hops' == hops && open' == open)
    {
      var neighbor := Neighbour(current, dirs[d]);
      ghost var before := hops';
      g', hops', cameFrom', open' := TryNeighbour(grid, mult, c, start, goal, cells, bound, g', hops', cameFrom', open', current, neighbor);
      TriedOneMore(grid, before, hops', current, hops[current], d);
    }
    Settle(grid, start, goal, c, cells, g', hops', cameFrom', open', current);
  }

  /** The search starts from the start cell alone, at cost 0 and priority 0. */
  lemma Init(grid: Grid, start: Pos, goal: Pos, c: real)
    ensures HardInv(grid, start, goal, c, Cells(grid), map[start := 0.0], map[start := 0], map[], [Entry(0.0, start)], {})
  {
    var g, hops, open := map[start := 0.0], map[start := 0], [Entry(0.0, start)];
    assert hops.Keys == {start};
    assert open[0].pos == start && open[0].f <= g[start] + (Heuristic(start, goal) as real);
    assert Fresh(g, goal, open, start);
    assert CoveredAt(grid, goal, g, hops, open, start);
    assert Covered(grid, goal, g, hops, open, {});
  }

  /** While a route exists the queue is not empty. */
  lemma RouteKeepsQueue(grid: Grid, start: Pos, goal: Pos, c: real, cells: set<Pos>, g: map<Pos, real>,
                        hops: map<Pos, int>, cameFrom: map<Pos, Pos>, open: seq<Entry>)
    requires c > 0.0 && HardInv(grid, start, goal, c, cells, g, hops, cameFrom, open, {})
    ensures forall path :: IsPath(grid, start, goal, path) ==> open != []
  {
    forall path | IsPath(grid, start, goal, path)
      ensures open != []
    {
      var i := Frontier(grid, start, goal, c, cells, g, hops, cameFrom, open, path);
    }
  }

  /** A step cost of at least 1 is a multiplier of at most 1. */
  lemma StepAtLeastOne(mult: real)
    requires mult > 0.0
    ensures 1.0 / mult > 0.0
    ensures mult <= 1.0 ==> 1.0 / mult >= 1.0
  {
    if mult <= 1.0 {
      assert (1.0 / mult) * mult == 1.0;
    }
  }

  /**
   * What a plan from start to goal is: empty when they coincide and
   * exactly when no route exists, otherwise a route, and with a weather
   * multiplier of at most 1 a route of the fewest steps.
   */
  ghost predicate Planned(grid: Grid, weatherMult: real, start: Pos, goal: Pos, path: seq<Pos>)
  {
    && (start == goal ==> path == [])
    && (path != [] ==> IsPath(grid, start, goal, path))
    && (path == [] && start != goal ==> forall p :: !IsPath(grid, start, goal, p))
    && (path != [] && weatherMult <= 1.0 ==> forall p :: IsPath(grid, start, goal, p) ==> |path| <= |p|)
  }

  /**
   * _find_path: A* over the city from start to goal, every step costing
   * 1 / weatherMult, with the Manhattan heuristic; an improved neighbour is
   * queued again even when it already has an entry. The result is empty
   * when start and goal coincide and exactly when no route exists; a
   * non-empty result is a route. With weatherMult at most 1 each step
   * costs at least 1, the heuristic never overestimates, and the route
   * has the fewest steps of all routes.
   */
  method FindPath(grid: Grid, weatherMult: real, start: Pos, goal: Pos) returns (path: seq<Pos>)
    requires weatherMult > 0.0
    ensures Planned(grid, weatherMult, start, goal, path)
  {
    ghost var c := 1.0 / weatherMult;
    StepAtLeastOne(weatherMult);
    ghost var cells := Cells(grid);
    ghost var bound := |cells| + 1;
    var open := [Entry(0.0, start)];
    var cameFrom: map<Pos, Pos> := map[];
    var g: map<Pos, real> := map[start := 0.0];
    ghost var hops: map<Pos, int> := map[start := 0];
    Init(grid, start, goal, c);
    while open != []
      invariant HardInv(grid, start, goal, c, cells, g, hops, cameFrom, open, {})
      decreases Budget(cells, hops, bound), |open|
    {
      var k := MinEntry(open);
      var current := open[k].pos;
      if current == goal {
        if weatherMult <= 1.0 {
          Optimal(grid, start, goal, c, cells, g, hops, cameFrom, open, k);
        }
        path := Reconstruct(grid, start, cells, hops, cameFrom, current);
        return;
      }
      Pop(grid, start, goal, c, cells, g, hops, cameFrom, open, k);
      open := RemoveAt(open, k);
      g, hops, cameFrom, open := Expand(grid, weatherMult, c, start, goal, cells, bound, g, hops, cameFrom, open, current);
    }
    RouteKeepsQueue(grid, start, goal, c, cells, g, hops, cameFrom, open);
    path := [];
  }

  // ---------------------------------------------------------------------
  // Order choice.
  // ---------------------------------------------------------------------

  /**
   * _evaluate_order: the payout (10 when missing) less half the distance
   * to the pickup and on to the dropoff, each step weighted by the weather.
   * No capacity check.
   */
  function EvaluateOrder(d: OrderData, pos: Pos, weatherMult: real): (r: real)
    requires weatherMult > 0.0
    ensures r <= PayoutOr10(d)
    ensures r == PayoutOr10(d) <==> d.pickup == pos && d.dropoff == d.pickup
  {
    var distance := Manhattan(d.pickup, pos);
    var deliveryDistance := Manhattan(d.dropoff, d.pickup);
    var cost := (distance + deliveryDistance) as real / weatherMult;
    PayoutOr10(d) - 0.5 * cost
  }

  /** Dividing by a larger positive number gives no more. */
  lemma DivAntitone(n: real, m1: real, m2: real)
    requires n >= 0.0 && 0.0 < m1 <= m2
    ensures n / m2 <= n / m1
  {
    var q1, q2 := n / m1, n / m2;
    assert q1 * m1 == n && q2 * m2 == n;
    assert q1 >= 0.0;
    assert q1 * m1 <= q1 * m2;
    assert q2 * m2 <= q1 * m2;
  }

  /** Dividing by a positive number keeps the order. */
  lemma DivMonotone(a: real, b: real, m: real)
    requires a <= b && m > 0.0
    ensures a / m <= b / m
  {
    var qa, qb := a / m, b / m;
    assert qa * m == a && qb * m == b;
    assert (qb - qa) * m == b - a;
  }

  /** Worse weather (a smaller multiplier) never raises a score. */
  lemma EvaluateOrderWeather(d: OrderData, pos: Pos, m1: real, m2: real)
    requires 0.0 < m1 <= m2
    ensures EvaluateOrder(d, pos, m1) <= EvaluateOrder(d, pos, m2)
  {
    DivAntitone((Manhattan(d.pickup, pos) + Manhattan(d.dropoff, d.pickup)) as real, m1, m2);
  }

  /** A shorter trip never lowers a score of the same payout. */
  lemma EvaluateOrderDistance(d: OrderData, e: OrderData, pos: Pos, weatherMult: real)
    requires weatherMult > 0.0 && PayoutOr10(d) == PayoutOr10(e)
    requires Manhattan(d.pickup, pos) + Manhattan(d.dropoff, d.pickup) <= Manhattan(e.pickup, pos) + Manhattan(e.dropoff, e.pickup)
    ensures EvaluateOrder(e, pos, weatherMult) <= EvaluateOrder(d, pos, weatherMult)
  {
    DivMonotone((Manhattan(d.pickup, pos) + Manhattan(d.dropoff, d.pickup)) as real,
                (Manhattan(e.pickup, pos) + Manhattan(e.dropoff, e.pickup)) as real, weatherMult);
  }

  /** The score of every available order. */
  function Scores(available: seq<OrderData>, pos: Pos, weatherMult: real): (r: seq<Score>)
    requires weatherMult > 0.0
    ensures |r| == |available|
    ensures forall i :: 0 <= i < |available| ==> r[i] == Fin(EvaluateOrder(available[i], pos, weatherMult))
  {
    MapSeq(available, (d: OrderData) => Fin(EvaluateOrder(d, pos, weatherMult)))
  }

  /** `max(available, key=_evaluate_order)`: the first order of the best score. */
  function BestOrder(available: seq<OrderData>, pos: Pos, weatherMult: real): (best: OrderData)
    requires weatherMult > 0.0 && available != []
    ensures best in available
    ensures forall d :: d in available ==>
      EvaluateOrder(d, pos, weatherMult) <= EvaluateOrder(best, pos, weatherMult)
    ensures exists k :: (0 <= k < |available| && available[k] == best &&
      forall i :: 0 <= i < k ==> EvaluateOrder(available[i], pos, weatherMult) < EvaluateOrder(best, pos, weatherMult))
  {
    var scores := Scores(available, pos, weatherMult);
    var k := ArgMax(scores);
    assert forall i :: 0 <= i < |available| ==> !ScoreLess(scores[k], scores[i]);
    assert forall i :: 0 <= i < k ==> ScoreLess(scores[i], scores[k]);
    available[k]
  }

  // ---------------------------------------------------------------------
  // The strategy object.
  // ---------------------------------------------------------------------

  /** The fields of a hard strategy that its decisions update. */
  datatype HardFields = HardFields(
    targetOrderId: Option<string>,
    currentPath: seq<Pos>,
    reEvaluationTimer: real,
    lastWeatherMultiplier: real,
    recalcTimer: real)

  /**
   * The outcome of decide_job_action, taking the fields from s to t, for a
   * rival at pos whose inventory holds `orders` with `current` as its
   * current order, after dt seconds; the decision acted exactly when
   * `effect` is not NoEffect.
   *
   * Carrying an order: on its dropoff, deliver and clear path and target;
   * elsewhere replan to the dropoff exactly when the path was empty, the
   * replan timer reaches its interval or the weather multiplier changed.
   * Empty-handed: the re-evaluation timer counts down; on expiry or
   * without a target the best available order (if any) becomes the target
   * with a planned path to its pickup, and the timer is redrawn; the
   * decision accepts exactly when the target is available here and the
   * game accepts it, clearing the path.
   */
  ghost predicate JobDecided(s: HardFields, t: HardFields, maxRecalcInterval: real, pos: Pos,
                             orders: seq<Order>, current: Option<Order>,
                             world: World, dt: real, timerDraw: real, effect: Effect)
    requires world.weatherMult > 0.0
  {
    && (current.Some? && pos == current.value.dropoff ==>
          && effect == DeliveryCompleted
          && t.currentPath == [] && t.targetOrderId == None
          && t.reEvaluationTimer == s.reEvaluationTimer && t.recalcTimer == s.recalcTimer
          && t.lastWeatherMultiplier == s.lastWeatherMultiplier)
    && (current.Some? && pos != current.value.dropoff ==>
          var replan := s.currentPath == [] || s.recalcTimer + dt >= maxRecalcInterval
                        || world.weatherMult != s.lastWeatherMultiplier;
          && effect == NoEffect
          && t.targetOrderId == s.targetOrderId && t.reEvaluationTimer == s.reEvaluationTimer
          && (replan ==> Planned(world.city, world.weatherMult, pos, current.value.dropoff, t.currentPath)
                         && t.recalcTimer == 0.0 && t.lastWeatherMultiplier == world.weatherMult)
          && (!replan ==> t.currentPath == s.currentPath && t.recalcTimer == s.recalcTimer + dt
                          && t.lastWeatherMultiplier == s.lastWeatherMultiplier))
    && (orders == [] ==>
          var retarget := s.reEvaluationTimer - dt <= 0.0 || !HasTarget(s.targetOrderId);
          var accepted := effect != NoEffect;
          && t.recalcTimer == s.recalcTimer && t.lastWeatherMultiplier == s.lastWeatherMultiplier
          && (retarget ==> t.reEvaluationTimer == timerDraw)
          && (!retarget ==> t.reEvaluationTimer == s.reEvaluationTimer - dt && t.targetOrderId == s.targetOrderId)
          && (retarget && world.available == [] ==> t.targetOrderId == s.targetOrderId)
          && (retarget && world.available != [] ==>
                t.targetOrderId == Some(BestOrder(world.available, pos, world.weatherMult).id))
          && (accepted <==>
                && HasTarget(t.targetOrderId)
                && exists i :: 0 <= i < |world.available| &&
                     AtPickup(world.available[i], t.targetOrderId, pos) && world.acceptsOrder(world.available[i]))
          && (accepted ==>
                && effect.OrderAccepted? && t.currentPath == []
                && AtPickup(effect.order, t.targetOrderId, pos) && effect.order in world.available)
          && (!accepted && retarget && world.available != [] ==>
                Planned(world.city, world.weatherMult, pos,
                        BestOrder(world.available, pos, world.weatherMult).pickup, t.currentPath))
          && (!accepted && !(retarget && world.available != []) ==> t.currentPath == s.currentPath))
  }

  class HardStrategy {
    /** The rival's courier state: position and inventory. */
    const rival: Player
    var targetOrderId: Option<string>
    var currentPath: seq<Pos>
    var reEvaluationTimer: real
    var lastWeatherMultiplier: real
    /** Seconds between weather-driven replans. */
    const maxRecalcInterval: real
    var recalcTimer: real

    /** The fields the strategy's decisions update. */
    function Fields(): HardFields
      reads this
    {
      HardFields(targetOrderId, currentPath, reEvaluationTimer, lastWeatherMultiplier, recalcTimer)
    }

    /**
     * A new strategy: no target, no path, a re-evaluation timer drawn from
     * [5, 10] and the current weather multiplier remembered.
     */
    constructor (rival: Player, weatherMult: real, timerDraw: real)
      requires 5.0 <= timerDraw <= 10.0
      ensures this.rival == rival
      ensures targetOrderId == None && currentPath == []
      ensures reEvaluationTimer == timerDraw && lastWeatherMultiplier == weatherMult
      ensures maxRecalcInterval == 5.0 && recalcTimer == 0.0
    {
      this.rival := rival;
      targetOrderId := None;
      currentPath := [];
      reEvaluationTimer := timerDraw;
      lastWeatherMultiplier := weatherMult;
      maxRecalcInterval := 5.0;
      recalcTimer := 0.0;
    }

    /**
     * next_move: with a planned path, takes its first cell off and returns
     * the offset from the rival to it; with none, runs the job decision
     * with no elapsed time and stays put.
     */
    method NextMove(world: World, timerDraw: real) returns (d: Pos, effect: Effect)
      requires rival.inventory.Valid() && world.weatherMult > 0.0 && 5.0 <= timerDraw <= 10.0
      modifies this
      ensures old(currentPath) != [] ==>
        && currentPath == old(currentPath)[1..]
        && Pos(rival.x + d.x, rival.y + d.y) == old(currentPath)[0]
        && effect == NoEffect
        && targetOrderId == old(targetOrderId) && reEvaluationTimer == old(reEvaluationTimer)
        && recalcTimer == old(recalcTimer) && lastWeatherMultiplier == old(lastWeatherMultiplier)
      ensures old(currentPath) == [] ==>
        && d == Pos(0, 0)
        && JobDecided(old(Fields()), Fields(), maxRecalcInterval, Pos(rival.x, rival.y), rival.inventory.orders,
                      rival.inventory.CurrentOrder(), world, 0.0, timerDraw, effect)
    {
      if currentPath != [] {
        var nextStep := currentPath[0];
        currentPath := currentPath[1..];
        d := StepOffset(Pos(rival.x, rival.y), nextStep);
        effect := NoEffect;
      } else {
        var _, e := DecideJobAction(0.0, world, timerDraw);
        effect := e;
        d := Pos(0, 0);
      }
    }

    /**
     * decide_job_action. Carrying an order: deliver when on its dropoff
     * (clearing path and target); otherwise replan to the dropoff when the
     * path is empty, the replan timer reaches its interval or the weather
     * multiplier changed. Empty-handed: count the re-evaluation timer down;
     * on expiry or without a target choose the best available order (if
     * any) and plan to its pickup, and draw a new timer; then, with a
     * target, try to pick it up here.
     */
    method DecideJobAction(dt: real, world: World, timerDraw: real) returns (acted: bool, effect: Effect)
      requires rival.inventory.Valid() && world.weatherMult > 0.0 && 5.0 <= timerDraw <= 10.0
      modifies this
      ensures acted <==> effect != NoEffect
      ensures JobDecided(old(Fields()), Fields(), maxRecalcInterval, Pos(rival.x, rival.y), rival.inventory.orders,
                         rival.inventory.CurrentOrder(), world, dt, timerDraw, effect)
    {
      var currentPos := Pos(rival.x, rival.y);
      acted, effect := false, NoEffect;
      var current := rival.inventory.CurrentOrder();
      if current.Some? {
        var dropoff := current.value.dropoff;
        if currentPos == dropoff {
          currentPath := [];
          targetOrderId := None;
          return true, DeliveryCompleted;
        }
        recalcTimer := recalcTimer + dt;
        var currentWeather := world.weatherMult;
        if currentPath == [] || recalcTimer >= maxRecalcInterval || currentWeather != lastWeatherMultiplier {
          currentPath := FindPath(world.city, currentWeather, currentPos, dropoff);
          lastWeatherMultiplier := currentWeather;
          recalcTimer := 0.0;
        }
      } else {
        // The source's `elif order_count == 0`: an inventory without a
        // current node is empty, so the condition holds here.
        assert rival.inventory.orderCount == 0;
        reEvaluationTimer := reEvaluationTimer - dt;
        if reEvaluationTimer <= 0.0 || !HasTarget(targetOrderId) {
          var availableOrders := world.available;
          if availableOrders != [] {
            var bestOrder := BestOrder(availableOrders, currentPos, world.weatherMult);
            targetOrderId := Some(bestOrder.id);
            currentPath := FindPath(world.city, world.weatherMult, currentPos, bestOrder.pickup);
          }
          reEvaluationTimer := timerDraw;
        }
        if HasTarget(targetOrderId) {
          var k := TryPickup(world, targetOrderId, currentPos);
          if k < |world.available| {
            currentPath := [];
            return true, OrderAccepted(world.available[k]);
          }
        }
      }
    }
  }
}

