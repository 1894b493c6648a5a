/**
 * The medium rival (src/logic/strategies/medium_strategy.py): a weighted
 * order score that rules out orders the rival cannot carry, a greedy walk
 * of at most 30 steps toward a target, and the deliver / re-target / pick
 * up decision driven by a re-evaluation timer.
 */
module MediumStrategies {
  import opened Common
  import opened Grids
  import opened Orders
  import opened Inventories
  import opened Players
  import opened Strategies

  /** Weight of the payout in the score. */
  const ALPHA: real := 2.0
  /** Weight of the distance to the pickup. */
  const BETA: real := 1.0
  /** Weight of the weather penalty. */
  const GAMMA: real := 0.5
  /** The greedy walk's step limit. */
  const MAX_STEPS: nat := 30

  // ---------------------------------------------------------------------
  // Order score.
  // ---------------------------------------------------------------------

  /**
   * _evaluate_order: twice the payout (10 when missing), less the distance
   * to the pickup and half of twenty times the weather's shortfall from
   * 1.0; minus infinity when the order's weight (0 when missing) would take
   * the rival past its capacity.
   */
  function MediumScore(d: OrderData, pos: Pos, weatherMult: real, totalWeight: int, maxWeight: int): (s: Score)
    ensures s == NegInf <==> totalWeight + WeightOr0(d) > maxWeight
    ensures s.Fin? ==> s.value <= ALPHA * PayoutOr10(d) - GAMMA * ((1.0 - weatherMult) * 20.0)
    ensures s.Fin? ==> (s.value == ALPHA * PayoutOr10(d) - GAMMA * ((1.0 - weatherMult) * 20.0) <==> d.pickup == pos)
  {
    var payout := PayoutOr10(d);
    var distance := Manhattan(d.pickup, pos);
    var weatherPenaltyTerm := (1.0 - weatherMult) * 20.0;
    var score := ALPHA * payout - BETA * distance as real - GAMMA * weatherPenaltyTerm;
    if totalWeight + WeightOr0(d) > maxWeight then NegInf else Fin(score)
  }

  /** Of two carryable orders with the same payout, the nearer pickup scores no lower. */
  lemma MediumScoreNearer(d: OrderData, e: OrderData, pos: Pos, weatherMult: real, totalWeight: int, maxWeight: int)
    requires PayoutOr10(d) == PayoutOr10(e)
    requires totalWeight + WeightOr0(d) <= maxWeight && totalWeight + WeightOr0(e) <= maxWeight
    requires Manhattan(d.pickup, pos) <= Manhattan(e.pickup, pos)
    ensures !ScoreLess(MediumScore(d, pos, weatherMult, totalWeight, maxWeight),
                       MediumScore(e, pos, weatherMult, totalWeight, maxWeight))
  {
  }

  /** Better weather (a larger multiplier) never lowers a score. */
  lemma MediumScoreWeather(d: OrderData, pos: Pos, m1: real, m2: real, totalWeight: int, maxWeight: int)
    requires m1 <= m2
    ensures !ScoreLess(MediumScore(d, pos, m2, totalWeight, maxWeight),
                       MediumScore(d, pos, m1, totalWeight, maxWeight))
  {
  }

  function MediumScores(available: seq<OrderData>, pos: Pos, weatherMult: real, totalWeight: int, maxWeight: int): (r: seq<Score>)
    ensures |r| == |available|
    ensures forall i :: 0 <= i < |available| ==> r[i] == MediumScore(available[i], pos, weatherMult, totalWeight, maxWeight)
  {
    MapSeq(available, (d: OrderData) => MediumScore(d, pos, weatherMult, totalWeight, maxWeight))
  }

  // ---------------------------------------------------------------------
  // Greedy walk.
  // ---------------------------------------------------------------------

  /** The sign of b - a: the unit step from a toward b along one axis. */
  function Toward(a: int, b: int): (s: int)
    ensures s == 0 <==> a == b
    ensures Abs(b - (a + s)) + (if a == b then 0 else 1) == Abs(b - a)
  {
    if b > a then 1 else if b < a then -1 else 0
  }

  /** One step toward the end along x, and along y. */
  function XStep(p: Pos, end: Pos): Pos
  {
    Pos(p.x + Toward(p.x, end.x), p.y)
  }

  function YStep(p: Pos, end: Pos): Pos
  {
    Pos(p.x, p.y + Toward(p.y, end.y))
  }

  /**
   * The cell the walk tries next: a step along the axis of the larger
   * difference (y on a tie), or along the other axis when that step is
   * blocked and the other difference is not zero.
   */
  function Choice(blocked: Pos -> bool, p: Pos, end: Pos): Pos
  {
    if Abs(end.x - p.x) > Abs(end.y - p.y) then
      if blocked(XStep(p, end)) && Toward(p.y, end.y) != 0 then YStep(p, end) else XStep(p, end)
    else
      if blocked(YStep(p, end)) && Toward(p.x, end.x) != 0 then XStep(p, end) else YStep(p, end)
  }

  /**
   * Away from the end, the choice is an adjacent cell one step nearer the
   * end; it leaves the preferred axis only when the preferred step is
   * blocked and the other axis still differs.
   */
  lemma ChoiceStep(blocked: Pos -> bool, p: Pos, end: Pos)
    requires p != end
    ensures var c := Choice(blocked, p, end);
      && Adjacent(p, c)
      && Manhattan(c, end) + 1 == Manhattan(p, end)
      && (Abs(end.x - p.x) > Abs(end.y - p.y) ==>
            (c == XStep(p, end) <==> !blocked(XStep(p, end)) || p.y == end.y))
      && (Abs(end.x - p.x) <= Abs(end.y - p.y) ==>
            (c == YStep(p, end) <==> !blocked(YStep(p, end)) || p.x == end.x))
  {
  }

  /**
   * The cells the greedy walk from p enters within n steps: it stops at the
   * end and at the first blocked choice.
   */
  function GreedyWalk(blocked: Pos -> bool, p: Pos, end: Pos, n: nat): (w: seq<Pos>)
    ensures |w| <= n
    decreases n
  {
    if n == 0 || p == end then []
    else
      var c := Choice(blocked, p, end);
      if blocked(c) then [] else [c] + GreedyWalk(blocked, c, end, n - 1)
  }

  /**
   * Each cell of a walk is a free cell adjacent to the one before and one
   * step nearer the end, so the walk is no longer than the distance.
   */
  lemma {:induction false} GreedyWalkSteps(blocked: Pos -> bool, p: Pos, end: Pos, n: nat)
    ensures var w := GreedyWalk(blocked, p, end, n);
      && |w| <= Manhattan(p, end)
      && Walk(p, w)
      && (forall i :: 0 <= i < |w| ==> !blocked(w[i]))
      && (forall i :: 0 <= i < |w| ==> Manhattan(w[i], end) + i + 1 == Manhattan(p, end))
    decreases n
  {
    var w := GreedyWalk(blocked, p, end, n);
    if w != [] {
      var c := Choice(blocked, p, end);
      var rest := GreedyWalk(blocked, c, end, n - 1);
      assert w == [c] + rest;
      ChoiceStep(blocked, p, end);
      GreedyWalkSteps(blocked, c, end, n - 1);
      forall i | 1 <= i < |w|
        ensures !blocked(w[i]) && Manhattan(w[i], end) + i + 1 == Manhattan(p, end)
      {
        assert w[i] == rest[i - 1];
      }
    }
  }

  /** One step of a walk that has steps left and is not at the end. */
  lemma GreedyUnfold(blocked: Pos -> bool, p: Pos, end: Pos, n: nat)
    requires n > 0 && p != end
    ensures var c := Choice(blocked, p, end);
      GreedyWalk(blocked, p, end, n) == if blocked(c) then [] else [c] + GreedyWalk(blocked, c, end, n - 1)
  {
  }

  /** The last cell a walk reached: its final cell, or where it started. */
  function LastCell(p: Pos, w: seq<Pos>): Pos
  {
    if w == [] then p else w[|w| - 1]
  }

  /** A walk that stops before its step limit stops at the end or before a blocked choice. */
  lemma {:induction false} GreedyWalkStops(blocked: Pos -> bool, p: Pos, end: Pos, n: nat)
    ensures var w := GreedyWalk(blocked, p, end, n);
      |w| < n ==> LastCell(p, w) == end || blocked(Choice(blocked, LastCell(p, w), end))
    decreases n
  {
    if n > 0 && p != end {
      var c := Choice(blocked, p, end);
      if !blocked(c) {
        GreedyWalkStops(blocked, c, end, n - 1);
        var rest := GreedyWalk(blocked, c, end, n - 1);
        assert LastCell(p, [c] + rest) == LastCell(c, rest);
      }
    }
  }

  /** No cell repeats and the start is never entered: the distance to the end keeps falling. */
  lemma GreedyWalkDistinct(blocked: Pos -> bool, p: Pos, end: Pos, n: nat)
    ensures var w := GreedyWalk(blocked, p, end, n);
      Distinct(w) && p !in w
  {
    var w := GreedyWalk(blocked, p, end, n);
    GreedyWalkSteps(blocked, p, end, n);
    forall i, j | 0 <= i < j < |w|
      ensures w[i] != w[j]
    {
      assert Manhattan(w[i], end) > Manhattan(w[j], end);
    }
    forall i | 0 <= i < |w|
      ensures w[i] != p
    {
      assert Manhattan(w[i], end) < Manhattan(p, end);
    }
  }

  /** A walk toward its own start is empty; one whose last cell is the end is a route there. */
  lemma GreedyWalkArrives(blocked: Pos -> bool, p: Pos, end: Pos, n: nat)
    ensures p == end ==> GreedyWalk(blocked, p, end, n) == []
    ensures var w := GreedyWalk(blocked, p, end, n);
      w != [] && LastCell(p, w) == end ==> |w| == Manhattan(p, end)
  {
    var w := GreedyWalk(blocked, p, end, n);
    GreedyWalkSteps(blocked, p, end, n);
    if w != [] && LastCell(p, w) == end {
      assert Manhattan(w[|w| - 1], end) + |w| == Manhattan(p, end);
    }
  }

  /** The cell one round of the walk tries, computed as the source does. */
  method NextCell(city: Grid, x: int, y: int, end: Pos) returns (nx: int, ny: int)
    ensures Pos(nx, ny) == Choice(city.blocked, Pos(x, y), end)
  {
    var dx := if end.x > x then 1 else if end.x < x then -1 else 0;
    var dy := if end.y > y then 1 else if end.y < y then -1 else 0;
    assert Pos(x + dx, y) == XStep(Pos(x, y), end) && Pos(x, y + dy) == YStep(Pos(x, y), end);
    if Abs(end.x - x) > Abs(end.y - y) {
      nx, ny := x + dx, y;
      var blockedX := city.blocked(Pos(nx, ny));
      if blockedX && dy != 0 {
        nx, ny := x, y + dy;
      }
      assert Pos(nx, ny) == Choice(city.blocked, Pos(x, y), end);
    } else {
      nx, ny := x, y + dy;
      var blockedY := city.blocked(Pos(nx, ny));
      if blockedY && dx != 0 {
        nx, ny := x + dx, y;
      }
      assert Pos(nx, ny) == Choice(city.blocked, Pos(x, y), end);
    }
  }

  /**
   * _find_path: at most 30 rounds; each stops at the end, computes the
   * choice and stops when it is blocked, otherwise enters it. `is_blocked`
   * is the city's, asked about any cell.
   */
  method FindPath(city: Grid, start: Pos, end: Pos) returns (path: seq<Pos>)
    ensures path == GreedyWalk(city.blocked, start, end, MAX_STEPS)
    ensures |path| <= MAX_STEPS && |path| <= Manhattan(start, end)
    ensures Walk(start, path) && forall i :: 0 <= i < |path| ==> !city.blocked(path[i])
  {
    path := [];
    var x, y := start.x, start.y;
    for i := 0 to MAX_STEPS
      invariant GreedyWalk(city.blocked, start, end, MAX_STEPS) == path + GreedyWalk(city.blocked, Pos(x, y), end, MAX_STEPS - i)
    {
      if Pos(x, y) == end {
        break;
      }
      var nx, ny := NextCell(city, x, y, end);
      GreedyUnfold(city.blocked, Pos(x, y), end, MAX_STEPS - i);
      if city.blocked(Pos(nx, ny)) {
        break;
      }
      ghost var rest := GreedyWalk(city.blocked, Pos(nx, ny), end, MAX_STEPS - i - 1);
      assert (path + [Pos(nx, ny)]) + rest == path + ([Pos(nx, ny)] + rest);
      path := path + [Pos(nx, ny)];
      x, y := nx, ny;
    }
    GreedyWalkSteps(city.blocked, start, end, MAX_STEPS);
  }

  // ---------------------------------------------------------------------
  // The strategy object.
  // ---------------------------------------------------------------------

  class MediumStrategy {
    /** The rival's courier state: position and inventory. */
    const rival: Player
    var targetOrderId: Option<string>
    var reEvaluationTimer: real
    var currentPath: seq<Pos>

    /** A new strategy: no target, no path and a timer drawn from [4, 10]. */
    constructor (rival: Player, timerDraw: real)
      requires 4.0 <= timerDraw <= 10.0
      ensures this.rival == rival
      ensures targetOrderId == None && currentPath == [] && reEvaluationTimer == timerDraw
    {
      this.rival := rival;
      targetOrderId := None;
      reEvaluationTimer := timerDraw;
      currentPath := [];
    }

    /** The score of an order from the rival's position and load. */
    function ScoreFor(world: World, d: OrderData): Score
      reads rival, rival.inventory
    {
      MediumScore(d, Pos(rival.x, rival.y), world.weatherMult, rival.TotalWeight(), rival.inventory.maxWeight)
    }

    /**
     * _search_next_objective: nothing while the rival carries orders or
     * when no order is available or the best scores minus infinity;
     * otherwise the first order of the best score.
     */
    function SearchNextObjective(world: World): (r: Option<OrderData>)
      reads rival, rival.inventory
      ensures r.None? <==>
        || rival.inventory.orderCount > 0
        || forall i :: 0 <= i < |world.available| ==> ScoreFor(world, world.available[i]) == NegInf
      ensures r.Some? ==>
        exists k :: 0 <= k < |world.available| && world.available[k] == r.value
          && ScoreFor(world, r.value).Fin?
          && (forall i :: 0 <= i < |world.available| ==> !ScoreLess(ScoreFor(world, r.value), ScoreFor(world, world.available[i])))
          && (forall i :: 0 <= i < k ==> ScoreLess(ScoreFor(world, world.available[i]), ScoreFor(world, r.value)))
    {
      if rival.inventory.orderCount > 0 then None
      else if world.available == [] then None
      else
        var scores := MediumScores(world.available, Pos(rival.x, rival.y), world.weatherMult,
                                   rival.TotalWeight(), rival.inventory.maxWeight);
        var k := ArgMax(scores);
        if scores[k] == NegInf then
          assert forall i :: 0 <= i < |scores| ==> scores[i] == NegInf by {
            forall i | 0 <= i < |scores| ensures scores[i] == NegInf {
              assert !ScoreLess(scores[k], scores[i]);
            }
          }
          None
        else
          Some(world.available[k])
    }

    /**
     * next_move: with a planned path, takes its first cell off and returns
     * the offset from the rival to it; otherwise (0, 0) and no change.
     */
    method NextMove() returns (d: Pos)
      modifies this
      ensures old(currentPath) != [] ==>
        currentPath == old(currentPath)[1..] && Pos(rival.x + d.x, rival.y + d.y) == old(currentPath)[0]
      ensures old(currentPath) == [] ==> d == Pos(0, 0) && currentPath == []
      ensures targetOrderId == old(targetOrderId) && reEvaluationTimer == old(reEvaluationTimer)
    {
      if currentPath != [] {
        var nextStep := currentPath[0];
        currentPath := currentPath[1..];
        return StepOffset(Pos(rival.x, rival.y), nextStep);
      }
      return Pos(0, 0);
    }

    /**
     * decide_job_action. Carrying an order: deliver when on its dropoff
     * (clearing path and target), otherwise walk toward the dropoff when no
     * path is left. Empty-handed: count the timer down; on expiry or
     * without a target, take the next objective (target and walk to its
     * pickup) or, with none, clear target and path, and draw a new timer;
     * then, with a target, try to pick it up here.
     */
    method DecideJobAction(dt: real, world: World, timerDraw: real) returns (acted: bool, effect: Effect)
      requires rival.inventory.Valid() && 4.0 <= timerDraw <= 10.0
      modifies this
      ensures var pos := Pos(rival.x, rival.y);
        var current := rival.inventory.CurrentOrder();
        && (current.Some? && pos == current.value.dropoff ==>
              && acted && effect == DeliveryCompleted
              && currentPath == [] && targetOrderId == None && reEvaluationTimer == old(reEvaluationTimer))
        && (current.Some? && pos != current.value.dropoff ==>
              && !acted && effect == NoEffect
              && targetOrderId == old(targetOrderId) && reEvaluationTimer == old(reEvaluationTimer)
              && (old(currentPath) == [] ==> currentPath == GreedyWalk(world.city.blocked, pos, current.value.dropoff, MAX_STEPS))
              && (old(currentPath) != [] ==> currentPath == old(currentPath)))
      ensures var pos := Pos(rival.x, rival.y);
        rival.inventory.orders == [] ==>
          var retarget := old(reEvaluationTimer) - dt <= 0.0 || !HasTarget(old(targetOrderId));
          var objective := SearchNextObjective(world);
          && (retarget ==> reEvaluationTimer == timerDraw)
          && (!retarget ==> reEvaluationTimer == old(reEvaluationTimer) - dt && targetOrderId == old(targetOrderId))
          && (retarget && objective.Some? ==> targetOrderId == Some(objective.value.id))
          && (retarget && objective.None? ==> targetOrderId == None && !acted && currentPath == [])
          && (acted <==>
                && HasTarget(targetOrderId)
                && exists i :: 0 <= i < |world.available| &&
                     AtPickup(world.available[i], targetOrderId, pos) && world.acceptsOrder(world.available[i]))
          && (acted ==>
                && effect.OrderAccepted? && currentPath == []
                && AtPickup(effect.order, targetOrderId, pos) && effect.order in world.available)
          && (!acted ==> effect == NoEffect)
          && (!acted && retarget && objective.Some? ==>
                currentPath == GreedyWalk(world.city.blocked, pos, objective.value.pickup, MAX_STEPS))
          && (!acted && !retarget ==> currentPath == old(currentPath))
    {
      var currentPos := Pos(rival.x, rival.y);
      acted, effect := false, NoEffect;
      var current := rival.inventory.CurrentOrder();
      if current.Some? {
        var dropoff := current.value.dropoff;
        if dropoff == currentPos {
          currentPath := [];
          targetOrderId := None;
          return true, DeliveryCompleted;
        }
        if currentPath == [] {
          currentPath := FindPath(world.city, currentPos, dropoff);
        }
      } else {
        // The source's `elif order_count == 0`: an inventory without a
        // current node is empty, so the condition holds here.
        assert rival.inventory.orderCount == 0;
        reEvaluationTimer := reEvaluationTimer - dt;
        if reEvaluationTimer <= 0.0 || !HasTarget(targetOrderId) {
          var bestOrder := SearchNextObjective(world);
          if bestOrder.Some? {
            var pickupPos := bestOrder.value.pickup;
            targetOrderId := Some(bestOrder.value.id);
            currentPath := FindPath(world.city, currentPos, pickupPos);
          } else {
            targetOrderId := None;
            currentPath := [];
          }
          reEvaluationTimer := timerDraw;
        }
        if HasTarget(targetOrderId) {
          var k := TryPickup(world, targetOrderId, currentPos);
          if k < |world.available| {
            currentPath := [];
            return true, OrderAccepted(world.available[k]);
          }
        }
      }
    }
  }
}
