/**
 * The rival courier (src/logic/rival.py): a courier driven by a strategy,
 * whose own move takes any step of at most one cell per axis (diagonals
 * included) with no block check and no stamina cost.
 */
module Rivals {
  import opened Common
  import opened Grids
  import opened Orders
  import opened Inventories
  import opened Players
  import opened Strategies
  import opened MediumStrategies
  import opened HardStrategies

  /**
   * The strategy a rival follows. The easy strategy has no state and always
   * steps one cell to the right (src/logic/strategies/easy_strategy.py).
   */
  datatype RivalStrategy = Easy | Medium(medium: MediumStrategy) | Hard(hard: HardStrategy)

  const EASY_MOVE: Pos := Pos(1, 0)

  /** The offsets `_move` accepts on one axis: -1, 0 or 1. */
  predicate UnitOffset(n: int)
  {
    n == -1 || n == 0 || n == 1
  }

  /** The strategy's objects, which its decisions update. */
  function StrategyFrame(s: RivalStrategy): set<object>
  {
    match s
    case Easy => {}
    case Medium(m) => {m}
    case Hard(h) => {h}
  }

  class Rival {
    /** The courier state a rival shares with the player: position, stamina, inventory. */
    const player: Player
    var strategy: RivalStrategy

    /** The strategy steers this rival. */
    ghost predicate Linked()
      reads this
    {
      match strategy
      case Easy => true
      case Medium(m) => m.rival == player
      case Hard(h) => h.rival == player
    }

    /** A new rival courier at (x, y) with the given strategy. */
    constructor (x: int, y: int, incomeGoal: int, strategy: RivalStrategy)
      ensures fresh(player) && fresh(player.inventory) && player.Valid()
      ensures player.x == x && player.y == y && player.incomeGoal == incomeGoal
      ensures player.stamina == START_STAMINA && player.reputation == START_REPUTATION
      ensures player.inventory.orders == [] && !player.isExhausted
      ensures this.strategy == strategy
    {
      player := new Player(x, y, incomeGoal);
      this.strategy := strategy;
    }

    /** setStrategy: replaces the strategy and nothing else. */
    method SetStrategy(strategy: RivalStrategy)
      modifies this`strategy
      ensures this.strategy == strategy
    {
      this.strategy := strategy;
    }

    /**
     * _move: an exhausted rival does not move, whatever the direction; an
     * offset outside {-1, 0, 1} on either axis raises ValueError (`raised`)
     * and leaves the position; otherwise the rival steps by (dx, dy).
     */
    method Move(dx: int, dy: int) returns (raised: bool)
      modifies player`x, player`y
      ensures raised <==> !player.isExhausted && !(UnitOffset(dx) && UnitOffset(dy))
      ensures !player.isExhausted && !raised ==> player.x == old(player.x) + dx && player.y == old(player.y) + dy
      ensures player.isExhausted || raised ==> player.x == old(player.x) && player.y == old(player.y)
    {
      if player.isExhausted {
        return false;
      }
      if !(UnitOffset(dx) && UnitOffset(dy)) {
        return true;
      }
      player.x := player.x + dx;
      player.y := player.y + dy;
      return false;
    }

    /**
     * decide_next_move: asks the strategy for its next move once and
     * applies it with `_move`. `d` is the decision; `effect` is the game
     * call the hard strategy's decision made when it had no path. The
     * strategy's own fields change exactly as its next_move says.
     */
    method DecideNextMove(world: World, timerDraw: real) returns (d: Pos, raised: bool, effect: Effect)
      requires Linked() && player.inventory.Valid()
      requires strategy.Hard? ==> world.weatherMult > 0.0 && 5.0 <= timerDraw <= 10.0
      modifies player`x, player`y, StrategyFrame(strategy)
      ensures raised <==> !player.isExhausted && !(UnitOffset(d.x) && UnitOffset(d.y))
      ensures !player.isExhausted && !raised ==> player.x == old(player.x) + d.x && player.y == old(player.y) + d.y
      ensures player.isExhausted || raised ==> player.x == old(player.x) && player.y == old(player.y)
      ensures strategy.Easy? ==> d == EASY_MOVE && effect == NoEffect
      ensures strategy.Medium? ==>
        var path := old(strategy.medium.currentPath);
        && effect == NoEffect
        && (path != [] ==> Pos(old(player.x) + d.x, old(player.y) + d.y) == path[0]
                           && strategy.medium.currentPath == path[1..])
        && (path == [] ==> d == Pos(0, 0) && strategy.medium.currentPath == [])
        && strategy.medium.targetOrderId == old(strategy.medium.targetOrderId)
        && strategy.medium.reEvaluationTimer == old(strategy.medium.reEvaluationTimer)
      ensures strategy.Hard? ==>
        var path := old(strategy.hard.currentPath);
        && (path != [] ==> Pos(old(player.x) + d.x, old(player.y) + d.y) == path[0] && effect == NoEffect
                           && strategy.hard.Fields() == old(strategy.hard.Fields()).(currentPath := path[1..]))
        && (path == [] ==>
              && d == Pos(0, 0)
              && JobDecided(old(strategy.hard.Fields()), strategy.hard.Fields(), strategy.hard.maxRecalcInterval,
                            Pos(old(player.x), old(player.y)), player.inventory.orders,
                            player.inventory.CurrentOrder(), world, 0.0, timerDraw, effect))
    {
      match strategy {
        case Easy =>
          d, effect := EASY_MOVE, NoEffect;
        case Medium(m) =>
          d := m.NextMove();
          effect := NoEffect;
        case Hard(h) =>
          d, effect := h.NextMove(world, timerDraw);
      }
      raised := Move(d.x, d.y);
    }
  }
}
