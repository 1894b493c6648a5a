/**
 * What the rival strategies (src/logic/strategies/) share: the part of the
 * game they read, the game calls their decisions make, Python's `max` with
 * a key, and the pickup attempt both strategies run word for word.
 */
module Strategies {
  import opened Common
  import opened Grids
  import opened Orders

  /**
   * The game as a strategy reads it: the city, the current weather
   * multiplier, the pool of available orders, and whether the game accepts
   * each order for the rival. The strategies ask the game through
   * `accept_order_at_location_rival`, a method the game does not define;
   * `acceptsOrder` stands for its intended answer.
   */
  datatype World = World(
    city: Grid,
    weatherMult: real,
    available: seq<OrderData>,
    acceptsOrder: OrderData -> bool)

  /**
   * The game call a decision made: `complete_delivery_rival` or
   * `accept_order_at_location_rival`, neither of which the game defines,
   * taken by their intent.
   */
  datatype Effect = NoEffect | DeliveryCompleted | OrderAccepted(order: OrderData)

  /** Python truthiness of the target id: set and not the empty string. */
  predicate HasTarget(target: Option<string>)
  {
    target.Some? && target.value != ""
  }

  /** An order score; the medium rival scores an order it cannot carry -infinity. */
  datatype Score = NegInf | Fin(value: real)

  predicate ScoreLess(a: Score, b: Score)
  {
    match (a, b)
    case (NegInf, Fin(_)) => true
    case (Fin(x), Fin(y)) => x < y
    case _ => false
  }

  /**
   * `max` with a key: the index of the first maximal score (an element
   * replaces the best so far only when strictly greater).
   */
  function ArgMax(scores: seq<Score>): (k: nat)
    requires scores != []
    ensures k < |scores|
    ensures forall i :: 0 <= i < |scores| ==> !ScoreLess(scores[k], scores[i])
    ensures forall i :: 0 <= i < k ==> ScoreLess(scores[i], scores[k])
  {
    if |scores| == 1 then 0
    else
      var k := ArgMax(scores[..|scores| - 1]);
      if ScoreLess(scores[k], scores[|scores| - 1]) then |scores| - 1 else k
  }

  /** The available order with the given id and pickup at pos. */
  predicate AtPickup(d: OrderData, target: Option<string>, pos: Pos)
  {
    target.Some? && d.id == target.value && d.pickup == pos
  }

  /**
   * Walks the available orders and asks the game to accept each one that
   * is the target and waits at the rival's position, stopping at the first
   * accepted one. The result is its index, or |available| when none was
   * accepted.
   */
  method TryPickup(world: World, target: Option<string>, pos: Pos) returns (k: int)
    ensures 0 <= k <= |world.available|
    ensures k < |world.available| ==>
      AtPickup(world.available[k], target, pos) && world.acceptsOrder(world.available[k])
    ensures forall i :: 0 <= i < k ==>
      !(AtPickup(world.available[i], target, pos) && world.acceptsOrder(world.available[i]))
  {
    k := 0;
    while k < |world.available|
      invariant 0 <= k <= |world.available|
      invariant forall i :: 0 <= i < k ==>
        !(AtPickup(world.available[i], target, pos) && world.acceptsOrder(world.available[i]))
    {
      var orderData := world.available[k];
      if AtPickup(orderData, target, pos) {
        if world.acceptsOrder(orderData) {
          return;
        }
      }
      k := k + 1;
    }
  }

  /** The offset from pos to the next cell of a path. */
  function StepOffset(pos: Pos, next: Pos): (d: Pos)
    ensures Pos(pos.x + d.x, pos.y + d.y) == next
    ensures Adjacent(pos, next) ==> UnitStep(d)
  {
    Pos(next.x - pos.x, next.y - pos.y)
  }
}
