/**
 * The courier (src/logic/player.py): position, stamina with an exhaustion
 * flag, reputation, income and an inventory capped at 30 weight units.
 *
 * Stamina, multipliers and money are reals; datetimes are whole seconds.
 * The weather-multiplier table is a parameter, since it lives in a
 * configuration module that is not part of this model.
 */
module Players {
  import opened Common
  import opened Orders
  import opened Inventories

  const BASE_SPEED: real := 3.0
  const STAMINA_CONSUMPTION_BASE: real := 0.5
  const MAX_WEIGHT: int := 30
  const MAX_STAMINA: real := 100.0
  const START_STAMINA: real := 100.0
  const START_REPUTATION: int := 70
  /** Stamina from which an exhausted courier may move again. */
  const RECOVERED_STAMINA: real := 30.0
  const STAMINA_RECOVERY: real := 5.0

  /** The weather table lookup: the table's value for the condition, 1.0 when it has none. */
  function WeatherMultiplier(table: map<string, real>, condition: string): (m: real)
    ensures condition !in table ==> m == 1.0
    ensures condition in table ==> m == table[condition]
  {
    if condition in table then table[condition] else 1.0
  }

  /** Load slows the courier by 3% per unit, never below 80% of the base speed. */
  function WeightFactor(totalWeight: int): (f: real)
    ensures f >= 0.8
    ensures totalWeight >= 0 ==> f <= 1.0
    ensures f == 0.8 <==> totalWeight >= 7
  {
    MaxReal(0.8, 1.0 - 0.03 * totalWeight as real)
  }

  /** A reputation of 90 or more earns a 3% speed bonus. */
  function ReputationFactor(reputation: int): (f: real)
    ensures f == 1.03 <==> reputation >= 90
    ensures f == 1.0 <==> reputation < 90
  {
    if reputation >= 90 then 1.03 else 1.0
  }

  /** A tired courier (stamina strictly between 0 and 30) moves at 80%; one without stamina does not move. */
  function StaminaFactor(stamina: real): (f: real)
    ensures f == 0.8 <==> 0.0 < stamina < 30.0
    ensures f == 0.0 <==> stamina <= 0.0
    ensures f == 1.0 <==> stamina >= 30.0
  {
    if stamina < 30.0 && stamina > 0.0 then 0.8
    else if stamina <= 0.0 then 0.0
    else 1.0
  }

  /**
   * The speed of a courier: the base speed scaled by the weather, load,
   * reputation and stamina factors and by the tile's surface weight.
   * A courier without stamina does not move; otherwise, on a passable
   * tile in weather that allows movement, the speed is positive and at
   * most the base speed scaled by weather, surface and the 3% reputation
   * bonus.
   */
  function Speed(totalWeight: int, reputation: int, stamina: real, mWeather: real, surface: real): (r: real)
    ensures stamina <= 0.0 ==> r == 0.0
    ensures stamina > 0.0 && mWeather > 0.0 && surface > 0.0 ==> r > 0.0
    ensures totalWeight >= 0 && mWeather >= 0.0 && surface >= 0.0 ==> r <= BASE_SPEED * 1.03 * mWeather * surface
  {
    var wf, rf, sf := WeightFactor(totalWeight), ReputationFactor(reputation), StaminaFactor(stamina);
    SpeedProduct(mWeather, wf, rf, sf, surface);
    BASE_SPEED * mWeather * wf * rf * sf * surface
  }

  lemma SpeedProduct(m: real, wf: real, rf: real, sf: real, s: real)
    requires 0.8 <= wf && 1.0 <= rf <= 1.03 && 0.0 <= sf <= 1.0
    ensures sf == 0.0 ==> BASE_SPEED * m * wf * rf * sf * s == 0.0
    ensures sf > 0.0 && m > 0.0 && s > 0.0 ==> BASE_SPEED * m * wf * rf * sf * s > 0.0
    ensures wf <= 1.0 && m >= 0.0 && s >= 0.0 ==> BASE_SPEED * m * wf * rf * sf * s <= BASE_SPEED * 1.03 * m * s
  {
    var ms := m * s;
    assert BASE_SPEED * m * wf * rf * sf * s == BASE_SPEED * ms * (wf * rf * sf);
    if wf <= 1.0 && m >= 0.0 && s >= 0.0 {
      MulMono(wf, 1.0, rf);
      MulMono(rf, 1.03, 1.0);
      MulMono(wf * rf, 1.03, sf);
      MulMono(sf, 1.0, 1.03);
      assert wf * rf * sf <= 1.03;
      assert ms >= 0.0;
      MulMono(wf * rf * sf, 1.03, ms);
    }
    if sf > 0.0 && m > 0.0 && s > 0.0 {
      assert ms > 0.0;
      assert wf * rf * sf > 0.0;
    }
  }

  lemma MulMono(a: real, b: real, c: real)
    requires a <= b && 0.0 <= c
    ensures a * c <= b * c
  {
    assert b * c - a * c == (b - a) * c;
  }

  lemma ScaledLe(a: real, b: real, c: real, u: real, v: real)
    requires a <= b && 0.0 <= c
    requires u == a * c && v == b * c
    ensures u <= v
  {
    MulMono(a, b, c);
  }

  /** A heavier load never makes the courier faster, all else equal. */
  lemma {:induction false} SpeedAntitoneInWeight(w1: int, w2: int, reputation: int, stamina: real, mWeather: real, surface: real)
    requires w1 <= w2
    requires mWeather >= 0.0 && surface >= 0.0
    ensures Speed(w1, reputation, stamina, mWeather, surface) >= Speed(w2, reputation, stamina, mWeather, surface)
  {
    var k := BASE_SPEED * mWeather * ReputationFactor(reputation) * StaminaFactor(stamina) * surface;
    assert k >= 0.0 by {
      assert BASE_SPEED * mWeather >= 0.0;
      assert BASE_SPEED * mWeather * ReputationFactor(reputation) >= 0.0;
      assert BASE_SPEED * mWeather * ReputationFactor(reputation) * StaminaFactor(stamina) >= 0.0;
    }
    var f1, f2 := WeightFactor(w1), WeightFactor(w2);
    assert f1 >= f2;
    var v1, v2 := Speed(w1, reputation, stamina, mWeather, surface), Speed(w2, reputation, stamina, mWeather, surface);
    assert v1 == f1 * k;
    assert v2 == f2 * k;
    ScaledLe(f2, f1, k, v2, v1);
  }

  /** More stamina never makes the courier slower, all else equal. */
  lemma {:induction false} SpeedMonotoneInStamina(totalWeight: int, reputation: int, s1: real, s2: real, mWeather: real, surface: real)
    requires s1 <= s2
    requires mWeather >= 0.0 && surface >= 0.0
    ensures Speed(totalWeight, reputation, s1, mWeather, surface) <= Speed(totalWeight, reputation, s2, mWeather, surface)
  {
    var k := BASE_SPEED * mWeather * WeightFactor(totalWeight) * ReputationFactor(reputation);
    assert k >= 0.0 by {
      assert BASE_SPEED * mWeather >= 0.0;
      assert BASE_SPEED * mWeather * WeightFactor(totalWeight) >= 0.0;
    }
    var f1, f2 := StaminaFactor(s1), StaminaFactor(s2);
    assert f1 <= f2;
    assert Speed(totalWeight, reputation, s1, mWeather, surface) == k * f1 * surface;
    assert Speed(totalWeight, reputation, s2, mWeather, surface) == k * f2 * surface;
    assert k * f1 <= k * f2;
    assert (k * f2 - k * f1) * surface >= 0.0;
  }

  /** Extra stamina cost of the weather: 0.1 in rain or wind, 0.3 in a storm, 0.2 in heat. */
  function WeatherSurcharge(condition: string): real
  {
    if condition == "rain" || condition == "wind" then 0.1
    else if condition == "storm" then 0.3
    else if condition == "heat" then 0.2
    else 0.0
  }

  /**
   * Stamina spent on one move: 0.5, plus 0.2 per weight unit above 3, plus
   * the weather surcharge. Every move costs at least 0.5 and, apart from
   * the load, at most 0.8.
   */
  function Consumption(totalWeight: int, condition: string): (c: real)
    ensures 0.5 <= c
    ensures totalWeight <= 3 ==> c <= 0.8
    ensures totalWeight > 3 ==> 0.5 + 0.2 * (totalWeight - 3) as real <= c <= 0.8 + 0.2 * (totalWeight - 3) as real
  {
    var load := if totalWeight > 3 then 0.2 * (totalWeight - 3) as real else 0.0;
    STAMINA_CONSUMPTION_BASE + load + WeatherSurcharge(condition)
  }

  /** Carrying more never makes a move cheaper. */
  lemma ConsumptionMonotone(w1: int, w2: int, condition: string)
    requires w1 <= w2
    ensures Consumption(w1, condition) <= Consumption(w2, condition)
  {
  }

  /**
   * Reputation change for a delivery made at `now`: +5 when the time left
   * is more than a fifth of the order's window (release to deadline), +3
   * when it is on time otherwise; late by up to 30 s -2, up to 120 s -5,
   * later -10.
   */
  function ReputationChange(deadline: int, releaseTime: int, now: int): (r: int)
    ensures r == 5 || r == 3 || r == -2 || r == -5 || r == -10
    ensures r > 0 <==> now <= deadline
  {
    var timeDifference := deadline - now;
    if timeDifference >= 0 then
      if timeDifference as real > 0.20 * (deadline - releaseTime) as real then 5 else 3
    else
      var timeLate := -timeDifference;
      if timeLate <= 30 then -2
      else if timeLate <= 120 then -5
      else -10
  }

  /** Delivering later never earns more reputation. */
  lemma {:induction false} ReputationChangeAntitone(deadline: int, releaseTime: int, t1: int, t2: int)
    requires t1 <= t2
    ensures ReputationChange(deadline, releaseTime, t1) >= ReputationChange(deadline, releaseTime, t2)
  {
    if deadline - t2 >= 0 {
      assert (deadline - t1) as real >= (deadline - t2) as real;
    }
  }

  /** The payout credited for a delivery: 5% more when reputation is at least 90. */
  function DeliveryPayout(payout: real, reputation: int): (r: real)
    ensures payout >= 0.0 ==> payout <= r <= 1.05 * payout
    ensures reputation < 90 ==> r == payout
    ensures payout > 0.0 ==> (r > payout <==> reputation >= 90)
  {
    if reputation >= 90 then payout * 1.05 else payout
  }

  class Player {
    var x: int
    var y: int
    const incomeGoal: int
    const maxWeight: int
    const inventory: Inventory
    var stamina: real
    var reputation: int
    var totalIncome: real
    var isExhausted: bool
    var lastPosition: Pos

    /**
     * The inventory is consistent, stamina is at most 100, and the
     * exhaustion flag sits inside its hysteresis band: a courier with no
     * stamina is exhausted, and an exhausted one has less than 30.
     */
    ghost predicate Valid()
      reads this, inventory
    {
      && inventory.Valid()
      && stamina <= MAX_STAMINA
      && (stamina <= 0.0 ==> isExhausted)
      && (isExhausted ==> stamina < RECOVERED_STAMINA)
    }

    /**
     * A new courier at (x, y): stamina 100, reputation 70, no income, not
     * exhausted, and an empty inventory capped at 30.
     */
    constructor (x: int, y: int, incomeGoal: int)
      ensures Valid() && fresh(inventory)
      ensures this.x == x && this.y == y && this.incomeGoal == incomeGoal
      ensures maxWeight == MAX_WEIGHT && inventory.maxWeight == MAX_WEIGHT
      ensures inventory.orders == [] && inventory.currentWeight == 0
      ensures stamina == START_STAMINA && reputation == START_REPUTATION
      ensures totalIncome == 0.0 && !isExhausted
      ensures lastPosition == Pos(x, y)
    {
      this.x, this.y := x, y;
      this.incomeGoal := incomeGoal;
      maxWeight := MAX_WEIGHT;
      inventory := new Inventory(MAX_WEIGHT);
      stamina := START_STAMINA;
      reputation := START_REPUTATION;
      totalIncome := 0.0;
      isExhausted := false;
      lastPosition := Pos(x, y);
    }

    function TotalWeight(): int
      reads this, inventory
    {
      inventory.currentWeight
    }

    /** Speed on a tile of the given surface weight under the given weather. */
    function CalculateSpeed(multipliers: map<string, real>, condition: string, surface: real): (r: real)
      reads this, inventory
      ensures stamina <= 0.0 ==> r == 0.0
      ensures stamina > 0.0 && WeatherMultiplier(multipliers, condition) > 0.0 && surface > 0.0 ==> r > 0.0
      ensures TotalWeight() >= 0 && WeatherMultiplier(multipliers, condition) >= 0.0 && surface >= 0.0 ==>
        r <= BASE_SPEED * 1.03 * WeatherMultiplier(multipliers, condition) * surface
      ensures reputation < 90 && stamina >= 30.0 && TotalWeight() == 0 ==>
        r == BASE_SPEED * WeatherMultiplier(multipliers, condition) * surface
    {
      Speed(TotalWeight(), reputation, stamina, WeatherMultiplier(multipliers, condition), surface)
    }

    /**
     * Spends the stamina of one move; the courier becomes exhausted once
     * stamina reaches zero, and the flag is never cleared here.
     */
    method ConsumeStamina(condition: string)
      requires Valid()
      modifies this`stamina, this`isExhausted
      ensures Valid()
      ensures stamina == old(stamina) - Consumption(TotalWeight(), condition)
      ensures stamina < old(stamina)
      ensures isExhausted == (old(isExhausted) || stamina <= 0.0)
    {
      var consumption := STAMINA_CONSUMPTION_BASE;
      var totalWeight := TotalWeight();
      if totalWeight > 3 {
        consumption := consumption + 0.2 * (totalWeight - 3) as real;
      }
      consumption := consumption + WeatherSurcharge(condition);
      stamina := stamina - consumption;
      if stamina <= 0.0 {
        isExhausted := true;
      }
    }

    /**
     * Regains 5 stamina, never above 100; exhaustion ends only once
     * stamina is back to 30.
     */
    method RecoverStamina()
      requires Valid()
      modifies this`stamina, this`isExhausted
      ensures Valid()
      ensures stamina == MinReal(old(stamina) + STAMINA_RECOVERY, MAX_STAMINA)
      ensures isExhausted == (old(isExhausted) && stamina < RECOVERED_STAMINA)
    {
      stamina := stamina + STAMINA_RECOVERY;
      if stamina > MAX_STAMINA {
        stamina := MAX_STAMINA;
      }
      if stamina >= RECOVERED_STAMINA && isExhausted {
        isExhausted := false;
      }
    }

    /**
     * Steps by (dx, dy) and spends one move's stamina, unless exhausted, in
     * which case nothing changes. The surface weight is accepted and unused.
     */
    method Move(dx: int, dy: int, condition: string, surface: real)
      requires Valid()
      modifies this`x, this`y, this`stamina, this`isExhausted
      ensures Valid()
      ensures old(isExhausted) ==> x == old(x) && y == old(y) && stamina == old(stamina) && isExhausted
      ensures !old(isExhausted) ==>
        && x == old(x) + dx && y == old(y) + dy
        && stamina == old(stamina) - Consumption(TotalWeight(), condition)
        && isExhausted == (stamina <= 0.0)
    {
      if !isExhausted {
        x := x + dx;
        y := y + dy;
        ConsumeStamina(condition);
      }
    }

    /** Adds the order to the inventory; false, with nothing changed, when it is too heavy. */
    method AcceptDelivery(order: Order) returns (accepted: bool)
      requires Valid()
      modifies inventory
      ensures Valid()
      ensures accepted <==> old(inventory.currentWeight) + order.weight <= inventory.maxWeight
      ensures !accepted ==> unchanged(inventory)
      ensures accepted ==>
        && inventory.orders == old(inventory.orders) + [order]
        && inventory.currentWeight == old(inventory.currentWeight) + order.weight
        && inventory.orderCount == old(inventory.orderCount) + 1
        && inventory.cursor == (if old(inventory.cursor) == -1 then 0 else old(inventory.cursor))
    {
      accepted := inventory.AddOrder(order);
    }

    /**
     * Completes the current order at time `now`: the reputation changes by
     * the on-time/late tier and the payout, with the 5% bonus when the new
     * reputation is at least 90, is added to the income. With no current
     * order nothing changes.
     */
    method DropoffDelivery(now: int)
      requires Valid()
      modifies this`reputation, this`totalIncome, inventory
      ensures Valid()
      ensures old(inventory.cursor) == -1 ==> unchanged(this) && unchanged(inventory)
      ensures old(inventory.cursor) != -1 ==>
        var o := old(inventory.orders[inventory.cursor]);
        && inventory.orders == RemoveAt(old(inventory.orders), old(inventory.cursor))
        && inventory.cursor == CursorAfterRemoval(|old(inventory.orders)|, old(inventory.cursor), old(inventory.cursor))
        && inventory.currentWeight == old(inventory.currentWeight) - o.weight
        && inventory.orderCount == old(inventory.orderCount) - 1
        && reputation == old(reputation) + ReputationChange(o.deadline, o.releaseTime, now)
        && totalIncome == old(totalIncome) + DeliveryPayout(o.payout, reputation)
    {
      var delivery := inventory.CompleteCurrentOrder();
      if delivery.None? {
        return;
      }
      var o := delivery.value;
      reputation := reputation + ReputationChange(o.deadline, o.releaseTime, now);
      totalIncome := totalIncome + DeliveryPayout(o.payout, reputation);
    }

    /**
     * Once per frame: a courier who has not moved since the last call
     * recovers stamina; one who has moved records the new position.
     */
    method UpdateState()
      requires Valid()
      modifies this`stamina, this`isExhausted, this`lastPosition
      ensures Valid()
      ensures Pos(x, y) == old(lastPosition) ==>
        && stamina == MinReal(old(stamina) + STAMINA_RECOVERY, MAX_STAMINA)
        && isExhausted == (old(isExhausted) && stamina < RECOVERED_STAMINA)
        && lastPosition == old(lastPosition)
      ensures Pos(x, y) != old(lastPosition) ==>
        stamina == old(stamina) && isExhausted == old(isExhausted) && lastPosition == Pos(x, y)
    {
      if Pos(x, y) == lastPosition {
        RecoverStamina();
      } else {
        lastPosition := Pos(x, y);
      }
    }
  }
}
