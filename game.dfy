/**
 * The game's tick rules (src/logic/game.py): the weather's dwell and
 * transition timers with the interpolated speed multiplier, the final
 * score, the gating of a player move by the arrow keys, and the gates of
 * order pickup and delivery. Rendering, events other than the arrow keys,
 * messages and the rival's tick are outside this model; the key state,
 * the city's `is_blocked`, `Weather.next_state`, the random timer draw and
 * the player calls that `game.py` makes but `player.py` does not define
 * (`can_move`, `accept_order`, `complete_delivery`, `total_penalties`) are
 * parameters.
 */
module Games {
  import opened Common
  import opened Orders
  import opened Inventories
  import opened Players
  import opened GameStates

  /** Seconds in a game. */
  const GAME_DURATION: real := 900.0
  /** Seconds a weather transition takes. */
  const TRANSITION_SECONDS: real := 4.0
  /** The bonus for winning within 80% of the game's duration. */
  const VICTORY_BONUS: real := 500.0

  /** The victory bonus: 500 for a win before 80% of the game, else 0. */
  function Bonus(victory: bool, elapsedTime: real): real
  {
    if victory && elapsedTime < GAME_DURATION * 0.8 then VICTORY_BONUS else 0.0
  }

  /**
   * calculate_score: income plus the bonus minus penalties, floored at
   * zero and truncated to an integer.
   */
  function CalculateScore(income: real, victory: bool, elapsedTime: real, penalties: real): (s: int)
    ensures s >= 0
    ensures var total := income + Bonus(victory, elapsedTime) - penalties;
      && (total <= 0.0 ==> s == 0)
      && (total >= 0.0 ==> s as real <= total < s as real + 1.0)
  {
    var finalScore := income + Bonus(victory, elapsedTime) - penalties;
    MaxReal(0.0, finalScore).Floor
  }

  /** More income never lowers the score. */
  lemma ScoreMonotone(i1: real, i2: real, victory: bool, elapsedTime: real, penalties: real)
    requires i1 <= i2
    ensures CalculateScore(i1, victory, elapsedTime, penalties) <= CalculateScore(i2, victory, elapsedTime, penalties)
  {
  }

  /** An early win is worth exactly 500 more points than the same game lost, when the rest is not negative. */
  lemma EarlyWinBonus(income: real, elapsedTime: real, penalties: real)
    requires elapsedTime < GAME_DURATION * 0.8 && income - penalties >= 0.0
    ensures CalculateScore(income, true, elapsedTime, penalties) == CalculateScore(income, false, elapsedTime, penalties) + 500
  {
    var lost := CalculateScore(income, false, elapsedTime, penalties);
    var won := CalculateScore(income, true, elapsedTime, penalties);
    assert lost as real <= income - penalties < lost as real + 1.0;
    assert won as real <= income - penalties + 500.0 < won as real + 1.0;
  }

  /** Linear interpolation from cur toward next over the transition. */
  function Interpolate(cur: real, next: real, transitionTime: real): (r: real)
    ensures 0.0 <= transitionTime <= TRANSITION_SECONDS ==> MinReal(cur, next) <= r <= MaxReal(cur, next)
    ensures transitionTime == 0.0 ==> r == cur
    ensures transitionTime == TRANSITION_SECONDS ==> r == next
  {
    var progress := transitionTime / TRANSITION_SECONDS;
    InterpolationBounds(cur, next, progress);
    cur + (next - cur) * progress
  }

  lemma InterpolationBounds(cur: real, next: real, p: real)
    ensures 0.0 <= p <= 1.0 ==> MinReal(cur, next) <= cur + (next - cur) * p <= MaxReal(cur, next)
  {
    if 0.0 <= p <= 1.0 {
      if cur <= next {
        Fraction(next - cur, p);
      } else {
        Fraction(cur - next, p);
        assert (next - cur) * p == -((cur - next) * p);
      }
    }
  }

  /** A fraction of a non-negative amount lies between zero and the amount. */
  lemma Fraction(a: real, p: real)
    requires a >= 0.0 && 0.0 <= p <= 1.0
    ensures 0.0 <= a * p <= a
  {
    assert a * p + a * (1.0 - p) == a;
    assert a * (1.0 - p) >= 0.0 by {
      NonNegProduct(a, 1.0 - p);
    }
    NonNegProduct(a, p);
  }

  lemma NonNegProduct(a: real, b: real)
    requires a >= 0.0 && b >= 0.0
    ensures a * b >= 0.0
  {
  }

  /** The outcome of pressing the accept key. */
  datatype PickupOutcome =
    | Accepted(k: nat)       // the order at index k was accepted
    | InventoryFull(k: nat)  // the order at index k was refused
    | NoOrderHere

  /** The arrow keys on one axis: +1, -1, or 0 for both or neither. */
  function Axis(positive: bool, negative: bool): (d: int)
    ensures d == 0 <==> positive == negative
  {
    (if positive then 1 else 0) - (if negative then 1 else 0)
  }

  class Game {
    const player: Player
    const gameState: GameState
    /** WEATHER_MULTIPLIERS: the speed multiplier of each weather condition. */
    const multipliers: map<string, real>
    var elapsedTime: real
    var gameOver: bool
    var victory: bool
    var currentWeather: string
    var nextWeather: string
    var weatherTimer: real
    var weatherTransitionTime: real
    var inTransition: bool
    var playerMovedThisFrame: bool
    var arrowWasPressed: bool
    var savingOverlayActive: bool

    /** A transition in progress is less than four seconds old. */
    ghost predicate WeatherOk()
      reads this
    {
      inTransition ==> 0.0 <= weatherTransitionTime < TRANSITION_SECONDS
    }

    /**
     * A new game: the player at (1, 1) with the city's goal, an empty undo
     * history of 10, the initial weather as both current and next, a dwell
     * timer drawn from [45, 60], no transition.
     */
    constructor (goal: int, initialWeather: string, multipliers: map<string, real>, timerDraw: real)
      requires 45.0 <= timerDraw <= 60.0
      ensures fresh(player) && fresh(player.inventory) && fresh(gameState)
      ensures player.Valid() && player.x == 1 && player.y == 1 && player.incomeGoal == goal
      ensures gameState.Valid() && gameState.history == [] && gameState.maxUndo == DEFAULT_MAX_UNDO
      ensures this.multipliers == multipliers && WeatherOk()
      ensures elapsedTime == 0.0 && !gameOver && !victory
      ensures currentWeather == initialWeather && nextWeather == initialWeather
      ensures weatherTimer == timerDraw && weatherTransitionTime == 0.0 && !inTransition
      ensures !playerMovedThisFrame && !arrowWasPressed && !savingOverlayActive
    {
      player := new Player(1, 1, goal);
      gameState := new GameState(DEFAULT_MAX_UNDO);
      this.multipliers := multipliers;
      elapsedTime := 0.0;
      gameOver, victory := false, false;
      currentWeather, nextWeather := initialWeather, initialWeather;
      weatherTimer := timerDraw;
      weatherTransitionTime := 0.0;
      inTransition := false;
      playerMovedThisFrame := false;
      arrowWasPressed := false;
      savingOverlayActive := false;
    }

    /**
     * update_weather: the dwell timer counts down by dt on every call; a
     * transition accumulates dt and, at four seconds, makes the next
     * weather current; with the timer run out and no transition, a new one
     * starts toward `nextState`, with a timer drawn from [45, 60].
     */
    method UpdateWeather(dt: real, nextState: string, timerDraw: real)
      requires 45.0 <= timerDraw <= 60.0
      modifies this`weatherTimer, this`weatherTransitionTime, this`inTransition, this`currentWeather, this`nextWeather
      ensures var t := if old(inTransition) then old(weatherTransitionTime) + dt else old(weatherTransitionTime);
        var finished := old(inTransition) && t >= TRANSITION_SECONDS;
        var stillIn := old(inTransition) && !finished;
        var starts := old(weatherTimer) - dt <= 0.0 && !stillIn;
        && currentWeather == (if finished then old(nextWeather) else old(currentWeather))
        && (starts ==> inTransition && nextWeather == nextState && weatherTimer == timerDraw
                       && weatherTransitionTime == 0.0)
        && (!starts ==> inTransition == stillIn && nextWeather == old(nextWeather)
                        && weatherTimer == old(weatherTimer) - dt && weatherTransitionTime == t)
      ensures old(WeatherOk()) && dt >= 0.0 ==> WeatherOk()
    {
      weatherTimer := weatherTimer - dt;
      if inTransition {
        weatherTransitionTime := weatherTransitionTime + dt;
        if weatherTransitionTime >= TRANSITION_SECONDS {
          currentWeather := nextWeather;
          inTransition := false;
        }
      }
      if weatherTimer <= 0.0 && !inTransition {
        nextWeather := nextState;
        weatherTimer := timerDraw;
        weatherTransitionTime := 0.0;
        inTransition := true;
      }
    }

    /**
     * get_current_weather_multiplier: the current weather's multiplier
     * (1.0 when the table has none) or, during a transition, the linear
     * blend toward the next weather's.
     */
    function CurrentWeatherMultiplier(): (r: real)
      reads this
      ensures !inTransition ==> r == WeatherMultiplier(multipliers, currentWeather)
      ensures inTransition ==> r == Interpolate(WeatherMultiplier(multipliers, currentWeather),
                                                WeatherMultiplier(multipliers, nextWeather), weatherTransitionTime)
    {
      if !inTransition then WeatherMultiplier(multipliers, currentWeather)
      else
        var progress := weatherTransitionTime / TRANSITION_SECONDS;
        var currentMult := WeatherMultiplier(multipliers, currentWeather);
        var nextMult := WeatherMultiplier(multipliers, nextWeather);
        currentMult + (nextMult - currentMult) * progress
    }

    /**
     * With a table of positive multipliers the game's multiplier stays
     * positive, which the hard rival's planner divides by.
     */
    lemma MultiplierPositive()
      requires WeatherOk()
      requires forall c :: c in multipliers ==> multipliers[c] > 0.0
      ensures CurrentWeatherMultiplier() > 0.0
    {
      var cur := WeatherMultiplier(multipliers, currentWeather);
      var next := WeatherMultiplier(multipliers, nextWeather);
      assert cur > 0.0 && next > 0.0;
      if inTransition {
        assert MinReal(cur, next) <= Interpolate(cur, next, weatherTransitionTime);
      }
    }

    /**
     * The movement part of handle_input. Outside game over and the saving
     * overlay, an arrow press that was not held on the previous frame
     * moves the player one step, when the target cell is not blocked and
     * the player can move: stamina is spent, the position changes and one
     * undo snapshot is saved. The held state is then remembered.
     */
    method HandleMovement(right: bool, left: bool, down: bool, up: bool, canMove: bool, isBlocked: Pos -> bool)
      returns (moved: bool)
      requires player.Valid() && gameState.Valid()
      modifies this`arrowWasPressed, this`playerMovedThisFrame
      modifies player`x, player`y, player`stamina, player`isExhausted, gameState
      ensures player.Valid() && gameState.Valid()
      ensures gameOver || savingOverlayActive ==> arrowWasPressed == old(arrowWasPressed)
      ensures !gameOver && !savingOverlayActive ==> arrowWasPressed == (Axis(right, left) != 0 || Axis(down, up) != 0)
      ensures var target := Pos(old(player.x) + Axis(right, left), old(player.y) + Axis(down, up));
        moved <==>
          && !gameOver && !savingOverlayActive
          && (Axis(right, left) != 0 || Axis(down, up) != 0) && !old(arrowWasPressed)
          && !isBlocked(target) && canMove
      ensures moved ==>
        && player.x == old(player.x) + Axis(right, left) && player.y == old(player.y) + Axis(down, up)
        && player.stamina == old(player.stamina) - Consumption(player.TotalWeight(), currentWeather)
        && player.isExhausted == (old(player.isExhausted) || player.stamina <= 0.0)
        && playerMovedThisFrame
        && gameState.history == Pushed(old(gameState.history),
             Snapshot(Pos(player.x, player.y), player.stamina, player.reputation, player.totalIncome,
                      MapSeq(player.inventory.orders, ToRecord), elapsedTime, currentWeather),
             gameState.maxUndo)
      ensures !moved ==>
        && player.x == old(player.x) && player.y == old(player.y)
        && player.stamina == old(player.stamina) && player.isExhausted == old(player.isExhausted)
        && gameState.history == old(gameState.history) && playerMovedThisFrame == old(playerMovedThisFrame)
    {
      moved := false;
      if !gameOver && !savingOverlayActive {
        var dx := Axis(right, left);
        var dy := Axis(down, up);
        var arrowPressedNow := dx != 0 || dy != 0;
        if arrowPressedNow && !arrowWasPressed {
          var newX := player.x + dx;
          var newY := player.y + dy;
          if !isBlocked(Pos(newX, newY)) {
            if canMove {
              MovePlayer(newX, newY);
              moved := true;
            }
          }
        }
        arrowWasPressed := arrowPressedNow;
      }
    }

    /**
     * The move itself: spend the stamina of a step in the current
     * weather, take the new position and save one undo snapshot of it.
     */
    method MovePlayer(newX: int, newY: int)
      requires player.Valid() && gameState.Valid()
      modifies this`playerMovedThisFrame
      modifies player`x, player`y, player`stamina, player`isExhausted, gameState
      ensures player.Valid() && gameState.Valid()
      ensures player.x == newX && player.y == newY && playerMovedThisFrame
      ensures player.stamina == old(player.stamina) - Consumption(player.TotalWeight(), currentWeather)
      ensures player.isExhausted == (old(player.isExhausted) || player.stamina <= 0.0)
      ensures gameState.history == Pushed(old(gameState.history),
        Snapshot(Pos(newX, newY), player.stamina, player.reputation, player.totalIncome,
                 MapSeq(player.inventory.orders, ToRecord), elapsedTime, currentWeather),
        gameState.maxUndo)
    {
      player.ConsumeStamina(currentWeather);
      player.x := newX;
      player.y := newY;
      playerMovedThisFrame := true;
      gameState.SaveState(player, player.inventory, elapsedTime, currentWeather);
    }

    /**
     * accept_order_at_location: the first available order whose pickup is
     * the player's cell is offered to the player; accepted or refused, no
     * other order is tried. `accepts` is the player's answer.
     */
    method AcceptOrderAtLocation(available: seq<OrderData>, accepts: OrderData -> bool) returns (outcome: PickupOutcome)
      ensures outcome == NoOrderHere <==>
        forall i :: 0 <= i < |available| ==> available[i].pickup != Pos(player.x, player.y)
      ensures !outcome.NoOrderHere? ==>
        && outcome.k < |available| && available[outcome.k].pickup == Pos(player.x, player.y)
        && (forall i :: 0 <= i < outcome.k ==> available[i].pickup != Pos(player.x, player.y))
        && (outcome.Accepted? <==> accepts(available[outcome.k]))
    {
      var i := 0;
      while i < |available|
        invariant 0 <= i <= |available|
        invariant forall j :: 0 <= j < i ==> available[j].pickup != Pos(player.x, player.y)
      {
        var pickup := available[i].pickup;
        if Pos(player.x, player.y) == pickup {
          if accepts(available[i]) {
            return Accepted(i);
          } else {
            return InventoryFull(i);
          }
        }
        i := i + 1;
      }
      return NoOrderHere;
    }

    /**
     * complete_delivery's gate: the delivery goes ahead only with a current
     * order whose dropoff is the player's cell; otherwise nothing changes.
     */
    method CompleteDelivery() returns (delivers: bool)
      requires player.inventory.Valid()
      ensures delivers <==>
        && player.inventory.orders != []
        && player.inventory.orders[player.inventory.cursor].dropoff == Pos(player.x, player.y)
    {
      var current := player.inventory.CurrentOrder();
      if current.None? {
        return false;
      }
      var dropoff := current.value.dropoff;
      if Pos(player.x, player.y) != dropoff {
        return false;
      }
      return true;
    }
  }
}
