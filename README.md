# Courier Quest: a Dafny model of the game's core

Courier Quest is a grid-based delivery game. A courier walks a city map,
accepts orders at their pickup cells, carries them in a weight-capped
inventory and delivers them at their dropoff cells before a deadline.
Stamina, reputation, income and the changing weather all affect play. A rival
courier, steered by an easy, medium or hard strategy, competes for the
same orders. This project models the game's logic and proves its
properties:

- `Inventories` (inventory.dfy): the doubly linked order list with its
  cursor: add, browse, complete, remove by id, and a stable sort by a key.
- `Players` (player.dfy): speed, stamina consumption and recovery,
  exhaustion, reputation tiers on delivery, payouts.
- `GameStates` (game_state.dfy): the bounded undo history, inventory
  serialisation, the quick-save slot choice, the manual-save slot check
  and the top-ten score table.
- `Maps` (map.dfy): tile lookups and the map's unit-cost A*.
- `Strategies`, `MediumStrategies`, `HardStrategies` (strategy.dfy,
  medium_strategy.dfy, hard_strategy.dfy): order scoring, the medium
  rival's greedy walk, the hard rival's weather-weighted A*, and both
  rivals' deliver / re-target / pick-up decisions.
- `Rivals` (rival.dfy): the rival courier and its one-cell move.
- `Games` (game.dfy): the weather cycle and its interpolated multiplier,
  arrow-key movement, order pickup, the delivery gate and the final score.
- `ElapsedTimes` (clock.dfy): the MM:SS / HH:MM:SS elapsed-time label.
- `Grids`, `Sorting`, `Orders`, `Common`: shared notions. These are grid
  paths, the priority order of `heapq` entries, a stable descending
  insertion sort, order records, positions and options.

Objects the source updates in place are classes: the inventory, player,
game state, both rival strategies, rival and game. Their methods carry
`modifies` frames and postconditions that give the new values of what
they change in terms of the old state. The score rules, searches' specifications and
formatting are functions, with lemmas about them.

Collaborators that are not part of this model become parameters:

- the city's `is_blocked` is a `Grid` or a predicate;
- the weather's `next_state` and `random.uniform` draws become values,
  with the drawn range as a precondition;
- the order manager's available orders and the game's answer to a
  rival's pickup become the `World` value;
- the weather multiplier table is a map.

Numbers are modelled as mathematical reals and integers. Python's `int()`
on a float is truncation toward zero. Dafny's `/` and `%` on integers
agree with Python's `//` and `%` for the positive divisors used here.

Where the code and its documentation differ, the model follows the code.
These differences are:

- the source calls members the player class does not define
  (`can_move`, `accept_order`, `complete_delivery`, `cancel_order`,
  `expire_order`, `total_penalties`) and passes arguments other members do
  not take. The model takes the evident intent, as listed under "Left out".
- both rival strategies call `self.game.complete_delivery_rival` on the
  dropoff (src/logic/strategies/medium_strategy.py:157,
  src/logic/strategies/hard_strategy.py:116) and
  `self.game.accept_order_at_location_rival` on the target's pickup
  (medium_strategy.py:188, hard_strategy.py:150). `Game` defines neither,
  so a medium or hard rival reaching either cell raises `AttributeError`.
  The model takes the intent: the decision reports a `DeliveryCompleted`
  or `OrderAccepted` effect, and `World.acceptsOrder` is the game's
  answer to the pickup.
- `Player.__init__` (src/logic/player.py:15) passes `peso_maximo=` to an
  `Inventory` whose parameter is `max_weight`, which raises `TypeError`.
  The model gives the inventory the player's cap of 30.
- `Game.__init__` (src/logic/game.py:84) calls `set_strategy`. The rival
  defines `setStrategy` (src/logic/rival.py:11); the model has
  `SetStrategy`.
- `Game.update` (src/logic/game.py:266) passes an argument to
  `recover_stamina`, which takes none (src/logic/player.py:78). It also calls
  `decide_next_move()` without the `game_state` parameter
  (src/logic/game.py:302, src/logic/rival.py:35). The model uses the
  argument-free recovery and the one-argument move decision.
- `EasyStrategy` (src/logic/strategies/easy_strategy.py) does not define the
  abstract `_find_path`, so Python would refuse to instantiate it. The
  model keeps its `next_move`, one cell right, although the docstring says
  down.
- The map's A* (src/logic/map.py:34) keys its cost table by `(row, column)`
  but looks cells up by `(x, y)`. On a map that is not square a lookup
  can miss and raise `KeyError`; the model returns `MissingKey` for that.

## Model

| member | source | states |
|---|---|---|
| Inventories.Inventory.constructor | src/logic/inventory.py:11-17 | an empty list, no current order, zero weight and count, the given weight cap |
| Inventories.Inventory.AddOrder | src/logic/inventory.py:19-36 | accepted exactly when the new total weight stays within the cap; then the order is appended at the tail, weight and count grow by its weight and one, the cursor moves to it only if the list was empty; refused: nothing changes |
| Inventories.Inventory.ViewNextOrder | src/logic/inventory.py:38-43 | the cursor advances by one unless it is on the last order or there is none; the list keeps its shape invariant |
| Inventories.Inventory.ViewPrevOrder | src/logic/inventory.py:45-50 | the cursor goes back by one unless it is on the first order or there is none |
| Inventories.Inventory.CompleteCurrentOrder | src/logic/inventory.py:52-78 | with no current order: None and no change; otherwise returns the current order, removes exactly it, subtracts its weight, decrements the count and moves the cursor to the successor, else the predecessor |
| Inventories.Inventory.RemoveOrderById | src/logic/inventory.py:126-160 | true exactly when some order has the id; then the first such order alone is removed with its weight, and the cursor follows its order, moving on only if that order was removed; false: nothing changes |
| Inventories.Inventory.SortInventory | src/logic/inventory.py:80-124 | fewer than two orders: no change; otherwise the list becomes the stable descending sort by the key, weight and count unchanged, and the cursor is on the first order bearing the id it was on |
| Inventories.SortKeepsOrders | src/logic/inventory.py:94-120 | sorting keeps the length and total weight, and the order under the cursor is still in the list, so the relocation loop always finds it |
| Inventories.SumWeightsRemove | src/logic/inventory.py:75-76 | removing one order takes exactly its weight off the total |
| Inventories.CursorFollowsOrder | src/logic/inventory.py:139-155 | removing another order leaves the cursor on the same order |
| Inventories.CursorOnRemoved | src/logic/inventory.py:69-73 | removing the current order moves the cursor to its successor, else to its predecessor |
| Inventories.FindId | src/logic/inventory.py:128-134 | the index of the first order with the id, or -1 exactly when none has it |
| Sorting.SortDescFacts | src/logic/inventory.py:100 | the sort is ordered by descending key, a permutation of its input and stable: orders with equal keys keep their relative order |
| Players.Player.constructor | src/logic/player.py:8-30 | position and income goal as given, stamina 100, reputation 70, no income, not exhausted, an empty inventory with cap 30, last position the start |
| Players.WeatherMultiplier | src/logic/player.py:36-38 | the table's multiplier for a known condition, 1.0 for an unknown one |
| Players.ReputationFactor | src/logic/player.py:45 | 1.03 exactly when reputation is at least 90, otherwise 1.0 |
| Players.StaminaFactor | src/logic/player.py:47-52 | 0.8 exactly for stamina strictly between 0 and 30, 0 exactly for stamina at most 0, 1.0 exactly from 30 on |
| Players.WeightFactor | src/logic/player.py:44 | the weight factor lies in [0.8, 1] and is 0.8 exactly from a whole-number load of 7 on |
| Players.Speed | src/logic/player.py:40-55 | speed is 0 without stamina, positive with stamina in positive weather and on a positive surface, and never above 3 × 1.03 × weather × surface |
| Players.SpeedAntitoneInWeight | src/logic/player.py:40-55 | more weight never makes the courier faster |
| Players.SpeedMonotoneInStamina | src/logic/player.py:40-55 | more stamina never makes the courier slower |
| Players.Player.CalculateSpeed | src/logic/player.py:36-55 | for the player's own load, reputation and stamina: 0 without stamina; positive with stamina, positive weather and surface; at most 3 × 1.03 × weather × surface; exactly 3 × weather × surface for an unloaded, rested player below reputation 90 |
| Players.Consumption | src/logic/player.py:57-70 | a step costs at least 0.5 stamina; at most 0.8 up to weight 3; beyond, 0.2 per extra weight unit on top |
| Players.ConsumptionMonotone | src/logic/player.py:57-70 | a heavier load never costs less stamina per step |
| Players.Player.ConsumeStamina | src/logic/player.py:57-76 | stamina drops by exactly the consumption, strictly; the courier is exhausted once stamina reaches 0 and stays so |
| Players.Player.RecoverStamina | src/logic/player.py:78-87 | stamina rises by 5, capped at 100; exhaustion ends exactly when stamina reaches 30 |
| Players.Player.Move | src/logic/player.py:89-96 | an exhausted courier does not move and keeps its stamina; otherwise it steps by (dx, dy) and pays one step's consumption |
| Players.Player.AcceptDelivery | src/logic/player.py:98-104 | accepted exactly when the order fits the capacity; then it is appended, the weight and count grow by it and the cursor moves to the first node if there was none; else the inventory is unchanged |
| Players.ReputationChange | src/logic/player.py:113-130 | the change is one of +5, +3, -2, -5, -10 and is positive exactly when delivered by the deadline |
| Players.ReputationChangeAntitone | src/logic/player.py:113-130 | delivering later never earns more reputation |
| Players.DeliveryPayout | src/logic/player.py:136-140 | the payout is paid in full, with a 5% bonus exactly when reputation is at least 90 |
| Players.Player.DropoffDelivery | src/logic/player.py:106-142 | no current order: nothing changes; otherwise it is removed, the cursor moves to the next node (or the previous one at the end), weight and count drop by it, reputation moves by its tier and income grows by its payout under the new reputation |
| Players.Player.UpdateState | src/logic/player.py:144-149 | a courier still on its last position recovers stamina; one that moved records the new position and keeps its stamina |
| Orders.RecordRoundTrip | src/logic/game_state.py:135-143 | a record and its release time give back the order, and an order rebuilt from a record gives back the record |
| GameStates.SerializeInventory | src/logic/game_state.py:130-145 | one record per order, first to last, as many as the inventory counts |
| GameStates.SerializedOrdersDetermined | src/logic/game_state.py:130-145 | two inventories with the same records and release times hold the same orders |
| GameStates.Pushed | src/logic/game_state.py:28-30 | the history never grows beyond max_undo, ends with the new snapshot; below the bound it just appends it, at the bound the oldest entry is dropped |
| GameStates.GameState.SaveState | src/logic/game_state.py:17-30 | the history gains a snapshot of position, stamina, reputation, income, serialised inventory, time and weather, dropping the oldest entry beyond max_undo |
| GameStates.GameState.Undo | src/logic/game_state.py:32-38 | with fewer than steps + 1 entries: None and no change; otherwise the newest `steps` entries are dropped and the snapshot steps back from the newest is returned |
| GameStates.ChooseAutoSaveSlot | src/logic/game_state.py:70-82 | the first empty slot if any; otherwise the slot saved earliest, the lower number winning ties |
| GameStates.SaveGame | src/logic/game_state.py:40-61 | a slot outside 1..3 fails; otherwise the record holds the player's fields, the serialised inventory, the game data and the time |
| GameStates.AutoSave | src/logic/game_state.py:46-82 | the lowest-numbered empty slot if any, otherwise the slot saved earliest with ties to the lower number; the record carries the player's position, stamina, reputation, income, goal, name, the serialised inventory, the game data and the time |
| GameStates.SaveScore | src/logic/game_state.py:148-171 | the table keeps min(old size + 1, 10) entries |
| GameStates.SaveScoreFacts | src/logic/game_state.py:148-171 | the new table is sorted by score, holds only old and new entries, never drops a higher score while keeping a lower one, keeps equal scores in order, and keeps the new entry when there was room |
| Maps.IsBlocked | src/logic/map.py:21-23 | blocked exactly when the tile's legend entry says blocked; a missing entry or flag means free |
| Maps.GetSurfaceWeight | src/logic/map.py:25-27 | the legend's surface weight, 1.0 when entry or weight is missing |
| Maps.AStarPathfinding | src/logic/map.py:29-62 | on a square map the search finishes without a missing key; start equal to end gives []; a non-empty result is a route of free, edge-adjacent cells from start to end; an empty result for distinct start and end means no route exists |
| Maps.QueueHoldsRoute | src/logic/map.py:39-62 | while a route from start to end exists the queue is not empty, so the search does not give up |
| Maps.ExpandAll | src/logic/map.py:49-61 | expanding a popped cell keeps the search invariant and either spends budget or changes nothing |
| Maps.Relax | src/logic/map.py:55-61 | an improving step keeps every cost a true step count and every predecessor a reached neighbour |
| Grids.Reconstruct | src/logic/map.py:42-47 | following predecessors yields [] exactly at the start, otherwise a route to the goal no longer than its step count |
| Grids.MinEntry | src/logic/strategies/hard_strategy.py:43 | the chosen entry is minimal in heapq's (priority, x, y) order |
| HardStrategies.HeuristicConsistent | src/logic/strategies/hard_strategy.py:24-25 | the Manhattan heuristic changes by at most one per step |
| HardStrategies.FindPath | src/logic/strategies/hard_strategy.py:27-73 | the plan is [] when start is the goal or exactly when no route exists; otherwise a route; with a weather multiplier at most 1 it has the fewest steps of all routes |
| HardStrategies.Optimal | src/logic/strategies/hard_strategy.py:42-52 | when the goal is popped with steps costing at least 1, its step count is at most any route's length |
| HardStrategies.Frontier | src/logic/strategies/hard_strategy.py:42-70 | while a route exists the queue holds an entry no larger than the route's cost |
| HardStrategies.TryNeighbour | src/logic/strategies/hard_strategy.py:55-70 | a free neighbour ends at most one step behind the expanded cell; the search invariant holds and either budget is spent or nothing changes |
| HardStrategies.Expand | src/logic/strategies/hard_strategy.py:54-70 | after all four neighbours the expanded cell is settled and the invariant holds with nothing skipped |
| HardStrategies.Init | src/logic/strategies/hard_strategy.py:36-40 | the start alone, cost 0 and priority 0, satisfies the search invariant |
| HardStrategies.EvaluateOrder | src/logic/strategies/hard_strategy.py:88-100 | the score never exceeds the payout (10 when missing) and equals it exactly when the rival stands on the pickup and the dropoff is the pickup |
| HardStrategies.EvaluateOrderWeather | src/logic/strategies/hard_strategy.py:97-100 | worse weather never raises a score |
| HardStrategies.EvaluateOrderDistance | src/logic/strategies/hard_strategy.py:95-100 | a shorter total trip never lowers the score of an equal payout |
| HardStrategies.BestOrder | src/logic/strategies/hard_strategy.py:136-139 | the chosen order is available, scores no lower than any other and is the first of the best score |
| HardStrategies.HardStrategy.constructor | src/logic/strategies/hard_strategy.py:15-22 | no target, no path, the drawn timer in [5, 10], the game's multiplier, a 5 s replan interval and a zero replan timer |
| HardStrategies.HardStrategy.NextMove | src/logic/strategies/hard_strategy.py:75-86 | with a path: the offset to its first cell, which is removed, all other fields unchanged; without: (0, 0), and target, path, timers, weather and effect are exactly those of one job decision with dt 0 |
| HardStrategies.HardStrategy.DecideJobAction | src/logic/strategies/hard_strategy.py:102-154 | at the dropoff: deliver and clear path and target; carrying: replan to the dropoff exactly when the path is empty, the replan timer reaches 5 s or the weather changed; empty-handed: on timer expiry or without a target, target the first best order and plan to its pickup; act exactly when the target is available here and accepted (all gathered in JobDecided) |
| Strategies.ArgMax | src/logic/strategies/medium_strategy.py:118-121 | `max` returns the first index of a maximal score |
| Strategies.TryPickup | src/logic/strategies/medium_strategy.py:184-190 | the index of the first available order with the target id and pickup here that the game accepts, or the list's length when none is |
| Strategies.StepOffset | src/logic/strategies/medium_strategy.py:134-140 | the offset leads from the rival's cell to the path's next cell and is a unit step when the two are adjacent |
| MediumStrategies.MediumScore | src/logic/strategies/medium_strategy.py:28-55 | -infinity exactly when the order would exceed capacity; otherwise at most 2 × payout − 0.5 × weather penalty, with equality exactly on the pickup cell |
| MediumStrategies.MediumScoreNearer | src/logic/strategies/medium_strategy.py:39-49 | of two carriable orders with equal payout, the nearer pickup never scores lower |
| MediumStrategies.MediumScoreWeather | src/logic/strategies/medium_strategy.py:42-49 | a lower weather multiplier never raises a score |
| MediumStrategies.ChoiceStep | src/logic/strategies/medium_strategy.py:72-91 | the chosen cell is adjacent and one step closer; it is on the longer axis unless that cell is blocked and the other axis differs |
| MediumStrategies.GreedyWalkSteps | src/logic/strategies/medium_strategy.py:68-101 | the walk is a chain of adjacent unblocked cells, each one step closer to the end, and is no longer than the distance |
| MediumStrategies.GreedyWalkStops | src/logic/strategies/medium_strategy.py:68-95 | a walk shorter than its step limit ends at the end, or where the next greedy choice is blocked |
| MediumStrategies.GreedyWalkDistinct | src/logic/strategies/medium_strategy.py:68-101 | the walk never revisits a cell or the start |
| MediumStrategies.GreedyWalkArrives | src/logic/strategies/medium_strategy.py:68-101 | it is empty when start is the end; a walk that reaches the end has exactly as many cells as the Manhattan distance, the fewest possible |
| MediumStrategies.NextCell | src/logic/strategies/medium_strategy.py:72-91 | the source's dx/dy computation yields the greedy choice |
| MediumStrategies.FindPath | src/logic/strategies/medium_strategy.py:57-101 | the result is the greedy walk: at most 30 cells and at most the Manhattan distance, adjacent, unblocked |
| MediumStrategies.MediumStrategy.constructor | src/logic/strategies/medium_strategy.py:20-26 | no target, no path, the drawn timer in [4, 10] |
| MediumStrategies.MediumStrategy.SearchNextObjective | src/logic/strategies/medium_strategy.py:103-127 | None exactly when the rival carries orders, nothing is available or the best score is -infinity; otherwise an available order of maximal score, the first such |
| MediumStrategies.MediumStrategy.NextMove | src/logic/strategies/medium_strategy.py:129-142 | with a path: the offset to its first cell, which is removed; without: (0, 0); target and timer unchanged |
| MediumStrategies.MediumStrategy.DecideJobAction | src/logic/strategies/medium_strategy.py:144-192 | at the dropoff: deliver and clear path and target; carrying: plan to the dropoff only when the path is empty; empty-handed: on timer expiry or without a target, take the objective (or clear target and path) and redraw the timer; act exactly when the target is available here and accepted |
| Rivals.Rival.constructor | src/logic/rival.py:7-9 | a fresh courier at (x, y) with the strategy |
| Rivals.Rival.SetStrategy | src/logic/rival.py:11-17 | only the strategy changes |
| Rivals.Rival.Move | src/logic/rival.py:19-33 | exhausted: no move; an offset outside {-1, 0, 1}: ValueError and no move; otherwise the rival steps by the offset |
| Rivals.Rival.DecideNextMove | src/logic/rival.py:35-43 | the strategy's decision is applied by the move; easy always (1, 0); medium and hard follow the head of their path; the strategy's fields change exactly as its next_move states (medium keeps target and timer; hard without a path makes one job decision with dt 0) |
| Games.CalculateScore | src/logic/game.py:404-411 | the score is never negative and is the floor of income + bonus − penalties when that is positive |
| Games.EarlyWinBonus | src/logic/game.py:405-407 | a victory before 80% of the 900 s adds exactly 500 |
| Games.Interpolate | src/logic/game.py:247-250 | between 0 and 4 s the multiplier lies between the two weathers' values, equal to the current at 0 and the next at 4 |
| Games.InterpolationBounds | src/logic/game.py:250 | linear interpolation by a fraction in [0, 1] stays between its ends |
| Games.Axis | src/logic/game.py:145-146 | the arrow axis is 0 exactly when both or neither key is held |
| Games.Game.constructor | src/logic/game.py:37-66 | the player at (1, 1), empty undo history, zero elapsed time, not over, the initial weather on both sides, the drawn timer in [45, 60], no transition |
| Games.Game.UpdateWeather | src/logic/game.py:231-242 | the timer counts down; a transition completes after 4 s; an expired timer outside a transition starts one to the drawn next state with a new timer; the weather invariant is kept |
| Games.Game.CurrentWeatherMultiplier | src/logic/game.py:244-250 | outside a transition the current weather's multiplier, during one the interpolation by elapsed fraction |
| Games.Game.MultiplierPositive | src/logic/game.py:244-250 | with positive table values the multiplier is positive |
| Games.Game.HandleMovement | src/logic/game.py:143-172 | the courier moves exactly on a fresh arrow press to a free cell while allowed to move; then it pays stamina and one undo snapshot is saved; otherwise position, stamina and history stay |
| Games.Game.AcceptOrderAtLocation | src/logic/game.py:195-208 | the first available order at the player's cell is offered, accepted or refused; none there means no order |
| Games.Game.CompleteDelivery | src/logic/game.py:216-224 | the delivery proceeds exactly when there is a current order whose dropoff is the player's cell |
| ElapsedTimes.Truncate | src/main.py:21 | `int()` truncates toward zero: the result's size is the input's whole part |
| ElapsedTimes.Split | src/main.py:22-23 | hours, minutes and seconds recompose the total, minutes and seconds below 60, hours positive exactly from 3600 s |
| ElapsedTimes.Pad2 | src/main.py:24-26 | two digits below 100, and the digits read back as the number |
| ElapsedTimes.FormatElapsed | src/main.py:20-26 | below an hour the label is MM:SS, five characters; from an hour on HH:MM:SS |
| ElapsedTimes.FormatRoundTrip | src/main.py:20-26 | the label of a non-negative time reads back as its whole seconds |

## Left out

- Rendering, sound, messages on screen, the pygame event loop, menus,
  the high-score screen and `load_game` (file reading): these are I/O.
- Pickle and JSON files, directory creation, `delete_slot`,
  `list_slots_metadata` and the clock: file and clock access. Slot metadata,
  stored scores and the current time are parameters.
- Linked `Node` objects and their `prev`/`next` links: the inventory
  holds the list of linked orders as a sequence and the current node as an
  index. Aliasing between nodes is not modelled.
- Floating point: stamina, money, timers and multipliers are reals, so
  rounding is not modelled. Datetimes are whole seconds.
- The order manager (`get_available`, `update_available`, `remove_order`),
  the city, the weather's Markov chain and the configuration tables are not
  part of this model. They appear as parameters (`World`, `Grid`, a drawn
  next state, a multiplier map).
- Player members the game calls but `player.py` does not define: `can_move`,
  `accept_order`, `complete_delivery`, `cancel_order`, `expire_order`,
  `is_defeated`, `has_won`, `total_penalties`. They are parameters or
  left out.
- Game members the rival strategies call but `game.py` does not define:
  `complete_delivery_rival` and `accept_order_at_location_rival`. The
  source raises `AttributeError` at these calls; the model does not model
  that error and gives their intended effect instead (`DeliveryCompleted`,
  `OrderAccepted`, `World.acceptsOrder`). What the game would do with
  those effects is not modelled.
- `Game.update`'s per-frame sequence, the order-expiry loop, saving
  overlays and the rival interaction timer are left out. The modelled
  operations cover the rules they call.
- `Game.restore_state` is not defined in the source, so undo's snapshot
  is returned but not applied.
- HardStrategies.FindPath: optimality is claimed only for a weather
  multiplier of at most 1. A larger multiplier makes each step cost less
  than 1, so the Manhattan heuristic can overestimate and A* does not
  guarantee the fewest steps.
- Maps.AStarPathfinding: no optimality is claimed. The map's search queues
  an improved cell only when it has no queue entry, so a stale, larger
  priority can remain. The model states that a result is a route and
  that an empty result means no route exists, not that it is shortest.
- Maps.AStarPathfinding, Maps.IsBlocked, Maps.GetSurfaceWeight: `tiles[y][x]`
  raises IndexError when the tile rows are fewer than `height` or shorter
  than `width`. The model requires well-formed tiles (`WellFormed`,
  `HasTile`) and does not model that error.
- MediumStrategies.FindPath: the `City` class whose `is_blocked` the walk
  calls is not part of this model; its `is_blocked` is taken as a
  predicate defined on every cell. Each step of the greedy walk brings it
  one cell closer to the end, so it stays inside the rectangle spanned by
  start and end and meets a cell off the map only when start or end is off
  the map.
- Players.WeightFactor, Players.Consumption: order weights are whole
  numbers (`weight: nat`), and the load these take is an integer. A fractional weight is
  not modelled; for one, the weight factor would reach 0.8 from a load of
  20/3 rather than from 7.
- Sorting by deadline (the `d` key) needs datetime parsing. The sort is
  modelled for any integer key.
