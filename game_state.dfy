/**
 * Undo history and save policy (src/logic/game_state.py): a bounded
 * history of snapshots with multi-step undo, the inventory serialiser, the
 * choice of save slot, the slot check of a manual save and the top-ten
 * score table. The pickle and JSON files, the clock and the directory
 * set-up are outside this model: slot metadata, stored scores and the
 * current time are parameters, and a save produces the record that would
 * be written.
 */
module GameStates {
  import opened Common
  import opened Orders
  import Sorting
  import opened Inventories
  import opened Players

  const MAX_SLOTS: int := 3
  const DEFAULT_MAX_UNDO: int := 10
  const TOP_SCORES: nat := 10

  /** One undo entry, held by value. */
  datatype Snapshot = Snapshot(
    playerPos: Pos,
    stamina: real,
    reputation: int,
    income: real,
    inventory: seq<OrderRecord>,
    time: real,
    weather: string)

  /** Walks the inventory first to last, one record per order. */
  method SerializeInventory(inventory: Inventory) returns (records: seq<OrderRecord>)
    requires inventory.Valid()
    ensures |records| == inventory.orderCount
    ensures forall i :: 0 <= i < |records| ==> records[i] == ToRecord(inventory.orders[i])
  {
    records := [];
    var i := 0;
    while i < |inventory.orders|
      invariant 0 <= i <= |inventory.orders|
      invariant |records| == i
      invariant forall j :: 0 <= j < i ==> records[j] == ToRecord(inventory.orders[j])
    {
      records := records + [ToRecord(inventory.orders[i])];
      i := i + 1;
    }
  }

  /**
   * The serialised inventory determines the orders, up to the release
   * times it does not keep.
   */
  lemma {:induction false} SerializedOrdersDetermined(a: seq<Order>, b: seq<Order>)
    requires MapSeq(a, ToRecord) == MapSeq(b, ToRecord)
    requires forall i :: 0 <= i < |a| && i < |b| ==> a[i].releaseTime == b[i].releaseTime
    ensures a == b
  {
    assert |a| == |MapSeq(a, ToRecord)| == |b|;
    forall i | 0 <= i < |a|
      ensures a[i] == b[i]
    {
      assert ToRecord(a[i]) == MapSeq(a, ToRecord)[i] == ToRecord(b[i]);
      RecordRoundTrip(a[i], ToRecord(b[i]), b[i].releaseTime);
      RecordRoundTrip(b[i], ToRecord(a[i]), a[i].releaseTime);
    }
  }

  /** The history after pushing s: the oldest entry goes once the bound is passed. */
  function Pushed(history: seq<Snapshot>, s: Snapshot, maxUndo: int): (r: seq<Snapshot>)
    ensures |history| <= Max0(maxUndo) ==> |r| <= Max0(maxUndo)
    ensures maxUndo >= 1 ==> r != [] && r[|r| - 1] == s
    ensures |history| < maxUndo ==> r == history + [s]
    ensures |history| >= maxUndo ==> r == (history + [s])[1..]
  {
    var appended := history + [s];
    if |appended| > maxUndo then appended[1..] else appended
  }

  function Max0(n: int): nat
  {
    if n < 0 then 0 else n
  }

  class GameState {
    var history: seq<Snapshot>
    const maxUndo: int

    ghost predicate Valid()
      reads this
    {
      |history| <= Max0(maxUndo)
    }

    constructor (maxUndo: int)
      ensures Valid() && history == [] && this.maxUndo == maxUndo
    {
      history := [];
      this.maxUndo := maxUndo;
    }

    /**
     * Records the courier's position, stamina, reputation and income, the
     * serialised inventory, the time and the weather as the newest entry,
     * dropping the oldest entry when the history grows past its bound.
     */
    method SaveState(player: Player, inventory: Inventory, currentTime: real, weather: string)
      requires Valid() && inventory.Valid()
      modifies this
      ensures Valid()
      ensures history == Pushed(old(history),
        Snapshot(Pos(player.x, player.y), player.stamina, player.reputation, player.totalIncome,
                 MapSeq(inventory.orders, ToRecord), currentTime, weather),
        maxUndo)
    {
      var records := SerializeInventory(inventory);
      assert records == MapSeq(inventory.orders, ToRecord);
      var state := Snapshot(Pos(player.x, player.y), player.stamina, player.reputation, player.totalIncome,
                            records, currentTime, weather);
      history := history + [state];
      if |history| > maxUndo {
        history := history[1..];
      }
    }

    /**
     * Undoes `steps` steps: with fewer than steps + 1 entries it returns
     * None and keeps the history; otherwise it drops the `steps` newest
     * entries (none when steps is negative) and returns the newest one
     * left, if any.
     */
    method Undo(steps: int) returns (state: Option<Snapshot>)
      requires Valid()
      modifies this
      ensures Valid()
      ensures |old(history)| < steps + 1 ==> state == None && history == old(history)
      ensures |old(history)| >= steps + 1 ==>
        && history == old(history)[..|old(history)| - Max0(steps)]
        && state == (if history == [] then None else Some(history[|history| - 1]))
      ensures |old(history)| >= steps + 1 && steps >= 0 ==>
        history != [] && state == Some(old(history)[|old(history)| - 1 - steps])
    {
      if |history| < steps + 1 {
        return None;
      }
      var k := 0;
      while k < steps
        invariant 0 <= k <= Max0(steps)
        invariant history == old(history)[..|old(history)| - k]
      {
        history := history[..|history| - 1];
        k := k + 1;
      }
      if history == [] {
        return None;
      }
      state := Some(history[|history| - 1]);
    }
  }

  /** What list_slots_metadata reports for one slot; None as time stands for `datetime.max`. */
  datatype SlotMeta = SlotMeta(saved: bool, mtime: Option<int>)

  /** Time a is not later than time b, a missing time counting as the latest possible. */
  predicate NotLater(a: Option<int>, b: Option<int>)
  {
    match b
    case None => true
    case Some(t) => a.Some? && a.value <= t
  }

  /**
   * The slot a quick save uses, meta[i] describing slot i + 1: the
   * lowest-numbered empty slot; when all are taken, the one saved
   * earliest, ties going to the lower number.
   */
  method ChooseAutoSaveSlot(meta: seq<SlotMeta>) returns (slot: int)
    requires |meta| == MAX_SLOTS
    ensures 1 <= slot <= MAX_SLOTS
    ensures (exists i :: 0 <= i < MAX_SLOTS && !meta[i].saved) ==>
      !meta[slot - 1].saved && forall i :: 0 <= i < slot - 1 ==> meta[i].saved
    ensures (forall i :: 0 <= i < MAX_SLOTS ==> meta[i].saved) ==>
      && (forall i :: 0 <= i < MAX_SLOTS ==> NotLater(meta[slot - 1].mtime, meta[i].mtime))
      && (forall i :: 0 <= i < slot - 1 ==> !NotLater(meta[i].mtime, meta[slot - 1].mtime))
  {
    for i := 1 to MAX_SLOTS + 1
      invariant forall j :: 0 <= j < i - 1 ==> meta[j].saved
    {
      if !meta[i - 1].saved {
        return i;
      }
    }
    // min() keeps the first slot whose key is smallest
    slot := 1;
    for i := 2 to MAX_SLOTS + 1
      invariant 1 <= slot < i
      invariant forall j :: 0 <= j < i - 1 ==> NotLater(meta[slot - 1].mtime, meta[j].mtime)
      invariant forall j :: 0 <= j < slot - 1 ==> !NotLater(meta[j].mtime, meta[slot - 1].mtime)
    {
      if !NotLater(meta[slot - 1].mtime, meta[i - 1].mtime) {
        slot := i;
      }
    }
  }

  /** The game data a save carries. */
  datatype GameData = GameData(elapsedTime: real, weatherState: string, weatherTimer: real, startDatetime: int)

  /** The record a save writes to its slot file. */
  datatype SaveData = SaveData(
    playerName: string,
    x: int,
    y: int,
    stamina: real,
    reputation: int,
    totalIncome: real,
    incomeGoal: int,
    inventory: seq<OrderRecord>,
    gameData: GameData,
    timestamp: int)

  /**
   * A manual save: a slot outside 1..3 fails the source's assertion
   * (None here); otherwise the record to be written, with the serialised
   * inventory.
   */
  method SaveGame(slot: int, player: Player, inventory: Inventory, gameData: GameData, playerName: string, now: int)
    returns (data: Option<SaveData>)
    requires inventory.Valid()
    ensures data.None? <==> !(1 <= slot <= MAX_SLOTS)
    ensures data.Some? ==>
      && data.value.inventory == MapSeq(inventory.orders, ToRecord)
      && data.value.x == player.x && data.value.y == player.y
      && data.value.stamina == player.stamina && data.value.reputation == player.reputation
      && data.value.totalIncome == player.totalIncome && data.value.incomeGoal == player.incomeGoal
      && data.value.playerName == playerName && data.value.gameData == gameData
      && data.value.timestamp == now
  {
    if !(1 <= slot <= MAX_SLOTS) {
      return None;
    }
    var records := SerializeInventory(inventory);
    data := Some(SaveData(playerName, player.x, player.y, player.stamina, player.reputation,
                          player.totalIncome, player.incomeGoal, records, gameData, now));
  }

  /**
   * A quick save: the slot ChooseAutoSaveSlot picks, which always passes
   * the manual save's check, and the record a manual save to it writes.
   */
  method AutoSave(meta: seq<SlotMeta>, player: Player, inventory: Inventory, gameData: GameData, playerName: string, now: int)
    returns (slot: int, data: SaveData)
    requires |meta| == MAX_SLOTS && inventory.Valid()
    ensures 1 <= slot <= MAX_SLOTS
    ensures (exists i :: 0 <= i < MAX_SLOTS && !meta[i].saved) ==>
      !meta[slot - 1].saved && forall i :: 0 <= i < slot - 1 ==> meta[i].saved
    ensures (forall i :: 0 <= i < MAX_SLOTS ==> meta[i].saved) ==>
      && (forall i :: 0 <= i < MAX_SLOTS ==> NotLater(meta[slot - 1].mtime, meta[i].mtime))
      && (forall i :: 0 <= i < slot - 1 ==> !NotLater(meta[i].mtime, meta[slot - 1].mtime))
    ensures data.inventory == MapSeq(inventory.orders, ToRecord)
    ensures data.x == player.x && data.y == player.y
    ensures data.stamina == player.stamina && data.reputation == player.reputation
    ensures data.totalIncome == player.totalIncome && data.incomeGoal == player.incomeGoal
    ensures data.playerName == playerName && data.gameData == gameData && data.timestamp == now
  {
    slot := ChooseAutoSaveSlot(meta);
    var saved := SaveGame(slot, player, inventory, gameData, playerName, now);
    data := saved.value;
  }

  /** One row of the high-score file. */
  datatype ScoreEntry = ScoreEntry(name: string, score: int, income: real, reputation: int, date: int)

  function ScoreOf(e: ScoreEntry): int
  {
    e.score
  }

  /**
   * The score table after a game: the new entry is appended, the list is
   * sorted by score, highest first and stable, and only the first ten are
   * kept. A missing or unreadable file (None) counts as an empty table.
   */
  function SaveScore(stored: Option<seq<ScoreEntry>>, entry: ScoreEntry): (r: seq<ScoreEntry>)
    ensures |r| == Min(|StoredScores(stored)| + 1, TOP_SCORES)
  {
    var scores := StoredScores(stored) + [entry];
    Sorting.SortDescFacts(scores, ScoreOf);
    Sorting.SortDesc(scores, ScoreOf)[..Min(|scores|, TOP_SCORES)]
  }

  function StoredScores(stored: Option<seq<ScoreEntry>>): seq<ScoreEntry>
  {
    match stored
    case Some(s) => s
    case None => []
  }

  /**
   * The new table is ordered by score, holds only entries of the old
   * table and the new one, never keeps a lower score while dropping a
   * higher one, and keeps equal scores in their earlier order; the new
   * entry is kept whenever the table had room.
   */
  lemma SaveScoreFacts(stored: Option<seq<ScoreEntry>>, entry: ScoreEntry)
    ensures var r := SaveScore(stored, entry);
      && Sorting.NonIncreasing(r, ScoreOf)
      && multiset(r) <= multiset(StoredScores(stored) + [entry])
      && (forall x: ScoreEntry, j :: x in multiset(StoredScores(stored) + [entry]) - multiset(r) && 0 <= j < |r| ==> x.score <= r[j].score)
      && (forall k :: Sorting.WithKey(r, ScoreOf, k) <= Sorting.WithKey(StoredScores(stored) + [entry], ScoreOf, k))
      && (|StoredScores(stored)| < TOP_SCORES ==> entry in r)
  {
    var scores := StoredScores(stored) + [entry];
    var all := Sorting.SortDesc(scores, ScoreOf);
    Sorting.SortDescFacts(scores, ScoreOf);
    var n := Min(|scores|, TOP_SCORES);
    assert SaveScore(stored, entry) == all[..n];
    TopPrefix(all, n);
    TopPrefixStable(all, n);
    assert multiset(all) == multiset(scores);
    if |StoredScores(stored)| < TOP_SCORES {
      assert all[..n] == all;
      assert entry in multiset(scores);
    }
  }

  /** Cutting a table ordered by score keeps it ordered and keeps the best entries. */
  lemma TopPrefix(all: seq<ScoreEntry>, n: nat)
    requires n <= |all| && Sorting.NonIncreasing(all, ScoreOf)
    ensures Sorting.NonIncreasing(all[..n], ScoreOf)
    ensures multiset(all[..n]) <= multiset(all)
    ensures forall x: ScoreEntry, j :: x in multiset(all) - multiset(all[..n]) && 0 <= j < n ==> x.score <= all[j].score
  {
    var r := all[..n];
    assert all == r + all[n..];
    assert multiset(all) == multiset(r) + multiset(all[n..]);
    forall x: ScoreEntry, j | x in multiset(all) - multiset(r) && 0 <= j < n
      ensures x.score <= all[j].score
    {
      assert x in multiset(all[n..]);
      var m :| 0 <= m < |all[n..]| && all[n..][m] == x;
      assert all[n + m] == x;
      assert ScoreOf(all[j]) >= ScoreOf(all[n + m]);
    }
  }

  /** A prefix keeps, for every score, a prefix of the entries with that score. */
  lemma TopPrefixStable(all: seq<ScoreEntry>, n: nat)
    requires n <= |all|
    ensures forall k :: Sorting.WithKey(all[..n], ScoreOf, k) <= Sorting.WithKey(all, ScoreOf, k)
  {
    forall k
      ensures Sorting.WithKey(all[..n], ScoreOf, k) <= Sorting.WithKey(all, ScoreOf, k)
    {
      assert all == all[..n] + all[n..];
      Sorting.WithKeyAppend(all[..n], all[n..], ScoreOf, k);
    }
  }
}
