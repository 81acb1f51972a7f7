/** The loot-box resolver of functions/src/getItemFromLootBox.ts: a score-banded cascade
    of independent percentage rolls picks a tier, and an ordered walk over the reward
    tables picks an item the player does not own yet. */
module LootBox {
  import opened Wrappers

  /** A loot-box tier as the game declares it: -1 is "no tier", 0 (common) to 3 (rarest). */
  type LootboxTier = t: int | -1 <= t <= 3

  /** A real tier, 0 to 3. */
  type Tier = t: int | 0 <= t <= 3

  // ---------------------------------------------------------------------------
  // randPercent

  /** The percentages `randPercent` accepts. */
  datatype Percent = Fifty | TwentyFive | TwelveAndAHalf | Five | TwoAndAHalf | OneAndAHalf | One | Half

  /** The percentage the caller asks for, as a fraction of 100. */
  function Nominal(p: Percent): real
  {
    match p
    case Fifty => 50.0
    case TwentyFive => 25.0
    case TwelveAndAHalf => 12.5
    case Five => 5.0
    case TwoAndAHalf => 2.5
    case OneAndAHalf => 1.5
    case One => 1.0
    case Half => 0.5
  }

  /** The upper end of the `rand(0, max)` draw that `randPercent` makes for p. */
  function RollMax(p: Percent): nat
  {
    match p
    case Fifty => 1
    case TwentyFive => 3
    case TwelveAndAHalf => 7
    case Five => 19
    case TwoAndAHalf => 9
    case OneAndAHalf => 149
    case One => 99
    case Half => 199
  }

  /** The draw of `rand(0, RollMax(p))` that `randPercent(p)` compares with (`=== target`). */
  function Target(p: Percent): nat
    ensures Target(p) <= RollMax(p)
  {
    match p
    case Fifty => 1
    case TwentyFive => 2
    case TwelveAndAHalf => 2
    case Five => 3
    case TwoAndAHalf => 3
    case OneAndAHalf => 4
    case One => 4
    case Half => 5
  }

  /** `randPercent(p)` given the draw `roll` of `rand(0, RollMax(p))`. */
  predicate RandPercent(p: Percent, roll: int)
    ensures RandPercent(p, roll) ==> 0 <= roll <= RollMax(p)
  {
    roll == Target(p)
  }

  /** The draws of `rand(0, RollMax(p))` for which `randPercent(p)` is true. */
  function Winners(p: Percent): set<int>
  {
    set roll | 0 <= roll <= RollMax(p) && RandPercent(p, roll)
  }

  /** The chance that `randPercent(p)` is true when `rand` is uniform. */
  function Chance(p: Percent): real
  {
    |Winners(p)| as real / (RollMax(p) + 1) as real
  }

  /** Exactly one draw wins, so the chance is one in RollMax(p) + 1. */
  lemma RandPercentHasOneWinner(p: Percent)
    ensures |Winners(p)| == 1
    ensures Chance(p) == 1.0 / (RollMax(p) + 1) as real
  {
    assert Winners(p) == {Target(p)};
  }

  /** For six of the eight percentages the chance is the one asked for. */
  lemma RandPercentMatchesNominal(p: Percent)
    requires p != TwoAndAHalf && p != OneAndAHalf
    ensures Chance(p) == Nominal(p) / 100.0
  {
    RandPercentHasOneWinner(p);
  }

  /** As written, `randPercent(2.5)` is true one time in ten and `randPercent(1.5)`
      one time in 150: neither is the percentage asked for. */
  lemma RandPercentMisses()
    ensures Chance(TwoAndAHalf) == 10.0 / 100.0 != Nominal(TwoAndAHalf) / 100.0
    ensures Chance(OneAndAHalf) == 1.0 / 150.0 != Nominal(OneAndAHalf) / 100.0
  {
    RandPercentHasOneWinner(TwoAndAHalf);
    RandPercentHasOneWinner(OneAndAHalf);
  }

  /** The draw range for the intended percentages: 1 in 40 for 2.5%, 3 in 200 for 1.5%. */
  function IntendedRollMax(p: Percent): nat
  {
    match p
    case TwoAndAHalf => 39
    case OneAndAHalf => 199
    case _ => RollMax(p)
  }

  /** `randPercent` with the 2.5% and 1.5% cases corrected. */
  predicate IntendedRandPercent(p: Percent, roll: int)
  {
    match p
    case TwoAndAHalf => roll == 3
    case OneAndAHalf => 4 <= roll <= 6
    case _ => RandPercent(p, roll)
  }

  function IntendedWinners(p: Percent): set<int>
  {
    set roll | 0 <= roll <= IntendedRollMax(p) && IntendedRandPercent(p, roll)
  }

  function IntendedChance(p: Percent): real
  {
    |IntendedWinners(p)| as real / (IntendedRollMax(p) + 1) as real
  }

  lemma IntendedTwoAndAHalf()
    ensures IntendedChance(TwoAndAHalf) == Nominal(TwoAndAHalf) / 100.0
  {
    var w := IntendedWinners(TwoAndAHalf);
    forall roll ensures roll in w <==> roll in {3} {
      assert IntendedRollMax(TwoAndAHalf) == 39;
      assert IntendedRandPercent(TwoAndAHalf, roll) <==> roll == 3;
    }
    assert w == {3};
  }

  lemma IntendedOneAndAHalf()
    ensures IntendedChance(OneAndAHalf) == Nominal(OneAndAHalf) / 100.0
  {
    var w := IntendedWinners(OneAndAHalf);
    forall roll ensures roll in w <==> roll in {4, 5, 6} {
      assert IntendedRollMax(OneAndAHalf) == 199;
      assert IntendedRandPercent(OneAndAHalf, roll) <==> 4 <= roll <= 6;
    }
    assert w == {4, 5, 6};
  }

  lemma IntendedAgreesElsewhere(p: Percent)
    requires p != TwoAndAHalf && p != OneAndAHalf
    ensures IntendedChance(p) == Chance(p)
  {
    assert IntendedRollMax(p) == RollMax(p);
    assert IntendedWinners(p) == Winners(p);
  }

  /** With the correction every percentage is met exactly. */
  lemma IntendedRandPercentMatchesNominal(p: Percent)
    ensures IntendedChance(p) == Nominal(p) / 100.0
  {
    if p == TwoAndAHalf {
      IntendedTwoAndAHalf();
    } else if p == OneAndAHalf {
      IntendedOneAndAHalf();
    } else {
      IntendedAgreesElsewhere(p);
      RandPercentMatchesNominal(p);
    }
  }

  // ---------------------------------------------------------------------------
  // tierForScore

  /** The outcome of `tierForScore`: the tier (None for `undefined`) and how many
      draws of `rand(1, 100)` it made. */
  datatype Draw = Draw(tier: Option<Tier>, rollsUsed: nat)

  /** One score band: the k-th draw `roll(k)` is tested against the threshold of
      tier 3, 2, 1, 0 in turn and the first draw at or under its threshold wins. */
  function Band(roll: nat -> int, t3: int, t2: int, t1: int, t0: int): (d: Draw)
    ensures 1 <= d.rollsUsed <= 4
    ensures d.tier.Some? ==> d.tier.value == 4 - d.rollsUsed
    ensures d.tier.None? <==> roll(0) > t3 && roll(1) > t2 && roll(2) > t1 && roll(3) > t0
  {
    if roll(0) <= t3 then Draw(Some(3), 1)
    else if roll(1) <= t2 then Draw(Some(2), 2)
    else if roll(2) <= t1 then Draw(Some(1), 3)
    else if roll(3) <= t0 then Draw(Some(0), 4)
    else Draw(None, 4)
  }

  /** `tierForScore(score)`, where `roll(k)` is the k-th draw of `rand(1, 100)`. */
  function TierForScore(score: int, roll: nat -> int): (d: Draw)
    ensures d.rollsUsed <= 4
    ensures score < 1 ==> d == Draw(None, 0)
    ensures 1 <= score < 2 ==> d.tier == None || d.tier == Some(0)
    ensures score >= 30 && roll(0) <= 10 ==> d.tier == Some(3)
  {
    if score >= 30 then Band(roll, 10, 80, 25, 10)
    else if score >= 20 then Band(roll, 1, 50, 25, 10)
    else if score >= 10 then Band(roll, 1, 3, 25, 10)
    else if score >= 2 then Band(roll, 1, 2, 5, 10)
    else if score >= 1 then (if roll(0) <= 5 then Draw(Some(0), 1) else Draw(None, 1))
    else Draw(None, 0)
  }

  /** The thresholds the band for `score` tests, for tiers 3, 2, 1, 0 in that order. */
  function Thresholds(score: int): seq<int>
    requires score >= 2
  {
    if score >= 30 then [10, 80, 25, 10]
    else if score >= 20 then [1, 50, 25, 10]
    else if score >= 10 then [1, 3, 25, 10]
    else [1, 2, 5, 10]
  }

  /** For scores of 2 and more: draw k decides exactly when every earlier draw
      missed its threshold, and then the tier is 3 - k after k + 1 draws; when all
      four miss there is no tier. */
  lemma TierForScoreFirstHitWins(score: int, roll: nat -> int, k: nat)
    requires score >= 2 && k < 4
    ensures var ts := Thresholds(score);
      TierForScore(score, roll) == Draw(Some(3 - k), k + 1)
      <==> roll(k) <= ts[k] && forall j :: 0 <= j < k ==> roll(j) > ts[j]
    ensures var ts := Thresholds(score);
      TierForScore(score, roll).tier == None
      <==> forall j :: 0 <= j < 4 ==> roll(j) > ts[j]
  {
  }

  /** Only the draws that were used matter: two roll oracles that agree on them give
      the same outcome. */
  lemma TierForScoreUsesOnlyItsDraws(score: int, roll1: nat -> int, roll2: nat -> int)
    requires forall k :: 0 <= k < TierForScore(score, roll1).rollsUsed ==> roll1(k) == roll2(k)
    ensures TierForScore(score, roll2) == TierForScore(score, roll1)
  {
    var d := TierForScore(score, roll1);
    if d.rollsUsed >= 1 { assert roll1(0) == roll2(0); }
    if d.rollsUsed >= 2 { assert roll1(1) == roll2(1); }
    if d.rollsUsed >= 3 { assert roll1(2) == roll2(2); }
    if d.rollsUsed >= 4 { assert roll1(3) == roll2(3); }
  }

  // ---------------------------------------------------------------------------
  // getItemFromLootBoxStartingWith

  /** A PlayFab result-table node: the catalogue item it awards. */
  datatype ResultTableNode = ResultTableNode(resultItem: string, resultItemType: string, weight: int)

  /** A PlayFab random result table. */
  datatype RandomResultTable = RandomResultTable(tableId: string, nodes: seq<ResultTableNode>)

  /** `allPlayfabTables.find(t => t.TableId === id)`: the first table with that id. */
  function FindTable(tables: seq<RandomResultTable>, id: string): (r: Option<RandomResultTable>)
    ensures r.Some? ==> r.value in tables && r.value.tableId == id
    ensures r.None? <==> forall i :: 0 <= i < |tables| ==> tables[i].tableId != id
  {
    if tables == [] then None
    else if tables[0].tableId == id then Some(tables[0])
    else FindTable(tables[1..], id)
  }

  /** `nodes.filter(n => !_.includes(inventory, n.ResultItem))`. */
  function Unowned(nodes: seq<ResultTableNode>, inventory: seq<string>): (r: seq<ResultTableNode>)
    ensures forall n :: n in r <==> n in nodes && n.resultItem !in inventory
  {
    if nodes == [] then []
    else if nodes[0].resultItem in inventory then Unowned(nodes[1..], inventory)
    else [nodes[0]] + Unowned(nodes[1..], inventory)
  }

  /** The table a tier looks up (`lookupBoxesForTiers[tier]`), if there is one. */
  function TableForTier(tier: Tier, lookup: map<Tier, string>, tables: seq<RandomResultTable>): Option<RandomResultTable>
  {
    if tier in lookup then FindTable(tables, lookup[tier]) else None
  }

  /** The nodes `getItemForTableID(tier)` samples from: the unowned nodes of the tier's
      table, or none when the table is missing. */
  function Available(tier: Tier, lookup: map<Tier, string>, tables: seq<RandomResultTable>, inventory: seq<string>): seq<ResultTableNode>
  {
    match TableForTier(tier, lookup, tables)
    case None => []
    case Some(table) => Unowned(table.nodes, inventory)
  }

  /** A node is available exactly when the tier's table exists, holds it, and the
      player does not own its item. */
  lemma AvailableMeansUnowned(tier: Tier, lookup: map<Tier, string>, tables: seq<RandomResultTable>, inventory: seq<string>, n: ResultTableNode)
    ensures n in Available(tier, lookup, tables, inventory) <==>
      TableForTier(tier, lookup, tables).Some? && n in TableForTier(tier, lookup, tables).value.nodes && n.resultItem !in inventory
  {
  }

  /** The tiers whose table has an unowned node. */
  function StockedTiers(lookup: map<Tier, string>, tables: seq<RandomResultTable>, inventory: seq<string>): (s: set<int>)
    ensures forall t :: t in s ==> 0 <= t <= 3
  {
    set t: int | 0 <= t <= 3 && Available(t, lookup, tables, inventory) != []
  }

  lemma StockedMeansAvailable(t: Tier, lookup: map<Tier, string>, tables: seq<RandomResultTable>, inventory: seq<string>)
    ensures t in StockedTiers(lookup, tables, inventory) <==> Available(t, lookup, tables, inventory) != []
  {
  }

  /** The order in which tiers are tried: the initial tier, then `[3, 2, 1, 0]` from the
      initial tier's index to the end, then `[1, 2, 3]`. */
  function WalkOrder(initial: Tier): (order: seq<Tier>)
    ensures |order| == initial + 5 && order[0] == initial
    ensures forall k :: 1 <= k <= initial + 1 ==> order[k] == initial + 1 - k
    ensures forall k :: initial + 2 <= k < initial + 5 ==> order[k] == k - initial - 1
  {
    var walkDownFirst: seq<Tier> := [3, 2, 1, 0];
    [initial] + walkDownFirst[3 - initial..] + [1, 2, 3]
  }

  /** The index of the first tier of `order` that is in `stocked`. */
  function FirstIn(order: seq<Tier>, stocked: set<int>): (r: Option<nat>)
    ensures r.Some? ==> r.value < |order| && order[r.value] in stocked
    ensures r.Some? ==> forall j :: 0 <= j < r.value ==> order[j] !in stocked
    ensures r.None? ==> forall j :: 0 <= j < |order| ==> order[j] !in stocked
  {
    if order == [] then None
    else if order[0] in stocked then Some(0)
    else
      match FirstIn(order[1..], stocked)
      case None => None
      case Some(k) => Some(k + 1)
  }

  /** When tier `order[k]` is the first stocked one, the walk settles on it. */
  lemma WalkSettlesAt(initial: Tier, stocked: set<int>, k: nat)
    requires k < |WalkOrder(initial)| && WalkOrder(initial)[k] in stocked
    requires NoneTriedStocked(initial, stocked, k)
    ensures WalkResult(initial, stocked) == Some(WalkOrder(initial)[k])
  {
    FirstInIs(WalkOrder(initial), stocked, k);
  }

  /** The first index in `stocked` is the one the walk finds. */
  lemma {:induction false} FirstInIs(order: seq<Tier>, stocked: set<int>, k: nat)
    requires k < |order| && order[k] in stocked
    requires forall j :: 0 <= j < k ==> order[j] !in stocked
    ensures FirstIn(order, stocked) == Some(k)
  {
    if k > 0 {
      FirstInIs(order[1..], stocked, k - 1);
    }
  }

  /** The tier the walk of `getItemFromLootBoxStartingWith` draws from, if any. */
  function WalkResult(initial: Tier, stocked: set<int>): Option<Tier>
  {
    var order := WalkOrder(initial);
    match FirstIn(order, stocked)
    case None => None
    case Some(k) => Some(order[k])
  }

  /** `walkDownFirst.indexOf(tier)`. */
  function IndexOf(xs: seq<Tier>, x: Tier): (i: nat)
    requires x in xs
    ensures i < |xs| && xs[i] == x && x !in xs[..i]
  {
    if xs[0] == x then 0
    else
      var i := IndexOf(xs[1..], x);
      assert xs[..i + 1] == [xs[0]] + xs[1..][..i];
      i + 1
  }

  /** `getItemForTableID(tier)`: `_.sample` of the available nodes, modelled as a
      nondeterministic choice among them, or None when there are none. */
  method GetItemForTableID(tier: Tier, lookup: map<Tier, string>, tables: seq<RandomResultTable>, inventory: seq<string>)
    returns (item: Option<ResultTableNode>)
    ensures item.None? <==> Available(tier, lookup, tables, inventory) == []
    ensures item.Some? ==> item.value in Available(tier, lookup, tables, inventory)
  {
    var id := if tier in lookup then Some(lookup[tier]) else None;
    var table := if id.Some? then FindTable(tables, id.value) else None;
    if table.None? {
      return None;
    }
    var availableNodes := Unowned(table.value.nodes, inventory);
    if |availableNodes| == 0 {
      return None;
    }
    var k :| 0 <= k < |availableNodes|;
    return Some(availableNodes[k]);
  }

  /** `getItemFromLootBoxStartingWith`: there is no item for tier -1; otherwise the
      item is an available node of the tier the walk settles on, and there is none
      exactly when the walk finds no stocked tier. */
  method GetItemFromLootBoxStartingWith(initialTier: LootboxTier, lookup: map<Tier, string>,
                                        tables: seq<RandomResultTable>, inventory: seq<string>)
    returns (item: Option<ResultTableNode>)
    ensures initialTier == -1 ==> item == None
    ensures initialTier != -1 ==>
      var chosen := WalkResult(initialTier, StockedTiers(lookup, tables, inventory));
      (item.None? <==> chosen.None?) &&
      (item.Some? ==> item.value in Available(chosen.value, lookup, tables, inventory))
  {
    if initialTier == -1 {
      return None;
    }

    ghost var stocked := StockedTiers(lookup, tables, inventory);
    item := GetItemForTableID(initialTier, lookup, tables, inventory);
    Try(initialTier, lookup, tables, inventory, 0, initialTier);
    if item.Some? {
      return;
    }

    var walkDownFirst: seq<Tier> := [3, 2, 1, 0];
    var currentIndex := IndexOf(walkDownFirst, initialTier);
    assert currentIndex == 3 - initialTier;
    var i := currentIndex;
    while i < |walkDownFirst|
      invariant currentIndex <= i <= |walkDownFirst|
      invariant NoneTriedStocked(initialTier, stocked, 1 + i - currentIndex)
    {
      var tier := walkDownFirst[i];
      WalkOrderDown(initialTier, i);
      item := GetItemForTableID(tier, lookup, tables, inventory);
      Try(initialTier, lookup, tables, inventory, 1 + i - currentIndex, tier);
      if item.Some? {
        return;
      }
      i := i + 1;
    }

    var walkUp: seq<Tier> := [1, 2, 3];
    i := 0;
    while i < |walkUp|
      invariant 0 <= i <= |walkUp|
      invariant NoneTriedStocked(initialTier, stocked, initialTier + 2 + i)
    {
      var tier := walkUp[i];
      WalkOrderUp(initialTier, i);
      item := GetItemForTableID(tier, lookup, tables, inventory);
      Try(initialTier, lookup, tables, inventory, initialTier + 2 + i, tier);
      if item.Some? {
        return;
      }
      i := i + 1;
    }
    NoneStockedMeansNoItem(initialTier, stocked);
    return None;
  }

  /** None of the first `n` tiers of the walk is stocked. */
  predicate NoneTriedStocked(initial: Tier, stocked: set<int>, n: nat)
  {
    n <= |WalkOrder(initial)| && forall j :: 0 <= j < n ==> WalkOrder(initial)[j] !in stocked
  }

  /** Trying the `n`-th tier of the walk after `n` misses: the walk settles on it when
      it has an available node, and otherwise one more tier has been missed. */
  lemma Try(initial: Tier, lookup: map<Tier, string>, tables: seq<RandomResultTable>, inventory: seq<string>,
            n: nat, tier: Tier)
    requires n < |WalkOrder(initial)| && WalkOrder(initial)[n] == tier
    requires NoneTriedStocked(initial, StockedTiers(lookup, tables, inventory), n)
    ensures Available(tier, lookup, tables, inventory) != [] ==>
      WalkResult(initial, StockedTiers(lookup, tables, inventory)) == Some(tier)
    ensures Available(tier, lookup, tables, inventory) == [] ==>
      NoneTriedStocked(initial, StockedTiers(lookup, tables, inventory), n + 1)
  {
    StockedMeansAvailable(tier, lookup, tables, inventory);
    if Available(tier, lookup, tables, inventory) != [] {
      WalkSettlesAt(initial, StockedTiers(lookup, tables, inventory), n);
    }
  }

  /** The `i`-th step of the walk down `[3, 2, 1, 0]` tries tier `3 - i`. */
  lemma WalkOrderDown(initial: Tier, i: int)
    requires 3 - initial <= i < 4
    ensures WalkOrder(initial)[1 + i - (3 - initial)] == 3 - i
  {
  }

  /** The `i`-th step of the walk up `[1, 2, 3]` tries tier `i + 1`. */
  lemma WalkOrderUp(initial: Tier, i: int)
    requires 0 <= i < 3
    ensures WalkOrder(initial)[initial + 2 + i] == i + 1
  {
  }

  lemma NoneStockedMeansNoItem(initial: Tier, stocked: set<int>)
    requires NoneTriedStocked(initial, stocked, initial + 5)
    ensures WalkResult(initial, stocked) == None
  {
  }

  /** Every tier 0..3 is tried, whatever the initial tier. */
  lemma WalkOrderCoversAllTiers(initial: Tier, t: Tier)
    ensures t in WalkOrder(initial)
  {
    var order := WalkOrder(initial);
    assert order[|order| - 4] == 0;
    assert order[|order| - 3] == 1 && order[|order| - 2] == 2 && order[|order| - 1] == 3;
  }

  /** The walk comes up empty exactly when no tier 0..3 is stocked, so an item is
      granted whenever any table still has an unowned node. */
  lemma NoItemIffAllTiersExhausted(initial: Tier, stocked: set<int>)
    ensures WalkResult(initial, stocked).None? <==> forall t: Tier :: t !in stocked
  {
    var order := WalkOrder(initial);
    if FirstIn(order, stocked).None? {
      forall t: Tier ensures t !in stocked {
        WalkOrderCoversAllTiers(initial, t);
        var k :| 0 <= k < |order| && order[k] == t;
      }
    }
  }

  /** The item granted is one the player does not own yet. */
  lemma GrantedItemIsUnowned(chosen: Tier, lookup: map<Tier, string>, tables: seq<RandomResultTable>,
                             inventory: seq<string>, n: ResultTableNode)
    requires n in Available(chosen, lookup, tables, inventory)
    ensures n.resultItem !in inventory
  {
    AvailableMeansUnowned(chosen, lookup, tables, inventory, n);
  }

  /** The tier the walk settles on, in closed form: the rarest stocked tier at or below
      the initial one (the down walk) if there is one, and otherwise the commonest
      stocked tier above it (the up walk). So a commoner tier is granted before a
      rarer one. */
  lemma {:induction false} WalkPicksNearestBelowThenNearestAbove(initial: Tier, stocked: set<int>)
    ensures var r := WalkResult(initial, stocked);
      (exists t: Tier :: t <= initial && t in stocked) ==>
        r.Some? && r.value <= initial && r.value in stocked
        && forall t: Tier :: r.value < t <= initial ==> t !in stocked
    ensures var r := WalkResult(initial, stocked);
      (forall t: Tier :: t <= initial ==> t !in stocked) ==>
        (r.Some? ==>
           initial < r.value && r.value in stocked
           && forall t: Tier :: initial < t < r.value ==> t !in stocked)
  {
    var order := WalkOrder(initial);
    var f := FirstIn(order, stocked);
    if f.Some? {
      var k := f.value;
      var w := order[k];
      if k <= initial + 1 {
        assert k == 0 || order[k] == initial - (k - 1);
        forall t: Tier | w < t <= initial ensures t !in stocked {
          assert order[1 + (initial - t)] == t;
        }
      } else {
        assert order[k] == k - initial - 1;
        forall t: Tier | t <= initial ensures t !in stocked {
          assert order[1 + (initial - t)] == t;
        }
        forall t: Tier | initial < t < w ensures t !in stocked {
          assert order[initial + 1 + t] == t;
        }
      }
    } else {
      forall t: Tier | t <= initial ensures t !in stocked {
        assert order[1 + (initial - t)] == t;
      }
    }
  }

  /** When the initial tier's table has an unowned node, the item comes from it. */
  lemma RequestedTierServedFirst(initial: Tier, stocked: set<int>)
    requires initial in stocked
    ensures WalkResult(initial, stocked) == Some(initial)
  {
    FirstInIs(WalkOrder(initial), stocked, 0);
  }
}
