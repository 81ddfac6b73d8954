/** The crackback estimate: the greedy block is an optimal block. */
module Crackback {
  import opened Collections
  import opened Sorting
  import opened Battlefield

  const LETHAL_PENALTY := 80.0

  // ----- legal blocks and the damage they let through -----

  predicate CanFly(blocker: Permanent) {
    blocker.Has(Flying) || blocker.Has(Reach)
  }

  /** Sections 702.9 and 702.17 of the comprehensive rules: only flying or reach blocks a flyer. */
  predicate CanBlock(blocker: Permanent, attacker: Permanent) {
    attacker.Has(Flying) ==> CanFly(blocker)
  }

  /** A block declaration by positions: each blocker in the map blocks one attacker, several may share one. */
  type Blocks = map<nat, nat>

  ghost predicate Legal(blocks: Blocks, attackers: seq<Permanent>, blockers: seq<Permanent>) {
    forall b | b in blocks ::
      b < |blockers| && blocks[b] < |attackers| && CanBlock(blockers[b], attackers[blocks[b]])
  }

  /** No attacker has more than one blocker. */
  ghost predicate OneEach(blocks: Blocks) {
    forall a, b | a in blocks && b in blocks && a != b :: blocks[a] != blocks[b]
  }

  /** The damage of each attacker that is not blocked. */
  ghost function Through(attackers: seq<Permanent>, blocked: set<nat>): (through: seq<int>)
    ensures |through| == |attackers|
  {
    seq(|attackers|, i requires 0 <= i < |attackers| => if i in blocked then 0 else attackers[i].Damage())
  }

  ghost function Unblocked(attackers: seq<Permanent>, blocks: Blocks): int {
    Sum(Through(attackers, blocks.Values))
  }

  /** The exact minimum over every legal block, attained by one that spends one blocker on each attacker it stops. */
  ghost predicate IsBestBlock(attackers: seq<Permanent>, blockers: seq<Permanent>, total: int) {
    && (exists blocks: Blocks :: Legal(blocks, attackers, blockers) && OneEach(blocks) && Unblocked(attackers, blocks) == total)
    && (forall blocks: Blocks | Legal(blocks, attackers, blockers) :: total <= Unblocked(attackers, blocks))
  }

  lemma BestBlockIsUnique(attackers: seq<Permanent>, blockers: seq<Permanent>, one: int, other: int)
    requires IsBestBlock(attackers, blockers, one) && IsBestBlock(attackers, blockers, other)
    ensures one == other
  {
  }

  // ----- a block does not depend on the order of the attackers -----

  /** Renumbering the attackers renumbers a block with them. */
  lemma RenumberedDamage(order: seq<nat>, attackers: seq<Permanent>, creatures: seq<Permanent>, blocked: set<nat>, blocked': set<nat>)
    requires Embeds(order, attackers, creatures) && |attackers| == |creatures|
    requires forall i | 0 <= i < |attackers| :: i in blocked' <==> order[i] in blocked
    ensures Sum(Through(attackers, blocked')) == Sum(Through(creatures, blocked))
  {
    assert Embeds(order, Through(attackers, blocked'), Through(creatures, blocked));
    SumRearranged(order, Through(attackers, blocked'), Through(creatures, blocked));
  }

  lemma BlocksFromSorted(order: seq<nat>, attackers: seq<Permanent>, creatures: seq<Permanent>, blockers: seq<Permanent>, blocks: Blocks)
    returns (original: Blocks)
    requires Embeds(order, attackers, creatures) && |attackers| == |creatures|
    requires Legal(blocks, attackers, blockers)
    ensures Legal(original, creatures, blockers)
    ensures OneEach(blocks) ==> OneEach(original)
    ensures Unblocked(creatures, original) == Unblocked(attackers, blocks)
  {
    original := map b | b in blocks :: order[blocks[b]];
    forall i: nat | i < |attackers| ensures i in blocks.Values <==> order[i] in original.Values {
      if i in blocks.Values {
        var b :| b in blocks && blocks[b] == i;
        assert original[b] == order[i];
      }
      if order[i] in original.Values {
        var b :| b in original && original[b] == order[i];
        assert order[blocks[b]] == order[i];
      }
    }
    RenumberedDamage(order, attackers, creatures, original.Values, blocks.Values);
  }

  lemma BlocksToSorted(order: seq<nat>, attackers: seq<Permanent>, creatures: seq<Permanent>, blockers: seq<Permanent>, blocks: Blocks)
    returns (sorted: Blocks)
    requires Embeds(order, attackers, creatures) && |attackers| == |creatures|
    requires Legal(blocks, creatures, blockers)
    ensures Legal(sorted, attackers, blockers)
    ensures Unblocked(attackers, sorted) == Unblocked(creatures, blocks)
  {
    EmbeddingCovers(order, attackers, creatures);
    sorted := map b | b in blocks :: PositionOf(order, blocks[b]);
    forall i: nat | i < |attackers| ensures i in sorted.Values <==> order[i] in blocks.Values {
      if order[i] in blocks.Values {
        var b :| b in blocks && blocks[b] == order[i];
        assert order[sorted[b]] == order[i];
        assert sorted[b] == i;
      }
      if i in sorted.Values {
        var b :| b in sorted && sorted[b] == i;
        assert order[i] == blocks[b];
      }
    }
    RenumberedDamage(order, attackers, creatures, blocks.Values, sorted.Values);
  }

  function PositionOf(order: seq<nat>, x: nat): (i: nat)
    ensures x in order ==> i < |order| && order[i] == x
  {
    if order == [] then 0 else if order[0] == x then 0 else 1 + PositionOf(order[1..], x)
  }

  // ----- how many attackers of a prefix no block can stop -----

  ghost function Flyers(attackers: seq<Permanent>, n: nat): set<nat>
    requires n <= |attackers|
  {
    set i: nat | i < n && attackers[i].Has(Flying)
  }

  ghost function FlyingBlockers(blockers: seq<Permanent>): set<nat> {
    set b: nat | b < |blockers| && CanFly(blockers[b])
  }

  function Max(a: int, b: int): int {
    if a > b then a else b
  }

  /** Flyers beyond the flying blockers, and attackers beyond all blockers, get through whatever the block. */
  ghost function Unstoppable(attackers: seq<Permanent>, blockers: seq<Permanent>, n: nat): nat
    requires n <= |attackers|
  {
    Max(0, Max(|Flyers(attackers, n)| - |FlyingBlockers(blockers)|, n - |blockers|))
  }

  /** The damage of a sorted attack when exactly the unstoppable number gets through every prefix. */
  ghost function LeastDamage(attackers: seq<Permanent>, blockers: seq<Permanent>, n: nat): int
    requires n <= |attackers|
  {
    if n == 0 then 0
    else
      LeastDamage(attackers, blockers, n - 1)
      + (if Unstoppable(attackers, blockers, n) > Unstoppable(attackers, blockers, n - 1) then attackers[n - 1].Damage() else 0)
  }

  lemma FlyersStep(attackers: seq<Permanent>, n: nat)
    requires n < |attackers|
    ensures |Flyers(attackers, n + 1)| == |Flyers(attackers, n)| + if attackers[n].Has(Flying) then 1 else 0
  {
    assert Flyers(attackers, n + 1) == Flyers(attackers, n) + if attackers[n].Has(Flying) then {n} else {};
  }

  predicate Below(i: nat, n: nat) {
    i < n
  }

  ghost function Upto(n: nat): set<nat> {
    set i: nat | i < n && Below(i, n)
  }

  lemma {:induction false} UptoSize(n: nat)
    ensures |Upto(n)| == n
  {
    if n > 0 {
      UptoSize(n - 1);
      assert Upto(n) == Upto(n - 1) + {n - 1};
    }
  }

  lemma {:induction false} ImageSize(keys: set<nat>, blocks: Blocks)
    requires keys <= blocks.Keys
    ensures |set b | b in keys :: blocks[b]| <= |keys|
  {
    if keys != {} {
      var b :| b in keys;
      ImageSize(keys - {b}, blocks);
      assert (set k | k in keys :: blocks[k]) == (set k | k in keys - {b} :: blocks[k]) + {blocks[b]};
    }
  }

  /** The unblocked attackers of a prefix. */
  ghost function Free(n: nat, blocked: set<nat>): set<nat> {
    Upto(n) - blocked
  }

  lemma SplitSize(all: set<nat>, part: set<nat>)
    ensures |all| == |all * part| + |all - part|
  {
    assert all == all * part + (all - part);
  }

  /** Each blocker stops at most one attacker. */
  lemma BlockerLimit(attackers: seq<Permanent>, blockers: seq<Permanent>, blocks: Blocks, n: nat)
    requires n <= |attackers| && Legal(blocks, attackers, blockers)
    ensures |Free(n, blocks.Values)| >= n - |blockers|
  {
    UptoSize(n);
    UptoSize(|blockers|);
    SplitSize(Upto(n), blocks.Values);
    assert blocks.Values == set b | b in blocks.Keys :: blocks[b];
    ImageSize(blocks.Keys, blocks);
    SubsetSize(Upto(n) * blocks.Values, blocks.Values);
    SubsetSize(blocks.Keys, Upto(|blockers|));
  }

  /** Each flying blocker stops at most one flyer. */
  lemma FlyerLimit(attackers: seq<Permanent>, blockers: seq<Permanent>, blocks: Blocks, n: nat)
    requires n <= |attackers| && Legal(blocks, attackers, blockers)
    ensures |Free(n, blocks.Values)| >= |Flyers(attackers, n)| - |FlyingBlockers(blockers)|
  {
    var blocked, flyers, wings := blocks.Values, Flyers(attackers, n), blocks.Keys * FlyingBlockers(blockers);
    var stopped := set b | b in wings :: blocks[b];
    SplitSize(flyers, blocked);
    ImageSize(wings, blocks);
    forall i | i in flyers * blocked ensures i in stopped {
      var b :| b in blocks && blocks[b] == i;
      assert b in wings;
    }
    SubsetSize(flyers * blocked, stopped);
    SubsetSize(wings, FlyingBlockers(blockers));
    SubsetSize(flyers - blocked, Free(n, blocked));
  }

  /** Every legal block lets at least the unstoppable number through. */
  lemma BlockLimit(attackers: seq<Permanent>, blockers: seq<Permanent>, blocks: Blocks, n: nat)
    requires n <= |attackers| && Legal(blocks, attackers, blockers)
    ensures |Free(n, blocks.Values)| >= Unstoppable(attackers, blockers, n)
  {
    BlockerLimit(attackers, blockers, blocks, n);
    FlyerLimit(attackers, blockers, blocks, n);
  }

  /** Attackers in order of damage, greatest first. */
  ghost predicate Descending(attackers: seq<Permanent>) {
    forall i, j | 0 <= i < j < |attackers| :: attackers[i].Damage() >= attackers[j].Damage()
  }

  ghost function DamageThrough(attackers: seq<Permanent>, blocked: set<nat>, n: nat): int
    requires n <= |attackers|
  {
    Sum(Through(attackers, blocked)[..n])
  }

  lemma ThroughStep(attackers: seq<Permanent>, blocked: set<nat>, n: nat)
    requires n < |attackers|
    ensures DamageThrough(attackers, blocked, n + 1) ==
            DamageThrough(attackers, blocked, n) + if n in blocked then 0 else attackers[n].Damage()
  {
    assert Through(attackers, blocked)[..n + 1][..n] == Through(attackers, blocked)[..n];
  }

  lemma FreeStep(n: nat, blocked: set<nat>)
    ensures |Free(n + 1, blocked)| == |Free(n, blocked)| + if n in blocked then 0 else 1
  {
    assert Free(n + 1, blocked) == Free(n, blocked) + if n in blocked then {} else {n};
  }

  lemma UnstoppableStep(attackers: seq<Permanent>, blockers: seq<Permanent>, n: nat)
    requires n < |attackers|
    ensures Unstoppable(attackers, blockers, n) <= Unstoppable(attackers, blockers, n + 1)
         <= Unstoppable(attackers, blockers, n) + 1
  {
    FlyersStep(attackers, n);
  }

  /** How many more attackers a block lets through than it must. */
  ghost function Excess(attackers: seq<Permanent>, blockers: seq<Permanent>, blocks: Blocks, n: nat): int
    requires n <= |attackers|
  {
    |Free(n, blocks.Values)| - Unstoppable(attackers, blockers, n)
  }

  lemma ExcessStep(attackers: seq<Permanent>, blockers: seq<Permanent>, blocks: Blocks, n: nat)
    requires n < |attackers| && Legal(blocks, attackers, blockers)
    ensures Excess(attackers, blockers, blocks, n) >= 0 && Excess(attackers, blockers, blocks, n + 1) >= 0
    ensures Excess(attackers, blockers, blocks, n + 1) == Excess(attackers, blockers, blocks, n)
              + (if n in blocks.Values then 0 else 1)
              - (if Unstoppable(attackers, blockers, n + 1) > Unstoppable(attackers, blockers, n) then 1 else 0)
  {
    BlockLimit(attackers, blockers, blocks, n);
    BlockLimit(attackers, blockers, blocks, n + 1);
    FreeStep(n, blocks.Values);
    UnstoppableStep(attackers, blockers, n);
  }

  lemma NothingYet(attackers: seq<Permanent>, blockers: seq<Permanent>, blocks: Blocks)
    ensures Excess(attackers, blockers, blocks, 0) == 0
    ensures DamageThrough(attackers, blocks.Values, 0) == 0
  {
    assert Flyers(attackers, 0) == {};
    assert Free(0, blocks.Values) == {};
  }

  /**
   * On attackers in descending order, letting the least number through every prefix lets the least damage through:
   * each attacker a block lets through beyond that number costs at least the next damage counted.
   */
  lemma {:induction false} LeastIsLeast(attackers: seq<Permanent>, blockers: seq<Permanent>, blocks: Blocks, n: nat, damage: nat)
    requires n <= |attackers| && Legal(blocks, attackers, blockers) && Descending(attackers)
    requires n > 0 ==> damage <= attackers[n - 1].Damage()
    ensures LeastDamage(attackers, blockers, n)
         <= DamageThrough(attackers, blocks.Values, n) - Excess(attackers, blockers, blocks, n) * damage
  {
    if n == 0 {
      NothingYet(attackers, blockers, blocks);
    } else {
      var last := attackers[n - 1].Damage();
      LeastIsLeast(attackers, blockers, blocks, n - 1, last);
      ThroughStep(attackers, blocks.Values, n - 1);
      ExcessStep(attackers, blockers, blocks, n - 1);
      hide Excess, DamageThrough, Unstoppable;
      var free, through := n - 1 !in blocks.Values,
                           Unstoppable(attackers, blockers, n) > Unstoppable(attackers, blockers, n - 1);
      ScaledStep(Excess(attackers, blockers, blocks, n - 1), Excess(attackers, blockers, blocks, n), last, damage, free, through);
    }
  }

  lemma ScaledStep(excess: int, excess': int, last: nat, damage: nat, free: bool, through: bool)
    requires excess' == excess + (if free then 1 else 0) - (if through then 1 else 0)
    requires excess' >= 0 && damage <= last
    ensures excess * last + (if free then last else 0) - (if through then last else 0) >= excess' * damage
  {
    assert excess' * last == excess * last + (if free then last else 0) - (if through then last else 0);
    assert excess' * last >= excess' * damage;
  }

  // ----- the greedy choice -----

  /** The class of blockers to spend first: a flyer needs wings, anything else should leave them free. */
  predicate Preferred(blocker: Permanent, attacker: Permanent) {
    attacker.Has(Flying) == CanFly(blocker)
  }

  ghost predicate FirstWhere(available: seq<Permanent>, idx: int, suits: Permanent -> bool) {
    && 0 <= idx < |available| && suits(available[idx])
    && forall j | 0 <= j < idx :: !suits(available[j])
  }

  /** The first preferred blocker, else the first legal one, else none. */
  ghost predicate IsPick(attacker: Permanent, available: seq<Permanent>, idx: int) {
    if exists j | 0 <= j < |available| :: Preferred(available[j], attacker) then
      FirstWhere(available, idx, b => Preferred(b, attacker))
    else if exists j | 0 <= j < |available| :: CanBlock(available[j], attacker) then
      FirstWhere(available, idx, b => CanBlock(b, attacker))
    else idx == -1
  }

  method PickBlocker(attacker: Permanent, available: seq<Permanent>) returns (idx: int)
    ensures IsPick(attacker, available, idx)
  {
    var needsEvasion := attacker.Has(Flying);
    var fallback := -1;
    for i := 0 to |available|
      invariant forall j | 0 <= j < i :: !Preferred(available[j], attacker)
      invariant fallback == -1 ==> forall j | 0 <= j < i :: !CanBlock(available[j], attacker)
      invariant fallback != -1 ==> 0 <= fallback < i && FirstWhere(available, fallback, b => CanBlock(b, attacker))
    {
      var canFly := CanFly(available[i]);
      if needsEvasion && !canFly {
        continue;
      }
      if !needsEvasion && canFly {
        if fallback < 0 {
          fallback := i;
        }
        continue;
      }
      assert Preferred(available[i], attacker);
      return i;
    }
    return fallback;
  }

  // ----- counting flying blockers -----

  function Wings(blockers: seq<Permanent>): (wings: seq<int>)
    ensures |wings| == |blockers|
  {
    seq(|blockers|, i requires 0 <= i < |blockers| => if CanFly(blockers[i]) then 1 else 0)
  }

  /** The number of flying blockers in a list. */
  function CountFlying(blockers: seq<Permanent>): int {
    Sum(Wings(blockers))
  }

  lemma {:induction false} CountFlyingIsSize(blockers: seq<Permanent>)
    ensures CountFlying(blockers) == |FlyingBlockers(blockers)|
  {
    if blockers == [] {
      assert FlyingBlockers(blockers) == {};
    } else {
      var front, last := blockers[..|blockers| - 1], |blockers| - 1;
      CountFlyingIsSize(front);
      assert Wings(blockers)[..last] == Wings(front);
      assert FlyingBlockers(blockers) == FlyingBlockers(front) + if CanFly(blockers[last]) then {last} else {};
    }
  }

  lemma CountFlyingBounds(blockers: seq<Permanent>)
    ensures 0 <= CountFlying(blockers) <= |blockers|
    ensures CountFlying(blockers) > 0 <==> exists j | 0 <= j < |blockers| :: CanFly(blockers[j])
    ensures CountFlying(blockers) < |blockers| <==> exists j | 0 <= j < |blockers| :: !CanFly(blockers[j])
    ensures CountFlying(blockers) == |FlyingBlockers(blockers)|
  {
    CountFlyingIsSize(blockers);
    UptoSize(|blockers|);
    var flying, all := FlyingBlockers(blockers), Upto(|blockers|);
    SubsetSize(flying, all);
    assert forall j: nat | j < |blockers| :: j in all && (j in flying <==> CanFly(blockers[j]));
    if flying != all {
      var j :| j in all && j !in flying;
    }
    if |flying| > 0 {
      var j :| j in flying;
    }
  }

  lemma CountFlyingWithout(blockers: seq<Permanent>, k: nat)
    requires k < |blockers|
    ensures CountFlying(Without(blockers, k)) == CountFlying(blockers) - if CanFly(blockers[k]) then 1 else 0
  {
    assert Wings(Without(blockers, k)) == Without(Wings(blockers), k);
    SumWithout(Wings(blockers), k);
  }

  /** What the greedy choice maintains: wings are only spent on ground attackers when nothing else is left. */
  ghost predicate Thrifty(flyers: int, ground: int, wingsUsed: int, legsUsed: int, wings: int, legs: int) {
    var through := flyers + ground - wingsUsed - legsUsed;
    && 0 <= wingsUsed <= wings && 0 <= legsUsed <= legs
    && through >= 0 && flyers - through <= wingsUsed && legsUsed <= ground
    && (wingsUsed < wings ==> through == 0)
    && (legsUsed < legs ==> legsUsed == ground)
  }

  /** The greedy state after n attackers, against the blockers still available. */
  ghost predicate Greedy(attackers: seq<Permanent>, blockers: seq<Permanent>, available: seq<Permanent>, n: nat)
    requires n <= |attackers|
  {
    var flyers := |Flyers(attackers, n)|;
    Thrifty(flyers, n - flyers,
            CountFlying(blockers) - CountFlying(available),
            (|blockers| - CountFlying(blockers)) - (|available| - CountFlying(available)),
            CountFlying(blockers), |blockers| - CountFlying(blockers))
  }

  lemma GreedyStart(attackers: seq<Permanent>, blockers: seq<Permanent>)
    ensures Greedy(attackers, blockers, blockers, 0)
  {
    assert Flyers(attackers, 0) == {};
    CountFlyingBounds(blockers);
  }

  /** Greedy lets exactly the unstoppable number through. */
  lemma GreedyIsTight(attackers: seq<Permanent>, blockers: seq<Permanent>, available: seq<Permanent>, n: nat)
    requires n <= |attackers| && Greedy(attackers, blockers, available, n)
    ensures n - (|blockers| - |available|) == Unstoppable(attackers, blockers, n)
  {
    CountFlyingBounds(blockers);
  }

  /** The choice keeps the greedy state, and lets the attacker through only when the unstoppable number grows. */
  lemma GreedyStep(attackers: seq<Permanent>, blockers: seq<Permanent>, available: seq<Permanent>, n: nat, idx: int)
    requires n < |attackers| && Greedy(attackers, blockers, available, n)
    requires IsPick(attackers[n], available, idx)
    ensures -1 <= idx < |available|
    ensures idx >= 0 ==> CanBlock(available[idx], attackers[n])
    ensures Greedy(attackers, blockers, if idx >= 0 then Without(available, idx) else available, n + 1)
    ensures Unstoppable(attackers, blockers, n + 1) > Unstoppable(attackers, blockers, n) <==> idx == -1
  {
    PickIsLegal(attackers[n], available, idx);
    GreedyIsTight(attackers, blockers, available, n);
    GreedyKeeps(attackers, blockers, available, n, idx);
    hide Greedy, Unstoppable, IsPick;
    var next := if idx >= 0 then Without(available, idx) else available;
    GreedyIsTight(attackers, blockers, next, n + 1);
  }

  lemma PickIsLegal(attacker: Permanent, available: seq<Permanent>, idx: int)
    requires IsPick(attacker, available, idx)
    ensures -1 <= idx < |available|
    ensures idx >= 0 ==> CanBlock(available[idx], attacker)
  {
  }

  lemma GreedyKeeps(attackers: seq<Permanent>, blockers: seq<Permanent>, available: seq<Permanent>, n: nat, idx: int)
    requires n < |attackers| && Greedy(attackers, blockers, available, n)
    requires IsPick(attackers[n], available, idx)
    ensures Greedy(attackers, blockers, if 0 <= idx < |available| then Without(available, idx) else available, n + 1)
  {
    FlyersStep(attackers, n);
    CountFlyingBounds(available);
    hide CountFlying;
    if 0 <= idx < |available| {
      CountFlyingWithout(available, idx);
    }
  }

  // ----- the block the greedy choice makes -----

  /** The available blockers are those the block has not used yet. */
  ghost predicate Pending(blocks: Blocks, positions: seq<nat>, available: seq<Permanent>, blockers: seq<Permanent>) {
    && |positions| == |available| && Distinct(positions)
    && forall j | 0 <= j < |positions| ::
         positions[j] < |blockers| && positions[j] !in blocks && available[j] == blockers[positions[j]]
  }

  ghost predicate Witness(blocks: Blocks, attackers: seq<Permanent>, blockers: seq<Permanent>, n: nat) {
    Legal(blocks, attackers, blockers) && OneEach(blocks) && forall b | b in blocks :: blocks[b] < n
  }

  lemma SpendBlocker(
    blocks: Blocks, positions: seq<nat>, available: seq<Permanent>, attackers: seq<Permanent>, blockers: seq<Permanent>,
    n: nat, idx: nat)
    requires n < |attackers| && idx < |available|
    requires Pending(blocks, positions, available, blockers) && Witness(blocks, attackers, blockers, n)
    requires CanBlock(available[idx], attackers[n])
    ensures var next := blocks[positions[idx] := n];
            && Pending(next, Without(positions, idx), Without(available, idx), blockers)
            && Witness(next, attackers, blockers, n + 1)
            && next.Values == blocks.Values + {n}
  {
    var next := blocks[positions[idx] := n];
    assert next.Values == blocks.Values + {n} by {
      forall i | i in blocks.Values ensures i in next.Values {
        var b :| b in blocks && blocks[b] == i;
        assert next[b] == i;
      }
      assert next[positions[idx]] == n;
    }
  }

  lemma ThroughSame(attackers: seq<Permanent>, n: nat, blocked: set<nat>)
    requires n < |attackers|
    ensures DamageThrough(attackers, blocked + {n}, n) == DamageThrough(attackers, blocked, n)
  {
    assert Through(attackers, blocked + {n})[..n] == Through(attackers, blocked)[..n];
  }

  predicate Stronger(a: Permanent, b: Permanent) {
    a.Damage() > b.Damage()
  }

  /**
   * The damage that gets through if the opponent attacks with everything and the agent blocks as well as it can.
   * Sort promises nothing about ties, so the answer does not depend on them.
   */
  method UnblockedCrackback(creatures: seq<Permanent>, blockers: seq<Permanent>) returns (total: int)
    ensures IsBestBlock(creatures, blockers, total)
    ensures total >= 0
  {
    var attackers := Sort(creatures, Stronger);
    ghost var blocks: Blocks;
    total, blocks := GreedyDamage(attackers, blockers);
    assert |attackers| == |multiset(attackers)| == |multiset(creatures)| == |creatures|;
    assert Descending(attackers) by {
      assert forall i, j | 0 <= i < j < |attackers| :: !Stronger(attackers[j], attackers[i]);
    }
    SortedAnswerIsBest(creatures, attackers, blockers, blocks, total);
  }

  /** The loop of unblockedCrackback; blocks is the block it makes. */
  method GreedyDamage(attackers: seq<Permanent>, blockers: seq<Permanent>) returns (total: int, ghost blocks: Blocks)
    ensures Legal(blocks, attackers, blockers) && OneEach(blocks)
    ensures total == Unblocked(attackers, blocks) == LeastDamage(attackers, blockers, |attackers|)
    ensures total >= 0
  {
    hide Greedy, Pending, Witness, Unstoppable;
    var available := blockers;
    total := 0;
    blocks := map[];
    ghost var positions: seq<nat> := seq(|blockers|, (i: nat) => i);
    GreedyStart(attackers, blockers);
    assert Pending(blocks, positions, available, blockers) && Witness(blocks, attackers, blockers, 0) by {
      NothingSpent(positions, attackers, blockers);
    }
    for n := 0 to |attackers|
      invariant Greedy(attackers, blockers, available, n)
      invariant Pending(blocks, positions, available, blockers) && Witness(blocks, attackers, blockers, n)
      invariant |positions| == |available| && n !in blocks.Values
      invariant 0 <= total == DamageThrough(attackers, blocks.Values, n) == LeastDamage(attackers, blockers, n)
    {
      var idx := PickBlocker(attackers[n], available);
      GreedyStep(attackers, blockers, available, n, idx);
      if idx >= 0 {
        SpendBlocker(blocks, positions, available, attackers, blockers, n, idx);
        ThroughSame(attackers, n, blocks.Values);
        blocks, positions := blocks[positions[idx] := n], Without(positions, idx);
        available := available[..idx] + available[idx + 1..];
        ThroughStep(attackers, blocks.Values, n);
      } else {
        ThroughStep(attackers, blocks.Values, n);
        total := total + attackers[n].Damage();
        WitnessGrows(blocks, attackers, blockers, n);
      }
      WitnessBound(blocks, attackers, blockers, n + 1);
    }
    assert Through(attackers, blocks.Values)[..|attackers|] == Through(attackers, blocks.Values);
    WitnessBound(blocks, attackers, blockers, |attackers|);
  }

  lemma NothingSpent(positions: seq<nat>, attackers: seq<Permanent>, blockers: seq<Permanent>)
    requires |positions| == |blockers| && forall i | 0 <= i < |positions| :: positions[i] == i
    ensures Pending(map[], positions, blockers, blockers) && Witness(map[], attackers, blockers, 0)
  {
  }

  lemma WitnessGrows(blocks: Blocks, attackers: seq<Permanent>, blockers: seq<Permanent>, n: nat)
    requires Witness(blocks, attackers, blockers, n)
    ensures Witness(blocks, attackers, blockers, n + 1)
  {
  }

  lemma WitnessBound(blocks: Blocks, attackers: seq<Permanent>, blockers: seq<Permanent>, n: nat)
    requires Witness(blocks, attackers, blockers, n)
    ensures Legal(blocks, attackers, blockers) && OneEach(blocks) && n !in blocks.Values
  {
  }

  lemma SortedAnswerIsBest(
    creatures: seq<Permanent>, attackers: seq<Permanent>, blockers: seq<Permanent>, blocks: Blocks, total: int)
    requires multiset(attackers) == multiset(creatures) && |attackers| == |creatures| && Descending(attackers)
    requires Legal(blocks, attackers, blockers) && OneEach(blocks)
    requires total == Unblocked(attackers, blocks) == LeastDamage(attackers, blockers, |attackers|)
    ensures IsBestBlock(creatures, blockers, total)
  {
    var order := Embedding(attackers, creatures);
    var original := BlocksFromSorted(order, attackers, creatures, blockers, blocks);
    forall any: Blocks | Legal(any, creatures, blockers) ensures total <= Unblocked(creatures, any) {
      var sorted := BlocksToSorted(order, attackers, creatures, blockers, any);
      LeastIsLeast(attackers, blockers, sorted, |attackers|, 0);
      assert Through(attackers, sorted.Values)[..|attackers|] == Through(attackers, sorted.Values);
    }
  }

  // ----- the penalty for an attack that invites a lethal crackback -----

  predicate StaysHome(p: Permanent, me: nat, attacking: set<nat>) {
    && p.controller == me && !p.phasedOut && !p.tapped && p.IsCreature()
    && (p.objectID in attacking ==> p.Has(Vigilance))
  }

  predicate Swings(p: Permanent, opponent: nat) {
    p.controller == opponent && !p.phasedOut && p.IsCreature()
  }

  /** The agent's creatures that can still block after the declared attackers tap. */
  ghost function Remaining(obs: Observation, attacking: set<nat>): seq<Permanent> {
    Filter(obs.battlefield, p => StaysHome(p, obs.player, attacking))
  }

  ghost function Swing(obs: Observation, opponent: nat): seq<Permanent> {
    Filter(obs.battlefield, p => Swings(p, opponent))
  }

  /** No legal block by the remaining blockers survives this opponent's full swing. */
  ghost predicate Deadly(obs: Observation, attacking: set<nat>, opponent: nat) {
    forall blocks: Blocks | Legal(blocks, Swing(obs, opponent), Remaining(obs, attacking)) ::
      Unblocked(Swing(obs, opponent), blocks) >= obs.life
  }

  ghost predicate Doomed(obs: Observation, attacking: set<nat>) {
    obs.life <= 0 || exists opponent: nat :: opponent != obs.player && Deadly(obs, attacking, opponent)
  }

  method RemainingBlockers(obs: Observation, attacking: set<nat>) returns (blockers: seq<Permanent>)
    ensures blockers == Remaining(obs, attacking)
  {
    blockers := [];
    ghost var home := (p: Permanent) => StaysHome(p, obs.player, attacking);
    for i := 0 to |obs.battlefield|
      invariant blockers == Filter(obs.battlefield[..i], home)
    {
      var creature := obs.battlefield[i];
      assert obs.battlefield[..i + 1][..i] == obs.battlefield[..i];
      if creature.controller != obs.player || creature.phasedOut || creature.tapped || !creature.IsCreature() {
        continue;
      }
      if creature.objectID in attacking && !creature.Has(Vigilance) {
        continue;
      }
      blockers := blockers + [creature];
    }
    assert obs.battlefield[..|obs.battlefield|] == obs.battlefield;
  }

  /** Every opponent that has creatures, with those creatures in battlefield order. */
  method OpponentCreatures(obs: Observation) returns (byOpponent: map<nat, seq<Permanent>>)
    ensures forall o | o in byOpponent :: o != obs.player && byOpponent[o] == Swing(obs, o)
    ensures forall o: nat | o != obs.player && o !in byOpponent :: Swing(obs, o) == []
  {
    byOpponent := map[];
    hide SwingUpTo;
    SwingStarts(obs);
    for i := 0 to |obs.battlefield|
      invariant forall o | o in byOpponent :: o != obs.player && byOpponent[o] == SwingUpTo(obs, i, o)
      invariant forall o: nat | o != obs.player && o !in byOpponent :: SwingUpTo(obs, i, o) == []
    {
      var creature := obs.battlefield[i];
      forall o: nat ensures SwingUpTo(obs, i + 1, o) == SwingUpTo(obs, i, o) + if Swings(creature, o) then [creature] else [] {
        SwingStep(obs, i, o);
      }
      if creature.controller == obs.player || creature.phasedOut || !creature.IsCreature() {
        continue;
      }
      byOpponent := byOpponent[creature.controller := Get(byOpponent, creature.controller, []) + [creature]];
    }
    SwingEnds(obs);
  }

  /** An opponent's creatures among the first n permanents. */
  ghost function SwingUpTo(obs: Observation, n: nat, opponent: nat): seq<Permanent>
    requires n <= |obs.battlefield|
  {
    Filter(obs.battlefield[..n], p => Swings(p, opponent))
  }

  lemma SwingStarts(obs: Observation)
    ensures forall o: nat :: SwingUpTo(obs, 0, o) == []
  {
  }

  lemma SwingStep(obs: Observation, n: nat, opponent: nat)
    requires n < |obs.battlefield|
    ensures SwingUpTo(obs, n + 1, opponent) ==
            SwingUpTo(obs, n, opponent) + if Swings(obs.battlefield[n], opponent) then [obs.battlefield[n]] else []
  {
    assert obs.battlefield[..n + 1][..n] == obs.battlefield[..n];
  }

  lemma SwingEnds(obs: Observation)
    ensures forall o: nat :: SwingUpTo(obs, |obs.battlefield|, o) == Swing(obs, o)
  {
    assert obs.battlefield[..|obs.battlefield|] == obs.battlefield;
  }

  /** A minimum over all blocks is lethal exactly when every block is. */
  lemma BestBlockDecides(obs: Observation, attacking: set<nat>, opponent: nat, total: int)
    requires IsBestBlock(Swing(obs, opponent), Remaining(obs, attacking), total)
    ensures Deadly(obs, attacking, opponent) <==> total >= obs.life
  {
  }

  lemma NothingToBlock(obs: Observation, attacking: set<nat>, opponent: nat)
    requires Swing(obs, opponent) == [] && obs.life > 0
    ensures !Deadly(obs, attacking, opponent)
  {
    var none: Blocks := map[];
    assert Legal(none, Swing(obs, opponent), Remaining(obs, attacking));
    assert Unblocked([], none) == 0;
  }

  method CrackbackPenalty(obs: Observation, declared: seq<nat>) returns (penalty: real)
    ensures penalty == if Doomed(obs, Elements(declared)) then 80.0 else 0.0
  {
    hide Deadly, IsBestBlock, Swing, Remaining;
    var attacking: set<nat> := {};
    for i := 0 to |declared|
      invariant attacking == Elements(declared[..i])
    {
      attacking := attacking + {declared[i]};
      assert declared[..i + 1] == declared[..i] + [declared[i]];
    }
    assert declared[..|declared|] == declared;
    var blockers := RemainingBlockers(obs, attacking);
    var worst := 0;
    var byOpponent := OpponentCreatures(obs);
    var rest := byOpponent.Keys;
    while rest != {}
      invariant rest <= byOpponent.Keys && worst >= 0
      invariant forall o | o in byOpponent && o !in rest :: Deadly(obs, attacking, o) ==> worst >= obs.life
      invariant worst >= obs.life > 0 ==> exists o | o in byOpponent :: Deadly(obs, attacking, o)
      decreases rest
    {
      var o :| o in rest;
      rest := rest - {o};
      var unblocked := UnblockedCrackback(byOpponent[o], blockers);
      BestBlockDecides(obs, attacking, o, unblocked);
      if unblocked > worst {
        worst := unblocked;
      }
    }
    if obs.life > 0 {
      forall o: nat | o != obs.player && o !in byOpponent ensures !Deadly(obs, attacking, o) {
        NothingToBlock(obs, attacking, o);
      }
    }
    if obs.life - worst <= 0 {
      return LETHAL_PENALTY;
    }
    return 0.0;
  }

  // ----- holding attackers back never hurts -----

  lemma {:induction false} FewerAttackersMoreBlockers(battlefield: seq<Permanent>, me: nat, attacking: set<nat>, fewer: set<nat>)
    requires fewer <= attacking
    ensures multiset(Filter(battlefield, p => StaysHome(p, me, attacking)))
         <= multiset(Filter(battlefield, p => StaysHome(p, me, fewer)))
  {
    if battlefield != [] {
      FewerAttackersMoreBlockers(battlefield[..|battlefield| - 1], me, attacking, fewer);
    }
  }

  /** A block by some of the blockers is a block by all of them. */
  lemma MoreBlockers(attackers: seq<Permanent>, few: seq<Permanent>, many: seq<Permanent>, blocks: Blocks) returns (wider: Blocks)
    requires multiset(few) <= multiset(many) && Legal(blocks, attackers, few)
    ensures Legal(wider, attackers, many) && Unblocked(attackers, wider) == Unblocked(attackers, blocks)
  {
    var order := Embedding(few, many);
    wider := Renumbered(order, few, many, blocks);
    assert forall b | b in blocks :: few[b] == many[order[b]];
    forall c | c in wider ensures c < |many| && wider[c] < |attackers| && CanBlock(many[c], attackers[wider[c]]) {
      var b :| b in blocks && order[b] == c && wider[c] == blocks[b];
    }
    hide CanBlock, Embeds;
  }

  /** The same block with the blockers numbered as in the larger list. */
  lemma Renumbered(order: seq<nat>, few: seq<Permanent>, many: seq<Permanent>, blocks: Blocks) returns (wider: Blocks)
    requires Embeds(order, few, many) && forall b | b in blocks :: b < |few|
    ensures forall c | c in wider :: exists b :: b in blocks && order[b] == c && wider[c] == blocks[b]
    ensures wider.Values == blocks.Values
  {
    wider := map b | b in blocks :: order[b] := blocks[b];
    forall b | b in blocks ensures order[b] in wider && wider[order[b]] == blocks[b] {
    }
    forall c | c in wider ensures exists b :: b in blocks && order[b] == c && wider[c] == blocks[b] {
      var b :| b in blocks && order[b] == c;
    }
  }

  /** Declaring fewer attackers never raises the penalty. */
  lemma HoldingBackIsSafe(obs: Observation, declared: seq<nat>, fewer: seq<nat>)
    requires Elements(fewer) <= Elements(declared)
    ensures Doomed(obs, Elements(fewer)) ==> Doomed(obs, Elements(declared))
  {
    var attacking, held := Elements(declared), Elements(fewer);
    if obs.life > 0 && Doomed(obs, held) {
      var o: nat :| o != obs.player && Deadly(obs, held, o);
      FewerAttackersMoreBlockers(obs.battlefield, obs.player, attacking, held);
      var swing, few, many := Swing(obs, o), Remaining(obs, attacking), Remaining(obs, held);
      forall blocks: Blocks | Legal(blocks, swing, few) ensures Unblocked(swing, blocks) >= obs.life {
        var wider := MoreBlockers(swing, few, many, blocks);
      }
      assert Deadly(obs, attacking, o);
    }
  }

  // ----- one attacker, and who takes part -----

  /** Some blocker may stand in the way: any at all for a ground creature, one with flying or reach for a flyer. */
  ghost predicate Stoppable(a: Permanent, blockers: seq<Permanent>) {
    exists b | b in blockers :: Flying in a.keywords ==> Flying in b.keywords || Reach in b.keywords
  }

  lemma LegalStops(a: Permanent, blockers: seq<Permanent>, blocks: Blocks)
    requires Legal(blocks, [a], blockers)
    ensures Unblocked([a], blocks) == if blocks == map[] then a.Damage() else 0
    ensures blocks != map[] ==> Stoppable(a, blockers)
  {
    var through := Through([a], blocks.Values);
    assert Sum(through) == through[0] by {
      assert through[..0] == [];
    }
    if blocks != map[] {
      var b :| b in blocks;
      assert blocks[b] == 0 && 0 in blocks.Values && blockers[b] in blockers;
      assert CanBlock(blockers[b], [a][0]);
    }
  }

  /** A single attacker is stopped when some blocker may block it, and deals its power otherwise. */
  lemma OneAttackerIsStopped(a: Permanent, blockers: seq<Permanent>, total: int)
    ensures IsBestBlock([a], blockers, total) <==>
              total == if Stoppable(a, blockers) then 0 else if a.power > 0 then a.power else 0
  {
    forall blocks: Blocks | Legal(blocks, [a], blockers)
      ensures Unblocked([a], blocks) == if blocks == map[] then a.Damage() else 0
      ensures blocks != map[] ==> Stoppable(a, blockers)
    {
      LegalStops(a, blockers, blocks);
    }
    var none: Blocks := map[];
    assert Legal(none, [a], blockers) && OneEach(none);
    if Stoppable(a, blockers) {
      var b :| b in blockers && (Flying in a.keywords ==> Flying in b.keywords || Reach in b.keywords);
      var k :| 0 <= k < |blockers| && blockers[k] == b;
      var one: Blocks := map[k := 0];
      assert Legal(one, [a], blockers) && OneEach(one);
    }
    hide Legal, Unblocked, Stoppable;
  }

  /** The blockers left are the agent's untapped creatures that do not tap to attack, each as often as it is there. */
  lemma RemainingMeans(obs: Observation, attacking: set<nat>, p: Permanent)
    ensures multiset(Remaining(obs, attacking))[p] ==
            if p.controller == obs.player && !p.phasedOut && !p.tapped && Creature in p.types
               && (p.objectID in attacking ==> Vigilance in p.keywords)
            then multiset(obs.battlefield)[p] else 0
  {
    FilterCounts(obs.battlefield, (p: Permanent) => StaysHome(p, obs.player, attacking), p);
  }

  /** An opponent swings with all its creatures, tapped or not. */
  lemma SwingMeans(obs: Observation, opponent: nat, p: Permanent)
    ensures multiset(Swing(obs, opponent))[p] ==
            if p.controller == opponent && !p.phasedOut && Creature in p.types then multiset(obs.battlefield)[p] else 0
  {
    FilterCounts(obs.battlefield, (p: Permanent) => Swings(p, opponent), p);
  }

  /** An opponent with one creature is deadly when that creature's power reaches the life total and nothing can stop it. */
  lemma LoneSwingDecides(obs: Observation, attacking: set<nat>, opponent: nat, a: Permanent)
    requires Swing(obs, opponent) == [a]
    ensures Deadly(obs, attacking, opponent) <==>
              (if Stoppable(a, Remaining(obs, attacking)) then 0 else if a.power > 0 then a.power else 0) >= obs.life
  {
    var blockers := Remaining(obs, attacking);
    var total := if Stoppable(a, blockers) then 0 else if a.power > 0 then a.power else 0;
    OneAttackerIsStopped(a, blockers, total);
    hide Stoppable, Remaining, Swing, IsBestBlock;
    BestBlockDecides(obs, attacking, opponent, total);
  }

  /** With one opposing creature and nothing of its own on the battlefield, the agent is doomed by power alone. */
  lemma LoneCreatureDooms(obs: Observation, attacking: set<nat>, a: Permanent)
    requires obs.battlefield == [a] && a.controller != obs.player && !a.phasedOut && Creature in a.types
    ensures Doomed(obs, attacking) <==> obs.life <= 0 || a.power >= obs.life
  {
    assert [a][..0] == [] && [a][0] == a;
    assert Remaining(obs, attacking) == [] && Swing(obs, a.controller) == [a];
    LoneSwingDecides(obs, attacking, a.controller, a);
    forall o: nat | o != obs.player && o != a.controller && obs.life > 0 ensures !Deadly(obs, attacking, o) {
      assert Swing(obs, o) == [];
      NothingToBlock(obs, attacking, o);
    }
    hide Deadly, Swing, Remaining;
  }
}
