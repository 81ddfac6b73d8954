/** Matching a card reference with an object reference by their target slots. */
module TargetSlots {
  import opened Options

  /** The part of a target specification the slot arithmetic reads; validated specifications have no negative counts. */
  datatype TargetSpec = TargetSpec(maxTargets: nat, allowsCard: bool)

  /** The slots all specifications admit, one after the other: whether each allows a card. */
  function Flat(targets: seq<TargetSpec>): seq<bool> {
    if targets == [] then []
    else Block(targets[0].maxTargets, targets[0].allowsCard) + Flat(targets[1..])
  }

  function Block(n: nat, allows: bool): seq<bool> {
    seq(n, _ => allows)
  }

  function CardSlots(slots: seq<bool>): nat {
    if slots == [] then 0 else CardSlots(slots[..|slots| - 1]) + if slots[|slots| - 1] then 1 else 0
  }

  /** An object's slot and a card's index name the same target: a card slot with that many card slots before it. */
  ghost predicate Matches(card: int, slot: int, targets: seq<TargetSpec>) {
    0 <= slot < |Flat(targets)| && Flat(targets)[slot] && card == CardSlots(Flat(targets)[..slot])
  }

  lemma {:induction false} CardSlotsConcat(a: seq<bool>, b: seq<bool>)
    ensures CardSlots(a + b) == CardSlots(a) + CardSlots(b)
  {
    if b == [] {
      assert a + b == a;
    } else {
      CardSlotsConcat(a, b[..|b| - 1]);
      assert (a + b)[..|a + b| - 1] == a + b[..|b| - 1];
    }
  }

  lemma {:induction false} CardSlotsUniform(n: nat, allows: bool)
    ensures CardSlots(Block(n, allows)) == if allows then n else 0
  {
    if n > 0 {
      CardSlotsUniform(n - 1, allows);
      assert Block(n, allows)[..n - 1] == Block(n - 1, allows);
    }
  }

  lemma {:induction false} FlatConcat(a: seq<TargetSpec>, b: seq<TargetSpec>)
    ensures Flat(a + b) == Flat(a) + Flat(b)
  {
    hide Block;
    if a == [] {
      assert a + b == b;
    } else {
      FlatConcat(a[1..], b);
      assert (a + b)[1..] == a[1..] + b;
    }
  }

  /**
   * The loop decides the match for every slot that is not negative, and so for every card that is not: a negative slot
   * stops at the first specification, where only the same negative card index passes.
   */
  method SlotMatches(card: int, objectSlot: int, targets: seq<TargetSpec>) returns (matches: bool)
    ensures objectSlot >= 0 || card >= 0 ==> (matches <==> Matches(card, objectSlot, targets))
    ensures objectSlot < 0 ==> (matches <==> targets != [] && targets[0].allowsCard && card == objectSlot)
  {
    var slot := objectSlot;
    var cardSlot := 0;
    for i := 0 to |targets|
      invariant slot == objectSlot - |Flat(targets[..i])|
      invariant slot >= 0 || i == 0
      invariant cardSlot == CardSlots(Flat(targets[..i]))
    {
      var target := targets[i];
      var before, here := Flat(targets[..i]), Block(target.maxTargets, target.allowsCard);
      assert targets[..i + 1] == targets[..i] + [target] && targets == targets[..i + 1] + targets[i + 1..];
      FlatConcat(targets[..i], [target]);
      FlatConcat(targets[..i + 1], targets[i + 1..]);
      assert Flat([target]) == here;
      if slot < target.maxTargets {
        var whole := Flat(targets);
        if slot >= 0 {
          assert whole[objectSlot] == here[slot];
          assert whole[..objectSlot] == before + Block(slot, target.allowsCard);
          CardSlotsConcat(before, Block(slot, target.allowsCard));
          CardSlotsUniform(slot, target.allowsCard);
        }
        return target.allowsCard && card == cardSlot + slot;
      }
      slot := slot - target.maxTargets;
      CardSlotsConcat(before, here);
      CardSlotsUniform(target.maxTargets, target.allowsCard);
      if target.allowsCard {
        cardSlot := cardSlot + target.maxTargets;
      }
    }
    assert targets[..|targets|] == targets;
    return false;
  }

  /** Each card index matches at most one slot, and every index below the number of card slots matches one. */
  lemma EachCardOneSlot(card: nat, targets: seq<TargetSpec>)
    ensures (exists slot :: Matches(card, slot, targets)) <==> card < CardSlots(Flat(targets))
    ensures forall a, b | Matches(card, a, targets) && Matches(card, b, targets) :: a == b
  {
    var slots := Flat(targets);
    forall a, b | Matches(card, a, targets) && Matches(card, b, targets) ensures a == b {
      CardSlotsStep(slots, a);
      CardSlotsStep(slots, b);
      if a < b {
        CardSlotsGrow(slots, a + 1, b);
      } else if b < a {
        CardSlotsGrow(slots, b + 1, a);
      }
    }
    if slot :| Matches(card, slot, targets) {
      CardSlotsStep(slots, slot);
      CardSlotsGrow(slots, slot + 1, |slots|);
      assert slots[..|slots|] == slots;
    }
    if card < CardSlots(slots) {
      var slot := FindCardSlot(slots, card);
      assert Matches(card, slot, targets);
    }
  }

  lemma CardSlotsStep(slots: seq<bool>, k: nat)
    requires k < |slots|
    ensures CardSlots(slots[..k + 1]) == CardSlots(slots[..k]) + if slots[k] then 1 else 0
  {
    assert slots[..k + 1][..k] == slots[..k];
  }

  lemma {:induction false} CardSlotsGrow(slots: seq<bool>, m: nat, n: nat)
    requires m <= n <= |slots|
    ensures CardSlots(slots[..m]) <= CardSlots(slots[..n])
  {
    if m < n {
      CardSlotsGrow(slots, m, n - 1);
      assert slots[..n][..n - 1] == slots[..n - 1];
    }
  }

  lemma {:induction false} FindCardSlot(slots: seq<bool>, card: nat) returns (slot: nat)
    requires card < CardSlots(slots)
    ensures slot < |slots| && slots[slot] && CardSlots(slots[..slot]) == card
  {
    var last := |slots| - 1;
    if card < CardSlots(slots[..last]) {
      slot := FindCardSlot(slots[..last], card);
      assert slots[..last][..slot] == slots[..slot];
    } else {
      slot := last;
    }
  }

  // ----- agreement with the reference validation -----

  /** targetSpecForSlot: the specification that admits a slot when every one admits at least one. */
  function SpecForSlot(targets: seq<TargetSpec>, index: int): Option<nat> {
    if index < 0 then None else SpecFrom(targets, index, 0)
  }

  function Width(t: TargetSpec): nat {
    if t.maxTargets > 1 then t.maxTargets else 1
  }

  function SpecFrom(targets: seq<TargetSpec>, index: nat, i: nat): Option<nat>
    decreases |targets| - i
  {
    if i >= |targets| then None
    else if index < Width(targets[i]) then Some(i)
    else SpecFrom(targets, index - Width(targets[i]), i + 1)
  }

  /** The reference validation's own loop, over running totals. */
  method TargetSpecForSlot(targets: seq<TargetSpec>, index: int) returns (found: Option<nat>)
    ensures found == SpecForSlot(targets, index)
  {
    if index < 0 {
      return None;
    }
    var cumulative := 0;
    for i := 0 to |targets|
      invariant cumulative <= index
      invariant SpecForSlot(targets, index) == SpecFrom(targets, index - cumulative, i)
    {
      var width := Width(targets[i]);
      if index < cumulative + width {
        return Some(i);
      }
      cumulative := cumulative + width;
    }
    return None;
  }

  /** The specification whose slots, by maxTargets alone, hold a slot: the one SlotMatches consults. */
  function HolderFrom(targets: seq<TargetSpec>, slot: nat, i: nat): Option<nat>
    decreases |targets| - i
  {
    if i >= |targets| then None
    else if slot < targets[i].maxTargets then Some(i)
    else HolderFrom(targets, slot - targets[i].maxTargets, i + 1)
  }

  predicate SameSpec(targets: seq<TargetSpec>, slot: nat, i: nat) {
    SpecFrom(targets, slot, i) == HolderFrom(targets, slot, i)
  }

  /**
   * The two slot countings agree on every slot exactly when no specification admits zero targets: such a one has no
   * slot here, but one slot in the reference validation.
   */
  lemma {:induction false} CountingsAgree(targets: seq<TargetSpec>, i: nat)
    requires i <= |targets|
    ensures (forall slot: nat :: SameSpec(targets, slot, i)) <==> (forall k | i <= k < |targets| :: targets[k].maxTargets > 0)
    decreases |targets| - i
  {
    if i < |targets| {
      CountingsAgree(targets, i + 1);
      var t := targets[i];
      if t.maxTargets == 0 {
        HolderIsLater(targets, 0, i + 1);
        assert !SameSpec(targets, 0, i);
      } else if forall k | i + 1 <= k < |targets| :: targets[k].maxTargets > 0 {
        forall slot: nat ensures SameSpec(targets, slot, i) {
          if slot >= t.maxTargets {
            assert SameSpec(targets, slot - t.maxTargets, i + 1);
          }
        }
      } else {
        var slot: nat :| !SameSpec(targets, slot, i + 1);
        var here: nat := slot + t.maxTargets;
        assert SpecFrom(targets, here, i) == SpecFrom(targets, slot, i + 1);
        assert HolderFrom(targets, here, i) == HolderFrom(targets, slot, i + 1);
        assert !SameSpec(targets, here, i);
      }
    }
  }

  lemma {:induction false} HolderIsLater(targets: seq<TargetSpec>, slot: nat, i: nat)
    ensures HolderFrom(targets, slot, i).Some? ==> HolderFrom(targets, slot, i).value >= i
    decreases |targets| - i
  {
    if i < |targets| && slot >= targets[i].maxTargets {
      HolderIsLater(targets, slot - targets[i].maxTargets, i + 1);
    }
  }
}
