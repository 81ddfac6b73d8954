/** The public view of the battlefield that combat decisions read. */
module Battlefield {

  datatype Keyword = Flying | Reach | Vigilance | Trample | OtherKeyword(name: string)

  datatype CardType = Creature | OtherType(name: string)

  datatype Permanent = Permanent(
    objectID: nat,
    cardInstanceID: nat,
    controller: nat,
    power: int,
    toughness: int,
    hasToughness: bool,
    tapped: bool,
    phasedOut: bool,
    types: seq<CardType>,
    keywords: set<Keyword>)
  {
    predicate Has(keyword: Keyword) {
      keyword in keywords
    }

    predicate IsCreature() {
      Creature in types
    }

    /** Combat damage is never negative. */
    function Damage(): nat {
      if power > 0 then power else 0
    }
  }

  datatype BlockDeclaration = BlockDeclaration(blocker: nat, blocking: nat)

  /** What the agent sees: itself, its life total and commander damage, the battlefield, and every commander. */
  datatype Observation = Observation(
    player: nat,
    life: int,
    commanderDamage: map<nat, int>,
    battlefield: seq<Permanent>,
    commanders: seq<nat>)
}
