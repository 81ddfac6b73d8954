/** Whether the attack under way kills the agent, and what a block is worth for surviving it. */
module Survival {
  import opened Battlefield
  import opened Collections
  import opened Options

  const COMMANDER_DAMAGE_LETHAL := 21
  const BLOCK_SURVIVAL := 100.0

  function PermanentByID(battlefield: seq<Permanent>, id: nat): Option<Permanent> {
    if battlefield == [] then None
    else if battlefield[0].objectID == id then Some(battlefield[0])
    else PermanentByID(battlefield[1..], id)
  }

  /** What one declaration adds to the toughness in front of an attacker. */
  function Stops(obs: Observation, block: BlockDeclaration, attacker: nat): nat {
    var blocker := PermanentByID(obs.battlefield, block.blocker);
    if block.blocking == attacker && blocker.Some? && blocker.value.hasToughness && blocker.value.toughness > 0 then
      blocker.value.toughness
    else 0
  }

  function Toughness(obs: Observation, blocks: seq<BlockDeclaration>, attacker: nat): int {
    Sum(seq(|blocks|, i requires 0 <= i < |blocks| => Stops(obs, blocks[i], attacker)))
  }

  ghost predicate IsBlocked(blocks: seq<BlockDeclaration>, attacker: nat) {
    exists i | 0 <= i < |blocks| :: blocks[i].blocking == attacker
  }

  function FaceDamageFrom(attacker: Permanent, isBlocked: bool, toughness: int): int {
    if !isBlocked then attacker.Damage()
    else if attacker.Has(Trample) && attacker.Damage() - toughness > 0 then attacker.Damage() - toughness
    else 0
  }

  /** What one attacker deals to the agent under a block. */
  ghost function Face(obs: Observation, blocks: seq<BlockDeclaration>, attacker: Permanent): int {
    FaceDamageFrom(attacker, IsBlocked(blocks, attacker.objectID), Toughness(obs, blocks, attacker.objectID))
  }

  ghost function Faces(obs: Observation, attackers: seq<Permanent>, blocks: seq<BlockDeclaration>): (faces: seq<int>)
    ensures |faces| == |attackers|
  {
    seq(|attackers|, i requires 0 <= i < |attackers| => Face(obs, blocks, attackers[i]))
  }

  predicate CommanderInstance(obs: Observation, instance: nat) {
    instance != 0 && instance in obs.commanders
  }

  /** Section 903.10a of the comprehensive rules, for one attacker that deals damage to the agent. */
  ghost predicate CommanderKills(obs: Observation, attacker: Permanent, face: int) {
    && face > 0
    && CommanderInstance(obs, attacker.cardInstanceID)
    && Get(obs.commanderDamage, attacker.cardInstanceID, 0) + face >= COMMANDER_DAMAGE_LETHAL
  }

  /** The attack kills: all of it together by life total, or some one commander by commander damage. */
  ghost predicate Lethal(obs: Observation, attackers: seq<Permanent>, blocks: seq<BlockDeclaration>) {
    || obs.life - Sum(Faces(obs, attackers, blocks)) <= 0
    || exists i | 0 <= i < |attackers| :: CommanderKills(obs, attackers[i], Face(obs, blocks, attackers[i]))
  }

  method BlockAssignment(obs: Observation, blocks: seq<BlockDeclaration>)
    returns (toughness: map<nat, int>, blocked: set<nat>)
    ensures forall id: nat :: id in blocked <==> IsBlocked(blocks, id)
    ensures forall id: nat :: Get(toughness, id, 0) == Toughness(obs, blocks, id)
  {
    toughness, blocked := map[], {};
    for i := 0 to |blocks|
      invariant forall id: nat :: id in blocked <==> IsBlocked(blocks[..i], id)
      invariant forall id: nat :: Get(toughness, id, 0) == Toughness(obs, blocks[..i], id)
    {
      var block := blocks[i];
      forall id: nat
        ensures Toughness(obs, blocks[..i + 1], id) == Toughness(obs, blocks[..i], id) + Stops(obs, block, id)
        ensures IsBlocked(blocks[..i + 1], id) <==> IsBlocked(blocks[..i], id) || id == block.blocking
      {
        OneMoreBlock(obs, blocks, i, id);
      }
      hide Toughness, IsBlocked;
      blocked := blocked + {block.blocking};
      var blocker := PermanentByID(obs.battlefield, block.blocker);
      if blocker.Some? && blocker.value.hasToughness {
        var stops := if blocker.value.toughness > 0 then blocker.value.toughness else 0;
        toughness := toughness[block.blocking := Get(toughness, block.blocking, 0) + stops];
      }
    }
    assert blocks[..|blocks|] == blocks;
  }

  lemma OneMoreBlock(obs: Observation, blocks: seq<BlockDeclaration>, n: nat, id: nat)
    requires n < |blocks|
    ensures Toughness(obs, blocks[..n + 1], id) == Toughness(obs, blocks[..n], id) + Stops(obs, blocks[n], id)
    ensures IsBlocked(blocks[..n + 1], id) <==> IsBlocked(blocks[..n], id) || id == blocks[n].blocking
  {
    var now := seq(n + 1, i requires 0 <= i < n + 1 => Stops(obs, blocks[..n + 1][i], id));
    var before := seq(n, i requires 0 <= i < n => Stops(obs, blocks[..n][i], id));
    assert now[..n] == before;
    assert blocks[..n + 1][n] == blocks[n];
    assert forall i | 0 <= i < n :: blocks[..n + 1][i] == blocks[..n][i];
  }

  method AttackIsLethal(obs: Observation, attackers: seq<Permanent>, blocks: seq<BlockDeclaration>) returns (lethal: bool)
    ensures lethal <==> Lethal(obs, attackers, blocks)
  {
    var toughness, blocked := BlockAssignment(obs, blocks);
    hide Toughness, IsBlocked;
    var faceDamage := 0;
    for i := 0 to |attackers|
      invariant faceDamage == Sum(Faces(obs, attackers, blocks)[..i])
      invariant forall k | 0 <= k < i :: !CommanderKills(obs, attackers[k], Face(obs, blocks, attackers[k]))
    {
      var attacker := attackers[i];
      var toFace := FaceDamageFrom(attacker, attacker.objectID in blocked, Get(toughness, attacker.objectID, 0));
      assert toFace == Face(obs, blocks, attacker) == Faces(obs, attackers, blocks)[i];
      assert Faces(obs, attackers, blocks)[..i + 1][..i] == Faces(obs, attackers, blocks)[..i];
      if toFace <= 0 {
        continue;
      }
      faceDamage := faceDamage + toFace;
      if CommanderInstance(obs, attacker.cardInstanceID) {
        if Get(obs.commanderDamage, attacker.cardInstanceID, 0) + toFace >= COMMANDER_DAMAGE_LETHAL {
          return true;
        }
      }
    }
    assert Faces(obs, attackers, blocks)[..|attackers|] == Faces(obs, attackers, blocks);
    return obs.life - faceDamage <= 0;
  }

  /** attackers are those AttackersAgainst reports for the agent. */
  method SurvivalValue(obs: Observation, attackers: seq<Permanent>, blocks: seq<BlockDeclaration>) returns (value: real)
    ensures value == if EarnsSurvival(obs, attackers, blocks) then 100.0 else 0.0
  {
    if |attackers| == 0 {
      return 0.0;
    }
    var lethalUnblocked := AttackIsLethal(obs, attackers, []);
    if !lethalUnblocked {
      return 0.0;
    }
    var lethalBlocked := AttackIsLethal(obs, attackers, blocks);
    if lethalBlocked {
      return 0.0;
    }
    return BLOCK_SURVIVAL;
  }

  ghost predicate EarnsSurvival(obs: Observation, attackers: seq<Permanent>, blocks: seq<BlockDeclaration>) {
    attackers != [] && Lethal(obs, attackers, []) && !Lethal(obs, attackers, blocks)
  }

  // ----- what does not change the verdict -----

  /** The order in which attackers are examined, and so the early return, does not matter. */
  lemma OrderOfAttackersDoesNotMatter(obs: Observation, attackers: seq<Permanent>, others: seq<Permanent>, blocks: seq<BlockDeclaration>)
    requires multiset(attackers) == multiset(others)
    ensures Lethal(obs, attackers, blocks) <==> Lethal(obs, others, blocks)
  {
    hide Face, CommanderKills;
    assert |attackers| == |multiset(attackers)| == |others|;
    var order := Embedding(attackers, others);
    assert Embeds(order, Faces(obs, attackers, blocks), Faces(obs, others, blocks));
    SumRearranged(order, Faces(obs, attackers, blocks), Faces(obs, others, blocks));
    EmbeddingCovers(order, attackers, others);
    forall k: nat | k < |others| ensures exists i | 0 <= i < |attackers| :: attackers[i] == others[k] {
      assert k in order;
      var i :| 0 <= i < |order| && order[i] == k;
      assert attackers[i] == others[k];
    }
  }

  lemma MoreBlocksMoreToughness(obs: Observation, blocks: seq<BlockDeclaration>, more: seq<BlockDeclaration>, id: nat)
    requires multiset(blocks) <= multiset(more)
    ensures Toughness(obs, blocks, id) <= Toughness(obs, more, id)
    ensures IsBlocked(blocks, id) ==> IsBlocked(more, id)
  {
    var few := seq(|blocks|, i requires 0 <= i < |blocks| => Stops(obs, blocks[i], id));
    var many := seq(|more|, i requires 0 <= i < |more| => Stops(obs, more[i], id));
    var order := Embedding(blocks, more);
    assert Embeds(order, few, many);
    EmbeddedSum(order, few, many);
  }

  lemma MoreBlocksLessDamage(obs: Observation, blocks: seq<BlockDeclaration>, more: seq<BlockDeclaration>, attacker: Permanent)
    requires multiset(blocks) <= multiset(more)
    ensures Face(obs, more, attacker) <= Face(obs, blocks, attacker)
  {
    MoreBlocksMoreToughness(obs, blocks, more, attacker.objectID);
    NonNegativeToughness(obs, more, attacker.objectID);
  }

  lemma NonNegativeToughness(obs: Observation, blocks: seq<BlockDeclaration>, id: nat)
    ensures Toughness(obs, blocks, id) >= 0
  {
    SumNonNegative(seq(|blocks|, i requires 0 <= i < |blocks| => Stops(obs, blocks[i], id)));
  }

  /** Adding blocks never turns a survivable attack into a lethal one. */
  lemma MoreBlocksAreSafer(obs: Observation, attackers: seq<Permanent>, blocks: seq<BlockDeclaration>, more: seq<BlockDeclaration>)
    requires multiset(blocks) <= multiset(more)
    ensures Lethal(obs, attackers, more) ==> Lethal(obs, attackers, blocks)
    ensures EarnsSurvival(obs, attackers, blocks) ==> EarnsSurvival(obs, attackers, more)
  {
    forall i | 0 <= i < |attackers| ensures Face(obs, more, attackers[i]) <= Face(obs, blocks, attackers[i]) {
      MoreBlocksLessDamage(obs, blocks, more, attackers[i]);
    }
    hide Face;
    SumPointwise(Faces(obs, attackers, more), Faces(obs, attackers, blocks));
  }

  // ----- the damage of one attacker, and the verdict on it -----

  /** Some declaration blocks the attacker. */
  ghost predicate Faced(blocks: seq<BlockDeclaration>, attacker: Permanent) {
    exists block | block in blocks :: block.blocking == attacker.objectID
  }

  /**
   * A declaration contributes the toughness of the first permanent with the blocker's ID, if it blocks this attacker
   * and that toughness is positive.
   */
  ghost predicate Contributes(obs: Observation, block: BlockDeclaration, attacker: Permanent, n: int) {
    if block.blocking == attacker.objectID
       && exists k | 0 <= k < |obs.battlefield| :: Stands(obs.battlefield, k, block.blocker)
    then
      exists k | 0 <= k < |obs.battlefield| ::
        && Stands(obs.battlefield, k, block.blocker)
        && n == if obs.battlefield[k].hasToughness && obs.battlefield[k].toughness > 0 then obs.battlefield[k].toughness else 0
    else n == 0
  }

  ghost predicate Stands(battlefield: seq<Permanent>, k: nat, id: nat)
    requires k < |battlefield|
  {
    battlefield[k].objectID == id && forall j | 0 <= j < k :: battlefield[j].objectID != id
  }

  /** The wall in front of an attacker: what each declaration contributes. */
  ghost predicate Wall(obs: Observation, blocks: seq<BlockDeclaration>, attacker: Permanent, wall: seq<int>) {
    |wall| == |blocks| && forall i | 0 <= i < |blocks| :: Contributes(obs, blocks[i], attacker, wall[i])
  }

  lemma {:induction false} PermanentByIDMeans(battlefield: seq<Permanent>, id: nat)
    ensures forall k | 0 <= k < |battlefield| && Stands(battlefield, k, id) :: PermanentByID(battlefield, id) == Some(battlefield[k])
    ensures (forall k | 0 <= k < |battlefield| :: !Stands(battlefield, k, id)) ==> PermanentByID(battlefield, id) == None
  {
    if battlefield != [] {
      PermanentByIDMeans(battlefield[1..], id);
      assert forall k | 0 < k < |battlefield| :: battlefield[k] == battlefield[1..][k - 1];
      if battlefield[0].objectID == id {
        assert Stands(battlefield, 0, id);
      } else {
        forall k | 0 <= k < |battlefield| - 1 ensures Stands(battlefield[1..], k, id) <==> Stands(battlefield, k + 1, id) {
          assert forall j | 0 < j < k + 1 :: battlefield[j] == battlefield[1..][j - 1];
          assert forall j | 0 <= j < k :: battlefield[1..][j] == battlefield[j + 1];
        }
      }
    }
  }

  lemma WallStands(obs: Observation, blocks: seq<BlockDeclaration>, attacker: Permanent)
    ensures exists wall :: Wall(obs, blocks, attacker, wall)
  {
    var wall: seq<int> := seq(|blocks|, i requires 0 <= i < |blocks| => Stops(obs, blocks[i], attacker.objectID));
    forall i | 0 <= i < |blocks| ensures Contributes(obs, blocks[i], attacker, wall[i]) {
      PermanentByIDMeans(obs.battlefield, blocks[i].blocker);
    }
    assert Wall(obs, blocks, attacker, wall);
  }

  lemma ToughnessMeans(obs: Observation, blocks: seq<BlockDeclaration>, attacker: Permanent, wall: seq<int>)
    requires Wall(obs, blocks, attacker, wall)
    ensures Toughness(obs, blocks, attacker.objectID) == Sum(wall)
  {
    forall i | 0 <= i < |blocks| ensures wall[i] == Stops(obs, blocks[i], attacker.objectID) {
      PermanentByIDMeans(obs.battlefield, blocks[i].blocker);
    }
    hide Stops, Contributes;
    assert wall == seq(|blocks|, i requires 0 <= i < |blocks| => Stops(obs, blocks[i], attacker.objectID));
  }

  lemma BlockedMeans(blocks: seq<BlockDeclaration>, attacker: Permanent)
    ensures IsBlocked(blocks, attacker.objectID) <==> Faced(blocks, attacker)
  {
    assert forall i | 0 <= i < |blocks| :: blocks[i] in blocks;
  }

  /**
   * An unblocked attacker deals its power, a blocked one without trample nothing, and a trampler what its power exceeds
   * the wall by: damage and wall together cover the power, exactly so when there is damage.
   */
  lemma FaceMeans(obs: Observation, blocks: seq<BlockDeclaration>, attacker: Permanent, wall: seq<int>)
    requires Wall(obs, blocks, attacker, wall)
    ensures var face, power := Face(obs, blocks, attacker), if attacker.power > 0 then attacker.power else 0;
            && face >= 0
            && (!Faced(blocks, attacker) ==> face == power)
            && (Faced(blocks, attacker) && Trample !in attacker.keywords ==> face == 0)
            && (Faced(blocks, attacker) && Trample in attacker.keywords ==>
                  face + Sum(wall) >= power && (face > 0 ==> face + Sum(wall) == power))
  {
    ToughnessMeans(obs, blocks, attacker, wall);
    BlockedMeans(blocks, attacker);
    NonNegativeToughness(obs, blocks, attacker.objectID);
    hide Toughness, IsBlocked, Faced, Wall;
  }

  /** Damage of a commander that reaches twenty-one with what it dealt before. */
  predicate EndsByCommander(obs: Observation, attacker: Permanent, damage: int) {
    && damage > 0 && attacker.cardInstanceID != 0 && attacker.cardInstanceID in obs.commanders
    && damage + (if attacker.cardInstanceID in obs.commanderDamage then obs.commanderDamage[attacker.cardInstanceID] else 0) >= 21
  }

  /** One attacker alone kills with its power unblocked, with the overflow when it tramples, and with nothing otherwise. */
  lemma OneAttackerKills(obs: Observation, blocks: seq<BlockDeclaration>, attacker: Permanent, wall: seq<int>)
    requires Wall(obs, blocks, attacker, wall)
    ensures var power := if attacker.power > 0 then attacker.power else 0;
            var over := if power > Sum(wall) then power - Sum(wall) else 0;
            Lethal(obs, [attacker], blocks) <==>
              if !Faced(blocks, attacker) then power >= obs.life || EndsByCommander(obs, attacker, power)
              else if Trample in attacker.keywords then over >= obs.life || EndsByCommander(obs, attacker, over)
              else obs.life <= 0
  {
    FaceMeans(obs, blocks, attacker, wall);
    hide Face, Faced, Wall;
    var faces := Faces(obs, [attacker], blocks);
    assert faces == [Face(obs, blocks, attacker)] && Sum(faces) == faces[0] by {
      assert faces[..0] == [];
    }
    assert [attacker][0] == attacker;
  }

  /** Every attacker adds its own damage, and any one of them may be the commander that kills. */
  lemma OneMoreAttacker(obs: Observation, attackers: seq<Permanent>, attacker: Permanent, blocks: seq<BlockDeclaration>)
    ensures Lethal(obs, [], blocks) <==> obs.life <= 0
    ensures Lethal(obs, attackers + [attacker], blocks) <==>
              || Lethal(obs.(life := obs.life - Face(obs, blocks, attacker)), attackers, blocks)
              || EndsByCommander(obs, attacker, Face(obs, blocks, attacker))
  {
    var all, others := attackers + [attacker], obs.(life := obs.life - Face(obs, blocks, attacker));
    hide Face;
    forall a: Permanent ensures Face(others, blocks, a) == Face(obs, blocks, a) {
      SameFace(obs, others, blocks, a);
    }
    assert Faces(obs, all, blocks)[..|attackers|] == Faces(others, attackers, blocks);
    assert all[|attackers|] == attacker;
    assert forall i | 0 <= i < |attackers| :: all[i] == attackers[i];
  }

  /** What an attacker deals does not depend on the life total. */
  lemma SameFace(obs: Observation, other: Observation, blocks: seq<BlockDeclaration>, attacker: Permanent)
    requires other.battlefield == obs.battlefield
    ensures Face(other, blocks, attacker) == Face(obs, blocks, attacker)
  {
    assert seq(|blocks|, i requires 0 <= i < |blocks| => Stops(other, blocks[i], attacker.objectID))
        == seq(|blocks|, i requires 0 <= i < |blocks| => Stops(obs, blocks[i], attacker.objectID));
  }
}
