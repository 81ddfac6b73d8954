/** The deep copy of a combat state: every slice and map of the copy is its own, down to the innermost lists. */
module CombatClone {
  import opened Battlefield

  type ID = nat
  type PlayerID = nat

  /** A Go map: a reference, possibly nil, to a table. Go slices are arrays that may be null. */
  class GoMap<K(==), V> {
    var table: map<K, V>

    constructor (table: map<K, V>)
      ensures this.table == table
    {
      this.table := table;
    }
  }

  datatype AttackTarget = AttackTarget(noTarget: bool, player: PlayerID, planeswalkerID: ID, battleID: ID)

  datatype AttackDeclaration = AttackDeclaration(attacker: ID, target: AttackTarget)

  datatype AttackingBand = AttackingBand(members: array?<ID>)

  // ----- what a slice or map holds, as a value: nil differs from empty -----

  datatype Slice<T> = NilSlice | Elements(elements: seq<T>)

  datatype Table<K, V> = NilMap | Entries(entries: map<K, V>)

  ghost function SliceValue<T>(s: array?<T>): Slice<T>
    reads if s == null then {} else {s}
  {
    if s == null then NilSlice else Elements(s[..])
  }

  ghost function MapValue<K, V>(m: GoMap?<K, V>): Table<K, V>
    reads if m == null then {} else {m}
  {
    if m == null then NilMap else Entries(m.table)
  }

  ghost function BandObjects(bands: array?<AttackingBand>): set<object>
    reads if bands == null then {} else {bands}
  {
    if bands == null then {}
    else {bands as object} + set b | b in bands[..] && b.members != null :: b.members as object
  }

  ghost function BandsValue(bands: array?<AttackingBand>): Slice<Slice<ID>>
    reads BandObjects(bands)
  {
    if bands == null then NilSlice
    else Elements(seq(bands.Length, i requires 0 <= i < bands.Length reads BandObjects(bands) => SliceValue(bands[i].members)))
  }

  ghost function OrderObjects(order: GoMap?<ID, array?<ID>>): set<object>
    reads if order == null then {} else {order}
  {
    if order == null then {}
    else {order as object} + set a | a in order.table && order.table[a] != null :: order.table[a] as object
  }

  ghost function OrderValue(order: GoMap?<ID, array?<ID>>): Table<ID, Slice<ID>>
    reads OrderObjects(order)
  {
    if order == null then NilMap
    else Entries(map a | a in order.table :: SliceValue(order.table[a]))
  }

  // ----- the containers -----

  method CloneSlice<T>(s: array?<T>) returns (copy: array?<T>)
    ensures copy == null <==> s == null
    ensures s != null ==> fresh(copy) && copy[..] == s[..]
  {
    if s == null {
      return null;
    }
    copy := new T[s.Length](i requires 0 <= i < s.Length reads s => s[i]);
  }

  method CloneComparableMap<K, V>(m: GoMap?<K, V>) returns (copy: GoMap?<K, V>)
    ensures copy == null <==> m == null
    ensures m != null ==> fresh(copy) && copy.table == m.table
  {
    if m == null {
      return null;
    }
    copy := new GoMap(m.table);
  }

  /** append([]id.ID(nil), members...): appending nothing to nil is still nil. */
  method AppendToNil(members: array?<ID>) returns (copy: array?<ID>)
    ensures copy == null <==> members == null || members.Length == 0
    ensures copy != null ==> fresh(copy) && copy[..] == members[..]
  {
    if members == null || members.Length == 0 {
      return null;
    }
    copy := CloneSlice(members);
  }

  function Appended(members: Slice<ID>): Slice<ID> {
    if members == Elements([]) then NilSlice else members
  }

  ghost function AppendedBands(bands: Slice<Slice<ID>>): Slice<Slice<ID>> {
    match bands
    case NilSlice => NilSlice
    case Elements(list) => Elements(seq(|list|, i requires 0 <= i < |list| => Appended(list[i])))
  }

  /** No two bands of a clone share a member list. */
  ghost predicate Unshared(bands: array?<AttackingBand>)
    reads if bands == null then {} else {bands}
  {
    bands != null ==>
      forall i, j | 0 <= i < j < bands.Length && bands[i].members != null :: bands[i].members != bands[j].members
  }

  /** Band by band, the copy has the members of the original, an empty list reading as nil. */
  ghost predicate SameBands(copy: array?<AttackingBand>, bands: array?<AttackingBand>)
    reads BandObjects(copy), BandObjects(bands)
  {
    && (copy == null <==> bands == null)
    && (bands != null ==>
          && copy.Length == bands.Length
          && forall k | 0 <= k < bands.Length ::
               && (copy[k].members == null <==> bands[k].members == null || bands[k].members.Length == 0)
               && (copy[k].members != null ==> copy[k].members[..] == bands[k].members[..]))
  }

  method CloneAttackingBands(bands: array?<AttackingBand>) returns (copy: array?<AttackingBand>)
    ensures copy == null <==> bands == null
    ensures bands != null ==> fresh(copy) && copy.Length == bands.Length
    ensures bands != null ==> forall k | 0 <= k < bands.Length ::
              && (copy[k].members == null <==> bands[k].members == null || bands[k].members.Length == 0)
              && (copy[k].members != null ==> fresh(copy[k].members) && copy[k].members[..] == bands[k].members[..])
    ensures Unshared(copy) && fresh(BandObjects(copy))
  {
    if bands == null {
      return null;
    }
    copy := new AttackingBand[bands.Length](_ => AttackingBand(null));
    for i := 0 to bands.Length
      invariant fresh(copy)
      invariant forall k | i <= k < copy.Length :: copy[k].members == null
      invariant forall k, l | 0 <= k < l < copy.Length && copy[k].members != null :: copy[k].members != copy[l].members
      invariant forall k | 0 <= k < i ::
                  && (copy[k].members == null <==> bands[k].members == null || bands[k].members.Length == 0)
                  && (copy[k].members != null ==> fresh(copy[k].members) && copy[k].members[..] == bands[k].members[..])
    {
      var members := AppendToNil(bands[i].members);
      copy[i] := AttackingBand(members);
    }
  }

  lemma SameBandsSameValue(copy: array?<AttackingBand>, bands: array?<AttackingBand>)
    requires SameBands(copy, bands)
    ensures BandsValue(copy) == AppendedBands(BandsValue(bands))
  {
    if bands != null {
      forall k | 0 <= k < bands.Length
        ensures SliceValue(copy[k].members) == Appended(SliceValue(bands[k].members))
      {
      }
    }
  }

  /** Attacker by attacker, the copy has the blockers of the original in the same order. */
  ghost predicate SameOrder(copy: GoMap?<ID, array?<ID>>, order: GoMap?<ID, array?<ID>>)
    reads OrderObjects(copy), OrderObjects(order)
  {
    && (copy == null <==> order == null)
    && (order != null ==>
          && copy.table.Keys == order.table.Keys
          && forall a | a in order.table ::
               && (copy.table[a] == null <==> order.table[a] == null)
               && (copy.table[a] != null ==> copy.table[a][..] == order.table[a][..]))
  }

  method CloneBlockerOrder(order: GoMap?<ID, array?<ID>>) returns (copy: GoMap?<ID, array?<ID>>)
    ensures copy == null <==> order == null
    ensures order != null ==> fresh(copy) && copy.table.Keys == order.table.Keys
    ensures order != null ==> forall a | a in order.table ::
              && (copy.table[a] == null <==> order.table[a] == null)
              && (copy.table[a] != null ==> fresh(copy.table[a]) && copy.table[a][..] == order.table[a][..])
    ensures fresh(OrderObjects(copy))
  {
    if order == null {
      return null;
    }
    var out: map<ID, array?<ID>> := map[];
    var rest := order.table.Keys;
    while rest != {}
      invariant rest <= order.table.Keys && out.Keys == order.table.Keys - rest
      invariant forall a | a in out ::
                  && (out[a] == null <==> order.table[a] == null)
                  && (out[a] != null ==> fresh(out[a]) && out[a][..] == order.table[a][..])
      decreases rest
    {
      var a :| a in rest;
      var list := CloneSlice(order.table[a]);
      out := out[a := list];
      rest := rest - {a};
    }
    assert out.Keys == order.table.Keys;
    copy := new GoMap(out);
  }

  lemma SameOrderSameValue(copy: GoMap?<ID, array?<ID>>, order: GoMap?<ID, array?<ID>>)
    requires SameOrder(copy, order)
    ensures OrderValue(copy) == OrderValue(order)
  {
    if order != null {
      forall a | a in order.table ensures SliceValue(copy.table[a]) == SliceValue(order.table[a]) {
      }
    }
  }

  // ----- the combat state -----

  /** The flat containers of a combat state. */
  datatype Parts = Parts(
    firstStrikeEligible: GoMap?<ID, bool>,
    attackers: array?<AttackDeclaration>,
    playersAttacked: GoMap?<PlayerID, bool>,
    blockers: array?<BlockDeclaration>,
    blockersOfRemovedAttackers: GoMap?<ID, bool>,
    blockedAttackers: GoMap?<ID, bool>,
    combatantControllers: GoMap?<ID, PlayerID>,
    damageAssignment: GoMap?<ID, int>)
  {
    ghost function Objects(): set<object?> {
      {firstStrikeEligible, attackers, playersAttacked, blockers, blockersOfRemovedAttackers, blockedAttackers,
       combatantControllers, damageAssignment} - {null}
    }

    ghost function Values(): PartValues
      reads Objects()
    {
      PartValues(
        MapValue(firstStrikeEligible), SliceValue(attackers), MapValue(playersAttacked), SliceValue(blockers),
        MapValue(blockersOfRemovedAttackers), MapValue(blockedAttackers), MapValue(combatantControllers),
        MapValue(damageAssignment))
    }
  }

  datatype PartValues = PartValues(
    firstStrikeEligible: Table<ID, bool>,
    attackers: Slice<AttackDeclaration>,
    playersAttacked: Table<PlayerID, bool>,
    blockers: Slice<BlockDeclaration>,
    blockersOfRemovedAttackers: Table<ID, bool>,
    blockedAttackers: Table<ID, bool>,
    combatantControllers: Table<ID, PlayerID>,
    damageAssignment: Table<ID, int>)

  /** The fields that are plain values. */
  datatype Plain = Plain(
    attackDeclarationComplete: bool,
    blockDeclarationsComplete: seq<bool>,
    firstStrikeDamageStarted: bool,
    attackersDeclared: bool,
    declaredPlayerAttacks: seq<seq<bool>>,
    blockDeclarationBatchID: ID)

  /** A combat state as a value. */
  datatype CombatValue = CombatValue(plain: Plain, parts: PartValues, bands: Slice<Slice<ID>>, blockerOrder: Table<ID, Slice<ID>>)

  /** Arrays of fixed length are values in Go, so they are sequences here. */
  class CombatState {
    var attackDeclarationComplete: bool
    var blockDeclarationsComplete: seq<bool>
    var firstStrikeDamageStarted: bool
    var firstStrikeEligible: GoMap?<ID, bool>
    var attackers: array?<AttackDeclaration>
    var bands: array?<AttackingBand>
    var attackersDeclared: bool
    var playersAttacked: GoMap?<PlayerID, bool>
    var declaredPlayerAttacks: seq<seq<bool>>
    var blockers: array?<BlockDeclaration>
    var blockersOfRemovedAttackers: GoMap?<ID, bool>
    var blockedAttackers: GoMap?<ID, bool>
    var combatantControllers: GoMap?<ID, PlayerID>
    var blockerOrder: GoMap?<ID, array?<ID>>
    var damageAssignment: GoMap?<ID, int>
    var blockDeclarationBatchID: ID

    /** The slices and maps the fields name directly, apart from bands and blockerOrder. */
    ghost function Containers(): set<object?>
      reads this
    {
      FlatParts().Objects()
    }

    ghost function FlatParts(): Parts
      reads this
    {
      Parts(firstStrikeEligible, attackers, playersAttacked, blockers, blockersOfRemovedAttackers, blockedAttackers,
            combatantControllers, damageAssignment)
    }

    /** Every object a write through this state could reach. */
    ghost function Footprint(): set<object?>
      reads this, bands, blockerOrder
    {
      {this as object?} + Containers() + BandObjects(bands) + OrderObjects(blockerOrder)
    }

    ghost function Value(): CombatValue
      reads this, bands, blockerOrder, Footprint()
    {
      CombatValue(PlainFields(), FlatParts().Values(), BandsValue(bands), OrderValue(blockerOrder))
    }

    ghost function PlainFields(): Plain
      reads this
    {
      Plain(attackDeclarationComplete, blockDeclarationsComplete, firstStrikeDamageStarted, attackersDeclared,
            declaredPlayerAttacks, blockDeclarationBatchID)
    }

    /** clone := *c, with the slices and maps given in place of those of c. */
    constructor With(c: CombatState, parts: Parts, bands: array?<AttackingBand>, blockerOrder: GoMap?<ID, array?<ID>>)
      ensures PlainFields() == c.PlainFields()
      ensures FlatParts() == parts && this.bands == bands && this.blockerOrder == blockerOrder
    {
      attackDeclarationComplete, blockDeclarationsComplete := c.attackDeclarationComplete, c.blockDeclarationsComplete;
      firstStrikeDamageStarted, attackersDeclared := c.firstStrikeDamageStarted, c.attackersDeclared;
      declaredPlayerAttacks, blockDeclarationBatchID := c.declaredPlayerAttacks, c.blockDeclarationBatchID;
      firstStrikeEligible, attackers, playersAttacked := parts.firstStrikeEligible, parts.attackers, parts.playersAttacked;
      blockers, blockersOfRemovedAttackers := parts.blockers, parts.blockersOfRemovedAttackers;
      blockedAttackers, combatantControllers := parts.blockedAttackers, parts.combatantControllers;
      damageAssignment := parts.damageAssignment;
      this.bands, this.blockerOrder := bands, blockerOrder;
    }
  }

  /** The copy says what the original says, except that an empty member list of a band reads as nil. */
  ghost function Cloned(v: CombatValue): CombatValue {
    v.(bands := AppendedBands(v.bands))
  }

  /** Container by container, the copy holds what the original holds. */
  ghost predicate SameParts(copy: CombatState, c: CombatState)
    reads copy, c, copy.Containers(), c.Containers()
  {
    && (copy.firstStrikeEligible == null <==> c.firstStrikeEligible == null)
    && (c.firstStrikeEligible != null ==> copy.firstStrikeEligible.table == c.firstStrikeEligible.table)
    && (copy.attackers == null <==> c.attackers == null)
    && (c.attackers != null ==> copy.attackers[..] == c.attackers[..])
    && (copy.playersAttacked == null <==> c.playersAttacked == null)
    && (c.playersAttacked != null ==> copy.playersAttacked.table == c.playersAttacked.table)
    && (copy.blockers == null <==> c.blockers == null)
    && (c.blockers != null ==> copy.blockers[..] == c.blockers[..])
    && (copy.blockersOfRemovedAttackers == null <==> c.blockersOfRemovedAttackers == null)
    && (c.blockersOfRemovedAttackers != null ==> copy.blockersOfRemovedAttackers.table == c.blockersOfRemovedAttackers.table)
    && (copy.blockedAttackers == null <==> c.blockedAttackers == null)
    && (c.blockedAttackers != null ==> copy.blockedAttackers.table == c.blockedAttackers.table)
    && (copy.combatantControllers == null <==> c.combatantControllers == null)
    && (c.combatantControllers != null ==> copy.combatantControllers.table == c.combatantControllers.table)
    && (copy.damageAssignment == null <==> c.damageAssignment == null)
    && (c.damageAssignment != null ==> copy.damageAssignment.table == c.damageAssignment.table)
  }

  lemma SamePartsSameValues(copy: CombatState, c: CombatState)
    requires SameParts(copy, c)
    ensures copy.FlatParts().Values() == c.FlatParts().Values()
  {
  }

  method CloneParts(c: CombatState) returns (parts: Parts)
    ensures parts.firstStrikeEligible == null <==> c.firstStrikeEligible == null
    ensures c.firstStrikeEligible != null ==> fresh(parts.firstStrikeEligible) && parts.firstStrikeEligible.table == c.firstStrikeEligible.table
    ensures parts.attackers == null <==> c.attackers == null
    ensures c.attackers != null ==> fresh(parts.attackers) && parts.attackers[..] == c.attackers[..]
    ensures parts.playersAttacked == null <==> c.playersAttacked == null
    ensures c.playersAttacked != null ==> fresh(parts.playersAttacked) && parts.playersAttacked.table == c.playersAttacked.table
    ensures parts.blockers == null <==> c.blockers == null
    ensures c.blockers != null ==> fresh(parts.blockers) && parts.blockers[..] == c.blockers[..]
    ensures parts.blockersOfRemovedAttackers == null <==> c.blockersOfRemovedAttackers == null
    ensures c.blockersOfRemovedAttackers != null ==> fresh(parts.blockersOfRemovedAttackers) && parts.blockersOfRemovedAttackers.table == c.blockersOfRemovedAttackers.table
    ensures parts.blockedAttackers == null <==> c.blockedAttackers == null
    ensures c.blockedAttackers != null ==> fresh(parts.blockedAttackers) && parts.blockedAttackers.table == c.blockedAttackers.table
    ensures parts.combatantControllers == null <==> c.combatantControllers == null
    ensures c.combatantControllers != null ==> fresh(parts.combatantControllers) && parts.combatantControllers.table == c.combatantControllers.table
    ensures parts.damageAssignment == null <==> c.damageAssignment == null
    ensures c.damageAssignment != null ==> fresh(parts.damageAssignment) && parts.damageAssignment.table == c.damageAssignment.table
  {
    var firstStrikeEligible := CloneComparableMap(c.firstStrikeEligible);
    var attackers := CloneSlice(c.attackers);
    var playersAttacked := CloneComparableMap(c.playersAttacked);
    var blockers := CloneSlice(c.blockers);
    var blockersOfRemovedAttackers := CloneComparableMap(c.blockersOfRemovedAttackers);
    var blockedAttackers := CloneComparableMap(c.blockedAttackers);
    var combatantControllers := CloneComparableMap(c.combatantControllers);
    var damageAssignment := CloneComparableMap(c.damageAssignment);
    return Parts(firstStrikeEligible, attackers, playersAttacked, blockers, blockersOfRemovedAttackers, blockedAttackers,
                 combatantControllers, damageAssignment);
  }

  /** The assignments of cloneCombatState, for a state that is not nil. */
  method CloneFields(c: CombatState) returns (clone: CombatState)
    ensures fresh(clone)
    ensures clone.firstStrikeEligible != null ==> fresh(clone.firstStrikeEligible)
    ensures clone.attackers != null ==> fresh(clone.attackers)
    ensures clone.playersAttacked != null ==> fresh(clone.playersAttacked)
    ensures clone.blockers != null ==> fresh(clone.blockers)
    ensures clone.blockersOfRemovedAttackers != null ==> fresh(clone.blockersOfRemovedAttackers)
    ensures clone.blockedAttackers != null ==> fresh(clone.blockedAttackers)
    ensures clone.combatantControllers != null ==> fresh(clone.combatantControllers)
    ensures clone.damageAssignment != null ==> fresh(clone.damageAssignment)
    ensures SameParts(clone, c)
    ensures fresh(BandObjects(clone.bands)) && fresh(OrderObjects(clone.blockerOrder))
    ensures clone.PlainFields() == c.PlainFields()
    ensures SameBands(clone.bands, c.bands) && SameOrder(clone.blockerOrder, c.blockerOrder)
    ensures Unshared(clone.bands)
  {
    var parts := CloneParts(c);
    var bands := CloneAttackingBands(c.bands);
    var blockerOrder := CloneBlockerOrder(c.blockerOrder);
    clone := new CombatState.With(c, parts, bands, blockerOrder);
  }

  /** Gather the fresh containers into the fresh footprint. */
  method CloneFresh(c: CombatState) returns (clone: CombatState)
    ensures fresh(clone) && fresh(clone.Footprint())
    ensures clone.PlainFields() == c.PlainFields()
    ensures SameParts(clone, c) && SameBands(clone.bands, c.bands) && SameOrder(clone.blockerOrder, c.blockerOrder)
    ensures Unshared(clone.bands)
  {
    hide SameParts, SameBands, SameOrder, BandObjects, OrderObjects, Unshared;
    clone := CloneFields(c);
    assert fresh(clone.FlatParts().Objects());
    FootprintIs(clone);
  }

  /**
   * A nil state stays nil; any other is copied into fresh objects only, and says the same. The copy shares nothing
   * with the original, nor any two of its own bands a list with each other.
   */
  method CloneCombatState(c: CombatState?) returns (clone: CombatState?)
    ensures clone == null <==> c == null
    ensures c != null ==> fresh(clone) && fresh(clone.Footprint())
    ensures c != null ==> clone.Footprint() !! old(c.Footprint())
    ensures c != null ==> clone.Value() == Cloned(c.Value())
    ensures c != null ==> Unshared(clone.bands)
  {
    if c == null {
      return null;
    }
    hide *;
    assert allocated(c.Footprint());
    clone := CloneFresh(c);
    ValueOfParts(clone, c);
  }

  lemma FootprintIs(c: CombatState)
    ensures c.Footprint() == {c as object?} + c.FlatParts().Objects() + BandObjects(c.bands) + OrderObjects(c.blockerOrder)
  {
  }

  lemma ValueOfParts(clone: CombatState, c: CombatState)
    requires clone.PlainFields() == c.PlainFields()
    requires SameParts(clone, c)
    requires SameBands(clone.bands, c.bands)
    requires SameOrder(clone.blockerOrder, c.blockerOrder)
    ensures clone.Value() == Cloned(c.Value())
  {
    SamePartsSameValues(clone, c);
    SameBandsSameValue(clone.bands, c.bands);
    SameOrderSameValue(clone.blockerOrder, c.blockerOrder);
    hide SameParts, SameBands, SameOrder, BandsValue, OrderValue, AppendedBands;
  }

  ghost predicate SameMap<K, V>(copy: GoMap?<K, V>, m: GoMap?<K, V>)
    reads copy, m
  {
    (copy == null <==> m == null) && (m != null ==> copy.table == m.table)
  }

  ghost predicate SameSlice<T>(copy: array?<T>, s: array?<T>)
    reads copy, s
  {
    (copy == null <==> s == null) && (s != null ==> copy[..] == s[..])
  }

  /** What a value says, field by field: a state with the value of a copy has every field of the original. */
  lemma CopyHasEveryField(clone: CombatState, c: CombatState)
    requires clone.Value() == Cloned(c.Value())
    ensures clone.attackDeclarationComplete == c.attackDeclarationComplete
    ensures clone.blockDeclarationsComplete == c.blockDeclarationsComplete
    ensures clone.firstStrikeDamageStarted == c.firstStrikeDamageStarted
    ensures clone.attackersDeclared == c.attackersDeclared
    ensures clone.declaredPlayerAttacks == c.declaredPlayerAttacks
    ensures clone.blockDeclarationBatchID == c.blockDeclarationBatchID
    ensures SameMap(clone.firstStrikeEligible, c.firstStrikeEligible) && SameMap(clone.playersAttacked, c.playersAttacked)
    ensures SameSlice(clone.attackers, c.attackers) && SameSlice(clone.blockers, c.blockers)
    ensures SameMap(clone.blockersOfRemovedAttackers, c.blockersOfRemovedAttackers)
    ensures SameMap(clone.blockedAttackers, c.blockedAttackers)
    ensures SameMap(clone.combatantControllers, c.combatantControllers)
    ensures SameMap(clone.damageAssignment, c.damageAssignment)
    ensures SameBands(clone.bands, c.bands) && SameOrder(clone.blockerOrder, c.blockerOrder)
  {
    PartsTell(clone.FlatParts(), c.FlatParts());
    BandsTell(clone.bands, c.bands);
    OrderTells(clone.blockerOrder, c.blockerOrder);
    hide SameMap, SameSlice, SameBands, SameOrder, BandsValue, OrderValue, AppendedBands, Parts.Values;
  }

  lemma PartsTell(copy: Parts, parts: Parts)
    requires copy.Values() == parts.Values()
    ensures SameMap(copy.firstStrikeEligible, parts.firstStrikeEligible) && SameMap(copy.playersAttacked, parts.playersAttacked)
    ensures SameSlice(copy.attackers, parts.attackers) && SameSlice(copy.blockers, parts.blockers)
    ensures SameMap(copy.blockersOfRemovedAttackers, parts.blockersOfRemovedAttackers)
    ensures SameMap(copy.blockedAttackers, parts.blockedAttackers)
    ensures SameMap(copy.combatantControllers, parts.combatantControllers)
    ensures SameMap(copy.damageAssignment, parts.damageAssignment)
  {
  }

  lemma BandsTell(copy: array?<AttackingBand>, bands: array?<AttackingBand>)
    requires BandsValue(copy) == AppendedBands(BandsValue(bands))
    ensures SameBands(copy, bands)
  {
    if bands != null {
      var said := BandsValue(copy).elements;
      assert |said| == copy.Length == bands.Length;
      forall k | 0 <= k < bands.Length
        ensures copy[k].members == null <==> bands[k].members == null || bands[k].members.Length == 0
        ensures copy[k].members != null ==> copy[k].members[..] == bands[k].members[..]
      {
        assert said[k] == SliceValue(copy[k].members) == Appended(SliceValue(bands[k].members));
      }
    }
  }

  lemma OrderTells(copy: GoMap?<ID, array?<ID>>, order: GoMap?<ID, array?<ID>>)
    requires OrderValue(copy) == OrderValue(order)
    ensures SameOrder(copy, order)
  {
    if order != null {
      var said, was := OrderValue(copy).entries, OrderValue(order).entries;
      assert copy.table.Keys == said.Keys == order.table.Keys;
      forall a | a in order.table ensures SliceValue(copy.table[a]) == SliceValue(order.table[a]) {
        assert said[a] == was[a];
      }
    }
  }

  /** The copy equals the original to the last nil exactly when no band has an empty but non-nil member list. */
  lemma ClonedIsExact(v: CombatValue)
    ensures Cloned(v) == v <==> (v.bands.Elements? ==> Elements([]) !in v.bands.elements)
  {
    if v.bands.Elements? {
      var list := v.bands.elements;
      if Elements([]) in list {
        var i :| 0 <= i < |list| && list[i] == Elements([]);
        assert AppendedBands(v.bands).elements[i] == NilSlice;
      } else {
        assert AppendedBands(v.bands).elements == list;
      }
    }
  }

  /** A band whose member list is empty but not nil comes back nil. */
  lemma EmptyBandIsLost(v: CombatValue)
    requires v.bands == Elements([Elements([])])
    ensures Cloned(v).bands == Elements([NilSlice]) && Cloned(v) != v
  {
    ClonedIsExact(v);
    var empty: Slice<ID> := Elements([]);
    assert v.bands.elements[0] == empty;
  }

  /** A state reads nothing outside its own footprint, so writes elsewhere, such as through its clone, never show. */
  twostate lemma WritesElsewhereDoNotShow(c: CombatState, footprint: set<object?>)
    requires footprint == old(c.Footprint())
    requires unchanged(footprint)
    ensures c.Footprint() == footprint
    ensures c.Value() == old(c.Value())
  {
    assert c in footprint;
    assert c.bands != null ==> c.bands in footprint;
    assert c.blockerOrder != null ==> c.blockerOrder in footprint;
    hide *;
  }

  /**
   * With disjoint footprints, as long as nothing the original reaches is written except through what the copy
   * reaches, the original keeps its value.
   */
  twostate lemma WritesThroughTheCopyDoNotShow(
    c: CombatState, clone: CombatState, originals: set<object?>, copies: set<object?>)
    requires originals == old(c.Footprint()) && copies == old(clone.Footprint()) && copies !! originals
    requires unchanged(originals - copies)
    ensures c.Value() == old(c.Value())
  {
    assert originals - copies == originals;
    assert c in originals;
    assert c.bands != null ==> c.bands in originals;
    assert c.blockerOrder != null ==> c.blockerOrder in originals;
    hide *;
  }

  /** And the other way round, for the copy's value. */
  twostate lemma WritesThroughTheOriginalDoNotShow(
    c: CombatState, clone: CombatState, originals: set<object?>, copies: set<object?>)
    requires originals == old(c.Footprint()) && copies == old(clone.Footprint()) && copies !! originals
    requires unchanged(copies - originals)
    ensures clone.Value() == old(clone.Value())
  {
    assert copies - originals == copies;
    assert clone in copies;
    assert clone.bands != null ==> clone.bands in copies;
    assert clone.blockerOrder != null ==> clone.blockerOrder in copies;
    hide *;
  }
}
