/** Claim, verify, release and block keep the invariant; nextBatch and claim fit together. */
module QueueMoves {
  import opened Collections
  import opened Text
  import opened Queue
  import opened QueueInvariant
  import opened QueueSteps

  // ----- counting the members of a batch -----

  ghost function MembersOf(records: seq<Record>, batchID: string): set<string> {
    set i | 0 <= i < |records| && records[i].batch == batchID :: records[i].oracleID
  }

  ghost function MembersIn(records: seq<Record>, batchID: string, status: Status): set<string> {
    set i | 0 <= i < |records| && InBatch(records[i], batchID, status) :: records[i].oracleID
  }

  lemma DistinctPrefix(records: seq<Record>, n: nat)
    requires Distinct(RecordIDs(records)) && n <= |records|
    ensures Distinct(RecordIDs(records[..n]))
  {
    forall i, j | 0 <= i < j < n ensures RecordIDs(records[..n])[i] != RecordIDs(records[..n])[j] {
      assert RecordIDs(records)[i] != RecordIDs(records)[j];
    }
  }

  lemma LastIsNew(records: seq<Record>)
    requires records != [] && Distinct(RecordIDs(records))
    ensures forall i | 0 <= i < |records| - 1 :: records[i].oracleID != records[|records| - 1].oracleID
  {
    assert forall i | 0 <= i < |records| :: RecordIDs(records)[i] == records[i].oracleID;
  }

  lemma MembersOfStep(records: seq<Record>, batchID: string)
    requires records != []
    ensures var last, front := records[|records| - 1], records[..|records| - 1];
            MembersOf(records, batchID) == MembersOf(front, batchID) + if last.batch == batchID then {last.oracleID} else {}
  {
    assert forall i | 0 <= i < |records| - 1 :: records[..|records| - 1][i] == records[i];
  }

  lemma NewMember(records: seq<Record>, batchID: string)
    requires records != [] && Distinct(RecordIDs(records))
    ensures records[|records| - 1].oracleID !in MembersOf(records[..|records| - 1], batchID)
  {
    LastIsNew(records);
  }

  lemma {:induction false} CountMembersIsSize(records: seq<Record>, batchID: string)
    requires Distinct(RecordIDs(records))
    ensures CountMembers(records, batchID) == |MembersOf(records, batchID)|
  {
    if records != [] {
      DistinctPrefix(records, |records| - 1);
      CountMembersIsSize(records[..|records| - 1], batchID);
      NewMember(records, batchID);
      MembersOfStep(records, batchID);
      hide MembersOf, Distinct;
    }
  }

  lemma MembersInStep(records: seq<Record>, batchID: string, status: Status)
    requires records != []
    ensures var last, front := records[|records| - 1], records[..|records| - 1];
            MembersIn(records, batchID, status) ==
            MembersIn(front, batchID, status) + if InBatch(last, batchID, status) then {last.oracleID} else {}
  {
    assert forall i | 0 <= i < |records| - 1 :: records[..|records| - 1][i] == records[i];
  }

  lemma {:induction false} CountInIsSize(records: seq<Record>, batchID: string, status: Status)
    requires Distinct(RecordIDs(records))
    ensures CountIn(records, batchID, status) == |MembersIn(records, batchID, status)|
  {
    if records != [] {
      var last, front := records[|records| - 1], records[..|records| - 1];
      DistinctPrefix(records, |records| - 1);
      CountInIsSize(front, batchID, status);
      LastIsNew(records);
      MembersInStep(records, batchID, status);
    }
  }

  lemma SomeMember(records: seq<Record>, batchID: string)
    requires CountMembers(records, batchID) > 0
    ensures exists i | 0 <= i < |records| :: records[i].batch == batchID
  {
    if records[|records| - 1].batch != batchID {
      SomeMember(records[..|records| - 1], batchID);
    }
  }

  /** The records naming a batch are exactly its declared members. */
  lemma MembersAreDeclared(records: seq<Record>, batches: seq<Batch>, k: nat)
    requires Membership(records, batches) && k < |batches|
    ensures MembersOf(records, batches[k].id) == Elements(batches[k].oracleIDs)
  {
    var id := batches[k].id;
    forall i | 0 <= i < |records| ensures records[i].batch == id <==> records[i].oracleID in batches[k].oracleIDs {
      assert MemberSound(records[i], batches);
    }
    forall member | member in batches[k].oracleIDs ensures member in MembersOf(records, id) {
      assert member in RecordIDs(records);
      var i :| 0 <= i < |records| && RecordIDs(records)[i] == member;
      assert records[i].batch == id;
    }
  }

  ghost predicate AllIn(records: seq<Record>, batchID: string, status: Status) {
    forall i | 0 <= i < |records| && records[i].batch == batchID :: records[i].status == status
  }

  /** In a valid manifest the count that nextBatch compares means every member, and there are three to five of them. */
  lemma WhollyMeansAll(q: Manifest, cards: map<string, Card>, inventory: Inventory, k: nat, status: Status)
    requires ValidOver(q, cards, inventory) && k < |q.batches|
    ensures CountMembers(q.records, q.batches[k].id) == |q.batches[k].oracleIDs|
    ensures 3 <= |q.batches[k].oracleIDs| <= 5
    ensures Wholly(q.records, q.batches[k], status) <==> AllIn(q.records, q.batches[k].id, status)
  {
    hide RecordsSound, SingleClaim, BaselineSound, Membership, RetiredSound;
    var id := q.batches[k].id;
    PartitionForms(q.records, q.baseline, cards);
    MembersAreDeclared(q.records, q.batches, k);
    CountMembersIsSize(q.records, id);
    CountInIsSize(q.records, id, status);
    assert BatchWellFormed(q.batches[k]);
    DistinctSize(q.batches[k].oracleIDs);
    SubsetSize(MembersIn(q.records, id, status), MembersOf(q.records, id));
    AllInIsSets(q.records, id, status);
  }

  lemma AllInIsSets(records: seq<Record>, batchID: string, status: Status)
    requires Distinct(RecordIDs(records))
    ensures AllIn(records, batchID, status) <==> MembersIn(records, batchID, status) == MembersOf(records, batchID)
  {
    assert forall i | 0 <= i < |records| :: RecordIDs(records)[i] == records[i].oracleID;
    if MembersIn(records, batchID, status) == MembersOf(records, batchID) {
      forall i | 0 <= i < |records| && records[i].batch == batchID ensures records[i].status == status {
        assert records[i].oracleID in MembersOf(records, batchID);
        var j :| 0 <= j < |records| && InBatch(records[j], batchID, status) && records[j].oracleID == records[i].oracleID;
      }
    }
  }

  // ----- one claim at a time -----

  /** A claimed record sits in a saved batch, all of which is claimed. */
  lemma ClaimIsWhole(q: Manifest, cards: map<string, Card>, inventory: Inventory, i: nat) returns (k: nat)
    requires ValidOver(q, cards, inventory) && i < |q.records| && q.records[i].status.Claimed?
    ensures k < |q.batches| && q.batches[k].id == q.records[i].batch
    ensures AllIn(q.records, q.batches[k].id, Claimed)
  {
    assert RecordSound(q.records[i], cards, inventory) && MemberSound(q.records[i], q.batches);
    k :| 0 <= k < |q.batches| && BatchIDs(q.batches)[k] == q.records[i].batch;
  }

  /** Claims before an allowed claim already belong to the same owner and batch. */
  lemma ClaimsBeforeClaim(q: Manifest, m: Move, cards: map<string, Card>, inventory: Inventory)
    requires ValidOver(q, cards, inventory) && MoveAllowed(q, m, inventory) && m.operation.Claim?
    ensures forall i | 0 <= i < |q.records| && q.records[i].status.Claimed? ::
              q.records[i].owner == m.owner && q.records[i].batch == m.batchID
  {
    var b :| IsNext(q, m.owner, Offered(b)) && b.id == m.batchID;
    forall i | 0 <= i < |q.records| && q.records[i].status.Claimed?
      ensures q.records[i].owner == m.owner && q.records[i].batch == m.batchID
    {
      hide ValidOver;
      assert !HeldByOther(q.records[i], m.owner);
      var k := ClaimIsWhole(q, cards, inventory, i);
      WhollyMeansAll(q, cards, inventory, k, Claimed);
      assert Offerable(q.records, q.batches[k], Claimed);
      var l: nat :| FirstAt(q, l, Claimed) && q.batches[l] == b;
      WhollyMeansAll(q, cards, inventory, l, Claimed);
      SomeMember(q.records, b.id);
      var j :| 0 <= j < |q.records| && q.records[j].batch == b.id;
      assert SingleClaim(q.records) by {
        ValidClaims(q, cards, inventory);
      }
      assert q.records[j].status.Claimed?;
    }
  }

  lemma ValidClaims(q: Manifest, cards: map<string, Card>, inventory: Inventory)
    requires ValidOver(q, cards, inventory)
    ensures SingleClaim(q.records)
  {
  }

  /** After any allowed move, all claims still belong to one owner and one wholly claimed batch. */
  lemma MoveKeepsSingleClaim(q: Manifest, m: Move, cards: map<string, Card>, inventory: Inventory)
    requires ValidOver(q, cards, inventory) && MoveAllowed(q, m, inventory)
    ensures SingleClaim(AfterMove(q, m, inventory).records)
  {
    hide ValidOver, OffersBatch, CountMembers;
    ValidClaims(q, cards, inventory);
    if m.operation.Claim? {
      ClaimsBeforeClaim(q, m, cards, inventory);
      hide SingleClaim;
      ClaimIsSingle(q.records, m, inventory);
    } else {
      SomeMember(q.records, m.batchID);
      hide SingleClaim;
      GivenUpIsSingle(q.records, m, inventory);
    }
  }

  lemma ClaimIsSingle(records: seq<Record>, m: Move, inventory: Inventory)
    requires m.operation.Claim?
    requires forall i | 0 <= i < |records| && records[i].status.Claimed? :: records[i].owner == m.owner && records[i].batch == m.batchID
    ensures SingleClaim(seq(|records|, i requires 0 <= i < |records| => Moved(m, records[i], inventory)))
  {
  }

  /** All claims were on the batch that is given up, so none is left. */
  lemma GivenUpIsSingle(records: seq<Record>, m: Move, inventory: Inventory)
    requires MoveFormed(m) && !m.operation.Claim? && SingleClaim(records)
    requires forall i | 0 <= i < |records| && records[i].batch == m.batchID :: Movable(m, records[i], inventory)
    requires exists i | 0 <= i < |records| :: records[i].batch == m.batchID
    ensures SingleClaim(seq(|records|, i requires 0 <= i < |records| => Moved(m, records[i], inventory)))
  {
    var b :| 0 <= b < |records| && records[b].batch == m.batchID;
    assert Movable(m, records[b], inventory) && records[b].status.Claimed?;
    forall i | 0 <= i < |records| ensures !Moved(m, records[i], inventory).status.Claimed? {
      if records[i].status.Claimed? {
        assert records[i].batch == records[b].batch;
      }
    }
  }

  /** A move keeps identities, batches and families, so it keeps everything that depends only on them. */
  lemma MoveKeepsTables(q: Manifest, m: Move, cards: map<string, Card>, inventory: Inventory)
    requires Partition(q.records, q.baseline, cards) && Membership(q.records, q.batches)
    ensures Partition(AfterMove(q, m, inventory).records, q.baseline, cards)
    ensures Membership(AfterMove(q, m, inventory).records, q.batches)
  {
    assert RecordIDs(AfterMove(q, m, inventory).records) == RecordIDs(q.records);
    hide Partition;
    forall i | 0 <= i < |q.records| ensures MemberSound(AfterMove(q, m, inventory).records[i], q.batches) {
      assert MemberSound(q.records[i], q.batches);
    }
  }

  /** The inventory's word on one moved record. */
  lemma MovedRecordSound(m: Move, r: Record, cards: map<string, Card>, inventory: Inventory)
    requires RecordSound(r, cards, inventory) && MoveFormed(m)
    requires r.batch == m.batchID ==> Movable(m, r, inventory)
    ensures RecordSound(Moved(m, r, inventory), cards, inventory) <==>
              (r.batch == m.batchID && (m.operation.Release? || m.operation.Block?) ==> r.oracleID in Backlog(inventory))
  {
    if r.batch == m.batchID && m.operation.Verify? {
      VerificationIsVerified(inventory.production, r.oracleID);
    }
  }

  ghost predicate MembersInBacklog(q: Manifest, batchID: string, inventory: Inventory) {
    forall i | 0 <= i < |q.records| && q.records[i].batch == batchID :: q.records[i].oracleID in Backlog(inventory)
  }

  /**
   * An allowed claim or verification leaves a valid manifest; an allowed release or block does so exactly when
   * every member of the batch is still in the backlog.
   */
  lemma MoveKeepsValid(q: Manifest, m: Move, cards: map<string, Card>, inventory: Inventory)
    requires ValidOver(q, cards, inventory) && MoveAllowed(q, m, inventory)
    ensures ValidOver(AfterMove(q, m, inventory), cards, inventory) <==>
              (m.operation.Release? || m.operation.Block? ==> MembersInBacklog(q, m.batchID, inventory))
  {
    MoveKeepsSingleClaim(q, m, cards, inventory);
    MoveKeepsTables(q, m, cards, inventory);
    hide RecordSound, Partition, Membership, SingleClaim, BaselineSound, RetiredSound, BatchesSound, Moved, Movable, MoveFormed;
    var q' := AfterMove(q, m, inventory);
    forall i | 0 <= i < |q.records|
      ensures RecordSound(q'.records[i], cards, inventory) <==>
                (q.records[i].batch == m.batchID && (m.operation.Release? || m.operation.Block?) ==>
                   q.records[i].oracleID in Backlog(inventory))
    {
      MovedRecordSound(m, q.records[i], cards, inventory);
    }
  }

  // ----- nextBatch and claim -----

  /**
   * On a valid manifest, an offered batch can be claimed exactly by naming an owner; the claim makes the batch the
   * only answer that owner gets, and everybody else is refused.
   */
  lemma OfferedIsClaimable(q: Manifest, owner: string, b: Batch, cards: map<string, Card>, inventory: Inventory)
    requires ValidOver(q, cards, inventory) && IsNext(q, owner, Offered(b))
    ensures var m := Move(Claim, b.id, owner, 0, "");
            && (MoveAllowed(q, m, inventory) <==> !IsBlank(owner))
            && (!IsBlank(owner) ==> IsNext(AfterMove(q, m, inventory), owner, Offered(b)))
            && (!IsBlank(owner) ==> forall other | other != owner :: HeldElsewhere(AfterMove(q, m, inventory), other))
  {
    var m := Move(Claim, b.id, owner, 0, "");
    var k, status := OfferedWholly(q, owner, b, cards, inventory);
    assert OffersBatch(q, owner, b.id);
    forall i | 0 <= i < |q.records| && q.records[i].batch == b.id ensures Movable(m, q.records[i], inventory) {
      assert !HeldByOther(q.records[i], owner);
    }
    if !IsBlank(owner) {
      ClaimedIsNext(q, m, k, cards, inventory);
    }
  }

  lemma OfferedWholly(q: Manifest, owner: string, b: Batch, cards: map<string, Card>, inventory: Inventory)
    returns (k: nat, status: Status)
    requires ValidOver(q, cards, inventory) && IsNext(q, owner, Offered(b))
    ensures k < |q.batches| && q.batches[k] == b && b.id != ""
    ensures (status.Claimed? || status.Unclaimed?) && AllIn(q.records, b.id, status)
    ensures 3 <= CountMembers(q.records, b.id) <= 5
    ensures !HeldElsewhere(q, owner)
  {
    if FirstIs(q, b, Claimed) {
      status := Claimed;
      k :| FirstAt(q, k, Claimed) && q.batches[k] == b;
    } else {
      status := Unclaimed;
      k :| FirstAt(q, k, Unclaimed) && q.batches[k] == b;
    }
    WhollyMeansAll(q, cards, inventory, k, status);
    assert BatchWellFormed(q.batches[k]);
  }

  /** After a claim, every claimed record belongs to the claimed batch and its owner. */
  lemma ClaimsAfterClaim(q: Manifest, m: Move, cards: map<string, Card>, inventory: Inventory)
    requires ValidOver(q, cards, inventory) && MoveAllowed(q, m, inventory) && m.operation.Claim?
    ensures var records := AfterMove(q, m, inventory).records;
            && AllIn(records, m.batchID, Claimed)
            && (forall i | 0 <= i < |records| && records[i].status.Claimed? ::
                  records[i].owner == m.owner && records[i].batch == m.batchID)
            && exists i | 0 <= i < |records| :: records[i].batch == m.batchID && records[i].status.Claimed?
  {
    hide ValidOver, OffersBatch, Movable, CountMembers;
    ClaimsBeforeClaim(q, m, cards, inventory);
    SomeMember(q.records, m.batchID);
    var i :| 0 <= i < |q.records| && q.records[i].batch == m.batchID;
    assert AfterMove(q, m, inventory).records[i].status.Claimed?;
  }

  /** No other batch is wholly claimed, since a batch is not empty. */
  lemma OnlyWholeClaim(q: Manifest, k: nat, l: nat, cards: map<string, Card>, inventory: Inventory)
    requires ValidOver(q, cards, inventory) && k < |q.batches| && l < |q.batches| && l != k
    requires forall i | 0 <= i < |q.records| && q.records[i].status.Claimed? :: q.records[i].batch == q.batches[k].id
    ensures !Wholly(q.records, q.batches[l], Claimed)
  {
    WhollyMeansAll(q, cards, inventory, l, Claimed);
    SomeMember(q.records, q.batches[l].id);
    assert BatchIDs(q.batches)[l] != BatchIDs(q.batches)[k];
  }

  /** The batch just claimed is the first wholly claimed one, because it is the only one. */
  lemma ClaimedIsNext(q: Manifest, m: Move, k: nat, cards: map<string, Card>, inventory: Inventory)
    requires ValidOver(q, cards, inventory) && MoveAllowed(q, m, inventory) && m.operation.Claim?
    requires k < |q.batches| && q.batches[k].id == m.batchID
    ensures IsNext(AfterMove(q, m, inventory), m.owner, Offered(q.batches[k]))
    ensures forall other | other != m.owner :: HeldElsewhere(AfterMove(q, m, inventory), other)
  {
    hide ValidOver, MoveAllowed, Moved, AllIn;
    MoveKeepsValid(q, m, cards, inventory);
    ClaimsAfterClaim(q, m, cards, inventory);
    var q' := AfterMove(q, m, inventory);
    WhollyMeansAll(q', cards, inventory, k, Claimed);
    forall l | 0 <= l < k ensures !Offerable(q'.records, q'.batches[l], Claimed) {
      OnlyWholeClaim(q', k, l, cards, inventory);
    }
    assert FirstAt(q', k, Claimed);
    var i :| 0 <= i < |q'.records| && q'.records[i].batch == m.batchID && q'.records[i].status.Claimed?;
    assert forall other | other != m.owner :: HeldByOther(q'.records[i], other);
  }
}
