/** The reviewed continuation steps keep the invariant, unconditionally. */
module QueuePlans {
  import opened Collections
  import opened Text
  import opened Queue
  import opened QueueInvariant
  import opened QueueSteps

  /** On records without repetition, a fitting plan edits exactly the records it names. */
  ghost predicate EditsNamed(
    records: seq<Record>, edited: seq<Record>, candidates: seq<ReviewedRecord>, acceptable: ReviewedRecord -> bool,
    fits: (Record, ReviewedRecord) -> bool, edit: (Record, ReviewedRecord) -> Record)
  {
    && |edited| == |records|
    && forall i | 0 <= i < |records| ::
         if Names(candidates, records[i].oracleID) then
           exists c: ReviewedRecord ::
             edited[i] == edit(records[i], c) && acceptable(c) && fits(records[i], c) && c.oracleID == records[i].oracleID
         else edited[i] == records[i]
  }

  lemma FindInDistinct(records: seq<Record>, i: nat)
    requires Distinct(RecordIDs(records)) && i < |records|
    ensures Find(records, records[i].oracleID) == i
  {
    assert forall j | 0 <= j < |records| :: RecordIDs(records)[j] == records[j].oracleID;
  }

  lemma PlanEditsNamed(
    records: seq<Record>, candidates: seq<ReviewedRecord>, acceptable: ReviewedRecord -> bool,
    fits: (Record, ReviewedRecord) -> bool, edit: (Record, ReviewedRecord) -> Record)
    requires Distinct(RecordIDs(records))
    requires CandidatesFit(records, candidates, acceptable, fits)
    ensures EditsNamed(records, Edited(records, candidates, edit), candidates, acceptable, fits, edit)
  {
    forall i | 0 <= i < |records| && Names(candidates, records[i].oracleID)
      ensures exists c: ReviewedRecord ::
                && Edited(records, candidates, edit)[i] == edit(records[i], c)
                && acceptable(c) && fits(records[i], c) && c.oracleID == records[i].oracleID
    {
      FindInDistinct(records, i);
      var n :| 0 <= n < |candidates| && candidates[n].oracleID == records[i].oracleID
               && CandidateFor(candidates, records[i].oracleID) == candidates[n];
    }
  }

  ghost predicate SameTables(records: seq<Record>, edited: seq<Record>) {
    && |edited| == |records|
    && forall i | 0 <= i < |records| ::
         && edited[i].oracleID == records[i].oracleID
         && edited[i].batch == records[i].batch && edited[i].family == records[i].family
  }

  /** Replacing records by sound ones of the same identity and batch, none claimed, keeps the invariant. */
  lemma ReplacedIsValid(q: Manifest, edited: seq<Record>, cards: map<string, Card>, inventory: Inventory)
    requires ValidOver(q, cards, inventory)
    requires SameTables(q.records, edited) && NoClaims(edited)
    requires RecordsSound(edited, cards, inventory)
    ensures ValidOver(q.(records := edited), cards, inventory)
  {
    assert RecordIDs(edited) == RecordIDs(q.records);
    hide Partition, RecordsSound, RetiredSound, BatchesSound, BaselineSound;
    forall i | 0 <= i < |edited| ensures MemberSound(edited[i], q.batches) {
      assert MemberSound(q.records[i], q.batches);
    }
  }

  lemma ValidIDs(q: Manifest, cards: map<string, Card>, inventory: Inventory)
    requires ValidOver(q, cards, inventory)
    ensures Distinct(RecordIDs(q.records))
  {
    PartitionForms(q.records, q.baseline, cards);
  }

  // ----- record-blockers and reassess -----

  lemma BlockedIsSound(r: Record, c: ReviewedRecord, cards: map<string, Card>, inventory: Inventory)
    requires RecordSound(r, cards, inventory) && r.status.Unclaimed? && c.blocker > 0 && !IsBlank(c.reason)
    ensures RecordSound(MarkBlocked(r, c), cards, inventory)
  {
  }

  lemma BlockersKeepValid(q: Manifest, candidates: seq<ReviewedRecord>, cards: map<string, Card>, inventory: Inventory)
    requires ValidOver(q, cards, inventory) && NoClaims(q.records) && BlockersAllowed(q, candidates)
    ensures ValidOver(AfterBlockers(q, candidates), cards, inventory)
  {
    ValidIDs(q, cards, inventory);
    PlanEditsNamed(q.records, candidates, TriagedBlocker, ExactAndFree, MarkBlocked);
    var edited := AfterBlockers(q, candidates).records;
    hide ValidOver, RecordSound, Edited, CandidatesFit;
    forall i | 0 <= i < |q.records| ensures RecordSound(edited[i], cards, inventory) {
      EachSound(q, cards, inventory, i);
      if Names(candidates, q.records[i].oracleID) {
        var c: ReviewedRecord :| edited[i] == MarkBlocked(q.records[i], c) && TriagedBlocker(c) && ExactAndFree(q.records[i], c);
        BlockedIsSound(q.records[i], c, cards, inventory);
      }
    }
    ReplacedIsValid(q, edited, cards, inventory);
  }

  lemma EachSound(q: Manifest, cards: map<string, Card>, inventory: Inventory, i: nat)
    requires ValidOver(q, cards, inventory) && i < |q.records|
    ensures RecordSound(q.records[i], cards, inventory) && MemberSound(q.records[i], q.batches)
  {
  }

  lemma ReopenedIsSound(r: Record, c: ReviewedRecord, cards: map<string, Card>, inventory: Inventory)
    requires RecordSound(r, cards, inventory) && ReassessmentFits(r, c)
    ensures RecordSound(Reopen(r, c), cards, inventory)
  {
  }

  lemma ReassessKeepsValid(q: Manifest, candidates: seq<ReviewedRecord>, cards: map<string, Card>, inventory: Inventory)
    requires ValidOver(q, cards, inventory) && NoClaims(q.records) && ReassessAllowed(q, candidates)
    ensures ValidOver(AfterReassess(q, candidates), cards, inventory)
  {
    ValidIDs(q, cards, inventory);
    PlanEditsNamed(q.records, candidates, PlainReassessment, ReassessmentFits, Reopen);
    var edited := AfterReassess(q, candidates).records;
    hide ValidOver, RecordSound, Edited, CandidatesFit;
    forall i | 0 <= i < |q.records| ensures RecordSound(edited[i], cards, inventory) {
      EachSound(q, cards, inventory, i);
      if Names(candidates, q.records[i].oracleID) {
        var c: ReviewedRecord :| edited[i] == Reopen(q.records[i], c) && ReassessmentFits(q.records[i], c);
        ReopenedIsSound(q.records[i], c, cards, inventory);
      }
    }
    ReplacedIsValid(q, edited, cards, inventory);
  }

  // ----- add-reviewed-batch -----

  /** Pigeonhole: as many distinct candidates as members, all of them members, name every member. */
  lemma EveryMemberNamed(b: Batch, candidates: seq<ReviewedRecord>)
    requires Distinct(CandidateIDs(candidates)) && Distinct(b.oracleIDs) && |candidates| == |b.oracleIDs|
    requires forall c | 0 <= c < |candidates| :: PlainMember(b, candidates[c])
    ensures forall id :: id in b.oracleIDs <==> Names(candidates, id)
  {
    var ids := CandidateIDs(candidates);
    assert forall c | 0 <= c < |candidates| :: ids[c] == candidates[c].oracleID;
    Pigeonhole(ids, b.oracleIDs);
    forall id | id in b.oracleIDs ensures Names(candidates, id) {
      assert id in ids;
    }
  }

  lemma AddedBatchesSound(q: Manifest, b: Batch, cards: map<string, Card>)
    requires BatchesSound(q.batches, q.retired)
    requires BatchWellFormed(b) && b.id !in BatchIDs(q.batches) && b.id !in BatchIDs(q.retired)
    requires forall k, id | 0 <= k < |q.batches| && id in b.oracleIDs :: id !in q.batches[k].oracleIDs
    ensures BatchesSound(q.batches + [b], q.retired)
  {
    hide BatchWellFormed;
    assert BatchIDs(q.batches + [b]) == BatchIDs(q.batches) + [b.id];
  }

  ghost predicate Assigned(r: Record, edited: Record, b: Batch) {
    if r.oracleID in b.oracleIDs then r.batch == "" && edited == r.(batch := b.id, family := b.family)
    else edited == r
  }

  lemma AssignedMember(r: Record, edited: Record, b: Batch, batches: seq<Batch>)
    requires MemberSound(r, batches) && Assigned(r, edited, b)
    requires b.id != "" && b.id !in BatchIDs(batches)
    requires forall k | 0 <= k < |batches| :: batches[k].id != ""
    ensures MemberSound(edited, batches + [b])
  {
    assert BatchIDs(batches + [b]) == BatchIDs(batches) + [b.id];
    assert forall k | 0 <= k < |batches| :: BatchIDs(batches)[k] == batches[k].id != b.id;
    assert (batches + [b])[|batches|] == b;
    forall k | 0 <= k < |batches| + 1
      ensures edited.batch == (batches + [b])[k].id <==> edited.oracleID in (batches + [b])[k].oracleIDs
    {
      if k < |batches| {
        assert (batches + [b])[k] == batches[k];
      }
    }
  }

  lemma AddKeepsValid(q: Manifest, batchID: string, plan: Plan, cards: map<string, Card>, inventory: Inventory)
    requires ValidOver(q, cards, inventory) && NoClaims(q.records) && AddAllowed(q, batchID, plan)
    ensures ValidOver(AfterAdd(q, plan.batches[0], plan.records), cards, inventory)
  {
    var b := plan.batches[0];
    ValidIDs(q, cards, inventory);
    ValidBatches(q, cards, inventory);
    hide ValidOver, BatchWellFormed, Edited, EditsNamed, NoClaims, ExactAndFree, Assign, BatchesSound, Distinct;
    EveryMemberNamed(b, plan.records);
    hide CandidatesFit, PlainMember;
    PlanEditsNamed(q.records, plan.records, Joining(b), ExactAndFree, Assign(b));
    AddedBatchesSound(q, b, cards);
    MembersHaveRecords(q, b, plan.records);
    var q' := AfterAdd(q, b, plan.records);
    AddedRecords(q, q', b, plan.records, cards, inventory);
    AddedIsValid(q, q', b, cards, inventory);
  }

  lemma ValidBatches(q: Manifest, cards: map<string, Card>, inventory: Inventory)
    requires ValidOver(q, cards, inventory)
    ensures BatchesSound(q.batches, q.retired)
  {
  }

  /** Sound records of the same identities and a sound batch more make a valid queue. */
  lemma AddedIsValid(q: Manifest, q': Manifest, b: Batch, cards: map<string, Card>, inventory: Inventory)
    requires ValidOver(q, cards, inventory) && q' == q.(records := q'.records, batches := q.batches + [b])
    requires BatchesSound(q'.batches, q.retired) && NoClaims(q'.records) && |q'.records| == |q.records|
    requires forall id | id in b.oracleIDs :: id in RecordIDs(q.records)
    requires forall i | 0 <= i < |q.records| ::
               && q'.records[i].oracleID == q.records[i].oracleID
               && RecordSound(q'.records[i], cards, inventory) && MemberSound(q'.records[i], q'.batches)
    ensures ValidOver(q', cards, inventory)
  {
    hide RecordSound, MemberSound, BaselineSound, BatchesSound, RetiredSound, Distinct, Elements;
    assert RecordIDs(q'.records) == RecordIDs(q.records);
    forall k, id | 0 <= k < |q'.batches| && id in q'.batches[k].oracleIDs ensures id in RecordIDs(q'.records) {
      if k < |q.batches| {
        assert q'.batches[k] == q.batches[k];
      }
    }
  }

  lemma MembersHaveRecords(q: Manifest, b: Batch, candidates: seq<ReviewedRecord>)
    requires CandidatesFit(q.records, candidates, Joining(b), ExactAndFree)
    requires forall id | id in b.oracleIDs :: Names(candidates, id)
    ensures forall id | id in b.oracleIDs :: id in RecordIDs(q.records)
  {
    forall id | id in b.oracleIDs ensures id in RecordIDs(q.records) {
      var k := Find(q.records, id);
      assert RecordIDs(q.records)[k] == id;
    }
  }

  lemma AddedRecords(
    q: Manifest, q': Manifest, b: Batch, candidates: seq<ReviewedRecord>, cards: map<string, Card>, inventory: Inventory)
    requires ValidOver(q, cards, inventory) && NoClaims(q.records)
    requires BatchWellFormed(b) && b.id !in BatchIDs(q.batches)
    requires forall id :: id in b.oracleIDs <==> Names(candidates, id)
    requires EditsNamed(q.records, q'.records, candidates, Joining(b), ExactAndFree, Assign(b))
    ensures NoClaims(q'.records)
    ensures forall i | 0 <= i < |q.records| ::
              && q'.records[i].oracleID == q.records[i].oracleID
              && RecordSound(q'.records[i], cards, inventory) && MemberSound(q'.records[i], q.batches + [b])
  {
    BatchIDsNamed(q, b, cards, inventory);
    hide ValidOver, BatchWellFormed, RecordSound, MemberSound, Assigned;
    forall i | 0 <= i < |q.records|
      ensures q'.records[i].oracleID == q.records[i].oracleID && !q'.records[i].status.Claimed?
      ensures RecordSound(q'.records[i], cards, inventory) && MemberSound(q'.records[i], q.batches + [b])
    {
      EachSound(q, cards, inventory, i);
      AssignedByName(q.records[i], q'.records[i], b, candidates);
      AssignedIsSound(q.records[i], q'.records[i], b, cards, inventory);
      AssignedMember(q.records[i], q'.records[i], b, q.batches);
    }
  }

  lemma BatchIDsNamed(q: Manifest, b: Batch, cards: map<string, Card>, inventory: Inventory)
    requires ValidOver(q, cards, inventory) && BatchWellFormed(b)
    ensures b.id != "" && forall k | 0 <= k < |q.batches| :: q.batches[k].id != ""
  {
    assert forall k | 0 <= k < |q.batches| :: BatchWellFormed(q.batches[k]);
  }

  /** A named record is assigned the batch; any other stays. */
  lemma AssignedByName(r: Record, edited: Record, b: Batch, candidates: seq<ReviewedRecord>)
    requires if Names(candidates, r.oracleID) then exists c: ReviewedRecord :: edited == Assign(b)(r, c) && ExactAndFree(r, c)
             else edited == r
    requires r.oracleID in b.oracleIDs <==> Names(candidates, r.oracleID)
    ensures Assigned(r, edited, b)
  {
    if Names(candidates, r.oracleID) {
      var c: ReviewedRecord :| edited == Assign(b)(r, c) && ExactAndFree(r, c);
    }
  }

  lemma AssignedIsSound(r: Record, edited: Record, b: Batch, cards: map<string, Card>, inventory: Inventory)
    requires RecordSound(r, cards, inventory) && Assigned(r, edited, b) && !r.status.Claimed?
    ensures RecordSound(edited, cards, inventory) && edited.oracleID == r.oracleID && !edited.status.Claimed?
  {
  }

  // ----- record-prerequisites -----

  lemma EvidenceExtends(saved: seq<Evidence>, added: seq<Evidence>, prerequisites: seq<int>)
    requires EvidenceFits(saved, prerequisites) && EvidenceFits(added, prerequisites)
    requires forall i, j | 0 <= i < |saved| && 0 <= j < |added| :: saved[i].issue != added[j].issue
    ensures EvidenceFits(saved + added, prerequisites)
  {
    assert Issues(saved + added) == Issues(saved) + Issues(added);
    assert forall i | 0 <= i < |saved| :: Issues(saved)[i] == saved[i].issue;
    assert forall j | 0 <= j < |added| :: Issues(added)[j] == added[j].issue;
    DistinctConcat(Issues(saved), Issues(added));
  }

  /** A batch whose evidence changed is the same batch to the records and to the other batches. */
  lemma ReplacedBatchSound(batches: seq<Batch>, retired: seq<Batch>, k: nat, b: Batch)
    requires BatchesSound(batches, retired) && k < |batches|
    requires b.(evidence := []) == batches[k].(evidence := []) && BatchWellFormed(b)
    ensures BatchesSound(batches[k := b], retired)
  {
    hide BatchWellFormed;
    assert b.id == batches[k].(evidence := []).id && b.oracleIDs == batches[k].(evidence := []).oracleIDs;
    assert BatchIDs(batches[k := b]) == BatchIDs(batches);
  }

  lemma ReplacedBatchMembers(records: seq<Record>, batches: seq<Batch>, k: nat, b: Batch)
    requires Membership(records, batches) && k < |batches|
    requires b.(evidence := []) == batches[k].(evidence := [])
    ensures Membership(records, batches[k := b])
  {
    assert b.id == batches[k].(evidence := []).id && b.oracleIDs == batches[k].(evidence := []).oracleIDs
           && b.family == batches[k].(evidence := []).family;
    assert BatchIDs(batches[k := b]) == BatchIDs(batches);
    forall i | 0 <= i < |records| ensures MemberSound(records[i], batches[k := b]) {
      assert MemberSound(records[i], batches);
    }
  }

  lemma PrerequisitesKeepValid(q: Manifest, batchID: string, plan: Plan, cards: map<string, Card>, inventory: Inventory)
    requires ValidOver(q, cards, inventory) && PrerequisitesAllowed(q, batchID, plan)
    ensures ValidOver(AfterPrerequisites(q, batchID, plan.batches[0].evidence), cards, inventory)
  {
    var k, added := FindBatch(q.batches, batchID), plan.batches[0];
    var saved := q.batches[k];
    assert saved.prerequisites == saved.(evidence := []).prerequisites == added.(evidence := []).prerequisites;
    assert BatchWellFormed(saved);
    EvidenceExtends(saved.evidence, added.evidence, saved.prerequisites);
    var b := saved.(evidence := saved.evidence + added.evidence);
    assert BatchWellFormed(b);
    ReplacedBatchSound(q.batches, q.retired, k, b);
    ReplacedBatchMembers(q.records, q.batches, k, b);
  }

  // ----- retire-batch -----

  ghost predicate Retired(r: Record, edited: Record, b: Batch) {
    if r.batch == b.id then
      || edited == r.(batch := "")
      || exists c: ReviewedRecord ::
           edited == MarkBlocked(r.(batch := ""), c) && c.blocker > 0 && !IsBlank(c.reason)
    else edited == r
  }

  lemma RetiredRecordSound(r: Record, edited: Record, b: Batch, cards: map<string, Card>, inventory: Inventory)
    requires RecordSound(r, cards, inventory) && Retired(r, edited, b) && (r.batch == b.id ==> r.status.Unclaimed?)
    ensures RecordSound(edited, cards, inventory)
    ensures edited.oracleID == r.oracleID
    ensures edited.batch == (if r.batch == b.id then "" else r.batch) && edited.family == r.family
    ensures edited.status.Claimed? ==> r.status.Claimed?
  {
  }

  /** Every record of the retired batch was detached, and the plan blocked some of them. */
  lemma RetiredRecords(q: Manifest, batchID: string, plan: Plan, cards: map<string, Card>, inventory: Inventory)
    requires ValidOver(q, cards, inventory) && RetireAllowed(q, batchID, plan)
    ensures var b := q.batches[FindBatch(q.batches, batchID)];
            var edited := AfterRetire(q, batchID, plan.records).records;
            |edited| == |q.records| && forall i | 0 <= i < |q.records| :: Retired(q.records[i], edited[i], b)
  {
    var k := FindBatch(q.batches, batchID);
    var b, detached := q.batches[k], Detached(q.records, batchID);
    var edited := AfterRetire(q, batchID, plan.records).records;
    ValidIDs(q, cards, inventory);
    assert RecordIDs(detached) == RecordIDs(q.records);
    forall id ensures Find(detached, id) == Find(q.records, id) {
      SameFind(detached, q.records, id);
    }
    PlanEditsNamed(detached, plan.records, AffectedBy(b), ExactRecord, MarkBlocked);
    hide ValidOver, RetireAllowed, AfterRetire, Edited, CandidatesFit, Retired, MemberSound, Distinct, RecordSound;
    forall i | 0 <= i < |q.records| ensures Retired(q.records[i], edited[i], b) {
      EachSound(q, cards, inventory, i);
      RetiredRecord(q.records[i], edited[i], q.batches, k, plan.records);
    }
  }

  /** A named member is blocked, any other member only detached. */
  lemma RetiredRecord(r: Record, edited: Record, batches: seq<Batch>, k: nat, candidates: seq<ReviewedRecord>)
    requires k < |batches| && MemberSound(r, batches)
    requires var detached := if r.batch == batches[k].id then r.(batch := "") else r;
             if Names(candidates, r.oracleID) then
               exists c: ReviewedRecord ::
                 edited == MarkBlocked(detached, c) && AffectedMember(batches[k], c) && ExactRecord(detached, c)
                 && c.oracleID == detached.oracleID
             else edited == detached
    ensures Retired(r, edited, batches[k])
  {
  }

  lemma SameFind(one: seq<Record>, other: seq<Record>, id: string)
    requires RecordIDs(one) == RecordIDs(other)
    ensures Find(one, id) == Find(other, id)
  {
    assert |one| == |RecordIDs(one)| == |other|;
    assert forall i | 0 <= i < |one| :: RecordIDs(one)[i] == one[i].oracleID;
    assert forall i | 0 <= i < |one| :: RecordIDs(other)[i] == other[i].oracleID;
  }

  lemma RetiredTables(q: Manifest, k: nat, cards: map<string, Card>)
    requires k < |q.batches|
    requires RetiredSound(q.retired, cards) && BatchesSound(q.batches, q.retired)
    requires forall id | id in q.batches[k].oracleIDs :: id in cards
    ensures RetiredSound(q.retired + [q.batches[k]], cards)
    ensures BatchesSound(Without(q.batches, k), q.retired + [q.batches[k]])
  {
    var b, rest, retired := q.batches[k], Without(q.batches, k), q.retired + [q.batches[k]];
    assert BatchIDs(retired) == BatchIDs(q.retired) + [b.id];
    assert BatchIDs(rest) == Without(BatchIDs(q.batches), k);
    assert forall i | 0 <= i < |q.batches| :: BatchIDs(q.batches)[i] == q.batches[i].id;
    hide BatchWellFormed;
    forall i | 0 <= i < |rest| ensures rest[i] == q.batches[if i < k then i else i + 1] {
    }
    forall i, id | 0 <= i < |retired| && id in retired[i].oracleIDs ensures id in cards {
      if i < |q.retired| {
        assert retired[i] == q.retired[i];
      }
    }
  }

  lemma DetachedMember(r: Record, edited: Record, batches: seq<Batch>, k: nat)
    requires k < |batches| && MemberSound(r, batches)
    requires edited.oracleID == r.oracleID && edited.family == r.family
    requires edited.batch == if r.batch == batches[k].id then "" else r.batch
    requires forall j | 0 <= j < |batches| :: batches[j].id != ""
    requires forall j | 0 <= j < |batches| && j != k :: batches[j].id != batches[k].id
    ensures MemberSound(edited, Without(batches, k))
  {
    var rest := Without(batches, k);
    forall j | 0 <= j < |rest| ensures rest[j] == batches[if j < k then j else j + 1] {
    }
    if edited.batch != "" {
      var j :| 0 <= j < |batches| && BatchIDs(batches)[j] == r.batch;
      assert BatchIDs(rest)[if j < k then j else j - 1] == r.batch;
    }
  }

  lemma RetireKeepsValid(q: Manifest, batchID: string, plan: Plan, cards: map<string, Card>, inventory: Inventory)
    requires ValidOver(q, cards, inventory) && NoClaims(q.records) && RetireAllowed(q, batchID, plan)
    ensures ValidOver(AfterRetire(q, batchID, plan.records), cards, inventory)
  {
    var k := FindBatch(q.batches, batchID);
    var q' := AfterRetire(q, batchID, plan.records);
    RetiredRecords(q, batchID, plan, cards, inventory);
    MembersInCorpus(q, k, cards, inventory);
    RetiredTables(q, k, cards);
    FreshIDs(q, k, cards, inventory);
    ValidBatches(q, cards, inventory);
    assert forall i | 0 <= i < |q.records| && q.records[i].batch == q.batches[k].id :: q.records[i].status == Unclaimed;
    hide ValidOver, RetireAllowed, RecordSound, BatchWellFormed, CandidatesFit, Edited, BatchesSound, RetiredSound, MemberSound, Retired;
    forall i | 0 <= i < |q.records|
      ensures q'.records[i].oracleID == q.records[i].oracleID && !q'.records[i].status.Claimed?
      ensures RecordSound(q'.records[i], cards, inventory) && MemberSound(q'.records[i], q'.batches)
    {
      EachSound(q, cards, inventory, i);
      RetiredRecordSound(q.records[i], q'.records[i], q.batches[k], cards, inventory);
      DetachedMember(q.records[i], q'.records[i], q.batches, k);
    }
    RetiredIsValid(q, q', k, cards, inventory);
  }

  /** Sound records of the same identities and one sound batch less make a valid queue. */
  lemma RetiredIsValid(q: Manifest, q': Manifest, k: nat, cards: map<string, Card>, inventory: Inventory)
    requires ValidOver(q, cards, inventory) && k < |q.batches|
    requires q' == q.(records := q'.records, batches := Without(q.batches, k), retired := q'.retired)
    requires RetiredSound(q'.retired, cards) && BatchesSound(q'.batches, q'.retired)
    requires |q'.records| == |q.records|
    requires forall i | 0 <= i < |q.records| ::
               && q'.records[i].oracleID == q.records[i].oracleID && !q'.records[i].status.Claimed?
               && RecordSound(q'.records[i], cards, inventory) && MemberSound(q'.records[i], q'.batches)
    ensures ValidOver(q', cards, inventory)
  {
    hide RecordSound, MemberSound, BaselineSound, BatchesSound, RetiredSound, Distinct, Elements;
    assert RecordIDs(q'.records) == RecordIDs(q.records);
    forall j, id | 0 <= j < |q'.batches| && id in q'.batches[j].oracleIDs ensures id in RecordIDs(q'.records) {
      assert q'.batches[j] == q.batches[if j < k then j else j + 1];
    }
  }

  lemma FreshIDs(q: Manifest, k: nat, cards: map<string, Card>, inventory: Inventory)
    requires ValidOver(q, cards, inventory) && k < |q.batches|
    ensures forall j | 0 <= j < |q.batches| :: q.batches[j].id != ""
    ensures forall j | 0 <= j < |q.batches| && j != k :: q.batches[j].id != q.batches[k].id
  {
    assert forall j | 0 <= j < |q.batches| :: BatchWellFormed(q.batches[j]) && BatchIDs(q.batches)[j] == q.batches[j].id;
  }

  lemma MembersInCorpus(q: Manifest, k: nat, cards: map<string, Card>, inventory: Inventory)
    requires ValidOver(q, cards, inventory) && k < |q.batches|
    ensures forall id | id in q.batches[k].oracleIDs :: id in cards
  {
    forall id | id in q.batches[k].oracleIDs ensures id in cards {
      assert id in RecordIDs(q.records);
      var i :| 0 <= i < |q.records| && RecordIDs(q.records)[i] == id;
      EachSound(q, cards, inventory, i);
    }
  }

  /** Every continuation step that a valid manifest allows leaves a valid manifest. */
  lemma ContinueKeepsValid(
    q: Manifest, operation: Continuation, batchID: string, owner: string, plan: Plan, cards: map<string, Card>,
    inventory: Inventory)
    requires ValidOver(q, cards, inventory) && ContinueAllowed(q, operation, batchID, owner, plan)
    ensures ValidOver(AfterContinue(q, operation, batchID, plan), cards, inventory)
  {
    hide ValidOver, BlockersAllowed, ReassessAllowed, RetireAllowed, AddAllowed, PrerequisitesAllowed;
    hide AfterBlockers, AfterReassess, AfterRetire, AfterAdd, AfterPrerequisites;
    match operation {
      case RecordBlockers => BlockersKeepValid(q, plan.records, cards, inventory);
      case Reassess => ReassessKeepsValid(q, plan.records, cards, inventory);
      case RetireBatch => RetireKeepsValid(q, batchID, plan, cards, inventory);
      case AddReviewedBatch => AddKeepsValid(q, batchID, plan, cards, inventory);
      case RecordPrerequisites => PrerequisitesKeepValid(q, batchID, plan, cards, inventory);
    }
  }
}
