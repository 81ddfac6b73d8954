/** What each step of the queue demands and writes, record by record and field by field. */
module QueueEffects {
  import opened Collections
  import opened Text
  import opened Options
  import opened Queue
  import opened QueueFacts
  import opened QueueInvariant
  import opened QueueSteps
  import opened QueueMoves
  import opened QueuePlans

  // ----- candidates of a reviewed plan -----

  /** The record a candidate speaks of, by identity, revision and name. */
  predicate Exactly(r: Record, c: ReviewedRecord) {
    r.oracleID == c.oracleID && r.revision == c.revision && r.name == c.name
  }

  /** No record is spoken of twice. */
  ghost predicate Once(candidates: seq<ReviewedRecord>) {
    forall a, b | 0 <= a < b < |candidates| :: candidates[a].oracleID != candidates[b].oracleID
  }

  ghost predicate FindsFit(records: seq<Record>, c: ReviewedRecord, fits: (Record, ReviewedRecord) -> bool) {
    exists i | 0 <= i < |records| :: records[i].oracleID == c.oracleID && fits(records[i], c)
  }

  /** On records without repetition, looking for the first record of an identity means having one. */
  lemma CandidatesFitMeans(
    records: seq<Record>, candidates: seq<ReviewedRecord>, acceptable: ReviewedRecord -> bool,
    fits: (Record, ReviewedRecord) -> bool)
    requires Distinct(RecordIDs(records))
    ensures CandidatesFit(records, candidates, acceptable, fits) <==>
              && Once(candidates)
              && forall c | c in candidates :: acceptable(c) && FindsFit(records, c, fits)
  {
    assert Distinct(CandidateIDs(candidates)) <==> Once(candidates) by {
      assert forall c | 0 <= c < |candidates| :: CandidateIDs(candidates)[c] == candidates[c].oracleID;
    }
    forall c: ReviewedRecord
      ensures CandidateFits(records, c, acceptable, fits) <==> acceptable(c) && FindsFit(records, c, fits)
    {
      forall i | 0 <= i < |records| && records[i].oracleID == c.oracleID ensures Find(records, c.oracleID) == i {
        FindInDistinct(records, i);
      }
    }
    hide CandidateFits, FindsFit, Once, Distinct;
    assert forall c | c in candidates :: exists n | 0 <= n < |candidates| :: candidates[n] == c;
  }

  /** A fitting candidate edits the record of its identity, and a record no candidate names is left alone. */
  lemma EditsEach(
    records: seq<Record>, candidates: seq<ReviewedRecord>, acceptable: ReviewedRecord -> bool,
    fits: (Record, ReviewedRecord) -> bool, edit: (Record, ReviewedRecord) -> Record, i: nat)
    requires Distinct(RecordIDs(records)) && CandidatesFit(records, candidates, acceptable, fits) && i < |records|
    ensures forall c | c in candidates && c.oracleID == records[i].oracleID ::
              acceptable(c) && fits(records[i], c) && Edited(records, candidates, edit)[i] == edit(records[i], c)
    ensures (forall c | c in candidates :: c.oracleID != records[i].oracleID) ==>
              Edited(records, candidates, edit)[i] == records[i]
  {
    FindInDistinct(records, i);
    forall c | c in candidates && c.oracleID == records[i].oracleID
      ensures acceptable(c) && fits(records[i], c) && Edited(records, candidates, edit)[i] == edit(records[i], c)
    {
      var n :| 0 <= n < |candidates| && candidates[n] == c;
      assert CandidateFits(records, candidates[n], acceptable, fits);
      var m :| 0 <= m < |candidates| && candidates[m].oracleID == c.oracleID && CandidateFor(candidates, c.oracleID) == candidates[m];
      assert CandidateIDs(candidates)[m] == CandidateIDs(candidates)[n];
    }
  }

  ghost predicate NamedIn(candidates: seq<ReviewedRecord>, id: string) {
    exists c | c in candidates :: c.oracleID == id
  }

  lemma NamesMeans(candidates: seq<ReviewedRecord>)
    ensures forall id :: Names(candidates, id) <==> NamedIn(candidates, id)
  {
    forall id ensures Names(candidates, id) <==> NamedIn(candidates, id) {
      if NamedIn(candidates, id) {
        var c :| c in candidates && c.oracleID == id;
        var n :| 0 <= n < |candidates| && candidates[n] == c;
      }
      if Names(candidates, id) {
        var n :| 0 <= n < |candidates| && candidates[n].oracleID == id;
        assert candidates[n] in candidates;
      }
    }
  }

  // ----- record-blockers -----

  ghost predicate FreeRecord(records: seq<Record>, c: ReviewedRecord) {
    exists i | 0 <= i < |records| ::
      Exactly(records[i], c) && records[i].status == Unclaimed && records[i].batch == "" && records[i].owner == ""
  }

  /** Blockers are recorded on free records that are exactly as reviewed, each with an issue and a reason. */
  lemma BlockersDemand(q: Manifest, candidates: seq<ReviewedRecord>)
    requires Distinct(RecordIDs(q.records))
    ensures BlockersAllowed(q, candidates) <==>
              && candidates != [] && Once(candidates)
              && forall c | c in candidates ::
                   c.blocker > 0 && Trim(c.reason) != "" && c.reassessment == None && FreeRecord(q.records, c)
  {
    CandidatesFitMeans(q.records, candidates, TriagedBlocker, ExactAndFree);
    FreeMeans(q.records);
    hide CandidatesFit, Once, FreeRecord, FindsFit, Distinct;
  }

  lemma FreeMeans(records: seq<Record>)
    ensures forall c :: FindsFit(records, c, ExactAndFree) <==> FreeRecord(records, c)
  {
  }

  /** A named record gets just the status, the issue and the reason; every other record stays. */
  lemma BlockersWrite(q: Manifest, candidates: seq<ReviewedRecord>, i: nat)
    requires Distinct(RecordIDs(q.records)) && BlockersAllowed(q, candidates) && i < |q.records|
    ensures var q', r := AfterBlockers(q, candidates), q.records[i];
            && q' == q.(records := q'.records) && |q'.records| == |q.records|
            && (forall c | c in candidates && c.oracleID == r.oracleID ::
                  q'.records[i] == r.(status := Blocked, blocker := c.blocker, reason := c.reason))
            && ((forall c | c in candidates :: c.oracleID != r.oracleID) ==> q'.records[i] == r)
  {
    EditsEach(q.records, candidates, TriagedBlocker, ExactAndFree, MarkBlocked, i);
  }

  // ----- reassess -----

  ghost predicate BlockedRecord(records: seq<Record>, c: ReviewedRecord) {
    exists i | 0 <= i < |records| ::
      && Exactly(records[i], c) && records[i].status == Blocked && records[i].owner == ""
      && c.reassessment.Some? && c.reassessment.value.issue == records[i].blocker
  }

  ghost predicate WholeBatches(records: seq<Record>, candidates: seq<ReviewedRecord>) {
    forall r, member | r in records && member in records && NamedIn(candidates, r.oracleID) && r.batch != ""
                       && member.batch == r.batch :: NamedIn(candidates, member.oracleID)
  }

  /** A reassessment takes one to five blocked records, each with complete evidence on its own blocker, and whole batches. */
  lemma ReassessDemands(q: Manifest, candidates: seq<ReviewedRecord>)
    requires Distinct(RecordIDs(q.records))
    ensures ReassessAllowed(q, candidates) <==>
              && 1 <= |candidates| <= 5 && Once(candidates)
              && (forall c | c in candidates ::
                    && c.blocker == 0 && c.reason == ""
                    && BlockedRecord(q.records, c) && Complete(c.reassessment.value))
              && WholeBatches(q.records, candidates)
  {
    CandidatesFitMeans(q.records, candidates, PlainReassessment, ReassessmentFits);
    BlockedMeans(q.records);
    WholeMeans(q.records, candidates);
    hide CandidatesFit, Once, BlockedRecord, FindsFit, Distinct, WholeBatches, Names, Complete;
  }

  lemma BlockedMeans(records: seq<Record>)
    ensures forall c :: FindsFit(records, c, ReassessmentFits) <==> BlockedRecord(records, c) && Complete(c.reassessment.value)
  {
  }

  lemma WholeMeans(records: seq<Record>, candidates: seq<ReviewedRecord>)
    ensures WholeBatches(records, candidates) <==>
              forall i, j | 0 <= i < |records| && 0 <= j < |records| && Names(candidates, records[i].oracleID)
                            && records[i].batch != "" && records[j].batch == records[i].batch ::
                Names(candidates, records[j].oracleID)
  {
    NamesMeans(candidates);
    hide Names, NamedIn;
  }

  /**
   * A reassessed record is unclaimed again and has one reassessment more: the evidence of the plan with the reason the
   * record was blocked for. Every other field, and every other record, stays.
   */
  lemma ReassessWrites(q: Manifest, candidates: seq<ReviewedRecord>, i: nat)
    requires Distinct(RecordIDs(q.records)) && ReassessAllowed(q, candidates) && i < |q.records|
    ensures var q', r := AfterReassess(q, candidates), q.records[i];
            && q' == q.(records := q'.records) && |q'.records| == |q.records|
            && (forall c | c in candidates && c.oracleID == r.oracleID ::
                  && c.reassessment.Some?
                  && q'.records[i].status == Unclaimed
                  && q'.records[i].reassessments == r.reassessments + [Reassessment(c.reassessment.value, r.reason)]
                  && q'.records[i] == r.(status := Unclaimed, reassessments := q'.records[i].reassessments))
            && ((forall c | c in candidates :: c.oracleID != r.oracleID) ==> q'.records[i] == r)
  {
    EditsEach(q.records, candidates, PlainReassessment, ReassessmentFits, Reopen, i);
  }

  // ----- retire-batch -----

  ghost predicate HasRecord(records: seq<Record>, c: ReviewedRecord) {
    exists i | 0 <= i < |records| :: Exactly(records[i], c)
  }

  /** What retiring batch k demands of the plan and of the queue. */
  ghost predicate Retirable(q: Manifest, k: nat, candidates: seq<ReviewedRecord>)
    requires k < |q.batches|
  {
    && (forall r | r in q.records && r.batch == q.batches[k].id :: r.status == Unclaimed && r.owner == "")
    && forall c | c in candidates ::
         && c.oracleID in q.batches[k].oracleIDs
         && c.blocker > 0 && Trim(c.reason) != "" && c.reassessment == None
         && HasRecord(q.records, c)
  }

  lemma FindsBatch(batches: seq<Batch>, k: nat)
    requires Distinct(BatchIDs(batches)) && k < |batches|
    ensures FindBatch(batches, batches[k].id) == k
  {
    assert forall j | 0 <= j < |batches| :: BatchIDs(batches)[j] == batches[j].id;
  }

  lemma DetachedIDs(records: seq<Record>, batchID: string)
    ensures RecordIDs(Detached(records, batchID)) == RecordIDs(records)
  {
  }

  /** A batch is retired when all its records are released, for one to five of its members, each with an issue and a reason. */
  lemma RetireDemands(q: Manifest, batchID: string, plan: Plan)
    requires Distinct(RecordIDs(q.records)) && Distinct(BatchIDs(q.batches))
    ensures RetireAllowed(q, batchID, plan) <==>
              && batchID != "" && plan.batches == [] && 1 <= |plan.records| <= 5 && Once(plan.records)
              && exists k | 0 <= k < |q.batches| :: q.batches[k].id == batchID && Retirable(q, k, plan.records)
  {
    var k := FindBatch(q.batches, batchID);
    if k < |q.batches| {
      RetirableMeans(q, k, plan.records);
    }
    hide Once, Retirable, CandidatesFit, Distinct, Released;
    forall j | 0 <= j < |q.batches| && q.batches[j].id == batchID ensures j == k {
      FindsBatch(q.batches, j);
    }
  }

  lemma RetirableMeans(q: Manifest, k: nat, candidates: seq<ReviewedRecord>)
    requires Distinct(RecordIDs(q.records)) && k < |q.batches|
    ensures Released(q.records, q.batches[k].id) && CandidatesFit(q.records, candidates, AffectedBy(q.batches[k]), ExactRecord)
       <==> Once(candidates) && Retirable(q, k, candidates)
  {
    CandidatesFitMeans(q.records, candidates, AffectedBy(q.batches[k]), ExactRecord);
    assert forall c :: FindsFit(q.records, c, ExactRecord) <==> HasRecord(q.records, c);
    hide CandidatesFit, Once, FindsFit, HasRecord, Distinct;
  }

  /**
   * The batch moves to the end of the retired ones; its records leave it, and each record the plan names is blocked for
   * the given reason. Nothing else changes.
   */
  lemma RetireWrites(q: Manifest, k: nat, plan: Plan, i: nat)
    requires Distinct(RecordIDs(q.records)) && Distinct(BatchIDs(q.batches)) && k < |q.batches| && i < |q.records|
    requires RetireAllowed(q, q.batches[k].id, plan)
    ensures FindBatch(q.batches, q.batches[k].id) == k
    ensures var q', r := AfterRetire(q, q.batches[k].id, plan.records), q.records[i];
            var left := r.(batch := if r.batch == q.batches[k].id then "" else r.batch);
            && q' == q.(records := q'.records, batches := q'.batches, retired := q'.retired)
            && q'.batches == q.batches[..k] + q.batches[k + 1..] && q'.retired == q.retired + [q.batches[k]]
            && |q'.records| == |q.records|
            && (forall c | c in plan.records && c.oracleID == r.oracleID ::
                  q'.records[i] == left.(status := Blocked, blocker := c.blocker, reason := c.reason))
            && ((forall c | c in plan.records :: c.oracleID != r.oracleID) ==> q'.records[i] == left)
  {
    FindsBatch(q.batches, k);
    var id := q.batches[k].id;
    var detached := Detached(q.records, id);
    DetachedIDs(q.records, id);
    DetachedFit(q.records, id, plan.records, AffectedBy(q.batches[k]));
    EditsEach(detached, plan.records, AffectedBy(q.batches[k]), ExactRecord, MarkBlocked, i);
    hide CandidatesFit, Distinct;
  }

  lemma DetachedFit(records: seq<Record>, id: string, candidates: seq<ReviewedRecord>, acceptable: ReviewedRecord -> bool)
    requires Distinct(RecordIDs(records)) && CandidatesFit(records, candidates, acceptable, ExactRecord)
    ensures CandidatesFit(Detached(records, id), candidates, acceptable, ExactRecord)
  {
    DetachedIDs(records, id);
    forall name ensures Find(Detached(records, id), name) == Find(records, name) {
      SameFind(Detached(records, id), records, name);
    }
    hide Find;
  }

  // ----- add-reviewed-batch -----

  /** A plan that reviews a batch: the batch itself, and a candidate for each member and for nothing else. */
  ghost predicate Reviews(candidates: seq<ReviewedRecord>, b: Batch, records: seq<Record>) {
    && Trim(b.review) != "" && |candidates| == |b.oracleIDs| && Once(candidates)
    && forall c | c in candidates ::
         c.oracleID in b.oracleIDs && c.reassessment == None && c.blocker == 0 && c.reason == "" && FreeRecord(records, c)
  }

  /** A new batch needs an ID no live or retired batch has, members no live batch has, and free records as reviewed. */
  lemma AddDemands(q: Manifest, batchID: string, plan: Plan)
    requires Distinct(RecordIDs(q.records))
    ensures AddAllowed(q, batchID, plan) <==>
              && batchID != "" && |plan.batches| == 1 && plan.batches[0].id == batchID && BatchWellFormed(plan.batches[0])
              && (forall saved | saved in q.batches + q.retired :: saved.id != batchID)
              && (forall saved, id | saved in q.batches && id in plan.batches[0].oracleIDs :: id !in saved.oracleIDs)
              && Reviews(plan.records, plan.batches[0], q.records)
  {
    assert (forall saved | saved in q.batches + q.retired :: saved.id != batchID)
      <==> batchID !in BatchIDs(q.batches) && batchID !in BatchIDs(q.retired) by {
      IDsListed(q.batches, batchID);
      IDsListed(q.retired, batchID);
    }
    if |plan.batches| == 1 {
      CandidatesFitMeans(q.records, plan.records, Joining(plan.batches[0]), ExactAndFree);
      FreeMeans(q.records);
      assert Trim(plan.batches[0].review) != "" <==> !IsBlank(plan.batches[0].review);
    }
    hide CandidatesFit, Once, FreeRecord, FindsFit, Distinct, BatchWellFormed, BatchIDs, Trim, IsBlank;
  }

  lemma IDsListed(batches: seq<Batch>, id: string)
    ensures id in BatchIDs(batches) <==> exists saved | saved in batches :: saved.id == id
  {
    if saved :| saved in batches && saved.id == id {
      var k :| 0 <= k < |batches| && batches[k] == saved;
      assert BatchIDs(batches)[k] == id;
    }
    if id in BatchIDs(batches) {
      var k :| 0 <= k < |batches| && BatchIDs(batches)[k] == id;
      assert batches[k] in batches;
    }
  }

  /** Every member of the new batch, and no other record, gets its ID and family, and nothing else changes. */
  lemma AddWrites(q: Manifest, batchID: string, plan: Plan, i: nat)
    requires Distinct(RecordIDs(q.records)) && AddAllowed(q, batchID, plan) && i < |q.records|
    ensures var q', r, b := AfterAdd(q, plan.batches[0], plan.records), q.records[i], plan.batches[0];
            && q' == q.(records := q'.records, batches := q.batches + [b]) && |q'.records| == |q.records|
            && q'.records[i] == if r.oracleID in b.oracleIDs then r.(batch := batchID, family := b.family) else r
  {
    var b := plan.batches[0];
    EveryMemberNamed(b, plan.records);
    NamesMeans(plan.records);
    hide Names;
    EditsEach(q.records, plan.records, Joining(b), ExactAndFree, Assign(b), i);
    hide CandidatesFit, Distinct, BatchWellFormed;
  }

  // ----- record-prerequisites -----

  /** The plan repeats the saved batch and brings evidence only for issues that have none. */
  predicate AddsEvidence(saved: Batch, b: Batch) {
    && saved.id == b.id && saved.family == b.family && saved.review == b.review
    && saved.oracleIDs == b.oracleIDs && saved.prerequisites == b.prerequisites && saved.operations == b.operations
    && forall before, added | before in saved.evidence && added in b.evidence :: before.issue != added.issue
  }

  lemma PrerequisitesDemand(q: Manifest, batchID: string, plan: Plan)
    requires Distinct(BatchIDs(q.batches))
    ensures PrerequisitesAllowed(q, batchID, plan) <==>
              && batchID != "" && |plan.batches| == 1 && plan.batches[0].id == batchID && BatchWellFormed(plan.batches[0])
              && plan.records == [] && plan.batches[0].evidence != []
              && exists saved | saved in q.batches :: AddsEvidence(saved, plan.batches[0])
  {
    hide BatchWellFormed;
    if |plan.batches| == 1 && plan.batches[0].id == batchID {
      var b, k := plan.batches[0], FindBatch(q.batches, batchID);
      forall saved | saved in q.batches && saved.id == batchID ensures k < |q.batches| && saved == q.batches[k] {
        var j :| 0 <= j < |q.batches| && q.batches[j] == saved;
        FindsBatch(q.batches, j);
      }
      if k < |q.batches| {
        AddsEvidenceMeans(q.batches[k], b);
      }
    }
    hide AddsEvidence, Distinct;
  }

  lemma AddsEvidenceMeans(saved: Batch, b: Batch)
    requires saved.id == b.id
    ensures AddsEvidence(saved, b) <==>
              && saved.(evidence := []) == b.(evidence := [])
              && forall i, j | 0 <= i < |saved.evidence| && 0 <= j < |b.evidence| :: saved.evidence[i].issue != b.evidence[j].issue
  {
  }

  /** The saved batch gets the new evidence behind its own; no other batch and no record changes. */
  lemma PrerequisitesWrite(q: Manifest, k: nat, plan: Plan)
    requires Distinct(BatchIDs(q.batches)) && k < |q.batches| && PrerequisitesAllowed(q, q.batches[k].id, plan)
    ensures FindBatch(q.batches, q.batches[k].id) == k
    ensures var q', added := AfterPrerequisites(q, q.batches[k].id, plan.batches[0].evidence), plan.batches[0].evidence;
            && q' == q.(batches := q'.batches) && |q'.batches| == |q.batches|
            && q'.batches[k] == q.batches[k].(evidence := q.batches[k].evidence + added)
            && forall j | 0 <= j < |q.batches| && j != k :: q'.batches[j] == q.batches[j]
  {
    FindsBatch(q.batches, k);
  }

  // ----- any reviewed plan -----

  /** Every continuation needs a named owner, a plan for this corpus, and a queue nobody is working on. */
  lemma ContinueDemands(q: Manifest, operation: Continuation, batchID: string, owner: string, plan: Plan)
    requires ContinueAllowed(q, operation, batchID, owner, plan)
    ensures Trim(owner) != "" && plan.corpusSHA256 == q.corpusSHA256 != ""
    ensures forall r | r in q.records :: r.status != Claimed
    ensures operation == RecordBlockers || operation == Reassess ==> batchID == "" && plan.batches == []
    ensures operation == RetireBatch || operation == AddReviewedBatch || operation == RecordPrerequisites ==> batchID != ""
    ensures operation in {RecordBlockers, Reassess, RetireBatch, AddReviewedBatch, RecordPrerequisites}
  {
    hide BlockersAllowed, ReassessAllowed, CandidatesFit;
  }

  // ----- claim, verify, release and block -----

  /** A record can be claimed while it is free or already the owner's; anything else takes a claim of the owner's. */
  ghost predicate MayMove(m: Move, r: Record, inventory: Inventory) {
    match m.operation
    case Claim => r.status == Unclaimed || (r.status == Claimed && r.owner == m.owner)
    case Verify => r.status == Claimed && r.owner == m.owner && exists text :: text != "" && LastWord(inventory.production, r.oracleID, text)
    case Release => r.status == Claimed && r.owner == m.owner
    case Block => r.status == Claimed && r.owner == m.owner
    case OtherOperation(_) => false
  }

  lemma MovableMeans(m: Move, r: Record, inventory: Inventory)
    requires !m.operation.OtherOperation?
    ensures Movable(m, r, inventory) <==> MayMove(m, r, inventory)
  {
    var text := Verification(inventory.production, r.oracleID);
    if text != "" {
      LastWordIs(inventory.production, r.oracleID, text);
    }
    if other :| other != "" && LastWord(inventory.production, r.oracleID, other) {
      LastWordIs(inventory.production, r.oracleID, other);
    }
    hide LastWord, Verification;
  }

  /** What a move demands: a batch and an owner, three to five records that may all move, and for a claim the offer. */
  lemma MoveDemands(q: Manifest, m: Move, inventory: Inventory)
    requires Distinct(RecordIDs(q.records))
    ensures MoveAllowed(q, m, inventory) <==>
              && m.batchID != "" && Trim(m.owner) != "" && !m.operation.OtherOperation?
              && (m.operation == Block ==> m.blocker > 0 && Trim(m.reason) != "")
              && (m.operation == Claim ==> exists b :: IsNext(q, m.owner, Offered(b)) && b.id == m.batchID)
              && (forall r | r in q.records && r.batch == m.batchID :: MayMove(m, r, inventory))
              && 3 <= |MembersOf(q.records, m.batchID)| <= 5
  {
    CountMembersIsSize(q.records, m.batchID);
    if !m.operation.OtherOperation? {
      forall r: Record ensures Movable(m, r, inventory) <==> MayMove(m, r, inventory) {
        MovableMeans(m, r, inventory);
      }
    }
    hide Movable, MayMove, IsNext, MembersOf, CountMembers, Distinct;
    assert forall i | 0 <= i < |q.records| :: q.records[i] in q.records;
  }

  /**
   * A claim writes status and owner; a verification the last vouched evidence; a release frees the record; a block notes
   * the issue and the reason. Everything else of the record, and every record outside the batch, stays.
   */
  lemma MoveWrites(q: Manifest, m: Move, inventory: Inventory, i: nat)
    requires MoveAllowed(q, m, inventory) && i < |q.records|
    ensures var q', r := AfterMove(q, m, inventory), q.records[i];
            var r' := q'.records[i];
            && q' == q.(records := q'.records) && |q'.records| == |q.records|
            && if r.batch != m.batchID then r' == r else
               match m.operation
               case Claim => r' == r.(status := Claimed, owner := m.owner)
               case Verify =>
                 && r' == r.(status := ImplementedVerified, owner := "", evidence := r'.evidence)
                 && r'.evidence != "" && LastWord(inventory.production, r.oracleID, r'.evidence)
               case Release => r' == r.(status := Unclaimed, owner := "")
               case Block => r' == r.(status := Blocked, owner := "", blocker := m.blocker, reason := m.reason)
               case OtherOperation(_) => false
  {
    hide OffersBatch, CountMembers;
    var r := q.records[i];
    if r.batch == m.batchID && m.operation.Verify? {
      assert Movable(m, r, inventory);
      LastWordIs(inventory.production, r.oracleID, Verification(inventory.production, r.oracleID));
    }
    hide LastWord, Verification;
  }

  // ----- what next offers -----

  /** Complete evidence for each prerequisite. */
  ghost predicate Evidenced(b: Batch) {
    forall issue | issue in b.prerequisites :: exists e | e in b.evidence :: e.issue == issue && Complete(e)
  }

  lemma ReadyMeans(b: Batch)
    ensures Ready(b) <==> Evidenced(b)
  {
    forall issue ensures HasEvidence(b, issue) <==> exists e | e in b.evidence :: e.issue == issue && Complete(e) {
      if e :| e in b.evidence && e.issue == issue && Complete(e) {
        var k :| 0 <= k < |b.evidence| && b.evidence[k] == e;
      }
    }
    hide HasEvidence, Complete;
    forall issue | issue in b.prerequisites && Ready(b) ensures HasEvidence(b, issue) {
      var k :| 0 <= k < |b.prerequisites| && b.prerequisites[k] == issue;
    }
    assert forall k | 0 <= k < |b.prerequisites| :: b.prerequisites[k] in b.prerequisites;
  }

  /** On a well-formed batch nothing can be evidenced twice or beside the point, so counting the evidence is enough. */
  lemma ReadyCounts(b: Batch)
    requires BatchWellFormed(b)
    ensures |b.evidence| <= |b.prerequisites|
    ensures Evidenced(b) <==> |b.evidence| == |b.prerequisites|
  {
    var issues := Issues(b.evidence);
    DistinctSize(issues);
    DistinctSize(b.prerequisites);
    EvidencedIs(b);
    hide BatchWellFormed, Evidenced;
    SubsetSize(Elements(issues), Elements(b.prerequisites));
  }

  lemma EvidencedIs(b: Batch)
    requires EvidenceFits(b.evidence, b.prerequisites)
    ensures Elements(Issues(b.evidence)) <= Elements(b.prerequisites)
    ensures Evidenced(b) <==> Elements(Issues(b.evidence)) == Elements(b.prerequisites)
  {
    var issues := Issues(b.evidence);
    forall e | e in b.evidence ensures Complete(e) && e.issue in issues && e.issue in b.prerequisites {
      var i :| 0 <= i < |b.evidence| && b.evidence[i] == e;
      assert issues[i] == e.issue;
    }
    hide Complete;
    forall issue | issue in issues ensures exists e | e in b.evidence :: e.issue == issue {
      var i :| 0 <= i < |issues| && issues[i] == issue;
      assert b.evidence[i] in b.evidence;
    }
    if Evidenced(b) {
      forall issue | issue in b.prerequisites ensures issue in issues {
        var e :| e in b.evidence && e.issue == issue && Complete(e);
      }
    }
    if Elements(issues) == Elements(b.prerequisites) {
      forall issue | issue in b.prerequisites ensures exists e | e in b.evidence :: e.issue == issue && Complete(e) {
        assert issue in Elements(issues);
      }
    }
  }

  /** Every record of batch k has the status, and when that is to be free, each prerequisite has evidence. */
  ghost predicate Open(q: Manifest, k: nat, status: Status) {
    k < |q.batches| && AllIn(q.records, q.batches[k].id, status) && (status == Unclaimed ==> Evidenced(q.batches[k]))
  }

  ghost predicate FirstOpen(q: Manifest, k: nat, status: Status) {
    Open(q, k, status) && forall j: nat | j < k :: !Open(q, j, status)
  }

  ghost predicate NoneOpen(q: Manifest, status: Status) {
    forall k: nat :: !Open(q, k, status)
  }

  ghost predicate Foreign(r: Record, owner: string) {
    r.status == Claimed && r.owner != owner
  }

  lemma OpenMeans(q: Manifest, cards: map<string, Card>, inventory: Inventory, k: nat, status: Status)
    requires ValidOver(q, cards, inventory) && k < |q.batches|
    ensures Offerable(q.records, q.batches[k], status) <==> Open(q, k, status)
  {
    WhollyMeansAll(q, cards, inventory, k, status);
    ReadyMeans(q.batches[k]);
    hide ValidOver, AllIn, Evidenced, Ready, Wholly;
  }

  lemma FirstMeans(q: Manifest, status: Status, cards: map<string, Card>, inventory: Inventory)
    requires ValidOver(q, cards, inventory)
    ensures forall k: nat :: FirstAt(q, k, status) <==> FirstOpen(q, k, status)
    ensures NoneBefore(q, |q.batches|, status) <==> NoneOpen(q, status)
  {
    forall k: nat | k < |q.batches| ensures Offerable(q.records, q.batches[k], status) <==> Open(q, k, status) {
      OpenMeans(q, cards, inventory, k, status);
    }
    hide ValidOver, Offerable, AllIn, Evidenced;
  }

  lemma FirstIsMeans(q: Manifest, b: Batch, status: Status)
    requires forall k: nat :: FirstAt(q, k, status) <==> FirstOpen(q, k, status)
    ensures FirstIs(q, b, status) <==> exists k | 0 <= k < |q.batches| :: q.batches[k] == b && FirstOpen(q, k, status)
  {
    hide Offerable, NoneBefore, Open;
    assert forall k: nat | FirstAt(q, k, status) :: k < |q.batches|;
  }

  lemma HeldMeans(records: seq<Record>, owner: string, holder: string)
    ensures (exists i | 0 <= i < |records| :: HeldByOther(records[i], owner)) <==> (exists r | r in records :: Foreign(r, owner))
    ensures (exists i | 0 <= i < |records| :: HeldByOther(records[i], owner) && records[i].owner == holder)
       <==> (exists r | r in records :: Foreign(r, owner) && r.owner == holder)
  {
    assert forall i | 0 <= i < |records| :: records[i] in records && (HeldByOther(records[i], owner) <==> Foreign(records[i], owner));
  }

  /**
   * On a valid queue, next refuses an owner by naming someone who holds a claim; otherwise it answers the first batch
   * that is wholly claimed, else the first that is wholly free with evidence for each prerequisite, else nothing.
   */
  lemma OfferMeans(q: Manifest, owner: string, offer: Offer, cards: map<string, Card>, inventory: Inventory)
    requires ValidOver(q, cards, inventory)
    ensures IsNext(q, owner, offer) <==>
              match offer
              case Refused(holder) => exists r | r in q.records :: Foreign(r, owner) && r.owner == holder
              case Nothing => (forall r | r in q.records :: !Foreign(r, owner)) && NoneOpen(q, Claimed) && NoneOpen(q, Unclaimed)
              case Offered(b) =>
                && (forall r | r in q.records :: !Foreign(r, owner))
                && exists k | 0 <= k < |q.batches| :: q.batches[k] == b
                     && (FirstOpen(q, k, Claimed) || (NoneOpen(q, Claimed) && FirstOpen(q, k, Unclaimed)))
  {
    FirstMeans(q, Claimed, cards, inventory);
    FirstMeans(q, Unclaimed, cards, inventory);
    HeldMeans(q.records, owner, if offer.Refused? then offer.owner else "");
    hide ValidOver, FirstAt, FirstOpen, NoneBefore, NoneOpen, Foreign, HeldByOther;
    if offer.Offered? {
      FirstIsMeans(q, offer.batch, Claimed);
      FirstIsMeans(q, offer.batch, Unclaimed);
    }
    hide FirstIs;
  }
}
