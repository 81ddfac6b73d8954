/** What each queue step is allowed on, and the manifest it leaves, said without loops. */
module QueueSteps {
  import opened Collections
  import opened Text
  import opened Options
  import opened Queue
  import opened QueueInvariant

  // ----- choosing the next batch -----

  predicate InBatch(r: Record, batchID: string, status: Status) {
    r.batch == batchID && r.status == status
  }

  function CountIn(records: seq<Record>, batchID: string, status: Status): nat {
    if records == [] then 0
    else
      CountIn(records[..|records| - 1], batchID, status)
      + if InBatch(records[|records| - 1], batchID, status) then 1 else 0
  }

  function CountMembers(records: seq<Record>, batchID: string): nat {
    if records == [] then 0
    else
      CountMembers(records[..|records| - 1], batchID) + if records[|records| - 1].batch == batchID then 1 else 0
  }

  predicate HasEvidence(b: Batch, issue: int) {
    exists k | 0 <= k < |b.evidence| :: b.evidence[k].issue == issue && ValidEvidence(b.evidence[k])
  }

  /** No prerequisite of the batch is missing evidence. */
  predicate Ready(b: Batch) {
    forall k | 0 <= k < |b.prerequisites| :: HasEvidence(b, b.prerequisites[k])
  }

  predicate Wholly(records: seq<Record>, b: Batch, status: Status) {
    CountIn(records, b.id, status) == |b.oracleIDs|
  }

  /** What nextBatch answers: a refusal because someone else holds a claim, nothing, or one saved batch. */
  datatype Offer = Refused(owner: string) | Nothing | Offered(batch: Batch)

  predicate Offerable(records: seq<Record>, b: Batch, status: Status) {
    (status == Unclaimed ==> Ready(b)) && Wholly(records, b, status)
  }

  predicate HeldByOther(r: Record, owner: string) {
    r.status.Claimed? && r.owner != owner
  }

  ghost predicate NoneBefore(q: Manifest, n: int, status: Status) {
    forall j | 0 <= j < n && j < |q.batches| :: !Offerable(q.records, q.batches[j], status)
  }

  /** Batch k is the first one that can be offered in the given status. */
  ghost predicate FirstAt(q: Manifest, k: nat, status: Status) {
    k < |q.batches| && Offerable(q.records, q.batches[k], status) && NoneBefore(q, k, status)
  }

  ghost predicate HeldElsewhere(q: Manifest, owner: string) {
    exists i | 0 <= i < |q.records| :: HeldByOther(q.records[i], owner)
  }

  /** Whom a refusal names. */
  ghost predicate HeldBy(q: Manifest, owner: string, holder: string) {
    exists i | 0 <= i < |q.records| :: HeldByOther(q.records[i], owner) && q.records[i].owner == holder
  }

  ghost predicate FirstIs(q: Manifest, b: Batch, status: Status) {
    exists k: nat :: FirstAt(q, k, status) && q.batches[k] == b
  }

  /**
   * The rule nextBatch follows: another owner's claim refuses everyone else; otherwise the first wholly claimed
   * batch is resumed, and failing that the first ready and wholly unclaimed one is offered.
   */
  ghost predicate IsNext(q: Manifest, owner: string, offer: Offer) {
    if HeldElsewhere(q, owner) then offer.Refused? && HeldBy(q, owner, offer.owner)
    else
      match offer
      case Refused(_) => false
      case Nothing => NoneBefore(q, |q.batches|, Claimed) && NoneBefore(q, |q.batches|, Unclaimed)
      case Offered(b) => FirstIs(q, b, Claimed) || (NoneBefore(q, |q.batches|, Claimed) && FirstIs(q, b, Unclaimed))
  }

  // ----- claim, verify, release and block -----

  datatype Operation = Claim | Verify | Release | Block | OtherOperation(name: string)

  datatype Move = Move(operation: Operation, batchID: string, owner: string, blocker: int, reason: string)

  predicate Movable(m: Move, r: Record, inventory: Inventory) {
    if m.operation.Claim? then
      r.status == Unclaimed || (r.status == Claimed && r.owner == m.owner)
    else
      && r.status == Claimed && r.owner == m.owner
      && (m.operation.Verify? ==> Verification(inventory.production, r.oracleID) != "")
  }

  function Moved(m: Move, r: Record, inventory: Inventory): Record {
    if r.batch != m.batchID then r
    else
      match m.operation
      case Claim => r.(status := Claimed, owner := m.owner)
      case Verify =>
        r.(status := ImplementedVerified, owner := "", evidence := Verification(inventory.production, r.oracleID))
      case Release => r.(status := Unclaimed, owner := "")
      case Block => r.(status := Blocked, owner := "", blocker := m.blocker, reason := m.reason)
      case OtherOperation(_) => r
  }

  predicate MoveFormed(m: Move) {
    && m.batchID != ""
    && !IsBlank(m.owner)
    && !m.operation.OtherOperation?
    && (m.operation.Block? ==> m.blocker > 0 && !IsBlank(m.reason))
  }

  ghost predicate OffersBatch(q: Manifest, owner: string, batchID: string) {
    exists b :: IsNext(q, owner, Offered(b)) && b.id == batchID
  }

  ghost predicate MoveAllowed(q: Manifest, m: Move, inventory: Inventory) {
    && MoveFormed(m)
    && (m.operation.Claim? ==> OffersBatch(q, m.owner, m.batchID))
    && (forall i | 0 <= i < |q.records| && q.records[i].batch == m.batchID :: Movable(m, q.records[i], inventory))
    && 3 <= CountMembers(q.records, m.batchID) <= 5
  }

  function AfterMove(q: Manifest, m: Move, inventory: Inventory): Manifest {
    q.(records := seq(|q.records|, i requires 0 <= i < |q.records| => Moved(m, q.records[i], inventory)))
  }

  // ----- the reviewed continuation plans -----

  datatype ReviewedRecord = ReviewedRecord(
    oracleID: string, revision: string, name: string, blocker: int, reason: string, reassessment: Option<Evidence>)

  datatype Plan = Plan(corpusSHA256: string, batches: seq<Batch>, records: seq<ReviewedRecord>)

  datatype Continuation =
    | AddReviewedBatch
    | RecordPrerequisites
    | RetireBatch
    | Reassess
    | RecordBlockers
    | OtherContinuation(name: string)

  function CandidateIDs(candidates: seq<ReviewedRecord>): seq<string> {
    seq(|candidates|, i requires 0 <= i < |candidates| => candidates[i].oracleID)
  }

  /** The index of the first record of an identity, or the number of records. */
  function Find(records: seq<Record>, id: string): (k: nat)
    ensures k <= |records|
    ensures k < |records| ==> records[k].oracleID == id
    ensures forall j | 0 <= j < k :: records[j].oracleID != id
  {
    if records == [] then 0
    else if records[0].oracleID == id then 0
    else 1 + Find(records[1..], id)
  }

  ghost predicate Names(candidates: seq<ReviewedRecord>, id: string) {
    exists c | 0 <= c < |candidates| :: candidates[c].oracleID == id
  }

  /** The candidate of an identity; unique when the candidates are distinct. */
  ghost function CandidateFor(candidates: seq<ReviewedRecord>, id: string): ReviewedRecord
    requires Names(candidates, id)
  {
    var c :| 0 <= c < |candidates| && candidates[c].oracleID == id;
    candidates[c]
  }

  /** Candidates edit the first record of their identity; every other record stays. */
  ghost function Edited(
    records: seq<Record>, candidates: seq<ReviewedRecord>, edit: (Record, ReviewedRecord) -> Record): (edited: seq<Record>)
    ensures |edited| == |records|
  {
    seq(|records|, i requires 0 <= i < |records| => EditedRecord(records, candidates, edit, i))
  }

  ghost function EditedRecord(
    records: seq<Record>, candidates: seq<ReviewedRecord>, edit: (Record, ReviewedRecord) -> Record, i: nat): Record
    requires i < |records|
  {
    var r := records[i];
    if Find(records, r.oracleID) == i && Names(candidates, r.oracleID) then edit(r, CandidateFor(candidates, r.oracleID))
    else r
  }

  /** Every candidate is new, acceptable, and finds a record it fits. */
  ghost predicate CandidatesFit(
    records: seq<Record>, candidates: seq<ReviewedRecord>, acceptable: ReviewedRecord -> bool,
    fits: (Record, ReviewedRecord) -> bool)
  {
    && Distinct(CandidateIDs(candidates))
    && forall c | 0 <= c < |candidates| :: CandidateFits(records, candidates[c], acceptable, fits)
  }

  predicate CandidateFits(
    records: seq<Record>, candidate: ReviewedRecord, acceptable: ReviewedRecord -> bool,
    fits: (Record, ReviewedRecord) -> bool)
  {
    && acceptable(candidate)
    && var k := Find(records, candidate.oracleID);
       k < |records| && fits(records[k], candidate)
  }

  ghost predicate NoClaims(records: seq<Record>) {
    forall i | 0 <= i < |records| :: !records[i].status.Claimed?
  }

  ghost predicate PlanFormed(q: Manifest, owner: string, plan: Plan) {
    && !IsBlank(owner)
    && plan.corpusSHA256 != "" && plan.corpusSHA256 == q.corpusSHA256
    && NoClaims(q.records)
  }

  /** The record a reviewed plan names, exactly as it was reviewed, and free to be planned. */
  predicate ExactAndFree(r: Record, c: ReviewedRecord) {
    r.revision == c.revision && r.name == c.name && r.status == Unclaimed && r.batch == "" && r.owner == ""
  }

  // add-reviewed-batch

  predicate PlainMember(b: Batch, c: ReviewedRecord) {
    c.oracleID in b.oracleIDs && c.reassessment.None? && c.blocker == 0 && c.reason == ""
  }

  function Joining(b: Batch): ReviewedRecord -> bool {
    (c: ReviewedRecord) => PlainMember(b, c)
  }

  function Assign(b: Batch): (Record, ReviewedRecord) -> Record {
    (r: Record, c: ReviewedRecord) => r.(batch := b.id, family := b.family)
  }

  /** The plan defines one batch of its own, with a record for each member. */
  ghost predicate AddFormed(q: Manifest, batchID: string, plan: Plan) {
    && |plan.batches| == 1 && batchID != "" && plan.batches[0].id == batchID
    && BatchWellFormed(plan.batches[0])
    && batchID !in BatchIDs(q.batches) && batchID !in BatchIDs(q.retired)
    && !IsBlank(plan.batches[0].review)
    && |plan.records| == |plan.batches[0].oracleIDs|
    && (forall k, id | 0 <= k < |q.batches| && id in plan.batches[0].oracleIDs :: id !in q.batches[k].oracleIDs)
  }

  ghost predicate AddAllowed(q: Manifest, batchID: string, plan: Plan) {
    && AddFormed(q, batchID, plan)
    && CandidatesFit(q.records, plan.records, Joining(plan.batches[0]), ExactAndFree)
  }

  ghost function AfterAdd(q: Manifest, b: Batch, candidates: seq<ReviewedRecord>): Manifest {
    q.(records := Edited(q.records, candidates, Assign(b)), batches := q.batches + [b])
  }

  // record-prerequisites

  /** The index of the first batch of an ID, or the number of batches. */
  function FindBatch(batches: seq<Batch>, id: string): (k: nat)
    ensures k <= |batches|
    ensures k < |batches| ==> batches[k].id == id
    ensures forall j | 0 <= j < k :: batches[j].id != id
  {
    if batches == [] then 0
    else if batches[0].id == id then 0
    else 1 + FindBatch(batches[1..], id)
  }

  ghost predicate PrerequisitesAllowed(q: Manifest, batchID: string, plan: Plan) {
    && |plan.batches| == 1 && batchID != "" && plan.batches[0].id == batchID
    && BatchWellFormed(plan.batches[0])
    && plan.records == []
    && plan.batches[0].evidence != []
    && var k := FindBatch(q.batches, batchID);
       && k < |q.batches|
       && q.batches[k].(evidence := []) == plan.batches[0].(evidence := [])
       && (forall i, j | 0 <= i < |q.batches[k].evidence| && 0 <= j < |plan.batches[0].evidence| ::
             q.batches[k].evidence[i].issue != plan.batches[0].evidence[j].issue)
  }

  function AfterPrerequisites(q: Manifest, batchID: string, evidence: seq<Evidence>): Manifest
    requires FindBatch(q.batches, batchID) < |q.batches|
  {
    var k := FindBatch(q.batches, batchID);
    q.(batches := q.batches[k := q.batches[k].(evidence := q.batches[k].evidence + evidence)])
  }

  // reassess

  predicate PlainReassessment(c: ReviewedRecord) {
    c.blocker == 0 && c.reason == ""
  }

  predicate ReassessmentFits(r: Record, c: ReviewedRecord) {
    && r.status == Blocked && r.owner == "" && r.revision == c.revision && r.name == c.name
    && c.reassessment.Some? && c.reassessment.value.issue == r.blocker && ValidEvidence(c.reassessment.value)
  }

  function Reopen(r: Record, c: ReviewedRecord): Record {
    r.(status := Unclaimed,
       reassessments := r.reassessments + if c.reassessment.Some? then [Reassessment(c.reassessment.value, r.reason)] else [])
  }

  ghost predicate ReassessAllowed(q: Manifest, candidates: seq<ReviewedRecord>) {
    && 1 <= |candidates| <= 5
    && CandidatesFit(q.records, candidates, PlainReassessment, ReassessmentFits)
    && (forall i, j | 0 <= i < |q.records| && 0 <= j < |q.records| && Names(candidates, q.records[i].oracleID)
                      && q.records[i].batch != "" && q.records[j].batch == q.records[i].batch ::
          Names(candidates, q.records[j].oracleID))
  }

  ghost function AfterReassess(q: Manifest, candidates: seq<ReviewedRecord>): Manifest {
    q.(records := Edited(q.records, candidates, Reopen))
  }

  // retire-batch

  function Detached(records: seq<Record>, batchID: string): (detached: seq<Record>)
    ensures |detached| == |records|
  {
    seq(|records|, i requires 0 <= i < |records| =>
      if records[i].batch == batchID then records[i].(batch := "") else records[i])
  }

  predicate AffectedMember(b: Batch, c: ReviewedRecord) {
    c.oracleID in b.oracleIDs && c.blocker > 0 && !IsBlank(c.reason) && c.reassessment.None?
  }

  function AffectedBy(b: Batch): ReviewedRecord -> bool {
    (c: ReviewedRecord) => AffectedMember(b, c)
  }

  predicate ExactRecord(r: Record, c: ReviewedRecord) {
    r.revision == c.revision && r.name == c.name
  }

  function MarkBlocked(r: Record, c: ReviewedRecord): Record {
    r.(status := Blocked, blocker := c.blocker, reason := c.reason)
  }

  /** All members of a batch are unclaimed and unowned. */
  predicate Released(records: seq<Record>, batchID: string) {
    forall i | 0 <= i < |records| && records[i].batch == batchID :: records[i].status == Unclaimed && records[i].owner == ""
  }

  predicate RetireFormed(q: Manifest, batchID: string, plan: Plan) {
    batchID != "" && plan.batches == [] && 1 <= |plan.records| <= 5 && FindBatch(q.batches, batchID) < |q.batches|
  }

  ghost predicate RetireAllowed(q: Manifest, batchID: string, plan: Plan) {
    && RetireFormed(q, batchID, plan)
    && Released(q.records, batchID)
    && CandidatesFit(q.records, plan.records, AffectedBy(q.batches[FindBatch(q.batches, batchID)]), ExactRecord)
  }

  ghost function AfterRetire(q: Manifest, batchID: string, candidates: seq<ReviewedRecord>): Manifest
    requires FindBatch(q.batches, batchID) < |q.batches|
  {
    var k := FindBatch(q.batches, batchID);
    q.(records := Edited(Detached(q.records, batchID), candidates, MarkBlocked),
       retired := q.retired + [q.batches[k]],
       batches := Without(q.batches, k))
  }

  // record-blockers

  predicate TriagedBlocker(c: ReviewedRecord) {
    c.blocker > 0 && !IsBlank(c.reason) && c.reassessment.None?
  }

  ghost predicate BlockersAllowed(q: Manifest, candidates: seq<ReviewedRecord>) {
    && candidates != []
    && CandidatesFit(q.records, candidates, TriagedBlocker, ExactAndFree)
  }

  ghost function AfterBlockers(q: Manifest, candidates: seq<ReviewedRecord>): Manifest {
    q.(records := Edited(q.records, candidates, MarkBlocked))
  }

  // the continuation operations together

  ghost predicate PlanAllowed(q: Manifest, operation: Continuation, batchID: string, plan: Plan) {
    match operation
    case RecordBlockers => batchID == "" && plan.batches == [] && BlockersAllowed(q, plan.records)
    case Reassess => batchID == "" && plan.batches == [] && ReassessAllowed(q, plan.records)
    case RetireBatch => RetireAllowed(q, batchID, plan)
    case AddReviewedBatch => AddAllowed(q, batchID, plan)
    case RecordPrerequisites => PrerequisitesAllowed(q, batchID, plan)
    case OtherContinuation(_) => false
  }

  ghost predicate ContinueAllowed(q: Manifest, operation: Continuation, batchID: string, owner: string, plan: Plan) {
    PlanFormed(q, owner, plan) && PlanAllowed(q, operation, batchID, plan)
  }

  ghost function AfterContinue(q: Manifest, operation: Continuation, batchID: string, plan: Plan): Manifest
    requires PlanAllowed(q, operation, batchID, plan)
  {
    match operation
    case RecordBlockers => AfterBlockers(q, plan.records)
    case Reassess => AfterReassess(q, plan.records)
    case RetireBatch => AfterRetire(q, batchID, plan.records)
    case AddReviewedBatch => AfterAdd(q, plan.batches[0], plan.records)
    case RecordPrerequisites => AfterPrerequisites(q, batchID, plan.batches[0].evidence)
    case OtherContinuation(_) => q
  }
}
