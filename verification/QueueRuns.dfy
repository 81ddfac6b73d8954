/** Whole runs of the card queue: any number of owners, any change of inventory between commands. */
module QueueRuns {
  import opened Collections
  import opened Options
  import opened Queue
  import opened QueueInvariant
  import opened QueueOrder
  import opened QueueSteps
  import opened QueueMoves
  import opened QueuePlans
  import opened QueueReconcile
  import opened QueueEvidence

  /** One invocation of the command, with what it reads besides the manifest. */
  datatype Command =
    | Check
    | Format
    | Shift(move: Move)
    | VerifyBatch(batchID: string, owner: string, corpusHash: string, metadata: Option<seq<Metadata>>)
    | Continue(operation: Continuation, batchID: string, planOwner: string, plan: Plan)
    | Reconcile(installation: Option<Installation>)

  /** The effect of a command that does not fail, before anything is validated again. */
  ghost predicate Steps(q: Manifest, c: Command, inventory: Inventory, q': Manifest) {
    match c
    case Check => q' == q
    case Format =>
      multiset(q'.records) == multiset(q.records) && SortedRecords(q'.records) && q' == q.(records := q'.records)
    case Shift(m) => !m.operation.Verify? && MoveAllowed(q, m, inventory) && q' == AfterMove(q, m, inventory)
    case VerifyBatch(batchID, owner, corpusHash, metadata) =>
      VerifyAllowed(q, batchID, owner, inventory, corpusHash, metadata)
      && q' == AfterVerify(q, batchID, owner, inventory, metadata.value)
    case Continue(operation, batchID, owner, plan) =>
      ContinueAllowed(q, operation, batchID, owner, plan) && q' == AfterContinue(q, operation, batchID, plan)
    case Reconcile(installation) =>
      ReconcileAllowed(q, installation) && q' == AfterReconcile(q, installation.value, inventory)
  }

  /** What run saves: nothing new when anything fails; a reconciliation is validated only after it is applied. */
  ghost predicate Runs(q: Manifest, c: Command, cards: map<string, Card>, inventory: Inventory, q': Manifest) {
    || q' == q
    || ((c.Reconcile? || ValidOver(q, cards, inventory)) && Steps(q, c, inventory, q') && ValidOver(q', cards, inventory))
  }

  predicate GivesUp(c: Command) {
    c.Shift? && (c.move.operation.Release? || c.move.operation.Block?)
  }

  /**
   * The validation that ends run is needed only after release, block and reconciliation: every other step keeps
   * the invariant by itself.
   */
  lemma FinalValidationIsRedundant(q: Manifest, c: Command, cards: map<string, Card>, inventory: Inventory, q': Manifest)
    requires ValidOver(q, cards, inventory) && Steps(q, c, inventory, q')
    requires !GivesUp(c) && !c.Reconcile?
    ensures ValidOver(q', cards, inventory)
  {
    hide ValidOver, MoveAllowed, ContinueAllowed, AfterContinue, AfterMove;
    match c {
      case Check =>
      case Format => RearrangedIsValid(q, q'.records, cards, inventory);
      case Shift(m) => MoveKeepsValid(q, m, cards, inventory);
      case VerifyBatch(batchID, owner, corpusHash, metadata) =>
        var m := VerifyMove(batchID, owner);
        MoveKeepsValid(q, m, cards, inventory);
        RulesAreNotValidated(AfterMove(q, m, inventory), q', cards, inventory);
      case Continue(operation, batchID, owner, plan) =>
        ContinueKeepsValid(q, operation, batchID, owner, plan, cards, inventory);
    }
  }

  lemma RulesAreNotValidated(q: Manifest, q': Manifest, cards: map<string, Card>, inventory: Inventory)
    requires q' == q.(rules := q'.rules)
    ensures ValidOver(q, cards, inventory) <==> ValidOver(q', cards, inventory)
  {
  }

  // ----- what one command can do to one record -----

  predicate Finished(status: Status) {
    status.ImplementedVerified? || status.InstalledCompiled? || status.Excluded?
  }

  ghost predicate RecordEvolves(r: Record, r': Record) {
    && r'.oracleID == r.oracleID && r'.revision == r.revision && r'.name == r.name
    && r'.decks == r.decks && r'.keys == r.keys
    && (Finished(r.status) ==> r' == r)
    && r.reassessments <= r'.reassessments
  }

  /** A claimed record keeps its claim unless its own owner releases, blocks or verifies its batch. */
  ghost predicate ClaimKept(r: Record, r': Record, c: Command) {
    r.status.Claimed? ==>
      || (r'.status.Claimed? && r'.owner == r.owner && r'.batch == r.batch)
      || (GivesUp(c) && c.move.owner == r.owner && c.move.batchID == r.batch)
      || (c.VerifyBatch? && c.owner == r.owner && c.batchID == r.batch)
  }

  ghost predicate RecordSteps(r: Record, r': Record, c: Command) {
    RecordEvolves(r, r') && ClaimKept(r, r', c)
  }

  ghost predicate StepsInto(r: Record, records: seq<Record>, c: Command) {
    exists j | 0 <= j < |records| :: RecordSteps(r, records[j], c)
  }

  ghost predicate EveryRecordSteps(q: Manifest, c: Command, q': Manifest) {
    forall i | 0 <= i < |q.records| :: StepsInto(q.records[i], q'.records, c)
  }

  lemma StepInPlace(q: Manifest, c: Command, q': Manifest)
    requires |q.records| <= |q'.records|
    requires forall i | 0 <= i < |q.records| :: RecordSteps(q.records[i], q'.records[i], c)
    ensures EveryRecordSteps(q, c, q')
  {
    hide RecordSteps;
    forall i | 0 <= i < |q.records| ensures StepsInto(q.records[i], q'.records, c) {
      assert RecordSteps(q.records[i], q'.records[i], c);
    }
  }

  lemma MovedRecordSteps(m: Move, r: Record, c: Command, inventory: Inventory)
    requires (c == Shift(m) && !m.operation.Verify?) || (m.operation.Verify? && c.VerifyBatch? && c.batchID == m.batchID && c.owner == m.owner)
    requires r.batch == m.batchID ==> Movable(m, r, inventory)
    requires m.operation.Claim? && r.status.Claimed? ==> r.owner == m.owner && r.batch == m.batchID
    ensures RecordSteps(r, Moved(m, r, inventory), c)
  {
  }

  lemma MoveSteps(q: Manifest, m: Move, c: Command, cards: map<string, Card>, inventory: Inventory)
    requires ValidOver(q, cards, inventory) && MoveAllowed(q, m, inventory)
    requires (c == Shift(m) && !m.operation.Verify?) || (m.operation.Verify? && c.VerifyBatch? && c.batchID == m.batchID && c.owner == m.owner)
    ensures EveryRecordSteps(q, c, AfterMove(q, m, inventory))
  {
    if m.operation.Claim? {
      ClaimsBeforeClaim(q, m, cards, inventory);
    }
    hide ValidOver, Moved, Movable, RecordSteps, OffersBatch, CountMembers;
    forall i | 0 <= i < |q.records| ensures RecordSteps(q.records[i], Moved(m, q.records[i], inventory), c) {
      MovedRecordSteps(m, q.records[i], c, inventory);
    }
    StepInPlace(q, c, AfterMove(q, m, inventory));
  }

  lemma EditSteps(
    q: Manifest, c: Command, q': Manifest, candidates: seq<ReviewedRecord>, acceptable: ReviewedRecord -> bool,
    fits: (Record, ReviewedRecord) -> bool, edit: (Record, ReviewedRecord) -> Record)
    requires NoClaims(q.records) && EditsNamed(q.records, q'.records, candidates, acceptable, fits, edit)
    requires forall r: Record, p: ReviewedRecord | fits(r, p) :: RecordEvolves(r, edit(r, p))
    ensures EveryRecordSteps(q, c, q')
  {
    forall i | 0 <= i < |q.records| ensures RecordSteps(q.records[i], q'.records[i], c) {
      if Names(candidates, q.records[i].oracleID) {
        var p: ReviewedRecord :| q'.records[i] == edit(q.records[i], p) && fits(q.records[i], p);
      }
    }
    StepInPlace(q, c, q');
  }

  lemma RetiredRecordSteps(r: Record, edited: Record, b: Batch, c: Command)
    requires Retired(r, edited, b) && !r.status.Claimed? && (r.batch == b.id ==> r.status.Unclaimed?)
    ensures RecordSteps(r, edited, c)
  {
  }

  lemma RetireSteps(q: Manifest, batchID: string, plan: Plan, c: Command, cards: map<string, Card>, inventory: Inventory)
    requires ValidOver(q, cards, inventory) && NoClaims(q.records) && RetireAllowed(q, batchID, plan)
    ensures EveryRecordSteps(q, c, AfterRetire(q, batchID, plan.records))
  {
    RetiredRecords(q, batchID, plan, cards, inventory);
    var q' := AfterRetire(q, batchID, plan.records);
    var b := q.batches[FindBatch(q.batches, batchID)];
    assert forall i | 0 <= i < |q.records| && q.records[i].batch == b.id :: q.records[i].status == Unclaimed;
    hide ValidOver, AfterRetire, RetireAllowed, RecordSteps, Retired;
    forall i | 0 <= i < |q.records| ensures RecordSteps(q.records[i], q'.records[i], c) {
      RetiredRecordSteps(q.records[i], q'.records[i], b, c);
    }
    StepInPlace(q, c, q');
  }

  lemma ContinueSteps(
    q: Manifest, operation: Continuation, batchID: string, owner: string, plan: Plan, c: Command,
    cards: map<string, Card>, inventory: Inventory)
    requires ValidOver(q, cards, inventory) && ContinueAllowed(q, operation, batchID, owner, plan)
    ensures EveryRecordSteps(q, c, AfterContinue(q, operation, batchID, plan))
  {
    var q' := AfterContinue(q, operation, batchID, plan);
    ValidIDs(q, cards, inventory);
    match operation {
      case RecordBlockers =>
        hide *;
        BlockersSteps(q, plan.records, c);
      case Reassess =>
        hide *;
        ReassessSteps(q, plan.records, c);
      case RetireBatch =>
        hide *;
        RetireSteps(q, batchID, plan, c, cards, inventory);
      case AddReviewedBatch =>
        hide *;
        AddSteps(q, batchID, plan, c);
      case RecordPrerequisites =>
        hide ValidOver, RecordEvolves;
        assert forall i | 0 <= i < |q.records| :: RecordSteps(q.records[i], q'.records[i], c) by {
          SameRecordSteps(q.records, c);
        }
        StepInPlace(q, c, q');
    }
  }

  lemma SameRecordSteps(records: seq<Record>, c: Command)
    ensures forall i | 0 <= i < |records| :: RecordSteps(records[i], records[i], c)
  {
  }

  lemma BlockersSteps(q: Manifest, candidates: seq<ReviewedRecord>, c: Command)
    requires Distinct(RecordIDs(q.records)) && NoClaims(q.records) && BlockersAllowed(q, candidates)
    ensures EveryRecordSteps(q, c, AfterBlockers(q, candidates))
  {
    PlanEditsNamed(q.records, candidates, TriagedBlocker, ExactAndFree, MarkBlocked);
    hide EditsNamed, EveryRecordSteps, Edited, CandidatesFit, Distinct;
    EditSteps(q, c, AfterBlockers(q, candidates), candidates, TriagedBlocker, ExactAndFree, MarkBlocked);
  }

  lemma ReassessSteps(q: Manifest, candidates: seq<ReviewedRecord>, c: Command)
    requires Distinct(RecordIDs(q.records)) && NoClaims(q.records) && ReassessAllowed(q, candidates)
    ensures EveryRecordSteps(q, c, AfterReassess(q, candidates))
  {
    PlanEditsNamed(q.records, candidates, PlainReassessment, ReassessmentFits, Reopen);
    EditSteps(q, c, AfterReassess(q, candidates), candidates, PlainReassessment, ReassessmentFits, Reopen);
  }

  lemma AddSteps(q: Manifest, batchID: string, plan: Plan, c: Command)
    requires Distinct(RecordIDs(q.records)) && NoClaims(q.records) && AddAllowed(q, batchID, plan)
    ensures EveryRecordSteps(q, c, AfterAdd(q, plan.batches[0], plan.records))
  {
    var b := plan.batches[0];
    PlanEditsNamed(q.records, plan.records, Joining(b), ExactAndFree, Assign(b));
    EditSteps(q, c, AfterAdd(q, b, plan.records), plan.records, Joining(b), ExactAndFree, Assign(b));
  }

  lemma ReconcileSteps(q: Manifest, installation: Installation, c: Command, inventory: Inventory)
    requires NoClaims(q.records)
    ensures EveryRecordSteps(q, c, AfterReconcile(q, installation, inventory))
  {
    hide Available;
    StepInPlace(q, c, AfterReconcile(q, installation, inventory));
  }

  lemma FormatSteps(q: Manifest, sorted: seq<Record>, c: Command)
    requires multiset(sorted) == multiset(q.records)
    ensures EveryRecordSteps(q, c, q.(records := sorted))
  {
    hide RecordSteps;
    SameRecordSteps(q.records, c);
    forall i | 0 <= i < |q.records| ensures StepsInto(q.records[i], sorted, c) {
      assert q.records[i] in multiset(sorted);
      var j :| 0 <= j < |sorted| && sorted[j] == q.records[i];
      assert RecordSteps(q.records[i], sorted[j], c);
    }
  }

  /** No command ends someone else's claim, touches a finished record or what describes a card, or drops a reassessment. */
  lemma CommandStepsRecords(q: Manifest, c: Command, cards: map<string, Card>, inventory: Inventory, q': Manifest)
    requires Runs(q, c, cards, inventory, q')
    ensures EveryRecordSteps(q, c, q')
  {
    hide ValidOver, MoveAllowed, ContinueAllowed, AfterContinue, AfterMove, EveryRecordSteps, AfterReconcile;
    if q' == q {
      SameRecordSteps(q.records, c);
      StepInPlace(q, c, q);
    } else {
      match c {
        case Check =>
        case Format => FormatSteps(q, q'.records, c);
        case Shift(m) => MoveSteps(q, m, c, cards, inventory);
        case VerifyBatch(batchID, owner, corpusHash, metadata) =>
          var m := VerifyMove(batchID, owner);
          MoveSteps(q, m, c, cards, inventory);
          SameRecords(AfterMove(q, m, inventory), q', q, c);
        case Continue(operation, batchID, owner, plan) =>
          ContinueSteps(q, operation, batchID, owner, plan, c, cards, inventory);
        case Reconcile(installation) => ReconcileSteps(q, installation.value, c, inventory);
      }
    }
  }

  lemma SameRecords(one: Manifest, other: Manifest, q: Manifest, c: Command)
    requires one.records == other.records && EveryRecordSteps(q, c, one)
    ensures EveryRecordSteps(q, c, other)
  {
    hide StepsInto;
  }

  // ----- what one command can do to the batches -----

  /** A live batch stays, with its evidence extended at most, or is retired; a retired one stays as it is. */
  ghost predicate BatchEvolves(b: Batch, b': Batch) {
    b'.id == b.id && b'.oracleIDs == b.oracleIDs && b.evidence <= b'.evidence
  }

  ghost predicate EvolvesInto(b: Batch, batches: seq<Batch>) {
    exists l | 0 <= l < |batches| :: BatchEvolves(b, batches[l])
  }

  ghost predicate BatchesEvolve(q: Manifest, q': Manifest) {
    && (forall k | 0 <= k < |q.batches| :: EvolvesInto(q.batches[k], q'.batches) || EvolvesInto(q.batches[k], q'.retired))
    && q.retired <= q'.retired
  }

  lemma BatchesEvolveInPlace(q: Manifest, q': Manifest)
    requires |q.batches| <= |q'.batches| && q.retired <= q'.retired
    requires forall k | 0 <= k < |q.batches| :: BatchEvolves(q.batches[k], q'.batches[k])
    ensures BatchesEvolve(q, q')
  {
    hide BatchEvolves;
    forall k | 0 <= k < |q.batches| ensures EvolvesInto(q.batches[k], q'.batches) {
      assert BatchEvolves(q.batches[k], q'.batches[k]);
    }
  }

  lemma SameBatchesEvolve(q: Manifest, q': Manifest)
    requires q'.batches == q.batches && q'.retired == q.retired
    ensures BatchesEvolve(q, q')
  {
    BatchesEvolveInPlace(q, q');
  }

  lemma ContinueEvolvesBatches(q: Manifest, operation: Continuation, batchID: string, plan: Plan)
    requires PlanAllowed(q, operation, batchID, plan)
    ensures BatchesEvolve(q, AfterContinue(q, operation, batchID, plan))
  {
    var q' := AfterContinue(q, operation, batchID, plan);
    hide CandidatesFit, Edited;
    match operation {
      case RecordBlockers => SameBatchesEvolve(q, q');
      case Reassess => SameBatchesEvolve(q, q');
      case AddReviewedBatch => BatchesEvolveInPlace(q, q');
      case RecordPrerequisites => BatchesEvolveInPlace(q, q');
      case RetireBatch =>
        var n := FindBatch(q.batches, batchID);
        assert q'.retired[|q.retired|] == q.batches[n];
        forall k | 0 <= k < |q.batches|
          ensures EvolvesInto(q.batches[k], q'.batches) || EvolvesInto(q.batches[k], q'.retired)
        {
          if k == n {
            assert BatchEvolves(q.batches[k], q'.retired[|q.retired|]);
          } else {
            assert BatchEvolves(q.batches[k], q'.batches[if k < n then k else k - 1]);
          }
        }
    }
  }

  lemma CommandEvolvesBatches(q: Manifest, c: Command, cards: map<string, Card>, inventory: Inventory, q': Manifest)
    requires Runs(q, c, cards, inventory, q')
    ensures BatchesEvolve(q, q')
  {
    hide ValidOver, MoveAllowed, PlanAllowed, AfterContinue, BatchesEvolve;
    if q' != q && c.Continue? {
      ContinueEvolvesBatches(q, c.operation, c.batchID, c.plan);
    } else {
      SameBatchesEvolve(q, q');
    }
  }

  // ----- whole runs -----

  /** A history of saved manifests, each produced from the one before by one command under its own inventory. */
  ghost predicate History(
    trace: seq<Manifest>, commands: seq<Command>, inventories: seq<Inventory>, cards: map<string, Card>)
  {
    && |trace| == |commands| + 1 && |inventories| == |commands|
    && forall i | 0 <= i < |commands| :: Runs(trace[i], commands[i], cards, inventories[i], trace[i + 1])
  }

  ghost predicate Evolves(q: Manifest, q': Manifest) {
    && (forall i | 0 <= i < |q.records| :: RecordSurvives(q.records[i], q'.records))
    && BatchesEvolve(q, q')
  }

  ghost predicate RecordSurvives(r: Record, records: seq<Record>) {
    exists j | 0 <= j < |records| :: RecordEvolves(r, records[j])
  }

  lemma BatchesEvolveTransitive(a: Manifest, b: Manifest, c: Manifest)
    requires BatchesEvolve(a, b) && BatchesEvolve(b, c)
    ensures BatchesEvolve(a, c)
  {
    assert forall x: Batch, y: Batch, z: Batch | BatchEvolves(x, y) && BatchEvolves(y, z) :: BatchEvolves(x, z);
    hide BatchEvolves;
    forall k | 0 <= k < |a.batches|
      ensures EvolvesInto(a.batches[k], c.batches) || EvolvesInto(a.batches[k], c.retired)
    {
      if EvolvesInto(a.batches[k], b.batches) {
        var l :| 0 <= l < |b.batches| && BatchEvolves(a.batches[k], b.batches[l]);
        if EvolvesInto(b.batches[l], c.batches) {
          var m :| 0 <= m < |c.batches| && BatchEvolves(b.batches[l], c.batches[m]);
          assert BatchEvolves(a.batches[k], c.batches[m]);
        } else {
          var m :| 0 <= m < |c.retired| && BatchEvolves(b.batches[l], c.retired[m]);
          assert BatchEvolves(a.batches[k], c.retired[m]);
        }
      } else {
        var l :| 0 <= l < |b.retired| && BatchEvolves(a.batches[k], b.retired[l]);
        assert c.retired[l] == b.retired[l];
        assert BatchEvolves(a.batches[k], c.retired[l]);
      }
    }
  }

  lemma EvolvesTransitive(a: Manifest, b: Manifest, c: Manifest)
    requires Evolves(a, b) && Evolves(b, c)
    ensures Evolves(a, c)
  {
    BatchesEvolveTransitive(a, b, c);
    assert forall x: Record, y: Record, z: Record | RecordEvolves(x, y) && RecordEvolves(y, z) :: RecordEvolves(x, z);
    hide BatchesEvolve, RecordEvolves;
    forall i | 0 <= i < |a.records| ensures RecordSurvives(a.records[i], c.records) {
      var k :| 0 <= k < |b.records| && RecordEvolves(a.records[i], b.records[k]);
      var j :| 0 <= j < |c.records| && RecordEvolves(b.records[k], c.records[j]);
      assert RecordEvolves(a.records[i], c.records[j]);
    }
  }

  lemma CommandEvolves(q: Manifest, c: Command, cards: map<string, Card>, inventory: Inventory, q': Manifest)
    requires Runs(q, c, cards, inventory, q')
    ensures Evolves(q, q')
  {
    CommandStepsRecords(q, c, cards, inventory, q');
    CommandEvolvesBatches(q, c, cards, inventory, q');
    hide Runs, BatchesEvolve, ClaimKept, RecordEvolves;
    forall i | 0 <= i < |q.records| ensures RecordSurvives(q.records[i], q'.records) {
      assert StepsInto(q.records[i], q'.records, c);
      var j :| 0 <= j < |q'.records| && RecordSteps(q.records[i], q'.records[j], c);
    }
  }

  lemma SelfEvolves(q: Manifest)
    ensures Evolves(q, q)
  {
    SameBatchesEvolve(q, q);
    hide BatchesEvolve;
    forall i | 0 <= i < |q.records| ensures RecordSurvives(q.records[i], q.records) {
      assert RecordEvolves(q.records[i], q.records[i]);
    }
  }

  /**
   * Over any run: a finished record is never touched again, reassessments and prerequisite evidence only grow,
   * retired batches stay retired, no identity disappears from the records, and what describes a card never changes.
   */
  lemma {:induction false} HistoryEvolves(
    trace: seq<Manifest>, commands: seq<Command>, inventories: seq<Inventory>, cards: map<string, Card>, start: nat, end: nat)
    requires History(trace, commands, inventories, cards) && start <= end < |trace|
    ensures Evolves(trace[start], trace[end])
    decreases end
  {
    hide Evolves, Runs;
    if start == end {
      SelfEvolves(trace[start]);
    } else {
      HistoryEvolves(trace, commands, inventories, cards, start, end - 1);
      CommandEvolves(trace[end - 1], commands[end - 1], cards, inventories[end - 1], trace[end]);
      EvolvesTransitive(trace[start], trace[end - 1], trace[end]);
    }
  }

  /** Every saved manifest of a run from a well-formed one is well-formed, whatever the inventory did meanwhile. */
  lemma {:induction false} HistoryStaysFormed(
    trace: seq<Manifest>, commands: seq<Command>, inventories: seq<Inventory>, cards: map<string, Card>, n: nat)
    requires History(trace, commands, inventories, cards) && n < |trace| && Formed(trace[0], cards)
    ensures Formed(trace[n], cards)
  {
    if n > 0 {
      HistoryStaysFormed(trace, commands, inventories, cards, n - 1);
      ValidIsFormedAndBacked(trace[n], cards, inventories[n - 1]);
      hide ValidOver, Formed, Steps;
      assert Runs(trace[n - 1], commands[n - 1], cards, inventories[n - 1], trace[n]);
    }
  }

  /** A step never leaves its corpus: the queue keeps its hash, and what it was given was made for the same one. */
  lemma StepsStayInCorpus(q: Manifest, c: Command, inventory: Inventory, q': Manifest)
    requires Steps(q, c, inventory, q')
    ensures q'.corpusSHA256 == q.corpusSHA256
    ensures c.Continue? ==> c.plan.corpusSHA256 == q.corpusSHA256
    ensures c.VerifyBatch? ==> c.corpusHash == q.corpusSHA256
    ensures c.Reconcile? ==> c.installation.Some? && c.installation.value.corpusSHA256 == q.corpusSHA256
  {
    hide PlanAllowed, MoveAllowed, EvidenceBinds, InstallationFormed;
  }

  lemma {:induction false} CorpusNeverChanges(
    trace: seq<Manifest>, commands: seq<Command>, inventories: seq<Inventory>, cards: map<string, Card>, n: nat)
    requires History(trace, commands, inventories, cards) && n < |trace|
    ensures trace[n].corpusSHA256 == trace[0].corpusSHA256
  {
    hide Steps, ValidOver;
    if n > 0 {
      CorpusNeverChanges(trace, commands, inventories, cards, n - 1);
      assert Runs(trace[n - 1], commands[n - 1], cards, inventories[n - 1], trace[n]);
      if trace[n] != trace[n - 1] {
        StepsStayInCorpus(trace[n - 1], commands[n - 1], inventories[n - 1], trace[n]);
      }
    }
  }

  /** At every point of a run at most one owner holds claims, all on one batch. */
  lemma OneOwnerAtATime(
    trace: seq<Manifest>, commands: seq<Command>, inventories: seq<Inventory>, cards: map<string, Card>, n: nat, i: nat, j: nat)
    requires History(trace, commands, inventories, cards) && n < |trace| && Formed(trace[0], cards)
    requires i < |trace[n].records| && j < |trace[n].records|
    requires trace[n].records[i].status.Claimed? && trace[n].records[j].status.Claimed?
    ensures trace[n].records[i].owner == trace[n].records[j].owner
    ensures trace[n].records[i].batch == trace[n].records[j].batch
  {
    HistoryStaysFormed(trace, commands, inventories, cards, n);
  }

  /** At any point of a run, reconciling under whatever inventory there is by then can be judged in advance. */
  lemma ReconcileAtAnyPoint(
    trace: seq<Manifest>, commands: seq<Command>, inventories: seq<Inventory>, cards: map<string, Card>, n: nat,
    installation: Installation, inventory: Inventory)
    requires History(trace, commands, inventories, cards) && n < |trace| && Formed(trace[0], cards)
    requires ReconcileAllowed(trace[n], Some(installation))
    ensures Known(trace[n].records, cards) && Known(trace[n].baseline, cards)
    ensures Runs(trace[n], Reconcile(Some(installation)), cards, inventory, AfterReconcile(trace[n], installation, inventory))
       <==> || AfterReconcile(trace[n], installation, inventory) == trace[n]
            || (MovedReassessmentsSound(trace[n], inventory) && Settles(trace[n], installation, inventory, cards))
  {
    hide Formed, ValidOver, History, AfterReconcile, MovedReassessmentsSound, Settles;
    HistoryStaysFormed(trace, commands, inventories, cards, n);
    ReconcileKeepsValid(trace[n], cards, installation, inventory);
  }

  /** A retired batch ID is never live again. */
  lemma RetiredIDsAreSpent(
    trace: seq<Manifest>, commands: seq<Command>, inventories: seq<Inventory>, cards: map<string, Card>, start: nat, end: nat, k: nat)
    requires History(trace, commands, inventories, cards) && start <= end < |trace| && Formed(trace[0], cards)
    requires k < |trace[start].retired|
    ensures trace[start].retired[k].id !in BatchIDs(trace[end].batches)
  {
    HistoryEvolves(trace, commands, inventories, cards, start, end);
    HistoryStaysFormed(trace, commands, inventories, cards, end);
    var id, live, spent := trace[start].retired[k].id, BatchIDs(trace[end].batches), BatchIDs(trace[end].retired);
    assert trace[end].retired[k] == trace[start].retired[k] && spent[k] == id;
    assert forall l | 0 <= l < |live| :: live[l] == trace[end].batches[l].id;
  }

  ghost predicate StillClaimed(r: Record, records: seq<Record>) {
    exists j | 0 <= j < |records| ::
      records[j].oracleID == r.oracleID && records[j].status.Claimed? && records[j].owner == r.owner && records[j].batch == r.batch
  }

  /**
   * A claim held at one point of a run and not kept at the next was given up by its own owner: that command is a
   * release, block or verification of the batch by the owner of the claim.
   */
  lemma OnlyTheOwnerEndsAClaim(
    trace: seq<Manifest>, commands: seq<Command>, inventories: seq<Inventory>, cards: map<string, Card>, n: nat, i: nat)
    requires History(trace, commands, inventories, cards) && n < |commands|
    requires i < |trace[n].records| && trace[n].records[i].status.Claimed?
    requires !StillClaimed(trace[n].records[i], trace[n + 1].records)
    ensures var r, c := trace[n].records[i], commands[n];
            || (GivesUp(c) && c.move.owner == r.owner && c.move.batchID == r.batch)
            || (c.VerifyBatch? && c.owner == r.owner && c.batchID == r.batch)
  {
    CommandStepsRecords(trace[n], commands[n], cards, inventories[n], trace[n + 1]);
    assert StepsInto(trace[n].records[i], trace[n + 1].records, commands[n]);
  }
}
