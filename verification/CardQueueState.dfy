/**
 * The live manifest: the steps write through a copy of a slice and commit by assignment.
 * Records, associations and batches are slices of arrays, so that a write which reached an original slice would show.
 */
module CardQueueState {
  import opened Collections
  import opened GoSlices
  import opened Text
  import opened Options
  import opened Queue
  import opened QueueInvariant
  import opened QueueSteps
  import opened QueueReconcile
  import opened QueueEvidence
  import opened QueueOrder
  import opened QueueSeed
  import Sorting
  import Validate

  class CardQueue {
    var corpusSHA256: string
    var batches: Slice<Batch>
    var retired: Slice<Batch>
    var records: Slice<Record>
    var baseline: Slice<Record>
    var corrected: Slice<Record>
    var rules: RulesEvidence

    /** The slices the reconciliation writes do not overlap. */
    ghost predicate Valid()
      reads this
    {
      && batches.Valid() && retired.Valid() && records.Valid() && baseline.Valid() && corrected.Valid()
      && records.data != baseline.data && records.data != corrected.data && baseline.data != corrected.data
    }

    ghost function Value(): Manifest
      requires Valid()
      reads this, batches.data, retired.data, records.data, baseline.data, corrected.data
    {
      Manifest(corpusSHA256, batches.View(), retired.View(), records.View(), baseline.View(), corrected.View(), rules)
    }

    /** Nothing reachable from the manifest was written, spare capacity included, and no field was assigned. */
    twostate predicate Untouched()
      reads this, batches.data, retired.data, records.data, baseline.data, corrected.data
    {
      unchanged(this) && unchanged(batches.data, retired.data, records.data, baseline.data, corrected.data)
    }

    /** Only the record slice was replaced, by a fresh one. */
    twostate predicate OnlyRecordsReplaced()
      reads this
    {
      && unchanged(`corpusSHA256) && unchanged(`batches) && unchanged(`retired) && unchanged(`baseline)
      && unchanged(`corrected) && unchanged(`rules)
      && fresh(records.data)
    }

    /** updated := *queue: a struct copy that shares every slice. */
    constructor Copy(queue: CardQueue)
      requires queue.Valid()
      ensures Valid() && Value() == queue.Value()
      ensures records == queue.records && baseline == queue.baseline && corrected == queue.corrected
      ensures batches == queue.batches && retired == queue.retired
    {
      corpusSHA256, batches, retired := queue.corpusSHA256, queue.batches, queue.retired;
      records, baseline, corrected, rules := queue.records, queue.baseline, queue.corrected, queue.rules;
    }

    /** The manifest as it was read. */
    constructor Load(m: Manifest)
      ensures Valid() && Value() == m
      ensures fresh(records.data) && fresh(baseline.data) && fresh(corrected.data)
    {
      corpusSHA256, rules := m.corpusSHA256, m.rules;
      var live := FromSeq(m.batches);
      var dead := FromSeq(m.retired);
      var rows := FromSeq(m.records);
      var kept := FromSeq(m.baseline);
      var moved := FromSeq(m.corrected);
      batches, retired, records, baseline, corrected := live, dead, rows, kept, moved;
    }

    method CountStatus(batchID: string, status: Status) returns (count: nat)
      requires Valid()
      ensures count == CountIn(records.View(), batchID, status)
    {
      ghost var q := records.View();
      count := 0;
      for i := 0 to records.length
        invariant count == CountIn(q[..i], batchID, status)
      {
        assert q[..i + 1][..i] == q[..i] && records.data[i] == q[i];
        if records.data[i].batch == batchID && records.data[i].status == status {
          count := count + 1;
        }
      }
      assert q[..records.length] == q;
    }

    method NextBatch(owner: string) returns (offer: Offer)
      requires Valid()
      ensures IsNext(Value(), owner, offer)
    {
      ghost var q := Value();
      for i := 0 to records.length
        invariant forall a | 0 <= a < i :: !HeldByOther(q.records[a], owner)
      {
        assert records.data[i] == q.records[i];
        if records.data[i].status == Claimed && records.data[i].owner != owner {
          assert HeldByOther(q.records[i], owner);
          return Refused(records.data[i].owner);
        }
      }
      assert !HeldElsewhere(q, owner);
      var found;
      found, offer := FirstOf(Claimed);
      if found {
        return;
      }
      found, offer := FirstOf(Unclaimed);
    }

    /** One pass of the loop over the two statuses. */
    method FirstOf(status: Status) returns (found: bool, offer: Offer)
      requires Valid()
      ensures found ==> offer.Offered? && FirstIs(Value(), offer.batch, status)
      ensures !found ==> offer.Nothing? && NoneBefore(Value(), |Value().batches|, status)
    {
      ghost var q := Value();
      for k := 0 to batches.length
        invariant NoneBefore(q, k, status)
      {
        var b := batches.data[k];
        assert b == q.batches[k];
        if status == Unclaimed && !Ready(b) {
          continue;
        }
        var count := CountStatus(b.id, status);
        if count == |b.oracleIDs| {
          assert FirstAt(q, k, status);
          return true, Offered(b);
        }
      }
      return false, Nothing;
    }

    method Transition(m: Move, inventory: Inventory) returns (outcome: Outcome)
      requires Valid()
      modifies this
      ensures Valid()
      ensures outcome.Pass? <==> MoveAllowed(old(Value()), m, inventory)
      ensures outcome.Pass? ==> OnlyRecordsReplaced() && Value() == AfterMove(old(Value()), m, inventory)
      ensures outcome.Fail? ==> Untouched()
      ensures unchanged(old(batches.data), old(retired.data), old(records.data), old(baseline.data), old(corrected.data))
    {
      hide Moved, Movable, CountMembers, OffersBatch, MoveFormed;
      outcome := CheckMove(m);
      if outcome.Fail? {
        return;
      }
      ghost var q := Value();
      var updated;
      outcome, updated := MoveMembers(records, m, inventory);
      if outcome.Pass? {
        records := Whole(updated);
        assert records.View() == AfterMove(q, m, inventory).records;
      }
    }

    /** The checks of transition before its loop. */
    method CheckMove(m: Move) returns (outcome: Outcome)
      requires Valid()
      ensures outcome.Pass? <==>
                MoveFormed(m) && (m.operation.Claim? ==> OffersBatch(Value(), m.owner, m.batchID))
    {
      hide OffersBatch, IsNext;
      if m.batchID == "" || IsBlank(m.owner) {
        return Fail("needs batch and owner");
      }
      if m.operation.OtherOperation? {
        return Fail("invalid transition");
      }
      if m.operation.Block? && (m.blocker <= 0 || IsBlank(m.reason)) {
        return Fail("needs issue and reason");
      }
      if m.operation.Claim? {
        var next := NextBatch(m.owner);
        OfferIsUnique(Value(), m.owner, next, m.batchID);
        if next.Refused? {
          return Fail("active writer");
        }
        if next.Nothing? || next.batch.id != m.batchID {
          return Fail("not the next batch");
        }
      }
      return Pass;
    }

    /** Verification works on a copy of the manifest and commits it only when the evidence binds as well. */
    method VerifyBatch(
      batchID: string, owner: string, inventory: Inventory, corpusHash: string, metadata: Option<seq<Metadata>>)
      returns (outcome: Outcome)
      requires Valid()
      modifies this
      ensures Valid()
      ensures outcome.Pass? <==> VerifyAllowed(old(Value()), batchID, owner, inventory, corpusHash, metadata)
      ensures outcome.Pass? ==> Value() == AfterVerify(old(Value()), batchID, owner, inventory, metadata.value)
      ensures outcome.Fail? ==> Untouched()
      ensures unchanged(old(batches.data), old(retired.data), old(records.data), old(baseline.data), old(corrected.data))
    {
      hide MoveAllowed, AfterMove, SourcesFormed, MetadataFormed, BindUpTo;
      if corpusHash != corpusSHA256 {
        return Fail("not the pinned corpus");
      }
      ghost var q := Value();
      var updated := new CardQueue.Copy(this);
      outcome := updated.Transition(VerifyMove(batchID, owner), inventory);
      if outcome.Fail? {
        return;
      }
      assert updated.records.View() == AfterMove(q, VerifyMove(batchID, owner), inventory).records;
      var sources;
      outcome, sources := BindEvidence(rules, updated.records, batchID, metadata);
      if outcome.Fail? {
        return;
      }
      records, rules := updated.records, Rules(Some(sources), false);
      MoveKeepsOtherFields(q, VerifyMove(batchID, owner), inventory);
    }

    method Continue(operation: Continuation, batchID: string, owner: string, plan: Plan) returns (outcome: Outcome)
      requires Valid()
      modifies this
      ensures Valid()
      ensures outcome.Pass? <==> ContinueAllowed(old(Value()), operation, batchID, owner, plan)
      ensures outcome.Pass? ==> Value() == AfterContinue(old(Value()), operation, batchID, plan)
      ensures outcome.Fail? ==> Untouched()
      ensures unchanged(old(batches.data), old(retired.data), old(records.data), old(baseline.data), old(corrected.data))
    {
      hide PlanAllowed, AfterContinue;
      outcome := CheckPlan(owner, plan);
      if outcome.Pass? {
        outcome := Dispatch(operation, batchID, plan);
      }
    }

    /** The checks every continuation step begins with. */
    method CheckPlan(owner: string, plan: Plan) returns (outcome: Outcome)
      requires Valid()
      ensures outcome.Pass? <==> PlanFormed(Value(), owner, plan)
    {
      if IsBlank(owner) {
        return Fail("needs owner");
      }
      if plan.corpusSHA256 == "" || plan.corpusSHA256 != corpusSHA256 {
        return Fail("stale plan");
      }
      var free := NobodyClaims(records);
      if !free {
        return Fail("active writer");
      }
      return Pass;
    }

    method Dispatch(operation: Continuation, batchID: string, plan: Plan) returns (outcome: Outcome)
      requires Valid()
      modifies this
      ensures Valid()
      ensures outcome.Pass? <==> PlanAllowed(old(Value()), operation, batchID, plan)
      ensures outcome.Pass? ==> Value() == AfterContinue(old(Value()), operation, batchID, plan)
      ensures outcome.Fail? ==> Untouched()
    {
      hide RetireAllowed, AddAllowed, PrerequisitesAllowed, BlockersAllowed, ReassessAllowed, OnlyRecordsReplaced;
      hide AfterRetire, AfterAdd, AfterPrerequisites, AfterBlockers, AfterReassess;
      match operation {
        case RecordBlockers =>
          outcome := RecordBlockers(batchID, plan);
        case Reassess =>
          outcome := ReassessRecords(batchID, plan);
        case RetireBatch =>
          outcome := RetireBatch(batchID, plan);
        case OtherContinuation(_) =>
          return Fail("invalid operation");
        case AddReviewedBatch =>
          outcome := AddReviewedBatch(batchID, plan);
        case RecordPrerequisites =>
          outcome := RecordPrerequisites(batchID, plan);
      }
    }

    method RecordBlockers(batchID: string, plan: Plan) returns (outcome: Outcome)
      requires Valid()
      modifies this
      ensures Valid()
      ensures outcome.Pass? <==> PlanAllowed(old(Value()), Continuation.RecordBlockers, batchID, plan)
      ensures outcome.Pass? ==> OnlyRecordsReplaced() && Value() == AfterBlockers(old(Value()), plan.records)
      ensures outcome.Fail? ==> Untouched()
    {
      hide CandidatesFit, Edited;
      if batchID != "" || |plan.batches| != 0 {
        return Fail("takes records only");
      }
      if |plan.records| == 0 {
        return Fail("needs a record");
      }
      var updated, seen;
      outcome, updated, seen := EditCandidates(records, plan.records, TriagedBlocker, ExactAndFree, MarkBlocked);
      if outcome.Pass? {
        records := Whole(updated);
      }
    }

    method ReassessRecords(batchID: string, plan: Plan) returns (outcome: Outcome)
      requires Valid()
      modifies this
      ensures Valid()
      ensures outcome.Pass? <==> PlanAllowed(old(Value()), Reassess, batchID, plan)
      ensures outcome.Pass? ==> OnlyRecordsReplaced() && Value() == AfterReassess(old(Value()), plan.records)
      ensures outcome.Fail? ==> Untouched()
    {
      hide ReassessAllowed, Edited;
      if batchID != "" || |plan.batches| != 0 {
        return Fail("takes records only");
      }
      var updated;
      outcome, updated := PlanReassessment(records, plan.records, Value());
      if outcome.Pass? {
        records := Whole(updated);
      }
    }

    method RetireBatch(batchID: string, plan: Plan) returns (outcome: Outcome)
      requires Valid()
      modifies this
      ensures Valid()
      ensures outcome.Pass? <==> RetireAllowed(old(Value()), batchID, plan)
      ensures outcome.Pass? ==> Value() == AfterRetire(old(Value()), batchID, plan.records)
      ensures outcome.Fail? ==> Untouched()
    {
      hide RetireAllowed, Edited, Detached, Without;
      ghost var q := Value();
      var index := FindBatch(batches.View(), batchID);
      var updated;
      outcome, updated := PlanRetirement(records, batches.View(), batchID, plan, index, Value());
      if outcome.Fail? {
        return;
      }
      var longer := ClonedWith(retired, batches.data[index]);
      var shorter := ClonedWithout(batches, index);
      assert Whole(updated).View() == Edited(Detached(q.records, batchID), plan.records, MarkBlocked);
      records, retired, batches := Whole(updated), longer, shorter;
    }

    method AddReviewedBatch(batchID: string, plan: Plan) returns (outcome: Outcome)
      requires Valid()
      modifies this
      ensures Valid()
      ensures outcome.Pass? <==> AddAllowed(old(Value()), batchID, plan)
      ensures outcome.Pass? ==> Value() == AfterAdd(old(Value()), plan.batches[0], plan.records)
      ensures outcome.Fail? ==> Untouched()
    {
      hide AddAllowed, Edited;
      var updated;
      outcome, updated := PlanBatch(records, batches.View(), retired.View(), batchID, plan, Value());
      if outcome.Fail? {
        return;
      }
      var longer := ClonedWith(batches, plan.batches[0]);
      records, batches := Whole(updated), longer;
    }

    method RecordPrerequisites(batchID: string, plan: Plan) returns (outcome: Outcome)
      requires Valid()
      modifies this
      ensures Valid()
      ensures outcome.Pass? <==> PrerequisitesAllowed(old(Value()), batchID, plan)
      ensures outcome.Pass? ==> Value() == AfterPrerequisites(old(Value()), batchID, plan.batches[0].evidence)
      ensures outcome.Fail? ==> Untouched()
    {
      hide PrerequisitesAllowed, FindBatch;
      var index := FindBatch(batches.View(), batchID);
      outcome := CheckPrerequisites(batches.View(), batchID, plan, index, Value());
      if outcome.Fail? {
        return;
      }
      var saved := batches.data[index];
      var updated := ClonedButFor(batches, index, saved.(evidence := saved.evidence + plan.batches[0].evidence));
      batches := updated;
    }

    /** Init draws up the first records, where nothing is saved yet that a failure could spoil. */
    method Initialize(corpus: seq<Card>, inventory: Inventory) returns (outcome: Outcome)
      requires Valid()
      modifies this`records, this`baseline, baseline.data
      ensures Valid()
      ensures outcome.Pass? <==> SeedFits(old(Value()), corpus)
      ensures outcome.Pass? ==> Initialized(old(Value()), corpus, inventory, Value())
    {
      hide SeedFits, DraftedRecords, DraftedAssociations, HoldsSeed, Sorting.StrictWeak, QueueOrder.Precedes, QueueSeed.ByID;
      ghost var q := Value();
      var seed;
      outcome, seed := ReadSeed(records);
      if outcome.Fail? {
        NoSeedFits(q, corpus);
        return;
      }
      NoSeedIsUsed(seed, q.records, corpus);
      var rows, kept;
      seed, rows, kept := DraftCards(baseline, seed, corpus, inventory, batches.View(), q);
      records, baseline := rows, kept;
      SeedIsUsedUp(seed, q, corpus);
      if seed != map[] {
        return Fail("seed not in corpus");
      }
      PrecedesIsStrictWeak();
      ByIDIsStrictWeak();
      SortInPlace(records, Precedes);
      SortInPlace(baseline, QueueSeed.ByID);
      SortedIsSortedRecords(records.View());
    }

    /**
     * The one step that writes in place: the baseline is filtered within its own slice, moved associations go to
     * spare capacity of the other slices when there is any, and records are rewritten where they stand.
     */
    method ReconcileCompiled(installation: Option<Installation>, inventory: Inventory) returns (outcome: Outcome)
      requires Valid()
      modifies this, records.data, baseline.data, corrected.data
      ensures Valid()
      ensures outcome.Pass? <==> ReconcileAllowed(old(Value()), installation)
      ensures outcome.Pass? ==> Value() == AfterReconcile(old(Value()), installation.value, inventory)
      ensures outcome.Fail? ==> Untouched()
    {
      hide Available, ReconcileAllowed, Outside, Inside, AllReopened, AllInstalled;
      var available;
      outcome, available := CheckInstallation(installation, inventory);
      if outcome.Fail? {
        return;
      }
      var backlog := Backlog(inventory);
      var kept, moved := FilterInPlace(baseline.data, baseline.length, backlog);
      baseline := Slice(baseline.data, kept);
      MoveToRecords(moved);
      InstallAvailable(records, installation.value, inventory, available);
      return Pass;
    }

    /** The checks of reconcileCompiled, and the identities it would install. */
    method CheckInstallation(installation: Option<Installation>, inventory: Inventory)
      returns (outcome: Outcome, available: map<string, bool>)
      requires Valid()
      ensures outcome.Pass? <==> ReconcileAllowed(Value(), installation)
      ensures outcome.Pass? ==>
                installation.Some?
                && forall id :: Get(available, id, false) <==> Available(installation.value, inventory, id)
    {
      hide Available, NoClaims, InstallationFormed;
      available := map[];
      var free := NobodyClaims(records);
      if !free {
        return Fail("active claims"), available;
      }
      if installation.None? {
        return Fail("no installation"), available;
      }
      if installation.value.corpusSHA256 != corpusSHA256 {
        return Fail("other corpus installed"), available;
      }
      var installed, tokens;
      outcome, installed, tokens := ReadInstallation(installation.value);
      if outcome.Pass? {
        available := ReadAvailable(installation.value, inventory, installed, tokens, Backlog(inventory));
      }
    }

    /** The associations the filter dropped: kept for the record, and reopened as work. */
    method MoveToRecords(moved: seq<Record>)
      requires Valid()
      modifies this`records, this`corrected, records.data, corrected.data
      ensures Valid()
      ensures records.data == old(records.data) || fresh(records.data)
      ensures corrected.data == old(corrected.data) || fresh(corrected.data)
      ensures corrected.View() == old(corrected.View()) + moved
      ensures records.View() == old(records.View()) + AllReopened(moved)
    {
      ghost var saved, noted := records.View(), corrected.View();
      assert saved + AllReopened([]) == saved;
      hide AllReopened, Reopened;
      for i := 0 to |moved|
        invariant Valid()
        invariant records.data == old(records.data) || fresh(records.data)
        invariant corrected.data == old(corrected.data) || fresh(corrected.data)
        invariant corrected.View() == noted + moved[..i]
        invariant records.View() == saved + AllReopened(moved[..i])
      {
        assert moved[..i + 1] == moved[..i] + [moved[i]];
        ReopenOneMore(saved, moved[..i + 1]);
        MoveToRecord(moved[i]);
      }
      assert moved[..|moved|] == moved;
    }

    method MoveToRecord(record: Record)
      requires Valid()
      modifies this`records, this`corrected, records.data, corrected.data
      ensures Valid()
      ensures records.data == old(records.data) || fresh(records.data)
      ensures corrected.data == old(corrected.data) || fresh(corrected.data)
      ensures corrected.View() == old(corrected.View()) + [record]
      ensures records.View() == old(records.View()) + [Reopened(record)]
    {
      var longer := Append(corrected, record);
      corrected := longer;
      var rows := Append(records, record.(status := Unclaimed, family := "unreviewed/identity-reconciliation"));
      records := rows;
    }
  }

  // ----- writes to a copy of the batch slice -----

  /** append(slices.Clone(batches), b). */
  method ClonedWith(batches: Slice<Batch>, b: Batch) returns (longer: Slice<Batch>)
    requires batches.Valid()
    ensures longer.Valid() && fresh(longer.data) && longer.View() == batches.View() + [b]
  {
    var copy := Clone(batches);
    assert Whole(copy).View() == batches.View();
    longer := Append(Whole(copy), b);
  }

  /** slices.Delete(slices.Clone(batches), index, index+1). */
  method ClonedWithout(batches: Slice<Batch>, index: nat) returns (shorter: Slice<Batch>)
    requires batches.Valid() && index < batches.length
    ensures shorter.Valid() && fresh(shorter.data) && shorter.View() == Without(batches.View(), index)
  {
    var copy := Clone(batches);
    assert Whole(copy).View() == batches.View();
    shorter := Delete(Whole(copy), index, NO_BATCH);
  }

  /** updated := slices.Clone(batches); updated[index] = b. */
  method ClonedButFor(batches: Slice<Batch>, index: nat, b: Batch) returns (updated: Slice<Batch>)
    requires batches.Valid() && index < batches.length
    ensures updated.Valid() && fresh(updated.data) && updated.View() == batches.View()[index := b]
  {
    var copy := Clone(batches);
    copy[index] := b;
    updated := Whole(copy);
    assert updated.View() == batches.View()[index := b];
  }

  // ----- init -----

  method ReadSeed(records: Slice<Record>) returns (outcome: Outcome, seed: map<string, Record>)
    requires records.Valid()
    ensures outcome.Pass? <==> Distinct(RecordIDs(records.View()))
    ensures outcome.Pass? ==> HoldsSeed(seed, records.View(), [], 0)
  {
    seed := map[];
    ghost var ids := RecordIDs(records.View());
    for i := 0 to records.length
      invariant forall a, b | 0 <= a < b < i :: ids[a] != ids[b]
      invariant forall id :: id in seed <==> exists a | 0 <= a < i :: ids[a] == id
      invariant forall a | 0 <= a < i :: seed[ids[a]] == records.View()[a]
    {
      assert ids[i] == records.data[i].oracleID;
      if records.data[i].oracleID in seed {
        return Fail("duplicate seed"), seed;
      }
      seed := seed[records.data[i].oracleID := records.data[i]];
    }
    SeedIsHeld(seed, records.View());
    return Pass, seed;
  }

  /** The seed records no card before n has used up. */
  ghost predicate HoldsSeed(seed: map<string, Record>, records: seq<Record>, corpus: seq<Card>, n: nat)
    requires n <= |corpus|
  {
    forall id :: if id in RecordIDs(records) && !SeenBefore(corpus, n, id) then id in seed && seed[id] == SeedOf(records, id)
                 else id !in seed
  }

  lemma SeedIsHeld(seed: map<string, Record>, records: seq<Record>)
    requires Distinct(RecordIDs(records))
    requires forall id :: id in seed <==> exists a | 0 <= a < |records| :: RecordIDs(records)[a] == id
    requires forall a | 0 <= a < |records| :: seed[RecordIDs(records)[a]] == records[a]
    ensures HoldsSeed(seed, records, [], 0)
  {
    forall id | id in seed ensures seed[id] == SeedOf(records, id) {
      var a :| 0 <= a < |records| && RecordIDs(records)[a] == id;
      assert Find(records, id) < |records| && RecordIDs(records)[Find(records, id)] == id;
    }
  }

  lemma NoSeedIsUsed(seed: map<string, Record>, records: seq<Record>, corpus: seq<Card>)
    requires HoldsSeed(seed, records, [], 0)
    ensures HoldsSeed(seed, records, corpus, 0)
  {
  }

  /** One card takes its seed out of the map, and finds the seed the model gives it. */
  lemma TakeSeed(seed: map<string, Record>, records: seq<Record>, corpus: seq<Card>, n: nat)
    requires n < |corpus| && HoldsSeed(seed, records, corpus, n)
    ensures Tracked(corpus[n]) ==> Get(seed, corpus[n].oracleID, NO_RECORD) == SeedAt(records, corpus, n)
    ensures HoldsSeed(if Tracked(corpus[n]) then seed - {corpus[n].oracleID} else seed, records, corpus, n + 1)
  {
    if corpus[n].oracleID !in RecordIDs(records) {
      NoSeedOf(records, corpus[n].oracleID);
    }
    forall other
      ensures SeenBefore(corpus, n + 1, other) <==>
                SeenBefore(corpus, n, other) || (Tracked(corpus[n]) && corpus[n].oracleID == other)
    {
      SeenStep(corpus, n, other);
    }
    hide SeedOf, SeenBefore, RecordIDs;
  }

  lemma NoSeedOf(records: seq<Record>, id: string)
    requires id !in RecordIDs(records)
    ensures SeedOf(records, id) == NO_RECORD
  {
    assert forall k | 0 <= k < |records| :: RecordIDs(records)[k] == records[k].oracleID;
  }

  lemma SeenStep(corpus: seq<Card>, n: nat, id: string)
    requires n < |corpus|
    ensures SeenBefore(corpus, n + 1, id) <==> SeenBefore(corpus, n, id) || (Tracked(corpus[n]) && corpus[n].oracleID == id)
  {
  }

  lemma SeedIsUsedUp(seed: map<string, Record>, q: Manifest, corpus: seq<Card>)
    requires HoldsSeed(seed, q.records, corpus, |corpus|) && Distinct(RecordIDs(q.records))
    ensures seed == map[] <==> SeedFits(q, corpus)
  {
    hide SeedOf;
    if SeedFits(q, corpus) {
      forall id ensures id !in seed {
        if id in RecordIDs(q.records) {
          var i :| 0 <= i < |q.records| && RecordIDs(q.records)[i] == id;
          assert SeenBefore(corpus, |corpus|, q.records[i].oracleID);
        }
      }
    } else {
      var i :| 0 <= i < |q.records| && !SeenBefore(corpus, |corpus|, q.records[i].oracleID);
      assert RecordIDs(q.records)[i] == q.records[i].oracleID;
      assert q.records[i].oracleID in seed;
    }
  }

  /** The loop over the saved batches. */
  method Place(r: Record, batches: seq<Batch>) returns (placed: Record)
    ensures placed == Placed(r, batches)
  {
    placed := r;
    for k := 0 to |batches|
      invariant placed == Placed(r, batches[..k])
    {
      assert batches[..k + 1][..k] == batches[..k];
      PlacedKeepsID(r, batches[..k]);
      if placed.oracleID in batches[k].oracleIDs {
        placed := placed.(batch := batches[k].id, family := batches[k].family);
      }
    }
    assert batches[..|batches|] == batches;
  }

  /** The corpus loop of initialize: a card becomes a record or, where production covers it, an association. */
  method DraftCards(
    baseline: Slice<Record>, seeded: map<string, Record>, corpus: seq<Card>, inventory: Inventory, batches: seq<Batch>,
    ghost q: Manifest)
    returns (seed: map<string, Record>, rows: Slice<Record>, kept: Slice<Record>)
    requires baseline.Valid() && q.baseline == baseline.View() && q.batches == batches
    requires HoldsSeed(seeded, q.records, corpus, 0)
    modifies baseline.data
    ensures rows.Valid() && kept.Valid() && fresh(rows.data) && rows.data != kept.data
    ensures kept.data == baseline.data || fresh(kept.data)
    ensures HoldsSeed(seed, q.records, corpus, |corpus|)
    ensures rows.View() == DraftedRecords(q, corpus, inventory, |corpus|)
    ensures kept.View() == q.baseline + DraftedAssociations(q, corpus, inventory, |corpus|)
  {
    hide HoldsSeed, Backlog, SeedAt, Placed, Associations;
    seed := seeded;
    rows := FromSeq([]);
    kept := baseline;
    var backlog := Backlog(inventory);
    var compiled, associations := Validate.ReadListings(inventory.corpus);
    for i := 0 to |corpus|
      invariant rows.Valid() && kept.Valid() && fresh(rows.data) && rows.data != kept.data
      invariant kept.data == baseline.data || fresh(kept.data)
      invariant HoldsSeed(seed, q.records, corpus, i)
      invariant rows.View() == DraftedRecords(q, corpus, inventory, i)
      invariant kept.View() == q.baseline + DraftedAssociations(q, corpus, inventory, i)
    {
      var card := corpus[i];
      TakeSeed(seed, q.records, corpus, i);
      if card.disowned {
        assert !Tracked(card);
        continue;
      }
      assert Tracked(card);
      var r := AsCard(card, Get(seed, card.oracleID, NO_RECORD));
      seed := seed - {card.oracleID};
      if card.exclusion.Some? {
        r := r.(status := Excluded, reason := card.exclusion.value);
      } else if card.oracleID !in backlog {
        r := r.(status := NoStatus, keys := Get(associations, card.oracleID, []));
        var longer := Append(kept, r);
        kept := longer;
        continue;
      } else if r.status == NoStatus {
        r := r.(status := Unclaimed);
      }
      if r.family == "" && card.exclusion.None? {
        r := r.(family := "unreviewed/" + card.layout);
      }
      r := Place(r, batches);
      var longer := Append(rows, r);
      rows := longer;
    }
  }

  /** slices.SortFunc on the slice itself. */
  method SortInPlace(records: Slice<Record>, less: (Record, Record) -> bool)
    requires records.Valid() && Sorting.StrictWeak(less)
    modifies records.data
    ensures multiset(records.View()) == multiset(old(records.View())) && Sorting.Sorted(records.View(), less)
  {
    var sorted := Sorting.Sort(records.View(), less);
    assert |sorted| == |multiset(sorted)| == records.length;
    for i := 0 to |sorted|
      invariant forall a | 0 <= a < i :: records.data[a] == sorted[a]
    {
      records.data[i] := sorted[i];
    }
    assert records.View() == sorted;
  }

  const NO_BATCH := Batch("", "", [], [], [], "", [])

  method NobodyClaims(records: Slice<Record>) returns (free: bool)
    requires records.Valid()
    ensures free <==> NoClaims(records.View())
  {
    for i := 0 to records.length
      invariant forall a | 0 <= a < i :: !records.View()[a].status.Claimed?
    {
      if records.data[i].status == Claimed {
        assert records.View()[i].status.Claimed?;
        return false;
      }
    }
    return true;
  }

  /** The last loop of reconcileCompiled: an available unclaimed record is installed where it stands. */
  method InstallAvailable(
    records: Slice<Record>, installation: Installation, inventory: Inventory, available: map<string, bool>)
    requires records.Valid()
    requires forall id :: Get(available, id, false) <==> Available(installation, inventory, id)
    modifies records.data
    ensures records.View() == AllInstalled(old(records.View()), installation, inventory)
  {
    hide Available;
    ghost var saved := records.View();
    for i := 0 to records.length
      invariant forall a | 0 <= a < i :: records.data[a] == Install(saved[a], installation, inventory)
      invariant forall a | i <= a < records.length :: records.data[a] == saved[a]
    {
      if records.data[i].status == Unclaimed && Get(available, records.data[i].oracleID, false) {
        records.data[i] := records.data[i].(status := InstalledCompiled, evidence := COMPILED_INSTALLATION_PATH);
      }
    }
  }

  // ----- the checks of the continuation steps, and the copies they would commit -----

  method PlanReassessment(records: Slice<Record>, candidates: seq<ReviewedRecord>, ghost q: Manifest)
    returns (outcome: Outcome, updated: array<Record>)
    requires records.Valid() && q.records == records.View()
    ensures outcome.Pass? <==> ReassessAllowed(q, candidates)
    ensures outcome.Pass? ==> fresh(updated) && updated[..] == Edited(q.records, candidates, Reopen)
  {
    hide CandidatesFit, Edited;
    updated := records.data;
    if |candidates| == 0 || |candidates| > 5 {
      return Fail("needs 1-5 records"), updated;
    }
    var seen;
    outcome, updated, seen := EditCandidates(records, candidates, PlainReassessment, ReassessmentFits, Reopen);
    if outcome.Fail? {
      return;
    }
    ReopenedKeeps(q.records, candidates);
    var whole := IncludesWholeBatches(updated, seen);
    if !whole {
      return Fail("part of a batch"), updated;
    }
  }

  method PlanRetirement(
    records: Slice<Record>, batches: seq<Batch>, batchID: string, plan: Plan, index: nat, ghost q: Manifest)
    returns (outcome: Outcome, updated: array<Record>)
    requires records.Valid() && q.records == records.View() && q.batches == batches && index == FindBatch(batches, batchID)
    ensures outcome.Pass? <==> RetireAllowed(q, batchID, plan)
    ensures outcome.Pass? ==>
              fresh(updated) && updated[..] == Edited(Detached(q.records, batchID), plan.records, MarkBlocked)
    ensures outcome.Pass? ==> index < |batches|
  {
    updated := records.data;
    if batchID == "" || index == |batches| || |plan.batches| != 0 || |plan.records| == 0 || |plan.records| > 5 {
      return Fail("invalid retirement"), updated;
    }
    assert RetireFormed(q, batchID, plan);
    hide RetireFormed, CandidatesFit, Edited, FindBatch, Detached, AffectedBy, Released;
    var detached;
    outcome, detached := DetachMembers(records, batchID);
    if outcome.Fail? {
      return;
    }
    outcome, updated := BlockAffected(detached, batches[index], plan.records, q.records, batchID);
  }

  /** The second loop of retire-batch: the affected members of the detached copy are blocked. */
  method BlockAffected(
    detached: array<Record>, b: Batch, candidates: seq<ReviewedRecord>, ghost base: seq<Record>, ghost batchID: string)
    returns (outcome: Outcome, updated: array<Record>)
    requires detached[..] == Detached(base, batchID)
    ensures outcome.Pass? <==> CandidatesFit(base, candidates, AffectedBy(b), ExactRecord)
    ensures outcome.Pass? ==> fresh(updated) && updated[..] == Edited(Detached(base, batchID), candidates, MarkBlocked)
  {
    hide CandidatesFit, Edited, Detached, AffectedBy;
    assert Whole(detached).View() == detached[..];
    DetachedFits(base, batchID, candidates, AffectedBy(b), ExactRecord);
    var seen;
    outcome, updated, seen :=
      EditCandidates(Whole(detached), candidates, AffectedBy(b), ExactRecord, MarkBlocked);
  }

  method PlanBatch(
    records: Slice<Record>, batches: seq<Batch>, retired: seq<Batch>, batchID: string, plan: Plan, ghost q: Manifest)
    returns (outcome: Outcome, updated: array<Record>)
    requires records.Valid() && q.records == records.View() && q.batches == batches && q.retired == retired
    ensures outcome.Pass? <==> AddAllowed(q, batchID, plan)
    ensures outcome.Pass? ==> |plan.batches| == 1
    ensures outcome.Pass? ==> fresh(updated) && updated[..] == Edited(q.records, plan.records, Assign(plan.batches[0]))
  {
    hide AddFormed, CandidatesFit, Edited, Joining;
    updated := records.data;
    outcome := CheckBatch(batches, retired, batchID, plan, q);
    if outcome.Fail? {
      return;
    }
    var b := plan.batches[0];
    var seen;
    outcome, updated, seen := EditCandidates(records, plan.records, Joining(b), ExactAndFree, Assign(b));
  }

  method CheckBatch(batches: seq<Batch>, retired: seq<Batch>, batchID: string, plan: Plan, ghost q: Manifest)
    returns (outcome: Outcome)
    requires q.batches == batches && q.retired == retired
    ensures outcome.Pass? <==> AddFormed(q, batchID, plan)
    ensures outcome.Pass? ==> |plan.batches| == 1
  {
    hide BatchWellFormed, FindBatch, IsBlank;
    if |plan.batches| != 1 || batchID == "" || plan.batches[0].id != batchID {
      return Fail("not the plan's batch");
    }
    var b := plan.batches[0];
    outcome := Validate.ValidateBatch(b);
    if outcome.Fail? {
      return;
    }
    var index, used := FindBatch(batches, batchID), FindBatch(retired, batchID);
    AbsentBatch(batches, batchID);
    AbsentBatch(retired, batchID);
    if index < |batches| || used < |retired| || IsBlank(b.review) || |plan.records| != |b.oracleIDs| {
      return Fail("invalid new batch");
    }
    if exists k, id | 0 <= k < |batches| && id in b.oracleIDs :: id in batches[k].oracleIDs {
      return Fail("member already batched");
    }
    return Pass;
  }

  method CheckPrerequisites(batches: seq<Batch>, batchID: string, plan: Plan, index: nat, ghost q: Manifest)
    returns (outcome: Outcome)
    requires q.batches == batches && index == FindBatch(batches, batchID)
    ensures outcome.Pass? <==> PrerequisitesAllowed(q, batchID, plan)
    ensures outcome.Pass? ==> |plan.batches| == 1 && index < |batches|
  {
    hide BatchWellFormed, FindBatch;
    if |plan.batches| != 1 || batchID == "" || plan.batches[0].id != batchID {
      return Fail("not the plan's batch");
    }
    var b := plan.batches[0];
    outcome := Validate.ValidateBatch(b);
    if outcome.Fail? {
      return;
    }
    if index == |batches| || |plan.records| != 0 || |b.evidence| == 0 {
      return Fail("invalid evidence plan");
    }
    outcome := ExtendsOnly(batches[index], b);
  }

  /** The new definition differs from the saved one in its evidence, and only by new issues. */
  method ExtendsOnly(saved: Batch, b: Batch) returns (outcome: Outcome)
    requires saved.id == b.id
    ensures outcome.Pass? <==>
              && saved.(evidence := []) == b.(evidence := [])
              && forall i, j | 0 <= i < |saved.evidence| && 0 <= j < |b.evidence| :: saved.evidence[i].issue != b.evidence[j].issue
  {
    if saved.family != b.family || saved.review != b.review || saved.oracleIDs != b.oracleIDs
       || saved.prerequisites != b.prerequisites || saved.operations != b.operations {
      return Fail("rewrites the batch");
    }
    for i := 0 to |b.evidence|
      invariant forall a, e | 0 <= a < i && 0 <= e < |saved.evidence| :: saved.evidence[e].issue != b.evidence[a].issue
    {
      if exists e | 0 <= e < |saved.evidence| :: saved.evidence[e].issue == b.evidence[i].issue {
        return Fail("overwrites evidence");
      }
    }
    return Pass;
  }

  /** The second half of verifyBatch: bind the pinned metadata of every member to its evidence source. */
  method BindEvidence(rules: RulesEvidence, records: Slice<Record>, batchID: string, metadata: Option<seq<Metadata>>)
    returns (outcome: Outcome, sources: seq<Source>)
    requires records.Valid()
    ensures outcome.Pass? <==>
              && metadata.Some? && MetadataFormed(metadata.value)
              && SavedSources(rules).Some? && SourcesFormed(SavedSources(rules).value)
              && BindUpTo(SavedSources(rules).value, records.View(), batchID, metadata.value, records.length).Some?
    ensures outcome.Pass? ==>
              BindUpTo(SavedSources(rules).value, records.View(), batchID, metadata.value, records.length) == Some(sources)
  {
    hide SourcesFormed, MetadataFormed, BindUpTo;
    sources := [];
    if metadata.None? {
      return Fail("undecodable metadata"), sources;
    }
    var byID;
    outcome, byID := ReadMetadata(metadata.value);
    if outcome.Fail? {
      return;
    }
    var saved := SavedSources(rules);
    if saved.None? {
      return Fail("undecodable rules"), sources;
    }
    var indices;
    outcome, indices := ReadSources(saved.value);
    if outcome.Fail? {
      return;
    }
    outcome, sources := BindMembers(saved.value, indices, records, batchID, byID, metadata.value);
  }

  /** kept := queue.BaselineProduction[:0]: the filter writes behind the element it reads. */
  method FilterInPlace(baseline: array<Record>, length: nat, backlog: set<string>) returns (kept: nat, moved: seq<Record>)
    requires length <= baseline.Length
    modifies baseline
    ensures kept <= length
    ensures baseline[..kept] == Outside(old(baseline[..length]), backlog)
    ensures moved == Inside(old(baseline[..length]), backlog)
  {
    ghost var was := baseline[..length];
    ghost var outside := [];
    kept, moved := 0, [];
    assert outside == Outside(was[..0], backlog) && moved == Inside(was[..0], backlog);
    hide Outside, Inside;
    for i := 0 to length
      invariant outside == Outside(was[..i], backlog) && moved == Inside(was[..i], backlog)
      invariant kept == |outside| <= i
      invariant forall a | 0 <= a < kept :: baseline[a] == outside[a]
      invariant forall a | i <= a < length :: baseline[a] == was[a]
    {
      var record := baseline[i];
      SplitStep(was, i, backlog);
      if record.oracleID !in backlog {
        baseline[kept] := record;
        kept := kept + 1;
        outside := outside + [record];
        continue;
      }
      moved := moved + [record];
    }
    assert was[..length] == was;
  }

  lemma SplitStep(records: seq<Record>, n: nat, ids: set<string>)
    requires n < |records|
    ensures var r := records[n];
            && Outside(records[..n + 1], ids) == Outside(records[..n], ids) + (if r.oracleID in ids then [] else [r])
            && Inside(records[..n + 1], ids) == Inside(records[..n], ids) + (if r.oracleID in ids then [r] else [])
  {
    assert records[..n + 1][..n] == records[..n];
  }

  lemma ReopenOneMore(saved: seq<Record>, moved: seq<Record>)
    requires moved != []
    ensures var front, last := moved[..|moved| - 1], moved[|moved| - 1];
            saved + AllReopened(front) + [Reopened(last)] == saved + AllReopened(moved)
  {
  }

  method ReadInstallation(installation: Installation)
    returns (outcome: Outcome, installed: set<string>, tokens: set<string>)
    ensures outcome.Pass? <==> InstallationFormed(installation)
    ensures outcome.Pass? ==> installed == Elements(InstalledIDs(installation.cards))
    ensures outcome.Pass? ==> forall id :: id in tokens <==> InstalledAsToken(installation, id)
  {
    var cards := installation.cards;
    installed, tokens := {}, {};
    assert forall a | 0 <= a < |cards| :: InstalledIDs(cards)[a] == cards[a].oracleID;
    for i := 0 to |cards|
      invariant forall a | 0 <= a < i :: cards[a].oracleID != ""
      invariant forall a, b | 0 <= a < b < i :: cards[a].oracleID != cards[b].oracleID
      invariant forall id :: id in installed <==> exists a | 0 <= a < i :: cards[a].oracleID == id
      invariant forall id :: id in tokens <==> exists a | 0 <= a < i :: cards[a].oracleID == id && TokenLayout(cards[a].layout)
    {
      var card := cards[i];
      if card.oracleID == "" || card.oracleID in installed {
        return Fail("invalid installed card"), installed, tokens;
      }
      installed := installed + {card.oracleID};
      if card.layout == "token" || card.layout == "double_faced_token" {
        tokens := tokens + {card.oracleID};
      }
    }
    return Pass, installed, tokens;
  }

  method ReadAvailable(
    ghost installation: Installation, inventory: Inventory, installed: set<string>, tokens: set<string>,
    backlog: set<string>)
    returns (available: map<string, bool>)
    requires installed == Elements(InstalledIDs(installation.cards)) && backlog == Backlog(inventory)
    requires forall id :: id in tokens <==> InstalledAsToken(installation, id)
    ensures forall id :: Get(available, id, false) <==> Available(installation, inventory, id)
  {
    hide InstalledAsToken, InstalledIDs;
    available := map[];
    for i := 0 to |inventory.corpus|
      invariant forall id :: Get(available, id, false) <==>
                  Compiled(inventory.corpus[..i], id) && id in installed && (id in backlog ==> id in tokens)
    {
      var listing := inventory.corpus[i];
      assert inventory.corpus[..i + 1][..i] == inventory.corpus[..i];
      available := available[listing.oracleID := listing.compilerAccepted && listing.oracleID in installed
                                                 && (listing.oracleID !in backlog || listing.oracleID in tokens)];
    }
    assert inventory.corpus[..|inventory.corpus|] == inventory.corpus;
  }

  /** The first record of an identity, as slices.IndexFunc finds it. */
  method IndexOf(records: array<Record>, id: string) returns (k: nat)
    ensures k == Find(records[..], id)
  {
    for i := 0 to records.Length
      invariant forall j | 0 <= j < i :: records[j].oracleID != id
    {
      if records[i].oracleID == id {
        FindFirst(records[..], id, i);
        return i;
      }
    }
    FindFirst(records[..], id, records.Length);
    return records.Length;
  }

  lemma FindFirst(records: seq<Record>, id: string, k: nat)
    requires k <= |records|
    requires forall j | 0 <= j < k :: records[j].oracleID != id
    requires k < |records| ==> records[k].oracleID == id
    ensures Find(records, id) == k
  {
  }

  ghost predicate SameIDs(one: seq<Record>, other: seq<Record>) {
    |one| == |other| && forall i | 0 <= i < |one| :: one[i].oracleID == other[i].oracleID
  }

  lemma SameIDsStep(one: seq<Record>, other: seq<Record>, k: nat, r: Record)
    requires SameIDs(one, other) && k < |one| && r.oracleID == other[k].oracleID
    ensures SameIDs(one[k := r], other)
  {
  }

  /** Only identities decide where a record is found. */
  lemma FindSameIDs(one: seq<Record>, other: seq<Record>, id: string)
    requires SameIDs(one, other)
    ensures Find(one, id) == Find(other, id)
  {
    FindFirst(other, id, Find(one, id));
  }

  /** The first loop of retire-batch, on its copy. */
  method DetachMembers(records: Slice<Record>, batchID: string) returns (outcome: Outcome, detached: array<Record>)
    requires records.Valid()
    ensures fresh(detached)
    ensures outcome.Pass? <==> Released(records.View(), batchID)
    ensures outcome.Pass? ==> detached[..] == Detached(records.View(), batchID)
  {
    ghost var base := records.View();
    ghost var goal := Detached(base, batchID);
    detached := Clone(records);
    for i := 0 to detached.Length
      invariant detached.Length == |base|
      invariant forall a | 0 <= a < i && base[a].batch == batchID :: base[a].status == Unclaimed && base[a].owner == ""
      invariant forall a | 0 <= a < i :: detached[a] == goal[a]
      invariant forall a | i <= a < |base| :: detached[a] == base[a]
    {
      var r := detached[i];
      assert r == base[i];
      if r.batch == batchID {
        if r.status != Unclaimed || r.owner != "" {
          assert r == records.View()[i];
          return Fail("batch not released"), detached;
        }
        detached[i] := r.(batch := "");
      }
    }
    return Pass, detached;
  }

  /** The last loops of reassess: no batch is reopened in part. */
  method IncludesWholeBatches(records: array<Record>, seen: set<string>) returns (whole: bool)
    ensures whole <==>
              forall i, j | 0 <= i < records.Length && 0 <= j < records.Length && records[i].oracleID in seen
                            && records[i].batch != "" && records[j].batch == records[i].batch :: records[j].oracleID in seen
  {
    for i := 0 to records.Length
      invariant forall a, b | 0 <= a < i && 0 <= b < records.Length && records[a].oracleID in seen
                              && records[a].batch != "" && records[b].batch == records[a].batch :: records[b].oracleID in seen
    {
      if records[i].oracleID !in seen || records[i].batch == "" {
        continue;
      }
      for j := 0 to records.Length
        invariant forall b | 0 <= b < j && records[b].batch == records[i].batch :: records[b].oracleID in seen
      {
        if records[j].batch == records[i].batch && records[j].oracleID !in seen {
          return false;
        }
      }
    }
    return true;
  }

  lemma ReopenedKeeps(records: seq<Record>, candidates: seq<ReviewedRecord>)
    ensures forall i | 0 <= i < |records| ::
              var r := Edited(records, candidates, Reopen)[i];
              r.oracleID == records[i].oracleID && r.batch == records[i].batch
  {
  }

  /** Clearing the batch field does not change which candidates fit. */
  lemma DetachedFits(
    records: seq<Record>, batchID: string, candidates: seq<ReviewedRecord>, acceptable: ReviewedRecord -> bool,
    fits: (Record, ReviewedRecord) -> bool)
    requires forall r: Record, c: ReviewedRecord, id: string :: fits(r.(batch := id), c) == fits(r, c)
    ensures CandidatesFit(Detached(records, batchID), candidates, acceptable, fits)
       <==> CandidatesFit(records, candidates, acceptable, fits)
  {
    forall id ensures Find(Detached(records, batchID), id) == Find(records, id) {
      FindSameIDs(Detached(records, batchID), records, id);
    }
  }

  lemma AbsentBatch(batches: seq<Batch>, id: string)
    ensures FindBatch(batches, id) == |batches| <==> id !in BatchIDs(batches)
  {
    var k := FindBatch(batches, id);
    if k < |batches| {
      assert BatchIDs(batches)[k] == id;
    }
  }

  /** The identities of the first n candidates. */
  ghost predicate SeenUpTo(seen: set<string>, candidates: seq<ReviewedRecord>, n: nat)
    requires n <= |candidates|
  {
    forall id :: id in seen <==> exists c | 0 <= c < n :: candidates[c].oracleID == id
  }

  lemma SeenNone(records: seq<Record>, candidates: seq<ReviewedRecord>)
    ensures SeenUpTo({}, candidates, 0) && SameIDs(records, records)
  {
  }

  lemma SeenOne(seen: set<string>, candidates: seq<ReviewedRecord>, n: nat)
    requires n < |candidates| && SeenUpTo(seen, candidates, n)
    ensures candidates[n].oracleID in seen <==> exists c | 0 <= c < n :: candidates[c].oracleID == candidates[n].oracleID
    ensures SeenUpTo(seen + {candidates[n].oracleID}, candidates, n + 1)
  {
    var more := seen + {candidates[n].oracleID};
    forall id ensures id in more <==> exists c | 0 <= c < n + 1 :: candidates[c].oracleID == id {
    }
  }

  lemma SeenAll(seen: set<string>, candidates: seq<ReviewedRecord>)
    requires SeenUpTo(seen, candidates, |candidates|)
    ensures forall id :: id in seen <==> Names(candidates, id)
  {
  }

  /** The first n candidates are checked and applied. */
  ghost predicate AppliedUpTo(
    updated: seq<Record>, base: seq<Record>, candidates: seq<ReviewedRecord>, edit: (Record, ReviewedRecord) -> Record, n: nat)
    requires n <= |candidates| && |updated| == |base|
  {
    && (forall c | 0 <= c < n :: AppliedTo(updated, base, candidates[c], edit))
    && (forall i | 0 <= i < |base| :: Unnamed(base, candidates, n, i) ==> updated[i] == base[i])
  }

  ghost predicate AppliedTo(
    updated: seq<Record>, base: seq<Record>, candidate: ReviewedRecord, edit: (Record, ReviewedRecord) -> Record)
    requires |updated| == |base|
  {
    var k := Find(base, candidate.oracleID);
    k < |base| && updated[k] == edit(base[k], candidate)
  }

  /** None of the first n candidates finds record i. */
  ghost predicate Unnamed(base: seq<Record>, candidates: seq<ReviewedRecord>, n: nat, i: nat)
    requires n <= |candidates|
  {
    forall c | 0 <= c < n :: Find(base, candidates[c].oracleID) != i
  }

  ghost predicate FitUpTo(
    records: seq<Record>, candidates: seq<ReviewedRecord>, acceptable: ReviewedRecord -> bool,
    fits: (Record, ReviewedRecord) -> bool, n: nat)
    requires n <= |candidates|
  {
    && (forall a, b | 0 <= a < b < n :: candidates[a].oracleID != candidates[b].oracleID)
    && forall c | 0 <= c < n :: CandidateFits(records, candidates[c], acceptable, fits)
  }

  /** With every candidate applied, the slice is the declared edit. */
  lemma AppliedIsEdited(
    updated: seq<Record>, base: seq<Record>, candidates: seq<ReviewedRecord>, acceptable: ReviewedRecord -> bool,
    fits: (Record, ReviewedRecord) -> bool, edit: (Record, ReviewedRecord) -> Record)
    requires |updated| == |base| && AppliedUpTo(updated, base, candidates, edit, |candidates|)
    requires CandidatesFit(base, candidates, acceptable, fits)
    ensures updated == Edited(base, candidates, edit)
  {
    assert forall c | 0 <= c < |candidates| :: CandidateIDs(candidates)[c] == candidates[c].oracleID;
    forall i | 0 <= i < |base| ensures updated[i] == EditedRecord(base, candidates, edit, i) {
      var id := base[i].oracleID;
      if Find(base, id) == i && Names(candidates, id) {
        var c :| 0 <= c < |candidates| && candidates[c].oracleID == id && CandidateFor(candidates, id) == candidates[c];
        assert AppliedTo(updated, base, candidates[c], edit);
      } else {
        assert Unnamed(base, candidates, |candidates|, i);
      }
    }
  }

  lemma ApplyNone(
    base: seq<Record>, candidates: seq<ReviewedRecord>, acceptable: ReviewedRecord -> bool,
    fits: (Record, ReviewedRecord) -> bool, edit: (Record, ReviewedRecord) -> Record)
    ensures FitUpTo(base, candidates, acceptable, fits, 0)
    ensures AppliedUpTo(base, base, candidates, edit, 0)
  {
  }

  /** Checking and applying one more candidate. */
  lemma ApplyStep(
    updated: seq<Record>, base: seq<Record>, candidates: seq<ReviewedRecord>, edit: (Record, ReviewedRecord) -> Record, n: nat)
    requires |updated| == |base| && n < |candidates| && AppliedUpTo(updated, base, candidates, edit, n)
    requires forall c | 0 <= c < n :: candidates[c].oracleID != candidates[n].oracleID
    ensures var k := Find(base, candidates[n].oracleID);
            k < |base| ==>
              updated[k] == base[k] && AppliedUpTo(updated[k := edit(base[k], candidates[n])], base, candidates, edit, n + 1)
  {
    hide Find;
    var k := Find(base, candidates[n].oracleID);
    if k < |base| {
      assert Unnamed(base, candidates, n, k);
      var next := updated[k := edit(base[k], candidates[n])];
      forall c | 0 <= c < n ensures AppliedTo(next, base, candidates[c], edit) {
        assert AppliedTo(updated, base, candidates[c], edit);
      }
      forall i | 0 <= i < |base| && Unnamed(base, candidates, n + 1, i) ensures next[i] == base[i] {
        assert Find(base, candidates[n].oracleID) != i;
        assert Unnamed(base, candidates, n, i);
      }
    }
  }

  lemma FitStep(
    records: seq<Record>, candidates: seq<ReviewedRecord>, acceptable: ReviewedRecord -> bool,
    fits: (Record, ReviewedRecord) -> bool, n: nat)
    requires n < |candidates| && FitUpTo(records, candidates, acceptable, fits, n)
    ensures FitUpTo(records, candidates, acceptable, fits, n + 1) <==>
              && (forall c | 0 <= c < n :: candidates[c].oracleID != candidates[n].oracleID)
              && CandidateFits(records, candidates[n], acceptable, fits)
  {
    hide CandidateFits;
  }

  lemma FitPrefix(
    records: seq<Record>, candidates: seq<ReviewedRecord>, acceptable: ReviewedRecord -> bool,
    fits: (Record, ReviewedRecord) -> bool, n: nat)
    requires n <= |candidates| && CandidatesFit(records, candidates, acceptable, fits)
    ensures FitUpTo(records, candidates, acceptable, fits, n)
  {
    hide CandidateFits;
    assert forall c | 0 <= c < |candidates| :: CandidateIDs(candidates)[c] == candidates[c].oracleID;
  }

  lemma FitAll(
    records: seq<Record>, candidates: seq<ReviewedRecord>, acceptable: ReviewedRecord -> bool,
    fits: (Record, ReviewedRecord) -> bool)
    requires FitUpTo(records, candidates, acceptable, fits, |candidates|)
    ensures CandidatesFit(records, candidates, acceptable, fits)
  {
    assert forall c | 0 <= c < |candidates| :: CandidateIDs(candidates)[c] == candidates[c].oracleID;
  }

  /**
   * The loop the four continuation steps share: look each candidate up in the copy, check it, and write through
   * the copy. The steps differ in what a candidate may say, which record it fits, and what it changes.
   */
  method EditCandidates(
    base: Slice<Record>, candidates: seq<ReviewedRecord>, acceptable: ReviewedRecord -> bool,
    fits: (Record, ReviewedRecord) -> bool, edit: (Record, ReviewedRecord) -> Record)
    returns (outcome: Outcome, updated: array<Record>, seen: set<string>)
    requires base.Valid()
    requires forall r, c :: edit(r, c).oracleID == r.oracleID
    ensures fresh(updated)
    ensures outcome.Pass? <==> CandidatesFit(base.View(), candidates, acceptable, fits)
    ensures outcome.Pass? ==> updated[..] == Edited(base.View(), candidates, edit)
    ensures outcome.Pass? ==> forall id :: id in seen <==> Names(candidates, id)
  {
    hide FitUpTo, AppliedUpTo, CandidatesFit, Edited, EditedRecord, SeenUpTo, SameIDs;
    updated := Clone(base);
    seen := {};
    ghost var records := base.View();
    ApplyNone(records, candidates, acceptable, fits, edit);
    SeenNone(records, candidates);
    for n := 0 to |candidates|
      invariant updated.Length == |records|
      invariant SeenUpTo(seen, candidates, n)
      invariant FitUpTo(records, candidates, acceptable, fits, n)
      invariant AppliedUpTo(updated[..], records, candidates, edit, n)
      invariant SameIDs(updated[..], records)
    {
      var candidate := candidates[n];
      SeenOne(seen, candidates, n);
      FitStep(records, candidates, acceptable, fits, n);
      if CandidatesFit(records, candidates, acceptable, fits) {
        FitPrefix(records, candidates, acceptable, fits, n + 1);
      }
      if candidate.oracleID in seen || !acceptable(candidate) {
        return Fail("invalid candidate"), updated, seen;
      }
      seen := seen + {candidate.oracleID};
      FindSameIDs(updated[..], records, candidate.oracleID);
      var index := IndexOf(updated, candidate.oracleID);
      if index == updated.Length {
        return Fail("unknown identity"), updated, seen;
      }
      ApplyStep(updated[..], records, candidates, edit, n);
      assert updated[..][index] == records[index];
      if !fits(updated[index], candidate) {
        return Fail("stale identity"), updated, seen;
      }
      ghost var was := updated[..];
      updated[index] := edit(updated[index], candidate);
      assert updated[..] == was[index := edit(records[index], candidate)];
      SameIDsStep(was, records, index, edit(records[index], candidate));
    }
    SeenAll(seen, candidates);
    FitAll(records, candidates, acceptable, fits);
    AppliedIsEdited(updated[..], records, candidates, acceptable, fits, edit);
    return Pass, updated, seen;
  }

  lemma MoveKeepsOtherFields(q: Manifest, m: Move, inventory: Inventory)
    ensures AfterMove(q, m, inventory) == q.(records := AfterMove(q, m, inventory).records)
  {
  }

  method ReadMetadata(metadata: seq<Metadata>) returns (outcome: Outcome, byID: map<string, Metadata>)
    ensures outcome.Pass? <==> MetadataFormed(metadata)
    ensures outcome.Pass? ==> forall id :: (if id in byID then Some(byID[id]) else None) == MetadataOf(metadata, id)
  {
    byID := map[];
    assert forall a | 0 <= a < |metadata| :: MetadataIDs(metadata)[a] == metadata[a].oracleID;
    for i := 0 to |metadata|
      invariant forall a | 0 <= a < i :: metadata[a].oracleID != ""
      invariant forall a, b | 0 <= a < b < i :: metadata[a].oracleID != metadata[b].oracleID
      invariant forall id | id in byID :: exists a | 0 <= a < i :: metadata[a].oracleID == id
      invariant forall a | 0 <= a < i :: metadata[a].oracleID in byID && byID[metadata[a].oracleID] == metadata[a]
    {
      var card := metadata[i];
      if card.oracleID in byID || card.oracleID == "" {
        return Fail("ambiguous metadata"), byID;
      }
      byID := byID[card.oracleID := card];
    }
    IndexedMetadata(byID, metadata);
    return Pass, byID;
  }

  lemma IndexedMetadata(byID: map<string, Metadata>, metadata: seq<Metadata>)
    requires forall id | id in byID :: exists a | 0 <= a < |metadata| :: metadata[a].oracleID == id
    requires forall a | 0 <= a < |metadata| :: metadata[a].oracleID in byID && byID[metadata[a].oracleID] == metadata[a]
    ensures forall id :: (if id in byID then Some(byID[id]) else None) == MetadataOf(metadata, id)
  {
    hide MetadataOf;
    forall id ensures (if id in byID then Some(byID[id]) else None) == MetadataOf(metadata, id) {
      LookupMetadata(metadata, id);
    }
  }

  lemma {:induction false} LookupMetadata(metadata: seq<Metadata>, id: string)
    ensures MetadataOf(metadata, id).Some? <==> exists a | 0 <= a < |metadata| :: metadata[a].oracleID == id
    ensures MetadataOf(metadata, id).Some? ==> MetadataOf(metadata, id).value in metadata
    ensures MetadataOf(metadata, id).Some? ==> MetadataOf(metadata, id).value.oracleID == id
  {
    if metadata != [] {
      LookupMetadata(metadata[1..], id);
      if a :| 0 <= a < |metadata| && metadata[a].oracleID == id {
        assert a > 0 ==> metadata[1..][a - 1] == metadata[a];
      }
    }
  }

  method ReadSources(sources: seq<Source>) returns (outcome: Outcome, indices: map<string, nat>)
    ensures outcome.Pass? <==> SourcesFormed(sources)
    ensures outcome.Pass? ==> forall id :: Get(indices, id, |sources|) == SourceIndex(sources, id)
  {
    indices := map[];
    for i := 0 to |sources|
      invariant forall a | 0 <= a < i :: Identified(sources[a])
      invariant forall a, b | 0 <= a < b < i :: SourceID(sources[a]) != SourceID(sources[b])
      invariant forall a | 0 <= a < i :: SourceID(sources[a]) in indices && indices[SourceID(sources[a])] == a
      invariant forall id | id in indices :: indices[id] < i && SourceID(sources[indices[id]]) == id
    {
      var source := sources[i];
      if "oracle_id" !in source || source["oracle_id"] == OtherJson {
        assert !Identified(sources[i]);
        return Fail("undecodable source"), indices;
      }
      var id := source["oracle_id"].text;
      if id in indices || id == "" {
        return Fail("ambiguous source"), indices;
      }
      assert Identified(sources[i]) && SourceID(sources[i]) == id;
      indices := indices[id := i];
    }
    return Pass, indices;
  }

  /**
   * Bind the fields of one card in whatever order a Go map yields them: neither the verdict nor the result depends
   * on the order.
   */
  method BindFields(source: Source, fields: map<string, string>) returns (outcome: Outcome, bound: Source)
    ensures outcome.Pass? <==> Bindable(source, fields)
    ensures outcome.Pass? ==> bound == source + Texts(fields)
  {
    var rest := fields.Keys;
    bound := source;
    while rest != {}
      invariant rest <= fields.Keys
      invariant forall f | f in fields && f !in rest :: f in bound && bound[f] == Text(fields[f])
      invariant forall f | f in source :: f in bound && bound[f] == source[f]
      invariant forall f | f in bound :: f in source || (f in fields && f !in rest)
      decreases rest
    {
      var field :| field in rest;
      rest := rest - {field};
      if field in source {
        if source[field].OtherJson? {
          return Fail("undecodable saved field"), bound;
        }
        if source[field].text != fields[field] {
          return Fail("conflicting field"), bound;
        }
      } else {
        bound := bound[field := Text(fields[field])];
      }
    }
    assert bound == source + Texts(fields);
    return Pass, bound;
  }

  method BindMembers(
    saved: seq<Source>, indices: map<string, nat>, records: Slice<Record>, batchID: string, byID: map<string, Metadata>,
    ghost metadata: seq<Metadata>)
    returns (outcome: Outcome, sources: seq<Source>)
    requires records.Valid()
    requires forall id :: Get(indices, id, |saved|) == SourceIndex(saved, id)
    requires forall id :: (if id in byID then Some(byID[id]) else None) == MetadataOf(metadata, id)
    ensures outcome.Pass? <==> BindUpTo(saved, records.View(), batchID, metadata, records.length).Some?
    ensures outcome.Pass? ==> BindUpTo(saved, records.View(), batchID, metadata, records.length) == Some(sources)
  {
    sources := saved;
    for i := 0 to records.length
      invariant BindUpTo(saved, records.View(), batchID, metadata, i) == Some(sources)
    {
      hide BindRecord;
      BindStops(saved, records.View(), batchID, metadata, i + 1, records.length);
      if records.data[i].batch != batchID {
        continue;
      }
      var more;
      outcome, more := BindMember(saved, sources, indices, records.data[i], byID, metadata);
      if outcome.Fail? {
        return;
      }
      sources := more;
    }
    return Pass, sources;
  }

  /** Bind one member: extend its saved source, or append a new one. */
  method BindMember(
    saved: seq<Source>, sources: seq<Source>, indices: map<string, nat>, r: Record, byID: map<string, Metadata>,
    ghost metadata: seq<Metadata>)
    returns (outcome: Outcome, bound: seq<Source>)
    requires |saved| <= |sources|
    requires forall id :: Get(indices, id, |saved|) == SourceIndex(saved, id)
    requires forall id :: (if id in byID then Some(byID[id]) else None) == MetadataOf(metadata, id)
    ensures outcome.Pass? <==> BindRecord(saved, sources, r, metadata).Some?
    ensures outcome.Pass? ==> BindRecord(saved, sources, r, metadata) == Some(bound)
  {
    hide MetadataOf, SourceIndex, Bindable, Fields, Texts;
    bound := sources;
    ghost var found := MetadataOf(metadata, r.oracleID);
    assert found == if r.oracleID in byID then Some(byID[r.oracleID]) else None;
    if r.oracleID !in byID || byID[r.oracleID].revision != r.revision || byID[r.oracleID].name != r.name
       || byID[r.oracleID].rulingsURI == "" {
      return Fail("stale metadata"), bound;
    }
    var card := byID[r.oracleID];
    var index := Get(indices, r.oracleID, |saved|);
    assert index == SourceIndex(saved, r.oracleID);
    if index == |saved| {
      var started;
      outcome, started := BindFields(map[], Fields(card));
      NothingContradicts(Fields(card));
      bound := sources + [started];
    } else {
      var extended;
      outcome, extended := BindFields(sources[index], Fields(card));
      if outcome.Pass? {
        bound := sources[index := extended];
      }
    }
  }

  lemma NothingContradicts(fields: map<string, string>)
    ensures Bindable(map[], fields) && map[] + Texts(fields) == Texts(fields)
  {
  }

  /** Once a member cannot be bound, the whole binding fails. */
  lemma {:induction false} BindStops(
    saved: seq<Source>, records: seq<Record>, batchID: string, metadata: seq<Metadata>, n: nat, end: nat)
    requires n <= end <= |records|
    ensures BindUpTo(saved, records, batchID, metadata, n).None? ==> BindUpTo(saved, records, batchID, metadata, end).None?
  {
    if n < end {
      BindStops(saved, records, batchID, metadata, n, end - 1);
    }
  }

  /** The evidence texts of the exact, loadable and behavior-verified supports. */
  method ReadVerification(production: seq<Support>) returns (verified: map<string, string>)
    ensures forall id :: Get(verified, id, "") == Verification(production, id)
  {
    verified := map[];
    for i := 0 to |production|
      invariant forall id :: Get(verified, id, "") == Verification(production[..i], id)
    {
      var support := production[i];
      assert production[..i + 1][..i] == production[..i];
      if support.oracleID != "" && support.loadable && support.behaviorVerified {
        verified := verified[support.oracleID := support.verification];
      }
    }
    assert production[..|production|] == production;
  }

  lemma CountMembersStep(records: seq<Record>, n: nat, batchID: string)
    requires n < |records|
    ensures CountMembers(records[..n + 1], batchID) ==
            CountMembers(records[..n], batchID) + if records[n].batch == batchID then 1 else 0
  {
    assert records[..n + 1][..n] == records[..n];
  }

  /** Records of other batches stay; which, is all the loop of transition needs to know about the ones it skips. */
  lemma NotMoved(m: Move, inventory: Inventory)
    ensures forall r: Record :: r.batch != m.batchID ==> Moved(m, r, inventory) == r
  {
  }

  /** The first n records are moved, as they may be, and the others stay. */
  ghost predicate MovedUpTo(updated: seq<Record>, base: seq<Record>, m: Move, inventory: Inventory, n: nat)
    requires |updated| == |base| && n <= |base|
  {
    && (forall a | 0 <= a < n :: updated[a] == Moved(m, base[a], inventory))
    && (forall a | n <= a < |base| :: updated[a] == base[a])
    && (forall a | 0 <= a < n && base[a].batch == m.batchID :: Movable(m, base[a], inventory))
  }

  lemma MoveStep(updated: seq<Record>, base: seq<Record>, m: Move, inventory: Inventory, n: nat)
    requires |updated| == |base| && n < |base| && MovedUpTo(updated, base, m, inventory, n)
    ensures updated[n] == base[n]
    ensures base[n].batch != m.batchID ==> MovedUpTo(updated, base, m, inventory, n + 1)
    ensures Movable(m, base[n], inventory) ==>
              MovedUpTo(updated[n := Moved(m, base[n], inventory)], base, m, inventory, n + 1)
  {
    NotMoved(m, inventory);
    hide Moved, Movable;
  }

  lemma MovedAll(updated: seq<Record>, base: seq<Record>, m: Move, inventory: Inventory)
    requires |updated| == |base| && MovedUpTo(updated, base, m, inventory, |base|)
    ensures forall a | 0 <= a < |base| :: updated[a] == Moved(m, base[a], inventory)
    ensures forall a | 0 <= a < |base| && base[a].batch == m.batchID :: Movable(m, base[a], inventory)
  {
  }

  /** The loop of transition, on the copy it writes through. */
  method MoveMembers(records: Slice<Record>, m: Move, inventory: Inventory)
    returns (outcome: Outcome, updated: array<Record>)
    requires records.Valid() && MoveFormed(m)
    ensures fresh(updated) && updated.Length == records.length
    ensures outcome.Pass? <==>
              && (forall a | 0 <= a < records.length && records.View()[a].batch == m.batchID :: Movable(m, records.View()[a], inventory))
              && 3 <= CountMembers(records.View(), m.batchID) <= 5
    ensures outcome.Pass? ==> forall a | 0 <= a < records.length :: updated[a] == Moved(m, records.View()[a], inventory)
  {
    ghost var base := records.View();
    assert CountMembers(base[..0], m.batchID) == 0 && MovedUpTo(base, base, m, inventory, 0);
    hide Verification, Movable, Moved, CountMembers, MovedUpTo;
    var verified := ReadVerification(inventory.production);
    updated := Clone(records);
    var count := 0;
    for i := 0 to updated.Length
      invariant updated.Length == |base|
      invariant MovedUpTo(updated[..], base, m, inventory, i)
      invariant count == CountMembers(base[..i], m.batchID)
    {
      CountMembersStep(base, i, m.batchID);
      MoveStep(updated[..], base, m, inventory, i);
      assert updated[i] == base[i];
      if updated[i].batch != m.batchID {
        continue;
      }
      count := count + 1;
      var moved;
      outcome, moved := MoveRecord(m, updated[i], verified, inventory);
      if outcome.Fail? {
        assert base[i] == records.View()[i] && !Movable(m, base[i], inventory);
        return;
      }
      ghost var was := updated[..];
      updated[i] := moved;
      assert updated[..] == was[i := moved];
    }
    MovedAll(updated[..], base, m, inventory);
    assert base[..|base|] == base;
    if count < 3 || count > 5 {
      return Fail("needs 3-5 records"), updated;
    }
    return Pass, updated;
  }

  /** What the loop of transition does to one member of the batch. */
  method MoveRecord(m: Move, r: Record, verified: map<string, string>, ghost inventory: Inventory)
    returns (outcome: Outcome, moved: Record)
    requires MoveFormed(m) && r.batch == m.batchID
    requires forall id :: Get(verified, id, "") == Verification(inventory.production, id)
    ensures outcome.Pass? <==> Movable(m, r, inventory)
    ensures outcome.Pass? ==> moved == Moved(m, r, inventory)
  {
    moved := r;
    if m.operation != Claim && (r.status != Claimed || r.owner != m.owner) {
      return Fail("not claimed by owner"), moved;
    }
    match m.operation {
      case Claim =>
        if r.status != Unclaimed && (r.status != Claimed || r.owner != m.owner) {
          return Fail("not available"), moved;
        }
        moved := r.(status := Claimed, owner := m.owner);
      case Verify =>
        var evidence := Get(verified, r.oracleID, "");
        if evidence == "" {
          return Fail("no behavior evidence"), moved;
        }
        moved := r.(status := ImplementedVerified, owner := "", evidence := evidence);
      case Release =>
        moved := r.(status := Unclaimed, owner := "");
      case Block =>
        moved := r.(status := Blocked, owner := "", blocker := m.blocker, reason := m.reason);
    }
    return Pass, moved;
  }

  /** nextBatch's answer is determined, so a batch is offered exactly when it is the answer. */
  lemma OfferIsUnique(q: Manifest, owner: string, offer: Offer, batchID: string)
    requires IsNext(q, owner, offer)
    ensures OffersBatch(q, owner, batchID) <==> offer.Offered? && offer.batch.id == batchID
  {
    if OffersBatch(q, owner, batchID) {
      var b :| IsNext(q, owner, Offered(b)) && b.id == batchID;
      SameOffer(q, owner, offer, Offered(b));
    }
  }

  lemma SameOffer(q: Manifest, owner: string, one: Offer, other: Offer)
    requires IsNext(q, owner, one) && IsNext(q, owner, other)
    ensures one == other || (one.Refused? && other.Refused?)
  {
    forall k: nat, l: nat, status | FirstAt(q, k, status) && FirstAt(q, l, status) ensures k == l {
    }
    forall k: nat, status | FirstAt(q, k, status) ensures !NoneBefore(q, |q.batches|, status) {
    }
  }
}
