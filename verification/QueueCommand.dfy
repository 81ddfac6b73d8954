/** One invocation of the command line: load, reconcile, validate, mutate, validate again, save. */
module QueueCommand {
  import opened Queue
  import opened QueueInvariant
  import opened QueueOrder
  import opened QueueSteps
  import opened QueueReconcile
  import opened QueueEvidence
  import opened QueueRuns
  import opened QueueSeed
  import opened Options
  import Validate
  import CardQueueState

  /** What run would save, if it can. */
  ghost predicate Accomplishes(
    saved: Manifest, c: Command, corpusHash: string, corpus: seq<Card>, inventory: Inventory, result: Manifest)
  {
    && saved.corpusSHA256 == corpusHash
    && (c.Reconcile? || Valid(saved, corpus, inventory))
    && Steps(saved, c, inventory, result)
    && Valid(result, corpus, inventory)
  }

  /** Run saves a valid result of the command whenever there is one, and otherwise fails and saves nothing. */
  method Run(saved: Manifest, c: Command, corpusHash: string, corpus: seq<Card>, inventory: Inventory)
    returns (outcome: Outcome, result: Manifest)
    requires c.VerifyBatch? ==> c.corpusHash == corpusHash
    ensures outcome.Pass? ==> Accomplishes(saved, c, corpusHash, corpus, inventory, result)
    ensures outcome.Pass? ==> saved.corpusSHA256 == result.corpusSHA256 == corpusHash && Valid(result, corpus, inventory)
    ensures outcome.Fail? ==> result == saved
    ensures outcome.Fail? ==> forall other :: !Accomplishes(saved, c, corpusHash, corpus, inventory, other)
  {
    hide Valid, Steps, ValidOver, Accomplishes;
    result := saved;
    if saved.corpusSHA256 != corpusHash {
      NotAdmitted(saved, c, corpusHash, corpus, inventory);
      return Fail("corpus changed"), result;
    }
    var queue := new CardQueueState.CardQueue.Load(saved);
    if !c.Reconcile? {
      outcome := Validate.Validate(saved, corpus, inventory);
      if outcome.Fail? {
        NotAdmitted(saved, c, corpusHash, corpus, inventory);
        return;
      }
    }
    assert queue.Value() == saved;
    outcome := Perform(queue, c, inventory);
    if outcome.Fail? {
      assert forall other :: !Steps(saved, c, inventory, other);
      NoStep(saved, c, corpusHash, corpus, inventory);
      return;
    }
    var next := Saved(queue);
    outcome := Validate.Validate(next, corpus, inventory);
    if outcome.Fail? {
      NoValidStep(saved, c, corpusHash, corpus, inventory, next);
      return;
    }
    StepIsAccomplished(saved, c, corpusHash, corpus, inventory, next);
    StepsStayInCorpus(saved, c, inventory, next);
    result := next;
  }

  /** A command accomplishes nothing on another corpus or, unless it reconciles, on a queue that is not valid... */
  lemma NotAdmitted(saved: Manifest, c: Command, corpusHash: string, corpus: seq<Card>, inventory: Inventory)
    requires saved.corpusSHA256 != corpusHash || (!c.Reconcile? && !Valid(saved, corpus, inventory))
    ensures forall other :: !Accomplishes(saved, c, corpusHash, corpus, inventory, other)
  {
    hide Valid, Steps;
  }

  /** ... nor when its step is not allowed... */
  lemma NoStep(saved: Manifest, c: Command, corpusHash: string, corpus: seq<Card>, inventory: Inventory)
    requires forall other :: !Steps(saved, c, inventory, other)
    ensures forall other :: !Accomplishes(saved, c, corpusHash, corpus, inventory, other)
  {
    hide Valid, Steps;
  }

  /** ... nor when one result of its step is not valid, since then none is. */
  lemma NoValidStep(
    saved: Manifest, c: Command, corpusHash: string, corpus: seq<Card>, inventory: Inventory, next: Manifest)
    requires Steps(saved, c, inventory, next) && !Valid(next, corpus, inventory)
    ensures forall other :: !Accomplishes(saved, c, corpusHash, corpus, inventory, other)
  {
    hide Valid, Steps;
    forall other | Steps(saved, c, inventory, other) ensures !Valid(other, corpus, inventory) {
      ResultsAgree(saved, c, inventory, next, other, corpus);
    }
  }

  lemma StepIsAccomplished(
    saved: Manifest, c: Command, corpusHash: string, corpus: seq<Card>, inventory: Inventory, next: Manifest)
    requires saved.corpusSHA256 == corpusHash && (c.Reconcile? || Valid(saved, corpus, inventory))
    requires Steps(saved, c, inventory, next) && Valid(next, corpus, inventory)
    ensures Accomplishes(saved, c, corpusHash, corpus, inventory, next)
  {
    hide Valid, Steps;
  }

  ghost predicate SeedValid(seed: Manifest, corpus: seq<Card>, inventory: Inventory) {
    && CorpusWellFormed(corpus)
    && exists cards :: Indexes(cards, corpus) && SeedSound(seed, cards, inventory)
  }

  /**
   * The init operation creates a manifest exactly when none is saved, the seed was written for this corpus and fits it,
   * and what it says is sound; the first manifest is then valid.
   */
  method Init(saved: bool, seed: Manifest, corpusHash: string, corpus: seq<Card>, inventory: Inventory)
    returns (outcome: Outcome, created: Option<Manifest>)
    ensures outcome.Pass? <==> created.Some?
    ensures created.Some? <==>
              !saved && seed.corpusSHA256 == corpusHash && SeedFits(seed, corpus) && SeedValid(seed, corpus, inventory)
    ensures created.Some? ==> Initialized(seed, corpus, inventory, created.value) && Valid(created.value, corpus, inventory)
  {
    hide SeedFits, Initialized, SeedValid, Valid;
    created := None;
    if saved {
      return Fail("already saved"), created;
    }
    if seed.corpusSHA256 != corpusHash {
      return Fail("corpus changed"), created;
    }
    var queue := new CardQueueState.CardQueue.Load(seed);
    outcome := queue.Initialize(corpus, inventory);
    if outcome.Fail? {
      return;
    }
    var first := Saved(queue);
    FirstIsValid(seed, corpus, inventory, first);
    outcome := Validate.Validate(first, corpus, inventory);
    if outcome.Pass? {
      created := Some(first);
    }
  }

  lemma FirstIsValid(seed: Manifest, corpus: seq<Card>, inventory: Inventory, first: Manifest)
    requires Initialized(seed, corpus, inventory, first)
    ensures Valid(first, corpus, inventory) <==> SeedValid(seed, corpus, inventory)
  {
    hide Initialized, CorpusWellFormed, Indexes, ValidOver, SeedSound;
    forall cards | CorpusWellFormed(corpus) && Indexes(cards, corpus)
      ensures ValidOver(first, cards, inventory) <==> SeedSound(seed, cards, inventory)
    {
      InitIsValid(seed, corpus, cards, inventory, first);
    }
  }

  /** The switch over the operations. */
  method Perform(queue: CardQueueState.CardQueue, c: Command, inventory: Inventory) returns (outcome: Outcome)
    requires queue.Valid()
    modifies queue, queue.records.data, queue.baseline.data, queue.corrected.data
    ensures queue.Valid()
    ensures outcome.Pass? ==> Steps(old(queue.Value()), c, inventory, queue.Value())
    ensures outcome.Fail? ==> forall other :: !Steps(old(queue.Value()), c, inventory, other)
  {
    hide MoveAllowed, AfterMove, VerifyAllowed, AfterVerify, ContinueAllowed, AfterContinue, ReconcileAllowed, AfterReconcile;
    match c {
      case Check => outcome := Pass;
      case Format => FormatRecords(queue); outcome := Pass;
      case Shift(m) =>
        if m.operation.Verify? {
          return Fail("unknown operation");
        }
        outcome := queue.Transition(m, inventory);
      case VerifyBatch(batchID, owner, corpusHash, metadata) =>
        outcome := queue.VerifyBatch(batchID, owner, inventory, corpusHash, metadata);
      case Continue(operation, batchID, owner, plan) =>
        outcome := queue.Continue(operation, batchID, owner, plan);
      case Reconcile(installation) =>
        outcome := queue.ReconcileCompiled(installation, inventory);
    }
  }

  /** slices.SortFunc(queue.Records, compareRecords). */
  method FormatRecords(queue: CardQueueState.CardQueue)
    requires queue.Valid()
    modifies queue.records.data
    ensures queue.Valid()
    ensures var before, after := old(queue.Value()), queue.Value();
            && multiset(after.records) == multiset(before.records) && SortedRecords(after.records)
            && after == before.(records := after.records)
  {
    PrecedesIsStrictWeak();
    hide Precedes;
    CardQueueState.SortInPlace(queue.records, Precedes);
    SortedIsSortedRecords(queue.records.View());
  }

  method Saved(queue: CardQueueState.CardQueue) returns (m: Manifest)
    requires queue.Valid()
    ensures m == queue.Value()
  {
    m := Manifest(queue.corpusSHA256, queue.batches.View(), queue.retired.View(), queue.records.View(),
                  queue.baseline.View(), queue.corrected.View(), queue.rules);
  }

  /** A command has one result, up to the order format leaves, so one result is valid exactly when any other is. */
  lemma ResultsAgree(
    saved: Manifest, c: Command, inventory: Inventory, one: Manifest, other: Manifest, corpus: seq<Card>)
    requires Steps(saved, c, inventory, one) && Steps(saved, c, inventory, other)
    ensures Valid(one, corpus, inventory) <==> Valid(other, corpus, inventory)
  {
    if c.Format? {
      hide ValidOver;
      OrderDoesNotMatter(one, other.records, corpus, inventory);
      assert other == one.(records := other.records);
    }
  }

  /** An invocation is one step of a history, over the corpus it read. */
  lemma RunIsAStep(
    saved: Manifest, c: Command, corpusHash: string, corpus: seq<Card>, inventory: Inventory, result: Manifest,
    cards: map<string, Card>)
    requires result == saved || Accomplishes(saved, c, corpusHash, corpus, inventory, result)
    requires Indexes(cards, corpus)
    ensures Runs(saved, c, cards, inventory, result)
  {
    hide ValidOver, Steps, Indexes;
    forall q | Valid(q, corpus, inventory) ensures ValidOver(q, cards, inventory) {
      var index :| Indexes(index, corpus) && ValidOver(q, index, inventory);
      IndexIsUnique(index, cards, corpus);
    }
  }
}
