# council4: proofs about its protocol, combat, catalog, copying and parsing cores

This project models the parts of council4 that carry real invariants and proves what they promise for every input,
every reachable state and every run:

- the **card queue** (`cmd/cardqueue`), a saved state machine that several writers share: an imperative validator proved
  equal to a declarative invariant, every step proved against a specification without loops, preservation of the
  invariant by each step, and safety over whole runs under an inventory that changes between commands;
- **combat arithmetic** (`mtg/agent`): the greedy block that a lethal-crackback check relies on is an optimal block, and
  the survival bonus depends on neither attacker order nor superfluous blocks;
- the **program catalog and card registry** (`mtg/cardprogram`, `mtg/cards`): a depth-first closure over a possibly
  cyclic graph, and a registry whose parallel tables stay consistent while identities replace each other;
- the **deep copy** of the combat state (`mtg/game`): equal value, disjoint heap;
- **selection, numbers, slots and decklists** (`mtg/agent`, `mtg/game`, `mtg/deck`): cheapest-n choices, two's-complement
  ranges, flat target slots, and a line-by-line parser that inverts its text form.

Code that updates state is modelled by methods on classes and arrays; each such method is proved against a function or
predicate on values, and the lemmas about those values state what the operation means: members whose names end in
`Means`, `Demands` or `Writes` say it on the fields and list entries themselves, without the functions that compute it.

## How the files fit together

- `Text`, `Integers`, `Options`, `Collections`, `GoSlices`, `Sorting`: Go strings, machine integers, sequences, slices
  with spare capacity, and what `slices.SortFunc` and `slices.SortStableFunc` promise. An unstable sort promises nothing
  about ties, so a result proved with it does not depend on how ties fall.
- `Queue` (entities), `QueueFacts` (what evidence, corpus and inventory say, entry by entry), `QueueInvariant` (what a
  valid queue is), `Validate` (the imperative validator), `QueueOrder` (sorting is harmless), `QueueSteps`,
  `QueueEvidence`, `QueueReconcile`, `QueueSeed` (what each step does, on values), `CardQueueState` (the steps on a live
  manifest whose slices share arrays), `QueueMoves`, `QueuePlans` (the steps keep the invariant), `QueueEffects` (what
  each step demands and writes, field by field), `QueueRuns` (runs), `QueueCommand` (one invocation of the command),
  `QueueExamples` (concrete queues).
- `Battlefield`, `Crackback`, `Survival`, `Selection`: what the agent sees and how it decides.
- `Catalogs`, `RegistryIndex`, `CardRegistry`: programs and cards.
- `CombatClone`, `DeckParse`, `DeckLines` (what each kind of line does), `RandomNumber`, `RandomChoices`, `TargetSlots`.

`SampleIsValid` and its neighbours in `QueueExamples` exhibit valid queues, so the invariant is not vacuous.

## Where the code does less than one would expect

- Release and block keep the queue valid exactly when every member of the batch is still in the backlog
  (`QueueMoves.MoveKeepsValid`; `QueueExamples.ReleaseCanInvalidate` is a queue on which release does not). The
  validation that ends `run` is what stops such a command from being saved.
- `nextBatch` offers a batch to an owner whose name is blank, and `transition` then refuses the claim
  (`QueueMoves.OfferedIsClaimable`, `QueueExamples.BlankOwnerIsOfferedInVain`).
- Reconciling moves baseline associations whose reassessments were never checked, and installs tokens by the layout
  the installation file claims rather than the corpus layout. `QueueReconcile.ReconcileKeepsValid` says, for a queue
  saved under any older inventory, exactly when the result is valid under the new one; `QueueExamples` shows a queue
  that fails in each of the two ways, and one that does not.
- `init` accepts a seed that the validation behind it then refuses; `QueueSeed.InitIsValid` says exactly which seeds
  give a valid first manifest.
- `randomSelection` slices with a negative bound when the requested minimum is negative and a negative number is drawn
  (`RandomChoices.RandomSelection`, `RandomChoices.OnlyNegativeBoundsOverrun`).
- A rendered decklist reads back exactly when each of its lines is shorter than the scanner's buffer
  (`DeckParse.RoundTrip`).
- `CloneAttackingBands` turns an empty but non-nil member list into a nil one. The copy of a combat state is therefore
  the same to the last nil exactly when no band has such a list (`CombatClone.ClonedIsExact`,
  `CombatClone.EmptyBandIsLost`).
- A target specification that admits no target has no slot for `targetCardConditionSlotMatches` and one slot for
  `targetSpecForSlot`; the two agree on all slots exactly when there is no such specification
  (`TargetSlots.CountingsAgree`).

## Model

| member | source | states |
|---|---|---|
| Validate.Validate | cmd/cardqueue/validate.go:12-161 | validation accepts exactly the queues that satisfy the declarative invariant `QueueInvariant.Valid` |
| Validate.ValidateOver | cmd/cardqueue/validate.go:23-161 | the same over an indexed corpus: loops that fill and delete from maps decide a statement without loops |
| Validate.ValidateBatch | cmd/cardqueue/continuation.go:69-107 | accepts exactly the well-formed batch definitions |
| Validate.CheckEvidence | cmd/cardqueue/continuation.go:99-105 | accepts exactly evidence that names each listed prerequisite at most once and is complete |
| Validate.IndexCorpus | cmd/cardqueue/validate.go:13-22 | fails exactly on an ambiguous corpus; otherwise the map holds each tracked identity and nothing else |
| Validate.ReadInventory | cmd/cardqueue/validate.go:23-43 | the five lookup tables say what the inventory lists say, the last entry of an identity deciding |
| Validate.CheckRetired | cmd/cardqueue/validate.go:47-60 | accepts exactly distinct, well-formed retired batches of known identities |
| Validate.CheckBatches | cmd/cardqueue/validate.go:61-76 | accepts exactly distinct, unretired, well-formed batches without a shared member, and tabulates them |
| Validate.CheckRecord | cmd/cardqueue/validate.go:91-132 | accepts a record exactly when owner, reassessments and status are sound and the inventory backs them |
| Validate.AccountRecord | cmd/cardqueue/validate.go:78-132 | a record passes exactly when its identity is new and known and it names just the batch that lists it |
| Validate.CheckRecords | cmd/cardqueue/validate.go:77-133 | the loop accepts exactly sound, distinct records whose claims share one batch and owner; what stays in the maps is what no record took |
| Validate.MissingMembers | cmd/cardqueue/validate.go:134-136 | no member is left over exactly when every batch member has a record |
| Validate.CheckWholeClaim | cmd/cardqueue/validate.go:137-143 | accepts exactly when the claimed batch is claimed as a whole |
| Validate.CheckAssociation | cmd/cardqueue/validate.go:144-157 | a baseline association passes exactly when it is unaccounted for, plain, and backed by a loadable key and no invented one |
| Validate.CheckBaseline | cmd/cardqueue/validate.go:144-160 | baseline and leftovers pass exactly when records and baseline partition the corpus and every association is sound |
| QueueInvariant.PartitionForms | cmd/cardqueue/validate.go:79-160 | an exact partition is two lists without repetition, disjoint, that leave nothing over |
| QueueInvariant.RecordMeans | cmd/cardqueue/validate.go:91-132 | a record is sound exactly when its status fits corpus and inventory, said entry by entry without any lookup |
| QueueInvariant.AssociationMeans | cmd/cardqueue/validate.go:144-157 | and an association exactly when production covers the card under keys of its listing, one of them loadable |
| QueueInvariant.BatchMeans | cmd/cardqueue/continuation.go:69-111 | what a well-formed batch is, on its own fields |
| QueueInvariant.RetiredMeans | cmd/cardqueue/validate.go:47-60 | retired batches are well-formed, apart, and made of corpus cards |
| QueueInvariant.BatchesMean | cmd/cardqueue/validate.go:61-76 | live batches are well-formed, have IDs no other batch has, and share no member |
| QueueInvariant.PartitionMeans | cmd/cardqueue/validate.go:78-160 | each corpus identity stands once among records and baseline, and nothing else does |
| QueueInvariant.MembershipMeans | cmd/cardqueue/validate.go:85-136 | a record names just the batch that lists it, with its family, and every member has a record |
| QueueInvariant.ClaimsMean | cmd/cardqueue/validate.go:106-143 | all claims are of one owner on one batch, which is claimed as a whole |
| QueueFacts.IndexMeans | cmd/cardqueue/validate.go:13-22 | the corpus index knows exactly the cards that are not disowned |
| QueueFacts.VerificationMeans | cmd/cardqueue/main.go:316-321 | the evidence text is that of the last support which vouches for the identity, empty when none does |
| QueueFacts.CompiledMeans | cmd/cardqueue/validate.go:27-33 | an identity counts as compiled exactly when its last corpus listing is accepted |
| QueueOrder.OrderDoesNotMatter | cmd/cardqueue/validate.go:77-143 | rearranging the records never changes the verdict of validation |
| QueueOrder.FormatIsCanonical | cmd/cardqueue/main.go:262-270 | on distinct records the formatted order is unique although the sort is not stable |
| QueueOrder.FormattedOrder | cmd/cardqueue/main.go:262-270 | most decks first, then by family, then by identity |
| Text.LessMeans | cmd/cardqueue/main.go:266-269 | the string order is decided at the first difference, or by the shorter string |
| CardQueueState.CardQueue.NextBatch | cmd/cardqueue/main.go:272-295 | the two loops answer by the rule `IsNext`: refuse on a foreign claim, resume a whole claim, else the first ready unclaimed batch |
| CardQueueState.CardQueue.CountStatus | cmd/cardqueue/main.go:283-288 | the inner loop counts the records of a batch in one status |
| CardQueueState.CardQueue.Transition | cmd/cardqueue/main.go:297-355 | succeeds exactly when the move is allowed, then replaces the records by the moved ones; a failure writes nothing, and the old slice is never written |
| CardQueueState.CardQueue.CheckMove | cmd/cardqueue/main.go:298-315 | the checks before the loop pass exactly on a well-formed move whose claim is offered |
| CardQueueState.MoveMembers | cmd/cardqueue/main.go:316-353 | the loop passes exactly when every member may move and there are three to five |
| CardQueueState.MoveRecord | cmd/cardqueue/main.go:328-348 | the switch moves one record exactly as specified or fails |
| CardQueueState.ReadVerification | cmd/cardqueue/main.go:316-321 | the map holds the last evidence text of each exact, loadable, behavior-verified support |
| CardQueueState.OfferIsUnique | cmd/cardqueue/main.go:307-315 | what next answers is determined, so comparing its batch ID decides whether a claim is offered |
| CardQueueState.CardQueue.Continue | cmd/cardqueue/continuation.go:168-195 | succeeds exactly when owner, corpus hash, absence of claims and plan allow it; all or nothing |
| CardQueueState.CardQueue.AddReviewedBatch | cmd/cardqueue/continuation.go:196-257 | succeeds exactly on a fresh, disjoint, reviewed batch whose records are exact and free, and assigns precisely those |
| CardQueueState.CardQueue.RecordPrerequisites | cmd/cardqueue/continuation.go:196-223 | only appends evidence for new issues to the saved definition, in a copy of the batch slice; the old slice keeps what it held, and a failure writes nothing |
| CardQueueState.CardQueue.ReassessRecords | cmd/cardqueue/continuation.go:260-296 | reopens exactly the named blocked records and never part of a batch, else fails untouched |
| CardQueueState.IncludesWholeBatches | cmd/cardqueue/continuation.go:284-293 | the nested loops decide that no batch is reopened in part |
| CardQueueState.CardQueue.RetireBatch | cmd/cardqueue/continuation.go:298-332 | detaches a released batch, blocks the named members and keeps the definition among the retired ones, in copies of the three slices; a failure writes nothing |
| CardQueueState.CardQueue.RecordBlockers | cmd/cardqueue/continuation.go:337-360 | blocks exactly the named free records, else fails untouched |
| CardQueueState.EditCandidates | cmd/cardqueue/continuation.go:230-252 | the lookup-check-write loop the four continuation steps share equals a simultaneous edit of the named records |
| CardQueueState.CardQueue.VerifyBatch | cmd/cardqueue/oracle_evidence.go:20-113 | succeeds exactly when hash, verify move and evidence binding all do, and commits both or nothing |
| CardQueueState.BindFields | cmd/cardqueue/oracle_evidence.go:81-101 | whatever order the map yields its fields in, the verdict and the bound source are the same |
| CardQueueState.BindMembers | cmd/cardqueue/oracle_evidence.go:65-102 | the loop binds member after member exactly as `BindUpTo` says |
| CardQueueState.ReadMetadata | cmd/cardqueue/oracle_evidence.go:28-38 | fails exactly on an empty or repeated identity; otherwise indexes the metadata |
| CardQueueState.ReadSources | cmd/cardqueue/oracle_evidence.go:54-64 | fails exactly when a saved source has no, or a repeated, identity |
| QueueEvidence.BindingSucceeds | cmd/cardqueue/oracle_evidence.go:65-102 | binding works exactly when each member's pinned metadata contradicts nothing saved for it; other sources stay as they are |
| QueueEvidence.BindingOnlyAdds | cmd/cardqueue/oracle_evidence.go:78-101 | no saved field of any source is dropped or changed |
| QueueEvidence.BindingBindsMembers | cmd/cardqueue/oracle_evidence.go:65-102 | the metadata of every member fits, and some source holds all of its fields |
| QueueEvidence.VerifiedMembersAreBound | cmd/cardqueue/oracle_evidence.go:69-101 | after a verification every member has a source that saves identity, revision, name, text hash and rulings address of its own metadata, each under its own name |
| QueueEvidence.EvidenceDemands | cmd/cardqueue/oracle_evidence.go:28-102 | the evidence binds exactly when the metadata is unambiguous, the sources name distinct identities, and each member has metadata as pinned that no source saved for it contradicts |
| QueueEvidence.BindingWritesFields | cmd/cardqueue/oracle_evidence.go:74-101 | nothing but those five fields is ever written, and added sources hold nothing else |
| QueueEvidence.OtherSourcesStay | cmd/cardqueue/oracle_evidence.go:65-102 | a source of an identity outside the batch is saved as it was |
| CardQueueState.CardQueue.ReconcileCompiled | cmd/cardqueue/reconcile_compiled.go:20-80 | the in-place step succeeds exactly when allowed and leaves the specified queue, whether or not its appends find spare capacity; a failure writes nothing |
| CardQueueState.CardQueue.MoveToRecords | cmd/cardqueue/reconcile_compiled.go:66-69 | the dropped associations are appended to both lists and disturb nothing the slices held |
| GoSlices.Append | cmd/cardqueue/reconcile_compiled.go:66-69 | append into spare capacity or a longer array: the same elements and one more, and the old view is as it was |
| GoSlices.Delete | cmd/cardqueue/continuation.go:330 | deletion within an array leaves the elements without the one |
| CardQueueState.ClonedWithout | cmd/cardqueue/continuation.go:330 | deleting from a clone leaves the original slice alone |
| CardQueueState.FilterInPlace | cmd/cardqueue/reconcile_compiled.go:58-71 | the filter over its own slice never overwrites an unread element: kept and moved are the two halves of the original |
| CardQueueState.ReadInstallation | cmd/cardqueue/reconcile_compiled.go:40-48 | fails exactly on an empty or repeated installed identity |
| CardQueueState.ReadAvailable | cmd/cardqueue/reconcile_compiled.go:49-57 | an identity is available exactly when accepted, installed, and not missing from production unless a token |
| CardQueueState.InstallAvailable | cmd/cardqueue/reconcile_compiled.go:72-78 | every available unclaimed record is installed where it stands, every other stays |
| QueueReconcile.ReconcileConserves | cmd/cardqueue/reconcile_compiled.go:58-71 | records and baseline together hold the same identities as before, each as often |
| QueueReconcile.ReconcileCorrects | cmd/cardqueue/reconcile_compiled.go:58-71 | the corrected associations grow by exactly the baseline entries that entered the backlog, unchanged and each as often; the others remain in the baseline |
| QueueReconcile.ReconcileRecovers | cmd/cardqueue/reconcile_compiled.go:66-78 | behind the saved records stand the newly corrected associations in their order, each differing in status, family and evidence only |
| QueueReconcile.ReconcileWrites | cmd/cardqueue/reconcile_compiled.go:72-78 | a saved record is installed, by status and evidence alone, exactly when it is unclaimed and covered |
| QueueReconcile.AvailableMeans | cmd/cardqueue/reconcile_compiled.go:49-57 | covered means: last listing accepted, installed, and not in the backlog unless installed as a token |
| QueueReconcile.ReconcileSettles | cmd/cardqueue/reconcile_compiled.go:58-78 | no backlog identity stays in the baseline and no available record stays unclaimed |
| QueueReconcile.ReconcileIsIdempotent | cmd/cardqueue/reconcile_compiled.go:20-80 | a second run is allowed and changes nothing |
| QueueReconcile.ReconcileKeepsFormed | cmd/cardqueue/reconcile_compiled.go:58-78 | under any inventory, all that the inventory does not decide is kept exactly when the moved reassessments are sound |
| QueueReconcile.ReconcileKeepsValid | cmd/cardqueue/reconcile_compiled.go:49-78 | on a queue saved under any inventory, the result is valid exactly when the moved reassessments are sound, every identity installed against the backlog is a corpus token, and the inventory backs what is left alone |
| QueueReconcile.ValidIsFormedAndBacked | cmd/cardqueue/validate.go:12-161 | the invariant splits into a part the inventory cannot change and a part it must back |
| QueueMoves.MoveKeepsValid | cmd/cardqueue/main.go:322-354 | an allowed claim or verify keeps the queue valid; release and block do exactly when every member is in the backlog |
| QueueMoves.MoveKeepsSingleClaim | cmd/cardqueue/main.go:322-354 | after any allowed move all claims belong to one owner and one wholly claimed batch |
| QueueMoves.WhollyMeansAll | cmd/cardqueue/main.go:282-291 | on a valid queue a batch whose count equals its declared size has all its records in that status |
| QueueMoves.OfferedIsClaimable | cmd/cardqueue/main.go:272-315 | an offered batch can be claimed exactly by a named owner; afterwards it is that owner's next batch and everyone else is refused |
| QueueMoves.ClaimedIsNext | cmd/cardqueue/main.go:272-295 | after any claim the claimed batch is the only one next offers, and only to its owner |
| QueueEffects.MoveDemands | cmd/cardqueue/main.go:298-353 | a move is allowed exactly with a batch, an owner and three to five records that may all move, the offer for a claim, issue and reason for a block |
| QueueEffects.MoveWrites | cmd/cardqueue/main.go:322-348 | what claim, verify, release and block write into a record, field by field; every other field and record stays |
| QueueEffects.OfferMeans | cmd/cardqueue/main.go:272-295 | on a valid queue next answers by this rule: name who holds a foreign claim, else the first wholly claimed batch, else the first wholly free one with evidence for each prerequisite, else nothing |
| QueueEffects.ReadyMeans | cmd/cardqueue/continuation.go:113-124 | a batch is ready exactly when each of its prerequisites has complete evidence |
| QueueEffects.ReadyCounts | cmd/cardqueue/continuation.go:69-124 | on a well-formed batch that is so exactly when there are as many pieces of evidence as prerequisites |
| QueueExamples.BlankOwnerIsOfferedInVain | cmd/cardqueue/main.go:298-315 | a valid queue that offers its batch to a blank owner, who cannot claim it |
| QueueExamples.ReleaseCanInvalidate | cmd/cardqueue/main.go:345-346 | a valid queue that an allowed release leaves invalid because the backlog lost the batch |
| QueueExamples.UncheckedReassessmentCanInvalidate | cmd/cardqueue/reconcile_compiled.go:58-71 | a saved valid queue that reconciling makes invalid through an unsound reassessment |
| QueueExamples.FalseTokenCanInvalidate | cmd/cardqueue/reconcile_compiled.go:54-78 | a saved valid queue that reconciling makes invalid because only the installation file calls the card a token |
| QueueExamples.MovedAssociationIsValid | cmd/cardqueue/reconcile_compiled.go:58-71 | the same queue without these faults reconciles to a valid one, an association having moved |
| QueueExamples.SampleIsValid | cmd/cardqueue/validate.go:12-161 | queues that satisfy the invariant, unclaimed and claimed |
| QueuePlans.ContinueKeepsValid | cmd/cardqueue/continuation.go:168-360 | each of the five continuation steps that succeeds on a valid queue leaves a valid queue, unconditionally |
| QueuePlans.AddKeepsValid | cmd/cardqueue/continuation.go:225-257 | adding a reviewed batch keeps the invariant, the member bijection included |
| QueuePlans.EveryMemberNamed | cmd/cardqueue/continuation.go:226-235 | as many distinct candidates as members, all of them members, name every member (pigeonhole) |
| QueuePlans.RetireKeepsValid | cmd/cardqueue/continuation.go:298-332 | retiring keeps the invariant |
| QueuePlans.ReassessKeepsValid | cmd/cardqueue/continuation.go:260-296 | reassessing keeps the invariant |
| QueuePlans.BlockersKeepValid | cmd/cardqueue/continuation.go:337-360 | recording blockers keeps the invariant |
| QueuePlans.PrerequisitesKeepValid | cmd/cardqueue/continuation.go:207-223 | recording prerequisite evidence keeps the invariant |
| QueueEffects.BlockersDemand | cmd/cardqueue/continuation.go:337-357 | blockers are recorded exactly on free records as they were reviewed, each once, with an issue and a reason |
| QueueEffects.BlockersWrite | cmd/cardqueue/continuation.go:355 | a named record gets just status, issue and reason; every other field and record stays |
| QueueEffects.ReassessDemands | cmd/cardqueue/continuation.go:260-293 | reassessing takes exactly one to five blocked records as reviewed, each with complete evidence on its own blocker, and whole batches |
| QueueEffects.ReassessWrites | cmd/cardqueue/continuation.go:281-282 | a named record is unclaimed and keeps the evidence with the reason it was blocked for behind its earlier reassessments; every other field and record stays |
| QueueEffects.RetireDemands | cmd/cardqueue/continuation.go:298-327 | a batch is retired exactly when all its records are released, for one to five of its members, each with an issue and a reason |
| QueueEffects.RetireWrites | cmd/cardqueue/continuation.go:311-330 | the batch moves to the end of the retired ones, its records leave it, and each named one is blocked for the given reason |
| QueueEffects.AddDemands | cmd/cardqueue/continuation.go:224-250 | a new batch needs exactly a fresh ID, a review, members no live batch has, and a free record as reviewed for each of them |
| QueueEffects.AddWrites | cmd/cardqueue/continuation.go:251-256 | every member, and no other record, gets the ID and family of the batch, which is appended |
| QueueEffects.PrerequisitesDemand | cmd/cardqueue/continuation.go:197-219 | the plan must repeat the saved batch and bring evidence only for issues that have none |
| QueueEffects.PrerequisitesWrite | cmd/cardqueue/continuation.go:220-223 | the new evidence stands behind the old in that batch, and nothing else changes |
| QueueEffects.ContinueDemands | cmd/cardqueue/continuation.go:168-195 | every continuation needs a named owner, a plan for this corpus and a queue without claims |
| QueueCommand.Run | cmd/cardqueue/main.go:115-184 | an invocation other than init saves a valid result of its command whenever there is one, and otherwise fails and saves nothing |
| QueueCommand.Init | cmd/cardqueue/main.go:100-130 | the init operation creates a manifest exactly when none is saved and the seed is of this corpus, fits it and is sound; what it creates is valid |
| CardQueueState.CardQueue.Initialize | cmd/cardqueue/main.go:202-260 | succeeds exactly when the seed names each identity once and only corpus identities, and leaves the specified first manifest |
| CardQueueState.DraftCards | cmd/cardqueue/main.go:219-253 | the corpus loop drafts a record or an association for each tracked card and uses up the seeds |
| QueueSeed.InitPartitions | cmd/cardqueue/main.go:219-259 | records and baseline partition the corpus exactly when the seed brought no associations |
| QueueSeed.InitIsValid | cmd/cardqueue/main.go:202-260 | the first manifest is valid exactly when the seed's batches are sound and made of kept cards, its progress is backed by the inventory, and its claims agree |
| QueueSeed.DraftIsSound | cmd/cardqueue/main.go:221-252 | a drafted record is sound and a member of just its batch exactly when its seed is usable |
| QueueSeed.AssociationIsSound | cmd/cardqueue/main.go:228-236 | a drafted association is sound exactly when its seed is silent and one of its keys loads |
| QueueSeed.InitWrites | cmd/cardqueue/main.go:219-253 | what each field of a first record is: from the card, its exclusion, the seed, or the last batch that lists it |
| QueueSeed.InitAssociates | cmd/cardqueue/main.go:225-236 | what each field of a first association is, its keys those of the last listing |
| QueueSeed.InitOrders | cmd/cardqueue/main.go:259 | the first associations stand in the order of their identities |
| QueueCommand.Perform | cmd/cardqueue/main.go:123-181 | the switch takes the specified step, or fails when the step is not allowed |
| QueueCommand.FormatRecords | cmd/cardqueue/main.go:161-162 | sorting leaves the same records in display order |
| QueueCommand.RunIsAStep | cmd/cardqueue/main.go:115-184 | an invocation is one step of a history |
| QueueRuns.FinalValidationIsRedundant | cmd/cardqueue/main.go:182-184 | the validation after the mutation can only fail after release, block or reconciliation |
| QueueRuns.CommandStepsRecords | cmd/cardqueue/main.go:123-184 | no command ends someone else's claim, touches a finished record or what describes a card, or drops a reassessment |
| QueueRuns.HistoryEvolves | cmd/cardqueue/main.go:84-200 | over any run a finished record is never touched again, reassessments and evidence only grow, retired batches stay, no identity disappears from the records, and revision, name, decks and keys never change |
| QueueRuns.HistoryStaysFormed | cmd/cardqueue/main.go:84-200 | over any run, however the inventory changes, every saved queue keeps what the inventory does not decide |
| QueueRuns.StepsStayInCorpus | cmd/cardqueue/main.go:115-117 | a step keeps the corpus hash, and plan, metadata and installation are for the same corpus |
| QueueRuns.CorpusNeverChanges | cmd/cardqueue/main.go:115-117 | over any run the corpus stays the same |
| QueueRuns.OneOwnerAtATime | cmd/cardqueue/main.go:84-200 | at every point of a run at most one owner holds claims, all on one batch |
| QueueRuns.OnlyTheOwnerEndsAClaim | cmd/cardqueue/main.go:322-349 | a claim that ends was released, blocked or verified by its own owner |
| QueueRuns.ReconcileAtAnyPoint | cmd/cardqueue/main.go:123-130 | at any point of a run, whether reconciling can be saved is decided by the queue and the inventory of the moment |
| QueueRuns.RetiredIDsAreSpent | cmd/cardqueue/continuation.go:224-227 | a retired batch ID is never live again |
| Crackback.UnblockedCrackback | mtg/agent/combat_restraint.go:88-102 | the greedy damage is attained by a legal block with one blocker per attacker and beaten by no legal block at all |
| Crackback.GreedyDamage | mtg/agent/combat_restraint.go:91-101 | on attackers in descending order the loop lets through exactly the least damage |
| Crackback.PickBlocker | mtg/agent/combat_restraint.go:107-125 | the first preferred blocker, else the first that can block, else none |
| Crackback.GreedyStep | mtg/agent/combat_restraint.go:95-100 | each pick keeps the greedy state and passes an attacker only when the unstoppable number max(0, f-F, f+g-F-G) grows |
| Crackback.BlockLimit | mtg/agent/combat_restraint.go:82-88 | against any prefix of attackers every legal block leaves at least the unstoppable number unblocked |
| Crackback.LeastIsLeast | mtg/agent/combat_restraint.go:82-102 | summed over power thresholds, no legal block lets less damage through than the greedy one |
| Crackback.BestBlockIsUnique | mtg/agent/combat_restraint.go:88-102 | the optimum is one number, so tie-breaking in the unstable sort cannot change it |
| Crackback.RemainingBlockers | mtg/agent/combat_restraint.go:50-64 | exactly the agent's untapped creatures that do not tap to attack, in battlefield order |
| Crackback.OpponentCreatures | mtg/agent/combat_restraint.go:69-80 | for each opponent exactly its creatures; a missing opponent has none |
| Crackback.CrackbackPenalty | mtg/agent/combat_restraint.go:27-45 | the penalty is charged exactly when life is gone or one opponent's full swing is lethal against every legal block |
| Crackback.HoldingBackIsSafe | mtg/agent/combat_restraint.go:27-64 | declaring a subset of the attackers never brings the penalty on |
| Crackback.OneAttackerIsStopped | mtg/agent/combat_restraint.go:82-125 | a single attacker is stopped exactly when some blocker may block it, a flyer only by flying or reach, and deals its power otherwise |
| Crackback.LoneSwingDecides | mtg/agent/combat_restraint.go:36-45 | an opponent with one creature is deadly exactly when nothing may block it and its power reaches the life total |
| Crackback.LoneCreatureDooms | mtg/agent/combat_restraint.go:27-45 | against one creature and an empty board of its own, life total and power alone decide |
| Crackback.RemainingMeans | mtg/agent/combat_restraint.go:50-64 | which permanents are left to block, each as often as it is there |
| Crackback.SwingMeans | mtg/agent/combat_restraint.go:69-80 | which permanents an opponent swings with, tapped ones included |
| Survival.AttackIsLethal | mtg/agent/combat_survival.go:41-60 | lethal exactly when total face damage reaches life or some commander reaches 21 |
| Survival.BlockAssignment | mtg/agent/combat_survival.go:82-92 | the maps hold the summed toughness and the blocked flag of every attacker |
| Survival.SurvivalValue | mtg/agent/combat_survival.go:20-36 | the bonus is earned exactly when the attack is lethal unblocked and not lethal blocked |
| Survival.OrderOfAttackersDoesNotMatter | mtg/agent/combat_survival.go:41-60 | no rearrangement of the attackers changes the verdict, so neither does the early return |
| Survival.MoreBlocksAreSafer | mtg/agent/combat_survival.go:20-92 | more declarations never make an attack lethal, and keep an earned bonus |
| Survival.MoreBlocksLessDamage | mtg/agent/combat_survival.go:66-92 | more declarations never raise what one attacker deals, trample included |
| Survival.FaceMeans | mtg/agent/combat_survival.go:62-79 | unblocked: the power; blocked without trample: nothing; with trample: damage and wall together cover the power, exactly so when there is damage |
| Survival.ToughnessMeans | mtg/agent/combat_survival.go:82-92 | the wall is the sum of the positive toughness of the blockers declared for the attacker |
| Survival.OneAttackerKills | mtg/agent/combat_survival.go:41-79 | the verdict on one attacker, by power, wall, life total and commander damage |
| Survival.OneMoreAttacker | mtg/agent/combat_survival.go:46-60 | each attacker lowers the life total by its damage, and any one may be the commander that kills |
| Catalogs.NewCatalog | mtg/cardprogram/catalog.go:30-53 | succeeds exactly on valid, distinct programs with resolvers whose dependencies are among them, and holds exactly those |
| Catalogs.References | mtg/cardprogram/catalog.go:56-92 | fails exactly when something reachable is not installed; otherwise lists exactly what is reachable, strictly ascending |
| Catalogs.Visit | mtg/cardprogram/catalog.go:59-76 | the recursion ends on cyclic graphs, marks a dependency-closed set, and on failure a reachable reference is missing |
| Catalogs.InstalledReach | mtg/cardprogram/catalog.go:45-109 | on a built catalog everything reachable is installed exactly when the roots are |
| Catalogs.LookupInstalled | mtg/cardprogram/catalog.go:95-109 | on a built catalog lookup finds exactly the declared references, version included |
| Catalogs.RootsAreASet | mtg/cardprogram/catalog.go:56-92 | reordering or repeating the roots does not change the result |
| Catalogs.CatalogDemands | mtg/cardprogram/catalog.go:30-53 | what a catalog takes, on the programs themselves |
| Catalogs.ReferableMeans | mtg/game/program.go:22-27 | a reference has an ID and a version without blanks, tabs or line breaks |
| Catalogs.ClosureIsLeast | mtg/cardprogram/catalog.go:56-92 | the result is the least set that holds the roots and, with a program, all it declares, in ascending order of ID |
| CardRegistry.NewProgramRegistry | mtg/cards/registry.go:105-172 | succeeds exactly when the entries, legacy first, are admissible and their programs form a catalog; then the tables are described by those entries |
| CardRegistry.Registry.Register | mtg/cards/registry.go:123-165 | one pass accepts or refuses as specified and updates all five tables together |
| CardRegistry.Registry.Examine | mtg/cards/registry.go:124-160 | the checks of one pass, and whether the entry supersedes a legacy one |
| RegistryIndex.AcceptsIsAdmissible | mtg/cards/registry.go:123-160 | the incremental checks equal a condition on the whole list before the entry |
| RegistryIndex.AfterIsDescribed | mtg/cards/registry.go:150-164 | each pass keeps lists, parallel tables, saved indices and count in agreement, despite deletions |
| RegistryIndex.AfterIndices | mtg/cards/registry.go:155-164 | every saved name and index still leads to the entry of its identity |
| RegistryIndex.AfterCount | mtg/cards/registry.go:149-164 | the count stays the total length of all lists |
| RegistryIndex.NamesDoNotMix | mtg/cards/registry.go:137-156 | no name lists both legacy and authored entries |
| RegistryIndex.InterleavingDoesNotMatter | mtg/cards/registry.go:108-122 | equal legacy and authored subsequences build equal tables, however they were interleaved |
| RegistryIndex.StableIsArranged | mtg/cards/registry.go:114-122 | a stable sort by class is the legacy entries followed by the authored ones |
| RegistryIndex.RegistryDemands | mtg/cards/registry.go:123-168 | a registry is built exactly when each entry is presentable, no identity is given twice, and each authored entry replaces just the one legacy entry of its name, if it is the first |
| RegistryIndex.ListedMeans | mtg/cards/registry.go:137-164 | a name lists its authored entries, or its legacy ones when it has none, in their order |
| RegistryIndex.ProgramsMean | mtg/cards/registry.go:163 | the programs of a registry are those its entries bind |
| CardRegistry.ValidCardMeans | mtg/cardprogram/catalog.go:128-144 | a definition is valid exactly when its programs are declared and it validates if it has any |
| CardRegistry.Registry.LookupOracleID | mtg/cards/registry.go:208-218 | the returned definition was built by exactly the entry that carries the identity |
| CardRegistry.Registry.LookupAllChecked | mtg/cards/registry.go:251-270 | definitions are built and checked once and then handed out unchanged; a failure caches nothing |
| CombatClone.CloneCombatState | mtg/game/clone.go:483-499 | nil stays nil; otherwise the copy has the original's value up to empty bands, is made of fresh objects, and shares none with the original |
| CombatClone.CopyHasEveryField | mtg/game/clone.go:487-499 | a state with the value of a copy has every field of the original, container by container |
| CombatClone.CloneAttackingBands | mtg/game/combat.go:52-62 | fresh bands with fresh, unshared member lists of the same members |
| CombatClone.CloneBlockerOrder | mtg/game/clone.go:501-510 | a fresh map with a fresh list for every attacker |
| CombatClone.CloneSlice | mtg/game/clone.go:201-206 | nil for nil, otherwise a fresh slice with the same elements |
| CombatClone.CloneComparableMap | mtg/game/clone.go:235-237 | nil for nil, otherwise a fresh map with the same entries |
| CombatClone.ClonedIsExact | mtg/game/clone.go:483-499 | the copy is exact, nils included, exactly when no band has an empty non-nil member list |
| CombatClone.EmptyBandIsLost | mtg/game/combat.go:57-60 | a state whose copy differs: an empty member list comes back nil |
| CombatClone.WritesElsewhereDoNotShow | mtg/game/combat.go:76-155 | a state's value depends on its own footprint only |
| CombatClone.WritesThroughTheCopyDoNotShow | mtg/game/clone.go:483-510 | with disjoint footprints, writes to what the copy reaches leave the original's value as it was |
| CombatClone.WritesThroughTheOriginalDoNotShow | mtg/game/clone.go:483-510 | and writes to what the original reaches leave the copy's value as it was |
| Selection.WeakestCreaturesValue | mtg/agent/activation.go:245-264 | the sum is the least total threat over all choices of that many of the agent's creatures |
| Selection.SumOfLowest | mtg/agent/activation.go:253-263 | sorting and adding the first n realises a cheapest choice |
| Selection.LoseLeastValuable | mtg/agent/choices.go:121-143 | answers exactly pure card losses, with distinct options of least total mana value, ordered by value and then number |
| Selection.PrefixIsCheapest | mtg/agent/activation.go:256-263 | the first n of an ascending list sum to no more than any n of them |
| Selection.LossMeans | mtg/agent/choices.go:121-143 | the chosen cards cost no more mana than any other as many, and are the first by mana value and then number |
| Selection.CreaturesMean | mtg/agent/activation.go:249-254 | the creatures to choose from are those the agent controls |
| RandomNumber.Answer | mtg/agent/random.go:76-100 | one number of the range, minimum plus the drawn offset, or the in-range default; empty exactly for malformed requests |
| RandomNumber.SpanIsExact | mtg/agent/random.go:91-93 | the wrapping difference is the true span, wider than any int64 if need be |
| RandomNumber.ShiftIsExact | mtg/agent/random.go:94-99 | the wrapping sum is the true one and stays in the range |
| RandomNumber.OffsetsAreAnswers | mtg/agent/random.go:91-99 | each number of the range comes from exactly one offset |
| RandomNumber.OnlyTheFullRangeNeedsAllDraws | mtg/agent/random.go:94-98 | the special case is exactly the range of all 64-bit integers |
| RandomChoices.RandomPermutation | mtg/agent/random.go:103-109 | every option exactly once, in shuffled order |
| RandomChoices.RandomAllocation | mtg/agent/random.go:113-127 | a shuffled multiset of the requested size in which every option appears; empty exactly when that is impossible |
| RandomChoices.RandomSelection | mtg/agent/random.go:149-160 | for any bounds: a drawn number of options from distinct positions of the shuffled list, no answer when the bounds leave no number, and a slice bound out of range when the number is negative |
| RandomChoices.OnlyNegativeBoundsOverrun | mtg/agent/random.go:149-160 | some draw overruns the slice exactly when the bounds admit a negative number |
| RandomChoices.SwappedKeepsAll | mtg/agent/random.go:105-107 | any series of swaps keeps each element as often as before |
| RandomChoices.AnyOrderCanBeShuffled | mtg/agent/random.go:105-107 | every rearrangement of the options is reached by some shuffle |
| RandomChoices.AnyAllocationCanBeDrawn | mtg/agent/random.go:113-127 | every allocation that gives each option its unit is drawn by some draws |
| RandomChoices.AnyCountCanBeDrawn | mtg/agent/random.go:149-160 | exactly the numbers within the bounds can be drawn |
| TargetSlots.SlotMatches | mtg/game/condition_target_card.go:4-19 | true exactly when the slot is a card slot of the flattened specifications with that many card slots before it; a negative slot matches only the same negative card index |
| TargetSlots.EachCardOneSlot | mtg/game/condition_target_card.go:4-19 | a card index matches one slot if it is below the number of card slots, and none otherwise |
| TargetSlots.TargetSpecForSlot | mtg/game/primitive_validation.go:44-57 | the running-total loop finds the specification that admits the slot, counting at least one slot each |
| TargetSlots.CountingsAgree | mtg/game/condition_target_card.go:4-19 | both slot countings agree on every slot exactly when no specification admits zero targets |
| DeckParse.Parse | mtg/deck/parse.go:75-133 | the loop over scanned lines is the section machine `Step` from line to line, ending in an error at a line that does not fit the scanner |
| DeckParse.RoundTrip | mtg/deck/parse.go:66-133 | rendering any decklist of plain entries and parsing it gives back the decklist and no error, whatever colons or parentheses the names hold, exactly when every line fits the scanner |
| DeckParse.EntryRoundTrip | mtg/deck/parse.go:199-216 | an entry survives rendering and parsing exactly when its quantity is positive and its trimmed name cleans to itself |
| DeckParse.NumberIsNoHeader | mtg/deck/parse.go:156-195 | a line that starts with a number is never a section header |
| DeckParse.QuantityRoundTrip | mtg/deck/parse.go:244-252 | "N", "Nx" and "NX" all read as N, for every 64-bit N |
| DeckParse.IgnoredSectionIsSilent | mtg/deck/parse.go:115-117 | while the ignored section is in force, lines without a header read nothing and report nothing |
| DeckParse.CaseDoesNotMatter | mtg/deck/parse.go:174-183 | headings that differ only in letter case mean the same section |
| DeckParse.HeadingSteps | mtg/deck/parse.go:85-98 | the two headings and a blank line open and close the commander section |
| DeckLines.OpensMeans | mtg/deck/parse.go:185-195 | which words, in any letter case, name which section |
| DeckLines.HeadingOpens | mtg/deck/parse.go:94-98 | "// Word", "Word:" and "Word (30):", in any letter case, open the section of the word and do nothing else |
| DeckLines.SidelineIsSilent | mtg/deck/parse.go:94-117 | wherever a sideboard heading stands, it and all lines up to the next heading leave commander, cards and errors as they were |
| DeckLines.SidelineOfText | mtg/deck/parse.go:75-133 | the same said of the text |
| DeckLines.SidelineEntryIsDropped | mtg/deck/parse.go:99-101 | "SB: anything" adds nothing and reports nothing |
| DeckLines.InlineEntryStep | mtg/deck/parse.go:152-172 | "COMMANDER: 2 Name" adds that entry to the list of its word and does not change the section in force |
| DeckLines.InlineNameStep | mtg/deck/parse.go:152-172 | a bare name behind such a word is one card; behind a sideboard word it is dropped |
| DeckLines.CommentStep | mtg/deck/parse.go:105-112 | a comment that is no heading only ends the commander section |
| DeckLines.BadLineIsReported | mtg/deck/parse.go:199-216 | a line that is no entry is reported with its number, its text and what is wrong with it |
| DeckLines.MarkIsDropped | mtg/deck/parse.go:83 | a byte order mark in front of a line changes nothing |
| DeckLines.PaddingIsIgnored | mtg/deck/parse.go:84 | white space around a line matters only to the text an error repeats |
| DeckLines.PlusIsAllowed | mtg/deck/parse.go:244-252 | a quantity may carry a plus sign |
| DeckLines.OnlyDigitsCount | mtg/deck/parse.go:244-252 | and is otherwise nothing but a sign and digits, with one "x" and one "X" behind them |
| DeckLines.AsciiFits | mtg/deck/parse.go:80 | of plain ASCII the scanner takes lines of up to 65,535 characters |
| DeckParse.LinesOfUnlines | mtg/deck/parse.go:80-84 | scanning a text gives back the lines it was put together from, exactly when each of them fits |
| DeckParse.ParsedEntriesAreSound | mtg/deck/deck.go:12-19 | in whatever text, a parsed entry has a positive quantity and a name |
| DeckParse.BadLinesAreSkipped | mtg/deck/parse.go:72-74 | the decklist is that of the text without its unparsable lines, and there is one error for each of those |
| DeckParse.Decklist.Add | mtg/deck/parse.go:135-143 | an entry goes to the list of its section only, and an ignored one nowhere |

## Left out

- Reading and writing files, JSON, SHA-256, flags and printing: parsed inputs are values, hashes are strings; a manifest that cannot be decoded is refused before the model starts. JSON null where a string is expected is not part of this model.
- `loadReviewedPlan`, `saveManifest` and the listings `pendingPrerequisites` and `unreviewedCandidates`: input handling, a single-writer file replacement that says of itself that it adds no safety, and displays. Whether a manifest is saved already is a parameter of `QueueCommand.Init`.
- Error texts are shortened; a member's success or failure is exact.
- The corpus policy and the disowned-card rule: their verdicts are fields of a corpus card.
- Integer overflow of sums of power, toughness, decks and life; only `randomNumber` depends on wrapping, and there it is modelled.
- Slices inside a record or batch (evidence, reassessments, keys, members) are values; the manifest's own slices and everything in `CombatClone` are heap objects.
- The order in which `run` prints a batch for `next`, and `next` itself inside `QueueCommand.Run`: the answer is `NextBatch`, which changes nothing.
- Locking in `LookupAllChecked`; constructors are deterministic and a definition is told apart by the object that holds it.
- `ValidateCardDef` and the resolvers: their verdict and presence are fields of definitions and programs.
- `CombatClone.CloneCombatState`: elements of flat slices and maps are plain values, as they are in Go.
- `cleanName`'s regular expressions: `DeckParse` takes any function in its place.
- `DeckParse.Parse`: bytes that are not UTF-8, and a reader that reports its end together with a last line of exactly the buffer's size.
- `DeckParse.Parse`: letters outside ASCII are lower-cased only where that yields an ASCII letter (the Kelvin sign and the dotted capital I), since labels are compared with ASCII keywords only.
- Scoring weights as floating point: they are reals, and only compared or added.
- `randomCombination`, `ChooseAction` and the dispatch of `ChooseChoice`: one draw each.
- `RestoreReversibleManaPayment` and the clones of the other game structures: they repeat the helpers shown here on types that are not visible in full.
- The rules engine and the simulator: observations are given lists of permanents.
