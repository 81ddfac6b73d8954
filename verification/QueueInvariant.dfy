/** The invariant every saved manifest satisfies, said declaratively: Validate decides exactly this. */
module QueueInvariant {
  import opened Collections
  import opened Queue
  import opened QueueFacts
  import opened Text

  function RecordIDs(records: seq<Record>): seq<string> {
    seq(|records|, i requires 0 <= i < |records| => records[i].oracleID)
  }

  function BatchIDs(batches: seq<Batch>): seq<string> {
    seq(|batches|, i requires 0 <= i < |batches| => batches[i].id)
  }

  ghost predicate RetiredSound(retired: seq<Batch>, cards: map<string, Card>) {
    && Distinct(BatchIDs(retired))
    && (forall i | 0 <= i < |retired| :: BatchWellFormed(retired[i]))
    && (forall i, id | 0 <= i < |retired| && id in retired[i].oracleIDs :: id in cards)
  }

  /** Live batches have fresh IDs and share no member. */
  ghost predicate BatchesSound(batches: seq<Batch>, retired: seq<Batch>) {
    && Distinct(BatchIDs(batches))
    && (forall i | 0 <= i < |batches| :: BatchWellFormed(batches[i]) && batches[i].id !in BatchIDs(retired))
    && (forall i, j, id | 0 <= i < j < |batches| && id in batches[i].oracleIDs :: id !in batches[j].oracleIDs)
  }

  /** Records and baseline associations together list every corpus identity exactly once. */
  ghost predicate Partition(records: seq<Record>, baseline: seq<Record>, cards: map<string, Card>) {
    && Distinct(RecordIDs(records) + RecordIDs(baseline))
    && Elements(RecordIDs(records) + RecordIDs(baseline)) == cards.Keys
  }

  /** A partition, told loop by loop: two lists without repetition, disjoint, and nothing left over. */
  lemma PartitionForms(records: seq<Record>, baseline: seq<Record>, cards: map<string, Card>)
    ensures Partition(records, baseline, cards) <==>
              && Distinct(RecordIDs(records))
              && Distinct(RecordIDs(baseline))
              && Elements(RecordIDs(records)) !! Elements(RecordIDs(baseline))
              && Elements(RecordIDs(records)) + Elements(RecordIDs(baseline)) == cards.Keys
  {
    DistinctConcat(RecordIDs(records), RecordIDs(baseline));
    assert Elements(RecordIDs(records) + RecordIDs(baseline)) == Elements(RecordIDs(records)) + Elements(RecordIDs(baseline));
  }

  ghost predicate SameIdentity(r: Record, cards: map<string, Card>) {
    r.oracleID in cards && r.revision == cards[r.oracleID].id && r.name == cards[r.oracleID].name
  }

  ghost predicate PolicySound(r: Record, card: Card) {
    && (r.status.Excluded? <==> card.exclusion.Some?)
    && (card.exclusion.Some? ==> r.reason == card.exclusion.value)
  }

  ghost predicate ReassessmentsSound(r: Record) {
    forall i | 0 <= i < |r.reassessments| ::
      ValidEvidence(r.reassessments[i].prerequisite) && r.reassessments[i].reason != ""
  }

  /** The part of a record's status that only the record and the corpus decide. */
  ghost predicate StatusFormed(r: Record) {
    match r.status
    case Unclaimed => true
    case Claimed => r.batch != "" && r.owner != ""
    case ImplementedVerified => r.evidence != ""
    case InstalledCompiled => r.evidence == COMPILED_INSTALLATION_PATH
    case Blocked => r.blocker > 0 && r.reason != ""
    case Excluded => true
    case NoStatus => false
    case Unrecognised(_) => false
  }

  /** The part of a record's status that the production inventory must back. */
  ghost predicate StatusBacked(r: Record, card: Card, inventory: Inventory) {
    match r.status
    case Unclaimed => r.oracleID in Backlog(inventory)
    case ImplementedVerified => r.oracleID in VerifiedIDs(inventory)
    case InstalledCompiled =>
      && (r.oracleID in Backlog(inventory) ==> card.IsToken())
      && Compiled(inventory.corpus, r.oracleID)
    case Blocked => r.oracleID in Backlog(inventory)
    case _ => true
  }

  ghost predicate RecordFormed(r: Record, cards: map<string, Card>) {
    && SameIdentity(r, cards)
    && PolicySound(r, cards[r.oracleID])
    && (!r.status.Claimed? ==> r.owner == "")
    && ReassessmentsSound(r)
    && StatusFormed(r)
  }

  ghost predicate RecordSound(r: Record, cards: map<string, Card>, inventory: Inventory) {
    RecordFormed(r, cards) && StatusBacked(r, cards[r.oracleID], inventory)
  }

  ghost predicate RecordsSound(records: seq<Record>, cards: map<string, Card>, inventory: Inventory) {
    forall i | 0 <= i < |records| :: RecordSound(records[i], cards, inventory)
  }

  /** A record names a batch exactly when that batch lists it, with the batch's family. */
  ghost predicate MemberSound(r: Record, batches: seq<Batch>) {
    && (r.batch != "" ==> r.batch in BatchIDs(batches))
    && (forall k | 0 <= k < |batches| :: r.batch == batches[k].id <==> r.oracleID in batches[k].oracleIDs)
    && (forall k | 0 <= k < |batches| && r.batch == batches[k].id :: r.family == batches[k].family)
  }

  ghost predicate Membership(records: seq<Record>, batches: seq<Batch>) {
    && (forall i | 0 <= i < |records| :: MemberSound(records[i], batches))
    && (forall k, id | 0 <= k < |batches| && id in batches[k].oracleIDs :: id in RecordIDs(records))
  }

  /** All claims belong to one owner and one batch, and that batch is wholly claimed. */
  ghost predicate SingleClaim(records: seq<Record>) {
    && (forall i, j | 0 <= i < |records| && 0 <= j < |records| && records[i].status.Claimed? && records[j].status.Claimed? ::
          records[i].batch == records[j].batch && records[i].owner == records[j].owner)
    && (forall i, j | 0 <= i < |records| && 0 <= j < |records| && records[i].status.Claimed? && records[j].batch == records[i].batch ::
          records[j].status.Claimed?)
  }

  ghost predicate AssociationFormed(r: Record, cards: map<string, Card>) {
    && SameIdentity(r, cards)
    && r.status.NoStatus?
    && r.owner == ""
    && r.batch == ""
    && r.keys != []
    && cards[r.oracleID].exclusion.None?
  }

  ghost predicate AssociationBacked(r: Record, inventory: Inventory) {
    && r.oracleID !in Backlog(inventory)
    && (exists k | 0 <= k < |r.keys| :: Loadable(inventory.production, r.keys[k]))
    && (forall k | 0 <= k < |r.keys| :: r.keys[k] in Associations(inventory.corpus, r.oracleID))
  }

  ghost predicate BaselineSound(baseline: seq<Record>, cards: map<string, Card>, inventory: Inventory) {
    forall i | 0 <= i < |baseline| :: AssociationFormed(baseline[i], cards) && AssociationBacked(baseline[i], inventory)
  }

  ghost predicate ValidOver(q: Manifest, cards: map<string, Card>, inventory: Inventory) {
    && RetiredSound(q.retired, cards)
    && BatchesSound(q.batches, q.retired)
    && Partition(q.records, q.baseline, cards)
    && RecordsSound(q.records, cards, inventory)
    && Membership(q.records, q.batches)
    && SingleClaim(q.records)
    && BaselineSound(q.baseline, cards, inventory)
  }

  ghost predicate Valid(q: Manifest, corpus: seq<Card>, inventory: Inventory) {
    && CorpusWellFormed(corpus)
    && exists cards :: Indexes(cards, corpus) && ValidOver(q, cards, inventory)
  }

  // ----- the invariant on the entries themselves -----

  /** What a valid queue says of one record, status by status, on the corpus and inventory entries themselves. */
  lemma RecordMeans(r: Record, cards: map<string, Card>, inventory: Inventory)
    requires r.oracleID in cards
    ensures var card := cards[r.oracleID];
            RecordSound(r, cards, inventory) <==>
              && r.revision == card.id && r.name == card.name
              && (forall e | e in r.reassessments :: Complete(e.prerequisite) && e.reason != "")
              && (card.exclusion.Some? ==> r.status == Excluded && r.reason == card.exclusion.value)
              && (r.status != Claimed ==> r.owner == "")
              && match r.status
                 case Unclaimed => InBacklog(inventory, r.oracleID)
                 case Claimed => r.batch != "" && r.owner != ""
                 case Blocked => r.blocker > 0 && r.reason != "" && InBacklog(inventory, r.oracleID)
                 case ImplementedVerified => r.evidence != "" && exists s | s in inventory.production :: Vouches(s, r.oracleID)
                 case InstalledCompiled =>
                   && r.evidence == "testdata/card-preservation/installed-compiler.json"
                   && LastAccepted(inventory.corpus, r.oracleID)
                   && (InBacklog(inventory, r.oracleID) ==> card.layout in {"token", "double_faced_token"})
                 case Excluded => card.exclusion.Some?
                 case NoStatus => false
                 case Unrecognised(_) => false
  {
    BacklogMeans(inventory, r.oracleID);
    CompiledMeans(inventory.corpus, r.oracleID);
    ReassessmentsMean(r);
    hide Backlog, VerifiedIDs, Compiled, LastAccepted, InBacklog, Complete, Vouches, ReassessmentsSound;
  }

  lemma ReassessmentsMean(r: Record)
    ensures ReassessmentsSound(r) <==> forall e | e in r.reassessments :: Complete(e.prerequisite) && e.reason != ""
  {
    forall i | 0 <= i < |r.reassessments|
      ensures ValidEvidence(r.reassessments[i].prerequisite) <==> Complete(r.reassessments[i].prerequisite)
    {
      CompleteMeans(r.reassessments[i].prerequisite);
    }
    hide Complete, ValidEvidence;
    assert forall i | 0 <= i < |r.reassessments| :: r.reassessments[i] in r.reassessments;
  }

  /** And of one association: production covers the card under keys of its listing, one of them loadable. */
  lemma AssociationMeans(r: Record, cards: map<string, Card>, inventory: Inventory)
    requires r.oracleID in cards
    ensures AssociationFormed(r, cards) && AssociationBacked(r, inventory) <==>
              && r.revision == cards[r.oracleID].id && r.name == cards[r.oracleID].name && cards[r.oracleID].exclusion.None?
              && r.status == NoStatus && r.owner == "" && r.batch == "" && r.keys != []
              && !InBacklog(inventory, r.oracleID)
              && (exists key | key in r.keys :: LastLoadable(inventory.production, key))
              && exists keys :: KeysOf(inventory.corpus, r.oracleID, keys) && forall key | key in r.keys :: key in keys
  {
    BacklogMeans(inventory, r.oracleID);
    AssociationsMean(inventory.corpus, r.oracleID);
    forall key ensures Loadable(inventory.production, key) <==> LastLoadable(inventory.production, key) {
      LoadableMeans(inventory.production, key);
    }
    KeysAreOne(inventory.corpus, r.oracleID);
    hide Backlog, Associations, Loadable, LastLoadable, InBacklog, KeysOf;
    assert forall k | 0 <= k < |r.keys| :: r.keys[k] in r.keys;
  }

  lemma KeysAreOne(listings: seq<Listing>, id: string)
    ensures forall one, other | KeysOf(listings, id, one) && KeysOf(listings, id, other) :: one == other
  {
  }

  /** A well-formed batch, on its own fields. */
  lemma BatchMeans(b: Batch)
    ensures BatchWellFormed(b) <==>
              && Trim(b.id) != "" && Trim(b.family) != "" && 3 <= |b.oracleIDs| <= 5 && b.operations != []
              && Distinct(b.oracleIDs) && Distinct(b.prerequisites) && Distinct(Issues(b.evidence))
              && (forall i | 0 <= i < |b.oracleIDs| :: Trim(b.oracleIDs[i]) != "")
              && (forall i | 0 <= i < |b.prerequisites| :: b.prerequisites[i] > 0)
              && (forall i | 0 <= i < |b.operations| :: Trim(b.operations[i]) != "")
              && (forall e | e in b.evidence :: Complete(e) && e.issue in b.prerequisites)
  {
    hide Trim, IsBlank;
    assert (forall i | 0 <= i < |b.evidence| :: ValidEvidence(b.evidence[i]) && b.evidence[i].issue in b.prerequisites)
      <==> (forall e | e in b.evidence :: Complete(e) && e.issue in b.prerequisites);
  }

  /** No two batches share an ID. */
  ghost predicate Apart(batches: seq<Batch>) {
    forall i, j | 0 <= i < j < |batches| :: batches[i].id != batches[j].id
  }

  lemma ApartMeans(batches: seq<Batch>, id: string)
    ensures Distinct(BatchIDs(batches)) <==> Apart(batches)
    ensures id in BatchIDs(batches) <==> exists b | b in batches :: b.id == id
  {
    assert forall i | 0 <= i < |batches| :: BatchIDs(batches)[i] == batches[i].id && batches[i] in batches;
  }

  lemma RetiredMeans(retired: seq<Batch>, cards: map<string, Card>)
    ensures RetiredSound(retired, cards) <==>
              Apart(retired) && forall b | b in retired :: BatchWellFormed(b) && forall id | id in b.oracleIDs :: id in cards
  {
    ApartMeans(retired, "");
    hide BatchWellFormed, Distinct, Apart;
    assert forall i | 0 <= i < |retired| :: retired[i] in retired;
  }

  /** Live batches are well-formed, have IDs of their own, none of them a retired one, and share no member. */
  lemma BatchesMean(batches: seq<Batch>, retired: seq<Batch>)
    ensures BatchesSound(batches, retired) <==>
              && Apart(batches) && (forall b | b in batches :: BatchWellFormed(b))
              && (forall b, other | b in batches && other in retired :: b.id != other.id)
              && (forall i, j, id | 0 <= i < j < |batches| && id in batches[i].oracleIDs :: id !in batches[j].oracleIDs)
  {
    forall id ensures id in BatchIDs(retired) <==> exists b | b in retired :: b.id == id {
      ApartMeans(retired, id);
    }
    ApartMeans(batches, "");
    hide BatchWellFormed, Distinct, Apart, BatchIDs;
    assert forall i | 0 <= i < |batches| :: batches[i] in batches;
  }

  /** Each corpus identity stands once among records and baseline, and nothing else stands there. */
  lemma PartitionMeans(records: seq<Record>, baseline: seq<Record>, cards: map<string, Card>)
    ensures Partition(records, baseline, cards) <==> multiset(RecordIDs(records) + RecordIDs(baseline)) == multiset(cards.Keys)
  {
    ListsOnce(RecordIDs(records) + RecordIDs(baseline), cards.Keys);
  }

  /** A record names a live batch or none, and just the batch that lists it, whose family it has; every member has a record. */
  lemma MembershipMeans(records: seq<Record>, batches: seq<Batch>)
    ensures Membership(records, batches) <==>
              && (forall r | r in records :: r.batch == "" || exists b | b in batches :: b.id == r.batch)
              && (forall r, b | r in records && b in batches :: r.batch == b.id <==> r.oracleID in b.oracleIDs)
              && (forall r, b | r in records && b in batches && r.batch == b.id :: r.family == b.family)
              && (forall b, id | b in batches && id in b.oracleIDs :: exists r | r in records :: r.oracleID == id)
  {
    forall r: Record ensures MemberSound(r, batches) <==> Belongs(r, batches) {
      ApartMeans(batches, r.batch);
      BelongsMeans(r, batches);
    }
    EveryoneBelongs(records, batches);
    hide MemberSound, RecordIDs, Belongs;
    assert (forall i | 0 <= i < |records| :: MemberSound(records[i], batches)) <==> (forall r | r in records :: Belongs(r, batches)) by {
      assert forall i | 0 <= i < |records| :: records[i] in records;
    }
    AllRecorded(records, batches);
  }

  lemma AllRecorded(records: seq<Record>, batches: seq<Batch>)
    ensures (forall k, id | 0 <= k < |batches| && id in batches[k].oracleIDs :: id in RecordIDs(records)) <==>
              forall b, id | b in batches && id in b.oracleIDs :: exists r | r in records :: r.oracleID == id
  {
    assert forall i | 0 <= i < |records| :: RecordIDs(records)[i] == records[i].oracleID && records[i] in records;
    if forall k, id | 0 <= k < |batches| && id in batches[k].oracleIDs :: id in RecordIDs(records) {
      forall b, id | b in batches && id in b.oracleIDs ensures exists r | r in records :: r.oracleID == id {
        var k :| 0 <= k < |batches| && batches[k] == b;
        assert id in RecordIDs(records);
        var i :| 0 <= i < |RecordIDs(records)| && RecordIDs(records)[i] == id;
      }
    }
    if forall b, id | b in batches && id in b.oracleIDs :: exists r | r in records :: r.oracleID == id {
      forall k, id | 0 <= k < |batches| && id in batches[k].oracleIDs ensures id in RecordIDs(records) {
        assert batches[k] in batches;
        var r :| r in records && r.oracleID == id;
        var i :| 0 <= i < |records| && records[i] == r;
      }
    }
  }

  lemma EveryoneBelongs(records: seq<Record>, batches: seq<Batch>)
    ensures (forall r | r in records :: Belongs(r, batches)) <==>
              && (forall r | r in records :: r.batch == "" || exists b | b in batches :: b.id == r.batch)
              && (forall r, b | r in records && b in batches :: r.batch == b.id <==> r.oracleID in b.oracleIDs)
              && (forall r, b | r in records && b in batches && r.batch == b.id :: r.family == b.family)
  {
  }

  ghost predicate Belongs(r: Record, batches: seq<Batch>) {
    && (r.batch == "" || exists b | b in batches :: b.id == r.batch)
    && (forall b | b in batches :: r.batch == b.id <==> r.oracleID in b.oracleIDs)
    && (forall b | b in batches && r.batch == b.id :: r.family == b.family)
  }

  lemma BelongsMeans(r: Record, batches: seq<Batch>)
    requires r.batch in BatchIDs(batches) <==> exists b | b in batches :: b.id == r.batch
    ensures MemberSound(r, batches) <==> Belongs(r, batches)
  {
    hide BatchIDs;
    assert forall k | 0 <= k < |batches| :: batches[k] in batches;
  }

  /** All claims are of one owner on one batch, no record of which is unclaimed. */
  lemma ClaimsMean(records: seq<Record>)
    ensures SingleClaim(records) <==>
              forall r, s | r in records && s in records && r.status == Claimed ::
                && (s.status == Claimed ==> s.batch == r.batch && s.owner == r.owner)
                && (s.batch == r.batch ==> s.status == Claimed)
  {
    assert forall i | 0 <= i < |records| :: records[i] in records;
  }
}
