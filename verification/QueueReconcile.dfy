/** Reconciling the queue with an installed compiler corpus: the step, and what it conserves. */
module QueueReconcile {
  import opened Collections
  import opened Options
  import opened Queue
  import opened QueueFacts
  import opened QueueInvariant
  import opened QueueSteps
  import opened Sorting

  datatype Installed = Installed(oracleID: string, name: string, layout: string)

  /** The retained installation file. */
  datatype Installation = Installation(corpusSHA256: string, cards: seq<Installed>)

  function InstalledIDs(cards: seq<Installed>): seq<string> {
    seq(|cards|, i requires 0 <= i < |cards| => cards[i].oracleID)
  }

  ghost predicate InstallationFormed(installation: Installation) {
    "" !in InstalledIDs(installation.cards) && Distinct(InstalledIDs(installation.cards))
  }

  ghost predicate InstalledAsToken(installation: Installation, id: string) {
    exists i | 0 <= i < |installation.cards| ::
      installation.cards[i].oracleID == id && TokenLayout(installation.cards[i].layout)
  }

  /** The compiler's word covers an identity: accepted, installed, and not missing from production unless a token. */
  ghost predicate Available(installation: Installation, inventory: Inventory, id: string) {
    && Compiled(inventory.corpus, id)
    && id in InstalledIDs(installation.cards)
    && (id in Backlog(inventory) ==> InstalledAsToken(installation, id))
  }

  function Outside(records: seq<Record>, ids: set<string>): (kept: seq<Record>)
    ensures |kept| <= |records|
  {
    Filter(records, (r: Record) => r.oracleID !in ids)
  }

  function Inside(records: seq<Record>, ids: set<string>): seq<Record> {
    Filter(records, (r: Record) => r.oracleID in ids)
  }

  function Reopened(r: Record): Record {
    r.(status := Unclaimed, family := "unreviewed/identity-reconciliation")
  }

  function AllReopened(records: seq<Record>): (reopened: seq<Record>)
    ensures |reopened| == |records|
  {
    seq(|records|, i requires 0 <= i < |records| => Reopened(records[i]))
  }

  ghost function Install(r: Record, installation: Installation, inventory: Inventory): Record {
    if r.status.Unclaimed? && Available(installation, inventory, r.oracleID) then
      r.(status := InstalledCompiled, evidence := COMPILED_INSTALLATION_PATH)
    else r
  }

  ghost function AllInstalled(records: seq<Record>, installation: Installation, inventory: Inventory): (installed: seq<Record>)
    ensures |installed| == |records|
  {
    seq(|records|, i requires 0 <= i < |records| => Install(records[i], installation, inventory))
  }

  ghost predicate ReconcileAllowed(q: Manifest, installation: Option<Installation>) {
    && NoClaims(q.records)
    && installation.Some?
    && installation.value.corpusSHA256 == q.corpusSHA256
    && InstallationFormed(installation.value)
  }

  ghost function AfterReconcile(q: Manifest, installation: Installation, inventory: Inventory): Manifest {
    var moved := Inside(q.baseline, Backlog(inventory));
    q.(baseline := Outside(q.baseline, Backlog(inventory)),
       corrected := q.corrected + moved,
       records := AllInstalled(q.records + AllReopened(moved), installation, inventory))
  }

  // ----- what the split of the baseline keeps -----

  lemma SplitMeans(records: seq<Record>, ids: set<string>)
    ensures forall r | r in Outside(records, ids) :: r in records && r.oracleID !in ids
    ensures forall r | r in Inside(records, ids) :: r in records && r.oracleID in ids
  {
    FilterMembers(records, (r: Record) => r.oracleID !in ids);
    FilterMembers(records, (r: Record) => r.oracleID in ids);
  }

  lemma SplitCovers(records: seq<Record>, ids: set<string>)
    ensures forall i | 0 <= i < |records| ::
              if records[i].oracleID in ids then records[i] in Inside(records, ids) else records[i] in Outside(records, ids)
  {
    FilterMembers(records, (r: Record) => r.oracleID !in ids);
    FilterMembers(records, (r: Record) => r.oracleID in ids);
  }

  lemma {:induction false} SplitOfOutside(records: seq<Record>, ids: set<string>)
    requires forall r | r in records :: r.oracleID !in ids
    ensures Outside(records, ids) == records && Inside(records, ids) == []
  {
    if records != [] {
      SplitOfOutside(records[..|records| - 1], ids);
      assert records == records[..|records| - 1] + [records[|records| - 1]];
    }
  }

  function Identities(q: Manifest): seq<string> {
    RecordIDs(q.records) + RecordIDs(q.baseline)
  }

  lemma {:induction false} SplitKeepsIDs(records: seq<Record>, ids: set<string>)
    ensures multiset(RecordIDs(Outside(records, ids))) + multiset(RecordIDs(Inside(records, ids)))
         == multiset(RecordIDs(records))
  {
    if records != [] {
      var front, last := records[..|records| - 1], records[|records| - 1];
      SplitKeepsIDs(front, ids);
      assert RecordIDs(records) == RecordIDs(front) + [last.oracleID];
      assert Outside(front, ids) + [] == Outside(front, ids) && Inside(front, ids) + [] == Inside(front, ids);
      assert RecordIDs(Outside(front, ids) + [last]) == RecordIDs(Outside(front, ids)) + [last.oracleID];
      assert RecordIDs(Inside(front, ids) + [last]) == RecordIDs(Inside(front, ids)) + [last.oracleID];
    }
  }

  /** Reconciling loses no identity and invents none: it only moves some from the baseline to the records. */
  lemma ReconcileConserves(q: Manifest, installation: Installation, inventory: Inventory)
    ensures multiset(Identities(AfterReconcile(q, installation, inventory))) == multiset(Identities(q))
  {
    hide Available;
    var ids := Backlog(inventory);
    var moved := Inside(q.baseline, ids);
    SplitKeepsIDs(q.baseline, ids);
    assert RecordIDs(AfterReconcile(q, installation, inventory).records) == RecordIDs(q.records) + RecordIDs(moved);
  }

  /** No backlog identity stays in the baseline, and no available record stays unclaimed. */
  lemma ReconcileSettles(q: Manifest, installation: Installation, inventory: Inventory)
    ensures var q' := AfterReconcile(q, installation, inventory);
            && (forall i | 0 <= i < |q'.baseline| :: q'.baseline[i].oracleID !in Backlog(inventory))
            && (forall i | 0 <= i < |q'.records| ::
                  !(q'.records[i].status.Unclaimed? && Available(installation, inventory, q'.records[i].oracleID)))
  {
    SplitMeans(q.baseline, Backlog(inventory));
  }

  /** Reconciling again is allowed and changes nothing. */
  lemma ReconcileIsIdempotent(q: Manifest, installation: Installation, inventory: Inventory)
    requires ReconcileAllowed(q, Some(installation))
    ensures var q' := AfterReconcile(q, installation, inventory);
            ReconcileAllowed(q', Some(installation)) && AfterReconcile(q', installation, inventory) == q'
  {
    var q' := AfterReconcile(q, installation, inventory);
    ReconcileSettles(q, installation, inventory);
    SplitOfOutside(q'.baseline, Backlog(inventory));
    assert q'.records + AllReopened([]) == q'.records;
    assert AllInstalled(q'.records, installation, inventory) == q'.records;
    assert q'.corrected + [] == q'.corrected;
  }

  // ----- the invariant, split into what the inventory can and cannot change -----

  ghost predicate Formed(q: Manifest, cards: map<string, Card>) {
    && RetiredSound(q.retired, cards)
    && BatchesSound(q.batches, q.retired)
    && Partition(q.records, q.baseline, cards)
    && (forall i | 0 <= i < |q.records| :: RecordFormed(q.records[i], cards))
    && Membership(q.records, q.batches)
    && SingleClaim(q.records)
    && (forall i | 0 <= i < |q.baseline| :: AssociationFormed(q.baseline[i], cards))
  }

  ghost predicate Backed(q: Manifest, cards: map<string, Card>, inventory: Inventory) {
    && (forall i | 0 <= i < |q.records| ::
          q.records[i].oracleID in cards && StatusBacked(q.records[i], cards[q.records[i].oracleID], inventory))
    && (forall i | 0 <= i < |q.baseline| :: AssociationBacked(q.baseline[i], inventory))
  }

  lemma ValidIsFormedAndBacked(q: Manifest, cards: map<string, Card>, inventory: Inventory)
    ensures ValidOver(q, cards, inventory) <==> Formed(q, cards) && Backed(q, cards, inventory)
  {
    hide RetiredSound, BatchesSound, Partition, Membership, SingleClaim, AssociationFormed, AssociationBacked, StatusBacked;
    hide PolicySound, ReassessmentsSound, StatusFormed;
  }

  ghost predicate MovedReassessmentsSound(q: Manifest, inventory: Inventory) {
    forall i | 0 <= i < |q.baseline| && q.baseline[i].oracleID in Backlog(inventory) :: ReassessmentsSound(q.baseline[i])
  }

  /** A baseline identity belongs to no batch, because every batch member has a record. */
  lemma BaselineIsUnbatched(q: Manifest, cards: map<string, Card>, i: nat)
    requires Partition(q.records, q.baseline, cards) && Membership(q.records, q.batches) && i < |q.baseline|
    ensures forall k | 0 <= k < |q.batches| :: q.baseline[i].oracleID !in q.batches[k].oracleIDs
  {
    PartitionForms(q.records, q.baseline, cards);
    assert RecordIDs(q.baseline)[i] in Elements(RecordIDs(q.baseline));
    assert q.baseline[i].oracleID !in RecordIDs(q.records) by {
      assert q.baseline[i].oracleID !in Elements(RecordIDs(q.records));
    }
  }

  /** What reconciling makes of one saved record, and of one moved association. */
  lemma InstalledRecordFormed(r: Record, cards: map<string, Card>, batches: seq<Batch>, installation: Installation, inventory: Inventory)
    requires RecordFormed(r, cards) && MemberSound(r, batches)
    ensures RecordFormed(Install(r, installation, inventory), cards)
    ensures MemberSound(Install(r, installation, inventory), batches)
  {
  }

  lemma MovedRecordFormed(r: Record, cards: map<string, Card>, batches: seq<Batch>, installation: Installation, inventory: Inventory)
    requires AssociationFormed(r, cards)
    requires forall k | 0 <= k < |batches| :: batches[k].id != "" && r.oracleID !in batches[k].oracleIDs
    ensures RecordFormed(Install(Reopened(r), installation, inventory), cards) <==> ReassessmentsSound(r)
    ensures MemberSound(Install(Reopened(r), installation, inventory), batches)
  {
  }

  lemma PartitionOfSameIDs(
    records: seq<Record>, baseline: seq<Record>, records': seq<Record>, baseline': seq<Record>, cards: map<string, Card>)
    requires Partition(records, baseline, cards)
    requires multiset(RecordIDs(records) + RecordIDs(baseline)) == multiset(RecordIDs(records') + RecordIDs(baseline'))
    ensures Partition(records', baseline', cards)
  {
    var before, after := RecordIDs(records) + RecordIDs(baseline), RecordIDs(records') + RecordIDs(baseline');
    var order := Embedding(after, before);
    forall id ensures id in after <==> id in before {
      assert id in multiset(after) <==> id in multiset(before);
    }
  }

  /** One record of the reconciled list, and where it came from. */
  lemma ReconciledRecord(q: Manifest, installation: Installation, inventory: Inventory, i: nat)
    requires i < |q.records| + |Inside(q.baseline, Backlog(inventory))| || i < |AfterReconcile(q, installation, inventory).records|
    ensures var q' := AfterReconcile(q, installation, inventory);
            var moved := Inside(q.baseline, Backlog(inventory));
            && |q'.records| == |q.records| + |moved|
            && q'.records[i] == (if i < |q.records| then Install(q.records[i], installation, inventory)
                                 else Install(Reopened(moved[i - |q.records|]), installation, inventory))
  {
  }

  lemma EachReconciledFormed(q: Manifest, cards: map<string, Card>, installation: Installation, inventory: Inventory, i: nat)
    requires Formed(q, cards) && i < |AfterReconcile(q, installation, inventory).records|
    ensures var r := AfterReconcile(q, installation, inventory).records[i];
            var moved := Inside(q.baseline, Backlog(inventory));
            && MemberSound(r, q.batches)
            && (i < |q.records| ==> RecordFormed(r, cards))
            && (i >= |q.records| ==> (RecordFormed(r, cards) <==> ReassessmentsSound(moved[i - |q.records|])))
  {
    var moved := Inside(q.baseline, Backlog(inventory));
    ReconciledRecord(q, installation, inventory, i);
    if i < |q.records| {
      InstalledRecordFormed(q.records[i], cards, q.batches, installation, inventory);
    } else {
      SplitMeans(q.baseline, Backlog(inventory));
      var r := moved[i - |q.records|];
      assert r in moved;
      var j :| 0 <= j < |q.baseline| && q.baseline[j] == r;
      BaselineIsUnbatched(q, cards, j);
      assert forall k | 0 <= k < |q.batches| :: BatchWellFormed(q.batches[k]);
      hide BatchWellFormed;
      assert forall k | 0 <= k < |q.batches| :: q.batches[k].id != "" by {
        NamedBatches(q);
      }
      MovedRecordFormed(r, cards, q.batches, installation, inventory);
    }
  }

  lemma NamedBatches(q: Manifest)
    requires forall k | 0 <= k < |q.batches| :: BatchWellFormed(q.batches[k])
    ensures forall k | 0 <= k < |q.batches| :: q.batches[k].id != ""
  {
  }

  /**
   * Under any inventory, reconciling keeps everything about a manifest that the inventory does not decide, exactly
   * when the associations it moves carry sound reassessments; validate never looks at those before the move.
   */
  lemma ReconcileKeepsFormed(q: Manifest, cards: map<string, Card>, installation: Installation, inventory: Inventory)
    requires Formed(q, cards) && NoClaims(q.records)
    ensures Formed(AfterReconcile(q, installation, inventory), cards) <==> MovedReassessmentsSound(q, inventory)
  {
    hide *;
    var q' := AfterReconcile(q, installation, inventory);
    ReconciledTables(q, cards, installation, inventory);
    if MovedReassessmentsSound(q, inventory) {
      ReconciledAllFormed(q, cards, installation, inventory);
      FormedFrom(q', cards);
    }
    if Formed(q', cards) {
      FormedMeans(q', cards);
      MovedWereSound(q, cards, installation, inventory);
    }
  }

  /** All of Formed except the records themselves. */
  ghost predicate TablesFormed(q: Manifest, cards: map<string, Card>) {
    && RetiredSound(q.retired, cards)
    && BatchesSound(q.batches, q.retired)
    && Partition(q.records, q.baseline, cards)
    && Membership(q.records, q.batches)
    && SingleClaim(q.records)
    && (forall i | 0 <= i < |q.baseline| :: AssociationFormed(q.baseline[i], cards))
  }

  lemma FormedFrom(q: Manifest, cards: map<string, Card>)
    requires TablesFormed(q, cards) && forall i | 0 <= i < |q.records| :: RecordFormed(q.records[i], cards)
    ensures Formed(q, cards)
  {
    hide RetiredSound, BatchesSound, Partition, Membership, SingleClaim, AssociationFormed, RecordFormed;
  }

  lemma FormedMeans(q: Manifest, cards: map<string, Card>)
    requires Formed(q, cards)
    ensures forall i | 0 <= i < |q.records| :: RecordFormed(q.records[i], cards)
    ensures TablesFormed(q, cards)
  {
    hide RetiredSound, BatchesSound, Partition, Membership, SingleClaim, AssociationFormed, RecordFormed;
  }

  lemma ReconciledMembers(q: Manifest, cards: map<string, Card>, installation: Installation, inventory: Inventory)
    requires Formed(q, cards) && NoClaims(q.records)
    ensures var q' := AfterReconcile(q, installation, inventory);
            Membership(q'.records, q.batches) && NoClaims(q'.records)
  {
    var q' := AfterReconcile(q, installation, inventory);
    hide MemberSound, RecordFormed, Partition, BatchesSound, RetiredSound, AssociationFormed, Available;
    forall i | 0 <= i < |q'.records| ensures MemberSound(q'.records[i], q.batches) {
      EachReconciledFormed(q, cards, installation, inventory, i);
    }
    forall k, id | 0 <= k < |q.batches| && id in q.batches[k].oracleIDs ensures id in RecordIDs(q'.records) {
      assert id in RecordIDs(q.records);
      var i :| 0 <= i < |q.records| && RecordIDs(q.records)[i] == id;
      assert RecordIDs(q'.records)[i] == id;
    }
  }

  lemma ReconciledTables(q: Manifest, cards: map<string, Card>, installation: Installation, inventory: Inventory)
    requires Formed(q, cards) && NoClaims(q.records)
    ensures TablesFormed(AfterReconcile(q, installation, inventory), cards)
  {
    hide RetiredSound, BatchesSound, AssociationFormed, Available, Partition, Membership, RecordFormed;
    var q' := AfterReconcile(q, installation, inventory);
    ReconcileConserves(q, installation, inventory);
    PartitionOfSameIDs(q.records, q.baseline, q'.records, q'.baseline, cards);
    ReconciledMembers(q, cards, installation, inventory);
    SplitMeans(q.baseline, Backlog(inventory));
    assert forall i | 0 <= i < |q'.baseline| :: q'.baseline[i] in q'.baseline;
  }

  lemma ReconciledAllFormed(q: Manifest, cards: map<string, Card>, installation: Installation, inventory: Inventory)
    requires Formed(q, cards) && MovedReassessmentsSound(q, inventory)
    ensures var q' := AfterReconcile(q, installation, inventory);
            forall i | 0 <= i < |q'.records| :: RecordFormed(q'.records[i], cards)
  {
    hide Formed, RecordFormed, ReassessmentsSound, Available;
    var q' := AfterReconcile(q, installation, inventory);
    var moved := Inside(q.baseline, Backlog(inventory));
    SplitMeans(q.baseline, Backlog(inventory));
    forall i | 0 <= i < |q'.records| ensures RecordFormed(q'.records[i], cards) {
      EachReconciledFormed(q, cards, installation, inventory, i);
      if i >= |q.records| {
        assert moved[i - |q.records|] in moved;
        var j :| 0 <= j < |q.baseline| && q.baseline[j] == moved[i - |q.records|];
      }
    }
  }

  lemma MovedWereSound(q: Manifest, cards: map<string, Card>, installation: Installation, inventory: Inventory)
    requires Formed(q, cards)
    requires var q' := AfterReconcile(q, installation, inventory);
             forall i | 0 <= i < |q'.records| :: RecordFormed(q'.records[i], cards)
    ensures MovedReassessmentsSound(q, inventory)
  {
    hide Formed, RecordFormed, ReassessmentsSound, Available;
    var moved := Inside(q.baseline, Backlog(inventory));
    SplitCovers(q.baseline, Backlog(inventory));
    forall i | 0 <= i < |q.baseline| && q.baseline[i].oracleID in Backlog(inventory)
      ensures ReassessmentsSound(q.baseline[i])
    {
      var k :| 0 <= k < |moved| && moved[k] == q.baseline[i];
      EachReconciledFormed(q, cards, installation, inventory, |q.records| + k);
    }
  }

  /** What an identity that reconciling installs must be: a token in the corpus too if production lacks it. */
  ghost predicate MayInstall(installation: Installation, inventory: Inventory, cards: map<string, Card>, id: string)
    requires id in cards
  {
    Available(installation, inventory, id) && id in Backlog(inventory) ==> cards[id].IsToken()
  }

  /** What the inventory must say of a saved record, which is installed when it is unclaimed and available. */
  ghost predicate RecordSettles(
    r: Record, installation: Installation, inventory: Inventory, cards: map<string, Card>)
    requires r.oracleID in cards
  {
    if r.status.Unclaimed? && Available(installation, inventory, r.oracleID) then
      MayInstall(installation, inventory, cards, r.oracleID)
    else StatusBacked(r, cards[r.oracleID], inventory)
  }

  /** What it must say of an association, which is moved when it entered the backlog and stays otherwise. */
  ghost predicate AssociationSettles(
    r: Record, installation: Installation, inventory: Inventory, cards: map<string, Card>)
    requires r.oracleID in cards
  {
    if r.oracleID in Backlog(inventory) then MayInstall(installation, inventory, cards, r.oracleID)
    else AssociationBacked(r, inventory)
  }

  ghost predicate Known(records: seq<Record>, cards: map<string, Card>) {
    forall i | 0 <= i < |records| :: records[i].oracleID in cards
  }

  ghost predicate Settles(q: Manifest, installation: Installation, inventory: Inventory, cards: map<string, Card>)
    requires Known(q.records, cards) && Known(q.baseline, cards)
  {
    && (forall i | 0 <= i < |q.records| :: RecordSettles(q.records[i], installation, inventory, cards))
    && (forall i | 0 <= i < |q.baseline| :: AssociationSettles(q.baseline[i], installation, inventory, cards))
  }

  lemma FormedIsKnown(q: Manifest, cards: map<string, Card>)
    requires Formed(q, cards)
    ensures Known(q.records, cards) && Known(q.baseline, cards)
  {
  }

  /**
   * On a queue saved under any other inventory, reconciling leaves one that is valid under the new inventory exactly
   * when the moved associations carry sound reassessments, every identity it installs against the backlog is a token
   * in the corpus too, and the inventory backs every record and association it leaves alone.
   */
  lemma ReconcileKeepsValid(q: Manifest, cards: map<string, Card>, installation: Installation, inventory: Inventory)
    requires Formed(q, cards) && NoClaims(q.records)
    ensures Known(q.records, cards) && Known(q.baseline, cards)
    ensures ValidOver(AfterReconcile(q, installation, inventory), cards, inventory) <==>
              MovedReassessmentsSound(q, inventory) && Settles(q, installation, inventory, cards)
  {
    hide *;
    FormedIsKnown(q, cards);
    ValidIsFormedAndBacked(AfterReconcile(q, installation, inventory), cards, inventory);
    ReconcileKeepsFormed(q, cards, installation, inventory);
    SettlesIsBacked(q, cards, installation, inventory);
  }

  lemma SettlesIsBacked(q: Manifest, cards: map<string, Card>, installation: Installation, inventory: Inventory)
    requires Known(q.records, cards) && Known(q.baseline, cards)
    ensures Backed(AfterReconcile(q, installation, inventory), cards, inventory) <==>
              Settles(q, installation, inventory, cards)
  {
    hide *;
    var q', moved := AfterReconcile(q, installation, inventory), Inside(q.baseline, Backlog(inventory));
    if Settles(q, installation, inventory, cards) {
      SettledIsBacked(q, cards, installation, inventory);
    }
    if Backed(q', cards, inventory) {
      BackedIsSettled(q, cards, installation, inventory);
    }
  }

  lemma SettledIsBacked(q: Manifest, cards: map<string, Card>, installation: Installation, inventory: Inventory)
    requires Known(q.records, cards) && Known(q.baseline, cards) && Settles(q, installation, inventory, cards)
    ensures Backed(AfterReconcile(q, installation, inventory), cards, inventory)
  {
    var q', moved := AfterReconcile(q, installation, inventory), Inside(q.baseline, Backlog(inventory));
    SplitMeans(q.baseline, Backlog(inventory));
    assert q'.baseline == Outside(q.baseline, Backlog(inventory));
    hide AfterReconcile, Outside, Inside, Available, StatusBacked, AssociationBacked, RecordSettles, AssociationSettles, Install, Reopened;
    forall i | 0 <= i < |q'.records|
      ensures q'.records[i].oracleID in cards && StatusBacked(q'.records[i], cards[q'.records[i].oracleID], inventory)
    {
      ReconciledRecord(q, installation, inventory, i);
      if i < |q.records| {
        SavedSettles(q.records[i], installation, inventory, cards);
      } else {
        var r := moved[i - |q.records|];
        assert r in moved;
        var j :| 0 <= j < |q.baseline| && q.baseline[j] == r;
        MovedSettles(r, installation, inventory, cards);
      }
    }
    forall i | 0 <= i < |q'.baseline| ensures AssociationBacked(q'.baseline[i], inventory) {
      assert q'.baseline[i] in q'.baseline;
      var j :| 0 <= j < |q.baseline| && q.baseline[j] == q'.baseline[i];
      KeptSettles(q.baseline[j], installation, inventory, cards);
    }
  }

  lemma BackedIsSettled(q: Manifest, cards: map<string, Card>, installation: Installation, inventory: Inventory)
    requires Known(q.records, cards) && Known(q.baseline, cards)
    requires Backed(AfterReconcile(q, installation, inventory), cards, inventory)
    ensures Settles(q, installation, inventory, cards)
  {
    var q', moved := AfterReconcile(q, installation, inventory), Inside(q.baseline, Backlog(inventory));
    SplitCovers(q.baseline, Backlog(inventory));
    assert q'.baseline == Outside(q.baseline, Backlog(inventory));
    hide AfterReconcile, Outside, Inside, Available, StatusBacked, AssociationBacked, RecordSettles, AssociationSettles, Install, Reopened;
    forall i | 0 <= i < |q.records| ensures RecordSettles(q.records[i], installation, inventory, cards) {
      ReconciledRecord(q, installation, inventory, i);
      SavedSettles(q.records[i], installation, inventory, cards);
    }
    forall j | 0 <= j < |q.baseline| ensures AssociationSettles(q.baseline[j], installation, inventory, cards) {
      if q.baseline[j].oracleID in Backlog(inventory) {
        var k :| 0 <= k < |moved| && moved[k] == q.baseline[j];
        ReconciledRecord(q, installation, inventory, |q.records| + k);
        MovedSettles(q.baseline[j], installation, inventory, cards);
      } else {
        var k :| 0 <= k < |q'.baseline| && q'.baseline[k] == q.baseline[j];
        KeptSettles(q.baseline[j], installation, inventory, cards);
      }
    }
  }

  /** What becomes of one saved record, and of one moved association, under the inventory. */
  lemma SavedSettles(r: Record, installation: Installation, inventory: Inventory, cards: map<string, Card>)
    requires r.oracleID in cards
    ensures Install(r, installation, inventory).oracleID == r.oracleID
    ensures StatusBacked(Install(r, installation, inventory), cards[r.oracleID], inventory) <==>
              RecordSettles(r, installation, inventory, cards)
  {
    hide Compiled;
  }

  lemma MovedSettles(r: Record, installation: Installation, inventory: Inventory, cards: map<string, Card>)
    requires r.oracleID in cards && r.oracleID in Backlog(inventory)
    ensures Install(Reopened(r), installation, inventory).oracleID == r.oracleID
    ensures StatusBacked(Install(Reopened(r), installation, inventory), cards[r.oracleID], inventory) <==>
              AssociationSettles(r, installation, inventory, cards)
  {
    hide Compiled;
  }

  lemma KeptSettles(r: Record, installation: Installation, inventory: Inventory, cards: map<string, Card>)
    requires r.oracleID in cards && r.oracleID !in Backlog(inventory)
    ensures AssociationBacked(r, inventory) <==> AssociationSettles(r, installation, inventory, cards)
  {
  }

  // ----- what reconciling writes, entry by entry -----

  /** Accepted, installed, and not missing from production, unless the installation file calls the card a token. */
  ghost predicate Covered(installation: Installation, inventory: Inventory, id: string) {
    && LastAccepted(inventory.corpus, id)
    && (exists card | card in installation.cards :: card.oracleID == id)
    && (InBacklog(inventory, id) ==>
          exists card | card in installation.cards :: card.oracleID == id && card.layout in {"token", "double_faced_token"})
  }

  lemma AvailableMeans(installation: Installation, inventory: Inventory, id: string)
    ensures Available(installation, inventory, id) <==> Covered(installation, inventory, id)
  {
    CompiledMeans(inventory.corpus, id);
    hide Compiled, LastAccepted;
    assert id in Backlog(inventory) <==> InBacklog(inventory, id);
    var ids := InstalledIDs(installation.cards);
    forall card | card in installation.cards && card.oracleID == id ensures id in ids {
      var i :| 0 <= i < |installation.cards| && installation.cards[i] == card;
      assert ids[i] == id;
    }
    if id in ids {
      var i :| 0 <= i < |ids| && ids[i] == id;
      assert installation.cards[i] in installation.cards;
    }
  }

  /**
   * The corrected associations grow by the baseline entries that have entered the backlog, unchanged and as often as
   * they stood in the baseline, where just the others remain.
   */
  lemma ReconcileCorrects(q: Manifest, installation: Installation, inventory: Inventory, r: Record)
    ensures var q' := AfterReconcile(q, installation, inventory);
            && q' == q.(records := q'.records, baseline := q'.baseline, corrected := q'.corrected)
            && q.corrected <= q'.corrected
            && multiset(q'.corrected[|q.corrected|..])[r] == (if InBacklog(inventory, r.oracleID) then multiset(q.baseline)[r] else 0)
            && multiset(q'.baseline)[r] == (if InBacklog(inventory, r.oracleID) then 0 else multiset(q.baseline)[r])
  {
    var ids := Backlog(inventory);
    FilterCounts(q.baseline, (r: Record) => r.oracleID !in ids, r);
    FilterCounts(q.baseline, (r: Record) => r.oracleID in ids, r);
    var moved := Inside(q.baseline, ids);
    assert (q.corrected + moved)[|q.corrected|..] == moved;
    assert r.oracleID in ids <==> InBacklog(inventory, r.oracleID);
    hide AllInstalled, AllReopened;
  }

  /** A saved record is installed, by status and evidence alone, when it is unclaimed and covered; else it stays. */
  lemma ReconcileWrites(q: Manifest, installation: Installation, inventory: Inventory, i: nat)
    requires i < |q.records|
    ensures var q', r := AfterReconcile(q, installation, inventory), q.records[i];
            && |q.records| <= |q'.records|
            && q'.records[i] ==
               if r.status == Unclaimed && Covered(installation, inventory, r.oracleID) then
                 r.(status := InstalledCompiled, evidence := "testdata/card-preservation/installed-compiler.json")
               else r
  {
    AvailableMeans(installation, inventory, q.records[i].oracleID);
    hide Available, Covered, Inside, Outside;
  }

  /** What a moved association becomes: a free record to be looked at again, installed at once when it is covered. */
  ghost function Recovered(r: Record, installation: Installation, inventory: Inventory): Record {
    var reopened := r.(family := "unreviewed/identity-reconciliation");
    if Covered(installation, inventory, r.oracleID) then
      reopened.(status := InstalledCompiled, evidence := "testdata/card-preservation/installed-compiler.json")
    else reopened.(status := Unclaimed)
  }

  /** The records behind the saved ones are the newly corrected associations, in their order, each recovered. */
  lemma ReconcileRecovers(q: Manifest, installation: Installation, inventory: Inventory)
    ensures var q' := AfterReconcile(q, installation, inventory);
            && |q.records| <= |q'.records| && |q.corrected| <= |q'.corrected|
            && var added, noted := q'.records[|q.records|..], q'.corrected[|q.corrected|..];
               |added| == |noted| && forall i | 0 <= i < |added| :: added[i] == Recovered(noted[i], installation, inventory)
  {
    var q' := AfterReconcile(q, installation, inventory);
    hide Available, Covered, Inside, Outside;
    var noted := q'.corrected[|q.corrected|..];
    forall i | 0 <= i < |noted|
      ensures q'.records[|q.records|..][i] == Recovered(noted[i], installation, inventory)
    {
      AvailableMeans(installation, inventory, noted[i].oracleID);
    }
  }
}
