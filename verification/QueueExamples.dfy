/** Concrete queues on which a step falls short of what one would expect of it. */
module QueueExamples {
  import opened Collections
  import opened Text
  import opened Options
  import opened Queue
  import opened QueueInvariant
  import opened QueueSteps
  import opened QueueMoves
  import opened QueueReconcile

  const IDS := ["x", "y", "z"]
  const BATCH := Batch("b", "f", IDS, [], ["op"], "reviewed", [])
  const CARDS: map<string, Card> := map id | id in {"x", "y", "z"} :: Card("r", id, "n", "normal", false, None)

  /** An inventory whose backlog holds the batch, and one whose backlog has lost it. */
  const STOCKED := Inventory([Listing("x", false, [], None), Listing("y", false, [], None), Listing("z", false, [], None)], [], [])
  const SOLD_OUT := Inventory([], [], [])

  function Member(id: string, status: Status, owner: string): Record {
    Record(id, "r", "n", status, "f", 1, "b", owner, 0, "", "", [], [])
  }

  function Sample(status: Status, owner: string): Manifest {
    Manifest("hash", [BATCH], [], [Member("x", status, owner), Member("y", status, owner), Member("z", status, owner)],
             [], [], NoRules)
  }

  lemma BatchIsWellFormed()
    ensures BatchWellFormed(BATCH)
  {
    assert !IsSpace(BATCH.id[0]) && !IsSpace(BATCH.family[0]) && !IsSpace(BATCH.operations[0][0]);
    assert forall i | 0 <= i < 3 :: !IsSpace(IDS[i][0]);
  }

  lemma SampleTables(status: Status, owner: string)
    ensures var q := Sample(status, owner);
            RetiredSound(q.retired, CARDS) && BatchesSound(q.batches, q.retired) && Partition(q.records, q.baseline, CARDS)
            && Membership(q.records, q.batches)
  {
    BatchIsWellFormed();
    hide BatchWellFormed;
    var q := Sample(status, owner);
    assert RecordIDs(q.records) == IDS && RecordIDs(q.baseline) == [] && BatchIDs(q.batches) == ["b"];
    assert IDS + [] == IDS;
    forall id ensures id in Elements(IDS) <==> id in CARDS.Keys {
      assert IDS[0] == "x" && IDS[1] == "y" && IDS[2] == "z";
    }
  }

  lemma RecordsAreSound(status: Status, owner: string, inventory: Inventory)
    requires (status == Unclaimed && owner == "" && inventory == STOCKED) || (status == Claimed && owner != "")
    ensures RecordsSound(Sample(status, owner).records, CARDS, inventory)
  {
    assert STOCKED.backlog[0].oracleID == "x" && STOCKED.backlog[1].oracleID == "y" && STOCKED.backlog[2].oracleID == "z";
    assert "x" in Backlog(STOCKED) && "y" in Backlog(STOCKED) && "z" in Backlog(STOCKED);
    assert forall id | id in CARDS :: RecordSound(Member(id, status, owner), CARDS, inventory);
    hide RecordSound;
  }

  /** The sample is valid while unclaimed and in stock, and while claimed whatever the inventory says. */
  lemma SampleIsValid(status: Status, owner: string, inventory: Inventory)
    requires (status == Unclaimed && owner == "" && inventory == STOCKED) || (status == Claimed && owner != "")
    ensures ValidOver(Sample(status, owner), CARDS, inventory)
  {
    SampleTables(status, owner);
    RecordsAreSound(status, owner, inventory);
    SampleClaims(status, owner);
    hide RetiredSound, BatchesSound, Partition, Membership, RecordsSound, SingleClaim;
  }

  lemma SampleClaims(status: Status, owner: string)
    ensures SingleClaim(Sample(status, owner).records)
  {
    var records := Sample(status, owner).records;
    assert forall i | 0 <= i < 3 :: records[i].status == status && records[i].owner == owner && records[i].batch == "b";
    hide Sample, Member;
  }

  lemma SampleCounts(status: Status, owner: string)
    ensures CountIn(Sample(status, owner).records, "b", status) == 3
    ensures CountMembers(Sample(status, owner).records, "b") == 3
    ensures status != Claimed ==> CountIn(Sample(status, owner).records, "b", Claimed) == 0
  {
    var x, y, z := Member("x", status, owner), Member("y", status, owner), Member("z", status, owner);
    CountOneMore([], x);
    CountOneMore([x], y);
    CountOneMore([x, y], z);
    assert [] + [x] == [x] && [x] + [y] == [x, y] && [x, y] + [z] == [x, y, z];
  }

  lemma CountOneMore(records: seq<Record>, r: Record)
    ensures CountMembers(records + [r], "b") == CountMembers(records, "b") + if r.batch == "b" then 1 else 0
    ensures forall status :: CountIn(records + [r], "b", status) == CountIn(records, "b", status) + if InBatch(r, "b", status) then 1 else 0
  {
    assert (records + [r])[..|records|] == records;
  }

  lemma SampleIsOffered(owner: string)
    ensures IsNext(Sample(Unclaimed, ""), owner, Offered(BATCH))
  {
    SampleCounts(Unclaimed, "");
    var q := Sample(Unclaimed, "");
    assert forall i | 0 <= i < 3 :: !q.records[i].status.Claimed?;
    assert q.batches == [BATCH] && |q.records| == 3 && BATCH.id == "b" && |BATCH.oracleIDs| == 3 && BATCH.prerequisites == [];
    hide CountIn, CountMembers, Sample, Member;
    assert !HeldElsewhere(q, owner);
    assert NoneBefore(q, 1, Claimed);
    assert FirstAt(q, 0, Unclaimed);
  }

  /** next offers a batch to an owner whose name is blank, who cannot claim it. */
  lemma BlankOwnerIsOfferedInVain()
    ensures var q := Sample(Unclaimed, "");
            ValidOver(q, CARDS, STOCKED) && IsNext(q, " ", Offered(BATCH))
            && !MoveAllowed(q, Move(Claim, "b", " ", 0, ""), STOCKED)
  {
    SampleIsValid(Unclaimed, "", STOCKED);
    SampleIsOffered(" ");
    assert IsBlank(" ") && BATCH.id == "b";
    hide ValidOver, IsNext, MoveAllowed, Sample;
    OfferedIsClaimable(Sample(Unclaimed, ""), " ", BATCH, CARDS, STOCKED);
  }

  /** Releasing a batch the backlog has lost leaves a queue that is not valid, so run refuses to save it. */
  lemma ReleaseCanInvalidate()
    ensures var q, m := Sample(Claimed, "o"), Move(Release, "b", "o", 0, "");
            ValidOver(q, CARDS, SOLD_OUT) && MoveAllowed(q, m, SOLD_OUT)
            && !ValidOver(AfterMove(q, m, SOLD_OUT), CARDS, SOLD_OUT)
  {
    var q, m := Sample(Claimed, "o"), Move(Release, "b", "o", 0, "");
    SampleIsValid(Claimed, "o", SOLD_OUT);
    ReleaseIsAllowed();
    hide ValidOver, MoveAllowed, AfterMove;
    MoveKeepsValid(q, m, CARDS, SOLD_OUT);
    assert q.records[0].oracleID !in Backlog(SOLD_OUT);
  }

  lemma ReleaseIsAllowed()
    ensures MoveAllowed(Sample(Claimed, "o"), Move(Release, "b", "o", 0, ""), SOLD_OUT)
  {
    SampleCounts(Claimed, "o");
    assert !IsSpace("o"[0]);
    hide CountMembers;
  }

  // ----- reconciling a queue saved under an older inventory -----

  const ONE: map<string, Card> := map["x" := Card("r", "x", "n", "normal", false, None)]
  const LISTING := Listing("x", true, ["k"], None)
  const SUPPORT := Support("k", "", true, false, "")

  /** The inventory under which the queue was saved, and the one whose backlog "x" has entered since. */
  const OLDER := Inventory([], [LISTING], [SUPPORT])
  const NEWER := Inventory([LISTING], [LISTING], [SUPPORT])

  const NOTHING_INSTALLED := Installation("hash", [])
  const SAID_TO_BE_A_TOKEN := Installation("hash", [Installed("x", "n", "token")])

  function Association(reassessments: seq<Reassessment>): Record {
    Record("x", "r", "n", NoStatus, "f", 1, "", "", 0, "", "", ["k"], reassessments)
  }

  function Saved(reassessments: seq<Reassessment>): Manifest {
    Manifest("hash", [], [], [], [Association(reassessments)], [], NoRules)
  }

  lemma SavedIsValid(reassessments: seq<Reassessment>)
    ensures ValidOver(Saved(reassessments), ONE, OLDER)
    ensures Formed(Saved(reassessments), ONE) && NoClaims(Saved(reassessments).records)
  {
    var q := Saved(reassessments);
    assert RecordIDs(q.records) == [] && RecordIDs(q.baseline) == ["x"] && [] + ["x"] == ["x"];
    assert ["x"][0] == "x";
    AssociationIsBacked(reassessments);
    ValidIsFormedAndBacked(q, ONE, OLDER);
    hide AssociationBacked;
  }

  lemma AssociationIsBacked(reassessments: seq<Reassessment>)
    ensures AssociationBacked(Association(reassessments), OLDER)
  {
    var keys := Association(reassessments).keys;
    assert keys[0] == "k" && Loadable(OLDER.production, keys[0]);
    assert Associations(OLDER.corpus, "x") == ["k"];
  }

  lemma EnteredTheBacklog()
    ensures "x" in Backlog(NEWER) && Compiled(NEWER.corpus, "x")
  {
    assert NEWER.backlog[0].oracleID == "x";
  }

  /** An association with an unsound reassessment is saved as valid, and moving it leaves a queue that is not. */
  lemma UncheckedReassessmentCanInvalidate()
    ensures var q := Saved([Reassessment(Evidence(0, "", ""), "")]);
            && ValidOver(q, ONE, OLDER) && ReconcileAllowed(q, Some(NOTHING_INSTALLED))
            && !ValidOver(AfterReconcile(q, NOTHING_INSTALLED, NEWER), ONE, NEWER)
  {
    var bad := Reassessment(Evidence(0, "", ""), "");
    SavedIsValid([bad]);
    EnteredTheBacklog();
    ReconcileKeepsValid(Saved([bad]), ONE, NOTHING_INSTALLED, NEWER);
    assert Association([bad]).reassessments[0] == bad;
    hide ValidOver, Formed, AfterReconcile;
  }

  /** Without it, the same queue reconciles to a valid one. */
  lemma MovedAssociationIsValid()
    ensures ValidOver(AfterReconcile(Saved([]), NOTHING_INSTALLED, NEWER), ONE, NEWER)
  {
    SavedIsValid([]);
    EnteredTheBacklog();
    ReconcileKeepsValid(Saved([]), ONE, NOTHING_INSTALLED, NEWER);
    assert "x" !in InstalledIDs(NOTHING_INSTALLED.cards);
    hide ValidOver, Formed, AfterReconcile;
  }

  /** An identity that only the installation file calls a token is installed, and the queue is not valid. */
  lemma FalseTokenCanInvalidate()
    ensures var q := Saved([]);
            && ValidOver(q, ONE, OLDER) && ReconcileAllowed(q, Some(SAID_TO_BE_A_TOKEN))
            && !ValidOver(AfterReconcile(q, SAID_TO_BE_A_TOKEN, NEWER), ONE, NEWER)
  {
    SavedIsValid([]);
    FalseTokenIsAvailable();
    hide ValidOver, Formed, AfterReconcile, Available;
    ReconcileKeepsValid(Saved([]), ONE, SAID_TO_BE_A_TOKEN, NEWER);
    assert Saved([]).baseline[0].oracleID == "x";
  }

  lemma FalseTokenIsAvailable()
    ensures Available(SAID_TO_BE_A_TOKEN, NEWER, "x") && "x" in Backlog(NEWER)
    ensures InstallationFormed(SAID_TO_BE_A_TOKEN)
  {
    EnteredTheBacklog();
    assert InstalledIDs(SAID_TO_BE_A_TOKEN.cards)[0] == "x";
    assert TokenLayout(SAID_TO_BE_A_TOKEN.cards[0].layout);
  }
}
