/** The first manifest: what init makes of a hand-written seed, and when the result is a valid queue. */
module QueueSeed {
  import opened Collections
  import opened Queue
  import opened QueueFacts
  import opened QueueInvariant
  import opened QueueOrder
  import opened QueueSteps
  import opened Sorting
  import opened Text

  const NO_RECORD := Record("", "", "", NoStatus, "", 0, "", "", 0, "", "", [], [])

  /** What the seed says of an identity: a partial record, or nothing. */
  function SeedOf(records: seq<Record>, id: string): Record {
    var k := Find(records, id);
    if k < |records| then records[k] else NO_RECORD
  }

  /** An identity that production already covers is an association, unless the corpus excludes it. */
  predicate Associated(card: Card, inventory: Inventory) {
    card.exclusion.None? && card.oracleID !in Backlog(inventory)
  }

  /** The last batch that lists an identity gives it its batch and family. */
  function Placed(r: Record, batches: seq<Batch>): Record {
    if batches == [] then r
    else
      var last := batches[|batches| - 1];
      if r.oracleID in last.oracleIDs then r.(batch := last.id, family := last.family)
      else Placed(r, batches[..|batches| - 1])
  }

  function AsCard(card: Card, seed: Record): Record {
    seed.(oracleID := card.oracleID, revision := card.id, name := card.name)
  }

  function Settled(card: Card, seed: Record): Record {
    var r := AsCard(card, seed);
    match card.exclusion
    case Some(reason) => r.(status := Excluded, reason := reason)
    case None =>
      r.(status := if r.status.NoStatus? then Unclaimed else r.status,
         family := if r.family == "" then "unreviewed/" + card.layout else r.family)
  }

  function DraftedRecord(card: Card, seed: Record, batches: seq<Batch>): Record {
    Placed(Settled(card, seed), batches)
  }

  function DraftedAssociation(card: Card, seed: Record, inventory: Inventory): Record {
    AsCard(card, seed).(status := NoStatus, keys := Associations(inventory.corpus, card.oracleID))
  }

  predicate SeenBefore(corpus: seq<Card>, n: nat, id: string)
    requires n <= |corpus|
  {
    exists j | 0 <= j < n :: Tracked(corpus[j]) && corpus[j].oracleID == id
  }

  /** A seed record is used up by the first corpus card of its identity. */
  function SeedAt(records: seq<Record>, corpus: seq<Card>, n: nat): Record
    requires n < |corpus|
  {
    if SeenBefore(corpus, n, corpus[n].oracleID) then NO_RECORD else SeedOf(records, corpus[n].oracleID)
  }

  function DraftedRecords(q: Manifest, corpus: seq<Card>, inventory: Inventory, n: nat): seq<Record>
    requires n <= |corpus|
  {
    if n == 0 then []
    else
      DraftedRecords(q, corpus, inventory, n - 1)
      + if Tracked(corpus[n - 1]) && !Associated(corpus[n - 1], inventory)
        then [DraftedRecord(corpus[n - 1], SeedAt(q.records, corpus, n - 1), q.batches)] else []
  }

  function DraftedAssociations(q: Manifest, corpus: seq<Card>, inventory: Inventory, n: nat): seq<Record>
    requires n <= |corpus|
  {
    if n == 0 then []
    else
      DraftedAssociations(q, corpus, inventory, n - 1)
      + if Tracked(corpus[n - 1]) && Associated(corpus[n - 1], inventory)
        then [DraftedAssociation(corpus[n - 1], SeedAt(q.records, corpus, n - 1), inventory)] else []
  }

  /** The seed names each identity once, and only identities of the corpus. */
  ghost predicate SeedFits(q: Manifest, corpus: seq<Card>) {
    && Distinct(RecordIDs(q.records))
    && forall i | 0 <= i < |q.records| :: SeenBefore(corpus, |corpus|, q.records[i].oracleID)
  }

  predicate ByID(a: Record, b: Record) {
    Less(a.oracleID, b.oracleID)
  }

  lemma ByIDIsStrictWeak()
    ensures StrictWeak(ByID)
  {
    forall x: Record, y: Record ensures !(ByID(x, y) && ByID(y, x)) {
      LessIsAsymmetric(x.oracleID, y.oracleID);
    }
    forall x: Record, y: Record, z: Record | !ByID(x, y) && !ByID(y, z) ensures !ByID(x, z) {
      LessIsNegativelyTransitive(x.oracleID, y.oracleID, z.oracleID);
    }
  }

  lemma NoSeedFits(q: Manifest, corpus: seq<Card>)
    requires !Distinct(RecordIDs(q.records))
    ensures !SeedFits(q, corpus)
  {
  }

  /** What initialize leaves, up to ties in its two sorts. */
  ghost predicate Initialized(q: Manifest, corpus: seq<Card>, inventory: Inventory, q': Manifest) {
    && q' == q.(records := q'.records, baseline := q'.baseline)
    && multiset(q'.records) == multiset(DraftedRecords(q, corpus, inventory, |corpus|))
    && SortedRecords(q'.records)
    && multiset(q'.baseline) == multiset(q.baseline + DraftedAssociations(q, corpus, inventory, |corpus|))
    && Sorted(q'.baseline, ByID)
  }

  // ----- what the drafts are, identity by identity -----

  /** Each kept identity has exactly one record, and it is the draft of its card. */
  ghost predicate Drafts(records: seq<Record>, q: Manifest, cards: map<string, Card>, inventory: Inventory) {
    && Distinct(RecordIDs(records))
    && (forall i | 0 <= i < |records| :: IsDraft(records[i], q, cards, inventory))
    && (forall id | id in cards && !Associated(cards[id], inventory) :: id in RecordIDs(records))
  }

  ghost predicate IsDraft(r: Record, q: Manifest, cards: map<string, Card>, inventory: Inventory) {
    && r.oracleID in cards && !Associated(cards[r.oracleID], inventory)
    && r == DraftedRecord(cards[r.oracleID], SeedOf(q.records, r.oracleID), q.batches)
  }

  ghost predicate Associates(records: seq<Record>, q: Manifest, cards: map<string, Card>, inventory: Inventory) {
    && Distinct(RecordIDs(records))
    && (forall i | 0 <= i < |records| :: IsAssociate(records[i], q, cards, inventory))
    && (forall id | id in cards && Associated(cards[id], inventory) :: id in RecordIDs(records))
  }

  ghost predicate IsAssociate(r: Record, q: Manifest, cards: map<string, Card>, inventory: Inventory) {
    && r.oracleID in cards && Associated(cards[r.oracleID], inventory)
    && r == DraftedAssociation(cards[r.oracleID], SeedOf(q.records, r.oracleID), inventory)
  }

  lemma {:induction false} PlacedKeepsID(r: Record, batches: seq<Batch>)
    ensures Placed(r, batches).oracleID == r.oracleID
    ensures Placed(r, batches) == r.(batch := Placed(r, batches).batch, family := Placed(r, batches).family)
  {
    if batches != [] {
      PlacedKeepsID(r, batches[..|batches| - 1]);
    }
  }

  lemma FirstOfItsKind(corpus: seq<Card>, cards: map<string, Card>, n: nat)
    requires CorpusWellFormed(corpus) && Indexes(cards, corpus) && n < |corpus| && Tracked(corpus[n])
    ensures !SeenBefore(corpus, n, corpus[n].oracleID)
    ensures corpus[n].oracleID in cards && cards[corpus[n].oracleID] == corpus[n]
  {
  }

  ghost predicate ListsSeen(records: seq<Record>, corpus: seq<Card>, n: nat)
    requires n <= |corpus|
  {
    && Distinct(RecordIDs(records))
    && forall i | 0 <= i < |records| :: SeenBefore(corpus, n, records[i].oracleID)
  }

  /** One more card lists one more identity. */
  lemma ListOneMore(records: seq<Record>, r: Record, corpus: seq<Card>, n: nat)
    requires n < |corpus| && ListsSeen(records, corpus, n) && Tracked(corpus[n]) && r.oracleID == corpus[n].oracleID
    requires !SeenBefore(corpus, n, corpus[n].oracleID)
    ensures ListsSeen(records + [r], corpus, n + 1)
  {
    assert RecordIDs(records + [r]) == RecordIDs(records) + [r.oracleID];
    assert forall i | 0 <= i < |records| :: RecordIDs(records)[i] == records[i].oracleID;
  }

  lemma ListSame(records: seq<Record>, corpus: seq<Card>, n: nat)
    requires n < |corpus| && ListsSeen(records, corpus, n)
    ensures ListsSeen(records, corpus, n + 1)
  {
  }

  ghost predicate CoversKept(records: seq<Record>, corpus: seq<Card>, inventory: Inventory, n: nat)
    requires n <= |corpus|
  {
    forall j | 0 <= j < n && Tracked(corpus[j]) && !Associated(corpus[j], inventory) :: corpus[j].oracleID in RecordIDs(records)
  }

  lemma {:induction false} DraftedUpTo(q: Manifest, corpus: seq<Card>, cards: map<string, Card>, inventory: Inventory, n: nat)
    requires CorpusWellFormed(corpus) && Indexes(cards, corpus) && n <= |corpus|
    ensures var drafted := DraftedRecords(q, corpus, inventory, n);
            && ListsSeen(drafted, corpus, n) && CoversKept(drafted, corpus, inventory, n)
            && forall i | 0 <= i < |drafted| :: IsDraft(drafted[i], q, cards, inventory)
  {
    hide CorpusWellFormed, Indexes, ListsSeen, Associated, DraftedRecord, IsDraft, SeedAt, CoversKept;
    if n == 0 {
      NothingListed(corpus);
      NothingKept(corpus, inventory);
    } else {
      DraftedUpTo(q, corpus, cards, inventory, n - 1);
      var before, card := DraftedRecords(q, corpus, inventory, n - 1), corpus[n - 1];
      if Tracked(card) && !Associated(card, inventory) {
        var r := DraftedRecord(card, SeedAt(q.records, corpus, n - 1), q.batches);
        FirstOfItsKind(corpus, cards, n - 1);
        DraftedIs(q, corpus, cards, inventory, n - 1);
        ListOneMore(before, r, corpus, n - 1);
        KeepOneMore(before, r, corpus, inventory, n - 1);
      } else {
        ListSame(before, corpus, n - 1);
        KeepSame(before, corpus, inventory, n - 1);
        assert before + [] == before;
      }
    }
  }

  lemma DraftedIs(q: Manifest, corpus: seq<Card>, cards: map<string, Card>, inventory: Inventory, n: nat)
    requires n < |corpus| && !Associated(corpus[n], inventory) && !SeenBefore(corpus, n, corpus[n].oracleID)
    requires corpus[n].oracleID in cards && cards[corpus[n].oracleID] == corpus[n]
    ensures var r := DraftedRecord(corpus[n], SeedAt(q.records, corpus, n), q.batches);
            r.oracleID == corpus[n].oracleID && IsDraft(r, q, cards, inventory)
  {
    DraftedID(corpus[n], SeedAt(q.records, corpus, n), q.batches);
    hide DraftedRecord, SeedOf;
  }

  lemma NothingKept(corpus: seq<Card>, inventory: Inventory)
    ensures CoversKept([], corpus, inventory, 0)
  {
  }

  lemma KeepOneMore(records: seq<Record>, r: Record, corpus: seq<Card>, inventory: Inventory, n: nat)
    requires n < |corpus| && CoversKept(records, corpus, inventory, n) && r.oracleID == corpus[n].oracleID
    ensures CoversKept(records + [r], corpus, inventory, n + 1)
  {
    assert RecordIDs(records + [r]) == RecordIDs(records) + [r.oracleID];
  }

  lemma KeepSame(records: seq<Record>, corpus: seq<Card>, inventory: Inventory, n: nat)
    requires n < |corpus| && CoversKept(records, corpus, inventory, n)
    requires !Tracked(corpus[n]) || Associated(corpus[n], inventory)
    ensures CoversKept(records, corpus, inventory, n + 1)
  {
  }

  lemma NothingListed(corpus: seq<Card>)
    ensures ListsSeen([], corpus, 0)
  {
  }

  lemma DraftedID(card: Card, seed: Record, batches: seq<Batch>)
    ensures DraftedRecord(card, seed, batches).oracleID == card.oracleID
  {
    PlacedKeepsID(Settled(card, seed), batches);
  }

  ghost predicate CoversAssociated(records: seq<Record>, corpus: seq<Card>, inventory: Inventory, n: nat)
    requires n <= |corpus|
  {
    forall j | 0 <= j < n && Tracked(corpus[j]) && Associated(corpus[j], inventory) :: corpus[j].oracleID in RecordIDs(records)
  }

  lemma {:induction false} AssociatedUpTo(q: Manifest, corpus: seq<Card>, cards: map<string, Card>, inventory: Inventory, n: nat)
    requires CorpusWellFormed(corpus) && Indexes(cards, corpus) && n <= |corpus|
    ensures var drafted := DraftedAssociations(q, corpus, inventory, n);
            && ListsSeen(drafted, corpus, n) && CoversAssociated(drafted, corpus, inventory, n)
            && forall i | 0 <= i < |drafted| :: IsAssociate(drafted[i], q, cards, inventory)
  {
    hide CorpusWellFormed, Indexes, ListsSeen, Associated, DraftedAssociation, IsAssociate, SeedAt;
    if n == 0 {
      NothingListed(corpus);
    } else {
      AssociatedUpTo(q, corpus, cards, inventory, n - 1);
      var before, card := DraftedAssociations(q, corpus, inventory, n - 1), corpus[n - 1];
      if Tracked(card) && Associated(card, inventory) {
        var r := DraftedAssociation(card, SeedAt(q.records, corpus, n - 1), inventory);
        FirstOfItsKind(corpus, cards, n - 1);
        AssociatedIs(q, corpus, cards, inventory, n - 1);
        ListOneMore(before, r, corpus, n - 1);
        assert RecordIDs(before + [r]) == RecordIDs(before) + [r.oracleID];
      } else {
        ListSame(before, corpus, n - 1);
        assert before + [] == before;
      }
    }
  }

  lemma AssociatedIs(q: Manifest, corpus: seq<Card>, cards: map<string, Card>, inventory: Inventory, n: nat)
    requires n < |corpus| && Associated(corpus[n], inventory) && !SeenBefore(corpus, n, corpus[n].oracleID)
    requires corpus[n].oracleID in cards && cards[corpus[n].oracleID] == corpus[n]
    ensures var r := DraftedAssociation(corpus[n], SeedAt(q.records, corpus, n), inventory);
            r.oracleID == corpus[n].oracleID && IsAssociate(r, q, cards, inventory)
  {
    hide SeedOf, Associations, Associated;
  }

  /** The sorted records are the drafts of exactly the kept cards, and the new associations those of the others. */
  lemma InitializedDrafts(q: Manifest, corpus: seq<Card>, cards: map<string, Card>, inventory: Inventory, q': Manifest)
    requires CorpusWellFormed(corpus) && Indexes(cards, corpus) && Initialized(q, corpus, inventory, q')
    ensures Drafts(q'.records, q, cards, inventory)
    ensures Associates(DraftedAssociations(q, corpus, inventory, |corpus|), q, cards, inventory)
  {
    var records, added := DraftedRecords(q, corpus, inventory, |corpus|), DraftedAssociations(q, corpus, inventory, |corpus|);
    hide CorpusWellFormed, Indexes, IsDraft, IsAssociate, Associated, SortedRecords, Sorted, DraftedRecords, DraftedAssociations;
    DraftedUpTo(q, corpus, cards, inventory, |corpus|);
    AssociatedUpTo(q, corpus, cards, inventory, |corpus|);
    AllCovered(records, added, corpus, cards, inventory);
    hide CoversKept, CoversAssociated;
    assert Associates(added, q, cards, inventory);
    assert Drafts(records, q, cards, inventory);
    hide Associates, Drafts, ListsSeen;
    RearrangedDrafts(records, q'.records, q, cards, inventory);
  }

  lemma RearrangedDrafts(
    drafted: seq<Record>, records: seq<Record>, q: Manifest, cards: map<string, Card>, inventory: Inventory)
    requires multiset(records) == multiset(drafted) && Drafts(drafted, q, cards, inventory)
    ensures Drafts(records, q, cards, inventory)
  {
    hide IsDraft, Associated;
    assert |records| == |multiset(records)| == |drafted|;
    var order := Embedding(records, drafted);
    RearrangedIDs(drafted, records, order);
    assert forall id | id in RecordIDs(drafted) :: id in Elements(RecordIDs(records));
  }

  lemma AllCovered(
    records: seq<Record>, associations: seq<Record>, corpus: seq<Card>, cards: map<string, Card>, inventory: Inventory)
    requires Indexes(cards, corpus)
    requires CoversKept(records, corpus, inventory, |corpus|) && CoversAssociated(associations, corpus, inventory, |corpus|)
    ensures forall id | id in cards && !Associated(cards[id], inventory) :: id in RecordIDs(records)
    ensures forall id | id in cards && Associated(cards[id], inventory) :: id in RecordIDs(associations)
  {
    hide Associated;
    forall id | id in cards
      ensures if Associated(cards[id], inventory) then id in RecordIDs(associations) else id in RecordIDs(records)
    {
      var j :| 0 <= j < |corpus| && Tracked(corpus[j]) && corpus[j].oracleID == id;
      assert cards[corpus[j].oracleID] == corpus[j];
    }
  }

  /** Records and baseline partition the corpus exactly when the seed brought no associations of its own. */
  lemma InitPartitions(q: Manifest, corpus: seq<Card>, cards: map<string, Card>, inventory: Inventory, q': Manifest)
    requires CorpusWellFormed(corpus) && Indexes(cards, corpus) && Initialized(q, corpus, inventory, q')
    ensures Partition(q'.records, q'.baseline, cards) <==> q.baseline == []
    ensures q.baseline == [] ==> Associates(q'.baseline, q, cards, inventory)
  {
    hide CorpusWellFormed, Indexes, SortedRecords, Sorted, DraftedRecords, DraftedAssociations, Partition, Drafts, Associates;
    var added := DraftedAssociations(q, corpus, inventory, |corpus|);
    InitializedDrafts(q, corpus, cards, inventory, q');
    assert |q.baseline + added| == |multiset(q.baseline + added)| == |q'.baseline|;
    if q.baseline == [] {
      assert q.baseline + added == added;
      RearrangedAssociates(added, q'.baseline, q, cards, inventory);
      DraftsPartition(q'.records, q'.baseline, q, cards, inventory);
    } else if Partition(q'.records, q'.baseline, cards) {
      ExtraAssociation(q, added, q'.records, q'.baseline, cards, inventory);
    }
  }

  lemma RearrangedAssociates(
    added: seq<Record>, baseline: seq<Record>, q: Manifest, cards: map<string, Card>, inventory: Inventory)
    requires multiset(baseline) == multiset(added) && |baseline| == |added| && Associates(added, q, cards, inventory)
    ensures Associates(baseline, q, cards, inventory)
  {
    hide IsAssociate, Associated;
    var order := Embedding(baseline, added);
    RearrangedIDs(added, baseline, order);
    assert forall id | id in RecordIDs(added) :: id in Elements(RecordIDs(baseline));
  }

  lemma DraftsPartition(
    records: seq<Record>, baseline: seq<Record>, q: Manifest, cards: map<string, Card>, inventory: Inventory)
    requires Drafts(records, q, cards, inventory) && Associates(baseline, q, cards, inventory)
    ensures Partition(records, baseline, cards)
  {
    hide Associated;
    PartitionForms(records, baseline, cards);
    assert forall i | 0 <= i < |records| :: IsDraft(records[i], q, cards, inventory);
    assert forall i | 0 <= i < |baseline| :: IsAssociate(baseline[i], q, cards, inventory);
    assert forall i | 0 <= i < |records| :: RecordIDs(records)[i] in cards && !Associated(cards[RecordIDs(records)[i]], inventory);
    assert forall i | 0 <= i < |baseline| :: RecordIDs(baseline)[i] in cards && Associated(cards[RecordIDs(baseline)[i]], inventory);
    hide IsDraft, IsAssociate, Partition;
    forall id | id in cards.Keys ensures id in Elements(RecordIDs(records)) + Elements(RecordIDs(baseline)) {
    }
  }

  /** An association the seed brought along repeats the identity of a draft. */
  lemma ExtraAssociation(
    q: Manifest, added: seq<Record>, records: seq<Record>, baseline: seq<Record>, cards: map<string, Card>, inventory: Inventory)
    requires q.baseline != [] && multiset(baseline) == multiset(q.baseline + added)
    requires Drafts(records, q, cards, inventory) && Associates(added, q, cards, inventory)
    ensures !Partition(records, baseline, cards)
  {
    hide IsDraft, IsAssociate, Associated;
    PartitionForms(records, baseline, cards);
    var whole, extra, ids := q.baseline + added, q.baseline[0].oracleID, RecordIDs(baseline);
    var order := Embedding(whole, baseline);
    assert whole[0] == q.baseline[0] && ids[order[0]] == extra;
    assert extra in Elements(ids);
    forall k | 0 <= k < |added| ensures order[|q.baseline| + k] != order[0] && ids[order[|q.baseline| + k]] == RecordIDs(added)[k] {
      assert whole[|q.baseline| + k] == added[k];
    }
    hide Partition;
  }

  // ----- when the first manifest is valid -----

  predicate Lists(b: Batch, id: string) {
    id in b.oracleIDs
  }

  predicate Batched(batches: seq<Batch>, id: string) {
    exists k | 0 <= k < |batches| :: Lists(batches[k], id)
  }

  /** A seed may fill in any progress of a kept card that the inventory backs, but no status of its own invention. */
  ghost predicate SeedUsable(card: Card, seed: Record, batches: seq<Batch>, inventory: Inventory) {
    && (!Batched(batches, card.oracleID) ==> seed.batch == "")
    && ReassessmentsSound(seed)
    && if card.exclusion.Some? then seed.owner == ""
       else
         match seed.status
         case NoStatus => seed.owner == ""
         case Unclaimed => seed.owner == ""
         case Claimed => seed.owner != "" && Batched(batches, card.oracleID)
         case Blocked => seed.owner == "" && seed.blocker > 0 && seed.reason != ""
         case ImplementedVerified => seed.owner == "" && seed.evidence != "" && card.oracleID in VerifiedIDs(inventory)
         case InstalledCompiled =>
           && seed.owner == "" && seed.evidence == COMPILED_INSTALLATION_PATH
           && card.IsToken() && Compiled(inventory.corpus, card.oracleID)
         case Excluded => false
         case Unrecognised(_) => false
  }

  /** A card production covers needs a loadable key, and a seed that claims nothing about it. */
  ghost predicate SeedAssociable(card: Card, seed: Record, inventory: Inventory) {
    && seed.owner == "" && seed.batch == ""
    && exists key | key in Associations(inventory.corpus, card.oracleID) :: Loadable(inventory.production, key)
  }

  function DraftFor(q: Manifest, card: Card): Record {
    DraftedRecord(card, SeedOf(q.records, card.oracleID), q.batches)
  }

  predicate SeedClaims(q: Manifest, card: Card, inventory: Inventory) {
    !Associated(card, inventory) && card.exclusion.None? && SeedOf(q.records, card.oracleID).status.Claimed?
  }

  ghost predicate SeedClaimsAgree(q: Manifest, cards: map<string, Card>, inventory: Inventory) {
    && (forall a, b | a in cards && b in cards && SeedClaims(q, cards[a], inventory) && SeedClaims(q, cards[b], inventory) ::
          DraftFor(q, cards[a]).batch == DraftFor(q, cards[b]).batch
          && SeedOf(q.records, cards[a].oracleID).owner == SeedOf(q.records, cards[b].oracleID).owner)
    && (forall a, b | a in cards && b in cards && SeedClaims(q, cards[a], inventory) && !Associated(cards[b], inventory)
                      && DraftFor(q, cards[b]).batch == DraftFor(q, cards[a]).batch :: SeedClaims(q, cards[b], inventory))
  }

  ghost predicate SeedSound(q: Manifest, cards: map<string, Card>, inventory: Inventory) {
    && q.baseline == []
    && RetiredSound(q.retired, cards) && BatchesSound(q.batches, q.retired)
    && MembersKept(q, cards, inventory)
    && (forall id | id in cards :: CardSeeded(q, cards[id], inventory))
    && SeedClaimsAgree(q, cards, inventory)
  }

  /** Batches are made of cards that become records. */
  ghost predicate MembersKept(q: Manifest, cards: map<string, Card>, inventory: Inventory) {
    forall k, id | 0 <= k < |q.batches| && id in q.batches[k].oracleIDs :: id in cards && !Associated(cards[id], inventory)
  }

  ghost predicate MembersRecorded(records: seq<Record>, batches: seq<Batch>) {
    forall k, id | 0 <= k < |batches| && id in batches[k].oracleIDs :: id in RecordIDs(records)
  }

  ghost predicate CardSeeded(q: Manifest, card: Card, inventory: Inventory) {
    var seed := SeedOf(q.records, card.oracleID);
    if Associated(card, inventory) then SeedAssociable(card, seed, inventory)
    else SeedUsable(card, seed, q.batches, inventory)
  }

  lemma {:induction false} PlacedIs(r: Record, batches: seq<Batch>)
    requires forall i, j, id | 0 <= i < j < |batches| && id in batches[i].oracleIDs :: id !in batches[j].oracleIDs
    ensures !Batched(batches, r.oracleID) ==> Placed(r, batches) == r
    ensures forall k | 0 <= k < |batches| && Lists(batches[k], r.oracleID) ::
              Placed(r, batches) == r.(batch := batches[k].id, family := batches[k].family)
  {
    if batches != [] {
      var front := batches[..|batches| - 1];
      PlacedIs(r, front);
      assert Lists(batches[|batches| - 1], r.oracleID) ==> Batched(batches, r.oracleID);
      if k :| 0 <= k < |front| && Lists(front[k], r.oracleID) {
        assert Lists(batches[k], r.oracleID);
      }
    }
  }

  /** A kept card's draft is sound and a member of just its batch exactly when its seed is usable. */
  lemma DraftIsSound(q: Manifest, card: Card, cards: map<string, Card>, inventory: Inventory)
    requires card.oracleID in cards && cards[card.oracleID] == card && BatchesSound(q.batches, q.retired)
    requires !Associated(card, inventory)
    ensures RecordSound(DraftFor(q, card), cards, inventory) && MemberSound(DraftFor(q, card), q.batches) <==>
              SeedUsable(card, SeedOf(q.records, card.oracleID), q.batches, inventory)
  {
    var seed := SeedOf(q.records, card.oracleID);
    PlacedIs(Settled(card, seed), q.batches);
    NamedBatches(q.batches, q.retired);
    hide SeedOf, Placed, BatchesSound, ReassessmentsSound, Compiled, VerifiedIDs, Backlog;
    if Batched(q.batches, card.oracleID) {
      var k :| 0 <= k < |q.batches| && Lists(q.batches[k], card.oracleID);
      BatchedIsMember(DraftFor(q, card), q.batches, q.retired, k);
      BatchedIsSound(q, card, cards, inventory, k);
    } else {
      UnbatchedIsMember(DraftFor(q, card), q.batches);
      UnbatchedIsSound(q, card, cards, inventory);
    }
  }

  lemma NamedBatches(batches: seq<Batch>, retired: seq<Batch>)
    requires BatchesSound(batches, retired)
    ensures forall k | 0 <= k < |batches| :: batches[k].id != ""
    ensures Distinct(BatchIDs(batches))
    ensures forall i, j, id | 0 <= i < j < |batches| && id in batches[i].oracleIDs :: id !in batches[j].oracleIDs
  {
    assert forall k | 0 <= k < |batches| :: BatchWellFormed(batches[k]);
  }

  lemma BatchedIsMember(r: Record, batches: seq<Batch>, retired: seq<Batch>, k: nat)
    requires BatchesSound(batches, retired) && k < |batches|
    requires r.batch == batches[k].id && r.family == batches[k].family && r.oracleID in batches[k].oracleIDs
    ensures MemberSound(r, batches)
  {
    hide BatchWellFormed;
    assert BatchIDs(batches)[k] == r.batch;
    forall l | 0 <= l < |batches| ensures l != k ==> batches[l].id != r.batch && r.oracleID !in batches[l].oracleIDs {
      assert BatchIDs(batches)[l] == batches[l].id;
    }
  }

  lemma UnbatchedIsMember(r: Record, batches: seq<Batch>)
    requires !Batched(batches, r.oracleID) && forall k | 0 <= k < |batches| :: batches[k].id != ""
    ensures MemberSound(r, batches) <==> r.batch == ""
  {
    assert forall k | 0 <= k < |batches| :: BatchIDs(batches)[k] == batches[k].id;
    assert forall k | 0 <= k < |batches| :: !Lists(batches[k], r.oracleID);
    if r.batch != "" && r.batch in BatchIDs(batches) {
      var k :| 0 <= k < |batches| && batches[k].id == r.batch;
    }
  }

  lemma BatchedIsSound(q: Manifest, card: Card, cards: map<string, Card>, inventory: Inventory, k: nat)
    requires card.oracleID in cards && cards[card.oracleID] == card && !Associated(card, inventory)
    requires k < |q.batches| && Lists(q.batches[k], card.oracleID) && q.batches[k].id != ""
    requires var seed := SeedOf(q.records, card.oracleID);
             DraftFor(q, card) == Settled(card, seed).(batch := q.batches[k].id, family := q.batches[k].family)
    ensures RecordSound(DraftFor(q, card), cards, inventory) <==>
              SeedUsable(card, SeedOf(q.records, card.oracleID), q.batches, inventory)
  {
    assert Batched(q.batches, card.oracleID);
    hide SeedOf, DraftFor, Compiled, VerifiedIDs, Batched;
  }

  lemma UnbatchedIsSound(q: Manifest, card: Card, cards: map<string, Card>, inventory: Inventory)
    requires card.oracleID in cards && cards[card.oracleID] == card && !Associated(card, inventory)
    requires !Batched(q.batches, card.oracleID)
    requires DraftFor(q, card) == Settled(card, SeedOf(q.records, card.oracleID))
    ensures RecordSound(DraftFor(q, card), cards, inventory) && DraftFor(q, card).batch == "" <==>
              SeedUsable(card, SeedOf(q.records, card.oracleID), q.batches, inventory)
  {
    hide SeedOf, DraftFor, Compiled, VerifiedIDs, Batched;
  }

  /** And an association is sound exactly when its seed is silent and one of its keys loads. */
  lemma AssociationIsSound(q: Manifest, card: Card, cards: map<string, Card>, inventory: Inventory)
    requires card.oracleID in cards && cards[card.oracleID] == card && Associated(card, inventory)
    ensures var r := DraftedAssociation(card, SeedOf(q.records, card.oracleID), inventory);
            AssociationFormed(r, cards) && AssociationBacked(r, inventory) <==>
              SeedAssociable(card, SeedOf(q.records, card.oracleID), inventory)
  {
    hide SeedOf, Associations, Loadable;
    var keys := Associations(inventory.corpus, card.oracleID);
    if key :| key in keys && Loadable(inventory.production, key) {
      var k :| 0 <= k < |keys| && keys[k] == key;
      assert Loadable(inventory.production, keys[k]);
    }
  }

  // ----- from cards to records and back -----

  lemma RecordOfCard(records: seq<Record>, q: Manifest, cards: map<string, Card>, inventory: Inventory, id: string) returns (i: nat)
    requires Drafts(records, q, cards, inventory) && id in cards && !Associated(cards[id], inventory)
    ensures i < |records| && records[i].oracleID == id && IsDraft(records[i], q, cards, inventory)
  {
    hide IsDraft, Associated;
    i :| 0 <= i < |records| && RecordIDs(records)[i] == id;
    assert IsDraft(records[i], q, cards, inventory);
  }

  lemma AssociationOfCard(records: seq<Record>, q: Manifest, cards: map<string, Card>, inventory: Inventory, id: string) returns (i: nat)
    requires Associates(records, q, cards, inventory) && id in cards && Associated(cards[id], inventory)
    ensures i < |records| && records[i].oracleID == id && IsAssociate(records[i], q, cards, inventory)
  {
    hide IsAssociate, Associated;
    i :| 0 <= i < |records| && RecordIDs(records)[i] == id;
    assert IsAssociate(records[i], q, cards, inventory);
  }

  ghost predicate Keyed(cards: map<string, Card>) {
    forall id | id in cards :: cards[id].oracleID == id
  }

  ghost predicate CardsSeeded(q: Manifest, cards: map<string, Card>, inventory: Inventory) {
    forall id | id in cards :: CardSeeded(q, cards[id], inventory)
  }

  ghost predicate EachSound(records: seq<Record>, batches: seq<Batch>, cards: map<string, Card>, inventory: Inventory) {
    forall i | 0 <= i < |records| :: RecordSound(records[i], cards, inventory) && MemberSound(records[i], batches)
  }

  /** Every record and association is sound exactly when every card is seeded well. */
  lemma DraftsAreSound(
    records: seq<Record>, baseline: seq<Record>, q: Manifest, cards: map<string, Card>, inventory: Inventory)
    requires Drafts(records, q, cards, inventory) && Associates(baseline, q, cards, inventory) && Keyed(cards)
    requires BatchesSound(q.batches, q.retired)
    ensures EachSound(records, q.batches, cards, inventory) && BaselineSound(baseline, cards, inventory)
       <==> CardsSeeded(q, cards, inventory)
  {
    hide BatchesSound, RecordSound, MemberSound, AssociationFormed, AssociationBacked, SeedUsable, SeedAssociable, Associated;
    hide SeedOf, DraftedRecord, DraftedAssociation, Drafts, Associates;
    forall id | id in cards && EachSound(records, q.batches, cards, inventory) && BaselineSound(baseline, cards, inventory)
      ensures CardSeeded(q, cards[id], inventory)
    {
      if Associated(cards[id], inventory) {
        var i := AssociationOfCard(baseline, q, cards, inventory, id);
        AssociationIsSound(q, cards[id], cards, inventory);
      } else {
        var i := RecordOfCard(records, q, cards, inventory, id);
        DraftIsSound(q, cards[id], cards, inventory);
      }
    }
    forall i | 0 <= i < |records| && CardsSeeded(q, cards, inventory)
      ensures RecordSound(records[i], cards, inventory) && MemberSound(records[i], q.batches)
    {
      EachIsDraft(records, q, cards, inventory, i);
      DraftIsSound(q, cards[records[i].oracleID], cards, inventory);
    }
    forall i | 0 <= i < |baseline| && CardsSeeded(q, cards, inventory)
      ensures AssociationFormed(baseline[i], cards) && AssociationBacked(baseline[i], inventory)
    {
      EachIsAssociate(baseline, q, cards, inventory, i);
      AssociationIsSound(q, cards[baseline[i].oracleID], cards, inventory);
    }
  }

  lemma EachIsDraft(records: seq<Record>, q: Manifest, cards: map<string, Card>, inventory: Inventory, i: nat)
    requires Drafts(records, q, cards, inventory) && i < |records|
    ensures IsDraft(records[i], q, cards, inventory)
  {
  }

  lemma EachIsAssociate(records: seq<Record>, q: Manifest, cards: map<string, Card>, inventory: Inventory, i: nat)
    requires Associates(records, q, cards, inventory) && i < |records|
    ensures IsAssociate(records[i], q, cards, inventory)
  {
  }

  /** Every batch member has a record exactly when it is a kept card. */
  lemma MembersSeeded(records: seq<Record>, q: Manifest, cards: map<string, Card>, inventory: Inventory)
    requires Drafts(records, q, cards, inventory)
    ensures MembersRecorded(records, q.batches) <==> MembersKept(q, cards, inventory)
  {
    hide Associated, DraftedRecord, SeedOf;
    forall id ensures id in RecordIDs(records) <==> id in cards && !Associated(cards[id], inventory) {
      if i :| 0 <= i < |records| && RecordIDs(records)[i] == id {
        assert IsDraft(records[i], q, cards, inventory);
      }
    }
  }

  /** Claims and batches of the records are those of the seeds. */
  lemma DraftClaims(q: Manifest, card: Card, inventory: Inventory)
    requires !Associated(card, inventory)
    ensures DraftFor(q, card).status.Claimed? <==> SeedClaims(q, card, inventory)
    ensures DraftFor(q, card).owner == SeedOf(q.records, card.oracleID).owner
  {
    PlacedKeepsID(Settled(card, SeedOf(q.records, card.oracleID)), q.batches);
    hide SeedOf, Placed;
  }

  lemma SingleClaimIsSeeded(records: seq<Record>, q: Manifest, cards: map<string, Card>, inventory: Inventory)
    requires Drafts(records, q, cards, inventory) && Keyed(cards)
    ensures SingleClaim(records) <==> SeedClaimsAgree(q, cards, inventory)
  {
    forall i | 0 <= i < |records|
      ensures var r := records[i];
              && r.oracleID in cards && !Associated(cards[r.oracleID], inventory) && r == DraftFor(q, cards[r.oracleID])
              && (r.status.Claimed? <==> SeedClaims(q, cards[r.oracleID], inventory))
              && r.owner == SeedOf(q.records, cards[r.oracleID].oracleID).owner
    {
      EachIsDraft(records, q, cards, inventory, i);
      DraftClaims(q, cards[records[i].oracleID], inventory);
    }
    hide SeedOf, Drafts, Associated, DraftFor;
    if SingleClaim(records) {
      forall a, b | a in cards && b in cards && SeedClaims(q, cards[a], inventory) && !Associated(cards[b], inventory)
        ensures SeedClaims(q, cards[b], inventory) ==>
                  DraftFor(q, cards[a]).batch == DraftFor(q, cards[b]).batch
                  && SeedOf(q.records, cards[a].oracleID).owner == SeedOf(q.records, cards[b].oracleID).owner
        ensures DraftFor(q, cards[b]).batch == DraftFor(q, cards[a]).batch ==> SeedClaims(q, cards[b], inventory)
      {
        var i := RecordOfCard(records, q, cards, inventory, a);
        var j := RecordOfCard(records, q, cards, inventory, b);
      }
    }
  }

  lemma IndexIsKeyed(corpus: seq<Card>, cards: map<string, Card>)
    requires Indexes(cards, corpus)
    ensures Keyed(cards)
  {
  }

  /**
   * What init makes of a seed is a valid queue exactly when the seed brings no associations, its batches are sound and
   * made of kept cards, its progress on each card is one the inventory backs, and its claims agree.
   */
  lemma InitIsValid(q: Manifest, corpus: seq<Card>, cards: map<string, Card>, inventory: Inventory, q': Manifest)
    requires CorpusWellFormed(corpus) && Indexes(cards, corpus) && Initialized(q, corpus, inventory, q')
    ensures ValidOver(q', cards, inventory) <==> SeedSound(q, cards, inventory)
  {
    assert q'.batches == q.batches && q'.retired == q.retired;
    hide Initialized, CorpusWellFormed, Indexes, Partition, Drafts, Associates, Keyed, CardsSeeded, SeedClaimsAgree;
    hide RetiredSound, BatchesSound, EachSound, MembersRecorded, MembersKept, SingleClaim, BaselineSound, ValidOver, SeedSound;
    InitPartitions(q, corpus, cards, inventory, q');
    InitializedDrafts(q, corpus, cards, inventory, q');
    IndexIsKeyed(corpus, cards);
    ValidInParts(q', cards, inventory);
    SeedInParts(q, cards, inventory);
    if q.baseline == [] && BatchesSound(q.batches, q.retired) {
      DraftsAreSound(q'.records, q'.baseline, q, cards, inventory);
      MembersSeeded(q'.records, q, cards, inventory);
      SingleClaimIsSeeded(q'.records, q, cards, inventory);
    }
  }

  lemma ValidInParts(q: Manifest, cards: map<string, Card>, inventory: Inventory)
    ensures ValidOver(q, cards, inventory) <==>
              && RetiredSound(q.retired, cards) && BatchesSound(q.batches, q.retired)
              && Partition(q.records, q.baseline, cards)
              && EachSound(q.records, q.batches, cards, inventory) && MembersRecorded(q.records, q.batches)
              && SingleClaim(q.records) && BaselineSound(q.baseline, cards, inventory)
  {
    hide RetiredSound, BatchesSound, Partition, RecordSound, MemberSound, SingleClaim, BaselineSound;
  }

  lemma SeedInParts(q: Manifest, cards: map<string, Card>, inventory: Inventory)
    ensures SeedSound(q, cards, inventory) <==>
              && q.baseline == []
              && RetiredSound(q.retired, cards) && BatchesSound(q.batches, q.retired)
              && MembersKept(q, cards, inventory) && CardsSeeded(q, cards, inventory) && SeedClaimsAgree(q, cards, inventory)
  {
  }

  // ----- what init writes, field by field -----

  /** The seed of an identity: its record in the file, or an empty one. */
  ghost predicate SeededBy(records: seq<Record>, id: string, seed: Record) {
    if exists r | r in records :: r.oracleID == id then seed in records && seed.oracleID == id
    else seed == Record("", "", "", NoStatus, "", 0, "", "", 0, "", "", [], [])
  }

  lemma SeedMeans(records: seq<Record>, id: string, seed: Record)
    requires Distinct(RecordIDs(records)) && SeededBy(records, id, seed)
    ensures SeedOf(records, id) == seed
  {
    var k := Find(records, id);
    if seed in records && seed.oracleID == id {
      var j :| 0 <= j < |records| && records[j] == seed;
      assert RecordIDs(records)[j] == RecordIDs(records)[k];
    } else {
      assert forall j | 0 <= j < |records| :: records[j] in records;
    }
  }

  /** The last batch that lists the identity names batch and family; without one both are the given ones. */
  ghost predicate NamesBatch(r: Record, batches: seq<Batch>, batch: string, family: string) {
    if exists b | b in batches :: r.oracleID in b.oracleIDs then
      exists k | 0 <= k < |batches| ::
        && r.oracleID in batches[k].oracleIDs && r.batch == batches[k].id && r.family == batches[k].family
        && forall j | k < j < |batches| :: r.oracleID !in batches[j].oracleIDs
    else r.batch == batch && r.family == family
  }

  lemma {:induction false} PlacedMeans(r: Record, batches: seq<Batch>)
    ensures Placed(r, batches).oracleID == r.oracleID
    ensures NamesBatch(Placed(r, batches), batches, r.batch, r.family)
  {
    if batches != [] {
      var front, last := batches[..|batches| - 1], batches[|batches| - 1];
      PlacedMeans(r, front);
      assert batches == front + [last];
      if r.oracleID in last.oracleIDs {
        assert batches[|front|] == last && last in batches;
      } else {
        assert forall k | 0 <= k < |front| :: batches[k] == front[k];
        assert forall b | b in batches && r.oracleID in b.oracleIDs :: b in front;
      }
    }
  }

  /**
   * A record of the first manifest is that of a card which is excluded or in the backlog. Identity, revision and name
   * come from the card, its exclusion or the seed decides status and reason, its batch names batch and family, and
   * everything else is the seed's.
   */
  lemma InitWrites(
    q: Manifest, corpus: seq<Card>, cards: map<string, Card>, inventory: Inventory, q': Manifest, i: nat, seed: Record)
    requires CorpusWellFormed(corpus) && Indexes(cards, corpus) && Distinct(RecordIDs(q.records))
    requires Initialized(q, corpus, inventory, q') && i < |q'.records| && SeededBy(q.records, q'.records[i].oracleID, seed)
    ensures var r := q'.records[i];
            && r.oracleID in cards
            && var card := cards[r.oracleID];
               var excluded := card.exclusion.Some?;
               && (excluded || exists listing | listing in inventory.backlog :: listing.oracleID == r.oracleID)
               && r == seed.(oracleID := card.oracleID, revision := card.id, name := card.name,
                             status := r.status, reason := r.reason, batch := r.batch, family := r.family)
               && r.status == (if excluded then Excluded else if seed.status == NoStatus then Unclaimed else seed.status)
               && r.reason == (if excluded then card.exclusion.value else seed.reason)
               && NamesBatch(r, q.batches, seed.batch, if seed.family == "" && !excluded then "unreviewed/" + card.layout else seed.family)
  {
    InitializedDrafts(q, corpus, cards, inventory, q');
    EachIsDraft(q'.records, q, cards, inventory, i);
    var r := q'.records[i];
    SeedMeans(q.records, r.oracleID, seed);
    PlacedMeans(Settled(cards[r.oracleID], seed), q.batches);
    PlacedKeepsID(Settled(cards[r.oracleID], seed), q.batches);
    hide Placed, SeedOf, Indexes, CorpusWellFormed, Initialized, Drafts, Associates, NamesBatch;
  }

  /** An association of the first manifest is that of a card production covers, with the keys of its listing and no status. */
  lemma InitAssociates(
    q: Manifest, corpus: seq<Card>, cards: map<string, Card>, inventory: Inventory, q': Manifest, i: nat, seed: Record)
    requires CorpusWellFormed(corpus) && Indexes(cards, corpus) && Distinct(RecordIDs(q.records)) && q.baseline == []
    requires Initialized(q, corpus, inventory, q') && i < |q'.baseline| && SeededBy(q.records, q'.baseline[i].oracleID, seed)
    ensures var r := q'.baseline[i];
            && r.oracleID in cards
            && var card := cards[r.oracleID];
               && card.exclusion.None? && (forall listing | listing in inventory.backlog :: listing.oracleID != r.oracleID)
               && r == seed.(oracleID := card.oracleID, revision := card.id, name := card.name, status := NoStatus, keys := r.keys)
               && KeysOf(inventory.corpus, r.oracleID, r.keys)
  {
    NewBaseline(q, corpus, cards, inventory, q');
    hide DraftedAssociations, Initialized, Indexes, CorpusWellFormed;
    EachIsAssociate(q'.baseline, q, cards, inventory, i);
    hide Associates;
    SeedMeans(q.records, q'.baseline[i].oracleID, seed);
    AssociationsMean(inventory.corpus, q'.baseline[i].oracleID);
    hide Associations, SeedOf, KeysOf, SeededBy;
  }

  /** The first associations stand in the order of their identities. */
  lemma InitOrders(q: Manifest, corpus: seq<Card>, inventory: Inventory, q': Manifest, i: nat, j: nat)
    requires Initialized(q, corpus, inventory, q') && i < j < |q'.baseline|
    ensures q'.baseline[i].oracleID == q'.baseline[j].oracleID || ComesBefore(q'.baseline[i].oracleID, q'.baseline[j].oracleID)
  {
    assert !ByID(q'.baseline[j], q'.baseline[i]);
    LessIsTotal(q'.baseline[i].oracleID, q'.baseline[j].oracleID);
    LessMeans(q'.baseline[i].oracleID, q'.baseline[j].oracleID);
    hide ComesBefore, Less, DraftedRecords, DraftedAssociations;
  }

  lemma NewBaseline(q: Manifest, corpus: seq<Card>, cards: map<string, Card>, inventory: Inventory, q': Manifest)
    requires CorpusWellFormed(corpus) && Indexes(cards, corpus) && Initialized(q, corpus, inventory, q') && q.baseline == []
    ensures Associates(q'.baseline, q, cards, inventory)
  {
    var added := DraftedAssociations(q, corpus, inventory, |corpus|);
    assert multiset(q'.baseline) == multiset(added) by {
      assert [] + added == added;
      hide DraftedAssociations, DraftedRecords;
    }
    hide DraftedAssociations, Indexes, CorpusWellFormed, Associates, DraftedRecords, Drafts, SortedRecords, Sorted;
    InitializedDrafts(q, corpus, cards, inventory, q');
    hide Initialized;
    assert |q'.baseline| == |multiset(q'.baseline)| == |multiset(added)| == |added|;
    RearrangedAssociates(added, q'.baseline, q, cards, inventory);
  }
}
