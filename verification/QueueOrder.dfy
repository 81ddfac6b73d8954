/** The order of the records never matters to the invariant, so sorting them for display is harmless. */
module QueueOrder {
  import opened Collections
  import opened Text
  import opened Queue
  import opened QueueInvariant
  import Sorting

  /** compareRecords as a strict order: more deck occurrences first, then family, then identity. */
  predicate Precedes(a: Record, b: Record) {
    if a.decks != b.decks then a.decks > b.decks
    else if a.family != b.family then Less(a.family, b.family)
    else Less(a.oracleID, b.oracleID)
  }

  /** What slices.SortFunc promises about the order it leaves. */
  ghost predicate SortedRecords(records: seq<Record>) {
    forall i, j | 0 <= i < j < |records| :: !Precedes(records[j], records[i])
  }

  lemma PrecedesIsAsymmetric(a: Record, b: Record)
    ensures !(Precedes(a, b) && Precedes(b, a))
  {
    LessIsAsymmetric(a.family, b.family);
    LessIsAsymmetric(a.oracleID, b.oracleID);
  }

  lemma PrecedesIsStrictWeak()
    ensures Sorting.StrictWeak(Precedes)
  {
    forall x: Record, y: Record ensures !(Precedes(x, y) && Precedes(y, x)) {
      PrecedesIsAsymmetric(x, y);
    }
    forall x: Record, y: Record, z: Record | !Precedes(x, y) && !Precedes(y, z) ensures !Precedes(x, z) {
      if x.decks == y.decks == z.decks {
        LessIsIrreflexive(x.family);
        LessIsIrreflexive(y.family);
        LessIsTotal(x.family, y.family);
        LessIsTotal(y.family, z.family);
        LessIsAsymmetric(x.family, y.family);
        LessIsAsymmetric(y.family, z.family);
        LessIsNegativelyTransitive(x.family, y.family, z.family);
        if x.family == y.family == z.family {
          LessIsNegativelyTransitive(x.oracleID, y.oracleID, z.oracleID);
        }
      }
    }
  }

  lemma SortedIsSortedRecords(records: seq<Record>)
    ensures Sorting.Sorted(records, Precedes) <==> SortedRecords(records)
  {
    hide Precedes;
  }

  lemma SortedIsAscending(records: seq<Record>)
    requires SortedRecords(records) && Distinct(RecordIDs(records))
    ensures Ascending(records, Precedes)
  {
    forall i, j | 0 <= i < j < |records| ensures Precedes(records[i], records[j]) {
      assert RecordIDs(records)[i] != RecordIDs(records)[j];
      LessIsTotal(records[i].family, records[j].family);
      LessIsTotal(records[i].oracleID, records[j].oracleID);
    }
  }

  /** The formatted order: most decks first, then by family, then by identity. */
  lemma FormattedOrder(records: seq<Record>, i: nat, j: nat)
    requires SortedRecords(records) && i < j < |records|
    ensures var a, b := records[i], records[j];
            && a.decks >= b.decks
            && (a.decks == b.decks && a.family != b.family ==> ComesBefore(a.family, b.family))
            && (a.decks == b.decks && a.family == b.family && a.oracleID != b.oracleID ==> ComesBefore(a.oracleID, b.oracleID))
  {
    var a, b := records[i], records[j];
    LessIsTotal(a.family, b.family);
    LessIsTotal(a.oracleID, b.oracleID);
    LessMeans(a.family, b.family);
    LessMeans(a.oracleID, b.oracleID);
    hide ComesBefore, Less;
  }

  /** On records without repetition the formatted order is unique, whatever an unstable sort does with ties. */
  lemma FormatIsCanonical(records: seq<Record>, one: seq<Record>, other: seq<Record>)
    requires Distinct(RecordIDs(records))
    requires multiset(one) == multiset(records) && multiset(other) == multiset(records)
    requires SortedRecords(one) && SortedRecords(other)
    ensures one == other
  {
    assert |one| == |multiset(one)| == |records| && |other| == |multiset(other)| == |records|;
    var toOne := Embedding(one, records);
    var toOther := Embedding(other, records);
    RearrangedIDs(records, one, toOne);
    RearrangedIDs(records, other, toOther);
    SortedIsAscending(one);
    SortedIsAscending(other);
    forall x: Record, y: Record ensures !(Precedes(x, y) && Precedes(y, x)) {
      PrecedesIsAsymmetric(x, y);
    }
    forall x ensures x in one <==> x in other {
      assert x in one <==> x in multiset(one);
      assert x in other <==> x in multiset(other);
    }
    AscendingIsUnique(one, other, Precedes);
  }

  lemma RearrangedIDs(records: seq<Record>, rearranged: seq<Record>, order: seq<nat>)
    requires Embeds(order, rearranged, records) && |rearranged| == |records|
    requires Distinct(RecordIDs(records))
    ensures Distinct(RecordIDs(rearranged))
    ensures Elements(RecordIDs(rearranged)) == Elements(RecordIDs(records))
  {
    var before, after := RecordIDs(records), RecordIDs(rearranged);
    assert forall i | 0 <= i < |after| :: order[i] < |before| && after[i] == before[order[i]];
    EmbeddingCovers(order, rearranged, records);
    forall id | id in Elements(before) ensures id in Elements(after) {
      var k :| 0 <= k < |before| && before[k] == id;
      assert k in order;
      var i :| 0 <= i < |order| && order[i] == k;
      assert after[i] == id;
    }
  }

  lemma RearrangedClaims(records: seq<Record>, rearranged: seq<Record>, order: seq<nat>)
    requires Embeds(order, rearranged, records)
    requires SingleClaim(records)
    ensures SingleClaim(rearranged)
  {
  }

  lemma RearrangedMembership(records: seq<Record>, rearranged: seq<Record>, order: seq<nat>, batches: seq<Batch>)
    requires Embeds(order, rearranged, records)
    requires Elements(RecordIDs(rearranged)) == Elements(RecordIDs(records))
    requires Membership(records, batches)
    ensures Membership(rearranged, batches)
  {
    hide MemberSound;
    forall k, id | 0 <= k < |batches| && id in batches[k].oracleIDs ensures id in RecordIDs(rearranged) {
      assert id in Elements(RecordIDs(records));
    }
  }

  lemma RearrangedIsValid(q: Manifest, rearranged: seq<Record>, cards: map<string, Card>, inventory: Inventory)
    requires multiset(q.records) == multiset(rearranged)
    requires ValidOver(q, cards, inventory)
    ensures ValidOver(q.(records := rearranged), cards, inventory)
  {
    hide RecordSound, RetiredSound, BatchesSound, BaselineSound, SingleClaim, Membership;
    assert |q.records| == |rearranged| by {
      assert |multiset(q.records)| == |multiset(rearranged)|;
    }
    var order := Embedding(rearranged, q.records);
    PartitionForms(q.records, q.baseline, cards);
    RearrangedIDs(q.records, rearranged, order);
    PartitionForms(rearranged, q.baseline, cards);
    RearrangedClaims(q.records, rearranged, order);
    RearrangedMembership(q.records, rearranged, order, q.batches);
  }

  /** Validate's verdict is the same for every order of the records. */
  lemma OrderDoesNotMatter(q: Manifest, rearranged: seq<Record>, corpus: seq<Card>, inventory: Inventory)
    requires multiset(q.records) == multiset(rearranged)
    ensures Valid(q, corpus, inventory) <==> Valid(q.(records := rearranged), corpus, inventory)
  {
    hide ValidOver, CorpusWellFormed, Indexes;
    var other := q.(records := rearranged);
    if Valid(q, corpus, inventory) {
      var cards :| Indexes(cards, corpus) && ValidOver(q, cards, inventory);
      RearrangedIsValid(q, rearranged, cards, inventory);
    }
    if Valid(other, corpus, inventory) {
      var cards :| Indexes(cards, corpus) && ValidOver(other, cards, inventory);
      RearrangedIsValid(other, q.records, cards, inventory);
      assert other.(records := q.records) == q;
    }
  }
}
