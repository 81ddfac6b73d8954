/** The imperative validator of the card queue, proved to accept exactly the valid manifests. */
module Validate {
  import opened Collections
  import opened Text
  import opened Queue
  import opened QueueInvariant

  method ValidateBatch(b: Batch) returns (outcome: Outcome)
    ensures outcome.Pass? <==> BatchWellFormed(b)
  {
    if IsBlank(b.id) {
      return Fail("missing batch id");
    } else if IsBlank(b.family) {
      return Fail("missing family");
    } else if |b.oracleIDs| < 3 || |b.oracleIDs| > 5 {
      return Fail("needs 3-5 members");
    } else if |b.operations| == 0 {
      return Fail("missing operations");
    }
    var seen: set<string> := {};
    for i := 0 to |b.oracleIDs|
      invariant forall x :: x in seen <==> x in b.oracleIDs[..i]
      invariant Distinct(b.oracleIDs[..i])
      invariant forall j | 0 <= j < i :: !IsBlank(b.oracleIDs[j])
    {
      if IsBlank(b.oracleIDs[i]) || b.oracleIDs[i] in seen {
        return Fail("invalid batch member");
      }
      seen := seen + {b.oracleIDs[i]};
      assert b.oracleIDs[..i + 1] == b.oracleIDs[..i] + [b.oracleIDs[i]];
    }
    assert b.oracleIDs[..|b.oracleIDs|] == b.oracleIDs;
    var issues: set<int> := {};
    for i := 0 to |b.prerequisites|
      invariant forall x :: x in issues <==> x in b.prerequisites[..i]
      invariant Distinct(b.prerequisites[..i])
      invariant forall j | 0 <= j < i :: b.prerequisites[j] > 0
    {
      if b.prerequisites[i] <= 0 || b.prerequisites[i] in issues {
        return Fail("invalid prerequisite");
      }
      issues := issues + {b.prerequisites[i]};
      assert b.prerequisites[..i + 1] == b.prerequisites[..i] + [b.prerequisites[i]];
    }
    assert b.prerequisites[..|b.prerequisites|] == b.prerequisites;
    for i := 0 to |b.operations|
      invariant forall j | 0 <= j < i :: !IsBlank(b.operations[j])
    {
      if IsBlank(b.operations[i]) {
        return Fail("blank operation in batch");
      }
    }
    outcome := CheckEvidence(b.evidence, b.prerequisites, issues);
  }

  /** The last loop of ValidateBatch: issues holds the prerequisites already checked. */
  method CheckEvidence(evidence: seq<Evidence>, ghost prerequisites: seq<int>, issues: set<int>) returns (outcome: Outcome)
    requires forall x :: x in issues <==> x in prerequisites
    ensures outcome.Pass? <==> EvidenceFits(evidence, prerequisites)
  {
    var checked: set<int> := {};
    for i := 0 to |evidence|
      invariant forall x :: x in checked <==> x in Issues(evidence)[..i]
      invariant Distinct(Issues(evidence)[..i])
      invariant forall j | 0 <= j < i :: ValidEvidence(evidence[j]) && evidence[j].issue in issues
    {
      assert Issues(evidence)[i] == evidence[i].issue;
      if evidence[i].issue !in issues || evidence[i].issue in checked || !ValidEvidence(evidence[i]) {
        return Fail("invalid evidence");
      }
      checked := checked + {evidence[i].issue};
      assert Issues(evidence)[..i + 1] == Issues(evidence)[..i] + [evidence[i].issue];
    }
    assert Issues(evidence)[..|evidence|] == Issues(evidence);
    return Pass;
  }

  /** One more card is unambiguous when it is not tracked, or identified and not yet indexed. */
  lemma CorpusStep(byID: map<string, Card>, corpus: seq<Card>, n: nat)
    requires n < |corpus| && CorpusPrefixWellFormed(corpus, n) && IndexesPrefix(byID, corpus, n)
    ensures var card := corpus[n];
            if card.disowned then CorpusPrefixWellFormed(corpus, n + 1) && IndexesPrefix(byID, corpus, n + 1)
            else if card.oracleID in byID || card.id == "" || card.oracleID == "" then !CorpusWellFormed(corpus)
            else CorpusPrefixWellFormed(corpus, n + 1) && IndexesPrefix(byID[card.oracleID := card], corpus, n + 1)
  {
    var card := corpus[n];
    assert Tracked(corpus[n]) <==> !card.disowned;
    if !card.disowned {
      if card.oracleID in byID || card.id == "" || card.oracleID == "" {
        AmbiguousCard(byID, corpus, n);
      } else {
        IndexOneMore(byID, corpus, n);
        hide IndexesPrefix;
      }
    }
  }

  lemma AmbiguousCard(byID: map<string, Card>, corpus: seq<Card>, n: nat)
    requires n < |corpus| && IndexesPrefix(byID, corpus, n) && Tracked(corpus[n])
    requires corpus[n].oracleID in byID || corpus[n].id == "" || corpus[n].oracleID == ""
    ensures !CorpusWellFormed(corpus)
  {
    if corpus[n].oracleID in byID {
      var i :| 0 <= i < n && Tracked(corpus[i]) && corpus[i].oracleID == corpus[n].oracleID;
    }
  }

  lemma IndexOneMore(byID: map<string, Card>, corpus: seq<Card>, n: nat)
    requires n < |corpus| && IndexesPrefix(byID, corpus, n) && Tracked(corpus[n]) && corpus[n].oracleID !in byID
    ensures IndexesPrefix(byID[corpus[n].oracleID := corpus[n]], corpus, n + 1)
    ensures forall i | 0 <= i < n && Tracked(corpus[i]) :: corpus[i].oracleID != corpus[n].oracleID
  {
    var next := byID[corpus[n].oracleID := corpus[n]];
    forall id | id in next ensures exists i | 0 <= i < n + 1 :: Tracked(corpus[i]) && corpus[i].oracleID == id {
      if id != corpus[n].oracleID {
        var i :| 0 <= i < n && Tracked(corpus[i]) && corpus[i].oracleID == id;
      }
    }
  }

  /** The corpus loop: an index of every identity that is not disowned. */
  method IndexCorpus(corpus: seq<Card>) returns (outcome: Outcome, byID: map<string, Card>)
    ensures outcome.Pass? <==> CorpusWellFormed(corpus)
    ensures outcome.Pass? ==> Indexes(byID, corpus)
  {
    byID := map[];
    assert CorpusPrefixWellFormed(corpus, 0) && IndexesPrefix(byID, corpus, 0);
    hide CorpusPrefixWellFormed, IndexesPrefix;
    for i := 0 to |corpus|
      invariant CorpusPrefixWellFormed(corpus, i)
      invariant IndexesPrefix(byID, corpus, i)
    {
      var card := corpus[i];
      CorpusStep(byID, corpus, i);
      if !card.disowned {
        if card.oracleID in byID || card.id == "" || card.oracleID == "" {
          return Fail("ambiguous corpus"), byID;
        }
        byID := byID[card.oracleID := card];
      }
    }
    return Pass, byID;
  }

  /** The retired-batch loop. */
  method CheckRetired(retired: seq<Batch>, cards: map<string, Card>) returns (outcome: Outcome, retiredIDs: set<string>)
    ensures outcome.Pass? <==> RetiredSound(retired, cards)
    ensures outcome.Pass? ==> retiredIDs == Elements(BatchIDs(retired))
  {
    hide BatchWellFormed;
    retiredIDs := {};
    for i := 0 to |retired|
      invariant forall x :: x in retiredIDs <==> exists a | 0 <= a < i :: retired[a].id == x
      invariant forall a, b | 0 <= a < b < i :: retired[a].id != retired[b].id
      invariant forall a | 0 <= a < i :: BatchWellFormed(retired[a])
      invariant forall a, id | 0 <= a < i && id in retired[a].oracleIDs :: id in cards
    {
      var b := retired[i];
      if b.id in retiredIDs {
        ghost var a :| 0 <= a < i && retired[a].id == b.id;
        assert BatchIDs(retired)[a] == BatchIDs(retired)[i];
        return Fail("duplicate retired batch"), retiredIDs;
      }
      outcome := ValidateBatch(b);
      if outcome.Fail? {
        return outcome, retiredIDs;
      }
      retiredIDs := retiredIDs + {b.id};
      for j := 0 to |b.oracleIDs|
        invariant forall a | 0 <= a < j :: b.oracleIDs[a] in cards
      {
        if b.oracleIDs[j] !in cards {
          return Fail("unknown retired member"), retiredIDs;
        }
      }
    }
    assert forall a | 0 <= a < |retired| :: BatchIDs(retired)[a] == retired[a].id;
    return Pass, retiredIDs;
  }

  /** The batch and member tables describe exactly the first n batches. */
  ghost predicate Tables(table: map<string, Batch>, members: map<string, string>, batches: seq<Batch>, n: nat)
    requires n <= |batches|
  {
    && (forall k | 0 <= k < n :: batches[k].id in table && table[batches[k].id] == batches[k])
    && (forall id | id in table :: exists k | 0 <= k < n :: batches[k].id == id)
    && (forall k, id | 0 <= k < n && id in batches[k].oracleIDs :: id in members && members[id] == batches[k].id)
    && (forall id | id in members :: exists k | 0 <= k < n :: id in batches[k].oracleIDs)
  }

  ghost predicate FreshPrefix(batches: seq<Batch>, n: nat)
    requires n <= |batches|
  {
    forall a, b | 0 <= a < b < n :: batches[a].id != batches[b].id
  }

  ghost predicate DisjointPrefix(batches: seq<Batch>, n: nat)
    requires n <= |batches|
  {
    forall a, b, id | 0 <= a < b < n && id in batches[a].oracleIDs :: id !in batches[b].oracleIDs
  }

  ghost predicate EachSound(batches: seq<Batch>, retiredIDs: set<string>, n: nat)
    requires n <= |batches|
  {
    forall a | 0 <= a < n :: BatchWellFormed(batches[a]) && batches[a].id !in retiredIDs
  }

  ghost predicate BatchesPrefixSound(batches: seq<Batch>, retiredIDs: set<string>, n: nat)
    requires n <= |batches|
  {
    FreshPrefix(batches, n) && EachSound(batches, retiredIDs, n) && DisjointPrefix(batches, n)
  }

  lemma PrefixSoundIsSound(batches: seq<Batch>, retired: seq<Batch>)
    ensures BatchesSound(batches, retired) <==> BatchesPrefixSound(batches, Elements(BatchIDs(retired)), |batches|)
  {
    assert forall a | 0 <= a < |batches| :: BatchIDs(batches)[a] == batches[a].id;
  }

  /** The next batch ID is new exactly when it is not in the table. */
  lemma FreshStep(table: map<string, Batch>, members: map<string, string>, batches: seq<Batch>, n: nat)
    requires n < |batches|
    requires FreshPrefix(batches, n) && Tables(table, members, batches, n)
    ensures FreshPrefix(batches, n + 1) <==> batches[n].id !in table
  {
    if batches[n].id in table {
      var k :| 0 <= k < n && batches[k].id == batches[n].id;
    }
  }

  /** The next batch takes no member twice exactly when none of its members is in the table. */
  lemma DisjointStep(table: map<string, Batch>, members: map<string, string>, batches: seq<Batch>, n: nat)
    requires n < |batches|
    requires DisjointPrefix(batches, n) && Tables(table, members, batches, n)
    ensures DisjointPrefix(batches, n + 1) <==> forall id | id in batches[n].oracleIDs :: id !in members
  {
  }

  /** The tables it leaves. */
  lemma AdmitBatch(
    table: map<string, Batch>, members: map<string, string>, batches: seq<Batch>, n: nat, entered: map<string, string>)
    requires n < |batches|
    requires Tables(table, members, batches, n)
    requires batches[n].id !in table
    requires forall id :: id in entered <==> id in members || id in batches[n].oracleIDs
    requires forall id | id in batches[n].oracleIDs :: id !in members
    requires forall id | id in entered :: entered[id] == if id in batches[n].oracleIDs then batches[n].id else members[id]
    ensures Tables(table[batches[n].id := batches[n]], entered, batches, n + 1)
  {
    forall k, id | 0 <= k < n + 1 && id in batches[k].oracleIDs
      ensures id in entered && entered[id] == batches[k].id
    {
      if k < n {
        assert id in members;
      }
    }
    forall id | id in entered ensures exists k | 0 <= k < n + 1 :: id in batches[k].oracleIDs {
      if id in members {
        var k :| 0 <= k < n && id in batches[k].oracleIDs;
      }
    }
  }

  /** The live-batch loop. */
  method CheckBatches(batches: seq<Batch>, ghost retired: seq<Batch>, retiredIDs: set<string>)
    returns (outcome: Outcome, table: map<string, Batch>, members: map<string, string>)
    requires retiredIDs == Elements(BatchIDs(retired))
    ensures outcome.Pass? <==> BatchesSound(batches, retired)
    ensures outcome.Pass? ==> Tables(table, members, batches, |batches|)
    ensures outcome.Pass? ==> FreshPrefix(batches, |batches|) && DisjointPrefix(batches, |batches|) && Named(batches)
  {
    table, members := map[], map[];
    PrefixSoundIsSound(batches, retired);
    for i := 0 to |batches|
      invariant BatchesPrefixSound(batches, retiredIDs, i)
      invariant Tables(table, members, batches, i)
    {
      var b := batches[i];
      FreshStep(table, members, batches, i);
      DisjointStep(table, members, batches, i);
      PrefixMonotone(batches, retiredIDs, i + 1);
      if b.id in table || b.id in retiredIDs {
        return Fail("duplicate batch"), table, members;
      }
      outcome := ValidateBatch(b);
      if outcome.Fail? {
        return outcome, table, members;
      }
      var repeated, entered := AddMembers(members, b);
      if repeated {
        return Fail("duplicate batch identity"), table, members;
      }
      AdmitBatch(table, members, batches, i, entered);
      table, members := table[b.id := b], entered;
    }
    return Pass, table, members;
  }

  lemma PrefixMonotone(batches: seq<Batch>, retiredIDs: set<string>, n: nat)
    requires n <= |batches|
    ensures BatchesPrefixSound(batches, retiredIDs, |batches|) ==> BatchesPrefixSound(batches, retiredIDs, n)
  {
  }

  /** The inner loop of CheckBatches: enter the members of one batch, unless one is taken. */
  method AddMembers(members: map<string, string>, b: Batch) returns (repeated: bool, entered: map<string, string>)
    requires Distinct(b.oracleIDs)
    ensures repeated <==> exists id | id in b.oracleIDs :: id in members
    ensures !repeated ==> forall id :: id in entered <==> id in members || id in b.oracleIDs
    ensures !repeated ==> forall id | id in entered :: entered[id] == if id in b.oracleIDs then b.id else members[id]
  {
    entered := members;
    for j := 0 to |b.oracleIDs|
      invariant forall a | 0 <= a < j :: b.oracleIDs[a] !in members
      invariant forall id :: id in entered <==> id in members || id in b.oracleIDs[..j]
      invariant forall id | id in entered :: entered[id] == if id in b.oracleIDs[..j] then b.id else members[id]
    {
      var id := b.oracleIDs[j];
      if id in entered {
        assert id in b.oracleIDs;
        return true, entered;
      }
      entered := entered[id := b.id];
      assert b.oracleIDs[..j + 1] == b.oracleIDs[..j] + [id];
    }
    assert b.oracleIDs[..|b.oracleIDs|] == b.oracleIDs;
    return false, entered;
  }

  /** The lookup tables validate builds from the inventory. */
  datatype Facts = Facts(
    backlog: set<string>,
    compiled: map<string, bool>,
    associations: map<string, seq<string>>,
    verified: set<string>,
    loadable: map<string, bool>)

  ghost predicate Describes(facts: Facts, inventory: Inventory) {
    && facts.backlog == Backlog(inventory)
    && facts.verified == VerifiedIDs(inventory)
    && (forall id :: Get(facts.compiled, id, false) == Compiled(inventory.corpus, id))
    && (forall id :: Get(facts.associations, id, []) == Associations(inventory.corpus, id))
    && (forall key :: Get(facts.loadable, key, false) == Loadable(inventory.production, key))
  }

  method ReadInventory(inventory: Inventory) returns (facts: Facts)
    ensures Describes(facts, inventory)
  {
    var backlog: set<string> := {};
    for i := 0 to |inventory.backlog|
      invariant backlog == set r | r in inventory.backlog[..i] :: r.oracleID
    {
      backlog := backlog + {inventory.backlog[i].oracleID};
      assert inventory.backlog[..i + 1] == inventory.backlog[..i] + [inventory.backlog[i]];
    }
    assert inventory.backlog[..|inventory.backlog|] == inventory.backlog;
    var compiled, associations := ReadListings(inventory.corpus);
    var loadable, verified := ReadProduction(inventory.production);
    return Facts(backlog, compiled, associations, verified, loadable);
  }

  method ReadListings(listings: seq<Listing>) returns (compiled: map<string, bool>, associations: map<string, seq<string>>)
    ensures forall id :: Get(compiled, id, false) == Compiled(listings, id)
    ensures forall id :: Get(associations, id, []) == Associations(listings, id)
  {
    compiled, associations := map[], map[];
    for i := 0 to |listings|
      invariant forall id :: Get(compiled, id, false) == Compiled(listings[..i], id)
      invariant forall id :: Get(associations, id, []) == Associations(listings[..i], id)
    {
      var r := listings[i];
      assert listings[..i + 1][..i] == listings[..i];
      compiled := compiled[r.oracleID := r.compilerAccepted];
      associations := associations[r.oracleID := r.candidates];
      if r.production.Some? {
        associations := associations[r.oracleID := associations[r.oracleID] + [r.production.value]];
      }
    }
    assert listings[..|listings|] == listings;
  }

  method ReadProduction(production: seq<Support>) returns (loadable: map<string, bool>, verified: set<string>)
    ensures forall key :: Get(loadable, key, false) == Loadable(production, key)
    ensures verified == set s | s in production && Exact(s) :: s.oracleID
  {
    loadable, verified := map[], {};
    for i := 0 to |production|
      invariant forall key :: Get(loadable, key, false) == Loadable(production[..i], key)
      invariant verified == set s | s in production[..i] && Exact(s) :: s.oracleID
    {
      var support := production[i];
      assert production[..i + 1][..i] == production[..i];
      assert production[..i + 1] == production[..i] + [support];
      loadable := loadable[support.key := support.loadable];
      if support.oracleID != "" && support.loadable && support.behaviorVerified {
        assert Exact(support);
        verified := verified + {support.oracleID};
      }
    }
    assert production[..|production|] == production;
  }

  ghost predicate Named(batches: seq<Batch>) {
    forall a | 0 <= a < |batches| :: batches[a].id != ""
  }

  /** The membership test of validate agrees with MemberSound. */
  lemma MemberTest(r: Record, batches: seq<Batch>, table: map<string, Batch>, members: map<string, string>)
    requires FreshPrefix(batches, |batches|) && DisjointPrefix(batches, |batches|) && Named(batches)
    requires Tables(table, members, batches, |batches|)
    ensures r.batch == Get(members, r.oracleID, "") && r.batch != "" ==> r.batch in table
    ensures MemberSound(r, batches) <==>
              && r.batch == Get(members, r.oracleID, "")
              && (r.batch != "" && r.batch in table ==> r.family == table[r.batch].family)
  {
    assert forall a | 0 <= a < |batches| :: BatchIDs(batches)[a] == batches[a].id;
    if r.oracleID in members {
      var k :| 0 <= k < |batches| && r.oracleID in batches[k].oracleIDs;
      assert members[r.oracleID] == batches[k].id;
      ListedMember(r, batches, table, members, k);
    } else {
      UnlistedMember(r, batches, table, members);
    }
  }

  lemma ListedMember(r: Record, batches: seq<Batch>, table: map<string, Batch>, members: map<string, string>, k: nat)
    requires FreshPrefix(batches, |batches|) && DisjointPrefix(batches, |batches|) && Named(batches)
    requires Tables(table, members, batches, |batches|)
    requires k < |batches| && r.oracleID in batches[k].oracleIDs
    ensures batches[k].id in table && table[batches[k].id] == batches[k]
    ensures MemberSound(r, batches) <==> r.batch == batches[k].id && r.family == batches[k].family
  {
    assert forall a | 0 <= a < |batches| :: BatchIDs(batches)[a] == batches[a].id;
    assert BatchIDs(batches)[k] in BatchIDs(batches);
    assert forall a | 0 <= a < |batches| && a != k :: batches[a].id != batches[k].id && r.oracleID !in batches[a].oracleIDs;
    hide DisjointPrefix, FreshPrefix;
  }

  lemma UnlistedMember(r: Record, batches: seq<Batch>, table: map<string, Batch>, members: map<string, string>)
    requires Named(batches) && Tables(table, members, batches, |batches|) && r.oracleID !in members
    ensures MemberSound(r, batches) <==> r.batch == ""
  {
    assert forall a | 0 <= a < |batches| :: BatchIDs(batches)[a] == batches[a].id;
    if r.batch in BatchIDs(batches) {
      var a :| 0 <= a < |batches| && BatchIDs(batches)[a] == r.batch;
    }
  }

  /** The record checks of validate that do not depend on other records. */
  method CheckRecord(r: Record, card: Card, facts: Facts, ghost cards: map<string, Card>, ghost inventory: Inventory)
    returns (outcome: Outcome)
    requires Describes(facts, inventory)
    requires SameIdentity(r, cards) && card == cards[r.oracleID] && PolicySound(r, card)
    ensures outcome.Pass? <==> RecordSound(r, cards, inventory)
  {
    if !r.status.Claimed? && r.owner != "" {
      return Fail("dangling owner");
    }
    for j := 0 to |r.reassessments|
      invariant forall a | 0 <= a < j :: ValidEvidence(r.reassessments[a].prerequisite) && r.reassessments[a].reason != ""
    {
      if !ValidEvidence(r.reassessments[j].prerequisite) || r.reassessments[j].reason == "" {
        return Fail("invalid reassessment");
      }
    }
    match r.status {
      case Unclaimed =>
        if r.oracleID !in facts.backlog {
          return Fail("untracked promotion");
        }
      case Claimed =>
        if r.batch == "" || r.owner == "" {
          return Fail("untracked claim");
        }
      case ImplementedVerified =>
        if r.oracleID !in facts.verified || r.evidence == "" {
          return Fail("unverified admission");
        }
      case InstalledCompiled =>
        var token := card.layout == "token" || card.layout == "double_faced_token";
        if (r.oracleID in facts.backlog && !token) || !Get(facts.compiled, r.oracleID, false)
           || r.evidence != COMPILED_INSTALLATION_PATH {
          return Fail("unbacked installation");
        }
      case Blocked =>
        if r.blocker <= 0 || r.reason == "" || r.oracleID !in facts.backlog {
          return Fail("invalid blocker");
        }
      case Excluded =>
      case NoStatus => return Fail("invalid status");
      case Unrecognised(_) => return Fail("invalid status");
    }
    return Pass;
  }

  ghost predicate FreshRecords(records: seq<Record>, n: nat)
    requires n <= |records|
  {
    forall a, b | 0 <= a < b < n :: records[a].oracleID != records[b].oracleID
  }

  lemma FreshIsDistinct(records: seq<Record>)
    ensures FreshRecords(records, |records|) <==> Distinct(RecordIDs(records))
  {
    assert forall a | 0 <= a < |records| :: RecordIDs(records)[a] == records[a].oracleID;
  }

  ghost predicate EachRecordSound(
    records: seq<Record>, batches: seq<Batch>, cards: map<string, Card>, inventory: Inventory, n: nat)
    requires n <= |records|
  {
    forall a | 0 <= a < n :: RecordSound(records[a], cards, inventory) && MemberSound(records[a], batches)
  }

  ghost predicate ClaimsAgree(records: seq<Record>, n: nat)
    requires n <= |records|
  {
    forall a, b | 0 <= a < n && 0 <= b < n && records[a].status.Claimed? && records[b].status.Claimed? ::
      records[a].batch == records[b].batch && records[a].owner == records[b].owner
  }

  /** Everything the record loop decides about the first n records. */
  ghost predicate RecordsPrefixSound(
    records: seq<Record>, batches: seq<Batch>, cards: map<string, Card>, inventory: Inventory, n: nat)
    requires n <= |records|
  {
    FreshRecords(records, n) && EachRecordSound(records, batches, cards, inventory, n) && ClaimsAgree(records, n)
  }

  /** The active batch and owner summarise the claims among the first n records. */
  ghost predicate Active(records: seq<Record>, n: nat, activeBatch: string, activeOwner: string)
    requires n <= |records|
  {
    && (forall a | 0 <= a < n && records[a].status.Claimed? ::
          activeBatch != "" && records[a].batch == activeBatch && records[a].owner == activeOwner)
    && (activeBatch != "" ==> exists a | 0 <= a < n ::
          records[a].status.Claimed? && records[a].batch == activeBatch && records[a].owner == activeOwner)
  }

  ghost predicate Seen(done: set<string>, records: seq<Record>, n: nat)
    requires n <= |records|
  {
    forall id :: id in done <==> exists a | 0 <= a < n :: records[a].oracleID == id
  }

  lemma SeenStep(done: set<string>, records: seq<Record>, n: nat)
    requires n < |records| && Seen(done, records, n) && FreshRecords(records, n)
    ensures Seen(done + {records[n].oracleID}, records, n + 1)
    ensures FreshRecords(records, n + 1) <==> records[n].oracleID !in done
  {
    forall id | id in done + {records[n].oracleID}
      ensures exists a | 0 <= a < n + 1 :: records[a].oracleID == id
    {
      if id in done {
        var a :| 0 <= a < n && records[a].oracleID == id;
      }
    }
  }

  /** The claim test of the loop, and the summary it leaves. */
  lemma ClaimStep(records: seq<Record>, n: nat, activeBatch: string, activeOwner: string)
    requires n < |records| && ClaimsAgree(records, n) && Active(records, n, activeBatch, activeOwner)
    requires records[n].status.Claimed? ==> records[n].batch != ""
    ensures ClaimsAgree(records, n + 1) <==>
              (records[n].status.Claimed? && activeBatch != "" ==> activeBatch == records[n].batch && activeOwner == records[n].owner)
    ensures ClaimsAgree(records, n + 1) && records[n].status.Claimed? ==>
              Active(records, n + 1, records[n].batch, records[n].owner)
    ensures !records[n].status.Claimed? ==> Active(records, n + 1, activeBatch, activeOwner)
  {
  }

  /** One pass of the record loop, up to the claim test. The identities in done are already struck from the tables. */
  method AccountRecord(
    r: Record, byID: map<string, Card>, members: map<string, string>, table: map<string, Batch>, facts: Facts,
    ghost batches: seq<Batch>, ghost cards: map<string, Card>, ghost allMembers: map<string, string>,
    ghost inventory: Inventory, ghost done: set<string>)
    returns (outcome: Outcome)
    requires FreshPrefix(batches, |batches|) && DisjointPrefix(batches, |batches|) && Named(batches)
    requires Tables(table, allMembers, batches, |batches|)
    requires Describes(facts, inventory)
    requires byID == cards - done && members == allMembers - done
    ensures outcome.Pass? <==> r.oracleID !in done && RecordSound(r, cards, inventory) && MemberSound(r, batches)
    ensures outcome.Pass? && r.status.Claimed? ==> r.batch != ""
    ensures outcome.Pass? ==> r.oracleID in cards
  {
    if r.oracleID !in byID || r.revision != byID[r.oracleID].id || r.name != byID[r.oracleID].name {
      return Fail("stale record");
    }
    var card := byID[r.oracleID];
    if r.status.Excluded? != card.exclusion.Some? || (card.exclusion.Some? && r.reason != card.exclusion.value) {
      return Fail("policy mismatch");
    }
    MemberTest(r, batches, table, allMembers);
    if r.batch != Get(members, r.oracleID, "") || (r.batch != "" && r.family != table[r.batch].family) {
      return Fail("dangling membership");
    }
    outcome := CheckRecord(r, card, facts, cards, inventory);
  }

  /** The record loop: byID and members lose every identity that has been accounted for. */
  method CheckRecords(
    records: seq<Record>, ghost batches: seq<Batch>, cards: map<string, Card>, table: map<string, Batch>,
    allMembers: map<string, string>, facts: Facts, ghost inventory: Inventory)
    returns (outcome: Outcome, byID: map<string, Card>, members: map<string, string>, activeBatch: string)
    requires FreshPrefix(batches, |batches|) && DisjointPrefix(batches, |batches|) && Named(batches)
    requires Tables(table, allMembers, batches, |batches|)
    requires Describes(facts, inventory)
    ensures outcome.Pass? <==> RecordsPrefixSound(records, batches, cards, inventory, |records|)
    ensures outcome.Pass? ==> byID == cards - Elements(RecordIDs(records)) && Elements(RecordIDs(records)) <= cards.Keys
    ensures outcome.Pass? ==> members == allMembers - Elements(RecordIDs(records))
    ensures outcome.Pass? ==> exists owner :: Active(records, |records|, activeBatch, owner)
  {
    hide RecordSound, MemberSound, Tables, Describes;
    byID, members, activeBatch := cards, allMembers, "";
    var activeOwner := "";
    ghost var done: set<string> := {};
    for i := 0 to |records|
      invariant RecordsPrefixSound(records, batches, cards, inventory, i)
      invariant Seen(done, records, i) && done <= cards.Keys
      invariant byID == cards - done && members == allMembers - done
      invariant Active(records, i, activeBatch, activeOwner)
    {
      var r := records[i];
      SeenStep(done, records, i);
      outcome := AccountRecord(r, byID, members, table, facts, batches, cards, allMembers, inventory, done);
      if outcome.Fail? {
        return outcome, byID, members, activeBatch;
      }
      byID, members := byID - {r.oracleID}, members - {r.oracleID};
      ClaimStep(records, i, activeBatch, activeOwner);
      if r.status.Claimed? {
        if activeBatch != "" && (activeBatch != r.batch || activeOwner != r.owner) {
          return Fail("several active writers"), byID, members, activeBatch;
        }
        activeBatch, activeOwner := r.batch, r.owner;
      }
      done := done + {r.oracleID};
    }
    assert done == Elements(RecordIDs(records)) by {
      assert forall a | 0 <= a < |records| :: RecordIDs(records)[a] == records[a].oracleID;
    }
    return Pass, byID, members, activeBatch;
  }

  /** One pass of the baseline loop. */
  method CheckAssociation(
    r: Record, byID: map<string, Card>, facts: Facts, ghost cards: map<string, Card>, ghost inventory: Inventory,
    ghost done: set<string>)
    returns (outcome: Outcome)
    requires Describes(facts, inventory)
    requires byID == cards - done
    ensures outcome.Pass? <==> Acceptable(r, done, cards, inventory)
  {
    if r.oracleID !in byID || r.revision != byID[r.oracleID].id || r.name != byID[r.oracleID].name || r.status != NoStatus
       || r.owner != "" || r.batch != "" || |r.keys| == 0 || r.oracleID in facts.backlog {
      return Fail("invalid association");
    }
    var card := byID[r.oracleID];
    if card.exclusion.Some? {
      return Fail("excluded association");
    }
    if !exists k | 0 <= k < |r.keys| :: Get(facts.loadable, r.keys[k], false) {
      assert forall k | 0 <= k < |r.keys| :: !Loadable(inventory.production, r.keys[k]);
      return Fail("baseline production lost");
    }
    assert exists k | 0 <= k < |r.keys| :: Loadable(inventory.production, r.keys[k]);
    if exists k | 0 <= k < |r.keys| :: r.keys[k] !in Get(facts.associations, r.oracleID, []) {
      return Fail("invented association");
    }
    return Pass;
  }

  /** A baseline identity that is already accounted for breaks the partition. */
  lemma AccountedTwice(records: seq<Record>, baseline: seq<Record>, cards: map<string, Card>, n: nat, done: set<string>)
    requires n < |baseline| && Seen(done, baseline, n)
    requires baseline[n].oracleID in Elements(RecordIDs(records)) + done
    ensures !Partition(records, baseline, cards)
  {
    PartitionForms(records, baseline, cards);
    var ids := RecordIDs(baseline);
    assert ids[n] == baseline[n].oracleID && ids[n] in Elements(ids);
    if baseline[n].oracleID in done {
      var a :| 0 <= a < n && baseline[a].oracleID == baseline[n].oracleID;
      assert ids[a] == ids[n];
    }
  }

  /** When both lists are accounted for, what is left over decides the partition. */
  lemma LeftOver(records: seq<Record>, baseline: seq<Record>, cards: map<string, Card>, done: set<string>)
    requires FreshRecords(records, |records|) && FreshRecords(baseline, |baseline|) && Seen(done, baseline, |baseline|)
    requires done * Elements(RecordIDs(records)) == {} && Elements(RecordIDs(records)) + done <= cards.Keys
    ensures Partition(records, baseline, cards) <==> cards - (Elements(RecordIDs(records)) + done) == map[]
  {
    PartitionForms(records, baseline, cards);
    FreshIsDistinct(records);
    FreshIsDistinct(baseline);
    assert done == Elements(RecordIDs(baseline)) by {
      assert forall a | 0 <= a < |baseline| :: RecordIDs(baseline)[a] == baseline[a].oracleID;
    }
    var listed := Elements(RecordIDs(records)) + done;
    assert forall id | id in done :: id in Elements(RecordIDs(records)) ==> id in done * Elements(RecordIDs(records));
    assert Elements(RecordIDs(records)) !! done;
    assert forall id :: id in cards - listed <==> id in cards && id !in listed;
    if cards - listed != map[] {
      var id :| id in cards - listed;
    }
  }

  /** The state of the baseline loop: what it has accounted for is struck from byID. */
  ghost predicate Progress(
    byID: map<string, Card>, done: set<string>, records: seq<Record>, baseline: seq<Record>, n: nat,
    cards: map<string, Card>, inventory: Inventory)
    requires n <= |baseline|
  {
    && FreshRecords(baseline, n) && Seen(done, baseline, n)
    && done * Elements(RecordIDs(records)) == {} && done <= cards.Keys
    && byID == cards - (Elements(RecordIDs(records)) + done)
    && forall a | 0 <= a < n :: AssociationFormed(baseline[a], cards) && AssociationBacked(baseline[a], inventory)
  }

  ghost predicate Acceptable(r: Record, taken: set<string>, cards: map<string, Card>, inventory: Inventory) {
    r.oracleID !in taken && AssociationFormed(r, cards) && AssociationBacked(r, inventory)
  }

  lemma ProgressStep(
    byID: map<string, Card>, done: set<string>, records: seq<Record>, baseline: seq<Record>, n: nat,
    cards: map<string, Card>, inventory: Inventory)
    requires n < |baseline| && Progress(byID, done, records, baseline, n, cards, inventory)
    ensures Acceptable(baseline[n], Elements(RecordIDs(records)) + done, cards, inventory) ==>
              Progress(byID - {baseline[n].oracleID}, done + {baseline[n].oracleID}, records, baseline, n + 1, cards, inventory)
    ensures !Acceptable(baseline[n], Elements(RecordIDs(records)) + done, cards, inventory) ==>
              !(BaselineSound(baseline, cards, inventory) && Partition(records, baseline, cards))
  {
    hide AssociationBacked, Partition, PolicySound;
    var id, listed := baseline[n].oracleID, Elements(RecordIDs(records));
    if id in listed + done {
      AccountedTwice(records, baseline, cards, n, done);
    } else if Acceptable(baseline[n], listed + done, cards, inventory) {
      SeenStep(done, baseline, n);
      assert byID - {id} == cards - (listed + (done + {id}));
    }
  }

  lemma ProgressEnd(
    byID: map<string, Card>, done: set<string>, records: seq<Record>, baseline: seq<Record>, cards: map<string, Card>,
    inventory: Inventory)
    requires FreshRecords(records, |records|) && Elements(RecordIDs(records)) <= cards.Keys
    requires Progress(byID, done, records, baseline, |baseline|, cards, inventory)
    ensures |byID| == 0 <==> BaselineSound(baseline, cards, inventory) && Partition(records, baseline, cards)
  {
    hide AssociationFormed, AssociationBacked, Partition;
    LeftOver(records, baseline, cards, done);
    assert |byID| == 0 <==> byID == map[];
  }

  /** The baseline loop, and the final test that no corpus identity is left over. */
  method CheckBaseline(
    baseline: seq<Record>, ghost records: seq<Record>, remaining: map<string, Card>, facts: Facts,
    ghost cards: map<string, Card>, ghost inventory: Inventory)
    returns (outcome: Outcome)
    requires Describes(facts, inventory)
    requires FreshRecords(records, |records|)
    requires remaining == cards - Elements(RecordIDs(records))
    requires Elements(RecordIDs(records)) <= cards.Keys
    ensures outcome.Pass? <==> BaselineSound(baseline, cards, inventory) && Partition(records, baseline, cards)
  {
    hide Acceptable, BaselineSound, Partition, Describes;
    var byID := remaining;
    ghost var done: set<string> := {};
    assert Elements(RecordIDs(records)) + done == Elements(RecordIDs(records));
    for i := 0 to |baseline|
      invariant Progress(byID, done, records, baseline, i, cards, inventory)
    {
      hide Progress;
      var r := baseline[i];
      ProgressStep(byID, done, records, baseline, i, cards, inventory);
      outcome := CheckAssociation(r, byID, facts, cards, inventory, Elements(RecordIDs(records)) + done);
      if outcome.Fail? {
        return outcome;
      }
      byID := byID - {r.oracleID};
      done := done + {r.oracleID};
    }
    ProgressEnd(byID, done, records, baseline, cards, inventory);
    if |byID| != 0 {
      return Fail("unaccounted corpus");
    }
    return Pass;
  }

  /** Every batch member was struck from the table exactly when every member has a record. */
  lemma MissingMembers(records: seq<Record>, batches: seq<Batch>, table: map<string, Batch>, members: map<string, string>)
    requires Tables(table, members, batches, |batches|)
    ensures members - Elements(RecordIDs(records)) == map[] <==>
              forall k, id | 0 <= k < |batches| && id in batches[k].oracleIDs :: id in RecordIDs(records)
  {
    var rest := members - Elements(RecordIDs(records));
    assert forall id :: id in rest <==> id in members && id !in RecordIDs(records);
    if rest != map[] {
      var id :| id in rest;
      var k :| 0 <= k < |batches| && id in batches[k].oracleIDs;
    }
  }

  /** The partial-claim loop. */
  method CheckWholeClaim(records: seq<Record>, activeBatch: string) returns (outcome: Outcome)
    requires exists owner :: Active(records, |records|, activeBatch, owner)
    requires ClaimsAgree(records, |records|)
    ensures outcome.Pass? <==> SingleClaim(records)
  {
    if activeBatch != "" {
      for i := 0 to |records|
        invariant forall a | 0 <= a < i && records[a].batch == activeBatch :: records[a].status.Claimed?
      {
        if records[i].batch == activeBatch && records[i].status != Claimed {
          return Fail("partially claimed batch");
        }
      }
    }
    return Pass;
  }

  /** The invariant, told in the order the loops decide it. */
  lemma ValidPieces(q: Manifest, cards: map<string, Card>, inventory: Inventory)
    ensures ValidOver(q, cards, inventory) <==>
              && RetiredSound(q.retired, cards)
              && BatchesSound(q.batches, q.retired)
              && RecordsPrefixSound(q.records, q.batches, cards, inventory, |q.records|)
              && (forall k, id | 0 <= k < |q.batches| && id in q.batches[k].oracleIDs :: id in RecordIDs(q.records))
              && SingleClaim(q.records)
              && BaselineSound(q.baseline, cards, inventory) && Partition(q.records, q.baseline, cards)
  {
    hide RetiredSound, BatchesSound, RecordSound, MemberSound, BaselineSound;
    PartitionForms(q.records, q.baseline, cards);
    FreshIsDistinct(q.records);
  }

  method Validate(queue: Manifest, corpus: seq<Card>, inventory: Inventory) returns (outcome: Outcome)
    ensures outcome.Pass? <==> Valid(queue, corpus, inventory)
  {
    var byID;
    outcome, byID := IndexCorpus(corpus);
    if outcome.Fail? {
      return;
    }
    outcome := ValidateOver(queue, byID, inventory);
    if outcome.Fail? && Valid(queue, corpus, inventory) {
      var cards :| Indexes(cards, corpus) && ValidOver(queue, cards, inventory);
      IndexIsUnique(cards, byID, corpus);
    }
  }

  /** The body of validate after the corpus is indexed. */
  method ValidateOver(queue: Manifest, cards: map<string, Card>, inventory: Inventory) returns (outcome: Outcome)
    ensures outcome.Pass? <==> ValidOver(queue, cards, inventory)
  {
    hide Describes, BatchesSound, RetiredSound, BaselineSound, RecordSound, Partition, MemberSound, SingleClaim, ValidOver;
    ValidPieces(queue, cards, inventory);
    var facts := ReadInventory(inventory);
    var retiredIDs;
    outcome, retiredIDs := CheckRetired(queue.retired, cards);
    if outcome.Fail? {
      return;
    }
    var table, allMembers;
    outcome, table, allMembers := CheckBatches(queue.batches, queue.retired, retiredIDs);
    if outcome.Fail? {
      return;
    }
    var byID, members, activeBatch;
    outcome, byID, members, activeBatch :=
      CheckRecords(queue.records, queue.batches, cards, table, allMembers, facts, inventory);
    if outcome.Fail? {
      return;
    }
    MissingMembers(queue.records, queue.batches, table, allMembers);
    if |members| != 0 {
      return Fail("missing batch records");
    }
    outcome := CheckWholeClaim(queue.records, activeBatch);
    if outcome.Fail? {
      return;
    }
    outcome := CheckBaseline(queue.baseline, queue.records, byID, facts, cards, inventory);
  }
}
