/** What evidence, corpus and inventory say, on their entries alone: the facts that the lookups of the queue stand for. */
module QueueFacts {
  import opened Queue
  import opened Text

  ghost predicate InBacklog(inventory: Inventory, id: string) {
    exists listing | listing in inventory.backlog :: listing.oracleID == id
  }

  /** The last corpus listing of an identity is accepted by the compiler. */
  ghost predicate LastAccepted(listings: seq<Listing>, id: string) {
    exists k | 0 <= k < |listings| ::
      && listings[k].oracleID == id && listings[k].compilerAccepted
      && forall j | k < j < |listings| :: listings[j].oracleID != id
  }

  lemma {:induction false} CompiledMeans(listings: seq<Listing>, id: string)
    ensures Compiled(listings, id) <==> LastAccepted(listings, id)
  {
    if listings != [] {
      var front, last := listings[..|listings| - 1], listings[|listings| - 1];
      CompiledMeans(front, id);
      if last.oracleID == id {
        assert listings[|front|] == last;
      } else {
        assert forall k | 0 <= k < |front| :: listings[k] == front[k];
      }
    }
  }

  /** The keys an association is saved with: those of the last corpus listing of its identity. */
  ghost predicate KeysOf(listings: seq<Listing>, id: string, keys: seq<string>) {
    if exists listing | listing in listings :: listing.oracleID == id then
      exists k | 0 <= k < |listings| ::
        && listings[k].oracleID == id
        && keys == listings[k].candidates + (if listings[k].production.Some? then [listings[k].production.value] else [])
        && forall j | k < j < |listings| :: listings[j].oracleID != id
    else keys == []
  }

  lemma {:induction false} AssociationsMean(listings: seq<Listing>, id: string)
    ensures KeysOf(listings, id, Associations(listings, id))
  {
    if listings != [] {
      var front, last := listings[..|listings| - 1], listings[|listings| - 1];
      AssociationsMean(front, id);
      assert listings == front + [last];
      if last.oracleID == id {
        assert listings[|front|] == last && last in listings;
      } else {
        assert forall k | 0 <= k < |front| :: listings[k] == front[k];
        assert forall listing | listing in listings && listing.oracleID == id :: listing in front;
      }
    }
  }

  /** The last support of a key is loadable. */
  ghost predicate LastLoadable(production: seq<Support>, key: string) {
    exists k | 0 <= k < |production| ::
      && production[k].key == key && production[k].loadable
      && forall j | k < j < |production| :: production[j].key != key
  }

  lemma {:induction false} LoadableMeans(production: seq<Support>, key: string)
    ensures Loadable(production, key) <==> LastLoadable(production, key)
  {
    if production != [] {
      var front, last := production[..|production| - 1], production[|production| - 1];
      LoadableMeans(front, key);
      if last.key == key {
        assert production[|front|] == last;
      } else {
        assert forall k | 0 <= k < |front| :: production[k] == front[k];
      }
    }
  }

  ghost predicate Vouches(s: Support, id: string) {
    s.oracleID == id && id != "" && s.loadable && s.behaviorVerified
  }

  /** The last support that vouches for an identity has this evidence text. */
  ghost predicate LastWord(production: seq<Support>, id: string, text: string) {
    exists k | 0 <= k < |production| ::
      && Vouches(production[k], id) && production[k].verification == text
      && forall j | k < j < |production| :: !Vouches(production[j], id)
  }

  lemma {:induction false} VerificationMeans(production: seq<Support>, id: string)
    ensures if exists s | s in production :: Vouches(s, id) then LastWord(production, id, Verification(production, id))
            else Verification(production, id) == ""
  {
    if production != [] {
      var front, last := production[..|production| - 1], production[|production| - 1];
      assert production == front + [last];
      VerificationMeans(front, id);
      if Vouches(last, id) {
        assert production[|front|] == last;
      } else if s :| s in front && Vouches(s, id) {
        var k :| 0 <= k < |front| && Vouches(front[k], id) && front[k].verification == Verification(front, id)
                 && forall j | k < j < |front| :: !Vouches(front[j], id);
        assert production[k] == front[k];
      }
    }
  }

  lemma LastWordIs(production: seq<Support>, id: string, text: string)
    requires text != ""
    ensures LastWord(production, id, text) <==> Verification(production, id) == text
  {
    VerificationMeans(production, id);
    assert forall k | 0 <= k < |production| :: production[k] in production;
  }

  lemma BacklogMeans(inventory: Inventory, id: string)
    ensures id in Backlog(inventory) <==> InBacklog(inventory, id)
    ensures id in VerifiedIDs(inventory) <==> exists s | s in inventory.production :: Vouches(s, id)
  {
  }

  /** Evidence that names its issue, a runtime revision and a scenario. */
  predicate Complete(e: Evidence) {
    e.issue > 0 && Trim(e.runtimeRevision) != "" && Trim(e.evidence) != ""
  }

  lemma CompleteMeans(e: Evidence)
    ensures ValidEvidence(e) <==> Complete(e)
  {
  }

  /** The corpus index knows exactly the cards that are not disowned. */
  lemma IndexMeans(cards: map<string, Card>, corpus: seq<Card>)
    requires CorpusWellFormed(corpus)
    ensures Indexes(cards, corpus) <==>
              forall id :: if exists card | card in corpus :: !card.disowned && card.oracleID == id then
                             id in cards && cards[id] in corpus && !cards[id].disowned && cards[id].oracleID == id
                           else id !in cards
  {
    assert forall i | 0 <= i < |corpus| :: corpus[i] in corpus;
    forall card | card in corpus ensures exists i | 0 <= i < |corpus| :: corpus[i] == card {
    }
  }
}
