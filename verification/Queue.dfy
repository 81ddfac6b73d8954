/** The card queue's saved manifest, the pinned corpus and the production inventory, as values. */
module Queue {
  import opened Collections
  import opened Options
  import opened Text

  /** A Go error, or none. */
  datatype Outcome = Pass | Fail(message: string)

  /** The status string of a record; an unrecognised string is kept as it was read. */
  datatype Status =
    | NoStatus
    | Unclaimed
    | Claimed
    | Blocked
    | ImplementedVerified
    | InstalledCompiled
    | Excluded
    | Unrecognised(text: string)

  datatype Evidence = Evidence(issue: int, runtimeRevision: string, evidence: string)

  datatype Reassessment = Reassessment(prerequisite: Evidence, reason: string)

  datatype Record = Record(
    oracleID: string,
    revision: string,
    name: string,
    status: Status,
    family: string,
    decks: int,
    batch: string,
    owner: string,
    blocker: int,
    reason: string,
    evidence: string,
    keys: seq<string>,
    reassessments: seq<Reassessment>)

  datatype Batch = Batch(
    id: string,
    family: string,
    oracleIDs: seq<string>,
    prerequisites: seq<int>,
    operations: seq<string>,
    review: string,
    evidence: seq<Evidence>)

  /** The saved value of a manifest; the fields no operation touches are left out. */
  datatype Manifest = Manifest(
    corpusSHA256: string,
    batches: seq<Batch>,
    retired: seq<Batch>,
    records: seq<Record>,
    baseline: seq<Record>,
    corrected: seq<Record>,
    rules: RulesEvidence)

  /** A JSON value of one source field: a string, or anything else. */
  datatype Json = Text(text: string) | OtherJson

  type Source = map<string, Json>

  /** The saved rules evidence: absent, not a JSON object, or an object with an optional list of card sources. */
  datatype RulesEvidence =
    | NoRules
    | MalformedRules
    | Rules(sources: Option<seq<Source>>, malformedSources: bool)

  predicate TokenLayout(layout: string) {
    layout == "token" || layout == "double_faced_token"
  }

  /** A corpus card with the verdicts of the corpus policy on it. */
  datatype Card = Card(
    id: string,
    oracleID: string,
    name: string,
    layout: string,
    disowned: bool,
    exclusion: Option<string>)
  {
    predicate IsToken() {
      TokenLayout(layout)
    }
  }

  /** One exact corpus identity of the inventory; production is the key of its exact registration. */
  datatype Listing = Listing(
    oracleID: string,
    compilerAccepted: bool,
    candidates: seq<string>,
    production: Option<string>)

  datatype Support = Support(
    key: string,
    oracleID: string,
    loadable: bool,
    behaviorVerified: bool,
    verification: string)

  datatype Inventory = Inventory(
    backlog: seq<Listing>,
    corpus: seq<Listing>,
    production: seq<Support>)

  const COMPILED_INSTALLATION_PATH := "testdata/card-preservation/installed-compiler.json"

  // ----- what the inventory says about an identity -----

  function Backlog(inventory: Inventory): set<string> {
    set r | r in inventory.backlog :: r.oracleID
  }

  predicate Exact(s: Support) {
    s.oracleID != "" && s.loadable && s.behaviorVerified
  }

  function VerifiedIDs(inventory: Inventory): set<string> {
    set s | s in inventory.production && Exact(s) :: s.oracleID
  }

  /** The last listing of an identity decides, as later map writes replace earlier ones. */
  function Compiled(listings: seq<Listing>, id: string): bool {
    if listings == [] then false
    else
      var last := listings[|listings| - 1];
      if last.oracleID == id then last.compilerAccepted else Compiled(listings[..|listings| - 1], id)
  }

  function Associations(listings: seq<Listing>, id: string): seq<string> {
    if listings == [] then []
    else
      var last := listings[|listings| - 1];
      if last.oracleID == id then last.candidates + (if last.production.Some? then [last.production.value] else [])
      else Associations(listings[..|listings| - 1], id)
  }

  function Loadable(production: seq<Support>, key: string): bool {
    if production == [] then false
    else
      var last := production[|production| - 1];
      if last.key == key then last.loadable else Loadable(production[..|production| - 1], key)
  }

  function Verification(production: seq<Support>, id: string): string {
    if production == [] then ""
    else
      var last := production[|production| - 1];
      if Exact(last) && last.oracleID == id then last.verification
      else Verification(production[..|production| - 1], id)
  }

  /** Whatever evidence text transition finds comes from a support that validate counts as verified. */
  lemma {:induction false} VerificationIsVerified(production: seq<Support>, id: string)
    requires Verification(production, id) != ""
    ensures exists s | s in production :: Exact(s) && s.oracleID == id
  {
    var last := production[|production| - 1];
    if Exact(last) && last.oracleID == id {
    } else {
      VerificationIsVerified(production[..|production| - 1], id);
    }
  }

  // ----- the well-formedness of one batch -----

  predicate ValidEvidence(e: Evidence) {
    e.issue > 0 && !IsBlank(e.runtimeRevision) && !IsBlank(e.evidence)
  }

  function Issues(evidence: seq<Evidence>): seq<int> {
    seq(|evidence|, i requires 0 <= i < |evidence| => evidence[i].issue)
  }

  ghost predicate EvidenceFits(evidence: seq<Evidence>, prerequisites: seq<int>) {
    && Distinct(Issues(evidence))
    && forall i | 0 <= i < |evidence| :: ValidEvidence(evidence[i]) && evidence[i].issue in prerequisites
  }

  ghost predicate BatchWellFormed(b: Batch) {
    && !IsBlank(b.id)
    && !IsBlank(b.family)
    && 3 <= |b.oracleIDs| <= 5
    && b.operations != []
    && Distinct(b.oracleIDs)
    && (forall i | 0 <= i < |b.oracleIDs| :: !IsBlank(b.oracleIDs[i]))
    && Distinct(b.prerequisites)
    && (forall i | 0 <= i < |b.prerequisites| :: b.prerequisites[i] > 0)
    && (forall i | 0 <= i < |b.operations| :: !IsBlank(b.operations[i]))
    && EvidenceFits(b.evidence, b.prerequisites)
  }

  // ----- the corpus as an index -----

  predicate Tracked(c: Card) {
    !c.disowned
  }

  ghost predicate CorpusPrefixWellFormed(corpus: seq<Card>, n: nat)
    requires n <= |corpus|
  {
    && (forall i | 0 <= i < n && Tracked(corpus[i]) :: corpus[i].id != "" && corpus[i].oracleID != "")
    && (forall i, j | 0 <= i < j < n && Tracked(corpus[i]) && Tracked(corpus[j]) ::
          corpus[i].oracleID != corpus[j].oracleID)
  }

  /** The index holds exactly the first n cards of the corpus that are not disowned. */
  ghost predicate IndexesPrefix(cards: map<string, Card>, corpus: seq<Card>, n: nat)
    requires n <= |corpus|
  {
    && (forall i | 0 <= i < n && Tracked(corpus[i]) ::
          corpus[i].oracleID in cards && cards[corpus[i].oracleID] == corpus[i])
    && (forall id | id in cards :: exists i | 0 <= i < n :: Tracked(corpus[i]) && corpus[i].oracleID == id)
  }

  ghost predicate CorpusWellFormed(corpus: seq<Card>) {
    CorpusPrefixWellFormed(corpus, |corpus|)
  }

  ghost predicate Indexes(cards: map<string, Card>, corpus: seq<Card>) {
    IndexesPrefix(cards, corpus, |corpus|)
  }

  lemma IndexIsUnique(a: map<string, Card>, b: map<string, Card>, corpus: seq<Card>)
    requires Indexes(a, corpus) && Indexes(b, corpus)
    ensures a == b
  {
    forall id ensures id in a <==> id in b {
    }
    assert a.Keys == b.Keys;
    forall id | id in a ensures a[id] == b[id] {
    }
  }
}
