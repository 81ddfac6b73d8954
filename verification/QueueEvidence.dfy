/** Binding pinned corpus metadata to the saved rules evidence when a batch is verified. */
module QueueEvidence {
  import opened Collections
  import opened Options
  import opened Queue
  import opened QueueInvariant
  import opened QueueSteps

  /** The metadata of one corpus card; the text is represented by its hash. */
  datatype Metadata = Metadata(oracleID: string, revision: string, name: string, textSHA256: string, rulingsURI: string)

  function MetadataIDs(metadata: seq<Metadata>): seq<string> {
    seq(|metadata|, i requires 0 <= i < |metadata| => metadata[i].oracleID)
  }

  ghost predicate MetadataFormed(metadata: seq<Metadata>) {
    "" !in MetadataIDs(metadata) && Distinct(MetadataIDs(metadata))
  }

  function MetadataOf(metadata: seq<Metadata>, id: string): Option<Metadata> {
    if metadata == [] then None
    else if metadata[0].oracleID == id then Some(metadata[0])
    else MetadataOf(metadata[1..], id)
  }

  predicate Identified(source: Source) {
    "oracle_id" in source && source["oracle_id"].Text? && source["oracle_id"].text != ""
  }

  function SourceID(source: Source): string
    requires Identified(source)
  {
    source["oracle_id"].text
  }

  ghost predicate SourcesFormed(sources: seq<Source>) {
    && (forall i | 0 <= i < |sources| :: Identified(sources[i]))
    && (forall i, j | 0 <= i < j < |sources| :: SourceID(sources[i]) != SourceID(sources[j]))
  }

  /** The sources saved in the rules evidence, or None when they cannot be decoded. A JSON null reads as "". */
  function SavedSources(rules: RulesEvidence): Option<seq<Source>> {
    match rules
    case NoRules => Some([])
    case MalformedRules => None
    case Rules(sources, malformed) => if malformed then None else if sources.None? then Some([]) else sources
  }

  function Fields(card: Metadata): map<string, string> {
    map[
      "oracle_id" := card.oracleID,
      "revision" := card.revision,
      "name" := card.name,
      "oracle_text_sha256" := card.textSHA256,
      "rulings_uri" := card.rulingsURI
    ]
  }

  function Texts(fields: map<string, string>): Source {
    map f | f in fields :: Text(fields[f])
  }

  /** A source may be bound when it contradicts none of the fields. */
  predicate Bindable(source: Source, fields: map<string, string>) {
    forall f | f in fields && f in source :: source[f] == Text(fields[f])
  }

  predicate MetadataFits(r: Record, metadata: seq<Metadata>) {
    var card := MetadataOf(metadata, r.oracleID);
    card.Some? && card.value.revision == r.revision && card.value.name == r.name && card.value.rulingsURI != ""
  }

  /** The index of an identity among the saved sources, or their number. */
  function SourceIndex(sources: seq<Source>, id: string): (k: nat)
    ensures k <= |sources|
    ensures k < |sources| ==> Identified(sources[k]) && SourceID(sources[k]) == id
    ensures forall j | 0 <= j < k && Identified(sources[j]) :: SourceID(sources[j]) != id
  {
    if sources == [] then 0
    else if Identified(sources[0]) && SourceID(sources[0]) == id then 0
    else 1 + SourceIndex(sources[1..], id)
  }

  /** Bind one verified record: extend its saved source, or append a new one. */
  function BindRecord(saved: seq<Source>, sources: seq<Source>, r: Record, metadata: seq<Metadata>): (bound: Option<seq<Source>>)
    requires |saved| <= |sources|
    ensures bound.Some? ==> |sources| <= |bound.value|
  {
    if !MetadataFits(r, metadata) then None
    else
      var fields := Fields(MetadataOf(metadata, r.oracleID).value);
      var k := SourceIndex(saved, r.oracleID);
      if k == |saved| then Some(sources + [Texts(fields)])
      else if Bindable(sources[k], fields) then Some(sources[k := sources[k] + Texts(fields)])
      else None
  }

  /** Bind the members of a batch among the first n records. */
  function BindUpTo(saved: seq<Source>, records: seq<Record>, batchID: string, metadata: seq<Metadata>, n: nat)
    : (bound: Option<seq<Source>>)
    requires n <= |records|
    ensures bound.Some? ==> |saved| <= |bound.value|
  {
    if n == 0 then Some(saved)
    else
      var before := BindUpTo(saved, records, batchID, metadata, n - 1);
      if before.None? || records[n - 1].batch != batchID then before
      else BindRecord(saved, before.value, records[n - 1], metadata)
  }

  lemma {:induction false} MetadataOfMeans(metadata: seq<Metadata>, id: string)
    ensures var card := MetadataOf(metadata, id);
            card.Some? ==> card.value.oracleID == id && card.value in metadata
  {
    if metadata != [] && metadata[0].oracleID != id {
      MetadataOfMeans(metadata[1..], id);
    }
  }

  // ----- what binding promises -----

  ghost predicate Extends(bigger: Source, source: Source) {
    forall f | f in source :: f in bigger && bigger[f] == source[f]
  }

  ghost predicate HoldsFields(source: Source, fields: map<string, string>) {
    forall f | f in fields :: f in source && source[f] == Text(fields[f])
  }

  /** Binding only adds: no saved field of any source is dropped or changed. */
  lemma {:induction false} BindingOnlyAdds(saved: seq<Source>, records: seq<Record>, batchID: string, metadata: seq<Metadata>, n: nat)
    requires n <= |records|
    requires BindUpTo(saved, records, batchID, metadata, n).Some?
    ensures var bound := BindUpTo(saved, records, batchID, metadata, n).value;
            forall i | 0 <= i < |saved| :: Extends(bound[i], saved[i])
  {
    if n > 0 {
      BindingOnlyAdds(saved, records, batchID, metadata, n - 1);
    }
  }

  /** Every member of the batch ends up with a source that holds its five pinned fields. */
  lemma {:induction false} BindingBindsMembers(
    saved: seq<Source>, records: seq<Record>, batchID: string, metadata: seq<Metadata>, n: nat)
    requires n <= |records|
    requires BindUpTo(saved, records, batchID, metadata, n).Some?
    ensures var bound := BindUpTo(saved, records, batchID, metadata, n).value;
            forall i | 0 <= i < n && records[i].batch == batchID ::
              && MetadataFits(records[i], metadata)
              && exists j | 0 <= j < |bound| :: HoldsFields(bound[j], Fields(MetadataOf(metadata, records[i].oracleID).value))
  {
    if n > 0 {
      BindingBindsMembers(saved, records, batchID, metadata, n - 1);
      var before := BindUpTo(saved, records, batchID, metadata, n - 1).value;
      var bound := BindUpTo(saved, records, batchID, metadata, n).value;
      forall i | 0 <= i < n && records[i].batch == batchID
        ensures MetadataFits(records[i], metadata)
        ensures exists j | 0 <= j < |bound| :: HoldsFields(bound[j], Fields(MetadataOf(metadata, records[i].oracleID).value))
      {
        var fields := Fields(MetadataOf(metadata, records[i].oracleID).value);
        if i < n - 1 {
          var j :| 0 <= j < |before| && HoldsFields(before[j], fields);
          StepExtends(saved, before, records, batchID, metadata, n);
          assert HoldsFields(bound[j], fields);
        } else {
          var k := SourceIndex(saved, records[i].oracleID);
          assert HoldsFields(bound[if k == |saved| then |before| else k], fields);
        }
      }
    }
  }

  lemma StepExtends(
    saved: seq<Source>, before: seq<Source>, records: seq<Record>, batchID: string, metadata: seq<Metadata>, n: nat)
    requires 0 < n <= |records| && BindUpTo(saved, records, batchID, metadata, n - 1) == Some(before)
    requires BindUpTo(saved, records, batchID, metadata, n).Some?
    ensures var bound := BindUpTo(saved, records, batchID, metadata, n).value;
            |before| <= |bound| && forall j | 0 <= j < |before| :: Extends(bound[j], before[j])
  {
  }

  /** The source a record would be bound to before any binding. */
  function SavedFor(saved: seq<Source>, id: string): Source {
    var k := SourceIndex(saved, id);
    if k < |saved| then saved[k] else map[]
  }

  ghost predicate MemberBindable(saved: seq<Source>, r: Record, metadata: seq<Metadata>) {
    MetadataFits(r, metadata) && Bindable(SavedFor(saved, r.oracleID), Fields(MetadataOf(metadata, r.oracleID).value))
  }

  ghost predicate MembersBindable(saved: seq<Source>, records: seq<Record>, batchID: string, metadata: seq<Metadata>, n: nat)
    requires n <= |records|
  {
    forall i | 0 <= i < n && records[i].batch == batchID :: MemberBindable(saved, records[i], metadata)
  }

  /** Sources of identities not bound yet are still the saved ones. */
  ghost predicate UntouchedElsewhere(
    saved: seq<Source>, bound: seq<Source>, records: seq<Record>, batchID: string, n: nat)
    requires n <= |records|
  {
    && |saved| <= |bound|
    && forall k | 0 <= k < |saved| ::
         (forall i | 0 <= i < n && records[i].batch == batchID :: SourceIndex(saved, records[i].oracleID) != k)
         ==> bound[k] == saved[k]
  }

  /**
   * On records without repetition, binding succeeds exactly when each member has pinned metadata that contradicts
   * nothing in its own saved source; sources of other identities stay as they are.
   */
  lemma {:induction false} BindingSucceeds(
    saved: seq<Source>, records: seq<Record>, batchID: string, metadata: seq<Metadata>, n: nat)
    requires n <= |records| && Distinct(RecordIDs(records))
    ensures BindUpTo(saved, records, batchID, metadata, n).Some? <==> MembersBindable(saved, records, batchID, metadata, n)
    ensures BindUpTo(saved, records, batchID, metadata, n).Some? ==>
              UntouchedElsewhere(saved, BindUpTo(saved, records, batchID, metadata, n).value, records, batchID, n)
  {
    hide SourceIndex, MembersBindable, MemberBindable, UntouchedElsewhere, BindRecord, Distinct;
    if n == 0 {
      NothingBound(saved, records, batchID, metadata);
    } else {
      BindingSucceeds(saved, records, batchID, metadata, n - 1);
      var before := BindUpTo(saved, records, batchID, metadata, n - 1);
      var r := records[n - 1];
      BindableStep(saved, records, batchID, metadata, n);
      if before.Some? && r.batch == batchID {
        OtherSources(saved, records, n);
        BindStep(saved, before.value, records, batchID, metadata, n);
      } else if before.Some? {
        UntouchedStep(saved, before.value, records, batchID, n);
      }
    }
  }

  lemma NothingBound(saved: seq<Source>, records: seq<Record>, batchID: string, metadata: seq<Metadata>)
    ensures MembersBindable(saved, records, batchID, metadata, 0) && UntouchedElsewhere(saved, saved, records, batchID, 0)
  {
  }

  lemma BindableStep(saved: seq<Source>, records: seq<Record>, batchID: string, metadata: seq<Metadata>, n: nat)
    requires 0 < n <= |records|
    ensures MembersBindable(saved, records, batchID, metadata, n) <==>
              && MembersBindable(saved, records, batchID, metadata, n - 1)
              && (records[n - 1].batch == batchID ==> MemberBindable(saved, records[n - 1], metadata))
  {
    hide MemberBindable;
  }

  lemma UntouchedStep(saved: seq<Source>, bound: seq<Source>, records: seq<Record>, batchID: string, n: nat)
    requires 0 < n <= |records| && records[n - 1].batch != batchID
    requires UntouchedElsewhere(saved, bound, records, batchID, n - 1)
    ensures UntouchedElsewhere(saved, bound, records, batchID, n)
  {
  }

  /** Distinct records share no saved source. */
  lemma OtherSources(saved: seq<Source>, records: seq<Record>, n: nat)
    requires 0 < n <= |records| && Distinct(RecordIDs(records))
    ensures forall i | 0 <= i < n - 1 ::
              SourceIndex(saved, records[i].oracleID) == SourceIndex(saved, records[n - 1].oracleID) ==>
                SourceIndex(saved, records[n - 1].oracleID) == |saved|
  {
    hide SourceIndex;
    forall i | 0 <= i < n - 1 ensures records[i].oracleID != records[n - 1].oracleID {
      assert RecordIDs(records)[i] != RecordIDs(records)[n - 1];
    }
  }

  lemma BindStep(
    saved: seq<Source>, before: seq<Source>, records: seq<Record>, batchID: string, metadata: seq<Metadata>, n: nat)
    requires 0 < n <= |records| && records[n - 1].batch == batchID
    requires UntouchedElsewhere(saved, before, records, batchID, n - 1)
    requires forall i | 0 <= i < n - 1 ::
               SourceIndex(saved, records[i].oracleID) == SourceIndex(saved, records[n - 1].oracleID) ==>
                 SourceIndex(saved, records[n - 1].oracleID) == |saved|
    ensures BindRecord(saved, before, records[n - 1], metadata).Some? <==> MemberBindable(saved, records[n - 1], metadata)
    ensures BindRecord(saved, before, records[n - 1], metadata).Some? ==>
              UntouchedElsewhere(saved, BindRecord(saved, before, records[n - 1], metadata).value, records, batchID, n)
  {
    var k := SourceIndex(saved, records[n - 1].oracleID);
    if k < |saved| {
      assert before[k] == saved[k];
    }
  }

  // ----- verifyBatch as a whole -----

  function VerifyMove(batchID: string, owner: string): Move {
    Move(Verify, batchID, owner, 0, "")
  }

  ghost predicate EvidenceBinds(q: Manifest, records: seq<Record>, batchID: string, metadata: Option<seq<Metadata>>) {
    && metadata.Some? && MetadataFormed(metadata.value)
    && SavedSources(q.rules).Some? && SourcesFormed(SavedSources(q.rules).value)
    && BindUpTo(SavedSources(q.rules).value, records, batchID, metadata.value, |records|).Some?
  }

  ghost predicate VerifyAllowed(
    q: Manifest, batchID: string, owner: string, inventory: Inventory, corpusHash: string, metadata: Option<seq<Metadata>>)
  {
    && corpusHash == q.corpusSHA256
    && MoveAllowed(q, VerifyMove(batchID, owner), inventory)
    && EvidenceBinds(q, AfterMove(q, VerifyMove(batchID, owner), inventory).records, batchID, metadata)
  }

  ghost function AfterVerify(q: Manifest, batchID: string, owner: string, inventory: Inventory, metadata: seq<Metadata>): Manifest
    requires EvidenceBinds(q, AfterMove(q, VerifyMove(batchID, owner), inventory).records, batchID, Some(metadata))
  {
    var moved := AfterMove(q, VerifyMove(batchID, owner), inventory);
    var saved := SavedSources(q.rules).value;
    moved.(rules := Rules(BindUpTo(saved, moved.records, batchID, metadata, |moved.records|), false))
  }

  // ----- what verification demands and saves, field by field -----

  /** The pinned metadata of a record: its identity, revision and name, with an address of rulings. */
  predicate Pinned(r: Record, card: Metadata) {
    card.oracleID == r.oracleID && card.revision == r.revision && card.name == r.name && card.rulingsURI != ""
  }

  predicate Saves(s: Source, field: string, text: string) {
    field in s && s[field] == Text(text)
  }

  /** All five fields, each under its own name. */
  predicate Carries(s: Source, card: Metadata) {
    && Saves(s, "oracle_id", card.oracleID) && Saves(s, "revision", card.revision) && Saves(s, "name", card.name)
    && Saves(s, "oracle_text_sha256", card.textSHA256) && Saves(s, "rulings_uri", card.rulingsURI)
  }

  /** None of the five fields is saved with another value. */
  predicate Agrees(s: Source, card: Metadata) {
    && ("oracle_id" in s ==> s["oracle_id"] == Text(card.oracleID))
    && ("revision" in s ==> s["revision"] == Text(card.revision))
    && ("name" in s ==> s["name"] == Text(card.name))
    && ("oracle_text_sha256" in s ==> s["oracle_text_sha256"] == Text(card.textSHA256))
    && ("rulings_uri" in s ==> s["rulings_uri"] == Text(card.rulingsURI))
  }

  const FIELDS := {"oracle_id", "revision", "name", "oracle_text_sha256", "rulings_uri"}

  lemma FieldsMean(s: Source, card: Metadata)
    ensures HoldsFields(s, Fields(card)) <==> Carries(s, card)
    ensures Bindable(s, Fields(card)) <==> Agrees(s, card)
    ensures Texts(Fields(card)).Keys == FIELDS
  {
    var fields := Fields(card);
    assert fields.Keys == FIELDS;
    assert fields["oracle_id"] == card.oracleID && fields["revision"] == card.revision && fields["name"] == card.name
           && fields["oracle_text_sha256"] == card.textSHA256 && fields["rulings_uri"] == card.rulingsURI;
    hide Fields;
    assert Texts(fields).Keys == fields.Keys;
  }

  /** After a successful verification every member has a source with the five fields of its own metadata. */
  lemma VerifiedMembersAreBound(
    q: Manifest, batchID: string, owner: string, inventory: Inventory, corpusHash: string, metadata: seq<Metadata>, i: nat)
    requires VerifyAllowed(q, batchID, owner, inventory, corpusHash, Some(metadata)) && i < |q.records|
    ensures var q' := AfterVerify(q, batchID, owner, inventory, metadata);
            && q'.rules.Rules? && !q'.rules.malformedSources && q'.rules.sources.Some? && i < |q'.records|
            && (q'.records[i].batch == batchID ==>
                  exists j, k | 0 <= j < |q'.rules.sources.value| && 0 <= k < |metadata| ::
                    Pinned(q'.records[i], metadata[k]) && Carries(q'.rules.sources.value[j], metadata[k]))
  {
    hide MoveAllowed, AfterMove, HoldsFields, Carries, Fields;
    var saved, moved := SavedSources(q.rules).value, AfterMove(q, VerifyMove(batchID, owner), inventory);
    assert |moved.records| == |q.records| by {
      MoveKeepsLength(q, VerifyMove(batchID, owner), inventory);
    }
    var r := moved.records[i];
    if r.batch == batchID {
      BindingBindsMembers(saved, moved.records, batchID, metadata, |moved.records|);
      var bound := BindUpTo(saved, moved.records, batchID, metadata, |moved.records|).value;
      var card := MetadataOf(metadata, r.oracleID).value;
      var j :| 0 <= j < |bound| && HoldsFields(bound[j], Fields(card));
      FieldsMean(bound[j], card);
      MetadataOfMeans(metadata, r.oracleID);
      var k :| 0 <= k < |metadata| && metadata[k] == card;
      assert Pinned(r, metadata[k]) && Carries(bound[j], metadata[k]);
    }
  }

  lemma MoveKeepsLength(q: Manifest, m: Move, inventory: Inventory)
    ensures |AfterMove(q, m, inventory).records| == |q.records|
  {
  }

  // ----- when the evidence binds -----

  /** Every identity of the corpus metadata is named, and named once. */
  ghost predicate Unambiguous(metadata: seq<Metadata>) {
    && (forall card | card in metadata :: card.oracleID != "")
    && forall i, j | 0 <= i < j < |metadata| :: metadata[i].oracleID != metadata[j].oracleID
  }

  /** Every source names an identity of its own. */
  ghost predicate NamedApart(saved: seq<Source>) {
    && (forall s | s in saved :: exists id :: id != "" && Saves(s, "oracle_id", id))
    && forall i, j, id | 0 <= i < j < |saved| && Saves(saved[i], "oracle_id", id) :: !Saves(saved[j], "oracle_id", id)
  }

  /** The member's metadata is pinned and agrees with every source saved for it. */
  ghost predicate BoundBy(r: Record, saved: seq<Source>, card: Metadata) {
    Pinned(r, card) && forall s | s in saved && Saves(s, "oracle_id", r.oracleID) :: Agrees(s, card)
  }

  lemma MetadataFormedMeans(metadata: seq<Metadata>)
    ensures MetadataFormed(metadata) <==> Unambiguous(metadata)
  {
    assert forall i | 0 <= i < |metadata| :: MetadataIDs(metadata)[i] == metadata[i].oracleID;
    forall card | card in metadata && MetadataFormed(metadata) ensures card.oracleID != "" {
      var i :| 0 <= i < |metadata| && metadata[i] == card;
      assert MetadataIDs(metadata)[i] == card.oracleID;
    }
    assert forall i | 0 <= i < |metadata| :: metadata[i] in metadata;
  }

  lemma {:induction false} MetadataOfFinds(metadata: seq<Metadata>, k: nat)
    requires Unambiguous(metadata) && k < |metadata|
    ensures MetadataOf(metadata, metadata[k].oracleID) == Some(metadata[k])
  {
    if k > 0 {
      assert Unambiguous(metadata[1..]) by {
        assert forall i | 0 <= i < |metadata| - 1 :: metadata[1..][i] == metadata[i + 1];
      }
      MetadataOfFinds(metadata[1..], k - 1);
    }
  }

  lemma MemberBindableMeans(saved: seq<Source>, r: Record, metadata: seq<Metadata>)
    requires Unambiguous(metadata) && SourcesFormed(saved) && r.oracleID != ""
    ensures MemberBindable(saved, r, metadata) <==> exists card | card in metadata :: BoundBy(r, saved, card)
  {
    hide Agrees, Fields, Bindable, Unambiguous;
    forall card | card in metadata && card.oracleID == r.oracleID
      ensures MetadataOf(metadata, r.oracleID) == Some(card)
      ensures Bindable(SavedFor(saved, r.oracleID), Fields(card)) <==>
                forall s | s in saved && Saves(s, "oracle_id", r.oracleID) :: Agrees(s, card)
    {
      var k :| 0 <= k < |metadata| && metadata[k] == card;
      MetadataOfFinds(metadata, k);
      AgreesWithSaved(saved, r.oracleID, card);
    }
    MetadataOfMeans(metadata, r.oracleID);
  }

  lemma AgreesWithSaved(saved: seq<Source>, id: string, card: Metadata)
    requires SourcesFormed(saved) && id != ""
    ensures Bindable(SavedFor(saved, id), Fields(card)) <==> forall s | s in saved && Saves(s, "oracle_id", id) :: Agrees(s, card)
  {
    var k := SourceIndex(saved, id);
    FieldsMean(SavedFor(saved, id), card);
    hide Fields, Agrees, Bindable;
    forall s | s in saved && Saves(s, "oracle_id", id) ensures k < |saved| && s == saved[k] {
      var j :| 0 <= j < |saved| && saved[j] == s;
      assert Identified(saved[j]) && SourceID(saved[j]) == id;
    }
    if k < |saved| {
      assert saved[k] in saved && Saves(saved[k], "oracle_id", id);
    } else {
      assert Agrees(map[], card) by {
        NothingDisagrees(card);
      }
    }
  }

  lemma NothingDisagrees(card: Metadata)
    ensures Agrees(map[], card)
  {
  }

  /**
   * The evidence of a batch binds exactly when the corpus metadata is unambiguous, the saved sources name distinct
   * identities, and each member has pinned metadata that no source saved for it contradicts.
   */
  lemma EvidenceDemands(q: Manifest, records: seq<Record>, batchID: string, metadata: seq<Metadata>, saved: seq<Source>)
    requires Distinct(RecordIDs(records)) && (forall r | r in records :: r.oracleID != "")
    requires SavedSources(q.rules) == Some(saved)
    ensures EvidenceBinds(q, records, batchID, Some(metadata)) <==>
              && Unambiguous(metadata)
              && NamedApart(saved)
              && forall r | r in records && r.batch == batchID :: exists card | card in metadata :: BoundBy(r, saved, card)
  {
    MetadataFormedMeans(metadata);
    SourcesFormedMeans(saved);
    BindingSucceeds(saved, records, batchID, metadata, |records|);
    hide Unambiguous, MetadataFormed, SourcesFormed, BindUpTo, MemberBindable, BoundBy, Distinct, Saves;
    if Unambiguous(metadata) && SourcesFormed(saved) {
      forall r | r in records ensures MemberBindable(saved, r, metadata) <==> exists card | card in metadata :: BoundBy(r, saved, card) {
        MemberBindableMeans(saved, r, metadata);
      }
    }
    assert forall i | 0 <= i < |records| :: records[i] in records;
  }

  lemma SourcesFormedMeans(saved: seq<Source>)
    ensures SourcesFormed(saved) <==> NamedApart(saved)
  {
    forall s: Source ensures Identified(s) <==> exists id :: id != "" && Saves(s, "oracle_id", id) {
      if Identified(s) {
        assert Saves(s, "oracle_id", s["oracle_id"].text);
      }
    }
    assert forall i | 0 <= i < |saved| :: saved[i] in saved;
    if SourcesFormed(saved) {
      forall i, j, id | 0 <= i < j < |saved| && Saves(saved[i], "oracle_id", id) ensures !Saves(saved[j], "oracle_id", id) {
        assert SourceID(saved[i]) == id;
      }
    }
    if NamedApart(saved) {
      forall i, j | 0 <= i < j < |saved| ensures SourceID(saved[i]) != SourceID(saved[j]) {
        assert Saves(saved[i], "oracle_id", SourceID(saved[i]));
      }
    }
  }

  // ----- what binding leaves alone -----

  /** Nothing but the five fields is ever written, and the sources that are added hold nothing else. */
  ghost predicate OnlyFieldsWritten(saved: seq<Source>, bound: seq<Source>) {
    && |saved| <= |bound|
    && (forall j | 0 <= j < |saved| :: bound[j].Keys <= saved[j].Keys + FIELDS)
    && (forall j | |saved| <= j < |bound| :: bound[j].Keys == FIELDS)
  }

  lemma {:induction false} BindingWritesFields(
    saved: seq<Source>, records: seq<Record>, batchID: string, metadata: seq<Metadata>, n: nat)
    requires n <= |records| && BindUpTo(saved, records, batchID, metadata, n).Some?
    ensures OnlyFieldsWritten(saved, BindUpTo(saved, records, batchID, metadata, n).value)
  {
    if n > 0 {
      BindingWritesFields(saved, records, batchID, metadata, n - 1);
      var before, r := BindUpTo(saved, records, batchID, metadata, n - 1).value, records[n - 1];
      if r.batch == batchID {
        FieldsMean(map[], MetadataOf(metadata, r.oracleID).value);
        hide Fields, Texts;
      }
    }
  }

  /** A source of an identity outside the batch is saved as it was. */
  lemma OtherSourcesStay(saved: seq<Source>, records: seq<Record>, batchID: string, metadata: seq<Metadata>, j: nat)
    requires Distinct(RecordIDs(records)) && BindUpTo(saved, records, batchID, metadata, |records|).Some? && j < |saved|
    requires forall r | r in records && r.batch == batchID :: !Saves(saved[j], "oracle_id", r.oracleID)
    ensures |saved| <= |BindUpTo(saved, records, batchID, metadata, |records|).value|
    ensures BindUpTo(saved, records, batchID, metadata, |records|).value[j] == saved[j]
  {
    BindingSucceeds(saved, records, batchID, metadata, |records|);
    forall i | 0 <= i < |records| && records[i].batch == batchID ensures SourceIndex(saved, records[i].oracleID) != j {
      assert records[i] in records;
    }
  }
}
