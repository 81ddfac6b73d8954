/** The card registry's build, entry by entry, and what a finished registry holds. */
module RegistryIndex {
  import opened Catalogs
  import opened Collections
  import opened Options
  import opened Sorting
  import opened Text

  /** What a constructor builds: the programs a definition binds, and whether its declaration validates. */
  datatype Definition = Definition(name: string, references: seq<Reference>, valid: bool)

  /** A constructor function; its definition is absent when it returns nil. */
  datatype Constructor = Constructor(definition: Option<Definition>)

  datatype Entry = Entry(
    oracleID: string,
    programs: seq<Program>,
    replaceLegacy: bool,
    verification: string,
    name: string,
    build: Option<Constructor>)

  const GENERIC_ACCEPTANCE := "mtg/rules named-card scenarios; mixed production acceptance (#3278)"

  predicate IsAuthored(e: Entry) {
    e.oracleID != ""
  }

  predicate IsLegacy(e: Entry) {
    e.oracleID == ""
  }

  predicate AuthoredAs(e: Entry, name: string) {
    IsAuthored(e) && e.name == name
  }

  predicate LegacyAs(e: Entry, name: string) {
    IsLegacy(e) && e.name == name
  }

  function AuthoredNamed(name: string): Entry -> bool {
    (e: Entry) => AuthoredAs(e, name)
  }

  function LegacyNamed(name: string): Entry -> bool {
    (e: Entry) => LegacyAs(e, name)
  }

  /** The registry's tables, as a value. */
  datatype Index = Index(
    entries: map<string, seq<Constructor>>,
    identities: map<string, seq<Entry>>,
    oracleNames: map<string, string>,
    oracleIndices: map<string, nat>,
    count: int)

  const EMPTY := Index(map[], map[], map[], map[], 0)

  predicate Verified(e: Entry) {
    var verification := Trim(e.verification);
    verification != "" && verification != GENERIC_ACCEPTANCE
  }

  predicate KnownAuthored(ix: Index, name: string) {
    exists id | id in ix.oracleNames :: ix.oracleNames[id] == name
  }

  // ----- one entry -----

  /** Whether the build accepts the next entry. */
  predicate Accepts(ix: Index, e: Entry) {
    && e.name != "" && e.build.Some?
    && if e.oracleID != "" then
         && Verified(e)
         && e.oracleID !in ix.oracleNames
         && var existing := Get(ix.entries, e.name, []);
            if existing == [] then !e.replaceLegacy
            else if KnownAuthored(ix, e.name) then !e.replaceLegacy
            else e.replaceLegacy && |existing| == 1
       else e.programs == [] && !e.replaceLegacy
  }

  predicate Supersedes(ix: Index, e: Entry) {
    e.oracleID != "" && Get(ix.entries, e.name, []) != [] && !KnownAuthored(ix, e.name)
  }

  function After(ix: Index, e: Entry): Index
    requires e.build.Some?
  {
    var supersedes := Supersedes(ix, e);
    var entries := if supersedes then ix.entries - {e.name} else ix.entries;
    var identities := if supersedes then ix.identities - {e.name} else ix.identities;
    var constructors := Get(entries, e.name, []);
    Index(
      entries[e.name := constructors + [e.build.value]],
      identities[e.name := Get(identities, e.name, []) + [e]],
      if e.oracleID != "" then ix.oracleNames[e.oracleID := e.name] else ix.oracleNames,
      if e.oracleID != "" then ix.oracleIndices[e.oracleID := |constructors|] else ix.oracleIndices,
      (if supersedes then ix.count - |Get(ix.entries, e.name, [])| else ix.count) + 1)
  }

  // ----- what the tables hold -----

  /** The entries a name ends up with: its authored ones if there are any, else its legacy ones. */
  function Listed(es: seq<Entry>, name: string): seq<Entry> {
    var authored := Filter(es, AuthoredNamed(name));
    if authored != [] then authored else Filter(es, LegacyNamed(name))
  }

  ghost predicate Builds(constructors: seq<Constructor>, entries: seq<Entry>) {
    && |constructors| == |entries|
    && forall i | 0 <= i < |entries| :: entries[i].build == Some(constructors[i])
  }

  /** The number of entries in all lists of a table. */
  ghost function Total<T>(table: map<string, seq<T>>): nat {
    if table == map[] then 0
    else
      var name :| name in table;
      |table[name]| + Total(table - {name})
  }

  lemma {:induction false} TotalWithout<T>(table: map<string, seq<T>>, name: string)
    requires name in table
    ensures Total(table) == |table[name]| + Total(table - {name})
  {
    var other :| other in table && Total(table) == |table[other]| + Total(table - {other});
    if other != name {
      TotalWithout(table - {other}, name);
      TotalWithout(table - {name}, other);
      assert table - {other} - {name} == table - {name} - {other};
    }
  }

  lemma TotalUpdate<T>(table: map<string, seq<T>>, name: string, list: seq<T>)
    ensures Total(table[name := list]) == Total(table - {name}) + |list|
    ensures Total(table) == Total(table - {name}) + |Get(table, name, [])|
  {
    TotalWithout(table[name := list], name);
    assert table[name := list] - {name} == table - {name};
    if name in table {
      TotalWithout(table, name);
    } else {
      assert table - {name} == table;
    }
  }

  /** The tables are exactly what the processed entries call for. */
  ghost predicate ListsAreListed(ix: Index, es: seq<Entry>) {
    && (forall name :: Get(ix.identities, name, []) == Listed(es, name))
    && (forall name :: name in ix.identities <==> Listed(es, name) != [])
  }

  ghost predicate TablesParallel(ix: Index) {
    && ix.entries.Keys == ix.identities.Keys
    && forall name | name in ix.identities :: Builds(ix.entries[name], ix.identities[name])
  }

  ghost predicate NamesAreAuthored(ix: Index, es: seq<Entry>) {
    && ix.oracleIndices.Keys == ix.oracleNames.Keys
    && (forall id :: id in ix.oracleNames <==> exists i | 0 <= i < |es| :: IsAuthored(es[i]) && es[i].oracleID == id)
    && (forall i | 0 <= i < |es| && IsAuthored(es[i]) :: es[i].oracleID in ix.oracleNames && ix.oracleNames[es[i].oracleID] == es[i].name)
  }

  /** Each saved name and index leads to the entry that carries the identity. */
  ghost predicate IndicesPoint(ix: Index) {
    forall id | id in ix.oracleNames ::
      && id != "" && id in ix.oracleIndices
      && ix.oracleNames[id] in ix.identities
      && ix.oracleIndices[id] < |ix.identities[ix.oracleNames[id]]|
      && ix.identities[ix.oracleNames[id]][ix.oracleIndices[id]].oracleID == id
  }

  /** And the entry that carries an identity is the one its saved name and index lead to. */
  ghost predicate IndicesComplete(ix: Index) {
    forall name, k | name in ix.identities && 0 <= k < |ix.identities[name]| && ix.identities[name][k].oracleID != "" ::
      var id := ix.identities[name][k].oracleID;
      id in ix.oracleNames && ix.oracleNames[id] == name && id in ix.oracleIndices && ix.oracleIndices[id] == k
  }

  ghost predicate Described(ix: Index, es: seq<Entry>) {
    && ListsAreListed(ix, es)
    && TablesParallel(ix)
    && NamesAreAuthored(ix, es)
    && IndicesPoint(ix)
    && IndicesComplete(ix)
    && ix.count == Total(ix.entries)
  }

  /** Legacy entries come before authored ones. */
  ghost predicate LegacyFirst(es: seq<Entry>) {
    forall i, j | 0 <= i < j < |es| && IsLegacy(es[j]) :: IsLegacy(es[i])
  }

  // ----- what the build accepts, said over the whole list -----

  predicate EntryFormed(e: Entry) {
    && e.name != "" && e.build.Some?
    && (IsAuthored(e) ==> Verified(e))
    && (IsLegacy(e) ==> e.programs == [] && !e.replaceLegacy)
  }

  function LegacyCount(es: seq<Entry>, name: string): nat {
    |Filter(es, LegacyNamed(name))|
  }

  ghost predicate AuthoredBefore(es: seq<Entry>, n: nat, name: string)
    requires n <= |es|
  {
    exists i | 0 <= i < n :: AuthoredAs(es[i], name)
  }

  /**
   * Entry n fits the ones before it: a new identity, and a replacement is asked for exactly when it is the first
   * authored entry of a name that one legacy entry has.
   */
  ghost predicate Admissible(es: seq<Entry>, n: nat)
    requires n < |es|
  {
    && EntryFormed(es[n])
    && (IsAuthored(es[n]) ==>
          && (forall i | 0 <= i < n :: es[i].oracleID != es[n].oracleID)
          && (if AuthoredBefore(es, n, es[n].name) then !es[n].replaceLegacy
              else LegacyCount(es[..n], es[n].name) <= 1
                   && (es[n].replaceLegacy <==> LegacyCount(es[..n], es[n].name) == 1)))
  }

  lemma FilterOne(es: seq<Entry>, e: Entry, keep: Entry -> bool)
    ensures Filter(es + [e], keep) == Filter(es, keep) + if keep(e) then [e] else []
  {
    assert (es + [e])[..|es|] == es;
  }

  lemma NamedMeans(name: string)
    ensures forall e: Entry :: AuthoredNamed(name)(e) <==> AuthoredAs(e, name)
    ensures forall e: Entry :: LegacyNamed(name)(e) <==> LegacyAs(e, name)
  {
  }

  lemma AuthoredIsFiltered(es: seq<Entry>, name: string)
    ensures Filter(es, AuthoredNamed(name)) != [] <==> AuthoredBefore(es, |es|, name)
  {
    var keep := AuthoredNamed(name);
    FilterMembers(es, keep);
    hide Filter, AuthoredNamed;
    assert forall e: Entry :: keep(e) <==> AuthoredAs(e, name) by {
      NamedMeans(name);
    }
    var kept := Filter(es, keep);
    if kept != [] {
      assert kept[0] in kept;
      assert kept[0] in es;
    }
    if i :| 0 <= i < |es| && AuthoredAs(es[i], name) {
      assert es[i] in es && keep(es[i]);
    }
  }

  lemma KnownIsAuthored(ix: Index, es: seq<Entry>, name: string)
    requires NamesAreAuthored(ix, es)
    ensures KnownAuthored(ix, name) <==> AuthoredBefore(es, |es|, name)
  {
    if KnownAuthored(ix, name) {
      var id :| id in ix.oracleNames && ix.oracleNames[id] == name;
      var i :| 0 <= i < |es| && IsAuthored(es[i]) && es[i].oracleID == id;
      assert AuthoredAs(es[i], name);
    }
    if i :| 0 <= i < |es| && AuthoredAs(es[i], name) {
      assert ix.oracleNames[es[i].oracleID] == name;
    }
  }

  lemma AppendedEntry(es: seq<Entry>, e: Entry, name: string)
    ensures (es + [e])[..|es|] == es && (es + [e])[|es|] == e
    ensures AuthoredBefore(es + [e], |es|, name) <==> AuthoredBefore(es, |es|, name)
  {
    assert forall i | 0 <= i < |es| :: (es + [e])[i] == es[i];
  }

  lemma NewIdentity(ix: Index, es: seq<Entry>, e: Entry)
    requires NamesAreAuthored(ix, es) && e.oracleID != ""
    ensures e.oracleID !in ix.oracleNames <==> forall i | 0 <= i < |es| :: (es + [e])[i].oracleID != e.oracleID
  {
    assert forall i | 0 <= i < |es| :: (es + [e])[i] == es[i];
  }

  /** Accepting the next entry is the declared condition on it. */
  lemma AcceptsIsAdmissible(ix: Index, es: seq<Entry>, e: Entry)
    requires Described(ix, es)
    ensures Accepts(ix, e) <==> Admissible(es + [e], |es|)
  {
    hide ListsAreListed, TablesParallel, NamesAreAuthored, IndicesPoint, IndicesComplete;
    AppendedEntry(es, e, e.name);
    KnownIsAuthored(ix, es, e.name);
    AuthoredIsFiltered(es, e.name);
    ExistingIsListed(ix, es, e.name);
    if e.oracleID != "" {
      NewIdentity(ix, es, e);
    }
    hide Described, Filter, Verified, KnownAuthored, AuthoredBefore, AuthoredNamed, LegacyNamed;
  }

  // ----- accepting an entry keeps the tables described -----

  lemma ListedElsewhere(es: seq<Entry>, e: Entry, name: string)
    requires name != e.name
    ensures Listed(es + [e], name) == Listed(es, name)
  {
    FilterOne(es, e, AuthoredNamed(name));
    FilterOne(es, e, LegacyNamed(name));
  }

  /** Behind legacy entries only, the new entry extends its name's list, or starts it afresh when it supersedes. */
  lemma ListedHere(ix: Index, es: seq<Entry>, e: Entry)
    requires Described(ix, es) && LegacyFirst(es + [e]) && Accepts(ix, e)
    ensures Listed(es + [e], e.name) == (if Supersedes(ix, e) then [] else Listed(es, e.name)) + [e]
  {
    FilterOne(es, e, AuthoredNamed(e.name));
    FilterOne(es, e, LegacyNamed(e.name));
    KnownIsAuthored(ix, es, e.name);
    AuthoredIsFiltered(es, e.name);
    NamedMeans(e.name);
    ExistingIsListed(ix, es, e.name);
    assert IsLegacy(e) ==> !AuthoredBefore(es, |es|, e.name) by {
      assert (es + [e])[|es|] == e;
      assert forall i | 0 <= i < |es| :: (es + [e])[i] == es[i];
    }
    hide Filter, Described, AuthoredBefore, KnownAuthored, AuthoredNamed, LegacyNamed, Verified;
  }

  lemma ExistingIsListed(ix: Index, es: seq<Entry>, name: string)
    requires ListsAreListed(ix, es) && TablesParallel(ix)
    ensures |Get(ix.entries, name, [])| == |Listed(es, name)|
  {
    assert Get(ix.identities, name, []) == Listed(es, name);
  }

  lemma AfterListedAt(ix: Index, es: seq<Entry>, e: Entry, name: string)
    requires Described(ix, es) && LegacyFirst(es + [e]) && Accepts(ix, e)
    ensures Get(After(ix, e).identities, name, []) == Listed(es + [e], name)
    ensures name in After(ix, e).identities <==> Listed(es + [e], name) != []
  {
    if name == e.name {
      ListedHere(ix, es, e);
    } else {
      ListedElsewhere(es, e, name);
    }
    assert Get(ix.identities, name, []) == Listed(es, name);
    hide Listed, LegacyFirst, Supersedes, NamesAreAuthored, IndicesPoint, IndicesComplete, TablesParallel, Filter, Verified;
  }

  lemma AfterLists(ix: Index, es: seq<Entry>, e: Entry)
    requires Described(ix, es) && LegacyFirst(es + [e]) && Accepts(ix, e)
    ensures ListsAreListed(After(ix, e), es + [e])
  {
    hide Described, LegacyFirst, Listed, After;
    var ix' := After(ix, e);
    forall name
      ensures Get(ix'.identities, name, []) == Listed(es + [e], name)
      ensures name in ix'.identities <==> Listed(es + [e], name) != []
    {
      AfterListedAt(ix, es, e, name);
    }
  }

  lemma AfterParallel(ix: Index, e: Entry)
    requires TablesParallel(ix) && e.build.Some?
    ensures TablesParallel(After(ix, e))
  {
    hide Supersedes;
    var ix' := After(ix, e);
    assert ix'.entries.Keys == ix'.identities.Keys;
    forall name | name in ix'.identities ensures Builds(ix'.entries[name], ix'.identities[name]) {
      if name != e.name {
        assert Builds(ix.entries[name], ix.identities[name]);
      }
    }
  }

  lemma AfterNames(ix: Index, es: seq<Entry>, e: Entry)
    requires NamesAreAuthored(ix, es) && e.build.Some? && (e.oracleID != "" ==> e.oracleID !in ix.oracleNames)
    ensures NamesAreAuthored(After(ix, e), es + [e])
  {
    hide Supersedes;
    var ix', all := After(ix, e), es + [e];
    assert forall i | 0 <= i < |es| :: all[i] == es[i];
    assert all[|es|] == e;
    forall id ensures id in ix'.oracleNames <==> exists i | 0 <= i < |all| :: IsAuthored(all[i]) && all[i].oracleID == id {
      if id in ix.oracleNames {
        var i :| 0 <= i < |es| && IsAuthored(es[i]) && es[i].oracleID == id;
        assert IsAuthored(all[i]) && all[i].oracleID == id;
      }
      if e.oracleID != "" && id == e.oracleID {
        assert IsAuthored(all[|es|]) && all[|es|].oracleID == id;
      }
    }
  }

  lemma AfterIndices(ix: Index, es: seq<Entry>, e: Entry)
    requires Described(ix, es) && Accepts(ix, e)
    ensures IndicesPoint(After(ix, e))
  {
    hide ListsAreListed, NamesAreAuthored, IndicesComplete, Verified;
    var ix' := After(ix, e);
    forall id | id in ix'.oracleNames
      ensures id != "" && id in ix'.oracleIndices && ix'.oracleNames[id] in ix'.identities
      ensures ix'.oracleIndices[id] < |ix'.identities[ix'.oracleNames[id]]|
      ensures ix'.identities[ix'.oracleNames[id]][ix'.oracleIndices[id]].oracleID == id
    {
      if id in ix.oracleNames {
        var name := ix.oracleNames[id];
        assert KnownAuthored(ix, name);
        assert !(Supersedes(ix, e) && name == e.name);
      }
    }
  }

  lemma AfterComplete(ix: Index, es: seq<Entry>, e: Entry)
    requires Described(ix, es) && Accepts(ix, e)
    ensures IndicesComplete(After(ix, e))
  {
    hide ListsAreListed, NamesAreAuthored, Verified, IndicesPoint;
    var ix' := After(ix, e);
    forall name, k | name in ix'.identities && 0 <= k < |ix'.identities[name]| && ix'.identities[name][k].oracleID != ""
      ensures var id := ix'.identities[name][k].oracleID;
              id in ix'.oracleNames && ix'.oracleNames[id] == name && id in ix'.oracleIndices && ix'.oracleIndices[id] == k
    {
      var id := ix'.identities[name][k].oracleID;
      if name != e.name || k < |ix'.identities[name]| - 1 {
        assert name in ix.identities && ix.identities[name][k].oracleID == id;
      }
    }
  }

  lemma AfterCount(ix: Index, es: seq<Entry>, e: Entry)
    requires Described(ix, es) && e.build.Some?
    ensures After(ix, e).count == Total(After(ix, e).entries)
  {
    hide ListsAreListed, NamesAreAuthored, IndicesPoint, IndicesComplete, TablesParallel, Supersedes;
    var entries := if Supersedes(ix, e) then ix.entries - {e.name} else ix.entries;
    TotalUpdate(ix.entries, e.name, []);
    TotalUpdate(entries, e.name, Get(entries, e.name, []) + [e.build.value]);
  }

  /** An accepted entry leaves the tables describing one entry more. */
  lemma AfterIsDescribed(ix: Index, es: seq<Entry>, e: Entry)
    requires Described(ix, es) && LegacyFirst(es + [e]) && Accepts(ix, e)
    ensures Described(After(ix, e), es + [e])
  {
    AfterLists(ix, es, e);
    AfterParallel(ix, e);
    AfterNames(ix, es, e);
    AfterIndices(ix, es, e);
    AfterComplete(ix, es, e);
    AfterCount(ix, es, e);
    hide *;
    DescribedFrom(After(ix, e), es + [e]);
  }

  lemma DescribedFrom(ix: Index, es: seq<Entry>)
    requires ListsAreListed(ix, es) && TablesParallel(ix) && NamesAreAuthored(ix, es)
    requires IndicesPoint(ix) && IndicesComplete(ix)
    requires ix.count == Total(ix.entries)
    ensures Described(ix, es)
  {
  }

  // ----- the arrangement -----

  predicate LegacyBeforeAuthored(a: Entry, b: Entry) {
    IsLegacy(a) && IsAuthored(b)
  }

  /** Legacy entries, then authored ones, each in the order given. */
  function Arranged(es: seq<Entry>): seq<Entry> {
    Filter(es, IsLegacy) + Filter(es, IsAuthored)
  }

  lemma {:induction false} SplitPoint(es: seq<Entry>) returns (k: nat)
    requires LegacyFirst(es)
    ensures k <= |es|
    ensures forall i | 0 <= i < k :: IsLegacy(es[i])
    ensures forall i | k <= i < |es| :: IsAuthored(es[i])
  {
    k := 0;
    while k < |es| && IsLegacy(es[k])
      invariant k <= |es|
      invariant forall i | 0 <= i < k :: IsLegacy(es[i])
    {
      k := k + 1;
    }
  }

  /** A stable sort on legacy before authored is exactly the arrangement. */
  lemma StableIsArranged(es: seq<Entry>, sorted: seq<Entry>)
    requires Sorted(sorted, LegacyBeforeAuthored)
    requires forall tied: Entry -> bool | Tied(tied, LegacyBeforeAuthored) :: Filter(sorted, tied) == Filter(es, tied)
    ensures sorted == Arranged(es) && LegacyFirst(sorted)
  {
    assert LegacyFirst(sorted) by {
      forall i, j | 0 <= i < j < |sorted| && IsLegacy(sorted[j]) ensures IsLegacy(sorted[i]) {
        assert !LegacyBeforeAuthored(sorted[j], sorted[i]);
      }
    }
    assert Tied(IsLegacy, LegacyBeforeAuthored) && Tied(IsAuthored, LegacyBeforeAuthored);
    SplitIsArranged(sorted);
  }

  lemma SplitIsArranged(es: seq<Entry>)
    requires LegacyFirst(es)
    ensures es == Arranged(es)
  {
    var k := SplitPoint(es);
    ArrangedParts(es[..k], es[k..]);
    assert es == es[..k] + es[k..];
  }

  lemma ArrangedParts(legacy: seq<Entry>, authored: seq<Entry>)
    requires forall i | 0 <= i < |legacy| :: IsLegacy(legacy[i])
    requires forall i | 0 <= i < |authored| :: IsAuthored(authored[i])
    ensures Arranged(legacy + authored) == legacy + authored
  {
    hide Filter;
    FilterConcat(legacy, authored, IsLegacy);
    FilterConcat(legacy, authored, IsAuthored);
    FilterAll(legacy, IsLegacy);
    FilterNone(authored, IsLegacy);
    FilterNone(legacy, IsAuthored);
    FilterAll(authored, IsAuthored);
  }

  // ----- the whole build -----

  function ProgramsOf(es: seq<Entry>): seq<Program> {
    if es == [] then [] else ProgramsOf(es[..|es| - 1]) + es[|es| - 1].programs
  }

  /** Every entry fits the ones before it, and the programs make a catalog. */
  ghost predicate Registrable(es: seq<Entry>) {
    (forall n | 0 <= n < |es| :: Admissible(es, n)) && Installable(ProgramsOf(es))
  }

  lemma AdmissiblePrefix(es: seq<Entry>, n: nat)
    requires n < |es|
    ensures Admissible(es, n) <==> Admissible(es[..n] + [es[n]], n)
  {
    var some := es[..n] + [es[n]];
    assert some[..n] == es[..n] && some[n] == es[n];
    assert forall i | 0 <= i < n :: some[i] == es[i];
  }

  /** No name of a described index mixes legacy and authored entries. */
  lemma NamesDoNotMix(ix: Index, es: seq<Entry>, name: string)
    requires Described(ix, es) && name in ix.identities
    ensures (forall e | e in ix.identities[name] :: AuthoredAs(e, name)) || (forall e | e in ix.identities[name] :: LegacyAs(e, name))
  {
    FilterMembers(es, AuthoredNamed(name));
    FilterMembers(es, LegacyNamed(name));
    NamedMeans(name);
    hide AuthoredNamed, LegacyNamed, Filter;
    assert ix.identities[name] == Get(ix.identities, name, []) == Listed(es, name);
  }

  /**
   * The tables are a function of the arranged entries alone, so two interleavings of the same legacy and the same
   * authored entries build the same lists, names, indices and count.
   */
  lemma InterleavingDoesNotMatter(one: Index, other: Index, es: seq<Entry>, es': seq<Entry>)
    requires Filter(es, IsLegacy) == Filter(es', IsLegacy) && Filter(es, IsAuthored) == Filter(es', IsAuthored)
    requires Described(one, Arranged(es)) && Described(other, Arranged(es'))
    ensures one == other
  {
    hide Filter, Listed, Total;
    var all := Arranged(es);
    assert Arranged(es') == all;
    assert one.identities == other.identities by {
      assert forall name :: name in one.identities <==> name in other.identities;
      assert one.identities.Keys == other.identities.Keys;
      forall name | name in one.identities ensures one.identities[name] == other.identities[name] {
        assert Get(one.identities, name, []) == Get(other.identities, name, []);
      }
    }
    assert one.entries == other.entries by {
      forall name | name in one.entries ensures one.entries[name] == other.entries[name] {
        assert Builds(one.entries[name], one.identities[name]) && Builds(other.entries[name], other.identities[name]);
      }
    }
    SameNames(one, other, all);
    SameIndices(one, other, all);
  }

  lemma SameNames(one: Index, other: Index, es: seq<Entry>)
    requires NamesAreAuthored(one, es) && NamesAreAuthored(other, es)
    ensures one.oracleNames == other.oracleNames
  {
    assert one.oracleNames.Keys == other.oracleNames.Keys;
    forall id | id in one.oracleNames ensures one.oracleNames[id] == other.oracleNames[id] {
      var i :| 0 <= i < |es| && IsAuthored(es[i]) && es[i].oracleID == id;
    }
  }

  lemma SameIndices(one: Index, other: Index, es: seq<Entry>)
    requires one.oracleNames == other.oracleNames && one.identities == other.identities
    requires IndicesPoint(one) && IndicesComplete(other)
    requires NamesAreAuthored(one, es) && NamesAreAuthored(other, es)
    ensures one.oracleIndices == other.oracleIndices
  {
    assert one.oracleIndices.Keys == other.oracleIndices.Keys;
  }

  // ----- what a registry demands and lists, on the entries themselves -----

  /**
   * An entry has a name and a constructor. With an identity it also has verification evidence of its own; without one
   * it binds no programs and replaces nothing.
   */
  predicate Presentable(e: Entry) {
    && e.name != "" && e.build != None
    && if e.oracleID == "" then e.programs == [] && !e.replaceLegacy
       else Trim(e.verification) != ""
            && Trim(e.verification) != "mtg/rules named-card scenarios; mixed production acceptance (#3278)"
  }

  /** The entries without identity that share a name. */
  ghost function Namesakes(es: seq<Entry>, name: string): set<nat> {
    set i: nat | i < |es| && es[i].oracleID == "" && es[i].name == name
  }

  ghost predicate AuthoredEarlier(es: seq<Entry>, n: nat)
    requires n < |es|
  {
    exists i | 0 <= i < n :: es[i].oracleID != "" && es[i].name == es[n].name
  }

  /** The first authored entry of a name replaces its one legacy entry, if it has any; later ones replace nothing. */
  ghost predicate Replaces(es: seq<Entry>, n: nat)
    requires n < |es|
  {
    if AuthoredEarlier(es, n) then !es[n].replaceLegacy
    else |Namesakes(es, es[n].name)| <= 1 && (es[n].replaceLegacy <==> |Namesakes(es, es[n].name)| == 1)
  }

  lemma LegacyIsBefore(es: seq<Entry>, n: nat)
    requires LegacyFirst(es) && n < |es| && es[n].oracleID != ""
    ensures LegacyCount(es[..n], es[n].name) == |Namesakes(es, es[n].name)|
  {
    FilterSize(es[..n], LegacyNamed(es[n].name));
    forall i: nat ensures i in Positions(es[..n], LegacyNamed(es[n].name)) <==> i in Namesakes(es, es[n].name) {
    }
    assert Positions(es[..n], LegacyNamed(es[n].name)) == Namesakes(es, es[n].name);
  }

  lemma AdmissibleMeans(es: seq<Entry>, n: nat)
    requires LegacyFirst(es) && n < |es|
    ensures Admissible(es, n) <==>
              && Presentable(es[n])
              && (es[n].oracleID != "" ==>
                    && (forall i | 0 <= i < n :: es[i].oracleID != es[n].oracleID)
                    && Replaces(es, n))
  {
    if es[n].oracleID != "" {
      LegacyIsBefore(es, n);
    }
    hide Trim, LegacyCount, Namesakes, LegacyFirst;
  }

  /**
   * A registry takes a list of entries, legacy ones first, exactly when each is presentable, no identity is given twice,
   * each authored entry replaces just what it has to, and the programs make a catalog.
   */
  lemma RegistryDemands(es: seq<Entry>)
    requires LegacyFirst(es)
    ensures Registrable(es) <==>
              && (forall n | 0 <= n < |es| :: Presentable(es[n]))
              && (forall i, n | 0 <= i < n < |es| && es[n].oracleID != "" :: es[i].oracleID != es[n].oracleID)
              && (forall n | 0 <= n < |es| && es[n].oracleID != "" :: Replaces(es, n))
              && Installable(ProgramsOf(es))
  {
    forall n | 0 <= n < |es|
      ensures Admissible(es, n) <==>
                && Presentable(es[n])
                && (es[n].oracleID != "" ==> (forall i | 0 <= i < n :: es[i].oracleID != es[n].oracleID) && Replaces(es, n))
    {
      AdmissibleMeans(es, n);
    }
    hide Admissible, Presentable, Replaces, Installable, LegacyFirst;
  }

  /** A name lists its authored entries, or its legacy ones when it has no authored one, in their order. */
  lemma ListedMeans(es: seq<Entry>, name: string) returns (order: seq<nat>)
    ensures |order| == |Listed(es, name)|
    ensures forall i | 0 <= i < |order| :: order[i] < |es| && Listed(es, name)[i] == es[order[i]]
    ensures forall i, j | 0 <= i < j < |order| :: order[i] < order[j]
    ensures forall k: nat | k < |es| :: k in order <==>
              && es[k].name == name
              && (es[k].oracleID != "" || forall e | e in es && e.name == name :: e.oracleID == "")
  {
    NamedMeans(name);
    var authored := FilterOrder(es, AuthoredNamed(name));
    var legacy := FilterOrder(es, LegacyNamed(name));
    if Filter(es, AuthoredNamed(name)) != [] {
      order := authored;
      assert es[authored[0]] in es && authored[0] in authored;
    } else {
      order := legacy;
      forall e | e in es && e.name == name ensures e.oracleID == "" {
        var k :| 0 <= k < |es| && es[k] == e;
        assert k !in authored;
      }
    }
  }

  /** The programs of a registry are those its entries bind. */
  lemma {:induction false} ProgramsMean(es: seq<Entry>, p: Program)
    ensures p in ProgramsOf(es) <==> exists e | e in es :: p in e.programs
  {
    if es != [] {
      var front, last := es[..|es| - 1], es[|es| - 1];
      ProgramsMean(front, p);
      assert es == front + [last];
    }
  }
}
