/** The card registry itself: built entry by entry, then read lazily through a cache. */
module CardRegistry {
  import opened Catalogs
  import opened Collections
  import opened Options
  import opened RegistryIndex
  import opened Sorting
  import opened Text

  /** A built card definition. Lookups hand out the object, so repeated lookups can be seen to share it. */
  class CardDef {
    const definition: Definition

    constructor (definition: Definition)
      ensures this.definition == definition
    {
      this.definition := definition;
    }
  }

  /** Catalog.ValidateCard. */
  predicate ValidCard(programs: Catalog, definition: Option<Definition>) {
    && definition.Some?
    && (definition.value.references != [] ==> definition.value.valid)
    && forall k | 0 <= k < |definition.value.references| :: Lookup(programs, definition.value.references[k]).Some?
  }

  predicate AllValid(programs: Catalog, constructors: seq<Constructor>) {
    forall k | 0 <= k < |constructors| :: ValidCard(programs, constructors[k].definition)
  }

  class Registry {
    var entries: map<string, seq<Constructor>>
    var cache: map<string, seq<CardDef>>
    var count: int
    var programs: Catalog
    var oracleNames: map<string, string>
    var oracleIndices: map<string, nat>
    var identities: map<string, seq<Entry>>

    ghost function Tables(): Index
      reads this
    {
      Index(entries, identities, oracleNames, oracleIndices, count)
    }

    /** A cached list was built from exactly the constructors of its name. */
    ghost predicate Caches(name: string)
      requires name in cache
      reads this
    {
      && name in entries && |cache[name]| == |entries[name]|
      && AllValid(programs, entries[name])
      && forall k | 0 <= k < |cache[name]| :: entries[name][k].definition == Some(cache[name][k].definition)
    }

    ghost predicate Valid()
      reads this
    {
      && TablesParallel(Tables())
      && IndicesPoint(Tables())
      && forall name | name in cache :: Caches(name)
    }

    constructor Empty()
      ensures Tables() == EMPTY && cache == map[] && programs == Catalog(map[])
    {
      entries, cache, count, programs := map[], map[], 0, Catalog(map[]);
      oracleNames, oracleIndices, identities := map[], map[], map[];
    }

    /** One pass of the loop of NewProgramRegistry. */
    method Register(entry: Entry) returns (ok: bool)
      modifies this
      ensures ok <==> Accepts(old(Tables()), entry)
      ensures ok ==> Tables() == After(old(Tables()), entry)
      ensures cache == old(cache) && programs == old(programs)
    {
      hide Accepts, Supersedes;
      var supersedes;
      ok, supersedes := Examine(entry);
      if !ok {
        return;
      }
      if supersedes {
        count := count - |Get(entries, entry.name, [])|;
        entries := entries - {entry.name};
        identities := identities - {entry.name};
      }
      if entry.oracleID != "" {
        oracleNames := oracleNames[entry.oracleID := entry.name];
        oracleIndices := oracleIndices[entry.oracleID := |Get(entries, entry.name, [])|];
      }
      entries := entries[entry.name := Get(entries, entry.name, []) + [entry.build.value]];
      identities := identities[entry.name := Get(identities, entry.name, []) + [entry]];
      count := count + 1;
    }

    /** The checks of that pass: whether the entry is accepted, and whether it takes a legacy entry's place. */
    method Examine(entry: Entry) returns (ok: bool, supersedes: bool)
      ensures ok <==> Accepts(Tables(), entry)
      ensures ok ==> entry.build.Some? && supersedes == Supersedes(Tables(), entry)
    {
      hide Trim;
      if entry.name == "" || entry.build.None? {
        return false, false;
      }
      if entry.oracleID == "" {
        return |entry.programs| == 0 && !entry.replaceLegacy, false;
      }
      var verification := Trim(entry.verification);
      if verification == "" || verification == GENERIC_ACCEPTANCE {
        return false, false;
      }
      if entry.oracleID in oracleNames {
        return false, false;
      }
      var existing := Get(entries, entry.name, []);
      if |existing| == 0 {
        return !entry.replaceLegacy, false;
      }
      var knownAuthored := exists id | id in oracleNames :: oracleNames[id] == entry.name;
      assert knownAuthored == KnownAuthored(Tables(), entry.name);
      if knownAuthored {
        return !entry.replaceLegacy, false;
      }
      return entry.replaceLegacy && |existing| == 1, true;
    }

    /** LookupAllChecked: build and check the definitions of a name once, then hand out the same objects. */
    method LookupAllChecked(name: string) returns (ok: bool, built: seq<CardDef>)
      requires Valid()
      modifies this`cache
      ensures Valid()
      ensures ok <==> (name in entries ==> AllValid(programs, entries[name]))
      ensures ok && name !in entries ==> built == []
      ensures ok && name in entries ==> name in cache && built == cache[name]
      ensures name in old(cache) ==> built == old(cache)[name]
      ensures forall n | n in old(cache) :: n in cache && cache[n] == old(cache)[n]
      ensures !ok ==> built == [] && cache == old(cache)
    {
      if name in cache {
        assert Caches(name);
        return true, cache[name];
      }
      if name !in entries {
        return true, [];
      }
      var constructors := entries[name];
      built := [];
      for i := 0 to |constructors|
        invariant |built| == i
        invariant forall k | 0 <= k < i :: constructors[k].definition == Some(built[k].definition)
        invariant forall k | 0 <= k < i :: ValidCard(programs, constructors[k].definition)
        modifies {}
      {
        if !ValidCard(programs, constructors[i].definition) {
          return false, [];
        }
        var card := new CardDef(constructors[i].definition.value);
        built := built + [card];
      }
      ghost var before := cache;
      cache := cache[name := built];
      assert Caches(name);
      assert forall n | n in before :: old(Caches(n));
      return true, built;
    }

    /** LookupOracleID: the definition built by exactly the entry that carries the identity. */
    method LookupOracleID(oracleID: string) returns (card: Option<CardDef>)
      requires Valid()
      modifies this`cache
      ensures Valid()
      ensures card.Some? <==> oracleID in oracleNames && AllValid(programs, entries[oracleNames[oracleID]])
      ensures card.Some? ==>
                exists e | e in identities[oracleNames[oracleID]] ::
                  e.oracleID == oracleID && e.build.Some? && e.build.value.definition == Some(card.value.definition)
    {
      if oracleID !in oracleNames {
        return None;
      }
      var name := oracleNames[oracleID];
      var ok, built := LookupAllChecked(name);
      if !ok {
        return None;
      }
      assert Caches(name) && Builds(entries[name], identities[name]);
      var k := oracleIndices[oracleID];
      assert identities[name][k] in identities[name];
      return Some(built[k]);
    }
  }

  /** Legacy entries first, each class in the order given. */
  lemma LegacyOrderIsStrictWeak()
    ensures StrictWeak(LegacyBeforeAuthored)
  {
  }

  lemma EmptyIsDescribed()
    ensures Described(EMPTY, [])
  {
  }

  /** All entries in one list, legacy ones first. */
  method ArrangeEntries(entrySets: seq<seq<Entry>>) returns (entries: seq<Entry>)
    ensures entries == Arranged(Flat(entrySets)) && LegacyFirst(entries)
  {
    var all: seq<Entry> := [];
    for i := 0 to |entrySets|
      invariant all == Flat(entrySets[..i])
    {
      assert entrySets[..i + 1][..i] == entrySets[..i];
      all := all + entrySets[i];
    }
    assert entrySets[..|entrySets|] == entrySets;
    LegacyOrderIsStrictWeak();
    hide LegacyFirst, Arranged, StrictWeak;
    entries := SortStable(all, LegacyBeforeAuthored);
    StableIsArranged(all, entries);
  }

  /**
   * NewProgramRegistry: succeeds exactly on entries that are admissible once arranged and whose programs make a
   * catalog, and then holds exactly what those entries call for.
   */
  method NewProgramRegistry(entrySets: seq<seq<Entry>>) returns (registry: Option<Registry>)
    ensures registry.Some? <==> Registrable(Arranged(Flat(entrySets)))
    ensures registry.Some? ==>
              && registry.value.Valid() && registry.value.cache == map[]
              && Described(registry.value.Tables(), Arranged(Flat(entrySets)))
              && Holds(registry.value.programs, ProgramsOf(Arranged(Flat(entrySets))))
  {
    hide Described, Accepts, After, Admissible, Arranged, Holds, Installable;
    var r := new Registry.Empty();
    var programs: seq<Program> := [];
    var entries := ArrangeEntries(entrySets);
    EmptyIsDescribed();
    for n := 0 to |entries|
      invariant Described(r.Tables(), entries[..n]) && r.cache == map[]
      invariant forall i | 0 <= i < n :: Admissible(entries, i)
      invariant programs == ProgramsOf(entries[..n])
    {
      var entry := entries[n];
      assert entries[..n + 1] == entries[..n] + [entry] && entries[..n + 1][..n] == entries[..n];
      AcceptsIsAdmissible(r.Tables(), entries[..n], entry);
      AdmissiblePrefix(entries, n);
      LegacyFirstPrefix(entries, n + 1);
      ghost var before := r.Tables();
      var ok := r.Register(entry);
      if !ok {
        return None;
      }
      AfterIsDescribed(before, entries[..n], entry);
      programs := programs + entry.programs;
    }
    assert entries[..|entries|] == entries;
    var catalog := NewCatalog(programs);
    if catalog.None? {
      return None;
    }
    r.programs := catalog.value;
    DescribedIsValid(r.Tables(), entries);
    return Some(r);
  }

  function Flat(sets: seq<seq<Entry>>): seq<Entry> {
    if sets == [] then [] else Flat(sets[..|sets| - 1]) + sets[|sets| - 1]
  }

  lemma LegacyFirstPrefix(es: seq<Entry>, n: nat)
    requires LegacyFirst(es) && n <= |es|
    ensures LegacyFirst(es[..n])
  {
  }

  lemma DescribedIsValid(ix: Index, es: seq<Entry>)
    requires Described(ix, es)
    ensures TablesParallel(ix) && IndicesPoint(ix)
  {
  }

  /** On an installed catalog a definition is valid when its programs are all declared there, and it validates if it has any. */
  lemma ValidCardMeans(catalog: Catalog, programs: seq<Program>, definition: Option<Definition>)
    requires Installable(programs) && Holds(catalog, programs)
    ensures ValidCard(catalog, definition) <==>
              && definition.Some?
              && (definition.value.references == [] || definition.value.valid)
              && forall r | r in definition.value.references :: exists p | p in programs :: p.reference == r
  {
    hide ValidReference, Lookup;
    forall r ensures Lookup(catalog, r).Some? <==> exists p | p in programs :: p.reference == r {
      LookupInstalled(catalog, programs, r);
      assert forall k | 0 <= k < |programs| :: programs[k] in programs;
    }
    if definition.Some? {
      var references := definition.value.references;
      assert forall k | 0 <= k < |references| :: references[k] in references;
    }
  }
}
