/** The catalog of authored programs, and the closure over its possibly cyclic dependencies. */
module Catalogs {
  import opened Collections
  import opened Options
  import opened Sorting
  import opened Text

  datatype Reference = Reference(id: string, version: string)

  /** The resolver is Go code; only its presence matters here. */
  datatype Program = Program(reference: Reference, hasResolver: bool, dependencies: seq<Reference>)

  datatype Catalog = Catalog(programs: map<string, Program>)

  predicate Unspaced(s: string) {
    forall i | 0 <= i < |s| :: s[i] != ' ' && s[i] != '\t' && s[i] != '\r' && s[i] != '\n'
  }

  predicate ValidReference(r: Reference) {
    r.id != "" && r.version != "" && Unspaced(r.id + r.version)
  }

  /** Lookup demands the exact declared version. */
  function Lookup(c: Catalog, r: Reference): Option<Program> {
    if ValidReference(r) && r.id in c.programs && c.programs[r.id].reference.version == r.version then Some(c.programs[r.id])
    else None
  }

  // ----- building a catalog -----

  ghost predicate DeclaredAmong(r: Reference, programs: seq<Program>) {
    exists k | 0 <= k < |programs| :: programs[k].reference == r
  }

  /** What NewCatalog demands: valid, resolvable programs with distinct IDs and no dependency left open. */
  ghost predicate Installable(programs: seq<Program>) {
    && (forall k | 0 <= k < |programs| :: ValidReference(programs[k].reference) && programs[k].hasResolver)
    && (forall k, l | 0 <= k < l < |programs| :: programs[k].reference.id != programs[l].reference.id)
    && (forall k, d | 0 <= k < |programs| && d in programs[k].dependencies :: DeclaredAmong(d, programs))
  }

  /** The catalog holds exactly the given programs. */
  ghost predicate Holds(c: Catalog, programs: seq<Program>) {
    && (forall k | 0 <= k < |programs| ::
          programs[k].reference.id in c.programs && c.programs[programs[k].reference.id] == programs[k])
    && (forall id | id in c.programs :: exists k | 0 <= k < |programs| :: programs[k].reference.id == id)
  }

  method NewCatalog(programs: seq<Program>) returns (c: Option<Catalog>)
    ensures c.Some? <==> Installable(programs)
    ensures c.Some? ==> Holds(c.value, programs)
  {
    hide ValidReference;
    var table: map<string, Program> := map[];
    for i := 0 to |programs|
      invariant forall k | 0 <= k < i :: ValidReference(programs[k].reference) && programs[k].hasResolver
      invariant forall k, l | 0 <= k < l < i :: programs[k].reference.id != programs[l].reference.id
      invariant forall k | 0 <= k < i ::
                  programs[k].reference.id in table && table[programs[k].reference.id] == programs[k]
      invariant forall id | id in table :: exists k | 0 <= k < i :: programs[k].reference.id == id
    {
      var program := programs[i];
      if !ValidReference(program.reference) || !program.hasResolver || program.reference.id in table {
        return None;
      }
      table := table[program.reference.id := program];
    }
    var catalog := Catalog(table);
    forall d ensures Lookup(catalog, d).Some? <==> DeclaredAmong(d, programs) {
      LookupInstalled(catalog, programs, d);
    }
    for i := 0 to |programs|
      invariant forall k, d | 0 <= k < i && d in programs[k].dependencies :: DeclaredAmong(d, programs)
    {
      for j := 0 to |programs[i].dependencies|
        invariant forall m | 0 <= m < j :: DeclaredAmong(programs[i].dependencies[m], programs)
      {
        if Lookup(catalog, programs[i].dependencies[j]).None? {
          return None;
        }
      }
    }
    return Some(catalog);
  }

  lemma LookupInstalled(c: Catalog, programs: seq<Program>, d: Reference)
    requires Holds(c, programs)
    requires forall k | 0 <= k < |programs| :: ValidReference(programs[k].reference)
    ensures Lookup(c, d).Some? <==> DeclaredAmong(d, programs)
  {
  }

  // ----- reachability -----

  ghost function Dependencies(c: Catalog, r: Reference): seq<Reference> {
    match Lookup(c, r)
    case None => []
    case Some(program) => program.dependencies
  }

  /** Each reference on the path is a dependency of the one before. */
  ghost predicate IsPath(c: Catalog, path: seq<Reference>) {
    forall i | 0 <= i < |path| - 1 :: path[i + 1] in Dependencies(c, path[i])
  }

  ghost predicate Connects(c: Catalog, path: seq<Reference>, start: Reference, end: Reference) {
    path != [] && path[0] == start && path[|path| - 1] == end && IsPath(c, path)
  }

  ghost predicate Reaches(c: Catalog, start: Reference, end: Reference) {
    exists path :: Connects(c, path, start, end)
  }

  ghost predicate Reachable(c: Catalog, roots: seq<Reference>, r: Reference) {
    exists k | 0 <= k < |roots| :: Reaches(c, roots[k], r)
  }

  lemma ReachesItself(c: Catalog, r: Reference)
    ensures Reaches(c, r, r)
  {
    assert Connects(c, [r], r, r);
  }

  lemma ReachesThrough(c: Catalog, start: Reference, next: Reference, end: Reference)
    requires next in Dependencies(c, start) && Reaches(c, next, end)
    ensures Reaches(c, start, end)
  {
    var path :| Connects(c, path, next, end);
    assert Connects(c, [start] + path, start, end);
  }

  /** A set of references that lacks none of its own dependencies. */
  ghost predicate Closed(c: Catalog, part: set<Reference>, whole: set<Reference>) {
    forall r, d | r in part && d in Dependencies(c, r) :: d in whole
  }

  lemma {:induction false} PathStays(c: Catalog, path: seq<Reference>, whole: set<Reference>, n: nat)
    requires IsPath(c, path) && n < |path| && path[0] in whole && Closed(c, whole, whole)
    ensures path[n] in whole
  {
    if n > 0 {
      PathStays(c, path, whole, n - 1);
      assert path[n - 1 + 1] in Dependencies(c, path[n - 1]);
    }
  }

  lemma ClosedHoldsReachable(c: Catalog, start: Reference, end: Reference, whole: set<Reference>)
    requires Reaches(c, start, end) && start in whole && Closed(c, whole, whole)
    ensures end in whole
  {
    var path :| Connects(c, path, start, end);
    PathStays(c, path, whole, |path| - 1);
  }

  // ----- the closure -----

  ghost function Known(c: Catalog): set<Reference> {
    set id | id in c.programs :: Reference(id, c.programs[id].reference.version)
  }

  /** Everything found since was: reachable, installed, and complete up to what has been seen by now. */
  ghost predicate Explored(c: Catalog, found: set<Reference>, now: set<Reference>, start: Reference) {
    && Closed(c, found, now)
    && forall r | r in found :: Lookup(c, r).Some? && Reaches(c, start, r)
  }

  /** out lists the references in seen once each. */
  ghost predicate Lists(out: seq<Reference>, seen: set<Reference>) {
    Distinct(out) && Elements(out) == seen
  }

  /**
   * The recursive visit of References. It ends even on cyclic dependencies, because each visit that goes on marks
   * one more installed program; bad is a reference that is not installed when the visit fails.
   */
  method Visit(c: Catalog, ref: Reference, seen: set<Reference>, out: seq<Reference>)
    returns (ok: bool, seen': set<Reference>, out': seq<Reference>, ghost bad: Reference)
    requires Lists(out, seen)
    ensures ok ==> Lists(out', seen') && seen + {ref} <= seen' && Explored(c, seen' - seen, seen', ref)
    ensures !ok ==> Reaches(c, ref, bad) && Lookup(c, bad).None?
    decreases |Known(c) - seen|
  {
    hide Reaches, Lists, Closed;
    seen', out', bad := seen, out, ref;
    if ref in seen {
      NothingIsClosed(c, seen);
      assert seen' - seen == {};
      return true, seen', out', bad;
    }
    seen' := seen' + {ref};
    var p := Lookup(c, ref);
    ReachesItself(c, ref);
    if p.None? {
      return false, seen', out', bad;
    }
    out' := out' + [ref];
    ListOneMore(out, seen, ref);
    NothingIsClosed(c, seen');
    assert ref in Known(c) - seen;
    ok := true;
    assert seen' - seen - {ref} == {};
    for i := 0 to |p.value.dependencies|
      invariant Lists(out', seen') && seen + {ref} <= seen'
      invariant Closed(c, seen' - seen - {ref}, seen')
      invariant forall r | r in seen' - seen :: Lookup(c, r).Some? && Reaches(c, ref, r)
      invariant forall k | 0 <= k < i :: p.value.dependencies[k] in seen'
    {
      var dependency := p.value.dependencies[i];
      StillSmaller(c, ref, seen, seen');
      var visited, more, longer;
      ghost var missing;
      visited, more, longer, missing := Visit(c, dependency, seen', out');
      if !visited {
        ReachesThrough(c, ref, dependency, missing);
        return false, more, longer, missing;
      }
      forall r | r in more - seen' ensures Reaches(c, ref, r) {
        ReachesThrough(c, ref, dependency, r);
      }
      ClosedTogether(c, seen' - seen - {ref}, seen', more - seen', more);
      assert seen' - seen - {ref} + (more - seen') == more - seen - {ref};
      seen', out' := more, longer;
    }
    ClosedWith(c, ref, seen' - seen - {ref}, seen');
    assert seen' - seen - {ref} + {ref} == seen' - seen;
  }

  lemma NothingIsClosed(c: Catalog, whole: set<Reference>)
    ensures Closed(c, {}, whole)
  {
  }

  lemma ClosedTogether(c: Catalog, one: set<Reference>, before: set<Reference>, other: set<Reference>, now: set<Reference>)
    requires Closed(c, one, before) && before <= now && Closed(c, other, now)
    ensures Closed(c, one + other, now)
  {
  }

  lemma ClosedWith(c: Catalog, ref: Reference, part: set<Reference>, whole: set<Reference>)
    requires Closed(c, part, whole) && forall d | d in Dependencies(c, ref) :: d in whole
    ensures Closed(c, part + {ref}, whole)
  {
  }

  lemma ListOneMore(out: seq<Reference>, seen: set<Reference>, ref: Reference)
    requires Lists(out, seen) && ref !in seen
    ensures Lists(out + [ref], seen + {ref})
  {
    assert forall i | 0 <= i < |out| :: out[i] in Elements(out);
    assert Elements(out + [ref]) == Elements(out) + {ref};
  }

  lemma StillSmaller(c: Catalog, ref: Reference, seen: set<Reference>, seen': set<Reference>)
    requires ref in Known(c) - seen && seen + {ref} <= seen'
    ensures |Known(c) - seen'| < |Known(c) - seen|
  {
    var left, was := Known(c) - seen', Known(c) - seen;
    SubsetSize(left, was - {ref});
  }

  predicate ByID(a: Reference, b: Reference) {
    Less(a.id, b.id)
  }

  lemma ByIDIsStrictWeak()
    ensures StrictWeak(ByID)
  {
    forall x: Reference, y: Reference ensures !(ByID(x, y) && ByID(y, x)) {
      LessIsAsymmetric(x.id, y.id);
    }
    forall x: Reference, y: Reference, z: Reference | !ByID(x, y) && !ByID(y, z) ensures !ByID(x, z) {
      LessIsNegativelyTransitive(x.id, y.id, z.id);
    }
  }

  /** Exactly the references reachable from the roots, strictly ascending by ID. */
  ghost predicate IsClosure(c: Catalog, roots: seq<Reference>, out: seq<Reference>) {
    && Ascending(out, ByID)
    && forall r :: r in out <==> Reachable(c, roots, r)
  }

  /** On any catalog value References fails exactly when something reachable is not installed. */
  method References(c: Catalog, roots: seq<Reference>) returns (out: Option<seq<Reference>>)
    ensures out.Some? <==> forall r | Reachable(c, roots, r) :: Lookup(c, r).Some?
    ensures out.Some? ==> IsClosure(c, roots, out.value)
  {
    var seen: set<Reference>, found: seq<Reference> := {}, [];
    for i := 0 to |roots|
      invariant Lists(found, seen) && Closed(c, seen, seen)
      invariant forall r | r in seen :: Lookup(c, r).Some? && Reachable(c, roots, r)
      invariant forall k | 0 <= k < i :: roots[k] in seen
    {
      hide Reaches, Dependencies;
      var ok, more, longer;
      ghost var bad;
      ok, more, longer, bad := Visit(c, roots[i], seen, found);
      if !ok {
        assert Reachable(c, roots, bad);
        return None;
      }
      assert forall r | r in more - seen :: Reachable(c, roots, r);
      seen, found := more, longer;
    }
    forall r ensures r in seen <==> Reachable(c, roots, r) {
      if Reachable(c, roots, r) {
        var k :| 0 <= k < |roots| && Reaches(c, roots[k], r);
        ClosedHoldsReachable(c, roots[k], r, seen);
      }
    }
    ByIDIsStrictWeak();
    var sorted := Sort(found, ByID);
    SortedClosure(c, found, sorted, seen);
    return Some(sorted);
  }

  /** An installed ID has one version, so sorting by ID leaves no ties. */
  lemma SortedClosure(c: Catalog, found: seq<Reference>, sorted: seq<Reference>, seen: set<Reference>)
    requires Lists(found, seen) && forall r | r in seen :: Lookup(c, r).Some?
    requires multiset(sorted) == multiset(found) && Sorted(sorted, ByID)
    ensures Ascending(sorted, ByID)
    ensures forall r :: r in sorted <==> r in seen
  {
    var order := Embedding(sorted, found);
    forall r ensures r in sorted <==> r in seen {
      assert r in sorted <==> r in multiset(sorted);
      assert r in found <==> r in multiset(found);
      assert r in found <==> r in Elements(found);
    }
    forall i, j | 0 <= i < j < |sorted| ensures ByID(sorted[i], sorted[j]) {
      assert order[i] != order[j] && found[order[i]] != found[order[j]];
      assert sorted[i] in seen && sorted[j] in seen;
      LessIsTotal(sorted[i].id, sorted[j].id);
    }
  }

  /** On a catalog NewCatalog built, everything reachable is installed as soon as the roots are. */
  lemma InstalledReach(c: Catalog, programs: seq<Program>, roots: seq<Reference>)
    requires Installable(programs) && Holds(c, programs)
    ensures (forall r | Reachable(c, roots, r) :: Lookup(c, r).Some?)
       <==> (forall k | 0 <= k < |roots| :: Lookup(c, roots[k]).Some?)
  {
    forall k | 0 <= k < |roots| ensures Reachable(c, roots, roots[k]) {
      ReachesItself(c, roots[k]);
    }
    if forall k | 0 <= k < |roots| :: Lookup(c, roots[k]).Some? {
      var installed := InstalledSet(c, programs);
      forall r | Reachable(c, roots, r) ensures Lookup(c, r).Some? {
        var k :| 0 <= k < |roots| && Reaches(c, roots[k], r);
        ClosedHoldsReachable(c, roots[k], r, installed);
      }
    }
  }

  lemma InstalledSet(c: Catalog, programs: seq<Program>) returns (installed: set<Reference>)
    requires Installable(programs) && Holds(c, programs)
    ensures Closed(c, installed, installed)
    ensures forall r :: r in installed <==> Lookup(c, r).Some?
  {
    installed := set k | 0 <= k < |programs| :: programs[k].reference;
    forall r ensures r in installed <==> Lookup(c, r).Some? {
      LookupInstalled(c, programs, r);
    }
    forall r, d | r in installed && d in Dependencies(c, r) ensures d in installed {
      var k :| 0 <= k < |programs| && programs[k].reference == r;
      assert d in programs[k].dependencies && DeclaredAmong(d, programs);
      var j :| 0 <= j < |programs| && programs[j].reference == d;
    }
  }

  /** The result depends only on which roots there are: reordering and repeating them changes nothing. */
  lemma RootsAreASet(c: Catalog, roots: seq<Reference>, others: seq<Reference>, out: seq<Reference>, out': seq<Reference>)
    requires Elements(roots) == Elements(others)
    requires IsClosure(c, roots, out) && IsClosure(c, others, out')
    ensures out == out'
  {
    ByIDIsStrictWeak();
    forall r ensures Reachable(c, roots, r) <==> Reachable(c, others, r) {
      if Reachable(c, roots, r) {
        SameRoots(c, roots, others, r);
      }
      if Reachable(c, others, r) {
        SameRoots(c, others, roots, r);
      }
    }
    AscendingIsUnique(out, out', ByID);
  }

  lemma SameRoots(c: Catalog, roots: seq<Reference>, others: seq<Reference>, r: Reference)
    requires Elements(roots) <= Elements(others) && Reachable(c, roots, r)
    ensures Reachable(c, others, r)
  {
    var k :| 0 <= k < |roots| && Reaches(c, roots[k], r);
    assert roots[k] in Elements(others);
  }

  // ----- catalogs and closures on the programs themselves -----

  /** A reference names an ID and a version, and neither holds a blank, a tab or a line break. */
  predicate Referable(r: Reference) {
    r.id != "" && r.version != "" && forall c | c in " \t\r\n" :: c !in r.id && c !in r.version
  }

  lemma ReferableMeans(r: Reference)
    ensures ValidReference(r) <==> Referable(r)
  {
    var text := r.id + r.version;
    if ValidReference(r) {
      assert forall i | 0 <= i < |r.id| :: text[i] == r.id[i];
      assert forall i | 0 <= i < |r.version| :: text[|r.id| + i] == r.version[i];
    }
    if Referable(r) {
      assert " \t\r\n"[0] == ' ' && " \t\r\n"[1] == '\t' && " \t\r\n"[2] == '\r' && " \t\r\n"[3] == '\n';
      forall i | 0 <= i < |text| ensures text[i] in r.id || text[i] in r.version {
      }
    }
  }

  /** A catalog takes programs with resolvers and distinct, referable IDs, all of whose dependencies are among them. */
  lemma CatalogDemands(programs: seq<Program>)
    ensures Installable(programs) <==>
              && (forall p | p in programs :: Referable(p.reference) && p.hasResolver)
              && (forall i, j | 0 <= i < j < |programs| :: programs[i].reference.id != programs[j].reference.id)
              && (forall p, d | p in programs && d in p.dependencies :: exists other | other in programs :: other.reference == d)
  {
    forall r ensures ValidReference(r) <==> Referable(r) {
      ReferableMeans(r);
    }
    hide ValidReference, Referable;
    assert forall k | 0 <= k < |programs| :: programs[k] in programs;
    forall d ensures DeclaredAmong(d, programs) <==> exists other | other in programs :: other.reference == d {
    }
    hide DeclaredAmong;
    if Installable(programs) {
      forall p | p in programs
        ensures Referable(p.reference) && p.hasResolver
        ensures forall d | d in p.dependencies :: DeclaredAmong(d, programs)
      {
        var k :| 0 <= k < |programs| && programs[k] == p;
        assert ValidReference(programs[k].reference);
      }
    }
  }

  /** The dependencies of an installed program are the declared ones. */
  lemma DependenciesMean(c: Catalog, programs: seq<Program>, k: nat)
    requires Installable(programs) && Holds(c, programs) && k < |programs|
    ensures Dependencies(c, programs[k].reference) == programs[k].dependencies
  {
    hide ValidReference;
  }

  /** A set that holds the roots and, with a program, everything the program declares. */
  ghost predicate Absorbs(programs: seq<Program>, roots: seq<Reference>, whole: set<Reference>) {
    && (forall r | r in roots :: r in whole)
    && forall p, d | p in programs && p.reference in whole && d in p.dependencies :: d in whole
  }

  /** The closure lists the least set that holds the roots and every declared dependency, in ascending order of ID. */
  lemma ClosureIsLeast(c: Catalog, programs: seq<Program>, roots: seq<Reference>, out: seq<Reference>)
    requires Installable(programs) && Holds(c, programs) && IsClosure(c, roots, out)
    requires forall r | r in out :: Lookup(c, r).Some?
    ensures Absorbs(programs, roots, Elements(out))
    ensures forall whole | Absorbs(programs, roots, whole) :: Elements(out) <= whole
    ensures forall i, j | 0 <= i < j < |out| :: ComesBefore(out[i].id, out[j].id)
  {
    forall i, j | 0 <= i < j < |out| ensures ComesBefore(out[i].id, out[j].id) {
      assert ByID(out[i], out[j]);
      LessMeans(out[i].id, out[j].id);
    }
    hide ValidReference, ByID, ComesBefore;
    ClosureAbsorbs(c, programs, roots, out);
    forall whole | Absorbs(programs, roots, whole) ensures Elements(out) <= whole {
      AbsorbsClosure(c, programs, roots, out, whole);
    }
  }

  lemma ClosureAbsorbs(c: Catalog, programs: seq<Program>, roots: seq<Reference>, out: seq<Reference>)
    requires Installable(programs) && Holds(c, programs) && IsClosure(c, roots, out)
    ensures Absorbs(programs, roots, Elements(out))
  {
    hide Reaches, Dependencies, Ascending, ValidReference;
    forall r | r in roots ensures r in out {
      var k :| 0 <= k < |roots| && roots[k] == r;
      ReachesItself(c, r);
      assert Reachable(c, roots, r);
    }
    forall p, d | p in programs && p.reference in out && d in p.dependencies ensures d in out {
      var k :| 0 <= k < |programs| && programs[k] == p;
      DependenciesMean(c, programs, k);
      assert Reachable(c, roots, p.reference);
      var i :| 0 <= i < |roots| && Reaches(c, roots[i], p.reference);
      ReachesFurther(c, roots[i], p.reference, d);
      assert Reachable(c, roots, d);
    }
  }

  lemma ReachesFurther(c: Catalog, start: Reference, end: Reference, next: Reference)
    requires Reaches(c, start, end) && next in Dependencies(c, end)
    ensures Reaches(c, start, next)
  {
    var path :| Connects(c, path, start, end);
    var longer := path + [next];
    hide Dependencies;
    forall i | 0 <= i < |longer| - 1 ensures longer[i + 1] in Dependencies(c, longer[i]) {
      if i < |path| - 1 {
        assert path[i + 1] in Dependencies(c, path[i]);
      }
    }
    assert Connects(c, longer, start, next);
  }

  lemma AbsorbsClosure(
    c: Catalog, programs: seq<Program>, roots: seq<Reference>, out: seq<Reference>, whole: set<Reference>)
    requires Installable(programs) && Holds(c, programs) && IsClosure(c, roots, out) && Absorbs(programs, roots, whole)
    ensures Elements(out) <= whole
  {
    hide Ascending;
    assert Closed(c, whole, whole) by {
      forall r, d | r in whole && d in Dependencies(c, r) ensures d in whole {
        LookupInstalled(c, programs, r);
        var k :| 0 <= k < |programs| && programs[k].reference == r;
        DependenciesMean(c, programs, k);
        assert programs[k] in programs;
      }
    }
    hide Closed, Dependencies, Reaches;
    forall r | r in out ensures r in whole {
      assert Reachable(c, roots, r);
      var k :| 0 <= k < |roots| && Reaches(c, roots[k], r);
      assert roots[k] in roots;
      ClosedHoldsReachable(c, roots[k], r, whole);
    }
  }
}
