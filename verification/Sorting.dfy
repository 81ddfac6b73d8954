/** The promises of slices.SortFunc and slices.SortStableFunc; callers rely on these alone. */
module Sorting {
  /** A comparison function as slices.SortFunc demands it: a strict weak order. */
  ghost predicate StrictWeak<T(!new)>(less: (T, T) -> bool) {
    && (forall x, y :: !(less(x, y) && less(y, x)))
    && (forall x, y, z :: !less(x, y) && !less(y, z) ==> !less(x, z))
  }

  ghost predicate Sorted<T>(s: seq<T>, less: (T, T) -> bool) {
    forall i, j | 0 <= i < j < |s| :: !less(s[j], s[i])
  }

  function Filter<T>(s: seq<T>, keep: T -> bool): (kept: seq<T>)
    ensures |kept| <= |s|
  {
    if s == [] then []
    else Filter(s[..|s| - 1], keep) + if keep(s[|s| - 1]) then [s[|s| - 1]] else []
  }

  /** A class of elements no two of which are ordered. */
  ghost predicate Tied<T(!new)>(tied: T -> bool, less: (T, T) -> bool) {
    forall x, y | tied(x) && tied(y) :: !less(x, y)
  }

  lemma {:induction false} FilterMembers<T>(s: seq<T>, keep: T -> bool)
    ensures forall x | x in Filter(s, keep) :: x in s && keep(x)
    ensures forall x | x in s && keep(x) :: x in Filter(s, keep)
  {
    if s != [] {
      FilterMembers(s[..|s| - 1], keep);
      assert s == s[..|s| - 1] + [s[|s| - 1]];
    }
  }

  /** What is kept is kept as often as it occurs. */
  lemma {:induction false} FilterCounts<T>(s: seq<T>, keep: T -> bool, x: T)
    ensures multiset(Filter(s, keep))[x] == if keep(x) then multiset(s)[x] else 0
  {
    if s != [] {
      FilterCounts(s[..|s| - 1], keep, x);
      assert s == s[..|s| - 1] + [s[|s| - 1]];
      assert multiset(s) == multiset(s[..|s| - 1]) + multiset{s[|s| - 1]};
    }
  }

  /** The kept elements stand where they stood before one another: their positions ascend, and none is missing. */
  lemma {:induction false} FilterOrder<T>(s: seq<T>, keep: T -> bool) returns (order: seq<nat>)
    ensures |order| == |Filter(s, keep)|
    ensures forall i | 0 <= i < |order| :: order[i] < |s| && Filter(s, keep)[i] == s[order[i]]
    ensures forall i, j | 0 <= i < j < |order| :: order[i] < order[j]
    ensures forall k: nat | k < |s| :: k in order <==> keep(s[k])
  {
    if s == [] {
      order := [];
    } else {
      var last := |s| - 1;
      order := FilterOrder(s[..last], keep);
      if keep(s[last]) {
        order := order + [last];
      }
    }
  }

  /** The positions of the elements to keep. */
  ghost function Positions<T>(s: seq<T>, keep: T -> bool): set<nat> {
    set i: nat | i < |s| && keep(s[i])
  }

  lemma {:induction false} FilterSize<T>(s: seq<T>, keep: T -> bool)
    ensures |Filter(s, keep)| == |Positions(s, keep)|
  {
    if s != [] {
      var last := |s| - 1;
      FilterSize(s[..last], keep);
      PositionsStep(s, keep);
      assert last !in Positions(s[..last], keep);
      hide Positions;
    }
  }

  lemma PositionsStep<T>(s: seq<T>, keep: T -> bool)
    requires s != []
    ensures Positions(s, keep) == Positions(s[..|s| - 1], keep) + if keep(s[|s| - 1]) then {|s| - 1} else {}
  {
  }

  lemma {:induction false} FilterConcat<T>(a: seq<T>, b: seq<T>, keep: T -> bool)
    ensures Filter(a + b, keep) == Filter(a, keep) + Filter(b, keep)
  {
    if b == [] {
      assert a + b == a;
    } else {
      FilterConcat(a, b[..|b| - 1], keep);
      var front, last := b[..|b| - 1], b[|b| - 1];
      assert (a + b)[..|a + b| - 1] == a + front && (a + b)[|a + b| - 1] == last;
      var more := if keep(last) then [last] else [];
      assert Filter(a + b, keep) == Filter(a + front, keep) + more;
      assert Filter(b, keep) == Filter(front, keep) + more;
    }
  }

  lemma {:induction false} FilterNone<T>(s: seq<T>, keep: T -> bool)
    requires forall x | x in s :: !keep(x)
    ensures Filter(s, keep) == []
  {
    if s != [] {
      FilterNone(s[..|s| - 1], keep);
    }
  }

  lemma {:induction false} FilterAll<T>(s: seq<T>, keep: T -> bool)
    requires forall x | x in s :: keep(x)
    ensures Filter(s, keep) == s
  {
    if s != [] {
      FilterAll(s[..|s| - 1], keep);
      assert s == s[..|s| - 1] + [s[|s| - 1]];
    }
  }

  /** Everything from position k on is greater than x. */
  ghost predicate AllAbove<T>(s: seq<T>, k: nat, x: T, less: (T, T) -> bool) {
    forall i | k <= i < |s| :: less(x, s[i])
  }

  lemma FilterInserted<T>(s: seq<T>, k: nat, x: T, keep: T -> bool)
    requires k <= |s|
    ensures Filter(Inserted(s, k, x), keep) == Filter(s[..k], keep) + Filter([x], keep) + Filter(s[k..], keep)
  {
    FilterThree(s[..k], [x], s[k..], keep);
    hide Filter;
  }

  lemma FilterSplit<T>(s: seq<T>, k: nat, keep: T -> bool)
    requires k <= |s|
    ensures Filter(s, keep) == Filter(s[..k], keep) + Filter(s[k..], keep)
  {
    hide Filter;
    FilterConcat(s[..k], s[k..], keep);
    assert s == s[..k] + s[k..];
  }

  lemma FilterThree<T>(a: seq<T>, b: seq<T>, c: seq<T>, keep: T -> bool)
    ensures Filter(a + b + c, keep) == Filter(a, keep) + Filter(b, keep) + Filter(c, keep)
  {
    hide Filter;
    FilterConcat(a + b, c, keep);
    FilterConcat(a, b, keep);
  }

  lemma NoTiesAbove<T(!new)>(s: seq<T>, k: nat, x: T, less: (T, T) -> bool, tied: T -> bool)
    requires k <= |s| && Tied(tied, less) && AllAbove(s, k, x, less) && tied(x)
    ensures Filter(s[k..], tied) == []
  {
    forall y | y in s[k..] ensures !tied(y) {
      var i :| k <= i < |s| && s[i] == y;
      assert less(x, s[i]);
    }
    hide Tied, AllAbove;
    FilterNone(s[k..], tied);
  }

  /** Inserting behind every element that is not greater keeps the order among tied elements. */
  lemma InsertKeepsTies<T(!new)>(s: seq<T>, k: nat, x: T, less: (T, T) -> bool, tied: T -> bool)
    requires k <= |s| && Tied(tied, less) && AllAbove(s, k, x, less)
    ensures Filter(Inserted(s, k, x), tied) == Filter(s, tied) + Filter([x], tied)
  {
    hide Filter, Inserted, Tied, AllAbove;
    FilterInserted(s, k, x, tied);
    FilterSplit(s, k, tied);
    if tied(x) {
      NoTiesAbove(s, k, x, less, tied);
    } else {
      FilterNone([x], tied);
    }
  }

  ghost function Inserted<T>(s: seq<T>, k: nat, x: T): seq<T>
    requires k <= |s|
  {
    s[..k] + [x] + s[k..]
  }

  lemma InsertedMultiset<T>(s: seq<T>, k: nat, x: T)
    requires k <= |s|
    ensures multiset(Inserted(s, k, x)) == multiset(s) + multiset{x}
  {
    assert s == s[..k] + s[k..];
  }

  /** Everything before the insertion point is not greater, everything after it is. */
  lemma InsertKeepsOrder<T(!new)>(s: seq<T>, k: nat, x: T, less: (T, T) -> bool)
    requires StrictWeak(less) && Sorted(s, less) && k <= |s|
    requires AllAbove(s, k, x, less)
    requires k > 0 ==> !less(x, s[k - 1])
    ensures Sorted(Inserted(s, k, x), less)
  {
    forall i | 0 <= i < k ensures !less(x, s[i]) {
      if i < k - 1 {
        assert !less(s[k - 1], s[i]);
      }
    }
    forall i | k <= i < |s| ensures !less(s[i], x) {
      assert less(x, s[i]);
    }
    hide StrictWeak;
    var r := Inserted(s, k, x);
    forall i, j | 0 <= i < j < |r| ensures !less(r[j], r[i]) {
      InsertedAt(s, k, x, i);
      InsertedAt(s, k, x, j);
    }
  }

  lemma InsertedAt<T>(s: seq<T>, k: nat, x: T, i: nat)
    requires k <= |s| && i <= |s|
    ensures Inserted(s, k, x)[i] == if i < k then s[i] else if i == k then x else s[i - 1]
  {
  }

  method SortStable<T(!new)>(s: seq<T>, less: (T, T) -> bool) returns (r: seq<T>)
    requires StrictWeak(less)
    ensures multiset(r) == multiset(s) && Sorted(r, less)
    ensures forall tied: T -> bool | Tied(tied, less) :: Filter(r, tied) == Filter(s, tied)
  {
    r := [];
    for i := 0 to |s|
      invariant multiset(r) == multiset(s[..i]) && Sorted(r, less)
      invariant forall tied: T -> bool | Tied(tied, less) :: Filter(r, tied) == Filter(s[..i], tied)
    {
      var x := s[i];
      var k: nat := |r|;
      while k > 0 && less(x, r[k - 1])
        invariant k <= |r|
        invariant AllAbove(r, k, x, less)
      {
        k := k - 1;
      }
      assert s[..i + 1] == s[..i] + [x];
      InsertKeepsOrder(r, k, x, less);
      InsertedMultiset(r, k, x);
      forall tied: T -> bool | Tied(tied, less)
        ensures Filter(Inserted(r, k, x), tied) == Filter(s[..i + 1], tied)
      {
        InsertKeepsTies(r, k, x, less, tied);
        FilterConcat(s[..i], [x], tied);
      }
      r := r[..k] + [x] + r[k..];
    }
    assert s[..|s|] == s;
  }

  /** slices.SortFunc promises nothing about ties. */
  method Sort<T(!new)>(s: seq<T>, less: (T, T) -> bool) returns (r: seq<T>)
    requires StrictWeak(less)
    ensures multiset(r) == multiset(s) && Sorted(r, less)
  {
    r := SortStable(s, less);
  }
}
