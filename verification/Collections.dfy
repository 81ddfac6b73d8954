/** Facts about sequences, sets and sums that several components rely on. */
module Collections {

  ghost predicate Distinct<T>(s: seq<T>) {
    forall i, j | 0 <= i < j < |s| :: s[i] != s[j]
  }

  ghost function Elements<T>(s: seq<T>): set<T> {
    set x | x in s
  }

  /** A sequence without repetition has as many elements as positions. */
  lemma {:induction false} DistinctSize<T>(s: seq<T>)
    requires Distinct(s)
    ensures |Elements(s)| == |s|
  {
    if s != [] {
      var last := |s| - 1;
      DistinctSize(s[..last]);
      assert Elements(s) == Elements(s[..last]) + {s[last]};
    }
  }

  lemma DistinctConcat<T>(a: seq<T>, b: seq<T>)
    ensures Distinct(a + b) <==> Distinct(a) && Distinct(b) && Elements(a) !! Elements(b)
  {
    if Distinct(a + b) {
      forall i, j | 0 <= i < j < |a| ensures a[i] != a[j] {
        assert (a + b)[i] == a[i] && (a + b)[j] == a[j];
      }
      forall i, j | 0 <= i < j < |b| ensures b[i] != b[j] {
        assert (a + b)[|a| + i] == b[i] && (a + b)[|a| + j] == b[j];
      }
      forall i, j | 0 <= i < |a| && 0 <= j < |b| ensures a[i] != b[j] {
        assert (a + b)[i] == a[i] && (a + b)[|a| + j] == b[j];
      }
    } else if i, j :| 0 <= i < j < |a + b| && (a + b)[i] == (a + b)[j] {
      if i < |a| <= j {
        assert a[i] in Elements(a) && b[j - |a|] in Elements(b);
      }
    }
  }

  lemma {:induction false} SubsetSize<T>(a: set<T>, b: set<T>)
    requires a <= b
    ensures |a| <= |b|
    ensures |a| == |b| ==> a == b
  {
    if a != b {
      var x :| x in b && x !in a;
      assert a <= b - {x};
      SubsetSize(a, b - {x});
    }
  }

  /** Pigeonhole: as many distinct elements as the distinct range they are drawn from cover that range. */
  lemma Pigeonhole<T>(drawn: seq<T>, range: seq<T>)
    requires Distinct(drawn) && Distinct(range)
    requires |drawn| == |range|
    requires forall x | x in drawn :: x in range
    ensures forall x | x in range :: x in drawn
  {
    DistinctSize(drawn);
    DistinctSize(range);
    SubsetSize(Elements(drawn), Elements(range));
    forall x | x in range ensures x in drawn {
      assert x in Elements(range);
    }
  }

  /** The value of a Go map at a key: the zero value when the key is missing. */
  function Get<K, V>(m: map<K, V>, key: K, zero: V): V {
    if key in m then m[key] else zero
  }

  /** The rearrangement that turns part of one sequence into another. */
  ghost predicate Embeds<T>(order: seq<nat>, part: seq<T>, whole: seq<T>) {
    && |order| == |part|
    && Distinct(order)
    && (forall i | 0 <= i < |part| :: order[i] < |whole| && part[i] == whole[order[i]])
  }

  function Without<T>(s: seq<T>, j: nat): (r: seq<T>)
    requires j < |s|
    ensures |r| == |s| - 1
  {
    s[..j] + s[j + 1..]
  }

  lemma WithoutSplits<T>(s: seq<T>, j: nat)
    requires j < |s|
    ensures multiset(s) == multiset(Without(s, j)) + multiset{s[j]}
  {
    assert s == s[..j] + [s[j]] + s[j + 1..];
  }

  lemma CancelOne<T>(a: multiset<T>, b: multiset<T>, x: T)
    requires a + multiset{x} <= b + multiset{x}
    ensures a <= b
  {
    forall e ensures a[e] <= b[e] {
      assert (a + multiset{x})[e] <= (b + multiset{x})[e];
    }
  }

  /** An embedding of the tail around position j of the whole extends to the first element. */
  lemma WidenEmbedding<T>(tail: seq<nat>, part: seq<T>, whole: seq<T>, j: nat) returns (order: seq<nat>)
    requires part != [] && j < |whole| && part[0] == whole[j]
    requires Embeds(tail, part[1..], Without(whole, j))
    ensures Embeds(order, part, whole)
  {
    var shifted := seq(|tail|, i requires 0 <= i < |tail| => if tail[i] < j then tail[i] else tail[i] + 1);
    order := [j] + shifted;
    forall i | 0 < i < |part| ensures order[i] < |whole| && part[i] == whole[order[i]] {
      assert order[i] == shifted[i - 1];
      assert part[i] == part[1..][i - 1] == Without(whole, j)[tail[i - 1]];
    }
    forall a, b | 0 <= a < b < |order| ensures order[a] != order[b] {
      assert order[b] == shifted[b - 1];
      if a > 0 {
        assert order[a] == shifted[a - 1] && tail[a - 1] != tail[b - 1];
      }
    }
  }

  /** Multiset inclusion is realised by distinct positions. */
  lemma {:induction false} Embedding<T>(part: seq<T>, whole: seq<T>) returns (order: seq<nat>)
    requires multiset(part) <= multiset(whole)
    ensures Embeds(order, part, whole)
  {
    if part == [] {
      order := [];
    } else {
      assert part[0] in multiset(part);
      var j :| 0 <= j < |whole| && whole[j] == part[0];
      WithoutSplits(whole, j);
      WithoutSplits(part, 0);
      assert Without(part, 0) == part[1..];
      CancelOne(multiset(part[1..]), multiset(Without(whole, j)), part[0]);
      var tail := Embedding(part[1..], Without(whole, j));
      order := WidenEmbedding(tail, part, whole, j);
    }
  }

  /** Between sequences of the same length an embedding reaches every position. */
  lemma EmbeddingCovers<T>(order: seq<nat>, part: seq<T>, whole: seq<T>)
    requires Embeds(order, part, whole) && |part| == |whole|
    ensures forall k: nat | k < |whole| :: k in order
  {
    var positions := seq(|whole|, (i: nat) => i);
    assert forall x | x in order :: x < |whole| && positions[x] == x;
    Pigeonhole(order, positions);
    forall k: nat | k < |whole| ensures k in order {
      assert positions[k] == k;
    }
  }

  /** Strictly ascending under an asymmetric order. */
  ghost predicate Ascending<T(!new)>(s: seq<T>, less: (T, T) -> bool) {
    forall i, j | 0 <= i < j < |s| :: less(s[i], s[j])
  }

  /** Two strictly ascending sequences with the same elements are the same sequence. */
  lemma {:induction false} AscendingIsUnique<T(!new)>(a: seq<T>, b: seq<T>, less: (T, T) -> bool)
    requires forall x, y :: !(less(x, y) && less(y, x))
    requires Ascending(a, less) && Ascending(b, less)
    requires forall x :: x in a <==> x in b
    ensures a == b
  {
    assert Distinct(a) && Distinct(b);
    DistinctSize(a);
    DistinctSize(b);
    assert Elements(a) == Elements(b);
    if a != [] {
      assert a[0] in b && b[0] in a;
      assert a[0] == b[0];
      forall x ensures x in a[1..] <==> x in b[1..] {
        assert x in a[1..] <==> x in a && x != a[0];
        assert x in b[1..] <==> x in b && x != b[0];
      }
      AscendingIsUnique(a[1..], b[1..], less);
    }
  }

  function Sum(weights: seq<int>): int {
    if weights == [] then 0 else Sum(weights[..|weights| - 1]) + weights[|weights| - 1]
  }

  lemma {:induction false} SumWithout(weights: seq<int>, k: nat)
    requires k < |weights|
    ensures Sum(weights) == Sum(Without(weights, k)) + weights[k]
  {
    var last := |weights| - 1;
    if k == last {
      assert Without(weights, k) == weights[..last];
    } else {
      SumWithout(weights[..last], k);
      assert Without(weights, k)[..last - 1] == Without(weights[..last], k);
    }
  }

  lemma EmbedsWithoutLast<T>(order: seq<nat>, part: seq<T>, whole: seq<T>, i: nat)
    requires whole != [] && Embeds(order, part, whole) && i < |order| && order[i] == |whole| - 1
    ensures Embeds(Without(order, i), Without(part, i), whole[..|whole| - 1]) && part[i] == whole[|whole| - 1]
  {
    var rest := Without(order, i);
    forall k | 0 <= k < |rest| ensures rest[k] == order[if k < i then k else k + 1] {
    }
  }

  lemma {:induction false} SumRearranged(order: seq<nat>, part: seq<int>, whole: seq<int>)
    requires Embeds(order, part, whole) && |part| == |whole|
    ensures Sum(part) == Sum(whole)
  {
    if whole != [] {
      var last := |whole| - 1;
      EmbeddingCovers(order, part, whole);
      assert last in order;
      var i :| 0 <= i < |order| && order[i] == last;
      hide Embeds, Without;
      SumWithout(part, i);
      EmbedsWithoutLast(order, part, whole, i);
      SumRearranged(Without(order, i), Without(part, i), whole[..last]);
    }
  }

  lemma {:induction false} SumNonNegative(weights: seq<int>)
    requires forall i | 0 <= i < |weights| :: weights[i] >= 0
    ensures Sum(weights) >= 0
  {
    if weights != [] {
      SumNonNegative(weights[..|weights| - 1]);
    }
  }

  lemma {:induction false} SumPointwise(lower: seq<int>, upper: seq<int>)
    requires |lower| == |upper|
    requires forall i | 0 <= i < |lower| :: lower[i] <= upper[i]
    ensures Sum(lower) <= Sum(upper)
  {
    if lower != [] {
      SumPointwise(lower[..|lower| - 1], upper[..|upper| - 1]);
    }
  }

  /** Distinct positions draw a sub-bag. */
  lemma {:induction false} EmbeddedMultiset<T>(order: seq<nat>, part: seq<T>, whole: seq<T>)
    requires Embeds(order, part, whole)
    ensures multiset(part) <= multiset(whole)
    decreases |part|
  {
    if part != [] {
      var last := |part| - 1;
      var k := order[last];
      var shifted := Skip(order[..last], k);
      assert Embeds(shifted, part[..last], Without(whole, k)) by {
        assert forall i | 0 <= i < last :: order[..last][i] == order[i] && order[i] != k;
      }
      EmbeddedMultiset(shifted, part[..last], Without(whole, k));
      WithoutSplits(whole, k);
      assert part == part[..last] + [part[last]];
    }
  }

  /** Positions renumbered for a sequence that lost position k. */
  ghost function Skip(order: seq<nat>, k: nat): (shifted: seq<nat>)
    requires forall i | 0 <= i < |order| :: order[i] != k
    ensures |shifted| == |order|
  {
    seq(|order|, i requires 0 <= i < |order| => if order[i] < k then order[i] else order[i] - 1)
  }

  /** A sum over some of the positions of non-negative weights is no larger. */
  lemma {:induction false} EmbeddedSum(order: seq<nat>, part: seq<int>, whole: seq<int>)
    requires Embeds(order, part, whole) && forall i | 0 <= i < |whole| :: whole[i] >= 0
    ensures Sum(part) <= Sum(whole)
    decreases |part|
  {
    if part == [] {
      SumNonNegative(whole);
    } else {
      var last := |part| - 1;
      var k := order[last];
      var shifted := Skip(order[..last], k);
      assert Embeds(shifted, part[..last], Without(whole, k)) by {
        assert forall i | 0 <= i < last :: order[..last][i] == order[i] && order[i] != k;
      }
      SumWithout(whole, k);
      assert forall i | 0 <= i < |whole| - 1 :: Without(whole, k)[i] == whole[if i < k then i else i + 1];
      EmbeddedSum(shifted, part[..last], Without(whole, k));
    }
  }

  /** A sequence lists a set without repetition exactly when it has the elements of the set, each once. */
  lemma ListsOnce<T>(s: seq<T>, whole: set<T>)
    ensures Distinct(s) && Elements(s) == whole <==> multiset(s) == multiset(whole)
  {
    if multiset(s) == multiset(whole) {
      forall i, j | 0 <= i < j < |s| ensures s[i] != s[j] {
        assert s == s[..j] + s[j..];
        assert multiset(s)[s[j]] == multiset(s[..j])[s[j]] + multiset(s[j..])[s[j]];
        assert s[i] in s[..j] ==> multiset(s[..j])[s[i]] > 0;
        assert s[..j][i] == s[i] && s[j..][0] == s[j];
      }
      forall x ensures x in Elements(s) <==> x in whole {
        assert x in s <==> x in multiset(s);
      }
    }
    if Distinct(s) && Elements(s) == whole {
      forall x ensures multiset(s)[x] == multiset(whole)[x] {
        DistinctCount(s, x);
      }
    }
  }

  lemma {:induction false} DistinctCount<T>(s: seq<T>, x: T)
    requires Distinct(s)
    ensures multiset(s)[x] == if x in s then 1 else 0
  {
    if s != [] {
      var last := |s| - 1;
      DistinctCount(s[..last], x);
      assert s == s[..last] + [s[last]];
    }
  }
}
