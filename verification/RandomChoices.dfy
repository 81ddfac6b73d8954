/**
 * The random chooser's answers that are drawn from the options. Generator calls are arbitrary values in their
 * documented range, and a shuffle is an arbitrary series of swaps.
 */
module RandomChoices {
  import opened Collections

  datatype Request = Request(options: seq<int>, minChoices: int, maxChoices: int)

  datatype Swap = Swap(i: nat, j: nat)

  predicate SwapsWithin(swaps: seq<Swap>, n: nat) {
    forall k | 0 <= k < |swaps| :: swaps[k].i < n && swaps[k].j < n
  }

  function Swapped<T>(s: seq<T>, swaps: seq<Swap>): (r: seq<T>)
    requires SwapsWithin(swaps, |s|)
    ensures |r| == |s|
  {
    if swaps == [] then s
    else
      var r, last := Swapped(s, swaps[..|swaps| - 1]), swaps[|swaps| - 1];
      r[last.i := r[last.j]][last.j := r[last.i]]
  }

  lemma {:induction false} SwappedKeepsAll<T>(s: seq<T>, swaps: seq<Swap>)
    requires SwapsWithin(swaps, |s|)
    ensures multiset(Swapped(s, swaps)) == multiset(s)
  {
    if swaps != [] {
      SwappedKeepsAll(s, swaps[..|swaps| - 1]);
    }
  }

  /** rng.Shuffle on the slice itself. */
  method Shuffle(a: array<int>, swaps: seq<Swap>)
    requires SwapsWithin(swaps, a.Length)
    modifies a
    ensures a[..] == Swapped(old(a[..]), swaps)
  {
    for k := 0 to |swaps|
      invariant a[..] == Swapped(old(a[..]), swaps[..k])
    {
      assert swaps[..k + 1][..k] == swaps[..k];
      var i, j := swaps[k].i, swaps[k].j;
      a[i], a[j] := a[j], a[i];
    }
    assert swaps[..|swaps|] == swaps;
  }

  method OptionIndices(request: Request) returns (indices: array<int>)
    ensures fresh(indices) && indices[..] == request.options
  {
    indices := new int[|request.options|];
    for i := 0 to |request.options|
      invariant forall k | 0 <= k < i :: indices[k] == request.options[k]
    {
      indices[i] := request.options[i];
    }
  }

  /** Every option exactly once, in whatever order the shuffle leaves. */
  method RandomPermutation(request: Request, swaps: seq<Swap>) returns (order: seq<int>)
    requires SwapsWithin(swaps, |request.options|)
    ensures order == Swapped(request.options, swaps)
    ensures multiset(order) == multiset(request.options)
  {
    var indices := OptionIndices(request);
    Shuffle(indices, swaps);
    SwappedKeepsAll(request.options, swaps);
    return indices[..];
  }

  /** Each option once, then one drawn option for each unit that is left. */
  function Allotted(options: seq<int>, total: nat, draws: nat -> nat): (units: seq<int>)
    requires |options| <= total && forall k: nat :: options != [] ==> draws(k) < |options|
    requires options != []
    ensures |units| == total
  {
    options + seq(total - |options|, (k: nat) => options[draws(k)])
  }

  /**
   * A multiset of the requested size in which every option appears; none when there are no options or fewer units
   * than options.
   */
  method RandomAllocation(request: Request, draws: nat -> nat, swaps: seq<Swap>) returns (selected: seq<int>)
    requires forall k: nat :: request.options != [] ==> draws(k) < |request.options|
    requires SwapsWithin(swaps, if request.minChoices < 0 then 0 else request.minChoices)
    ensures selected == [] <==> request.options == [] || request.minChoices < |request.options|
    ensures selected != [] ==> selected == Swapped(Allotted(request.options, request.minChoices, draws), swaps)
    ensures selected != [] ==>
              && |selected| == request.minChoices
              && multiset(request.options) <= multiset(selected)
              && forall x | x in selected :: x in request.options
  {
    var total, options := request.minChoices, request.options;
    if |options| == 0 || total < |options| {
      return [];
    }
    ghost var units := Allotted(options, total, draws);
    var chosen := new int[total];
    for i := 0 to |options|
      invariant forall k | 0 <= k < i :: chosen[k] == units[k]
    {
      chosen[i] := options[i];
    }
    for i := |options| to total
      invariant forall k | 0 <= k < i :: chosen[k] == units[k]
    {
      chosen[i] := options[draws(i - |options|)];
    }
    assert chosen[..] == units;
    Shuffle(chosen, swaps);
    selected := chosen[..];
    SwappedKeepsAll(units, swaps);
    forall x | x in selected ensures x in options {
      assert x in multiset(units);
      var k :| 0 <= k < |units| && units[k] == x;
    }
  }

  /** min(request.MaxChoices, len(indices)). */
  function Most(request: Request): int {
    if request.maxChoices < |request.options| then request.maxChoices else |request.options|
  }

  /** No answer, a slice bound out of range, or a selection. */
  datatype Selection = NoAnswer | OutOfRange | Selected(options: seq<int>)

  /** The number of options drawn. */
  function Drawn(request: Request, draw: nat -> nat): int
    requires request.minChoices <= Most(request)
  {
    request.minChoices + draw(Most(request) - request.minChoices + 1)
  }

  /**
   * A drawn number of options between the bounds, from distinct positions of the shuffled list. An answer is missing
   * exactly when the bounds leave no number to draw, and indices[:count] is out of range exactly when a negative
   * number is drawn.
   */
  method RandomSelection(request: Request, draw: nat -> nat, swaps: seq<Swap>) returns (answer: Selection)
    requires forall n: nat | n > 0 :: draw(n) < n
    requires SwapsWithin(swaps, |request.options|)
    ensures answer.NoAnswer? <==> Most(request) < request.minChoices
    ensures answer.OutOfRange? <==> request.minChoices <= Most(request) && Drawn(request, draw) < 0
    ensures answer.Selected? ==>
              && request.minChoices <= |answer.options| <= Most(request)
              && |answer.options| == Drawn(request, draw)
              && answer.options == Swapped(request.options, swaps)[..|answer.options|]
    ensures answer.Selected? ==> exists positions :: Embeds(positions, answer.options, request.options)
  {
    hide Swapped, Embeds;
    var hi := Most(request);
    if hi < request.minChoices {
      return NoAnswer;
    }
    var count := request.minChoices + draw(hi - request.minChoices + 1);
    if count < 0 {
      return OutOfRange;
    }
    var selected := ShuffledPrefix(request, count, swaps);
    ghost var positions := Embedding(selected, request.options);
    return Selected(selected);
  }

  /** A slice bound can be out of range for some draw exactly when the bounds admit a negative number. */
  lemma OnlyNegativeBoundsOverrun(request: Request)
    ensures (exists draw: nat -> nat :: (forall n: nat | n > 0 :: draw(n) < n)
                                        && request.minChoices <= Most(request) && Drawn(request, draw) < 0)
       <==> request.minChoices <= Most(request) && request.minChoices < 0
  {
    if request.minChoices <= Most(request) && request.minChoices < 0 {
      var least: nat -> nat := _ => 0;
      assert Drawn(request, least) < 0;
    }
  }

  method ShuffledPrefix(request: Request, count: nat, swaps: seq<Swap>) returns (selected: seq<int>)
    requires count <= |request.options| && SwapsWithin(swaps, |request.options|)
    ensures selected == Swapped(request.options, swaps)[..count]
    ensures multiset(selected) <= multiset(request.options)
  {
    hide Swapped;
    var indices := OptionIndices(request);
    Shuffle(indices, swaps);
    SwappedKeepsAll(request.options, swaps);
    PrefixIsPart(Swapped(request.options, swaps), count);
    return indices[..count];
  }

  lemma PrefixIsPart<T>(s: seq<T>, n: nat)
    requires n <= |s|
    ensures multiset(s[..n]) <= multiset(s)
  {
    assert s == s[..n] + s[n..];
  }

  // ----- every answer can be drawn -----

  lemma {:induction false} SwappedConcat<T>(s: seq<T>, first: seq<Swap>, rest: seq<Swap>)
    requires SwapsWithin(first, |s|) && SwapsWithin(rest, |s|)
    ensures SwapsWithin(first + rest, |s|)
    ensures Swapped(s, first + rest) == Swapped(Swapped(s, first), rest)
  {
    if rest == [] {
      assert first + rest == first;
    } else {
      SwappedConcat(s, first, rest[..|rest| - 1]);
      assert (first + rest)[..|first + rest| - 1] == first + rest[..|rest| - 1];
    }
  }

  lemma {:induction false} SwappedFront<T>(s: seq<T>, swaps: seq<Swap>)
    requires s != [] && SwapsWithin(swaps, |s| - 1)
    ensures Swapped(s, swaps) == Swapped(s[..|s| - 1], swaps) + [s[|s| - 1]]
  {
    if swaps == [] {
      assert s == s[..|s| - 1] + [s[|s| - 1]];
    } else {
      SwappedFront(s, swaps[..|swaps| - 1]);
    }
  }

  /** One swap brings a wanted element to the end, and the others are then still those of the target. */
  lemma SwapToEnd<T>(s: seq<T>, target: seq<T>) returns (moved: seq<T>, first: seq<Swap>)
    requires multiset(s) == multiset(target) && |s| == |target| > 0
    ensures SwapsWithin(first, |s|) && moved == Swapped(s, first) && |moved| == |s|
    ensures moved[|s| - 1] == target[|s| - 1]
    ensures multiset(moved[..|s| - 1]) == multiset(target[..|s| - 1])
  {
    var last := |s| - 1;
    assert target[last] in multiset(s);
    var k :| 0 <= k < |s| && s[k] == target[last];
    first := [Swap(k, last)];
    moved := Swapped(s, first);
    SwappedKeepsAll(s, first);
    assert Swapped(s, first[..0]) == s;
    assert moved == moved[..last] + [target[last]] && target == target[..last] + [target[last]];
    CancelOne(multiset(moved[..last]), multiset(target[..last]), target[last]);
    CancelOne(multiset(target[..last]), multiset(moved[..last]), target[last]);
  }

  /** Every rearrangement of the options can be shuffled. */
  lemma {:induction false} AnyOrderCanBeShuffled<T>(s: seq<T>, target: seq<T>) returns (swaps: seq<Swap>)
    requires multiset(s) == multiset(target)
    ensures SwapsWithin(swaps, |s|) && Swapped(s, swaps) == target
    decreases |s|
  {
    assert |s| == |multiset(s)| == |multiset(target)| == |target|;
    swaps := [];
    if s != [] {
      hide Swapped;
      var last := |s| - 1;
      var moved, first := SwapToEnd(s, target);
      var rest := AnyOrderCanBeShuffled(moved[..last], target[..last]);
      SwappedFront(moved, rest);
      SwappedConcat(s, first, rest);
      assert target == target[..last] + [target[last]];
      swaps := first + rest;
    }
  }

  /** Every allocation that gives each option its unit, and the others to any options, can be drawn. */
  lemma AnyAllocationCanBeDrawn(options: seq<int>, units: seq<int>) returns (draws: nat -> nat)
    requires options != [] && options <= units && forall x | x in units :: x in options
    ensures forall k: nat :: draws(k) < |options|
    ensures Allotted(options, |units|, draws) == units
  {
    draws := (k: nat) => DrawFor(options, units, k);
    forall k: nat ensures draws(k) < |options| {
      if k + |options| < |units| {
        assert units[k + |options|] in units;
        PositionIs(options, units[k + |options|]);
      }
    }
    forall i | |options| <= i < |units| ensures options[draws(i - |options|)] == units[i] {
      assert units[i] in units;
      PositionIs(options, units[i]);
    }
  }

  /** The draw that gives unit k behind the first ones to its option. */
  function DrawFor(options: seq<int>, units: seq<int>, k: nat): nat {
    if k + |options| < |units| then PositionOf(options, units[k + |options|]) else 0
  }

  function PositionOf(options: seq<int>, x: int): nat {
    if options == [] || options[0] == x then 0 else 1 + PositionOf(options[1..], x)
  }

  lemma {:induction false} PositionIs(options: seq<int>, x: int)
    requires x in options
    ensures PositionOf(options, x) < |options| && options[PositionOf(options, x)] == x
  {
    if options[0] != x {
      PositionIs(options[1..], x);
    }
  }

  /** Every number of options within the bounds can be drawn, and no other. */
  lemma AnyCountCanBeDrawn(request: Request, count: int)
    requires request.minChoices <= Most(request)
    ensures (exists draw: nat -> nat :: (forall n: nat | n > 0 :: draw(n) < n) && Drawn(request, draw) == count)
       <==> request.minChoices <= count && count <= request.maxChoices && count <= |request.options|
  {
    if request.minChoices <= count && count <= request.maxChoices && count <= |request.options| {
      var draw: nat -> nat := n => if count - request.minChoices < n then count - request.minChoices else 0;
      assert Drawn(request, draw) == count;
    }
  }
}
