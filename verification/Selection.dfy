/** Giving up the cheapest: sorting and taking the first n is an optimal choice of n. */
module Selection {
  import opened Battlefield
  import opened Collections
  import opened Options
  import opened Sorting

  const THREAT_SCORE_UNIT := 3.0

  function SumOf(values: seq<real>): real {
    if values == [] then 0.0 else SumOf(values[..|values| - 1]) + values[|values| - 1]
  }

  lemma {:induction false} SumOfWithout(values: seq<real>, k: nat)
    requires k < |values|
    ensures SumOf(values) == SumOf(Without(values, k)) + values[k]
  {
    var last := |values| - 1;
    if k == last {
      assert Without(values, k) == values[..last];
    } else {
      SumOfWithout(values[..last], k);
      assert Without(values, k)[..last - 1] == Without(values[..last], k);
    }
  }

  /** A choice of n items by distinct positions. */
  ghost predicate IsChoice<T>(choice: seq<nat>, items: seq<T>, n: int) {
    |choice| == n && Distinct(choice) && forall i | 0 <= i < |choice| :: choice[i] < |items|
  }

  ghost function Values<T>(choice: seq<nat>, items: seq<T>, value: T -> real): seq<real>
    requires forall i | 0 <= i < |choice| :: choice[i] < |items|
  {
    seq(|choice|, i requires 0 <= i < |choice| => value(items[choice[i]]))
  }

  ghost function Cost<T>(choice: seq<nat>, items: seq<T>, value: T -> real): real
    requires forall i | 0 <= i < |choice| :: choice[i] < |items|
  {
    SumOf(Values(choice, items, value))
  }

  /** No choice of as many items costs less. */
  ghost predicate IsCheapest<T(!new)>(choice: seq<nat>, items: seq<T>, value: T -> real, n: int) {
    && IsChoice(choice, items, n)
    && forall other | IsChoice(other, items, n) :: Cost(choice, items, value) <= Cost(other, items, value)
  }

  ghost predicate AscendingValues(values: seq<real>) {
    forall i, j | 0 <= i < j < |values| :: values[i] <= values[j]
  }

  lemma DropLast(front: seq<real>, last: real, chosen: seq<real>)
    requires multiset(chosen) <= multiset(front + [last]) && last !in chosen
    ensures multiset(chosen) <= multiset(front)
  {
    forall x ensures multiset(chosen)[x] <= multiset(front)[x] {
      assert multiset(front + [last]) == multiset(front) + multiset{last};
      assert x in multiset(chosen) ==> x in chosen;
    }
  }

  lemma SpendLast(front: seq<real>, last: real, chosen: seq<real>, k: nat)
    requires multiset(chosen) <= multiset(front + [last]) && k < |chosen| && chosen[k] == last
    ensures multiset(Without(chosen, k)) <= multiset(front)
  {
    WithoutSplits(chosen, k);
    CancelOne(multiset(Without(chosen, k)), multiset(front), last);
  }

  lemma NoMore(chosen: seq<real>, sorted: seq<real>)
    requires multiset(chosen) <= multiset(sorted)
    ensures |chosen| <= |sorted|
  {
    var order := Embedding(chosen, sorted);
    EmbeddingFits(order, chosen, sorted);
  }

  lemma EmbeddingFits<T>(order: seq<nat>, part: seq<T>, whole: seq<T>)
    requires Embeds(order, part, whole)
    ensures |part| <= |whole|
  {
    var positions: seq<nat> := seq(|whole|, (i: nat) => i);
    DistinctSize(order);
    DistinctSize(positions);
    assert forall x | x in order :: x < |whole| && positions[x] == x;
    SubsetSize(Elements(order), Elements(positions));
  }

  /** The first n of an ascending list sum to no more than any n of them. */
  lemma {:induction false} PrefixIsCheapest(sorted: seq<real>, chosen: seq<real>)
    requires AscendingValues(sorted) && multiset(chosen) <= multiset(sorted)
    ensures |chosen| <= |sorted|
    ensures SumOf(sorted[..|chosen|]) <= SumOf(chosen)
  {
    hide Without, AscendingValues;
    NoMore(chosen, sorted);
    if sorted != [] {
      var last, front, n := sorted[|sorted| - 1], sorted[..|sorted| - 1], |chosen|;
      assert sorted == front + [last];
      FrontAscends(sorted);
      if k :| 0 <= k < n && chosen[k] == last {
        hide SumOf;
        SpendLast(front, last, chosen, k);
        PrefixIsCheapest(front, Without(chosen, k));
        SumOfWithout(chosen, k);
        PrefixGrows(sorted, n);
      } else {
        hide SumOf;
        DropLast(front, last, chosen);
        PrefixIsCheapest(front, chosen);
        assert front[..n] == sorted[..n];
      }
    }
  }

  lemma FrontAscends(sorted: seq<real>)
    requires AscendingValues(sorted) && sorted != []
    ensures AscendingValues(sorted[..|sorted| - 1])
  {
  }

  lemma PrefixGrows(sorted: seq<real>, n: nat)
    requires AscendingValues(sorted) && 0 < n <= |sorted|
    ensures SumOf(sorted[..n]) <= SumOf(sorted[..|sorted| - 1][..n - 1]) + sorted[|sorted| - 1]
  {
    assert sorted[..n][..n - 1] == sorted[..|sorted| - 1][..n - 1];
  }

  ghost function Map<T>(items: seq<T>, value: T -> real): (values: seq<real>)
    ensures |values| == |items|
  {
    seq(|items|, i requires 0 <= i < |items| => value(items[i]))
  }

  /** An item that is sorted behind the first n. */
  ghost predicate Later<T>(item: T, sorted: seq<T>, n: nat) {
    exists k | n <= k < |sorted| :: sorted[k] == item
  }

  /** Sorting by value and taking the first n realises a cheapest choice. */
  lemma SortedPrefixIsCheapest<T(!new)>(items: seq<T>, sorted: seq<T>, value: T -> real, n: nat) returns (choice: seq<nat>)
    requires multiset(sorted) == multiset(items) && n <= |items|
    requires AscendingValues(Map(sorted, value))
    ensures |sorted| == |items|
    ensures IsCheapest(choice, items, value, n)
    ensures forall i | 0 <= i < n :: items[choice[i]] == sorted[i]
    ensures Cost(choice, items, value) == SumOf(Map(sorted, value)[..n])
    ensures forall j: nat | j < |items| && j !in choice :: Later(items[j], sorted, n)
  {
    assert |sorted| == |multiset(sorted)| == |items|;
    var order := Embedding(sorted, items);
    choice := order[..n];
    EmbeddingCovers(order, sorted, items);
    assert forall m | 0 <= m < n :: order[m] in choice;
    forall j: nat | j < |items| && j !in choice ensures Later(items[j], sorted, n) {
      assert j in order;
      var k :| 0 <= k < |order| && order[k] == j;
    }
    assert Values(choice, items, value) == Map(sorted, value)[..n];
    forall other | IsChoice(other, items, n) ensures Cost(choice, items, value) <= Cost(other, items, value) {
      ChosenAreAmong(items, sorted, value, other, order);
      PrefixIsCheapest(Map(sorted, value), Values(other, items, value));
    }
  }

  lemma ChosenAreAmong<T>(items: seq<T>, sorted: seq<T>, value: T -> real, other: seq<nat>, order: seq<nat>)
    requires |sorted| == |items| && Embeds(order, sorted, items)
    requires Distinct(other) && forall i | 0 <= i < |other| :: other[i] < |items|
    ensures multiset(Values(other, items, value)) <= multiset(Map(sorted, value))
  {
    assert Embeds(other, Values(other, items, value), Map(items, value));
    EmbeddedMultiset(other, Values(other, items, value), Map(items, value));
    assert Embeds(order, Map(sorted, value), Map(items, value));
    EmbeddedMultiset(order, Map(sorted, value), Map(items, value));
    SameSizeSubset(multiset(Map(sorted, value)), multiset(Map(items, value)));
  }

  lemma {:induction false} SameSizeSubset<T>(a: multiset<T>, b: multiset<T>)
    requires a <= b && |a| == |b|
    ensures a == b
  {
    assert b == a + (b - a);
    assert |b - a| == 0;
  }

  // ----- sacrificing the weakest creatures -----

  predicate Lower(a: real, b: real) {
    a < b
  }

  predicate OwnCreature(p: Permanent, me: nat) {
    p.controller == me && p.IsCreature()
  }

  ghost function Creatures(obs: Observation): seq<Permanent> {
    Filter(obs.battlefield, p => OwnCreature(p, obs.player))
  }

  /** The creatures to choose from are those the agent controls, each as often as it is there. */
  lemma CreaturesMean(obs: Observation, p: Permanent)
    ensures multiset(Creatures(obs))[p] ==
            if p.controller == obs.player && Creature in p.types then multiset(obs.battlefield)[p] else 0
  {
    FilterCounts(obs.battlefield, (p: Permanent) => OwnCreature(p, obs.player), p);
  }

  function Identity(x: real): real {
    x
  }

  function Fewer(n: int, available: nat): nat {
    if n <= 0 then 0 else if n < available then n else available
  }

  /** The value of sacrificing n creatures; threat is the agent's estimate of one permanent. */
  method WeakestCreaturesValue(obs: Observation, n: int, threat: Permanent -> real) returns (value: real)
    ensures var creatures := Creatures(obs);
            var size := if n <= 0 then 0 else if n < |creatures| then n else |creatures|;
            exists choice :: IsCheapest(choice, creatures, threat, size) && value == 3.0 * Cost(choice, creatures, threat)
  {
    ghost var creatures := Creatures(obs);
    if n <= 0 {
      assert IsCheapest([], creatures, threat, 0) && Cost([], creatures, threat) == 0.0;
      return 0.0;
    }
    var threats: seq<real> := [];
    ghost var mine := (p: Permanent) => OwnCreature(p, obs.player);
    for i := 0 to |obs.battlefield|
      invariant threats == Map(Filter(obs.battlefield[..i], mine), threat)
    {
      var permanent := obs.battlefield[i];
      assert obs.battlefield[..i + 1][..i] == obs.battlefield[..i];
      if permanent.controller != obs.player || !permanent.IsCreature() {
        continue;
      }
      threats := threats + [threat(permanent)];
    }
    assert obs.battlefield[..|obs.battlefield|] == obs.battlefield;
    var count := Fewer(n, |threats|);
    value := SumOfLowest(threats, count);
    ghost var choice :| IsCheapest(choice, threats, Identity, count) && value == Cost(choice, threats, Identity);
    ThreatsStandForCreatures(creatures, threats, threat, choice, count);
    value := THREAT_SCORE_UNIT * value;
  }

  lemma LowerIsStrictWeak()
    ensures StrictWeak(Lower)
  {
  }

  lemma SortedAscends(sorted: seq<real>)
    requires Sorted(sorted, Lower)
    ensures AscendingValues(Map(sorted, Identity)) && Map(sorted, Identity) == sorted
  {
    forall i | 0 <= i < |sorted| ensures Map(sorted, Identity)[i] == sorted[i] {
      assert Map(sorted, Identity)[i] == Identity(sorted[i]);
    }
    assert Map(sorted, Identity) == sorted;
    assert forall i, j | 0 <= i < j < |sorted| :: !Lower(sorted[j], sorted[i]);
  }

  /** The sort and the second loop: the first count of the sorted threats. */
  method SumOfLowest(threats: seq<real>, count: nat) returns (sum: real)
    requires count <= |threats|
    ensures exists choice :: IsCheapest(choice, threats, Identity, count) && sum == Cost(choice, threats, Identity)
  {
    LowerIsStrictWeak();
    hide StrictWeak, Sorted, Lower, AscendingValues, IsCheapest;
    var sorted := Sort(threats, Lower);
    SortedAscends(sorted);
    ghost var choice := SortedPrefixIsCheapest(threats, sorted, Identity, count);
    sum := 0.0;
    for i := 0 to count
      invariant sum == SumOf(sorted[..i])
    {
      assert sorted[..i + 1][..i] == sorted[..i];
      sum := sum + sorted[i];
    }
  }

  /** A cheapest choice of threats is a cheapest choice of the creatures that pose them. */
  lemma ThreatsStandForCreatures(creatures: seq<Permanent>, threats: seq<real>, threat: Permanent -> real, choice: seq<nat>, n: nat)
    requires threats == Map(creatures, threat) && IsCheapest(choice, threats, Identity, n)
    ensures IsCheapest(choice, creatures, threat, n)
    ensures Cost(choice, creatures, threat) == Cost(choice, threats, Identity)
  {
    SameValues(creatures, threats, threat, choice, n);
    forall other | IsChoice(other, creatures, n) ensures Cost(choice, creatures, threat) <= Cost(other, creatures, threat) {
      SameValues(creatures, threats, threat, other, n);
      assert IsChoice(other, threats, n);
    }
  }

  lemma SameValues(creatures: seq<Permanent>, threats: seq<real>, threat: Permanent -> real, choice: seq<nat>, n: nat)
    requires threats == Map(creatures, threat) && IsChoice(choice, creatures, n)
    ensures Values(choice, creatures, threat) == Values(choice, threats, Identity)
  {
    forall i | 0 <= i < n ensures Values(choice, creatures, threat)[i] == Values(choice, threats, Identity)[i] {
      assert Values(choice, creatures, threat)[i] == threat(creatures[choice[i]]);
      assert Values(choice, threats, Identity)[i] == Identity(threats[choice[i]]);
      assert threats[choice[i]] == Map(creatures, threat)[choice[i]] == threat(creatures[choice[i]]);
    }
  }

  // ----- giving up the least valuable cards -----

  /** An option of a payment choice; cardValue is the mana value of its card, if it identifies one. */
  datatype ChoiceOption = ChoiceOption(index: int, cardValue: Option<int>)

  function ManaValue(o: ChoiceOption): real {
    if o.cardValue.Some? then o.cardValue.value as real else 0.0
  }

  predicate Cheaper(a: ChoiceOption, b: ChoiceOption) {
    if ManaValue(a) != ManaValue(b) then ManaValue(a) < ManaValue(b) else a.index < b.index
  }

  ghost predicate IsCardLoss(options: seq<ChoiceOption>, minChoices: int) {
    1 <= minChoices <= |options| && forall i | 0 <= i < |options| :: options[i].cardValue.Some?
  }

  /** The option numbers of chosen positions. */
  ghost function Indices(options: seq<ChoiceOption>, choice: seq<nat>): seq<int>
    requires forall i | 0 <= i < |choice| :: choice[i] < |options|
  {
    seq(|choice|, i requires 0 <= i < |choice| => options[choice[i]].index)
  }

  lemma CheaperIsStrictWeak()
    ensures StrictWeak(Cheaper)
  {
  }

  lemma OrderedAscends(ordered: seq<ChoiceOption>)
    requires Sorted(ordered, Cheaper)
    ensures AscendingValues(Map(ordered, ManaValue))
  {
    assert forall i, j | 0 <= i < j < |ordered| :: !Cheaper(ordered[j], ordered[i]);
  }

  /** The chosen options come in the order of value and then number, and no option left out comes before a chosen one. */
  ghost predicate InOrder(choice: seq<nat>, options: seq<ChoiceOption>)
    requires forall i | 0 <= i < |choice| :: choice[i] < |options|
  {
    && (forall i, k | 0 <= i < k < |choice| :: !Cheaper(options[choice[k]], options[choice[i]]))
    && (forall i, j: nat | 0 <= i < |choice| && j < |options| && j !in choice :: !Cheaper(options[j], options[choice[i]]))
  }

  lemma PrefixIsInOrder(choice: seq<nat>, options: seq<ChoiceOption>, ordered: seq<ChoiceOption>, n: int)
    requires |choice| == n <= |ordered| && Sorted(ordered, Cheaper)
    requires forall i | 0 <= i < n :: choice[i] < |options| && options[choice[i]] == ordered[i]
    requires forall j: nat | j < |options| && j !in choice :: Later(options[j], ordered, n)
    ensures InOrder(choice, options)
  {
    hide Cheaper;
    forall i, j: nat | 0 <= i < |choice| && j < |options| && j !in choice ensures !Cheaper(options[j], options[choice[i]]) {
      assert Later(options[j], ordered, n);
    }
  }

  lemma CheapestHasSize(choice: seq<nat>, options: seq<ChoiceOption>, n: int)
    requires IsCheapest(choice, options, ManaValue, n)
    ensures |choice| == n && forall i | 0 <= i < n :: choice[i] < |options|
  {
  }

  /** Answers exactly pure card losses, with the indices of a cheapest choice of distinct options. */
  method LoseLeastValuable(options: seq<ChoiceOption>, minChoices: int) returns (selection: Option<seq<int>>)
    ensures selection.Some? <==> IsCardLoss(options, minChoices)
    ensures selection.Some? ==>
              exists choice :: IsCheapest(choice, options, ManaValue, minChoices)
                               && InOrder(choice, options)
               && selection.value == Indices(options, choice)
  {
    if minChoices < 1 || minChoices > |options| {
      return None;
    }
    for i := 0 to |options|
      invariant forall k | 0 <= k < i :: options[k].cardValue.Some?
    {
      if options[i].cardValue.None? {
        return None;
      }
    }
    CheaperIsStrictWeak();
    hide StrictWeak, Tied, Sorted, Cheaper, AscendingValues, IsCheapest, ManaValue;
    var ordered := SortStable(options, Cheaper);
    OrderedAscends(ordered);
    ghost var choice := SortedPrefixIsCheapest(options, ordered, ManaValue, minChoices);
    var indices: seq<int> := [];
    for i := 0 to minChoices
      invariant indices == seq(i, k requires 0 <= k < i => ordered[k].index)
    {
      indices := indices + [ordered[i].index];
    }
    CheapestHasSize(choice, options, minChoices);
    PrefixIsInOrder(choice, options, ordered, minChoices);
    assert indices == Indices(options, choice);
    return Some(indices);
  }

  // ----- the answer of a card loss, on the mana values themselves -----

  /** The mana values of chosen options, added up. */
  ghost function ManaOf(options: seq<ChoiceOption>, choice: seq<nat>): int
    requires forall i | 0 <= i < |choice| :: choice[i] < |options| && options[choice[i]].cardValue.Some?
  {
    if choice == [] then 0
    else ManaOf(options, choice[..|choice| - 1]) + options[choice[|choice| - 1]].cardValue.value
  }

  lemma {:induction false} CostIsMana(options: seq<ChoiceOption>, choice: seq<nat>)
    requires forall i | 0 <= i < |choice| :: choice[i] < |options| && options[choice[i]].cardValue.Some?
    ensures Cost(choice, options, ManaValue) == ManaOf(options, choice) as real
  {
    if choice != [] {
      var last := |choice| - 1;
      CostIsMana(options, choice[..last]);
      var values := Values(choice, options, ManaValue);
      assert values[..last] == Values(choice[..last], options, ManaValue);
      assert values[last] == ManaValue(options[choice[last]]) == options[choice[last]].cardValue.value as real;
      assert Cost(choice, options, ManaValue) == SumOf(values[..last]) + values[last];
    }
  }

  /**
   * The options of a cheapest choice in order cost no more mana than any other as many, are sorted by mana value and
   * then number, and leave out none that comes before one of them.
   */
  lemma LossMeans(options: seq<ChoiceOption>, minChoices: int, choice: seq<nat>, other: seq<nat>)
    requires IsCardLoss(options, minChoices) && IsCheapest(choice, options, ManaValue, minChoices) && InOrder(choice, options)
    requires IsChoice(other, options, minChoices)
    ensures |choice| == minChoices && ManaOf(options, choice) <= ManaOf(options, other)
    ensures forall i, k | 0 <= i < k < |choice| :: NotAfter(options[choice[i]], options[choice[k]])
    ensures forall i, j: nat | 0 <= i < |choice| && j < |options| && j !in choice :: NotAfter(options[choice[i]], options[j])
  {
    CostIsMana(options, choice);
    CostIsMana(options, other);
    forall a: ChoiceOption, b: ChoiceOption | a.cardValue.Some? && b.cardValue.Some? && !Cheaper(b, a)
      ensures NotAfter(a, b)
    {
    }
    hide Cheaper, NotAfter, ManaOf;
  }

  predicate NotAfter(a: ChoiceOption, b: ChoiceOption) {
    && a.cardValue.Some? && b.cardValue.Some?
    && (a.cardValue.value < b.cardValue.value || (a.cardValue.value == b.cardValue.value && a.index <= b.index))
  }
}
