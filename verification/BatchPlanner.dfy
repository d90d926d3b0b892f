/**
 The greedy batcher `buildTranslationBatches` (scripts/control-ui-i18n.ts).

 The loop charges every item `estimateBatchChars([item])`, that is 10 characters
 beyond its key and text, while `estimateBatchChars` of a whole batch charges 8.
 The proofs are therefore about a cost with the charge per item as a parameter.
 */
module BatchPlanner {
  import opened Common
  import opened TranslationMemory

  datatype Item = Item(cacheKey: CacheKey, key: string, text: string, textHash: string)

  const MAX_BATCH_ITEMS: nat := 20
  const ESTIMATE_CHARGE: nat := 8
  const LOOP_CHARGE: nat := 10

  function Cost(items: seq<Item>, charge: nat): (c: nat)
    ensures 2 <= c
  {
    if items == [] then 2 else |items[0].key| + |items[0].text| + charge + Cost(items[1..], charge)
  }

  /** `estimateBatchChars`. */
  function EstimateBatchChars(items: seq<Item>): nat {
    Cost(items, ESTIMATE_CHARGE)
  }

  lemma CostSplit(a: seq<Item>, b: seq<Item>, charge: nat)
    ensures Cost(a + b, charge) == Cost(a, charge) + Cost(b, charge) - 2
  {
    if a == [] {
      assert a + b == b;
    } else {
      assert (a + b)[1..] == a[1..] + b;
      CostSplit(a[1..], b, charge);
    }
  }

  lemma CostByCharge(items: seq<Item>, charge: nat, more: nat)
    ensures Cost(items, charge + more) == Cost(items, charge) + more * |items|
  {
    if items == [] {
    } else {
      CostByCharge(items[1..], charge, more);
    }
  }

  /** A batch is a single item, or at most 20 items within the budget. */
  predicate Fits(batch: seq<Item>, budget: int, charge: nat) {
    |batch| == 1 || (1 < |batch| <= MAX_BATCH_ITEMS && Cost(batch, charge) <= budget)
  }

  /** An order-preserving partition of the items into batches that fit. */
  ghost predicate IsPartition(batches: seq<seq<Item>>, items: seq<Item>, budget: int, charge: nat) {
    && Concat(batches) == items
    && forall i :: 0 <= i < |batches| ==> Fits(batches[i], budget, charge)
  }

  ghost predicate IsOptimal(batches: seq<seq<Item>>, items: seq<Item>, budget: int, charge: nat) {
    && IsPartition(batches, items, budget, charge)
    && forall other :: IsPartition(other, items, budget, charge) ==> |batches| <= |other|
  }

  /** How far a batch that already holds the first n items grows. */
  function Grown(items: seq<Item>, n: nat, budget: int, charge: nat): (m: nat)
    requires 1 <= n <= |items|
    ensures n <= m <= |items|
    decreases |items| - n
  {
    if n < |items| && n < MAX_BATCH_ITEMS && Cost(items[..n + 1], charge) <= budget
    then Grown(items, n + 1, budget, charge) else n
  }

  function Greedy(items: seq<Item>, budget: int, charge: nat): seq<seq<Item>>
    decreases |items|
  {
    if items == [] then [] else
    var n := Grown(items, 1, budget, charge);
    [items[..n]] + Greedy(items[n..], budget, charge)
  }

  lemma GrownFits(items: seq<Item>, n: nat, budget: int, charge: nat)
    requires 1 <= n <= |items| && Fits(items[..n], budget, charge)
    ensures Fits(items[..Grown(items, n, budget, charge)], budget, charge)
    decreases |items| - n
  {
    if n < |items| && n < MAX_BATCH_ITEMS && Cost(items[..n + 1], charge) <= budget {
      GrownFits(items, n + 1, budget, charge);
    }
  }

  /** No prefix that fits is longer than the grown one. */
  lemma {:induction false} GrownIsLongest(items: seq<Item>, k: nat, n: nat, budget: int, charge: nat)
    requires 1 <= k <= n <= |items| && Fits(items[..n], budget, charge)
    ensures n <= Grown(items, k, budget, charge)
    decreases n - k
  {
    if k < n {
      assert items[..n] == items[..k + 1] + items[k + 1..n];
      CostSplit(items[..k + 1], items[k + 1..n], charge);
      GrownIsLongest(items, k + 1, n, budget, charge);
    }
  }

  lemma {:induction false} GreedyIsPartition(items: seq<Item>, budget: int, charge: nat)
    ensures IsPartition(Greedy(items, budget, charge), items, budget, charge)
    decreases |items|
  {
    if items == [] {
    } else {
      var n := Grown(items, 1, budget, charge);
      GrownFits(items, 1, budget, charge);
      GreedyIsPartition(items[n..], budget, charge);
      assert items[..n] + items[n..] == items;
    }
  }

  /** Dropping leading items never needs more batches. */
  lemma {:induction false} GreedyOfSuffix(items: seq<Item>, d: nat, budget: int, charge: nat)
    requires d <= |items|
    ensures |Greedy(items[d..], budget, charge)| <= |Greedy(items, budget, charge)|
    decreases |items|
  {
    if d == |items| {
    } else {
      var n := Grown(items, 1, budget, charge);
      var m := Grown(items[d..], 1, budget, charge);
      if n <= d {
        SuffixOfSuffix(items, n, d, 0);
        GreedyOfSuffix(items[n..], d - n, budget, charge);
      } else {
        SuffixReaches(items, d, budget, charge);
        SuffixOfSuffix(items, n, d, m);
        GreedyOfSuffix(items[n..], d + m - n, budget, charge);
      }
    }
  }

  /** Without its leading items the first batch reaches at least as far. */
  lemma {:induction false} SuffixReaches(items: seq<Item>, d: nat, budget: int, charge: nat)
    requires d < |items| && d < Grown(items, 1, budget, charge)
    ensures Grown(items, 1, budget, charge) <= d + Grown(items[d..], 1, budget, charge)
  {
    var n, tail := Grown(items, 1, budget, charge), items[d..];
    GrownFits(items, 1, budget, charge);
    assert items[..n] == items[..d] + tail[..n - d];
    CostSplit(items[..d], tail[..n - d], charge);
    GrownIsLongest(tail, 1, n - d, budget, charge);
  }

  lemma SuffixOfSuffix(items: seq<Item>, n: nat, d: nat, m: nat)
    requires n <= d + m <= |items|
    ensures items[d..][m..] == items[n..][d + m - n..]
  {
  }

  lemma {:induction false} GreedyIsOptimal(items: seq<Item>, other: seq<seq<Item>>, budget: int, charge: nat)
    requires IsPartition(other, items, budget, charge)
    ensures |Greedy(items, budget, charge)| <= |other|
    decreases |other|
  {
    if other == [] {
    } else {
      var l := |other[0]|;
      var n := Grown(items, 1, budget, charge);
      assert items[..l] == other[0] && items[l..] == Concat(other[1..]);
      GrownIsLongest(items, 1, l, budget, charge);
      assert items[n..] == items[l..][n - l..];
      GreedyOfSuffix(items[l..], n - l, budget, charge);
      GreedyIsOptimal(items[l..], other[1..], budget, charge);
    }
  }

  /** A batch of the first n items is a stage of the one the greedy choice makes. */
  ghost predicate Growing(rest: seq<Item>, n: nat, budget: int) {
    n == 0 || (n <= |rest| && Grown(rest, 1, budget, LOOP_CHARGE) == Grown(rest, n, budget, LOOP_CHARGE))
  }

  lemma {:induction false} FlushStep(rest: seq<Item>, n: nat, budget: int)
    requires 0 < n <= |rest| && Growing(rest, n, budget)
    requires n == |rest| || n >= MAX_BATCH_ITEMS || Cost(rest[..n + 1], LOOP_CHARGE) > budget
    ensures Greedy(rest, budget, LOOP_CHARGE) == [rest[..n]] + Greedy(rest[n..], budget, LOOP_CHARGE)
  {
  }

  /** Where the loop stands before item i. */
  ghost predicate Underway(items: seq<Item>, i: nat, batches: seq<seq<Item>>, current: seq<Item>, budget: int)
    requires i <= |items|
  {
    && Greedy(items, budget, LOOP_CHARGE) == batches + Greedy(current + items[i..], budget, LOOP_CHARGE)
    && Growing(current + items[i..], |current|, budget)
  }

  lemma {:induction false} FlushKeeps(items: seq<Item>, i: nat, batches: seq<seq<Item>>, current: seq<Item>, budget: int)
    requires i < |items| && Underway(items, i, batches, current, budget)
    requires current != [] && (|current| >= MAX_BATCH_ITEMS || Cost(current + [items[i]], LOOP_CHARGE) > budget)
    ensures Underway(items, i + 1, batches + [current], [items[i]], budget)
  {
    var rest := current + items[i..];
    assert rest[..|current|] == current && rest[|current|..] == items[i..];
    assert rest[..|current| + 1] == current + [items[i]];
    FlushStep(rest, |current|, budget);
    assert [items[i]] + items[i + 1..] == items[i..];
  }

  lemma {:induction false} PushKeeps(items: seq<Item>, i: nat, batches: seq<seq<Item>>, current: seq<Item>, budget: int)
    requires i < |items| && Underway(items, i, batches, current, budget)
    requires current == [] || (|current| < MAX_BATCH_ITEMS && Cost(current + [items[i]], LOOP_CHARGE) <= budget)
    ensures Underway(items, i + 1, batches, current + [items[i]], budget)
  {
    var rest := current + items[i..];
    assert (current + [items[i]]) + items[i + 1..] == rest;
    assert rest[..|current| + 1] == current + [items[i]];
  }

  /** The loop. Its batches are in order, none is empty or over 20 items, every
      batch of two or more is within the budget by `estimateBatchChars`, and
      under the charge the loop applies no partition has fewer batches. A
      budget that is not whole acts as its floor. */
  method BuildTranslationBatches(items: seq<Item>, budget: int) returns (batches: seq<seq<Item>>)
    ensures batches == Greedy(items, budget, LOOP_CHARGE)
    ensures IsOptimal(batches, items, budget, LOOP_CHARGE)
    ensures forall i :: 0 <= i < |batches| && |batches[i]| > 1 ==> EstimateBatchChars(batches[i]) <= budget
  {
    batches := [];
    var current: seq<Item> := [];
    var currentChars := 2;
    UnderwayAtStart(items, budget);
    for i := 0 to |items|
      invariant currentChars == Cost(current, LOOP_CHARGE)
      invariant Underway(items, i, batches, current, budget)
    {
      var item := items[i];
      var itemChars := EstimateBatchChars([item]);
      CostByCharge([item], ESTIMATE_CHARGE, 2);
      CostSplit(current, [item], LOOP_CHARGE);
      var wouldOverflow := |current| > 0 && currentChars + itemChars > budget;
      var reachedMaxItems := |current| >= MAX_BATCH_ITEMS;
      if wouldOverflow || reachedMaxItems {
        FlushKeeps(items, i, batches, current, budget);
        batches := batches + [current];
        current := [];
        currentChars := 2;
      } else {
        PushKeeps(items, i, batches, current, budget);
      }
      assert [] + [item] == [item];
      current := current + [item];
      currentChars := currentChars + itemChars;
    }
    UnderwayAtEnd(items, batches, current, budget);
    if |current| > 0 {
      batches := batches + [current];
    }
    LoopBatches(items, budget);
  }

  lemma {:induction false} UnderwayAtStart(items: seq<Item>, budget: int)
    ensures Underway(items, 0, [], [], budget)
  {
    assert [] + items[0..] == items;
  }

  lemma {:induction false} UnderwayAtEnd(items: seq<Item>, batches: seq<seq<Item>>, current: seq<Item>, budget: int)
    requires Underway(items, |items|, batches, current, budget)
    ensures Greedy(items, budget, LOOP_CHARGE) == if |current| > 0 then batches + [current] else batches
  {
    assert current + items[|items|..] == current;
    if |current| > 0 {
      assert current[..|current|] == current;
      FlushStep(current, |current|, budget);
    }
  }

  lemma LoopBatches(items: seq<Item>, budget: int)
    ensures var batches := Greedy(items, budget, LOOP_CHARGE);
            && IsOptimal(batches, items, budget, LOOP_CHARGE)
            && IsPartition(batches, items, budget, ESTIMATE_CHARGE)
  {
    var batches := Greedy(items, budget, LOOP_CHARGE);
    GreedyIsPartition(items, budget, LOOP_CHARGE);
    forall other | IsPartition(other, items, budget, LOOP_CHARGE)
      ensures |batches| <= |other|
    {
      GreedyIsOptimal(items, other, budget, LOOP_CHARGE);
    }
    forall i | 0 <= i < |batches|
      ensures Fits(batches[i], budget, ESTIMATE_CHARGE)
    {
      CostByCharge(batches[i], ESTIMATE_CHARGE, 2);
    }
  }

  // ------------------------------------------------------- against the estimate itself

  /** Items i up to j would fit in one batch by the estimate, but not by the charge
      that the loop applies. */
  predicate Gap(items: seq<Item>, budget: int, i: nat, j: nat) {
    && i + 2 <= j <= |items| && j - i <= MAX_BATCH_ITEMS
    && EstimateBatchChars(items[i..j]) <= budget < Cost(items[i..j], LOOP_CHARGE)
  }

  ghost predicate NoGap(items: seq<Item>, budget: int) {
    forall i: nat, j: nat :: !Gap(items, budget, i, j)
  }

  /** Where batch k of a partition stands among the items. */
  lemma {:induction false} BatchPlace(batches: seq<seq<Item>>, k: nat) returns (i: nat)
    requires k < |batches|
    ensures i + |batches[k]| <= |Concat(batches)| && Concat(batches)[i..i + |batches[k]|] == batches[k]
    decreases k
  {
    var rest := Concat(batches[1..]);
    assert Concat(batches) == batches[0] + rest;
    if k == 0 {
      i := 0;
      assert (batches[0] + rest)[..|batches[0]|] == batches[0];
    } else {
      var i' := BatchPlace(batches[1..], k - 1);
      i := |batches[0]| + i';
      assert (batches[0] + rest)[|batches[0]|..] == rest;
      SliceOfSlice(batches[0] + rest, |batches[0]|, |batches[0]| + |rest|, i', i' + |batches[k]|);
    }
  }

  /** Without a gap, what fits by the estimate fits by the loop's charge. */
  lemma {:induction false} NoGapFits(items: seq<Item>, budget: int, other: seq<seq<Item>>)
    requires NoGap(items, budget) && IsPartition(other, items, budget, ESTIMATE_CHARGE)
    ensures IsPartition(other, items, budget, LOOP_CHARGE)
  {
    forall k | 0 <= k < |other|
      ensures Fits(other[k], budget, LOOP_CHARGE)
    {
      var i := BatchPlace(other, k);
      assert !Gap(items, budget, i, i + |other[k]|);
    }
  }

  /** Without a gap the loop is optimal by the estimate. */
  lemma {:induction false} OptimalWithoutGap(items: seq<Item>, budget: int)
    requires NoGap(items, budget)
    ensures IsOptimal(Greedy(items, budget, LOOP_CHARGE), items, budget, ESTIMATE_CHARGE)
  {
    LoopBatches(items, budget);
    forall other | IsPartition(other, items, budget, ESTIMATE_CHARGE)
      ensures |Greedy(items, budget, LOOP_CHARGE)| <= |other|
    {
      NoGapFits(items, budget, other);
      GreedyIsOptimal(items, other, budget, LOOP_CHARGE);
    }
  }

  /** Items that are a gap as a whole are sent in more than the one batch they need. */
  lemma {:induction false} GapIsNotOptimal(items: seq<Item>, budget: int)
    requires Gap(items, budget, 0, |items|)
    ensures !IsOptimal(Greedy(items, budget, LOOP_CHARGE), items, budget, ESTIMATE_CHARGE)
  {
    assert items[0..|items|] == items;
    assert IsPartition([items], items, budget, ESTIMATE_CHARGE) by {
      ConcatOne(items);
    }
    GreedyIsPartition(items, budget, LOOP_CHARGE);
    OneBatch(Greedy(items, budget, LOOP_CHARGE), items, budget, LOOP_CHARGE);
  }

  lemma {:induction false} OneBatch(batches: seq<seq<Item>>, items: seq<Item>, budget: int, charge: nat)
    requires IsPartition(batches, items, budget, charge)
    ensures |batches| == 1 ==> Fits(items, budget, charge)
  {
    if |batches| == 1 {
      assert batches == [batches[0]];
      ConcatOne(batches[0]);
    }
  }

  /** The loop is optimal by the estimate on every stretch of the items. */
  ghost predicate OptimalOnEveryPart(items: seq<Item>, budget: int) {
    forall i: nat, j: nat :: i <= j <= |items| ==> OptimalOnPart(items, budget, i, j)
  }

  ghost predicate OptimalOnPart(items: seq<Item>, budget: int, i: nat, j: nat)
    requires i <= j <= |items|
  {
    IsOptimal(Greedy(items[i..j], budget, LOOP_CHARGE), items[i..j], budget, ESTIMATE_CHARGE)
  }

  lemma {:induction false} GapOfPart(items: seq<Item>, budget: int, i: nat, j: nat, x: nat, y: nat)
    requires i <= j <= |items| && x <= y <= j - i
    ensures Gap(items[i..j], budget, x, y) <==> Gap(items, budget, i + x, i + y)
  {
    SliceOfSlice(items, i, j, x, y);
  }

  /** It is so if and only if no stretch of the items is a gap. */
  lemma {:induction false} OptimalOnEveryPartIff(items: seq<Item>, budget: int)
    ensures OptimalOnEveryPart(items, budget) <==> NoGap(items, budget)
  {
    if NoGap(items, budget) {
      forall i: nat, j: nat | i <= j <= |items|
        ensures OptimalOnPart(items, budget, i, j)
      {
        forall x: nat, y: nat
          ensures !Gap(items[i..j], budget, x, y)
        {
          if x <= y <= j - i {
            GapOfPart(items, budget, i, j, x, y);
          }
        }
        OptimalWithoutGap(items[i..j], budget);
      }
    }
    forall i: nat, j: nat | Gap(items, budget, i, j)
      ensures !OptimalOnPart(items, budget, i, j)
    {
      GapOfPart(items, budget, i, j, 0, j - i);
      GapIsNotOptimal(items[i..j], budget);
    }
  }

  /** Two items with different keys whose estimate is 22 are sent apart under a
      budget of 24, because the loop counts 26. */
  lemma {:induction false} EstimateCounterexample(a: Item, b: Item)
    requires |a.key| == |a.text| == |b.key| == |b.text| == 1 && a.key != b.key && a.cacheKey != b.cacheKey
    ensures Gap([a, b], 24, 0, 2)
    ensures !IsOptimal(Greedy([a, b], 24, LOOP_CHARGE), [a, b], 24, ESTIMATE_CHARGE)
  {
    CostOfTwo(a, b, LOOP_CHARGE);
    CostOfTwo(a, b, ESTIMATE_CHARGE);
    assert [a, b][0..2] == [a, b];
    GapIsNotOptimal([a, b], 24);
  }

  lemma CostOfTwo(a: Item, b: Item, charge: nat)
    ensures Cost([a, b], charge) == |a.key| + |a.text| + |b.key| + |b.text| + 2 * charge + 2
  {
    assert [a, b][1..] == [b] && [b][1..] == [];
    assert Cost([b], charge) == |b.key| + |b.text| + charge + Cost([], charge);
  }

  /** The double charge costs at most 40 characters a batch: no partition that
      keeps the estimate 40 below the budget has fewer batches. */
  lemma NearlyOptimalForEstimate(items: seq<Item>, budget: int, other: seq<seq<Item>>)
    requires IsPartition(other, items, budget - 2 * MAX_BATCH_ITEMS, ESTIMATE_CHARGE)
    ensures |Greedy(items, budget, LOOP_CHARGE)| <= |other|
  {
    forall i | 0 <= i < |other|
      ensures Fits(other[i], budget, LOOP_CHARGE)
    {
      CostByCharge(other[i], ESTIMATE_CHARGE, 2);
    }
    GreedyIsOptimal(items, other, budget, LOOP_CHARGE);
  }
}
