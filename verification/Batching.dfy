/** Greedy batching of the pending translations. */
module Batching {

  datatype Item = Item(key: string, text: string, cacheKey: string, textHash: string)

  const MAX_BATCH_ITEMS := 20

  /** `estimateBatchChars`. */
  function EstimateBatchChars(items: seq<Item>): nat {
    if items == [] then 2
    else EstimateBatchChars(items[..|items| - 1]) + |items[|items| - 1].key| + |items[|items| - 1].text| + 8
  }

  /** The running count of the loop: it starts at 2 and adds each item's own estimate. */
  function RunningChars(items: seq<Item>): nat {
    if items == [] then 2
    else RunningChars(items[..|items| - 1]) + EstimateBatchChars([items[|items| - 1]])
  }

  /** A batch within both limits; one oversized item may stand alone. */
  predicate Fits(batch: seq<Item>, budget: real) {
    0 < |batch| <= 20 && (|batch| == 1 || RunningChars(batch) as real <= budget)
  }

  function Flat(batches: seq<seq<Item>>): seq<Item> {
    if batches == [] then [] else batches[0] + Flat(batches[1..])
  }

  /** An order-preserving partition of the items into batches within the limits. */
  ghost predicate Partition(batches: seq<seq<Item>>, items: seq<Item>, budget: real) {
    Flat(batches) == items && forall b <- batches :: Fits(b, budget)
  }

  /** No batch could have taken the first item of the next one. */
  ghost predicate Saturated(batches: seq<seq<Item>>, budget: real) {
    |batches| >= 2 ==>
      && batches[1] != [] && !Fits(batches[0] + [batches[1][0]], budget)
      && Saturated(batches[1..], budget)
  }

  /** The batches that the loop still produces from its current batch. */
  function Fill(items: seq<Item>, current: seq<Item>, budget: real): seq<seq<Item>>
    decreases |items|
  {
    if items == [] then (if current == [] then [] else [current])
    else if (current != [] && (RunningChars(current) + EstimateBatchChars([items[0]])) as real > budget)
            || |current| >= MAX_BATCH_ITEMS
    then [current] + Fill(items[1..], [items[0]], budget)
    else Fill(items[1..], current + [items[0]], budget)
  }

  function Batches(items: seq<Item>, budget: real): seq<seq<Item>> {
    Fill(items, [], budget)
  }

  /** The loop of `buildTranslationBatches`. */
  method BuildTranslationBatches(items: seq<Item>, budget: real) returns (batches: seq<seq<Item>>)
    ensures batches == Batches(items, budget)
    ensures Partition(batches, items, budget) && Saturated(batches, budget)
    ensures forall b <- batches | |b| >= 2 :: EstimateBatchChars(b) as real <= budget
  {
    batches := [];
    var current: seq<Item>, currentChars := [], 2;
    for i := 0 to |items|
      invariant batches + Fill(items[i..], current, budget) == Fill(items, [], budget)
      invariant currentChars == RunningChars(current)
    {
      var item := items[i];
      var itemChars := EstimateBatchChars([item]);
      assert items[i..][1..] == items[i + 1..];
      var wouldOverflow := |current| > 0 && (currentChars + itemChars) as real > budget;
      var reachedMaxItems := |current| >= MAX_BATCH_ITEMS;
      if wouldOverflow || reachedMaxItems {
        batches := batches + [current];
        current := [];
        currentChars := 2;
      }
      assert (current + [item])[..|current|] == current;
      current := current + [item];
      currentChars := currentChars + itemChars;
    }
    if |current| > 0 {
      batches := batches + [current];
    }
    FillPartitions(items, [], budget);
    forall b | b in batches && |b| >= 2
      ensures EstimateBatchChars(b) as real <= budget
    {
      assert Fits(b, budget);
      EstimateBelowRunning(b);
    }
  }

  lemma EstimateOne(item: Item)
    ensures EstimateBatchChars([item]) == |item.key| + |item.text| + 10
  {
    assert [item][..0] == [];
  }

  /** Each item costs two characters more in the running count than in the estimate. */
  lemma {:induction false} EstimateBelowRunning(batch: seq<Item>)
    ensures RunningChars(batch) == EstimateBatchChars(batch) + 2 * |batch|
  {
    if batch != [] {
      EstimateBelowRunning(batch[..|batch| - 1]);
      EstimateOne(batch[|batch| - 1]);
    }
  }

  /** Started from a batch within the limits, the loop partitions that batch and the
      remaining items, and saturates every batch but the last. */
  lemma {:induction false} FillPartitions(items: seq<Item>, current: seq<Item>, budget: real)
    requires current == [] || Fits(current, budget)
    ensures Partition(Fill(items, current, budget), current + items, budget)
    ensures Saturated(Fill(items, current, budget), budget)
    ensures current != [] ==> Fill(items, current, budget) != [] && current <= Fill(items, current, budget)[0]
    decreases |items|
  {
    if items == [] {
      if current != [] {
        assert [current][1..] == [];
      }
    } else {
      var next := current + [items[0]];
      assert next[..|current|] == current;
      assert items == [items[0]] + items[1..];
      if Fits(next, budget) {
        FillPartitions(items[1..], next, budget);
        assert next + items[1..] == current + items;
      } else {
        FillPartitions(items[1..], [items[0]], budget);
        var rest := Fill(items[1..], [items[0]], budget);
        var all := [current] + rest;
        assert Fill(items, current, budget) == all;
        assert all[1..] == rest && rest[0][0] == items[0];
        assert Flat(all) == current + ([items[0]] + items[1..]);
      }
    }
  }

  // ---------- optimality ----------

  lemma {:induction false} RunningCharsSlice(batch: seq<Item>, lo: nat, hi: nat)
    requires lo <= hi <= |batch|
    ensures RunningChars(batch[lo..hi]) <= RunningChars(batch)
    decreases |batch|
  {
    if batch != [] {
      var n := |batch| - 1;
      if hi <= n {
        RunningCharsSlice(batch[..n], lo, hi);
        assert batch[..n][lo..hi] == batch[lo..hi];
      } else if lo <= n {
        RunningCharsSlice(batch[..n], lo, n);
        var part := batch[lo..hi];
        assert part == batch[..n][lo..n] + [batch[n]];
        assert part[..|part| - 1] == batch[..n][lo..n];
      } else {
        assert batch[lo..hi] == [];
      }
    }
  }

  /** Every non-empty stretch of a batch within the limits is within them too. */
  lemma FitsSlice(batch: seq<Item>, lo: nat, hi: nat, budget: real)
    requires Fits(batch, budget) && lo < hi <= |batch|
    ensures Fits(batch[lo..hi], budget)
  {
    RunningCharsSlice(batch, lo, hi);
  }

  /** `g` is the end of `o`. */
  ghost predicate IsSuffix(g: seq<Item>, o: seq<Item>) {
    |g| <= |o| && g == o[|o| - |g|..]
  }

  /** Cutting the front off both lists. */
  lemma SuffixTails(g: seq<Item>, head: seq<Item>, tail: seq<Item>, n: nat)
    requires IsSuffix(g, head + tail) && n <= |g|
    ensures |g| - n <= |tail| ==> IsSuffix(g[n..], tail)
    ensures |g| > |tail| ==> g[..|g| - |tail|] == head[|head| - (|g| - |tail|)..]
  {
    var o := head + tail;
    if |g| - n <= |tail| {
      assert g[n..] == o[|o| - |g| + n..] == tail[|tail| - |g| + n..];
    }
    if |g| > |tail| {
      var r := |g| - |tail|;
      assert g[..r] == o[|o| - |g|..][..r] == o[|head| - r..|head|];
    }
  }

  /** A saturated partition stays ahead of every other one: covering no more items than
      `other`, it never needs more batches. */
  lemma {:induction false} StaysAhead(greedy: seq<seq<Item>>, other: seq<seq<Item>>, budget: real)
    requires Saturated(greedy, budget) && (forall b <- greedy :: Fits(b, budget))
    requires forall b <- other :: Fits(b, budget)
    requires IsSuffix(Flat(greedy), Flat(other))
    ensures |greedy| <= |other|
    decreases |other|
  {
    if greedy != [] {
      var g, rest, tail := Flat(greedy), Flat(greedy[1..]), Flat(other[if other == [] then 0 else 1..]);
      assert Fits(greedy[0], budget) && g == greedy[0] + rest;
      assert other != [];
      SuffixTails(g, other[0], tail, 0);
      if |g| <= |tail| {
        StaysAhead(greedy, other[1..], budget);
      } else {
        FirstBatchReaches(greedy, other[0], |g| - |tail|, budget);
        SuffixTails(g, other[0], tail, |greedy[0]|);
        assert g[|greedy[0]|..] == rest;
        StaysAhead(greedy[1..], other[1..], budget);
      }
    }
  }

  /** If the items of `greedy` start with the last `r` items of a batch within the
      limits, its first batch takes at least those. */
  lemma FirstBatchReaches(greedy: seq<seq<Item>>, batch: seq<Item>, r: nat, budget: real)
    requires greedy != [] && Saturated(greedy, budget) && (forall b <- greedy :: Fits(b, budget))
    requires Fits(batch, budget) && 0 < r <= |batch| && r <= |Flat(greedy)|
    requires Flat(greedy)[..r] == batch[|batch| - r..]
    ensures |greedy[0]| >= r
  {
    var n := |greedy[0]|;
    if n < r {
      SingleBatch(greedy);
      var probe := NextProbe(greedy);
      PrefixOfSuffix(Flat(greedy), batch, r, n + 1);
      FitsSlice(batch, |batch| - r, |batch| - r + n + 1, budget);
    }
  }

  lemma SingleBatch(greedy: seq<seq<Item>>)
    requires greedy != []
    ensures |greedy| == 1 ==> Flat(greedy) == greedy[0]
  {
    if |greedy| == 1 {
      assert greedy[1..] == [];
    }
  }

  lemma PrefixOfSuffix(g: seq<Item>, batch: seq<Item>, r: nat, m: nat)
    requires m <= r <= |g| && r <= |batch| && g[..r] == batch[|batch| - r..]
    ensures g[..m] == batch[|batch| - r..|batch| - r + m]
  {
    assert g[..m] == g[..r][..m];
  }

  /** The first batch with the first item of the second one. */
  lemma NextProbe(greedy: seq<seq<Item>>) returns (probe: seq<Item>)
    requires |greedy| >= 2 && greedy[1] != []
    ensures probe == greedy[0] + [greedy[1][0]]
    ensures |probe| <= |Flat(greedy)| && probe == Flat(greedy)[..|probe|]
  {
    probe := greedy[0] + [greedy[1][0]];
    var rest := Flat(greedy[1..]);
    assert rest == greedy[1] + Flat(greedy[1..][1..]);
    assert Flat(greedy) == greedy[0] + rest;
  }

  /** No partition within the limits uses fewer batches than the loop. */
  lemma GreedyIsOptimal(items: seq<Item>, budget: real, other: seq<seq<Item>>)
    requires Partition(other, items, budget)
    ensures |Batches(items, budget)| <= |other|
  {
    FillPartitions(items, [], budget);
    StaysAhead(Batches(items, budget), other, budget);
  }

  /** All characters of keys and texts. */
  function Characters(items: seq<Item>): nat {
    if items == [] then 0 else |items[0].key| + |items[0].text| + Characters(items[1..])
  }

  lemma {:induction false} CharactersLast(items: seq<Item>, item: Item)
    ensures Characters(items + [item]) == Characters(items) + |item.key| + |item.text|
  {
    if items == [] {
      assert [item][1..] == [];
    } else {
      assert (items + [item])[1..] == items[1..] + [item];
      CharactersLast(items[1..], item);
    }
  }

  /** What the two counts amount to: two, the characters, and eight or ten per item. */
  lemma {:induction false} CountsExactly(items: seq<Item>)
    ensures EstimateBatchChars(items) == 2 + 8 * |items| + Characters(items)
    ensures RunningChars(items) == 2 + 10 * |items| + Characters(items)
  {
    if items != [] {
      var init, item := items[..|items| - 1], items[|items| - 1];
      assert items == init + [item] && [item][..0] == [];
      CountsExactly(init);
      CharactersLast(init, item);
      assert EstimateBatchChars([item]) == EstimateBatchChars([]) + |item.key| + |item.text| + 8;
    }
  }
}
