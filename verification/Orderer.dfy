/** The order in which storages are handed out, and handing them out to several threads. */
module Orderer {
  import opened Types
  import opened Database

  // ---- Selecting from both ends of a range ----

  /**
   * The `nth` value of `0..n` when, in every cycle, `startRate` values are taken from the start
   * and `endRate` values from the end.
   */
  function Select(n: nat, nth: nat, startRate: nat, endRate: nat): int
    requires startRate + endRate > 0
  {
    var cycle := startRate + endRate;
    var cycleIndex, cycleNum := nth % cycle, nth / cycle;
    if cycleIndex < startRate then cycleNum * startRate + cycleIndex
    else n - (cycleNum * endRate + cycleIndex - startRate) - 1
  }

  predicate FromStart(i: nat, startRate: nat, endRate: nat)
    requires startRate + endRate > 0
  {
    i % (startRate + endRate) < startRate
  }

  /** How many of the first `m` values are taken from the start. */
  function Starts(m: nat, startRate: nat, endRate: nat): (r: nat)
    requires startRate + endRate > 0
    ensures r <= m
  {
    if m == 0 then 0 else Starts(m - 1, startRate, endRate) + if FromStart(m - 1, startRate, endRate) then 1 else 0
  }

  lemma DivModStep(m: nat, c: nat)
    requires c > 0
    ensures if m % c == c - 1 then (m + 1) / c == m / c + 1 && (m + 1) % c == 0
            else (m + 1) / c == m / c && (m + 1) % c == m % c + 1
  {
    DivModIdentity(m, c);
    if m % c == c - 1 {
      Distribute(c, m / c, 1);
      DivModOf(m + 1, c, m / c + 1, 0);
    } else {
      DivModOf(m + 1, c, m / c, m % c + 1);
    }
  }

  lemma MulAtLeast(d: int, c: nat)
    requires d > 0
    ensures d * c >= c
  {
  }

  lemma Distribute(q: int, a: int, b: int)
    ensures q * (a + b) == q * a + q * b
  {
  }

  lemma DivModIdentity(m: nat, c: nat)
    requires c > 0
    ensures m == (m / c) * c + m % c
  {
  }

  lemma DivModIsUnique(c: nat, q: int, r: int, q': int, r': int)
    requires 0 <= r < c && 0 <= r' < c && q * c + r == q' * c + r'
    ensures q == q' && r == r'
  {
    var d := q - q';
    assert d * c == r' - r;
    if d > 0 {
      MulAtLeast(d, c);
    } else if d < 0 {
      MulAtLeast(-d, c);
    }
  }

  lemma DivModOf(m: nat, c: nat, q: nat, r: nat)
    requires c > 0 && m == q * c + r && r < c
    ensures m / c == q && m % c == r
  {
    DivModIdentity(m, c);
    DivModIsUnique(c, m / c, m % c, q, r);
  }

  /** The counts in closed form, as the selection computes them. */
  lemma {:induction false} StartsInClosedForm(m: nat, startRate: nat, endRate: nat)
    requires startRate + endRate > 0
    ensures var c := startRate + endRate;
            Starts(m, startRate, endRate) == ClosedForm(m / c, m % c, startRate)
  {
    var c := startRate + endRate;
    if m == 0 {
      DivModOf(0, c, 0, 0);
    } else {
      StartsInClosedForm(m - 1, startRate, endRate);
      DivModStep(m - 1, c);
      ClosedFormStep((m - 1) / c, (m - 1) % c, startRate, endRate);
    }
  }

  function ClosedForm(q: int, r: int, startRate: int): int {
    q * startRate + if r < startRate then r else startRate
  }

  lemma ClosedFormStep(q: nat, r: nat, startRate: nat, endRate: nat)
    requires r < startRate + endRate
    ensures ClosedForm(q, r, startRate) + (if r < startRate then 1 else 0)
            == if r == startRate + endRate - 1 then ClosedForm(q + 1, 0, startRate) else ClosedForm(q, r + 1, startRate)
  {
    Distribute(startRate, q, 1);
  }

  /** A value from the start is as far in as values were taken there before, one from the end likewise. */
  lemma SelectCounts(n: nat, nth: nat, startRate: nat, endRate: nat)
    requires startRate + endRate > 0
    ensures Select(n, nth, startRate, endRate)
            == if nth % (startRate + endRate) < startRate then Starts(nth, startRate, endRate)
               else n - 1 - (nth - Starts(nth, startRate, endRate))
  {
    var c := startRate + endRate;
    StartsInClosedForm(nth, startRate, endRate);
    DivModIdentity(nth, c);
    Complement(nth, nth / c, nth % c, startRate, endRate, Starts(nth, startRate, endRate));
  }

  lemma Complement(m: int, q: int, r: int, a: int, b: int, starts: int)
    requires m == q * (a + b) + r && starts == ClosedForm(q, r, a)
    ensures m - starts == q * b + if r < a then 0 else r - a
  {
    Distribute(q, a, b);
  }

  lemma {:induction false} StartsGrow(m: nat, k: nat, startRate: nat, endRate: nat)
    requires startRate + endRate > 0 && m <= k
    ensures Starts(m, startRate, endRate) <= Starts(k, startRate, endRate) <= Starts(m, startRate, endRate) + (k - m)
    decreases k
  {
    if m < k {
      StartsGrow(m, k - 1, startRate, endRate);
    }
  }

  /** The selection stays in the range and never underflows. */
  lemma SelectInRange(n: nat, nth: nat, startRate: nat, endRate: nat)
    requires startRate + endRate > 0 && nth < n
    ensures 0 <= Select(n, nth, startRate, endRate) < n
    ensures FromStart(nth, startRate, endRate) <==> Select(n, nth, startRate, endRate) < Starts(n, startRate, endRate)
  {
    SelectCounts(n, nth, startRate, endRate);
    StartsGrow(nth + 1, n, startRate, endRate);
  }

  /** Different positions select different values. */
  lemma SelectIsInjective(n: nat, i: nat, j: nat, startRate: nat, endRate: nat)
    requires startRate + endRate > 0 && i < j < n
    ensures Select(n, i, startRate, endRate) != Select(n, j, startRate, endRate)
  {
    SelectInRange(n, i, startRate, endRate);
    SelectInRange(n, j, startRate, endRate);
    SelectCounts(n, i, startRate, endRate);
    SelectCounts(n, j, startRate, endRate);
    StartsGrow(i + 1, j, startRate, endRate);
  }

  // ---- Orders of storages ----

  /** Each index below `n` once. */
  ghost predicate Permutation(indices: seq<nat>, n: nat) {
    && |indices| == n && (forall i :: 0 <= i < n ==> indices[i] < n)
    && (forall i, j :: 0 <= i < j < n ==> indices[i] != indices[j])
  }

  ghost function Values(indices: seq<nat>): set<nat> {
    set i | 0 <= i < |indices| :: indices[i]
  }

  lemma {:induction false} DistinctSize(indices: seq<nat>)
    requires forall i, j :: 0 <= i < j < |indices| ==> indices[i] != indices[j]
    ensures |Values(indices)| == |indices|
  {
    if indices != [] {
      var init := indices[..|indices| - 1];
      DistinctSize(init);
      assert Values(indices) == Values(init) + {indices[|indices| - 1]};
    }
  }

  /** A permutation misses no index. */
  lemma PermutationHasAll(indices: seq<nat>, n: nat, i: nat)
    requires Permutation(indices, n) && i < n
    ensures i in indices
  {
    DistinctSize(indices);
    SubsetSameSize(Values(indices), Range(n));
    assert i in Values(indices);
  }

  /** The storages from small to large. Storages of the same size come in any order. */
  ghost predicate IsSort(capacities: seq<nat>, sorted: seq<nat>) {
    && Permutation(sorted, |capacities|)
    && forall i, j :: 0 <= i < j < |sorted| ==> capacities[sorted[i]] <= capacities[sorted[j]]
  }

  /** The indices of the storages from small to large. */
  method SortByCapacity(capacities: seq<nat>) returns (indices: seq<nat>)
    ensures IsSort(capacities, indices)
  {
    indices := [];
    for n := 0 to |capacities|
      invariant Permutation(indices, n)
      invariant forall i, j :: 0 <= i < j < n ==> capacities[indices[i]] <= capacities[indices[j]]
    {
      var p := n;
      while p > 0 && capacities[n] < capacities[indices[p - 1]]
        invariant 0 <= p <= n
        invariant forall i :: p <= i < n ==> capacities[n] < capacities[indices[i]]
      {
        p := p - 1;
      }
      InsertKeepsPermutation(indices, n, p);
      InsertKeepsOrder(capacities, indices, n, p);
      indices := Inserted(indices, n, p);
    }
  }

  function Inserted(indices: seq<nat>, n: nat, p: nat): (r: seq<nat>)
    requires p <= |indices|
    ensures |r| == |indices| + 1
    ensures forall i :: 0 <= i < |r| ==> r[i] == if i < p then indices[i] else if i == p then n else indices[i - 1]
  {
    indices[..p] + [n] + indices[p..]
  }

  lemma InsertKeepsPermutation(indices: seq<nat>, n: nat, p: nat)
    requires Permutation(indices, n) && p <= n
    ensures Permutation(Inserted(indices, n, p), n + 1)
  {
  }

  lemma InsertKeepsOrder(capacities: seq<nat>, indices: seq<nat>, n: nat, p: nat)
    requires Permutation(indices, n) && p <= n < |capacities|
    requires forall i, j :: 0 <= i < j < n ==> capacities[indices[i]] <= capacities[indices[j]]
    requires forall i :: p <= i < n ==> capacities[n] < capacities[indices[i]]
    requires p > 0 ==> capacities[indices[p - 1]] <= capacities[n]
    ensures var r := Inserted(indices, n, p);
            Permutation(r, n + 1) && forall i, j :: 0 <= i < j < n + 1 ==> capacities[r[i]] <= capacities[r[j]]
  {
    InsertKeepsPermutation(indices, n, p);
    var r := Inserted(indices, n, p);
    forall i, j | 0 <= i < j < n + 1
      ensures capacities[r[i]] <= capacities[r[j]]
    {
      if j == p && i < p - 1 {
        assert capacities[indices[i]] <= capacities[indices[p - 1]];
      }
    }
  }

  /** The selection applied to each index of a sort. */
  ghost predicate IsSelected(sorted: seq<nat>, indices: seq<nat>, small: nat, large: nat)
    requires small + large > 0
  {
    |indices| == |sorted| && forall p :: 0 <= p < |sorted| ==> indices[p] == Select(|sorted|, sorted[p], small, large)
  }

  /**
   * Sorts the storages by capacity and applies the selection to each index. Every storage has its
   * place in the order. The order is the promised one when ranks are kept, and only then when no
   * two storages have the same capacity.
   */
  method WithSmallToLargeRatio(capacities: seq<nat>, small: nat, large: nat)
    returns (indices: seq<nat>, ghost sorted: seq<nat>)
    requires small + large > 0
    ensures IsSort(capacities, sorted) && IsSelected(sorted, indices, small, large)
    ensures Permutation(indices, |capacities|)
    ensures RanksKept(capacities, small, large) ==> Interleaved(capacities, indices, small, large)
    ensures AllDifferent(capacities) ==>
              (Interleaved(capacities, indices, small, large) <==> RanksKept(capacities, small, large))
  {
    var n := |capacities|;
    var order := SortByCapacity(capacities);
    sorted, indices := order, [];
    for i := 0 to n
      invariant |indices| == i && forall j :: 0 <= j < i ==> indices[j] == Select(n, order[j], small, large)
    {
      SelectInRange(n, order[i], small, large);
      indices := indices + [Select(n, order[i], small, large)];
    }
    SelectPermutes(order, indices, n, small, large);
    if RanksKept(capacities, small, large) {
      KeptIsInterleaved(capacities, sorted, indices, small, large);
    }
    if AllDifferent(capacities) && Interleaved(capacities, indices, small, large) {
      InterleavedIsKept(capacities, sorted, indices, small, large);
    }
  }

  lemma SelectPermutes(sorted: seq<nat>, indices: seq<nat>, n: nat, small: nat, large: nat)
    requires small + large > 0 && Permutation(sorted, n) && |indices| == n
    requires forall j :: 0 <= j < n ==> indices[j] == Select(n, sorted[j], small, large)
    ensures Permutation(indices, n)
  {
    forall i | 0 <= i < n
      ensures indices[i] < n
    {
      SelectInRange(n, sorted[i], small, large);
    }
    forall i, j | 0 <= i < j < n
      ensures indices[i] != indices[j]
    {
      if sorted[i] < sorted[j] {
        SelectIsInjective(n, sorted[i], sorted[j], small, large);
      } else {
        SelectIsInjective(n, sorted[j], sorted[i], small, large);
      }
    }
  }

  // ---- The promised order ----

  ghost function Smaller(capacities: seq<nat>, c: nat): set<nat> {
    set i | 0 <= i < |capacities| && capacities[i] < c
  }

  ghost function NotLarger(capacities: seq<nat>, c: nat): set<nat> {
    set i | 0 <= i < |capacities| && capacities[i] <= c
  }

  /** Storage `i` can be called the one of rank `r`, counted from the smallest. */
  ghost predicate HasRank(capacities: seq<nat>, i: int, r: int) {
    && 0 <= i < |capacities|
    && |Smaller(capacities, capacities[i])| <= r < |NotLarger(capacities, capacities[i])|
  }

  /**
   * The promised order: in every cycle `small` storages, the smallest not handed out yet, come
   * before `large` storages, the largest not handed out yet.
   */
  ghost predicate Interleaved(capacities: seq<nat>, indices: seq<nat>, small: nat, large: nat)
    requires small + large > 0
  {
    && |indices| == |capacities|
    && forall p :: 0 <= p < |indices| ==> HasRank(capacities, indices[p], Select(|capacities|, p, small, large))
  }

  /** The selection takes a storage of one rank to a storage of the selected rank. */
  ghost predicate RanksKept(capacities: seq<nat>, small: nat, large: nat)
    requires small + large > 0
  {
    var n := |capacities|;
    forall i: nat, r: nat {:trigger HasRank(capacities, i, r)} ::
      HasRank(capacities, i, r) ==> HasRank(capacities, Select(n, i, small, large), Select(n, r, small, large))
  }

  predicate AllDifferent(capacities: seq<nat>) {
    forall i, j :: 0 <= i < j < |capacities| ==> capacities[i] != capacities[j]
  }

  lemma FirstValues(sorted: seq<nat>, n: nat, r: nat)
    requires Permutation(sorted, n) && r <= n
    ensures |Values(sorted[..r])| == r
  {
    DistinctSize(sorted[..r]);
  }

  /** The storage at position `r` of a sort has rank `r`. */
  lemma SortHasRank(capacities: seq<nat>, sorted: seq<nat>, r: nat)
    requires IsSort(capacities, sorted) && r < |sorted|
    ensures HasRank(capacities, sorted[r], r)
  {
    var n, c := |capacities|, capacities[sorted[r]];
    forall i | i in Smaller(capacities, c)
      ensures i in Values(sorted[..r])
    {
      PermutationHasAll(sorted, n, i);
      var q :| 0 <= q < n && sorted[q] == i;
      assert q < r;
      assert sorted[..r][q] == i;
    }
    FirstValues(sorted, n, r);
    SubsetSize(Smaller(capacities, c), Values(sorted[..r]));
    forall i | i in Values(sorted[..r + 1])
      ensures i in NotLarger(capacities, c)
    {
      var q :| 0 <= q < r + 1 && sorted[..r + 1][q] == i;
    }
    FirstValues(sorted, n, r + 1);
    SubsetSize(Values(sorted[..r + 1]), NotLarger(capacities, c));
  }

  /** Storages of the same rank have the same capacity. */
  lemma SameRankSameCapacity(capacities: seq<nat>, i: nat, j: nat, r: nat)
    requires HasRank(capacities, i, r) && HasRank(capacities, j, r)
    ensures capacities[i] == capacities[j]
  {
    if capacities[i] < capacities[j] {
      SubsetSize(NotLarger(capacities, capacities[i]), Smaller(capacities, capacities[j]));
    } else if capacities[j] < capacities[i] {
      SubsetSize(NotLarger(capacities, capacities[j]), Smaller(capacities, capacities[i]));
    }
  }

  lemma RankInRange(capacities: seq<nat>, i: nat, r: nat)
    requires HasRank(capacities, i, r)
    ensures r < |capacities|
  {
    SubsetSize(NotLarger(capacities, capacities[i]), Range(|capacities|));
  }

  /** When ranks are kept, every sort leads to the promised order. */
  lemma KeptIsInterleaved(capacities: seq<nat>, sorted: seq<nat>, indices: seq<nat>, small: nat, large: nat)
    requires small + large > 0 && RanksKept(capacities, small, large)
    requires IsSort(capacities, sorted) && IsSelected(sorted, indices, small, large)
    ensures Interleaved(capacities, indices, small, large)
  {
    forall p | 0 <= p < |indices|
      ensures HasRank(capacities, indices[p], Select(|capacities|, p, small, large))
    {
      SortHasRank(capacities, sorted, p);
    }
  }

  /** One sort with two storages of the same capacity exchanged is another. */
  lemma SwapIsSort(capacities: seq<nat>, sorted: seq<nat>, p: nat, q: nat)
    requires IsSort(capacities, sorted) && p < |sorted| && q < |sorted|
    requires capacities[sorted[p]] == capacities[sorted[q]]
    ensures IsSort(capacities, sorted[p := sorted[q]][q := sorted[p]])
  {
  }

  /** A storage of rank `r` is at position `r` of some sort. */
  lemma RankIsSorted(capacities: seq<nat>, sorted: seq<nat>, i: nat, r: nat) returns (other: seq<nat>)
    requires IsSort(capacities, sorted) && HasRank(capacities, i, r)
    ensures IsSort(capacities, other) && r < |other| && other[r] == i
    ensures AllDifferent(capacities) ==> other == sorted
  {
    RankInRange(capacities, i, r);
    SortHasRank(capacities, sorted, r);
    SameRankSameCapacity(capacities, i, sorted[r], r);
    PermutationHasAll(sorted, |capacities|, i);
    var q :| 0 <= q < |sorted| && sorted[q] == i;
    SwapIsSort(capacities, sorted, r, q);
    other := sorted[r := sorted[q]][q := sorted[r]];
    if AllDifferent(capacities) {
      assert sorted[r] == i && r == q;
    }
  }

  /** Without equal capacities, the promised order is reached only when ranks are kept. */
  lemma InterleavedIsKept(capacities: seq<nat>, sorted: seq<nat>, indices: seq<nat>, small: nat, large: nat)
    requires small + large > 0 && AllDifferent(capacities) && Interleaved(capacities, indices, small, large)
    requires IsSort(capacities, sorted) && IsSelected(sorted, indices, small, large)
    ensures RanksKept(capacities, small, large)
  {
    forall i: nat, r: nat | HasRank(capacities, i, r)
      ensures HasRank(capacities, Select(|capacities|, i, small, large), Select(|capacities|, r, small, large))
    {
      var other := RankIsSorted(capacities, sorted, i, r);
      assert indices[r] == Select(|capacities|, i, small, large);
    }
  }

  ghost function Selected(sorted: seq<nat>, n: nat, small: nat, large: nat): (r: seq<nat>)
    requires small + large > 0 && Permutation(sorted, n)
    ensures IsSelected(sorted, r, small, large)
  {
    seq(n, p requires 0 <= p < n =>
          assert 0 <= Select(n, sorted[p], small, large) by {
            SelectInRange(n, sorted[p], small, large);
          }
          Select(n, sorted[p], small, large))
  }

  /** Exactly when ranks are kept does every way to sort lead to the promised order. */
  lemma InterleavedExactlyWhenKept(capacities: seq<nat>, sorted: seq<nat>, small: nat, large: nat)
    requires small + large > 0 && IsSort(capacities, sorted)
    ensures RanksKept(capacities, small, large) <==>
            forall other, indices :: IsSort(capacities, other) && IsSelected(other, indices, small, large)
              ==> Interleaved(capacities, indices, small, large)
  {
    var n := |capacities|;
    if RanksKept(capacities, small, large) {
      forall other, indices | IsSort(capacities, other) && IsSelected(other, indices, small, large)
        ensures Interleaved(capacities, indices, small, large)
      {
        KeptIsInterleaved(capacities, other, indices, small, large);
      }
    } else {
      var i: nat, r: nat :| HasRank(capacities, i, r)
                            && !HasRank(capacities, Select(n, i, small, large), Select(n, r, small, large));
      var other := RankIsSorted(capacities, sorted, i, r);
      var indices := Selected(other, n, small, large);
      assert indices[r] == Select(n, i, small, large);
      assert !Interleaved(capacities, indices, small, large);
    }
  }

  /** Storages that come with growing capacities are ordered as promised. */
  lemma GrowingIsKept(capacities: seq<nat>, small: nat, large: nat)
    requires small + large > 0 && forall i, j :: 0 <= i < j < |capacities| ==> capacities[i] < capacities[j]
    ensures RanksKept(capacities, small, large)
  {
    var n := |capacities|;
    var sorted := seq(n, i => i);
    assert IsSort(capacities, sorted);
    forall i: nat, r: nat | HasRank(capacities, i, r)
      ensures HasRank(capacities, Select(n, i, small, large), Select(n, r, small, large))
    {
      RankInRange(capacities, i, r);
      SortHasRank(capacities, sorted, r);
      SameRankSameCapacity(capacities, i, r, r);
      SelectInRange(n, i, small, large);
      SortHasRank(capacities, sorted, Select(n, i, small, large));
    }
  }

  /** Of the capacities 2, 0 and 1, the one handed out first at ratio 1:1 is 1, and not the smallest. */
  lemma RatioCanFail(sorted: seq<nat>, indices: seq<nat>)
    requires IsSort([2, 0, 1], sorted) && IsSelected(sorted, indices, 1, 1)
    ensures [2, 0, 1][indices[0]] == 1 && !Interleaved([2, 0, 1], indices, 1, 1)
  {
    var capacities := [2, 0, 1];
    SortHasRank(capacities, sorted, 0);
    assert Smaller(capacities, 1) == {1};
    assert Smaller(capacities, 2) == {1, 2};
    assert sorted[0] == 1;
    assert indices[0] == 2;
  }

  // ---- Handing storages out ----

  datatype NextItem = NextItem(position: nat, originalIndex: nat)

  /** Shared by several threads. Taking the position and moving on is one atomic step. */
  class ConcurrentConsumer {
    const indices: seq<nat>
    var position: nat
    /** The storages handed out so far, to whichever thread asked. */
    ghost var taken: seq<nat>

    ghost predicate Valid()
      reads this
    {
      && Permutation(indices, |indices|)
      && taken == indices[..if position < |indices| then position else |indices|]
    }

    constructor (indices: seq<nat>)
      requires Permutation(indices, |indices|)
      ensures Valid() && this.indices == indices && taken == []
    {
      this.indices, position, taken := indices, 0, [];
    }

    /** Hands out a storage nobody got before, until all have been handed out. */
    method Next() returns (item: Option<NextItem>)
      requires Valid()
      modifies this
      ensures Valid()
      ensures item.None? <==> forall i: nat :: i < |indices| ==> i in old(taken)
      ensures item.None? ==> taken == old(taken)
      ensures item.Some? ==> item.value.originalIndex < |indices| && item.value.originalIndex !in old(taken)
      ensures item.Some? ==> taken == old(taken) + [item.value.originalIndex]
    {
      var current := position;
      position := position + 1;
      if current < |indices| {
        item := Some(NextItem(current, indices[current]));
        taken := taken + [indices[current]];
        assert indices[current] !in old(taken);
      } else {
        item := None;
        forall i: nat | i < |indices|
          ensures i in taken
        {
          PermutationHasAll(indices, |indices|, i);
        }
      }
    }
  }
}
