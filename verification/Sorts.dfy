/**
 The sorts of playground/adaptive_sort_demo/sort_benchmark.py, loop by loop, with their cost
 counters. Each method is specified by what it returns and by the exact cost in terms of the
 input (`SortSpec`).
 */
module Sorts {
  import opened SortSpec

  /** The counters every sort updates as it goes. */
  class Ops {
    var comparisons: nat
    var moves: nat

    constructor ()
      ensures comparisons == 0 && moves == 0
    {
      comparisons, moves := 0, 0;
    }

    method Compare(a: int, b: int) returns (c: int)
      modifies this
      ensures comparisons == old(comparisons) + 1 && moves == old(moves)
      ensures c == if a > b then 1 else if a < b then -1 else 0
    {
      comparisons := comparisons + 1;
      c := (if a > b then 1 else 0) - (if a < b then 1 else 0);
    }

    method Move(count: nat := 1)
      modifies this
      ensures moves == old(moves) + count && comparisons == old(comparisons)
    {
      moves := moves + count;
    }
  }

  function InsertionMoves(values: seq<int>): nat {
    if values == [] then 0 else 2 * (|values| - 1) + Inversions(values)
  }

  function InsertionComparisons(values: seq<int>): nat {
    Inversions(values) + NotNewMinima(values)
  }

  method InsertionSort(values: seq<int>, ops: Ops) returns (out: seq<int>)
    modifies ops
    ensures IsSortOf(out, values)
    ensures ops.moves == old(ops.moves) + InsertionMoves(values)
    ensures ops.comparisons == old(ops.comparisons) + InsertionComparisons(values)
  {
    var n := |values|;
    var arr := new int[n](i requires 0 <= i < n => values[i]);
    if n == 0 {
      return values;
    }
    SingletonCost(values[0]);
    assert arr[..1] == values[..1] == [values[0]];
    for i := 1 to n
      invariant Sorted(arr[..i]) && multiset(arr[..i]) == multiset(values[..i])
      invariant forall k :: i <= k < n ==> arr[k] == values[k]
      invariant ops.moves == old(ops.moves) + InsertionMoves(values[..i])
      invariant ops.comparisons == old(ops.comparisons) + InsertionComparisons(values[..i])
    {
      ghost var before := arr[..i];
      Insert(arr, i, ops);
      OneMore(values, i, before);
    }
    assert values[..n] == values;
    out := arr[..n];
  }

  lemma OneMore(values: seq<int>, i: nat, before: seq<int>)
    requires 0 < i < |values| && multiset(before) == multiset(values[..i])
    ensures multiset(values[..i + 1]) == multiset(before) + multiset{values[i]}
    ensures var shifted := Count(before, Above(values[i]));
            && InsertionMoves(values[..i + 1]) == InsertionMoves(values[..i]) + 2 + shifted
            && InsertionComparisons(values[..i + 1])
               == InsertionComparisons(values[..i]) + shifted + if shifted < i then 1 else 0
  {
    assert values[..i + 1][..i] == values[..i];
    assert values[..i + 1] == values[..i] + [values[i]];
    CountPermutation(before, values[..i], Above(values[i]));
  }

  /** One round of the outer loop: arr[i] goes into its place among the sorted arr[..i]. */
  method Insert(arr: array<int>, i: nat, ops: Ops)
    requires 0 < i < arr.Length && Sorted(arr[..i])
    modifies arr, ops
    ensures Sorted(arr[..i + 1])
    ensures multiset(arr[..i + 1]) == multiset(old(arr[..i])) + multiset{old(arr[i])}
    ensures forall k :: i < k < arr.Length ==> arr[k] == old(arr[k])
    ensures var shifted := Count(old(arr[..i]), Above(old(arr[i])));
            && ops.moves == old(ops.moves) + 2 + shifted
            && ops.comparisons == old(ops.comparisons) + shifted + if shifted < i then 1 else 0
  {
    ghost var before := arr[..i];
    var key := arr[i];
    ops.Move();
    var hole := Shift(arr, i, key, ops);
    arr[hole] := key;
    ops.Move();
    ghost var after := arr[..i + 1];
    assert after[hole] == key;
    Inserted(before, key, hole, after);
  }

  /** The inner loop: the elements larger than key move up by one and leave a hole. */
  method Shift(arr: array<int>, i: nat, key: int, ops: Ops) returns (hole: nat)
    requires 0 < i < arr.Length
    modifies arr, ops
    ensures hole <= i && forall k :: 0 <= k < hole ==> arr[k] == old(arr[k])
    ensures forall k :: hole < k <= i ==> arr[k] == old(arr[k - 1])
    ensures forall k :: i < k < arr.Length ==> arr[k] == old(arr[k])
    ensures (hole > 0 ==> old(arr[hole - 1]) <= key) && (hole < i ==> key < old(arr[hole]))
    ensures ops.moves == old(ops.moves) + i - hole
    ensures ops.comparisons == old(ops.comparisons) + i - hole + if hole > 0 then 1 else 0
  {
    var j := i - 1;
    while j >= 0
      invariant -1 <= j < i
      invariant forall k :: 0 <= k <= j ==> arr[k] == old(arr[k])
      invariant forall k :: j + 1 < k <= i ==> arr[k] == old(arr[k - 1])
      invariant forall k :: i < k < arr.Length ==> arr[k] == old(arr[k])
      invariant j + 1 < i ==> key < old(arr[j + 1])
      invariant ops.moves == old(ops.moves) + i - 1 - j
      invariant ops.comparisons == old(ops.comparisons) + i - 1 - j
    {
      var c := ops.Compare(arr[j], key);
      if c <= 0 {
        break;
      }
      arr[j + 1] := arr[j];
      ops.Move();
      j := j - 1;
    }
    hole := j + 1;
  }

  lemma InsertedAt(before: seq<int>, key: int, k: nat, after: seq<int>)
    requires k <= |before| && |after| == |before| + 1 && after[k] == key
    requires forall m :: 0 <= m < k ==> after[m] == before[m]
    requires forall m :: k < m < |after| ==> after[m] == before[m - 1]
    ensures after == before[..k] + [key] + before[k..]
  {
  }

  lemma Inserted(before: seq<int>, key: int, k: nat, after: seq<int>)
    requires Sorted(before) && k <= |before|
    requires (k > 0 ==> before[k - 1] <= key) && (k < |before| ==> key < before[k])
    requires |after| == |before| + 1 && after[k] == key
    requires forall m :: 0 <= m < k ==> after[m] == before[m]
    requires forall m :: k < m < |after| ==> after[m] == before[m - 1]
    ensures Sorted(after) && multiset(after) == multiset(before) + multiset{key}
    ensures Count(before, Above(key)) == |before| - k
  {
    InsertedAt(before, key, k, after);
    SortedAround(before[..k], key, before[k..]);
    InsertedMultiset(before, key, k);
    AboveFrom(before, key, k);
  }

  lemma SortedAround(a: seq<int>, key: int, b: seq<int>)
    requires Sorted(a) && Sorted(b)
    requires (a != [] ==> a[|a| - 1] <= key) && (b != [] ==> key <= b[0])
    ensures Sorted(a + [key] + b)
  {
    SortedConcat(a, [key]);
    SortedConcat(a + [key], b);
  }

  lemma AboveFrom(before: seq<int>, key: int, k: nat)
    requires Sorted(before) && k <= |before|
    requires (k > 0 ==> before[k - 1] <= key) && (k < |before| ==> key < before[k])
    ensures Count(before, Above(key)) == |before| - k
  {
    CountSuffix(before, k, Above(key));
  }

  lemma InsertedMultiset(before: seq<int>, key: int, k: nat)
    requires k <= |before|
    ensures multiset(before[..k] + [key] + before[k..]) == multiset(before) + multiset{key}
  {
    MultisetSplit(before, k);
  }

  method MergeSort(values: seq<int>, ops: Ops) returns (out: seq<int>)
    modifies ops
    ensures IsSortOf(out, values)
    ensures ops.moves == old(ops.moves) + MergeSortMoves(values)
    ensures ops.comparisons == old(ops.comparisons) + MergeSortComparisons(values)
    decreases |values|
  {
    if |values| <= 1 {
      return values;
    }
    var mid := |values| / 2;
    var left := MergeSort(values[..mid], ops);
    var right := MergeSort(values[mid..], ops);
    HalvesSorted(values, left, right);
    out := Merge(left, right, ops);
  }

  lemma HalvesSorted(values: seq<int>, left: seq<int>, right: seq<int>)
    requires |values| > 1
    requires IsSortOf(left, values[..|values| / 2]) && IsSortOf(right, values[|values| / 2..])
    ensures left != [] && right != [] && |left| + |right| == |values|
    ensures MergeComparisons(left, right) == MergeComparisons(values[..|values| / 2], values[|values| / 2..])
    ensures multiset(left) + multiset(right) == multiset(values)
  {
    var mid := |values| / 2;
    SameLength(left, values[..mid]);
    SameLength(right, values[mid..]);
    MergeComparisonsPermutation(left, values[..mid], right, values[mid..]);
    MultisetSplit(values, mid);
  }

  /** out merges the first i elements of left with the first j of right, and it was the values,
      not the positions, that decided where each side got to. */
  ghost predicate Merged(left: seq<int>, right: seq<int>, i: int, j: int, out: seq<int>) {
    && 0 <= i <= |left| && 0 <= j <= |right| && left != [] && right != []
    && (i < |left| || j < |right|)
    && Sorted(out) && multiset(out) == multiset(left[..i]) + multiset(right[..j])
    && (forall k :: 0 <= k < |out| ==> (i < |left| ==> out[k] <= left[i]) && (j < |right| ==> out[k] <= right[j]))
    && (forall k :: 0 <= k < j ==> right[k] < left[|left| - 1] && (i < |left| ==> right[k] < left[i]))
    && (forall k :: 0 <= k < i ==> left[k] <= right[|right| - 1] && (j < |right| ==> left[k] <= right[j]))
  }

  lemma TakeLeft(left: seq<int>, right: seq<int>, i: int, j: int, out: seq<int>)
    requires Sorted(left) && Sorted(right) && Merged(left, right, i, j, out)
    requires i < |left| && j < |right| && left[i] <= right[j]
    ensures Merged(left, right, i + 1, j, out + [left[i]])
  {
    assert left[..i + 1] == left[..i] + [left[i]];
  }

  lemma TakeRight(left: seq<int>, right: seq<int>, i: int, j: int, out: seq<int>)
    requires Sorted(left) && Sorted(right) && Merged(left, right, i, j, out)
    requires i < |left| && j < |right| && left[i] > right[j]
    ensures Merged(left, right, i, j + 1, out + [right[j]])
  {
    assert right[..j + 1] == right[..j] + [right[j]];
  }

  lemma TakeRest(left: seq<int>, right: seq<int>, i: int, j: int, out: seq<int>)
    requires Sorted(left) && Sorted(right) && Merged(left, right, i, j, out)
    requires i == |left| || j == |right|
    ensures Sorted(out + left[i..] + right[j..])
    ensures multiset(out + left[i..] + right[j..]) == multiset(left) + multiset(right)
  {
    SortedConcat(out, left[i..]);
    SortedConcat(out + left[i..], right[j..]);
    MultisetSplit(left, i);
    MultisetSplit(right, j);
  }

  lemma MultisetSplit(s: seq<int>, k: int)
    requires 0 <= k <= |s|
    ensures multiset(s[..k]) + multiset(s[k..]) == multiset(s)
  {
    assert s == s[..k] + s[k..];
  }

  /** The merging part of merge_sort. */
  method Merge(left: seq<int>, right: seq<int>, ops: Ops) returns (out: seq<int>)
    requires Sorted(left) && Sorted(right) && left != [] && right != []
    modifies ops
    ensures Sorted(out) && multiset(out) == multiset(left) + multiset(right)
    ensures ops.moves == old(ops.moves) + |left| + |right|
    ensures ops.comparisons == old(ops.comparisons) + MergeComparisons(left, right)
  {
    out := [];
    var i, j := 0, 0;
    while i < |left| && j < |right|
      invariant Merged(left, right, i, j, out)
      invariant ops.moves == old(ops.moves) + i + j
      invariant ops.comparisons == old(ops.comparisons) + i + j
    {
      var c := ops.Compare(left[i], right[j]);
      if c <= 0 {
        TakeLeft(left, right, i, j, out);
        out := out + [left[i]];
        ops.Move();
        i := i + 1;
      } else {
        TakeRight(left, right, i, j, out);
        out := out + [right[j]];
        ops.Move();
        j := j + 1;
      }
    }
    TakeRest(left, right, i, j, out);
    MergeCost(left, right, i, j, out);
    NothingLeft(out, left, i);
    NothingLeft(out + left[i..], right, j);
    if i < |left| {
      out := out + left[i..];
      ops.Move(|left| - i);
    }
    if j < |right| {
      out := out + right[j..];
      ops.Move(|right| - j);
    }
  }

  lemma NothingLeft(out: seq<int>, side: seq<int>, i: int)
    requires 0 <= i <= |side|
    ensures i == |side| ==> out + side[i..] == out
  {
  }

  /** Where the merge loop stops is where MergeComparisons says it does. */
  lemma MergeCost(left: seq<int>, right: seq<int>, i: int, j: int, out: seq<int>)
    requires Sorted(left) && Sorted(right) && Merged(left, right, i, j, out)
    requires i == |left| || j == |right|
    ensures MergeComparisons(left, right) == i + j
  {
    MaxOfSort(left, left);
    MaxOfSort(right, right);
    if i == |left| {
      CountPrefix(right, j, Below(Max(left)));
    } else {
      CountPrefix(left, i, AtMost(Max(right)));
    }
  }

  /** The first loop of counting_sort. */
  method Tally(values: seq<int>, minValue: int, counts: array<nat>, ops: Ops)
    requires forall k :: 0 <= k < |values| ==> minValue <= values[k] < minValue + counts.Length
    requires forall d :: 0 <= d < counts.Length ==> counts[d] == 0
    modifies counts, ops
    ensures forall d :: 0 <= d < counts.Length ==> counts[d] == multiset(values)[minValue + d]
    ensures ops.moves == old(ops.moves) + |values| && ops.comparisons == old(ops.comparisons)
  {
    for i := 0 to |values|
      invariant forall d :: 0 <= d < counts.Length ==> counts[d] == multiset(values[..i])[minValue + d]
      invariant ops.moves == old(ops.moves) + i && ops.comparisons == old(ops.comparisons)
    {
      assert values[..i + 1] == values[..i] + [values[i]];
      counts[values[i] - minValue] := counts[values[i] - minValue] + 1;
      ops.Move();
    }
    assert values[..|values|] == values;
  }

  method CountingSort(values: seq<int>, minValue: int, maxValue: int, ops: Ops) returns (out: seq<int>)
    requires minValue <= maxValue
    requires forall k :: 0 <= k < |values| ==> minValue <= values[k] <= maxValue
    modifies ops
    ensures IsSortOf(out, values)
    ensures ops.moves == old(ops.moves) + (maxValue - minValue + 1) + 2 * |values|
    ensures ops.comparisons == old(ops.comparisons)
  {
    var span := maxValue - minValue + 1;
    var counts := new nat[span](_ => 0);
    ops.Move(counts.Length);
    Tally(values, minValue, counts, ops);
    out := [];
    for index := 0 to span
      invariant forall d :: 0 <= d < span ==> counts[d] == multiset(values)[minValue + d]
      invariant Emitted(out, values, minValue, minValue + index)
      invariant ops.moves == old(ops.moves) + span + |values| + |out| && ops.comparisons == old(ops.comparisons)
    {
      var count := counts[index];
      var value := minValue + index;
      Emit(out, values, minValue, value, count);
      if count != 0 {
        out := out + seq(count, _ => value);
        ops.Move(count);
      } else {
        assert seq(count, _ => value) == [];
        assert out + [] == out;
      }
    }
    SameCounts(out, values, minValue, maxValue);
    SameLength(out, values);
  }

  /** out is the sorted list of those values that are at least lo and below x. */
  ghost predicate Emitted(out: seq<int>, values: seq<int>, lo: int, x: int) {
    && Sorted(out)
    && (forall k :: 0 <= k < |out| ==> lo <= out[k] < x)
    && (forall y :: lo <= y < x ==> multiset(out)[y] == multiset(values)[y])
  }

  lemma Emit(out: seq<int>, values: seq<int>, lo: int, x: int, count: nat)
    requires lo <= x && Emitted(out, values, lo, x) && multiset(values)[x] == count
    ensures Emitted(out + seq(count, _ => x), values, lo, x + 1)
  {
    EmitSorted(out, lo, x, seq(count, _ => x));
    EmitCounts(out, values, lo, x, count);
  }

  lemma EmitSorted(out: seq<int>, lo: int, x: int, block: seq<int>)
    requires Sorted(out) && lo <= x
    requires forall k :: 0 <= k < |out| ==> lo <= out[k] < x
    requires forall k :: 0 <= k < |block| ==> block[k] == x
    ensures Sorted(out + block)
    ensures forall k :: 0 <= k < |out + block| ==> lo <= (out + block)[k] < x + 1
  {
    SortedConcat(out, block);
  }

  lemma EmitCounts(out: seq<int>, values: seq<int>, lo: int, x: int, count: nat)
    requires multiset(values)[x] == count && x !in out
    requires forall y :: lo <= y < x ==> multiset(out)[y] == multiset(values)[y]
    ensures forall y :: lo <= y < x + 1 ==> multiset(out + seq(count, _ => x))[y] == multiset(values)[y]
  {
    BlockCount(x, count);
    assert multiset(out + seq(count, _ => x)) == multiset(out) + multiset(seq(count, _ => x));
  }

  lemma SameCounts(a: seq<int>, b: seq<int>, lo: int, hi: int)
    requires forall k :: 0 <= k < |a| ==> lo <= a[k] <= hi
    requires forall k :: 0 <= k < |b| ==> lo <= b[k] <= hi
    requires forall x :: lo <= x <= hi ==> multiset(a)[x] == multiset(b)[x]
    ensures multiset(a) == multiset(b)
  {
    forall x ensures multiset(a)[x] == multiset(b)[x] {
      if x < lo || hi < x {
        assert x !in a && x !in b;
      }
    }
  }

  lemma {:induction false} BlockCount(x: int, count: nat)
    ensures multiset(seq(count, _ => x)) == multiset{}[x := count]
  {
    if count > 0 {
      BlockCount(x, count - 1);
      assert seq(count, _ => x) == seq(count - 1, _ => x) + [x];
    } else {
      assert seq(0, _ => x) == [];
    }
  }

  /** The length of the longest contiguous segment that never decreases. */
  method LongestNonDecreasingRun(values: seq<int>) returns (best: nat)
    ensures exists lo, hi :: NonDecreasing(values, lo, hi) && hi - lo == best
    ensures forall lo, hi :: NonDecreasing(values, lo, hi) ==> hi - lo <= best
  {
    if values == [] {
      assert NonDecreasing(values, 0, 0);
      return 0;
    }
    var current := 1;
    best := 1;
    ghost var bestLo := 0;
    for idx := 1 to |values|
      invariant 1 <= current <= idx && NonDecreasing(values, idx - current, idx)
      invariant current < idx ==> values[idx - current - 1] > values[idx - current]
      invariant 1 <= best && NonDecreasing(values, bestLo, bestLo + best)
      invariant forall lo, hi :: NonDecreasing(values, lo, hi) && hi <= idx ==> hi - lo <= best || hi - lo <= current
    {
      if values[idx - 1] <= values[idx] {
        SegmentsEndingAt(values, idx, current);
        current := current + 1;
      } else {
        if current > best {
          best := current;
          bestLo := idx - current;
        }
        forall lo, hi | NonDecreasing(values, lo, hi) && hi <= idx + 1
          ensures hi - lo <= best
        {
        }
        current := 1;
      }
    }
    if current > best {
      best := current;
      bestLo := |values| - current;
    }
    assert NonDecreasing(values, bestLo, bestLo + best);
  }

  /** A segment ending right after idx is at most one longer than the current run. */
  lemma SegmentsEndingAt(values: seq<int>, idx: nat, current: nat)
    requires idx < |values| && 1 <= current <= idx
    requires current < idx ==> values[idx - current - 1] > values[idx - current]
    ensures forall lo, hi :: NonDecreasing(values, lo, hi) && hi == idx + 1 ==> hi - lo <= current + 1
  {
  }

  method MinMax(values: seq<int>) returns (min: int, max: int)
    requires values != []
    ensures min in values && max in values
    ensures forall k :: 0 <= k < |values| ==> min <= values[k] <= max
  {
    min, max := values[0], values[0];
    for i := 0 to |values|
      invariant min in values && max in values
      invariant forall k :: 0 <= k < i ==> min <= values[k] <= max
    {
      if values[i] < min { min := values[i]; }
      if values[i] > max { max := values[i]; }
    }
  }

  datatype Params = Params(insertionThreshold: int, runDetectionMin: int, countingSpanLimit: int)

  /** How far apart the smallest and the largest value are. */
  ghost predicate HasSpan(values: seq<int>, span: int) {
    && (exists min, max :: min in values && max in values && max - min == span)
    && (forall x, y :: x in values && y in values ==> x - y <= span)
  }

  ghost predicate LongestRun(values: seq<int>, length: int) {
    && (exists lo, hi :: NonDecreasing(values, lo, hi) && hi - lo == length)
    && (forall lo, hi :: NonDecreasing(values, lo, hi) ==> hi - lo <= length)
  }

  /** Dispatches on length, span and presortedness. Whichever path it takes, the result is the
      sorted list; the cost is that of the path, which the four implications name. */
  method HybridSort(values: seq<int>, params: Params, ops: Ops) returns (out: seq<int>)
    modifies ops
    ensures IsSortOf(out, values)
    ensures |values| <= params.insertionThreshold ==>
              ops.moves == old(ops.moves) + InsertionMoves(values)
              && ops.comparisons == old(ops.comparisons) + InsertionComparisons(values)
    ensures forall span :: |values| > params.insertionThreshold && HasSpan(values, span) && span <= params.countingSpanLimit ==>
              ops.moves == old(ops.moves) + span + 1 + 2 * |values| && ops.comparisons == old(ops.comparisons)
    ensures forall span, run ::
              |values| > params.insertionThreshold && (values == [] || (HasSpan(values, span) && span > params.countingSpanLimit))
              && LongestRun(values, run) ==>
              if run >= params.runDetectionMin
              then ops.moves == old(ops.moves) + InsertionMoves(values)
                   && ops.comparisons == old(ops.comparisons) + InsertionComparisons(values)
              else ops.moves == old(ops.moves) + MergeSortMoves(values)
                   && ops.comparisons == old(ops.comparisons) + MergeSortComparisons(values)
  {
    if |values| <= params.insertionThreshold {
      out := InsertionSort(values, ops);
      return;
    }
    if values != [] {
      var minValue, maxValue := MinMax(values);
      assert HasSpan(values, maxValue - minValue) by {
        assert minValue in values && maxValue in values;
      }
      SpanIsUnique(values, maxValue - minValue);
      if maxValue - minValue <= params.countingSpanLimit {
        out := CountingSort(values, minValue, maxValue, ops);
        return;
      }
    }
    var run := LongestNonDecreasingRun(values);
    if run >= params.runDetectionMin {
      out := InsertionSort(values, ops);
      return;
    }
    out := MergeSort(values, ops);
  }

  lemma SpanIsUnique(values: seq<int>, span: int)
    requires HasSpan(values, span)
    ensures forall other :: HasSpan(values, other) ==> other == span
  {
  }

  /** Whatever the settings, hybrid sort and merge sort return the same list. */
  method SameResult(values: seq<int>, params: Params) returns (a: seq<int>, b: seq<int>)
    ensures a == b && IsSortOf(a, values)
  {
    var ops := new Ops();
    a := HybridSort(values, params, ops);
    b := MergeSort(values, ops);
    SortIsUnique(a, b, values);
  }

  /** Insertion sort of n >= 1 values: 2(n-1) + inv moves, between inv and inv + n-1 comparisons. */
  lemma InsertionCost(values: seq<int>)
    requires values != []
    ensures InsertionMoves(values) == 2 * (|values| - 1) + |InversionPairs(values)|
    ensures |InversionPairs(values)| <= InsertionComparisons(values) <= |InversionPairs(values)| + |values| - 1
  {
    InversionsCountPairs(values);
    NotNewMinimaBound(values);
  }
}
