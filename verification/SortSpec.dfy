/**
 What the adaptive sorts of playground/adaptive_sort_demo/sort_benchmark.py are measured by:
 sortedness, inversions, and the numbers of comparisons and moves as functions of the input.
 Every function here depends on the values only, not on how a sort proceeds.
 */
module SortSpec {

  ghost predicate Sorted(s: seq<int>) {
    forall i, j :: 0 <= i < j < |s| ==> s[i] <= s[j]
  }

  ghost predicate IsSortOf(out: seq<int>, values: seq<int>) {
    Sorted(out) && multiset(out) == multiset(values)
  }

  lemma SortedConcat(a: seq<int>, b: seq<int>)
    requires Sorted(a) && Sorted(b)
    requires a != [] && b != [] ==> a[|a| - 1] <= b[0]
    ensures Sorted(a + b)
  {
    forall i, j | 0 <= i < j < |a + b| ensures (a + b)[i] <= (a + b)[j] {
      if i < |a| <= j {
        assert a[i] <= a[|a| - 1] && b[0] <= b[j - |a|];
      }
    }
  }

  // ---------------------------------------------------------------- counting

  function Above(k: int): int -> bool { x => x > k }

  function Below(k: int): int -> bool { x => x < k }

  function AtMost(k: int): int -> bool { x => x <= k }

  /** How many elements satisfy p. */
  function Count(s: seq<int>, p: int -> bool): nat {
    if s == [] then 0
    else Count(s[..|s| - 1], p) + if p(s[|s| - 1]) then 1 else 0
  }

  lemma {:induction false} CountConcat(a: seq<int>, b: seq<int>, p: int -> bool)
    ensures Count(a + b, p) == Count(a, p) + Count(b, p)
  {
    if b == [] {
      assert a + b == a;
    } else {
      assert (a + b)[..|a + b| - 1] == a + b[..|b| - 1];
      CountConcat(a, b[..|b| - 1], p);
    }
  }

  /** Counting ignores order. */
  lemma {:induction false} CountPermutation(a: seq<int>, b: seq<int>, p: int -> bool)
    requires multiset(a) == multiset(b)
    ensures Count(a, p) == Count(b, p)
    decreases |a|
  {
    if a == [] {
      SameLength(a, b);
    } else {
      var x := a[|a| - 1];
      assert x in multiset(b);
      var k :| 0 <= k < |b| && b[k] == x;
      assert a == a[..|a| - 1] + [x];
      assert b == b[..k] + [x] + b[k + 1..];
      WithoutLast(a);
      assert multiset(b[..k] + b[k + 1..]) == multiset(b) - multiset{x};
      CountPermutation(a[..|a| - 1], b[..k] + b[k + 1..], p);
      CountConcat(b[..k], b[k + 1..], p);
      CountConcat(b[..k] + [x], b[k + 1..], p);
      CountConcat(b[..k], [x], p);
      assert Count([x], p) == if p(x) then 1 else 0 by { assert [x][..0] == []; }
    }
  }

  lemma SameLength(a: seq<int>, b: seq<int>)
    requires multiset(a) == multiset(b)
    ensures |a| == |b|
  {
    assert |multiset(a)| == |a| && |multiset(b)| == |b|;
  }

  /** If exactly the first k elements satisfy p, there are k of them. */
  lemma {:induction false} CountPrefix(s: seq<int>, k: nat, p: int -> bool)
    requires k <= |s|
    requires forall i :: 0 <= i < |s| ==> (p(s[i]) <==> i < k)
    ensures Count(s, p) == k
    decreases |s|
  {
    if s != [] {
      CountPrefix(s[..|s| - 1], if k == |s| then k - 1 else k, p);
    }
  }

  /** If exactly the elements from k on satisfy p, there are |s| - k of them. */
  lemma {:induction false} CountSuffix(s: seq<int>, k: nat, p: int -> bool)
    requires k <= |s|
    requires forall i :: 0 <= i < |s| ==> (p(s[i]) <==> k <= i)
    ensures Count(s, p) == |s| - k
    decreases |s|
  {
    if s != [] {
      CountSuffix(s[..|s| - 1], if k == |s| then k - 1 else k, p);
    }
  }

  lemma CountAtMostLength(s: seq<int>, p: int -> bool)
    ensures Count(s, p) <= |s|
  {
  }

  function Max(s: seq<int>): int
    requires s != []
  {
    if |s| == 1 then s[0] else if Max(s[1..]) < s[0] then s[0] else Max(s[1..])
  }

  lemma {:induction false} MaxIsMax(s: seq<int>)
    requires s != []
    ensures Max(s) in s
    ensures forall i :: 0 <= i < |s| ==> s[i] <= Max(s)
  {
    if |s| > 1 {
      MaxIsMax(s[1..]);
      assert forall i :: 1 <= i < |s| ==> s[i] == s[1..][i - 1];
    }
  }

  lemma MaxOfSort(out: seq<int>, values: seq<int>)
    requires IsSortOf(out, values) && values != []
    ensures out != [] && out[|out| - 1] == Max(values)
  {
    SameLength(out, values);
    MaxIsMax(values);
    assert out[|out| - 1] in multiset(values);
    assert Max(values) in multiset(values);
    var k :| 0 <= k < |out| && out[k] == Max(values);
  }

  lemma MaxPermutation(a: seq<int>, b: seq<int>)
    requires multiset(a) == multiset(b) && a != [] && b != []
    ensures Max(a) == Max(b)
  {
    MaxIsMax(a);
    MaxIsMax(b);
    assert Max(a) in multiset(b) && Max(b) in multiset(a);
  }

  // ---------------------------------------------------------------- insertion sort

  /** Pairs of positions whose values are out of order. */
  function Inversions(s: seq<int>): nat {
    if s == [] then 0
    else Inversions(s[..|s| - 1]) + Count(s[..|s| - 1], Above(s[|s| - 1]))
  }

  /** Positions after the first that do not hold a new strict minimum: an element before them is
      not larger. Each of them costs insertion sort one comparison that moves nothing. */
  function NotNewMinima(s: seq<int>): nat {
    if s == [] then 0
    else NotNewMinima(s[..|s| - 1])
         + if Count(s[..|s| - 1], Above(s[|s| - 1])) < |s| - 1 then 1 else 0
  }

  lemma NotNewMinimaBound(s: seq<int>)
    requires s != []
    ensures NotNewMinima(s) <= |s| - 1
  {
    if |s| > 1 {
      NotNewMinimaBound(s[..|s| - 1]);
    } else {
      assert s[..0] == [];
    }
  }

  lemma SingletonCost(x: int)
    ensures Inversions([x]) == 0 && NotNewMinima([x]) == 0
  {
    assert [x][..0] == [];
  }

  /** The inversions of a list as a set of pairs of positions: what `Inversions` adds up. */
  ghost function InversionPairs(s: seq<int>): set<(int, int)> {
    set i, j | 0 <= i < j < |s| && s[i] > s[j] :: (i, j)
  }

  /** The positions of elements above key, paired with n. */
  ghost function PairsWith(s: seq<int>, key: int, n: int): set<(int, int)> {
    set i | 0 <= i < |s| && s[i] > key :: (i, n)
  }

  lemma {:induction false} InversionsCountPairs(s: seq<int>)
    ensures Inversions(s) == |InversionPairs(s)|
  {
    if s == [] {
      assert InversionPairs(s) == {};
    } else {
      var n := |s| - 1;
      var last := PairsWith(s[..n], s[n], n);
      InversionsCountPairs(s[..n]);
      PairsWithCount(s[..n], s[n], n);
      SplitPairs(s);
      assert InversionPairs(s[..n]) !! last;
    }
  }

  lemma SplitPairs(s: seq<int>)
    requires s != []
    ensures InversionPairs(s) == InversionPairs(s[..|s| - 1]) + PairsWith(s[..|s| - 1], s[|s| - 1], |s| - 1)
  {
    var n := |s| - 1;
    forall q: (int, int)
      ensures q in InversionPairs(s) <==> q in InversionPairs(s[..n]) || q in PairsWith(s[..n], s[n], n)
    {
      var (i, j) := q;
      assert q in InversionPairs(s) <==> 0 <= i < j < |s| && s[i] > s[j];
    }
  }

  lemma {:induction false} PairsWithCount(s: seq<int>, key: int, n: int)
    ensures |PairsWith(s, key, n)| == Count(s, Above(key))
  {
    if s == [] {
      assert PairsWith(s, key, n) == {};
    } else {
      var m := |s| - 1;
      PairsWithCount(s[..m], key, n);
      assert PairsWith(s, key, n) == PairsWith(s[..m], key, n) + if s[m] > key then {(m, n)} else {};
      assert (m, n) !in PairsWith(s[..m], key, n);
    }
  }

  // ---------------------------------------------------------------- merge sort

  /** Comparisons needed to merge sorted a (first) with sorted b: the loop stops as soon as the
      side with the smaller maximum is used up. */
  function MergeComparisons(a: seq<int>, b: seq<int>): nat {
    if a == [] || b == [] then 0
    else if Max(a) <= Max(b) then |a| + Count(b, Below(Max(a)))
    else |b| + Count(a, AtMost(Max(b)))
  }

  lemma MergeComparisonsPermutation(a: seq<int>, a': seq<int>, b: seq<int>, b': seq<int>)
    requires multiset(a) == multiset(a') && multiset(b) == multiset(b')
    ensures MergeComparisons(a, b) == MergeComparisons(a', b')
  {
    SameLength(a, a');
    SameLength(b, b');
    if a != [] && b != [] {
      MaxPermutation(a, a');
      MaxPermutation(b, b');
      CountPermutation(b, b', Below(Max(a)));
      CountPermutation(a, a', AtMost(Max(b)));
    }
  }

  function MergeSortComparisons(s: seq<int>): nat
    decreases |s|
  {
    if |s| <= 1 then 0
    else
      var mid := |s| / 2;
      MergeSortComparisons(s[..mid]) + MergeSortComparisons(s[mid..]) + MergeComparisons(s[..mid], s[mid..])
  }

  /** Every level of the recursion moves every value once. */
  function MergeSortMoves(s: seq<int>): nat
    decreases |s|
  {
    if |s| <= 1 then 0
    else
      var mid := |s| / 2;
      MergeSortMoves(s[..mid]) + MergeSortMoves(s[mid..]) + |s|
  }

  function Pow2(k: nat): (r: nat)
    ensures r > 0
  {
    if k == 0 then 1 else 2 * Pow2(k - 1)
  }

  function CeilLog2(n: nat): nat {
    if n <= 1 then 0 else 1 + CeilLog2(n - n / 2)
  }

  /** CeilLog2(n) is the least k with n <= 2^k. */
  lemma {:induction false} CeilLog2IsLeast(n: nat)
    requires n >= 1
    ensures n <= Pow2(CeilLog2(n))
    ensures CeilLog2(n) > 0 ==> Pow2(CeilLog2(n) - 1) < n
  {
    if n > 1 {
      CeilLog2IsLeast(n - n / 2);
    }
  }

  lemma {:induction false} CeilLog2Unique(n: nat, k: nat)
    requires n >= 1 && n <= Pow2(k) && (k > 0 ==> Pow2(k - 1) < n)
    ensures CeilLog2(n) == k
    decreases k
  {
    if n == 1 {
      assert k == 0;
    } else {
      assert k > 0;
      if k == 1 {
        assert Pow2(1) == 2 && Pow2(0) == 1;
      } else {
        CeilLog2Unique(n - n / 2, k - 1);
      }
    }
  }

  /** The smaller half has the same rounded logarithm as the larger one, or is a power of two
      exactly one below it. */
  lemma CeilLog2OfHalf(n: nat)
    requires n >= 2
    ensures var k := CeilLog2(n - n / 2);
            CeilLog2(n) == k + 1
            && (CeilLog2(n / 2) == k || (k > 0 && CeilLog2(n / 2) == k - 1 && n / 2 == Pow2(k - 1)))
  {
    var a, k := n / 2, CeilLog2(n - n / 2);
    CeilLog2IsLeast(n - a);
    if k > 0 && a <= Pow2(k - 1) {
      assert a == Pow2(k - 1);
      assert k > 1 ==> Pow2(k - 1) == 2 * Pow2(k - 2);
      CeilLog2Unique(a, k - 1);
    } else {
      CeilLog2Unique(a, k);
    }
  }

  /** n*L + n - 2^L with L = ceil(log2 n). */
  function MovesClosedForm(n: nat): int {
    n * CeilLog2(n) + n - Pow2(CeilLog2(n))
  }

  lemma HalvesAddUp(n: nat)
    requires n >= 2
    ensures MovesClosedForm(n / 2) + MovesClosedForm(n - n / 2) + n == MovesClosedForm(n)
  {
    var a, b := n / 2, n - n / 2;
    var k := CeilLog2(b);
    CeilLog2OfHalf(n);
    assert Pow2(k + 1) == 2 * Pow2(k);
    assert k > 0 ==> Pow2(k) == 2 * Pow2(k - 1);
    HalvesArithmetic(a, b, k, CeilLog2(a), Pow2(k), Pow2(CeilLog2(a)));
  }

  lemma HalvesArithmetic(a: int, b: int, k: int, ka: int, p: int, pa: int)
    requires (ka == k && pa == p) || (ka == k - 1 && p == 2 * pa && a == pa)
    ensures (a * ka + a - pa) + (b * k + b - p) + (a + b) == (a + b) * (k + 1) + (a + b) - 2 * p
  {
    assert (a + b) * (k + 1) == a * k + b * k + a + b;
    if ka == k - 1 {
      assert a * ka == a * k - a;
    }
  }

  /** Merge sort of n >= 1 values makes exactly n*L + n - 2^L moves. */
  lemma {:induction false} MergeSortMovesClosed(s: seq<int>)
    requires s != []
    ensures MergeSortMoves(s) == MovesClosedForm(|s|)
    decreases |s|
  {
    if |s| > 1 {
      var mid := |s| / 2;
      MergeSortMovesClosed(s[..mid]);
      MergeSortMovesClosed(s[mid..]);
      HalvesAddUp(|s|);
    } else {
      assert Pow2(0) == 1;
    }
  }

  lemma MergeComparisonsBound(a: seq<int>, b: seq<int>)
    requires a != [] && b != []
    ensures MergeComparisons(a, b) <= |a| + |b| - 1
  {
    if Max(a) <= Max(b) {
      LargestNotCounted(b, Below(Max(a)));
    } else {
      LargestNotCounted(a, AtMost(Max(b)));
    }
  }

  lemma LargestNotCounted(s: seq<int>, p: int -> bool)
    requires s != [] && !p(Max(s))
    ensures Count(s, p) <= |s| - 1
  {
    MaxIsMax(s);
    var k :| 0 <= k < |s| && s[k] == Max(s);
    OneNotCounted(s, k, p);
  }

  lemma {:induction false} OneNotCounted(s: seq<int>, k: nat, p: int -> bool)
    requires k < |s| && !p(s[k])
    ensures Count(s, p) <= |s| - 1
  {
    if k == |s| - 1 {
      CountAtMostLength(s[..k], p);
    } else {
      OneNotCounted(s[..|s| - 1], k, p);
    }
  }

  lemma {:induction false} ComparisonsBelowMoves(s: seq<int>)
    requires s != []
    ensures MergeSortComparisons(s) <= MergeSortMoves(s) - |s| + 1
    decreases |s|
  {
    if |s| > 1 {
      var mid := |s| / 2;
      ComparisonsBelowMoves(s[..mid]);
      ComparisonsBelowMoves(s[mid..]);
      MergeComparisonsBound(s[..mid], s[mid..]);
    }
  }

  /** ... and at most n*L - 2^L + 1 comparisons. */
  lemma MergeSortComparisonsBound(s: seq<int>)
    requires s != []
    ensures MergeSortComparisons(s) <= |s| * CeilLog2(|s|) - Pow2(CeilLog2(|s|)) + 1
  {
    ComparisonsBelowMoves(s);
    MergeSortMovesClosed(s);
  }

  // ---------------------------------------------------------------- runs, uniqueness

  ghost predicate NonDecreasing(s: seq<int>, lo: int, hi: int) {
    0 <= lo <= hi <= |s| && forall i :: lo < i < hi ==> s[i - 1] <= s[i]
  }

  lemma WithoutLast(s: seq<int>)
    requires s != []
    ensures multiset(s[..|s| - 1]) == multiset(s) - multiset{s[|s| - 1]}
  {
    assert s == s[..|s| - 1] + [s[|s| - 1]];
  }

  /** There is only one sorted arrangement, so any two of the sorts agree. */
  lemma SortIsUnique(a: seq<int>, b: seq<int>, values: seq<int>)
    requires IsSortOf(a, values) && IsSortOf(b, values)
    ensures a == b
  {
    SortedUnique(a, b);
  }

  lemma {:induction false} SortedUnique(a: seq<int>, b: seq<int>)
    requires Sorted(a) && Sorted(b) && multiset(a) == multiset(b)
    ensures a == b
    decreases |a|
  {
    SameLength(a, b);
    if a != [] {
      var n := |a| - 1;
      SameLast(a, b);
      SortedUnique(a[..n], b[..n]);
      assert forall i :: 0 <= i < n ==> a[i] == a[..n][i] == b[..n][i] == b[i];
    }
  }

  lemma SameLast(a: seq<int>, b: seq<int>)
    requires Sorted(a) && Sorted(b) && multiset(a) == multiset(b) && a != [] && b != []
    ensures a[|a| - 1] == b[|b| - 1]
    ensures multiset(a[..|a| - 1]) == multiset(b[..|b| - 1])
  {
    MaxOfSort(a, b);
    MaxOfSort(b, b);
    WithoutLast(a);
    WithoutLast(b);
  }
}
