/**
 * The three-way classification a caller's evaluator gives to each index
 * (binarysearch.go, lines 14-26), and the monotonic-partition shape under
 * which the result of the search is specified.
 */
module Classification {

  /** TooLow: a hit, if there is one, lies at a higher index.
      TooHigh: a hit, if there is one, lies at a lower index.
      Hit: this index is an exact match.
      In Go these are the integer constants 0, 1 and 2 of a plain int type,
      which also admits other values; an evaluator returning one of those
      makes the search loop forever. The model allows only these three. */
  datatype Evaluation = TooLow | TooHigh | Hit

  /** The caller-supplied classifier: a total function without side effects. */
  type Evaluator = int -> Evaluation

  /** Position of a classification in the partition order TooLow < Hit < TooHigh. */
  function Rank(e: Evaluation): (r: nat)
    ensures r <= 2
    ensures r == 0 <==> e == TooLow
    ensures r == 2 <==> e == TooHigh
  {
    match e
    case TooLow => 0
    case Hit => 1
    case TooHigh => 2
  }

  /** The classification never goes back in the order TooLow < Hit < TooHigh
      as the index grows through [first, first + size). */
  ghost predicate Monotonic(ev: Evaluator, first: int, size: int) {
    forall x, y :: first <= x <= y < first + size ==> Rank(ev(x)) <= Rank(ev(y))
  }

  /** Over [first, first + size), ev is TooLow below lo, Hit on [lo, hi) and
      TooHigh from hi on: a prefix, a block and a suffix, each possibly empty. */
  ghost predicate IsPartition(ev: Evaluator, first: int, size: int, lo: int, hi: int) {
    && first <= lo <= hi <= first + size
    && forall x :: first <= x < first + size ==>
         ev(x) == (if x < lo then TooLow else if x < hi then Hit else TooHigh)
  }

  /** The lowest index of [lo, hi) whose rank is at least k, or hi if there is none. */
  function FirstRankAtLeast(ev: Evaluator, lo: int, hi: int, k: nat): (r: int)
    requires lo <= hi
    decreases hi - lo
    ensures lo <= r <= hi
    ensures forall x :: lo <= x < r ==> Rank(ev(x)) < k
    ensures r < hi ==> Rank(ev(r)) >= k
  {
    if lo == hi then hi
    else if Rank(ev(lo)) >= k then lo
    else FirstRankAtLeast(ev, lo + 1, hi, k)
  }

  /** Monotonicity in the pairwise sense is exactly the prefix/block/suffix shape. */
  lemma MonotonicIsPartition(ev: Evaluator, first: int, size: int)
    requires size >= 0
    ensures Monotonic(ev, first, size) <==> exists lo, hi :: IsPartition(ev, first, size, lo, hi)
  {
    var beyond := first + size;
    if Monotonic(ev, first, size) {
      var lo := FirstRankAtLeast(ev, first, beyond, 1);
      var hi := FirstRankAtLeast(ev, first, beyond, 2);
      forall x | first <= x < beyond
        ensures ev(x) == (if x < lo then TooLow else if x < hi then Hit else TooHigh)
      {
        if lo <= x {
          assert Rank(ev(lo)) <= Rank(ev(x));
        }
        if hi <= x {
          assert Rank(ev(hi)) <= Rank(ev(x));
        }
      }
      assert IsPartition(ev, first, size, lo, hi);
    }
    if exists lo, hi :: IsPartition(ev, first, size, lo, hi) {
      var lo, hi :| IsPartition(ev, first, size, lo, hi);
      forall x, y | first <= x <= y < beyond
        ensures Rank(ev(x)) <= Rank(ev(y))
      {
      }
    }
  }

  /** The evaluator built by the tests: relative to first, indices below low are
      TooLow, indices from low to high inclusive are Hit, the rest TooHigh. */
  function RangeEvaluator(first: int, low: int, high: int): (ev: Evaluator)
    ensures forall x :: ev(x) == TooLow <==> x < first + low
    ensures forall x :: ev(x) == Hit <==> first + low <= x <= first + high
    ensures forall x :: ev(x) == TooHigh <==> x >= first + low && x > first + high
  {
    x => if x - first < low then TooLow else if x - first <= high then Hit else TooHigh
  }

  /** Whatever low and high are, the tests' evaluator is monotonic on any range. */
  lemma RangeEvaluatorMonotonic(first: int, low: int, high: int, size: int)
    ensures Monotonic(RangeEvaluator(first, low, high), first, size)
  {
  }

  /** The evaluator of the naive test: compare the element at the index with the
      target. Outside the sequence it answers TooHigh, which keeps it total. */
  function CompareAt(ints: seq<int>, target: int): (ev: Evaluator)
    ensures forall i :: 0 <= i < |ints| ==> (ev(i) == TooLow <==> ints[i] < target)
    ensures forall i :: 0 <= i < |ints| ==> (ev(i) == Hit <==> ints[i] == target)
    ensures forall i :: 0 <= i < |ints| ==> (ev(i) == TooHigh <==> ints[i] > target)
    ensures forall i :: !(0 <= i < |ints|) ==> ev(i) == TooHigh
  {
    i => if 0 <= i < |ints| then
           (if ints[i] > target then TooHigh else if ints[i] < target then TooLow else Hit)
         else TooHigh
  }

  ghost predicate Sorted(ints: seq<int>) {
    forall i, j :: 0 <= i <= j < |ints| ==> ints[i] <= ints[j]
  }

  /** Comparing a sorted sequence against a target yields a monotonic partition. */
  lemma SortedIsMonotonic(ints: seq<int>, target: int)
    requires Sorted(ints)
    ensures Monotonic(CompareAt(ints, target), 0, |ints|)
  {
  }
}
