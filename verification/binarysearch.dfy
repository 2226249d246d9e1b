/**
 * TooLowOrHit (binarysearch.go, lines 33-71): a three-way binary search over
 * the half-open range [first, first + size) that finds, in one pass, the
 * lowest index classified Hit or, failing that, the highest classified TooLow.
 */
module BinarySearch {
  import opened Classification
  import opened Contract

  /** Go's n / 2 on int, which truncates toward zero (Dafny's / rounds down,
      and the two differ when n is negative and odd). */
  function GoHalf(n: int): (r: int)
    ensures 0 <= n ==> 2 * r <= n <= 2 * r + 1
    ensures n < 0 ==> 2 * r - 1 <= n <= 2 * r
  {
    if n >= 0 then n / 2 else -((-n) / 2)
  }

  /** The number of halvings, rounding up, that take n down to 1. */
  function CeilLog2(n: int): (k: nat)
    decreases n
  {
    if n <= 1 then 0 else 1 + CeilLog2((n + 1) / 2)
  }

  /** The truncated midpoint of a range at least two wide lies strictly inside it. */
  lemma MidpointInside(a: int, b: int)
    requires a + 2 <= b
    ensures a < GoHalf(a + b) < b
    ensures 2 * (GoHalf(a + b) - a) <= b - a + 1
    ensures 2 * (b - GoHalf(a + b)) <= b - a + 1
  {
  }

  /** Two to the power k. */
  function Pow2(k: nat): (p: nat)
    ensures p >= 1
  {
    if k == 0 then 1 else 2 * Pow2(k - 1)
  }

  /** CeilLog2(n) halvings suffice: n is at most two to that power. */
  lemma {:induction false} CeilLog2Covers(n: int)
    ensures n <= Pow2(CeilLog2(n))
    decreases n
  {
    if n > 1 {
      CeilLog2Covers((n + 1) / 2);
    }
  }

  /** CeilLog2(n) is the fewest halvings that suffice: for n >= 2, one fewer
      would leave a power of two below n. */
  lemma {:induction false} CeilLog2Tight(n: int)
    requires n >= 2
    ensures Pow2(CeilLog2(n) - 1) < n
    decreases n
  {
    if n > 2 {
      CeilLog2Tight((n + 1) / 2);
    }
  }

  /** A range that fits in 2^k and is at least two wide needs k >= 1, and the
      half of it, rounding up, fits in 2^(k-1). */
  lemma HalvedFits(width: int, narrowed: int, k: nat)
    requires 2 <= width <= Pow2(k) && 2 * narrowed <= width + 1
    ensures 1 <= k && narrowed <= Pow2(k - 1)
  {
  }

  /** The exit taken when the probe i is TooLow and b = i + 1: b, when it is
      in range and a Hit, else i. b is asked about only when it is in range. */
  method SettleTooLow(first: int, size: int, missIndex: int, evaluator: Evaluator, i: int, b: int,
                      ghost asked: seq<int>)
    returns (r: int, ghost queries: seq<int>)
    requires first <= i && b == i + 1 && b <= first + size
    requires evaluator(i) == TooLow
    requires b == first + size || evaluator(b) != TooLow
    requires forall k :: 0 <= k < |asked| ==> first <= asked[k] < first + size
    ensures queries == asked + if b < first + size then [b] else []
    ensures forall k :: 0 <= k < |queries| ==> first <= queries[k] < first + size
    ensures r == if b < first + size && evaluator(b) == Hit then b else i
    ensures Monotonic(evaluator, first, size) ==> r == Expected(first, size, missIndex, evaluator)
  {
    var beyond := first + size;
    queries := asked;
    if b < beyond {
      queries := queries + [b];
      if evaluator(b) == Hit {
        HitAfterNonHitIsLowest(first, size, missIndex, evaluator, b);
        return b, queries;
      }
    }
    TooLowBeforeTooHighIsHighest(first, size, missIndex, evaluator, i);
    return i, queries;
  }

  /** The exit taken when the probe i is TooHigh and i = a + 1: missIndex when a
      is first and first is TooHigh, else a. first is asked about only when
      a is first. */
  method SettleTooHigh(first: int, size: int, missIndex: int, evaluator: Evaluator, a: int, i: int,
                       ghost asked: seq<int>)
    returns (r: int, ghost queries: seq<int>)
    requires first <= a && i == a + 1 && i < first + size
    requires evaluator(i) == TooHigh
    requires a == first || evaluator(a) == TooLow
    requires forall k :: 0 <= k < |asked| ==> first <= asked[k] < first + size
    ensures queries == asked + if a <= first then [first] else []
    ensures forall k :: 0 <= k < |queries| ==> first <= queries[k] < first + size
    ensures a == first && evaluator(first) == TooHigh ==> r == missIndex
    ensures !(a == first && evaluator(first) == TooHigh) ==> r == a && evaluator(a) != TooHigh
    ensures Monotonic(evaluator, first, size) ==> r == Expected(first, size, missIndex, evaluator)
  {
    queries := asked;
    if a <= first {
      queries := queries + [first];
      if evaluator(first) == TooHigh {
        FirstTooHighMeansMiss(first, size, missIndex, evaluator);
        return missIndex, queries;
      }
    }
    if evaluator(a) == TooLow {
      TooLowBeforeTooHighIsHighest(first, size, missIndex, evaluator, a);
    } else {
      ExpectedIsLowestHit(first, size, missIndex, evaluator, a);
    }
    return a, queries;
  }

  /** The exit taken when the probe i is a Hit and i = a + 1: a when it is a Hit
      too, else i. The guard a >= i never holds here, so a is always asked about. */
  method SettleHit(first: int, size: int, missIndex: int, evaluator: Evaluator, a: int, i: int,
                   ghost asked: seq<int>)
    returns (r: int, ghost queries: seq<int>)
    requires first <= a && i == a + 1 && i < first + size
    requires evaluator(i) == Hit
    requires a == first || evaluator(a) == TooLow
    requires forall k :: 0 <= k < |asked| ==> first <= asked[k] < first + size
    ensures queries == asked + [a]
    ensures forall k :: 0 <= k < |queries| ==> first <= queries[k] < first + size
    ensures evaluator(r) == Hit
    ensures r == a <==> evaluator(a) == Hit
    ensures r == i <==> evaluator(a) != Hit
    ensures Monotonic(evaluator, first, size) ==> r == Expected(first, size, missIndex, evaluator)
  {
    queries := asked + [a];
    if a >= i || evaluator(a) == Hit {
      ExpectedIsLowestHit(first, size, missIndex, evaluator, a);
      return a, queries;
    }
    HitAfterNonHitIsLowest(first, size, missIndex, evaluator, i);
    return i, queries;
  }

  /** Returns the lowest index of [first, first + size) that evaluator calls a
      Hit; without one, the highest it calls TooLow; without one, missIndex.
      That result is promised when the classification is monotonic; for any
      classifier answering one of the three labels the search stays in range, asks O(log size) questions and
      returns missIndex or an index that is not TooHigh. The ghost queries
      lists, in order, every index passed to evaluator. */
  method TooLowOrHit(first: int, size: int, missIndex: int, evaluator: Evaluator)
    returns (r: int, ghost queries: seq<int>)
    ensures forall k :: 0 <= k < |queries| ==> first <= queries[k] < first + size
    ensures |queries| <= CeilLog2(size) + 1
    ensures size <= 0 ==> r == missIndex && queries == []
    ensures size == 1 ==>
              && queries == [first]
              && r == if evaluator(first) == TooHigh then missIndex else first
    ensures r == missIndex || (first <= r < first + size && evaluator(r) != TooHigh)
    ensures Monotonic(evaluator, first, size) ==> r == Expected(first, size, missIndex, evaluator)
  {
    queries := [];
    if size <= 1 {
      if size <= 0 {
        return missIndex, queries;
      }
      queries := [first];
      if evaluator(first) == TooHigh {
        FirstTooHighMeansMiss(first, size, missIndex, evaluator);
        return missIndex, queries;
      }
      if evaluator(first) == Hit {
        ExpectedIsLowestHit(first, size, missIndex, evaluator, first);
      } else {
        TooLowBeforeTooHighIsHighest(first, size, missIndex, evaluator, first);
      }
      return first, queries;
    }
    var beyond := first + size;
    var a, b := first, beyond;
    ghost var left := CeilLog2(size);
    CeilLog2Covers(size);
    while true
      invariant first <= a && a + 2 <= b <= beyond
      invariant a == first || evaluator(a) == TooLow
      invariant b == beyond || evaluator(b) != TooLow
      invariant forall k :: 0 <= k < |queries| ==> first <= queries[k] < beyond
      invariant b - a <= Pow2(left)
      invariant |queries| + left <= CeilLog2(size)
      decreases b - a
    {
      ghost var width, budget := b - a, left;
      var i := GoHalf(a + b);
      MidpointInside(a, b);
      queries := queries + [i];
      match evaluator(i)
      case TooLow =>
        if b - i <= 1 {
          r, queries := SettleTooLow(first, size, missIndex, evaluator, i, b, queries);
          return;
        }
        a := i;
        HalvedFits(width, b - a, budget);
        left := budget - 1;
      case TooHigh =>
        if i - a <= 1 {
          r, queries := SettleTooHigh(first, size, missIndex, evaluator, a, i, queries);
          return;
        }
        b := i;
        HalvedFits(width, b - a, budget);
        left := budget - 1;
      case Hit =>
        if i - a <= 1 {
          r, queries := SettleHit(first, size, missIndex, evaluator, a, i, queries);
          return;
        }
        b := i;
        HalvedFits(width, b - a, budget);
        left := budget - 1;
    }
  }

  /** The tests' range evaluator run through the search: the first Hit
      (first + low) when one is in range, else the last TooLow, else missIndex. */
  method SearchRangeEvaluator(first: int, size: int, missIndex: int, low: int, high: int)
    returns (r: int)
    requires 0 <= low
    ensures r == if low <= high && low < size then first + low
                 else if 0 < low && 0 < size then first + (if low < size then low else size) - 1
                 else missIndex
  {
    ghost var queries;
    r, queries := TooLowOrHit(first, size, missIndex, RangeEvaluator(first, low, high));
    RangeEvaluatorMonotonic(first, low, high, size);
    RangeEvaluatorExpected(first, size, missIndex, low, high);
  }

  /** The tests' uniform evaluators run through the search: all TooHigh gives
      missIndex, all TooLow the last index, all Hit the first index. */
  method SearchUniform(first: int, size: int, missIndex: int, e: Evaluation) returns (r: int)
    requires size >= 1
    ensures r == match e
                 case TooHigh => missIndex
                 case TooLow => first + size - 1
                 case Hit => first
  {
    ghost var queries;
    r, queries := TooLowOrHit(first, size, missIndex, _ => e);
    UniformExpected(first, size, missIndex, e);
  }

  /** The naive test run through the search: over a sorted sequence, the lowest
      index holding the target; without one, the highest index holding a smaller
      value; without one, -1. */
  method SearchSorted(ints: seq<int>, target: int) returns (r: int)
    requires Sorted(ints)
    ensures (exists k :: 0 <= k < |ints| && ints[k] == target) ==>
              && 0 <= r < |ints| && ints[r] == target
              && forall k :: 0 <= k < r ==> ints[k] != target
    ensures (forall k :: 0 <= k < |ints| ==> ints[k] != target) &&
            (exists k :: 0 <= k < |ints| && ints[k] < target) ==>
              && 0 <= r < |ints| && ints[r] < target
              && forall k :: r < k < |ints| ==> ints[k] >= target
    ensures (forall k :: 0 <= k < |ints| ==> ints[k] > target) ==> r == -1
  {
    ghost var queries;
    var ev := CompareAt(ints, target);
    r, queries := TooLowOrHit(0, |ints|, -1, ev);
    SortedIsMonotonic(ints, target);
  }
}
