/**
 * The documented result of TooLowOrHit (binarysearch.go, lines 28-32), given
 * by a plain scan of the range: the lowest Hit, else the highest TooLow, else
 * missIndex. The binary search is proved to agree with it on monotonic
 * classifiers; the lemmas here are the facts that proof uses at each of the
 * search's exits, and the outcomes of the tests' scenarios.
 */
module Contract {
  import opened Classification

  datatype Option<T> = None | Some(value: T)

  /** Scanning upward from lo: the first index below hi classified Hit. */
  function LowestHit(ev: Evaluator, lo: int, hi: int): (r: Option<int>)
    decreases hi - lo
    ensures r.Some? ==> lo <= r.value < hi && ev(r.value) == Hit
    ensures r.Some? ==> forall x :: lo <= x < r.value ==> ev(x) != Hit
    ensures r.None? ==> forall x :: lo <= x < hi ==> ev(x) != Hit
  {
    if lo >= hi then None
    else if ev(lo) == Hit then Some(lo)
    else LowestHit(ev, lo + 1, hi)
  }

  /** Scanning downward from hi - 1: the last index at or above lo classified TooLow. */
  function HighestTooLow(ev: Evaluator, lo: int, hi: int): (r: Option<int>)
    decreases hi - lo
    ensures r.Some? ==> lo <= r.value < hi && ev(r.value) == TooLow
    ensures r.Some? ==> forall x :: r.value < x < hi ==> ev(x) != TooLow
    ensures r.None? ==> forall x :: lo <= x < hi ==> ev(x) != TooLow
  {
    if lo >= hi then None
    else if ev(hi - 1) == TooLow then Some(hi - 1)
    else HighestTooLow(ev, lo, hi - 1)
  }

  /** The result the search promises over [first, first + size). */
  function Expected(first: int, size: int, missIndex: int, ev: Evaluator): (r: int)
    ensures (exists x :: first <= x < first + size && ev(x) == Hit) ==>
              && first <= r < first + size && ev(r) == Hit
              && forall x :: first <= x < r ==> ev(x) != Hit
    ensures (forall x :: first <= x < first + size ==> ev(x) != Hit) &&
            (exists x :: first <= x < first + size && ev(x) == TooLow) ==>
              && first <= r < first + size && ev(r) == TooLow
              && forall x :: r < x < first + size ==> ev(x) != TooLow
    ensures (forall x :: first <= x < first + size ==> ev(x) == TooHigh) ==> r == missIndex
  {
    match LowestHit(ev, first, first + size)
    case Some(h) => h
    case None =>
      match HighestTooLow(ev, first, first + size)
      case Some(l) => l
      case None => missIndex
  }

  /** An in-range Hit with no Hit below it is the expected result. */
  lemma ExpectedIsLowestHit(first: int, size: int, missIndex: int, ev: Evaluator, h: int)
    requires first <= h < first + size && ev(h) == Hit
    requires forall x :: first <= x < h ==> ev(x) != Hit
    ensures Expected(first, size, missIndex, ev) == h
  {
  }

  /** With no Hit in range, an in-range TooLow with no TooLow above it is the expected result. */
  lemma ExpectedIsHighestTooLow(first: int, size: int, missIndex: int, ev: Evaluator, l: int)
    requires first <= l < first + size && ev(l) == TooLow
    requires forall x :: first <= x < first + size ==> ev(x) != Hit
    requires forall x :: l < x < first + size ==> ev(x) != TooLow
    ensures Expected(first, size, missIndex, ev) == l
  {
  }

  /** A Hit right above a non-Hit is the lowest Hit of a monotonic range. */
  lemma HitAfterNonHitIsLowest(first: int, size: int, missIndex: int, ev: Evaluator, h: int)
    requires first < h < first + size
    requires ev(h) == Hit && ev(h - 1) != Hit
    ensures Monotonic(ev, first, size) ==> Expected(first, size, missIndex, ev) == h
  {
    if Monotonic(ev, first, size) {
      forall x | first <= x < h
        ensures ev(x) == TooLow
      {
        assert Rank(ev(x)) <= Rank(ev(h - 1)) <= Rank(ev(h));
      }
      ExpectedIsLowestHit(first, size, missIndex, ev, h);
    }
  }

  /** A TooLow that is the last index of the range, or sits right below a
      TooHigh, is the highest TooLow of a monotonic range, which has no Hit. */
  lemma TooLowBeforeTooHighIsHighest(first: int, size: int, missIndex: int, ev: Evaluator, l: int)
    requires first <= l < first + size && ev(l) == TooLow
    requires l + 1 == first + size || ev(l + 1) == TooHigh
    ensures Monotonic(ev, first, size) ==> Expected(first, size, missIndex, ev) == l
  {
    if Monotonic(ev, first, size) {
      forall x | first <= x < first + size
        ensures x <= l ==> ev(x) == TooLow
        ensures l < x ==> ev(x) == TooHigh
      {
        if x <= l {
          assert Rank(ev(x)) <= Rank(ev(l));
        } else {
          assert Rank(ev(l + 1)) <= Rank(ev(x));
        }
      }
      ExpectedIsHighestTooLow(first, size, missIndex, ev, l);
    }
  }

  /** If the first index of a monotonic range is TooHigh, every index is, and
      the expected result is missIndex. */
  lemma FirstTooHighMeansMiss(first: int, size: int, missIndex: int, ev: Evaluator)
    requires ev(first) == TooHigh
    ensures Monotonic(ev, first, size) ==> Expected(first, size, missIndex, ev) == missIndex
  {
    if Monotonic(ev, first, size) {
      forall x | first <= x < first + size
        ensures ev(x) == TooHigh
      {
        assert Rank(ev(first)) <= Rank(ev(x));
      }
    }
  }

  /** The tests' uniform evaluators: all TooHigh gives missIndex, all TooLow
      the last index, all Hit the first index. */
  lemma UniformExpected(first: int, size: int, missIndex: int, e: Evaluation)
    requires size >= 1
    ensures Expected(first, size, missIndex, _ => e) ==
              match e
              case TooHigh => missIndex
              case TooLow => first + size - 1
              case Hit => first
  {
    var ev: Evaluator := _ => e;
    match e
    case TooHigh =>
    case TooLow =>
      ExpectedIsHighestTooLow(first, size, missIndex, ev, first + size - 1);
    case Hit =>
      ExpectedIsLowestHit(first, size, missIndex, ev, first);
  }

  /** The tests' range evaluator: low TooLow indices (relative to first), then Hit
      up to high inclusive, then TooHigh. The result is the first Hit when one
      falls in range, else the last TooLow when there is one, else missIndex. */
  lemma RangeEvaluatorExpected(first: int, size: int, missIndex: int, low: int, high: int)
    requires 0 <= low
    ensures Expected(first, size, missIndex, RangeEvaluator(first, low, high)) ==
              if low <= high && low < size then first + low
              else if 0 < low && 0 < size then first + (if low < size then low else size) - 1
              else missIndex
  {
    var ev := RangeEvaluator(first, low, high);
    if low <= high && low < size {
      ExpectedIsLowestHit(first, size, missIndex, ev, first + low);
    } else if 0 < low && 0 < size {
      var l := first + (if low < size then low else size) - 1;
      ExpectedIsHighestTooLow(first, size, missIndex, ev, l);
    }
  }

  /** The table of the naive test: each sequence is compared with the target 5,
      the search runs over all of it, and -1 is the miss index. */
  lemma NaiveScenarios()
    ensures Expected(0, 0, -1, CompareAt([], 5)) == -1
    ensures Expected(0, 1, -1, CompareAt([5], 5)) == 0
    ensures Expected(0, 2, -1, CompareAt([5, 9], 5)) == 0
    ensures Expected(0, 1, -1, CompareAt([9], 5)) == -1
    ensures Expected(0, 2, -1, CompareAt([9, 10], 5)) == -1
    ensures Expected(0, 3, -1, CompareAt([4, 5, 10], 5)) == 1
    ensures Expected(0, 5, -1, CompareAt([2, 3, 5, 6, 7], 5)) == 2
    ensures Expected(0, 7, -1, CompareAt([2, 3, 4, 5, 5, 6, 7], 5)) == 3
    ensures Expected(0, 7, -1, CompareAt([2, 3, 5, 5, 5, 6, 7], 5)) == 2
    ensures Expected(0, 8, -1, CompareAt([2, 3, 4, 5, 5, 5, 6, 7], 5)) == 3
  {
    ExpectedIsLowestHit(0, 1, -1, CompareAt([5], 5), 0);
    ExpectedIsLowestHit(0, 2, -1, CompareAt([5, 9], 5), 0);
    ExpectedIsLowestHit(0, 3, -1, CompareAt([4, 5, 10], 5), 1);
    ExpectedIsLowestHit(0, 5, -1, CompareAt([2, 3, 5, 6, 7], 5), 2);
    ExpectedIsLowestHit(0, 7, -1, CompareAt([2, 3, 4, 5, 5, 6, 7], 5), 3);
    ExpectedIsLowestHit(0, 7, -1, CompareAt([2, 3, 5, 5, 5, 6, 7], 5), 2);
    ExpectedIsLowestHit(0, 8, -1, CompareAt([2, 3, 4, 5, 5, 5, 6, 7], 5), 3);
  }
}
