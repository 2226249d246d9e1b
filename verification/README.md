# binarysearch in Dafny

A Dafny model of the Go package `binarysearch`, whose single routine,
`TooLowOrHit`, runs a three-way binary search. It searches the half-open index range
`[first, first + size)`. A caller-supplied `Evaluator` labels each index
`TooLow`, `TooHigh` or `Hit`. The routine returns the lowest `Hit` index. If
there is none, it returns the highest `TooLow` index. If there is none of
those either, it returns the caller's `missIndex`.

The project has three modules:

- `Classification` (classification.dfy) holds the `Evaluation` values and
  the `Evaluator` type, here a total function `int -> Evaluation`. It also
  defines the monotonic-partition condition (`Monotonic`: the labels never
  go back in the order `TooLow < Hit < TooHigh` as the index grows). It
  proves that condition equal to the prefix/block/suffix shape, and that the
  tests' evaluators satisfy it.
- `Contract` (contract.dfy) is an independent reference for the documented
  result. `Expected` scans the range linearly for the lowest `Hit` and then
  for the highest `TooLow`. Its contract states the three documented cases
  outright. Next to it are the lemmas that fix the expected result at each
  place where the search stops, and the outcomes of the test scenarios.
- `BinarySearch` (binarysearch.dfy) holds `TooLowOrHit` as a method with
  the source's unbounded loop. It narrows `a` and `b` around the midpoint
  `i` and stops at one of three exits. Each exit re-asks the evaluator about
  at most one boundary index. The exits are the methods `SettleTooLow`,
  `SettleTooHigh` and `SettleHit`, one per `case` of the source's `switch`.
  A ghost result `queries` records every index passed to the evaluator, in
  order. The methods `SearchRangeEvaluator`, `SearchUniform` and
  `SearchSorted` run the tests' evaluators through the search and state the
  results the tests expect.

What is proved about `TooLowOrHit`, for every classifier that answers only
`TooLow`, `TooHigh` or `Hit`:

- Every query lies in `[first, first + size)`.
- At most `CeilLog2(size) + 1` queries are made.
- The result is `missIndex` or an in-range index that is not `TooHigh`.
- The loop terminates (`decreases b - a`).
- If `size <= 0`, nothing is queried and the result is `missIndex`.
- If `size == 1`, only `first` is queried.
- For a monotonic classifier, the result equals `Expected`.

Go's `(a + b) / 2` truncates toward zero. It is modelled by `GoHalf`, because
Dafny's `/` rounds down and the two differ for negative odd sums. The tests
use negative `first`.

The code and its documentation differ in two places. The model follows the code:

- The doc comment of `TooLowOrHit` (binarysearch.go:28) gives the range as
  `[first, first+size-1)`. The code searches `[first, first+size)`
  (`beyond := first + size`, line 40), and so does the model.
- The doc comment promises the lowest `Hit` for every evaluator. The code
  guarantees it only when the labels form a monotonic partition. For some
  other classifiers it misses it: over `[0, 3)` labelled `Hit, TooLow, TooLow`
  it returns 2, not 0. So the model states the documented result under
  `Monotonic`. For other classifiers it states only the range, query and
  termination guarantees.

The test file calls the routine `HigherOrHit`, a name that `binarysearch.go`
does not define. Its expected values are those of `TooLowOrHit`'s
documented result, so the scenarios are read as tests of `TooLowOrHit`.

## Model

| member | source | states |
|---|---|---|
| `Classification.Rank` | binarysearch.go:17-22 | the three labels are ordered TooLow < Hit < TooHigh, the order in which a monotonic classifier meets them; rank 0 is exactly TooLow and rank 2 exactly TooHigh |
| `Classification.MonotonicIsPartition` | binarysearch.go:19-21 | a classifier never goes back in that order on the range exactly when the range splits into a TooLow prefix, a Hit block and a TooHigh suffix (both directions) |
| `Classification.RangeEvaluator` | binarysearch_test.go:9-24 | the tests' evaluator, relative to first: TooLow exactly below first + low, Hit exactly on [first + low, first + high], TooHigh exactly on the rest |
| `Classification.RangeEvaluatorMonotonic` | binarysearch_test.go:9-24 | the tests' evaluator (TooLow below low, Hit up to high inclusive, TooHigh after) is monotonic on every range |
| `Classification.CompareAt` | binarysearch_test.go:63-71 | the naive test's evaluator: at an index of the sequence, TooLow, Hit or TooHigh exactly when the element is below, equal to or above the target; at any other index TooHigh, where the Go closure would panic (never reached: the search's queries stay in range) |
| `Classification.SortedIsMonotonic` | binarysearch_test.go:63-71 | comparing the elements of a sorted sequence with a target gives a monotonic classifier |
| `Contract.LowestHit` | binarysearch.go:29 | returns an index in the range that is a Hit with no Hit below it, or None exactly when the range has no Hit |
| `Contract.HighestTooLow` | binarysearch.go:30 | returns an index in the range that is TooLow with no TooLow above it, or None exactly when the range has no TooLow |
| `Contract.Expected` | binarysearch.go:28-32 | if the range has a Hit, the result is the lowest Hit; else if it has a TooLow, the highest TooLow; if every index is TooHigh (or the range is empty), missIndex |
| `Contract.ExpectedIsLowestHit` | binarysearch.go:29 | any in-range Hit with no Hit below it is the expected result |
| `Contract.ExpectedIsHighestTooLow` | binarysearch.go:30 | with no Hit in range, any in-range TooLow with no TooLow above it is the expected result |
| `Contract.HitAfterNonHitIsLowest` | binarysearch.go:62-66 | for a monotonic classifier, a Hit directly above a non-Hit is the expected result (the search's returns of b at line 48 and of i at line 66) |
| `Contract.TooLowBeforeTooHighIsHighest` | binarysearch.go:45-58 | for a monotonic classifier, a TooLow at the top of the range or directly below a TooHigh is the expected result (the returns of i at line 50 and of a at line 58) |
| `Contract.FirstTooHighMeansMiss` | binarysearch.go:55-56 | for a monotonic classifier, first being TooHigh makes every index TooHigh, so missIndex is expected |
| `Contract.UniformExpected` | binarysearch_test.go:84-91 | a classifier that is uniformly TooHigh gives missIndex; uniformly TooLow gives first + size - 1; uniformly Hit gives first |
| `Contract.RangeEvaluatorExpected` | binarysearch_test.go:93-115 | for the tests' evaluator: the first Hit (first + low) when one is in range; else the last TooLow; else missIndex |
| `Contract.NaiveScenarios` | binarysearch_test.go:51-61 | for each sorted sequence of the naive test table compared with the target 5, the expected result is the value the table lists (lowest index holding 5, or -1 when every element exceeds 5) |
| `BinarySearch.GoHalf` | binarysearch.go:43 | the midpoint is (a + b) / 2 rounded toward zero, as Go's integer division does, for negative sums too |
| `BinarySearch.MidpointInside` | binarysearch.go:43 | for b - a >= 2 the truncated midpoint lies strictly between a and b, and each half it leaves is at most half the width, rounded up |
| `BinarySearch.CeilLog2Covers` | binarysearch.go:41-70 | size is at most 2^CeilLog2(size), which bounds the number of loop rounds |
| `BinarySearch.CeilLog2Tight` | binarysearch.go:41-70 | for size >= 2, 2^(CeilLog2(size) - 1) < size: the query bound is the ceiling of log2(size) plus one, no looser |
| `BinarySearch.HalvedFits` | binarysearch.go:52-68 | a width of at least 2 that fits in 2^k leaves, after halving, a width that fits in 2^(k-1) |
| `BinarySearch.SettleTooLow` | binarysearch.go:45-52 | after a TooLow probe with b = i + 1: b is queried only when in range; the result is b exactly when b is in range and a Hit, else i; for a monotonic classifier it is the expected result |
| `BinarySearch.SettleTooHigh` | binarysearch.go:53-60 | after a TooHigh probe with i = a + 1: first is queried only when a is first; missIndex when a is first and first is TooHigh, else a, which is not TooHigh; for a monotonic classifier, the expected result |
| `BinarySearch.SettleHit` | binarysearch.go:61-68 | after a Hit probe with i = a + 1: a is queried; the result is a Hit, a exactly when a is a Hit and i otherwise; for a monotonic classifier, the expected result |
| `BinarySearch.TooLowOrHit` | binarysearch.go:33-71 | every query is in range; at most CeilLog2(size) + 1 queries; size <= 0 gives missIndex with no query; size 1 queries only first and gives missIndex if it is TooHigh, else first; the result is missIndex or an in-range non-TooHigh index; for a monotonic classifier it equals Expected. Loop invariants: first <= a, a + 2 <= b <= first + size, each a the loop sets is TooLow, each b is TooHigh or Hit, b - a decreases |
| `BinarySearch.SearchRangeEvaluator` | binarysearch_test.go:93-115 | the search itself, run with the tests' range evaluator, returns first + low when a Hit is in range, else the last TooLow, else missIndex |
| `BinarySearch.SearchUniform` | binarysearch_test.go:84-91 | the search itself, run with a uniform evaluator on a non-empty range, returns missIndex for TooHigh, first + size - 1 for TooLow, first for Hit |
| `BinarySearch.SearchSorted` | binarysearch_test.go:45-74 | the search itself over a sorted sequence with miss index -1: the lowest index holding the target; else the highest index holding a smaller value; else -1 |

## Left out

- `TooLowOrHit`: the documented result (lowest Hit, else highest TooLow, else missIndex) is promised only for monotonic classifiers. The code guarantees it only for those; for some others it misses it (see above). For other classifiers the contract states only the range, query-count and termination guarantees.
- `Evaluation` values other than the three labels: in Go, `Evaluation` is a plain `int` type (binarysearch.go:15), so an evaluator can return another integer. The `switch` (lines 44-69) has no `default`, so then neither `a` nor `b` changes and the loop runs forever. The model's `Evaluation` has only `TooLow`, `TooHigh` and `Hit`, so it assumes the evaluator returns one of them. Its termination, query-count and result guarantees hold only under that assumption.
- Go's fixed-width `int`: `first + size` (line 40) and `a + b` (line 43) can overflow in Go. The model uses unbounded integers and assumes neither sum overflows.
- The evaluator is a pure total function. A Go closure can have side effects, panic, or depend on state (the tests' closures report to `*testing.T`). None of that is modelled.
- The package doc example (binarysearch.go:2-11) searches `float64` values and prints. Floating point and I/O are not part of this model. The sorted-sequence evaluator `CompareAt` is its integer counterpart.
- The test harness itself (testify assertions, the never-call evaluator): its scenarios appear as the lemmas and `Search…` methods above and as the `size <= 0` clause of `TooLowOrHit`.
- The three exits of the `switch` are separate methods (`SettleTooLow`, `SettleTooHigh`, `SettleHit`) called from the loop, rather than inline code. Their behaviour and their evaluator calls are those of the inline code.
