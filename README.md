# StockAnalyzer core in Dafny

StockAnalyzer loads daily stock prices and runs three divide-and-conquer
algorithms over them. This project models those three algorithms from
`main.py` and proves what they compute:

- **Stable merge sort** (`MergeSort._merge_sort`, `_merge`), module
  `StableSort` in `stable_sort.dfy`. Records are a generic type `T`, and
  the key column is a selector `key: T -> int`. `MergeSorted` and `Merged`
  are the recursive specification. The methods `MergeSort` and `Merge`
  follow the source's recursion and its `while` loop. Lemmas prove that the
  result is sorted, is a permutation and is stable. Stability is stated as
  "for every key, the records with that key keep their order". A stable
  sort has only one possible result. That is why the in-place
  `prices.sort(key=...)` of the anomaly scan is modelled with this merge
  sort.
- **Maximum-subarray search** (`MaxSubarray.find_max_gain`,
  `_max_subarray_sum`, `_max_crossing_sum`), module `MaxSubarray` in
  `max_subarray.dfy`. Python floats are exact reals, and `float('-inf')` is
  a constructor of `Ext`. The as-written search is modelled exactly,
  including its defect (see Findings), with the leftmost-largest-change
  result it actually computes. A corrected search (`*Fixed`) is proved to
  return a best run.
- **Anomaly scan** (`SpikeDipClosestPair`), module `SpikeDip` in
  `spike_dip.dfy`:
  - The brute-force all-pairs loop is a method with nested `for` loops. It
    is proved equal to the record list `BruteForceChanges`.
  - That list is tied to an index-level description, `SignificantPairs`.
    This gives completeness, soundness, and the lexicographic (i, j) order
    of the reports.
  - The recursive split with its 10-day strip is the function `Scan` and
    the method `FindAllChangesRec`.
  - Proved properties: the scan is sound, it reports nothing for fewer than
    two points, a wider strip never loses a record, and the scan can report
    the same pair twice. It is not complete: it can miss a qualifying pair
    that straddles a split (see Findings).

Dates are whole day numbers (`Point.day`) and prices are reals.

## Model

| member | source | states |
|---|---|---|
| StableSort.Merged | main.py:57-69 | the merge of two lists has exactly as many records as the two lists together |
| StableSort.Merge | main.py:57-69 | the two-index merge loop, which appends the rest of either list at the end, produces `Merged(left, right)` |
| StableSort.MergedPermutation | main.py:57-69 | merging neither drops nor duplicates a record (multiset of the result = sum of the inputs' multisets) |
| StableSort.MergedSorted | main.py:57-69 | merging two key-sorted lists gives a key-sorted list |
| StableSort.MergedWithKey | main.py:61 | because ties take the left record, the records with any key `k` come out as those of the left list followed by those of the right list |
| StableSort.MergeSortedPermutation | main.py:49-55 | the recursive sort returns a permutation of its input of the same length |
| StableSort.MergeSortedSorted | main.py:49-55 | the recursive sort's output is non-decreasing in the key |
| StableSort.MergeSortedStable | main.py:49-69 | the recursive sort is stable: for every key, the records carrying it keep their input order |
| StableSort.MergeSort | main.py:49-55 | `_merge_sort` returns the sorted, stable permutation `MergeSorted(arr)`, and returns inputs of length at most one unchanged |
| StableSort.StableSortUnique | main.py:109 | two key-sorted sequences that agree, key by key, on the order of records are equal, so any stable sort by date (such as list.sort) gives `MergeSorted` |
| StableSort.MergeSortedIdempotent | main.py:49-55 | sorting an already sorted sequence returns it unchanged |
| StableSort.SortExample | main.py:49-69 | records with keys 2, 1, 2 tagged A, B, C sort to B, A, C |
| MaxSubarray.Add | main.py:96 | `total += arr[i]` stays minus infinity once it is minus infinity; finite sums add exactly |
| MaxSubarray.Max | main.py:97 | Python's `max` returns one of its arguments and is at least both |
| MaxSubarray.Deltas | main.py:75 | the change list has `len(prices) - 1` entries (none for an empty list) and entry `i` is `prices[i+1] - prices[i]` |
| MaxSubarray.DeltasTelescope | main.py:75 | the changes over days `s..e-1` add up to `prices[e] - prices[s]` |
| MaxSubarray.MaxCrossingSum | main.py:94-103 | as written, both running totals start at minus infinity, so the crossing candidate is always minus infinity |
| MaxSubarray.MaxSubarraySum | main.py:79-91 | as written, for `low <= high` the result is `(arr[k], k, k)` with `k` the leftmost position of a largest element of `arr[low..high]` |
| MaxSubarray.FindMaxGain | main.py:74-76 | with fewer than two prices the recursion never ends; otherwise the result is the leftmost largest single day-over-day change, with its index in the change list |
| MaxSubarray.AsWrittenMissesBestRun | main.py:94-103 | for prices 1, 2, 3, 2, 5 the as-written search reports the change 3 at index 3, while the run of changes 0..3 sums to 4 |
| MaxSubarray.AllNegativeChanges | main.py:79-91 | for prices 5, 4, 3, 1 the as-written search reports the least negative change, -1, at its leftmost index 0 |
| MaxSubarray.MaxCrossingSumFixed | main.py:94-103 | with totals starting at 0, the crossing candidate is the best suffix sum of the left half plus the best prefix sum of the right half, which is the sum of a run `i..j` through `mid`, `mid+1`, and no run through both is larger |
| MaxSubarray.WideBoundsMisreport | main.py:91 | even with totals starting at 0, reporting `left_start..right_end` for a winning crossing candidate gives, for changes 2, -10, 2, 2, -10, 2, the sum 4 over indices 0..3, whose changes sum to -4 (the run with sum 4 is 2..3) |
| MaxSubarray.MaxSubarraySumFixed | main.py:79-91 | with the corrected crossing candidate, the result is the sum of `arr[start..end]` inside `low..high`, and no run inside `low..high` has a larger sum |
| MaxSubarray.FindMaxGainFixed | main.py:74-76 | corrected: the result is `prices[end+1] - prices[start]`, and no later-minus-earlier price difference exceeds it |
| SpikeDip.SignificantPairs | main.py:131-138 | every listed index pair `i < j` has distinct days and a rate strictly above the threshold |
| SpikeDip.BruteForce | main.py:129-139 | the nested loops append exactly the records of `BruteForceChanges`, in loop order |
| SpikeDip.BruteForceFollowsPairs | main.py:129-139 | the brute-force result is the record of each pair of `SignificantPairs`, in that order |
| SpikeDip.SignificantPairsComplete | main.py:131-138 | every pair `i < j` on different days whose rate exceeds the threshold is listed |
| SpikeDip.SignificantPairsOrdered | main.py:131-132 | pairs are listed in strictly increasing lexicographic `(i, j)` order, so none is listed twice |
| SpikeDip.BruteForceMembership | main.py:129-139 | a record is reported exactly when it is the record of some `ps[i]`, `ps[j]`, `i < j`, on different days with rate above the threshold |
| SpikeDip.Strip | main.py:125 | a point is in the strip exactly when it is in the segment and lies fewer than `window` days from the midpoint's date |
| SpikeDip.StripCounts | main.py:125 | the strip keeps each point of the segment within the window exactly as often as the segment holds it, and no other point |
| SpikeDip.StripEmbeds | main.py:125 | the strip keeps the segment's order (it is a sub-sequence of it) |
| SpikeDip.StripCollectSignificantChanges | main.py:123-126 | the strip step is the brute-force scan of the 10-day strip around `prices[mid]` |
| SpikeDip.FindAllChangesRec | main.py:113-120 | the recursive scan is brute force for at most 3 points, else left results ++ right results ++ strip results with `mid = n // 2` (`Scan`) |
| SpikeDip.FindAllSignificantSpikesDips | main.py:108-110 | the caller's list is sorted in place by date (sorted, a permutation, stable), and the result is the recursive scan of the sorted list |
| SpikeDip.ScanSound | main.py:113-139 | every record of the recursive scan is a brute-force record of the whole input, and fewer than two points give no record |
| SpikeDip.WiderWindowKeepsChanges | main.py:125 | every record found with a narrower strip window is also found with a wider one |
| SpikeDip.BruteForceEndpoints | main.py:129-139 | both points of every brute-force record are points of the scanned list |
| SpikeDip.ScanMissesPair | main.py:113-125 | for four points on increasing days, a qualifying pair of the second and third points at least 10 days apart is reported by brute force but not by the recursive scan |
| SpikeDip.ScanRepeatsPairs | main.py:120-125 | with four points, when the first two pass the test and both lie in the strip, their record is reported twice: by the first half and first of all by the strip |

## Left out

- `DataLoader` (CSV reading, date parsing, pandas joins), `MergeSort.sort`'s DataFrame conversion, `StockAnalyzer` with its plotting, and the module-level script are I/O and library calls. They are not part of this model.
- Floating point: prices, changes and rates are exact reals, so rounding is not modelled. NaN is not modelled, and neither is the `-inf`/`+inf` arithmetic beyond what `_max_crossing_sum` produces.
- Dates: `Timedelta.days` is replaced by differences of whole day numbers.
- Sort keys: the key column is an integer-valued selector, and a missing key (Python `KeyError`) is not modelled.
- Python's built-in `list.sort` at main.py:109 is represented by the verified merge sort on the date, which `StableSort.StableSortUnique` justifies.
- MaxSubarray.MaxSubarraySum: requires `low <= high`. The only caller that passes `low > high` is `find_max_gain` with fewer than two prices, and `FindMaxGain` models that case as `RecursesForever`: Python's `RecursionError` is not modelled as an exception.
- MaxSubarray.FindMaxGainFixed: still reports `RecursesForever` for fewer than two prices, as the source does. Only the running-total defect and the crossing bounds are corrected.
- The caller at main.py:171 and main.py:180 uses the returned change indices as price indices. This caller is outside the model. `FindMaxGain` states that the indices refer to the change list.
- The strip window is a parameter of `Scan`, and the methods use the source's constant 10 (`SpikeDip.Window`). The 10-day window is not configurable in the source.
- The source's reports are tuples `(rate, (p_i, p_j))`. They are modelled as the datatype `Change(rate, first, second)`.

Where the code departs from what the program evidently intends (its class comments say that `MaxSubarray` "identifies periods of maximum gain or loss" and that `SpikeDipClosestPair` "detects anomalies in price changes"), the model follows the code:

- The code returns change-list indices rather than a price range (main.py:76).
- It recurses forever, rather than failing cleanly, for fewer than two prices.
- It fixes the strip window at 10 days.
- Its crossing candidate is always minus infinity, and a winning crossing candidate would report the wrong range (see Findings).
- Its recursive scan can miss qualifying pairs (see Findings).

## Findings

| source | as written | input that shows it | evidently intended | confidence | as-written member | corrected member |
|---|---|---|---|---|---|---|
| main.py:94-103 | `left_sum = total = float('-inf')` and `right_sum = total = float('-inf')`: adding finite changes to minus infinity leaves it minus infinity, so the crossing candidate is always minus infinity and the search only ever returns a single change | prices 1, 2, 3, 2, 5 (changes 1, 1, -1, 3): the reported gain is 3 at change index 3, while changes 0..3 sum to 4 | running totals start at 0, so the crossing candidate is the best run through the midpoint; together with the crossing run's own bounds (next row) the search returns a best run | not executed | MaxSubarray.AsWrittenMissesBestRun | MaxSubarray.FindMaxGainFixed |
| main.py:91 | a winning crossing candidate is returned with the range `left_start, right_end` of the two half-results, not with the bounds of the crossing run; hidden while the totals start at minus infinity, since the crossing candidate never wins | once the totals start at 0, changes 2, -10, 2, 2, -10, 2 are reported as the sum 4 over indices 0..3, whose changes sum to -4 | return the crossing run's own start and end | not executed | MaxSubarray.WideBoundsMisreport | MaxSubarray.MaxSubarraySumFixed |
| main.py:113-125 | the recursive scan only combines the two halves' results with the pairs inside the 10-day strip around `prices[mid]`, so a qualifying pair with one point in each half and one of them 10 or more days from the midpoint's date is never reported; the scan is sound but not complete | days 0, 20, 40, 60 with prices 0, 0, 1000, 0 and threshold 1: the pair of days 20 and 40 (rate 50) is a brute-force record but is not reported | report every qualifying pair, as the brute-force scan does | not executed | SpikeDip.ScanMissesPair | SpikeDip.BruteForceMembership |
