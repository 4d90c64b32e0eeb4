/** Maximum-subarray search over the day-over-day changes of a price series
    (the MaxSubarray class of main.py). Sums are Python floats that start at
    `float('-inf')`; they are modelled as exact reals extended with one
    constructor for minus infinity. */
module MaxSubarray {

  /** A real number or minus infinity. */
  datatype Ext = NegInf | Fin(v: real)

  /** Float addition restricted to what the source can produce: minus
      infinity absorbs every finite summand. */
  function Add(a: Ext, b: Ext): (r: Ext)
    ensures r.Fin? <==> a.Fin? && b.Fin?
    ensures r.Fin? ==> r.v == a.v + b.v
  {
    if a.Fin? && b.Fin? then Fin(a.v + b.v) else NegInf
  }

  /** Float `a >= b`; `-inf >= -inf` holds. */
  predicate AtLeast(a: Ext, b: Ext)
  {
    match (a, b)
    case (_, NegInf) => true
    case (NegInf, Fin(_)) => false
    case (Fin(x), Fin(y)) => x >= y
  }

  /** Python's `max(a, b)`: the first argument unless the second is larger. */
  function Max(a: Ext, b: Ext): (r: Ext)
    ensures AtLeast(r, a) && AtLeast(r, b)
    ensures r == a || r == b
  {
    if AtLeast(a, b) then a else b
  }

  /** The sum of `arr[lo..hi]`. */
  function Sum(arr: seq<real>, lo: int, hi: int): real
    requires 0 <= lo && hi <= |arr|
    decreases hi - lo
  {
    if lo >= hi then 0.0 else Sum(arr, lo, hi - 1) + arr[hi - 1]
  }

  lemma {:induction false} SumSplit(arr: seq<real>, lo: int, m: int, hi: int)
    requires 0 <= lo <= m <= hi <= |arr|
    ensures Sum(arr, lo, hi) == Sum(arr, lo, m) + Sum(arr, m, hi)
    decreases hi - m
  {
    if m < hi {
      SumSplit(arr, lo, m, hi - 1);
    }
  }

  /** The day-over-day changes: `d[i] == prices[i + 1] - prices[i]`. */
  function Deltas(prices: seq<real>): (d: seq<real>)
    ensures |d| == if |prices| == 0 then 0 else |prices| - 1
    ensures forall i :: 0 <= i < |d| ==> d[i] == prices[i + 1] - prices[i]
  {
    if |prices| == 0 then []
    else seq(|prices| - 1, i requires 0 <= i < |prices| - 1 => prices[i + 1] - prices[i])
  }

  /** The changes over a run of consecutive days add up to the change between
      its first and last price. */
  lemma {:induction false} DeltasTelescope(prices: seq<real>, s: int, e: int)
    requires 0 <= s <= e < |prices|
    ensures Sum(Deltas(prices), s, e) == prices[e] - prices[s]
  {
    Telescope(prices, Deltas(prices), s, e);
  }

  lemma {:induction false} Telescope(prices: seq<real>, d: seq<real>, s: int, e: int)
    requires 0 <= s <= e < |prices| && |d| == |prices| - 1
    requires forall i :: 0 <= i < |d| ==> d[i] == prices[i + 1] - prices[i]
    ensures Sum(d, s, e) == prices[e] - prices[s]
    decreases e - s
  {
    if s < e {
      Telescope(prices, d, s, e - 1);
      assert Sum(d, s, e) == Sum(d, s, e - 1) + d[e - 1];
    }
  }

  /** `k` is the leftmost position of a largest element of `arr[low..high]`
      (both ends included). */
  ghost predicate LeftmostMaxAt(arr: seq<real>, low: int, high: int, k: int)
    requires 0 <= low <= high < |arr|
  {
    low <= k <= high
    && (forall m :: low <= m <= high ==> arr[m] <= arr[k])
    && (forall m :: low <= m < k ==> arr[m] < arr[k])
  }

  // ---------------------------------------------------------------------
  // The search as written in main.py

  /** The crossing candidate as written: both running totals start at minus
      infinity, so they never become finite and neither does the result. */
  method MaxCrossingSum(arr: seq<real>, low: int, mid: int, high: int) returns (s: Ext)
    requires 0 <= low <= mid < high < |arr|
    ensures s == NegInf
  {
    var leftSum := NegInf;
    var total := NegInf;
    var i := mid;
    while i >= low
      invariant low - 1 <= i <= mid
      invariant total == NegInf && leftSum == NegInf
    {
      total := Add(total, Fin(arr[i]));
      leftSum := Max(leftSum, total);
      i := i - 1;
    }
    var rightSum := NegInf;
    total := NegInf;
    for j := mid + 1 to high + 1
      invariant total == NegInf && rightSum == NegInf
    {
      total := Add(total, Fin(arr[j]));
      rightSum := Max(rightSum, total);
    }
    s := Add(leftSum, rightSum);
  }

  /** The recursive search as written. Since the crossing candidate is minus
      infinity, ties go left, and a single element is its own range, the
      result is the leftmost largest single element of `arr[low..high]`. */
  method MaxSubarraySum(arr: seq<real>, low: int, high: int) returns (sum: Ext, start: int, end: int)
    requires 0 <= low <= high < |arr|
    ensures start == end && LeftmostMaxAt(arr, low, high, start)
    ensures sum == Fin(arr[start])
    decreases high - low
  {
    if low == high {
      return Fin(arr[low]), low, high;
    }
    var mid := (low + high) / 2;
    var leftSum, leftStart, leftEnd := MaxSubarraySum(arr, low, mid);
    var rightSum, rightStart, rightEnd := MaxSubarraySum(arr, mid + 1, high);
    var crossSum := MaxCrossingSum(arr, low, mid, high);
    if AtLeast(leftSum, rightSum) && AtLeast(leftSum, crossSum) {
      sum, start, end := leftSum, leftStart, leftEnd;
    } else if AtLeast(rightSum, leftSum) && AtLeast(rightSum, crossSum) {
      sum, start, end := rightSum, rightStart, rightEnd;
    } else {
      assert false;
      sum, start, end := crossSum, leftStart, rightEnd;
    }
  }

  /** The outcome of find_max_gain. For fewer than two prices there is no
      change to search: the source then calls the search on the range
      (0, -1), whose midpoint -1 gives the same range again, so the recursion
      never ends (Python stops it with RecursionError). */
  datatype GainResult = Found(sum: Ext, start: int, end: int) | RecursesForever

  /** find_max_gain as written: the indices it returns are positions in the
      list of changes, not in the price list. The result is the leftmost
      largest single day-over-day change. */
  method FindMaxGain(prices: seq<real>) returns (r: GainResult)
    ensures r.RecursesForever? <==> |prices| < 2
    ensures r.Found? ==>
      r.start == r.end && LeftmostMaxAt(Deltas(prices), 0, |prices| - 2, r.start)
      && r.sum == Fin(prices[r.start + 1] - prices[r.start])
  {
    var priceChanges := Deltas(prices);
    if |priceChanges| - 1 < 0 {
      return RecursesForever;
    }
    var sum, start, end := MaxSubarraySum(priceChanges, 0, |priceChanges| - 1);
    r := Found(sum, start, end);
  }

  /** A worked example: prices [1, 2, 3, 2, 5] have changes
      [1, 1, -1, 3], whose best run [0, 3] sums to 4; the search as written
      reports the single change 3 at index 3 instead. */
  lemma AsWrittenMissesBestRun(k: int)
    requires LeftmostMaxAt(Deltas([1.0, 2.0, 3.0, 2.0, 5.0]), 0, 3, k)
    ensures k == 3 && Deltas([1.0, 2.0, 3.0, 2.0, 5.0])[k] == 3.0
    ensures Sum(Deltas([1.0, 2.0, 3.0, 2.0, 5.0]), 0, 4) == 4.0
  {
    var d := Deltas([1.0, 2.0, 3.0, 2.0, 5.0]);
    assert d == [1.0, 1.0, -1.0, 3.0];
    assert d[3] == 3.0;
  }

  /** When every change is negative, the result is the least negative one,
      at its leftmost position: prices [5, 4, 3, 1] give change -1 at index 0. */
  lemma AllNegativeChanges(k: int)
    requires LeftmostMaxAt(Deltas([5.0, 4.0, 3.0, 1.0]), 0, 2, k)
    ensures k == 0 && Deltas([5.0, 4.0, 3.0, 1.0])[k] == -1.0
  {
    var d := Deltas([5.0, 4.0, 3.0, 1.0]);
    assert d == [-1.0, -1.0, -2.0];
    assert d[0] <= d[k];
  }

  // ---------------------------------------------------------------------
  // The search as evidently intended: running totals start at 0 and the
  // crossing candidate reports its own bounds.

  /** The best sum of a run `arr[a..cut]` with `lo <= a < cut`, taken from
      the longest run down (the left loop of the crossing search). */
  function BestSuffixSum(arr: seq<real>, lo: int, cut: int): real
    requires 0 <= lo < cut <= |arr|
    decreases cut - lo
  {
    if lo + 1 == cut then Sum(arr, lo, cut)
    else
      var best, total := BestSuffixSum(arr, lo + 1, cut), Sum(arr, lo, cut);
      if best >= total then best else total
  }

  /** The best sum of a run `arr[cut..e]` with `cut < e <= end` (the right
      loop of the crossing search). */
  function BestPrefixSum(arr: seq<real>, cut: int, end: int): real
    requires 0 <= cut < end <= |arr|
    decreases end - cut
  {
    if end == cut + 1 then Sum(arr, cut, end)
    else
      var best, total := BestPrefixSum(arr, cut, end - 1), Sum(arr, cut, end);
      if best >= total then best else total
  }

  /** The search with totals starting at 0 but with the crossing result's
      range still taken as `left_start..right_end`, as main.py returns it. */
  function WideSearch(arr: seq<real>, low: int, high: int): (real, int, int)
    requires 0 <= low <= high < |arr|
    decreases high - low
  {
    if low == high then (arr[low], low, high)
    else
      var mid := (low + high) / 2;
      var left, right := WideSearch(arr, low, mid), WideSearch(arr, mid + 1, high);
      var cross := BestSuffixSum(arr, low, mid + 1) + BestPrefixSum(arr, mid + 1, high + 1);
      if left.0 >= right.0 && left.0 >= cross then left
      else if right.0 >= left.0 && right.0 >= cross then right
      else (cross, left.1, right.2)
  }

  /** Once the totals start at 0, a winning crossing run is reported with
      the wrong range: for changes 2, -10, 2, 2, -10, 2 the search reports
      the sum 4 over indices 0..3, whose changes sum to -4 (the run
      realising 4 is 2..3). */
  lemma WideBoundsMisreport(arr: seq<real>)
    requires arr == [2.0, -10.0, 2.0, 2.0, -10.0, 2.0]
    ensures WideSearch(arr, 0, 5) == (4.0, 0, 3)
    ensures Sum(arr, 0, 4) == -4.0 && Sum(arr, 2, 4) == 4.0
  {
    assert Sum(arr, 0, 1) == 2.0 && Sum(arr, 0, 2) == -8.0 && Sum(arr, 0, 3) == -6.0 && Sum(arr, 0, 4) == -4.0;
    assert Sum(arr, 1, 2) == -10.0 && Sum(arr, 1, 3) == -8.0;
    assert Sum(arr, 2, 3) == 2.0 && Sum(arr, 2, 4) == 4.0;
    assert Sum(arr, 3, 4) == 2.0 && Sum(arr, 3, 5) == -8.0 && Sum(arr, 3, 6) == -6.0;
    assert Sum(arr, 4, 5) == -10.0 && Sum(arr, 5, 6) == 2.0;
    assert WideSearch(arr, 0, 1) == (2.0, 0, 0);
    assert WideSearch(arr, 0, 2) == (2.0, 0, 0);
    assert WideSearch(arr, 3, 4) == (2.0, 3, 3);
    assert WideSearch(arr, 3, 5) == (2.0, 3, 3);
    assert BestSuffixSum(arr, 0, 3) == 2.0;
    assert BestPrefixSum(arr, 3, 6) == 2.0;
  }

  /** The best sum of a run that ends at `mid` and starts in `low..mid`, plus
      the best sum of a run that starts at `mid + 1` and ends in
      `mid + 1..high`, with the bounds `i`, `j` of the crossing run
      `arr[i..j]` (both ends included) that realises it. */
  method MaxCrossingSumFixed(arr: seq<real>, low: int, mid: int, high: int) returns (s: Ext, i: int, j: int)
    requires 0 <= low <= mid < high < |arr|
    ensures low <= i <= mid < j <= high
    ensures s == Fin(Sum(arr, i, j + 1))
    ensures forall a, b :: low <= a <= mid && mid + 1 < b <= high + 1 ==> Sum(arr, a, b) <= s.v
    ensures s.v == BestSuffixSum(arr, low, mid + 1) + BestPrefixSum(arr, mid + 1, high + 1)
  {
    var cut := mid + 1;
    var leftSum := NegInf;
    var total := Fin(0.0);
    i := mid;
    var k := mid;
    while k >= low
      invariant low - 1 <= k <= mid
      invariant total == Fin(Sum(arr, k + 1, cut))
      invariant k == mid ==> leftSum == NegInf
      invariant k < mid ==> k < i <= mid && leftSum == Fin(Sum(arr, i, cut))
      invariant k < mid ==> leftSum.v == BestSuffixSum(arr, k + 1, cut)
      invariant forall a :: k < a <= mid ==> Sum(arr, a, cut) <= leftSum.v
    {
      SumSplit(arr, k, k + 1, cut);
      total := Add(total, Fin(arr[k]));
      if !AtLeast(leftSum, total) {
        i := k;
      }
      leftSum := Max(leftSum, total);
      k := k - 1;
    }
    var rightSum := NegInf;
    total := Fin(0.0);
    j := mid + 1;
    for m := mid + 1 to high + 1
      invariant total == Fin(Sum(arr, cut, m))
      invariant m == cut ==> rightSum == NegInf
      invariant m > cut ==> mid < j < m && rightSum == Fin(Sum(arr, cut, j + 1))
      invariant m > cut ==> rightSum.v == BestPrefixSum(arr, cut, m)
      invariant forall b :: cut < b <= m ==> Sum(arr, cut, b) <= rightSum.v
    {
      total := Add(total, Fin(arr[m]));
      if !AtLeast(rightSum, total) {
        j := m;
      }
      rightSum := Max(rightSum, total);
    }
    s := Add(leftSum, rightSum);
    SumSplit(arr, i, cut, j + 1);
    forall a, b | low <= a <= mid && cut < b <= high + 1
      ensures Sum(arr, a, b) <= s.v
    {
      SumSplit(arr, a, cut, b);
    }
  }

  /** The divide-and-conquer search with the corrected crossing candidate:
      the result is the sum of `arr[start..end]` (both ends included) and no
      run inside `low..high` has a larger sum. */
  method MaxSubarraySumFixed(arr: seq<real>, low: int, high: int) returns (sum: Ext, start: int, end: int)
    requires 0 <= low <= high < |arr|
    ensures low <= start <= end <= high
    ensures sum == Fin(Sum(arr, start, end + 1))
    ensures forall a, b :: low <= a < b <= high + 1 ==> Sum(arr, a, b) <= sum.v
    decreases high - low
  {
    if low == high {
      assert Sum(arr, low, low + 1) == arr[low];
      return Fin(arr[low]), low, high;
    }
    var mid := (low + high) / 2;
    var leftSum, leftStart, leftEnd := MaxSubarraySumFixed(arr, low, mid);
    var rightSum, rightStart, rightEnd := MaxSubarraySumFixed(arr, mid + 1, high);
    var crossSum, crossStart, crossEnd := MaxCrossingSumFixed(arr, low, mid, high);
    if AtLeast(leftSum, rightSum) && AtLeast(leftSum, crossSum) {
      sum, start, end := leftSum, leftStart, leftEnd;
    } else if AtLeast(rightSum, leftSum) && AtLeast(rightSum, crossSum) {
      sum, start, end := rightSum, rightStart, rightEnd;
    } else {
      sum, start, end := crossSum, crossStart, crossEnd;
    }
  }

  /** find_max_gain with the corrected search: the reported sum is the price
      change from day `start` to day `end + 1`, and no later-minus-earlier
      price difference exceeds it. */
  method FindMaxGainFixed(prices: seq<real>) returns (r: GainResult)
    ensures r.RecursesForever? <==> |prices| < 2
    ensures r.Found? ==>
      0 <= r.start <= r.end < |prices| - 1
      && r.sum == Fin(prices[r.end + 1] - prices[r.start])
      && forall a, b :: 0 <= a < b < |prices| ==> prices[b] - prices[a] <= r.sum.v
  {
    var priceChanges := Deltas(prices);
    if |priceChanges| - 1 < 0 {
      return RecursesForever;
    }
    var sum, start, end := MaxSubarraySumFixed(priceChanges, 0, |priceChanges| - 1);
    DeltasTelescope(prices, start, end + 1);
    forall a, b | 0 <= a < b < |prices|
      ensures prices[b] - prices[a] <= sum.v
    {
      DeltasTelescope(prices, a, b);
      assert Sum(priceChanges, a, b) <= sum.v;
    }
    r := Found(sum, start, end);
  }
}
