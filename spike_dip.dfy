/** Anomaly scan over a dated price series (the SpikeDipClosestPair class of
    main.py): report every pair of observations whose price moves faster per
    day than a threshold, by a recursive split with a boundary strip around
    each midpoint. Dates are whole day numbers and prices exact reals. */
module SpikeDip {
  import StableSort

  /** Width of the boundary strip in days: points strictly closer than this
      to the midpoint's date take part in the strip scan. */
  const Window: int := 10

  /** One observation: a day number and a price. */
  datatype Point = Point(day: int, value: real)

  /** One reported anomaly: the change per day and the two observations, in
      the order in which they appear in the scanned list. */
  datatype Change = Change(rate: real, first: Point, second: Point)

  function Abs(x: int): nat
  {
    if x < 0 then -x else x
  }

  function AbsReal(x: real): real
  {
    if x < 0.0 then -x else x
  }

  /** The sort key of find_all_significant_spikes_dips: the date. */
  function DayOf(p: Point): int
  {
    p.day
  }

  /** The test of the brute-force scan: the points lie on different days
      and the price moves strictly faster than `threshold` per day. */
  predicate Significant(p: Point, q: Point, threshold: real)
  {
    var days := Abs(q.day - p.day);
    days > 0 && AbsReal(p.value - q.value) / (days as real) > threshold
  }

  /** The record reported for the pair `p`, `q`. */
  function ChangeOf(p: Point, q: Point): (c: Change)
    requires p.day != q.day
    ensures c.first == p && c.second == q
  {
    Change(AbsReal(p.value - q.value) / (Abs(q.day - p.day) as real), p, q)
  }

  // ---------------------------------------------------------------------
  // The brute-force scan, as the list of index pairs it reports

  /** `pair` indexes two points of `ps`, the first before the second, that
      pass the threshold test. */
  predicate ValidPair(ps: seq<Point>, threshold: real, pair: (int, int))
  {
    0 <= pair.0 < pair.1 < |ps| && Significant(ps[pair.0], ps[pair.1], threshold)
  }

  /** Every pair of `pairs` is valid. */
  predicate AllValid(ps: seq<Point>, threshold: real, pairs: seq<(int, int)>)
  {
    forall k :: 0 <= k < |pairs| ==> ValidPair(ps, threshold, pairs[k])
  }

  /** The pairs `(i, j')` with `i < j' < j` that pass the test, by increasing `j'`:
      the inner loop of the brute-force scan after it has reached `j`. */
  function RowPairs(ps: seq<Point>, threshold: real, i: int, j: int): (r: seq<(int, int)>)
    requires 0 <= i < j <= |ps|
    ensures AllValid(ps, threshold, r)
    ensures forall k :: 0 <= k < |r| ==> r[k].0 == i && r[k].1 < j
    decreases j
  {
    if j == i + 1 then []
    else RowPairs(ps, threshold, i, j - 1) + (if Significant(ps[i], ps[j - 1], threshold) then [(i, j - 1)] else [])
  }

  /** The pairs whose first index is below `i`: the outer loop of the
      brute-force scan after it has reached `i`. */
  function PairsBefore(ps: seq<Point>, threshold: real, i: int): (r: seq<(int, int)>)
    requires 0 <= i <= |ps|
    ensures AllValid(ps, threshold, r)
    ensures forall k :: 0 <= k < |r| ==> r[k].0 < i
  {
    if i == 0 then [] else PairsBefore(ps, threshold, i - 1) + RowPairs(ps, threshold, i - 1, |ps|)
  }

  /** Every pair the brute-force scan reports, in the order it reports them. */
  function SignificantPairs(ps: seq<Point>, threshold: real): (r: seq<(int, int)>)
    ensures AllValid(ps, threshold, r)
  {
    PairsBefore(ps, threshold, |ps|)
  }

  /** The records reported for a list of index pairs, in the same order. */
  function ChangesAt(ps: seq<Point>, threshold: real, pairs: seq<(int, int)>): (r: seq<Change>)
    requires AllValid(ps, threshold, pairs)
    ensures |r| == |pairs|
  {
    if pairs == [] then []
    else
      assert ValidPair(ps, threshold, pairs[0]);
      [ChangeOf(ps[pairs[0].0], ps[pairs[0].1])] + ChangesAt(ps, threshold, pairs[1..])
  }

  /** The records the inner loop of the brute-force scan has appended for
      the point `i` once it reaches `j`. */
  function RowChanges(ps: seq<Point>, threshold: real, i: int, j: int): seq<Change>
    requires 0 <= i < j <= |ps|
    decreases j
  {
    if j == i + 1 then []
    else
      RowChanges(ps, threshold, i, j - 1)
      + (if Significant(ps[i], ps[j - 1], threshold) then [ChangeOf(ps[i], ps[j - 1])] else [])
  }

  /** The records the brute-force scan has appended once its outer loop
      reaches `i`. */
  function ChangesBefore(ps: seq<Point>, threshold: real, i: int): seq<Change>
    requires 0 <= i <= |ps|
  {
    if i == 0 then [] else ChangesBefore(ps, threshold, i - 1) + RowChanges(ps, threshold, i - 1, |ps|)
  }

  /** The result of the brute-force scan of `ps`. */
  function BruteForceChanges(ps: seq<Point>, threshold: real): seq<Change>
  {
    ChangesBefore(ps, threshold, |ps|)
  }

  /** The brute-force scan: for each `i`, for each later `j`, report the pair
      when the points lie on different days and move faster than
      `threshold` per day. */
  method BruteForce(ps: seq<Point>, threshold: real) returns (significantChanges: seq<Change>)
    ensures significantChanges == BruteForceChanges(ps, threshold)
  {
    significantChanges := [];
    for i := 0 to |ps|
      invariant significantChanges == ChangesBefore(ps, threshold, i)
    {
      ghost var done := significantChanges;
      assert done + RowChanges(ps, threshold, i, i + 1) == done;
      for j := i + 1 to |ps|
        invariant significantChanges == done + RowChanges(ps, threshold, i, j)
      {
        var daysApart := Abs(ps[j].day - ps[i].day);
        if daysApart > 0 {
          var changePerDay := AbsReal(ps[i].value - ps[j].value) / (daysApart as real);
          if changePerDay > threshold {
            assert Significant(ps[i], ps[j], threshold);
            significantChanges := significantChanges + [Change(changePerDay, ps[i], ps[j])];
            assert significantChanges == done + (RowChanges(ps, threshold, i, j) + [ChangeOf(ps[i], ps[j])]);
          }
        }
      }
    }
  }

  /** The brute-force scan reports, in order, the record of each pair of
      SignificantPairs. */
  lemma BruteForceFollowsPairs(ps: seq<Point>, threshold: real)
    ensures BruteForceChanges(ps, threshold) == ChangesAt(ps, threshold, SignificantPairs(ps, threshold))
  {
    ChangesBeforeFollowsPairs(ps, threshold, |ps|);
  }

  lemma {:induction false} ChangesBeforeFollowsPairs(ps: seq<Point>, threshold: real, i: int)
    requires 0 <= i <= |ps|
    ensures ChangesBefore(ps, threshold, i) == ChangesAt(ps, threshold, PairsBefore(ps, threshold, i))
  {
    if i > 0 {
      var done, row := PairsBefore(ps, threshold, i - 1), RowPairs(ps, threshold, i - 1, |ps|);
      var prev, last := ChangesBefore(ps, threshold, i - 1), RowChanges(ps, threshold, i - 1, |ps|);
      ChangesBeforeFollowsPairs(ps, threshold, i - 1);
      RowChangesFollowPairs(ps, threshold, i - 1, |ps|);
      FollowStep(ps, threshold, prev, last, done, row);
      assert ChangesBefore(ps, threshold, i) == prev + last;
      assert PairsBefore(ps, threshold, i) == done + row;
    } else {
      assert PairsBefore(ps, threshold, 0) == [];
    }
  }

  lemma ChangesAtOne(ps: seq<Point>, threshold: real, pair: (int, int))
    requires ValidPair(ps, threshold, pair)
    ensures AllValid(ps, threshold, [pair])
    ensures ChangesAt(ps, threshold, [pair]) == [ChangeOf(ps[pair.0], ps[pair.1])]
  {
    assert [pair][1..] == [];
  }

  /** Records that follow two lists of pairs follow their concatenation. */
  lemma FollowStep(ps: seq<Point>, threshold: real, a: seq<Change>, b: seq<Change>,
                   pa: seq<(int, int)>, pb: seq<(int, int)>)
    requires AllValid(ps, threshold, pa) && AllValid(ps, threshold, pb)
    requires a == ChangesAt(ps, threshold, pa) && b == ChangesAt(ps, threshold, pb)
    ensures AllValid(ps, threshold, pa + pb) && a + b == ChangesAt(ps, threshold, pa + pb)
  {
    ChangesAtAppend(ps, threshold, pa, pb);
  }

  lemma {:induction false} RowChangesFollowPairs(ps: seq<Point>, threshold: real, i: int, j: int)
    requires 0 <= i < j <= |ps|
    ensures RowChanges(ps, threshold, i, j) == ChangesAt(ps, threshold, RowPairs(ps, threshold, i, j))
    decreases j
  {
    if j > i + 1 {
      var pair := (i, j - 1);
      var pairStep := if ValidPair(ps, threshold, pair) then [pair] else [];
      var changeStep := ChangesAt(ps, threshold, pairStep);
      RowStep(ps, threshold, i, j);
      RowChangesFollowPairs(ps, threshold, i, j - 1);
      FollowStep(ps, threshold, RowChanges(ps, threshold, i, j - 1), changeStep,
                 RowPairs(ps, threshold, i, j - 1), pairStep);
    }
  }

  /** One step of the inner loop, at record and at pair level. */
  lemma RowStep(ps: seq<Point>, threshold: real, i: int, j: int)
    requires 0 <= i < j - 1 && j <= |ps|
    ensures var pairStep := if ValidPair(ps, threshold, (i, j - 1)) then [(i, j - 1)] else [];
      AllValid(ps, threshold, pairStep)
      && RowPairs(ps, threshold, i, j) == RowPairs(ps, threshold, i, j - 1) + pairStep
      && RowChanges(ps, threshold, i, j) == RowChanges(ps, threshold, i, j - 1) + ChangesAt(ps, threshold, pairStep)
  {
    if Significant(ps[i], ps[j - 1], threshold) {
      ChangesAtOne(ps, threshold, (i, j - 1));
    } else {
      assert ChangesAt(ps, threshold, []) == [];
    }
  }

  lemma {:induction false} ChangesAtAppend(ps: seq<Point>, threshold: real, a: seq<(int, int)>, b: seq<(int, int)>)
    requires AllValid(ps, threshold, a) && AllValid(ps, threshold, b)
    ensures AllValid(ps, threshold, a + b)
    ensures ChangesAt(ps, threshold, a + b) == ChangesAt(ps, threshold, a) + ChangesAt(ps, threshold, b)
  {
    assert forall k :: 0 <= k < |a + b| ==> (a + b)[k] == if k < |a| then a[k] else b[k - |a|];
    if a != [] {
      assert (a + b)[1..] == a[1..] + b;
      ChangesAtAppend(ps, threshold, a[1..], b);
    } else {
      assert a + b == b;
    }
  }

  /** The `k`-th record is the record of the `k`-th pair. */
  lemma {:induction false} ChangesAtIndex(ps: seq<Point>, threshold: real, pairs: seq<(int, int)>, k: int)
    requires AllValid(ps, threshold, pairs) && 0 <= k < |pairs|
    ensures ValidPair(ps, threshold, pairs[k])
    ensures ChangesAt(ps, threshold, pairs)[k] == ChangeOf(ps[pairs[k].0], ps[pairs[k].1])
  {
    if k > 0 {
      ChangesAtIndex(ps, threshold, pairs[1..], k - 1);
    }
  }

  // ---------------------------------------------------------------------
  // What the brute-force scan reports

  /** Every pair that passes the test is reported. */
  lemma {:induction false} SignificantPairsComplete(ps: seq<Point>, threshold: real, i: int, j: int)
    requires 0 <= i < j < |ps| && Significant(ps[i], ps[j], threshold)
    ensures (i, j) in SignificantPairs(ps, threshold)
  {
    RowPairsContain(ps, threshold, i, j, |ps|);
    PairsBeforeContain(ps, threshold, i, j, |ps|);
  }

  lemma {:induction false} RowPairsContain(ps: seq<Point>, threshold: real, i: int, j: int, n: int)
    requires 0 <= i < j < n <= |ps| && Significant(ps[i], ps[j], threshold)
    ensures (i, j) in RowPairs(ps, threshold, i, n)
    decreases n
  {
    if j < n - 1 {
      RowPairsContain(ps, threshold, i, j, n - 1);
    }
  }

  lemma {:induction false} PairsBeforeContain(ps: seq<Point>, threshold: real, i: int, j: int, n: int)
    requires 0 <= i < n <= |ps| && i < j < |ps|
    requires (i, j) in RowPairs(ps, threshold, i, |ps|)
    ensures (i, j) in PairsBefore(ps, threshold, n)
    decreases n
  {
    if i < n - 1 {
      PairsBeforeContain(ps, threshold, i, j, n - 1);
    }
  }

  /** Lexicographic order on index pairs. */
  predicate PairBefore(a: (int, int), b: (int, int))
  {
    a.0 < b.0 || (a.0 == b.0 && a.1 < b.1)
  }

  /** The pairs are reported in strictly increasing lexicographic order, so
      no pair is reported twice. */
  lemma SignificantPairsOrdered(ps: seq<Point>, threshold: real)
    ensures forall k, l :: 0 <= k < l < |SignificantPairs(ps, threshold)| ==>
      PairBefore(SignificantPairs(ps, threshold)[k], SignificantPairs(ps, threshold)[l])
  {
    PairsBeforeOrdered(ps, threshold, |ps|);
  }

  lemma {:induction false} RowPairsOrdered(ps: seq<Point>, threshold: real, i: int, j: int)
    requires 0 <= i < j <= |ps|
    ensures forall k, l :: 0 <= k < l < |RowPairs(ps, threshold, i, j)| ==>
      RowPairs(ps, threshold, i, j)[k].1 < RowPairs(ps, threshold, i, j)[l].1
    decreases j
  {
    if j > i + 1 {
      RowPairsOrdered(ps, threshold, i, j - 1);
    }
  }

  lemma {:induction false} PairsBeforeOrdered(ps: seq<Point>, threshold: real, i: int)
    requires 0 <= i <= |ps|
    ensures forall k, l :: 0 <= k < l < |PairsBefore(ps, threshold, i)| ==>
      PairBefore(PairsBefore(ps, threshold, i)[k], PairsBefore(ps, threshold, i)[l])
  {
    if i > 0 {
      PairsBeforeOrdered(ps, threshold, i - 1);
      RowPairsOrdered(ps, threshold, i - 1, |ps|);
    }
  }

  /** A record is reported by the brute-force scan exactly when it is the
      record of two points `ps[i]`, `ps[j]` with `i < j` on different days
      whose price moves faster than `threshold` per day. */
  lemma BruteForceMembership(ps: seq<Point>, threshold: real, c: Change)
    ensures c in BruteForceChanges(ps, threshold) <==>
      exists i, j :: 0 <= i < j < |ps| && Significant(ps[i], ps[j], threshold) && c == ChangeOf(ps[i], ps[j])
  {
    BruteForceFollowsPairs(ps, threshold);
    var pairs := SignificantPairs(ps, threshold);
    var out := ChangesAt(ps, threshold, pairs);
    if c in out {
      var k :| 0 <= k < |pairs| && c == out[k];
      ChangesAtIndex(ps, threshold, pairs, k);
      var i, j := pairs[k].0, pairs[k].1;
      assert 0 <= i < j < |ps| && Significant(ps[i], ps[j], threshold) && c == ChangeOf(ps[i], ps[j]);
    }
    if exists i, j :: 0 <= i < j < |ps| && Significant(ps[i], ps[j], threshold) && c == ChangeOf(ps[i], ps[j]) {
      var i, j :| 0 <= i < j < |ps| && Significant(ps[i], ps[j], threshold) && c == ChangeOf(ps[i], ps[j]);
      SignificantPairsComplete(ps, threshold, i, j);
      var k :| 0 <= k < |pairs| && pairs[k] == (i, j);
      ChangesAtIndex(ps, threshold, pairs, k);
      assert out[k] == c;
    }
  }

  // ---------------------------------------------------------------------
  // The recursive scan

  /** The strip: the points of `ps`, in their order, whose date lies
      strictly less than `window` days from `center`. */
  function Strip(ps: seq<Point>, center: int, window: int): (r: seq<Point>)
    ensures forall p :: p in r ==> p in ps && Abs(p.day - center) < window
    ensures forall p :: p in ps && Abs(p.day - center) < window ==> p in r
  {
    if ps == [] then []
    else (if Abs(ps[0].day - center) < window then [ps[0]] else []) + Strip(ps[1..], center, window)
  }

  /** The strip keeps every copy of each point inside the window and no
      copy of any point outside it. */
  lemma {:induction false} StripCounts(ps: seq<Point>, center: int, window: int)
    ensures forall p ::
      multiset(Strip(ps, center, window))[p] == if Abs(p.day - center) < window then multiset(ps)[p] else 0
  {
    if ps != [] {
      var x, rest := ps[0], ps[1..];
      assert ps == [x] + rest;
      var head := if Abs(x.day - center) < window then [x] else [];
      assert Strip(ps, center, window) == head + Strip(rest, center, window);
      StripCounts(rest, center, window);
      assert multiset(Strip(ps, center, window)) == multiset(head) + multiset(Strip(rest, center, window));
      assert multiset(ps) == multiset([x]) + multiset(rest);
    }
  }

  /** The recursive scan: brute force up to three points; otherwise the scan
      of the first half, then of the second half, then the brute-force scan
      of the strip around the midpoint's date, drawn from the whole segment. */
  function Scan(ps: seq<Point>, threshold: real, window: int): seq<Change>
    decreases |ps|
  {
    if |ps| <= 3 then BruteForceChanges(ps, threshold)
    else
      var mid := |ps| / 2;
      Scan(ps[..mid], threshold, window) + Scan(ps[mid..], threshold, window)
      + BruteForceChanges(Strip(ps, ps[mid].day, window), threshold)
  }

  method StripCollectSignificantChanges(ps: seq<Point>, mid: int, threshold: real) returns (changes: seq<Change>)
    requires 0 <= mid < |ps|
    ensures changes == BruteForceChanges(Strip(ps, ps[mid].day, Window), threshold)
  {
    var strip := Strip(ps, ps[mid].day, Window);
    changes := BruteForce(strip, threshold);
  }

  method FindAllChangesRec(ps: seq<Point>, threshold: real) returns (changes: seq<Change>)
    ensures changes == Scan(ps, threshold, Window)
    decreases |ps|
  {
    var n := |ps|;
    if n <= 3 {
      changes := BruteForce(ps, threshold);
      return;
    }
    var mid := n / 2;
    var leftChanges := FindAllChangesRec(ps[..mid], threshold);
    var rightChanges := FindAllChangesRec(ps[mid..], threshold);
    var stripChanges := StripCollectSignificantChanges(ps, mid, threshold);
    changes := leftChanges + rightChanges + stripChanges;
  }

  /** Entry point: sorts the caller's list by date in place (a stable sort,
      so the result is the one MergeSorted gives), then scans it. */
  method FindAllSignificantSpikesDips(prices: array<Point>, threshold: real) returns (changes: seq<Change>)
    modifies prices
    ensures prices[..] == StableSort.MergeSorted(old(prices[..]), DayOf)
    ensures StableSort.SortedBy(prices[..], DayOf) && multiset(prices[..]) == multiset(old(prices[..]))
    ensures changes == Scan(prices[..], threshold, Window)
  {
    var sorted := StableSort.MergeSort(prices[..], DayOf);
    for k := 0 to prices.Length
      invariant forall m :: 0 <= m < k ==> prices[m] == sorted[m]
    {
      prices[k] := sorted[k];
    }
    assert prices[..] == sorted;
    changes := FindAllChangesRec(prices[..], threshold);
  }

  // ---------------------------------------------------------------------
  // What the recursive scan reports

  /** `q` is a sub-sequence of `ps`, with `f` giving the positions in `ps`
      of the elements of `q` in increasing order. */
  ghost predicate Embeds<T>(q: seq<T>, ps: seq<T>, f: seq<int>)
  {
    |f| == |q|
    && (forall k :: 0 <= k < |f| ==> 0 <= f[k] < |ps| && q[k] == ps[f[k]])
    && (forall k, l :: 0 <= k < l < |f| ==> f[k] < f[l])
  }

  /** What the brute-force scan reports for a sub-sequence it also reports
      for the whole sequence. */
  lemma BruteForceSubsequence(q: seq<Point>, ps: seq<Point>, threshold: real, f: seq<int>)
    requires Embeds(q, ps, f)
    ensures forall c :: c in BruteForceChanges(q, threshold) ==> c in BruteForceChanges(ps, threshold)
  {
    forall c | c in BruteForceChanges(q, threshold)
      ensures c in BruteForceChanges(ps, threshold)
    {
      BruteForceMembership(q, threshold, c);
      var i, j :| 0 <= i < j < |q| && Significant(q[i], q[j], threshold) && c == ChangeOf(q[i], q[j]);
      assert Significant(ps[f[i]], ps[f[j]], threshold) && c == ChangeOf(ps[f[i]], ps[f[j]]);
      BruteForceMembership(ps, threshold, c);
    }
  }

  /** Every position of `g` moved one place to the right. */
  function Shift(g: seq<int>): (r: seq<int>)
    ensures |r| == |g| && forall k :: 0 <= k < |g| ==> r[k] == g[k] + 1
  {
    seq(|g|, k requires 0 <= k < |g| => g[k] + 1)
  }

  /** A sub-sequence of `ps` is one of `[x] + ps` too. */
  lemma EmbedsSkip<T>(x: T, q: seq<T>, ps: seq<T>, g: seq<int>)
    requires Embeds(q, ps, g)
    ensures Embeds(q, [x] + ps, Shift(g))
  {
    var f, longer := Shift(g), [x] + ps;
    forall k | 0 <= k < |f|
      ensures 0 <= f[k] < |longer| && q[k] == longer[f[k]]
    {
      assert longer[g[k] + 1] == ps[g[k]];
    }
    forall k, l | 0 <= k < l < |f|
      ensures f[k] < f[l]
    {
      assert g[k] < g[l];
    }
  }

  /** Extending both sequences by the same first element keeps the embedding. */
  lemma EmbedsKeep<T>(x: T, q: seq<T>, ps: seq<T>, g: seq<int>)
    requires Embeds(q, ps, g)
    ensures Embeds([x] + q, [x] + ps, [0] + Shift(g))
  {
    var f, shorter, longer := [0] + Shift(g), [x] + q, [x] + ps;
    forall k | 0 <= k < |f|
      ensures 0 <= f[k] < |longer| && shorter[k] == longer[f[k]]
    {
      if k > 0 {
        assert f[k] == g[k - 1] + 1 && shorter[k] == q[k - 1];
        assert longer[g[k - 1] + 1] == ps[g[k - 1]];
      }
    }
    forall k, l | 0 <= k < l < |f|
      ensures f[k] < f[l]
    {
      assert f[l] == g[l - 1] + 1;
      if k > 0 {
        assert f[k] == g[k - 1] + 1 && g[k - 1] < g[l - 1];
      }
    }
  }

  /** The strip is a sub-sequence of the segment it is drawn from. */
  lemma {:induction false} StripEmbeds(ps: seq<Point>, center: int, window: int) returns (f: seq<int>)
    ensures Embeds(Strip(ps, center, window), ps, f)
  {
    if ps == [] {
      f := [];
    } else {
      var x, rest := ps[0], ps[1..];
      assert ps == [x] + rest;
      var g := StripEmbeds(rest, center, window);
      if Abs(x.day - center) < window {
        EmbedsKeep(x, Strip(rest, center, window), rest, g);
        f := [0] + Shift(g);
      } else {
        EmbedsSkip(x, Strip(rest, center, window), rest, g);
        f := Shift(g);
      }
    }
  }

  /** A narrower strip is a sub-sequence of a wider one around the same date. */
  lemma {:induction false} NarrowStripEmbeds(ps: seq<Point>, center: int, narrow: int, wide: int) returns (f: seq<int>)
    requires narrow <= wide
    ensures Embeds(Strip(ps, center, narrow), Strip(ps, center, wide), f)
  {
    if ps == [] {
      f := [];
    } else {
      var x, rest := ps[0], ps[1..];
      var n, w := Strip(rest, center, narrow), Strip(rest, center, wide);
      var g := NarrowStripEmbeds(rest, center, narrow, wide);
      if Abs(x.day - center) < narrow {
        assert Strip(ps, center, narrow) == [x] + n && Strip(ps, center, wide) == [x] + w;
        EmbedsKeep(x, n, w, g);
        f := [0] + Shift(g);
      } else if Abs(x.day - center) < wide {
        assert Strip(ps, center, narrow) == n && Strip(ps, center, wide) == [x] + w;
        EmbedsSkip(x, n, w, g);
        f := Shift(g);
      } else {
        assert Strip(ps, center, narrow) == n && Strip(ps, center, wide) == w;
        f := g;
      }
    }
  }

  /** Soundness of the recursive scan: everything it reports, the brute-force
      scan of the whole list reports too, so every record is the record of
      two input points on different days moving faster than `threshold` per
      day. Fewer than two points give no record. */
  lemma {:induction false} ScanSound(ps: seq<Point>, threshold: real, window: int)
    ensures forall c :: c in Scan(ps, threshold, window) ==> c in BruteForceChanges(ps, threshold)
    ensures |ps| <= 1 ==> Scan(ps, threshold, window) == []
    decreases |ps|
  {
    if |ps| > 3 {
      var mid := |ps| / 2;
      ScanSound(ps[..mid], threshold, window);
      ScanSound(ps[mid..], threshold, window);
      BruteForceSubsequence(ps[..mid], ps, threshold, seq(mid, k requires 0 <= k < mid => k));
      BruteForceSubsequence(ps[mid..], ps, threshold, seq(|ps| - mid, k requires 0 <= k < |ps| - mid => mid + k));
      var f := StripEmbeds(ps, ps[mid].day, window);
      BruteForceSubsequence(Strip(ps, ps[mid].day, window), ps, threshold, f);
    } else if |ps| == 1 {
      assert RowChanges(ps, threshold, 0, 1) == [];
      assert ChangesBefore(ps, threshold, 1) == [];
    }
  }

  /** A wider strip never loses a record: everything the scan reports with
      window `narrow` it also reports with window `wide`. */
  lemma {:induction false} WiderWindowKeepsChanges(ps: seq<Point>, threshold: real, narrow: int, wide: int)
    requires narrow <= wide
    ensures forall c :: c in Scan(ps, threshold, narrow) ==> c in Scan(ps, threshold, wide)
    decreases |ps|
  {
    if |ps| > 3 {
      var mid := |ps| / 2;
      WiderWindowKeepsChanges(ps[..mid], threshold, narrow, wide);
      WiderWindowKeepsChanges(ps[mid..], threshold, narrow, wide);
      var f := NarrowStripEmbeds(ps, ps[mid].day, narrow, wide);
      BruteForceSubsequence(Strip(ps, ps[mid].day, narrow), Strip(ps, ps[mid].day, wide), threshold, f);
    }
  }

  /** The scan misses pairs that straddle a split when the earlier point
      lies 10 or more days before the midpoint's date: with four points on
      increasing days, a qualifying pair of the second and third points is
      reported by the brute-force scan but not by the recursive scan. (Days
      0, 20, 40, 60 with prices 0, 0, 1000, 0 and threshold 1 are such an
      input.) */
  lemma ScanMissesPair(ps: seq<Point>, threshold: real)
    requires |ps| == 4 && ps[0].day < ps[1].day < ps[2].day < ps[3].day
    requires Significant(ps[1], ps[2], threshold) && ps[2].day - ps[1].day >= Window
    ensures ChangeOf(ps[1], ps[2]) in BruteForceChanges(ps, threshold)
    ensures ChangeOf(ps[1], ps[2]) !in Scan(ps, threshold, Window)
  {
    var c := ChangeOf(ps[1], ps[2]);
    BruteForceMembership(ps, threshold, c);
    assert 0 <= 1 < 2 < |ps| && Significant(ps[1], ps[2], threshold) && c == ChangeOf(ps[1], ps[2]);
    var left, right := ps[..2], ps[2..];
    var strip := Strip(ps, ps[2].day, Window);
    ScanOfFour(ps, threshold, Window);
    assert left == [ps[0], ps[1]] && right == [ps[2], ps[3]];
    if c in BruteForceChanges(left, threshold) {
      BruteForceEndpoints(left, threshold, c);
      assert false;
    }
    if c in BruteForceChanges(right, threshold) {
      BruteForceEndpoints(right, threshold, c);
      assert false;
    }
    if c in BruteForceChanges(strip, threshold) {
      BruteForceEndpoints(strip, threshold, c);
      assert false;
    }
  }

  /** Both points of every brute-force record come from the scanned list. */
  lemma BruteForceEndpoints(ps: seq<Point>, threshold: real, c: Change)
    requires c in BruteForceChanges(ps, threshold)
    ensures c.first in ps && c.second in ps
  {
    BruteForceMembership(ps, threshold, c);
    var i, j :| 0 <= i < j < |ps| && Significant(ps[i], ps[j], threshold) && c == ChangeOf(ps[i], ps[j]);
  }

  /** The scan can report the same pair twice: with four points, when the
      first two pass the test and both lie inside the strip around the
      third point's date, their record is reported by the scan of the first
      half and again, first of all, by the strip scan. (Days 0, 1, 2, 3 with
      prices 0, 100, 0, 100 and threshold 10 are such an input.) */
  lemma ScanRepeatsPairs(ps: seq<Point>, threshold: real)
    requires |ps| == 4 && Significant(ps[0], ps[1], threshold)
    requires Abs(ps[0].day - ps[2].day) < Window && Abs(ps[1].day - ps[2].day) < Window
    ensures var out := Scan(ps, threshold, Window);
      var again := 1 + |Scan(ps[2..], threshold, Window)|;
      again < |out| && out[0] == out[again] == ChangeOf(ps[0], ps[1])
  {
    var c := ChangeOf(ps[0], ps[1]);
    var left, right := ps[..2], ps[2..];
    var strip := Strip(ps, ps[2].day, Window);
    ScanOfFour(ps, threshold, Window);
    assert left == [ps[0], ps[1]];
    BruteForceOfPair(ps[0], ps[1], threshold);
    assert Scan(left, threshold, Window) == [c];
    StripStartsWith(ps, ps[2].day, Window);
    BruteForceStartsWith(strip, threshold);
  }

  /** One level of the recursive scan on four points. */
  lemma ScanOfFour(ps: seq<Point>, threshold: real, window: int)
    requires |ps| == 4
    ensures Scan(ps, threshold, window) == Scan(ps[..2], threshold, window) + Scan(ps[2..], threshold, window)
      + BruteForceChanges(Strip(ps, ps[2].day, window), threshold)
  {
  }

  /** When the first two points lie inside the window, they open the strip. */
  lemma StripStartsWith(ps: seq<Point>, center: int, window: int)
    requires |ps| >= 2 && Abs(ps[0].day - center) < window && Abs(ps[1].day - center) < window
    ensures var r := Strip(ps, center, window); |r| >= 2 && r[0] == ps[0] && r[1] == ps[1]
  {
    assert Strip(ps[1..], center, window) == [ps[1]] + Strip(ps[2..], center, window) by {
      assert ps[1..][0] == ps[1] && ps[1..][1..] == ps[2..];
    }
  }

  /** When the first two points pass the test, their record comes first. */
  lemma BruteForceStartsWith(ps: seq<Point>, threshold: real)
    requires |ps| >= 2 && Significant(ps[0], ps[1], threshold)
    ensures var r := BruteForceChanges(ps, threshold); |r| > 0 && r[0] == ChangeOf(ps[0], ps[1])
  {
    ChangesBeforeStartsWith(ps, threshold, |ps|);
  }

  lemma {:induction false} ChangesBeforeStartsWith(ps: seq<Point>, threshold: real, i: int)
    requires 1 <= i <= |ps| && |ps| >= 2 && Significant(ps[0], ps[1], threshold)
    ensures var r := ChangesBefore(ps, threshold, i); |r| > 0 && r[0] == ChangeOf(ps[0], ps[1])
  {
    if i == 1 {
      RowChangesStartWith(ps, threshold, |ps|);
      assert ChangesBefore(ps, threshold, 1) == [] + RowChanges(ps, threshold, 0, |ps|);
    } else {
      ChangesBeforeStartsWith(ps, threshold, i - 1);
    }
  }

  lemma {:induction false} RowChangesStartWith(ps: seq<Point>, threshold: real, j: int)
    requires 2 <= j <= |ps| && Significant(ps[0], ps[1], threshold)
    ensures var r := RowChanges(ps, threshold, 0, j); |r| > 0 && r[0] == ChangeOf(ps[0], ps[1])
    decreases j
  {
    if j == 2 {
      assert RowChanges(ps, threshold, 0, 2) == [] + [ChangeOf(ps[0], ps[1])];
    } else {
      RowChangesStartWith(ps, threshold, j - 1);
    }
  }

  /** The brute-force scan of two points that pass the test reports their pair. */
  lemma BruteForceOfPair(p: Point, q: Point, threshold: real)
    requires Significant(p, q, threshold)
    ensures BruteForceChanges([p, q], threshold) == [ChangeOf(p, q)]
  {
    var ps := [p, q];
    assert RowChanges(ps, threshold, 0, 2) == [ChangeOf(p, q)];
    assert RowChanges(ps, threshold, 1, 2) == [];
    assert ChangesBefore(ps, threshold, 1) == [ChangeOf(p, q)];
  }
}
