/** Nearest-rank percentiles of scripts/qualification_sbc.py. */
module Percentile {
  import opened Text

  ghost predicate Sorted(s: seq<int>) {
    forall i, j :: 0 <= i <= j < |s| ==> s[i] <= s[j]
  }

  lemma SortedCons(x: int, s: seq<int>)
    requires Sorted(s) && forall y :: y in s ==> x <= y
    ensures Sorted([x] + s)
  {
    var r := [x] + s;
    forall i, j | 0 <= i <= j < |r| ensures r[i] <= r[j] {
      if 0 < i { assert r[i] == s[i - 1] && r[j] == s[j - 1]; }
      else if 0 < j { assert r[j] == s[j - 1] && s[j - 1] in s; }
    }
  }

  function Insert(x: int, s: seq<int>): (r: seq<int>)
    requires Sorted(s)
    ensures Sorted(r) && |r| == |s| + 1
    ensures forall y :: y in r <==> y == x || y in s
  {
    if s == [] then [x]
    else if x <= s[0] then SortedCons(x, s); [x] + s
    else
      var r := Insert(x, s[1..]);
      assert s == [s[0]] + s[1..];
      SortedCons(s[0], r);
      [s[0]] + r
  }

  /** Python's `sorted`. */
  function Sort(s: seq<int>): (r: seq<int>)
    ensures Sorted(r) && |r| == |s|
    ensures forall y :: y in r <==> y in s
  {
    if s == [] then [] else Insert(s[0], Sort(s[1..]))
  }

  lemma {:induction false} InsertPermutes(x: int, s: seq<int>)
    requires Sorted(s)
    ensures multiset(Insert(x, s)) == multiset(s) + multiset{x}
  {
    if s != [] {
      assert s == [s[0]] + s[1..];
      if x > s[0] { InsertPermutes(x, s[1..]); }
    }
  }

  lemma {:induction false} SortPermutes(s: seq<int>)
    ensures multiset(Sort(s)) == multiset(s)
  {
    if s != [] {
      assert s == [s[0]] + s[1..];
      SortPermutes(s[1..]);
      InsertPermutes(s[0], Sort(s[1..]));
    }
  }

  /** How many members of the sample are at or below `v`. */
  function AtMost(s: seq<int>, v: int): (n: nat)
    ensures n <= |s|
  {
    if s == [] then 0 else (if s[0] <= v then 1 else 0) + AtMost(s[1..], v)
  }

  function Rank(n: nat, percentile: int): int {
    var r := (n * percentile + 99) / 100;
    if r < 1 then 1 else r
  }

  /** `_percentile`: floor division and the clamps at both ends are the source's. */
  function Percentile(values: seq<int>, percentile: int): Option<int> {
    if values == [] then None else
    var ordered := Sort(values);
    var rank := Rank(|ordered|, percentile);
    Some(ordered[if rank - 1 < |ordered| - 1 then rank - 1 else |ordered| - 1])
  }

  // ----- the reference definition -----

  /** At least `percentile` percent of the sample is at or below `v`. */
  predicate Covers(values: seq<int>, percentile: int, v: int) {
    100 * AtMost(values, v) >= percentile * |values|
  }

  /** The least sample value that covers. */
  predicate IsNearestRank(values: seq<int>, percentile: int, v: int) {
    && v in values
    && Covers(values, percentile, v)
    && forall w :: w in values && Covers(values, percentile, w) ==> v <= w
  }

  // ----- counting is order-free -----

  lemma {:induction false} AtMostRemove(s: seq<int>, i: nat, v: int)
    requires i < |s|
    ensures AtMost(s, v) == (if s[i] <= v then 1 else 0) + AtMost(s[..i] + s[i + 1..], v)
  {
    if i == 0 {
      assert s[..0] + s[1..] == s[1..];
    } else {
      var t := s[..i] + s[i + 1..];
      assert t[1..] == s[1..][..i - 1] + s[1..][i..];
      AtMostRemove(s[1..], i - 1, v);
    }
  }

  lemma MultisetRemove(t: seq<int>, i: nat)
    requires i < |t|
    ensures multiset(t[..i] + t[i + 1..]) == multiset(t) - multiset{t[i]}
  {
    assert t == t[..i] + [t[i]] + t[i + 1..];
    assert multiset(t) == multiset(t[..i]) + multiset{t[i]} + multiset(t[i + 1..]);
  }

  lemma MultisetFirst(s: seq<int>)
    requires s != []
    ensures multiset(s[1..]) == multiset(s) - multiset{s[0]}
  {
    assert s[..0] + s[1..] == s[1..];
    MultisetRemove(s, 0);
  }

  lemma SameFirst(s: seq<int>, t: seq<int>) returns (i: nat)
    requires s != [] && multiset(s) == multiset(t)
    ensures i < |t| && t[i] == s[0] && multiset(s[1..]) == multiset(t[..i] + t[i + 1..])
  {
    assert s[0] in multiset(t);
    i :| 0 <= i < |t| && t[i] == s[0];
    MultisetFirst(s);
    MultisetRemove(t, i);
  }

  lemma {:induction false} AtMostPermutation(s: seq<int>, t: seq<int>, v: int)
    requires multiset(s) == multiset(t)
    ensures |s| == |t| && AtMost(s, v) == AtMost(t, v)
  {
    assert |multiset(s)| == |s| && |multiset(t)| == |t|;
    if s != [] {
      var i := SameFirst(s, t);
      AtMostPermutation(s[1..], t[..i] + t[i + 1..], v);
      AtMostRemove(t, i, v);
    }
  }

  lemma {:induction false} AtMostSortedAtLeast(s: seq<int>, k: nat, v: int)
    requires Sorted(s) && k < |s| && s[k] <= v
    ensures AtMost(s, v) > k
  {
    assert s[0] <= s[k];
    if k > 0 { AtMostSortedAtLeast(s[1..], k - 1, v); }
  }

  lemma {:induction false} AtMostSortedAtMost(s: seq<int>, k: nat, v: int)
    requires Sorted(s) && k < |s| && v < s[k]
    ensures AtMost(s, v) <= k
  {
    if k == 0 {
      NoneAtMost(s, v);
    } else {
      AtMostSortedAtMost(s[1..], k - 1, v);
    }
  }

  lemma {:induction false} NoneAtMost(s: seq<int>, v: int)
    requires forall i :: 0 <= i < |s| ==> v < s[i]
    ensures AtMost(s, v) == 0
  {
    if s != [] { NoneAtMost(s[1..], v); }
  }

  // ----- exactness -----

  lemma RankBounds(n: nat, percentile: int)
    requires n > 0 && 1 <= percentile <= 100
    ensures var rank := Rank(n, percentile); 1 <= rank <= n && 100 * (rank - 1) < percentile * n <= 100 * rank
  {
    var t := n * percentile;
    assert n <= t <= 100 * n;
  }

  lemma {:induction false} SortKeepsCounts(values: seq<int>, v: int)
    ensures AtMost(Sort(values), v) == AtMost(values, v)
  {
    SortPermutes(values);
    AtMostPermutation(Sort(values), values, v);
  }

  /** The computed percentile is the least sample value covering `percentile` percent of the sample. */
  lemma PercentileExact(values: seq<int>, percentile: int)
    requires values != [] && 1 <= percentile <= 100
    ensures Percentile(values, percentile).Some?
    ensures IsNearestRank(values, percentile, Percentile(values, percentile).value)
  {
    var s := Sort(values);
    RankBounds(|s|, percentile);
    var k := Rank(|s|, percentile) - 1;
    var v := s[k];
    assert v in s;
    SortKeepsCounts(values, v);
    AtMostSortedAtLeast(s, k, v);
    forall w | w in values && w < v ensures !Covers(values, percentile, w) {
      SortKeepsCounts(values, w);
      AtMostSortedAtMost(s, k, w);
    }
  }

  /** The reference definition has one solution, so it determines the result. */
  lemma PercentileUnique(values: seq<int>, percentile: int, v: int)
    requires values != [] && 1 <= percentile <= 100 && IsNearestRank(values, percentile, v)
    ensures Percentile(values, percentile) == Some(v)
  {
    PercentileExact(values, percentile);
  }

  /** Outside 1..100 the clamps apply: the minimum below, the maximum above. */
  lemma PercentileClamped(values: seq<int>, percentile: int)
    requires values != []
    ensures Percentile(values, percentile).Some?
    ensures percentile <= 0 ==> forall w :: w in values ==> Percentile(values, percentile).value <= w
    ensures percentile >= 100 ==> forall w :: w in values ==> w <= Percentile(values, percentile).value
  {
    var s := Sort(values);
    var n, t := |s|, |s| * percentile;
    assert percentile <= 0 ==> t <= 0;
    assert percentile >= 100 ==> t >= 100 * n;
    assert percentile <= 0 ==> Rank(n, percentile) == 1;
    assert percentile >= 100 ==> Rank(n, percentile) >= n;
    forall w | w in values ensures s[0] <= w <= s[n - 1] {
      assert w in s;
    }
  }

  lemma CoversIgnoresOrder(values: seq<int>, others: seq<int>, percentile: int, v: int)
    requires multiset(values) == multiset(others)
    ensures Covers(values, percentile, v) == Covers(others, percentile, v)
    ensures v in values <==> v in others
  {
    AtMostPermutation(values, others, v);
    assert v in values <==> v in multiset(values);
  }

  lemma PercentileIgnoresOrder(values: seq<int>, others: seq<int>, percentile: int)
    requires multiset(values) == multiset(others) && 1 <= percentile <= 100
    ensures Percentile(values, percentile) == Percentile(others, percentile)
  {
    assert |multiset(values)| == |values| && |multiset(others)| == |others|;
    if values != [] {
      PercentileExact(values, percentile);
      forall w { CoversIgnoresOrder(values, others, percentile, w); }
      PercentileUnique(others, percentile, Percentile(values, percentile).value);
    }
  }

  lemma CoversLess(values: seq<int>, p: int, q: int, v: int)
    requires p <= q && Covers(values, q, v)
    ensures Covers(values, p, v)
  {
    var n := |values|;
    assert (q - p) * n >= 0;
    assert q * n == p * n + (q - p) * n;
  }

  /** A larger percentage never gives a smaller value. */
  lemma PercentileMonotone(values: seq<int>, p: int, q: int)
    requires values != [] && 1 <= p <= q <= 100
    ensures Percentile(values, p).Some? && Percentile(values, q).Some?
    ensures Percentile(values, p).value <= Percentile(values, q).value
  {
    PercentileExact(values, p);
    PercentileExact(values, q);
    CoversLess(values, p, q, Percentile(values, q).value);
  }

  /** What the timing summaries report: p50 <= p95 <= p99, which is a sample value and so at most the maximum. */
  lemma SummaryOrdered(values: seq<int>)
    requires values != []
    ensures Percentile(values, 50).Some? && Percentile(values, 95).Some? && Percentile(values, 99).Some?
    ensures Percentile(values, 50).value <= Percentile(values, 95).value <= Percentile(values, 99).value
    ensures Percentile(values, 99).value in values
  {
    PercentileMonotone(values, 50, 95);
    PercentileMonotone(values, 95, 99);
    PercentileExact(values, 99);
  }
}
