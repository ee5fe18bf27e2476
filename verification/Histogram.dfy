/**
 Worker write attribution: the collector of rust/src/db/qualification.rs, and the snapshot
 validation and interval deltas of scripts/qualification_sbc.py.
 */
module Histogram {
  import opened Json
  import opened Text
  import Transactions

  const BUCKETS := 8
  const U64_MAX := Transactions.U64_MAX

  type Kind = Transactions.Kind

  datatype Bound = Bytes(n: nat) | Unbounded

  /** Upper bound of each histogram cell; the last one has none. */
  const BOUNDS: seq<Bound> :=
    [Bytes(0), Bytes(4096), Bytes(16384), Bytes(65536), Bytes(262144), Bytes(1048576), Bytes(4194304), Unbounded]

  predicate Within(bytes: nat, bound: Bound) {
    bound.Unbounded? || bytes <= bound.n
  }

  function Larger(a: Bound, b: Bound): Bound {
    if a.Unbounded? || (b.Bytes? && b.n <= a.n) then a else b
  }

  datatype Bucket = Bucket(count: nat, sumBytes: nat, maxBytes: nat, histogram: seq<nat>)

  datatype Attribution = Attribution(enabled: bool, publication: Bucket, finalization: Bucket, other: Bucket)
  {
    function Of(kind: Kind): Bucket {
      match kind
      case Publication => publication
      case Finalization => finalization
      case Other => other
    }
  }

  function Sum(s: seq<int>): int {
    if s == [] then 0 else s[0] + Sum(s[1..])
  }

  // ----- snapshot validation -----

  datatype Error =
    | Missing | Invalid | CollectionFailed | BoundsInvalid | NotScalar | HistogramInvalid | CountMismatch
    | StateChanged | AggregateDecreased | HistogramDecreased | DeltaMismatch

  const BOUNDS_JSON: seq<Json> :=
    [Int(0), Int(4096), Int(16384), Int(65536), Int(262144), Int(1048576), Int(4194304), Null]

  function NaturalValues(items: seq<Json>): (r: seq<nat>)
    requires forall i :: 0 <= i < |items| ==> IsNatural(items[i])
    ensures |r| == |items|
  {
    seq(|items|, i requires 0 <= i < |items| && IsNatural(items[i]) => AsInt(items[i]) as nat)
  }

  function ReadBucket(raw: Json): Result<Bucket, Error> {
    if !raw.Object? then Err(Invalid) else
    var count, sum, max := Get(raw.fields, "count"), Get(raw.fields, "sum_write_bytes"), Get(raw.fields, "max_write_bytes");
    var histogram := Get(raw.fields, "histogram");
    if !IsNatural(count) || !IsNatural(sum) || !IsNatural(max) then Err(NotScalar)
    else if !histogram.List? then Err(HistogramInvalid)
    else if |histogram.items| != BUCKETS || exists i :: 0 <= i < |histogram.items| && !IsNatural(histogram.items[i]) then
      Err(HistogramInvalid)
    else
      var cells := NaturalValues(histogram.items);
      if Sum(cells) != AsInt(count) then Err(CountMismatch)
      else Ok(Bucket(AsInt(count), AsInt(sum), AsInt(max), cells))
  }

  /** `_qualification_worker_io_attribution`. */
  function ReadAttribution(runtime: map<string, Json>): Result<Attribution, Error> {
    var snapshot := Get(runtime, "database_qualification");
    if !snapshot.Object? then Err(Missing) else
    var raw := Get(snapshot.fields, "worker_io_attribution");
    if !raw.Object? then Err(Invalid) else
    var enabled, failed := Get(raw.fields, "enabled"), Get(raw.fields, "failed");
    if !enabled.Bool? || !failed.Bool? then Err(Invalid)
    else if failed.b then Err(CollectionFailed)
    else if Get(raw.fields, "histogram_upper_bounds_bytes") != List(BOUNDS_JSON) then Err(BoundsInvalid)
    else match ReadBucket(Get(raw.fields, "publication"))
      case Err(e) => Err(e)
      case Ok(publication) =>
        match ReadBucket(Get(raw.fields, "finalization"))
        case Err(e) => Err(e)
        case Ok(finalization) =>
          match ReadBucket(Get(raw.fields, "other"))
          case Err(e) => Err(e)
          case Ok(other) => Ok(Attribution(enabled.b, publication, finalization, other))
  }

  /** What validation establishes about one bucket. */
  predicate ValidBucket(b: Bucket) {
    |b.histogram| == BUCKETS && Sum(b.histogram) == b.count
  }

  predicate Valid(a: Attribution) {
    ValidBucket(a.publication) && ValidBucket(a.finalization) && ValidBucket(a.other)
  }

  lemma ReadIsValid(runtime: map<string, Json>)
    ensures ReadAttribution(runtime).Ok? ==> Valid(ReadAttribution(runtime).value)
  {}

  // ----- interval deltas -----

  datatype BucketDelta = BucketDelta(count: nat, sumBytes: nat, histogram: seq<nat>, bound: Bound)

  datatype Delta = Delta(enabled: bool, publication: BucketDelta, finalization: BucketDelta, other: BucketDelta)
  {
    function Of(kind: Kind): BucketDelta {
      match kind
      case Publication => publication
      case Finalization => finalization
      case Other => other
    }
  }

  /** Index of the highest non-empty cell, or -1. */
  function Top(cells: seq<nat>): (t: int)
    ensures -1 <= t < |cells|
    ensures t >= 0 ==> cells[t] != 0
    ensures forall i :: t < i < |cells| ==> cells[i] == 0
  {
    if cells == [] then -1
    else if cells[|cells| - 1] != 0 then |cells| - 1
    else Top(cells[..|cells| - 1])
  }

  function BoundOf(cells: seq<nat>): Bound
    requires |cells| == BUCKETS
  {
    var t := Top(cells);
    if t == -1 then Bytes(0) else BOUNDS[t]
  }

  function Minus(after: seq<nat>, before: seq<nat>): (r: seq<int>)
    requires |after| == |before|
    ensures |r| == |after|
  {
    seq(|after|, i requires 0 <= i < |after| => (after[i] as int) - before[i])
  }

  function DeltaBucket(before: Bucket, after: Bucket): Result<BucketDelta, Error>
    requires |before.histogram| == |after.histogram| == BUCKETS
  {
    if after.count < before.count || after.sumBytes < before.sumBytes then Err(AggregateDecreased) else
    var cells := Minus(after.histogram, before.histogram);
    if exists i :: 0 <= i < |cells| && cells[i] < 0 then Err(HistogramDecreased)
    else if Sum(cells) != after.count - before.count then Err(DeltaMismatch)
    else
      var naturals: seq<nat> := cells;
      Ok(BucketDelta(after.count - before.count, after.sumBytes - before.sumBytes, naturals, BoundOf(naturals)))
  }

  /** `_worker_io_attribution_deltas`; `zip(strict=True)` is the equal-length requirement. */
  function Deltas(before: Attribution, after: Attribution): Result<Delta, Error>
    requires Valid(before) && Valid(after)
  {
    if before.enabled != after.enabled then Err(StateChanged) else
    match DeltaBucket(before.publication, after.publication)
    case Err(e) => Err(e)
    case Ok(publication) =>
      match DeltaBucket(before.finalization, after.finalization)
      case Err(e) => Err(e)
      case Ok(finalization) =>
        match DeltaBucket(before.other, after.other)
        case Err(e) => Err(e)
        case Ok(other) => Ok(Delta(after.enabled, publication, finalization, other))
  }

  // ----- composition -----

  function Plus(a: seq<nat>, b: seq<nat>): (r: seq<nat>)
    requires |a| == |b|
    ensures |r| == |a|
  {
    seq(|a|, i requires 0 <= i < |a| => a[i] + b[i])
  }

  function Compose(p: BucketDelta, q: BucketDelta): BucketDelta
    requires |p.histogram| == |q.histogram|
  {
    BucketDelta(p.count + q.count, p.sumBytes + q.sumBytes, Plus(p.histogram, q.histogram), Larger(p.bound, q.bound))
  }

  lemma {:induction false} SumMinus(after: seq<nat>, before: seq<nat>)
    requires |after| == |before|
    ensures Sum(Minus(after, before)) == Sum(after) - Sum(before)
  {
    if after != [] {
      assert Minus(after, before)[1..] == Minus(after[1..], before[1..]);
      SumMinus(after[1..], before[1..]);
    }
  }

  lemma LargerBound(i: nat, j: nat)
    requires i <= j < BUCKETS
    ensures Larger(BOUNDS[i], BOUNDS[j]) == BOUNDS[j] == Larger(BOUNDS[j], BOUNDS[i])
  {}

  lemma BoundOfPlus(a: seq<nat>, b: seq<nat>)
    requires |a| == |b| == BUCKETS
    ensures BoundOf(Plus(a, b)) == Larger(BoundOf(a), BoundOf(b))
  {
    var s, t, u := Top(a), Top(b), Top(Plus(a, b));
    assert u >= s by { if s >= 0 { assert Plus(a, b)[s] != 0; } }
    assert u >= t by { if t >= 0 { assert Plus(a, b)[t] != 0; } }
    assert u == s || u == t by { if u >= 0 { assert Plus(a, b)[u] == a[u] + b[u]; } }
    if s >= 0 && t >= 0 {
      if s <= t { LargerBound(s, t); } else { LargerBound(t, s); }
    } else if s >= 0 {
      LargerBound(0, s);
    } else if t >= 0 {
      LargerBound(0, t);
    }
  }

  /** On validated snapshots the delta of a bucket fails only because something decreased. */
  lemma DeltaBucketSucceeds(before: Bucket, after: Bucket)
    requires ValidBucket(before) && ValidBucket(after)
    ensures DeltaBucket(before, after) != Err(DeltaMismatch)
    ensures DeltaBucket(before, after).Ok? <==>
              before.sumBytes <= after.sumBytes && before.count <= after.count &&
              forall i :: 0 <= i < BUCKETS ==> before.histogram[i] <= after.histogram[i]
  {
    SumMinus(after.histogram, before.histogram);
    var cells := Minus(after.histogram, before.histogram);
    assert forall i :: 0 <= i < BUCKETS ==> cells[i] == (after.histogram[i] as int) - before.histogram[i];
  }

  lemma DeltaBucketsCompose(a: Bucket, b: Bucket, c: Bucket)
    requires ValidBucket(a) && ValidBucket(b) && ValidBucket(c)
    requires DeltaBucket(a, b).Ok? && DeltaBucket(b, c).Ok?
    ensures DeltaBucket(a, c).Ok?
    ensures |DeltaBucket(a, b).value.histogram| == |DeltaBucket(b, c).value.histogram|
    ensures DeltaBucket(a, c).value == Compose(DeltaBucket(a, b).value, DeltaBucket(b, c).value)
  {
    DeltaBucketSucceeds(a, b);
    DeltaBucketSucceeds(b, c);
    DeltaBucketSucceeds(a, c);
    var p, q, r := DeltaBucket(a, b).value, DeltaBucket(b, c).value, DeltaBucket(a, c).value;
    assert r.histogram == Plus(p.histogram, q.histogram);
    BoundOfPlus(p.histogram, q.histogram);
  }

  /** Adjacent intervals add up: counts, bytes and cells sum, and the size bound is the larger one. */
  lemma DeltasCompose(a: Attribution, b: Attribution, c: Attribution)
    requires Valid(a) && Valid(b) && Valid(c)
    requires Deltas(a, b).Ok? && Deltas(b, c).Ok?
    ensures Deltas(a, c).Ok?
    ensures forall kind: Kind ::
              && |Deltas(a, b).value.Of(kind).histogram| == |Deltas(b, c).value.Of(kind).histogram|
              && Deltas(a, c).value.Of(kind) == Compose(Deltas(a, b).value.Of(kind), Deltas(b, c).value.Of(kind))
  {
    DeltaBucketsCompose(a.publication, b.publication, c.publication);
    DeltaBucketsCompose(a.finalization, b.finalization, c.finalization);
    DeltaBucketsCompose(a.other, b.other, c.other);
  }

  /** The mismatch check on deltas is dead on validated snapshots. */
  lemma DeltaMismatchNeverFires(a: Attribution, b: Attribution)
    requires Valid(a) && Valid(b)
    ensures Deltas(a, b) != Err(DeltaMismatch)
  {
    DeltaBucketSucceeds(a.publication, b.publication);
    DeltaBucketSucceeds(a.finalization, b.finalization);
    DeltaBucketSucceeds(a.other, b.other);
  }

  // ----- the collector behind the snapshots -----

  function SaturatingAdd(a: nat, b: nat): nat {
    if a + b <= U64_MAX then a + b else U64_MAX
  }

  /** First cell whose bound admits the write, else the last one. */
  function CellFrom(bytes: nat, i: nat): (c: nat)
    requires i < BUCKETS
    ensures i <= c < BUCKETS && Within(bytes, BOUNDS[c])
    ensures forall j :: i <= j < c ==> !Within(bytes, BOUNDS[j])
    decreases BUCKETS - i
  {
    if i == BUCKETS - 1 || Within(bytes, BOUNDS[i]) then i else CellFrom(bytes, i + 1)
  }

  const EMPTY := Bucket(0, 0, 0, [0, 0, 0, 0, 0, 0, 0, 0])

  /** `record_worker_io` on the bucket of one transaction kind. */
  function Record(b: Bucket, bytes: nat): (r: Bucket)
    requires |b.histogram| == BUCKETS
    ensures |r.histogram| == BUCKETS
  {
    var cell := CellFrom(bytes, 0);
    Bucket(SaturatingAdd(b.count, 1), SaturatingAdd(b.sumBytes, bytes), if b.maxBytes < bytes then bytes else b.maxBytes,
           b.histogram[cell := SaturatingAdd(b.histogram[cell], 1)])
  }

  /** The bucket after a log of writes. */
  function Collected(writes: seq<nat>): (r: Bucket)
    ensures |r.histogram| == BUCKETS
  {
    if writes == [] then EMPTY else Record(Collected(writes[..|writes| - 1]), writes[|writes| - 1])
  }

  /** How many writes fall in a cell. */
  function InCell(writes: seq<nat>, cell: nat): (n: nat)
    ensures n <= |writes|
  {
    if writes == [] then 0
    else InCell(writes[..|writes| - 1], cell) + (if CellFrom(writes[|writes| - 1], 0) == cell then 1 else 0)
  }

  lemma {:induction false} SumUpdate(cells: seq<nat>, i: nat, v: nat)
    requires i < |cells|
    ensures Sum(cells[i := v]) == Sum(cells) - cells[i] + v
  {
    if i == 0 {
      assert cells[0 := v][1..] == cells[1..];
    } else {
      assert cells[i := v][1..] == cells[1..][i - 1 := v];
      SumUpdate(cells[1..], i - 1, v);
    }
  }

  function Total(writes: seq<nat>): nat {
    if writes == [] then 0 else Total(writes[..|writes| - 1]) + writes[|writes| - 1]
  }

  ghost predicate IsMaximum(writes: seq<nat>, max: nat) {
    (forall i :: 0 <= i < |writes| ==> writes[i] <= max) && if writes == [] then max == 0 else max in writes
  }

  /** The sum is that of the log up to the 64-bit limit, and the maximum is that of the log. */
  lemma {:induction false} CollectedBytes(writes: seq<nat>)
    ensures Collected(writes).sumBytes == if Total(writes) <= U64_MAX then Total(writes) else U64_MAX
    ensures IsMaximum(writes, Collected(writes).maxBytes)
  {
    if writes != [] {
      var init, last := writes[..|writes| - 1], writes[|writes| - 1];
      CollectedBytes(init);
      assert writes == init + [last];
    }
  }

  lemma {:induction false} TotalConcat(a: seq<nat>, b: seq<nat>)
    ensures Total(a + b) == Total(a) + Total(b)
  {
    if b == [] {
      assert a + b == a;
    } else {
      assert (a + b)[..|a + b| - 1] == a + b[..|b| - 1];
      TotalConcat(a, b[..|b| - 1]);
    }
  }

  lemma {:induction false} TotalZero(writes: seq<nat>)
    ensures Total(writes) == 0 <==> forall i :: 0 <= i < |writes| ==> writes[i] == 0
  {
    if writes != [] {
      var init := writes[..|writes| - 1];
      TotalZero(init);
      assert forall i :: 0 <= i < |init| ==> init[i] == writes[i];
    }
  }

  lemma {:induction false} CollectedCells(writes: seq<nat>)
    requires |writes| <= U64_MAX
    ensures Collected(writes).count == |writes|
    ensures forall c :: 0 <= c < BUCKETS ==> Collected(writes).histogram[c] == InCell(writes, c)
    ensures ValidBucket(Collected(writes))
  {
    if writes == [] {
      ZeroSum(EMPTY.histogram);
    } else {
      var init := writes[..|writes| - 1];
      CollectedCells(init);
      var cell := CellFrom(writes[|writes| - 1], 0);
      SumUpdate(Collected(init).histogram, cell, Collected(init).histogram[cell] + 1);
    }
  }

  /**
   The collector's bucket holds the count, histogram and maximum of the log, as long as the 64-bit count does not
   saturate, and its sum as long as that does not.
   */
  lemma {:induction false} CollectedExact(writes: seq<nat>)
    requires |writes| <= U64_MAX
    ensures Collected(writes).count == |writes|
    ensures forall c :: 0 <= c < BUCKETS ==> Collected(writes).histogram[c] == InCell(writes, c)
    ensures ValidBucket(Collected(writes))
    ensures Total(writes) <= U64_MAX <==> Collected(writes).sumBytes == Total(writes)
    ensures IsMaximum(writes, Collected(writes).maxBytes)
  {
    CollectedCells(writes);
    CollectedBytes(writes);
  }

  lemma {:induction false} ZeroSum(cells: seq<nat>)
    requires forall i :: 0 <= i < |cells| ==> cells[i] == 0
    ensures Sum(cells) == 0
  {
    if cells != [] { ZeroSum(cells[1..]); }
  }

  lemma {:induction false} InCellConcat(a: seq<nat>, b: seq<nat>, cell: nat)
    ensures InCell(a + b, cell) == InCell(a, cell) + InCell(b, cell)
  {
    if b == [] {
      assert a + b == a;
    } else {
      assert (a + b)[..|a + b| - 1] == a + b[..|b| - 1];
      InCellConcat(a, b[..|b| - 1], cell);
    }
  }

  lemma {:induction false} InCellWitness(writes: seq<nat>, cell: nat)
    ensures InCell(writes, cell) != 0 <==> exists i :: 0 <= i < |writes| && CellFrom(writes[i], 0) == cell
  {
    if writes != [] {
      var init := writes[..|writes| - 1];
      InCellWitness(init, cell);
      assert forall i :: 0 <= i < |init| ==> init[i] == writes[i];
    }
  }

  /** Admitted by the bound and, unless nothing was written, not by any smaller cell bound. */
  ghost predicate IsTightBound(writes: seq<nat>, bound: Bound) {
    && (forall i :: 0 <= i < |writes| ==> Within(writes[i], bound))
    && (writes == [] ==> bound == Bytes(0))
    && (forall c :: 0 <= c < BUCKETS && Larger(BOUNDS[c], bound) != BOUNDS[c] ==>
          exists i :: 0 <= i < |writes| && !Within(writes[i], BOUNDS[c]))
  }

  /**
   What the reported delta means: taken around any further writes, it succeeds, counts them, and its
   size bound is the least cell bound that admits every one of them. Its bytes are theirs if and only if
   the 64-bit sum had room for them, or they were all empty.
   */
  lemma {:induction false} DeltaDescribesWrites(before: seq<nat>, between: seq<nat>)
    requires |before| + |between| <= U64_MAX
    ensures var d := DeltaBucket(Collected(before), Collected(before + between));
            && d.Ok?
            && d.value.count == |between|
            && (forall c :: 0 <= c < BUCKETS ==> |d.value.histogram| == BUCKETS && d.value.histogram[c] == InCell(between, c))
            && IsTightBound(between, d.value.bound)
            && (d.value.sumBytes == Total(between) <==>
                  Total(before + between) <= U64_MAX || forall i :: 0 <= i < |between| ==> between[i] == 0)
  {
    var after := before + between;
    CollectedCells(before);
    CollectedCells(after);
    CollectedBytes(before);
    CollectedBytes(after);
    TotalConcat(before, between);
    TotalZero(between);
    forall c: nat { InCellConcat(before, between, c); }
    DeltaBucketSucceeds(Collected(before), Collected(after));
    var d := DeltaBucket(Collected(before), Collected(after)).value;
    assert forall c :: 0 <= c < BUCKETS ==> d.histogram[c] == InCell(between, c);
    TopCellIsTight(between, d.histogram);
  }

  lemma {:induction false} TopCellIsTight(writes: seq<nat>, cells: seq<nat>)
    requires |cells| == BUCKETS && forall c :: 0 <= c < BUCKETS ==> cells[c] == InCell(writes, c)
    ensures IsTightBound(writes, BoundOf(cells))
  {
    var t, bound := Top(cells), BoundOf(cells);
    forall i | 0 <= i < |writes| ensures t >= 0 && Within(writes[i], bound) {
      var c := CellFrom(writes[i], 0);
      InCellWitness(writes, c);
      assert c <= t;
      WithinMonotone(writes[i], c, t);
    }
    forall c: nat | t <= c < BUCKETS ensures Larger(BOUNDS[c], bound) == BOUNDS[c] { LargerBound(if t < 0 then 0 else t, c); }
    forall c | 0 <= c < BUCKETS && Larger(BOUNDS[c], bound) != BOUNDS[c]
      ensures exists i :: 0 <= i < |writes| && !Within(writes[i], BOUNDS[c])
    {
      InCellWitness(writes, t);
      var i :| 0 <= i < |writes| && CellFrom(writes[i], 0) == t;
      assert !Within(writes[i], BOUNDS[c]);
    }
  }

  lemma WithinMonotone(bytes: nat, c: nat, t: nat)
    requires c <= t < BUCKETS && Within(bytes, BOUNDS[c])
    ensures Within(bytes, BOUNDS[t])
  {}
}
