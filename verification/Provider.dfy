/**
 The loopback provider of scripts/qualification_sbc.py: request counters and the bounded ring of
 provider-boundary timings. Every method holds the provider's lock for its whole body, so a run is
 a sequence of whole operations.
 */
module Provider {
  import opened Ring
  import opened Text

  const DIAGNOSTIC_MAX_SAMPLES := 200
  const BUCKETS: seq<string> := ["/chat/completions", "/responses", "/messages"]

  datatype Timing = Timing(sequence: int, receivedNs: int, finishedNs: int)

  datatype Profile = Instant | Mixed

  datatype State = State(requests: nat, pathCounts: seq<nat>, enabled: bool, sequence: nat,
                         timings: seq<Timing>, capacity: nat)

  datatype Operation =
    | Record(path: string)
    | Start(capacity: int)
    | Stop
    | Begin(nowNs: int)
    | End(timing: Timing)

  const INITIAL := State(0, [0, 0, 0], false, 0, [], DIAGNOSTIC_MAX_SAMPLES)

  // ----- single operations -----

  function ClampCapacity(requested: int): (c: nat)
    ensures 1 <= c <= DIAGNOSTIC_MAX_SAMPLES
  {
    var most := if requested < DIAGNOSTIC_MAX_SAMPLES then requested else DIAGNOSTIC_MAX_SAMPLES;
    if most < 1 then 1 else most
  }

  /** The first bucket the path ends with, or the number of buckets. */
  function BucketOf(path: string, i: nat): (b: nat)
    requires i <= |BUCKETS|
    ensures i <= b <= |BUCKETS|
    ensures b < |BUCKETS| ==> EndsWith(path, BUCKETS[b])
    ensures forall j :: i <= j < b ==> !EndsWith(path, BUCKETS[j])
    decreases |BUCKETS| - i
  {
    if i == |BUCKETS| || EndsWith(path, BUCKETS[i]) then i else BucketOf(path, i + 1)
  }

  function Apply(s: State, op: Operation): State {
    match op
    case Record(path) =>
      var b := BucketOf(path, 0);
      s.(requests := s.requests + 1,
         pathCounts := if b < |BUCKETS| && b < |s.pathCounts| then s.pathCounts[b := s.pathCounts[b] + 1] else s.pathCounts)
    case Start(requested) =>
      s.(enabled := true, sequence := 0, timings := [], capacity := ClampCapacity(requested))
    case Stop => s.(enabled := false)
    case Begin(_) => if s.enabled then s.(sequence := s.sequence + 1) else s
    case End(timing) => if s.enabled then s.(timings := Newest(s.timings + [timing], s.capacity)) else s
  }

  function Run(ops: seq<Operation>): State {
    if ops == [] then INITIAL else Apply(Run(ops[..|ops| - 1]), ops[|ops| - 1])
  }

  // ----- the provider object -----

  class LoopbackProvider {
    const profile: Profile
    var requests: nat
    var pathCounts: seq<nat>
    var enabled: bool
    var sequence: nat
    var timings: seq<Timing>
    var capacity: nat

    ghost function Value(): State
      reads this
    {
      State(requests, pathCounts, enabled, sequence, timings, capacity)
    }

    ghost predicate Valid()
      reads this
    {
      |pathCounts| == |BUCKETS| && 1 <= capacity && |timings| <= capacity
    }

    constructor (profile: Profile)
      ensures Valid() && Value() == INITIAL && this.profile == profile
    {
      this.profile := profile;
      requests, pathCounts := 0, [0, 0, 0];
      enabled, sequence, timings, capacity := false, 0, [], DIAGNOSTIC_MAX_SAMPLES;
    }

    /** `record`: counts one request and returns its service delay in milliseconds. */
    method RecordRequest(path: string) returns (delayMs: nat)
      requires Valid()
      modifies this
      ensures Valid() && Value() == Apply(old(Value()), Record(path))
      ensures profile == Instant ==> delayMs == 0
      ensures profile == Mixed ==> delayMs == [0, 0, 0, 10, 10, 50][old(requests) % 6]
    {
      requests := requests + 1;
      var i := 0;
      while i < |BUCKETS| && !EndsWith(path, BUCKETS[i])
        invariant i <= |BUCKETS| && BucketOf(path, 0) == BucketOf(path, i)
      {
        i := i + 1;
      }
      if i < |BUCKETS| {
        pathCounts := pathCounts[i := pathCounts[i] + 1];
      }
      delayMs := if profile == Mixed then [0, 0, 0, 10, 10, 50][(requests - 1) % 6] else 0;
    }

    method StartDiagnostic(requested: int)
      requires Valid()
      modifies this
      ensures Valid() && Value() == Apply(old(Value()), Start(requested))
    {
      enabled, sequence, timings, capacity := true, 0, [], ClampCapacity(requested);
    }

    method StopDiagnostic()
      requires Valid()
      modifies this
      ensures Valid() && Value() == Apply(old(Value()), Stop)
    {
      enabled := false;
    }

    method DiagnosticBegin(nowNs: int) returns (r: Option<(nat, int)>)
      requires Valid()
      modifies this
      ensures Valid() && Value() == Apply(old(Value()), Begin(nowNs))
      ensures r == if enabled then Some((sequence, nowNs)) else None
    {
      if !enabled { return None; }
      sequence := sequence + 1;
      r := Some((sequence, nowNs));
    }

    method DiagnosticEnd(number: int, receivedNs: int, finishedNs: int)
      requires Valid()
      modifies this
      ensures Valid() && Value() == Apply(old(Value()), End(Timing(number, receivedNs, finishedNs)))
    {
      if !enabled { return; }
      timings := timings + [Timing(number, receivedNs, finishedNs)];
      ghost var appended := timings;
      while |timings| > capacity
        invariant capacity <= |timings| || timings == appended
        invariant |timings| <= |appended| && timings == appended[|appended| - |timings|..]
        invariant requests == old(requests) && pathCounts == old(pathCounts) && enabled
        invariant sequence == old(sequence) && capacity == old(capacity)
      {
        timings := timings[1..];
      }
    }
  }

  /** `_drain_new_provider_timings`: a Python slice from an earlier count. */
  function Drain(timings: seq<Timing>, before: nat): seq<Timing> {
    if before <= |timings| then timings[before..] else []
  }

  // ----- what a run means -----

  /** The ends accepted since the last start. */
  function Accepted(ops: seq<Operation>): seq<Timing> {
    if ops == [] then []
    else
      var init, last := ops[..|ops| - 1], ops[|ops| - 1];
      match last
      case Start(_) => []
      case End(timing) => if Run(init).enabled then Accepted(init) + [timing] else Accepted(init)
      case _ => Accepted(init)
  }

  /** The sequence numbers handed out since the last start. */
  function Issued(ops: seq<Operation>): seq<nat> {
    if ops == [] then []
    else
      var init, last := ops[..|ops| - 1], ops[|ops| - 1];
      match last
      case Start(_) => []
      case Begin(_) => if Run(init).enabled then Issued(init) + [Run(ops).sequence] else Issued(init)
      case _ => Issued(init)
  }

  /** After any interleaving the ring holds exactly the newest accepted ends that fit. */
  lemma {:induction false} RingRefinesLog(ops: seq<Operation>)
    ensures 1 <= Run(ops).capacity <= DIAGNOSTIC_MAX_SAMPLES
    ensures Run(ops).timings == Newest(Accepted(ops), Run(ops).capacity)
  {
    if ops != [] {
      var init, last := ops[..|ops| - 1], ops[|ops| - 1];
      RingRefinesLog(init);
      if last.End? { NewestPush(Accepted(init), last.timing, Run(init).capacity); }
    }
  }

  /** Sequence numbers since a start are exactly 1, 2, 3, ... in the order they were handed out. */
  lemma {:induction false} IssuedConsecutive(ops: seq<Operation>)
    ensures Run(ops).sequence == |Issued(ops)|
    ensures forall i :: 0 <= i < |Issued(ops)| ==> Issued(ops)[i] == i + 1
  {
    if ops != [] {
      var init := ops[..|ops| - 1];
      IssuedConsecutive(init);
    }
  }

  ghost predicate NoStart(ops: seq<Operation>) {
    forall i :: 0 <= i < |ops| ==> !ops[i].Start?
  }

  lemma {:induction false} AcceptedGrows(earlier: seq<Operation>, later: seq<Operation>)
    requires NoStart(later)
    ensures Accepted(earlier) <= Accepted(earlier + later)
    ensures Run(earlier + later).capacity == Run(earlier).capacity
  {
    if later == [] {
      assert earlier + later == earlier;
    } else {
      var init := later[..|later| - 1];
      assert (earlier + later)[..|earlier + later| - 1] == earlier + init;
      assert (earlier + later)[|earlier + later| - 1] == later[|later| - 1];
      AcceptedGrows(earlier, init);
    }
  }

  /**
   A slice taken from an earlier count is exactly the ends accepted since, if and only if nothing was
   accepted since or the ring has not overflowed.
   */
  lemma {:induction false} DrainExact(earlier: seq<Operation>, later: seq<Operation>)
    requires NoStart(later)
    ensures var n, m := |Accepted(earlier)|, |Accepted(earlier + later)|;
            && n <= m
            && (Drain(Run(earlier + later).timings, |Run(earlier).timings|) == Accepted(earlier + later)[n..]
                <==> (m == n || m <= Run(earlier).capacity))
  {
    AcceptedGrows(earlier, later);
    RingRefinesLog(earlier);
    RingRefinesLog(earlier + later);
    var n, m, cap := |Accepted(earlier)|, |Accepted(earlier + later)|, Run(earlier).capacity;
    var drained := Drain(Run(earlier + later).timings, |Run(earlier).timings|);
    assert m > cap ==> |drained| == cap - |Run(earlier).timings|;
  }

  // ----- which timing a request is given -----

  /** `new_timings[-1] if new_timings else None`, with the count taken after `earlier` and the drain after `later`. */
  function Chosen(earlier: seq<Operation>, later: seq<Operation>): Option<Timing> {
    var drained := Drain(Run(earlier + later).timings, |Run(earlier).timings|);
    if drained == [] then None else Some(drained[|drained| - 1])
  }

  /** A request is given the last end accepted between its count and its drain, unless the ring was full at the count. */
  lemma {:induction false} ChosenExactly(earlier: seq<Operation>, later: seq<Operation>)
    requires NoStart(later)
    ensures var n, m := |Accepted(earlier)|, |Accepted(earlier + later)|;
            Chosen(earlier, later) ==
            if n < m && n < Run(earlier).capacity then Some(Accepted(earlier + later)[m - 1]) else None
  {
    AcceptedGrows(earlier, later);
    RingRefinesLog(earlier);
    RingRefinesLog(earlier + later);
  }

  // ----- a batch of sequential requests -----

  /**
   One request: the operations between the drain before it and its count, and those between its count and its drain,
   which hold its begin and any ends, its own or older ones.
   */
  datatype Request = Request(idle: seq<Operation>, window: seq<Operation>)

  type Batch = seq<Request>

  ghost predicate NoStop(ops: seq<Operation>) {
    forall i :: 0 <= i < |ops| ==> !ops[i].Stop?
  }

  ghost predicate WellFormed(r: Request) {
    NoStart(r.idle) && NoStop(r.idle) && Begins(r.idle) == 0 && NoStart(r.window) && NoStop(r.window) && Begins(r.window) == 1
  }

  function Begins(ops: seq<Operation>): nat {
    if ops == [] then 0 else Begins(ops[..|ops| - 1]) + (if ops[|ops| - 1].Begin? then 1 else 0)
  }

  function Ends(ops: seq<Operation>): seq<Timing> {
    if ops == [] then []
    else Ends(ops[..|ops| - 1]) + (if ops[|ops| - 1].End? then [ops[|ops| - 1].timing] else [])
  }

  /** The operations before request `i`; a batch is started with a ring for all of its requests. */
  function UpTo(batch: Batch, i: nat): seq<Operation>
    requires i <= |batch|
  {
    if i == 0 then [Start(|batch|)] else UpTo(batch, i - 1) + batch[i - 1].idle + batch[i - 1].window
  }

  function AtCount(batch: Batch, i: nat): seq<Operation>
    requires i < |batch|
  {
    UpTo(batch, i) + batch[i].idle
  }

  ghost predicate DistinctNumbers(timings: seq<Timing>) {
    forall i, j :: 0 <= i < j < |timings| ==> timings[i].sequence != timings[j].sequence
  }

  /** Every end carries a number handed out before it, and no number ends twice. */
  ghost predicate Legitimate(ops: seq<Operation>) {
    ops == [] ||
    var init, last := ops[..|ops| - 1], ops[|ops| - 1];
    && Legitimate(init)
    && (last.End? ==>
          && 1 <= last.timing.sequence <= Run(init).sequence
          && forall i :: 0 <= i < |Accepted(init)| ==> Accepted(init)[i].sequence != last.timing.sequence)
  }

  ghost predicate Sequential(batch: Batch) {
    1 <= |batch| <= DIAGNOSTIC_MAX_SAMPLES && forall i :: 0 <= i < |batch| ==> WellFormed(batch[i])
  }

  ghost predicate IsBatch(batch: Batch) {
    Sequential(batch) && Legitimate(UpTo(batch, |batch|))
  }

  lemma {:induction false} LegitimatePrefix(earlier: seq<Operation>, later: seq<Operation>)
    requires Legitimate(earlier + later)
    ensures Legitimate(earlier)
  {
    if later == [] {
      assert earlier + later == earlier;
    } else {
      assert (earlier + later)[..|earlier + later| - 1] == earlier + later[..|later| - 1];
      LegitimatePrefix(earlier, later[..|later| - 1]);
    }
  }

  /** The accepted ends carry different numbers among those handed out. */
  lemma {:induction false} LegitimateNumbers(ops: seq<Operation>)
    requires Legitimate(ops)
    ensures DistinctNumbers(Accepted(ops))
    ensures forall i :: 0 <= i < |Accepted(ops)| ==> 1 <= Accepted(ops)[i].sequence <= Run(ops).sequence
  {
    if ops != [] { LegitimateNumbers(ops[..|ops| - 1]); }
  }

  /** While the diagnostic runs, ends are accepted and begins numbered. */
  lemma {:induction false} RequestRuns(earlier: seq<Operation>, later: seq<Operation>)
    requires Run(earlier).enabled && NoStart(later) && NoStop(later)
    ensures Run(earlier + later).enabled && Run(earlier + later).capacity == Run(earlier).capacity
    ensures Accepted(earlier + later) == Accepted(earlier) + Ends(later)
    ensures Run(earlier + later).sequence == Run(earlier).sequence + Begins(later)
  {
    if later == [] {
      assert earlier + later == earlier;
    } else {
      var init := later[..|later| - 1];
      assert (earlier + later)[..|earlier + later| - 1] == earlier + init;
      assert (earlier + later)[|earlier + later| - 1] == later[|later| - 1];
      RequestRuns(earlier, init);
    }
  }

  function EndsUpTo(batch: Batch, i: nat): seq<Timing>
    requires i <= |batch|
  {
    if i == 0 then [] else EndsUpTo(batch, i - 1) + Ends(batch[i - 1].idle) + Ends(batch[i - 1].window)
  }

  lemma {:induction false} BatchStarts(n: nat)
    requires 1 <= n <= DIAGNOSTIC_MAX_SAMPLES
    ensures Run([Start(n)]) == Run([]).(enabled := true, capacity := n, sequence := 0, timings := [])
    ensures Accepted([Start(n)]) == []
  {
    assert [Start(n)][..0] == [];
  }

  /** One request after any operations. */
  lemma {:induction false} WholeRequest(earlier: seq<Operation>, r: Request)
    requires Run(earlier).enabled && WellFormed(r)
    ensures var later := Run(earlier + r.idle + r.window);
            later.enabled && later.capacity == Run(earlier).capacity && later.sequence == Run(earlier).sequence + 1
    ensures Accepted(earlier + r.idle + r.window) == Accepted(earlier) + Ends(r.idle) + Ends(r.window)
  {
    RequestRuns(earlier, r.idle);
    RequestRuns(earlier + r.idle, r.window);
  }

  /** Request `i` is handed the number `i + 1`, and every end before it was accepted. */
  lemma {:induction false} RequestNumbers(batch: Batch, i: nat)
    requires Sequential(batch) && i <= |batch|
    ensures Run(UpTo(batch, i)).enabled && Run(UpTo(batch, i)).capacity == |batch| && Run(UpTo(batch, i)).sequence == i
    ensures Accepted(UpTo(batch, i)) == EndsUpTo(batch, i)
  {
    if i == 0 {
      BatchStarts(|batch|);
    } else {
      RequestNumbers(batch, i - 1);
      NextNumber(batch, i - 1);
    }
  }

  lemma {:induction false} NextNumber(batch: Batch, i: nat)
    requires i < |batch| && WellFormed(batch[i]) && Run(UpTo(batch, i)).enabled
    ensures var before, after := Run(UpTo(batch, i)), Run(UpTo(batch, i + 1));
            after.enabled && after.capacity == before.capacity && after.sequence == before.sequence + 1
    ensures Accepted(UpTo(batch, i + 1)) == Accepted(UpTo(batch, i)) + Ends(batch[i].idle) + Ends(batch[i].window)
  {
    WholeRequest(UpTo(batch, i), batch[i]);
  }

  lemma {:induction false} BatchPrefix(batch: Batch, i: nat, n: nat)
    requires i <= n <= |batch| && Legitimate(UpTo(batch, n))
    ensures Legitimate(UpTo(batch, i))
    decreases n
  {
    if i < n {
      LegitimatePrefix(AtCount(batch, n - 1), batch[n - 1].window);
      LegitimatePrefix(UpTo(batch, n - 1), batch[n - 1].idle);
      BatchPrefix(batch, i, n - 1);
    }
  }

  /** The ends accepted before request `i` have different numbers among 1 to `i`. */
  lemma {:induction false} NumbersBefore(batch: Batch, i: nat)
    requires IsBatch(batch) && i <= |batch|
    ensures DistinctNumbers(EndsUpTo(batch, i))
    ensures forall k :: 0 <= k < |EndsUpTo(batch, i)| ==> 1 <= EndsUpTo(batch, i)[k].sequence <= i
  {
    BatchPrefix(batch, i, |batch|);
    LegitimateNumbers(UpTo(batch, i));
    RequestNumbers(batch, i);
  }

  /** The numbers 1 to `n`. */
  ghost function Range(n: nat): (r: set<int>)
    ensures |r| == n && forall k :: k in r <==> 1 <= k <= n
  {
    if n == 0 then {} else Range(n - 1) + {n as int}
  }

  lemma {:induction false} NumbersAsSet(timings: seq<Timing>)
    requires DistinctNumbers(timings)
    ensures |set t | t in timings :: t.sequence| == |timings|
  {
    if timings != [] {
      var init, last := timings[..|timings| - 1], timings[|timings| - 1];
      NumbersAsSet(init);
      assert timings == init + [last];
      assert (set t | t in timings :: t.sequence) == (set t | t in init :: t.sequence) + {last.sequence};
      assert forall t :: t in init ==> t.sequence != last.sequence;
    }
  }

  lemma SubsetIsSmaller(a: set<int>, b: set<int>)
    requires a <= b
    ensures |a| <= |b|
  {
    assert b == a + (b - a);
  }

  /** A ring for every number handed out never overflows. */
  lemma {:induction false} RingFits(ops: seq<Operation>)
    requires Legitimate(ops)
    ensures |Accepted(ops)| <= Run(ops).sequence
  {
    LegitimateNumbers(ops);
    NumbersAsSet(Accepted(ops));
    SubsetIsSmaller(set t | t in Accepted(ops) :: t.sequence, Range(Run(ops).sequence));
  }

  function Given(batch: Batch, i: nat): Option<Timing>
    requires i < |batch|
  {
    Chosen(AtCount(batch, i), batch[i].window)
  }

  /** Request `i` is given the timing with its own number. */
  predicate GivenOwn(batch: Batch, i: nat)
    requires i < |batch|
  {
    Given(batch, i).Some? && Given(batch, i).value.sequence == i + 1
  }

  /** The end of request `i` falls before its drain. */
  ghost predicate EndsInTime(batch: Batch, i: nat)
    requires i < |batch|
  {
    exists k :: 0 <= k < |Ends(batch[i].window)| && Ends(batch[i].window)[k].sequence == i + 1
  }

  lemma {:induction false} ChosenInRequest(earlier: seq<Operation>, later: seq<Operation>)
    requires Run(earlier).enabled && NoStart(later) && NoStop(later)
    ensures Chosen(earlier, later) ==
            if Ends(later) == [] || |Accepted(earlier)| >= Run(earlier).capacity then None else Some(Ends(later)[|Ends(later)| - 1])
  {
    RequestRuns(earlier, later);
    ChosenExactly(earlier, later);
  }

  /** The ring has room for one more timing when request `i` is counted. */
  predicate HasRoom(batch: Batch, i: nat)
    requires i < |batch|
  {
    |Accepted(AtCount(batch, i))| < |batch|
  }

  predicate OwnEndIsLast(batch: Batch, i: nat)
    requires i < |batch|
  {
    var ends := Ends(batch[i].window);
    ends != [] && ends[|ends| - 1].sequence == i + 1
  }

  /**
   Whatever ends arrive, those of an earlier batch included: a request is given the timing with its own number if and
   only if the ring has room at its count and the last end between its count and its drain has this number.
   */
  lemma {:induction false} OwnTimingExactly(batch: Batch, i: nat)
    requires Sequential(batch) && i < |batch|
    ensures GivenOwn(batch, i) <==> HasRoom(batch, i) && OwnEndIsLast(batch, i)
  {
    CountRuns(batch, i);
    ChosenInRequest(AtCount(batch, i), batch[i].window);
  }

  lemma {:induction false} CountRuns(batch: Batch, i: nat)
    requires Sequential(batch) && i < |batch|
    ensures Run(AtCount(batch, i)).enabled && Run(AtCount(batch, i)).capacity == |batch| && Run(AtCount(batch, i)).sequence == i
  {
    RequestNumbers(batch, i);
    RequestRuns(UpTo(batch, i), batch[i].idle);
  }

  /** With ends of the batch alone there is always room. */
  lemma {:induction false} BatchHasRoom(batch: Batch, i: nat)
    requires IsBatch(batch) && i < |batch|
    ensures HasRoom(batch, i)
  {
    BatchPrefix(batch, i + 1, |batch|);
    LegitimatePrefix(AtCount(batch, i), batch[i].window);
    CountRuns(batch, i);
    RingFits(AtCount(batch, i));
  }

  lemma {:induction false} EndsKept(batch: Batch, j: nat, i: nat, t: Timing)
    requires j < i <= |batch| && t in Ends(batch[j].window)
    ensures t in EndsUpTo(batch, i)
  {
    if j < i - 1 { EndsKept(batch, j, i - 1, t); }
  }

  lemma DistinctParts(a: seq<Timing>, b: seq<Timing>, k: nat)
    requires DistinctNumbers(a + b) && k < |b|
    ensures forall t :: t in a ==> t.sequence != b[k].sequence
  {
    forall t | t in a ensures t.sequence != b[k].sequence {
      var q :| 0 <= q < |a| && a[q] == t;
      assert (a + b)[q] == t && (a + b)[|a| + k] == b[k];
    }
  }

  /** If every end falls in time, a request's window holds no end but its own. */
  lemma {:induction false} OnlyOwnEnd(batch: Batch, i: nat, k: nat)
    requires IsBatch(batch) && i < |batch| && k < |Ends(batch[i].window)|
    requires forall j :: 0 <= j < i ==> EndsInTime(batch, j)
    ensures Ends(batch[i].window)[k].sequence == i + 1
  {
    var earlier, t := EndsUpTo(batch, i) + Ends(batch[i].idle), Ends(batch[i].window)[k];
    NumbersBefore(batch, i + 1);
    assert EndsUpTo(batch, i + 1)[|earlier| + k] == t;
    DistinctParts(earlier, Ends(batch[i].window), k);
    var j := t.sequence - 1;
    if j < i {
      assert EndsInTime(batch, j);
      var p :| 0 <= p < |Ends(batch[j].window)| && Ends(batch[j].window)[p].sequence == j + 1;
      EndsKept(batch, j, i, Ends(batch[j].window)[p]);
    }
  }

  /**
   If no end of an earlier batch arrives: in every batch of sequential requests, every request is given the timing with
   its own number if and only if every end falls before the drain of its own request.
   */
  lemma {:induction false} BatchAttributedExactly(batch: Batch)
    requires IsBatch(batch)
    ensures (forall i :: 0 <= i < |batch| ==> GivenOwn(batch, i)) <==> (forall i :: 0 <= i < |batch| ==> EndsInTime(batch, i))
  {
    forall i | 0 <= i < |batch|
      ensures GivenOwn(batch, i) <==> OwnEndIsLast(batch, i)
      ensures OwnEndIsLast(batch, i) ==> EndsInTime(batch, i)
    {
      OwnTimingExactly(batch, i);
      BatchHasRoom(batch, i);
    }
    if forall i :: 0 <= i < |batch| ==> EndsInTime(batch, i) {
      forall i | 0 <= i < |batch| ensures GivenOwn(batch, i) {
        assert EndsInTime(batch, i);
        OnlyOwnEnd(batch, i, |Ends(batch[i].window)| - 1);
      }
    }
  }

  function LateBatch(late: Timing): Batch { [Request([], [Begin(0)]), Request([], [End(late), Begin(1)])] }

  lemma {:induction false} LateParts(late: Timing)
    ensures Begins([Begin(0)]) == 1 && Ends([Begin(0)]) == [] && Begins([End(late), Begin(1)]) == 1 && Ends([End(late), Begin(1)]) == [late]
  {
    assert [Begin(0)][..0] == [] && [End(late), Begin(1)][..1] == [End(late)] && [End(late)][..0] == [];
    assert Begins([End(late)]) == 0 && Ends([End(late)]) == [late];
  }

  lemma {:induction false} LateIsLegitimate(late: Timing)
    requires late.sequence == 1
    ensures IsBatch(LateBatch(late))
  {
    var a, b: seq<Operation> := [Start(2)], [Start(2), Begin(0)];
    var c, d: seq<Operation> := [Start(2), Begin(0), End(late)], [Start(2), Begin(0), End(late), Begin(1)];
    LateParts(late);
    assert UpTo(LateBatch(late), 0) == a && UpTo(LateBatch(late), 1) == b && UpTo(LateBatch(late), 2) == d;
    assert d[..3] == c && c[..2] == b && b[..1] == a && a[..0] == [];
    BatchStarts(2);
    assert Run(b).sequence == 1 && Accepted(b) == [];
    assert Legitimate(a) && Legitimate(b) && Legitimate(c) && Legitimate(d);
  }

  /**
   The handler reports an end after it has sent the response, so an end can fall after the drain of its request: in this
   batch the second request is given the timing of the first.
   */
  lemma {:induction false} LateEndIsMisattributed(late: Timing)
    requires late.sequence == 1
    ensures var batch := LateBatch(late);
            IsBatch(batch) && Given(batch, 0) == None && Given(batch, 1) == Some(late)
  {
    var batch := LateBatch(late);
    LateIsLegitimate(late);
    LateParts(late);
    CountRuns(batch, 0);
    ChosenInRequest(AtCount(batch, 0), batch[0].window);
    CountRuns(batch, 1);
    BatchHasRoom(batch, 1);
    ChosenInRequest(AtCount(batch, 1), batch[1].window);
  }

  /** An end of an earlier batch that arrives last is given to a request whose own end is in time. */
  lemma {:induction false} StrayEndIsGiven(own: Timing, stray: Timing)
    requires own.sequence == 1
    ensures var batch := [Request([], [Begin(0), End(own), End(stray)])];
            Sequential(batch) && EndsInTime(batch, 0) && Given(batch, 0) == Some(stray)
  {
    var window := [Begin(0), End(own), End(stray)];
    var batch := [Request([], window)];
    assert window[..2] == [Begin(0), End(own)] && [Begin(0), End(own)][..1] == [Begin(0)] && [Begin(0)][..0] == [];
    assert Ends([Begin(0)]) == [] && Ends([Begin(0), End(own)]) == [own] && Ends(window) == [own, stray];
    assert Begins([Begin(0)]) == 1 && Begins([Begin(0), End(own)]) == 1 && Begins(window) == 1;
    assert Ends(window)[0].sequence == 1;
    RequestNumbers(batch, 0);
    assert AtCount(batch, 0) == UpTo(batch, 0);
    ChosenInRequest(AtCount(batch, 0), window);
  }

  // ----- request counters -----

  /** How many recorded paths end with a suffix. */
  function CountEnding(ops: seq<Operation>, suffix: string): nat {
    if ops == [] then 0
    else CountEnding(ops[..|ops| - 1], suffix) +
         (if ops[|ops| - 1].Record? && EndsWith(ops[|ops| - 1].path, suffix) then 1 else 0)
  }

  lemma SuffixesExclusive(path: string, i: nat, j: nat)
    requires i < j < |BUCKETS|
    ensures !(EndsWith(path, BUCKETS[i]) && EndsWith(path, BUCKETS[j]))
  {
    SuffixChar(path, BUCKETS[i], 3);
    SuffixChar(path, BUCKETS[j], 3);
  }

  /** Each counter is the number of requests whose path ends with its bucket, over any run. */
  lemma {:induction false} PathCountsExact(ops: seq<Operation>)
    ensures |Run(ops).pathCounts| == |BUCKETS|
    ensures forall b :: 0 <= b < |BUCKETS| ==> Run(ops).pathCounts[b] == CountEnding(ops, BUCKETS[b])
  {
    if ops != [] {
      PathCountsExact(ops[..|ops| - 1]);
      var last := ops[|ops| - 1];
      if last.Record? {
        forall i: nat, j: nat | i < j < |BUCKETS| ensures !(EndsWith(last.path, BUCKETS[i]) && EndsWith(last.path, BUCKETS[j])) {
          SuffixesExclusive(last.path, i, j);
        }
      }
    }
  }
}
