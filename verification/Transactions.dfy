/**
 Database phase evidence: the bounded collector of rust/src/db/qualification.rs, and the windowing
 and request pairing of scripts/qualification_sbc.py that read it.
 */
module Transactions {
  import opened Text
  import opened Json

  const RECORD_CAPACITY := 256
  const U64_MAX := 0xFFFF_FFFF_FFFF_FFFF

  datatype Kind = Publication | Finalization | Other

  /** What one finished transaction reports (`QualificationRecordInput`). */
  datatype Input = Input(kind: Kind, gateWaitUs: nat, workerQueueUs: nat, beginUs: nat, bodyUs: nat,
                         commitUs: Option<nat>, workerReturnUs: nat, totalUs: nat, success: bool)

  /** A retained record (`QualificationTransactionRecord`). */
  datatype Record = Record(seqNo: int, input: Input)

  predicate Foreground(kind: Kind) { kind != Other }

  // ----- the collector -----

  datatype CollectorState = CollectorState(nextSeq: nat, records: seq<Record>, dropped: nat)

  const EMPTY := CollectorState(0, [], 0)

  /** One transaction end; `contended` says that `try_lock` failed. */
  datatype Event = Event(input: Input, contended: bool)

  function Collect(s: CollectorState, e: Event): CollectorState {
    if e.contended then s.(dropped := s.dropped + 1)
    else
      var next := if s.nextSeq < U64_MAX then s.nextSeq + 1 else U64_MAX;
      var kept := if |s.records| == RECORD_CAPACITY then s.records[1..] else s.records;
      s.(nextSeq := next, records := kept + [Record(next, e.input)])
  }

  function CollectAll(s: CollectorState, events: seq<Event>): CollectorState {
    if events == [] then s
    else Collect(CollectAll(s, events[..|events| - 1]), events[|events| - 1])
  }

  class QualificationCollector {
    var nextSeq: nat
    var records: seq<Record>
    var dropped: nat

    ghost function Value(): CollectorState
      reads this
    {
      CollectorState(nextSeq, records, dropped)
    }

    constructor ()
      ensures Value() == EMPTY
    {
      nextSeq, records, dropped := 0, [], 0;
    }

    /** `record`: best effort, so a contended lock drops the record without using a sequence number. */
    method RecordTransaction(input: Input, contended: bool)
      modifies this
      ensures Value() == Collect(old(Value()), Event(input, contended))
    {
      if contended {
        dropped := dropped + 1;
        return;
      }
      if nextSeq < U64_MAX { nextSeq := nextSeq + 1; } else { nextSeq := U64_MAX; }
      if |records| == RECORD_CAPACITY {
        records := records[1..];
      }
      records := records + [Record(nextSeq, input)];
    }
  }

  // ----- the snapshot as the reader receives it -----

  function KindName(kind: Kind): string {
    match kind
    case Publication => "publication"
    case Finalization => "finalization"
    case Other => "other"
  }

  function RecordJson(r: Record): Json {
    Object(map[
      "record_seq" := Int(r.seqNo),
      "kind" := Str(KindName(r.input.kind)),
      "gate_wait_us" := Int(r.input.gateWaitUs),
      "worker_queue_us" := Int(r.input.workerQueueUs),
      "begin_us" := Int(r.input.beginUs),
      "body_us" := Int(r.input.bodyUs),
      "commit_us" := (if r.input.commitUs.Some? then Int(r.input.commitUs.value) else Null),
      "worker_return_us" := Int(r.input.workerReturnUs),
      "total_us" := Int(r.input.totalUs),
      "success" := Bool(r.input.success)])
  }

  function RecordsJson(records: seq<Record>): (r: seq<Json>)
    ensures |r| == |records|
  {
    seq(|records|, i requires 0 <= i < |records| => RecordJson(records[i]))
  }

  // ----- windowing: _qualification_records_after -----

  datatype Error =
    | RecordsMissing | NotAnObject | NotOrdered | PhaseNotScalar | CommitInvalid | SuccessInvalid
    | WrongCount | NotSuccessful | MissingOrDuplicated | SlowestInvalid | SequenceOutOfBounds

  function ReadKind(j: Json): Option<Kind> {
    if j == Str("publication") then Some(Publication)
    else if j == Str("finalization") then Some(Finalization)
    else if j == Str("other") then Some(Other)
    else None
  }

  predicate InWindow(raw: Json, baseline: int) {
    raw.Object? && IsInt(Get(raw.fields, "record_seq")) && AsInt(Get(raw.fields, "record_seq")) > baseline
  }

  /** Validation of one record newer than the baseline. */
  function ReadRecord(raw: Json): Result<Record, Error>
    requires raw.Object? && IsInt(Get(raw.fields, "record_seq"))
  {
    var f := raw.fields;
    var kind := ReadKind(Get(f, "kind"));
    if kind.None? then Err(NotOrdered)
    else if !IsNatural(Get(f, "gate_wait_us")) || !IsNatural(Get(f, "worker_queue_us")) || !IsNatural(Get(f, "begin_us"))
            || !IsNatural(Get(f, "body_us")) || !IsNatural(Get(f, "worker_return_us")) || !IsNatural(Get(f, "total_us")) then
      Err(PhaseNotScalar)
    else if Get(f, "commit_us") != Null && !IsNatural(Get(f, "commit_us")) then Err(CommitInvalid)
    else if !Get(f, "success").Bool? then Err(SuccessInvalid)
    else
      var commit := if Get(f, "commit_us") == Null then None else Some(AsInt(Get(f, "commit_us")));
      Ok(Record(AsInt(Get(f, "record_seq")),
                Input(kind.value, AsInt(Get(f, "gate_wait_us")), AsInt(Get(f, "worker_queue_us")), AsInt(Get(f, "begin_us")),
                      AsInt(Get(f, "body_us")), commit, AsInt(Get(f, "worker_return_us")), AsInt(Get(f, "total_us")),
                      Get(f, "success").b)))
  }

  /** The records newer than the baseline, in order. */
  function Newer(raws: seq<Json>, baseline: int): seq<Json> {
    if raws == [] then []
    else Newer(raws[..|raws| - 1], baseline) +
         (if InWindow(raws[|raws| - 1], baseline) then [raws[|raws| - 1]] else [])
  }

  /** `parsed` is `raws` validated one by one, with strictly increasing sequence numbers above the baseline. */
  ghost predicate IsReading(raws: seq<Json>, baseline: int, parsed: seq<Record>) {
    && |parsed| == |raws|
    && (forall i :: 0 <= i < |raws| ==>
          InWindow(raws[i], baseline) && ReadRecord(raws[i]) == Ok(parsed[i]))
    && (forall i, j :: 0 <= i < j < |parsed| ==> parsed[i].seqNo < parsed[j].seqNo)
  }

  ghost predicate Objects(raws: seq<Json>, n: nat) {
    n <= |raws| && forall i :: 0 <= i < n ==> raws[i].Object?
  }

  ghost predicate Readable(raws: seq<Json>, baseline: int) {
    exists parsed :: IsReading(raws, baseline, parsed)
  }

  method RecordsAfter(runtime: map<string, Json>, baseline: int) returns (r: Result<seq<Record>, Error>)
    ensures r.Ok? ==>
              && Get(runtime, "database_qualification").Object?
              && Get(Get(runtime, "database_qualification").fields, "records").List?
              && var raws := Get(Get(runtime, "database_qualification").fields, "records").items;
                 Objects(raws, |raws|) && IsReading(Newer(raws, baseline), baseline, r.value)
    ensures r.Err? ==>
              var snapshot := Get(runtime, "database_qualification");
              !snapshot.Object? || !Get(snapshot.fields, "records").List? ||
              var raws := Get(snapshot.fields, "records").items;
              !Objects(raws, |raws|) || !Readable(Newer(raws, baseline), baseline)
  {
    var snapshot := Get(runtime, "database_qualification");
    if !snapshot.Object? || !Get(snapshot.fields, "records").List? { return Err(RecordsMissing); }
    r := ReadWindow(Get(snapshot.fields, "records").items, baseline);
  }

  /** The loop of `_qualification_records_after`. */
  method ReadWindow(raws: seq<Json>, baseline: int) returns (r: Result<seq<Record>, Error>)
    ensures r.Ok? ==> Objects(raws, |raws|) && IsReading(Newer(raws, baseline), baseline, r.value)
    ensures r.Err? ==> !Objects(raws, |raws|) || !Readable(Newer(raws, baseline), baseline)
  {
    var records, previous, k := [], baseline, 0;
    ghost var window: seq<Json> := [];
    while k < |raws|
      invariant Objects(raws, k)
      invariant window == Newer(raws[..k], baseline) && IsReading(window, baseline, records)
      invariant previous == LastSequence(records, baseline)
    {
      var raw := raws[k];
      if !raw.Object? { return Err(NotAnObject); }
      NewerStep(raws, baseline, k);
      if InWindow(raw, baseline) {
        var read := ReadNext(raw, previous);
        if read.Err? {
          ReadingFails(raws, baseline, k, records);
          return Err(read.error);
        }
        ReadingPush(window, raw, baseline, records);
        window := window + [raw];
        records := records + [read.value];
        previous := read.value.seqNo;
      }
      k := k + 1;
    }
    assert raws[..|raws|] == raws;
    r := Ok(records);
  }

  method ReadNext(raw: Json, previous: int) returns (r: Result<Record, Error>)
    requires raw.Object? && IsInt(Get(raw.fields, "record_seq"))
    ensures r.Ok? <==> ReadRecord(raw).Ok? && AsInt(Get(raw.fields, "record_seq")) > previous
    ensures r.Ok? ==> r == ReadRecord(raw) && r.value.seqNo == AsInt(Get(raw.fields, "record_seq"))
  {
    if AsInt(Get(raw.fields, "record_seq")) <= previous { return Err(NotOrdered); }
    r := ReadRecord(raw);
  }

  function LastSequence(records: seq<Record>, baseline: int): int {
    if records == [] then baseline else records[|records| - 1].seqNo
  }

  lemma {:induction false} NewerStep(raws: seq<Json>, baseline: int, k: nat)
    requires k < |raws|
    ensures Newer(raws[..k + 1], baseline) ==
            if InWindow(raws[k], baseline) then Newer(raws[..k], baseline) + [raws[k]] else Newer(raws[..k], baseline)
  {
    assert raws[..k + 1][..k] == raws[..k];
  }

  lemma ReadingPush(window: seq<Json>, raw: Json, baseline: int, records: seq<Record>)
    requires IsReading(window, baseline, records) && InWindow(raw, baseline) && ReadRecord(raw).Ok?
    requires AsInt(Get(raw.fields, "record_seq")) > LastSequence(records, baseline)
    ensures IsReading(window + [raw], baseline, records + [ReadRecord(raw).value])
  {
    var all := records + [ReadRecord(raw).value];
    forall i, j | 0 <= i < j < |all| ensures all[i].seqNo < all[j].seqNo {
      assert j == |records| && i < |records| - 1 ==> records[i].seqNo < records[|records| - 1].seqNo;
    }
  }

  lemma {:induction false} NewerConcat(a: seq<Json>, b: seq<Json>, baseline: int)
    ensures Newer(a + b, baseline) == Newer(a, baseline) + Newer(b, baseline)
  {
    if b == [] {
      assert a + b == a;
    } else {
      assert (a + b)[..|a + b| - 1] == a + b[..|b| - 1];
      NewerConcat(a, b[..|b| - 1], baseline);
    }
  }

  /** Once the loop meets a record it rejects, no reading of the whole window exists. */
  lemma {:induction false} ReadingFails(raws: seq<Json>, baseline: int, k: nat, records: seq<Record>)
    requires k < |raws| && InWindow(raws[k], baseline)
    requires IsReading(Newer(raws[..k], baseline), baseline, records)
    requires ReadRecord(raws[k]).Err? ||
             AsInt(Get(raws[k].fields, "record_seq")) <= LastSequence(records, baseline)
    ensures !Readable(Newer(raws, baseline), baseline)
  {
    var head, tail := Newer(raws[..k], baseline), Newer(raws[k + 1..], baseline);
    NewerConcat(raws[..k + 1], raws[k + 1..], baseline);
    assert raws[..k + 1] + raws[k + 1..] == raws && raws[..k + 1][..k] == raws[..k];
    assert Newer(raws, baseline) == head + [raws[k]] + tail;
    forall parsed { ReadingPrefix(head, raws[k], tail, baseline, records, parsed); }
  }

  /** A reading of a whole window begins with the reading of any part of it. */
  lemma ReadingPrefix(head: seq<Json>, raw: Json, tail: seq<Json>, baseline: int, records: seq<Record>, parsed: seq<Record>)
    ensures IsReading(head, baseline, records) && IsReading(head + [raw] + tail, baseline, parsed) ==>
              && InWindow(raw, baseline) && ReadRecord(raw).Ok?
              && (records != [] ==> records[|records| - 1].seqNo < AsInt(Get(raw.fields, "record_seq")))
  {
    var n, all := |head|, head + [raw] + tail;
    if IsReading(head, baseline, records) && IsReading(all, baseline, parsed) {
      assert all[n] == raw;
      if n > 0 {
        assert all[n - 1] == head[n - 1];
        assert ReadRecord(head[n - 1]) == Ok(records[n - 1]) == Ok(parsed[n - 1]);
      }
    }
  }
}
