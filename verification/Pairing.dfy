/** Pairing of foreground transaction records with the requests of one diagnostic batch. */
module Pairing {
  import opened Json
  import opened Ring
  import opened Text
  import opened Transactions

  // ----- _correlate_transaction_phases -----

  /** Which records to select: those of one kind, or all foreground records. */
  datatype Want = Only(kind: Kind) | AnyForeground

  predicate Wanted(kind: Kind, want: Want) {
    match want
    case Only(k) => kind == k
    case AnyForeground => Foreground(kind)
  }

  function Selected(records: seq<Record>, want: Want): seq<Record> {
    if records == [] then []
    else Selected(records[..|records| - 1], want) +
         (if Wanted(records[|records| - 1].input.kind, want) then [records[|records| - 1]] else [])
  }

  function OfKind(records: seq<Record>, kind: Kind): seq<Record> { Selected(records, Only(kind)) }

  function ForegroundOf(records: seq<Record>): seq<Record> { Selected(records, AnyForeground) }

  datatype Pair = Pair(requestSequence: int, publication: Record, finalization: Record,
                       preProviderUnattributedUs: Option<nat>, postProviderUnattributedUs: Option<nat>)

  function Unattributed(phaseMs: Json, totalUs: nat): Option<nat> {
    if !IsInt(phaseMs) then None
    else
      var rest := AsInt(phaseMs) * 1000 - totalUs;
      Some(if rest < 0 then 0 else rest)
  }

  predicate ValidItem(item: Json, sampleCount: int) {
    item.Object? && IsInt(Get(item.fields, "sequence")) && 1 <= AsInt(Get(item.fields, "sequence")) <= sampleCount
  }

  function PairOf(item: Json, publications: seq<Record>, finalizations: seq<Record>): Pair
    requires ValidItem(item, |publications|) && |publications| == |finalizations|
  {
    var k := AsInt(Get(item.fields, "sequence"));
    Pair(k, publications[k - 1], finalizations[k - 1],
         Unattributed(Get(item.fields, "pre_provider_ms"), publications[k - 1].input.totalUs),
         Unattributed(Get(item.fields, "post_provider_ttft_ms"), finalizations[k - 1].input.totalUs))
  }

  /** The counts and the success flags that the correlation insists on. */
  predicate ForegroundAccepted(records: seq<Record>, sampleCount: int) {
    && |ForegroundOf(records)| == 2 * sampleCount
    && (forall i :: 0 <= i < |ForegroundOf(records)| ==> ForegroundOf(records)[i].input.success)
    && |OfKind(records, Publication)| == sampleCount && |OfKind(records, Finalization)| == sampleCount
  }

  function SlowestOf(run: map<string, Json>): Json {
    if "slowest_five" in run then run["slowest_five"] else List([])
  }

  predicate SlowestAccepted(run: map<string, Json>, sampleCount: int) {
    SlowestOf(run).List? &&
    forall i :: 0 <= i < |SlowestOf(run).items| ==> ValidItem(SlowestOf(run).items[i], sampleCount)
  }

  method Correlate(run: map<string, Json>, records: seq<Record>, sampleCount: int) returns (r: Result<seq<Pair>, Error>)
    ensures r.Ok? <==> ForegroundAccepted(records, sampleCount) && SlowestAccepted(run, sampleCount)
    ensures r.Ok? ==> |r.value| == |SlowestOf(run).items| &&
                      forall i :: 0 <= i < |r.value| ==>
                        r.value[i] == PairOf(SlowestOf(run).items[i], OfKind(records, Publication), OfKind(records, Finalization))
  {
    var foreground := ForegroundOf(records);
    if |foreground| != sampleCount * 2 { return Err(WrongCount); }
    if exists i :: 0 <= i < |foreground| && !foreground[i].input.success { return Err(NotSuccessful); }
    var publication, finalization := OfKind(foreground, Publication), OfKind(foreground, Finalization);
    KindsAreForeground(records, Publication);
    KindsAreForeground(records, Finalization);
    if |publication| != sampleCount || |finalization| != sampleCount { return Err(MissingOrDuplicated); }
    var slowest := SlowestOf(run);
    if !slowest.List? { return Err(SlowestInvalid); }
    var pairs, k := [], 0;
    while k < |slowest.items|
      invariant k <= |slowest.items| && |pairs| == k
      invariant forall i :: 0 <= i < k ==> ValidItem(slowest.items[i], sampleCount)
      invariant forall i :: 0 <= i < k ==> pairs[i] == PairOf(slowest.items[i], publication, finalization)
    {
      var item := slowest.items[k];
      if !item.Object? || !IsInt(Get(item.fields, "sequence")) { return Err(SlowestInvalid); }
      var sequence := AsInt(Get(item.fields, "sequence"));
      if !(1 <= sequence <= sampleCount) { return Err(SequenceOutOfBounds); }
      pairs := pairs + [PairOf(item, publication, finalization)];
      k := k + 1;
    }
    r := Ok(pairs);
  }

  lemma {:induction false} SelectedPush(records: seq<Record>, x: Record, want: Want)
    ensures Selected(records + [x], want) == Selected(records, want) + (if Wanted(x.input.kind, want) then [x] else [])
  {
    assert (records + [x])[..|records|] == records;
  }

  lemma {:induction false} KindsAreForeground(records: seq<Record>, kind: Kind)
    requires Foreground(kind)
    ensures OfKind(ForegroundOf(records), kind) == OfKind(records, kind)
  {
    if records != [] {
      var init, last := records[..|records| - 1], records[|records| - 1];
      KindsAreForeground(init, kind);
      assert ForegroundOf(records) == if Foreground(last.input.kind) then ForegroundOf(init) + [last] else ForegroundOf(init);
      SelectedPush(ForegroundOf(init), last, Only(kind));
    }
  }

  // ----- the batch that wrote the records -----

  /** One request: its publication, then its finalization, with background records around them. */
  datatype Served = Served(before: seq<Event>, publication: Event, between: seq<Event>, finalization: Event)

  predicate Background(events: seq<Event>) {
    forall i :: 0 <= i < |events| ==> events[i].input.kind == Other
  }

  predicate WellServed(s: Served) {
    && Background(s.before) && Background(s.between)
    && s.publication.input.kind == Publication && s.finalization.input.kind == Finalization
  }

  predicate WellFormed(batch: seq<Served>) {
    forall i :: 0 <= i < |batch| ==> WellServed(batch[i])
  }

  function ServedEvents(s: Served): seq<Event> {
    s.before + [s.publication] + s.between + [s.finalization]
  }

  function BatchEvents(batch: seq<Served>): seq<Event> {
    if batch == [] then [] else BatchEvents(batch[..|batch| - 1]) + ServedEvents(batch[|batch| - 1])
  }

  // ----- what the collector retains -----

  /** The inputs that found the lock free. */
  function Survivors(events: seq<Event>): (r: seq<Input>)
    ensures |r| <= |events|
  {
    if events == [] then []
    else Survivors(events[..|events| - 1]) + (if events[|events| - 1].contended then [] else [events[|events| - 1].input])
  }

  function Numbered(inputs: seq<Input>): (r: seq<Record>)
    ensures |r| == |inputs|
    ensures forall i :: 0 <= i < |r| ==> r[i] == Record(i + 1, inputs[i])
  {
    seq(|inputs|, i requires 0 <= i < |inputs| => Record(i + 1, inputs[i]))
  }

  function Inputs(records: seq<Record>): (r: seq<Input>)
    ensures |r| == |records|
    ensures forall i :: 0 <= i < |r| ==> r[i] == records[i].input
  {
    seq(|records|, i requires 0 <= i < |records| => records[i].input)
  }

  /** The collector numbers surviving records without gaps and keeps the newest 256. */
  lemma {:induction false} CollectorRing(events: seq<Event>)
    requires |events| <= U64_MAX
    ensures CollectAll(EMPTY, events).nextSeq == |Survivors(events)|
    ensures CollectAll(EMPTY, events).records == Newest(Numbered(Survivors(events)), RECORD_CAPACITY)
  {
    if events != [] {
      var init, last := events[..|events| - 1], events[|events| - 1];
      CollectorRing(init);
      if !last.contended {
        var log, entry := Numbered(Survivors(init)), Record(|Survivors(init)| + 1, last.input);
        NewestPush(log, entry, RECORD_CAPACITY);
        assert Numbered(Survivors(events)) == log + [entry];
      }
    }
  }

  lemma {:induction false} SurvivorsConcat(a: seq<Event>, b: seq<Event>)
    ensures Survivors(a + b) == Survivors(a) + Survivors(b)
  {
    if b == [] {
      assert a + b == a;
    } else {
      assert (a + b)[..|a + b| - 1] == a + b[..|b| - 1];
      SurvivorsConcat(a, b[..|b| - 1]);
    }
  }

  lemma {:induction false} CollectAllConcat(s: CollectorState, a: seq<Event>, b: seq<Event>)
    ensures CollectAll(s, a + b) == CollectAll(CollectAll(s, a), b)
  {
    if b == [] {
      assert a + b == a;
    } else {
      assert (a + b)[..|a + b| - 1] == a + b[..|b| - 1];
      CollectAllConcat(s, a, b[..|b| - 1]);
    }
  }

  // ----- the window a snapshot gives -----

  /** A record survives serialisation and validation unchanged. */
  lemma RecordRoundTrip(r: Record)
    ensures RecordJson(r).Object? && Get(RecordJson(r).fields, "record_seq") == Int(r.seqNo)
    ensures ReadRecord(RecordJson(r)) == Ok(r)
  {}

  lemma {:induction false} NewerOfOld(raws: seq<Json>, baseline: int)
    requires forall i :: 0 <= i < |raws| ==> !InWindow(raws[i], baseline)
    ensures Newer(raws, baseline) == []
  {
    if raws != [] { NewerOfOld(raws[..|raws| - 1], baseline); }
  }

  lemma {:induction false} NewerOfNew(raws: seq<Json>, baseline: int)
    requires forall i :: 0 <= i < |raws| ==> InWindow(raws[i], baseline)
    ensures Newer(raws, baseline) == raws
  {
    if raws != [] { NewerOfNew(raws[..|raws| - 1], baseline); }
  }

  /** Reading a snapshot whose older part is at or below the baseline and whose newer part is above it. */
  lemma {:induction false} ReadBack(prior: seq<Json>, newer: seq<Json>, baseline: int, window: seq<Record>)
    requires forall i :: 0 <= i < |prior| ==> !InWindow(prior[i], baseline)
    requires IsReading(newer, baseline, window)
    ensures IsReading(Newer(prior + newer, baseline), baseline, window)
  {
    NewerOfOld(prior, baseline);
    NewerOfNew(newer, baseline);
    NewerConcat(prior, newer, baseline);
    assert Newer(prior + newer, baseline) == newer;
  }

  lemma OldOutOfWindow(prior: seq<Record>, baseline: int)
    requires forall i :: 0 <= i < |prior| ==> prior[i].seqNo <= baseline
    ensures forall i :: 0 <= i < |prior| ==> !InWindow(RecordsJson(prior)[i], baseline)
  {
    forall i | 0 <= i < |prior| ensures !InWindow(RecordsJson(prior)[i], baseline) { RecordRoundTrip(prior[i]); }
  }

  lemma NewReadable(window: seq<Record>, baseline: int)
    requires forall i :: 0 <= i < |window| ==> window[i].seqNo > baseline
    requires forall i, j :: 0 <= i < j < |window| ==> window[i].seqNo < window[j].seqNo
    ensures IsReading(RecordsJson(window), baseline, window)
  {
    var raws := RecordsJson(window);
    forall i | 0 <= i < |window| ensures InWindow(raws[i], baseline) && ReadRecord(raws[i]) == Ok(window[i]) {
      RecordRoundTrip(window[i]);
    }
  }

  lemma RecordsJsonConcat(a: seq<Record>, b: seq<Record>)
    ensures RecordsJson(a + b) == RecordsJson(a) + RecordsJson(b)
  {}

  lemma NumberedRest(inputs: seq<Input>, d: nat)
    requires d <= |inputs|
    ensures forall i :: 0 <= i < |inputs| - d ==> Numbered(inputs)[d..][i] == Record(d + i + 1, inputs[d + i])
  {}

  /** The inputs from `c` on, when `c` is where the ring starts or where the newer inputs start. */
  lemma InputsOfRest(h: seq<Input>, b: seq<Input>, c: nat)
    requires |h| <= c <= |h| + |b|
    ensures Inputs(Numbered(h + b)[c..]) == b[c - |h|..]
  {
    NumberedRest(h + b, c);
  }

  /** The ring after `h` older and `b` newer records, cut at the boundary between them. */
  lemma SplitRing(h: seq<Input>, b: seq<Input>) returns (prior: seq<Record>, window: seq<Record>)
    ensures Newest(Numbered(h + b), RECORD_CAPACITY) == prior + window
    ensures forall i :: 0 <= i < |prior| ==> prior[i].seqNo <= |h|
    ensures forall i :: 0 <= i < |window| ==> window[i].seqNo > |h|
    ensures forall i, j :: 0 <= i < j < |window| ==> window[i].seqNo < window[j].seqNo
    ensures Inputs(window) == Newest(b, RECORD_CAPACITY)
  {
    var all := Numbered(h + b);
    var drop := if |all| <= RECORD_CAPACITY then 0 else |all| - RECORD_CAPACITY;
    var cut := if drop < |h| then |h| else drop;
    prior, window := all[drop..cut], all[cut..];
    assert prior + window == all[drop..];
    NumberedRest(h + b, cut);
    InputsOfRest(h, b, cut);
  }

  /** The window after a batch: the newest 256 surviving records of the batch, read back exactly. */
  lemma WindowAfterBatch(history: seq<Event>, batch: seq<Event>) returns (window: seq<Record>)
    requires |history| + |batch| <= U64_MAX
    ensures var before, after := CollectAll(EMPTY, history), CollectAll(EMPTY, history + batch);
            IsReading(Newer(RecordsJson(after.records), before.nextSeq), before.nextSeq, window)
    ensures Inputs(window) == Newest(Survivors(batch), RECORD_CAPACITY)
  {
    CollectorRing(history);
    CollectorRing(history + batch);
    SurvivorsConcat(history, batch);
    var baseline := |Survivors(history)|;
    var prior;
    prior, window := SplitRing(Survivors(history), Survivors(batch));
    OldOutOfWindow(prior, baseline);
    NewReadable(window, baseline);
    ReadBack(RecordsJson(prior), RecordsJson(window), baseline, window);
    RecordsJsonConcat(prior, window);
  }

  // ----- counting foreground records -----

  function Select(inputs: seq<Input>, want: Want): seq<Input> {
    if inputs == [] then []
    else Select(inputs[..|inputs| - 1], want) +
         (if Wanted(inputs[|inputs| - 1].kind, want) then [inputs[|inputs| - 1]] else [])
  }

  function AllInputs(events: seq<Event>): (r: seq<Input>)
    ensures |r| == |events|
  {
    seq(|events|, i requires 0 <= i < |events| => events[i].input)
  }

  lemma {:induction false} InputsOfSelected(records: seq<Record>, want: Want)
    ensures Inputs(Selected(records, want)) == Select(Inputs(records), want)
  {
    if records != [] {
      InputsOfSelected(records[..|records| - 1], want);
      assert Inputs(records)[..|records| - 1] == Inputs(records[..|records| - 1]);
    }
  }

  lemma {:induction false} SelectPush(inputs: seq<Input>, x: Input, want: Want)
    ensures Select(inputs + [x], want) == Select(inputs, want) + (if Wanted(x.kind, want) then [x] else [])
  {
    assert (inputs + [x])[..|inputs|] == inputs;
  }

  lemma {:induction false} SelectOfForeground(inputs: seq<Input>, kind: Kind)
    requires Foreground(kind)
    ensures Select(Select(inputs, AnyForeground), Only(kind)) == Select(inputs, Only(kind))
  {
    if inputs != [] {
      var init, last := inputs[..|inputs| - 1], inputs[|inputs| - 1];
      SelectOfForeground(init, kind);
      var inner := Select(init, AnyForeground);
      assert Select(inputs, AnyForeground) == if Foreground(last.kind) then inner + [last] else inner;
      SelectPush(inner, last, Only(kind));
    }
  }

  lemma {:induction false} SelectConcat(a: seq<Input>, b: seq<Input>, want: Want)
    ensures Select(a + b, want) == Select(a, want) + Select(b, want)
  {
    if b == [] {
      assert a + b == a;
    } else {
      var init, last := b[..|b| - 1], b[|b| - 1];
      SelectConcat(a, init, want);
      assert a + b == (a + init) + [last];
      SelectPush(a + init, last, want);
    }
  }

  lemma {:induction false} SelectNone(inputs: seq<Input>, want: Want)
    requires forall i :: 0 <= i < |inputs| ==> !Wanted(inputs[i].kind, want)
    ensures Select(inputs, want) == []
  {
    if inputs != [] { SelectNone(inputs[..|inputs| - 1], want); }
  }

  lemma {:induction false} SurvivorsBackground(events: seq<Event>)
    requires Background(events)
    ensures forall i :: 0 <= i < |Survivors(events)| ==> Survivors(events)[i].kind == Other
  {
    if events != [] { SurvivorsBackground(events[..|events| - 1]); }
  }

  lemma SurvivorsPush(events: seq<Event>)
    requires events != []
    ensures var init, last := events[..|events| - 1], events[|events| - 1];
            && Select(AllInputs(events), AnyForeground) ==
               Select(AllInputs(init), AnyForeground) + (if Foreground(last.input.kind) then [last.input] else [])
            && Select(Survivors(events), AnyForeground) ==
               Select(Survivors(init), AnyForeground) +
               (if Foreground(last.input.kind) && !last.contended then [last.input] else [])
  {
    var init, last := events[..|events| - 1], events[|events| - 1];
    assert AllInputs(events) == AllInputs(init) + [last.input];
    SelectPush(AllInputs(init), last.input, AnyForeground);
    assert Survivors(events) == if last.contended then Survivors(init) else Survivors(init) + [last.input];
    SelectPush(Survivors(init), last.input, AnyForeground);
  }

  /** A contended lock can only lose foreground records; if none are lost the two lists agree. */
  lemma {:induction false} SurvivorsForeground(events: seq<Event>)
    ensures var kept, written := Select(Survivors(events), AnyForeground), Select(AllInputs(events), AnyForeground);
            && |kept| <= |written|
            && (|kept| == |written| ==> kept == written)
            && (|kept| == |written| <==> forall e :: e in events && Foreground(e.input.kind) ==> !e.contended)
  {
    if events != [] {
      var init, last := events[..|events| - 1], events[|events| - 1];
      SurvivorsForeground(init);
      SurvivorsPush(events);
      assert events == init + [last];
      assert forall e :: e in events <==> e in init || e == last;
    }
  }

  // ----- what the batch wrote -----

  function Publications(batch: seq<Served>): (r: seq<Input>)
    ensures |r| == |batch|
  {
    seq(|batch|, i requires 0 <= i < |batch| => batch[i].publication.input)
  }

  function Finalizations(batch: seq<Served>): (r: seq<Input>)
    ensures |r| == |batch|
  {
    seq(|batch|, i requires 0 <= i < |batch| => batch[i].finalization.input)
  }

  lemma {:induction false} SelectPair(a: seq<Input>, p: Input, b: seq<Input>, f: Input, want: Want)
    requires Select(a, want) == [] && Select(b, want) == []
    ensures Select(a + [p] + b + [f], want) ==
            (if Wanted(p.kind, want) then [p] else []) + (if Wanted(f.kind, want) then [f] else [])
  {
    SelectPush(a + [p] + b, f, want);
    SelectConcat(a + [p], b, want);
    SelectPush(a, p, want);
  }

  /** What one request contributes. */
  function Contribution(s: Served, want: Want): seq<Input> {
    (if Wanted(Publication, want) then [s.publication.input] else []) +
    (if Wanted(Finalization, want) then [s.finalization.input] else [])
  }

  lemma {:induction false} ServedForeground(s: Served, want: Want)
    requires WellServed(s) && !Wanted(Other, want)
    ensures Select(AllInputs(ServedEvents(s)), want) == Contribution(s, want)
  {
    var a, b := AllInputs(s.before), AllInputs(s.between);
    assert AllInputs(ServedEvents(s)) == a + [s.publication.input] + b + [s.finalization.input];
    SelectNone(a, want);
    SelectNone(b, want);
    SelectPair(a, s.publication.input, b, s.finalization.input, want);
  }

  function Contributions(batch: seq<Served>, want: Want): seq<Input> {
    if batch == [] then [] else Contributions(batch[..|batch| - 1], want) + Contribution(batch[|batch| - 1], want)
  }

  lemma {:induction false} BatchForeground(batch: seq<Served>, want: Want)
    requires WellFormed(batch) && !Wanted(Other, want)
    ensures Select(AllInputs(BatchEvents(batch)), want) == Contributions(batch, want)
  {
    if batch != [] {
      var init, last := batch[..|batch| - 1], batch[|batch| - 1];
      BatchForeground(init, want);
      ServedForeground(last, want);
      var a, b := AllInputs(BatchEvents(init)), AllInputs(ServedEvents(last));
      assert AllInputs(BatchEvents(batch)) == a + b;
      SelectConcat(a, b, want);
    }
  }

  lemma {:induction false} BatchAndTail(batch: seq<Served>, tail: seq<Event>, want: Want)
    requires WellFormed(batch) && Background(tail) && !Wanted(Other, want)
    ensures Select(AllInputs(BatchEvents(batch) + tail), want) == Contributions(batch, want)
  {
    BatchForeground(batch, want);
    var a, b := AllInputs(BatchEvents(batch)), AllInputs(tail);
    assert AllInputs(BatchEvents(batch) + tail) == a + b;
    SelectConcat(a, b, want);
    SelectNone(b, want);
  }

  lemma {:induction false} ContributionsOfKind(batch: seq<Served>)
    ensures Contributions(batch, Only(Publication)) == Publications(batch)
    ensures Contributions(batch, Only(Finalization)) == Finalizations(batch)
    ensures |Contributions(batch, AnyForeground)| == 2 * |batch|
  {
    if batch != [] { ContributionsOfKind(batch[..|batch| - 1]); }
  }

  lemma {:induction false} BatchAndTailForeground(batch: seq<Served>, tail: seq<Event>)
    requires WellFormed(batch) && Background(tail)
    ensures var inputs := AllInputs(BatchEvents(batch) + tail);
            && |Select(inputs, AnyForeground)| == 2 * |batch|
            && Select(inputs, Only(Publication)) == Publications(batch)
            && Select(inputs, Only(Finalization)) == Finalizations(batch)
  {
    BatchAndTail(batch, tail, AnyForeground);
    BatchAndTail(batch, tail, Only(Publication));
    BatchAndTail(batch, tail, Only(Finalization));
    ContributionsOfKind(batch);
  }

  // ----- the pairing theorem -----

  /** Dropping a prefix can only lose foreground inputs; if none are lost the lists agree. */
  lemma NewestForeground(inputs: seq<Input>, n: nat)
    ensures var kept, lost := Select(Newest(inputs, n), AnyForeground), inputs[..|inputs| - |Newest(inputs, n)|];
            Select(inputs, AnyForeground) == Select(lost, AnyForeground) + kept
  {
    var d := |inputs| - |Newest(inputs, n)|;
    assert inputs == inputs[..d] + inputs[d..] && Newest(inputs, n) == inputs[d..];
    SelectConcat(inputs[..d], inputs[d..], AnyForeground);
  }

  /** If the window has two foreground records per request, it has exactly the batch's own, in order. */
  lemma {:induction false} FullCountIsWholeBatch(batch: seq<Served>, tail: seq<Event>, window: seq<Record>)
    requires WellFormed(batch) && Background(tail)
    requires Inputs(window) == Newest(Survivors(BatchEvents(batch) + tail), RECORD_CAPACITY)
    requires |ForegroundOf(window)| == 2 * |batch|
    ensures Inputs(OfKind(window, Publication)) == Publications(batch)
    ensures Inputs(OfKind(window, Finalization)) == Finalizations(batch)
    ensures Inputs(ForegroundOf(window)) == Select(AllInputs(BatchEvents(batch) + tail), AnyForeground)
  {
    var events := BatchEvents(batch) + tail;
    BatchAndTailForeground(batch, tail);
    SurvivorsForeground(events);
    NewestForeground(Survivors(events), RECORD_CAPACITY);
    InputsOfSelected(window, AnyForeground);
    assert Select(Inputs(window), AnyForeground) == Select(AllInputs(events), AnyForeground);
    WindowKinds(window, AllInputs(events), Publication);
    WindowKinds(window, AllInputs(events), Finalization);
  }

  lemma {:induction false} WindowKinds(window: seq<Record>, written: seq<Input>, kind: Kind)
    requires Foreground(kind) && Select(Inputs(window), AnyForeground) == Select(written, AnyForeground)
    ensures Inputs(OfKind(window, kind)) == Select(written, Only(kind))
  {
    InputsOfSelected(window, Only(kind));
    SelectOfForeground(Inputs(window), kind);
    SelectOfForeground(written, kind);
  }

  /** An item is paired with the records of its own request, once the window is known to be the batch's. */
  lemma {:induction false} PairIsOwn(batch: seq<Served>, tail: seq<Event>, window: seq<Record>, item: Json)
    requires WellFormed(batch) && Background(tail)
    requires Inputs(window) == Newest(Survivors(BatchEvents(batch) + tail), RECORD_CAPACITY)
    requires ForegroundAccepted(window, |batch|) && ValidItem(item, |batch|)
    ensures var pair := PairOf(item, OfKind(window, Publication), OfKind(window, Finalization));
            var k := pair.requestSequence;
            && 1 <= k <= |batch|
            && pair.publication.input == batch[k - 1].publication.input
            && pair.finalization.input == batch[k - 1].finalization.input
  {
    FullCountIsWholeBatch(batch, tail, window);
    var k := AsInt(Get(item.fields, "sequence"));
    assert Inputs(OfKind(window, Publication))[k - 1] == Publications(batch)[k - 1];
    assert Inputs(OfKind(window, Finalization))[k - 1] == Finalizations(batch)[k - 1];
  }

  /** `window` is what the reader makes of the collector after `events`, with the baseline taken after `history`. */
  ghost predicate IsWindow(history: seq<Event>, events: seq<Event>, window: seq<Record>) {
    var before, after := CollectAll(EMPTY, history), CollectAll(EMPTY, history + events);
    IsReading(Newer(RecordsJson(after.records), before.nextSeq), before.nextSeq, window)
  }

  /**
   Pairing fails closed. Whatever records preceded the batch, whatever background records ran beside
   it, whichever records a contended lock dropped and however many the ring evicted: if the window is
   accepted, every listed request is paired with the two records it wrote itself.
   */
  lemma {:induction false} PairingFailsClosed(history: seq<Event>, batch: seq<Served>, tail: seq<Event>,
                           window: seq<Record>, item: Json)
    requires WellFormed(batch) && Background(tail)
    requires |history| + |BatchEvents(batch) + tail| <= U64_MAX && IsWindow(history, BatchEvents(batch) + tail, window)
    requires ForegroundAccepted(window, |batch|) && ValidItem(item, |batch|)
    ensures var pair := PairOf(item, OfKind(window, Publication), OfKind(window, Finalization));
            var k := pair.requestSequence;
            && 1 <= k <= |batch|
            && pair.publication.input == batch[k - 1].publication.input
            && pair.finalization.input == batch[k - 1].finalization.input
  {
    WindowInputs(history, BatchEvents(batch) + tail, window);
    PairIsOwn(batch, tail, window, item);
  }

  lemma {:induction false} WindowInputs(history: seq<Event>, batch: seq<Event>, window: seq<Record>)
    requires |history| + |batch| <= U64_MAX && IsWindow(history, batch, window)
    ensures Inputs(window) == Newest(Survivors(batch), RECORD_CAPACITY)
  {
    var other := WindowAfterBatch(history, batch);
    var before, after := CollectAll(EMPTY, history), CollectAll(EMPTY, history + batch);
    ReadingUnique(Newer(RecordsJson(after.records), before.nextSeq), before.nextSeq, window, other);
  }

  lemma ReadingUnique(raws: seq<Json>, baseline: int, a: seq<Record>, b: seq<Record>)
    requires IsReading(raws, baseline, a) && IsReading(raws, baseline, b)
    ensures a == b
  {
    forall i | 0 <= i < |a| ensures a[i] == b[i] { assert ReadRecord(raws[i]) == Ok(a[i]) == Ok(b[i]); }
  }

  // ----- exactly when the batch is accepted -----

  /** No foreground record was dropped, and at most 256 records survived from the first publication on. */
  ghost predicate NothingLost(batch: seq<Served>, tail: seq<Event>) {
    && (forall e :: e in BatchEvents(batch) && Foreground(e.input.kind) ==> !e.contended)
    && (batch != [] ==>
          && |batch[0].before| <= |BatchEvents(batch)|
          && |Survivors((BatchEvents(batch) + tail)[|batch[0].before|..])| <= RECORD_CAPACITY)
  }

  ghost predicate AllSucceeded(batch: seq<Served>) {
    forall i :: 0 <= i < |batch| ==> batch[i].publication.input.success && batch[i].finalization.input.success
  }

  lemma {:induction false} BatchStart(batch: seq<Served>)
    requires WellFormed(batch) && batch != []
    ensures batch[0].before + [batch[0].publication] <= BatchEvents(batch)
  {
    if |batch| == 1 {
      assert batch[..0] == [] && BatchEvents(batch) == [] + ServedEvents(batch[0]);
      assert ServedEvents(batch[0]) == batch[0].before + [batch[0].publication] + (batch[0].between + [batch[0].finalization]);
    } else {
      BatchStart(batch[..|batch| - 1]);
    }
  }

  lemma SuccessPush(inputs: seq<Input>, p: Input, f: Input)
    ensures (forall x :: x in inputs + [p, f] ==> x.success) <==>
              (forall x :: x in inputs ==> x.success) && p.success && f.success
  {
    assert forall x :: x in inputs + [p, f] <==> x in inputs || x == p || x == f;
  }

  lemma AllSucceededPush(batch: seq<Served>)
    requires batch != []
    ensures var init, last := batch[..|batch| - 1], batch[|batch| - 1];
            AllSucceeded(batch) <==> AllSucceeded(init) && last.publication.input.success && last.finalization.input.success
  {}

  lemma {:induction false} BatchSuccess(batch: seq<Served>)
    ensures AllSucceeded(batch) <==> forall x :: x in Contributions(batch, AnyForeground) ==> x.success
  {
    if batch != [] {
      var init, last := batch[..|batch| - 1], batch[|batch| - 1];
      BatchSuccess(init);
      SuccessPush(Contributions(init, AnyForeground), last.publication.input, last.finalization.input);
      AllSucceededPush(batch);
    }
  }

  lemma {:induction false} QuietPrefix(a: seq<Input>, b: seq<Input>)
    requires Select(a + b, AnyForeground) == []
    ensures Select(a, AnyForeground) == []
  {
    SelectConcat(a, b, AnyForeground);
  }

  lemma {:induction false} LoudPrefix(quiet: seq<Input>, first: Input, more: seq<Input>)
    requires Foreground(first.kind)
    ensures Select(quiet + [first] + more, AnyForeground) != []
  {
    SelectConcat(quiet + [first], more, AnyForeground);
    SelectPush(quiet, first, AnyForeground);
  }

  /** Evicting the oldest `d` survivors loses no foreground record exactly if it stops before the first publication. */
  lemma {:induction false} EvictionLoss(quiet: seq<Input>, first: Input, rest: seq<Input>, d: nat)
    requires Select(quiet, AnyForeground) == [] && Foreground(first.kind) && d <= |quiet| + 1 + |rest|
    ensures Select((quiet + [first] + rest)[..d], AnyForeground) == [] <==> d <= |quiet|
  {
    var all := quiet + [first] + rest;
    if d <= |quiet| {
      assert all[..d] == quiet[..d] && quiet == quiet[..d] + quiet[d..];
      QuietPrefix(quiet[..d], quiet[d..]);
    } else {
      var more := rest[..d - |quiet| - 1];
      assert all[..d] == quiet + [first] + more;
      LoudPrefix(quiet, first, more);
    }
  }

  lemma {:induction false} SurvivorsOfOne(e: Event)
    requires !e.contended
    ensures Survivors([e]) == [e.input]
  {
    assert [e][..0] == [];
  }

  lemma {:induction false} SurvivorsAround(before: seq<Event>, e: Event, more: seq<Event>)
    requires !e.contended
    ensures Survivors([e] + more) == [e.input] + Survivors(more)
    ensures Survivors(before + ([e] + more)) == Survivors(before) + [e.input] + Survivors(more)
  {
    SurvivorsConcat(before, [e] + more);
    SurvivorsConcat([e], more);
    SurvivorsOfOne(e);
  }

  /** A batch is what ran before its first publication, that publication, and the rest. */
  lemma {:induction false} BatchParts(batch: seq<Served>, tail: seq<Event>) returns (more: seq<Event>)
    requires WellFormed(batch) && batch != []
    ensures |batch[0].before| <= |BatchEvents(batch)|
    ensures (BatchEvents(batch) + tail)[|batch[0].before|..] == [batch[0].publication] + more
    ensures BatchEvents(batch) + tail == batch[0].before + ([batch[0].publication] + more)
  {
    BatchStart(batch);
    var events, n := BatchEvents(batch) + tail, |batch[0].before|;
    more := events[n + 1..];
    assert events[n] == (batch[0].before + [batch[0].publication])[n];
  }

  /** The survivors of a batch, cut around its first publication. */
  lemma {:induction false} SurvivorsCut(batch: seq<Served>, tail: seq<Event>) returns (quiet: seq<Input>, rest: seq<Input>)
    requires WellFormed(batch) && batch != [] && !batch[0].publication.contended
    ensures Select(quiet, AnyForeground) == []
    ensures |batch[0].before| <= |BatchEvents(batch)|
    ensures Survivors(BatchEvents(batch) + tail) == quiet + [batch[0].publication.input] + rest
    ensures |Survivors((BatchEvents(batch) + tail)[|batch[0].before|..])| == 1 + |rest|
  {
    var first := batch[0];
    var more := BatchParts(batch, tail);
    quiet, rest := Survivors(first.before), Survivors(more);
    SurvivorsAround(first.before, first.publication, more);
    SurvivorsBackground(first.before);
    SelectNone(quiet, AnyForeground);
  }

  lemma {:induction false} FullCountExactly(batch: seq<Served>, tail: seq<Event>, window: seq<Record>)
    requires WellFormed(batch) && Background(tail)
    requires Inputs(window) == Newest(Survivors(BatchEvents(batch) + tail), RECORD_CAPACITY)
    ensures |ForegroundOf(window)| == 2 * |batch| <==> NothingLost(batch, tail)
  {
    var events := BatchEvents(batch) + tail;
    var survivors := Survivors(events);
    var d := |survivors| - |Newest(survivors, RECORD_CAPACITY)|;
    BatchAndTailForeground(batch, tail);
    SurvivorsForeground(events);
    NewestForeground(survivors, RECORD_CAPACITY);
    InputsOfSelected(window, AnyForeground);
    assert |ForegroundOf(window)| == |Select(survivors, AnyForeground)| - |Select(survivors[..d], AnyForeground)|;
    assert forall e :: e in events <==> e in BatchEvents(batch) || e in tail;
    assert forall e :: e in tail ==> !Foreground(e.input.kind);
    if batch != [] && forall e :: e in events && Foreground(e.input.kind) ==> !e.contended {
      BatchStart(batch);
      assert batch[0].publication in BatchEvents(batch) by {
        assert (batch[0].before + [batch[0].publication])[|batch[0].before|] == BatchEvents(batch)[|batch[0].before|];
      }
      var quiet, rest := SurvivorsCut(batch, tail);
      EvictionLoss(quiet, batch[0].publication.input, rest, d);
    }
  }

  lemma SuccessOfInputs(records: seq<Record>, inputs: seq<Input>)
    requires Inputs(records) == inputs
    ensures (forall i :: 0 <= i < |records| ==> records[i].input.success) <==> (forall x :: x in inputs ==> x.success)
  {
    forall i | 0 <= i < |records| ensures records[i].input == inputs[i] && inputs[i] in inputs {}
  }

  /** The window of a batch is accepted exactly when no foreground record was lost and all of them succeeded. */
  lemma {:induction false} AcceptedExactly(batch: seq<Served>, tail: seq<Event>, window: seq<Record>)
    requires WellFormed(batch) && Background(tail)
    requires Inputs(window) == Newest(Survivors(BatchEvents(batch) + tail), RECORD_CAPACITY)
    ensures ForegroundAccepted(window, |batch|) <==> NothingLost(batch, tail) && AllSucceeded(batch)
  {
    FullCountExactly(batch, tail, window);
    if |ForegroundOf(window)| == 2 * |batch| {
      FullCountIsWholeBatch(batch, tail, window);
      BatchSuccess(batch);
      BatchAndTail(batch, tail, AnyForeground);
      SuccessOfInputs(ForegroundOf(window), Contributions(batch, AnyForeground));
      assert |OfKind(window, Publication)| == |Publications(batch)| && |OfKind(window, Finalization)| == |Finalizations(batch)|;
    }
  }
}
