/** Nanosecond-to-millisecond phase attribution of scripts/qualification_sbc.py. */
module Phases {
  import opened Text

  const NS_PER_MS := 1_000_000

  /** Python's `round` of an exact quotient: nearest integer, ties to the even one. */
  function RoundQuotient(n: int): (r: int)
    ensures -NS_PER_MS <= 2 * (NS_PER_MS * r - n) <= NS_PER_MS
    ensures 2 * (NS_PER_MS * r - n) == NS_PER_MS || 2 * (NS_PER_MS * r - n) == -NS_PER_MS ==> r % 2 == 0
  {
    var q, rest := n / NS_PER_MS, n % NS_PER_MS;
    if 2 * rest < NS_PER_MS then q
    else if 2 * rest > NS_PER_MS then q + 1
    else if q % 2 == 0 then q else q + 1
  }

  /** The two clauses of `RoundQuotient` admit one integer. */
  lemma RoundQuotientUnique(n: int, r: int)
    requires -NS_PER_MS <= 2 * (NS_PER_MS * r - n) <= NS_PER_MS
    requires 2 * (NS_PER_MS * r - n) == NS_PER_MS || 2 * (NS_PER_MS * r - n) == -NS_PER_MS ==> r % 2 == 0
    ensures r == RoundQuotient(n)
  {
    var s := RoundQuotient(n);
    assert -1 <= r - s <= 1;
  }

  function AtLeastZero(x: int): int { if x < 0 then 0 else x }

  /** `_ns_to_ms`. */
  function NsToMs(round: int -> int, earlier: Option<int>, later: Option<int>): (r: Option<int>)
    ensures r.Some? <==> earlier.Some? && later.Some?
    ensures r.Some? ==> r.value >= 0
  {
    match (earlier, later)
    case (Some(e), Some(l)) => Some(AtLeastZero(round(l - e)))
    case _ => None
  }

  datatype ProviderTiming = ProviderTiming(sequence: int, receivedNs: int, finishedNs: int)

  datatype DiagnosticSample = DiagnosticSample(
    sequence: int,
    preProviderMs: Option<int>,
    providerServiceMs: Option<int>,
    postProviderTtftMs: Option<int>,
    clientBodyMs: Option<int>,
    totalMs: int,
    timedOut: bool,
    lastPhase: Option<string>)

  /** What a sample is made of, with any rounding. */
  function CombineWith(round: int -> int, sequence: int, t0: int, provider: Option<ProviderTiming>, t3: Option<int>, t4: int,
                       timedOut: bool, lastPhase: Option<string>): DiagnosticSample
  {
    var t1 := if provider.Some? then Some(provider.value.receivedNs) else None;
    var t2 := if provider.Some? then Some(provider.value.finishedNs) else None;
    var observed :=
      if provider.None? && !timedOut && lastPhase == Some("completed") then Some("unknown")
      else if provider.None? && timedOut then Some("timeout")
      else lastPhase;
    DiagnosticSample(sequence, NsToMs(round, Some(t0), t1), NsToMs(round, t1, t2), NsToMs(round, t2, t3), NsToMs(round, t3, Some(t4)),
                     AtLeastZero(round(t4 - t0)), timedOut, observed)
  }

  const ROUND: int -> int := n => RoundQuotient(n)

  /** `_combine_diagnostic_sample`, without the write-ahead-log fields. */
  function Combine(sequence: int, t0: int, provider: Option<ProviderTiming>, t3: Option<int>, t4: int,
                   timedOut: bool, lastPhase: Option<string>): DiagnosticSample
  {
    CombineWith(ROUND, sequence, t0, provider, t3, t4, timedOut, lastPhase)
  }

  function PhaseSum(s: DiagnosticSample): int
    requires s.preProviderMs.Some? && s.providerServiceMs.Some? && s.postProviderTtftMs.Some? && s.clientBodyMs.Some?
  {
    s.preProviderMs.value + s.providerServiceMs.value + s.postProviderTtftMs.value + s.clientBodyMs.value
  }

  predicate Complete(s: DiagnosticSample) {
    s.preProviderMs.Some? && s.providerServiceMs.Some? && s.postProviderTtftMs.Some? && s.clientBodyMs.Some?
  }

  /** Five rounding errors of at most half a millisecond: an integer gap of at most two. */
  lemma RoundedSum(a: int, b: int, c: int, d: int)
    ensures var sum := RoundQuotient(a) + RoundQuotient(b) + RoundQuotient(c) + RoundQuotient(d);
            RoundQuotient(a + b + c + d) - 2 <= sum <= RoundQuotient(a + b + c + d) + 2
  {}

  lemma RoundQuotientSign(n: int)
    ensures n >= 0 ==> RoundQuotient(n) >= 0
    ensures n <= 0 ==> RoundQuotient(n) <= 0
  {}

  /** The rounded parts of a duration sum to the rounded duration, up to two. */
  predicate Adds(round: int -> int, a: int, b: int, c: int, d: int, total: int) {
    round(total) - 2 <= round(a) + round(b) + round(c) + round(d) <= round(total) + 2
  }

  lemma RoundAdds(a: int, b: int, c: int, d: int, total: int)
    requires a + b + c + d == total
    ensures Adds(ROUND, a, b, c, d, total)
  {
    RoundedSum(a, b, c, d);
  }

  lemma RoundSigns(a: int, b: int, c: int, d: int)
    ensures (a >= 0 ==> ROUND(a) >= 0) && (b >= 0 ==> ROUND(b) >= 0) && (c >= 0 ==> ROUND(c) >= 0) && (d >= 0 ==> ROUND(d) >= 0)
  {
    RoundQuotientSign(a);
    RoundQuotientSign(b);
    RoundQuotientSign(c);
    RoundQuotientSign(d);
  }

  /** What clamping a negative phase at zero adds. */
  function Clamped(n: int): nat { if n < 0 then -n else 0 }

  /** What clamping adds to the phases. */
  function Added(round: int -> int, t0: int, provider: ProviderTiming, t3: int, t4: int): nat {
    Clamped(round(provider.receivedNs - t0)) + Clamped(round(provider.finishedNs - provider.receivedNs))
    + Clamped(round(t3 - provider.finishedNs)) + Clamped(round(t4 - t3))
  }

  lemma PhasesAccount(round: int -> int, sequence: int, t0: int, provider: ProviderTiming, t3: int, t4: int,
                      timedOut: bool, lastPhase: Option<string>)
    requires Adds(round, provider.receivedNs - t0, provider.finishedNs - provider.receivedNs, t3 - provider.finishedNs, t4 - t3, t4 - t0)
    ensures var s := CombineWith(round, sequence, t0, Some(provider), Some(t3), t4, timedOut, lastPhase);
            && Complete(s) && s.totalMs == AtLeastZero(round(t4 - t0))
            && round(t4 - t0) - 2 <= PhaseSum(s) - Added(round, t0, provider, t3, t4) <= round(t4 - t0) + 2
  {}

  /** The exact account, for any timestamps: the phases exceed the rounded total by what clamping adds, up to rounding. */
  lemma PhasesExact(sequence: int, t0: int, provider: ProviderTiming, t3: int, t4: int, timedOut: bool, lastPhase: Option<string>)
    ensures var s := Combine(sequence, t0, Some(provider), Some(t3), t4, timedOut, lastPhase);
            Complete(s) && ROUND(t4 - t0) - 2 <= PhaseSum(s) - Added(ROUND, t0, provider, t3, t4) <= ROUND(t4 - t0) + 2
  {
    RoundAdds(provider.receivedNs - t0, provider.finishedNs - provider.receivedNs, t3 - provider.finishedNs, t4 - t3, t4 - t0);
    PhasesAccount(ROUND, sequence, t0, provider, t3, t4, timedOut, lastPhase);
  }

  lemma PhasesCover(round: int -> int, sequence: int, t0: int, provider: ProviderTiming, t3: int, t4: int,
                    timedOut: bool, lastPhase: Option<string>, ordered: bool)
    requires var a, b, c, d := provider.receivedNs - t0, provider.finishedNs - provider.receivedNs, t3 - provider.finishedNs, t4 - t3;
             Adds(round, a, b, c, d, t4 - t0) && (ordered ==> round(a) >= 0 && round(b) >= 0 && round(c) >= 0 && round(d) >= 0)
    ensures var s := CombineWith(round, sequence, t0, Some(provider), Some(t3), t4, timedOut, lastPhase);
            Complete(s) && PhaseSum(s) >= s.totalMs - 2 && (ordered ==> PhaseSum(s) <= s.totalMs + 2)
  {
    PhasesAccount(round, sequence, t0, provider, t3, t4, timedOut, lastPhase);
  }

  /** The four phases account for the total, up to rounding, whatever order the clocks report. */
  lemma PhasesCoverTotal(sequence: int, t0: int, provider: ProviderTiming, t3: int, t4: int,
                         timedOut: bool, lastPhase: Option<string>)
    ensures var s := Combine(sequence, t0, Some(provider), Some(t3), t4, timedOut, lastPhase);
            && Complete(s)
            && PhaseSum(s) >= s.totalMs - 2
            && (t0 <= provider.receivedNs <= provider.finishedNs <= t3 <= t4 ==> PhaseSum(s) <= s.totalMs + 2)
  {
    var a, b, c, d := provider.receivedNs - t0, provider.finishedNs - provider.receivedNs, t3 - provider.finishedNs, t4 - t3;
    RoundAdds(a, b, c, d, t4 - t0);
    RoundSigns(a, b, c, d);
    PhasesCover(ROUND, sequence, t0, provider, t3, t4, timedOut, lastPhase, t0 <= provider.receivedNs <= provider.finishedNs <= t3 <= t4);
  }

  /** Both bounds are attained by ordered timestamps. */
  lemma BoundsAreTight()
    ensures var s := Combine(1, 0, Some(ProviderTiming(1, 499_999, 999_998)), Some(1_499_997), 1_999_996, false, None);
            Complete(s) && PhaseSum(s) == s.totalMs - 2
    ensures var s := Combine(1, 0, Some(ProviderTiming(1, 500_001, 1_000_002)), Some(1_500_003), 2_000_004, false, None);
            Complete(s) && PhaseSum(s) == s.totalMs + 2
  {
    assert RoundQuotient(499_999) == 0 && RoundQuotient(1_999_996) == 2;
    assert RoundQuotient(500_001) == 1 && RoundQuotient(2_000_004) == 2;
  }

  lemma RoundOfMultiple(k: int)
    ensures RoundQuotient(k * NS_PER_MS) == k
  {
    RoundQuotientUnique(k * NS_PER_MS, k);
  }

  /**
   Out of order, clamping makes the phases exceed the total: here by the whole of `late`, which is arbitrary, so by any
   number of milliseconds.
   */
  lemma UnorderedExcess(t: int, late: nat, lastPhase: Option<string>)
    ensures var s := Combine(1, t, Some(ProviderTiming(1, t + late, t)), Some(t), t, false, lastPhase);
            && Complete(s) && PhaseSum(s) == s.totalMs + RoundQuotient(late)
            && (late % NS_PER_MS == 0 ==> PhaseSum(s) == s.totalMs + late / NS_PER_MS)
  {
    RoundOfMultiple(late / NS_PER_MS);
    var early, none := t - (t + late), t - t;
    assert (t + late) - t == late;
    RoundQuotientSign(early);
    RoundQuotientSign(late);
    RoundQuotientSign(none);
  }
}
