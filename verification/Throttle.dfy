/** The rate- and volume-capped background writer of scripts/qualification_sbc.py. */
module Throttle {

  const CHUNK := 64 * 1024
  const MIB := 1024 * 1024
  const COMPETING_IO_MAX_MIB_PER_SECOND := 4
  const COMPETING_IO_MAX_MIB := 128

  datatype Fault = NoFault | WriteFails | SyncFails

  /**
   What the writer meets in pass `k` of its loop, with times in seconds since it started: whether the stop
   event is already set, when it writes, when it reads the clock, when it resumes, and whether the disk raises.
   */
  datatype Schedule = Schedule(
    stop: nat -> bool, write: nat -> real, clock: nat -> real, resume: nat -> real, fault: nat -> Fault)

  /** Seconds after which `written` bytes are due. */
  function Due(written: nat, rate: nat): real
    requires rate > 0
  {
    written as real / (rate * MIB) as real
  }

  function LeastNat(a: nat, b: nat): nat { if a < b then a else b }

  /** Bytes written once pass `k` is over. */
  function After(k: nat, limit: nat): nat { LeastNat((k + 1) * CHUNK, limit) }

  /** Time does not go back, the stop event stays set, and `wait` ends at its deadline or when stopped. */
  ghost predicate Faithful(s: Schedule, rate: nat, limit: nat)
    requires rate > 0
  {
    forall k: nat ::
      && 0.0 <= s.write(k) <= s.clock(k) <= s.resume(k) <= s.write(k + 1)
      && (s.stop(k) ==> s.stop(k + 1))
      && (s.clock(k) < Due(After(k, limit), rate) ==> s.stop(k + 1) || s.resume(k) >= Due(After(k, limit), rate))
  }

  /** The file at one moment. */
  datatype Sample = Sample(time: real, written: nat, synced: nat)

  /** Volume, rate and unsynced bytes are within their bounds. */
  predicate Bounded(x: Sample, rate: nat, limit: nat) {
    && x.synced <= x.written <= limit
    && x.written as real <= (rate * MIB) as real * x.time + CHUNK as real
    && x.written - x.synced <= MIB
  }

  datatype Outcome = Outcome(bytesWritten: nat, failed: bool)

  lemma DueBound(written: nat, rate: nat, time: real)
    requires rate > 0 && time >= Due(written, rate)
    ensures written as real <= (rate * MIB) as real * time
  {
    var perSecond := (rate * MIB) as real;
    assert perSecond > 0.0;
    assert perSecond * Due(written, rate) == written as real;
    assert perSecond * (time - Due(written, rate)) >= 0.0;
  }

  /** The disk raises in pass `k`: on the write, or on the fsync if this pass completes a mebibyte. */
  predicate Raises(s: Schedule, k: nat, limit: nat) {
    s.fault(k) == WriteFails || (s.fault(k) == SyncFails && After(k, limit) % MIB == 0)
  }

  ghost predicate NoneRaised(s: Schedule, passes: nat, limit: nat) {
    forall k :: 0 <= k < passes ==> !Raises(s, k, limit)
  }

  lemma NoneRaisedPush(s: Schedule, passes: nat, limit: nat)
    requires NoneRaised(s, passes, limit) && !Raises(s, passes, limit)
    ensures NoneRaised(s, passes + 1, limit)
  {}

  ghost predicate LogSound(log: seq<Sample>, rate: nat, limit: nat) {
    && (forall i :: 0 <= i < |log| ==> Bounded(log[i], rate, limit))
    && (forall i, j :: 0 <= i < j < |log| ==>
          log[i].time <= log[j].time && log[i].written <= log[j].written && log[i].synced <= log[j].synced)
  }

  lemma LogPush(log: seq<Sample>, x: Sample, rate: nat, limit: nat)
    requires LogSound(log, rate, limit) && log != [] && Bounded(x, rate, limit)
    requires var last := log[|log| - 1]; last.time <= x.time && last.written <= x.written && last.synced <= x.synced
    ensures LogSound(log + [x], rate, limit)
  {
    var more, last := log + [x], log[|log| - 1];
    forall i, j | 0 <= i < j < |more|
      ensures more[i].time <= more[j].time && more[i].written <= more[j].written && more[i].synced <= more[j].synced
    {
      assert i < |log| - 1 ==> log[i].time <= last.time && log[i].written <= last.written && log[i].synced <= last.synced;
    }
  }

  /** A write at or after the time its predecessors were due keeps within the rate. */
  lemma WriteBounded(time: real, written: nat, synced: nat, rate: nat, limit: nat)
    requires rate > 0 && time >= Due(written, rate) && written + CHUNK <= limit
    requires synced <= written && written + CHUNK - synced <= MIB
    ensures Bounded(Sample(time, written + CHUNK, synced), rate, limit)
  {
    DueBound(written, rate, time);
  }

  lemma SyncBounded(before: Sample, time: real, rate: nat, limit: nat)
    requires rate > 0 && Bounded(before, rate, limit) && before.time <= time
    ensures Bounded(Sample(time, before.written, before.written), rate, limit)
  {
    var perSecond := (rate * MIB) as real;
    assert perSecond * (time - before.time) >= 0.0;
  }

  /** `write_competing_io`. The log holds the file after every write and after every fsync. */
  method WriteCompetingIo(rate: nat, maxMib: nat, s: Schedule, finalSyncFails: bool)
    returns (outcome: Outcome, log: seq<Sample>, passes: nat)
    requires 1 <= rate <= COMPETING_IO_MAX_MIB_PER_SECOND && 1 <= maxMib <= COMPETING_IO_MAX_MIB
    requires Faithful(s, rate, maxMib * MIB)
    ensures LogSound(log, rate, maxMib * MIB) && log != []
    ensures outcome.bytesWritten == log[|log| - 1].written
    ensures !outcome.failed ==> log[|log| - 1].synced == outcome.bytesWritten == passes * CHUNK
    ensures !outcome.failed ==>
              s.stop(passes) || (outcome.bytesWritten == maxMib * MIB && log[|log| - 1].time >= Due(maxMib * MIB, rate))
    ensures outcome.failed ==> finalSyncFails || Raises(s, passes, maxMib * MIB)
    ensures !outcome.failed ==> !finalSyncFails && NoneRaised(s, passes, maxMib * MIB)
  {
    var limit, written, synced := maxMib * MIB, 0, 0;
    passes, log := 0, [Sample(0.0, 0, 0)];
    while !s.stop(passes) && written < limit
      invariant written == passes * CHUNK <= limit
      invariant synced == passes / 16 * MIB
      invariant LogSound(log, rate, limit) && log != []
      invariant log[|log| - 1].written == written && log[|log| - 1].synced == synced
      invariant log[|log| - 1].time <= s.write(passes)
      invariant s.stop(passes) || s.write(passes) >= Due(written, rate)
      invariant NoneRaised(s, passes, limit)
      decreases limit - written
    {
      PassBytes(passes, maxMib);
      var chunk := LeastNat(CHUNK, limit - written);
      if s.fault(passes) == WriteFails {
        return Outcome(written, true), log, passes;
      }
      WriteBounded(s.write(passes), written, synced, rate, limit);
      written := written + chunk;
      var wrote := Sample(s.write(passes), written, synced);
      LogPush(log, wrote, rate, limit);
      log := log + [wrote];
      if written % MIB == 0 {
        if s.fault(passes) == SyncFails {
          return Outcome(written, true), log, passes;
        }
        synced := written;
        SyncBounded(wrote, s.clock(passes), rate, limit);
        LogPush(log, Sample(s.clock(passes), written, synced), rate, limit);
        log := log + [Sample(s.clock(passes), written, synced)];
      }
      NoneRaisedPush(s, passes, limit);
      passes := passes + 1;
    }
    if finalSyncFails { return Outcome(written, true), log, passes; }
    SyncBounded(log[|log| - 1], s.write(passes), rate, limit);
    LogPush(log, Sample(s.write(passes), written, written), rate, limit);
    log := log + [Sample(s.write(passes), written, written)];
    outcome := Outcome(written, false);
  }

  /** A mebibyte is 16 chunks, so every sixteenth pass syncs. */
  lemma PassCount(k: nat)
    ensures k / 16 * 16 <= k < k / 16 * 16 + 16
    ensures if (k + 1) % 16 == 0 then (k + 1) / 16 * 16 == k + 1 else (k + 1) / 16 == k / 16
  {}

  lemma ChunksDivide(k: nat)
    ensures k * CHUNK % MIB == 0 <==> k % 16 == 0
  {
    assert MIB == 16 * CHUNK;
    var d, m := k / 16, k % 16;
    assert k * CHUNK == d * MIB + m * CHUNK;
    assert 0 <= m * CHUNK < MIB;
  }

  lemma PassBytes(k: nat, maxMib: nat)
    requires k * CHUNK < maxMib * MIB
    ensures (k + 1) * CHUNK <= maxMib * MIB && After(k, maxMib * MIB) == (k + 1) * CHUNK
    ensures k * CHUNK + CHUNK - k / 16 * MIB <= MIB && k / 16 * MIB <= k * CHUNK
    ensures (k + 1) * CHUNK % MIB == 0 <==> (k + 1) % 16 == 0
    ensures (k + 1) % 16 == 0 ==> (k + 1) / 16 * MIB == (k + 1) * CHUNK
    ensures (k + 1) % 16 != 0 ==> (k + 1) / 16 == k / 16
  {
    PassCount(k);
    ChunksDivide(k + 1);
  }
}
