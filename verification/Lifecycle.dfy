/**
 The generations together with `close_for_shutdown` (rust/src/runtime_lifecycle/manager.rs): what holds over every run,
 and exactly where closing at shutdown gives it up.
 */
module Lifecycle {
  import opened Generations
  import opened ResourceClose
  import opened Text

  // ----- the closer -----

  /**
   What the closer does with a slot: it looks at the state, marks the slot as closing, and calls `close`, a second time
   (`again`) if that failed; a forced call then closes the provider clients itself and records it.
   */
  datatype Stage = Look | Mark | Calling(call: Call, again: bool) | Forced(report: Report, again: bool)

  /**
   `close_for_shutdown`: it lists the slots, waits for the leases of each, aborts the retirement tasks it has taken if it
   is forced, and then sweeps over the slots.
   */
  datatype Closer =
    | NotStarted
    | Listing(first: nat, forced: bool)
    | Waiting(list: seq<nat>, k: nat, forced: bool)
    | Aborting(list: seq<nat>, taken: set<nat>)
    | Sweeping(list: seq<nat>, k: nat, stage: Stage, forced: bool, taken: set<nat>)

  /** `shut` are the slots that the closer has marked. */
  datatype System = System(g: State, closer: Closer, shut: set<nat>)

  datatype Move =
    | Other(step: Step)
    | ListActive(forced: bool) | ListRetiring | SeeDrained | DrainTimeout | StartSweep(timedOut: bool, taken: set<nat>)
    | AbortTask(slot: nat) | BeginLoop
    | LookAtSlot | MarkSlot | SweepCall(act: Act) | ForceShut | ForceRecord | Settle

  ghost predicate Distinct(list: seq<nat>) {
    forall i, j :: 0 <= i < j < |list| ==> list[i] != list[j]
  }

  /** The list with the slots of `more` that are not in it. */
  function Adopt(list: seq<nat>, more: seq<nat>): (r: seq<nat>)
    ensures list <= r && (forall i :: i in r <==> i in list || i in more) && (Distinct(list) ==> Distinct(r))
    decreases |more|
  {
    if more == [] then list
    else
      assert more == [more[0]] + more[1..];
      Adopt(if more[0] in list then list else list + [more[0]], more[1..])
  }

  predicate Fits(list: seq<nat>, n: nat) { forall j :: 0 <= j < |list| ==> list[j] < n }

  predicate Runs(task: Task) { !task.NoTask? && !task.Finished? && !task.Aborted? }

  /** A table of retirement tasks; one that was only just spawned may be missing from it. */
  predicate AllRun(slots: seq<Slot>, taken: set<nat>) { forall i :: i in taken ==> i < |slots| && Runs(slots[i].task) }

  predicate NoneRuns(slots: seq<Slot>, taken: set<nat>) { forall i :: i in taken && i < |slots| ==> !Runs(slots[i].task) }

  /** The steps of the closer up to the sweep, once `shutdown` was called. */
  function Prepare(g: State, c: Closer, move: Move): Closer
    requires c.Waiting? ==> Fits(c.list, |g.slots|)
  {
    match move
    case ListActive(forced) => if c.NotStarted? && g.m.shutdown then Listing(g.m.active, forced) else c
    case ListRetiring => if c.Listing? then Waiting(Adopt([c.first], g.m.retiring), 0, c.forced) else c
    case SeeDrained =>
      if c.Waiting? && c.k < |c.list| && g.slots[c.list[c.k]].activeLeases == 0 then Waiting(c.list, c.k + 1, c.forced) else c
    case DrainTimeout => if c.Waiting? && c.k < |c.list| then Waiting(c.list, c.k + 1, true) else c
    case StartSweep(timedOut, taken) =>
      if !c.Waiting? || c.k < |c.list| then c
      else if !c.forced && !timedOut then Sweeping(c.list, 0, Look, false, {})
      else if AllRun(g.slots, taken) then Aborting(c.list, taken)
      else c
    case BeginLoop => if c.Aborting? && NoneRuns(g.slots, c.taken) then Sweeping(c.list, 0, Look, true, c.taken) else c
    case _ => c
  }

  /** A step of the call of the sweep. */
  function SweepCallStep(x: Slot, c: Closer, act: Act): Option<(Slot, Closer)>
    requires c.Sweeping? && c.stage.Calling?
  {
    match CallStep(x.res, Sweep, JobsSeen(x.jobs), c.stage.call, act)
    case None => None
    case Some((r, d)) => Some((x.(res := r), Sweeping(c.list, c.k, Calling(d, c.stage.again), c.forced, c.taken)))
  }

  predicate HasReturned(stage: Stage) { stage.Calling? && stage.call.Returned? }

  /** The steps of the sweep at its slot `x`; `None` if the step is not enabled. */
  function SweepStep(x: Slot, c: Closer, move: Move): Option<(Slot, Closer)>
    requires c.Sweeping?
  {
    match move
    case LookAtSlot =>
      if !c.stage.Look? then None
      else if x.state == Closed then Some((x, Sweeping(c.list, c.k + 1, Look, c.forced, c.taken)))
      else Some((x, Sweeping(c.list, c.k, Mark, c.forced, c.taken)))
    case MarkSlot =>
      if !c.stage.Mark? then None
      else Some((x.(state := Closing), Sweeping(c.list, c.k, Calling(Outside, false), c.forced, c.taken)))
    case SweepCall(act) => if c.stage.Calling? then SweepCallStep(x, c, act) else None
    case ForceShut =>
      if HasReturned(c.stage) && (c.forced || c.stage.again) && !c.stage.call.report.shut then
        Some((x.(res := x.res.(shuts := x.res.shuts + 1)),
              Sweeping(c.list, c.k, Forced(c.stage.call.report, c.stage.again), c.forced, c.taken)))
      else None
    case ForceRecord =>
      if !c.stage.Forced? then None else
      var r := c.stage.report.(shut := true);
      Some((x.(res := x.res.(report := Some(r))), Sweeping(c.list, c.k, Calling(Returned(r), c.stage.again), c.forced, c.taken)))
    case Settle =>
      if !HasReturned(c.stage) || ((c.forced || c.stage.again) && !c.stage.call.report.shut) then None
      else if c.stage.call.report.failed && !c.stage.again then
        Some((x, Sweeping(c.list, c.k, Calling(Outside, true), true, c.taken)))
      else
        Some((x.(state := if c.stage.again then FailedClose else Closed), Sweeping(c.list, c.k + 1, Look, c.forced, c.taken)))
    case _ => None
  }

  predicate IsSweep(move: Move) {
    move.LookAtSlot? || move.MarkSlot? || move.SweepCall? || move.ForceShut? || move.ForceRecord? || move.Settle?
  }

  predicate Ready(s: System) {
    && WellFormed(s.g.m, |s.g.slots|)
    && (s.closer.Waiting? || s.closer.Aborting? || s.closer.Sweeping? ==> Fits(s.closer.list, |s.g.slots|))
  }

  /** One move of anyone; a move that is not enabled changes nothing. */
  function After(s: System, move: Move): System
    requires Ready(s)
  {
    var c := s.closer;
    if move.Other? then if move.step.Abort? then s else s.(g := Next(s.g, move.step))
    else if move.AbortTask? then if c.Aborting? && move.slot in c.taken then s.(g := Next(s.g, Abort(move.slot))) else s
    else if IsSweep(move) then
      if !c.Sweeping? || c.k >= |c.list| then s else
      match SweepStep(s.g.slots[c.list[c.k]], c, move)
      case None => s
      case Some((x, d)) =>
        System(s.g.(slots := s.g.slots[c.list[c.k] := x]), d, if move.MarkSlot? then s.shut + {c.list[c.k]} else s.shut)
    else s.(closer := Prepare(s.g, c, move))
  }

  // ----- the invariant -----

  predicate NoLeases(slots: seq<Slot>, list: seq<nat>, k: nat)
    requires k <= |list| && Fits(list, |slots|)
  {
    forall j :: 0 <= j < k ==> slots[list[j]].leased == 0
  }

  /** The provider clients of the first `k` slots are closed. */
  predicate Swept(slots: seq<Slot>, list: seq<nat>, k: nat)
    requires k <= |list| && Fits(list, |slots|)
  {
    forall j :: 0 <= j < k ==> PoolIsShut(slots[list[j]].res)
  }

  /** Nothing from position `k` on was marked. */
  predicate Unmarked(shut: set<nat>, list: seq<nat>, k: nat) {
    forall j :: k <= j < |list| ==> list[j] !in shut
  }

  predicate StageOk(stage: Stage, forced: bool, x: Slot) {
    && (stage.Forced? ==> forced || stage.again)
    && ((stage.Calling? || stage.Forced?) && stage.again ==> forced && x.res.report.Some? && x.res.report.value.failed)
  }

  predicate Marked(stage: Stage) { stage.Calling? || stage.Forced? }

  ghost predicate CloserOk(slots: seq<Slot>, shutdown: bool, c: Closer, shut: set<nat>) {
    match c
    case NotStarted => shut == {}
    case Listing(first, _) => shut == {} && shutdown && first < |slots|
    case Waiting(list, k, forced) =>
      && shut == {} && shutdown && Distinct(list) && Fits(list, |slots|) && k <= |list|
      && (forced || NoLeases(slots, list, k))
    case Aborting(list, taken) =>
      shut == {} && shutdown && Distinct(list) && Fits(list, |slots|) && forall i :: i in taken ==> i < |slots|
    case Sweeping(list, k, stage, forced, taken) =>
      && shutdown && Distinct(list) && Fits(list, |slots|) && k <= |list| && (stage != Look ==> k < |list|)
      && (forced || NoLeases(slots, list, |list|)) && Swept(slots, list, k)
      && (stage != Look ==> StageOk(stage, forced, slots[list[k]]))
      && (Marked(stage) ==> list[k] in shut) && Unmarked(shut, list, if Marked(stage) then k + 1 else k)
  }

  /** The part of the sweep in the close of slot `i`. */
  function SweepPart(c: Closer, i: nat): Call {
    if c.Sweeping? && c.k < |c.list| && c.list[c.k] == i then
      if c.stage.Calling? then c.stage.call else if c.stage.Forced? then Returned(c.stage.report) else Outside
    else Outside
  }

  predicate Forcing(c: Closer, i: nat) { c.Sweeping? && c.k < |c.list| && c.list[c.k] == i && c.stage.Forced? }

  ghost predicate ClosesOk(slots: seq<Slot>, c: Closer) {
    forall i :: 0 <= i < |slots| ==> SlotCloseOk(slots[i], SweepPart(c, i), Forcing(c, i))
  }

  /** Only tasks that the closer has taken were aborted. */
  predicate AbortsOk(slots: seq<Slot>, c: Closer) {
    forall i :: 0 <= i < |slots| && slots[i].task.Aborted? ==> (c.Aborting? || c.Sweeping?) && i in c.taken
  }

  /** Only discarded generations are closed by a reload. */
  predicate ReloadsOk(slots: seq<Slot>, discarded: set<nat>) {
    forall i :: 0 <= i < |slots| && !slots[i].reload.Outside? ==> i in discarded
  }

  ghost predicate SystemOk(s: System) {
    && Inv(s.g, s.shut) && CloserOk(s.g.slots, s.g.m.shutdown, s.closer, s.shut)
    && ClosesOk(s.g.slots, s.closer) && AbortsOk(s.g.slots, s.closer) && ReloadsOk(s.g.slots, s.g.m.discarded)
  }

  // ----- every move keeps it -----

  /** No lease is granted, no slot outside `shut` falls back, and no report is lost. */
  ghost predicate Follows(s: State, t: State, shut: set<nat>) {
    && |s.slots| <= |t.slots| && (s.m.shutdown ==> t.m.shutdown)
    && forall i :: 0 <= i < |s.slots| ==>
         && GrantsNone(s, t, i) && (i in shut || MovedOn(s, t, i))
         && (s.slots[i].res.report.Some? ==> t.slots[i].res.report == s.slots[i].res.report)
  }

  lemma NoLeasesKept(s: State, t: State, shut: set<nat>, list: seq<nat>, k: nat)
    requires Follows(s, t, shut) && s.m.shutdown && k <= |list| && Fits(list, |s.slots|) && NoLeases(s.slots, list, k)
    ensures NoLeases(t.slots, list, k)
  {
    forall j | 0 <= j < k ensures t.slots[list[j]].leased == 0 { assert GrantsNone(s, t, list[j]); }
  }

  lemma SweptKept(s: State, t: State, shut: set<nat>, list: seq<nat>, k: nat)
    requires Follows(s, t, shut) && k <= |list| && Fits(list, |s.slots|) && Swept(s.slots, list, k)
    ensures Swept(t.slots, list, k)
  {
    forall j | 0 <= j < k ensures PoolIsShut(t.slots[list[j]].res) { assert PoolIsShut(s.slots[list[j]].res); }
  }

  /** What the closer knows survives the steps of the others. */
  lemma CloserKept(s: State, t: State, c: Closer, shut: set<nat>)
    requires CloserOk(s.slots, s.m.shutdown, c, shut) && Follows(s, t, shut)
    ensures CloserOk(t.slots, t.m.shutdown, c, shut)
  {
    match c
    case Waiting(list, k, forced) => if !forced { NoLeasesKept(s, t, shut, list, k); }
    case Sweeping(list, k, stage, forced, _) =>
      if !forced { NoLeasesKept(s, t, shut, list, |list|); }
      SweptKept(s, t, shut, list, k);
    case _ =>
  }

  lemma StepFollows(s: State, shut: set<nat>, c: Closer, step: Step)
    requires Inv(s, shut) && ClosesOk(s.slots, c)
    ensures Follows(s, Next(s, step), shut)
  {
    var t := Next(s, step);
    forall i | 0 <= i < |s.slots|
      ensures GrantsNone(s, t, i) && (i in shut || MovedOn(s, t, i))
      ensures s.slots[i].res.report.Some? ==> t.slots[i].res.report == s.slots[i].res.report
    {
      StepIsMonotone(s, shut, step, i);
      StepKeepsReport(s, step, i, SweepPart(c, i), Forcing(c, i));
    }
    assert GrantsNone(s, t, |s.slots| - 1);
  }

  lemma NewSlotsUntouched(s: State, step: Step, j: nat)
    requires WellFormed(s.m, |s.slots|) && |s.slots| <= j < |Next(s, step).slots|
    ensures var x := Next(s, step).slots[j]; SlotCloseOk(x, Outside, false) && x.task == NoTask && x.reload == Outside
  {
    if IsSlotStep(step) {
      NextAt(s, step, 0);
    } else {
      OtherStepSameClose(s, step, 0);
    }
  }

  lemma StepKeepsCloses(s: State, c: Closer, step: Step)
    requires WellFormed(s.m, |s.slots|) && ClosesOk(s.slots, c)
    requires c.Sweeping? ==> Fits(c.list, |s.slots|)
    ensures ClosesOk(Next(s, step).slots, c)
  {
    var t := Next(s, step);
    forall i | 0 <= i < |t.slots| ensures SlotCloseOk(t.slots[i], SweepPart(c, i), Forcing(c, i)) {
      if i < |s.slots| {
        StepKeepsClose(s, step, i, SweepPart(c, i), Forcing(c, i));
      } else {
        NewSlotsUntouched(s, step, i);
      }
    }
  }

  /** A step aborts no task unless it says so. */
  lemma StepAborts(s: State, step: Step, i: nat)
    requires WellFormed(s.m, |s.slots|) && i < |s.slots|
    ensures i < |Next(s, step).slots|
    ensures Next(s, step).slots[i].task.Aborted? ==> s.slots[i].task.Aborted? || step == Abort(i)
    ensures s.slots[i].task.Aborted? ==> Next(s, step).slots[i].task == s.slots[i].task
  {
    if IsSlotStep(step) {
      NextAt(s, step, i);
      if step.slot == i && SlotStep(s.slots[i], step).Some? && IsJobStep(step) { JobStepElsewhere(s.slots[i], step); }
    } else if !IsManagerStep(step) && s.m.swap.Some? {
      var w := s.m.swap.value;
      SwapStepRewrites(s.m, w, s.slots[w.previous], s.slots[w.next], step);
    }
  }

  lemma StepKeepsAborts(s: State, c: Closer, step: Step)
    requires WellFormed(s.m, |s.slots|) && AbortsOk(s.slots, c)
    requires step.Abort? ==> (c.Aborting? || c.Sweeping?) && step.slot in c.taken
    ensures AbortsOk(Next(s, step).slots, c)
  {
    var t := Next(s, step);
    forall i | 0 <= i < |t.slots| && t.slots[i].task.Aborted? ensures (c.Aborting? || c.Sweeping?) && i in c.taken {
      if i < |s.slots| {
        StepAborts(s, step, i);
      } else {
        NewSlotsUntouched(s, step, i);
      }
    }
  }

  lemma StepKeepsReloads(s: State, step: Step)
    requires WellFormed(s.m, |s.slots|) && ReloadsOk(s.slots, s.m.discarded)
    ensures ReloadsOk(Next(s, step).slots, Next(s, step).m.discarded)
  {
    var t := Next(s, step);
    forall i | 0 <= i < |t.slots| && !t.slots[i].reload.Outside? ensures i in t.m.discarded {
      if i >= |s.slots| {
        NewSlotsUntouched(s, step, i);
      } else if IsSlotStep(step) {
        NextAt(s, step, i);
        if step.slot == i && IsJobStep(step) && SlotStep(s.slots[i], step).Some? { JobStepElsewhere(s.slots[i], step); }
      } else {
        OtherStepSameClose(s, step, i);
      }
    }
  }

  lemma StepKeepsInv(s: System, step: Step)
    requires SystemOk(s) && (step.Abort? ==> s.closer.Aborting? && step.slot in s.closer.taken)
    ensures SystemOk(s.(g := Next(s.g, step)))
  {
    NextKeepsInv(s.g, s.shut, step);
    StepFollows(s.g, s.shut, s.closer, step);
    CloserKept(s.g, Next(s.g, step), s.closer, s.shut);
    StepKeepsCloses(s.g, s.closer, step);
    StepKeepsAborts(s.g, s.closer, step);
    StepKeepsReloads(s.g, step);
  }

  lemma {:induction false} AdoptFits(first: nat, more: seq<nat>, n: nat)
    requires first < n && forall i :: i in more ==> i < n
    ensures Fits(Adopt([first], more), n) && Distinct(Adopt([first], more))
  {
    var list := Adopt([first], more);
    forall j | 0 <= j < |list| ensures list[j] < n { assert list[j] in list; }
  }

  lemma PrepareKeepsCloser(s: System, move: Move)
    requires SystemOk(s)
    ensures CloserOk(s.g.slots, s.g.m.shutdown, Prepare(s.g, s.closer, move), s.shut)
  {
    var c := s.closer;
    if move.SeeDrained? && c.Waiting? && c.k < |c.list| { assert AlwaysOk(s.g.slots[c.list[c.k]]); }
    if move.ListRetiring? && c.Listing? { AdoptFits(c.first, s.g.m.retiring, |s.g.slots|); }
  }

  lemma PrepareKeepsInv(s: System, move: Move)
    requires SystemOk(s)
    ensures SystemOk(s.(closer := Prepare(s.g, s.closer, move)))
  {
    PrepareKeepsCloser(s, move);
    var d := Prepare(s.g, s.closer, move);
    if d != s.closer {
      assert forall i: nat :: SweepPart(d, i) == SweepPart(s.closer, i) == Outside && !Forcing(d, i) && !Forcing(s.closer, i);
    }
  }

  /** The sweep keeps the close of its slot in order. */
  lemma SweepCloseOk(x: Slot, c: Closer, move: Move)
    requires c.Sweeping? && c.k < |c.list| && Distinct(c.list) && SweepStep(x, c, move).Some?
    requires SlotCloseOk(x, SweepPart(c, c.list[c.k]), Forcing(c, c.list[c.k])) && StageOk(c.stage, c.forced, x)
    ensures var (y, d) := SweepStep(x, c, move).value;
            SlotCloseOk(y, SweepPart(d, c.list[c.k]), Forcing(d, c.list[c.k]))
  {
    if move.SweepCall? { SweepStepOk(x.res, CallsOf(x, c.stage.call), Stranded(x), JobsSeen(x.jobs), move.act); }
  }

  /** The sweep leaves leases, jobs and task of its slot alone, and keeps a recorded failure. */
  lemma SweepTouches(x: Slot, c: Closer, move: Move)
    requires c.Sweeping? && c.k < |c.list| && SweepStep(x, c, move).Some?
    requires SlotCloseOk(x, SweepPart(c, c.list[c.k]), Forcing(c, c.list[c.k]))
    ensures var (y, d) := SweepStep(x, c, move).value;
            && y == x.(state := y.state, res := y.res)
            && (x.res.report.Some? ==> y.res.report.Some? && y.res.report.value.failed == x.res.report.value.failed)
            && (PoolIsShut(x.res) ==> PoolIsShut(y.res)) && (y.res.report.Some? ==> y.res.report.value.failed || y.res.report.value.shut)
            && d.Sweeping? && d.list == c.list && d.taken == c.taken && (d.k == c.k || (d.k == c.k + 1 && d.stage == Look))
            && (c.forced ==> d.forced)
  {}

  /** The sweep goes on from a slot when its provider clients are closed. */
  lemma SweepGoesOn(x: Slot, c: Closer, move: Move)
    requires c.Sweeping? && c.k < |c.list| && SweepStep(x, c, move).Some?
    requires SlotCloseOk(x, SweepPart(c, c.list[c.k]), Forcing(c, c.list[c.k]))
    requires c.stage.Look? ==> TaskOk(x)
    ensures var (y, d) := SweepStep(x, c, move).value; d.k == c.k + 1 ==> PoolIsShut(y.res)
  {}

  /** The stage that follows, and what it says of the slot. */
  lemma SweepStageOk(x: Slot, c: Closer, move: Move)
    requires c.Sweeping? && c.k < |c.list| && SweepStep(x, c, move).Some?
    requires SlotCloseOk(x, SweepPart(c, c.list[c.k]), Forcing(c, c.list[c.k])) && StageOk(c.stage, c.forced, x)
    ensures var (y, d) := SweepStep(x, c, move).value;
            && (d.k == c.k ==> d.stage != Look && StageOk(d.stage, d.forced, y) && (Marked(d.stage) <==> Marked(c.stage) || move.MarkSlot?))
            && (d.k == c.k + 1 ==> (Marked(c.stage) <==> !move.LookAtSlot?))
            && (d.forced ==> c.forced || Marked(d.stage) || d.stage == Look)
  {}

  lemma SweepKeepsCloser(slots: seq<Slot>, c: Closer, shut: set<nat>, move: Move)
    requires CloserOk(slots, true, c, shut) && ClosesOk(slots, c) && c.Sweeping? && c.k < |c.list|
    requires SweepStep(slots[c.list[c.k]], c, move).Some? && (c.stage.Look? ==> TaskOk(slots[c.list[c.k]]))
    ensures var i, (x, d) := c.list[c.k], SweepStep(slots[c.list[c.k]], c, move).value;
            CloserOk(slots[i := x], true, d, if move.MarkSlot? then shut + {i} else shut)
  {
    var i := c.list[c.k];
    var (x, d) := SweepStep(slots[i], c, move).value;
    SweepTouches(slots[i], c, move);
    SweepGoesOn(slots[i], c, move);
    SweepStageOk(slots[i], c, move);
    var after := slots[i := x];
    assert Swept(after, d.list, d.k) by {
      forall j | 0 <= j < d.k ensures PoolIsShut(after[d.list[j]].res) { assert j < c.k ==> PoolIsShut(slots[c.list[j]].res); }
    }
    assert d.forced || NoLeases(after, d.list, |d.list|);
  }

  lemma SweepKeepsCloses(slots: seq<Slot>, c: Closer, move: Move)
    requires c.Sweeping? && c.k < |c.list| && Distinct(c.list) && Fits(c.list, |slots|) && ClosesOk(slots, c)
    requires SweepStep(slots[c.list[c.k]], c, move).Some? && StageOk(c.stage, c.forced, slots[c.list[c.k]])
    ensures var i, (x, d) := c.list[c.k], SweepStep(slots[c.list[c.k]], c, move).value;
            ClosesOk(slots[i := x], d)
  {
    var i := c.list[c.k];
    var (x, d) := SweepStep(slots[i], c, move).value;
    SweepCloseOk(slots[i], c, move);
    SweepTouches(slots[i], c, move);
    var after := slots[i := x];
    forall j | 0 <= j < |after| ensures SlotCloseOk(after[j], SweepPart(d, j), Forcing(d, j)) {
      if j != i { assert SweepPart(d, j) == SweepPart(c, j) == Outside && !Forcing(d, j); }
    }
  }

  lemma SweepKeepsInv(s: System, move: Move)
    requires SystemOk(s) && IsSweep(move)
    ensures SystemOk(After(s, move))
  {
    var c := s.closer;
    if c.Sweeping? && c.k < |c.list| && SweepStep(s.g.slots[c.list[c.k]], c, move).Some? {
      var i := c.list[c.k];
      var x := s.g.slots[i];
      assert AlwaysOk(x) && (i in s.shut || SlotOk(s.g.m, i, x));
      SweepKeepsCloser(s.g.slots, c, s.shut, move);
      SweepKeepsCloses(s.g.slots, c, move);
      SweepTouches(x, c, move);
      SweepKeepsGenerations(s, move);
    }
  }

  lemma SweepKeepsGenerations(s: System, move: Move)
    requires SystemOk(s) && IsSweep(move)
    ensures Inv(After(s, move).g, After(s, move).shut) && AbortsOk(After(s, move).g.slots, After(s, move).closer)
    ensures ReloadsOk(After(s, move).g.slots, After(s, move).g.m.discarded)
  {
    var c := s.closer;
    if c.Sweeping? && c.k < |c.list| && SweepStep(s.g.slots[c.list[c.k]], c, move).Some? {
      var i := c.list[c.k];
      var x := s.g.slots[i];
      var (y, d) := SweepStep(x, c, move).value;
      SweepTouches(x, c, move);
      assert AlwaysOk(x) && AlwaysOk(y);
      if !Marked(c.stage) && !move.MarkSlot? { assert y == x; }
    }
  }

  lemma AfterKeepsInv(s: System, move: Move)
    requires SystemOk(s)
    ensures SystemOk(After(s, move))
  {
    if move.Other? {
      if !move.step.Abort? { StepKeepsInv(s, move.step); }
    } else if move.AbortTask? {
      if s.closer.Aborting? && move.slot in s.closer.taken { StepKeepsInv(s, Abort(move.slot)); }
    } else if IsSweep(move) {
      SweepKeepsInv(s, move);
    } else {
      PrepareKeepsInv(s, move);
    }
  }

  // ----- runs -----

  function Start(generation: nat): System { System(Init(generation), NotStarted, {}) }

  lemma StartOk(generation: nat)
    ensures SystemOk(Start(generation))
  {
    InitOk(generation);
  }

  ghost function Run(s: System, moves: seq<Move>): (t: System)
    requires SystemOk(s)
    ensures SystemOk(t)
  {
    if moves == [] then s
    else
      var before := Run(s, moves[..|moves| - 1]);
      AfterKeepsInv(before, moves[|moves| - 1]);
      After(before, moves[|moves| - 1])
  }

  /** A generation in use is not closed under its users. */
  predicate InUseIsOpen(x: Slot) {
    && (x.leased > 0 ==> Early(x.state) || x.state == FailedClose)
    && (Held(x.jobs) > 0 ==> x.state != Closing && x.state != Closed)
  }

  /** Unless the reload that discarded it closes it, its provider clients are closed without users. */
  predicate ShutUnused(x: Slot) {
    x.res.shuts > 0 && x.reload.Outside? ==> x.leased == 0 && Held(x.jobs) == 0
  }

  lemma SlotInUseIsOpen(s: System, i: nat)
    requires SystemOk(s) && i < |s.g.slots|
    ensures var x := s.g.slots[i];
            && CountsOk(x) && x.res.drains <= 1 && x.res.shuts <= 1
            && (i in s.shut || (InUseIsOpen(x) && ShutUnused(x)))
  {
    var x := s.g.slots[i];
    assert AlwaysOk(x) && (i in s.shut || SlotOk(s.g.m, i, x));
    assert SlotCloseOk(x, SweepPart(s.closer, i), Forcing(s.closer, i));
    ClosedOnce(x.res, CallsOf(x, SweepPart(s.closer, i)), Stranded(x), Forcing(s.closer, i));
  }

  /**
   However requests, finalization jobs, reloads, retirements and the close at shutdown interleave: the counters never
   underflow, the jobs of a generation are drained at most once and its provider clients closed at most once; and until
   shutdown marks a generation, it is not closed while a lease or a finalization guard on it is alive.
   */
  lemma {:induction false} InUseIsNeverClosed(generation: nat, moves: seq<Move>, i: nat)
    ensures SystemOk(Start(generation))
    ensures var t := Run(Start(generation), moves);
            i < |t.g.slots| ==>
              var x := t.g.slots[i];
              && x.activeLeases == x.leased && x.references == Held(x.jobs) + Tentative(x.jobs)
              && x.res.drains <= 1 && x.res.shuts <= 1
              && (i !in t.shut ==> InUseIsOpen(x) && ShutUnused(x))
  {
    StartOk(generation);
    var t := Run(Start(generation), moves);
    if i < |t.g.slots| { SlotInUseIsOpen(t, i); }
  }

  /** When the sweep is over, the provider clients of every generation it adopted are closed, once. */
  lemma {:induction false} EveryGenerationSwept(generation: nat, moves: seq<Move>, i: nat)
    ensures SystemOk(Start(generation))
    ensures var t := Run(Start(generation), moves);
            t.closer.Sweeping? && t.closer.k == |t.closer.list| && i in t.closer.list ==>
              i < |t.g.slots| && PoolIsShut(t.g.slots[i].res) && t.g.slots[i].res.shuts == 1
  {
    StartOk(generation);
    var t := Run(Start(generation), moves);
    var c := t.closer;
    if c.Sweeping? && c.k == |c.list| && i in c.list {
      var j :| 0 <= j < |c.list| && c.list[j] == i;
      assert PoolIsShut(t.g.slots[c.list[j]].res);
      assert SlotCloseOk(t.g.slots[i], SweepPart(c, i), Forcing(c, i));
      ClosedOnce(t.g.slots[i].res, CallsOf(t.g.slots[i], Outside), Stranded(t.g.slots[i]), false);
    }
  }

  /** Only the active slot accepts; every slot still open is active, staged, retiring or discarded; at most four retire. */
  lemma {:induction false} NoGenerationIsLost(generation: nat, moves: seq<Move>, i: nat)
    ensures SystemOk(Start(generation))
    ensures var t := Run(Start(generation), moves);
            && |t.g.m.retiring| <= MAX_RETIRING_GENERATIONS
            && (i < |t.g.slots| && i !in t.shut ==>
                  && Tracked(t.g.m, i, t.g.slots[i]) && (t.g.slots[i].accepting ==> i == t.g.m.active)
                  && (t.g.slots[i].leased > 0 ==> Current(t.g.m, i) || i in t.g.m.retiring))
  {
    StartOk(generation);
    var t := Run(Start(generation), moves);
    if i < |t.g.slots| && i !in t.shut { assert SlotOk(t.g.m, i, t.g.slots[i]); }
  }

  /** The sweep leaves the leases alone, and changes the state of the slot it has marked only. */
  lemma SweepFollows(s: System, move: Move, i: nat)
    requires SystemOk(s) && IsSweep(move) && i < |s.g.slots|
    ensures var t := After(s, move);
            && t.g.m == s.g.m && |t.g.slots| == |s.g.slots| && s.shut <= t.shut
            && t.g.slots[i].leased == s.g.slots[i].leased && t.g.slots[i].jobs == s.g.slots[i].jobs
            && t.g.slots[i].task == s.g.slots[i].task && t.g.slots[i].reload == s.g.slots[i].reload
            && (i in t.shut || t.g.slots[i] == s.g.slots[i])
  {
    var c := s.closer;
    if c.Sweeping? && c.k < |c.list| && SweepStep(s.g.slots[c.list[c.k]], c, move).Some? {
      assert SlotCloseOk(s.g.slots[c.list[c.k]], SweepPart(c, c.list[c.k]), Forcing(c, c.list[c.k]));
      SweepTouches(s.g.slots[c.list[c.k]], c, move);
    }
  }

  lemma MoveFollows(s: System, move: Move, i: nat)
    requires SystemOk(s) && i < |s.g.slots|
    ensures var t := After(s, move);
            s.shut <= t.shut && GrantsNone(s.g, t.g, i) && (i in t.shut || MovedOn(s.g, t.g, i))
  {
    if move.Other? {
      StepIsMonotone(s.g, s.shut, move.step, i);
    } else if move.AbortTask? {
      StepIsMonotone(s.g, s.shut, Abort(move.slot), i);
    } else if IsSweep(move) {
      SweepFollows(s, move, i);
    }
  }

  /** The lifecycle only moves on until shutdown marks a generation; after shutdown no lease is granted any more. */
  lemma {:induction false} LifecycleMonotone(s: System, moves: seq<Move>, i: nat)
    requires SystemOk(s) && i < |s.g.slots|
    ensures var t := Run(s, moves);
            s.shut <= t.shut && GrantsNone(s.g, t.g, i) && (i in t.shut || MovedOn(s.g, t.g, i))
  {
    if moves != [] {
      var n := |moves| - 1;
      LifecycleMonotone(s, moves[..n], i);
      MoveFollows(Run(s, moves[..n]), moves[n], i);
    }
  }
}
