/** How `close_for_shutdown` ends (rust/src/runtime_lifecycle/manager.rs): whether it finishes, and whom it closes under. */
module Shutdown {
  import opened Generations
  import opened Lifecycle
  import opened ResourceClose
  import opened Text

  lemma RunMore(s: System, moves: seq<Move>, move: Move) returns (more: seq<Move>)
    requires SystemOk(s)
    ensures more == moves + [move] && Run(s, more) == After(Run(s, moves), move)
  {
    more := moves + [move];
    assert more[..|moves|] == moves;
  }

  // ----- the sweep makes progress -----

  /** The slot that the sweep is at. */
  ghost predicate AtSlot(s: System) { SystemOk(s) && s.closer.Sweeping? && s.closer.k < |s.closer.list| }

  function IndexAt(s: System): nat
    requires AtSlot(s)
  {
    s.closer.list[s.closer.k]
  }

  function SlotAt(s: System): Slot
    requires AtSlot(s)
  {
    s.g.slots[IndexAt(s)]
  }

  function OwnerLeft(c: Call): nat {
    if c.Draining? || c.Sleeping? then 3 else if c.Drained? then 2 else if c.Undrained? || c.PoolShut? then 1 else 0
  }

  /** An upper bound on the steps that a call of the sweep still needs. */
  function CallLeft(x: Slot, c: Call): nat {
    match c
    case Outside => 18
    case Awaiting => 8 + OwnerLeft(CallsOf(x, c).retirement) + OwnerLeft(x.reload)
    case Returned(r) => if r.shut then 1 else 5
    case _ => 7 + OwnerLeft(c)
  }

  function StageLeft(x: Slot, stage: Stage): nat {
    match stage
    case Look => 60
    case Mark => 59
    case Calling(c, again) => CallLeft(x, c) + (if again then 0 else 30)
    case Forced(_, again) => if again then 3 else 33
  }

  /** The owner of a close can always take this step. */
  function OwnerAct(c: Call): Act {
    if c.Draining? || c.Sleeping? then GiveUp else if c.Drained? then ShutPool else Record
  }

  /** What the sweep does next, or the caller that it waits for. */
  function NextMove(x: Slot, i: nat, c: Closer): Move
    requires c.Sweeping?
  {
    match c.stage
    case Look => LookAtSlot
    case Mark => MarkSlot
    case Forced(_, _) => ForceRecord
    case Calling(call, again) =>
      if call.Outside? then SweepCall(Enter)
      else if call.Returned? then if (c.forced || again) && !call.report.shut then ForceShut else Settle
      else if !call.Awaiting? then SweepCall(OwnerAct(call))
      else if x.res.report.Some? then SweepCall(ReadRecord)
      else if Owns(CallsOf(x, call).retirement) then Other(RetireCall(i, OwnerAct(x.task.call)))
      else Other(ReloadCall(i, OwnerAct(x.reload)))
  }

  /** The drain of this generation found no jobs. */
  predicate WellDrained(x: Slot, sweep: Call) {
    var k := CallsOf(x, sweep);
    || k.retirement.Drained? || k.retirement.PoolShut? || k.reload.Drained? || k.reload.PoolShut? || sweep.Drained? || sweep.PoolShut?
    || (x.res.report.Some? && !x.res.report.value.failed)
  }

  /** A step of the sweep brings it nearer to the end of its slot. */
  lemma SweepProgress(x: Slot, c: Closer)
    requires c.Sweeping? && c.k < |c.list| && SlotCloseOk(x, SweepPart(c, c.list[c.k]), Forcing(c, c.list[c.k]))
    requires IsSweep(NextMove(x, c.list[c.k], c))
    ensures SweepStep(x, c, NextMove(x, c.list[c.k], c)).Some?
    ensures var (y, d) := SweepStep(x, c, NextMove(x, c.list[c.k], c)).value;
            d.Sweeping? && d.list == c.list && (d.k == c.k + 1 || (d.k == c.k && StageLeft(y, d.stage) < StageLeft(x, c.stage)))
  {}

  /** So does a step of the owner that it waits for. */
  lemma OwnerProgress(x: Slot, i: nat, c: Closer)
    requires c.Sweeping? && c.k < |c.list| && c.list[c.k] == i && SlotCloseOk(x, SweepPart(c, i), Forcing(c, i)) && !Stranded(x)
    requires !IsSweep(NextMove(x, i, c))
    ensures c.stage.Calling? && c.stage.call.Awaiting? && NextMove(x, i, c).Other?
    ensures var step := NextMove(x, i, c).step;
            && (step.RetireCall? || (step.ReloadCall? && !x.reload.Outside?)) && step.slot == i && SlotStep(x, step).Some?
            && StageLeft(SlotStep(x, step).value, c.stage) < StageLeft(x, c.stage)
  {
    assert Owns(CallsOf(x, c.stage.call).retirement) || Owns(x.reload);
  }

  /** A generation that was drained well stays so, and its report will not be a failure. */
  lemma SweepDrained(x: Slot, c: Closer, move: Move)
    requires c.Sweeping? && c.k < |c.list| && SlotCloseOk(x, SweepPart(c, c.list[c.k]), Forcing(c, c.list[c.k]))
    requires SweepStep(x, c, move).Some? && WellDrained(x, SweepPart(c, c.list[c.k])) && StageOk(c.stage, c.forced, x)
    ensures var (y, d) := SweepStep(x, c, move).value;
            if d.k == c.k then WellDrained(y, SweepPart(d, c.list[c.k])) else y.state == Closed
  {}

  lemma SlotStepDrained(x: Slot, step: Step, sweep: Call, forcing: bool)
    requires SlotStep(x, step).Some? && SlotCloseOk(x, sweep, forcing) && WellDrained(x, sweep)
    ensures WellDrained(SlotStep(x, step).value, sweep)
  {
    if IsJobStep(step) { JobStepElsewhere(x, step); }
  }

  /** Nobody comes, nobody goes. */
  ghost predicate SameUsers(s: State, t: State) {
    && t.m == s.m && |t.slots| == |s.slots|
    && forall i :: 0 <= i < |s.slots| ==>
         t.slots[i].leased == s.slots[i].leased && t.slots[i].jobs == s.slots[i].jobs && Stranded(t.slots[i]) == Stranded(s.slots[i])
  }

  ghost predicate Nearer(s: System, t: System)
    requires AtSlot(s)
  {
    && SystemOk(t) && t.closer.Sweeping? && t.closer.list == s.closer.list && SameUsers(s.g, t.g)
    && if t.closer.k == s.closer.k then
         && t.closer.k < |t.closer.list| && StageLeft(t.g.slots[IndexAt(s)], t.closer.stage) < StageLeft(SlotAt(s), s.closer.stage)
         && (WellDrained(SlotAt(s), SweepPart(s.closer, IndexAt(s))) ==>
               WellDrained(t.g.slots[IndexAt(s)], SweepPart(t.closer, IndexAt(s))))
       else
         && t.closer.k == s.closer.k + 1
         && (WellDrained(SlotAt(s), SweepPart(s.closer, IndexAt(s))) ==> t.g.slots[IndexAt(s)].state == Closed)
  }

  lemma SweepNearer(s: System)
    requires AtSlot(s) && IsSweep(NextMove(SlotAt(s), IndexAt(s), s.closer))
    ensures Nearer(s, After(s, NextMove(SlotAt(s), IndexAt(s), s.closer)))
  {
    var c, i, x := s.closer, IndexAt(s), SlotAt(s);
    var move := NextMove(x, i, c);
    AfterKeepsInv(s, move);
    assert SlotCloseOk(x, SweepPart(c, i), Forcing(c, i));
    SweepProgress(x, c);
    SweepTouches(x, c, move);
    if WellDrained(x, SweepPart(c, i)) { SweepDrained(x, c, move); }
  }

  /** A step of a close leaves everything else alone. */
  lemma OwnerStep(s: State, step: Step)
    requires WellFormed(s.m, |s.slots|) && (step.RetireCall? || (step.ReloadCall? && step.slot in s.m.discarded))
    requires step.slot < |s.slots| && SlotStep(s.slots[step.slot], step).Some?
    ensures var x, y := s.slots[step.slot], SlotStep(s.slots[step.slot], step).value;
            && Next(s, step) == s.(slots := s.slots[step.slot := y])
            && y.leased == x.leased && y.jobs == x.jobs && !Stranded(y) == !Stranded(x)
  {}

  lemma OwnerNearer(s: System)
    requires AtSlot(s) && !IsSweep(NextMove(SlotAt(s), IndexAt(s), s.closer)) && !Stranded(SlotAt(s))
    ensures Nearer(s, After(s, NextMove(SlotAt(s), IndexAt(s), s.closer)))
  {
    var c, i, x := s.closer, IndexAt(s), SlotAt(s);
    assert SlotCloseOk(x, SweepPart(c, i), Forcing(c, i));
    OwnerProgress(x, i, c);
    var move := NextMove(x, i, c);
    AfterKeepsInv(s, move);
    OwnerStep(s.g, move.step);
    if WellDrained(x, SweepPart(c, i)) { SlotStepDrained(x, move.step, SweepPart(c, i), Forcing(c, i)); }
  }

  /** The sweep is past the slot it was at, with the same users. */
  ghost predicate Past(s: System, t: System)
    requires AtSlot(s)
  {
    && SystemOk(t) && t.closer.Sweeping? && t.closer.list == s.closer.list && t.closer.k == s.closer.k + 1 && SameUsers(s.g, t.g)
    && (WellDrained(SlotAt(s), SweepPart(s.closer, IndexAt(s))) ==> t.g.slots[IndexAt(s)].state == Closed)
  }

  lemma NearerPast(s: System, t: System, u: System)
    requires AtSlot(s) && Nearer(s, t) && t.closer.k == s.closer.k && Past(t, u)
    ensures Past(s, u)
  {}

  lemma OneNearer(s: System) returns (move: Move)
    requires AtSlot(s) && !Stranded(SlotAt(s))
    ensures Nearer(s, After(s, move))
  {
    move := NextMove(SlotAt(s), IndexAt(s), s.closer);
    if IsSweep(move) { SweepNearer(s); } else { OwnerNearer(s); }
  }

  /** The sweep gets past a slot that is not stranded, whatever its users do. */
  lemma FinishSlot(start: System, moves: seq<Move>) returns (more: seq<Move>)
    requires SystemOk(start) && AtSlot(Run(start, moves)) && !Stranded(SlotAt(Run(start, moves)))
    ensures Past(Run(start, moves), Run(start, more))
    decreases var s := Run(start, moves); StageLeft(SlotAt(s), s.closer.stage)
  {
    var s := Run(start, moves);
    var move := OneNearer(s);
    var next := RunMore(start, moves, move);
    var t := Run(start, next);
    more := next;
    if t.closer.k == s.closer.k {
      more := FinishSlot(start, next);
      NearerPast(s, t, Run(start, more));
    }
  }

  predicate Finished(s: System) { s.closer.Sweeping? && s.closer.k >= |s.closer.list| }

  ghost predicate CanFinish(s: System)
    requires SystemOk(s)
  {
    exists moves :: Finished(Run(s, moves))
  }

  /** No slot that is still to be swept is stranded. */
  predicate NoneStranded(s: System)
    requires s.closer.Sweeping? && Fits(s.closer.list, |s.g.slots|)
  {
    forall j :: s.closer.k <= j < |s.closer.list| ==> !Stranded(s.g.slots[s.closer.list[j]])
  }

  lemma FinishAll(start: System, moves: seq<Move>) returns (more: seq<Move>)
    requires SystemOk(start) && Run(start, moves).closer.Sweeping? && NoneStranded(Run(start, moves))
    ensures Finished(Run(start, more))
    decreases |Run(start, moves).closer.list| - Run(start, moves).closer.k
  {
    more := moves;
    var s := Run(start, moves);
    if s.closer.k < |s.closer.list| {
      more := FinishSlot(start, moves);
      more := FinishAll(start, more);
    }
  }

  // ----- a stranded slot stops it -----

  /** The sweep has not got past position `j`, whose slot is stranded. */
  ghost predicate Blocked(s: System, j: nat) {
    && SystemOk(s) && s.closer.Sweeping? && s.closer.k <= j < |s.closer.list| && Stranded(s.g.slots[s.closer.list[j]])
    && (s.closer.k == j && s.closer.stage.Calling? ==>
          !s.closer.stage.again && (s.closer.stage.call.Outside? || s.closer.stage.call.Awaiting?))
    && (s.closer.k == j ==> !s.closer.stage.Forced?)
  }

  /** There is no report, so the sweep waits. */
  lemma SweepBlocked(x: Slot, c: Closer, move: Move)
    requires c.Sweeping? && c.k < |c.list| && SlotCloseOk(x, SweepPart(c, c.list[c.k]), Forcing(c, c.list[c.k])) && Stranded(x)
    requires SweepStep(x, c, move).Some? && (c.stage.Look? ==> TaskOk(x)) && StageOk(c.stage, c.forced, x)
    ensures var d := SweepStep(x, c, move).value.1;
            d.k == c.k && !d.stage.Forced? && (d.stage.Calling? ==> !d.stage.again && (d.stage.call.Outside? || d.stage.call.Awaiting?))
  {}

  lemma BlockedStays(s: System, j: nat, move: Move)
    requires Blocked(s, j)
    ensures Blocked(After(s, move), j)
  {
    var c, i := s.closer, s.closer.list[j];
    AfterKeepsInv(s, move);
    if move.Other? {
      StepAborts(s.g, move.step, i);
    } else if IsSweep(move) && c.k < |c.list| && SweepStep(s.g.slots[c.list[c.k]], c, move).Some? {
      var x := s.g.slots[c.list[c.k]];
      assert SlotCloseOk(x, SweepPart(c, c.list[c.k]), Forcing(c, c.list[c.k]));
      SweepTouches(x, c, move);
      if c.k == j {
        assert c.stage.Look? ==> SlotOk(s.g.m, i, x);
        SweepBlocked(x, c, move);
      }
    }
  }

  lemma {:induction false} BlockedForever(s: System, j: nat, moves: seq<Move>)
    requires Blocked(s, j)
    ensures Blocked(Run(s, moves), j)
  {
    if moves != [] {
      var n := |moves| - 1;
      BlockedForever(s, j, moves[..n]);
      BlockedStays(Run(s, moves[..n]), j, moves[n]);
    }
  }

  /**
   Once its loop has begun, `close_for_shutdown` can return if and only if no slot that is still to be swept belongs to a
   retirement that was aborted asleep in its drain.
   */
  lemma {:induction false} SweepFinishesExactly(s: System)
    requires SystemOk(s) && s.closer.Sweeping?
    ensures CanFinish(s) <==> NoneStranded(s)
  {
    if NoneStranded(s) {
      assert Run(s, []) == s;
      var moves := FinishAll(s, []);
    } else {
      var j :| s.closer.k <= j < |s.closer.list| && Stranded(s.g.slots[s.closer.list[j]]);
      assert Blocked(s, j) by { StrandedIsBlocked(s, j); }
      forall moves ensures !Finished(Run(s, moves)) { BlockedForever(s, j, moves); }
    }
  }

  lemma StrandedIsBlocked(s: System, j: nat)
    requires SystemOk(s) && s.closer.Sweeping? && s.closer.k <= j < |s.closer.list| && Stranded(s.g.slots[s.closer.list[j]])
    ensures Blocked(s, j)
  {
    var i := s.closer.list[j];
    assert SlotCloseOk(s.g.slots[i], SweepPart(s.closer, i), Forcing(s.closer, i));
  }

  /** A slot is stranded exactly by aborting its retirement asleep in the drain. */
  lemma StrandedExactly(s: System, move: Move, i: nat)
    requires SystemOk(s) && i < |s.g.slots|
    ensures i < |After(s, move).g.slots|
    ensures Stranded(After(s, move).g.slots[i]) <==>
            || Stranded(s.g.slots[i])
            || (move == AbortTask(i) && s.closer.Aborting? && i in s.closer.taken && s.g.slots[i].task == CloseRunning(Sleeping))
  {
    if move.Other? {
      StepAborts(s.g, move.step, i);
      StepStrands(s.g, move.step, i);
    } else if move.AbortTask? {
      StepAborts(s.g, Abort(move.slot), i);
      StepStrands(s.g, Abort(move.slot), i);
    } else if IsSweep(move) {
      SweepFollows(s, move, i);
    }
  }

  lemma StepStrands(g: State, step: Step, i: nat)
    requires WellFormed(g.m, |g.slots|) && i < |g.slots|
    ensures step == Abort(i) && i < |Next(g, step).slots| ==>
              (Stranded(Next(g, step).slots[i]) <==> Stranded(g.slots[i]) || g.slots[i].task == CloseRunning(Sleeping))
  {}

  /** If every job of a generation whose task was taken was registered under a lease, above all if none was taken, it can return. */
  lemma {:induction false} LeasedJobsFinish(s: System)
    requires SystemOk(s) && s.closer.Sweeping?
    requires forall i :: 0 <= i < |s.g.slots| && i in s.closer.taken ==> !s.g.slots[i].jobs.orphan
    ensures CanFinish(s)
  {
    forall j | s.closer.k <= j < |s.closer.list| ensures !Stranded(s.g.slots[s.closer.list[j]]) {
      assert AlwaysOk(s.g.slots[s.closer.list[j]]);
    }
    SweepFinishesExactly(s);
  }

  /** A swept generation counts as closed exactly if its close did not fail; its provider clients are closed either way. */
  lemma SettleExactly(s: System)
    requires AtSlot(s) && After(s, Settle).closer.Sweeping? && After(s, Settle).closer.k > s.closer.k
    ensures var y := After(s, Settle).g.slots[IndexAt(s)];
            && PoolIsShut(y.res) && (y.state == Closed <==> !y.res.report.value.failed)
            && (y.state == FailedClose <==> y.res.report.value.failed)
  {
    var x := SlotAt(s);
    assert SlotCloseOk(x, SweepPart(s.closer, IndexAt(s)), Forcing(s.closer, IndexAt(s)));
    SweepGoesOn(x, s.closer, Settle);
  }

  // ----- which generations it adopts -----

  /** It adopts the slot that was active when it listed it, and every retiring one. */
  lemma {:induction false} AdoptsAll(s: System, i: nat)
    requires SystemOk(s) && s.closer.Listing? && (i == s.closer.first || i in s.g.m.retiring)
    ensures After(s, ListRetiring).closer.Waiting? && i in After(s, ListRetiring).closer.list
  {}

  /**
   The open slots that are not adopted are exactly the other ones that are active or in a swap, and the discarded ones,
   when the retiring slots are listed.
   */
  lemma {:induction false} MissedExactly(s: System, i: nat)
    requires SystemOk(s) && s.closer.Listing? && i < |s.g.slots| && s.g.slots[i].state != Closed
    ensures After(s, ListRetiring).closer.Waiting?
    ensures i !in After(s, ListRetiring).closer.list <==> i != s.closer.first && (Current(s.g.m, i) || i in s.g.m.discarded)
  {
    assert SlotOk(s.g.m, i, s.g.slots[i]);
  }

  predicate CanMovePointer(m: Manager) { m.swap.Some? && (m.swap.value.phase.Staged? || m.swap.value.phase.PointerCommitted?) }

  /** The active slot is another one than the closer has listed. */
  predicate ActiveMissed(s: System) { s.closer.Listing? && s.g.m.active != s.closer.first }

  ghost predicate CanMissActive(s: System)
    requires SystemOk(s)
  {
    exists moves :: ActiveMissed(Run(s, moves))
  }

  lemma StepPointerStays(g: State, step: Step)
    requires WellFormed(g.m, |g.slots|) && g.m.shutdown && !CanMovePointer(g.m)
    ensures var m := Next(g, step).m; m.shutdown && !CanMovePointer(m) && m.active == g.m.active
  {}

  /** The pointer stays with the slot that was listed first. */
  predicate Pinned(s: System, first: nat) {
    && s.g.m.shutdown && !CanMovePointer(s.g.m) && s.g.m.active == first && !s.closer.NotStarted?
    && (s.closer.Listing? ==> s.closer.first == first)
  }

  lemma PinnedStays(s: System, move: Move, first: nat)
    requires Ready(s) && Pinned(s, first)
    ensures Pinned(After(s, move), first)
  {
    if move.Other? {
      StepPointerStays(s.g, move.step);
    } else if move.AbortTask? {
      StepPointerStays(s.g, Abort(move.slot));
    } else if IsSweep(move) {
      SweepPinned(s, move, first);
    }
  }

  lemma SweepPinned(s: System, move: Move, first: nat)
    requires Ready(s) && Pinned(s, first) && IsSweep(move)
    ensures Pinned(After(s, move), first)
  {}

  lemma {:induction false} PinnedForever(s: System, moves: seq<Move>, first: nat)
    requires SystemOk(s) && Pinned(s, first)
    ensures Pinned(Run(s, moves), first)
  {
    if moves != [] {
      var n := |moves| - 1;
      PinnedForever(s, moves[..n], first);
      PinnedStays(Run(s, moves[..n]), moves[n], first);
    }
  }

  lemma PointerMoves(g: State)
    requires ManagerOk(g.m, |g.slots|) && CanMovePointer(g.m)
    ensures var step := if g.m.swap.value.phase.Staged? then CommitPointer else RollbackPointer;
            Next(g, step).m.active != g.m.active
  {}

  /** The closer can miss the active generation if and only if a swap can still move the pointer when it lists the slots. */
  lemma {:induction false} ActiveMissedExactly(s: System)
    requires SystemOk(s) && s.closer.Listing? && s.g.m.active == s.closer.first
    ensures CanMissActive(s) <==> CanMovePointer(s.g.m)
  {
    if CanMovePointer(s.g.m) {
      var step := if s.g.m.swap.value.phase.Staged? then CommitPointer else RollbackPointer;
      PointerMoves(s.g);
      assert Run(s, []) == s;
      var moves := RunMore(s, [], Other(step));
      assert ActiveMissed(Run(s, moves));
    } else {
      forall moves ensures !ActiveMissed(Run(s, moves)) { PinnedForever(s, moves, s.closer.first); }
    }
  }
}
