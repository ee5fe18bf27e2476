/** A run of a forced shutdown that never returns (rust/src/runtime_lifecycle/manager.rs, generation.rs). */
module StrandedShutdown {
  import opened Generations
  import opened Lifecycle
  import opened ResourceClose
  import opened Shutdown
  import opened Text

  // ----- reachable states -----

  ghost function RunFrom(generation: nat, moves: seq<Move>): System {
    StartOk(generation);
    Run(Start(generation), moves)
  }

  ghost predicate Reachable(generation: nat, t: System) { exists moves :: RunFrom(generation, moves) == t }

  lemma {:induction false} ReachableOk(generation: nat, t: System)
    requires Reachable(generation, t)
    ensures SystemOk(t)
  {
    StartOk(generation);
    var moves :| RunFrom(generation, moves) == t;
  }

  lemma {:induction false} Begin(generation: nat)
    ensures Reachable(generation, Start(generation))
  {
    assert RunFrom(generation, []) == Start(generation);
  }

  lemma {:induction false} Go(generation: nat, t: System, move: Move, u: System)
    requires Reachable(generation, t) && Ready(t) && After(t, move) == u
    ensures Reachable(generation, u)
  {
    StartOk(generation);
    var moves :| RunFrom(generation, moves) == t;
    var more := RunMore(Start(generation), moves, move);
    assert RunFrom(generation, more) == u;
  }

  // ----- the old generation retires -----

  function Old(generation: nat): Slot { NewSlot(generation, false).(state := Retiring) }

  function Managed(x: Slot, y: Slot, m: Manager): System { System(State([x, y], m), NotStarted, {}) }

  const RETIRING := Manager(1, false, false, false, 1, [0], None, {})

  /** The old generation retires beside the new one. */
  function Two(x: Slot, generation: nat): System { Managed(x, NewSlot(generation + 1, true), RETIRING) }

  function Staging(w: Swap): Manager { Manager(if w.phase.Staged? then 0 else 1, true, true, false, 0, [], Some(w), {}) }

  lemma Staged2(generation: nat)
    ensures Ready(Start(generation))
    ensures After(Start(generation), Other(Stage(generation, generation + 1))) ==
            Managed(NewSlot(generation, true), NewSlot(generation + 1, false), Staging(Swap(0, 1, Staged)))
  {
    assert Open(Start(generation).g.slots, []) == [];
  }

  lemma Committed2(generation: nat)
    ensures var t := Managed(NewSlot(generation, true), NewSlot(generation + 1, false), Staging(Swap(0, 1, Staged)));
            Ready(t) && After(t, Other(CommitPointer)) ==
            Managed(Old(generation), NewSlot(generation + 1, false), Staging(Swap(0, 1, PointerCommitted)))
  {}

  lemma Accepted2(generation: nat)
    ensures var t := Managed(Old(generation), NewSlot(generation + 1, false), Staging(Swap(0, 1, PointerCommitted)));
            Ready(t) && After(t, Other(Accept)) == Two(Old(generation), generation)
  {}

  lemma Scheduled2(generation: nat)
    ensures var t := Two(Old(generation), generation);
            Ready(t) && After(t, Other(Schedule(0))) == Two(Old(generation).(task := WaitLeases), generation)
  {}

  lemma Retires(generation: nat)
    ensures Reachable(generation, Two(Old(generation).(task := WaitLeases), generation))
  {
    Begin(generation);
    Staged2(generation);
    var a := Managed(NewSlot(generation, true), NewSlot(generation + 1, false), Staging(Swap(0, 1, Staged)));
    Go(generation, Start(generation), Other(Stage(generation, generation + 1)), a);
    Committed2(generation);
    var b := Managed(Old(generation), NewSlot(generation + 1, false), Staging(Swap(0, 1, PointerCommitted)));
    Go(generation, a, Other(CommitPointer), b);
    Accepted2(generation);
    Go(generation, b, Other(Accept), Two(Old(generation), generation));
    Scheduled2(generation);
    Go(generation, Two(Old(generation), generation), Other(Schedule(0)), Two(Old(generation).(task := WaitLeases), generation));
  }

  /** A step of the old generation. */
  lemma OldStep(generation: nat, x: Slot, step: Step, y: Slot)
    requires Reachable(generation, Two(x, generation)) && SlotStep(x, step) == Some(y)
    requires IsSlotStep(step) && !step.Abort? && !step.ReloadCall? && step.slot == 0
    ensures Reachable(generation, Two(y, generation))
  {
    var t := Two(x, generation);
    assert t.g.slots[0 := y] == Two(y, generation).g.slots;
    Go(generation, t, Other(step), Two(y, generation));
  }

  const ORPHAN := Jobs(Free, 0, 1, 0, true)

  /** Without leases; a job is registered late, without a lease, and gets no guard. */
  function Drains(generation: nat): Slot { Old(generation).(task := WaitReferences, state := DrainingFinalization, jobs := ORPHAN) }

  lemma DrainSteps2(x: Slot)
    requires x.task.WaitLeases? && x.activeLeases == 0
    ensures SlotStep(x, SeeNoLeases(0)) == Some(x.(task := SawNoLeases))
    ensures SlotStep(x.(task := SawNoLeases), BeginDrain(0)) == Some(x.(task := WaitReferences, state := DrainingFinalization))
  {}

  lemma Drained2(generation: nat)
    ensures Reachable(generation, Two(Old(generation).(task := WaitReferences, state := DrainingFinalization), generation))
  {
    Retires(generation);
    var x := Old(generation).(task := WaitLeases);
    DrainSteps2(x);
    OldStep(generation, x, SeeNoLeases(0), x.(task := SawNoLeases));
    OldStep(generation, x.(task := SawNoLeases), BeginDrain(0), x.(task := WaitReferences, state := DrainingFinalization));
  }

  function Registers(x: Slot, at: Point): Slot { x.(jobs := Jobs(Busy(at, false), 0, 0, 0, true)) }

  lemma RefusedSteps(x: Slot)
    requires x.jobs == Jobs(Free, 0, 0, 0, false) && Refuses(x.state)
    ensures SlotStep(x, BeginJob(0, false)) == Some(Registers(x, Looking))
    ensures SlotStep(Registers(x, Looking), LookState(0)) == Some(Registers(x, Refused))
    ensures SlotStep(Registers(x, Refused), InsertJob(0)) == Some(x.(jobs := ORPHAN))
  {}

  lemma LateJob(generation: nat)
    ensures Reachable(generation, Two(Drains(generation), generation))
  {
    Drained2(generation);
    var x := Old(generation).(task := WaitReferences, state := DrainingFinalization);
    RefusedSteps(x);
    OldStep(generation, x, BeginJob(0, false), Registers(x, Looking));
    OldStep(generation, Registers(x, Looking), LookState(0), Registers(x, Refused));
    OldStep(generation, Registers(x, Refused), InsertJob(0), x.(jobs := ORPHAN));
  }

  /** The retirement sets the flag, finds the job and sleeps. */
  function Asleep(generation: nat): Slot {
    Old(generation).(task := CloseRunning(Sleeping), state := Closing, jobs := ORPHAN,
                     res := UNTOUCHED.(closed := true, drains := 1, owner := Retirement))
  }

  lemma Closes2(generation: nat)
    ensures Reachable(generation, Two(Drains(generation).(task := CloseRunning(Outside), state := Closing), generation))
  {
    LateJob(generation);
    var x := Drains(generation);
    var y := x.(task := SawNoReferences);
    OldStep(generation, x, SeeNoReferences(0), y);
    OldStep(generation, y, BeginClose(0), y.(task := CloseRunning(Outside), state := Closing));
  }

  lemma FallsAsleep(generation: nat)
    ensures Reachable(generation, Two(Asleep(generation), generation))
  {
    Closes2(generation);
    var x := Drains(generation).(task := CloseRunning(Outside), state := Closing);
    var y := Asleep(generation).(task := CloseRunning(Draining));
    OldStep(generation, x, RetireCall(0, Enter), y);
    OldStep(generation, y, RetireCall(0, SeeJobs), Asleep(generation));
  }

  // ----- the shutdown aborts it -----

  /** After shutdown, with the old generation at `x`. */
  function Closed2(x: Slot, generation: nat, c: Closer): System {
    System(State([x, NewSlot(generation + 1, false)], RETIRING.(shutdown := true, admissionClosed := true)), c, {})
  }

  lemma ShutsDown(generation: nat)
    ensures var t := Two(Asleep(generation), generation);
            Ready(t) && After(t, Other(Shutdown)) == Closed2(Asleep(generation), generation, NotStarted)
  {}

  lemma Lists(x: Slot, generation: nat)
    ensures var t := Closed2(x, generation, NotStarted);
            Ready(t) && After(t, ListActive(false)) == Closed2(x, generation, Listing(1, false))
    ensures var t := Closed2(x, generation, Listing(1, false));
            Ready(t) && After(t, ListRetiring) == Closed2(x, generation, Waiting([1, 0], 0, false))
  {
    assert [0][1..] == [] && Adopt([1, 0], []) == [1, 0];
    assert [1] + [0] == [1, 0];
  }

  lemma Waits2(x: Slot, generation: nat)
    requires x.activeLeases == 0
    ensures var t := Closed2(x, generation, Waiting([1, 0], 0, false));
            Ready(t) && After(t, SeeDrained) == Closed2(x, generation, Waiting([1, 0], 1, false))
    ensures var t := Closed2(x, generation, Waiting([1, 0], 1, false));
            Ready(t) && After(t, SeeDrained) == Closed2(x, generation, Waiting([1, 0], 2, false))
  {}

  lemma Aborts(generation: nat)
    ensures var t := Closed2(Asleep(generation), generation, Waiting([1, 0], 2, false));
            Ready(t) && After(t, StartSweep(true, {0})) == Closed2(Asleep(generation), generation, Aborting([1, 0], {0}))
    ensures var t := Closed2(Asleep(generation), generation, Aborting([1, 0], {0}));
            Ready(t) && After(t, AbortTask(0)) == Closed2(Asleep(generation).(task := Aborted(true)), generation, Aborting([1, 0], {0}))
  {}

  lemma Loops(x: Slot, generation: nat)
    requires x.task.Aborted?
    ensures var t := Closed2(x, generation, Aborting([1, 0], {0}));
            Ready(t) && After(t, BeginLoop) == Closed2(x, generation, Sweeping([1, 0], 0, Look, true, {0}))
  {}

  /**
   A shutdown whose deadline passes while a retirement sleeps in its drain aborts the retirement. No report is recorded
   any more, and the shutdown, which waits for one without a deadline, never returns.
   */
  lemma {:induction false} ShutdownHangs(generation: nat) returns (t: System)
    ensures Reachable(generation, t) && SystemOk(t) && t.closer.Sweeping? && !CanFinish(t)
  {
    var x := Asleep(generation);
    var y := x.(task := Aborted(true));
    FallsAsleep(generation);
    ShutsDown(generation);
    Go(generation, Two(x, generation), Other(Shutdown), Closed2(x, generation, NotStarted));
    Lists(x, generation);
    Go(generation, Closed2(x, generation, NotStarted), ListActive(false), Closed2(x, generation, Listing(1, false)));
    Go(generation, Closed2(x, generation, Listing(1, false)), ListRetiring, Closed2(x, generation, Waiting([1, 0], 0, false)));
    Waits2(x, generation);
    Go(generation, Closed2(x, generation, Waiting([1, 0], 0, false)), SeeDrained, Closed2(x, generation, Waiting([1, 0], 1, false)));
    Go(generation, Closed2(x, generation, Waiting([1, 0], 1, false)), SeeDrained, Closed2(x, generation, Waiting([1, 0], 2, false)));
    Aborts(generation);
    Go(generation, Closed2(x, generation, Waiting([1, 0], 2, false)), StartSweep(true, {0}), Closed2(x, generation, Aborting([1, 0], {0})));
    Go(generation, Closed2(x, generation, Aborting([1, 0], {0})), AbortTask(0), Closed2(y, generation, Aborting([1, 0], {0})));
    Loops(y, generation);
    t := Closed2(y, generation, Sweeping([1, 0], 0, Look, true, {0}));
    Go(generation, Closed2(y, generation, Aborting([1, 0], {0})), BeginLoop, t);
    ReachableOk(generation, t);
    assert Stranded(t.g.slots[t.closer.list[1]]);
    SweepFinishesExactly(t);
  }
}
