/** Under whom `close_for_shutdown` closes a generation (rust/src/runtime_lifecycle/manager.rs, generation.rs). */
module ShutdownUsers {
  import opened Generations
  import opened Lifecycle
  import opened ResourceClose
  import opened Shutdown
  import opened Text

  // ----- who can still write the state -----

  /** A swap in flight can still write the state of this slot. */
  predicate SwapCanWrite(m: Manager, i: nat) {
    && m.swap.Some? && (m.swap.value.phase.Staged? || m.swap.value.phase.PointerCommitted?)
    && (i == m.swap.value.previous || i == m.swap.value.next)
  }

  /** The slot refuses new guards, and nobody can change that. */
  predicate Firm(g: State, i: nat) {
    i < |g.slots| && g.m.shutdown && !SwapCanWrite(g.m, i) && Refuses(g.slots[i].state)
  }

  lemma SlotStepFirm(x: Slot, step: Step)
    requires SlotStep(x, step).Some? && Refuses(x.state)
    ensures var y := SlotStep(x, step).value; Refuses(y.state) && AtWork(y.jobs) <= AtWork(x.jobs)
  {}

  lemma SwapStepFirm(m: Manager, w: Swap, prior: Slot, after: Slot, step: Step, i: nat)
    requires m.swap == Some(w) && !SwapCanWrite(m, i) && w.previous != w.next
    ensures match SwapStep(m, w, prior, after, step)
            case None => true
            case Some((x, y, k)) =>
              && !SwapCanWrite(k, i) && k.shutdown == m.shutdown
              && (i == w.previous ==> x.state == prior.state) && (i == w.next ==> y.state == after.state)
  {}

  lemma StepFirm(g: State, step: Step, i: nat)
    requires WellFormed(g.m, |g.slots|) && Firm(g, i)
    ensures Firm(Next(g, step), i) && AtWork(Next(g, step).slots[i].jobs) <= AtWork(g.slots[i].jobs)
  {
    if IsSlotStep(step) {
      NextAt(g, step, i);
      if step.slot == i && SlotStep(g.slots[i], step).Some? { SlotStepFirm(g.slots[i], step); }
    } else if !IsManagerStep(step) && g.m.swap.Some? {
      var w := g.m.swap.value;
      SwapStepFirm(g.m, w, g.slots[w.previous], g.slots[w.next], step, i);
      SwapStepRewrites(g.m, w, g.slots[w.previous], g.slots[w.next], step);
    }
  }

  lemma MoveFirm(s: System, move: Move, i: nat)
    requires SystemOk(s) && Firm(s.g, i) && i in s.shut
    ensures var t := After(s, move); Firm(t.g, i) && i in t.shut && AtWork(t.g.slots[i].jobs) <= AtWork(s.g.slots[i].jobs)
  {
    if move.Other? {
      StepFirm(s.g, move.step, i);
    } else if move.AbortTask? {
      StepFirm(s.g, Abort(move.slot), i);
    } else if IsSweep(move) {
      SweepFollows(s, move, i);
      SweepRefuses(s, move, i);
    }
  }

  /** The sweep itself writes states that refuse guards only. */
  lemma SweepRefuses(s: System, move: Move, i: nat)
    requires SystemOk(s) && IsSweep(move) && i < |s.g.slots| && Refuses(s.g.slots[i].state)
    ensures i < |After(s, move).g.slots| && Refuses(After(s, move).g.slots[i].state)
  {}

  // ----- a drained generation has no guard at work -----

  predicate WellReported(x: Slot) { x.res.report.Some? && !x.res.report.value.failed }

  /** Drained means no guard at work, closed means a report without failure. */
  predicate Quiet(x: Slot, sweep: Call) {
    (WellDrained(x, sweep) ==> AtWork(x.jobs) == 0) && (x.state == Closed ==> WellReported(x))
  }

  lemma CallDrains(r: Resources, who: Caller, j: Jobs, c: Call, act: Act)
    requires CallStep(r, who, JobsSeen(j), c, act).Some?
    ensures var (q, d) := CallStep(r, who, JobsSeen(j), c, act).value;
            && (d.Drained? ==> AtWork(j) == 0) && (d.PoolShut? ==> c.Drained?)
            && (q.report.Some? && !q.report.value.failed ==> q.report == r.report || c.PoolShut?)
  {}

  lemma TaskStepQuiet(x: Slot, step: Step, sweep: Call, forcing: bool)
    requires TaskStep(x, step).Some? && SlotCloseOk(x, sweep, forcing) && Quiet(x, sweep)
    ensures Quiet(TaskStep(x, step).value, sweep)
  {
    if step.RetireCall? {
      CallDrains(x.res, Retirement, x.jobs, x.task.call, step.act);
    } else if step.ReloadCall? {
      CallDrains(x.res, Reload, x.jobs, x.reload, step.act);
    }
  }

  lemma JobStepQuiet(x: Slot, step: Step, sweep: Call)
    requires JobStep(x, step).Some? && Refuses(x.state) && Quiet(x, sweep)
    ensures Quiet(JobStep(x, step).value, sweep)
  {
    JobStepElsewhere(x, step);
    assert SlotStep(x, step) == JobStep(x, step);
    SlotStepFirm(x, step);
  }

  lemma StepQuiet(g: State, step: Step, i: nat, sweep: Call, forcing: bool)
    requires WellFormed(g.m, |g.slots|) && Firm(g, i) && SlotCloseOk(g.slots[i], sweep, forcing) && Quiet(g.slots[i], sweep)
    ensures i < |Next(g, step).slots| && Quiet(Next(g, step).slots[i], sweep)
  {
    StepFirm(g, step, i);
    if IsSlotStep(step) {
      NextAt(g, step, i);
      if step.slot == i && SlotStep(g.slots[i], step).Some? {
        if IsJobStep(step) { JobStepQuiet(g.slots[i], step, sweep); } else { TaskStepQuiet(g.slots[i], step, sweep, forcing); }
      }
    } else {
      OtherStepSameClose(g, step, i);
      OtherStepState(g, step, i);
    }
  }

  /** A step of the manager or of the swap does not close a slot. */
  lemma OtherStepState(g: State, step: Step, i: nat)
    requires WellFormed(g.m, |g.slots|) && i < |g.slots| && !IsSlotStep(step)
    ensures i < |Next(g, step).slots| && (Next(g, step).slots[i].state == Closed ==> g.slots[i].state == Closed)
  {
    if !IsManagerStep(step) && g.m.swap.Some? {
      var w := g.m.swap.value;
      SwapStepRewrites(g.m, w, g.slots[w.previous], g.slots[w.next], step);
    }
  }

  lemma SweepQuiet(x: Slot, c: Closer, move: Move)
    requires c.Sweeping? && c.k < |c.list| && Distinct(c.list) && SweepStep(x, c, move).Some?
    requires var i := c.list[c.k];
             SlotCloseOk(x, SweepPart(c, i), Forcing(c, i)) && StageOk(c.stage, c.forced, x) && Quiet(x, SweepPart(c, i))
    ensures var (y, d) := SweepStep(x, c, move).value; Quiet(y, SweepPart(d, c.list[c.k]))
  {
    if move.SweepCall? { CallDrains(x.res, Sweep, x.jobs, c.stage.call, move.act); }
  }

  ghost predicate Calm(s: System, i: nat) {
    SystemOk(s) && i in s.shut && Firm(s.g, i) && Quiet(s.g.slots[i], SweepPart(s.closer, i))
  }

  lemma SweepCalm(s: System, move: Move, i: nat)
    requires Calm(s, i) && IsSweep(move)
    ensures var t := After(s, move); i < |t.g.slots| && Quiet(t.g.slots[i], SweepPart(t.closer, i))
  {
    var c := s.closer;
    if c.Sweeping? && c.k < |c.list| && SweepStep(s.g.slots[c.list[c.k]], c, move).Some? {
      var x := s.g.slots[c.list[c.k]];
      assert SlotCloseOk(x, SweepPart(c, c.list[c.k]), Forcing(c, c.list[c.k]));
      SweepTouches(x, c, move);
      if c.list[c.k] == i {
        SweepQuiet(x, c, move);
      } else {
        SweepPartElsewhere(c, SweepStep(x, c, move).value.1, i);
      }
    }
  }

  /** The sweep takes part in the close of one slot at a time. */
  lemma SweepPartElsewhere(c: Closer, d: Closer, i: nat)
    requires c.Sweeping? && c.k < |c.list| && d.Sweeping? && d.list == c.list && (d.k == c.k || (d.k == c.k + 1 && d.stage == Look))
    requires c.list[c.k] != i
    ensures SweepPart(c, i) == Outside == SweepPart(d, i)
  {}

  lemma CalmStays(s: System, move: Move, i: nat)
    requires Calm(s, i)
    ensures Calm(After(s, move), i)
  {
    AfterKeepsInv(s, move);
    MoveFirm(s, move, i);
    assert SlotCloseOk(s.g.slots[i], SweepPart(s.closer, i), Forcing(s.closer, i));
    if move.Other? {
      StepQuiet(s.g, move.step, i, SweepPart(s.closer, i), Forcing(s.closer, i));
    } else if IsSweep(move) {
      SweepCalm(s, move, i);
    }
  }

  lemma {:induction false} CalmForever(s: System, moves: seq<Move>, i: nat)
    requires Calm(s, i)
    ensures Calm(Run(s, moves), i)
  {
    if moves != [] {
      var n := |moves| - 1;
      CalmForever(s, moves[..n], i);
      CalmStays(Run(s, moves[..n]), moves[n], i);
    }
  }

  lemma {:induction false} FirmForever(s: System, moves: seq<Move>, i: nat)
    requires SystemOk(s) && Firm(s.g, i) && i in s.shut
    ensures var t := Run(s, moves); Firm(t.g, i) && i in t.shut && AtWork(t.g.slots[i].jobs) <= AtWork(s.g.slots[i].jobs)
  {
    if moves != [] {
      var n := |moves| - 1;
      FirmForever(s, moves[..n], i);
      MoveFirm(Run(s, moves[..n]), moves[n], i);
    }
  }

  // ----- a swap reopens a slot under the sweep -----

  /** What a run has made of slot `i`. */
  ghost predicate Holds(t: System, i: nat, x: Slot, m: Manager, c: Closer) {
    SystemOk(t) && i < |t.g.slots| && t.g.slots[i] == x && t.g.m == m && t.closer == c
  }

  lemma JobMove(start: System, moves: seq<Move>, i: nat, x: Slot, m: Manager, c: Closer, step: Step, y: Slot) returns (more: seq<Move>)
    requires SystemOk(start) && Holds(Run(start, moves), i, x, m, c) && IsJobStep(step) && step.slot == i && JobStep(x, step) == Some(y)
    ensures Holds(Run(start, more), i, y, m, c)
  {
    more := RunMore(start, moves, Other(step));
  }

  /** Steps that the registration of a job and the jobs still take, at most. */
  function JobsLeft(j: Jobs): nat {
    2 * (j.guarded + j.unguarded) +
    match j.registration
    case Free => 0
    case Busy(at, _) =>
      match at
      case Looking => 9
      case Counting => 8
      case Raised => 7
      case Undoing => 6
      case Granted => 5
      case Refused => 5
  }

  function JobToDo(x: Slot, i: nat): Step {
    match x.jobs.registration
    case Free => EndJob(i, x.jobs.guarded > 0)
    case Busy(at, _) =>
      match at
      case Looking => LookState(i)
      case Counting => RetainCount(i)
      case Raised => RetainRefuse(i)
      case Undoing => RetainUndo(i)
      case Granted => InsertJob(i)
      case Refused => InsertJob(i)
  }

  lemma JobToDoStep(x: Slot, i: nat)
    requires Refuses(x.state) && JobsSeen(x.jobs) != Some(0)
    ensures IsJobStep(JobToDo(x, i)) && JobToDo(x, i).slot == i && JobStep(x, JobToDo(x, i)).Some?
    ensures var y := JobStep(x, JobToDo(x, i)).value;
            JobsLeft(y.jobs) < JobsLeft(x.jobs) && y.state == x.state && y.res == x.res && y.task == x.task && y.reload == x.reload
  {}

  /** The jobs can all finish. */
  lemma JobsFinish(start: System, moves: seq<Move>, i: nat, x: Slot, m: Manager, c: Closer) returns (more: seq<Move>, y: Slot)
    requires SystemOk(start) && Holds(Run(start, moves), i, x, m, c) && Refuses(x.state)
    ensures Holds(Run(start, more), i, y, m, c) && JobsSeen(y.jobs) == Some(0)
    ensures y.state == x.state && y.res == x.res && y.task == x.task && y.reload == x.reload
    decreases JobsLeft(x.jobs)
  {
    more, y := moves, x;
    if JobsSeen(x.jobs) != Some(0) {
      JobToDoStep(x, i);
      var z := JobStep(x, JobToDo(x, i)).value;
      more := JobMove(start, moves, i, x, m, c, JobToDo(x, i), z);
      more, y := JobsFinish(start, more, i, z, m, c);
    }
  }

  function AtStage(c: Closer, stage: Stage): Closer
    requires c.Sweeping?
  {
    Sweeping(c.list, c.k, stage, c.forced, c.taken)
  }

  lemma SweepMove(start: System, moves: seq<Move>, i: nat, x: Slot, m: Manager, c: Closer, move: Move, y: Slot, d: Closer)
    returns (more: seq<Move>)
    requires SystemOk(start) && Holds(Run(start, moves), i, x, m, c) && c.Sweeping? && c.k < |c.list| && c.list[c.k] == i
    requires IsSweep(move) && SweepStep(x, c, move) == Some((y, d))
    ensures Holds(Run(start, more), i, y, m, d)
  {
    more := RunMore(start, moves, move);
  }

  lemma DrainSweepSteps(x: Slot, c: Closer)
    requires c.Sweeping? && c.stage == Calling(Outside, false) && !x.res.closed && JobsSeen(x.jobs) == Some(0)
    ensures var y := x.(res := x.res.(closed := true, drains := x.res.drains + 1, owner := Sweep));
            && SweepStep(x, c, SweepCall(Enter)) == Some((y, AtStage(c, Calling(Draining, false))))
            && SweepStep(y, AtStage(c, Calling(Draining, false)), SweepCall(SeeNoJobs)) == Some((y, AtStage(c, Calling(Drained, false))))
  {}

  /** The sweep is the first to close the slot and finds no jobs. */
  lemma SweepDrains(start: System, moves: seq<Move>, i: nat, x: Slot, m: Manager, c: Closer) returns (more: seq<Move>, y: Slot)
    requires SystemOk(start) && Holds(Run(start, moves), i, x, m, c) && c.Sweeping? && c.k < |c.list| && c.list[c.k] == i
    requires c.stage == Calling(Outside, false) && !x.res.closed && JobsSeen(x.jobs) == Some(0)
    ensures Holds(Run(start, more), i, y, m, AtStage(c, Calling(Drained, false))) && y == x.(res := y.res)
  {
    DrainSweepSteps(x, c);
    y := x.(res := x.res.(closed := true, drains := x.res.drains + 1, owner := Sweep));
    more := SweepMove(start, moves, i, x, m, c, SweepCall(Enter), y, AtStage(c, Calling(Draining, false)));
    more := SweepMove(start, more, i, y, m, AtStage(c, Calling(Draining, false)), SweepCall(SeeNoJobs), y,
                      AtStage(c, Calling(Drained, false)));
  }

  /** The step of a swap that brings it nearer to writing the state of slot `i`. */
  function WritingStep(w: Swap, i: nat): Step {
    if w.phase.Staged? then CommitPointer else if i == w.previous then RollbackPointer else AcceptDuringShutdown
  }

  lemma WritingStepTaken(m: Manager, w: Swap, prior: Slot, after: Slot, i: nat)
    requires m.swap == Some(w) && SwapCanWrite(m, i) && m.shutdown && w.previous != w.next
    requires m.active == if w.phase.PointerCommitted? then w.next else w.previous
    ensures SwapStep(m, w, prior, after, WritingStep(w, i)).Some?
    ensures var (x, y, k) := SwapStep(m, w, prior, after, WritingStep(w, i)).value;
            && k.shutdown && (i == w.previous ==> Early(x.state)) && (i == w.next && w.phase.PointerCommitted? ==> Early(y.state))
            && (w.phase.Staged? ==> k.swap == Some(w.(phase := PointerCommitted)))
  {}

  lemma NextSwap(g: State, step: Step, i: nat)
    requires WellFormed(g.m, |g.slots|) && !IsSlotStep(step) && !IsManagerStep(step) && g.m.swap.Some? && i < |g.slots|
    requires var w := g.m.swap.value; SwapStep(g.m, w, g.slots[w.previous], g.slots[w.next], step).Some?
    ensures var w := g.m.swap.value;
            var (x, y, k) := SwapStep(g.m, w, g.slots[w.previous], g.slots[w.next], step).value;
            && Next(g, step).m == k && |Next(g, step).slots| == |g.slots|
            && (i == w.previous ==> Next(g, step).slots[i] == x) && (i == w.next ==> Next(g, step).slots[i] == y)
  {}

  lemma WritingNext(g: State, i: nat)
    requires ManagerOk(g.m, |g.slots|) && SwapCanWrite(g.m, i) && g.m.shutdown
    ensures var w, t := g.m.swap.value, Next(g, WritingStep(g.m.swap.value, i));
            && i < |g.slots| && i < |t.slots| && t.m.shutdown
            && t.slots[i] == g.slots[i].(accepting := t.slots[i].accepting, state := t.slots[i].state)
            && (i == w.previous || w.phase.PointerCommitted? ==> Early(t.slots[i].state))
            && (w.phase.Staged? ==> t.m.swap == Some(w.(phase := PointerCommitted)))
  {
    var w := g.m.swap.value;
    WritingStepTaken(g.m, w, g.slots[w.previous], g.slots[w.next], i);
    SwapStepRewrites(g.m, w, g.slots[w.previous], g.slots[w.next], WritingStep(w, i));
    NextSwap(g, WritingStep(w, i), i);
  }

  lemma SwapMove(start: System, moves: seq<Move>, i: nat, x: Slot, m: Manager, c: Closer) returns (more: seq<Move>, y: Slot, k: Manager)
    requires SystemOk(start) && Holds(Run(start, moves), i, x, m, c) && SwapCanWrite(m, i) && m.shutdown
    ensures Holds(Run(start, more), i, y, k, c) && y == x.(accepting := y.accepting, state := y.state) && k.shutdown
    ensures i == m.swap.value.previous || m.swap.value.phase.PointerCommitted? ==> Early(y.state)
    ensures m.swap.value.phase.Staged? ==> k.swap == Some(m.swap.value.(phase := PointerCommitted))
  {
    var g, step := Run(start, moves).g, WritingStep(m.swap.value, i);
    WritingNext(g, i);
    more := RunMore(start, moves, Other(step));
    y, k := Next(g, step).slots[i], Next(g, step).m;
  }

  /** A swap that can still write the state of the slot makes it grant guards again. */
  lemma SwapWrites(start: System, moves: seq<Move>, i: nat, x: Slot, m: Manager, c: Closer) returns (more: seq<Move>, y: Slot, k: Manager)
    requires SystemOk(start) && Holds(Run(start, moves), i, x, m, c) && SwapCanWrite(m, i) && m.shutdown
    ensures Holds(Run(start, more), i, y, k, c) && y == x.(accepting := y.accepting, state := y.state) && Early(y.state)
  {
    more, y, k := SwapMove(start, moves, i, x, m, c);
    if !Early(y.state) { more, y, k := SwapMove(start, more, i, y, k, c); }
  }

  /** The registration of a job that gets a guard. */
  function Registering(x: Slot, at: Point, references: nat): Slot {
    x.(jobs := x.jobs.(registration := Busy(at, false), orphan := true), references := references)
  }

  lemma GrantSteps(x: Slot, i: nat)
    requires x.jobs.registration.Free? && Early(x.state)
    ensures JobStep(x, BeginJob(i, false)) == Some(Registering(x, Looking, x.references))
    ensures JobStep(Registering(x, Looking, x.references), LookState(i)) == Some(Registering(x, Counting, x.references))
    ensures JobStep(Registering(x, Counting, x.references), RetainCount(i)) == Some(Registering(x, Raised, x.references + 1))
    ensures JobStep(Registering(x, Raised, x.references + 1), RetainConfirm(i)) == Some(Registering(x, Granted, x.references + 1))
  {}

  lemma GrantGuard(start: System, moves: seq<Move>, i: nat, x: Slot, m: Manager, c: Closer) returns (more: seq<Move>, y: Slot)
    requires SystemOk(start) && Holds(Run(start, moves), i, x, m, c) && x.jobs.registration.Free? && Early(x.state)
    ensures Holds(Run(start, more), i, y, m, c) && AtWork(y.jobs) > 0 && y.res == x.res && y.task == x.task && y.reload == x.reload
  {
    GrantSteps(x, i);
    more := JobMove(start, moves, i, x, m, c, BeginJob(i, false), Registering(x, Looking, x.references));
    more := JobMove(start, more, i, Registering(x, Looking, x.references), m, c, LookState(i), Registering(x, Counting, x.references));
    more := JobMove(start, more, i, Registering(x, Counting, x.references), m, c, RetainCount(i), Registering(x, Raised, x.references + 1));
    y := Registering(x, Granted, x.references + 1);
    more := JobMove(start, more, i, Registering(x, Raised, x.references + 1), m, c, RetainConfirm(i), y);
  }

  // ----- under whom a generation is closed -----

  /** Past position `k`, with a job at work that holds a guard on slot `i`. */
  predicate GuardOutlives(t: System, k: nat, i: nat) {
    t.closer.Sweeping? && t.closer.k > k && i < |t.g.slots| && AtWork(t.g.slots[i].jobs) > 0
  }

  predicate LeaseOutlives(t: System, k: nat, i: nat) {
    t.closer.Sweeping? && t.closer.k > k && i < |t.g.slots| && t.g.slots[i].leased > 0
  }

  /** The same, and the generation was closed without a failure. */
  predicate GuardOutlivesClosed(t: System, k: nat, i: nat) { GuardOutlives(t, k, i) && t.g.slots[i].state == Closed }

  ghost predicate CanOutlive(s: System, k: nat, i: nat)
    requires SystemOk(s)
  {
    exists moves :: GuardOutlives(Run(s, moves), k, i)
  }

  ghost predicate CanOutliveClosed(s: System, k: nat, i: nat)
    requires SystemOk(s)
  {
    exists moves :: GuardOutlivesClosed(Run(s, moves), k, i)
  }

  ghost predicate LeaseCanOutlive(s: System, k: nat, i: nat)
    requires SystemOk(s)
  {
    exists moves :: LeaseOutlives(Run(s, moves), k, i)
  }

  /** The sweep is about to mark its slot. */
  ghost predicate AtMark(s: System) { AtSlot(s) && s.closer.stage == Mark }

  lemma MarkedSlot(s: System)
    requires AtMark(s)
    ensures var t, i := After(s, MarkSlot), IndexAt(s);
            && AtSlot(t) && i in t.shut && t.g.m == s.g.m
            && Holds(t, i, SlotAt(s).(state := Closing), s.g.m, AtStage(s.closer, Calling(Outside, false)))
            && t.g.m.shutdown && IndexAt(t) == i && t.closer.k == s.closer.k
  {
    AfterKeepsInv(s, MarkSlot);
  }

  /** A slot in a swap is closed by nobody before the sweep. */
  lemma SwappedIsUntouched(s: System)
    requires AtMark(s) && SwapCanWrite(s.g.m, IndexAt(s))
    ensures !SlotAt(s).res.closed && SlotAt(s).task.NoTask?
  {
    assert SlotOk(s.g.m, IndexAt(s), SlotAt(s));
  }

  /** If a swap can still write the state, the sweep can close the generation well and under a guard. */
  lemma ReopenedUnderSweep(s: System) returns (moves: seq<Move>)
    requires AtMark(s) && SwapCanWrite(s.g.m, IndexAt(s))
    ensures SystemOk(After(s, MarkSlot)) && GuardOutlivesClosed(Run(After(s, MarkSlot), moves), s.closer.k, IndexAt(s))
  {
    MarkedSlot(s);
    SwappedIsUntouched(s);
    var t, i, m, c := After(s, MarkSlot), IndexAt(s), s.g.m, AtStage(s.closer, Calling(Outside, false));
    var x, k := SlotAt(s).(state := Closing), m;
    assert Run(t, []) == t;
    moves, x := JobsFinish(t, [], i, x, m, c);
    moves, x := SweepDrains(t, moves, i, x, m, c);
    var d := AtStage(c, Calling(Drained, false));
    moves, x, k := SwapWrites(t, moves, i, x, m, d);
    moves, x := GrantGuard(t, moves, i, x, k, d);
    var u := Run(t, moves);
    assert AtSlot(u) && SlotAt(u) == x;
    moves := FinishSlot(t, moves);
    assert Past(u, Run(t, moves));
  }

  /** What was drained well is not stranded. */
  lemma DrainedNotStranded(x: Slot, sweep: Call, forcing: bool)
    requires SlotCloseOk(x, sweep, forcing) && WellDrained(x, sweep)
    ensures !Stranded(x)
  {}

  lemma MarkedPast(s: System) returns (moves: seq<Move>)
    requires AtMark(s) && !Stranded(SlotAt(s))
    ensures SystemOk(After(s, MarkSlot))
    ensures var t, x, i := Run(After(s, MarkSlot), moves), SlotAt(s), IndexAt(s);
            && t.closer.Sweeping? && t.closer.k > s.closer.k && i < |t.g.slots|
            && t.g.slots[i].leased == x.leased && t.g.slots[i].jobs == x.jobs && (WellDrained(x, Outside) ==> t.g.slots[i].state == Closed)
  {
    MarkedSlot(s);
    var u := After(s, MarkSlot);
    assert Run(u, []) == u;
    moves := FinishSlot(u, []);
    assert Past(u, Run(u, moves));
  }

  /**
   A generation can be closed at shutdown, without a failure and under a job that holds a guard, if and only if a swap
   can still write its state when it is marked, or its reload has drained it already and it has such a job.
   */
  lemma {:induction false} ClosedUnderGuardExactly(s: System)
    requires AtMark(s)
    ensures SystemOk(After(s, MarkSlot))
    ensures CanOutliveClosed(After(s, MarkSlot), s.closer.k, IndexAt(s)) <==>
            SwapCanWrite(s.g.m, IndexAt(s)) || (WellDrained(SlotAt(s), Outside) && AtWork(SlotAt(s).jobs) > 0)
  {
    MarkedSlot(s);
    var u, i, x := After(s, MarkSlot), IndexAt(s), SlotAt(s);
    assert SlotCloseOk(x, SweepPart(s.closer, i), Forcing(s.closer, i));
    if SwapCanWrite(s.g.m, i) {
      var moves := ReopenedUnderSweep(s);
    } else if WellDrained(x, Outside) && AtWork(x.jobs) > 0 {
      DrainedNotStranded(x, Outside, false);
      var moves := MarkedPast(s);
      assert GuardOutlivesClosed(Run(u, moves), s.closer.k, i);
    } else {
      assert Calm(u, i);
      forall moves ensures !GuardOutlivesClosed(Run(u, moves), s.closer.k, i) { CalmForever(u, moves, i); }
    }
  }

  /** Only a discarded generation was drained before and has a job at work. */
  lemma DrainedBefore(s: System)
    requires AtMark(s) && WellDrained(SlotAt(s), Outside) && AtWork(SlotAt(s).jobs) > 0
    ensures IndexAt(s) in s.g.m.discarded && !SlotAt(s).reload.Outside?
  {
    var i, x := IndexAt(s), SlotAt(s);
    assert SlotOk(s.g.m, i, x) && SlotCloseOk(x, Outside, false);
  }

  /**
   Its provider clients can be closed, one way or the other, under a job that holds a guard if and only if it is not
   stranded and has such a job when it is marked, or a swap can still write its state.
   */
  lemma {:induction false} ShutUnderGuardExactly(s: System)
    requires AtMark(s)
    ensures SystemOk(After(s, MarkSlot))
    ensures CanOutlive(After(s, MarkSlot), s.closer.k, IndexAt(s)) <==>
            !Stranded(SlotAt(s)) && (AtWork(SlotAt(s).jobs) > 0 || SwapCanWrite(s.g.m, IndexAt(s)))
  {
    MarkedSlot(s);
    var u, i, x := After(s, MarkSlot), IndexAt(s), SlotAt(s);
    if SwapCanWrite(s.g.m, i) {
      SwappedIsUntouched(s);
      var moves := ReopenedUnderSweep(s);
      assert GuardOutlives(Run(u, moves), s.closer.k, i);
    } else if Stranded(x) {
      StrandedIsBlocked(u, s.closer.k);
      forall moves ensures !GuardOutlives(Run(u, moves), s.closer.k, i) { BlockedForever(u, s.closer.k, moves); }
    } else if AtWork(x.jobs) > 0 {
      var moves := MarkedPast(s);
      assert GuardOutlives(Run(u, moves), s.closer.k, i);
    } else {
      forall moves ensures !GuardOutlives(Run(u, moves), s.closer.k, i) { FirmForever(u, moves, i); }
    }
  }

  /** And under a lease if and only if it is not stranded and still leased, which a graceful shutdown excludes. */
  lemma {:induction false} ShutUnderLeaseExactly(s: System)
    requires AtMark(s)
    ensures SystemOk(After(s, MarkSlot))
    ensures LeaseCanOutlive(After(s, MarkSlot), s.closer.k, IndexAt(s)) <==> !Stranded(SlotAt(s)) && SlotAt(s).leased > 0
    ensures SlotAt(s).leased > 0 ==> s.closer.forced
  {
    MarkedSlot(s);
    var u, i, x := After(s, MarkSlot), IndexAt(s), SlotAt(s);
    if Stranded(x) {
      StrandedIsBlocked(u, s.closer.k);
      forall moves ensures !LeaseOutlives(Run(u, moves), s.closer.k, i) { BlockedForever(u, s.closer.k, moves); }
    } else if x.leased > 0 {
      var moves := MarkedPast(s);
      assert LeaseOutlives(Run(u, moves), s.closer.k, i);
    } else {
      forall moves ensures !LeaseOutlives(Run(u, moves), s.closer.k, i) { LifecycleMonotone(u, moves, i); }
    }
  }
}
