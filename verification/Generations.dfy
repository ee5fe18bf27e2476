/**
 Publication, leases and retirement of runtime generations (rust/src/runtime_lifecycle/lease.rs and manager.rs) as
 interleaved steps. What runs under the manager's state lock is one step; each other atomic access is a step of its own.
 */
module Generations {
  import opened ResourceClose
  import opened Text

  const MAX_RETIRING_GENERATIONS := 4

  // ----- the state -----

  datatype SlotState = Active | Retiring | DrainingFinalization | Closing | Closed | FailedClose

  /** How far the retirement task of a slot has come; an aborted one is stranded if it slept in the drain it owned. */
  datatype Task =
    | NoTask | WaitLeases | SawNoLeases | WaitReferences | SawNoReferences | CloseRunning(call: Call) | Finished
    | Aborted(stranded: bool)

  /** Where `register` is in `try_retain_finalization`. */
  datatype Point = Looking | Counting | Raised | Undoing | Granted | Refused

  /** Who holds the lock of the jobs: nobody, or a registration, under a lease of the generation or without. */
  datatype Registration = Free | Busy(at: Point, withLease: bool)

  /**
   The finalization jobs: those with a guard and those that were refused one, and the guards of finished jobs that are
   still to be dropped. `orphan` if some job was registered without a lease.
   */
  datatype Jobs = Jobs(registration: Registration, guarded: nat, unguarded: nat, dropping: nat, orphan: bool)

  /** A slot: its atomic fields, its retirement task, its live leases, its jobs and its resources. */
  datatype Slot = Slot(
    generation: nat, accepting: bool, activeLeases: nat, references: nat, state: SlotState, task: Task,
    leased: nat, jobs: Jobs, res: Resources, reload: Call)

  /** A staged swap; while it is undone it first reads the shutdown flag and then stores the outcome. */
  datatype Phase = Staged | PointerCommitted | FlagRead(shutdown: bool) | Restored

  datatype Swap = Swap(previous: nat, next: nat, phase: Phase)

  /** The manager; `discarded` are the candidates that were staged and not published. */
  datatype Manager = Manager(
    active: nat, admissionClosed: bool, pendingSwap: bool, shutdown: bool, epoch: nat,
    retiring: seq<nat>, swap: Option<Swap>, discarded: set<nat>)

  datatype State = State(slots: seq<Slot>, m: Manager)

  function NewSlot(generation: nat, accepting: bool): Slot {
    Slot(generation, accepting, 0, 0, Active, NoTask, 0, Jobs(Free, 0, 0, 0, false), UNTOUCHED, Outside)
  }

  function Init(generation: nat): State {
    State([NewSlot(generation, true)], Manager(0, false, false, false, 0, [], None, {}))
  }

  // ----- steps -----

  datatype Step =
    | Acquire | Release(slot: nat)
    | BeginJob(slot: nat, withLease: bool) | LookState(slot: nat) | RetainAgain(slot: nat) | RetainCount(slot: nat)
    | RetainConfirm(slot: nat) | RetainRefuse(slot: nat) | RetainUndo(slot: nat) | InsertJob(slot: nat)
    | EndJob(slot: nat, withGuard: bool) | DropGuard(slot: nat)
    | Reap | Stage(expected: nat, candidate: nat) | CommitPointer | RollbackPointer
    | Accept | AcceptDuringShutdown | FailClosed
    | DropPointer | RollbackRead | RollbackStore | FinishGate
    | Shutdown
    | Schedule(slot: nat) | SeeNoLeases(slot: nat) | LeaseTimeout(slot: nat) | BeginDrain(slot: nat)
    | SeeNoReferences(slot: nat) | ReferenceTimeout(slot: nat) | BeginClose(slot: nat) | EndClose(slot: nat)
    | RetireCall(slot: nat, act: Act) | ReloadCall(slot: nat, act: Act) | Abort(slot: nat)

  /** The states in which a new finalization reference is refused. */
  predicate Refuses(state: SlotState) {
    state == DrainingFinalization || state == Closing || state == Closed || state == FailedClose
  }

  /** Live finalization guards, those of finished jobs included. */
  function Held(j: Jobs): nat { j.guarded + j.dropping + (if j.registration.Busy? && j.registration.at.Granted? then 1 else 0) }

  /** Guards of jobs that are not finished. */
  function AtWork(j: Jobs): nat { j.guarded + (if j.registration.Busy? && j.registration.at.Granted? then 1 else 0) }

  /** References taken back or not confirmed yet. */
  function Tentative(j: Jobs): nat {
    if j.registration.Busy? && (j.registration.at.Raised? || j.registration.at.Undoing?) then 1 else 0
  }

  /** What a look at the jobs finds, if their lock is free. */
  function JobsSeen(j: Jobs): Option<nat> { if j.registration.Free? then Some(j.guarded + j.unguarded) else None }

  function At(x: Slot, at: Point): Slot
    requires x.jobs.registration.Busy?
  {
    x.(jobs := x.jobs.(registration := x.jobs.registration.(at := at)))
  }

  /** A step of a lease holder or of a job; `None` if it is not enabled. A registration keeps its lease. */
  function JobStep(x: Slot, step: Step): Option<Slot> {
    var j := x.jobs;
    var at := if j.registration.Busy? then Some(j.registration.at) else None;
    match step
    case Release(_) =>
      if x.leased > (if j.registration.Busy? && j.registration.withLease then 1 else 0) then
        Some(x.(leased := x.leased - 1, activeLeases := Less(x.activeLeases)))
      else None
    case BeginJob(_, withLease) =>
      if j.registration.Free? && (withLease ==> x.leased > 0) then
        Some(x.(jobs := j.(registration := Busy(Looking, withLease), orphan := j.orphan || !withLease)))
      else None
    case LookState(_) => if at == Some(Looking) then Some(At(x, if Refuses(x.state) then Refused else Counting)) else None
    case RetainAgain(_) => if at == Some(Counting) then Some(At(x, Looking)) else None
    case RetainCount(_) => if at == Some(Counting) then Some(At(x, Raised).(references := x.references + 1)) else None
    case RetainConfirm(_) => if at == Some(Raised) && !Refuses(x.state) then Some(At(x, Granted)) else None
    case RetainRefuse(_) => if at == Some(Raised) && Refuses(x.state) then Some(At(x, Undoing)) else None
    case RetainUndo(_) => if at == Some(Undoing) then Some(At(x, Refused).(references := Less(x.references))) else None
    case InsertJob(_) =>
      if at == Some(Granted) then Some(x.(jobs := j.(registration := Free, guarded := j.guarded + 1)))
      else if at == Some(Refused) then Some(x.(jobs := j.(registration := Free, unguarded := j.unguarded + 1)))
      else None
    case EndJob(_, withGuard) =>
      if !j.registration.Free? then None
      else if withGuard && j.guarded > 0 then Some(x.(jobs := j.(guarded := j.guarded - 1, dropping := j.dropping + 1)))
      else if !withGuard && j.unguarded > 0 then Some(x.(jobs := j.(unguarded := j.unguarded - 1)))
      else None
    case DropGuard(_) =>
      if j.dropping > 0 then Some(x.(jobs := j.(dropping := j.dropping - 1), references := Less(x.references))) else None
    case _ => None
  }

  /** Where a retirement task can be aborted: where it waits. */
  predicate Waits(task: Task) {
    task.WaitLeases? || task.WaitReferences? || (task.CloseRunning? && (task.call.Sleeping? || task.call.Awaiting?))
  }

  function RetireCallStep(x: Slot, act: Act): Option<Slot>
    requires x.task.CloseRunning?
  {
    match CallStep(x.res, Retirement, JobsSeen(x.jobs), x.task.call, act)
    case None => None
    case Some((r, c)) => Some(x.(res := r, task := CloseRunning(c)))
  }

  function ReloadCallStep(x: Slot, act: Act): Option<Slot> {
    match CallStep(x.res, Reload, JobsSeen(x.jobs), x.reload, act)
    case None => None
    case Some((r, c)) => Some(x.(res := r, reload := c))
  }

  /** A step of the retirement task of a slot, or of the reload that discarded it; `None` if it is not enabled. */
  function TaskStep(x: Slot, step: Step): Option<Slot> {
    match step
    case SeeNoLeases(_) => if x.task.WaitLeases? && x.activeLeases == 0 then Some(x.(task := SawNoLeases)) else None
    case LeaseTimeout(_) => if x.task.WaitLeases? then Some(x.(task := Finished, state := FailedClose)) else None
    case BeginDrain(_) => if x.task.SawNoLeases? then Some(x.(task := WaitReferences, state := DrainingFinalization)) else None
    case SeeNoReferences(_) =>
      if x.task.WaitReferences? && x.references == 0 then Some(x.(task := SawNoReferences)) else None
    case ReferenceTimeout(_) => if x.task.WaitReferences? then Some(x.(task := Finished, state := FailedClose)) else None
    case BeginClose(_) => if x.task.SawNoReferences? then Some(x.(task := CloseRunning(Outside), state := Closing)) else None
    case RetireCall(_, act) => if x.task.CloseRunning? then RetireCallStep(x, act) else None
    case EndClose(_) =>
      if x.task.CloseRunning? && x.task.call.Returned? then
        Some(x.(task := Finished, state := if x.task.call.report.failed then FailedClose else Closed))
      else None
    case ReloadCall(_, act) => ReloadCallStep(x, act)
    case Abort(_) => if Waits(x.task) then Some(x.(task := Aborted(x.task.CloseRunning? && x.task.call.Sleeping?))) else None
    case _ => None
  }

  /** A step of one slot's own. */
  function SlotStep(x: Slot, step: Step): Option<Slot> { if IsJobStep(step) then JobStep(x, step) else TaskStep(x, step) }

  /** `fetch_sub` with the source's repair of an underflow. */
  function Less(n: nat): nat { if n == 0 then 0 else n - 1 }

  /** The slots of a list that are not closed. */
  function Open(slots: seq<Slot>, list: seq<nat>): (r: seq<nat>)
    ensures |r| <= |list| && forall i :: i in r <==> i in list && !(i < |slots| && slots[i].state == Closed)
  {
    if list == [] then []
    else (if list[0] < |slots| && slots[list[0]].state == Closed then [] else [list[0]]) + Open(slots, list[1..])
  }

  /** A step of the swap on its two slots and on the manager; `None` if it is not enabled. */
  function SwapStep(m: Manager, w: Swap, prior: Slot, after: Slot, step: Step): Option<(Slot, Slot, Manager)> {
    match step
    case CommitPointer =>
      if w.phase == Staged && m.active == w.previous then
        Some((prior.(accepting := false, state := Retiring), after.(accepting := false),
              m.(active := w.next, swap := Some(w.(phase := PointerCommitted)))))
      else None
    case RollbackPointer =>
      if w.phase == PointerCommitted && m.active == w.next then
        Some((prior.(accepting := !m.shutdown, state := Active), after.(accepting := false),
              m.(active := w.previous, swap := Some(w.(phase := Staged)))))
      else None
    case Accept =>
      if w.phase == PointerCommitted && !m.shutdown && m.active == w.next then
        Some((prior, after.(accepting := true, state := Active), Published(m, w).(epoch := m.epoch + 1, admissionClosed := false)))
      else None
    case AcceptDuringShutdown =>
      if w.phase == PointerCommitted && m.shutdown && m.active == w.next then
        Some((prior, after.(accepting := false, state := Active), Published(m, w).(epoch := m.epoch + 1, admissionClosed := true)))
      else None
    // the only caller fails closed after the pointer was committed
    case FailClosed =>
      if w.phase == PointerCommitted then Some((prior, after, Published(m, w).(admissionClosed := true))) else None
    case DropPointer =>
      if w.phase == PointerCommitted then Some((prior, after, m.(active := w.previous, swap := Some(w.(phase := Staged))))) else None
    case RollbackRead =>
      if w.phase == Staged then
        Some((prior.(state := Active), after, m.(swap := Some(w.(phase := FlagRead(m.shutdown))))))
      else None
    case RollbackStore =>
      if w.phase.FlagRead? then
        Some((prior.(accepting := !w.phase.shutdown), after.(accepting := false), m.(swap := Some(w.(phase := Restored)))))
      else None
    case FinishGate =>
      if w.phase == Staged || w.phase == Restored then
        Some((prior, after, m.(pendingSwap := false, admissionClosed := m.shutdown, swap := None, discarded := m.discarded + {w.next})))
      else None
    case _ => None
  }

  /** The old slot goes to the retiring list and the swap is over. */
  function Published(m: Manager, w: Swap): Manager {
    m.(pendingSwap := false, retiring := m.retiring + [w.previous], swap := None)
  }

  predicate CanAcquire(m: Manager, x: Slot) { !m.shutdown && !m.admissionClosed && x.accepting }

  predicate CanStage(s: State, expected: nat, candidate: nat)
    requires s.m.active < |s.slots|
  {
    var x := s.slots[s.m.active];
    && !s.m.shutdown && !s.m.admissionClosed && !s.m.pendingSwap
    && |Open(s.slots, s.m.retiring)| < MAX_RETIRING_GENERATIONS
    && x.generation == expected && x.accepting && candidate != expected
  }

  /** The steps of the manager. */
  function ManagerStep(s: State, step: Step): State
    requires s.m.active < |s.slots|
  {
    var m := s.m;
    var x := s.slots[m.active];
    match step
    case Acquire =>
      if CanAcquire(m, x) then State(s.slots[m.active := x.(activeLeases := x.activeLeases + 1, leased := x.leased + 1)], m) else s
    case Reap => State(s.slots, m.(retiring := Open(s.slots, m.retiring)))
    case Stage(expected, candidate) =>
      if CanStage(s, expected, candidate) then
        State(s.slots + [NewSlot(candidate, false)],
              m.(admissionClosed := true, pendingSwap := true, retiring := Open(s.slots, m.retiring),
                 swap := Some(Swap(m.active, |s.slots|, Staged))))
      else s
    case Shutdown => State(s.slots[m.active := x.(accepting := false)], m.(shutdown := true, admissionClosed := true))
    case Schedule(i) =>
      if i in m.retiring && i < |s.slots| && s.slots[i].task == NoTask then State(s.slots[i := s.slots[i].(task := WaitLeases)], m)
      else s
    case _ => s
  }

  predicate IsJobStep(step: Step) {
    || step.Release? || step.BeginJob? || step.LookState? || step.RetainAgain? || step.RetainCount? || step.RetainConfirm?
    || step.RetainRefuse? || step.RetainUndo? || step.InsertJob? || step.EndJob? || step.DropGuard?
  }

  predicate IsSlotStep(step: Step) {
    || IsJobStep(step)
    || step.SeeNoLeases? || step.LeaseTimeout? || step.BeginDrain? || step.SeeNoReferences? || step.ReferenceTimeout?
    || step.BeginClose? || step.RetireCall? || step.EndClose? || step.ReloadCall? || step.Abort?
  }

  predicate IsManagerStep(step: Step) { step.Acquire? || step.Reap? || step.Stage? || step.Shutdown? || step.Schedule? }

  predicate WellFormed(m: Manager, n: nat) {
    && m.active < n && (forall i :: i in m.retiring ==> i < n) && (forall i :: i in m.discarded ==> i < n)
    && (m.swap.Some? ==> m.swap.value.previous < n && m.swap.value.next < n && m.swap.value.previous != m.swap.value.next)
  }

  /** One step; a step that is not enabled changes nothing. */
  function Next(s: State, step: Step): State
    requires WellFormed(s.m, |s.slots|)
  {
    if IsSlotStep(step) then
      if step.slot >= |s.slots| || (step.ReloadCall? && step.slot !in s.m.discarded) then s else
      match SlotStep(s.slots[step.slot], step)
      case None => s
      case Some(x) => State(s.slots[step.slot := x], s.m)
    else if IsManagerStep(step) then ManagerStep(s, step)
    else if s.m.swap.None? then s
    else
      var w := s.m.swap.value;
      match SwapStep(s.m, w, s.slots[w.previous], s.slots[w.next], step)
      case None => s
      case Some((prior, after, m)) => State(s.slots[w.previous := prior][w.next := after], m)
  }

  // ----- the invariant -----

  /** A slot that is published or about to be. */
  predicate Current(m: Manager, i: nat) {
    i == m.active || (m.swap.Some? && (i == m.swap.value.previous || i == m.swap.value.next))
  }

  predicate ManagerOk(m: Manager, n: nat) {
    && WellFormed(m, n) && (m.shutdown ==> m.admissionClosed) && (m.pendingSwap <==> m.swap.Some?)
    && (m.swap.Some? ==>
          && m.admissionClosed
          && m.active == (if m.swap.value.phase == PointerCommitted then m.swap.value.next else m.swap.value.previous))
    && |m.retiring| + (if m.swap.Some? then 1 else 0) <= MAX_RETIRING_GENERATIONS
    && (forall i :: i in m.retiring ==> !Current(m, i))
    && (forall i :: i in m.discarded ==> !Current(m, i) && i !in m.retiring)
  }

  /** The counters are exact. */
  predicate CountsOk(x: Slot) {
    x.activeLeases == x.leased && x.references == Held(x.jobs) + Tentative(x.jobs)
  }

  /** What holds of a slot at all times. */
  predicate AlwaysOk(x: Slot) {
    && CountsOk(x)
    && (x.jobs.registration.Busy? ==> if x.jobs.registration.withLease then x.leased > 0 else x.jobs.orphan)
    && (x.res.report.Some? ==> x.res.report.value.failed || x.res.report.value.shut)
    && (x.task == Aborted(true) ==> x.jobs.orphan)
  }

  predicate Early(state: SlotState) { state == Active || state == Retiring }

  /** How task, state, holders and resources go together. */
  predicate TaskOk(x: Slot) {
    match x.task
    case NoTask => Early(x.state)
    case WaitLeases => Early(x.state)
    case SawNoLeases => Early(x.state) && x.leased == 0
    case WaitReferences => x.state == DrainingFinalization && x.leased == 0
    case SawNoReferences => x.state == DrainingFinalization && x.leased == 0 && Held(x.jobs) == 0
    case CloseRunning(c) =>
      && x.state == Closing && x.leased == 0 && Held(x.jobs) == 0 && (!c.Outside? ==> x.res.closed)
      && (c.Returned? && !c.report.failed ==> ClosedWell(x.res))
    case Finished => x.state == FailedClose || (x.state == Closed && x.leased == 0 && Held(x.jobs) == 0 && ClosedWell(x.res))
    case Aborted(stranded) =>
      || (Early(x.state) && !stranded)
      || (x.state == DrainingFinalization && x.leased == 0 && !stranded)
      || (x.state == Closing && x.leased == 0 && Held(x.jobs) == 0)
  }

  predicate Retired(task: Task) { task.CloseRunning? || task.Finished? || task.Aborted? }

  /** Unless it was discarded, a generation is closed by its retirement, without users. */
  predicate ResourcesUnused(x: Slot) {
    x.reload.Outside? ==>
      && (x.res.closed ==> Retired(x.task))
      && (x.res.shuts > 0 ==> x.res.closed && x.leased == 0 && Held(x.jobs) == 0 && Refuses(x.state))
  }

  /** If jobs are registered under leases only, none goes without a guard and no retirement sleeps in its drain. */
  predicate LeasedOk(x: Slot) {
    !x.jobs.orphan ==>
      && (Early(x.state) ==> x.jobs.unguarded == 0 && !(x.jobs.registration.Busy? && Denied(x.jobs.registration.at)))
      && (x.task.SawNoLeases? || x.task.WaitReferences? || x.task.SawNoReferences? || x.task.CloseRunning? ==>
            x.jobs.registration.Free? && x.jobs.unguarded == 0)
      && (x.task.CloseRunning? ==> !x.task.call.Sleeping?)
  }

  predicate Denied(at: Point) { at.Undoing? || at.Refused? }

  /** Where a slot that is still open is kept. */
  predicate Tracked(m: Manager, i: nat, x: Slot) {
    Current(m, i) || i in m.retiring || i in m.discarded || x.state == Closed
  }

  /** What a slot's place with the manager asks of it. */
  predicate PlaceOk(m: Manager, i: nat, x: Slot) {
    && Tracked(m, i, x) && (x.accepting ==> i == m.active)
    && (Current(m, i) || i in m.discarded ==> x.task == NoTask)
    && (m.swap.Some? && i == m.swap.value.next ==> !x.accepting && x.leased == 0)
    && (i in m.discarded ==> x.leased == 0) && (!x.reload.Outside? ==> i in m.discarded)
  }

  predicate SlotOk(m: Manager, i: nat, x: Slot) {
    AlwaysOk(x) && TaskOk(x) && ResourcesUnused(x) && LeasedOk(x) && PlaceOk(m, i, x)
  }

  /** All of it for the slots outside `shut`, and exact counters everywhere. */
  ghost predicate Inv(s: State, shut: set<nat>) {
    && ManagerOk(s.m, |s.slots|) && (forall i :: i in shut ==> i < |s.slots|)
    && forall i :: 0 <= i < |s.slots| ==> AlwaysOk(s.slots[i]) && (i in shut || SlotOk(s.m, i, s.slots[i]))
  }

  // ----- every step keeps it -----

  /** A step of a slot's own changes this slot and nothing else. */
  lemma NextAt(s: State, step: Step, i: nat)
    requires WellFormed(s.m, |s.slots|) && i < |s.slots| && IsSlotStep(step)
    ensures var t := Next(s, step);
            && t.m == s.m && |t.slots| == |s.slots|
            && (t.slots[i] == s.slots[i] || (step.slot == i && SlotStep(s.slots[i], step) == Some(t.slots[i])))
  {}

  lemma JobStepAlwaysOk(x: Slot, step: Step)
    requires JobStep(x, step).Some? && AlwaysOk(x)
    ensures AlwaysOk(JobStep(x, step).value)
  {}

  lemma JobStepTaskOk(x: Slot, step: Step)
    requires JobStep(x, step).Some? && AlwaysOk(x) && TaskOk(x) && ResourcesUnused(x)
    ensures TaskOk(JobStep(x, step).value) && ResourcesUnused(JobStep(x, step).value)
  {}

  lemma JobStepLeasedOk(x: Slot, step: Step)
    requires JobStep(x, step).Some? && AlwaysOk(x) && TaskOk(x) && LeasedOk(x)
    ensures LeasedOk(JobStep(x, step).value)
  {}

  lemma JobStepOk(m: Manager, i: nat, x: Slot, step: Step)
    requires JobStep(x, step).Some? && SlotOk(m, i, x)
    ensures SlotOk(m, i, JobStep(x, step).value)
  {
    JobStepAlwaysOk(x, step);
    JobStepTaskOk(x, step);
    JobStepLeasedOk(x, step);
    JobStepElsewhere(x, step);
  }

  /** A step of a job leaves the manager's part of a slot alone. */
  lemma JobStepElsewhere(x: Slot, step: Step)
    requires JobStep(x, step).Some?
    ensures var y := JobStep(x, step).value;
            && y.state == x.state && y.accepting == x.accepting && y.task == x.task && y.reload == x.reload
            && y.res == x.res && y.leased <= x.leased
  {}

  lemma RetireCallAlwaysOk(x: Slot, act: Act)
    requires x.task.CloseRunning? && RetireCallStep(x, act).Some? && AlwaysOk(x)
    ensures AlwaysOk(RetireCallStep(x, act).value)
  {}

  /** A call touches the resources only, and keeps what the retirement knows of them. */
  lemma RetireCallKeeps(x: Slot, act: Act)
    requires x.task.CloseRunning? && RetireCallStep(x, act).Some? && AlwaysOk(x) && TaskOk(x) && ResourcesUnused(x)
    ensures var y := RetireCallStep(x, act).value; TaskOk(y) && ResourcesUnused(y)
  {}

  lemma RetireCallLeased(x: Slot, act: Act)
    requires x.task.CloseRunning? && RetireCallStep(x, act).Some? && TaskOk(x) && LeasedOk(x)
    ensures LeasedOk(RetireCallStep(x, act).value)
  {}

  lemma RetireCallOk(m: Manager, i: nat, x: Slot, act: Act)
    requires x.task.CloseRunning? && RetireCallStep(x, act).Some? && AlwaysOk(x)
    ensures var y := RetireCallStep(x, act).value; AlwaysOk(y) && (SlotOk(m, i, x) ==> SlotOk(m, i, y))
  {
    RetireCallAlwaysOk(x, act);
    if SlotOk(m, i, x) {
      RetireCallKeeps(x, act);
      RetireCallLeased(x, act);
    }
  }

  lemma ReloadCallOk(m: Manager, i: nat, x: Slot, act: Act)
    requires ReloadCallStep(x, act).Some? && AlwaysOk(x) && i in m.discarded
    ensures var y := ReloadCallStep(x, act).value; AlwaysOk(y) && (SlotOk(m, i, x) ==> SlotOk(m, i, y))
  {}

  lemma TaskStepOk(m: Manager, i: nat, x: Slot, step: Step)
    requires TaskStep(x, step).Some? && !step.RetireCall? && !step.ReloadCall?
    requires AlwaysOk(x) && (step.Abort? ==> SlotOk(m, i, x))
    ensures var y := TaskStep(x, step).value; AlwaysOk(y) && (SlotOk(m, i, x) ==> SlotOk(m, i, y))
  {}

  lemma SlotStepOk(m: Manager, i: nat, x: Slot, step: Step)
    requires SlotStep(x, step).Some? && AlwaysOk(x) && IsSlotStep(step) && step.slot == i
    requires (step.ReloadCall? ==> i in m.discarded) && (step.Abort? ==> SlotOk(m, i, x))
    ensures var y := SlotStep(x, step).value; AlwaysOk(y) && (SlotOk(m, i, x) ==> SlotOk(m, i, y))
  {
    if IsJobStep(step) {
      JobStepAlwaysOk(x, step);
      if SlotOk(m, i, x) { JobStepOk(m, i, x, step); }
    } else if step.RetireCall? {
      RetireCallOk(m, i, x, step.act);
    } else if step.ReloadCall? {
      ReloadCallOk(m, i, x, step.act);
    } else {
      TaskStepOk(m, i, x, step);
    }
  }

  lemma SlotChange(s: State, shut: set<nat>, i: nat, x: Slot)
    requires Inv(s, shut) && i < |s.slots| && AlwaysOk(x) && (i in shut || SlotOk(s.m, i, x))
    ensures Inv(State(s.slots[i := x], s.m), shut)
  {}

  /** No task is aborted on a slot that the shutdown closes. */
  predicate Abortable(step: Step, shut: set<nat>) { step.Abort? ==> step.slot !in shut }

  lemma SlotStepKeepsInv(s: State, shut: set<nat>, step: Step)
    requires Inv(s, shut) && IsSlotStep(step) && Abortable(step, shut)
    ensures Inv(Next(s, step), shut)
  {
    if step.slot < |s.slots| && SlotStep(s.slots[step.slot], step).Some? && (step.ReloadCall? ==> step.slot in s.m.discarded) {
      SlotStepOk(s.m, step.slot, s.slots[step.slot], step);
      SlotChange(s, shut, step.slot, SlotStep(s.slots[step.slot], step).value);
    }
  }

  lemma ReapKeepsInv(s: State, shut: set<nat>)
    requires Inv(s, shut)
    ensures Inv(ManagerStep(s, Reap), shut)
  {}

  lemma StageKeepsInv(s: State, shut: set<nat>, expected: nat, candidate: nat)
    requires Inv(s, shut) && CanStage(s, expected, candidate)
    ensures Inv(ManagerStep(s, Stage(expected, candidate)), shut)
  {
    var t := ManagerStep(s, Stage(expected, candidate));
    forall i | 0 <= i < |t.slots| ensures AlwaysOk(t.slots[i]) && (i in shut || SlotOk(t.m, i, t.slots[i])) {
      if i < |s.slots| { assert AlwaysOk(s.slots[i]) && (i in shut || SlotOk(s.m, i, s.slots[i])); }
    }
  }

  lemma ManagerStepKeepsInv(s: State, shut: set<nat>, step: Step)
    requires Inv(s, shut) && IsManagerStep(step)
    ensures Inv(ManagerStep(s, step), shut)
  {
    match step
    case Reap => ReapKeepsInv(s, shut);
    case Stage(expected, candidate) => if CanStage(s, expected, candidate) { StageKeepsInv(s, shut, expected, candidate); }
    case _ =>
  }

  lemma SwapStepManagerOk(m: Manager, n: nat, w: Swap, prior: Slot, after: Slot, step: Step)
    requires ManagerOk(m, n) && m.swap == Some(w)
    ensures match SwapStep(m, w, prior, after, step)
            case None => true
            case Some((_, _, k)) => ManagerOk(k, n)
  {}

  /** Rewriting the state of a slot that is published or about to be. */
  lemma RewriteOk(x: Slot, accepting: bool, state: SlotState)
    requires AlwaysOk(x) && Early(state)
    ensures AlwaysOk(x.(accepting := accepting, state := state))
    ensures TaskOk(x) && ResourcesUnused(x) && LeasedOk(x) && x.task.NoTask? ==>
              var y := x.(accepting := accepting, state := state); TaskOk(y) && ResourcesUnused(y) && LeasedOk(y)
  {}

  /** A step of the swap rewrites state and acceptance of its slots only. */
  lemma SwapStepRewrites(m: Manager, w: Swap, prior: Slot, after: Slot, step: Step)
    ensures match SwapStep(m, w, prior, after, step)
            case None => true
            case Some((x, y, _)) =>
              && x == prior.(accepting := x.accepting, state := x.state) && (Early(x.state) || x.state == prior.state)
              && y == after.(accepting := y.accepting, state := y.state) && (Early(y.state) || y.state == after.state)
  {}

  lemma SwapStepPlaceOk(m: Manager, n: nat, w: Swap, prior: Slot, after: Slot, step: Step)
    requires ManagerOk(m, n) && m.swap == Some(w)
    ensures match SwapStep(m, w, prior, after, step)
            case None => true
            case Some((x, y, k)) =>
              (PlaceOk(m, w.previous, prior) ==> PlaceOk(k, w.previous, x)) && (PlaceOk(m, w.next, after) ==> PlaceOk(k, w.next, y))
  {}

  /** A step of the swap keeps what held of each of its slots. */
  lemma SwapStepOk(m: Manager, n: nat, w: Swap, prior: Slot, after: Slot, step: Step)
    requires ManagerOk(m, n) && m.swap == Some(w) && AlwaysOk(prior) && AlwaysOk(after)
    ensures match SwapStep(m, w, prior, after, step)
            case None => true
            case Some((x, y, k)) =>
              && AlwaysOk(x) && AlwaysOk(y)
              && (SlotOk(m, w.previous, prior) ==> SlotOk(k, w.previous, x))
              && (SlotOk(m, w.next, after) ==> SlotOk(k, w.next, y))
  {
    match SwapStep(m, w, prior, after, step)
    case None =>
    case Some((x, y, k)) =>
      SwapStepRewrites(m, w, prior, after, step);
      SwapStepPlaceOk(m, n, w, prior, after, step);
      SlotRewriteOk(m, w.previous, prior, x);
      SlotRewriteOk(m, w.next, after, y);
  }

  lemma SlotRewriteOk(m: Manager, i: nat, x: Slot, y: Slot)
    requires AlwaysOk(x) && y == x.(accepting := y.accepting, state := y.state) && (Early(y.state) || y.state == x.state)
    requires Current(m, i)
    ensures AlwaysOk(y) && (SlotOk(m, i, x) ==> TaskOk(y) && ResourcesUnused(y) && LeasedOk(y))
  {
    if Early(y.state) { RewriteOk(x, y.accepting, y.state); }
  }

  lemma SwapStepElsewhere(m: Manager, n: nat, w: Swap, prior: Slot, after: Slot, step: Step, i: nat, x: Slot)
    requires ManagerOk(m, n) && m.swap == Some(w) && i != w.previous && i != w.next && SlotOk(m, i, x)
    ensures match SwapStep(m, w, prior, after, step)
            case None => true
            case Some((_, _, k)) => SlotOk(k, i, x)
  {}

  lemma SwapStepKeepsInv(s: State, shut: set<nat>, step: Step)
    requires Inv(s, shut) && !IsSlotStep(step) && !IsManagerStep(step)
    ensures Inv(Next(s, step), shut)
  {
    if s.m.swap.Some? {
      var t, w := Next(s, step), s.m.swap.value;
      var prior, after := s.slots[w.previous], s.slots[w.next];
      SwapStepManagerOk(s.m, |s.slots|, w, prior, after, step);
      SwapStepOk(s.m, |s.slots|, w, prior, after, step);
      forall i | 0 <= i < |t.slots| ensures AlwaysOk(t.slots[i]) && (i in shut || SlotOk(t.m, i, t.slots[i])) {
        if i != w.previous && i != w.next && i !in shut { SwapStepElsewhere(s.m, |s.slots|, w, prior, after, step, i, s.slots[i]); }
      }
    }
  }

  lemma NextKeepsInv(s: State, shut: set<nat>, step: Step)
    requires Inv(s, shut) && Abortable(step, shut)
    ensures Inv(Next(s, step), shut)
  {
    if IsSlotStep(step) {
      SlotStepKeepsInv(s, shut, step);
    } else if IsManagerStep(step) {
      ManagerStepKeepsInv(s, shut, step);
    } else {
      SwapStepKeepsInv(s, shut, step);
    }
  }

  lemma InitOk(generation: nat)
    ensures Inv(Init(generation), {})
  {}

  // ----- every step keeps the close in order -----

  /** The retirement that set the flag was aborted asleep. */
  predicate Stranded(x: Slot) { x.task.Aborted? && x.task.stranded }

  function CallsOf(x: Slot, sweep: Call): Calls { Calls(if x.task.CloseRunning? then x.task.call else Outside, x.reload, sweep) }

  predicate SlotCloseOk(x: Slot, sweep: Call, forcing: bool) { CloseOk(x.res, CallsOf(x, sweep), Stranded(x), forcing) }

  /** What the close of a slot looks at. */
  predicate SameClose(x: Slot, y: Slot) {
    y.res == x.res && y.reload == x.reload && CallsOf(y, Outside) == CallsOf(x, Outside) && Stranded(y) == Stranded(x)
  }

  lemma SameCloseOk(x: Slot, y: Slot, sweep: Call, forcing: bool)
    requires SameClose(x, y) && SlotCloseOk(x, sweep, forcing)
    ensures SlotCloseOk(y, sweep, forcing)
  {}

  lemma AbortCloseOk(x: Slot, i: nat, sweep: Call, forcing: bool)
    requires TaskStep(x, Abort(i)).Some? && SlotCloseOk(x, sweep, forcing)
    ensures SlotCloseOk(TaskStep(x, Abort(i)).value, sweep, forcing)
  {}

  lemma OtherTaskStepCloseOk(x: Slot, step: Step, sweep: Call, forcing: bool)
    requires TaskStep(x, step).Some? && !step.RetireCall? && !step.ReloadCall? && !step.Abort?
    requires SlotCloseOk(x, sweep, forcing)
    ensures SlotCloseOk(TaskStep(x, step).value, sweep, forcing)
  {}

  lemma SlotStepCloseOk(x: Slot, step: Step, sweep: Call, forcing: bool)
    requires SlotStep(x, step).Some? && SlotCloseOk(x, sweep, forcing)
    ensures SlotCloseOk(SlotStep(x, step).value, sweep, forcing)
  {
    var k := CallsOf(x, sweep);
    if IsJobStep(step) {
      JobStepElsewhere(x, step);
      SameCloseOk(x, JobStep(x, step).value, sweep, forcing);
    } else if step.RetireCall? {
      RetirementStepOk(x.res, k, Stranded(x), forcing, JobsSeen(x.jobs), step.act);
    } else if step.ReloadCall? {
      ReloadStepOk(x.res, k, Stranded(x), forcing, JobsSeen(x.jobs), step.act);
    } else if step.Abort? {
      AbortCloseOk(x, step.slot, sweep, forcing);
    } else {
      OtherTaskStepCloseOk(x, step, sweep, forcing);
    }
  }

  lemma OtherStepSameClose(s: State, step: Step, i: nat)
    requires WellFormed(s.m, |s.slots|) && i < |s.slots| && !IsSlotStep(step)
    ensures |s.slots| <= |Next(s, step).slots| && SameClose(s.slots[i], Next(s, step).slots[i])
    ensures forall j :: |s.slots| <= j < |Next(s, step).slots| ==> SlotCloseOk(Next(s, step).slots[j], Outside, false)
  {
    if !IsManagerStep(step) && s.m.swap.Some? {
      var w := s.m.swap.value;
      SwapStepRewrites(s.m, w, s.slots[w.previous], s.slots[w.next], step);
    }
  }

  /** Every step keeps the close of every slot in order. */
  lemma StepKeepsClose(s: State, step: Step, i: nat, sweep: Call, forcing: bool)
    requires WellFormed(s.m, |s.slots|) && i < |s.slots| && SlotCloseOk(s.slots[i], sweep, forcing)
    ensures i < |Next(s, step).slots| && SlotCloseOk(Next(s, step).slots[i], sweep, forcing)
  {
    if IsSlotStep(step) {
      NextAt(s, step, i);
      if step.slot == i && SlotStep(s.slots[i], step).Some? { SlotStepCloseOk(s.slots[i], step, sweep, forcing); }
    } else {
      OtherStepSameClose(s, step, i);
      SameCloseOk(s.slots[i], Next(s, step).slots[i], sweep, forcing);
    }
  }

  /** A recorded report stays. */
  lemma StepKeepsReport(s: State, step: Step, i: nat, sweep: Call, forcing: bool)
    requires WellFormed(s.m, |s.slots|) && i < |s.slots| && SlotCloseOk(s.slots[i], sweep, forcing)
    ensures i < |Next(s, step).slots| && (s.slots[i].res.report.Some? ==> Next(s, step).slots[i].res.report == s.slots[i].res.report)
  {
    if IsSlotStep(step) {
      NextAt(s, step, i);
      if step.slot == i && SlotStep(s.slots[i], step).Some? && IsJobStep(step) { JobStepElsewhere(s.slots[i], step); }
    } else {
      OtherStepSameClose(s, step, i);
    }
  }

  // ----- every step moves on -----

  function Rank(state: SlotState): nat {
    match state
    case Active => 0
    case Retiring => 0
    case DrainingFinalization => 1
    case Closing => 2
    case Closed => 3
    case FailedClose => 3
  }

  /** After shutdown no lease is granted any more. */
  predicate GrantsNone(s: State, t: State, i: nat)
    requires i < |s.slots|
  {
    i < |t.slots| && (s.m.shutdown ==> t.m.shutdown && t.slots[i].leased <= s.slots[i].leased)
  }

  /** `t` has moved on from `s` in its slot `i`. */
  predicate MovedOn(s: State, t: State, i: nat)
    requires i < |s.slots|
  {
    && i < |t.slots| && Rank(s.slots[i].state) <= Rank(t.slots[i].state)
    && (s.slots[i].state == Closed ==> t.slots[i].state == Closed)
  }

  /** What a step of a slot's own does not undo. */
  predicate SlotMovedOn(x: Slot, y: Slot, inOrder: bool) {
    y.leased <= x.leased && (inOrder ==> Rank(x.state) <= Rank(y.state) && (x.state == Closed ==> y.state == Closed))
  }

  lemma JobStepMovesOn(x: Slot, step: Step)
    requires JobStep(x, step).Some?
    ensures var y := JobStep(x, step).value; y.leased <= x.leased && y.state == x.state
  {}

  lemma TaskStepMovesOn(x: Slot, step: Step)
    requires TaskStep(x, step).Some?
    ensures SlotMovedOn(x, TaskStep(x, step).value, TaskOk(x))
  {}

  lemma SlotStepMovesOn(m: Manager, i: nat, x: Slot, step: Step)
    requires SlotStep(x, step).Some?
    ensures SlotMovedOn(x, SlotStep(x, step).value, SlotOk(m, i, x))
  {
    if IsJobStep(step) {
      JobStepMovesOn(x, step);
    } else {
      TaskStepMovesOn(x, step);
    }
  }

  lemma SwapStepMovesOn(m: Manager, w: Swap, prior: Slot, after: Slot, step: Step)
    requires m.swap == Some(w)
    ensures match SwapStep(m, w, prior, after, step)
            case None => true
            case Some((x, y, k)) =>
              && x.leased == prior.leased && y.leased == after.leased && k.shutdown == m.shutdown
              && (SlotOk(m, w.previous, prior) ==> Rank(prior.state) == Rank(x.state) == 0)
              && (SlotOk(m, w.next, after) ==> Rank(after.state) == Rank(y.state) == 0)
  {}

  lemma ManagerStepMovesOn(s: State, step: Step, i: nat)
    requires s.m.active < |s.slots| && i < |s.slots|
    ensures MovedOn(s, ManagerStep(s, step), i) && GrantsNone(s, ManagerStep(s, step), i)
  {}

  lemma OtherStepMovesOn(s: State, shut: set<nat>, step: Step, i: nat)
    requires Inv(s, shut) && i < |s.slots| && !IsSlotStep(step) && !IsManagerStep(step)
    ensures GrantsNone(s, Next(s, step), i) && (i in shut || MovedOn(s, Next(s, step), i))
  {
    if s.m.swap.Some? {
      var w := s.m.swap.value;
      SwapStepMovesOn(s.m, w, s.slots[w.previous], s.slots[w.next], step);
    }
  }

  lemma OwnStepMovesOn(s: State, shut: set<nat>, step: Step, i: nat)
    requires Inv(s, shut) && i < |s.slots| && IsSlotStep(step)
    ensures GrantsNone(s, Next(s, step), i) && (i in shut || MovedOn(s, Next(s, step), i))
  {
    NextAt(s, step, i);
    if step.slot == i && SlotStep(s.slots[i], step).Some? { SlotStepMovesOn(s.m, i, s.slots[i], step); }
  }

  lemma StepIsMonotone(s: State, shut: set<nat>, step: Step, i: nat)
    requires Inv(s, shut) && i < |s.slots|
    ensures GrantsNone(s, Next(s, step), i) && (i in shut || MovedOn(s, Next(s, step), i))
  {
    if IsSlotStep(step) {
      OwnStepMovesOn(s, shut, step, i);
    } else if IsManagerStep(step) {
      ManagerStepMovesOn(s, step, i);
    } else {
      OtherStepMovesOn(s, shut, step, i);
    }
  }

  // ----- retirement makes progress -----

  /** A step of a slot's own. */
  lemma OwnStep(s: State, shut: set<nat>, step: Step, i: nat, x: Slot) returns (t: State)
    requires Inv(s, shut) && IsSlotStep(step) && step.slot == i && i < |s.slots| && SlotStep(s.slots[i], step) == Some(x)
    requires !step.ReloadCall? && !step.Abort?
    ensures t == Next(s, step) && Inv(t, shut) && i < |t.slots| && t.slots[i] == x
  {
    t := Next(s, step);
    SlotStepKeepsInv(s, shut, step);
  }

  /** Without leases a retirement begins the drain. */
  lemma DrainBegins(s: State, shut: set<nat>, i: nat) returns (t: State, u: State)
    requires Inv(s, shut) && i < |s.slots| && s.slots[i].task == WaitLeases && s.slots[i].leased == 0
    ensures t == Next(s, SeeNoLeases(i)) && Inv(t, shut) && u == Next(t, BeginDrain(i)) && Inv(u, shut)
    ensures i < |u.slots| && u.slots[i] == s.slots[i].(task := WaitReferences, state := DrainingFinalization)
  {
    var x := s.slots[i];
    assert AlwaysOk(x);
    t := OwnStep(s, shut, SeeNoLeases(i), i, x.(task := SawNoLeases));
    u := OwnStep(t, shut, BeginDrain(i), i, x.(task := WaitReferences, state := DrainingFinalization));
  }

  /** A retirement without references goes on to its close. */
  lemma CloseBegins(s: State, shut: set<nat>, i: nat) returns (t: State, u: State)
    requires Inv(s, shut) && i < |s.slots| && s.slots[i].task == WaitReferences && s.slots[i].references == 0
    ensures t == Next(s, SeeNoReferences(i)) && Inv(t, shut) && u == Next(t, BeginClose(i)) && Inv(u, shut)
    ensures i < |u.slots| && u.slots[i] == s.slots[i].(task := CloseRunning(Outside), state := Closing)
  {
    var x := s.slots[i];
    t := OwnStep(s, shut, SeeNoReferences(i), i, x.(task := SawNoReferences));
    u := OwnStep(t, shut, BeginClose(i), i, x.(task := CloseRunning(Outside), state := Closing));
  }

  /** The slot in the close of its retirement. */
  function InClose(x: Slot, r: Resources, c: Call): Slot { x.(res := r, task := CloseRunning(c)) }

  lemma DrainSteps(x: Slot, i: nat)
    requires x.task == CloseRunning(Outside) && !x.res.closed && JobsSeen(x.jobs) == Some(0)
    ensures var q := x.res.(closed := true, drains := x.res.drains + 1, owner := Retirement);
            && SlotStep(x, RetireCall(i, Enter)) == Some(InClose(x, q, Draining))
            && SlotStep(InClose(x, q, Draining), RetireCall(i, SeeNoJobs)) == Some(InClose(x, q, Drained))
  {}

  lemma ShutSteps(x: Slot, i: nat, q: Resources)
    ensures var p := q.(shuts := q.shuts + 1);
            var done := p.(report := Some(Report(false, true)));
            && SlotStep(InClose(x, q, Drained), RetireCall(i, ShutPool)) == Some(InClose(x, p, PoolShut))
            && SlotStep(InClose(x, p, PoolShut), RetireCall(i, Record)) == Some(InClose(x, done, Returned(Report(false, true))))
            && SlotStep(InClose(x, done, Returned(Report(false, true))), EndClose(i)) ==
               Some(x.(res := done, task := Finished, state := Closed))
  {}

  /** If it is the first to close and finds no jobs, it closes the provider clients, records it and closes the slot. */
  lemma CloseFollows(s: State, shut: set<nat>, i: nat) returns (t: State, u: State, v: State, w: State, z: State)
    requires Inv(s, shut) && i < |s.slots| && s.slots[i].task == CloseRunning(Outside) && !s.slots[i].res.closed
    requires JobsSeen(s.slots[i].jobs) == Some(0)
    ensures t == Next(s, RetireCall(i, Enter)) && Inv(t, shut) && u == Next(t, RetireCall(i, SeeNoJobs)) && Inv(u, shut)
    ensures v == Next(u, RetireCall(i, ShutPool)) && Inv(v, shut) && w == Next(v, RetireCall(i, Record)) && Inv(w, shut)
    ensures z == Next(w, EndClose(i)) && Inv(z, shut)
    ensures i < |z.slots| && z.slots[i].state == Closed && ClosedWell(z.slots[i].res)
  {
    var x := s.slots[i];
    var q := x.res.(closed := true, drains := x.res.drains + 1, owner := Retirement);
    var p := q.(shuts := q.shuts + 1);
    var done := p.(report := Some(Report(false, true)));
    DrainSteps(x, i);
    ShutSteps(x, i, q);
    t := OwnStep(s, shut, RetireCall(i, Enter), i, InClose(x, q, Draining));
    u := OwnStep(t, shut, RetireCall(i, SeeNoJobs), i, InClose(x, q, Drained));
    v := OwnStep(u, shut, RetireCall(i, ShutPool), i, InClose(x, p, PoolShut));
    w := OwnStep(v, shut, RetireCall(i, Record), i, InClose(x, done, Returned(Report(false, true))));
    z := OwnStep(w, shut, EndClose(i), i, x.(res := done, task := Finished, state := Closed));
  }
}
