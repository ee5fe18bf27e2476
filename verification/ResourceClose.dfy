/**
 Closing the resources of a generation (rust/src/runtime_lifecycle/generation.rs): whoever sets the flag drains the
 finalization jobs, closes the provider clients and records a report; everyone else waits for the report.
 */
module ResourceClose {
  import opened Text

  /** Whether the close failed, and whether it closed the provider clients. */
  datatype Report = Report(failed: bool, shut: bool)

  /** Who closes a generation: its retirement, the reload that discarded it, or the shutdown. */
  datatype Caller = Nobody | Retirement | Reload | Sweep

  /** `drains` counts the drains begun, `shuts` the closes of the provider clients; `owner` is who set the flag. */
  datatype Resources = Resources(closed: bool, report: Option<Report>, drains: nat, shuts: nat, owner: Caller)

  const UNTOUCHED := Resources(false, None, 0, 0, Nobody)

  /** How far a call of `close` has come; it sleeps between two looks at the jobs, and while it awaits a report. */
  datatype Call = Outside | Draining | Sleeping | Drained | Undrained | PoolShut | Awaiting | Returned(report: Report)

  datatype Act = Enter | SeeJobs | SeeNoJobs | GiveUp | ShutPool | Record | ReadRecord

  /** One step of a call; `jobs` is what a look at the jobs finds, if their lock is free. */
  function CallStep(r: Resources, who: Caller, jobs: Option<nat>, c: Call, act: Act): Option<(Resources, Call)> {
    match act
    case Enter =>
      if !c.Outside? then None
      else if r.closed then Some((r, Awaiting))
      else Some((r.(closed := true, drains := r.drains + 1, owner := who), Draining))
    case SeeJobs => if (c.Draining? || c.Sleeping?) && jobs.Some? && jobs.value > 0 then Some((r, Sleeping)) else None
    case SeeNoJobs => if (c.Draining? || c.Sleeping?) && jobs == Some(0) then Some((r, Drained)) else None
    case GiveUp => if c.Draining? || c.Sleeping? then Some((r, Undrained)) else None
    case ShutPool => if c.Drained? then Some((r.(shuts := r.shuts + 1), PoolShut)) else None
    case Record =>
      if c.PoolShut? then Some((r.(report := Some(Report(false, true))), Returned(Report(false, true))))
      else if c.Undrained? then Some((r.(report := Some(Report(true, false))), Returned(Report(true, false))))
      else None
    case ReadRecord => if c.Awaiting? && r.report.Some? then Some((r, Returned(r.report.value))) else None
  }

  /** The call that set the flag and has not recorded its report. */
  predicate Owns(c: Call) { c.Draining? || c.Sleeping? || c.Drained? || c.Undrained? || c.PoolShut? }

  /** The resources are closed without failure. */
  predicate ClosedWell(r: Resources) { r.report == Some(Report(false, true)) }

  /** The provider clients are closed and this is recorded. */
  predicate PoolIsShut(r: Resources) { r.report.Some? && r.report.value.shut }

  // ----- one flag, one report -----

  /** What the resources say of a call of `who`. */
  predicate CallOk(r: Resources, who: Caller, c: Call) {
    && (!c.Outside? ==> r.closed)
    && (Owns(c) ==> r.owner == who && r.report.None? && r.shuts == if c.PoolShut? then 1 else 0)
    && (c.Returned? ==> r.report.Some? && r.report.value.failed == c.report.failed)
  }

  /** The resources by themselves; without an owner at work or a report, the owner is stranded. */
  predicate ResourcesOk(r: Resources, working: bool, stranded: bool, forcing: bool) {
    && (r.closed <==> r.drains == 1) && r.drains <= 1 && (r.closed <==> r.owner != Nobody)
    && (!r.closed ==> r.report.None? && r.shuts == 0 && !stranded)
    && (r.closed ==> (working || stranded <==> r.report.None?) && !(working && stranded))
    && (r.report.Some? ==> (r.report.value.failed || r.report.value.shut) && r.shuts == if r.report.value.shut || forcing then 1 else 0)
    && (stranded ==> r.shuts == 0) && (forcing ==> r.report == Some(Report(true, false)))
  }

  /** The calls on one generation. */
  datatype Calls = Calls(retirement: Call, reload: Call, sweep: Call)

  predicate Working(k: Calls) { Owns(k.retirement) || Owns(k.reload) || Owns(k.sweep) }

  /**
   How resources and calls go together; `stranded` if the call that set the flag was aborted asleep, `forcing` if the
   shutdown has closed the provider clients by force and not recorded it yet.
   */
  predicate CloseOk(r: Resources, k: Calls, stranded: bool, forcing: bool) {
    && ResourcesOk(r, Working(k), stranded, forcing)
    && CallOk(r, Retirement, k.retirement) && CallOk(r, Reload, k.reload) && CallOk(r, Sweep, k.sweep)
    && (k.sweep.Returned? ==> r.report == Some(k.sweep.report))
  }

  /** A step of one call beside the others, of whom `others` is whether one owns the close. */
  lemma OneStepOk(r: Resources, who: Caller, c: Call, others: bool, stranded: bool, forcing: bool, jobs: Option<nat>, act: Act)
    requires who != Nobody && ResourcesOk(r, Owns(c) || others, stranded, forcing) && CallOk(r, who, c)
    requires !(Owns(c) && others) && CallStep(r, who, jobs, c, act).Some?
    ensures var (q, d) := CallStep(r, who, jobs, c, act).value;
            && ResourcesOk(q, Owns(d) || others, stranded, forcing) && CallOk(q, who, d)
            && (d.Returned? ==> q.report == Some(d.report) || (c.Returned? && c == d))
  {}

  /** And the other calls. */
  lemma OtherCallOk(r: Resources, who: Caller, c: Call, jobs: Option<nat>, act: Act, other: Caller, d: Call)
    requires who != other && CallOk(r, who, c) && CallOk(r, other, d) && CallStep(r, who, jobs, c, act).Some?
    ensures CallOk(CallStep(r, who, jobs, c, act).value.0, other, d)
    ensures d.Returned? ==> CallStep(r, who, jobs, c, act).value.0.report == r.report
  {}

  lemma RetirementStepOk(r: Resources, k: Calls, stranded: bool, forcing: bool, jobs: Option<nat>, act: Act)
    requires CloseOk(r, k, stranded, forcing) && CallStep(r, Retirement, jobs, k.retirement, act).Some?
    ensures var (q, c) := CallStep(r, Retirement, jobs, k.retirement, act).value;
            CloseOk(q, k.(retirement := c), stranded, forcing)
  {
    OneStepOk(r, Retirement, k.retirement, Owns(k.reload) || Owns(k.sweep), stranded, forcing, jobs, act);
    OtherCallOk(r, Retirement, k.retirement, jobs, act, Reload, k.reload);
    OtherCallOk(r, Retirement, k.retirement, jobs, act, Sweep, k.sweep);
  }

  lemma ReloadStepOk(r: Resources, k: Calls, stranded: bool, forcing: bool, jobs: Option<nat>, act: Act)
    requires CloseOk(r, k, stranded, forcing) && CallStep(r, Reload, jobs, k.reload, act).Some?
    ensures var (q, c) := CallStep(r, Reload, jobs, k.reload, act).value;
            CloseOk(q, k.(reload := c), stranded, forcing)
  {
    OneStepOk(r, Reload, k.reload, Owns(k.retirement) || Owns(k.sweep), stranded, forcing, jobs, act);
    OtherCallOk(r, Reload, k.reload, jobs, act, Retirement, k.retirement);
    OtherCallOk(r, Reload, k.reload, jobs, act, Sweep, k.sweep);
  }

  lemma SweepStepOk(r: Resources, k: Calls, stranded: bool, jobs: Option<nat>, act: Act)
    requires CloseOk(r, k, stranded, false) && CallStep(r, Sweep, jobs, k.sweep, act).Some?
    ensures var (q, c) := CallStep(r, Sweep, jobs, k.sweep, act).value;
            CloseOk(q, k.(sweep := c), stranded, false)
  {
    OneStepOk(r, Sweep, k.sweep, Owns(k.retirement) || Owns(k.reload), stranded, false, jobs, act);
    OtherCallOk(r, Sweep, k.sweep, jobs, act, Retirement, k.retirement);
    OtherCallOk(r, Sweep, k.sweep, jobs, act, Reload, k.reload);
  }

  /** However the calls interleave, the jobs are drained at most once and the provider clients closed at most once. */
  lemma ClosedOnce(r: Resources, k: Calls, stranded: bool, forcing: bool)
    requires CloseOk(r, k, stranded, forcing)
    ensures r.drains <= 1 && r.shuts <= 1 && (PoolIsShut(r) ==> r.shuts == 1)
    ensures stranded <==> r.closed && r.report.None? && !Working(k)
  {}
}
