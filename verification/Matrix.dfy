/**
 The resumable qualification matrix of scripts/qualification_ordinary_server.py: one manifest and one
 artifact per cell on disk, re-run any number of times against children that may fail, and interrupted anywhere.
 */
module Matrix {
  import opened Text

  // ----- the cells -----

  datatype Condition = Condition(principals: nat, concurrency: nat)

  const PRINCIPAL_CELLS: seq<nat> := [1, 5, 10, 25, 49]
  const CONCURRENCY_CELLS: seq<nat> := [1, 2, 4, 8, 16]
  const REPETITIONS := 3

  /** The order of Python tuples. */
  predicate Before(a: Condition, b: Condition) {
    a.principals < b.principals || (a.principals == b.principals && a.concurrency < b.concurrency)
  }

  ghost predicate StrictlySorted(s: seq<Condition>) {
    forall i, j :: 0 <= i < j < |s| ==> Before(s[i], s[j])
  }

  const CONDITIONS: seq<Condition> :=
    [Condition(1, 1), Condition(5, 1), Condition(5, 2), Condition(5, 4), Condition(5, 8), Condition(5, 16),
     Condition(10, 1), Condition(25, 1), Condition(49, 1)]

  const CELLS: nat := |CONDITIONS| * REPETITIONS

  /** `_conditions`: principals vary at concurrency one, concurrency varies at five principals. */
  method ListConditions() returns (r: seq<Condition>)
    ensures r == CONDITIONS
  {
    var pairs: set<Condition> := {};
    for i := 0 to |PRINCIPAL_CELLS|
      invariant pairs == set k | 0 <= k < i :: Condition(PRINCIPAL_CELLS[k], 1)
    {
      pairs := pairs + {Condition(PRINCIPAL_CELLS[i], 1)};
    }
    ghost var byPrincipals := pairs;
    for i := 0 to |CONCURRENCY_CELLS|
      invariant pairs == byPrincipals + set k | 0 <= k < i :: Condition(5, CONCURRENCY_CELLS[k])
    {
      pairs := pairs + {Condition(5, CONCURRENCY_CELLS[i])};
    }
    ConditionsComplete(pairs);
    r := SortConditions(pairs);
    SortedUnique(r, CONDITIONS);
  }

  lemma ConditionsComplete(pairs: set<Condition>)
    requires pairs == (set k | 0 <= k < |PRINCIPAL_CELLS| :: Condition(PRINCIPAL_CELLS[k], 1)) +
                      (set k | 0 <= k < |CONCURRENCY_CELLS| :: Condition(5, CONCURRENCY_CELLS[k]))
    ensures forall c :: c in pairs <==> c in CONDITIONS
    ensures StrictlySorted(CONDITIONS)
  {
    forall c | c in CONDITIONS ensures c in pairs {
      if c.concurrency == 1 {
        assert exists k :: 0 <= k < |PRINCIPAL_CELLS| && PRINCIPAL_CELLS[k] == c.principals by {
          assert PRINCIPAL_CELLS[0] == 1 && PRINCIPAL_CELLS[1] == 5 && PRINCIPAL_CELLS[2] == 10 && PRINCIPAL_CELLS[3] == 25;
          assert PRINCIPAL_CELLS[4] == 49;
        }
      } else {
        assert exists k :: 0 <= k < |CONCURRENCY_CELLS| && CONCURRENCY_CELLS[k] == c.concurrency by {
          assert CONCURRENCY_CELLS[1] == 2 && CONCURRENCY_CELLS[2] == 4 && CONCURRENCY_CELLS[3] == 8 && CONCURRENCY_CELLS[4] == 16;
        }
      }
    }
  }

  /** `sorted` on a set of pairs: repeatedly take the least. */
  method SortConditions(pairs: set<Condition>) returns (r: seq<Condition>)
    ensures StrictlySorted(r) && forall c :: c in r <==> c in pairs
  {
    r := [];
    var rest := pairs;
    while rest != {}
      invariant rest <= pairs && StrictlySorted(r)
      invariant forall c :: c in pairs <==> c in r || c in rest
      invariant forall c, d :: c in r && d in rest ==> Before(c, d)
      decreases |rest|
    {
      LeastExists(rest);
      var least :| least in rest && IsLeast(least, rest);
      r := r + [least];
      rest := rest - {least};
    }
  }

  predicate IsLeast(c: Condition, s: set<Condition>) {
    c in s && forall d :: d in s ==> d == c || Before(c, d)
  }

  lemma {:induction false} LeastExists(s: set<Condition>)
    requires s != {}
    ensures exists c :: IsLeast(c, s)
    decreases |s|
  {
    var x :| x in s;
    if s == {x} {
      assert IsLeast(x, s);
    } else {
      LeastExists(s - {x});
      var y :| IsLeast(y, s - {x});
      var least := if Before(x, y) then x else y;
      forall d | d in s ensures d == least || Before(least, d) { assert d == x || d in s - {x}; }
      assert IsLeast(least, s);
    }
  }

  lemma {:induction false} SortedUnique(a: seq<Condition>, b: seq<Condition>)
    requires StrictlySorted(a) && StrictlySorted(b) && forall c :: c in a <==> c in b
    ensures a == b
  {
    assert b != [] ==> b[0] in b;
    if a != [] {
      assert a[0] in b && b != [];
      assert b[0] in a;
      assert a[0] == b[0];
      forall c ensures c in a[1..] <==> c in b[1..] {
        assert c in a <==> c == a[0] || c in a[1..];
        assert c in b <==> c == b[0] || c in b[1..];
      }
      SortedUnique(a[1..], b[1..]);
    }
  }

  function ConditionOf(cell: nat): Condition
    requires cell < CELLS
  {
    CONDITIONS[cell / REPETITIONS]
  }

  function RunName(run: nat): string {
    "run-" + (Decimal(run) + ['.'] + "json")
  }

  function ConcurrencyName(concurrency: nat, run: nat): string {
    "c" + (Decimal(concurrency) + ['-'] + RunName(run))
  }

  /** `u<principals>-c<concurrency>-run-<run>.json`. */
  function ArtifactName(c: Condition, run: nat): string {
    "u" + (Decimal(c.principals) + ['-'] + ConcurrencyName(c.concurrency, run))
  }

  function CellName(cell: nat): string
    requires cell < CELLS
  {
    ArtifactName(ConditionOf(cell), cell % REPETITIONS + 1)
  }

  /** A numeral followed by a separator can be read back. */
  lemma {:induction false} NumeralSplits(a: nat, b: nat, sep: char, x: string, y: string)
    requires !IsDigit(sep) && Decimal(a) + [sep] + x == Decimal(b) + [sep] + y
    ensures a == b && x == y
  {
    assert sep !in Decimal(a) && sep !in Decimal(b);
    SplitAtUnique(Decimal(a), Decimal(b), x, y, sep);
    DecimalInjective(a, b);
  }

  lemma RunNameInjective(run: nat, other: nat)
    requires RunName(run) == RunName(other)
    ensures run == other
  {
    PrefixCancels("run-", Decimal(run) + ['.'] + "json", Decimal(other) + ['.'] + "json");
    NumeralSplits(run, other, '.', "json", "json");
  }

  /** Every run of every condition has its own artifact name. */
  lemma ArtifactNameInjective(c: Condition, run: nat, d: Condition, other: nat)
    requires ArtifactName(c, run) == ArtifactName(d, other)
    ensures c == d && run == other
  {
    var x, y := ConcurrencyName(c.concurrency, run), ConcurrencyName(d.concurrency, other);
    PrefixCancels("u", Decimal(c.principals) + ['-'] + x, Decimal(d.principals) + ['-'] + y);
    NumeralSplits(c.principals, d.principals, '-', x, y);
    PrefixCancels("c", Decimal(c.concurrency) + ['-'] + RunName(run), Decimal(d.concurrency) + ['-'] + RunName(other));
    NumeralSplits(c.concurrency, d.concurrency, '-', RunName(run), RunName(other));
    RunNameInjective(run, other);
  }

  lemma ConditionsDistinct(i: nat, j: nat)
    requires i < |CONDITIONS| && j < |CONDITIONS| && CONDITIONS[i] == CONDITIONS[j]
    ensures i == j
  {}

  lemma CellNameInjective(i: nat, j: nat)
    requires i < CELLS && j < CELLS && CellName(i) == CellName(j)
    ensures i == j
  {
    ArtifactNameInjective(ConditionOf(i), i % REPETITIONS + 1, ConditionOf(j), j % REPETITIONS + 1);
    ConditionsDistinct(i / REPETITIONS, j / REPETITIONS);
  }

  // ----- what is on disk -----

  const SCHEMA_VERSION := "on-prem-ordinary-server-matrix.v1"
  const RUN_SCHEMA := "runtime-q008.v2"
  const BLOCKED_CODE := 77

  /** A cell artifact as far as reuse looks at it; anything that does not parse is garbled. */
  datatype Artifact =
    | Garbled
    | Document(status: string, schema: string, sha256: string, commit: string, principals: int, concurrency: int)

  datatype Status = Ready | Blocked | Incomplete | Complete

  datatype Stop = Stop(artifact: string, runNumber: Option<nat>, returncode: int)

  datatype ConditionEntry = ConditionEntry(condition: Condition, names: seq<string>)

  function EntryOf(c: Condition): ConditionEntry {
    ConditionEntry(c, [ArtifactName(c, 1), ArtifactName(c, 2), ArtifactName(c, 3)])
  }

  function Entries(): (r: seq<ConditionEntry>)
    ensures |r| == |CONDITIONS|
    ensures forall i :: 0 <= i < |r| ==> r[i] == EntryOf(CONDITIONS[i])
  {
    seq(|CONDITIONS|, i requires 0 <= i < |CONDITIONS| => EntryOf(CONDITIONS[i]))
  }

  datatype Manifest = Manifest(
    schemaVersion: string, status: Status, sha256: string, commit: Option<string>, target: string, workload: string,
    entries: seq<ConditionEntry>, toolingCommit: string, hasLifecycle: bool, stoppedAt: Option<Stop>)

  /** `manifest` is None when the file is absent or does not parse. */
  datatype Disk = Disk(manifest: Option<Manifest>, artifacts: map<string, Artifact>)

  /** What a call of `run` observes about its host and repository. */
  datatype World = World(sha256: string, commit: string, target: string, workload: string, ioSafe: bool)

  function Fresh(w: World): Manifest {
    Manifest(SCHEMA_VERSION, if w.ioSafe then Ready else Blocked, w.sha256, Some(w.commit), w.target, w.workload,
             Entries(), w.commit, false, None)
  }

  predicate Resumable(previous: Manifest, w: World) {
    && previous.schemaVersion == SCHEMA_VERSION
    && (previous.status == Incomplete || previous.status == Complete)
    && previous.sha256 == w.sha256
    && previous.target == w.target
    && previous.workload == w.workload
    && previous.entries == Entries()
    && previous.commit.Some?
  }

  /** The manifest a call works with: the previous one if it can be resumed, else a fresh one. */
  function Opened(disk: Disk, w: World): Manifest {
    if disk.manifest.Some? && Resumable(disk.manifest.value, w) then
      disk.manifest.value.(toolingCommit := w.commit, status := Fresh(w).status, stoppedAt := None)
    else
      Fresh(w)
  }

  /** A passing run of this binary for this condition, whichever commit it reports. */
  predicate PassedFor(a: Artifact, sha256: string, c: Condition) {
    && a.Document? && a.status == "pass" && a.schema == RUN_SCHEMA && a.sha256 == sha256
    && a.principals == c.principals && a.concurrency == c.concurrency
  }

  predicate Reusable(a: Artifact, m: Manifest, c: Condition) {
    PassedFor(a, m.sha256, c) && m.commit == Some(a.commit)
  }

  predicate CellReusable(artifacts: map<string, Artifact>, m: Manifest, cell: nat)
    requires cell < CELLS
  {
    CellName(cell) in artifacts && Reusable(artifacts[CellName(cell)], m, ConditionOf(cell))
  }

  // ----- one step of a call -----

  type NonZero = i: int | i != 0 witness 1

  /** What a failed child did to its own output file. */
  datatype Leftover = Untouched | Deleted | Wrote(artifact: Artifact)

  datatype Outcome = Pass | Fail(returncode: NonZero, leftover: Leftover)

  datatype Seen = Reused | Produced

  datatype Phase = Idle | Running(world: World, manifest: Manifest, next: nat, seen: seq<Seen>)

  /** `produced` lists the cells of successful children, oldest first. */
  datatype State = State(disk: Disk, phase: Phase, produced: seq<nat>)

  datatype Event = Begin(world: World) | Child(outcome: Outcome) | Lifecycle(returncode: int) | Interrupt

  function PassDocument(w: World, c: Condition): Artifact {
    Document("pass", RUN_SCHEMA, w.sha256, w.commit, c.principals, c.concurrency)
  }

  function AfterFailure(artifacts: map<string, Artifact>, name: string, leftover: Leftover): map<string, Artifact> {
    match leftover
    case Untouched => artifacts
    case Deleted => artifacts - {name}
    case Wrote(a) => artifacts[name := a]
  }

  /** One event; an event that does not fit the phase changes nothing. */
  function Exec(s: State, e: Event): State {
    match e
    case Begin(w) =>
      var m := Opened(s.disk, w);
      State(s.disk.(manifest := Some(m)), if m.status == Blocked then Idle else Running(w, m, 0, []), s.produced)
    case Child(outcome) =>
      if s.phase.Running? && s.phase.next < CELLS then ExecChild(s, outcome) else s
    case Lifecycle(code) =>
      if s.phase.Running? && s.phase.next == CELLS then
        var m := s.phase.manifest;
        var done := if code != 0
                    then m.(status := Incomplete, stoppedAt := Some(Stop("lifecycle.json", None, code)))
                    else m.(status := Complete, hasLifecycle := true);
        State(s.disk.(manifest := Some(done)), Idle, s.produced)
      else s
    case Interrupt => s.(phase := Idle)
  }

  function ExecChild(s: State, outcome: Outcome): State
    requires s.phase.Running? && s.phase.next < CELLS
  {
    var Running(w, m, cell, seen) := s.phase;
    var name, c := CellName(cell), ConditionOf(cell);
    if CellReusable(s.disk.artifacts, m, cell) then
      s.(phase := Running(w, m, cell + 1, seen + [Reused]))
    else match outcome
      case Pass =>
        State(s.disk.(artifacts := s.disk.artifacts[name := PassDocument(w, c)]),
              Running(w, m, cell + 1, seen + [Produced]), s.produced + [cell])
      case Fail(code, leftover) =>
        var stopped := m.(status := Incomplete, stoppedAt := Some(Stop(name, Some(cell % REPETITIONS + 1), code)));
        State(Disk(Some(stopped), AfterFailure(s.disk.artifacts, name, leftover)), Idle, s.produced)
  }

  function ExecAll(s: State, events: seq<Event>): State {
    if events == [] then s else Exec(ExecAll(s, events[..|events| - 1]), events[|events| - 1])
  }

  // ----- the call itself -----

  class Runner {
    var manifest: Option<Manifest>
    var artifacts: map<string, Artifact>
    ghost var produced: seq<nat>

    ghost function Value(): State
      reads this
    {
      State(Disk(manifest, artifacts), Idle, produced)
    }

    /** The body of the inner loop: reuse the artifact, or start the child and take its outcome. */
    method RunCell(w: World, m: Manifest, ghost cell: nat, name: string, c: Condition, runNumber: nat, outcome: Outcome,
                   ghost seen: seq<Seen>) returns (code: int, ghost seen': seq<Seen>)
      requires cell < CELLS && name == CellName(cell) && c == ConditionOf(cell) && runNumber == cell % REPETITIONS + 1
      requires manifest == Some(m)
      modifies this
      ensures var before := State(Disk(old(manifest), old(artifacts)), Running(w, m, cell, seen), old(produced));
              ExecChild(before, outcome) ==
              State(Disk(manifest, artifacts), if code == 0 then Running(w, m, cell + 1, seen') else Idle, produced)
      ensures code == 0 ==> manifest == Some(m)
      ensures code != 0 ==> manifest == Some(m.(status := Incomplete, stoppedAt := Some(Stop(name, Some(runNumber), code))))
    {
      code, seen' := 0, seen;
      if name in artifacts && Reusable(artifacts[name], m, c) {
        seen' := seen + [Reused];
      } else if outcome.Pass? {
        artifacts := artifacts[name := PassDocument(w, c)];
        produced := produced + [cell];
        seen' := seen + [Produced];
      } else {
        code := outcome.returncode;
        artifacts := AfterFailure(artifacts, name, outcome.leftover);
        manifest := Some(m.(status := Incomplete, stoppedAt := Some(Stop(name, Some(runNumber), code))));
      }
    }

    /** The object is at cell `next` of a call that has gone through `events`. */
    ghost predicate At(start: State, events: seq<Event>, w: World, m: Manifest, next: nat, seen: seq<Seen>)
      reads this
    {
      && manifest == Some(m)
      && |events| == 1 + next
      && ExecAll(start, events) == State(Disk(manifest, artifacts), Running(w, m, next, seen), produced)
    }

    /** One iteration of the inner loop: run `r` of condition `c`. */
    method NextCell(w: World, m: Manifest, c: nat, r: nat, entry: ConditionEntry, outcome: Outcome,
                    ghost start: State, ghost events: seq<Event>, ghost seen: seq<Seen>)
      returns (code: int, ghost seen': seq<Seen>)
      requires c < |CONDITIONS| && r < REPETITIONS && entry == EntryOf(CONDITIONS[c])
      requires At(start, events, w, m, REPETITIONS * c + r, seen)
      modifies this
      ensures code == 0 ==> At(start, events + [Child(outcome)], w, m, REPETITIONS * c + r + 1, seen')
      ensures code != 0 ==> Value() == ExecAll(start, events + [Child(outcome)])
      ensures code != 0 ==> manifest.Some? && manifest.value.status == Incomplete
    {
      EntryIsCell(c, r);
      ExecPush(start, events, Child(outcome));
      code, seen' := RunCell(w, m, REPETITIONS * c + r, entry.names[r], entry.condition, r + 1, outcome, seen);
    }

    /** The inner loop: the three runs of one condition. */
    method RunCondition(w: World, m: Manifest, c: nat, entry: ConditionEntry, child: nat -> Outcome, lifecycle: int,
                        ghost start: State, ghost events: seq<Event>, ghost seen: seq<Seen>)
      returns (code: int, ghost events': seq<Event>, ghost seen': seq<Seen>)
      requires c < |CONDITIONS| && entry == EntryOf(CONDITIONS[c])
      requires At(start, events, w, m, REPETITIONS * c, seen) && IsCall(events, w, child, lifecycle)
      modifies this
      ensures IsCall(events', w, child, lifecycle)
      ensures code == 0 ==> At(start, events', w, m, REPETITIONS * c + REPETITIONS, seen')
      ensures code != 0 ==> Value() == ExecAll(start, events') && manifest.Some? && manifest.value.status == Incomplete
    {
      code, events', seen' := 0, events, seen;
      var r := 0;
      while r < REPETITIONS
        invariant 0 <= r <= REPETITIONS && code == 0
        invariant At(start, events', w, m, REPETITIONS * c + r, seen')
        invariant IsCall(events', w, child, lifecycle)
      {
        var outcome := child(REPETITIONS * c + r);
        code, seen' := NextCell(w, m, c, r, entry, outcome, start, events', seen');
        CallPush(events', w, child, lifecycle, REPETITIONS * c + r, outcome);
        events' := events' + [Child(outcome)];
        if code != 0 { return; }
        r := r + 1;
      }
    }

    /** `run`: `child(i)` is the outcome of the child of cell `i`, should it be started. */
    method Run(w: World, child: nat -> Outcome, lifecycle: int) returns (code: int, ghost events: seq<Event>)
      modifies this
      ensures Value() == ExecAll(old(Value()), events)
      ensures IsCall(events, w, child, lifecycle)
      ensures manifest.Some?
      ensures code == 0 <==> manifest.value.status == Complete
      ensures manifest.value.status == Blocked ==> code == BLOCKED_CODE
    {
      var m := Opened(Disk(manifest, artifacts), w);
      OpenedEntries(Disk(manifest, artifacts), w);
      manifest := Some(m);
      events := [Begin(w)];
      ExecOne(old(Value()), Begin(w));
      if m.status == Blocked { return BLOCKED_CODE, events; }
      ghost var start, seen := old(Value()), [];
      var c := 0;
      while c < |m.entries|
        invariant 0 <= c <= |CONDITIONS|
        invariant At(start, events, w, m, REPETITIONS * c, seen)
        invariant IsCall(events, w, child, lifecycle)
      {
        code, events, seen := RunCondition(w, m, c, m.entries[c], child, lifecycle, start, events, seen);
        if code != 0 { return; }
        c := c + 1;
      }
      ExecPush(start, events, Lifecycle(lifecycle));
      events := events + [Lifecycle(lifecycle)];
      if lifecycle != 0 {
        manifest := Some(m.(status := Incomplete, stoppedAt := Some(Stop("lifecycle.json", None, lifecycle))));
        return lifecycle, events;
      }
      manifest := Some(m.(status := Complete, hasLifecycle := true));
      code := 0;
    }
  }

  /** The events of one uninterrupted call. */
  ghost predicate IsCall(events: seq<Event>, w: World, child: nat -> Outcome, lifecycle: int) {
    && |events| > 0 && events[0] == Begin(w)
    && forall i :: 0 < i < |events| ==> events[i] == Child(child(i - 1)) || events[i] == Lifecycle(lifecycle)
  }

  lemma CallPush(events: seq<Event>, w: World, child: nat -> Outcome, lifecycle: int, cell: nat, outcome: Outcome)
    requires IsCall(events, w, child, lifecycle) && |events| == 1 + cell && outcome == child(cell)
    ensures IsCall(events + [Child(outcome)], w, child, lifecycle)
  {}

  lemma EntryIsCell(c: nat, r: nat)
    requires c < |CONDITIONS| && r < REPETITIONS
    ensures REPETITIONS * c + r < CELLS
    ensures |EntryOf(CONDITIONS[c]).names| == REPETITIONS
    ensures EntryOf(CONDITIONS[c]).names[r] == CellName(REPETITIONS * c + r)
    ensures EntryOf(CONDITIONS[c]).condition == ConditionOf(REPETITIONS * c + r)
    ensures (REPETITIONS * c + r) % REPETITIONS == r
  {
    assert (REPETITIONS * c + r) / REPETITIONS == c && (REPETITIONS * c + r) % REPETITIONS == r;
  }

  lemma {:induction false} ExecPush(s: State, events: seq<Event>, e: Event)
    ensures ExecAll(s, events + [e]) == Exec(ExecAll(s, events), e)
  {
    assert (events + [e])[..|events + [e]| - 1] == events;
  }

  lemma {:induction false} ExecOne(s: State, e: Event)
    ensures ExecAll(s, [e]) == Exec(s, e)
  {
    assert [e][..0] == [];
  }

  lemma OpenedEntries(disk: Disk, w: World)
    ensures Opened(disk, w).entries == Entries()
    ensures Opened(disk, w).status == if w.ioSafe then Ready else Blocked
    ensures Opened(disk, w).sha256 == w.sha256 && Opened(disk, w).commit.Some?
  {}

  // ----- every cell is produced at most once -----

  /** Only the I/O pressure may differ between the calls. */
  predicate SameIdentity(a: World, b: World) {
    a.sha256 == b.sha256 && a.commit == b.commit && a.target == b.target && a.workload == b.workload
  }

  ghost predicate FixedIdentity(events: seq<Event>, w: World) {
    forall e :: e in events && e.Begin? ==> SameIdentity(e.world, w)
  }

  ghost predicate NoDuplicates(s: seq<nat>) {
    forall i, j :: 0 <= i < j < |s| ==> s[i] != s[j]
  }

  ghost predicate AllReusable(artifacts: map<string, Artifact>, m: Manifest) {
    forall i :: 0 <= i < CELLS ==> CellReusable(artifacts, m, i)
  }

  /** The artifact of a cell is a passing run of this binary at this commit. */
  predicate Settled(artifacts: map<string, Artifact>, w: World, cell: nat)
    requires cell < CELLS
  {
    CellName(cell) in artifacts && PassedFor(artifacts[CellName(cell)], w.sha256, ConditionOf(cell)) &&
    artifacts[CellName(cell)].commit == w.commit
  }

  /** A manifest of another commit that a call would resume although some cell is missing under it. */
  ghost predicate Stale(disk: Disk, w: World) {
    && disk.manifest.Some? && Resumable(disk.manifest.value, w)
    && disk.manifest.value.commit != Some(w.commit)
    && !AllReusable(disk.artifacts, disk.manifest.value)
  }

  ghost predicate ProducedSettled(s: State, w: World) {
    && NoDuplicates(s.produced)
    && forall k :: 0 <= k < |s.produced| ==> s.produced[k] < CELLS && Settled(s.disk.artifacts, w, s.produced[k])
  }

  ghost predicate PhaseSound(s: State, w: World) {
    s.phase.Running? ==>
      && SameIdentity(s.phase.world, w) && s.phase.manifest.sha256 == w.sha256
      && s.disk.manifest == Some(s.phase.manifest) && s.phase.manifest.status == Ready
      && (s.phase.manifest.commit == Some(w.commit) || AllReusable(s.disk.artifacts, s.phase.manifest))
  }

  ghost predicate Inv(s: State, w: World) {
    ProducedSettled(s, w) && PhaseSound(s, w) && !Stale(s.disk, w)
  }

  /** Writing one cell leaves every other cell as it was. */
  lemma OtherCellsKept(artifacts: map<string, Artifact>, cell: nat, a: Artifact, leftover: Leftover, w: World, i: nat)
    requires cell < CELLS && i < CELLS && i != cell && Settled(artifacts, w, i)
    ensures Settled(artifacts[CellName(cell) := a], w, i)
    ensures Settled(AfterFailure(artifacts, CellName(cell), leftover), w, i)
  {
    if CellName(i) == CellName(cell) { CellNameInjective(i, cell); }
  }

  lemma BeginKeepsInv(s: State, w: World, v: World)
    requires Inv(s, w) && SameIdentity(v, w)
    ensures Inv(Exec(s, Begin(v)), w)
  {
    var m := Opened(s.disk, v);
    OpenedEntries(s.disk, v);
    if s.disk.manifest.Some? && Resumable(s.disk.manifest.value, v) && m.commit != Some(w.commit) {
      assert AllReusable(s.disk.artifacts, s.disk.manifest.value);
      forall i | 0 <= i < CELLS ensures CellReusable(s.disk.artifacts, m, i) {
        assert CellReusable(s.disk.artifacts, s.disk.manifest.value, i);
      }
    }
  }

  lemma ChildKeepsInv(s: State, w: World, outcome: Outcome)
    requires Inv(s, w) && s.phase.Running? && s.phase.next < CELLS
    ensures Inv(ExecChild(s, outcome), w)
  {
    var Running(v, m, cell, seen) := s.phase;
    var artifacts := s.disk.artifacts;
    if !CellReusable(artifacts, m, cell) {
      assert m.commit == Some(w.commit);
      assert !Settled(artifacts, w, cell);
      var after := ExecChild(s, outcome);
      forall k | 0 <= k < |s.produced| ensures s.produced[k] != cell && Settled(after.disk.artifacts, w, s.produced[k]) {
        OtherCellsKept(artifacts, cell, PassDocument(v, ConditionOf(cell)), if outcome.Fail? then outcome.leftover else Untouched,
                       w, s.produced[k]);
      }
    }
  }

  lemma ExecKeepsInv(s: State, w: World, e: Event)
    requires Inv(s, w) && (e.Begin? ==> SameIdentity(e.world, w))
    ensures Inv(Exec(s, e), w)
  {
    match e
    case Begin(v) => BeginKeepsInv(s, w, v);
    case Child(outcome) => if s.phase.Running? && s.phase.next < CELLS { ChildKeepsInv(s, w, outcome); }
    case Lifecycle(code) => LifecycleKeepsInv(s, w, code);
    case Interrupt =>
  }

  lemma LifecycleKeepsInv(s: State, w: World, code: int)
    requires Inv(s, w)
    ensures Inv(Exec(s, Lifecycle(code)), w)
  {
    if s.phase.Running? && s.phase.next == CELLS {
      var m := s.phase.manifest;
      var done := Exec(s, Lifecycle(code)).disk.manifest.value;
      if m.commit != Some(w.commit) {
        forall i | 0 <= i < CELLS ensures CellReusable(s.disk.artifacts, done, i) {
          assert CellReusable(s.disk.artifacts, m, i);
        }
      }
    }
  }

  lemma {:induction false} ExecAllKeepsInv(s: State, w: World, events: seq<Event>)
    requires Inv(s, w) && FixedIdentity(events, w)
    ensures Inv(ExecAll(s, events), w)
  {
    if events != [] {
      ExecAllKeepsInv(s, w, events[..|events| - 1]);
      ExecKeepsInv(ExecAll(s, events[..|events| - 1]), w, events[|events| - 1]);
    }
  }

  /**
   Over any sequence of calls of one binary at one commit, with any failures and interruptions, no cell is
   produced by two successful children, unless the calls start from a stale manifest.
   */
  lemma {:induction false} ProducedAtMostOnce(disk: Disk, w: World, events: seq<Event>)
    requires !Stale(disk, w) && FixedIdentity(events, w)
    ensures NoDuplicates(ExecAll(State(disk, Idle, []), events).produced)
  {
    ExecAllKeepsInv(State(disk, Idle, []), w, events);
  }

  // ----- a stale manifest makes it repeat -----

  /** A call in which every child that is started succeeds. */
  function PassingCall(w: World): seq<Event> {
    [Begin(w)] + seq(CELLS, _ => Child(Pass)) + [Lifecycle(0)]
  }

  /** The numbers below `n` without a property, in order. */
  function Lacking(has: nat -> bool, n: nat): seq<nat> {
    if n == 0 then [] else Lacking(has, n - 1) + (if has(n - 1) then [] else [n - 1])
  }

  /** The cells below `n` that are not reusable. */
  function Missing(artifacts: map<string, Artifact>, m: Manifest, n: nat): seq<nat> {
    Lacking((i: nat) => i < CELLS && CellReusable(artifacts, m, i), n)
  }

  /** The state of a passing call after its first `n` cells. */
  ghost predicate AfterPassing(before: State, s: State, w: World, m: Manifest, n: nat)
    requires n <= CELLS
  {
    && s.phase.Running? && s.phase.world == w && s.phase.manifest == m && s.phase.next == n
    && s.disk.manifest == before.disk.manifest
    && s.produced == before.produced + Missing(before.disk.artifacts, m, n)
    && (forall i :: 0 <= i < n && !CellReusable(before.disk.artifacts, m, i) ==>
          CellName(i) in s.disk.artifacts && s.disk.artifacts[CellName(i)] == PassDocument(w, ConditionOf(i)))
    && (forall i :: 0 <= i < CELLS && (n <= i || CellReusable(before.disk.artifacts, m, i)) ==>
          CellReusable(s.disk.artifacts, m, i) == CellReusable(before.disk.artifacts, m, i))
  }

  lemma PassOneCell(before: State, s: State, w: World, m: Manifest, n: nat)
    requires n < CELLS && AfterPassing(before, s, w, m, n)
    ensures AfterPassing(before, Exec(s, Child(Pass)), w, m, n + 1)
  {
    forall i: nat | i < CELLS && i != n ensures CellName(i) != CellName(n) {
      if CellName(i) == CellName(n) { CellNameInjective(i, n); }
    }
  }

  lemma {:induction false} PassCells(before: State, s: State, w: World, m: Manifest, n: nat, events: seq<Event>)
    requires n <= CELLS && |events| == n && forall i :: 0 <= i < n ==> events[i] == Child(Pass)
    requires AfterPassing(before, s, w, m, 0)
    ensures AfterPassing(before, ExecAll(s, events), w, m, n)
  {
    if n > 0 {
      PassCells(before, s, w, m, n - 1, events[..n - 1]);
      PassOneCell(before, ExecAll(s, events[..n - 1]), w, m, n - 1);
    }
  }

  lemma {:induction false} ExecConcat(s: State, a: seq<Event>, b: seq<Event>)
    ensures ExecAll(s, a + b) == ExecAll(ExecAll(s, a), b)
  {
    if b == [] {
      assert a + b == a;
    } else {
      assert (a + b)[..|a + b| - 1] == a + b[..|b| - 1];
      ExecConcat(s, a, b[..|b| - 1]);
    }
  }

  /** A passing call starts exactly the children of the missing cells and leaves the manifest complete. */
  lemma {:induction false} PassingCallProduces(s: State, w: World)
    requires w.ioSafe
    ensures var m, after := Opened(s.disk, w), ExecAll(s, PassingCall(w));
            && after.phase == Idle
            && after.produced == s.produced + Missing(s.disk.artifacts, m, CELLS)
            && after.disk.manifest == Some(m.(status := Complete, hasLifecycle := true))
            && (forall i :: 0 <= i < CELLS && !CellReusable(s.disk.artifacts, m, i) ==>
                  CellName(i) in after.disk.artifacts && after.disk.artifacts[CellName(i)] == PassDocument(w, ConditionOf(i)))
            && (forall i :: 0 <= i < CELLS && CellReusable(s.disk.artifacts, m, i) ==> CellReusable(after.disk.artifacts, m, i))
  {
    var m, cells := Opened(s.disk, w), seq(CELLS, _ => Child(Pass));
    OpenedEntries(s.disk, w);
    var opening := Exec(s, Begin(w));
    ExecOne(s, Begin(w));
    ExecConcat(s, [Begin(w)], cells);
    ExecPush(s, [Begin(w)] + cells, Lifecycle(0));
    PassCells(opening, opening, w, m, CELLS, cells);
  }

  lemma {:induction false} LackingMembers(has: nat -> bool, n: nat, k: nat)
    requires k < n && !has(k)
    ensures k in Lacking(has, n)
  {
    if k < n - 1 { LackingMembers(has, n - 1, k); }
  }

  lemma MissingMembers(artifacts: map<string, Artifact>, m: Manifest, n: nat, k: nat)
    requires n <= CELLS && k < n && !CellReusable(artifacts, m, k)
    ensures k in Missing(artifacts, m, n)
  {
    LackingMembers((i: nat) => i < CELLS && CellReusable(artifacts, m, i), n, k);
  }

  /**
   From a stale manifest the same call repeated produces a cell twice, and already the first one is recorded
   as complete over an artifact whose commit is not the manifest's.
   */
  lemma {:induction false} StaleManifestRepeats(disk: Disk, w: World)
    requires Stale(disk, w) && w.ioSafe
    ensures var once := ExecAll(State(disk, Idle, []), PassingCall(w));
            && once.disk.manifest.Some? && once.disk.manifest.value.status == Complete
            && (exists i :: 0 <= i < CELLS && CellName(i) in once.disk.artifacts &&
                  once.disk.artifacts[CellName(i)].Document? &&
                  once.disk.manifest.value.commit != Some(once.disk.artifacts[CellName(i)].commit))
    ensures !NoDuplicates(ExecAll(State(disk, Idle, []), PassingCall(w) + PassingCall(w)).produced)
  {
    var start := State(disk, Idle, []);
    var m := Opened(disk, w);
    var once := ExecAll(start, PassingCall(w));
    PassingCallProduces(start, w);
    var k :| 0 <= k < CELLS && !CellReusable(disk.artifacts, disk.manifest.value, k);
    assert !CellReusable(disk.artifacts, m, k);
    MissingMembers(disk.artifacts, m, CELLS, k);
    assert once.disk.artifacts[CellName(k)].commit == w.commit;
    var m2 := Opened(once.disk, w);
    assert m2.commit == m.commit && !CellReusable(once.disk.artifacts, m2, k);
    PassingCallProduces(once, w);
    MissingMembers(once.disk.artifacts, m2, CELLS, k);
    ExecConcat(start, PassingCall(w), PassingCall(w));
    TwiceIsDuplicate(Missing(disk.artifacts, m, CELLS), Missing(once.disk.artifacts, m2, CELLS), k);
  }

  lemma TwiceIsDuplicate(a: seq<nat>, b: seq<nat>, x: nat)
    requires x in a && x in b
    ensures !NoDuplicates([] + a + b)
  {
    var i :| 0 <= i < |a| && a[i] == x;
    var j :| 0 <= j < |b| && b[j] == x;
    var all := [] + a + b;
    assert all[i] == x && all[|a| + j] == x;
  }

  /** A stale manifest arises when the first child of a call fails and the repository then moves to another commit. */
  lemma {:induction false} StaleArises(a: World, b: World)
    requires a.ioSafe && a.commit != b.commit && SameIdentity(a, b.(commit := a.commit))
    ensures Stale(ExecAll(State(Disk(None, map[]), Idle, []), [Begin(a), Child(Fail(1, Untouched))]).disk, b)
  {
    var start := State(Disk(None, map[]), Idle, []);
    var opening := Exec(start, Begin(a));
    ExecOne(start, Begin(a));
    ExecPush(start, [Begin(a)], Child(Fail(1, Untouched)));
    assert [Begin(a)] + [Child(Fail(1, Untouched))] == [Begin(a), Child(Fail(1, Untouched))];
    assert opening.phase == Running(a, Fresh(a), 0, []);
    var disk := Exec(opening, Child(Fail(1, Untouched))).disk;
    assert !CellReusable(disk.artifacts, disk.manifest.value, 0);
  }

  /** The promise holds for every sequence of calls exactly when the first one does not start from a stale manifest. */
  lemma {:induction false} AtMostOnceExactly(disk: Disk, w: World)
    ensures (forall events :: FixedIdentity(events, w) ==> NoDuplicates(ExecAll(State(disk, Idle, []), events).produced))
            <==> !Stale(disk, w)
  {
    if Stale(disk, w) {
      var calm := w.(ioSafe := true);
      var m := disk.manifest.value;
      assert Resumable(m, calm) && Stale(disk, calm);
      StaleManifestRepeats(disk, calm);
      assert FixedIdentity(PassingCall(calm) + PassingCall(calm), w);
    } else {
      forall events | FixedIdentity(events, w) { ProducedAtMostOnce(disk, w, events); }
    }
  }

  // ----- complete over one commit -----

  /** Complete is recorded although some cell is not reusable under the manifest. */
  ghost predicate Mixed(s: State) {
    && s.disk.manifest.Some? && s.disk.manifest.value.status == Complete
    && !AllReusable(s.disk.artifacts, s.disk.manifest.value)
  }

  ghost predicate FirstReusable(artifacts: map<string, Artifact>, m: Manifest, n: nat) {
    forall i :: 0 <= i < n && i < CELLS ==> CellReusable(artifacts, m, i)
  }

  /** What a call has gone through is reusable, and so is everything beside a complete manifest. */
  ghost predicate Pure(s: State, w: World) {
    && Inv(s, w) && !Mixed(s)
    && (s.phase.Running? ==> s.phase.next <= CELLS && FirstReusable(s.disk.artifacts, s.phase.manifest, s.phase.next))
  }

  lemma ProducedReusable(artifacts: map<string, Artifact>, m: Manifest, v: World, cell: nat)
    requires cell < CELLS && FirstReusable(artifacts, m, cell) && m.sha256 == v.sha256 && m.commit == Some(v.commit)
    ensures FirstReusable(artifacts[CellName(cell) := PassDocument(v, ConditionOf(cell))], m, cell + 1)
  {
    var after := artifacts[CellName(cell) := PassDocument(v, ConditionOf(cell))];
    EarlierNamesDiffer(cell);
    forall i | 0 <= i < cell + 1 ensures CellReusable(after, m, i) {
      if i < cell { assert CellReusable(artifacts, m, i); }
    }
  }

  lemma ReusedReusable(artifacts: map<string, Artifact>, m: Manifest, cell: nat)
    requires cell < CELLS && FirstReusable(artifacts, m, cell) && CellReusable(artifacts, m, cell)
    ensures FirstReusable(artifacts, m, cell + 1)
  {}

  lemma ChildKeepsFirst(s: State, w: World, outcome: Outcome)
    requires PhaseSound(s, w) && s.phase.Running? && s.phase.next < CELLS
    requires FirstReusable(s.disk.artifacts, s.phase.manifest, s.phase.next)
    ensures var t := ExecChild(s, outcome);
            t.phase.Running? ==> t.phase.next <= CELLS && FirstReusable(t.disk.artifacts, t.phase.manifest, t.phase.next)
  {
    var Running(v, m, cell, _) := s.phase;
    if CellReusable(s.disk.artifacts, m, cell) {
      ReusedReusable(s.disk.artifacts, m, cell);
    } else if outcome.Pass? {
      ProducedReusable(s.disk.artifacts, m, v, cell);
    }
  }

  lemma ChildUnmixed(s: State, w: World, outcome: Outcome)
    requires PhaseSound(s, w) && s.phase.Running? && s.phase.next < CELLS
    ensures !Mixed(ExecChild(s, outcome))
  {}

  lemma ChildKeepsPure(s: State, w: World, outcome: Outcome)
    requires Pure(s, w) && s.phase.Running? && s.phase.next < CELLS
    ensures Pure(ExecChild(s, outcome), w)
  {
    ChildKeepsInv(s, w, outcome);
    ChildKeepsFirst(s, w, outcome);
    ChildUnmixed(s, w, outcome);
  }

  lemma SameReusable(artifacts: map<string, Artifact>, m: Manifest, other: Manifest)
    requires FirstReusable(artifacts, m, CELLS) && other.sha256 == m.sha256 && other.commit == m.commit
    ensures AllReusable(artifacts, other)
  {
    forall i | 0 <= i < CELLS ensures CellReusable(artifacts, other, i) { assert CellReusable(artifacts, m, i); }
  }

  lemma ExecKeepsPure(s: State, w: World, e: Event)
    requires Pure(s, w) && (e.Begin? ==> SameIdentity(e.world, w))
    ensures Pure(Exec(s, e), w)
  {
    ExecKeepsInv(s, w, e);
    match e
    case Begin(v) => OpenedEntries(s.disk, v);
    case Child(outcome) => if s.phase.Running? && s.phase.next < CELLS { ChildKeepsPure(s, w, outcome); }
    case Lifecycle(code) =>
      if s.phase.Running? && s.phase.next == CELLS {
        SameReusable(s.disk.artifacts, s.phase.manifest, Exec(s, e).disk.manifest.value);
      }
    case Interrupt =>
  }

  lemma {:induction false} ExecAllKeepsPure(s: State, w: World, events: seq<Event>)
    requires Pure(s, w) && FixedIdentity(events, w)
    ensures Pure(ExecAll(s, events), w)
  {
    if events != [] {
      ExecAllKeepsPure(s, w, events[..|events| - 1]);
      ExecKeepsPure(ExecAll(s, events[..|events| - 1]), w, events[|events| - 1]);
    }
  }

  lemma {:induction false} StaleMixes(disk: Disk, w: World)
    requires Stale(disk, w) && w.ioSafe
    ensures Mixed(ExecAll(State(disk, Idle, []), PassingCall(w)))
  {
    StaleManifestRepeats(disk, w);
    var once := ExecAll(State(disk, Idle, []), PassingCall(w)).disk;
    var i :| 0 <= i < CELLS && CellName(i) in once.artifacts && once.artifacts[CellName(i)].Document? &&
             once.manifest.value.commit != Some(once.artifacts[CellName(i)].commit);
    assert !CellReusable(once.artifacts, once.manifest.value, i);
  }

  /**
   Whatever the calls of one identity, complete is never recorded over an artifact of another commit, if and only if the
   first of them does not start from a stale manifest.
   */
  lemma {:induction false} CompleteUnmixedExactly(disk: Disk, w: World)
    requires !Mixed(State(disk, Idle, []))
    ensures (forall events :: FixedIdentity(events, w) ==> !Mixed(ExecAll(State(disk, Idle, []), events))) <==> !Stale(disk, w)
  {
    if Stale(disk, w) {
      var calm := w.(ioSafe := true);
      assert Resumable(disk.manifest.value, calm) && Stale(disk, calm);
      StaleMixes(disk, calm);
      assert FixedIdentity(PassingCall(calm), w);
    } else {
      forall events | FixedIdentity(events, w) ensures !Mixed(ExecAll(State(disk, Idle, []), events)) {
        ExecAllKeepsPure(State(disk, Idle, []), w, events);
      }
    }
  }

  // ----- complete means complete -----

  ghost predicate CellsPassed(artifacts: map<string, Artifact>, sha256: string, n: nat) {
    forall i :: 0 <= i < n && i < CELLS ==>
      CellName(i) in artifacts && PassedFor(artifacts[CellName(i)], sha256, ConditionOf(i))
  }

  /** A cell seen by a call was reusable under its manifest, or produced by it at its commit. */
  predicate SeenCell(artifacts: map<string, Artifact>, w: World, m: Manifest, how: Seen, i: nat)
    requires i < CELLS
  {
    if how == Reused then CellReusable(artifacts, m, i)
    else CellName(i) in artifacts && artifacts[CellName(i)] == PassDocument(w, ConditionOf(i))
  }

  ghost predicate SeenCells(artifacts: map<string, Artifact>, w: World, m: Manifest, seen: seq<Seen>) {
    forall i :: 0 <= i < |seen| && i < CELLS ==> SeenCell(artifacts, w, m, seen[i], i)
  }

  lemma SeenCellsPassed(artifacts: map<string, Artifact>, w: World, m: Manifest, seen: seq<Seen>)
    requires SeenCells(artifacts, w, m, seen) && m.sha256 == w.sha256
    ensures CellsPassed(artifacts, m.sha256, |seen|)
  {
    forall i | 0 <= i < |seen| && i < CELLS
      ensures CellName(i) in artifacts && PassedFor(artifacts[CellName(i)], m.sha256, ConditionOf(i))
    {
      assert SeenCell(artifacts, w, m, seen[i], i);
    }
  }

  lemma SeenReused(artifacts: map<string, Artifact>, w: World, m: Manifest, seen: seq<Seen>)
    requires |seen| < CELLS && SeenCells(artifacts, w, m, seen) && CellReusable(artifacts, m, |seen|)
    ensures SeenCells(artifacts, w, m, seen + [Reused])
  {}

  lemma SeenProduced(artifacts: map<string, Artifact>, w: World, m: Manifest, seen: seq<Seen>)
    requires |seen| < CELLS && SeenCells(artifacts, w, m, seen)
    ensures SeenCells(artifacts[CellName(|seen|) := PassDocument(w, ConditionOf(|seen|))], w, m, seen + [Produced])
  {
    var more, updated := seen + [Produced], artifacts[CellName(|seen|) := PassDocument(w, ConditionOf(|seen|))];
    forall i | 0 <= i < |more| && i < CELLS ensures SeenCell(updated, w, m, more[i], i) {
      if i < |seen| { SeenCellKept(artifacts, w, m, seen[i], i, |seen|, PassDocument(w, ConditionOf(|seen|))); }
    }
  }

  lemma SeenCellKept(artifacts: map<string, Artifact>, w: World, m: Manifest, how: Seen, i: nat, cell: nat, a: Artifact)
    requires i < cell < CELLS && SeenCell(artifacts, w, m, how, i)
    ensures SeenCell(artifacts[CellName(cell) := a], w, m, how, i)
  {
    EarlierNamesDiffer(cell);
  }

  ghost predicate CompleteSound(s: State) {
    && (s.disk.manifest.Some? && s.disk.manifest.value.status == Complete ==>
          s.phase.Idle? && CellsPassed(s.disk.artifacts, s.disk.manifest.value.sha256, CELLS))
    && (s.phase.Running? ==>
          && s.phase.next <= CELLS && |s.phase.seen| == s.phase.next
          && s.disk.manifest == Some(s.phase.manifest) && s.phase.manifest.sha256 == s.phase.world.sha256
          && SeenCells(s.disk.artifacts, s.phase.world, s.phase.manifest, s.phase.seen))
  }

  lemma ChildKeepsCompleteSound(s: State, outcome: Outcome)
    requires CompleteSound(s) && s.phase.Running? && s.phase.next < CELLS
    ensures CompleteSound(ExecChild(s, outcome))
  {
    var Running(w, m, cell, seen) := s.phase;
    if CellReusable(s.disk.artifacts, m, cell) {
      SeenReused(s.disk.artifacts, w, m, seen);
    } else if outcome.Pass? {
      SeenProduced(s.disk.artifacts, w, m, seen);
    }
  }

  lemma EarlierNamesDiffer(cell: nat)
    requires cell < CELLS
    ensures forall i: nat :: i < cell ==> CellName(i) != CellName(cell)
  {
    forall i: nat | i < cell ensures CellName(i) != CellName(cell) {
      if CellName(i) == CellName(cell) { CellNameInjective(i, cell); }
    }
  }

  lemma {:induction false} ExecAllKeepsCompleteSound(s: State, events: seq<Event>)
    requires CompleteSound(s)
    ensures CompleteSound(ExecAll(s, events))
  {
    if events != [] {
      var before, e := ExecAll(s, events[..|events| - 1]), events[|events| - 1];
      ExecAllKeepsCompleteSound(s, events[..|events| - 1]);
      if e.Begin? { OpenedEntries(before.disk, e.world); }
      if e.Child? && before.phase.Running? && before.phase.next < CELLS { ChildKeepsCompleteSound(before, e.outcome); }
      if e.Lifecycle? && before.phase.Running? {
        SeenCellsPassed(before.disk.artifacts, before.phase.world, before.phase.manifest, before.phase.seen);
      }
    }
  }

  /**
   Whatever the calls and their worlds, a manifest that says complete sits beside a passing artifact of its
   binary for every cell; it was written when a lifecycle child succeeded, in a call that found each of them
   reusable under the manifest or produced it at its own commit.
   */
  lemma {:induction false} CompleteIsEarned(disk: Disk, events: seq<Event>, e: Event)
    requires disk.manifest.Some? ==> disk.manifest.value.status != Complete
    ensures var before := ExecAll(State(disk, Idle, []), events);
            var after := Exec(before, e);
            after.disk.manifest.Some? && after.disk.manifest.value.status == Complete ==>
              && CellsPassed(after.disk.artifacts, after.disk.manifest.value.sha256, CELLS)
              && (before.disk.manifest != after.disk.manifest ==>
                    && e == Lifecycle(0) && before.phase.Running? && |before.phase.seen| == CELLS
                    && SeenCells(after.disk.artifacts, before.phase.world, after.disk.manifest.value, before.phase.seen))
  {
    var start := State(disk, Idle, []);
    var before := ExecAll(start, events);
    ExecPush(start, events, e);
    ExecAllKeepsCompleteSound(start, events + [e]);
    ExecAllKeepsCompleteSound(start, events);
    if e.Begin? { OpenedEntries(before.disk, e.world); }
    if e.Lifecycle? && before.phase.Running? {
      SameCommitSeen(before.disk.artifacts, before.phase.world, before.phase.manifest, Exec(before, e).disk.manifest.value,
                     before.phase.seen);
    }
  }

  /** Reuse looks at the binary and the commit of the manifest only. */
  lemma SameCommitSeen(artifacts: map<string, Artifact>, w: World, m: Manifest, other: Manifest, seen: seq<Seen>)
    requires SeenCells(artifacts, w, m, seen)
    ensures m.sha256 == other.sha256 && m.commit == other.commit ==> SeenCells(artifacts, w, other, seen)
  {
    if m.sha256 == other.sha256 && m.commit == other.commit {
      forall i | 0 <= i < |seen| && i < CELLS ensures SeenCell(artifacts, w, other, seen[i], i) {
        assert SeenCell(artifacts, w, m, seen[i], i);
      }
    }
  }
}
