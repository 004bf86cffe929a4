/**
  Any number of processes that resume executions through one shared table of rows: exclusivity
  rests on the compare-and-swap of the row status alone.
 */
module ResumeRace {
  import opened Wrappers
  import opened ExecutionData
  import opened RegistryRules
  import opened RegistryTheorems

  /** What happened to rows, in order: a write of `waiting`, or a claim that won. */
  datatype Event = Entered(executionId: string) | Won(executionId: string, process: nat, call: nat)

  datatype System = System(statuses: map<string, ExecutionStatus>, processes: map<nat, Process<nat>>, log: seq<Event>)

  /** A row is created as `new`; setting it running afterwards is one of the unconditional writes. */
  datatype SystemStep =
    | Local(process: nat, step: Step<nat>)
    | CreateRow(process: nat, call: nat)
    | ClaimRow(process: nat, call: nat, expected: ExecutionStatus)
    | WriteStatus(executionId: string, status: ExecutionStatus)

  ghost predicate WellFormedSystem(s: System) {
    forall q :: q in s.processes ==> WellFormed(s.processes[q])
  }

  ghost predicate AtClaim(s: System, q: nat, h: nat) {
    q in s.processes && h in s.processes[q].calls && s.processes[q].calls[h].phase == Reserved
  }

  /** A process moves on by itself except for the claim, which goes through the table. */
  ghost predicate CanHappen(s: System, step: SystemStep) {
    match step
    case Local(q, local) => q in s.processes && !local.Win? && Enabled(s.processes[q], local)
    case CreateRow(q, h) => AtClaim(s, q, h) && s.processes[q].calls[h].executionId !in s.statuses
    case ClaimRow(q, h, expected) => AtClaim(s, q, h) && (expected == New || expected == Waiting)
    case WriteStatus(id, _) => id in s.statuses
  }

  ghost function After(s: System, step: SystemStep): (r: System)
    requires WellFormedSystem(s) && CanHappen(s, step)
    ensures WellFormedSystem(r)
  {
    match step
    case Local(q, local) => s.(processes := s.processes[q := Next(s.processes[q], local)])
    case CreateRow(q, h) =>
      s.(statuses := s.statuses[s.processes[q].calls[h].executionId := New],
         processes := s.processes[q := Next(s.processes[q], Win(h))])
    case ClaimRow(q, h, expected) =>
      var id := s.processes[q].calls[h].executionId;
      if id in s.statuses && s.statuses[id] == expected then
        s.(statuses := s.statuses[id := Running],
           processes := s.processes[q := Next(s.processes[q], Win(h))],
           log := if expected == Waiting then s.log + [Won(id, q, h)] else s.log)
      else s.(processes := s.processes[q := Next(s.processes[q], Lose(h))])
    case WriteStatus(id, status) =>
      s.(statuses := s.statuses[id := status], log := if status == Waiting then s.log + [Entered(id)] else s.log)
  }

  /** Between two won claims of a row, the row was written `waiting` again. */
  ghost predicate OneClaimPerWait(log: seq<Event>) {
    forall i, j :: 0 <= i < j < |log| && log[i].Won? && log[j].Won? && log[i].executionId == log[j].executionId
      ==> EnteredBetween(log, i, j, log[i].executionId)
  }

  ghost predicate EnteredBetween(log: seq<Event>, i: int, j: int, id: string) {
    exists k :: i < k < j && 0 <= k < |log| && log[k] == Entered(id)
  }

  /** The row has been written `waiting` after every claim won so far. */
  ghost predicate WaitOpen(log: seq<Event>, id: string) {
    forall i :: 0 <= i < |log| && log[i].Won? && log[i].executionId == id ==> EnteredBetween(log, i, |log|, id)
  }

  ghost predicate Raced(s: System) {
    && OneClaimPerWait(s.log)
    && (forall id :: id in s.statuses && s.statuses[id] == Waiting ==> WaitOpen(s.log, id))
    && (forall q :: q in s.processes ==> Conserved(s.processes[q]))
  }

  lemma EnteredBetweenLater(log: seq<Event>, more: seq<Event>, i: int, j: int, id: string)
    requires EnteredBetween(log, i, j, id) && j <= |log|
    ensures EnteredBetween(log + more, i, j, id)
    ensures forall k :: j <= k ==> EnteredBetween(log + more, i, k, id)
  {
    var m :| i < m < j && 0 <= m < |log| && log[m] == Entered(id);
    assert (log + more)[m] == Entered(id);
  }

  /** Appending to the log: a `waiting` write opens a wait, a win needs one open. */
  lemma LogGrows(log: seq<Event>, e: Event)
    requires OneClaimPerWait(log)
    requires e.Won? ==> WaitOpen(log, e.executionId)
    ensures OneClaimPerWait(log + [e])
  {
    var longer := log + [e];
    forall i, j | 0 <= i < j < |longer| && longer[i].Won? && longer[j].Won? && longer[i].executionId == longer[j].executionId
      ensures EnteredBetween(longer, i, j, longer[i].executionId)
    {
      EnteredBetweenLater(log, [e], i, j, log[i].executionId);
    }
  }

  lemma ProcessesStayConserved(s: System, step: SystemStep)
    requires WellFormedSystem(s) && CanHappen(s, step) && Raced(s)
    ensures forall q :: q in After(s, step).processes ==> Conserved(After(s, step).processes[q])
  {
    match step
    case Local(q, local) => OneProcessSteps(s, q, local);
    case CreateRow(q, h) => OneProcessSteps(s, q, Win(h));
    case ClaimRow(q, h, expected) =>
      OneProcessSteps(s, q, Win(h));
      OneProcessSteps(s, q, Lose(h));
    case WriteStatus(_, _) =>
  }

  lemma OneProcessSteps(s: System, q: nat, local: Step<nat>)
    requires WellFormedSystem(s) && Raced(s) && q in s.processes && Enabled(s.processes[q], local)
    ensures var after := s.processes[q := Next(s.processes[q], local)];
            forall other :: other in after ==> Conserved(after[other])
  {
    StepConserves(s.processes[q], local);
  }

  lemma StepKeepsRaced(s: System, step: SystemStep)
    requires WellFormedSystem(s) && CanHappen(s, step) && Raced(s)
    ensures Raced(After(s, step))
  {
    ProcessesStayConserved(s, step);
    var next := After(s, step);
    if next.log != s.log {
      var e := next.log[|s.log|];
      assert next.log == s.log + [e];
      LogGrows(s.log, e);
      forall id | id in next.statuses && next.statuses[id] == Waiting ensures WaitOpen(next.log, id) {
        forall i | 0 <= i < |next.log| && next.log[i].Won? && next.log[i].executionId == id
          ensures EnteredBetween(next.log, i, |next.log|, id)
        {
          if e == Entered(id) {
            assert next.log[|s.log|] == Entered(id);
          } else {
            EnteredBetweenLater(s.log, [e], i, |s.log|, id);
          }
        }
      }
    }
  }

  ghost function RunSystem(s: System, steps: seq<SystemStep>): (r: Option<System>)
    requires WellFormedSystem(s)
    ensures r.Some? ==> WellFormedSystem(r.value)
    decreases |steps|
  {
    if steps == [] then Some(s)
    else
      var before := RunSystem(s, steps[..|steps| - 1]);
      var step := steps[|steps| - 1];
      if before.Some? && CanHappen(before.value, step) then Some(After(before.value, step)) else None
  }

  ghost predicate Fresh(s: System) {
    s.log == [] && forall q :: q in s.processes ==> Empty(s.processes[q])
  }

  /**
    Exclusive resume: for any number of processes, calls and other writers, in any
    interleaving, at most one claim of a row wins between two writes of `waiting` to it, and
    every process keeps its capacity conserved throughout.
   */
  lemma {:induction false} ResumeIsExclusive(s: System, steps: seq<SystemStep>)
    requires WellFormedSystem(s) && Fresh(s) && RunSystem(s, steps).Some?
    ensures Raced(RunSystem(s, steps).value)
    decreases |steps|
  {
    if steps == [] {
      forall q | q in s.processes ensures Conserved(s.processes[q]) {
        assert Debtors(s.processes[q]) == {};
      }
    } else {
      ResumeIsExclusive(s, steps[..|steps| - 1]);
      StepKeepsRaced(RunSystem(s, steps[..|steps| - 1]).value, steps[|steps| - 1]);
    }
  }

  /**
    A lost claim: no row, no other process and no registry entry changes, and the capacity the
    call had reserved is given back.
   */
  lemma LostClaimLeavesNoTrace(s: System, q: nat, h: nat, expected: ExecutionStatus)
    requires WellFormedSystem(s) && CanHappen(s, ClaimRow(q, h, expected)) && Conserved(s.processes[q])
    requires var id := s.processes[q].calls[h].executionId; id in s.statuses ==> s.statuses[id] != expected
    ensures var next := After(s, ClaimRow(q, h, expected)); var before, after := s.processes[q], next.processes[q];
            && next.statuses == s.statuses && next.log == s.log
            && next.processes == s.processes[q := after]
            && after.active == before.active && after.responseModes == before.responseModes
            && after.calls[h].phase == Failed && !Owes(after.calls[h])
            && after.outstanding == before.outstanding - (if before.calls[h].evaluation then 0 else 1)
  {
  }

  /**
    What a claim does: it wins iff the row has the expected status, and then it alone makes the
    row running; whatever happens, no other row, call or process changes.
   */
  lemma ClaimMeaning(s: System, q: nat, h: nat, expected: ExecutionStatus)
    requires WellFormedSystem(s) && CanHappen(s, ClaimRow(q, h, expected))
    ensures var next, id := After(s, ClaimRow(q, h, expected)), s.processes[q].calls[h].executionId;
            var won := id in s.statuses && s.statuses[id] == expected;
            && next.statuses == (if won then s.statuses[id := Running] else s.statuses)
            && next.processes.Keys == s.processes.Keys
            && (forall other :: other in s.processes && other != q ==> next.processes[other] == s.processes[other])
            && next.processes[q].calls.Keys == s.processes[q].calls.Keys
            && (forall g :: g in s.processes[q].calls && g != h ==> next.processes[q].calls[g] == s.processes[q].calls[g])
            && next.processes[q].calls[h].phase == if won then Claimed else Failed
  {
  }

  /** A created row is new, and was not there before. */
  lemma CreatedRowIsNew(s: System, q: nat, h: nat)
    requires WellFormedSystem(s) && CanHappen(s, CreateRow(q, h))
    ensures var next, id := After(s, CreateRow(q, h)), s.processes[q].calls[h].executionId;
            id !in s.statuses && next.statuses == s.statuses[id := New] && next.processes[q].calls[h].phase == Claimed
  {
  }

  /** Any other write sets the status it is given, and touches no process. */
  lemma WrittenStatusStands(s: System, id: string, status: ExecutionStatus)
    requires WellFormedSystem(s) && CanHappen(s, WriteStatus(id, status))
    ensures var next := After(s, WriteStatus(id, status));
            next.statuses == s.statuses[id := status] && next.processes == s.processes
  {
  }

  lemma OneMoreStep(s: System, steps: seq<SystemStep>, step: SystemStep) returns (more: seq<SystemStep>)
    requires WellFormedSystem(s) && RunSystem(s, steps).Some? && CanHappen(RunSystem(s, steps).value, step)
    ensures more == steps + [step] && RunSystem(s, more) == Some(After(RunSystem(s, steps).value, step))
  {
    more := steps + [step];
    assert more[..|steps|] == steps;
  }

  predicate StopsNothing(steps: seq<SystemStep>) {
    forall i :: 0 <= i < |steps| ==> !(steps[i].Local? && steps[i].step.Stop?)
  }

  /** The call of `id` is in this phase, and its promise has not settled. */
  ghost predicate Unsettled(s: System, q: nat, h: nat, id: string, phase: Phase) {
    && q in s.processes && h in s.processes[q].calls
    && var c := s.processes[q].calls[h]; c.executionId == id && c.phase == phase && !c.evaluation && !c.settled && !c.handled
  }

  lemma FirstCallClaims(s: System, q: nat, h: nat, id: string) returns (steps: seq<SystemStep>)
    requires WellFormedSystem(s) && Fresh(s) && q in s.processes && id !in s.statuses
    ensures RunSystem(s, steps).Some? && StopsNothing(steps)
    ensures var mid := RunSystem(s, steps).value;
            && Unsettled(mid, q, h, id, Claimed) && id in mid.statuses
            && mid.processes[q].active == map[] && mid.processes[q].calls.Keys == {h}
  {
    steps := OneMoreStep(s, [], Local(q, Start(h, id, false)));
    steps := OneMoreStep(s, steps, Local(q, Reserve(h)));
    steps := OneMoreStep(s, steps, CreateRow(q, h));
  }

  lemma FirstCallWaits(s: System, q: nat, h: nat, id: string, now: int) returns (steps: seq<SystemStep>)
    requires WellFormedSystem(s) && Fresh(s) && q in s.processes && id !in s.statuses
    ensures RunSystem(s, steps).Some? && StopsNothing(steps)
    ensures var mid := RunSystem(s, steps).value;
            && Unsettled(mid, q, h, id, Registered) && id in mid.statuses && mid.statuses[id] == Waiting
            && mid.processes[q].active == map[id := h] && mid.processes[q].calls.Keys == {h}
  {
    steps := FirstCallClaims(s, q, h, id);
    steps := OneMoreStep(s, steps, Local(q, Register(h, now)));
    steps := OneMoreStep(s, steps, Local(q, SetStatus(id, Waiting)));
    steps := OneMoreStep(s, steps, WriteStatus(id, Waiting));
  }

  lemma SecondCallClaims(s: System, q: nat, h: nat, g: nat, id: string, now: int) returns (steps: seq<SystemStep>)
    requires WellFormedSystem(s) && Fresh(s) && q in s.processes && id !in s.statuses && g != h
    ensures RunSystem(s, steps).Some? && StopsNothing(steps)
    ensures var mid := RunSystem(s, steps).value;
            && Unsettled(mid, q, h, id, Registered) && Unsettled(mid, q, g, id, Claimed)
            && mid.processes[q].active == map[id := h]
  {
    steps := FirstCallWaits(s, q, h, id, now);
    steps := OneMoreStep(s, steps, Local(q, Start(g, id, false)));
    steps := OneMoreStep(s, steps, Local(q, Reserve(g)));
    steps := OneMoreStep(s, steps, ClaimRow(q, g, Waiting));
  }

  /**
    Capacity can be lost although nobody stops anything: an execution is resumed by a second
    call after its row was written `waiting` and before the first call's promise settled.
   */
  lemma EarlyResumeOrphansCall(s: System, q: nat, h: nat, g: nat, id: string, now: int) returns (steps: seq<SystemStep>)
    requires WellFormedSystem(s) && Fresh(s) && q in s.processes && id !in s.statuses && g != h
    ensures RunSystem(s, steps).Some? && StopsNothing(steps)
    ensures var end := RunSystem(s, steps).value.processes;
            q in end && Orphaned(end[q], h) && Owes(end[q].calls[h]) && forall more :: !Releases(end[q], more, h)
  {
    steps := SecondCallClaims(s, q, h, g, id, now);
    steps := OneMoreStep(s, steps, Local(q, Register(g, now)));
    OrphanIsLost(RunSystem(s, steps).value.processes[q], h);
  }

  lemma OrphanIsLost(p: Process<nat>, h: nat)
    requires WellFormed(p) && Orphaned(p, h) && !p.calls[h].evaluation
    ensures forall steps :: !Releases(p, steps, h)
  {
    forall steps | RunSteps(p, steps).Some? ensures !Releases(p, steps, h) {
      OrphanOwesForever(p, steps, h);
    }
  }
}
