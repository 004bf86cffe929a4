/**
  The registry of active executions of one process as a state machine.  A call of `add` is
  identified by a handle; its phases are separated where the code awaits something, so that
  any interleaving of calls, cancellations and settlements can be expressed.
 */
module RegistryRules {
  import opened Wrappers
  import opened ExecutionData

  /** Between its start and its end, an `add` call has reserved capacity, then claimed the row. */
  datatype Phase = Starting | Reserved | Claimed | Registered | Failed

  /**
    One `add` call with the closure it creates.  `holdsCapacity` is the state of its
    reservation object; `settled` and `handled` tell whether the post-execute promise has
    settled and whether its settle handler has run.
   */
  datatype Call = Call(executionId: string, evaluation: bool, phase: Phase, holdsCapacity: bool,
                       status: ExecutionStatus, startedAt: int, responsePromise: Option<nat>,
                       attached: bool, settled: bool, handled: bool)

  datatype Process<H(==)> = Process(active: map<string, H>, responseModes: map<string, string>,
                                    calls: map<H, Call>, outstanding: int)

  datatype Step<H> =
    | Start(h: H, executionId: string, evaluation: bool)
    | Reserve(h: H)
    | Win(h: H)
    | Lose(h: H)
    | Register(h: H, now: int)
    | Attach(executionId: string)
    | AttachPromise(executionId: string, promise: nat)
    | SetStatus(executionId: string, status: ExecutionStatus)
    | SetMode(executionId: string, mode: string)
    | Stop(executionId: string)
    | Finalize(executionId: string)
    | Handle(h: H)

  function NewCall(executionId: string, evaluation: bool): Call {
    Call(executionId, evaluation, Starting, false, New, 0, None, false, false, false)
  }

  /** Registered entries always belong to a call of the process. */
  ghost predicate WellFormed<H>(p: Process<H>) {
    forall id :: id in p.active ==> p.active[id] in p.calls
  }

  predicate CanLose(phase: Phase) {
    phase == Starting || phase == Reserved || phase == Claimed
  }

  ghost predicate Enabled<H>(p: Process<H>, step: Step<H>) {
    match step
    case Start(h, _, _) => h !in p.calls
    case Reserve(h) => h in p.calls && p.calls[h].phase == Starting
    case Win(h) => h in p.calls && p.calls[h].phase == Reserved
    case Lose(h) => h in p.calls && CanLose(p.calls[h].phase)
    case Register(h, _) => h in p.calls && p.calls[h].phase == Claimed
    case Attach(id) => id in p.active
    case AttachPromise(id, _) => id in p.active
    case SetStatus(id, _) => id in p.active
    case SetMode(_, _) => true
    case Stop(_) => true
    case Finalize(_) => true
    case Handle(h) => h in p.calls && p.calls[h].phase == Registered && p.calls[h].settled && !p.calls[h].handled
  }

  function Put<H>(p: Process<H>, h: H, c: Call): Process<H> {
    p.(calls := p.calls[h := c])
  }

  /** `release()` on the call's reservation: a no-op when nothing is held. */
  function Release<H>(p: Process<H>, h: H): Process<H>
    requires h in p.calls
  {
    if p.calls[h].holdsCapacity
    then Put(p, h, p.calls[h].(holdsCapacity := false)).(outstanding := p.outstanding - 1)
    else p
  }

  function Remove<H>(p: Process<H>, id: string): Process<H> {
    p.(active := p.active - {id}, responseModes := p.responseModes - {id})
  }

  function StartCall<H>(p: Process<H>, h: H, id: string, evaluation: bool): Process<H> {
    Put(p, h, NewCall(id, evaluation))
  }

  function ReserveCall<H>(p: Process<H>, h: H): Process<H>
    requires h in p.calls
  {
    var c := p.calls[h].(phase := Reserved);
    if c.evaluation then Put(p, h, c) else Put(p, h, c.(holdsCapacity := true)).(outstanding := p.outstanding + 1)
  }

  function LoseCall<H>(p: Process<H>, h: H): Process<H>
    requires h in p.calls
  {
    Release(Put(p, h, p.calls[h].(phase := Failed)), h)
  }

  /** The entry that a resuming call replaces, if the execution still has one. */
  function Resuming<H>(p: Process<H>, id: string): Option<Call>
    requires id in p.active ==> p.active[id] in p.calls
  {
    if id in p.active then Some(p.calls[p.active[id]]) else None
  }

  function RegisterCall<H>(p: Process<H>, h: H, now: int): Process<H>
    requires h in p.calls
    requires p.calls[h].executionId in p.active ==> p.active[p.calls[h].executionId] in p.calls
  {
    var c := p.calls[h];
    var resuming := Resuming(p, c.executionId);
    Put(p, h, c.(phase := Registered, status := Running,
                 startedAt := if resuming.Some? then resuming.value.startedAt else now,
                 responsePromise := if resuming.Some? then resuming.value.responsePromise else None))
      .(active := p.active[c.executionId := h])
  }

  function StopEntry<H>(p: Process<H>, id: string): Process<H>
    requires id in p.active ==> p.active[id] in p.calls
  {
    if id !in p.active then p
    else if p.calls[p.active[id]].status == Waiting then Remove(p, id)
    else Put(p, p.active[id], p.calls[p.active[id]].(settled := true))
  }

  function FinalizeEntry<H>(p: Process<H>, id: string): Process<H>
    requires id in p.active ==> p.active[id] in p.calls
  {
    if id !in p.active then p else Put(p, p.active[id], p.calls[p.active[id]].(settled := true))
  }

  /** The settle handler; note that it removes whatever entry the execution id has by then. */
  function HandleCall<H>(p: Process<H>, h: H): Process<H>
    requires h in p.calls
  {
    var released := Release(Put(p, h, p.calls[h].(handled := true)), h);
    var c := released.calls[h];
    if c.status == Waiting then Put(released, h, c.(attached := false)) else Remove(released, c.executionId)
  }

  ghost function Next<H>(p: Process<H>, step: Step<H>): (r: Process<H>)
    requires WellFormed(p) && Enabled(p, step)
    ensures WellFormed(r)
  {
    match step
    case Start(h, id, evaluation) => StartCall(p, h, id, evaluation)
    case Reserve(h) => ReserveCall(p, h)
    case Win(h) => Put(p, h, p.calls[h].(phase := Claimed))
    case Lose(h) => LoseCall(p, h)
    case Register(h, now) => RegisterCall(p, h, now)
    case Attach(id) => Put(p, p.active[id], p.calls[p.active[id]].(attached := true))
    case AttachPromise(id, promise) => Put(p, p.active[id], p.calls[p.active[id]].(responsePromise := Some(promise)))
    case SetStatus(id, status) => Put(p, p.active[id], p.calls[p.active[id]].(status := status))
    case SetMode(id, mode) => p.(responseModes := p.responseModes[id := mode])
    case Stop(id) => StopEntry(p, id)
    case Finalize(id) => FinalizeEntry(p, id)
    case Handle(h) => HandleCall(p, h)
  }

  ghost predicate Empty<H>(p: Process<H>) {
    p.active == map[] && p.calls == map[] && p.outstanding == 0
  }

  /** The process after a run, or nothing when some step of it is not enabled. */
  ghost function RunSteps<H>(p: Process<H>, steps: seq<Step<H>>): (r: Option<Process<H>>)
    requires WellFormed(p)
    ensures r.Some? ==> WellFormed(r.value)
    decreases |steps|
  {
    if steps == [] then Some(p)
    else
      var before := RunSteps(p, steps[..|steps| - 1]);
      var step := steps[|steps| - 1];
      if before.Some? && Enabled(before.value, step) then Some(Next(before.value, step)) else None
  }
}
