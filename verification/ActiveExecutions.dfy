/**
  `active-executions.ts` as it runs.  An `Execution` object is one `add` call with its
  reservation and its deferred promise; the registry maps execution ids to such objects.  Each
  method is one stretch of code between two awaits and is proved to take one registry step.
 */
module ActiveExecutions {
  import opened Wrappers
  import opened ExecutionData
  import Rules = RegistryRules

  class Execution {
    const executionId: string
    const evaluation: bool
    var phase: Rules.Phase
    var holdsCapacity: bool
    var status: ExecutionStatus
    var startedAt: int
    var responsePromise: Option<nat>
    var attached: bool
    var settled: bool
    var handled: bool

    constructor (executionId: string, evaluation: bool)
      ensures Call() == Rules.NewCall(executionId, evaluation)
    {
      this.executionId := executionId;
      this.evaluation := evaluation;
      phase := Rules.Starting;
      holdsCapacity := false;
      status := New;
      startedAt := 0;
      responsePromise := None;
      attached := false;
      settled := false;
      handled := false;
    }

    ghost function Call(): Rules.Call
      reads this
    {
      Rules.Call(executionId, evaluation, phase, holdsCapacity, status, startedAt, responsePromise,
                 attached, settled, handled)
    }
  }

  class Registry {
    var activeExecutions: map<string, Execution>
    var responseModes: map<string, string>
    var outstanding: int
    /** Every `add` call made so far with what it looks like now. */
    ghost var calls: map<Execution, Rules.Call>

    constructor ()
      ensures Valid() && Rules.Empty(View())
    {
      activeExecutions := map[];
      responseModes := map[];
      outstanding := 0;
      calls := map[];
    }

    ghost function View(): Rules.Process<Execution>
      reads this
    {
      Rules.Process(activeExecutions, responseModes, calls, outstanding)
    }

    ghost predicate Valid()
      reads this, calls.Keys
    {
      && Rules.WellFormed(View())
      && forall e :: e in calls ==> calls[e] == e.Call()
    }

    /** The synchronous start of `add`. */
    method StartAdd(executionId: string, evaluation: bool) returns (e: Execution)
      requires Valid()
      modifies this`calls
      ensures Valid() && fresh(e)
      ensures View() == Rules.StartCall(old(View()), e, executionId, evaluation)
    {
      e := new Execution(executionId, evaluation);
      calls := calls[e := e.Call()];
    }

    /** `capacityReservation.reserve`, skipped for evaluation runs. */
    method Reserve(e: Execution)
      requires Valid() && e in calls && e.phase == Rules.Starting
      modifies this`outstanding, this`calls, e
      ensures Valid() && View() == Rules.ReserveCall(old(View()), e)
    {
      e.phase := Rules.Reserved;
      if !e.evaluation {
        outstanding := outstanding + 1;
        e.holdsCapacity := true;
      }
      calls := calls[e := e.Call()];
    }

    /** The awaited database write came back successful. */
    method WinClaim(e: Execution)
      requires Valid() && e in calls && e.phase == Rules.Reserved
      modifies this`calls, e
      ensures Valid() && View() == Rules.Next(old(View()), Rules.Win(e))
    {
      e.phase := Rules.Claimed;
      calls := calls[e := e.Call()];
    }

    /** `capacityReservation.release`: gives back at most once. */
    method Release(e: Execution)
      requires Valid() && e in calls
      modifies this`outstanding, this`calls, e`holdsCapacity
      ensures Valid() && View() == Rules.Release(old(View()), e)
    {
      if e.holdsCapacity {
        outstanding := outstanding - 1;
        e.holdsCapacity := false;
        calls := calls[e := e.Call()];
      }
    }

    /** The `catch` of `add`: release and throw. */
    method LoseClaim(e: Execution)
      requires Valid() && e in calls && Rules.CanLose(e.phase)
      modifies this`outstanding, this`calls, e
      ensures Valid() && View() == Rules.LoseCall(old(View()), e)
    {
      e.phase := Rules.Failed;
      calls := calls[e := e.Call()];
      Release(e);
    }

    /** The synchronous end of `add`: an entry that was waiting hands over its start and its promise. */
    method Register(e: Execution, now: int)
      requires Valid() && e in calls && e.phase == Rules.Claimed
      modifies this`activeExecutions, this`calls, e
      ensures Valid() && View() == Rules.RegisterCall(old(View()), e, now)
    {
      var id := e.executionId;
      var startedAt, promise := now, None;
      if id in activeExecutions {
        startedAt := activeExecutions[id].startedAt;
        promise := activeExecutions[id].responsePromise;
      }
      Fill(e, startedAt, promise);
      activeExecutions := activeExecutions[id := e];
    }

    method Fill(e: Execution, startedAt: int, promise: Option<nat>)
      requires Valid() && e in calls
      modifies this`calls, e
      ensures Valid() && View() == Rules.Put(old(View()), e,
        old(calls[e]).(phase := Rules.Registered, status := Running, startedAt := startedAt, responsePromise := promise))
    {
      e.phase, e.status, e.startedAt, e.responsePromise := Rules.Registered, Running, startedAt, promise;
      calls := calls[e := e.Call()];
    }

    method AttachWorkflowExecution(id: string)
      requires Valid() && id in activeExecutions
      modifies this`calls, activeExecutions[id]
      ensures Valid() && View() == Rules.Next(old(View()), Rules.Attach(id))
    {
      var e := activeExecutions[id];
      e.attached := true;
      calls := calls[e := e.Call()];
    }

    method AttachResponsePromise(id: string, promise: nat)
      requires Valid() && id in activeExecutions
      modifies this`calls, activeExecutions[id]
      ensures Valid() && View() == Rules.Next(old(View()), Rules.AttachPromise(id, promise))
    {
      var e := activeExecutions[id];
      e.responsePromise := Some(promise);
      calls := calls[e := e.Call()];
    }

    method SetStatus(id: string, status: ExecutionStatus)
      requires Valid() && id in activeExecutions
      modifies this`calls, activeExecutions[id]
      ensures Valid() && View() == Rules.Next(old(View()), Rules.SetStatus(id, status))
    {
      var e := activeExecutions[id];
      e.status := status;
      calls := calls[e := e.Call()];
    }

    method SetResponseMode(id: string, mode: string)
      requires Valid()
      modifies this`responseModes
      ensures Valid() && View() == Rules.Next(old(View()), Rules.SetMode(id, mode))
    {
      responseModes := responseModes[id := mode];
    }

    method Remove(id: string)
      requires Valid()
      modifies this`activeExecutions, this`responseModes
      ensures Valid() && View() == Rules.Remove(old(View()), id)
    {
      activeExecutions := activeExecutions - {id};
      responseModes := responseModes - {id};
    }

    method StopExecution(id: string)
      requires Valid()
      modifies this, if id in activeExecutions then {activeExecutions[id]} else {}
      ensures Valid() && View() == Rules.StopEntry(old(View()), id)
    {
      if id !in activeExecutions {
        return;
      }
      var e := activeExecutions[id];
      if e.status == Waiting {
        Remove(id);
      } else {
        e.settled := true;
        calls := calls[e := e.Call()];
      }
    }

    method FinalizeExecution(id: string)
      requires Valid()
      modifies this`calls, if id in activeExecutions then {activeExecutions[id]} else {}
      ensures Valid() && View() == Rules.FinalizeEntry(old(View()), id)
    {
      if id in activeExecutions {
        var e := activeExecutions[id];
        e.settled := true;
        calls := calls[e := e.Call()];
      }
    }

    /** The handler that runs once the post-execute promise has settled. */
    method OnSettled(e: Execution)
      requires Valid() && e in calls && e.phase == Rules.Registered && e.settled && !e.handled
      modifies this, e
      ensures Valid() && View() == Rules.HandleCall(old(View()), e)
    {
      ReleaseSettled(e);
      if e.status == Waiting {
        DropEngine(e);
      } else {
        Remove(e.executionId);
      }
    }

    method ReleaseSettled(e: Execution)
      requires Valid() && e in calls
      modifies this`outstanding, this`calls, e`handled, e`holdsCapacity
      ensures Valid() && View() == Rules.Release(Rules.Put(old(View()), e, old(calls[e]).(handled := true)), e)
    {
      e.handled := true;
      calls := calls[e := e.Call()];
      Release(e);
    }

    /** A waiting entry keeps no reference to its engine instance: the resuming run brings its own. */
    method DropEngine(e: Execution)
      requires Valid() && e in calls
      modifies this`calls, e`attached
      ensures Valid() && View() == Rules.Put(old(View()), e, old(calls[e]).(attached := false))
    {
      e.attached := false;
      calls := calls[e := e.Call()];
    }
  }
}
