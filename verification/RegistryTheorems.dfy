/** Capacity conservation and continuity over whole runs of one process. */
module RegistryTheorems {
  import opened Wrappers
  import opened ExecutionData
  import opened RegistryRules

  /**
    A call owes its capacity back from the moment it has reserved until it fails or its settle
    handler has run.  Evaluation runs are throttled elsewhere and never reserve.
   */
  predicate Owes(c: Call) {
    !c.evaluation && (c.phase == Reserved || c.phase == Claimed || (c.phase == Registered && !c.handled))
  }

  ghost function Debtors<H>(p: Process<H>): set<H> {
    set h | h in p.calls && Owes(p.calls[h])
  }

  ghost predicate Conserved<H>(p: Process<H>) {
    && p.outstanding == |Debtors(p)|
    && (forall h :: h in p.calls ==> p.calls[h].holdsCapacity == Owes(p.calls[h]))
    && (forall h :: h in p.calls && p.calls[h].handled ==> p.calls[h].phase == Registered)
  }

  function Debt<H>(p: Process<H>, h: H): int {
    if h in p.calls && Owes(p.calls[h]) then 1 else 0
  }

  /** Changing one call keeps conservation when the counter follows that call's debt. */
  lemma PutConserves<H>(p: Process<H>, h: H, c: Call, q: Process<H>)
    requires Conserved(p) && q.calls == p.calls[h := c]
    requires c.holdsCapacity == Owes(c) && (c.handled ==> c.phase == Registered)
    requires q.outstanding == p.outstanding - Debt(p, h) + Debt(q, h)
    ensures Conserved(q)
  {
    var before, after := Debtors(p), Debtors(q);
    if Owes(c) {
      assert after == before + {h};
    } else {
      assert after == before - {h};
    }
  }

  lemma StepConserves<H>(p: Process<H>, step: Step<H>)
    requires WellFormed(p) && Conserved(p) && Enabled(p, step)
    ensures Conserved(Next(p, step))
  {
    if step.Stop? || step.Finalize? {
      SettleConserves(p, step.executionId, Next(p, step));
    } else if step.SetMode? {
      assert Debtors(Next(p, step)) == Debtors(p);
    } else if step.Attach? || step.AttachPromise? || step.SetStatus? {
      EntryStepConserves(p, step);
    } else {
      CallStepConserves(p, step);
    }
  }

  lemma EntryStepConserves<H>(p: Process<H>, step: Step<H>)
    requires WellFormed(p) && Conserved(p) && Enabled(p, step)
    requires step.Attach? || step.AttachPromise? || step.SetStatus?
    ensures Conserved(Next(p, step))
  {
    var h := p.active[step.executionId];
    PutConserves(p, h, Next(p, step).calls[h], Next(p, step));
  }

  lemma CallStepConserves<H>(p: Process<H>, step: Step<H>)
    requires WellFormed(p) && Conserved(p) && Enabled(p, step)
    requires step.Start? || step.Reserve? || step.Win? || step.Lose? || step.Register? || step.Handle?
    ensures Conserved(Next(p, step))
  {
    var h, next := step.h, Next(p, step);
    OneCallChanges(p, step);
    PutConserves(p, h, next.calls[h], next);
  }

  lemma OneCallChanges<H>(p: Process<H>, step: Step<H>)
    requires WellFormed(p) && Enabled(p, step)
    requires step.Start? || step.Reserve? || step.Win? || step.Lose? || step.Register? || step.Handle?
    ensures step.h in Next(p, step).calls
    ensures Next(p, step).calls == p.calls[step.h := Next(p, step).calls[step.h]]
  {
  }

  /** Settling a promise or dropping an entry changes no debt. */
  lemma SettleConserves<H>(p: Process<H>, id: string, q: Process<H>)
    requires WellFormed(p) && Conserved(p) && q.outstanding == p.outstanding
    requires q.calls == p.calls || (id in p.active && q.calls == p.calls[p.active[id] := p.calls[p.active[id]].(settled := true)])
    ensures Conserved(q)
  {
    if q.calls == p.calls {
      assert Debtors(q) == Debtors(p);
    } else {
      PutConserves(p, p.active[id], q.calls[p.active[id]], q);
    }
  }

  /**
    Capacity conservation: under every order of starts, lost and won claims, cancellations,
    finalisations, status changes and settle handlers, the capacity in use is the number of
    calls that owe theirs.
   */
  lemma {:induction false} RunConserves<H>(p: Process<H>, steps: seq<Step<H>>)
    requires Empty(p) && WellFormed(p) && RunSteps(p, steps).Some?
    ensures Conserved(RunSteps(p, steps).value)
    decreases |steps|
  {
    if steps == [] {
      assert Debtors(p) == {};
    } else {
      RunConserves(p, steps[..|steps| - 1]);
      StepConserves(RunSteps(p, steps[..|steps| - 1]).value, steps[|steps| - 1]);
    }
  }

  /**
    Each reservation is given back exactly once: only losing or the settle handler ends a
    call's debt, and a call that has left its start without debt never owes again.
   */
  lemma DebtEndsOnce<H>(p: Process<H>, step: Step<H>, h: H)
    requires WellFormed(p) && Conserved(p) && Enabled(p, step) && h in p.calls
    ensures h in Next(p, step).calls
    ensures Owes(p.calls[h]) ==> (!Owes(Next(p, step).calls[h]) <==> step == Lose(h) || step == Handle(h))
    ensures !Owes(p.calls[h]) && p.calls[h].phase != Starting ==> !Owes(Next(p, step).calls[h])
  {
    if step.Start? || step.Reserve? || step.Win? || step.Lose? || step.Register? || step.Handle? {
      OneCallChanges(p, step);
      if step.h == h {
        DebtOfCall(p, step);
      }
    }
  }

  lemma DebtOfCall<H>(p: Process<H>, step: Step<H>)
    requires WellFormed(p) && Enabled(p, step)
    requires step.Reserve? || step.Win? || step.Lose? || step.Register? || step.Handle?
    ensures Owes(Next(p, step).calls[step.h])
        <==> !p.calls[step.h].evaluation && !step.Lose? && !step.Handle? && !(step.Register? && p.calls[step.h].handled)
  {
  }

  /** An `add` that loses its claim leaves the registry and the capacity as they were. */
  lemma LosingAddLeavesNoTrace<H>(p: Process<H>, h: H)
    requires WellFormed(p) && Conserved(p) && Enabled(p, Reserve(h))
    ensures var lost := Next(Next(p, Reserve(h)), Lose(h));
            lost == p.(calls := lost.calls) && lost.calls == p.calls[h := p.calls[h].(phase := Failed)]
  {
  }

  /** A registered call whose promise is unsettled and to which no entry leads any more. */
  ghost predicate Orphaned<H>(p: Process<H>, h: H) {
    && h in p.calls && p.calls[h].phase == Registered && !p.calls[h].settled && !p.calls[h].handled
    && forall id :: id in p.active ==> p.active[id] != h
  }

  /** What every run keeps: an entry stands under its call's own id, and handlers run after settling. */
  ghost predicate Indexed<H>(p: Process<H>) {
    && WellFormed(p)
    && (forall id :: id in p.active ==> p.calls[p.active[id]].executionId == id && p.calls[p.active[id]].phase == Registered)
    && (forall h :: h in p.calls && p.calls[h].handled ==> p.calls[h].settled)
  }

  lemma StepKeepsIndexed<H>(p: Process<H>, step: Step<H>)
    requires Indexed(p) && Enabled(p, step)
    ensures Indexed(Next(p, step))
  {
    if step.Start? || step.Reserve? || step.Win? || step.Lose? {
      OpeningStepKeepsIndexed(p, step);
    } else if step.Register? {
      RegisterKeepsIndexed(p, step.h, step.now);
    } else if step.Handle? {
      HandleKeepsIndexed(p, step.h);
    }
  }

  lemma OpeningStepKeepsIndexed<H>(p: Process<H>, step: Step<H>)
    requires Indexed(p) && Enabled(p, step) && (step.Start? || step.Reserve? || step.Win? || step.Lose?)
    ensures Indexed(Next(p, step))
  {
    OneCallChanges(p, step);
  }

  lemma RegisterKeepsIndexed<H>(p: Process<H>, h: H, now: int)
    requires Indexed(p) && Enabled(p, Register(h, now))
    ensures Indexed(Next(p, Register(h, now)))
  {
    var next := Next(p, Register(h, now));
    assert next.active == p.active[p.calls[h].executionId := h] && next.calls == p.calls[h := next.calls[h]];
  }

  lemma HandleKeepsIndexed<H>(p: Process<H>, h: H)
    requires Indexed(p) && Enabled(p, Handle(h))
    ensures Indexed(Next(p, Handle(h)))
  {
    OneCallChanges(p, Handle(h));
  }

  lemma {:induction false} RunKeepsIndexed<H>(p: Process<H>, steps: seq<Step<H>>)
    requires Indexed(p) && RunSteps(p, steps).Some?
    ensures Indexed(RunSteps(p, steps).value)
    decreases |steps|
  {
    if steps != [] {
      RunKeepsIndexed(p, steps[..|steps| - 1]);
      StepKeepsIndexed(RunSteps(p, steps[..|steps| - 1]).value, steps[|steps| - 1]);
    }
  }

  /** The call is registered, its promise unsettled, and its entry the way to settle it. */
  ghost predicate Linked<H>(p: Process<H>, h: H) {
    && h in p.calls && p.calls[h].phase == Registered && !p.calls[h].settled
    && p.calls[h].executionId in p.active && p.active[p.calls[h].executionId] == h
  }

  /** The three ways to lose an unsettled call's entry: a stop while it waits, a new call, an older handler. */
  ghost predicate CutsOff<H>(p: Process<H>, step: Step<H>, h: H) {
    && Linked(p, h)
    && var id := p.calls[h].executionId;
       match step
       case Stop(other) => other == id && p.calls[h].status == Waiting
       case Register(g, _) => g in p.calls && p.calls[g].executionId == id
       case Handle(g) => g in p.calls && p.calls[g].executionId == id && p.calls[g].status != Waiting
       case _ => false
  }

  lemma StepKeepsOrphan<H>(p: Process<H>, step: Step<H>, h: H)
    requires WellFormed(p) && Enabled(p, step) && Orphaned(p, h)
    ensures Orphaned(Next(p, step), h)
  {
    if step.Start? || step.Reserve? || step.Win? || step.Lose? || step.Register? || step.Handle? {
      OneCallChanges(p, step);
    }
  }

  /** Exactly which steps orphan a call, and no step ever takes an orphan back. */
  lemma OrphanedIffCutOff<H>(p: Process<H>, step: Step<H>, h: H)
    requires Indexed(p) && Enabled(p, step)
    ensures Orphaned(Next(p, step), h) <==> Orphaned(p, h) || CutsOff(p, step, h)
  {
    if Orphaned(p, h) {
      StepKeepsOrphan(p, step, h);
    } else if Linked(p, h) {
      OrphanedOnlyByCutOff(p, step, h);
    } else {
      assert h in p.calls ==> p.calls[h].phase != Registered || p.calls[h].settled;
      NothingElseIsOrphaned(p, step, h);
    }
  }

  lemma OrphanedOnlyByCutOff<H>(p: Process<H>, step: Step<H>, h: H)
    requires Indexed(p) && Enabled(p, step) && Linked(p, h)
    ensures Orphaned(Next(p, step), h) <==> CutsOff(p, step, h)
  {
    var next, id := Next(p, step), p.calls[h].executionId;
    if !CutsOff(p, step, h) {
      assert id in next.active && next.active[id] == h;
    }
  }

  lemma NothingElseIsOrphaned<H>(p: Process<H>, step: Step<H>, h: H)
    requires Indexed(p) && Enabled(p, step)
    requires h in p.calls ==> p.calls[h].phase != Registered || p.calls[h].settled
    ensures !Orphaned(Next(p, step), h)
  {
    if step.Register? && step.h == h {
      assert Next(p, step).active[p.calls[h].executionId] == h;
    }
  }

  /** No later step gives an orphaned call's capacity back. */
  lemma {:induction false} OrphanOwesForever<H>(p: Process<H>, steps: seq<Step<H>>, h: H)
    requires WellFormed(p) && Orphaned(p, h) && !p.calls[h].evaluation && RunSteps(p, steps).Some?
    ensures var end := RunSteps(p, steps).value; Orphaned(end, h) && Owes(end.calls[h])
    decreases |steps|
  {
    if steps != [] {
      var before := RunSteps(p, steps[..|steps| - 1]).value;
      OrphanOwesForever(p, steps[..|steps| - 1], h);
      StepKeepsOrphan(before, steps[|steps| - 1], h);
      OrphanKeepsMode(before, steps[|steps| - 1], h);
    }
  }

  lemma OrphanKeepsMode<H>(p: Process<H>, step: Step<H>, h: H)
    requires WellFormed(p) && Enabled(p, step) && Orphaned(p, h)
    ensures h in Next(p, step).calls && Next(p, step).calls[h].evaluation == p.calls[h].evaluation
  {
    if step.Start? || step.Reserve? || step.Win? || step.Lose? || step.Register? || step.Handle? {
      OneCallChanges(p, step);
    }
  }

  /** The run gives the call's capacity back. */
  ghost predicate Releases<H>(p: Process<H>, steps: seq<Step<H>>, h: H)
    requires WellFormed(p)
  {
    RunSteps(p, steps).Some? && h in RunSteps(p, steps).value.calls && !Owes(RunSteps(p, steps).value.calls[h])
  }

  /** A registered call can still give its capacity back iff it is not an orphan. */
  lemma ReleasableIffNotOrphaned<H>(p: Process<H>, h: H)
    requires Indexed(p) && h in p.calls && p.calls[h].phase == Registered && Owes(p.calls[h])
    ensures (exists steps :: Releases(p, steps, h)) <==> !Orphaned(p, h)
  {
    if Orphaned(p, h) {
      forall steps | RunSteps(p, steps).Some? ensures !Releases(p, steps, h) {
        OrphanOwesForever(p, steps, h);
      }
    } else {
      var steps := SettleAndHandle(p, h);
    }
  }

  lemma SettleAndHandle<H>(p: Process<H>, h: H) returns (steps: seq<Step<H>>)
    requires Indexed(p) && h in p.calls && p.calls[h].phase == Registered && Owes(p.calls[h]) && !Orphaned(p, h)
    ensures Releases(p, steps, h)
  {
    steps := [];
    if p.calls[h].settled {
      HandleReleases(p, h);
    } else {
      var id := p.calls[h].executionId;
      FinalizeSettles(p, h);
      HandleReleases(Next(p, Finalize(id)), h);
      steps := OneMore(p, steps, Finalize(id));
    }
    steps := OneMore(p, steps, Handle(h));
  }

  lemma FinalizeSettles<H>(p: Process<H>, h: H)
    requires Indexed(p) && h in p.calls && p.calls[h].phase == Registered && !p.calls[h].handled
    requires !p.calls[h].settled && !Orphaned(p, h)
    ensures Enabled(Next(p, Finalize(p.calls[h].executionId)), Handle(h))
  {
    assert Linked(p, h);
  }

  lemma HandleReleases<H>(p: Process<H>, h: H)
    requires WellFormed(p) && Enabled(p, Handle(h))
    ensures h in Next(p, Handle(h)).calls && !Owes(Next(p, Handle(h)).calls[h])
  {
  }

  lemma OneMore<H>(p: Process<H>, steps: seq<Step<H>>, step: Step<H>) returns (more: seq<Step<H>>)
    requires WellFormed(p) && RunSteps(p, steps).Some? && Enabled(RunSteps(p, steps).value, step)
    ensures more == steps + [step] && RunSteps(p, more) == Some(Next(RunSteps(p, steps).value, step))
  {
    more := steps + [step];
    assert more[..|steps|] == steps;
  }

  /** Some step of the run cut the call off. */
  ghost predicate WasCutOff<H>(p: Process<H>, steps: seq<Step<H>>, h: H)
    requires WellFormed(p)
    decreases |steps|
  {
    && steps != [] && RunSteps(p, steps).Some?
    && var init := steps[..|steps| - 1];
       WasCutOff(p, init, h) || CutsOff(RunSteps(p, init).value, steps[|steps| - 1], h)
  }

  lemma {:induction false} OrphanedIffWasCutOff<H>(p: Process<H>, steps: seq<Step<H>>, h: H)
    requires Empty(p) && WellFormed(p) && RunSteps(p, steps).Some?
    ensures Orphaned(RunSteps(p, steps).value, h) <==> WasCutOff(p, steps, h)
    decreases |steps|
  {
    if steps != [] {
      var init := steps[..|steps| - 1];
      OrphanedIffWasCutOff(p, init, h);
      RunKeepsIndexed(p, init);
      OrphanedIffCutOff(RunSteps(p, init).value, steps[|steps| - 1], h);
    }
  }

  /**
    When capacity is lost, over all runs: a registered call that owes its capacity can never
    give it back iff earlier in the run its entry was taken away before its promise settled.
   */
  lemma CapacityIsLostIffCutOff<H>(p: Process<H>, steps: seq<Step<H>>, h: H)
    requires Empty(p) && WellFormed(p) && RunSteps(p, steps).Some?
    requires var end := RunSteps(p, steps).value; h in end.calls && end.calls[h].phase == Registered && Owes(end.calls[h])
    ensures (exists more :: Releases(RunSteps(p, steps).value, more, h)) <==> !WasCutOff(p, steps, h)
  {
    OrphanedIffWasCutOff(p, steps, h);
    RunKeepsIndexed(p, steps);
    ReleasableIffNotOrphaned(RunSteps(p, steps).value, h);
  }

  lemma RegisterFirstCall(p: Process<nat>, h: nat, id: string, now: int) returns (steps: seq<Step<nat>>)
    requires Empty(p) && WellFormed(p)
    ensures RunSteps(p, steps).Some?
    ensures var end := RunSteps(p, steps).value;
            && end.active == map[id := h] && end.calls.Keys == {h}
            && end.calls[h] == Call(id, false, Registered, true, Running, now, None, false, false, false)
  {
    steps := ClaimFirstCall(p, h, id);
    steps := OneMore(p, steps, Register(h, now));
  }

  lemma ClaimFirstCall(p: Process<nat>, h: nat, id: string) returns (steps: seq<Step<nat>>)
    requires Empty(p) && WellFormed(p)
    ensures RunSteps(p, steps).Some?
    ensures RunSteps(p, steps).value.active == map[]
    ensures RunSteps(p, steps).value.calls == map[h := NewCall(id, false).(phase := Claimed, holdsCapacity := true)]
  {
    var c := NewCall(id, false);
    steps := OneMore(p, [], Start(h, id, false));
    assert RunSteps(p, steps).value == p.(calls := map[h := c]);
    steps := OneMore(p, steps, Reserve(h));
    assert RunSteps(p, steps).value.calls == map[h := c.(phase := Reserved, holdsCapacity := true)];
    steps := OneMore(p, steps, Win(h));
  }

  /** It happens: stopping an execution after its status became `waiting` but before its promise settled. */
  lemma EarlyStopOrphansCall(p: Process<nat>, h: nat, id: string, now: int) returns (steps: seq<Step<nat>>)
    requires Empty(p) && WellFormed(p)
    ensures RunSteps(p, steps).Some? && WasCutOff(p, steps, h)
    ensures var end := RunSteps(p, steps).value; Orphaned(end, h) && Owes(end.calls[h]) && end.outstanding == 1
  {
    steps := RegisterFirstCall(p, h, id, now);
    steps := OneMore(p, steps, SetStatus(id, Waiting));
    steps := OneMore(p, steps, Stop(id));
    OrphanedIffWasCutOff(p, steps, h);
    RunConserves(p, steps);
    assert Debtors(RunSteps(p, steps).value) == {h};
  }

  /**
    It happens too: a second call on the id registers after the first one's promise has settled
    but before its handler has run, and the handler removes the second one's entry.
   */
  lemma LateHandlerOrphansCall(p: Process<nat>, h: nat, g: nat, id: string, now: int) returns (steps: seq<Step<nat>>)
    requires Empty(p) && WellFormed(p) && g != h
    ensures RunSteps(p, steps).Some? && WasCutOff(p, steps, g)
    ensures var end := RunSteps(p, steps).value; Orphaned(end, g) && Owes(end.calls[g])
  {
    steps := SecondCallRegisters(p, h, g, id, now);
    steps := OneMore(p, steps, Handle(h));
    OrphanedIffWasCutOff(p, steps, g);
  }

  lemma SecondCallRegisters(p: Process<nat>, h: nat, g: nat, id: string, now: int) returns (steps: seq<Step<nat>>)
    requires Empty(p) && WellFormed(p) && g != h
    ensures RunSteps(p, steps).Some?
    ensures var end := RunSteps(p, steps).value;
            && end.active == map[id := g] && end.calls.Keys == {g, h} && Enabled(end, Handle(h))
            && end.calls[h].executionId == id && end.calls[h].status == Running
            && Linked(end, g) && Owes(end.calls[g])
  {
    steps := SecondCallStarts(p, h, g, id, now);
    steps := OneMore(p, steps, Win(g));
    steps := OneMore(p, steps, Register(g, now));
  }

  lemma SecondCallStarts(p: Process<nat>, h: nat, g: nat, id: string, now: int) returns (steps: seq<Step<nat>>)
    requires Empty(p) && WellFormed(p) && g != h
    ensures RunSteps(p, steps).Some?
    ensures var mid := RunSteps(p, steps).value;
            && mid.active == map[id := h] && mid.calls.Keys == {g, h} && Enabled(mid, Handle(h))
            && mid.calls[h].executionId == id && mid.calls[h].status == Running
            && mid.calls[g] == NewCall(id, false).(phase := Reserved, holdsCapacity := true)
  {
    steps := RegisterFirstCall(p, h, id, now);
    steps := OneMore(p, steps, Finalize(id));
    steps := OneMore(p, steps, Start(g, id, false));
    steps := OneMore(p, steps, Reserve(g));
  }

  /**
    What stopping does, on the registry: a waiting entry goes at once with its response mode,
    whether or not its promise has settled; any other entry stays and has its promise settled.
   */
  lemma StopMeaning<H>(p: Process<H>, id: string)
    requires WellFormed(p)
    ensures var next := Next(p, Stop(id));
            && next.outstanding == p.outstanding
            && (forall other :: other != id ==> (other in next.active <==> other in p.active)
                                                && (other in next.responseModes <==> other in p.responseModes))
            && (forall other :: other in next.active ==> other in p.active && next.active[other] == p.active[other])
            && (forall other :: other in next.responseModes ==>
                  other in p.responseModes && next.responseModes[other] == p.responseModes[other])
            && (id !in p.active ==> next == p)
            && (id in p.active && p.calls[p.active[id]].status == Waiting ==>
                  id !in next.active && id !in next.responseModes && next.calls == p.calls)
            && (id in p.active && p.calls[p.active[id]].status != Waiting ==>
                  && next.active == p.active && next.responseModes == p.responseModes
                  && next.calls == p.calls[p.active[id] := p.calls[p.active[id]].(settled := true)])
  {
  }

  /** The steps of one process in which settling and the settle handler are not torn apart. */
  datatype Smooth<H> =
    | Enter(h: H, executionId: string, evaluation: bool, now: int)
    | Response(executionId: string, promise: nat)
    | Engine(executionId: string)
    | Mode(executionId: string, mode: string)
    | Report(executionId: string, status: ExecutionStatus)
    | Park(executionId: string)
    | Finish(executionId: string)
    | Cancel(executionId: string)

  /** Every entry belongs to a registered call of that id, and is settled exactly while it waits. */
  ghost predicate Calm<H>(p: Process<H>) {
    && WellFormed(p)
    && forall id :: id in p.active ==>
         var c := p.calls[p.active[id]];
         && c.executionId == id && c.phase == Registered
         && (c.settled <==> c.status == Waiting) && (c.handled <==> c.settled)
  }

  ghost predicate CanDo<H>(p: Process<H>, step: Smooth<H>) {
    match step
    case Enter(h, _, _, _) => h !in p.calls
    case Response(id, _) => id in p.active
    case Engine(id) => id in p.active
    case Mode(_, _) => true
    case Report(id, status) =>
      status != Waiting && id in p.active && p.active[id] in p.calls && p.calls[p.active[id]].status != Waiting
    case Park(id) => id in p.active && p.active[id] in p.calls && p.calls[p.active[id]].status != Waiting
    case Finish(id) => id in p.active && p.active[id] in p.calls && p.calls[p.active[id]].status != Waiting
    case Cancel(_) => true
  }

  ghost function Do<H>(p: Process<H>, step: Smooth<H>): Process<H>
    requires Calm(p) && CanDo(p, step)
  {
    match step
    case Enter(h, id, evaluation, now) =>
      Next(Next(Next(Next(p, Start(h, id, evaluation)), Reserve(h)), Win(h)), Register(h, now))
    case Response(id, promise) => Next(p, AttachPromise(id, promise))
    case Engine(id) => Next(p, Attach(id))
    case Mode(id, mode) => Next(p, SetMode(id, mode))
    case Report(id, status) => Next(p, SetStatus(id, status))
    case Park(id) => Next(Next(Next(p, SetStatus(id, Waiting)), Finalize(id)), Handle(p.active[id]))
    case Finish(id) => Next(Next(p, Finalize(id)), Handle(p.active[id]))
    case Cancel(id) =>
      if id in p.active && p.calls[p.active[id]].status != Waiting then Next(Next(p, Stop(id)), Handle(p.active[id]))
      else Next(p, Stop(id))
  }

  /** Two execution ids never share a call. */
  lemma EntriesAreDistinct<H>(p: Process<H>, a: string, b: string)
    requires Calm(p) && a in p.active && b in p.active && p.active[a] == p.active[b]
    ensures a == b
  {
  }

  /** What a smooth step does to the entry of one execution, as long as that entry stays. */
  ghost predicate Continues<H>(p: Process<H>, q: Process<H>, step: Smooth<H>)
    requires WellFormed(p) && WellFormed(q)
  {
    forall id :: id in p.active && id in q.active ==>
      var before, after := p.calls[p.active[id]], q.calls[q.active[id]];
      && after.startedAt == before.startedAt
      && after.responsePromise == if step.Response? && step.executionId == id then Some(step.promise) else before.responsePromise
  }

  lemma EnterKeepsCalm<H>(p: Process<H>, h: H, id: string, evaluation: bool, now: int)
    requires Calm(p) && h !in p.calls
    ensures Calm(Do(p, Enter(h, id, evaluation, now)))
    ensures Continues(p, Do(p, Enter(h, id, evaluation, now)), Enter(h, id, evaluation, now))
  {
    EnterChangesOneCall(p, h, id, evaluation, now);
  }

  lemma EnterChangesOneCall<H>(p: Process<H>, h: H, id: string, evaluation: bool, now: int)
    requires Calm(p) && h !in p.calls
    ensures var end := Do(p, Enter(h, id, evaluation, now)); var resuming := Resuming(p, id);
            && end.active == p.active[id := h]
            && end.calls == p.calls[h := NewCall(id, evaluation).(
                 phase := Registered, status := Running, holdsCapacity := !evaluation,
                 startedAt := if resuming.Some? then resuming.value.startedAt else now,
                 responsePromise := if resuming.Some? then resuming.value.responsePromise else None)]
  {
    var won := Next(Next(Next(p, Start(h, id, evaluation)), Reserve(h)), Win(h));
    assert won.active == p.active;
    assert won.calls == p.calls[h := NewCall(id, evaluation).(phase := Claimed, holdsCapacity := !evaluation)];
  }

  lemma ParkChangesOneCall<H>(p: Process<H>, id: string)
    requires Calm(p) && CanDo(p, Park(id))
    ensures var h, end := p.active[id], Do(p, Park(id)); var c := p.calls[h];
            && end.active == p.active && end.responseModes == p.responseModes
            && end.calls == p.calls[h := c.(status := Waiting, settled := true, handled := true,
                                            holdsCapacity := false, attached := false)]
  {
    SettleWaiting(p, id);
    HandleWaiting(Next(Next(p, SetStatus(id, Waiting)), Finalize(id)), p.active[id]);
  }

  lemma SettleWaiting<H>(p: Process<H>, id: string)
    requires WellFormed(p) && id in p.active
    ensures var h, end := p.active[id], Next(Next(p, SetStatus(id, Waiting)), Finalize(id));
            && end.active == p.active && end.responseModes == p.responseModes
            && end.calls == p.calls[h := p.calls[h].(status := Waiting, settled := true)]
  {
  }

  lemma HandleWaiting<H>(p: Process<H>, h: H)
    requires h in p.calls && p.calls[h].status == Waiting
    ensures var end := HandleCall(p, h);
            && end.active == p.active && end.responseModes == p.responseModes
            && end.calls == p.calls[h := p.calls[h].(handled := true, holdsCapacity := false, attached := false)]
  {
  }

  lemma ParkKeepsCalm<H>(p: Process<H>, id: string)
    requires Calm(p) && CanDo(p, Park(id))
    ensures Calm(Do(p, Park(id))) && Continues(p, Do(p, Park(id)), Park(id))
  {
    var h := p.active[id];
    ParkChangesOneCall(p, id);
    forall other | other in p.active && p.active[other] == h ensures other == id {
      EntriesAreDistinct(p, other, id);
    }
  }

  lemma FinishKeepsCalm<H>(p: Process<H>, id: string)
    requires Calm(p) && CanDo(p, Finish(id))
    ensures Calm(Do(p, Finish(id))) && Continues(p, Do(p, Finish(id)), Finish(id))
  {
    var h := p.active[id];
    var end := Do(p, Finish(id));
    assert end.active == p.active - {id} && end.calls == p.calls[h := end.calls[h]];
    forall other | other in p.active && p.active[other] == h ensures other == id {
      EntriesAreDistinct(p, other, id);
    }
  }

  lemma CancelKeepsCalm<H>(p: Process<H>, id: string)
    requires Calm(p)
    ensures Calm(Do(p, Cancel(id))) && Continues(p, Do(p, Cancel(id)), Cancel(id))
  {
    if id in p.active && p.calls[p.active[id]].status != Waiting {
      assert Next(p, Stop(id)) == Next(p, Finalize(id));
      FinishKeepsCalm(p, id);
    }
  }

  lemma EntryUpdateKeepsCalm<H>(p: Process<H>, step: Smooth<H>)
    requires Calm(p) && CanDo(p, step) && (step.Response? || step.Engine? || step.Mode? || step.Report?)
    ensures Calm(Do(p, step)) && Continues(p, Do(p, step), step)
  {
    if !step.Mode? {
      var id := step.executionId;
      forall other | other in p.active && p.active[other] == p.active[id] ensures other == id {
        EntriesAreDistinct(p, other, id);
      }
    }
  }

  lemma DoKeepsCalm<H>(p: Process<H>, step: Smooth<H>)
    requires Calm(p) && CanDo(p, step)
    ensures Calm(Do(p, step)) && Continues(p, Do(p, step), step)
  {
    match step
    case Enter(h, id, evaluation, now) => EnterKeepsCalm(p, h, id, evaluation, now);
    case Park(id) => ParkKeepsCalm(p, id);
    case Finish(id) => FinishKeepsCalm(p, id);
    case Cancel(id) => CancelKeepsCalm(p, id);
    case Response(_, _) => EntryUpdateKeepsCalm(p, step);
    case Engine(_) => EntryUpdateKeepsCalm(p, step);
    case Mode(_, _) => EntryUpdateKeepsCalm(p, step);
    case Report(_, _) => EntryUpdateKeepsCalm(p, step);
  }

  ghost function DoAll<H>(p: Process<H>, steps: seq<Smooth<H>>): (r: Option<Process<H>>)
    requires Calm(p)
    ensures r.Some? ==> Calm(r.value)
    decreases |steps|
  {
    if steps == [] then Some(p)
    else
      var before := DoAll(p, steps[..|steps| - 1]);
      var step := steps[|steps| - 1];
      if before.Some? && CanDo(before.value, step) then
        DoKeepsCalm(before.value, step);
        Some(Do(before.value, step))
      else None
  }

  /** The entry of `id` is there before and after every step of the run. */
  ghost predicate Stays<H>(p: Process<H>, steps: seq<Smooth<H>>, id: string)
    requires Calm(p)
    decreases |steps|
  {
    && DoAll(p, steps).Some? && id in DoAll(p, steps).value.active
    && (steps != [] ==> Stays(p, steps[..|steps| - 1], id))
  }

  /** The response promise attached last for `id` in the run. */
  function LastResponse<H>(steps: seq<Smooth<H>>, id: string, initial: Option<nat>): Option<nat>
    decreases |steps|
  {
    if steps == [] then initial
    else
      var step := steps[|steps| - 1];
      if step.Response? && step.executionId == id then Some(step.promise)
      else LastResponse(steps[..|steps| - 1], id, initial)
  }

  /**
    Park and resume continuity: over any number of parks and resumes, mixed with anything that
    happens to other executions, an entry keeps the time it first started at and the response
    promise attached last; and it is settled exactly while it waits.
   */
  lemma {:induction false} EntrySurvivesParking<H>(p: Process<H>, steps: seq<Smooth<H>>, id: string)
    requires Calm(p) && Stays(p, steps, id)
    ensures id in p.active
    ensures var end := DoAll(p, steps).value; var first, last := p.calls[p.active[id]], end.calls[end.active[id]];
            && last.startedAt == first.startedAt
            && last.responsePromise == LastResponse(steps, id, first.responsePromise)
            && (last.settled <==> last.status == Waiting)
    decreases |steps|
  {
    if steps != [] {
      EntrySurvivesParking(p, steps[..|steps| - 1], id);
      DoKeepsCalm(DoAll(p, steps[..|steps| - 1]).value, steps[|steps| - 1]);
    }
  }

  /** What an outsider sees of one execution in the registry. */
  datatype Entry = Entry(startedAt: int, responsePromise: Option<nat>, attached: bool, status: ExecutionStatus)

  datatype Sight = Sight(entry: Option<Entry>, mode: Option<string>)

  ghost function See<H>(p: Process<H>, id: string): Sight
    requires WellFormed(p)
  {
    Sight(if id in p.active then
            var c := p.calls[p.active[id]];
            Some(Entry(c.startedAt, c.responsePromise, c.attached, c.status))
          else None,
          if id in p.responseModes then Some(p.responseModes[id]) else None)
  }

  /** The life of one execution, by itself and without handles, promises or handlers. */
  function Follow<H>(s: Sight, step: Smooth<H>, id: string): Sight {
    match step
    case Enter(_, other, _, now) =>
      if other != id then s
      else if s.entry.Some? then s.(entry := Some(s.entry.value.(attached := false, status := Running)))
      else s.(entry := Some(Entry(now, None, false, Running)))
    case Response(other, promise) =>
      if other == id && s.entry.Some? then s.(entry := Some(s.entry.value.(responsePromise := Some(promise)))) else s
    case Engine(other) =>
      if other == id && s.entry.Some? then s.(entry := Some(s.entry.value.(attached := true))) else s
    case Mode(other, mode) => if other == id then s.(mode := Some(mode)) else s
    case Report(other, status) =>
      if other == id && s.entry.Some? then s.(entry := Some(s.entry.value.(status := status))) else s
    case Park(other) =>
      if other == id && s.entry.Some? then s.(entry := Some(s.entry.value.(attached := false, status := Waiting))) else s
    case Finish(other) => if other == id && s.entry.Some? then Sight(None, None) else s
    case Cancel(other) => if other == id && s.entry.Some? then Sight(None, None) else s
  }

  function FollowAll<H>(s: Sight, steps: seq<Smooth<H>>, id: string): Sight
    decreases |steps|
  {
    if steps == [] then s else Follow(FollowAll(s, steps[..|steps| - 1], id), steps[|steps| - 1], id)
  }

  lemma EnterFollows<H>(p: Process<H>, h: H, id: string, evaluation: bool, now: int, seen: string)
    requires Calm(p) && h !in p.calls && Calm(Do(p, Enter(h, id, evaluation, now)))
    ensures See(Do(p, Enter(h, id, evaluation, now)), seen) == Follow(See(p, seen), Enter(h, id, evaluation, now), seen)
  {
    EnterChangesOneCall(p, h, id, evaluation, now);
  }

  lemma ParkFollows<H>(p: Process<H>, id: string, seen: string)
    requires Calm(p) && CanDo(p, Park(id)) && Calm(Do(p, Park(id)))
    ensures See(Do(p, Park(id)), seen) == Follow<H>(See(p, seen), Park(id), seen)
  {
    ParkChangesOneCall(p, id);
    if seen in p.active && p.active[seen] == p.active[id] {
      EntriesAreDistinct(p, seen, id);
    }
  }

  lemma FinishFollows<H>(p: Process<H>, id: string, seen: string)
    requires Calm(p) && CanDo(p, Finish(id)) && Calm(Do(p, Finish(id)))
    ensures See(Do(p, Finish(id)), seen) == Follow<H>(See(p, seen), Finish(id), seen)
  {
    var h, end := p.active[id], Do(p, Finish(id));
    assert end.active == p.active - {id} && end.responseModes == p.responseModes - {id};
    assert end.calls == p.calls[h := end.calls[h]];
    if seen in p.active && p.active[seen] == h {
      EntriesAreDistinct(p, seen, id);
    }
  }

  lemma DoFollows<H>(p: Process<H>, step: Smooth<H>, seen: string)
    requires Calm(p) && CanDo(p, step) && Calm(Do(p, step))
    ensures See(Do(p, step), seen) == Follow(See(p, seen), step, seen)
  {
    match step
    case Enter(h, id, evaluation, now) => EnterFollows(p, h, id, evaluation, now, seen);
    case Park(id) => ParkFollows(p, id, seen);
    case Finish(id) => FinishFollows(p, id, seen);
    case Cancel(id) =>
      if id in p.active && p.calls[p.active[id]].status != Waiting {
        assert Next(p, Stop(id)) == Next(p, Finalize(id));
        FinishFollows(p, id, seen);
      }
    case Response(id, _) => EntryUpdateFollows(p, step, seen);
    case Engine(id) => EntryUpdateFollows(p, step, seen);
    case Report(_, _) => EntryUpdateFollows(p, step, seen);
    case Mode(_, _) =>
  }

  lemma EntryUpdateFollows<H>(p: Process<H>, step: Smooth<H>, seen: string)
    requires Calm(p) && CanDo(p, step) && (step.Response? || step.Engine? || step.Report?) && Calm(Do(p, step))
    ensures See(Do(p, step), seen) == Follow(See(p, seen), step, seen)
  {
    if seen in p.active && p.active[seen] == p.active[step.executionId] {
      EntriesAreDistinct(p, seen, step.executionId);
    }
  }

  /**
    Every execution leads a life of its own in the registry: over any run, what is seen of one
    follows from what happened to it alone, however many others come, park, finish and go.
   */
  lemma {:induction false} RegistryFollowsEachExecution<H>(p: Process<H>, steps: seq<Smooth<H>>, id: string)
    requires Calm(p) && DoAll(p, steps).Some?
    ensures See(DoAll(p, steps).value, id) == FollowAll(See(p, id), steps, id)
    decreases |steps|
  {
    if steps != [] {
      var before := DoAll(p, steps[..|steps| - 1]).value;
      RegistryFollowsEachExecution(p, steps[..|steps| - 1], id);
      DoKeepsCalm(before, steps[|steps| - 1]);
      DoFollows(before, steps[|steps| - 1], id);
    }
  }

  /** An execution entered last, and neither finished nor cancelled since. */
  ghost predicate StaysEntered<H>(steps: seq<Smooth<H>>, id: string, initially: bool)
    decreases |steps|
  {
    if steps == [] then initially
    else
      var step := steps[|steps| - 1];
      if step.Enter? && step.executionId == id then true
      else if (step.Finish? || step.Cancel?) && step.executionId == id then false
      else StaysEntered(steps[..|steps| - 1], id, initially)
  }

  /** The registry holds exactly the executions that were entered and neither finished nor cancelled since. */
  lemma {:induction false} RegisteredIffEntered<H>(p: Process<H>, steps: seq<Smooth<H>>, id: string)
    requires Calm(p) && DoAll(p, steps).Some?
    ensures id in DoAll(p, steps).value.active <==> StaysEntered(steps, id, id in p.active)
    decreases |steps|
  {
    if steps != [] {
      var before := DoAll(p, steps[..|steps| - 1]).value;
      RegisteredIffEntered(p, steps[..|steps| - 1], id);
      DoKeepsCalm(before, steps[|steps| - 1]);
      DoFollows(before, steps[|steps| - 1], id);
    }
  }
}
