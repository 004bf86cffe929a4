/**
  One parent execution and any number of deliveries to it, interleaved between every database
  access: the read and the unconditional write of the patch, and the read and the
  compare-and-swap of the claim.  Each copy of the parent data carries the history that
  explains it, so that runs can be judged.
 */
module WaitOwnership {
  import opened Wrappers
  import opened ExecutionData
  import opened ParentPatch

  /** A copy of the parent data: the wait it was parked for, and the children patched into it since. */
  datatype Copy = Copy(data: RunData, wait: nat, applied: seq<Child>)

  /** Where a delivery stands; the first read has already accepted the child. */
  datatype Phase =
    | ReadParent(child: Child, copy: Copy)
    | WrotePatch(child: Child)
    | ReadForClaim(child: Child, copy: Copy)

  /** A claim that went through: the wait the row was in, and the data the parent resumes on. */
  datatype Resume = Resume(child: Child, wait: int, copy: Copy)

  /** `parks` lists the data of every wait so far; the last one is the current wait. */
  datatype System = System(status: ExecutionStatus, stored: Copy, parks: seq<RunData>,
                           inFlight: map<nat, Phase>, resumes: seq<Resume>)

  /**
    One database access, or one other event.  A patch or a claim that is tried again starts from
    a new read of the parent: `Repeat` before the patch has been reported back, `Reread` after.
   */
  datatype Step =
    | Park(data: RunData)
    | Begin(id: nat, child: Child)
    | Write(id: nat)
    | Repeat(id: nat)
    | Reread(id: nat)
    | CompareAndSwap(id: nat)
    | Abandon(id: nat)
    | ResumeOtherwise
    | Stop

  /** The acceptance test on the row as it stands. */
  predicate AcceptsNow(s: System, child: Child) {
    AcceptsData(s.status, s.stored.data, child)
  }

  predicate Enabled(s: System, step: Step) {
    match step
    case Park(data) => s.status == Running && HasHead(data)
    case Begin(id, child) => id !in s.inFlight && AcceptsNow(s, child)
    case Write(id) => id in s.inFlight && s.inFlight[id].ReadParent? && HasHead(s.inFlight[id].copy.data)
    case Repeat(id) => id in s.inFlight && !s.inFlight[id].ReadForClaim? && AcceptsNow(s, s.inFlight[id].child)
    case Reread(id) => id in s.inFlight && !s.inFlight[id].ReadParent?
    case CompareAndSwap(id) => id in s.inFlight && s.inFlight[id].ReadForClaim?
    case Abandon(id) => id in s.inFlight
    case ResumeOtherwise => s.status == Waiting
    case Stop => true
  }

  function Next(s: System, step: Step): System
    requires Enabled(s, step)
  {
    match step
    case Park(data) => s.(status := Waiting, stored := Copy(data, |s.parks|, []), parks := s.parks + [data])
    case Begin(id, child) => s.(inFlight := s.inFlight[id := ReadParent(child, s.stored)])
    case Write(id) =>
      var child, copy := s.inFlight[id].child, s.inFlight[id].copy;
      s.(stored := Copy(PatchData(copy.data, child), copy.wait, copy.applied + [child]),
         inFlight := s.inFlight[id := WrotePatch(child)])
    case Repeat(id) => s.(inFlight := s.inFlight[id := ReadParent(s.inFlight[id].child, s.stored)])
    case Reread(id) => s.(inFlight := s.inFlight[id := ReadForClaim(s.inFlight[id].child, s.stored)])
    case CompareAndSwap(id) =>
      var phase := s.inFlight[id];
      var left := s.(inFlight := s.inFlight - {id});
      if s.status != Waiting then left
      else left.(status := Running, stored := phase.copy,
                 resumes := s.resumes + [Resume(phase.child, |s.parks| - 1, phase.copy)])
    case Abandon(id) => s.(inFlight := s.inFlight - {id})
    case ResumeOtherwise => s.(status := Running)
    case Stop => s.(status := Canceled)
  }

  /** Before the first wait: running, nothing parked yet. */
  predicate Initial(s: System) {
    s.status == Running && s.parks == [] && s.inFlight == map[] && s.resumes == []
  }

  /** The state after a run, or nothing when some step of it is not enabled. */
  function RunSteps(s: System, steps: seq<Step>): Option<System>
    decreases |steps|
  {
    if steps == [] then Some(s)
    else
      var before := RunSteps(s, steps[..|steps| - 1]);
      var step := steps[|steps| - 1];
      if before.Some? && Enabled(before.value, step) then Some(Next(before.value, step)) else None
  }

  /**
    The copy is what some wait was parked with, patched by children that this very wait owns
    and by nothing else.
   */
  ghost predicate Explained(c: Copy, parks: seq<RunData>) {
    && c.wait < |parks| && HasHead(parks[c.wait])
    && c.data == PatchAll(parks[c.wait], c.applied)
    && forall i :: 0 <= i < |c.applied| ==>
         Usable(c.applied[i].run) && Owns(Head(parks[c.wait]), c.applied[i].ref)
  }

  ghost predicate PhaseExplained(p: Phase, parks: seq<RunData>) {
    p.WrotePatch? || (Explained(p.copy, parks)
                      && (p.ReadParent? ==> Usable(p.child.run) && Owns(Head(parks[p.copy.wait]), p.child.ref)))
  }

  /** Holds under every interleaving. */
  ghost predicate Consistent(s: System) {
    && (s.parks == [] ==> s.status != Waiting && s.inFlight == map[])
    && (s.parks != [] ==> Explained(s.stored, s.parks))
    && (forall id :: id in s.inFlight ==> PhaseExplained(s.inFlight[id], s.parks))
    && (forall i :: 0 <= i < |s.resumes| ==> Explained(s.resumes[i].copy, s.parks) && 0 <= s.resumes[i].wait < |s.parks|)
  }

  /** At most one claim per wait: the current wait has none while the row is `waiting`. */
  ghost predicate Exclusive(s: System) {
    && (forall i, j :: 0 <= i < j < |s.resumes| ==> s.resumes[i].wait < s.resumes[j].wait)
    && (forall i :: 0 <= i < |s.resumes| ==> s.resumes[i].wait < |s.parks|)
    && (s.status == Waiting ==> forall i :: 0 <= i < |s.resumes| ==> s.resumes[i].wait < |s.parks| - 1)
  }

  lemma PatchExplained(c: Copy, parks: seq<RunData>, child: Child)
    requires Explained(c, parks) && Usable(child.run) && Owns(Head(parks[c.wait]), child.ref)
    ensures HasHead(c.data)
    ensures Explained(Copy(PatchData(c.data, child), c.wait, c.applied + [child]), parks)
  {
    PatchOneMore(parks[c.wait], c.applied, child);
  }

  lemma ExplainedLater(c: Copy, parks: seq<RunData>, data: RunData)
    requires Explained(c, parks)
    ensures Explained(c, parks + [data])
  {
  }

  lemma AcceptedIsOwned(s: System, child: Child)
    requires Consistent(s) && s.parks != [] && AcceptsNow(s, child)
    ensures Owns(Head(s.parks[s.stored.wait]), child.ref)
  {
    PatchesKeepFrame(s.parks[s.stored.wait], s.stored.applied);
  }

  lemma ParkKeepsConsistent(s: System, data: RunData)
    requires Consistent(s) && Enabled(s, Park(data))
    ensures Consistent(Next(s, Park(data)))
  {
    forall id | id in s.inFlight ensures PhaseExplained(s.inFlight[id], s.parks + [data]) {
      if !s.inFlight[id].WrotePatch? {
        ExplainedLater(s.inFlight[id].copy, s.parks, data);
      }
    }
    forall i | 0 <= i < |s.resumes| ensures Explained(s.resumes[i].copy, s.parks + [data]) {
      ExplainedLater(s.resumes[i].copy, s.parks, data);
    }
  }

  lemma StepKeepsConsistent(s: System, step: Step)
    requires Consistent(s) && Enabled(s, step)
    ensures Consistent(Next(s, step))
  {
    match step
    case Park(data) => ParkKeepsConsistent(s, data);
    case Begin(id, child) => AcceptedIsOwned(s, child);
    case Write(id) => PatchExplained(s.inFlight[id].copy, s.parks, s.inFlight[id].child);
    case Repeat(id) => AcceptedIsOwned(s, s.inFlight[id].child);
    case Reread(id) =>
    case CompareAndSwap(id) =>
    case Abandon(id) =>
    case ResumeOtherwise =>
    case Stop =>
  }

  lemma StepKeepsExclusive(s: System, step: Step)
    requires Exclusive(s) && Enabled(s, step)
    requires s.parks == [] ==> s.status != Waiting
    ensures Exclusive(Next(s, step))
  {
  }

  /**
    Every interleaving of any number of deliveries, parks, stops and other resumes: a parent
    never resumes on a mixture of waits, and each wait is claimed at most once.
   */
  lemma {:induction false} EveryRunIsExclusive(s: System, steps: seq<Step>)
    requires Initial(s) && RunSteps(s, steps).Some?
    ensures Consistent(RunSteps(s, steps).value) && Exclusive(RunSteps(s, steps).value)
    decreases |steps|
  {
    if steps != [] {
      var init := steps[..|steps| - 1];
      EveryRunIsExclusive(s, init);
      StepKeepsConsistent(RunSteps(s, init).value, steps[|steps| - 1]);
      StepKeepsExclusive(RunSteps(s, init).value, steps[|steps| - 1]);
    }
  }

  /** The parent parks again only when no delivery to it is in flight. */
  predicate Quiet(s: System, step: Step) {
    step.Park? ==> s.inFlight == map[]
  }

  ghost predicate QuietRun(s: System, steps: seq<Step>)
    decreases |steps|
  {
    steps != [] ==>
      var init := steps[..|steps| - 1];
      QuietRun(s, init) && (RunSteps(s, init).Some? ==> Quiet(RunSteps(s, init).value, steps[|steps| - 1]))
  }

  /** The copy belongs to the current wait and holds some child's result. */
  ghost predicate Answered(s: System, c: Copy) {
    c.wait == |s.parks| - 1 && c.applied != []
  }

  /** The parent resumes on the wait it is in, with some result of that wait's children. */
  ghost predicate OwnResume(r: Resume) {
    r.copy.wait == r.wait && r.copy.applied != []
  }

  ghost predicate ResumesOwnWaits(s: System) {
    forall i :: 0 <= i < |s.resumes| ==> OwnResume(s.resumes[i])
  }

  /** Every delivery in flight belongs to the current wait. */
  ghost predicate InCurrentWait(s: System) {
    && (s.status == Waiting ==> s.parks != [] && s.stored.wait == |s.parks| - 1)
    && (forall id :: id in s.inFlight ==>
          var p := s.inFlight[id];
          && (p.ReadParent? ==> p.copy.wait == |s.parks| - 1)
          && (!p.ReadParent? ==> Answered(s, s.stored))
          && (p.ReadForClaim? ==> Answered(s, p.copy)))
    && ResumesOwnWaits(s)
  }

  lemma StepKeepsInCurrentWait(s: System, step: Step)
    requires InCurrentWait(s) && Enabled(s, step) && Quiet(s, step)
    ensures InCurrentWait(Next(s, step))
  {
  }

  lemma {:induction false} QuietRunStaysInCurrentWait(s: System, steps: seq<Step>)
    requires InCurrentWait(s) && RunSteps(s, steps).Some? && QuietRun(s, steps)
    ensures InCurrentWait(RunSteps(s, steps).value)
    decreases |steps|
  {
    if steps != [] {
      var init := steps[..|steps| - 1];
      QuietRunStaysInCurrentWait(s, init);
      StepKeepsInCurrentWait(RunSteps(s, init).value, steps[|steps| - 1]);
    }
  }

  /**
    Wait ownership over whole runs.  As long as the parent parks only with no delivery in
    flight, and however siblings overlap, repeat their accesses or are overtaken by other
    resumes within one wait: every child-driven resume is on the data of the current wait,
    patched by at least one child and only by children which that wait's tag names.
   */
  lemma QuietRunsOwnTheirWaits(s: System, steps: seq<Step>)
    requires Initial(s) && RunSteps(s, steps).Some? && QuietRun(s, steps)
    ensures var end := RunSteps(s, steps).value;
            && InCurrentWait(end) && Consistent(end)
            && forall i :: 0 <= i < |end.resumes| ==>
                 var r := end.resumes[i]; var tag := Head(end.parks[r.wait]).metadata.waitingChildIds;
                 && OwnResume(r)
                 && r.copy.data == PatchAll(end.parks[r.wait], r.copy.applied)
                 && forall j :: 0 <= j < |r.copy.applied| && r.copy.applied[j].ref.Some? && tag != [] ==>
                      r.copy.applied[j].ref.value.executionId in tag
  {
    EveryRunIsExclusive(s, steps);
    QuietRunStaysInCurrentWait(s, steps);
  }

  /** However the run goes on, as long as it parks quietly, every resume is on its own wait. */
  ghost predicate StaysOwned(s: System) {
    forall steps :: RunSteps(s, steps).Some? && QuietRun(s, steps) ==> ResumesOwnWaits(RunSteps(s, steps).value)
  }

  /**
    The exact condition.  After any run that parked quietly so far, parking again is safe,
    whatever follows, iff no delivery is in flight.
   */
  lemma ParkIsSafeIffNothingInFlight(s: System, steps: seq<Step>, next: RunData)
    requires Initial(s) && RunSteps(s, steps).Some? && QuietRun(s, steps)
    requires Enabled(RunSteps(s, steps).value, Park(next))
    ensures var mid := RunSteps(s, steps).value; StaysOwned(Next(mid, Park(next))) <==> mid.inFlight == map[]
  {
    var mid := RunSteps(s, steps).value;
    var parked := Next(mid, Park(next));
    QuietRunsOwnTheirWaits(s, steps);
    if mid.inFlight == map[] {
      StepKeepsInCurrentWait(mid, Park(next));
      forall more | RunSteps(parked, more).Some? && QuietRun(parked, more)
        ensures ResumesOwnWaits(RunSteps(parked, more).value)
      {
        QuietRunStaysInCurrentWait(parked, more);
      }
    } else {
      var id :| id in mid.inFlight;
      var more := LeftOverDeliveryResumes(mid, next, id);
    }
  }

  /**
    A delivery left over from before a park, wherever it stands, can resume the new wait on
    data that is not that wait's or holds no result of its children.
   */
  lemma LeftOverDeliveryResumes(s: System, next: RunData, id: nat) returns (steps: seq<Step>)
    requires Consistent(s) && Enabled(s, Park(next)) && id in s.inFlight
    ensures var parked := Next(s, Park(next));
            && QuietRun(parked, steps) && RunSteps(parked, steps).Some?
            && var end := RunSteps(parked, steps).value;
               |end.resumes| == |s.resumes| + 1 && !OwnResume(end.resumes[|s.resumes|])
  {
    var parked := Next(s, Park(next));
    steps := [];
    if s.inFlight[id].ReadParent? {
      CopyHasHead(s, id);
      steps := QuietlyOneMore(parked, steps, Write(id));
    }
    if !s.inFlight[id].ReadForClaim? {
      steps := QuietlyOneMore(parked, steps, Reread(id));
    }
    steps := QuietlyOneMore(parked, steps, CompareAndSwap(id));
  }

  lemma CopyHasHead(s: System, id: nat)
    requires Consistent(s) && id in s.inFlight && s.inFlight[id].ReadParent?
    ensures HasHead(s.inFlight[id].copy.data)
  {
    assert PhaseExplained(s.inFlight[id], s.parks);
    var copy := s.inFlight[id].copy;
    PatchesKeepFrame(s.parks[copy.wait], copy.applied);
  }

  lemma QuietlyOneMore(s: System, steps: seq<Step>, step: Step) returns (more: seq<Step>)
    requires RunSteps(s, steps).Some? && Enabled(RunSteps(s, steps).value, step)
    requires QuietRun(s, steps) && Quiet(RunSteps(s, steps).value, step)
    ensures QuietRun(s, more) && RunSteps(s, more) == Some(Next(RunSteps(s, steps).value, step))
  {
    more := OneMore(s, steps, step);
    assert more[..|steps|] == steps;
  }

  /** Every usable child that the current wait owns would be accepted. */
  ghost predicate Welcomes(s: System) {
    s.status == Waiting ==>
      && s.parks != [] && HasHead(s.parks[|s.parks| - 1])
      && forall child: Child :: Usable(child.run) && Owns(Head(s.parks[|s.parks| - 1]), child.ref) ==> AcceptsNow(s, child)
  }

  /** The data's tag is as wide as this head's: it has none, or names all the children that this one names. */
  predicate Covers(data: RunData, head: StackEntry) {
    && HasHead(data)
    && var wide, tag := Head(data).metadata.waitingChildIds, head.metadata.waitingChildIds;
       wide == [] || (tag != [] && forall c :: c in tag ==> c in wide)
  }

  lemma OutsideNarrowerTag(data: RunData, head: StackEntry) returns (ref: Option<RelatedExecution>)
    requires HasHead(data) && !Covers(data, head)
    ensures Owns(head, ref) && !Owns(Head(data), ref)
  {
    var wide, tag := Head(data).metadata.waitingChildIds, head.metadata.waitingChildIds;
    if tag == [] {
      var name := LongerThanAll(wide);
      ref := Some(RelatedExecution(name, ""));
    } else {
      var c :| c in tag && c !in wide;
      ref := Some(RelatedExecution(c, ""));
    }
  }

  lemma {:induction false} LongerThanAll(names: seq<string>) returns (name: string)
    ensures forall c :: c in names ==> |c| < |name|
    decreases |names|
  {
    if names == [] {
      name := "";
    } else {
      name := LongerThanAll(names[1..]);
      if |name| <= |names[0]| {
        name := names[0] + "x";
      }
      assert forall c :: c in names ==> c == names[0] || c in names[1..];
    }
  }

  /** Nothing that is stored, or may still be written, turns a child of the current wait away. */
  ghost predicate CoversCurrentWait(s: System) {
    s.parks != [] ==>
      && HasHead(s.parks[|s.parks| - 1])
      && var head := Head(s.parks[|s.parks| - 1]);
         && (s.status == Waiting ==> Covers(s.stored.data, head))
         && (forall id :: id in s.inFlight && s.inFlight[id].ReadParent? ==> Covers(s.inFlight[id].copy.data, head))
  }

  lemma PatchKeepsCover(data: RunData, child: Child, head: StackEntry)
    requires Covers(data, head)
    ensures Covers(PatchData(data, child), head)
  {
    PatchKeepsFrame(data, child);
  }

  lemma StepKeepsCover(s: System, step: Step)
    requires CoversCurrentWait(s) && (s.parks == [] ==> s.status != Waiting && s.inFlight == map[])
    requires Enabled(s, step) && Quiet(s, step)
    ensures CoversCurrentWait(Next(s, step))
  {
    if step.Write? && s.parks != [] {
      PatchKeepsCover(s.inFlight[step.id].copy.data, s.inFlight[step.id].child, Head(s.parks[|s.parks| - 1]));
    }
  }

  lemma {:induction false} QuietRunKeepsCover(s: System, steps: seq<Step>)
    requires Consistent(s) && CoversCurrentWait(s) && RunSteps(s, steps).Some? && QuietRun(s, steps)
    ensures Consistent(RunSteps(s, steps).value) && CoversCurrentWait(RunSteps(s, steps).value)
    decreases |steps|
  {
    if steps != [] {
      var init := steps[..|steps| - 1];
      QuietRunKeepsCover(s, init);
      StepKeepsConsistent(RunSteps(s, init).value, steps[|steps| - 1]);
      StepKeepsCover(RunSteps(s, init).value, steps[|steps| - 1]);
    }
  }

  ghost predicate StaysWelcoming(s: System) {
    forall steps :: RunSteps(s, steps).Some? && QuietRun(s, steps) ==> Welcomes(RunSteps(s, steps).value)
  }

  /** Every delivery that has read the parent and not yet written read a tag as wide as that of `next`. */
  predicate NoNarrowerWrite(s: System, next: RunData)
    requires HasHead(next)
  {
    forall id :: id in s.inFlight && s.inFlight[id].ReadParent? ==> Covers(s.inFlight[id].copy.data, Head(next))
  }

  /**
    No child is turned away.  After any run that parked quietly so far, parking again keeps
    every later wait open to all its own children, whatever follows, iff no delivery still to be
    written read a narrower tag than the new one.
   */
  lemma ParkStaysWelcomingIff(s: System, steps: seq<Step>, next: RunData)
    requires Initial(s) && RunSteps(s, steps).Some? && QuietRun(s, steps)
    requires Enabled(RunSteps(s, steps).value, Park(next))
    ensures var mid := RunSteps(s, steps).value; StaysWelcoming(Next(mid, Park(next))) <==> NoNarrowerWrite(mid, next)
  {
    var mid := RunSteps(s, steps).value;
    var parked := Next(mid, Park(next));
    QuietRunKeepsCover(s, steps);
    if NoNarrowerWrite(mid, next) {
      StepKeepsConsistent(mid, Park(next));
      forall more | RunSteps(parked, more).Some? && QuietRun(parked, more) ensures Welcomes(RunSteps(parked, more).value) {
        QuietRunKeepsCover(parked, more);
      }
    } else {
      var id :| id in mid.inFlight && mid.inFlight[id].ReadParent? && !Covers(mid.inFlight[id].copy.data, Head(next));
      var more := LateWriteTurnsChildAway(mid, next, id);
    }
  }

  /** The late write brings back the narrower tag, and a child that the new wait owns is refused. */
  lemma LateWriteTurnsChildAway(s: System, next: RunData, id: nat) returns (steps: seq<Step>)
    requires Consistent(s) && Enabled(s, Park(next)) && id in s.inFlight && s.inFlight[id].ReadParent?
    requires !Covers(s.inFlight[id].copy.data, Head(next))
    ensures var parked := Next(s, Park(next));
            QuietRun(parked, steps) && RunSteps(parked, steps).Some? && !Welcomes(RunSteps(parked, steps).value)
  {
    CopyHasHead(s, id);
    var parked := Next(s, Park(next));
    steps := QuietlyOneMore(parked, [], Write(id));
    var p := s.inFlight[id];
    var ref := OutsideNarrowerTag(p.copy.data, Head(next));
    PatchKeepsFrame(p.copy.data, p.child);
    assert PhaseExplained(p, s.parks);
    assert !AcceptsNow(RunSteps(parked, steps).value, Child(p.child.run, ref));
  }

  /** At the end of every quiet run, a waiting parent accepts every usable child that its wait owns. */
  lemma QuietRunsWelcomeTheirChildren(s: System, steps: seq<Step>)
    requires Initial(s) && RunSteps(s, steps).Some? && QuietRun(s, steps)
    ensures Welcomes(RunSteps(s, steps).value)
  {
    QuietRunKeepsCover(s, steps);
  }

  /**
    Wherever other deliveries stand, an accepted child whose own delivery runs through resumes
    the parent with its result.
   */
  lemma AcceptedChildResumes(s: System, child: Child, id: nat) returns (steps: seq<Step>)
    requires AcceptsNow(s, child) && id !in s.inFlight
    ensures RunSteps(s, steps).Some?
    ensures var end := RunSteps(s, steps).value;
            && end.status == Running && |end.resumes| == |s.resumes| + 1
            && var r := end.resumes[|s.resumes|];
               && r.child == child && r.wait == |s.parks| - 1 && end.stored == r.copy
               && r.copy == Copy(PatchData(s.stored.data, child), s.stored.wait, s.stored.applied + [child])
  {
    steps := OneMore(s, [], Begin(id, child));
    steps := OneMore(s, steps, Write(id));
    steps := OneMore(s, steps, Reread(id));
    steps := OneMore(s, steps, CompareAndSwap(id));
  }

  /** One delivery at a time, and nothing else resumes the parent meanwhile. */
  predicate Serial(s: System, step: Step) {
    step.Begin? || step.ResumeOtherwise? ==> s.inFlight == map[]
  }

  ghost predicate SerialRun(s: System, steps: seq<Step>)
    decreases |steps|
  {
    steps != [] ==>
      var init := steps[..|steps| - 1];
      SerialRun(s, init) && (RunSteps(s, init).Some? ==> Serial(RunSteps(s, init).value, steps[|steps| - 1]))
  }

  /** The copy belongs to the current wait and already holds this child's result. */
  ghost predicate Current(s: System, c: Copy, child: Child) {
    c.wait == |s.parks| - 1 && c.applied != [] && c.applied[|c.applied| - 1] == child
  }

  ghost predicate Owned(s: System) {
    && (forall a, b :: a in s.inFlight && b in s.inFlight ==> a == b)
    && (s.inFlight != map[] ==> s.status != Running)
    && (s.status == Waiting ==> s.parks != [] && s.stored.wait == |s.parks| - 1)
    && (s.status == Waiting ==> forall id :: id in s.inFlight ==>
          var p := s.inFlight[id];
          && (p.ReadParent? ==> p.copy.wait == |s.parks| - 1)
          && (!p.ReadParent? ==> Current(s, s.stored, p.child))
          && (p.ReadForClaim? ==> Current(s, p.copy, p.child)))
    && (forall i :: 0 <= i < |s.resumes| ==> ProperResume(s.resumes[i]))
  }

  /** The parent resumes on its current wait, and the claiming child's result is the latest in it. */
  ghost predicate ProperResume(r: Resume) {
    r.copy.wait == r.wait && r.copy.applied != [] && r.copy.applied[|r.copy.applied| - 1] == r.child
  }

  lemma StepKeepsOwned(s: System, step: Step)
    requires Owned(s) && Enabled(s, step) && Serial(s, step)
    ensures Owned(Next(s, step))
  {
  }

  /**
    When deliveries are serialised, moreover, the claiming child's result is the latest one in
    the data that the parent resumes on.
   */
  lemma {:induction false} SerialRunsOwnTheirWaits(s: System, steps: seq<Step>)
    requires Initial(s) && RunSteps(s, steps).Some? && SerialRun(s, steps)
    ensures var end := RunSteps(s, steps).value;
            && Owned(end) && Consistent(end)
            && forall i :: 0 <= i < |end.resumes| ==>
                 var r := end.resumes[i]; var tag := Head(end.parks[r.wait]).metadata.waitingChildIds;
                 && ProperResume(r)
                 && r.copy.data == PatchAll(end.parks[r.wait], r.copy.applied)
                 && forall j :: 0 <= j < |r.copy.applied| && r.copy.applied[j].ref.Some? && tag != [] ==>
                      r.copy.applied[j].ref.value.executionId in tag
    decreases |steps|
  {
    EveryRunIsExclusive(s, steps);
    SerialRunIsOwned(s, steps);
  }

  lemma {:induction false} SerialRunIsOwned(s: System, steps: seq<Step>)
    requires Initial(s) && RunSteps(s, steps).Some? && SerialRun(s, steps)
    ensures Owned(RunSteps(s, steps).value)
    decreases |steps|
  {
    if steps != [] {
      var init := steps[..|steps| - 1];
      SerialRunIsOwned(s, init);
      StepKeepsOwned(RunSteps(s, init).value, steps[|steps| - 1]);
    }
  }

  /** Serialised deliveries park quietly: the theorems about quiet runs apply to them. */
  lemma {:induction false} SerialRunIsQuiet(s: System, steps: seq<Step>)
    requires Initial(s) && RunSteps(s, steps).Some? && SerialRun(s, steps)
    ensures QuietRun(s, steps)
    decreases |steps|
  {
    if steps != [] {
      SerialRunIsQuiet(s, steps[..|steps| - 1]);
      SerialRunIsOwned(s, steps[..|steps| - 1]);
    }
  }

  lemma OneMore(s: System, steps: seq<Step>, step: Step) returns (more: seq<Step>)
    requires RunSteps(s, steps).Some? && Enabled(RunSteps(s, steps).value, step)
    ensures more == steps + [step]
    ensures RunSteps(s, more) == Some(Next(RunSteps(s, steps).value, step))
  {
    more := steps + [step];
    assert more[..|steps|] == steps;
  }

  /** A claim that goes through writes back the copy it has read, whatever is stored by then. */
  lemma ClaimWritesItsCopy(s: System, id: nat)
    requires Enabled(s, CompareAndSwap(id)) && s.status == Waiting
    ensures var next := Next(s, CompareAndSwap(id));
            && next.status == Running && next.stored == s.inFlight[id].copy && next.parks == s.parks
            && next.inFlight == s.inFlight - {id}
            && next.resumes == s.resumes + [Resume(s.inFlight[id].child, |s.parks| - 1, s.inFlight[id].copy)]
  {
  }

  /** Two deliveries of the first wait have both been accepted and written. */
  lemma TwoDeliveriesWrite(s: System, first: RunData, a: Child, b: Child) returns (steps: seq<Step>)
    requires Initial(s) && HasHead(first)
    requires Usable(a.run) && Usable(b.run) && Owns(Head(first), a.ref) && Owns(Head(first), b.ref)
    ensures RunSteps(s, steps).Some?
    ensures var mid := RunSteps(s, steps).value;
            && mid.status == Waiting && |mid.parks| == 1 && mid.resumes == []
            && mid.inFlight == map[0 := WrotePatch(a), 1 := WrotePatch(b)]
  {
    steps := OneMore(s, [], Park(first));
    steps := OneMore(s, steps, Begin(0, a));
    steps := OneMore(s, steps, Begin(1, b));
    steps := OneMore(s, steps, Write(0));
    steps := OneMore(s, steps, Write(1));
  }

  /** The first half of an overlap: both deliveries have patched the first wait, one has claimed it. */
  lemma TwoDeliveriesOneClaim(s: System, first: RunData, a: Child, b: Child) returns (steps: seq<Step>)
    requires Initial(s) && HasHead(first)
    requires Usable(a.run) && Usable(b.run) && Owns(Head(first), a.ref) && Owns(Head(first), b.ref)
    ensures RunSteps(s, steps).Some?
    ensures var mid := RunSteps(s, steps).value;
            && mid.status == Running && |mid.parks| == 1 && |mid.resumes| == 1
            && mid.inFlight == map[1 := WrotePatch(b)]
  {
    steps := TwoDeliveriesWrite(s, first, a, b);
    steps := OneMore(s, steps, Reread(0));
    steps := OneMore(s, steps, CompareAndSwap(0));
  }

  /**
    A whole run in which it goes wrong: with any two children of one wait and any next wait, a
    park between two overlapping deliveries lets the slower one resume the next wait although
    none of that wait's children has finished.
   */
  lemma OverlappingDeliveriesBreakOwnership(s: System, first: RunData, second: RunData, a: Child, b: Child)
    returns (steps: seq<Step>)
    requires Initial(s) && HasHead(first) && HasHead(second)
    requires Usable(a.run) && Usable(b.run) && Owns(Head(first), a.ref) && Owns(Head(first), b.ref)
    ensures RunSteps(s, steps).Some?
    ensures var end := RunSteps(s, steps).value;
            |end.resumes| == 2 && end.resumes[1].wait == 1 && end.resumes[1].copy == Copy(second, 1, [])
  {
    steps := TwoDeliveriesOneClaim(s, first, a, b);
    steps := OneMore(s, steps, Park(second));
    steps := OneMore(s, steps, Reread(1));
    steps := OneMore(s, steps, CompareAndSwap(1));
  }
}
