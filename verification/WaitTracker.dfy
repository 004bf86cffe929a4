/**
  Resuming a parked parent: a child's own delivery (patch, then claim) and the leader's sweep
  that catches the children which finished before their parent parked.
 */
module WaitTracker {
  import opened Wrappers
  import opened ExecutionData
  import opened ParentPatch

  /** Where a delivery breaks down for good: nowhere, before the patch is written, or before the claim. */
  datatype Fault = NoFault | BeforePatch | BeforeClaim

  type Faults = string -> Fault

  const NO_FAULTS: Faults := (_: string) => NoFault

  /** `startExecution` gets through: saved, unfinished and still in `waiting`. */
  predicate Claimable(row: Row) {
    row.status == Waiting && !row.finished && row.workflowId.Some? && row.workflowId.value != ""
  }

  function Claim(row: Row): Row {
    row.(status := Running, waitTill := NoWait)
  }

  /** The parent row after one delivery of a child that has settled. */
  function Delivered(row: Row, child: Child, fault: Fault): Row {
    if child.run.status == Waiting || fault == BeforePatch || LastOutputThrows(child.run) || !AcceptsRow(row, child) then row
    else
      var patched := row.(data := PatchData(row.data, child));
      if fault == BeforeClaim || !Claimable(patched) then patched else Claim(patched)
  }

  function Deliver(rows: Rows, parentId: string, child: Child, fault: Fault): Rows {
    if parentId in rows then rows[parentId := Delivered(rows[parentId], child, fault)] else rows
  }

  predicate Parked(row: Row) {
    row.status == Waiting && row.waitTill == SubExecution
  }

  function WaitingFor(row: Row): seq<string> {
    if HasHead(row.data) then Head(row.data).metadata.waitingChildIds else []
  }

  predicate IsFinishedChild(rows: Rows, childIds: seq<string>, id: string) {
    id in childIds && id in rows && IsTerminal(rows[id].status)
  }

  /** The first terminal child in the order in which the database lists its rows. */
  function FirstTerminal(rows: Rows, scan: seq<string>, childIds: seq<string>): (r: Option<string>)
    ensures r.Some? ==> r.value in scan && IsFinishedChild(rows, childIds, r.value)
    ensures r.None? ==> forall c :: c in scan ==> !IsFinishedChild(rows, childIds, c)
  {
    if scan == [] then None
    else if IsFinishedChild(rows, childIds, scan[0]) then Some(scan[0])
    else FirstTerminal(rows, scan[1..], childIds)
  }

  /** No row that the database lists earlier would have done. */
  lemma {:induction false} FirstTerminalIsFirst(rows: Rows, scan: seq<string>, childIds: seq<string>) returns (i: nat)
    requires FirstTerminal(rows, scan, childIds).Some?
    ensures i < |scan| && scan[i] == FirstTerminal(rows, scan, childIds).value
    ensures scan[i] in childIds && scan[i] in rows
    ensures rows[scan[i]].status in {Success, Error, Crashed, Canceled}
    ensures forall j :: 0 <= j < i && scan[j] in childIds && scan[j] in rows
              ==> rows[scan[j]].status in {New, Running, Waiting, Unknown}
    decreases |scan|
  {
    if IsFinishedChild(rows, childIds, scan[0]) {
      i := 0;
    } else {
      var k := FirstTerminalIsFirst(rows, scan[1..], childIds);
      i := k + 1;
      assert forall j :: 1 <= j < i ==> scan[j] == scan[1..][j - 1];
    }
  }

  function RunOf(row: Row): Run {
    Run(row.data, row.manual, row.status)
  }

  function ChildOf(id: string, row: Row): Child {
    Child(RunOf(row), Some(RelatedExecution(id, if row.workflowId.Some? then row.workflowId.value else "")))
  }

  /** The parent row after `resumeParentIfChildFinished`. */
  function Swept(rows: Rows, scan: seq<string>, parentId: string, fault: Fault): Row
    requires parentId in rows
  {
    var row := rows[parentId];
    if WaitingFor(row) == [] then row
    else
      var finished := FirstTerminal(rows, scan, WaitingFor(row));
      if finished.None? then row
      else Delivered(row, ChildOf(finished.value, rows[finished.value]), fault)
  }

  function SweepOne(rows: Rows, scan: seq<string>, parentId: string, fault: Fault): Rows {
    if parentId in rows then rows[parentId := Swept(rows, scan, parentId, fault)] else rows
  }

  /** The sweep over the listed parents, one after the other; a failing parent does not stop it. */
  function Sweep(rows: Rows, scan: seq<string>, parentIds: seq<string>, faults: Faults): Rows
    decreases |parentIds|
  {
    if parentIds == [] then rows
    else Sweep(SweepOne(rows, scan, parentIds[0], faults(parentIds[0])), scan, parentIds[1..], faults)
  }

  /** The answer of `findParkedOnSubExecution`. */
  ghost predicate ParkedList(rows: Rows, ids: seq<string>) {
    && (forall k :: k in ids <==> k in rows && Parked(rows[k]))
    && (forall i, j :: 0 <= i < j < |ids| ==> ids[i] != ids[j])
  }

  /** The database scan misses no row. */
  ghost predicate ScansAll(rows: Rows, scan: seq<string>) {
    forall k :: k in rows ==> k in scan
  }

  class Tracker {
    const store: ExecutionStore
    var resumingParkedParents: bool

    constructor (store: ExecutionStore)
      ensures this.store == store && !resumingParkedParents
    {
      this.store := store;
      resumingParkedParents := false;
    }

    /** `claimParent`: the compare-and-swap on the row status; a lost or refused claim is only logged. */
    method ClaimParent(parentId: string, fault: Fault)
      modifies store
      ensures store.rows == if fault != BeforeClaim && parentId in old(store.rows) && Claimable(old(store.rows)[parentId])
                            then old(store.rows)[parentId := Claim(old(store.rows)[parentId])] else old(store.rows)
      ensures store.rows.Keys == old(store.rows.Keys)
      ensures forall id :: id in old(store.rows) && id != parentId ==> store.rows[id] == old(store.rows)[id]
      ensures parentId in old(store.rows) ==>
        var before, after := old(store.rows)[parentId], store.rows[parentId];
        var claimed := fault != BeforeClaim && before.status == Waiting && !before.finished
                       && before.workflowId.Some? && before.workflowId.value != "";
        && after.status == (if claimed then Running else before.status)
        && after.waitTill == (if claimed then NoWait else before.waitTill)
        && after.data == before.data && after.finished == before.finished
        && after.workflowId == before.workflowId && after.manual == before.manual
    {
      if fault == BeforeClaim || parentId !in store.rows {
        return;
      }
      var row := store.rows[parentId];
      if row.finished || row.workflowId.None? || row.workflowId.value == "" {
        return;
      }
      if row.status == Waiting {
        store.rows := store.rows[parentId := row.(waitTill := NoWait, status := Running)];
      }
    }

    /** `resumeParentExecution`, once the child's promise has settled. */
    method ResumeParentExecution(parentId: string, results: Option<Run>, ref: Option<RelatedExecution>, fault: Fault)
      modifies store
      ensures store.rows == if results.None? then old(store.rows)
                            else Deliver(old(store.rows), parentId, Child(results.value, ref), fault)
    {
      assert parentId in store.rows ==> store.rows[parentId := store.rows[parentId]] == store.rows;
      if results.None? || results.value.status == Waiting || fault == BeforePatch {
        return;
      }
      var patched := store.UpdateParentExecutionWithChildResults(parentId, Child(results.value, ref));
      if patched == Patched {
        ClaimParent(parentId, fault);
      }
    }

    method ResumeParentIfChildFinished(parentId: string, scan: seq<string>, fault: Fault)
      modifies store
      ensures store.rows == SweepOne(old(store.rows), scan, parentId, fault)
    {
      if parentId !in store.rows {
        return;
      }
      var rows := store.rows;
      var row := rows[parentId];
      assert rows[parentId := row] == rows;
      var childIds := WaitingFor(row);
      if |childIds| == 0 {
        return;
      }
      var finished := FirstTerminal(rows, scan, childIds);
      if finished.None? {
        return;
      }
      var child := ChildOf(finished.value, rows[finished.value]);
      ResumeParentExecution(parentId, Some(child.run), child.ref, fault);
    }

    /**
      The sweep on the leader's tick.  A tick that finds the previous sweep still running does
      nothing, nor does one whose query for parked parents fails.
     */
    method ResumeParentsOfFinishedSubExecutions(parked: Option<seq<string>>, scan: seq<string>, faults: Faults)
      requires parked.Some? ==> ParkedList(store.rows, parked.value)
      modifies this, store
      ensures resumingParkedParents == old(resumingParkedParents)
      ensures store.rows == if old(resumingParkedParents) || parked.None? then old(store.rows)
                            else Sweep(old(store.rows), scan, parked.value, faults)
    {
      if resumingParkedParents {
        return;
      }
      resumingParkedParents := true;
      if parked.None? {
        resumingParkedParents := false;
        return;
      }
      var parentIds := parked.value;
      assert parentIds[0..] == parentIds;
      for i := 0 to |parentIds|
        invariant resumingParkedParents
        invariant Sweep(store.rows, scan, parentIds[i..], faults) == Sweep(old(store.rows), scan, parentIds, faults)
      {
        assert parentIds[i..][0] == parentIds[i] && parentIds[i..][1..] == parentIds[i + 1..];
        ResumeParentIfChildFinished(parentIds[i], scan, faults(parentIds[i]));
      }
      resumingParkedParents := false;
    }
  }

  /** Resuming `p` changes nothing that resuming `k` looks at: `p` is not terminal before or after. */
  lemma SweepsAreIndependent(rows: Rows, scan: seq<string>, p: string, fault: Fault, k: string, other: Fault)
    requires p in rows && Parked(rows[p]) && k in rows && k != p
    ensures var after := SweepOne(rows, scan, p, fault);
            k in after && Swept(after, scan, k, other) == Swept(rows, scan, k, other)
  {
    var after := SweepOne(rows, scan, p, fault);
    assert !IsTerminal(after[p].status);
    SameFirstTerminal(rows, after, scan, WaitingFor(rows[k]));
  }

  lemma {:induction false} SameFirstTerminal(a: Rows, b: Rows, scan: seq<string>, childIds: seq<string>)
    requires a.Keys == b.Keys
    requires forall k :: k in a && (IsTerminal(a[k].status) || IsTerminal(b[k].status)) ==> a[k] == b[k]
    ensures FirstTerminal(a, scan, childIds) == FirstTerminal(b, scan, childIds)
    decreases |scan|
  {
    if scan != [] {
      SameFirstTerminal(a, b, scan[1..], childIds);
    }
  }

  /** A whole sweep acts on every parked row by itself and leaves all other rows alone. */
  lemma {:induction false} SweepIsPointwise(rows: Rows, scan: seq<string>, ids: seq<string>, faults: Faults)
    requires forall i :: 0 <= i < |ids| ==> ids[i] in rows && Parked(rows[ids[i]])
    requires forall i, j :: 0 <= i < j < |ids| ==> ids[i] != ids[j]
    ensures var after := Sweep(rows, scan, ids, faults);
            && after.Keys == rows.Keys
            && forall k :: k in rows ==> after[k] == if k in ids then Swept(rows, scan, k, faults(k)) else rows[k]
    decreases |ids|
  {
    if ids != [] {
      var p, rest := ids[0], ids[1..];
      var next := SweepOne(rows, scan, p, faults(p));
      assert forall i :: 0 <= i < |rest| ==> rest[i] == ids[i + 1];
      SweepIsPointwise(next, scan, rest, faults);
      forall k | k in rest ensures Swept(next, scan, k, faults(k)) == Swept(rows, scan, k, faults(k)) {
        SweepsAreIndependent(rows, scan, p, faults(p), k, faults(k));
      }
      assert forall k :: k in ids <==> k == p || k in rest;
    }
  }

  /** What a sweep needs in order to get a parked parent going again. */
  ghost predicate Resumable(rows: Rows, scan: seq<string>, parentId: string)
    requires parentId in rows
  {
    var finished := FirstTerminal(rows, scan, WaitingFor(rows[parentId]));
    && finished.Some?
    && Usable(RunOf(rows[finished.value])) && !LastOutputThrows(RunOf(rows[finished.value]))
    && Claimable(rows[parentId])
  }

  /** Claimed: running again, no longer waiting for anything, and on the data it had. */
  ghost predicate RunsOn(before: Row, after: Row, data: RunData) {
    && after.status == Running && after.waitTill == NoWait && after.data == data
    && after.finished == before.finished && after.workflowId == before.workflowId && after.manual == before.manual
  }

  /**
    Exactly which parents one failure-free sweep wakes up, and that each of them resumes on its
    data patched by the child found; all the others stay in `waiting`.
   */
  lemma SweepWakesExactlyTheResumable(rows: Rows, scan: seq<string>, ids: seq<string>, parentId: string)
    requires ParkedList(rows, ids) && parentId in ids
    ensures var after := Sweep(rows, scan, ids, NO_FAULTS); var before := rows[parentId];
            && parentId in after
            && if Resumable(rows, scan, parentId) then
                 var c := FirstTerminal(rows, scan, WaitingFor(before)).value; var row := rows[c];
                 var id := if row.workflowId.Some? then row.workflowId.value else "";
                 var child := Child(Run(row.data, row.manual, row.status), Some(RelatedExecution(c, id)));
                 RunsOn(before, after[parentId], PatchData(before.data, child))
               else after[parentId].status == Waiting && after[parentId].waitTill == SubExecution
  {
    SweepIsPointwise(rows, scan, ids, NO_FAULTS);
  }

  /**
    The parent row after a delivery, field by field: nothing happens to it unless the child is
    accepted; an accepted child patches the data, and then resumes a saved, unfinished parent.
   */
  lemma DeliveryMeaning(row: Row, child: Child, fault: Fault)
    ensures var after := Delivered(row, child, fault);
            if child.run.status == Waiting || fault == BeforePatch || LastOutputThrows(child.run) || !AcceptsRow(row, child)
            then after == row
            else if fault == BeforeClaim || row.finished || row.workflowId.None? || row.workflowId.value == ""
            then after == row.(data := PatchData(row.data, child))
            else RunsOn(row, after, PatchData(row.data, child))
  {
  }

  /** All the terminal children that a parent waits for carry an error or an output. */
  ghost predicate ChildrenUsable(rows: Rows, row: Row) {
    forall c :: c in WaitingFor(row) && c in rows && IsTerminal(rows[c].status)
      ==> Usable(RunOf(rows[c])) && !LastOutputThrows(RunOf(rows[c]))
  }

  /** A delivery that comes before the parent has parked changes nothing. */
  lemma EarlyDeliveryIsInert(rows: Rows, parentId: string, child: Child, fault: Fault)
    requires parentId in rows ==> rows[parentId].status != Waiting
    ensures Deliver(rows, parentId, child, fault) == rows
  {
    if parentId in rows {
      assert rows[parentId := rows[parentId]] == rows;
    }
  }

  /**
    A finished child with a result resumes a claimable parent iff the parent's tag names it or
    the parent carries no tag; a child left over from an earlier wait changes nothing.
   */
  lemma DeliveryResumesIffOwned(row: Row, child: Child)
    requires Claimable(row) && HasHead(row.data) && child.ref.Some?
    requires Usable(child.run) && !LastOutputThrows(child.run) && child.run.status != Waiting
    ensures var owned := WaitingFor(row) == [] || child.ref.value.executionId in WaitingFor(row);
            && (Delivered(row, child, NoFault).status == Running <==> owned)
            && (!owned ==> forall fault :: Delivered(row, child, fault) == row)
  {
  }

  /** What happens to one parent: writes by its own run and by others, deliveries, resumes and sweeps. */
  datatype Event =
    | WriteOwn(row: Row)
    | WriteOther(id: string, row: Row)
    | Send(child: Child, fault: Fault)
    | ResumeOtherwise
    | Tick(ids: seq<string>, scan: seq<string>, faults: Faults)

  /** The rows, and the row that the parent's own run wrote last. */
  datatype Scene = Scene(rows: Rows, own: Row)

  /** A waiting parent has no run that could write its row. */
  ghost function After(s: Scene, p: string, e: Event): Scene
    requires p in s.rows
  {
    match e
    case WriteOwn(row) => if s.rows[p].status == Waiting then s else Scene(s.rows[p := row], row)
    case WriteOther(id, row) => if id == p then s else s.(rows := s.rows[id := row])
    case Send(child, fault) => s.(rows := Deliver(s.rows, p, child, fault))
    case ResumeOtherwise => if Claimable(s.rows[p]) then s.(rows := s.rows[p := Claim(s.rows[p])]) else s
    case Tick(ids, scan, faults) => if ParkedList(s.rows, ids) then s.(rows := Sweep(s.rows, scan, ids, faults)) else s
  }

  /** The row still waits as `own` does: at most the data of its head has been patched. */
  ghost predicate SameWait(row: Row, own: Row) {
    row.status == own.status && row.waitTill == own.waitTill && row.finished == own.finished
    && row.workflowId == own.workflowId && WaitingFor(row) == WaitingFor(own)
  }

  /** Once its run has parked it, the parent keeps waiting as it was parked, or is running again. */
  ghost predicate Attended(s: Scene, p: string) {
    && p in s.rows
    && (s.own.status == Waiting ==> s.rows[p].status == Running || SameWait(s.rows[p], s.own))
  }

  lemma DeliveryKeepsWait(row: Row, child: Child, fault: Fault)
    ensures var after := Delivered(row, child, fault);
            SameWait(after, row) || (row.status == Waiting && after.status == Running)
  {
    if AcceptsRow(row, child) {
      PatchKeepsFrame(row.data, child);
    }
  }

  lemma SweepKeepsWait(rows: Rows, scan: seq<string>, ids: seq<string>, faults: Faults, p: string)
    requires ParkedList(rows, ids) && p in rows
    ensures var after := Sweep(rows, scan, ids, faults);
            p in after && (SameWait(after[p], rows[p]) || (rows[p].status == Waiting && after[p].status == Running))
  {
    SweepIsPointwise(rows, scan, ids, faults);
    var finished := FirstTerminal(rows, scan, WaitingFor(rows[p]));
    if finished.Some? {
      DeliveryKeepsWait(rows[p], ChildOf(finished.value, rows[finished.value]), faults(p));
    }
  }

  lemma EventKeepsAttended(s: Scene, p: string, e: Event)
    requires Attended(s, p)
    ensures Attended(After(s, p, e), p)
  {
    match e
    case WriteOwn(_) =>
    case WriteOther(_, _) =>
    case Send(child, fault) => DeliveryKeepsWait(s.rows[p], child, fault);
    case ResumeOtherwise =>
    case Tick(ids, scan, faults) =>
      if ParkedList(s.rows, ids) {
        SweepKeepsWait(s.rows, scan, ids, faults, p);
      }
  }

  ghost function Play(rows: Rows, p: string, events: seq<Event>): (r: Scene)
    requires p in rows
    ensures Attended(r, p)
    decreases |events|
  {
    if events == [] then Scene(rows, rows[p])
    else
      var before := Play(rows, p, events[..|events| - 1]);
      EventKeepsAttended(before, p, events[|events| - 1]);
      After(before, p, events[|events| - 1])
  }

  /**
    No lost wake-up.  Children may finish and deliver, deliveries and sweeps may break down
    anywhere, and the parent may park and be resumed, any number of times and in any order: if
    its run parked it last and some child of that wait is finished, then one failure-free sweep
    leaves the parent running.
   */
  lemma NoLostWakeUp(rows: Rows, p: string, events: seq<Event>, scan: seq<string>, ids: seq<string>)
    requires p in rows
    requires var s := Play(rows, p, events);
             && Parked(s.own) && Claimable(s.own)
             && (exists c :: c in WaitingFor(s.own) && c in s.rows && IsTerminal(s.rows[c].status))
             && ChildrenUsable(s.rows, s.own)
             && ParkedList(s.rows, ids) && ScansAll(s.rows, scan)
    ensures var after := Sweep(Play(rows, p, events).rows, scan, ids, NO_FAULTS);
            p in after && after[p].status == Running
  {
    var s := Play(rows, p, events);
    if s.rows[p].status == Running {
      SweepKeepsRunning(s.rows, scan, ids, p);
    } else {
      var c :| c in WaitingFor(s.own) && c in s.rows && IsTerminal(s.rows[c].status);
      SweepFindsFinishedChild(s.rows, p, c, scan, ids);
    }
  }

  lemma SweepKeepsRunning(rows: Rows, scan: seq<string>, ids: seq<string>, p: string)
    requires ParkedList(rows, ids) && p in rows && rows[p].status == Running
    ensures var after := Sweep(rows, scan, ids, NO_FAULTS); p in after && after[p].status == Running
  {
    SweepIsPointwise(rows, scan, ids, NO_FAULTS);
  }

  lemma SweepFindsFinishedChild(rows: Rows, p: string, c: string, scan: seq<string>, ids: seq<string>)
    requires p in rows && Parked(rows[p]) && Claimable(rows[p])
    requires c in WaitingFor(rows[p]) && c in rows && IsTerminal(rows[c].status) && ChildrenUsable(rows, rows[p])
    requires ParkedList(rows, ids) && ScansAll(rows, scan)
    ensures var after := Sweep(rows, scan, ids, NO_FAULTS); p in after && after[p].status == Running
  {
    assert c in scan;
    assert Resumable(rows, scan, p);
    SweepWakesExactlyTheResumable(rows, scan, ids, p);
  }

  /** Delivering the same child again, after any break-down, ends where one clean delivery ends. */
  lemma RedeliveryConverges(row: Row, child: Child, fault: Fault)
    requires Delivered(row, child, fault).status == Waiting
    ensures Delivered(Delivered(row, child, fault), child, NoFault) == Delivered(row, child, NoFault)
  {
    if AcceptsRow(row, child) {
      PatchIsIdempotent(row.data, child);
      PatchKeepsAcceptance(row, child, child);
    }
  }

  /**
    A sweep that breaks down for any set of parents, before the patch or between patch and
    claim, followed by a clean one gives the same rows as one clean sweep.
   */
  lemma FaultySweepConverges(rows: Rows, scan: seq<string>, ids: seq<string>, faults: Faults, again: seq<string>)
    requires ParkedList(rows, ids) && ParkedList(Sweep(rows, scan, ids, faults), again)
    ensures Sweep(Sweep(rows, scan, ids, faults), scan, again, NO_FAULTS) == Sweep(rows, scan, ids, NO_FAULTS)
  {
    var broken := Sweep(rows, scan, ids, faults);
    var both, clean := Sweep(broken, scan, again, NO_FAULTS), Sweep(rows, scan, ids, NO_FAULTS);
    SweepKeepsTerminalRows(rows, scan, ids, faults);
    SweepKeepsTerminalRows(rows, scan, ids, NO_FAULTS);
    SweepKeepsTerminalRows(broken, scan, again, NO_FAULTS);
    forall k | k in rows ensures both[k] == clean[k] {
      RowAfterSweep(rows, scan, ids, faults, k);
      RowAfterSweep(rows, scan, ids, NO_FAULTS, k);
      RowAfterSweep(broken, scan, again, NO_FAULTS, k);
      if Parked(rows[k]) {
        SweptAgain(rows, broken, scan, k, faults(k));
      }
    }
  }

  lemma RowAfterSweep(rows: Rows, scan: seq<string>, ids: seq<string>, faults: Faults, k: string)
    requires ParkedList(rows, ids) && k in rows
    ensures k in Sweep(rows, scan, ids, faults)
    ensures Sweep(rows, scan, ids, faults)[k] == if Parked(rows[k]) then Swept(rows, scan, k, faults(k)) else rows[k]
  {
    SweepIsPointwise(rows, scan, ids, faults);
  }

  lemma SweepKeepsTerminalRows(rows: Rows, scan: seq<string>, ids: seq<string>, faults: Faults)
    requires ParkedList(rows, ids)
    ensures var after := Sweep(rows, scan, ids, faults);
            && after.Keys == rows.Keys
            && forall x :: x in rows && (IsTerminal(rows[x].status) || IsTerminal(after[x].status)) ==> rows[x] == after[x]
  {
    SweepIsPointwise(rows, scan, ids, faults);
  }

  lemma SweptAgain(rows: Rows, broken: Rows, scan: seq<string>, k: string, fault: Fault)
    requires rows.Keys == broken.Keys && k in rows && Parked(rows[k])
    requires broken[k] == Swept(rows, scan, k, fault)
    requires forall x :: x in rows && (IsTerminal(rows[x].status) || IsTerminal(broken[x].status)) ==> rows[x] == broken[x]
    ensures (if Parked(broken[k]) then Swept(broken, scan, k, NoFault) else broken[k]) == Swept(rows, scan, k, NoFault)
  {
    SameFirstTerminal(rows, broken, scan, WaitingFor(rows[k]));
    var finished := FirstTerminal(rows, scan, WaitingFor(rows[k]));
    if finished.Some? {
      DeliveredAgain(rows[k], ChildOf(finished.value, rows[finished.value]), fault);
    }
  }

  /** A parked row after a delivery that may have broken down, and after the clean one that follows. */
  lemma DeliveredAgain(row: Row, child: Child, fault: Fault)
    requires Parked(row)
    ensures var broken, clean := Delivered(row, child, fault), Delivered(row, child, NoFault);
            if Parked(broken) then WaitingFor(broken) == WaitingFor(row) && Delivered(broken, child, NoFault) == clean
            else broken == clean
  {
    if Delivered(row, child, fault).status == Waiting {
      RedeliveryConverges(row, child, fault);
    }
    DeliveryKeepsWait(row, child, fault);
  }
}
