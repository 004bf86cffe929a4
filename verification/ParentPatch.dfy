/**
  `updateParentExecutionWithChildResults`: a finished child writes its result onto the stack
  head of its waiting parent.  The functions say what is written; the lemmas say what any
  number of such writes, in any order, adds up to.
 */
module ParentPatch {
  import opened Wrappers
  import opened ExecutionData

  /** A finished child: its run and, unless an old caller omits it, who it is. */
  datatype Child = Child(run: Run, ref: Option<RelatedExecution>)

  /** The child carries something a parent can resume on. */
  predicate Usable(run: Run) {
    run.data.error.Some? || LastOutput(run).Some?
  }

  predicate HasHead(data: RunData) {
    data.engine.Some? && data.engine.value.stack != []
  }

  function Head(data: RunData): StackEntry
    requires HasHead(data)
  {
    data.engine.value.stack[0]
  }

  /** An untagged head takes any child, a tagged one only the children it names. */
  predicate Owns(head: StackEntry, ref: Option<RelatedExecution>) {
    ref.None? || head.metadata.waitingChildIds == [] || ref.value.executionId in head.metadata.waitingChildIds
  }

  /** The parent takes this child: there is a result, and the parent waits on it. */
  predicate AcceptsData(status: ExecutionStatus, data: RunData, child: Child) {
    Usable(child.run) && status == Waiting && HasHead(data) && Owns(Head(data), child.ref)
  }

  predicate AcceptsRow(row: Row, child: Child) {
    AcceptsData(row.status, row.data, child)
  }

  /** Which children a row takes, on the fields of both. */
  lemma AcceptedIff(row: Row, child: Child)
    ensures AcceptsRow(row, child) <==>
              && (child.run.data.error.Some? || exists output :: Delivers(child.run, output))
              && row.status == Waiting
              && row.data.engine.Some? && |row.data.engine.value.stack| > 0
              && var tag := row.data.engine.value.stack[0].metadata.waitingChildIds;
                 child.ref.None? || tag == [] || child.ref.value.executionId in tag
  {
    LastOutputIsDelivered(child.run);
  }

  predicate Accepts(rows: Rows, parentId: string, child: Child) {
    parentId in rows && AcceptsRow(rows[parentId], child)
  }

  function StampSlot(slot: TaskSlot, usage: Usage): TaskSlot {
    match slot
    case Hole => Hole
    case Task(data, used, attempted) => Task(data, used || usage.used, attempted || usage.attempted)
  }

  function StampLast(tasks: seq<TaskSlot>, usage: Usage): seq<TaskSlot> {
    if tasks == [] then [] else tasks[|tasks| - 1 := StampSlot(tasks[|tasks| - 1], usage)]
  }

  function StampTasks(tasks: map<string, seq<TaskSlot>>, node: string, usage: Usage): map<string, seq<TaskSlot>> {
    if node in tasks then tasks[node := StampLast(tasks[node], usage)] else tasks
  }

  function StampUser(current: Option<Option<string>>, usage: Usage): Option<Option<string>> {
    if usage.used && usage.userId.Some? && current.Some? then Some(usage.userId) else current
  }

  function PatchHead(head: StackEntry, child: Child): StackEntry {
    var metadata := head.metadata.(usage := Union(head.metadata.usage, Summarize(child.run.data)));
    if child.run.data.error.Some? then
      head.(metadata := metadata.(
              resumeError := child.run.data.error,
              subExecution := if child.ref.Some? then child.ref else metadata.subExecution))
    else if LastOutput(child.run).Some? then head.(data := LastOutput(child.run).value, metadata := metadata)
    else head.(metadata := metadata)
  }

  /** The parent data after one accepted child. */
  function PatchData(data: RunData, child: Child): RunData
    requires HasHead(data)
  {
    var usage := Summarize(child.run.data);
    var engine := data.engine.value;
    data.(engine := Some(EngineData(engine.stack[0 := PatchHead(engine.stack[0], child)],
                                    StampUser(engine.executedByUserId, usage))),
          tasks := StampTasks(data.tasks, engine.stack[0].nodeName, usage))
  }

  /** Stamping leaves the map alone when there is no task to stamp or nothing to stamp it with. */
  lemma StampChangesOnlyTasks(tasks: map<string, seq<TaskSlot>>, node: string, usage: Usage)
    requires node !in tasks || tasks[node] == [] || tasks[node][|tasks[node]| - 1].Hole? || usage == NO_USAGE
    ensures StampTasks(tasks, node, usage) == tasks
  {
    if node in tasks {
      assert StampLast(tasks[node], usage) == tasks[node];
    }
  }

  /** Marks the parent's waiting task, when the node's last task is really there. */
  method StampWaitingTask(tasks: map<string, seq<TaskSlot>>, node: string, usage: Usage)
    returns (r: map<string, seq<TaskSlot>>)
    ensures r == StampTasks(tasks, node, usage)
  {
    if node !in tasks || |tasks[node]| == 0 || tasks[node][|tasks[node]| - 1].Hole? {
      StampChangesOnlyTasks(tasks, node, usage);
      return tasks;
    }
    var list := tasks[node];
    var last := list[|list| - 1];
    if usage.used {
      last := last.(used := true);
    }
    if usage.attempted {
      last := last.(attempted := true);
    }
    r := tasks[node := list[|list| - 1 := last]];
  }

  /** The in-memory part of the patch: the stack head, the waiting task and the run's user are updated. */
  method PatchInMemory(data: RunData, child: Child) returns (r: RunData)
    requires HasHead(data) && Usable(child.run)
    ensures r == PatchData(data, child)
  {
    var usage := Summarize(child.run.data);
    var engine := data.engine.value;
    var head, tasks, user := engine.stack[0], data.tasks, engine.executedByUserId;
    if usage != NO_USAGE {
      head := head.(metadata := head.metadata.(usage := Union(head.metadata.usage, usage)));
      tasks := StampWaitingTask(tasks, head.nodeName, usage);
      if usage.used && usage.userId.Some? && user.Some? {
        user := Some(usage.userId);
      }
    } else {
      StampChangesOnlyTasks(tasks, head.nodeName, usage);
    }
    if child.run.data.error.Some? {
      head := head.(metadata := head.metadata.(resumeError := child.run.data.error));
      if child.ref.Some? {
        head := head.(metadata := head.metadata.(subExecution := child.ref));
      }
    } else {
      head := head.(data := LastOutput(child.run).value);
    }
    r := data.(engine := Some(EngineData(engine.stack[0 := head], user)), tasks := tasks);
  }

  datatype PatchResult = Patched | Refused | Threw

  /** The database, read and written row by row. */
  class ExecutionStore {
    var rows: Rows

    constructor (rows: Rows)
      ensures this.rows == rows
    {
      this.rows := rows;
    }

    /** The function as it runs: it mutates its own copy of the parent and writes the data back. */
    method UpdateParentExecutionWithChildResults(parentId: string, child: Child) returns (result: PatchResult)
      modifies this
      ensures result == Threw <==>
                && child.run.manual && child.run.data.lastNode.Some?
                && var node, data := child.run.data.lastNode.value, child.run.data;
                   && node in data.pinned && node in data.tasks
                   && (data.tasks[node] == [] || data.tasks[node][|data.tasks[node]| - 1].Hole?)
      ensures !LastOutputThrows(child.run) ==> result == if Accepts(old(rows), parentId, child) then Patched else Refused
      ensures rows == if result == Patched
                      then old(rows)[parentId := old(rows)[parentId].(data := PatchData(old(rows)[parentId].data, child))]
                      else old(rows)
    {
      if LastOutputThrows(child.run) {
        return Threw;
      }
      var error, output := child.run.data.error, LastOutput(child.run);
      if error.None? && output.None? {
        return Refused;
      }
      if parentId !in rows || rows[parentId].status != Waiting {
        return Refused;
      }
      var data := rows[parentId].data;
      if data.engine.None? || |data.engine.value.stack| == 0 {
        return Refused;
      }
      var waitingFor := data.engine.value.stack[0].metadata.waitingChildIds;
      if child.ref.Some? && |waitingFor| > 0 && child.ref.value.executionId !in waitingFor {
        return Refused;
      }

      data := PatchInMemory(data, child);
      rows := rows[parentId := rows[parentId].(data := data)];
      return Patched;
    }
  }

  /** Patching again with the same child changes nothing, so a retry after a lost reply is safe. */
  lemma PatchIsIdempotent(data: RunData, child: Child)
    requires HasHead(data)
    ensures HasHead(PatchData(data, child))
    ensures PatchData(PatchData(data, child), child) == PatchData(data, child)
  {
    var once := PatchData(data, child);
    var twice := PatchData(once, child);
    assert Head(once) == PatchHead(Head(data), child);
    assert PatchHead(Head(once), child) == Head(once);
    assert twice.engine.value.stack == once.engine.value.stack;
    var node := Head(data).nodeName;
    if node in data.tasks {
      assert twice.tasks[node] == once.tasks[node];
    }
    assert twice.tasks == once.tasks;
  }

  /** A patch decides nothing about later ones: the same children stay welcome. */
  lemma PatchKeepsAcceptance(row: Row, child: Child, other: Child)
    requires AcceptsRow(row, child)
    ensures AcceptsRow(row.(data := PatchData(row.data, child)), other) <==> AcceptsRow(row, other)
  {
  }

  function PatchAll(data: RunData, children: seq<Child>): (r: RunData)
    requires HasHead(data)
    ensures HasHead(r)
    decreases |children|
  {
    if children == [] then data
    else PatchData(PatchAll(data, children[..|children| - 1]), children[|children| - 1])
  }

  lemma PatchOneMore(data: RunData, children: seq<Child>, child: Child)
    requires HasHead(data)
    ensures PatchAll(data, children + [child]) == PatchData(PatchAll(data, children), child)
  {
    assert (children + [child])[..|children|] == children;
  }

  /** Both data differ at most in the head's content and the flags of the last waiting task. */
  ghost predicate SameFrame(a: RunData, b: RunData)
    requires HasHead(a) && HasHead(b)
  {
    && Head(b).nodeName == Head(a).nodeName
    && Head(b).metadata.waitingChildIds == Head(a).metadata.waitingChildIds
    && b.engine.value.stack[1..] == a.engine.value.stack[1..]
    && b.tasks.Keys == a.tasks.Keys
    && (forall n :: n in a.tasks && n != Head(a).nodeName ==> b.tasks[n] == a.tasks[n])
    && (forall n :: n in a.tasks ==> |b.tasks[n]| == |a.tasks[n]|)
    && (forall n, i :: n in a.tasks && 0 <= i < |a.tasks[n]| - 1 ==> b.tasks[n][i] == a.tasks[n][i])
    && (forall n, i :: n in a.tasks && 0 <= i < |a.tasks[n]| ==>
          (b.tasks[n][i].Hole? <==> a.tasks[n][i].Hole?)
          && (a.tasks[n][i].Task? ==> b.tasks[n][i].data == a.tasks[n][i].data))
    && b.lastNode == a.lastNode && b.pinned == a.pinned && b.error == a.error
  }

  lemma PatchKeepsFrame(data: RunData, child: Child)
    requires HasHead(data)
    ensures HasHead(PatchData(data, child)) && SameFrame(data, PatchData(data, child))
  {
  }

  lemma SameFrameTransitive(a: RunData, b: RunData, c: RunData)
    requires HasHead(a) && HasHead(b) && HasHead(c) && SameFrame(a, b) && SameFrame(b, c)
    ensures SameFrame(a, c)
  {
  }

  /** Whatever the patches, only the head's content and the flags of the waiting task change. */
  lemma {:induction false} PatchesKeepFrame(data: RunData, children: seq<Child>)
    requires HasHead(data)
    ensures SameFrame(data, PatchAll(data, children))
    decreases |children|
  {
    if children != [] {
      var before := PatchAll(data, children[..|children| - 1]);
      PatchesKeepFrame(data, children[..|children| - 1]);
      PatchKeepsFrame(before, children[|children| - 1]);
      SameFrameTransitive(data, before, PatchAll(data, children));
    }
  }

  function UsageOf(child: Child): Usage {
    Summarize(child.run.data)
  }

  /** What a child reports, on its tasks: credentials used or attempted anywhere, and for whom. */
  lemma UsageMeaning(child: Child)
    ensures var data := child.run.data; var usage := UsageOf(child);
            && (usage.used <==>
                  exists n, i :: n in data.tasks && 0 <= i < |data.tasks[n]| && Used(data.tasks[n][i]))
            && (usage.attempted <==>
                  exists n, i :: n in data.tasks && 0 <= i < |data.tasks[n]| && Attempted(data.tasks[n][i]))
            && forall user :: usage.userId == Some(user) <==>
                 usage.used && user != "" && data.engine.Some? && data.engine.value.executedByUserId == Some(Some(user))
  {
  }

  predicate Used(slot: TaskSlot) {
    slot.Task? && slot.used
  }

  predicate Attempted(slot: TaskSlot) {
    slot.Task? && slot.attempted
  }

  ghost predicate AnyUsed(children: seq<Child>) {
    exists i :: 0 <= i < |children| && UsageOf(children[i]).used
  }

  ghost predicate AnyAttempted(children: seq<Child>) {
    exists i :: 0 <= i < |children| && UsageOf(children[i]).attempted
  }

  /** The waiting task that the redaction scan looks at, if there is one. */
  function WaitingTask(data: RunData): TaskSlot
    requires HasHead(data)
  {
    var node := Head(data).nodeName;
    if node in data.tasks && data.tasks[node] != [] then data.tasks[node][|data.tasks[node]| - 1] else Hole
  }

  /**
    Flags only accumulate, and exactly: after any sequence of patches the head and the waiting
    task each carry a flag iff they did before or some child reported it.
   */
  lemma {:induction false} PatchesAccumulateUsage(data: RunData, children: seq<Child>)
    requires HasHead(data)
    ensures var r := PatchAll(data, children); var before, after := Head(data).metadata.usage, Head(r).metadata.usage;
            && (after.used <==> before.used || AnyUsed(children))
            && (after.attempted <==> before.attempted || AnyAttempted(children))
    ensures var before, after := WaitingTask(data), WaitingTask(PatchAll(data, children));
            && (after.Task? <==> before.Task?)
            && (before.Task? ==>
                  && (after.used <==> before.used || AnyUsed(children))
                  && (after.attempted <==> before.attempted || AnyAttempted(children)))
    decreases |children|
  {
    if children != [] {
      var init, last := children[..|children| - 1], children[|children| - 1];
      PatchesAccumulateUsage(data, init);
      SplitLast(children);
      UsageAfterPatch(PatchAll(data, init), last);
    }
  }

  lemma UsageAfterPatch(data: RunData, child: Child)
    requires HasHead(data)
    ensures Head(PatchData(data, child)).metadata.usage.used == (Head(data).metadata.usage.used || UsageOf(child).used)
    ensures Head(PatchData(data, child)).metadata.usage.attempted
         == (Head(data).metadata.usage.attempted || UsageOf(child).attempted)
    ensures WaitingTask(PatchData(data, child)) == StampSlot(WaitingTask(data), UsageOf(child))
  {
  }

  lemma SplitLast(children: seq<Child>)
    requires children != []
    ensures var n := |children| - 1;
            && (AnyUsed(children) <==> AnyUsed(children[..n]) || UsageOf(children[n]).used)
            && (AnyAttempted(children) <==> AnyAttempted(children[..n]) || UsageOf(children[n]).attempted)
  {
    var n := |children| - 1;
    SplitUsed(children[..n], children[n]);
    SplitAttempted(children[..n], children[n]);
    assert children[..n] + [children[n]] == children;
  }

  lemma SplitUsed(init: seq<Child>, last: Child)
    ensures AnyUsed(init + [last]) <==> AnyUsed(init) || UsageOf(last).used
  {
    if AnyUsed(init) {
      var i :| 0 <= i < |init| && UsageOf(init[i]).used;
      assert UsageOf((init + [last])[i]).used;
    }
    assert (init + [last])[|init|] == last;
  }

  lemma SplitAttempted(init: seq<Child>, last: Child)
    ensures AnyAttempted(init + [last]) <==> AnyAttempted(init) || UsageOf(last).attempted
  {
    if AnyAttempted(init) {
      var i :| 0 <= i < |init| && UsageOf(init[i]).attempted;
      assert UsageOf((init + [last])[i]).attempted;
    }
    assert (init + [last])[|init|] == last;
  }

  /** The last child of the sequence that failed, or that did not, sits at position `i`. */
  ghost predicate LastWhere(children: seq<Child>, failed: bool, i: int) {
    && 0 <= i < |children| && children[i].run.data.error.Some? == failed
    && forall j :: i < j < |children| ==> children[j].run.data.error.Some? != failed
  }

  ghost predicate NoneWhere(children: seq<Child>, failed: bool) {
    forall j :: 0 <= j < |children| ==> children[j].run.data.error.Some? != failed
  }

  ghost predicate EndsWithErrors(before: StackEntry, children: seq<Child>, after: StackEntry) {
    && (forall i :: LastWhere(children, true, i) ==>
          && after.metadata.resumeError == children[i].run.data.error
          && (children[i].ref.Some? ==> after.metadata.subExecution == children[i].ref))
    && (NoneWhere(children, true) ==> after.metadata.resumeError == before.metadata.resumeError)
  }

  ghost predicate EndsWithOutputs(before: StackEntry, children: seq<Child>, after: StackEntry) {
    && (forall i :: LastWhere(children, false, i) ==> Delivers(children[i].run, after.data))
    && (NoneWhere(children, false) ==> after.data == before.data)
  }

  /**
    What the parent resumes on: the error of the last failed child, which no later success can
    clear, and the output of the last successful one.
   */
  lemma {:induction false} PatchesKeepLastResults(data: RunData, children: seq<Child>)
    requires HasHead(data)
    requires forall i :: 0 <= i < |children| ==> Usable(children[i].run)
    ensures EndsWithErrors(Head(data), children, Head(PatchAll(data, children)))
    ensures EndsWithOutputs(Head(data), children, Head(PatchAll(data, children)))
    decreases |children|
  {
    if children != [] {
      var init := children[..|children| - 1];
      PatchesKeepLastResults(data, init);
      ResultsStep(Head(data), children, PatchAll(data, init));
    }
  }

  lemma ResultsStep(first: StackEntry, children: seq<Child>, before: RunData)
    requires HasHead(before) && children != [] && Usable(children[|children| - 1].run)
    requires EndsWithErrors(first, children[..|children| - 1], Head(before))
    requires EndsWithOutputs(first, children[..|children| - 1], Head(before))
    ensures var after := PatchData(before, children[|children| - 1]);
            EndsWithErrors(first, children, Head(after)) && EndsWithOutputs(first, children, Head(after))
  {
    var last := children[|children| - 1];
    HeadAfterPatch(before, last);
    ErrorsStep(first, children, Head(before), Head(PatchData(before, last)));
    OutputsStep(first, children, Head(before), Head(PatchData(before, last)));
  }

  lemma ErrorsStep(first: StackEntry, children: seq<Child>, before: StackEntry, after: StackEntry)
    requires children != [] && PatchedBy(before, children[|children| - 1], after)
    requires EndsWithErrors(first, children[..|children| - 1], before)
    ensures EndsWithErrors(first, children, after)
  {
    SplitLastWhere(children, true);
  }

  lemma OutputsStep(first: StackEntry, children: seq<Child>, before: StackEntry, after: StackEntry)
    requires children != [] && PatchedBy(before, children[|children| - 1], after)
    requires EndsWithOutputs(first, children[..|children| - 1], before)
    ensures EndsWithOutputs(first, children, after)
  {
    SplitLastWhere(children, false);
  }

  lemma SplitLastWhere(children: seq<Child>, failed: bool)
    requires children != []
    ensures var n := |children| - 1;
            if children[n].run.data.error.Some? == failed then
              !NoneWhere(children, failed) && forall i :: LastWhere(children, failed, i) ==> i == n
            else
              && (NoneWhere(children, failed) ==> NoneWhere(children[..n], failed))
              && forall i :: LastWhere(children, failed, i) ==> i < n && LastWhere(children[..n], failed, i)
  {
  }

  /** A failed child leaves the head's data, a successful one its error. */
  ghost predicate PatchedBy(before: StackEntry, child: Child, after: StackEntry) {
    if child.run.data.error.Some? then
      && after.metadata.resumeError == child.run.data.error && after.data == before.data
      && after.metadata.subExecution == if child.ref.Some? then child.ref else before.metadata.subExecution
    else
      && Delivers(child.run, after.data)
      && after.metadata.resumeError == before.metadata.resumeError
      && after.metadata.subExecution == before.metadata.subExecution
  }

  lemma HeadAfterPatch(data: RunData, child: Child)
    requires HasHead(data) && Usable(child.run)
    ensures PatchedBy(Head(data), child, Head(PatchData(data, child)))
  {
    LastOutputIsDelivered(child.run);
  }

  /** What a retried patch leaves behind: some attempts reach the database, others do not. */
  function Attempts(data: RunData, child: Child, written: seq<bool>): (r: RunData)
    requires HasHead(data)
    ensures HasHead(r)
    decreases |written|
  {
    if written == [] then data
    else
      var before := Attempts(data, child, written[..|written| - 1]);
      if written[|written| - 1] then PatchData(before, child) else before
  }

  /** However many attempts of one patch got through, the parent is patched once or not at all. */
  lemma {:induction false} RetriedPatchCountsOnce(data: RunData, child: Child, written: seq<bool>)
    requires HasHead(data)
    ensures Attempts(data, child, written) == if true in written then PatchData(data, child) else data
    decreases |written|
  {
    if written != [] {
      var init := written[..|written| - 1];
      RetriedPatchCountsOnce(data, child, init);
      assert written == init + [written[|written| - 1]];
      PatchIsIdempotent(data, child);
    }
  }

  /** The user named by the last child that names one. */
  function LastUser(children: seq<Child>): Option<string>
    decreases |children|
  {
    if children == [] then None
    else
      var user := UsageOf(children[|children| - 1]).userId;
      if user.Some? then user else LastUser(children[..|children| - 1])
  }

  /** A user is only ever reported together with a resolved credential. */
  lemma ReportedUserWasUsed(child: Child)
    ensures UsageOf(child).userId.Some? ==> UsageOf(child).used
  {
  }

  /** The last child that names a user decides it, on the head and in the runtime data alike. */
  lemma {:induction false} PatchesKeepLastUser(data: RunData, children: seq<Child>)
    requires HasHead(data)
    ensures var before, after := data.engine.value.executedByUserId, PatchAll(data, children).engine.value.executedByUserId;
            after == if before.Some? && LastUser(children).Some? then Some(LastUser(children)) else before
    ensures var before, after := Head(data).metadata.usage.userId, Head(PatchAll(data, children)).metadata.usage.userId;
            after == if LastUser(children).Some? then LastUser(children) else before
    decreases |children|
  {
    if children != [] {
      PatchesKeepLastUser(data, children[..|children| - 1]);
      ReportedUserWasUsed(children[|children| - 1]);
    }
  }
}
