/** Execution rows and the run data stored with them, as far as waiting and resuming need them. */
module ExecutionData {
  import opened Wrappers

  datatype ExecutionStatus = Canceled | Crashed | Error | New | Running | Success | Unknown | Waiting

  predicate IsTerminal(s: ExecutionStatus) {
    s == Canceled || s == Crashed || s == Error || s == Success
  }

  datatype Output = Output(content: string)

  datatype RunError = RunError(message: string)

  datatype RelatedExecution = RelatedExecution(executionId: string, workflowId: string)

  /** Private-credential usage: flags that are present or not, and the user they resolved for. */
  datatype Usage = Usage(used: bool, attempted: bool, userId: Option<string>)

  const NO_USAGE := Usage(false, false, None)

  /** Spreading a newer report over an older one. */
  function Union(older: Usage, newer: Usage): Usage {
    Usage(older.used || newer.used, older.attempted || newer.attempted,
          if newer.userId.Some? then newer.userId else older.userId)
  }

  /** `null` placeholder slots of a run-data array are `Hole`s. */
  datatype TaskSlot = Hole | Task(data: Option<Output>, used: bool, attempted: bool)

  datatype Metadata = Metadata(waitingChildIds: seq<string>, usage: Usage, resumeError: Option<RunError>,
                               subExecution: Option<RelatedExecution>)

  datatype StackEntry = StackEntry(nodeName: string, data: Output, metadata: Metadata)

  /** The engine's part of the data; `stack` is its `nodeExecutionStack`. */
  datatype EngineData = EngineData(stack: seq<StackEntry>, executedByUserId: Option<Option<string>>)

  datatype RunData = RunData(engine: Option<EngineData>, tasks: map<string, seq<TaskSlot>>,
                             lastNode: Option<string>, pinned: map<string, Output>, error: Option<RunError>)

  /** What a finished run hands over: its data and whether it ran in manual mode. */
  datatype Run = Run(data: RunData, manual: bool, status: ExecutionStatus)

  datatype WaitTill = NoWait | SubExecution | Until(time: int)

  datatype Row = Row(status: ExecutionStatus, waitTill: WaitTill, finished: bool, workflowId: Option<string>,
                     manual: bool, data: RunData)

  type Rows = map<string, Row>

  function UsedIn(tasks: map<string, seq<TaskSlot>>): bool {
    exists n :: n in tasks && exists i :: 0 <= i < |tasks[n]| && tasks[n][i].Task? && tasks[n][i].used
  }

  function AttemptedIn(tasks: map<string, seq<TaskSlot>>): bool {
    exists n :: n in tasks && exists i :: 0 <= i < |tasks[n]| && tasks[n][i].Task? && tasks[n][i].attempted
  }

  /** `summarizeDynamicCredentialsUsage`. */
  function Summarize(data: RunData): Usage {
    var user := if data.engine.Some? && data.engine.value.executedByUserId.Some?
                then data.engine.value.executedByUserId.value else None;
    var used := UsedIn(data.tasks);
    Usage(used, AttemptedIn(data.tasks), if used && user.Some? && user.value != "" then user else None)
  }

  /** Pinned data is read next to the last task's source, so a missing last task makes the call throw. */
  predicate LastOutputThrows(run: Run) {
    && run.data.lastNode.Some? && run.data.lastNode.value in run.data.tasks
    && run.manual && run.data.lastNode.value in run.data.pinned
    && var tasks := run.data.tasks[run.data.lastNode.value]; tasks == [] || tasks[|tasks| - 1].Hole?
  }

  /** `getLastExecutedNodeData(run)?.data`: the pinned data in manual mode, else the last task's. */
  function LastOutput(run: Run): Option<Output> {
    if run.data.lastNode.None? || run.data.lastNode.value !in run.data.tasks then None
    else
      var node := run.data.lastNode.value;
      var tasks := run.data.tasks[node];
      if run.manual && node in run.data.pinned then Some(run.data.pinned[node])
      else if tasks == [] || tasks[|tasks| - 1].Hole? then None
      else tasks[|tasks| - 1].data
  }

  /**
    The output that a run delivers, on its fields: the pinned data of the last node in a manual
    run, else the data of the last task of that node.
   */
  ghost predicate Delivers(run: Run, output: Output) {
    && run.data.lastNode.Some? && run.data.lastNode.value in run.data.tasks
    && var node := run.data.lastNode.value;
       if run.manual && node in run.data.pinned then output == run.data.pinned[node]
       else
         && |run.data.tasks[node]| > 0
         && run.data.tasks[node][|run.data.tasks[node]| - 1].Task?
         && run.data.tasks[node][|run.data.tasks[node]| - 1].data == Some(output)
  }

  lemma LastOutputIsDelivered(run: Run)
    ensures LastOutput(run).Some? <==> exists output :: Delivers(run, output)
    ensures forall output :: Delivers(run, output) <==> LastOutput(run) == Some(output)
  {
    if LastOutput(run).Some? {
      assert Delivers(run, LastOutput(run).value);
    }
  }
}
