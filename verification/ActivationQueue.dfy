/**
  The activation retry queue of the workflow manager.  Timers and queue entries are separate
  objects that point at each other; a timer that fires starts an attempt, and anything can
  happen to the queue before the attempt ends.
 */
module ActivationQueue {
  import opened Wrappers
  import opened Basics

  const INITIAL_TIMEOUT := 1000
  const MAX_TIMEOUT := 86400000

  /** A queue entry; `activation` is the identity of the entry object. */
  datatype Entry = Entry(activation: nat, lastTimeout: int, timeout: nat)

  /** A retry callback: its workflow, the entry object it was made for, and the delay it was armed with. */
  datatype Retry = Retry(workflow: string, activation: nat, delay: int)

  /** The callbacks of armed timers, and those that are running, under the timer that started them. */
  datatype State = State(entries: map<string, Entry>, timers: map<nat, Retry>, attempts: map<nat, Retry>, nextId: nat)

  datatype Outcome = Returned | PolicyRefusal | IsolateFailure | OtherFailure

  /**
    An attempt that activates the workflow takes it off the queue on its way, which is a
    `Remove`; one that finds nothing to activate returns and leaves the queue as it is.
   */
  datatype Step =
    | Enqueue(workflow: string)
    | Fire(timer: nat)
    | Finish(timer: nat, outcome: Outcome)
    | Remove(workflow: string)
    | RemoveAll

  function NextTimeout(lastTimeout: int, outcome: Outcome): int {
    if outcome != IsolateFailure && lastTimeout < MAX_TIMEOUT then Min(lastTimeout * 2, MAX_TIMEOUT) else lastTimeout
  }

  function RemoveEntry(s: State, w: string): State {
    if w in s.entries then s.(timers := s.timers - {s.entries[w].timeout}, entries := s.entries - {w}) else s
  }

  /** A failed attempt re-arms through whatever entry the queue now holds for the workflow. */
  function Requeue(s: State, retry: Retry, outcome: Outcome): State {
    if retry.workflow !in s.entries then s
    else
      var e := s.entries[retry.workflow];
      var delay := NextTimeout(e.lastTimeout, outcome);
      s.(entries := s.entries[retry.workflow := Entry(e.activation, delay, s.nextId)],
         timers := s.timers[s.nextId := retry.(delay := delay)], nextId := s.nextId + 1)
  }

  function TimeoutsOf(entries: map<string, Entry>, ws: set<string>): set<nat> {
    set w | w in ws && w in entries :: entries[w].timeout
  }

  predicate Enabled(s: State, step: Step) {
    match step
    case Fire(t) => t in s.timers
    case Finish(t, _) => t in s.attempts
    case _ => true
  }

  function EnqueueEntry(s: State, w: string): State {
    var clean := RemoveEntry(s, w);
    clean.(entries := clean.entries[w := Entry(s.nextId, INITIAL_TIMEOUT, s.nextId + 1)],
           timers := clean.timers[s.nextId + 1 := Retry(w, s.nextId, INITIAL_TIMEOUT)], nextId := s.nextId + 2)
  }

  function FinishAttempt(s: State, t: nat, outcome: Outcome): State
    requires t in s.attempts
  {
    var retry := s.attempts[t];
    var ended := s.(attempts := s.attempts - {t});
    match outcome
    case Returned => ended
    case PolicyRefusal =>
      if retry.workflow in s.entries && s.entries[retry.workflow].activation == retry.activation
      then RemoveEntry(ended, retry.workflow) else ended
    case _ => Requeue(ended, retry, outcome)
  }

  function Next(s: State, step: Step): State
    requires Enabled(s, step)
  {
    match step
    case Enqueue(w) => EnqueueEntry(s, w)
    case Fire(t) => s.(timers := s.timers - {t}, attempts := s.attempts[t := s.timers[t]])
    case Finish(t, outcome) => FinishAttempt(s, t, outcome)
    case Remove(w) => RemoveEntry(s, w)
    case RemoveAll => s.(entries := map[], timers := s.timers - TimeoutsOf(s.entries, s.entries.Keys))
  }

  /** Removing the entries of a list of workflows one after the other. */
  function RemoveEach(s: State, ws: seq<string>): State
    decreases |ws|
  {
    if ws == [] then s else RemoveEntry(RemoveEach(s, ws[..|ws| - 1]), ws[|ws| - 1])
  }

  function Members(ws: seq<string>): set<string> {
    set w | w in ws
  }

  lemma {:induction false} RemoveEachRemoves(s: State, ws: seq<string>)
    ensures var r := RemoveEach(s, ws);
            && r.nextId == s.nextId && r.attempts == s.attempts
            && r.entries == s.entries - Members(ws)
            && r.timers == s.timers - TimeoutsOf(s.entries, Members(ws))
    decreases |ws|
  {
    if ws != [] {
      var init, last := ws[..|ws| - 1], ws[|ws| - 1];
      RemoveEachRemoves(s, init);
      var before, after := Members(init), Members(ws);
      assert after == before + {last};
      var r := RemoveEach(s, init);
      if last in r.entries {
        assert r.entries - {last} == s.entries - after;
      } else {
        assert r.entries == s.entries - after;
      }
      if last in s.entries {
        assert TimeoutsOf(s.entries, after) == TimeoutsOf(s.entries, before) + {s.entries[last].timeout};
      } else {
        assert TimeoutsOf(s.entries, after) == TimeoutsOf(s.entries, before);
      }
    }
  }

  /** The delay after `k` counted failures. */
  function Backoff(k: nat): int {
    Min(INITIAL_TIMEOUT * Pow2(k), MAX_TIMEOUT)
  }

  lemma BackoffDoubles(k: nat, outcome: Outcome)
    requires outcome == OtherFailure
    ensures NextTimeout(Backoff(k), outcome) == Backoff(k + 1)
  {
    Pow2IsPositive(k);
  }

  function RunSteps(s: State, steps: seq<Step>): Option<State>
    decreases |steps|
  {
    if steps == [] then Some(s)
    else
      var before := RunSteps(s, steps[..|steps| - 1]);
      var step := steps[|steps| - 1];
      if before.Some? && Enabled(before.value, step) then Some(Next(before.value, step)) else None
  }

  function EmptyQueue(nextId: nat): State {
    State(map[], map[], map[], nextId)
  }

  /** The attempts of `w` that failed, other than for want of an isolate, since it was last queued. */
  function FailedAttempts(start: State, steps: seq<Step>, w: string): nat
    requires RunSteps(start, steps).Some?
    decreases |steps|
  {
    if steps == [] then 0
    else
      var init := steps[..|steps| - 1];
      match steps[|steps| - 1]
      case Enqueue(v) => if v == w then 0 else FailedAttempts(start, init, w)
      case Finish(t, OtherFailure) =>
        FailedAttempts(start, init, w) + if RunSteps(start, init).value.attempts[t].workflow == w then 1 else 0
      case _ => FailedAttempts(start, init, w)
  }

  /** An entry's timer, as long as it is armed, was armed with the entry's delay. */
  ghost predicate ArmedWithDelay(s: State) {
    forall w :: w in s.entries ==>
      var e := s.entries[w]; e.timeout < s.nextId && (e.timeout in s.timers ==> s.timers[e.timeout].delay == e.lastTimeout)
  }

  lemma StepKeepsArmed(s: State, step: Step)
    requires ArmedWithDelay(s) && Enabled(s, step)
    ensures ArmedWithDelay(Next(s, step))
  {
  }

  lemma StepBacksOff(s: State, step: Step, w: string, k: nat)
    requires Enabled(s, step) && (w in s.entries ==> s.entries[w].lastTimeout == Backoff(k))
    ensures var failed := step.Finish? && step.outcome == OtherFailure && s.attempts[step.timer].workflow == w;
            var now := if step == Enqueue(w) then 0 else if failed then k + 1 else k;
            w in Next(s, step).entries ==> Next(s, step).entries[w].lastTimeout == Backoff(now)
  {
    BackoffDoubles(k, OtherFailure);
    assert Backoff(0) == INITIAL_TIMEOUT;
  }

  /**
    In every run: a queued workflow `k` of whose attempts have failed since it was queued waits
    min(1000 * 2^k, one day), and its timer was armed with that delay.
   */
  lemma {:induction false} EveryRunBacksOff(steps: seq<Step>, nextId: nat)
    requires RunSteps(EmptyQueue(nextId), steps).Some?
    ensures var s := RunSteps(EmptyQueue(nextId), steps).value;
            && ArmedWithDelay(s)
            && forall w :: w in s.entries ==>
                 s.entries[w].lastTimeout == Min(1000 * Pow2(FailedAttempts(EmptyQueue(nextId), steps, w)), 86400000)
    decreases |steps|
  {
    if steps != [] {
      var init, start := steps[..|steps| - 1], EmptyQueue(nextId);
      var before := RunSteps(start, init).value;
      EveryRunBacksOff(init, nextId);
      StepKeepsArmed(before, steps[|steps| - 1]);
      forall w | w in RunSteps(start, steps).value.entries
        ensures RunSteps(start, steps).value.entries[w].lastTimeout == Backoff(FailedAttempts(start, steps, w))
      {
        StepBacksOff(before, steps[|steps| - 1], w, FailedAttempts(start, init, w));
      }
    }
  }

  ghost predicate Attempting(s: State, w: string) {
    exists t :: t in s.attempts && s.attempts[t].workflow == w
  }

  /** A workflow is queued anew only while no attempt of it is running. */
  ghost predicate Undisturbed(s: State, step: Step) {
    step.Enqueue? ==> !Attempting(s, step.workflow)
  }

  ghost predicate UndisturbedRun(s: State, steps: seq<Step>)
    decreases |steps|
  {
    steps != [] ==>
      var init := steps[..|steps| - 1];
      UndisturbedRun(s, init) && (RunSteps(s, init).Some? ==> Undisturbed(RunSteps(s, init).value, steps[|steps| - 1]))
  }

  ghost predicate IsCurrent(s: State, t: nat, retry: Retry) {
    && retry.workflow in s.entries
    && s.entries[retry.workflow].timeout == t && s.entries[retry.workflow].activation == retry.activation
  }

  /** Timers and running attempts belong to the current entry of their workflow. */
  ghost predicate Healthy(s: State) {
    && (forall t :: t in s.timers ==> t < s.nextId && t !in s.attempts && IsCurrent(s, t, s.timers[t]))
    && (forall t :: t in s.attempts ==>
          t < s.nextId && (s.attempts[t].workflow in s.entries ==> IsCurrent(s, t, s.attempts[t])))
    && (forall w :: w in s.entries ==>
          var t := s.entries[w].timeout;
          && t < s.nextId
          && (t in s.timers ==> s.timers[t].workflow == w)
          && (t in s.attempts ==> s.attempts[t].workflow == w))
  }

  ghost predicate OneTimerEach(s: State) {
    forall a, b :: a in s.timers && b in s.timers && s.timers[a].workflow == s.timers[b].workflow ==> a == b
  }

  lemma StepKeepsHealthy(s: State, step: Step)
    requires Healthy(s) && Enabled(s, step) && Undisturbed(s, step)
    ensures Healthy(Next(s, step))
  {
    if step.Finish? {
      FinishKeepsHealthy(s, step.timer, step.outcome);
    } else if step.RemoveAll? {
      forall t | t in s.timers ensures t !in Next(s, step).timers {
        assert IsCurrent(s, t, s.timers[t]);
      }
    }
  }

  lemma FinishKeepsHealthy(s: State, t: nat, outcome: Outcome)
    requires Healthy(s) && t in s.attempts
    ensures Healthy(Next(s, Finish(t, outcome)))
  {
    var retry := s.attempts[t];
    if retry.workflow in s.entries {
      assert IsCurrent(s, t, retry);
    }
  }

  /** Clearing the queue of a run without disturbance leaves no entry and no timer. */
  lemma RemoveAllClears(s: State)
    requires Healthy(s)
    ensures Next(s, RemoveAll).entries == map[] && Next(s, RemoveAll).timers == map[]
  {
    forall t | t in s.timers ensures t !in Next(s, RemoveAll).timers {
      assert IsCurrent(s, t, s.timers[t]);
    }
  }

  lemma {:induction false} RunStaysHealthy(s: State, steps: seq<Step>)
    requires Healthy(s) && RunSteps(s, steps).Some? && UndisturbedRun(s, steps)
    ensures Healthy(RunSteps(s, steps).value)
    decreases |steps|
  {
    if steps != [] {
      var init := steps[..|steps| - 1];
      RunStaysHealthy(s, init);
      StepKeepsHealthy(RunSteps(s, init).value, steps[|steps| - 1]);
    }
  }

  /** Every continuation that queues nothing during an attempt of it keeps one timer per workflow. */
  ghost predicate StaysOneTimerEach(s: State) {
    forall steps :: RunSteps(s, steps).Some? && UndisturbedRun(s, steps) ==> OneTimerEach(RunSteps(s, steps).value)
  }

  /**
    The exact condition under which a workflow can be queued without ever being retried by two
    timers at once: no attempt of it is running.
   */
  lemma EnqueueIsSafeIffNoAttemptRuns(s: State, w: string)
    requires Healthy(s)
    ensures StaysOneTimerEach(Next(s, Enqueue(w))) <==> !Attempting(s, w)
  {
    var queued := Next(s, Enqueue(w));
    if Attempting(s, w) {
      var t :| t in s.attempts && s.attempts[t].workflow == w;
      SecondTimer(s, w, t);
      var one := [Finish(t, OtherFailure)];
      assert one[..0] == [] && UndisturbedRun(queued, []);
      assert RunSteps(queued, one) == Some(Next(queued, one[0])) && UndisturbedRun(queued, one);
    } else {
      StepKeepsHealthy(s, Enqueue(w));
      forall steps | RunSteps(queued, steps).Some? && UndisturbedRun(queued, steps)
        ensures OneTimerEach(RunSteps(queued, steps).value)
      {
        RunStaysHealthy(queued, steps);
      }
    }
  }

  /**
    The attempt that was running re-arms through the new entry, whose own timer stays armed;
    that one even outlives the removal of the workflow from the queue.
   */
  lemma SecondTimer(s: State, w: string, t: nat)
    requires t in s.attempts && s.attempts[t].workflow == w
    ensures var end := Next(Next(s, Enqueue(w)), Finish(t, OtherFailure));
            && s.nextId + 1 in end.timers && s.nextId + 2 in end.timers && !OneTimerEach(end)
            && end.timers[s.nextId + 1].workflow == end.timers[s.nextId + 2].workflow == w
            && s.nextId + 1 in Next(end, Remove(w)).timers
  {
  }

  /**
    How an attempt ends, on entries and timers: one that returns leaves both, a refused one
    takes only the entry it was made for, and a failed one moves an entry to a new timer.
   */
  lemma FinishMeaning(s: State, t: nat, outcome: Outcome)
    requires t in s.attempts
    ensures var next, w := Next(s, Finish(t, outcome)), s.attempts[t].workflow;
            && next.attempts == s.attempts - {t}
            && (forall other :: other != w ==> (other in next.entries <==> other in s.entries))
            && (forall other :: other != w && other in s.entries ==> next.entries[other] == s.entries[other])
            && (w !in s.entries || outcome == Returned ==> next.entries == s.entries && next.timers == s.timers)
            && (w in s.entries && outcome == PolicyRefusal ==>
                  if s.entries[w].activation == s.attempts[t].activation
                  then w !in next.entries && next.timers == s.timers - {s.entries[w].timeout}
                  else next.entries == s.entries && next.timers == s.timers)
            && (w in s.entries && (outcome == IsolateFailure || outcome == OtherFailure) ==>
                  && w in next.entries && next.entries[w].activation == s.entries[w].activation
                  && next.entries[w].timeout == s.nextId
                  && next.timers == s.timers[s.nextId := Retry(w, s.attempts[t].activation, next.entries[w].lastTimeout)])
  {
  }

  /** The timer is neither armed nor running, and will never be again. */
  ghost predicate Spent(s: State, t: nat) {
    t < s.nextId && t !in s.timers && t !in s.attempts
  }

  /** A queued workflow waits for its timer, is being attempted, or was attempted to no effect. */
  ghost predicate Accounted(s: State, steps: seq<Step>) {
    && (forall t, outcome :: Finish(t, outcome) in steps ==> Spent(s, t))
    && (forall w :: w in s.entries ==>
          var t := s.entries[w].timeout; t in s.timers || t in s.attempts || Finish(t, Returned) in steps)
  }

  lemma StepKeepsAccounted(s: State, steps: seq<Step>, step: Step)
    requires Healthy(s) && Accounted(s, steps) && Enabled(s, step) && Undisturbed(s, step)
    ensures Accounted(Next(s, step), steps + [step])
  {
    var next := Next(s, step);
    forall t, outcome | Finish(t, outcome) in steps + [step] ensures Spent(next, t) {
      assert Finish(t, outcome) in steps || step == Finish(t, outcome);
    }
    forall w | w in next.entries
      ensures var t := next.entries[w].timeout;
              t in next.timers || t in next.attempts || Finish(t, Returned) in steps + [step]
    {
      assert step in steps + [step];
    }
  }

  /**
    Over every run from the empty queue that queues no workflow during an attempt of it: a
    workflow has at most one live timer, which belongs to its current entry.  A queued workflow
    has none iff its timer has fired and the attempt is still running or has returned without
    taking the workflow off the queue.
   */
  lemma {:induction false} EveryRunIsHealthy(steps: seq<Step>, nextId: nat)
    requires RunSteps(EmptyQueue(nextId), steps).Some? && UndisturbedRun(EmptyQueue(nextId), steps)
    ensures var s := RunSteps(EmptyQueue(nextId), steps).value;
            && Healthy(s) && OneTimerEach(s) && Accounted(s, steps)
            && forall w :: w in s.entries ==>
                 var t := s.entries[w].timeout;
                 (forall other :: other in s.timers ==> s.timers[other].workflow != w)
                 <==> t in s.attempts || Finish(t, Returned) in steps
    decreases |steps|
  {
    if steps != [] {
      var init := steps[..|steps| - 1];
      EveryRunIsHealthy(init, nextId);
      var before := RunSteps(EmptyQueue(nextId), init).value;
      StepKeepsHealthy(before, steps[|steps| - 1]);
      StepKeepsAccounted(before, init, steps[|steps| - 1]);
      assert init + [steps[|steps| - 1]] == steps;
    }
    HealthyAndAccounted(RunSteps(EmptyQueue(nextId), steps).value, steps);
  }

  lemma HealthyAndAccounted(s: State, steps: seq<Step>)
    requires Healthy(s) && Accounted(s, steps)
    ensures forall w :: w in s.entries ==>
              var t := s.entries[w].timeout;
              (forall other :: other in s.timers ==> s.timers[other].workflow != w)
              <==> t in s.attempts || Finish(t, Returned) in steps
  {
  }

  class Manager {
    var queuedActivations: map<string, Entry>
    var timers: map<nat, Retry>
    var attempts: map<nat, Retry>
    var nextId: nat

    constructor ()
      ensures View() == EmptyQueue(0)
    {
      queuedActivations := map[];
      timers := map[];
      attempts := map[];
      nextId := 0;
    }

    ghost function View(): State
      reads this
    {
      State(queuedActivations, timers, attempts, nextId)
    }

    method SetTimeout(retry: Retry) returns (id: nat)
      modifies this`timers, this`nextId
      ensures id == old(nextId) && nextId == id + 1 && timers == old(timers)[id := retry]
    {
      id := nextId;
      timers := timers[id := retry];
      nextId := nextId + 1;
    }

    method AddQueuedWorkflowActivation(w: string)
      modifies this
      ensures View() == Next(old(View()), Enqueue(w))
    {
      RemoveQueuedWorkflowActivation(w);
      var own := nextId;
      nextId := nextId + 1;
      var timeout := SetTimeout(Retry(w, own, INITIAL_TIMEOUT));
      queuedActivations := queuedActivations[w := Entry(own, INITIAL_TIMEOUT, timeout)];
    }

    method RemoveQueuedWorkflowActivation(w: string)
      modifies this
      ensures View() == RemoveEntry(old(View()), w) == Next(old(View()), Remove(w))
    {
      if w in queuedActivations {
        timers := timers - {queuedActivations[w].timeout};
        queuedActivations := queuedActivations - {w};
      }
    }

    method RemoveAllQueuedWorkflowActivations()
      modifies this
      ensures View() == Next(old(View()), RemoveAll)
    {
      ghost var s := View();
      var keys := KeysInOrder(queuedActivations);
      for i := 0 to |keys|
        invariant View() == RemoveEach(s, keys[..i])
      {
        assert keys[..i + 1][..i] == keys[..i];
        RemoveQueuedWorkflowActivation(keys[i]);
      }
      assert keys[..|keys|] == keys;
      RemoveEachRemoves(s, keys);
      assert Members(keys) == s.entries.Keys;
    }

    /** A timer fires: its callback runs up to the first wait of `add`. */
    method StartRetry(t: nat)
      requires t in timers
      modifies this
      ensures View() == Next(old(View()), Fire(t))
    {
      attempts := attempts[t := timers[t]];
      timers := timers - {t};
    }

    /** The rest of the callback, once `add` has returned or thrown. */
    method FinishRetry(t: nat, outcome: Outcome)
      requires t in attempts
      modifies this
      ensures View() == Next(old(View()), Finish(t, outcome))
    {
      var w, own := attempts[t].workflow, attempts[t].activation;
      attempts := attempts - {t};
      if outcome == Returned {
        return;
      }
      if outcome == PolicyRefusal {
        if w in queuedActivations && queuedActivations[w].activation == own {
          RemoveQueuedWorkflowActivation(w);
        }
        return;
      }
      if w !in queuedActivations {
        return;
      }
      var entry := queuedActivations[w];
      var lastTimeout := entry.lastTimeout;
      if outcome != IsolateFailure && lastTimeout < MAX_TIMEOUT {
        lastTimeout := Min(lastTimeout * 2, MAX_TIMEOUT);
      }
      var timeout := SetTimeout(Retry(w, own, lastTimeout));
      queuedActivations := queuedActivations[w := Entry(entry.activation, lastTimeout, timeout)];
    }
  }
}
