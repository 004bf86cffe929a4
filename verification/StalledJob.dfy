/**
  `processError`: what becomes of an execution whose job failed.  In queue mode the row is read
  again, for a stalled job over a grace window, before the run may be recorded as lost.
 */
module StalledJob {
  import opened Wrappers
  import opened ExecutionData

  const GRACE_WINDOW_MS := 30000.0
  const RECHECK_INTERVAL_MS := 1000.0
  const RECHECK_ATTEMPTS := 30
  const JITTER_RATIO := 0.2

  /** A failure that was handled elsewhere already, a stalled job, or any other error. */
  datatype Failure = AlreadyHandled | Stalled | OtherError

  /**
    Everything outside the method: the row status at each read (`None` for a missing row), the
    random spread of each pause, the time each read and each pause costs beyond its due, the
    status of the full row when its data can be read, and whether the crash mark found the row.
   */
  datatype World = World(rowStatus: nat -> Option<ExecutionStatus>, spread: nat -> real, readMs: nat -> real,
                         lagMs: nat -> real, stored: Option<ExecutionStatus>, crashClaimed: bool)

  ghost predicate Sane(w: World) {
    && (forall i :: -1.0 <= w.spread(i) < 1.0)
    && (forall i :: w.readMs(i) >= 0.0 && w.lagMs(i) >= 0.0)
  }

  /** A registry entry resolved with a run of this status, or with nothing. */
  datatype Finalization = WithRun(status: ExecutionStatus) | WithoutRun

  /** What the call did: reads, pauses, registry finalisations, and failures recorded over the row. */
  datatype Report = Report(readCount: nat, sleeps: nat, sleptMs: real, finalized: seq<Finalization>,
                           crashMarked: bool, recorded: Option<ExecutionStatus>)

  predicate Recovered(status: Option<ExecutionStatus>) {
    status == Some(Success) || status == Some(Waiting)
  }

  /** A read that ends the waiting. */
  predicate Decisive(status: Option<ExecutionStatus>) {
    status.None? || status.value == Waiting || IsTerminal(status.value)
  }

  /** The status of the run a recovered execution is finalised with. */
  function RecoveredRun(w: World, status: ExecutionStatus): ExecutionStatus {
    if w.stored.Some? then w.stored.value else if status == Waiting then Waiting else Error
  }

  /** The recheck interval with its spread. */
  function Pause(spread: real): (r: real)
    requires -1.0 <= spread < 1.0
    ensures r == 1000.0 + 200.0 * spread && 800.0 <= r < 1200.0
  {
    RECHECK_INTERVAL_MS + RECHECK_INTERVAL_MS * JITTER_RATIO * spread
  }

  /** The pauses before read `n`: a second each, spread by up to a fifth either way. */
  ghost function Pauses(w: World, n: nat): real {
    if n == 0 then 0.0 else Pauses(w, n - 1) + 1000.0 + 200.0 * w.spread(n - 1)
  }

  /** The time on the clock after read `n`. */
  ghost function Elapsed(w: World, n: nat): real {
    if n == 0 then w.readMs(0)
    else Elapsed(w, n - 1) + 1000.0 + 200.0 * w.spread(n - 1) + w.lagMs(n - 1) + w.readMs(n)
  }

  /** A stalled job is watched until a read decides, for half a minute, or for 31 reads. */
  ghost predicate WatchEnds(w: World, count: nat) {
    && count >= 1
    && var status := w.rowStatus(count - 1);
       || (status != Some(New) && status != Some(Running) && status != Some(Unknown))
       || count == 31
       || Elapsed(w, count - 1) >= 30000.0
  }

  lemma {:induction false} PausesWithinElapsed(w: World, n: nat)
    requires Sane(w)
    ensures Pauses(w, n) <= Elapsed(w, n)
    decreases n
  {
    if n > 0 {
      PausesWithinElapsed(w, n - 1);
    }
  }

  /** As long as the watch goes on, the pauses fit into the window and one more pause. */
  lemma PausesAreBounded(w: World, n: nat)
    requires Sane(w) && (n > 0 ==> !WatchEnds(w, n))
    ensures Pauses(w, n) < 31200.0
  {
    if n > 0 {
      PausesWithinElapsed(w, n - 1);
    }
  }

  method ProcessError(failure: Failure, queueMode: bool, w: World) returns (r: Report)
    requires Sane(w)
    // how often the row is read, and how long that can take
    ensures failure == AlreadyHandled || !queueMode ==> r.readCount == 0
    ensures failure != AlreadyHandled && queueMode ==> 1 <= r.readCount <= if failure == Stalled then 31 else 1
    ensures r.sleeps == if r.readCount == 0 then 0 else r.readCount - 1
    ensures r.sleptMs == Pauses(w, r.sleeps) && r.sleptMs < 31200.0
    // a stalled job is read until the watch ends and no longer
    ensures failure == Stalled && queueMode ==>
              WatchEnds(w, r.readCount) && forall n :: 1 <= n < r.readCount ==> !WatchEnds(w, n)
    // every read but the last found the execution in progress
    ensures forall i :: 0 <= i < r.readCount - 1 ==>
              w.rowStatus(i) == Some(New) || w.rowStatus(i) == Some(Running) || w.rowStatus(i) == Some(Unknown)
    // exactly when the execution is recorded as failed, and as what
    ensures r.recorded.Some? <==>
              && failure != AlreadyHandled
              && (forall i :: 0 <= i < r.readCount ==>
                    w.rowStatus(i) != Some(Success) && w.rowStatus(i) != Some(Waiting) && w.rowStatus(i) != Some(Canceled))
              && (failure == Stalled ==> w.crashClaimed)
    ensures r.recorded.Some? ==> r.recorded.value == if failure == Stalled then Crashed else Error
    ensures r.crashMarked <==>
              && failure == Stalled
              && forall i :: 0 <= i < r.readCount ==>
                   w.rowStatus(i) != Some(Success) && w.rowStatus(i) != Some(Waiting) && w.rowStatus(i) != Some(Canceled)
    // what the registry entry is resolved with, at most once
    ensures r.finalized ==
              if failure == AlreadyHandled then []
              else if r.readCount > 0 && w.rowStatus(r.readCount - 1) == Some(Waiting)
                then [WithRun(if w.stored.Some? then w.stored.value else Waiting)]
              else if r.readCount > 0 && w.rowStatus(r.readCount - 1) == Some(Success)
                then [WithRun(if w.stored.Some? then w.stored.value else Error)]
              else if r.readCount > 0 && w.rowStatus(r.readCount - 1) == Some(Canceled) then []
              else if r.recorded.Some? then [WithRun(r.recorded.value)] else [WithoutRun]
  {
    r := Report(0, 0, 0.0, [], false, None);
    if failure == AlreadyHandled {
      return;
    }
    if queueMode {
      var count, sleptMs := WatchRow(failure == Stalled, w);
      PausesAreBounded(w, count - 1);
      r := r.(readCount := count, sleeps := count - 1, sleptMs := sleptMs);
      var status := w.rowStatus(count - 1);
      if Recovered(status) {
        r := r.(finalized := [WithRun(RecoveredRun(w, status.value))]);
        return;
      }
      if status == Some(Canceled) {
        return;
      }
    }
    if failure == Stalled {
      r := r.(crashMarked := true);
      if !w.crashClaimed {
        r := r.(finalized := [WithoutRun]);
        return;
      }
    }
    var status := if failure == Stalled then Crashed else Error;
    r := r.(finalized := [WithRun(status)]);
    r := r.(recorded := Some(status));
  }

  /** The loop of `processError`: reads and pauses until a read decides, the window is over, or the attempts are. */
  method WatchRow(stalled: bool, w: World) returns (count: nat, sleptMs: real)
    requires Sane(w)
    ensures 1 <= count <= if stalled then 31 else 1
    ensures stalled ==> WatchEnds(w, count)
    ensures forall n :: 1 <= n < count ==> !WatchEnds(w, n)
    ensures sleptMs == Pauses(w, count - 1)
    ensures forall i :: 0 <= i < count - 1 ==> !Decisive(w.rowStatus(i))
  {
    var rechecks := if stalled then RECHECK_ATTEMPTS else 0;
    var recheckUntil := if stalled then GRACE_WINDOW_MS else 0.0;
    var now := 0.0;
    sleptMs := 0.0;
    var recheck := 0;
    while true
      invariant 0 <= recheck <= rechecks
      invariant sleptMs == Pauses(w, recheck)
      invariant now + w.readMs(recheck) == Elapsed(w, recheck)
      invariant forall n :: 1 <= n <= recheck ==> !WatchEnds(w, n)
      invariant forall i :: 0 <= i < recheck ==> !Decisive(w.rowStatus(i))
      decreases rechecks - recheck
    {
      var status := w.rowStatus(recheck);
      now := now + w.readMs(recheck);
      count := recheck + 1;
      if Decisive(status) {
        return;
      }
      assert now == Elapsed(w, recheck);
      if recheck >= rechecks || now >= recheckUntil {
        return;
      }
      assert !WatchEnds(w, recheck + 1);
      var pause := Pause(w.spread(recheck));
      sleptMs := sleptMs + pause;
      now := now + pause + w.lagMs(recheck);
      recheck := recheck + 1;
    }
  }
}
