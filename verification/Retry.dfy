/** `withRetry` of the wait tracker: bounded attempts with exponential backoff. */
module Retry {
  import opened Basics

  const MAX_PARENT_RESUME_ATTEMPTS := 3

  datatype Attempt = Succeeds | FailsRetryably | FailsForGood

  /** The attempt after which there is no other. */
  ghost predicate IsLast(outcome: nat -> Attempt, maxAttempts: int, n: nat) {
    n >= 1 && (outcome(n) != FailsRetryably || n >= maxAttempts)
  }

  /**
    The operation runs up to the first attempt that settles the matter, returns iff that one
    succeeded, and the pauses before it double from 100 ms.
   */
  method WithRetry(outcome: nat -> Attempt, maxAttempts: int) returns (calls: nat, sleptMs: nat, returned: bool)
    ensures IsLast(outcome, maxAttempts, calls)
    ensures forall m :: 1 <= m < calls ==> !IsLast(outcome, maxAttempts, m)
    ensures returned <==> outcome(calls) == Succeeds
    ensures sleptMs == 100 * (Pow2(calls - 1) - 1)
  {
    var attempt := 1;
    calls, sleptMs, returned := 0, 0, false;
    var pause := 100;
    while true
      invariant attempt >= 1 && calls == attempt - 1
      invariant forall m :: 1 <= m < attempt ==> !IsLast(outcome, maxAttempts, m)
      invariant pause == 100 * Pow2(attempt - 1)
      invariant sleptMs == 100 * (Pow2(attempt - 1) - 1)
      decreases maxAttempts - attempt
    {
      calls := calls + 1;
      match outcome(attempt)
      case Succeeds =>
        returned := true;
        return;
      case FailsForGood =>
        return;
      case FailsRetryably =>
        if attempt >= maxAttempts {
          return;
        }
      sleptMs := sleptMs + pause;
      pause := 2 * pause;
      attempt := attempt + 1;
    }
  }

  /** The first success comes at attempt `n`, after failures that may be tried again. */
  ghost predicate SucceedsAt(outcome: nat -> Attempt, n: nat) {
    outcome(n) == Succeeds && forall m :: 1 <= m < n ==> outcome(m) == FailsRetryably
  }

  /** As the wait tracker uses it for the patch and for the claim: at most three calls and 300 ms of pauses. */
  method RetryParentResume(outcome: nat -> Attempt) returns (calls: nat, sleptMs: nat, returned: bool)
    ensures 1 <= calls <= 3 && sleptMs <= 300
    ensures returned <==> exists n: nat :: 1 <= n <= 3 && SucceedsAt(outcome, n)
    ensures forall m :: 1 <= m < calls ==> outcome(m) == FailsRetryably
    ensures calls < 3 ==> outcome(calls) != FailsRetryably
  {
    calls, sleptMs, returned := WithRetry(outcome, MAX_PARENT_RESUME_ATTEMPTS);
    assert IsLast(outcome, MAX_PARENT_RESUME_ATTEMPTS, 3);
    forall m | 1 <= m < calls ensures outcome(m) == FailsRetryably {
      assert !IsLast(outcome, MAX_PARENT_RESUME_ATTEMPTS, m);
    }
    assert returned ==> SucceedsAt(outcome, calls);
  }
}
