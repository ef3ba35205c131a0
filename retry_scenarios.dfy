/**
 * The two attempt-bounded scenarios of the test suite: the task increments a
 * counter that starts at 0 and the completion predicate is "the counter is 4".
 * The counter is the whole context here.
 */
module RetryScenarios {
  import opened RetryEngine

  /** The task of both tests: `counter.incrementAndGet()`, which never throws. */
  function Increment(counter: int): TaskRun<int>
  {
    Returned(counter + 1)
  }

  /** The completion predicate of both tests: `counter.get() == 4`. */
  predicate ReachedFour(counter: int)
  {
    counter == 4
  }

  /** After `k` attempts the counter holds `k`. */
  lemma {:induction false} CounterAfter(k: nat)
    ensures StateAfter(Increment, ReachedFour, 0, k) == k
  {
    if k > 0 {
      CounterAfter(k - 1);
    }
  }

  /** Only the fourth attempt sees the predicate hold. */
  lemma CounterSucceedsOnlyAtFour(k: nat)
    requires k >= 1
    ensures SucceedsAt(Increment, ReachedFour, 0, k) <==> k == 4
  {
    CounterAfter(k - 1);
  }

  /** With four attempts allowed, the call returns after the fourth one, leaving the counter at 4. */
  lemma ConditionMetInFourAttempts()
    ensures Retry(Increment, ReachedFour, 0, Cap(4), 0) == Run(Ok(4), 4)
  {
    forall j | 1 <= j <= 4
      ensures SucceedsAt(Increment, ReachedFour, 0, j) <==> j == 4
    {
      CounterSucceedsOnlyAtFour(j);
    }
    CounterAfter(4);
    StopsAtFirstSuccess(Increment, ReachedFour, 0, 4, 4);
  }

  /** With three attempts allowed, all three fail, the counter ends at 3 and the error reports 4. */
  lemma ConditionNotMetInThreeAttempts()
    ensures Retry(Increment, ReachedFour, 0, Cap(3), 0) == Run(Exhausted(4), 3)
  {
    forall j | 1 <= j <= 3
      ensures !SucceedsAt(Increment, ReachedFour, 0, j)
    {
      CounterSucceedsOnlyAtFour(j);
    }
    CounterAfter(3);
    AllFailuresExhaust(Increment, ReachedFour, 0, 3);
  }

  /** The first test: the call returns normally and the counter ends at 4. */
  method PerformTaskUntilConditionMet() returns (counter: int)
    ensures counter == 4
  {
    ConditionMetInFourAttempts();
    var result, ctx, invocations := PerformTaskUntil(0, Increment, ReachedFour, 4);
    assert result == Ok(4);
    counter := ctx;
  }

  /** The second test: the call ends in the exhaustion error after three attempts. */
  method ThrowWhenConditionNotMetInThreeAttempts() returns (result: Outcome, counter: int)
    ensures result == Exhausted(4) && counter == 3
  {
    ConditionNotMetInThreeAttempts();
    var invocations;
    result, counter, invocations := PerformTaskUntil(0, Increment, ReachedFour, 3);
  }
}
