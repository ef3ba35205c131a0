/**
 * The loop counter `retryCount` of the retry loop is a Java `int`: its
 * increment wraps from 2^31 - 1 to -2^31. The rest of the model counts with
 * unbounded integers; this module states when that is exact and when it is not.
 */
module Int32Counter {

  newtype int32 = x: int | -0x8000_0000 <= x < 0x8000_0000

  const IntMax: int32 := 0x7fff_ffff
  const IntMin: int32 := -0x8000_0000

  /** `retryCount++` on a Java `int`, two's-complement wrap-around included. */
  function Inc32(x: int32): (r: int32)
    ensures (r as int - x as int - 1) % 0x1_0000_0000 == 0
  {
    if x == IntMax then IntMin else x + 1
  }

  /** The loop guard `!performedTaskSuccessfully && retryCount <= noOfAttempts` after a failed attempt. */
  predicate GuardAfterFailure32(retryCount: int32, noOfAttempts: int32)
  {
    Inc32(retryCount) <= noOfAttempts
  }

  /**
   * While the guard held and `noOfAttempts` is below `Integer.MAX_VALUE`, the
   * increment does not wrap: the 32-bit counter and the unbounded one agree,
   * and the guard after the attempt is the unbounded guard.
   */
  lemma NoWrapBelowMax(retryCount: int32, noOfAttempts: int32)
    requires retryCount <= noOfAttempts < IntMax
    ensures Inc32(retryCount) as int == retryCount as int + 1
    ensures GuardAfterFailure32(retryCount, noOfAttempts) <==> retryCount as int + 1 <= noOfAttempts as int
  {
  }

  /**
   * With `noOfAttempts == Integer.MAX_VALUE` and every attempt failing, the
   * attempt numbered `Integer.MAX_VALUE` wraps the counter to `Integer.MIN_VALUE`,
   * the guard still holds, and the task runs more than `noOfAttempts` times.
   */
  lemma WrapAdmitsExtraAttempt()
    ensures Inc32(IntMax) == IntMin
    ensures GuardAfterFailure32(IntMax, IntMax)
  {
  }
}
