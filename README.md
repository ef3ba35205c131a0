# Attempt-bounded retry loop of the Selenium test stabilizer

This project models `SeleniumUtils.performTaskUntil`, the retry loop that makes
flaky Selenium actions usable in tests. The loop runs a task against the
browser session. Then it waits for a completion predicate. A throw from either
step is caught, and the loop moves on to the next attempt. It stops at the
first attempt that succeeds, or after `noOfAttempts` attempts. When no attempt
succeeded it throws `TimeoutException("Task not completed in " + retryCount)`.

How the model is built:

- The browser session, and everything the task and the predicate look at, is an
  opaque context of type `S`.
- One call of the task is a function `S -> TaskRun<S>`. It either returned or
  threw, and either way it leaves a new context (`RetryEngine.TaskRun`).
- The step `new FluentWait<>(webDriver).withTimeout(...).until(isTaskCompleted)`
  becomes one boolean per context, `isTaskCompleted: S -> bool`. It is true when
  the wait returns. It is false when the wait times out or the predicate throws.
- `RetryEngine.PerformTaskUntil` is the loop itself, with the counters
  `retryCount` and `performedTaskSuccessfully`. It returns the outcome: `Ok`,
  or `Exhausted(retryCount)` for the exception. It also returns the context left
  behind and the number of task calls.
- `RetryEngine.Retry` is an independent recursive reference definition of the same
  loop. `StateAfter` and `SucceedsAt` say what attempt `k` sees and whether it succeeds.
- `RetryScenarios` instantiates the engine with the counter task and the
  "counter is 4" predicate from the two attempt-bounded tests.
- `Int32Counter` models the Java `int` width of `retryCount` (see Findings).

The count in the exhaustion error is kept exactly as the code computes it. It
is the loop counter after the loop, which is one more than the number of
attempts made: `noOfAttempts + 1` when `noOfAttempts >= 1`, and 1 when
`noOfAttempts <= 0`.

## Model

| member | source | states |
|---|---|---|
| RetryEngine.PerformTaskUntil | src/main/java/com/rahul/test_stabilizer/SeleniumUtils.java:48-69 | The task runs at most `noOfAttempts` times, and never when `noOfAttempts <= 0`. Every attempt before the last one failed, and its failure was swallowed. The call returns normally exactly when the last attempt made succeeded. It throws exactly when none of the allowed attempts succeeded. On a throw, all `noOfAttempts` attempts were made and the reported count is attempts + 1. The returned context is the one the last attempt left. The result equals the reference `Retry`. |
| RetryEngine.Retry | src/main/java/com/rahul/test_stabilizer/SeleniumUtils.java:51-67 | Reference definition of the loop. A normal return happens after more than `made` and at most `made + remaining` attempts. The exhaustion count is `made + remaining + 1`. |
| RetryEngine.RetryFrom | src/main/java/com/rahul/test_stabilizer/SeleniumUtils.java:54-67 | Started after `m` failed attempts, the loop either returns at the first successful attempt after `m`, with every attempt in between failed and the context that attempt left, or it has seen every attempt up to `n` fail and reports `n + 1`. |
| RetryEngine.StopsAtFirstSuccess | src/main/java/com/rahul/test_stabilizer/SeleniumUtils.java:54-58 | If attempt `k <= n` is the first success, the call returns normally after exactly `k` task calls and makes no further attempt. |
| RetryEngine.AllFailuresExhaust | src/main/java/com/rahul/test_stabilizer/SeleniumUtils.java:54-67 | If all `n` allowed attempts fail, the task ran `n` times and the exception reports `n + 1`. |
| RetryEngine.ExhaustedIffNoSuccess | src/main/java/com/rahul/test_stabilizer/SeleniumUtils.java:66-68 | The exception is thrown if and only if none of the allowed attempts succeeded. |
| RetryScenarios.CounterAfter | src/test/java/com/rahul/test_stabilizer/SeleniumUtilsTest.java:51-52 | With the incrementing task, the counter holds `k` after `k` attempts. |
| RetryScenarios.CounterSucceedsOnlyAtFour | src/test/java/com/rahul/test_stabilizer/SeleniumUtilsTest.java:52-53 | With the predicate `counter == 4`, attempt `k` succeeds if and only if `k == 4`. |
| RetryScenarios.ConditionMetInFourAttempts | src/test/java/com/rahul/test_stabilizer/SeleniumUtilsTest.java:49-55 | With 4 attempts allowed, the loop returns normally after 4 attempts, and the counter ends at 4. |
| RetryScenarios.ConditionNotMetInThreeAttempts | src/test/java/com/rahul/test_stabilizer/SeleniumUtilsTest.java:58-63 | With 3 attempts allowed, the loop throws with count 4, and the counter ends at 3. |
| RetryScenarios.PerformTaskUntilConditionMet | src/test/java/com/rahul/test_stabilizer/SeleniumUtilsTest.java:49-56 | Calling the loop as the first test does leaves the counter at 4. |
| RetryScenarios.ThrowWhenConditionNotMetInThreeAttempts | src/test/java/com/rahul/test_stabilizer/SeleniumUtilsTest.java:58-64 | Calling the loop as the second test does gives the exhaustion error and leaves the counter at 3. |
| Int32Counter.Inc32 | src/main/java/com/rahul/test_stabilizer/SeleniumUtils.java:63 | `retryCount++` on a Java `int` is congruent to the unbounded increment modulo 2^32. |
| Int32Counter.NoWrapBelowMax | src/main/java/com/rahul/test_stabilizer/SeleniumUtils.java:54-63 | While the guard holds and `noOfAttempts < Integer.MAX_VALUE`, the 32-bit counter agrees with the unbounded one, and so does the guard. |
| Int32Counter.WrapAdmitsExtraAttempt | src/main/java/com/rahul/test_stabilizer/SeleniumUtils.java:54-63 | With `noOfAttempts == Integer.MAX_VALUE`, the counter wraps to `Integer.MIN_VALUE` and the guard admits one more attempt. |

## Left out

- `performTaskUntilNoException` (SeleniumUtils.java:81-96) is not modelled. All of its control flow lives inside Selenium's `FluentWait`: the overall timeout, the polling interval, the sleeping and the `TimeoutException`. That is wall-clock behaviour of a library that is not part of this model.
- The timed polling inside `FluentWait.until` is not modelled. The `waitInterval` and `TimeUnit` arguments are folded into `isTaskCompleted`, which gives one succeed/fail answer per context. The predicate is taken to leave the context unchanged.
- The `LOGGER.debug` call for each failed attempt is left out. It is a side effect with no functional content.
- The model does not tell a task throw from a wait failure. The source does not either: both end as one failed attempt.
- The message text of the `TimeoutException` is reduced to the count it carries.
- The test harness (ChromeDriver setup and teardown, loading `config.properties`) is left out. It is browser lifecycle and file I/O.
- RetryEngine.PerformTaskUntil: counts `retryCount` with unbounded integers, so it does not model the 32-bit wrap-around. `Int32Counter` shows this is exact for every `noOfAttempts < Integer.MAX_VALUE`, and the one value where it is not is reported under Findings.

## Findings

| source | as written | input that shows it | evidently intended | confidence | as-written member | corrected member |
|---|---|---|---|---|---|---|
| src/main/java/com/rahul/test_stabilizer/SeleniumUtils.java:52-63 | `retryCount` is an `int` that is incremented after every attempt and compared with `noOfAttempts`. | `noOfAttempts == Integer.MAX_VALUE` with a task that never succeeds. After attempt 2^31 - 1 the counter wraps to -2^31, the guard still holds, and the task runs again. The loop never ends. | The task runs at most `noOfAttempts` times, and the loop then throws. This holds with a counter that does not wrap, such as a `long`. | medium; not executed | Int32Counter.WrapAdmitsExtraAttempt | RetryEngine.PerformTaskUntil |
