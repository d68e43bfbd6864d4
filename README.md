# Scatter-gather aggregation, modelled in Dafny

This project models `AsyncProcessor`, the scatter-gather engine of a small
Java library built on `CompletableFuture`. The processor sends one request
to N microservices. Each call is bounded by a 500 ms timeout
(`timedRetrieve`). The N outcomes are then combined under one of four
policies:

- **fail-fast** (`processAsyncFailFast`): the values joined by single
  spaces in input order, or the error of a failing call;
- **fail-partial** (`processAsyncFailPartial`): the list of successful
  values in input order;
- **fail-soft** (`processAsyncFailSoft`): the values joined by single
  spaces, with a caller-supplied fallback at every failed position;
- **completion order** (`processAsyncCompletionOrder`): the successful
  values in the order the calls finish.

The first three reject a request whose service list and message list
differ in length. They return `InvalidArgument` and call nothing.

Threads are not simulated. Instead, scheduling becomes part of the input:

- A service is a function from its input message to a `Completion`. The
  call succeeds with a value at time t, fails with a message at time t,
  or hangs.
- `TimedRetrieve` races that completion against the 500 ms deadline and
  yields an `Outcome`: `Ok(value)`, `Failed(message)` or `TimedOut`.
- The order in which the calls finish is a permutation of the call
  indices. The caller of the model supplies it.

Files:

- `strings.dfy` (module `Strings`): `Join`, which is `Collectors.joining`, and
  its partner `Split`, with the round trips in both directions.
- `microservice.dfy` (module `Microservice`): the `Completion` of a call, the
  `Service` type, and the stock, failing and hanging services of the tests.
- `async_processor.dfy` (module `AsyncProcessor`): outcomes, the timeout,
  the four policies, the four public operations and the lemmas about them.
  Completion order is a method with a loop. Each call that finishes in time
  appends its value there, as `completionOrder::add` does. Helpers without
  rows of their own:
  - `Dispatch` pairs service i with message i and `Broadcast` sends one
    message to every service: the `IntStream` and `stream().map` of
    `AsyncProcessor.java:30-32`, `:48-55`, `:73-80` and `:97-100`;
  - `Settle` applies `TimedRetrieve` to every call, as each of those
    streams does;
  - `FirstFailure` is the lowest failing call, whose error `allOf` surfaces
    at `AsyncProcessor.java:34`;
  - `Substitute` puts the fallback in place of every failed call, as the
    `exceptionally` handlers of `AsyncProcessor.java:74-79` do.
- `scenarios.dfy` (module `Scenarios`): the concrete examples of the unit
  tests, stated as lemmas.

## Model

| member | source | states |
|---|---|---|
| `AsyncProcessor.TimedRetrieve` | src/main/java/AsyncProcessor.java:13-19 | a hanging call times out; a call that settles at or after the 500 ms deadline times out; a call that settles before it keeps its value or its failure message |
| `AsyncProcessor.SettleTime` | src/main/java/AsyncProcessor.java:15-18 | every timed call settles no later than the deadline, and it times out exactly when it settles at the deadline |
| `AsyncProcessor.AllSettled` | src/main/java/AsyncProcessor.java:30-34 | the join of all timed calls settles once the last call has settled; that is no later than one timeout period, however many calls there are and however many hang |
| `AsyncProcessor.FailFast` | src/main/java/AsyncProcessor.java:34-37 | the result is a success exactly when every call succeeded, and then it is the values joined by single spaces; otherwise it is the error of some failed or timed-out call, never a partial join |
| `AsyncProcessor.FailSoft` | src/main/java/AsyncProcessor.java:73-85 | with a single call, the result is that call's value, or exactly the fallback if the call failed |
| `AsyncProcessor.ProcessAsyncFailFast` | src/main/java/AsyncProcessor.java:23-38 | different list lengths give `InvalidArgument`, whatever the services would do, and that is the only source of `InvalidArgument`; otherwise the result succeeds exactly when every timed call succeeded, with the values joined in input order |
| `AsyncProcessor.ProcessAsyncFailPartial` | src/main/java/AsyncProcessor.java:40-63 | fails only on different list lengths, with `InvalidArgument`; otherwise it returns the successful values of the timed calls and never a per-call error |
| `AsyncProcessor.ProcessAsyncFailSoft` | src/main/java/AsyncProcessor.java:65-87 | fails only on different list lengths, with `InvalidArgument`; otherwise it returns the fail-soft join of the timed calls and never a per-call error |
| `AsyncProcessor.ProcessAsyncCompletionOrder` | src/main/java/AsyncProcessor.java:92-105 | the list holds the successful values in the given completion order, and holds them as a multiset equal to the successful values in input order; failed and timed-out calls are left out |
| `AsyncProcessor.ProcessAsyncCompletionOrderAsWritten` | src/main/java/AsyncProcessor.java:97-103 | as the code stands: the result succeeds exactly when every call succeeded, and then it is the values in the given completion order, a permutation of the input-order values; otherwise it is the error of some failed call |
| `AsyncProcessor.OkValuesAtOkPositions` | src/main/java/AsyncProcessor.java:57-61 | fail-partial is exactly the subsequence of successful values in input order: the j-th element is the value at the j-th successful position, so the length equals the number of successes |
| `AsyncProcessor.OkValuesEmpty` | src/main/java/AsyncProcessor.java:57-61 | fail-partial is empty exactly when no call succeeded |
| `AsyncProcessor.OkValuesAppend` | src/main/java/AsyncProcessor.java:58-61 | the filter keeps relative order: filtering a concatenation is the concatenation of the filtered parts |
| `AsyncProcessor.OkValuesAllOk` | src/main/java/AsyncProcessor.java:34-37 | when every call succeeded, nothing is dropped and the i-th value is the value of call i |
| `AsyncProcessor.OkValuesCount` | src/main/java/AsyncProcessor.java:95-99 | each string appears among the successful values as often as it is the value of a successful call |
| `AsyncProcessor.OkValuesRespectMultiset` | src/main/java/AsyncProcessor.java:95-103 | rearranging the outcomes does not change the multiset of successful values |
| `AsyncProcessor.ReorderPreservesMultiset` | src/main/java/AsyncProcessor.java:97-103 | putting the outcomes in completion order by a permutation keeps every outcome, as often as before |
| `AsyncProcessor.FailSoftAgreesWithFailFast` | src/main/java/AsyncProcessor.java:82-85 | when every call succeeded, fail-soft returns fail-fast's string, whatever the fallback |
| `AsyncProcessor.FailSoftSegments` | src/main/java/AsyncProcessor.java:82-85 | if neither the values nor the fallback contain a space, the fail-soft string splits into exactly N segments; segment i is call i's value, or the fallback where call i failed or timed out |
| `AsyncProcessor.OkValuesIgnoreFailureKind` | src/main/java/AsyncProcessor.java:48-61 | the successful values do not depend on how the other calls failed |
| `AsyncProcessor.TimeoutActsAsFailure` | src/main/java/AsyncProcessor.java:15-18 | a timed-out call is handled as a failed one: fail-fast fails, fail-partial drops it, fail-soft puts the fallback in its place, and the completion-order list, for any completion order, is the same as if the call had failed |
| `AsyncProcessor.CompletionOrderAsWrittenLosesSuccesses` | src/main/java/AsyncProcessor.java:97-103 | as the code stands, one failed call among successful ones fails the whole request, although the list that leaves failures out is non-empty |
| `Strings.Split` | src/main/java/AsyncProcessor.java:37 | the source has no split; this is the inverse used to specify the joining at this line: there is always at least one piece, and no piece contains the separator |
| `Strings.SplitJoin` | src/main/java/AsyncProcessor.java:85 | round trip: splitting a non-empty join recovers the parts, provided no part contains the separator character |
| `Strings.JoinSplit` | src/main/java/AsyncProcessor.java:37 | round trip: joining the pieces of any split with the same character gives the string back |
| `Scenarios.AirlineFailFastAllSucceed` | src/test/java/AsyncProcessor_Airline_Test.java:24-38 | three airline services that answer give `"AirAlpha:NYC-LAX JetBravo:NYC-SFO SkyCharlie:NYC-SEA"` |
| `Scenarios.AirlineFailFastOneFails` | src/test/java/AsyncProcessor_Airline_Test.java:40-58 | a failing first service fails the request with its own message |
| `Scenarios.AirlineFailFastHanging` | src/test/java/AsyncProcessor_Airline_Test.java:76-93 | a hanging service fails the request with a timeout |
| `Scenarios.AirlineSizeMismatch` | src/test/java/AsyncProcessor_Airline_Test.java:60-74 | one service with two messages gives `InvalidArgument` |
| `Scenarios.AirlineFailPartialOneFails` | src/test/java/AsyncProcessor_Airline_Test.java:114-131 | a failing first service is dropped and the other two answers stay in order |
| `Scenarios.AirlineFailPartialHanging` | src/test/java/AsyncProcessor_Airline_Test.java:149-164 | a hanging service is dropped after its timeout |
| `Scenarios.FailSoftMiddleFails` | src/test/java/AsyncProcessor_Test.java:214-230 | a failing middle service gives `"Service-A:MSG-A SERVICE_UNAVAILABLE Service-C:MSG-C"` |
| `Scenarios.AirlineFailSoftHanging` | src/test/java/AsyncProcessor_Airline_Test.java:219-235 | a hanging first service gives `"QUOTE_UNAVAILABLE JetBravo:NYC-SFO"` |
| `Scenarios.AirlineCompletionOrder` | src/test/java/AsyncProcessor_Airline_Test.java:237-255 | in every completion order, the list holds each of the three airline answers exactly once |

## Left out

- Threads, `CompletableFuture.allOf` and the worker pool: the model takes each call's completion and the completion permutation as inputs.
- The real-time timer behind `orTimeout`: time is a logical number of milliseconds carried by each `Completion`. A call that settles exactly at 500 ms is modelled as a timeout; in Java that case is a race.
- `AsyncProcessor.ProcessAsyncCompletionOrder`: the completion order may be any permutation of the calls. The model does not require it to follow the calls' settle times, and every property holds for all permutations, including the one real timing produces.
- The thread safety of `Collections.synchronizedList`: the appends are a sequential loop over a local sequence.
- The `System.err` logging in the `exceptionally` handlers: output only, with no effect on results.
- The `null` filter in fail-partial also drops a service that really answered `null`. In the model, values are non-null strings tagged by `Ok`, so this quirk is not reproduced.
- `AsyncProcessor.FailFast`: when several calls fail, which error `allOf` reports is not fixed by the library. The function picks the lowest failing index, and its contract promises only the error of some failing call.
- `AsyncProcessor.ProcessAsyncCompletionOrderAsWritten`: picks the lowest failing index for the same reason, and promises only the error of some failing call.
- The jitter and sleep inside `Microservice.retrieveAsync` are not modelled. The stock `Stub` service takes its delay as a parameter, and its upper-casing covers ASCII letters only, with no locale rules.
- The wrapping of errors in `CompletionException` by `thenApply`, `thenAccept`, `allOf` and `join` is not modelled. The `exceptionally` handlers of fail-partial and fail-soft see the raw `TimeoutException` or `RuntimeException` of the timed call, and only discard it. Errors are the `Error` datatype: `InvalidArgument`, `CallFailure` with the call's message, and `CallTimeout`.
- `src/main/java/Main.java` is not part of this model, because its body is entirely commented out.
- The JUnit test classes are not modelled. Their concrete expectations appear as lemmas in `Scenarios`.

## Findings

| source | as written | input that shows it | evidently intended | confidence | as-written member | corrected member |
|---|---|---|---|---|---|---|
| src/main/java/AsyncProcessor.java:97-103 | `thenAccept(completionOrder::add)` has no `exceptionally` handler, so a failed or timed-out call fails its stage, and `allOf` then fails the whole result | two services, one answering `A:X` and one failing with `down`: the request fails with `down` instead of returning `["A:X"]` | like fail-partial, leave failed and timed-out calls out of the list and return the successes in completion order | medium, not executed | `AsyncProcessor.ProcessAsyncCompletionOrderAsWritten`, `AsyncProcessor.CompletionOrderAsWrittenLosesSuccesses` | `AsyncProcessor.ProcessAsyncCompletionOrder` |
