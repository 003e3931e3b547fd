# Executor subscribable channel

A model of `ExecutorSubscribableChannel` from spring-messaging: a message channel that
sends each message to every subscribed handler, either in the sender's thread or by
handing one task per subscriber to an `Executor`. Every delivery goes through its own
interceptor chain, which runs the `beforeHandle` hook of each executor-capable
interceptor in registration order (threading the message through them, stopping at a
veto or a throw) and afterwards unwinds over exactly the interceptors that completed,
calling `afterMessageHandled` in reverse order. The task around the chain calls the
handler and applies the channel's error policy: a messaging exception is rethrown, any
other exception is wrapped in a `MessageDeliveryException`, and an `Error` is reported
wrapped to the interceptors and rethrown unchanged.

The model is imperative where the source is:

- `messaging.dfy` (module `Messaging`): messages, throwables, and handlers and
  interceptors as abstract behaviours (a hook returns a message, vetoes, or throws).
- `subset.dfy` (module `InterceptorSubset`): the executor-interceptor subset of an
  interceptor list, as a function, with its filter and append laws.
- `dispatch.dfy` (module `Dispatch`): the reference definitions that the classes are
  proved against. `ApplyFrom` is one `beforeHandle` pass, `UnwindTrace` is one call of
  `triggerAfterMessageHandled`, `RunSpec` is one run of a task, and `InlineFanOut` is
  `sendInternal` without an executor. Each is stated as the trace of hook and handler
  calls it makes, and the lemmas here state the trace properties the channel promises.
- `channel.dfy` (module `ExecutorChannel`): the classes. `Channel` keeps the executor and the
  executor-interceptor list. `InterceptorChain` holds the mutable cursor
  `interceptorIndex`. `SendTask` runs one delivery. `TaskExecutor` is the executor as a queue
  of pending tasks. Every hook and handler call is appended to the channel's ghost
  trace `events`, and each method is proved to append exactly the trace the
  `Dispatch` definitions give.

Java exceptions are modelled as values. A throw out of `applyBeforeHandle` is the
`Thrown` result, a throw out of `run` is the escaped `Option<Throwable>`, and a throw out
of `sendInternal` is `Threw`. A `null` message is `None` or the `Null` result. The
`Unwind` event marks each entry into `triggerAfterMessageHandled`, so "exactly one unwind
per task" can be stated even when there are no interceptors to call.

## Model

| member | source | states |
|---|---|---|
| InterceptorSubset.ExecutorSubset | spring-messaging/src/main/java/org/springframework/messaging/support/ExecutorSubscribableChannel.java:70-75 | the executor interceptors of a list, in list order, as the filter loop collects them; never longer than the list |
| InterceptorSubset.SubsetIsOrderedFilter | spring-messaging/src/main/java/org/springframework/messaging/support/ExecutorSubscribableChannel.java:68-76 | the executor subset of a list is exactly its executor-capable elements, in their original order: the j-th element of the subset sits at the j-th executor position, the positions ascend, and every executor-capable position is among them |
| InterceptorSubset.SubsetAppend | spring-messaging/src/main/java/org/springframework/messaging/support/ExecutorSubscribableChannel.java:79-84 | the subset of a concatenation is the concatenation of the subsets, so appending one interceptor appends it to the subset exactly when it is executor-capable |
| InterceptorSubset.SubsetOfPlainOnly | spring-messaging/src/main/java/org/springframework/messaging/support/ExecutorSubscribableChannel.java:71-75 | a list without executor-capable interceptors has an empty subset |
| ExecutorChannel.Channel.constructor | spring-messaging/src/main/java/org/springframework/messaging/support/ExecutorSubscribableChannel.java:48-60 | a channel starts with the given executor, null for inline delivery, with no interceptors and an empty trace |
| ExecutorChannel.Channel.SetInterceptors | spring-messaging/src/main/java/org/springframework/messaging/support/ExecutorSubscribableChannel.java:68-76 | the full list becomes `list` and the executor interceptors become exactly `ExecutorSubset(list)`, whatever they were before; the channel invariant holds afterwards |
| ExecutorChannel.Channel.AddInterceptor | spring-messaging/src/main/java/org/springframework/messaging/support/ExecutorSubscribableChannel.java:79-84 | the interceptor is appended to the full list, and to the executor interceptors if and only if it is executor-capable; the channel invariant is kept |
| ExecutorChannel.Channel.SendInternal | spring-messaging/src/main/java/org/springframework/messaging/support/ExecutorSubscribableChannel.java:88-100 | without an executor the trace grows by the inline fan-out's trace and the call throws what the first throwing task throws, otherwise it returns true; with an executor nothing is called yet, it returns true, and the queue gains one fresh task per subscriber in subscriber order, each with its own fresh chain at cursor -1 |
| ExecutorChannel.Channel.DeliverInline | spring-messaging/src/main/java/org/springframework/messaging/support/ExecutorSubscribableChannel.java:89-94 | the tasks run one after another and the trace grows by exactly `InlineFanOut`'s trace; a throw ends the loop and escapes |
| ExecutorChannel.Channel.HandOver | spring-messaging/src/main/java/org/springframework/messaging/support/ExecutorSubscribableChannel.java:89-98 | the earlier queue is kept as a prefix; the new entries are fresh tasks, one per subscriber in order, carrying the message, the channel and a fresh chain at cursor -1, no two sharing a chain |
| ExecutorChannel.TaskExecutor.Execute | spring-messaging/src/main/java/org/springframework/messaging/support/ExecutorSubscribableChannel.java:96 | the task is appended to the pending queue |
| ExecutorChannel.InterceptorChain.constructor | spring-messaging/src/main/java/org/springframework/messaging/support/ExecutorSubscribableChannel.java:157-159 | a fresh chain belongs to the given channel and its cursor starts at -1, before any interceptor |
| ExecutorChannel.InterceptorChain.ApplyBeforeHandle | spring-messaging/src/main/java/org/springframework/messaging/support/ExecutorSubscribableChannel.java:162-176 | the result, the new cursor and the calls appended to the trace are those of `ApplyFrom` from position 0 |
| ExecutorChannel.InterceptorChain.TriggerAfterMessageHandled | spring-messaging/src/main/java/org/springframework/messaging/support/ExecutorSubscribableChannel.java:178-190 | the trace grows by exactly `UnwindTrace` from the cursor, and nothing escapes whatever the hooks return |
| ExecutorChannel.SendTask.constructor | spring-messaging/src/main/java/org/springframework/messaging/support/ExecutorSubscribableChannel.java:117-124 | a task holds the message, the channel, the handler and its own chain, exactly as given |
| ExecutorChannel.SendTask.Run | spring-messaging/src/main/java/org/springframework/messaging/support/ExecutorSubscribableChannel.java:127-151 | the calls appended to the trace and the escaped throwable are those of `RunSpec` for the task's handler and input message |
| ExecutorChannel.SendTask.HandleThrow | spring-messaging/src/main/java/org/springframework/messaging/support/ExecutorSubscribableChannel.java:137-150 | the catch clauses append the unwind and escape with exactly what `CatchClauses` gives |
| Dispatch.UnwindFrom | spring-messaging/src/main/java/org/springframework/messaging/support/ExecutorSubscribableChannel.java:181-189 | the `afterMessageHandled` calls from position i down to 0, one per position, each recording that interceptor's own result; i + 1 calls in all |
| Dispatch.UnwindTrace | spring-messaging/src/main/java/org/springframework/messaging/support/ExecutorSubscribableChannel.java:178-190 | one call of `triggerAfterMessageHandled`: the entry event with the message and exception, then the calls of `UnwindFrom` from the cursor; cursor + 2 events, the entry first |
| Dispatch.ApplyFrom | spring-messaging/src/main/java/org/springframework/messaging/support/ExecutorSubscribableChannel.java:162-176 | the `beforeHandle` pass from position k entered with a message: each call's result decides between going on with the returned message, unwinding at once on a veto, and leaving on a throw; the cursor it leaves is never below k - 1 (the cursor it started at) and stays inside the list, and a pass that hands on a message has advanced the cursor to the last interceptor |
| Dispatch.ApplyThreading | spring-messaging/src/main/java/org/springframework/messaging/support/ExecutorSubscribableChannel.java:162-176 | `beforeHandle` is called on consecutive positions in registration order, and each recorded result is what the hook of the interceptor at that position returns on the recorded input; the first call gets the input and each later call gets what the previous one returned; a completed pass ran every interceptor and hands on the last result; a vetoed or throwing pass ends with that call |
| Dispatch.ApplyCompleted | spring-messaging/src/main/java/org/springframework/messaging/support/ExecutorSubscribableChannel.java:163-174 | the cursor equals the number of interceptors whose `beforeHandle` returned a message, minus one; those are positions 0 .. cursor in order, and each one's own hook returned that message on the recorded input |
| Dispatch.ApplyVetoUnwind | spring-messaging/src/main/java/org/springframework/messaging/support/ExecutorSubscribableChannel.java:165-172 | a vetoed pass calls `afterMessageHandled` exactly on cursor down to 0 with no message and no exception; the interceptor whose own hook returned the veto sits at cursor + 1, so it gets no call; a pass that is not vetoed makes no such call |
| Dispatch.ApplyUnwindCalls | spring-messaging/src/main/java/org/springframework/messaging/support/ExecutorSubscribableChannel.java:162-176 | a pass enters `triggerAfterMessageHandled` once, with no message and no exception, if and only if it is vetoed, and never calls the handler |
| Dispatch.UnwindVisitsDownward | spring-messaging/src/main/java/org/springframework/messaging/support/ExecutorSubscribableChannel.java:181-189 | the unwind calls `afterMessageHandled` on positions cursor, cursor-1, ..., 0, once each, in strictly decreasing order, all with the same message and exception, whatever each call returns |
| Dispatch.UnwindTraceKinds | spring-messaging/src/main/java/org/springframework/messaging/support/ExecutorSubscribableChannel.java:178-190 | an unwind makes one entry into `triggerAfterMessageHandled` and only `afterMessageHandled` calls: no `beforeHandle` and no handler call |
| Dispatch.CatchClauses | spring-messaging/src/main/java/org/springframework/messaging/support/ExecutorSubscribableChannel.java:137-150 | the two catch clauses: an Exception is reported to the unwind as it is and escapes as it is if it is a messaging exception, wrapped with the message otherwise; an Error is reported wrapped and escapes unchanged; so something always escapes, it is a messaging exception or an Error, and the unwind is entered first with an Exception |
| Dispatch.RunSpec | spring-messaging/src/main/java/org/springframework/messaging/support/ExecutorSubscribableChannel.java:127-151 | the trace and escaped throwable of one fresh task: the pass, then the handler call if the pass completed, then one unwind, with the input message after a `beforeHandle` throw and the handed-on message otherwise; what escapes is a messaging exception or an Error |
| Dispatch.RunSymmetry | spring-messaging/src/main/java/org/springframework/messaging/support/ExecutorSubscribableChannel.java:127-151 | in every task, whether vetoed, throwing or successful, the interceptors whose `beforeHandle` returned a message are positions 0, 1, ... in order, and `afterMessageHandled` goes to exactly those positions, each once, in reverse order; every recorded result of either hook is that interceptor's own hook on the recorded arguments |
| Dispatch.RunCallsAsRecorded | spring-messaging/src/main/java/org/springframework/messaging/support/ExecutorSubscribableChannel.java:128-150 | every call a task records is the real behaviour of what it names: each `beforeHandle` or `afterMessageHandled` result is that interceptor's own hook on the recorded arguments, and the handler outcome is the handler's own on the message it got |
| Dispatch.RunUnwindsOnce | spring-messaging/src/main/java/org/springframework/messaging/support/ExecutorSubscribableChannel.java:127-151 | every task enters `triggerAfterMessageHandled` exactly once, for its own handler |
| Dispatch.RunHandlerInvocation | spring-messaging/src/main/java/org/springframework/messaging/support/ExecutorSubscribableChannel.java:128-135 | the handler is called at most once, and if and only if no interceptor vetoed or threw; the `beforeHandle` calls are the hooks of positions 0, 1, ... in order, with their own results; when the handler is called every interceptor ran and the handler got the message the last one returned, or the input when there are none |
| Dispatch.RunOutcome | spring-messaging/src/main/java/org/springframework/messaging/support/ExecutorSubscribableChannel.java:128-150 | after a veto nothing escapes and the unwind gets neither message nor exception; after a successful handler call nothing escapes and the unwind gets the handled message and no exception; a throw from `beforeHandle` is caught with the original input message and a throw from the handler with the message it got; an Exception reaches the unwind as it is and escapes as it is if it is a messaging exception, wrapped with the message otherwise; an Error reaches the unwind wrapped and escapes unchanged; every `afterMessageHandled` call gets the unwind's message and exception |
| Dispatch.RunEscapes | spring-messaging/src/main/java/org/springframework/messaging/support/ExecutorSubscribableChannel.java:137-150 | what escapes a task is a messaging exception or an Error, and the exception passed to the `afterMessageHandled` hooks is never an Error |
| Dispatch.TaskRuns | spring-messaging/src/main/java/org/springframework/messaging/support/ExecutorSubscribableChannel.java:89-93 | the runs of one fresh task per subscriber, in subscriber order, as many as there are subscribers; what escapes any of them is a messaging exception or an Error |
| Dispatch.FanOut | spring-messaging/src/main/java/org/springframework/messaging/support/ExecutorSubscribableChannel.java:89-94 | tasks run one after another until one throws, which ends the fan-out: nothing escapes if and only if no run lets anything escape, and what escapes is the escape of one of the runs |
| Dispatch.InlineFanOut | spring-messaging/src/main/java/org/springframework/messaging/support/ExecutorSubscribableChannel.java:89-99 | `sendInternal` without an executor: the fan-out over the tasks for the subscribers; what it throws is a messaging exception or an Error |
| Dispatch.FanOutReachesAll | spring-messaging/src/main/java/org/springframework/messaging/support/ExecutorSubscribableChannel.java:89-99 | when no task throws, the inline fan-out runs every subscriber's task in subscriber order and nothing escapes |
| Dispatch.FanOutStopsAtFirstEscape | spring-messaging/src/main/java/org/springframework/messaging/support/ExecutorSubscribableChannel.java:89-94 | when the task for subscriber j is the first to throw, the tasks for subscribers 0 .. j have run in order, none after j runs, and j's throw escapes |
| Dispatch.FanOutWithoutInterceptors | spring-messaging/src/main/java/org/springframework/messaging/support/ExecutorSubscribableChannel.java:89-99 | with no executor interceptors and handlers that succeed, each subscriber's handler is called once, in subscriber order, with the message sent, no hook is called, and nothing escapes |

## Left out

- Threads and `Executor.execute` (line 96): the executor is a queue of pending tasks. Running a pending task is `SendTask.Run`, but the model does not say when or on which thread the executor runs it.
- Concurrent reads of `executorInterceptors`: a chain reads the channel's current list when it runs (line 182). The sequential model keeps that list fixed while a task runs.
- Logging (lines 166-168 and 187) and the text of exception messages (lines 142-143 and 147-148). Messages are opaque identities.
- The base class `AbstractSubscribableChannel` is not part of this model. `getSubscribers()` becomes the `subscribers` parameter of `SendInternal`. The full interceptor list kept by `super.setInterceptors` / `super.addInterceptor` becomes the ghost field `interceptors`, replaced or appended to.
- The `channel` argument of the hooks and the handler object itself: there is one channel, and a handler is identified by its id in the trace.
- The unused `timeout` parameter of `sendInternal` and the `getExecutor()` accessor. The no-argument constructor is `Channel.constructor(null)`.
- Throwables that are neither an `Exception` nor an `Error`: `run` catches only those two kinds.
- ExecutorChannel.SendTask.Run: requires a fresh chain (cursor -1). `sendInternal` always builds one, and running a task a second time is not modelled.
- ExecutorChannel.InterceptorChain.ApplyBeforeHandle: requires the cursor at -1, as it is on a fresh chain. A second pass over the same chain is not modelled.
- Stateful collaborators: handlers and hooks are pure functions of their arguments. So the model cannot express an interceptor that keeps state between calls, a handler that sends again on the same channel (nested deliveries inside an inline one), or a hook that changes the interceptor list during a pass. The properties of a single task (the symmetry of the hooks, the single unwind, the error policy) are structural and hold for any hook results. The following hold only under this restriction: the fan-out trace of `SendInternal`, `DeliverInline`, `FanOutReachesAll` and `FanOutWithoutInterceptors`, where a handler that sends again would nest a delivery inside another; `ApplyBeforeHandle` working over a list that stays fixed, where in the source a change during the pass makes the list's iterator throw; and `RunCallsAsRecorded`, where a recorded result is the hook's own result only if the hook is a function of its arguments.
