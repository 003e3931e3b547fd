/**
 * The objects of one channel: the channel with its executor-interceptor subset, one
 * interceptor chain with its cursor per delivery, one send task per subscriber, and
 * the executor as a queue of pending tasks. Every hook call a delivery makes is
 * appended to the channel's ghost trace `events`, and each method is proved to append
 * exactly the trace that module Dispatch specifies.
 */
module ExecutorChannel {
  import opened Messaging
  import opened InterceptorSubset
  import opened Dispatch

  /** What `sendInternal` does: return normally with a value, or throw. */
  datatype SendOutcome = Returned(sent: bool) | Threw(thrown: Throwable)

  /** A `java.util.concurrent.Executor` seen from the channel: tasks handed to it wait in `pending`. */
  class TaskExecutor {
    var pending: seq<SendTask>

    constructor ()
      ensures pending == []
    {
      pending := [];
    }

    method Execute(task: SendTask)
      modifies this
      ensures pending == old(pending) + [task]
    {
      pending := pending + [task];
    }
  }

  class Channel {
    /** Null: deliver in the sender's thread. */
    const executor: TaskExecutor?
    /** The full interceptor list, kept by the base class. */
    ghost var interceptors: seq<Interceptor>
    var executorInterceptors: seq<ExecutorInterceptor>
    /** Every hook and handler call made by the deliveries of this channel, in order. */
    ghost var events: seq<Event>

    /** The executor interceptors are always re-derived from the full list. */
    ghost predicate Valid()
      reads this
    {
      executorInterceptors == ExecutorSubset(interceptors)
    }

    constructor (executor: TaskExecutor?)
      ensures Valid()
      ensures this.executor == executor && interceptors == [] && executorInterceptors == [] && events == []
    {
      this.executor := executor;
      interceptors := [];
      executorInterceptors := [];
      events := [];
    }

    /** Replaces the interceptor list; the executor interceptors become exactly the executor-capable ones of `list`, in order. */
    method SetInterceptors(list: seq<Interceptor>)
      modifies this`interceptors, this`executorInterceptors
      ensures Valid()
      ensures interceptors == list && executorInterceptors == ExecutorSubset(list)
    {
      interceptors := list;
      executorInterceptors := [];
      for i := 0 to |list|
        invariant interceptors == list
        invariant executorInterceptors == ExecutorSubset(list[..i])
      {
        assert list[..i + 1][..i] == list[..i];
        if list[i].Executor? {
          executorInterceptors := executorInterceptors + [list[i].hooks];
        }
      }
      assert list[..|list|] == list;
    }

    /** Appends one interceptor; it joins the executor interceptors if and only if it is executor-capable. */
    method AddInterceptor(interceptor: Interceptor)
      requires Valid()
      modifies this`interceptors, this`executorInterceptors
      ensures Valid()
      ensures interceptors == old(interceptors) + [interceptor]
      ensures executorInterceptors ==
        old(executorInterceptors) + (if interceptor.Executor? then [interceptor.hooks] else [])
    {
      SubsetAppend(interceptors, [interceptor]);
      interceptors := interceptors + [interceptor];
      if interceptor.Executor? {
        executorInterceptors := executorInterceptors + [interceptor.hooks];
      }
    }

    /**
     * Sends `message` to each of `subscribers` (the base class's current subscribers),
     * each through a fresh chain and task: run at once without an executor, handed to
     * the executor otherwise. Returns true whenever it returns; without an executor a
     * task's throw escapes and the later subscribers are not reached.
     */
    method SendInternal(message: Message, subscribers: seq<Handler>) returns (outcome: SendOutcome)
      requires Valid()
      modifies this`events, executor
      ensures Valid()
      ensures outcome.Returned? ==> outcome.sent
      ensures executor == null ==>
        var fan := InlineFanOut(executorInterceptors, subscribers, message);
        events == old(events) + fan.events &&
        outcome == (if fan.escaped.Some? then Threw(fan.escaped.value) else Returned(true))
      ensures executor != null ==>
        var before := |old(executor.pending)|;
        events == old(events) && outcome == Returned(true) &&
        |executor.pending| == before + |subscribers| &&
        executor.pending[..before] == old(executor.pending) &&
        (forall j :: before <= j < |executor.pending| ==>
           var task := executor.pending[j];
           fresh(task) && fresh(task.chain) &&
           task.inputMessage == message && task.channel == this && task.handler == subscribers[j - before] &&
           task.chain.channel == this && task.chain.interceptorIndex == -1) &&
        (forall j, k :: before <= j < k < |executor.pending| ==>
           executor.pending[j].chain != executor.pending[k].chain)
    {
      if executor == null {
        outcome := DeliverInline(message, subscribers);
      } else {
        HandOver(message, subscribers);
        outcome := Returned(true);
      }
    }

    /** `sendInternal` without an executor: each task runs at once, and the first throw escapes. */
    method DeliverInline(message: Message, subscribers: seq<Handler>) returns (outcome: SendOutcome)
      modifies this`events
      ensures var fan := InlineFanOut(executorInterceptors, subscribers, message);
        events == old(events) + fan.events &&
        outcome == (if fan.escaped.Some? then Threw(fan.escaped.value) else Returned(true))
    {
      ghost var runs := TaskRuns(executorInterceptors, subscribers, message);
      for i := 0 to |subscribers|
        invariant events == old(events) + Sequenced(runs[..i])
        invariant forall j :: 0 <= j < i ==> runs[j].escaped == None
      {
        var chain := new InterceptorChain(this);
        var task := new SendTask(message, this, subscribers[i], chain);
        var escaped := task.Run();
        TaskRunsAt(executorInterceptors, subscribers, message, i);
        SequencedSnoc(runs, i);
        Regroup(old(events), Sequenced(runs[..i]), runs[i].events);
        if escaped.Some? {
          FanOutFirstEscape(runs, i);
          return Threw(escaped.value);
        }
      }
      FanOutAllReturn(runs);
      assert runs[..|subscribers|] == runs;
      return Returned(true);
    }

    /** `sendInternal` with an executor: one fresh task per subscriber, in order, handed to the executor. */
    method HandOver(message: Message, subscribers: seq<Handler>)
      requires executor != null
      modifies executor
      ensures var before := |old(executor.pending)|;
        |executor.pending| == before + |subscribers| &&
        executor.pending[..before] == old(executor.pending) &&
        (forall j :: before <= j < |executor.pending| ==>
           var task := executor.pending[j];
           fresh(task) && fresh(task.chain) &&
           task.inputMessage == message && task.channel == this && task.handler == subscribers[j - before] &&
           task.chain.channel == this && task.chain.interceptorIndex == -1) &&
        (forall j, k :: before <= j < k < |executor.pending| ==>
           executor.pending[j].chain != executor.pending[k].chain)
    {
      ghost var tasks: seq<SendTask> := [];
      for i := 0 to |subscribers|
        invariant |tasks| == i
        invariant executor.pending == old(executor.pending) + tasks
        invariant forall j :: 0 <= j < i ==>
          fresh(tasks[j]) && fresh(tasks[j].chain) &&
          tasks[j].inputMessage == message && tasks[j].channel == this && tasks[j].handler == subscribers[j] &&
          tasks[j].chain.channel == this && tasks[j].chain.interceptorIndex == -1
        invariant forall j, k :: 0 <= j < k < i ==> tasks[j].chain != tasks[k].chain
      {
        var chain := new InterceptorChain(this);
        var task := new SendTask(message, this, subscribers[i], chain);
        executor.Execute(task);
        tasks := tasks + [task];
      }
      assert forall j :: |old(executor.pending)| <= j < |executor.pending| ==>
        executor.pending[j] == tasks[j - |old(executor.pending)|];
    }
  }

  /** The per-delivery helper that runs the executor interceptors' hooks; `interceptorIndex` is its cursor. */
  class InterceptorChain {
    /** The enclosing channel, whose executor interceptors the chain reads. */
    const channel: Channel
    /** Position of the last interceptor whose `beforeHandle` returned a message; -1 before any. */
    var interceptorIndex: int

    constructor (channel: Channel)
      ensures this.channel == channel && interceptorIndex == -1
    {
      this.channel := channel;
      interceptorIndex := -1;
    }

    /**
     * Calls `beforeHandle` of each executor interceptor in order, threading the message
     * through; a veto unwinds at once and yields null, a throw leaves the pass.
     */
    method ApplyBeforeHandle(message: Message, handler: HandlerId) returns (result: Applied)
      requires interceptorIndex == -1
      modifies this, channel`events
      ensures var run := ApplyFrom(channel.executorInterceptors, handler, 0, message);
        result == run.result && interceptorIndex == run.cursor &&
        channel.events == old(channel.events) + run.events
    {
      var ics := channel.executorInterceptors;
      ghost var total := ApplyFrom(ics, handler, 0, message);
      var m := message;
      ghost var done: seq<Event> := [];
      for k := 0 to |ics|
        invariant interceptorIndex == k - 1
        invariant channel.events == old(channel.events) + done
        invariant total.events == done + ApplyFrom(ics, handler, k, m).events
        invariant total.result == ApplyFrom(ics, handler, k, m).result
        invariant total.cursor == ApplyFrom(ics, handler, k, m).cursor
      {
        ghost var rest := ApplyFrom(ics, handler, k, m);
        ghost var prev := done;
        var returned := ics[k].beforeHandle(m, handler);
        var call := BeforeHandle(k, handler, m, returned);
        channel.events := channel.events + [call];
        Regroup(old(channel.events), prev, [call]);
        done := prev + [call];
        match returned {
          case Veto =>
            ghost var unwind := UnwindTrace(ics, handler, k - 1, None, None);
            assert rest.events == [call] + unwind;
            Regroup(prev, [call], unwind);
            TriggerAfterMessageHandled(None, handler, None);
            Regroup(old(channel.events), done, unwind);
            return Null;
          case Raise(t) =>
            assert rest.events == [call];
            return Thrown(t);
          case Proceed(next) =>
            assert rest.events == [call] + ApplyFrom(ics, handler, k + 1, next).events;
            Regroup(prev, [call], ApplyFrom(ics, handler, k + 1, next).events);
            m := next;
        }
        interceptorIndex := interceptorIndex + 1;
      }
      return Next(m);
    }

    /**
     * Calls `afterMessageHandled` of the executor interceptors from the cursor down to 0;
     * a throw from one of them is swallowed, and the rest still run.
     */
    method TriggerAfterMessageHandled(message: Option<Message>, handler: HandlerId, error: Option<Throwable>)
      requires -1 <= interceptorIndex < |channel.executorInterceptors|
      modifies channel`events
      ensures channel.events == old(channel.events) +
        UnwindTrace(channel.executorInterceptors, handler, interceptorIndex, message, error)
    {
      var ics := channel.executorInterceptors;
      channel.events := channel.events + [Unwind(handler, message, error)];
      var i := interceptorIndex;
      while i >= 0
        invariant -1 <= i <= interceptorIndex
        invariant old(channel.events) + UnwindTrace(ics, handler, interceptorIndex, message, error) ==
          channel.events + UnwindFrom(ics, handler, i, message, error)
        decreases i
      {
        // A Raised result is swallowed; the loop goes on to the next interceptor.
        var outcome := ics[i].afterMessageHandled(message, handler, error);
        channel.events := channel.events + [AfterMessageHandled(i, handler, message, error, outcome)];
        i := i - 1;
      }
    }
  }

  /** One delivery of one message to one subscriber, through its own chain. */
  class SendTask {
    const inputMessage: Message
    const channel: Channel
    const handler: Handler
    const chain: InterceptorChain

    constructor (message: Message, channel: Channel, handler: Handler, chain: InterceptorChain)
      ensures inputMessage == message && this.channel == channel && this.handler == handler && this.chain == chain
    {
      inputMessage := message;
      this.channel := channel;
      this.handler := handler;
      this.chain := chain;
    }

    /** Runs the delivery once; the result is what the task throws, if anything. */
    method Run() returns (escaped: Option<Throwable>)
      requires chain.channel == channel && chain.interceptorIndex == -1
      modifies chain, channel`events
      ensures var spec := RunSpec(channel.executorInterceptors, handler, inputMessage);
        channel.events == old(channel.events) + spec.events && escaped == spec.escaped
    {
      var message := inputMessage;
      ghost var ics := channel.executorInterceptors;
      ghost var before := ApplyFrom(ics, handler.id, 0, inputMessage);
      var applied := chain.ApplyBeforeHandle(message, handler.id);
      match applied {
        case Null =>
          return None;
        case Thrown(t) =>
          escaped := HandleThrow(message, t);
          Regroup(old(channel.events), before.events, CatchClauses(ics, handler.id, before.cursor, message, t).events);
        case Next(m) =>
          message := m;
          var outcome := handler.handle(message);
          var call := HandleMessage(handler.id, message, outcome);
          channel.events := channel.events + [call];
          Regroup(old(channel.events), before.events, [call]);
          match outcome {
            case Handled =>
              chain.TriggerAfterMessageHandled(Some(message), handler.id, None);
              Regroup(old(channel.events), before.events + [call], UnwindTrace(ics, handler.id, before.cursor, Some(m), None));
              escaped := None;
            case HandleFailed(t) =>
              escaped := HandleThrow(message, t);
              Regroup(old(channel.events), before.events + [call], CatchClauses(ics, handler.id, before.cursor, m, t).events);
          }
      }
    }

    /** The catch clauses of `run`, entered with the task's message variable holding `message`. */
    method HandleThrow(message: Message, t: Throwable) returns (escaped: Option<Throwable>)
      requires chain.channel == channel && -1 <= chain.interceptorIndex < |channel.executorInterceptors|
      modifies channel`events
      ensures var caught := CatchClauses(channel.executorInterceptors, handler.id, chain.interceptorIndex, message, t);
        channel.events == old(channel.events) + caught.events && escaped == caught.escaped
    {
      if t.IsException() {
        chain.TriggerAfterMessageHandled(Some(message), handler.id, Some(t));
        if t.IsMessagingException() {
          escaped := Some(t);
        } else {
          escaped := Some(MessageDeliveryException(message, t));
        }
      } else {
        chain.TriggerAfterMessageHandled(Some(message), handler.id, Some(MessageDeliveryException(message, t)));
        escaped := Some(t);
      }
    }
  }
}
