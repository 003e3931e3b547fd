/**
 * What one delivery does, as a trace of hook calls: the interceptor chain's
 * `beforeHandle` pass, the handler call, the reverse unwind of
 * `afterMessageHandled`, and the task's catch clauses; and what an inline fan-out
 * over several subscribers does. The classes in module ExecutorChannel are proved
 * to append exactly these traces.
 */
module Dispatch {
  import opened Messaging

  /** One observable call made on behalf of a delivery. */
  datatype Event =
      /** `beforeHandle` of the executor interceptor at `index` was called with `input` and returned or threw `returned`. */
    | BeforeHandle(index: nat, handler: HandlerId, input: Message, returned: BeforeResult)
      /** The handler's `handleMessage` was called with `delivered`. */
    | HandleMessage(handler: HandlerId, delivered: Message, outcome: HandleResult)
      /** `triggerAfterMessageHandled` was entered with this message and exception. */
    | Unwind(handler: HandlerId, message: Option<Message>, error: Option<Throwable>)
      /** `afterMessageHandled` of the executor interceptor at `index` was called. */
    | AfterMessageHandled(index: nat, handler: HandlerId, message: Option<Message>, error: Option<Throwable>, afterResult: AfterResult)

  /** Classes of events, for picking them out of a trace. */
  datatype Kind = BeforeKind | ProceedKind | HandleKind | UnwindKind | AfterKind

  predicate IsKind(e: Event, k: Kind) {
    match k
    case BeforeKind => e.BeforeHandle?
    case ProceedKind => e.BeforeHandle? && e.returned.Proceed?
    case HandleKind => e.HandleMessage?
    case UnwindKind => e.Unwind?
    case AfterKind => e.AfterMessageHandled?
  }

  /** The events of kind `k` in `ev`, in trace order. */
  function OfKind(ev: seq<Event>, k: Kind): (r: seq<Event>)
    ensures |r| <= |ev|
    ensures forall j :: 0 <= j < |r| ==> IsKind(r[j], k)
  {
    if ev == [] then []
    else (if IsKind(ev[0], k) then [ev[0]] else []) + OfKind(ev[1..], k)
  }

  /** Regrouping a concatenation of three traces. */
  lemma Regroup(a: seq<Event>, b: seq<Event>, c: seq<Event>)
    ensures (a + b) + c == a + (b + c)
  {
  }

  /** Filtering a trace that starts with `e`. */
  lemma OfKindCons(e: Event, rest: seq<Event>, k: Kind)
    ensures OfKind([e] + rest, k) == (if IsKind(e, k) then [e] else []) + OfKind(rest, k)
  {
    assert ([e] + rest)[0] == e && ([e] + rest)[1..] == rest;
  }

  lemma {:induction false} OfKindAppend(a: seq<Event>, b: seq<Event>, k: Kind)
    ensures OfKind(a + b, k) == OfKind(a, k) + OfKind(b, k)
    decreases |a|
  {
    if a == [] {
      assert a + b == b;
    } else {
      assert (a + b)[1..] == a[1..] + b;
      OfKindAppend(a[1..], b, k);
    }
  }

  // ---------------------------------------------------------------------------
  // triggerAfterMessageHandled

  /** The `afterMessageHandled` calls of an unwind from position `i` down to 0, one per position. */
  function UnwindFrom(ics: seq<ExecutorInterceptor>, h: HandlerId, i: int,
                      msg: Option<Message>, err: Option<Throwable>): (r: seq<Event>)
    requires -1 <= i < |ics|
    ensures |r| == i + 1
    decreases i + 1
  {
    if i < 0 then []
    else [AfterMessageHandled(i, h, msg, err, ics[i].afterMessageHandled(msg, h, err))]
         + UnwindFrom(ics, h, i - 1, msg, err)
  }

  /** One call of `triggerAfterMessageHandled` with the chain's cursor at `cursor`. */
  function UnwindTrace(ics: seq<ExecutorInterceptor>, h: HandlerId, cursor: int,
                       msg: Option<Message>, err: Option<Throwable>): (r: seq<Event>)
    requires -1 <= cursor < |ics|
    ensures |r| == cursor + 2 && r[0] == Unwind(h, msg, err)
  {
    [Unwind(h, msg, err)] + UnwindFrom(ics, h, cursor, msg, err)
  }

  /**
   * The unwind calls `afterMessageHandled` on positions `i`, `i`-1, ..., 0, each exactly
   * once and in strictly decreasing order, every call with the same message and
   * exception; a call that throws does not stop the ones after it.
   */
  lemma {:induction false} UnwindVisitsDownward(ics: seq<ExecutorInterceptor>, h: HandlerId, i: int,
                                                msg: Option<Message>, err: Option<Throwable>)
    requires -1 <= i < |ics|
    ensures |UnwindFrom(ics, h, i, msg, err)| == i + 1
    ensures forall j :: 0 <= j <= i ==>
      UnwindFrom(ics, h, i, msg, err)[j] ==
        AfterMessageHandled(i - j, h, msg, err, ics[i - j].afterMessageHandled(msg, h, err))
    decreases i + 1
  {
    if i >= 0 {
      UnwindVisitsDownward(ics, h, i - 1, msg, err);
    }
  }

  /** The calls of an unwind are all `afterMessageHandled` calls. */
  lemma {:induction false} UnwindFromKinds(ics: seq<ExecutorInterceptor>, h: HandlerId, i: int,
                                           msg: Option<Message>, err: Option<Throwable>, k: Kind)
    requires -1 <= i < |ics|
    ensures OfKind(UnwindFrom(ics, h, i, msg, err), k) == if k == AfterKind then UnwindFrom(ics, h, i, msg, err) else []
    decreases i + 1
  {
    if i >= 0 {
      UnwindFromKinds(ics, h, i - 1, msg, err, k);
      var call := AfterMessageHandled(i, h, msg, err, ics[i].afterMessageHandled(msg, h, err));
      OfKindCons(call, UnwindFrom(ics, h, i - 1, msg, err), k);
    }
  }

  /** An unwind consists of one `Unwind` event followed by `afterMessageHandled` calls only. */
  lemma UnwindTraceKinds(ics: seq<ExecutorInterceptor>, h: HandlerId, i: int,
                         msg: Option<Message>, err: Option<Throwable>, k: Kind)
    requires -1 <= i < |ics|
    ensures OfKind(UnwindTrace(ics, h, i, msg, err), k) ==
      if k == AfterKind then UnwindFrom(ics, h, i, msg, err)
      else if k == UnwindKind then [Unwind(h, msg, err)]
      else []
  {
    UnwindFromKinds(ics, h, i, msg, err, k);
    OfKindCons(Unwind(h, msg, err), UnwindFrom(ics, h, i, msg, err), k);
  }

  // ---------------------------------------------------------------------------
  // applyBeforeHandle

  /** What `applyBeforeHandle` hands back: the (possibly replaced) message, null after a veto, or a throw. */
  datatype Applied = Next(message: Message) | Null | Thrown(thrown: Throwable)

  /** The calls made by a `beforeHandle` pass, its result and the cursor it leaves behind. */
  datatype BeforeRun = BeforeRun(events: seq<Event>, result: Applied, cursor: int)

  /**
   * The `beforeHandle` pass from position `k` on, entered with message `m` and the cursor
   * at `k` - 1. A veto unwinds at once over the positions before `k`; a throw leaves the
   * pass with the cursor still on the last interceptor that returned a message.
   */
  function ApplyFrom(ics: seq<ExecutorInterceptor>, h: HandlerId, k: nat, m: Message): (r: BeforeRun)
    requires k <= |ics|
    ensures k - 1 <= r.cursor < |ics|
    ensures r.result.Next? ==> r.cursor == |ics| - 1
    decreases |ics| - k
  {
    if k == |ics| then BeforeRun([], Next(m), k - 1)
    else
      var returned := ics[k].beforeHandle(m, h);
      var call := BeforeHandle(k, h, m, returned);
      match returned
      case Proceed(next) =>
        var rest := ApplyFrom(ics, h, k + 1, next);
        BeforeRun([call] + rest.events, rest.result, rest.cursor)
      case Veto =>
        BeforeRun([call] + UnwindTrace(ics, h, k - 1, None, None), Null, k - 1)
      case Raise(t) =>
        BeforeRun([call], Thrown(t), k - 1)
  }

  /**
   * The pass calls `beforeHandle` on consecutive positions from `k`, the first with `m`
   * and each later one with what the previous call returned; it stops at the first veto
   * or throw, so no interceptor after that one runs; without either it reaches the end
   * of the list and hands on the last returned message. Each recorded result is what
   * the hook of the interceptor at that position returns on the recorded input.
   */
  lemma {:induction false} ApplyThreading(ics: seq<ExecutorInterceptor>, h: HandlerId, k: nat, m: Message)
    requires k <= |ics|
    ensures Threaded(|ics|, h, k, m, ApplyFrom(ics, h, k, m))
    ensures var b := OfKind(ApplyFrom(ics, h, k, m).events, BeforeKind);
      forall j :: 0 <= j < |b| ==> k + j < |ics| && b[j].returned == ics[k + j].beforeHandle(b[j].input, h)
  {
    ThreadedFrom(ics, h, k, m);
    var ev := ApplyFrom(ics, h, k, m).events;
    var b := OfKind(ev, BeforeKind);
    ApplyHooks(ics, h, k, m);
    OfKindIn(ev, BeforeKind);
    forall j | 0 <= j < |b|
      ensures k + j < |ics| && b[j].returned == ics[k + j].beforeHandle(b[j].input, h)
    {
      assert b[j] in ev;
    }
  }

  /**
   * Pass `r` from position `k`, entered with `m`, over `n` interceptors, threads the message:
   * its `beforeHandle` calls are on positions `k`, `k`+1, ..., the first gets `m` and each
   * later one what the previous call returned, and the last call ends the pass unless all
   * `n` - `k` of them returned a message.
   */
  ghost predicate Threaded(n: nat, h: HandlerId, k: nat, m: Message, r: BeforeRun) {
    var b := OfKind(r.events, BeforeKind);
    (forall j :: 0 <= j < |b| ==> b[j].index == k + j && b[j].handler == h) &&
    (|b| > 0 ==> b[0].input == m) &&
    (forall j :: 0 <= j < |b| - 1 ==> b[j].returned == Proceed(b[j + 1].input)) &&
    (r.result.Next? ==> |b| == n - k &&
                        (|b| == 0 ==> r.result.message == m) &&
                        (|b| > 0 ==> b[|b| - 1].returned == Proceed(r.result.message))) &&
    (r.result.Null? ==> |b| > 0 && b[|b| - 1].returned == Veto) &&
    (r.result.Thrown? ==> |b| > 0 && b[|b| - 1].returned == Raise(r.result.thrown))
  }

  lemma {:induction false} ThreadedFrom(ics: seq<ExecutorInterceptor>, h: HandlerId, k: nat, m: Message)
    requires k <= |ics|
    ensures Threaded(|ics|, h, k, m, ApplyFrom(ics, h, k, m))
    decreases |ics| - k
  {
    if k < |ics| {
      var returned := ics[k].beforeHandle(m, h);
      var call := BeforeHandle(k, h, m, returned);
      match returned
      case Proceed(next) =>
        ThreadedFrom(ics, h, k + 1, next);
        ThreadedProceed(ics, h, k, m, next);
      case Veto =>
        UnwindTraceKinds(ics, h, k - 1, None, None, BeforeKind);
        OfKindCons(call, UnwindTrace(ics, h, k - 1, None, None), BeforeKind);
      case Raise(t) =>
        OfKindCons(call, [], BeforeKind);
    }
  }

  /** One step of ThreadedFrom: a call that returns a message extends the threading of the rest of the pass. */
  lemma ThreadedProceed(ics: seq<ExecutorInterceptor>, h: HandlerId, k: nat, m: Message, next: Message)
    requires k < |ics| && ics[k].beforeHandle(m, h) == Proceed(next)
    requires Threaded(|ics|, h, k + 1, next, ApplyFrom(ics, h, k + 1, next))
    ensures Threaded(|ics|, h, k, m, ApplyFrom(ics, h, k, m))
  {
    var call := BeforeHandle(k, h, m, Proceed(next));
    var tail := ApplyFrom(ics, h, k + 1, next);
    OfKindCons(call, tail.events, BeforeKind);
    var b, b' := OfKind(ApplyFrom(ics, h, k, m).events, BeforeKind), OfKind(tail.events, BeforeKind);
    assert b == [call] + b';
    assert forall j :: 1 <= j < |b| ==> b[j] == b'[j - 1];
  }

  /**
   * The cursor counts the interceptors whose `beforeHandle` returned a message: those are
   * exactly the positions `k` .. cursor, in order, each one's own hook having returned it.
   */
  lemma ApplyCompleted(ics: seq<ExecutorInterceptor>, h: HandlerId, k: nat, m: Message)
    requires k <= |ics|
    ensures var r := ApplyFrom(ics, h, k, m); var p := OfKind(r.events, ProceedKind);
      |p| == r.cursor + 1 - k &&
      (forall j :: 0 <= j < |p| ==> p[j].index == k + j) &&
      (forall j :: 0 <= j < |p| ==> p[j].index < |ics| && ics[p[j].index].beforeHandle(p[j].input, h) == p[j].returned) &&
      (forall j :: 0 <= j < |p| ==> p[j].returned.Proceed?)
  {
    var ev := ApplyFrom(ics, h, k, m).events;
    var p := OfKind(ev, ProceedKind);
    CompletedFrom(ics, h, k, m);
    ApplyHooks(ics, h, k, m);
    OfKindIn(ev, ProceedKind);
    forall j | 0 <= j < |p|
      ensures p[j].index < |ics| && ics[p[j].index].beforeHandle(p[j].input, h) == p[j].returned
    {
      assert p[j] in ev;
    }
  }

  /** The positions part of ApplyCompleted. */
  lemma {:induction false} CompletedFrom(ics: seq<ExecutorInterceptor>, h: HandlerId, k: nat, m: Message)
    requires k <= |ics|
    ensures var r := ApplyFrom(ics, h, k, m); var p := OfKind(r.events, ProceedKind);
      |p| == r.cursor + 1 - k &&
      forall j :: 0 <= j < |p| ==> p[j].index == k + j
    decreases |ics| - k
  {
    if k < |ics| {
      var returned := ics[k].beforeHandle(m, h);
      var call := BeforeHandle(k, h, m, returned);
      match returned
      case Proceed(next) =>
        CompletedFrom(ics, h, k + 1, next);
        OfKindCons(call, ApplyFrom(ics, h, k + 1, next).events, ProceedKind);
      case Veto =>
        UnwindTraceKinds(ics, h, k - 1, None, None, ProceedKind);
        OfKindCons(call, UnwindTrace(ics, h, k - 1, None, None), ProceedKind);
      case Raise(t) =>
    }
  }

  /**
   * Within the `beforeHandle` pass only a veto reaches `afterMessageHandled`: over cursor
   * down to 0, with no message and no exception. The interceptor that vetoed sits just
   * above the cursor, its own hook returned the veto, and so the unwind leaves it out.
   */
  lemma ApplyVetoUnwind(ics: seq<ExecutorInterceptor>, h: HandlerId, k: nat, m: Message)
    requires k <= |ics|
    ensures var r := ApplyFrom(ics, h, k, m); var a := OfKind(r.events, AfterKind);
      var b := OfKind(r.events, BeforeKind);
      (r.result.Null? ==> a == UnwindFrom(ics, h, r.cursor, None, None)) &&
      (r.result.Null? ==> |b| > 0 && b[|b| - 1].index == r.cursor + 1 && r.cursor + 1 < |ics| &&
                          ics[r.cursor + 1].beforeHandle(b[|b| - 1].input, h) == Veto) &&
      (!r.result.Null? ==> a == [])
  {
    var r := ApplyFrom(ics, h, k, m);
    VetoUnwindFrom(ics, h, k, m);
    if r.result.Null? {
      var b := OfKind(r.events, BeforeKind);
      VetoerFrom(ics, h, k, m);
      ThreadedFrom(ics, h, k, m);
      ApplyHooks(ics, h, k, m);
      OfKindIn(r.events, BeforeKind);
      assert b[|b| - 1] in r.events;
    }
  }

  /** The `afterMessageHandled` part of ApplyVetoUnwind. */
  lemma {:induction false} VetoUnwindFrom(ics: seq<ExecutorInterceptor>, h: HandlerId, k: nat, m: Message)
    requires k <= |ics|
    ensures var r := ApplyFrom(ics, h, k, m); var a := OfKind(r.events, AfterKind);
      (r.result.Null? ==> a == UnwindFrom(ics, h, r.cursor, None, None)) &&
      (!r.result.Null? ==> a == [])
    decreases |ics| - k
  {
    if k < |ics| {
      var returned := ics[k].beforeHandle(m, h);
      var call := BeforeHandle(k, h, m, returned);
      match returned
      case Proceed(next) =>
        VetoUnwindFrom(ics, h, k + 1, next);
        OfKindCons(call, ApplyFrom(ics, h, k + 1, next).events, AfterKind);
      case Veto =>
        UnwindTraceKinds(ics, h, k - 1, None, None, AfterKind);
        OfKindCons(call, UnwindTrace(ics, h, k - 1, None, None), AfterKind);
      case Raise(t) =>
    }
  }

  /** The vetoing interceptor of ApplyVetoUnwind: a vetoed pass from `k` makes one call more than it completes. */
  lemma {:induction false} VetoerFrom(ics: seq<ExecutorInterceptor>, h: HandlerId, k: nat, m: Message)
    requires k <= |ics|
    ensures var r := ApplyFrom(ics, h, k, m);
      r.result.Null? ==> |OfKind(r.events, BeforeKind)| == r.cursor + 2 - k
    decreases |ics| - k
  {
    if k < |ics| {
      var returned := ics[k].beforeHandle(m, h);
      var call := BeforeHandle(k, h, m, returned);
      match returned
      case Proceed(next) =>
        var rest := ApplyFrom(ics, h, k + 1, next);
        VetoerFrom(ics, h, k + 1, next);
        OfKindCons(call, rest.events, BeforeKind);
      case Veto =>
        var u := UnwindTrace(ics, h, k - 1, None, None);
        UnwindTraceKinds(ics, h, k - 1, None, None, BeforeKind);
        OfKindCons(call, u, BeforeKind);
        assert OfKind(ApplyFrom(ics, h, k, m).events, BeforeKind) == [call];
      case Raise(t) =>
    }
  }

  /**
   * The `beforeHandle` pass enters `triggerAfterMessageHandled` once, with no message and
   * no exception, if it is vetoed, and not at all otherwise; it never calls the handler.
   */
  lemma {:induction false} ApplyUnwindCalls(ics: seq<ExecutorInterceptor>, h: HandlerId, k: nat, m: Message)
    requires k <= |ics|
    ensures var r := ApplyFrom(ics, h, k, m);
      OfKind(r.events, UnwindKind) == (if r.result.Null? then [Unwind(h, None, None)] else []) &&
      OfKind(r.events, HandleKind) == []
    decreases |ics| - k
  {
    if k < |ics| {
      var returned := ics[k].beforeHandle(m, h);
      var call := BeforeHandle(k, h, m, returned);
      match returned
      case Proceed(next) =>
        ApplyUnwindCalls(ics, h, k + 1, next);
        var rest := ApplyFrom(ics, h, k + 1, next).events;
        OfKindCons(call, rest, UnwindKind);
        OfKindCons(call, rest, HandleKind);
      case Veto =>
        var u := UnwindTrace(ics, h, k - 1, None, None);
        UnwindTraceKinds(ics, h, k - 1, None, None, UnwindKind);
        UnwindTraceKinds(ics, h, k - 1, None, None, HandleKind);
        OfKindCons(call, u, UnwindKind);
        OfKindCons(call, u, HandleKind);
      case Raise(t) =>
    }
  }

  // ---------------------------------------------------------------------------
  // Recorded calls are the components' own behaviour

  /**
   * A hook event of a delivery to handler `h` records what that interceptor's own hook
   * returns on the recorded arguments; a trace of hooks holds no handler call.
   */
  ghost predicate HookCall(ics: seq<ExecutorInterceptor>, h: HandlerId, e: Event) {
    match e
    case BeforeHandle(i, hid, input, returned) =>
      hid == h && i < |ics| && returned == ics[i].beforeHandle(input, h)
    case HandleMessage(_, _, _) => false
    case Unwind(hid, _, _) => hid == h
    case AfterMessageHandled(i, hid, msg, err, result) =>
      hid == h && i < |ics| && result == ics[i].afterMessageHandled(msg, h, err)
  }

  /** An event of a task for `handler` records what the called interceptor or handler returns on the recorded arguments. */
  ghost predicate TaskCall(ics: seq<ExecutorInterceptor>, handler: Handler, e: Event) {
    if e.HandleMessage? then e.handler == handler.id && e.outcome == handler.handle(e.delivered)
    else HookCall(ics, handler.id, e)
  }

  /** Filtering keeps only events of the trace. */
  lemma {:induction false} OfKindIn(ev: seq<Event>, k: Kind)
    ensures forall e :: e in OfKind(ev, k) ==> e in ev
    decreases |ev|
  {
    if ev != [] {
      OfKindIn(ev[1..], k);
      assert ev == [ev[0]] + ev[1..];
    }
  }

  /** Every call of an unwind is the hook of the interceptor it names. */
  lemma UnwindHooks(ics: seq<ExecutorInterceptor>, h: HandlerId, i: int,
                    msg: Option<Message>, err: Option<Throwable>)
    requires -1 <= i < |ics|
    ensures forall e :: e in UnwindTrace(ics, h, i, msg, err) ==> HookCall(ics, h, e)
  {
    var u := UnwindFrom(ics, h, i, msg, err);
    UnwindVisitsDownward(ics, h, i, msg, err);
    forall e | e in UnwindTrace(ics, h, i, msg, err)
      ensures HookCall(ics, h, e)
    {
      if e != Unwind(h, msg, err) {
        assert e in u;
        var j :| 0 <= j < |u| && u[j] == e;
      }
    }
  }

  /** Every call of a `beforeHandle` pass is the hook of the interceptor it names. */
  lemma {:induction false} ApplyHooks(ics: seq<ExecutorInterceptor>, h: HandlerId, k: nat, m: Message)
    requires k <= |ics|
    ensures forall e :: e in ApplyFrom(ics, h, k, m).events ==> HookCall(ics, h, e)
    decreases |ics| - k
  {
    if k < |ics| {
      match ics[k].beforeHandle(m, h)
      case Proceed(next) =>
        ApplyHooks(ics, h, k + 1, next);
      case Veto =>
        UnwindHooks(ics, h, k - 1, None, None);
      case Raise(t) =>
    }
  }

  // ---------------------------------------------------------------------------
  // SendTask.run

  /** The calls made by one task and what it lets escape to its caller. */
  datatype TaskRun = TaskRun(events: seq<Event>, escaped: Option<Throwable>)

  /**
   * The two catch clauses of a task whose message variable holds `msg` when `t` is thrown:
   * an Exception is reported to the unwind as it is and escapes as it is if it is a
   * messaging exception, wrapped in a delivery exception otherwise; an Error is reported
   * wrapped and escapes as it is.
   */
  function CatchClauses(ics: seq<ExecutorInterceptor>, h: HandlerId, cursor: int, msg: Message, t: Throwable): (r: TaskRun)
    requires -1 <= cursor < |ics|
    ensures r.escaped.Some? && Rethrowable(r.escaped)
    ensures |r.events| > 0 && r.events[0].Unwind? && r.events[0].error.Some? && r.events[0].error.value.IsException()
  {
    if t.IsException() then
      TaskRun(UnwindTrace(ics, h, cursor, Some(msg), Some(t)),
              Some(if t.IsMessagingException() then t else MessageDeliveryException(msg, t)))
    else
      TaskRun(UnwindTrace(ics, h, cursor, Some(msg), Some(MessageDeliveryException(msg, t))), Some(t))
  }

  /** What may leave a task: nothing, a messaging exception, or an Error. */
  predicate Rethrowable(escaped: Option<Throwable>) {
    escaped.Some? ==> escaped.value.IsMessagingException() || escaped.value.Error?
  }

  /** One run of a fresh task delivering `input` to `handler` through the chain over `ics`. */
  function RunSpec(ics: seq<ExecutorInterceptor>, handler: Handler, input: Message): (r: TaskRun)
    ensures Rethrowable(r.escaped)
  {
    var before := ApplyFrom(ics, handler.id, 0, input);
    match before.result
    case Null => TaskRun(before.events, None)
    case Thrown(t) =>
      var caught := CatchClauses(ics, handler.id, before.cursor, input, t);
      TaskRun(before.events + caught.events, caught.escaped)
    case Next(m) =>
      var outcome := handler.handle(m);
      var call := HandleMessage(handler.id, m, outcome);
      match outcome
      case Handled =>
        TaskRun(before.events + [call] + UnwindTrace(ics, handler.id, before.cursor, Some(m), None), None)
      case HandleFailed(t) =>
        var caught := CatchClauses(ics, handler.id, before.cursor, m, t);
        TaskRun(before.events + [call] + caught.events, caught.escaped)
  }

  /** The `afterMessageHandled` events carry one message and one exception: those of the unwind. */
  ghost predicate UniformUnwind(ev: seq<Event>, u: Event)
    requires u.Unwind?
  {
    var a := OfKind(ev, AfterKind);
    forall j :: 0 <= j < |a| ==> a[j].message == u.message && a[j].error == u.error && a[j].handler == u.handler
  }

  /**
   * How the catch clauses treat `t`, thrown while the task's message variable held `msg`:
   * `err` is the exception reported to the unwind and `escaped` what the task throws.
   */
  ghost predicate Caught(t: Throwable, msg: Message, err: Option<Throwable>, escaped: Option<Throwable>) {
    if t.IsException() then
      err == Some(t) &&
      escaped == Some(if t.IsMessagingException() then t else MessageDeliveryException(msg, t))
    else
      err == Some(MessageDeliveryException(msg, t)) && escaped == Some(t)
  }

  /**
   * A task's trace is its `beforeHandle` pass, then (unless vetoed) the handler call if the
   * pass completed, then exactly one unwind from the cursor the pass left, with the
   * task's message variable: the input if the pass threw, the final message otherwise.
   */
  lemma RunDecompose(ics: seq<ExecutorInterceptor>, handler: Handler, input: Message)
    returns (mid: seq<Event>, msg: Option<Message>, err: Option<Throwable>)
    ensures var before := ApplyFrom(ics, handler.id, 0, input); var run := RunSpec(ics, handler, input);
      (before.result.Null? ==> run.events == before.events && run.escaped == None) &&
      (!before.result.Null? ==>
         run.events == before.events + (mid + UnwindTrace(ics, handler.id, before.cursor, msg, err))) &&
      (before.result.Thrown? ==>
         mid == [] && msg == Some(input) && Caught(before.result.thrown, input, err, run.escaped)) &&
      (before.result.Next? ==>
         var m := before.result.message;
         mid == [HandleMessage(handler.id, m, handler.handle(m))] && msg == Some(m) &&
         (handler.handle(m).Handled? ==> err == None && run.escaped == None) &&
         (handler.handle(m).HandleFailed? ==> Caught(handler.handle(m).thrown, m, err, run.escaped)))
  {
    var h := handler.id;
    var before := ApplyFrom(ics, h, 0, input);
    mid, msg, err := [], None, None;
    match before.result
    case Null =>
    case Thrown(t) =>
      msg := Some(input);
      err := if t.IsException() then Some(t) else Some(MessageDeliveryException(input, t));
    case Next(m) =>
      mid := [HandleMessage(h, m, handler.handle(m))];
      msg := Some(m);
      match handler.handle(m)
      case Handled =>
      case HandleFailed(t) =>
        err := if t.IsException() then Some(t) else Some(MessageDeliveryException(m, t));
  }

  /**
   * Every call a task records is the real behaviour of the component it names: each
   * `beforeHandle` and `afterMessageHandled` result is that interceptor's own hook
   * applied to the recorded arguments, and the handler's outcome is the handler's own.
   */
  lemma RunCallsAsRecorded(ics: seq<ExecutorInterceptor>, handler: Handler, input: Message)
    ensures forall e :: e in RunSpec(ics, handler, input).events ==> TaskCall(ics, handler, e)
  {
    var before := ApplyFrom(ics, handler.id, 0, input);
    var mid, msg, err := RunDecompose(ics, handler, input);
    ApplyHooks(ics, handler.id, 0, input);
    if !before.result.Null? {
      UnwindHooks(ics, handler.id, before.cursor, msg, err);
    }
  }

  /**
   * The interceptors whose `beforeHandle` returned a message are positions 0, 1, ..., in
   * order, and `afterMessageHandled` went to exactly those positions, each once, in
   * reverse order; each call recorded is that interceptor's own hook on its arguments.
   */
  ghost predicate SymmetricTrace(ics: seq<ExecutorInterceptor>, h: HandlerId, ev: seq<Event>) {
    SymmetricLabels(ev) && HooksAsCalled(ics, h, ev)
  }

  /** The `beforeHandle` and `afterMessageHandled` results in `ev` are those of the hooks of the positions named. */
  ghost predicate HooksAsCalled(ics: seq<ExecutorInterceptor>, h: HandlerId, ev: seq<Event>) {
    var p := OfKind(ev, ProceedKind);
    var a := OfKind(ev, AfterKind);
    (forall j :: 0 <= j < |p| ==>
       p[j].index < |ics| && p[j].returned == ics[p[j].index].beforeHandle(p[j].input, h)) &&
    (forall j :: 0 <= j < |a| ==>
       a[j].index < |ics| && a[j].afterResult == ics[a[j].index].afterMessageHandled(a[j].message, h, a[j].error))
  }

  /** A task trace whose calls are all as recorded satisfies HooksAsCalled. */
  lemma TraceHooksAsCalled(ics: seq<ExecutorInterceptor>, handler: Handler, ev: seq<Event>)
    requires forall e :: e in ev ==> TaskCall(ics, handler, e)
    ensures HooksAsCalled(ics, handler.id, ev)
  {
    var p := OfKind(ev, ProceedKind);
    var a := OfKind(ev, AfterKind);
    OfKindIn(ev, ProceedKind);
    OfKindIn(ev, AfterKind);
    forall j | 0 <= j < |p|
      ensures p[j].index < |ics| && p[j].returned == ics[p[j].index].beforeHandle(p[j].input, handler.id)
    {
      assert p[j] in ev;
    }
    forall j | 0 <= j < |a|
      ensures a[j].index < |ics| &&
        a[j].afterResult == ics[a[j].index].afterMessageHandled(a[j].message, handler.id, a[j].error)
    {
      assert a[j] in ev;
    }
  }

  /** The position labels of SymmetricTrace: completed positions 0, 1, ... and the unwind over them in reverse. */
  ghost predicate SymmetricLabels(ev: seq<Event>) {
    var p := OfKind(ev, ProceedKind);
    var a := OfKind(ev, AfterKind);
    (forall j :: 0 <= j < |p| ==> p[j].index == j) &&
    |a| == |p| &&
    (forall j :: 0 <= j < |a| ==> a[j].index == p[|p| - 1 - j].index)
  }

  /** A trace whose completed interceptors are 0 .. `cursor` and whose unwind runs from `cursor` down to 0 is symmetric. */
  lemma SymmetricFromCursor(ev: seq<Event>, cursor: int)
    requires |OfKind(ev, ProceedKind)| == cursor + 1
    requires forall j :: 0 <= j < |OfKind(ev, ProceedKind)| ==> OfKind(ev, ProceedKind)[j].index == j
    requires |OfKind(ev, AfterKind)| == cursor + 1
    requires forall j :: 0 <= j < |OfKind(ev, AfterKind)| ==> OfKind(ev, AfterKind)[j].index == cursor - j
    ensures SymmetricLabels(ev)
  {
  }

  /**
   * Symmetry of a delivery: the interceptors whose `beforeHandle` returned a message are
   * positions 0, 1, ..., in order, and the `afterMessageHandled` calls go to exactly those
   * positions, each once, in reverse order, whatever the outcome (veto, throw or success).
   */
  lemma {:induction false} RunSymmetry(ics: seq<ExecutorInterceptor>, handler: Handler, input: Message)
    ensures SymmetricTrace(ics, handler.id, RunSpec(ics, handler, input).events)
  {
    RunCallsAsRecorded(ics, handler, input);
    TraceHooksAsCalled(ics, handler, RunSpec(ics, handler, input).events);
    var mid, msg, err := RunDecompose(ics, handler, input);
    if ApplyFrom(ics, handler.id, 0, input).result.Null? {
      VetoedPassSymmetric(ics, handler.id, input);
    } else {
      UnwoundPassSymmetric(ics, handler.id, input, mid, msg, err);
    }
  }

  /** A vetoed `beforeHandle` pass is symmetric on its own. */
  lemma VetoedPassSymmetric(ics: seq<ExecutorInterceptor>, h: HandlerId, input: Message)
    requires ApplyFrom(ics, h, 0, input).result.Null?
    ensures SymmetricLabels(ApplyFrom(ics, h, 0, input).events)
  {
    var before := ApplyFrom(ics, h, 0, input);
    CompletedFrom(ics, h, 0, input);
    ApplyVetoUnwind(ics, h, 0, input);
    UnwindVisitsDownward(ics, h, before.cursor, None, None);
    SymmetricFromCursor(before.events, before.cursor);
  }

  /** A `beforeHandle` pass that was not vetoed, followed by at most one handler call and one unwind, is symmetric. */
  lemma UnwoundPassSymmetric(ics: seq<ExecutorInterceptor>, h: HandlerId, input: Message,
                             mid: seq<Event>, msg: Option<Message>, err: Option<Throwable>)
    requires !ApplyFrom(ics, h, 0, input).result.Null?
    requires mid == [] || (|mid| == 1 && mid[0].HandleMessage?)
    ensures SymmetricLabels(ApplyFrom(ics, h, 0, input).events +
                           (mid + UnwindTrace(ics, h, ApplyFrom(ics, h, 0, input).cursor, msg, err)))
  {
    var before := ApplyFrom(ics, h, 0, input);
    var ev := before.events + (mid + UnwindTrace(ics, h, before.cursor, msg, err));
    TaskKinds(ics, h, input, mid, msg, err);
    CompletedFrom(ics, h, 0, input);
    UnwindVisitsDownward(ics, h, before.cursor, msg, err);
    SymmetricFromCursor(ev, before.cursor);
  }

  /** The events of each kind in a task's trace that was not vetoed, part by part. */
  lemma TaskTraceKinds(ics: seq<ExecutorInterceptor>, h: HandlerId, input: Message,
                       mid: seq<Event>, msg: Option<Message>, err: Option<Throwable>, k: Kind)
    requires !ApplyFrom(ics, h, 0, input).result.Null?
    ensures var before := ApplyFrom(ics, h, 0, input);
      OfKind(before.events + (mid + UnwindTrace(ics, h, before.cursor, msg, err)), k) ==
        OfKind(before.events, k) + OfKind(mid, k) + OfKind(UnwindTrace(ics, h, before.cursor, msg, err), k)
  {
    var before := ApplyFrom(ics, h, 0, input);
    var u := UnwindTrace(ics, h, before.cursor, msg, err);
    OfKindAppend(before.events, mid + u, k);
    OfKindAppend(mid, u, k);
  }

  /** Every task enters `triggerAfterMessageHandled` exactly once, whatever happens. */
  lemma {:induction false} RunUnwindsOnce(ics: seq<ExecutorInterceptor>, handler: Handler, input: Message)
    ensures var u := OfKind(RunSpec(ics, handler, input).events, UnwindKind);
      |u| == 1 && u[0].handler == handler.id
  {
    var h := handler.id;
    var before := ApplyFrom(ics, h, 0, input);
    ApplyUnwindCalls(ics, h, 0, input);
    var mid, msg, err := RunDecompose(ics, handler, input);
    if !before.result.Null? {
      TaskTraceKinds(ics, h, input, mid, msg, err, UnwindKind);
      UnwindTraceKinds(ics, h, before.cursor, msg, err, UnwindKind);
      HandlerCallKinds(mid);
    }
  }

  /**
   * The handler was called at most once, and exactly when no interceptor vetoed or threw:
   * then all `n` interceptors ran, and the handler got the message the last one returned
   * (`input` itself when there are none).
   */
  ghost predicate HandlerCalledAsThreaded(ev: seq<Event>, ics: seq<ExecutorInterceptor>, handler: Handler, input: Message) {
    HandlerCalledOnce(ev, |ics|, handler, input) &&
    var b := OfKind(ev, BeforeKind);
    forall j :: 0 <= j < |b| ==> b[j].index == j && j < |ics| && b[j].returned == ics[j].beforeHandle(b[j].input, handler.id)
  }

  /** The part of HandlerCalledAsThreaded that counts the calls: `n` interceptors, at most one handler call. */
  ghost predicate HandlerCalledOnce(ev: seq<Event>, n: nat, handler: Handler, input: Message) {
    var b := OfKind(ev, BeforeKind);
    var hs := OfKind(ev, HandleKind);
    |hs| <= 1 &&
    (|hs| == 1 <==> forall j :: 0 <= j < |b| ==> b[j].returned.Proceed?) &&
    (|hs| == 1 ==>
       |b| == n && hs[0].handler == handler.id &&
       hs[0].delivered == (if b == [] then input else b[|b| - 1].returned.message) &&
       hs[0].outcome == handler.handle(hs[0].delivered))
  }

  lemma HandlerCalledFromKinds(ev: seq<Event>, n: nat, handler: Handler, input: Message)
    requires forall j :: 0 <= j < |OfKind(ev, BeforeKind)| - 1 ==> OfKind(ev, BeforeKind)[j].returned.Proceed?
    requires OfKind(ev, HandleKind) == [] ==>
      OfKind(ev, BeforeKind) != [] && !OfKind(ev, BeforeKind)[|OfKind(ev, BeforeKind)| - 1].returned.Proceed?
    requires OfKind(ev, HandleKind) != [] ==>
      var b := OfKind(ev, BeforeKind); var hs := OfKind(ev, HandleKind);
      |hs| == 1 && |b| == n && hs[0].handler == handler.id &&
      hs[0].outcome == handler.handle(hs[0].delivered) &&
      (b == [] ==> hs[0].delivered == input) &&
      (b != [] ==> b[|b| - 1].returned == Proceed(hs[0].delivered))
    ensures HandlerCalledOnce(ev, n, handler, input)
  {
  }

  /**
   * The handler is called at most once, and exactly when no interceptor vetoed or threw:
   * then every interceptor ran, and the handler got the message the last one returned
   * (the input itself when there are no executor interceptors).
   */
  lemma {:induction false} RunHandlerInvocation(ics: seq<ExecutorInterceptor>, handler: Handler, input: Message)
    ensures HandlerCalledAsThreaded(RunSpec(ics, handler, input).events, ics, handler, input)
  {
    var before := ApplyFrom(ics, handler.id, 0, input);
    var mid, msg, err := RunDecompose(ics, handler, input);
    PassHandlerCalled(ics, handler, input, mid, msg, err);
    assert OfKind(RunSpec(ics, handler, input).events, BeforeKind) == OfKind(before.events, BeforeKind);
    PassInOrder(ics, handler.id, input);
  }

  /** The `beforeHandle` calls of a pass from 0 are the hooks of positions 0, 1, ..., with their own results. */
  lemma PassInOrder(ics: seq<ExecutorInterceptor>, h: HandlerId, input: Message)
    ensures var b := OfKind(ApplyFrom(ics, h, 0, input).events, BeforeKind);
      forall j :: 0 <= j < |b| ==> b[j].index == j && j < |ics| && b[j].returned == ics[j].beforeHandle(b[j].input, h)
  {
    ApplyThreading(ics, h, 0, input);
  }

  /** `RunHandlerInvocation` for a task trace given part by part. */
  lemma PassHandlerCalled(ics: seq<ExecutorInterceptor>, handler: Handler, input: Message,
                          mid: seq<Event>, msg: Option<Message>, err: Option<Throwable>)
    requires var r := ApplyFrom(ics, handler.id, 0, input).result;
      (r.Thrown? ==> mid == []) &&
      (r.Next? ==> mid == [HandleMessage(handler.id, r.message, handler.handle(r.message))])
    ensures var before := ApplyFrom(ics, handler.id, 0, input);
      var ev := if before.result.Null? then before.events
                else before.events + (mid + UnwindTrace(ics, handler.id, before.cursor, msg, err));
      HandlerCalledOnce(ev, |ics|, handler, input) &&
      OfKind(ev, BeforeKind) == OfKind(before.events, BeforeKind)
  {
    var h := handler.id;
    var before := ApplyFrom(ics, h, 0, input);
    var ev := if before.result.Null? then before.events
              else before.events + (mid + UnwindTrace(ics, h, before.cursor, msg, err));
    var b := OfKind(before.events, BeforeKind);
    var hs := if before.result.Null? then [] else mid;
    assert OfKind(ev, BeforeKind) == b && OfKind(ev, HandleKind) == hs by {
      if before.result.Null? {
        ApplyUnwindCalls(ics, h, 0, input);
      } else {
        TaskKinds(ics, h, input, mid, msg, err);
      }
    }
    ThreadedFrom(ics, h, 0, input);
    forall j | 0 <= j < |b| - 1 ensures b[j].returned.Proceed? {
      assert b[j].returned == Proceed(b[j + 1].input);
    }
    HandlerCalledFromKinds(ev, |ics|, handler, input);
  }

  /**
   * What a task's trace says about how it ended: it unwinds once, every
   * `afterMessageHandled` call gets the unwind's message and exception, and
   * - after a veto nothing escapes and the unwind gets neither message nor exception;
   * - after a successful handler call nothing escapes and the unwind gets the handled message;
   * - a throw from an interceptor's `beforeHandle` is caught with the task's INPUT message,
   *   a throw from the handler with the message it was given, as `Caught` describes.
   */
  ghost predicate OutcomeAsTraced(ev: seq<Event>, escaped: Option<Throwable>, input: Message) {
    var b := OfKind(ev, BeforeKind);
    var hs := OfKind(ev, HandleKind);
    var us := OfKind(ev, UnwindKind);
    |us| == 1 &&
    UniformUnwind(ev, us[0]) &&
    (b != [] && b[|b| - 1].returned.Veto? ==>
       escaped == None && us[0].message == None && us[0].error == None) &&
    (b != [] && b[|b| - 1].returned.Raise? ==>
       us[0].message == Some(input) && Caught(b[|b| - 1].returned.thrown, input, us[0].error, escaped)) &&
    (hs != [] && hs[0].outcome.Handled? ==>
       escaped == None && us[0].message == Some(hs[0].delivered) && us[0].error == None) &&
    (hs != [] && hs[0].outcome.HandleFailed? ==>
       us[0].message == Some(hs[0].delivered) &&
       Caught(hs[0].outcome.thrown, hs[0].delivered, us[0].error, escaped))
  }

  /** The error policy of a task, read off its trace: see `OutcomeAsTraced`. */
  lemma {:induction false} RunOutcome(ics: seq<ExecutorInterceptor>, handler: Handler, input: Message)
    ensures OutcomeAsTraced(RunSpec(ics, handler, input).events, RunSpec(ics, handler, input).escaped, input)
  {
    var mid, msg, err := RunDecompose(ics, handler, input);
    PassOutcome(ics, handler, input, mid, msg, err, RunSpec(ics, handler, input).escaped);
  }

  /** `RunOutcome` for a task trace given part by part. */
  lemma PassOutcome(ics: seq<ExecutorInterceptor>, handler: Handler, input: Message,
                    mid: seq<Event>, msg: Option<Message>, err: Option<Throwable>, escaped: Option<Throwable>)
    requires var r := ApplyFrom(ics, handler.id, 0, input).result;
      (r.Null? ==> escaped == None) &&
      (r.Thrown? ==> mid == [] && msg == Some(input) && Caught(r.thrown, input, err, escaped)) &&
      (r.Next? ==>
         var out := handler.handle(r.message);
         mid == [HandleMessage(handler.id, r.message, out)] && msg == Some(r.message) &&
         (out.Handled? ==> err == None && escaped == None) &&
         (out.HandleFailed? ==> Caught(out.thrown, r.message, err, escaped)))
    ensures var before := ApplyFrom(ics, handler.id, 0, input);
      OutcomeAsTraced(
        if before.result.Null? then before.events
        else before.events + (mid + UnwindTrace(ics, handler.id, before.cursor, msg, err)),
        escaped, input)
  {
    var h := handler.id;
    var before := ApplyFrom(ics, h, 0, input);
    if before.result.Null? {
      VetoedOutcome(ics, h, input);
    } else {
      TaskKinds(ics, h, input, mid, msg, err);
      UnwindUniform(ics, h, before.cursor, msg, err);
      ThreadedFrom(ics, h, 0, input);
    }
  }

  /** `RunOutcome` for a vetoed task. */
  lemma VetoedOutcome(ics: seq<ExecutorInterceptor>, h: HandlerId, input: Message)
    requires ApplyFrom(ics, h, 0, input).result.Null?
    ensures OutcomeAsTraced(ApplyFrom(ics, h, 0, input).events, None, input)
  {
    var before := ApplyFrom(ics, h, 0, input);
    ThreadedFrom(ics, h, 0, input);
    ApplyUnwindCalls(ics, h, 0, input);
    ApplyVetoUnwind(ics, h, 0, input);
    UnwindUniform(ics, h, before.cursor, None, None);
  }

  /** The middle part of a task trace, at most one handler call, holds no interceptor event. */
  lemma HandlerCallKinds(mid: seq<Event>)
    requires mid == [] || (|mid| == 1 && mid[0].HandleMessage?)
    ensures OfKind(mid, HandleKind) == mid
    ensures OfKind(mid, BeforeKind) == [] && OfKind(mid, ProceedKind) == []
    ensures OfKind(mid, UnwindKind) == [] && OfKind(mid, AfterKind) == []
  {
    if mid != [] {
      assert mid == [mid[0]] + [];
      OfKindCons(mid[0], [], HandleKind);
      OfKindCons(mid[0], [], BeforeKind);
      OfKindCons(mid[0], [], ProceedKind);
      OfKindCons(mid[0], [], UnwindKind);
      OfKindCons(mid[0], [], AfterKind);
    }
  }

  /** Every call of an unwind gets the unwind's handler, message and exception. */
  lemma UnwindUniform(ics: seq<ExecutorInterceptor>, h: HandlerId, i: int,
                      msg: Option<Message>, err: Option<Throwable>)
    requires -1 <= i < |ics|
    ensures var a := UnwindFrom(ics, h, i, msg, err);
      forall j :: 0 <= j < |a| ==>
        a[j].AfterMessageHandled? && a[j].message == msg && a[j].error == err && a[j].handler == h
  {
    UnwindVisitsDownward(ics, h, i, msg, err);
  }

  /** The events of each kind in a task trace that was not vetoed, given its middle part: at most one handler call. */
  lemma TaskKinds(ics: seq<ExecutorInterceptor>, h: HandlerId, input: Message,
                  mid: seq<Event>, msg: Option<Message>, err: Option<Throwable>)
    requires !ApplyFrom(ics, h, 0, input).result.Null?
    requires mid == [] || (|mid| == 1 && mid[0].HandleMessage?)
    ensures var before := ApplyFrom(ics, h, 0, input);
      var ev := before.events + (mid + UnwindTrace(ics, h, before.cursor, msg, err));
      OfKind(ev, BeforeKind) == OfKind(before.events, BeforeKind) &&
      OfKind(ev, ProceedKind) == OfKind(before.events, ProceedKind) &&
      OfKind(ev, HandleKind) == mid &&
      OfKind(ev, UnwindKind) == [Unwind(h, msg, err)] &&
      OfKind(ev, AfterKind) == UnwindFrom(ics, h, before.cursor, msg, err)
  {
    TaskPassKinds(ics, h, input, mid, msg, err, BeforeKind);
    TaskPassKinds(ics, h, input, mid, msg, err, ProceedKind);
    TaskHandleKinds(ics, h, input, mid, msg, err);
    TaskUnwindKinds(ics, h, input, mid, msg, err);
    TaskAfterKinds(ics, h, input, mid, msg, err);
  }

  /** TaskKinds for the two kinds of `beforeHandle` event: they all come from the pass. */
  lemma TaskPassKinds(ics: seq<ExecutorInterceptor>, h: HandlerId, input: Message,
                      mid: seq<Event>, msg: Option<Message>, err: Option<Throwable>, k: Kind)
    requires !ApplyFrom(ics, h, 0, input).result.Null?
    requires mid == [] || (|mid| == 1 && mid[0].HandleMessage?)
    requires k == BeforeKind || k == ProceedKind
    ensures var before := ApplyFrom(ics, h, 0, input);
      OfKind(before.events + (mid + UnwindTrace(ics, h, before.cursor, msg, err)), k) == OfKind(before.events, k)
  {
    var before := ApplyFrom(ics, h, 0, input);
    HandlerCallKinds(mid);
    TaskTraceKinds(ics, h, input, mid, msg, err, k);
    UnwindTraceKinds(ics, h, before.cursor, msg, err, k);
  }

  /** TaskKinds for handler calls: only the middle part holds one. */
  lemma TaskHandleKinds(ics: seq<ExecutorInterceptor>, h: HandlerId, input: Message,
                        mid: seq<Event>, msg: Option<Message>, err: Option<Throwable>)
    requires !ApplyFrom(ics, h, 0, input).result.Null?
    requires mid == [] || (|mid| == 1 && mid[0].HandleMessage?)
    ensures var before := ApplyFrom(ics, h, 0, input);
      OfKind(before.events + (mid + UnwindTrace(ics, h, before.cursor, msg, err)), HandleKind) == mid
  {
    var before := ApplyFrom(ics, h, 0, input);
    HandlerCallKinds(mid);
    ApplyUnwindCalls(ics, h, 0, input);
    TaskTraceKinds(ics, h, input, mid, msg, err, HandleKind);
    UnwindTraceKinds(ics, h, before.cursor, msg, err, HandleKind);
  }

  /** TaskKinds for unwind entries: only the final unwind. */
  lemma TaskUnwindKinds(ics: seq<ExecutorInterceptor>, h: HandlerId, input: Message,
                        mid: seq<Event>, msg: Option<Message>, err: Option<Throwable>)
    requires !ApplyFrom(ics, h, 0, input).result.Null?
    requires mid == [] || (|mid| == 1 && mid[0].HandleMessage?)
    ensures var before := ApplyFrom(ics, h, 0, input);
      OfKind(before.events + (mid + UnwindTrace(ics, h, before.cursor, msg, err)), UnwindKind) == [Unwind(h, msg, err)]
  {
    var before := ApplyFrom(ics, h, 0, input);
    HandlerCallKinds(mid);
    ApplyUnwindCalls(ics, h, 0, input);
    TaskTraceKinds(ics, h, input, mid, msg, err, UnwindKind);
    UnwindTraceKinds(ics, h, before.cursor, msg, err, UnwindKind);
  }

  /** TaskKinds for `afterMessageHandled` calls: only those of the final unwind. */
  lemma TaskAfterKinds(ics: seq<ExecutorInterceptor>, h: HandlerId, input: Message,
                       mid: seq<Event>, msg: Option<Message>, err: Option<Throwable>)
    requires !ApplyFrom(ics, h, 0, input).result.Null?
    requires mid == [] || (|mid| == 1 && mid[0].HandleMessage?)
    ensures var before := ApplyFrom(ics, h, 0, input);
      OfKind(before.events + (mid + UnwindTrace(ics, h, before.cursor, msg, err)), AfterKind) ==
        UnwindFrom(ics, h, before.cursor, msg, err)
  {
    var before := ApplyFrom(ics, h, 0, input);
    HandlerCallKinds(mid);
    ApplyVetoUnwind(ics, h, 0, input);
    TaskTraceKinds(ics, h, input, mid, msg, err, AfterKind);
    UnwindTraceKinds(ics, h, before.cursor, msg, err, AfterKind);
  }


  /**
   * A task lets only a messaging exception or the original Error escape, and the
   * `afterMessageHandled` hooks, whose parameter is an Exception, never receive an Error.
   */
  lemma {:induction false} RunEscapes(ics: seq<ExecutorInterceptor>, handler: Handler, input: Message)
    ensures var r := RunSpec(ics, handler, input); var us := OfKind(r.events, UnwindKind);
      (r.escaped.Some? ==> r.escaped.value.IsMessagingException() || r.escaped.value.Error?) &&
      |us| == 1 && (us[0].error.Some? ==> us[0].error.value.IsException())
  {
    var h := handler.id;
    var before := ApplyFrom(ics, h, 0, input);
    var mid, msg, err := RunDecompose(ics, handler, input);
    if before.result.Null? {
      ApplyUnwindCalls(ics, h, 0, input);
    } else {
      TaskKinds(ics, h, input, mid, msg, err);
    }
  }

  // ---------------------------------------------------------------------------
  // sendInternal without an executor

  /** The runs of one fresh task per subscriber, in subscriber order. */
  function TaskRuns(ics: seq<ExecutorInterceptor>, subscribers: seq<Handler>, m: Message): (r: seq<TaskRun>)
    ensures |r| == |subscribers|
    ensures forall i :: 0 <= i < |r| ==> Rethrowable(r[i].escaped)
    decreases |subscribers|
  {
    if subscribers == [] then [] else [RunSpec(ics, subscribers[0], m)] + TaskRuns(ics, subscribers[1..], m)
  }

  /** The `i`-th run is that of the task for subscriber `i`. */
  lemma {:induction false} TaskRunsAt(ics: seq<ExecutorInterceptor>, subscribers: seq<Handler>, m: Message, i: nat)
    requires i < |subscribers|
    ensures TaskRuns(ics, subscribers, m)[i] == RunSpec(ics, subscribers[i], m)
    decreases i
  {
    if i > 0 {
      TaskRunsAt(ics, subscribers[1..], m, i - 1);
    }
  }

  /** Tasks run inline, one after another: a task that throws ends the fan-out, and what it threw escapes. */
  function FanOut(runs: seq<TaskRun>): (r: TaskRun)
    ensures r.escaped == None <==> forall i :: 0 <= i < |runs| ==> runs[i].escaped == None
    ensures r.escaped.Some? ==> exists i :: 0 <= i < |runs| && runs[i].escaped == r.escaped
    decreases |runs|
  {
    if runs == [] then TaskRun([], None)
    else if runs[0].escaped.Some? then runs[0]
    else
      var rest := FanOut(runs[1..]);
      TaskRun(runs[0].events + rest.events, rest.escaped)
  }

  /** `sendInternal` without an executor: the tasks for `subscribers` run inline. */
  function InlineFanOut(ics: seq<ExecutorInterceptor>, subscribers: seq<Handler>, m: Message): (r: TaskRun)
    ensures Rethrowable(r.escaped)
  {
    FanOut(TaskRuns(ics, subscribers, m))
  }

  /** The traces of `runs`, one after another. */
  function Sequenced(runs: seq<TaskRun>): seq<Event>
    decreases |runs|
  {
    if runs == [] then [] else runs[0].events + Sequenced(runs[1..])
  }

  /** Extending the runs by one extends their sequenced trace by that run's trace. */
  lemma {:induction false} SequencedSnoc(runs: seq<TaskRun>, i: nat)
    requires i < |runs|
    ensures Sequenced(runs[..i + 1]) == Sequenced(runs[..i]) + runs[i].events
    decreases i
  {
    if i == 0 {
      assert runs[..1][1..] == [];
    } else {
      SequencedSnoc(runs[1..], i - 1);
      assert runs[..i + 1][1..] == runs[1..][..i];
      assert runs[..i][1..] == runs[1..][..i - 1];
    }
  }

  lemma {:induction false} FanOutAllReturn(runs: seq<TaskRun>)
    requires forall i :: 0 <= i < |runs| ==> runs[i].escaped == None
    ensures FanOut(runs) == TaskRun(Sequenced(runs), None)
    decreases |runs|
  {
    if runs != [] {
      FanOutAllReturn(runs[1..]);
    }
  }

  lemma {:induction false} FanOutFirstEscape(runs: seq<TaskRun>, j: nat)
    requires j < |runs|
    requires forall i :: 0 <= i < j ==> runs[i].escaped == None
    requires runs[j].escaped.Some?
    ensures FanOut(runs) == TaskRun(Sequenced(runs[..j + 1]), runs[j].escaped)
    decreases j
  {
    if j == 0 {
      assert runs[..1][1..] == [];
    } else {
      FanOutFirstEscape(runs[1..], j - 1);
      assert runs[..j + 1][1..] == runs[1..][..j];
    }
  }

  /** When no task throws, every subscriber's task runs, in order, and nothing escapes. */
  lemma FanOutReachesAll(ics: seq<ExecutorInterceptor>, subscribers: seq<Handler>, m: Message)
    requires forall i :: 0 <= i < |subscribers| ==> RunSpec(ics, subscribers[i], m).escaped == None
    ensures InlineFanOut(ics, subscribers, m) == TaskRun(Sequenced(TaskRuns(ics, subscribers, m)), None)
  {
    var runs := TaskRuns(ics, subscribers, m);
    forall i | 0 <= i < |runs|
      ensures runs[i].escaped == None
    {
      TaskRunsAt(ics, subscribers, m, i);
    }
    FanOutAllReturn(runs);
  }

  /**
   * When the task for subscriber `j` is the first to throw, the tasks for subscribers
   * 0 .. `j` run, in order, none after `j` runs, and `j`'s throw escapes.
   */
  lemma FanOutStopsAtFirstEscape(ics: seq<ExecutorInterceptor>, subscribers: seq<Handler>, m: Message, j: nat)
    requires j < |subscribers|
    requires forall i :: 0 <= i < j ==> RunSpec(ics, subscribers[i], m).escaped == None
    requires RunSpec(ics, subscribers[j], m).escaped.Some?
    ensures InlineFanOut(ics, subscribers, m) ==
      TaskRun(Sequenced(TaskRuns(ics, subscribers, m)[..j + 1]), RunSpec(ics, subscribers[j], m).escaped)
  {
    var runs := TaskRuns(ics, subscribers, m);
    forall i | 0 <= i <= j
      ensures runs[i] == RunSpec(ics, subscribers[i], m)
    {
      TaskRunsAt(ics, subscribers, m, i);
    }
    FanOutFirstEscape(runs, j);
  }

  /**
   * With no executor interceptors and handlers that all succeed, every subscriber's
   * handler is called once, in subscriber order, with the very message that was sent;
   * with no subscribers nothing is called. Nothing escapes.
   */
  lemma {:induction false} FanOutWithoutInterceptors(subscribers: seq<Handler>, m: Message)
    requires forall i :: 0 <= i < |subscribers| ==> subscribers[i].handle(m) == Handled
    ensures var r := InlineFanOut([], subscribers, m); var hs := OfKind(r.events, HandleKind);
      r.escaped == None &&
      |hs| == |subscribers| &&
      (forall i :: 0 <= i < |hs| ==> hs[i] == HandleMessage(subscribers[i].id, m, Handled)) &&
      OfKind(r.events, BeforeKind) == [] && OfKind(r.events, AfterKind) == []
    decreases |subscribers|
  {
    if subscribers != [] {
      var s := subscribers[0];
      FanOutWithoutInterceptors(subscribers[1..], m);
      var first := RunSpec([], s, m);
      LoneHandlerRun(s, m);
      var rest := InlineFanOut([], subscribers[1..], m);
      assert InlineFanOut([], subscribers, m) == TaskRun(first.events + rest.events, None);
      OfKindAppend(first.events, rest.events, HandleKind);
      OfKindAppend(first.events, rest.events, BeforeKind);
      OfKindAppend(first.events, rest.events, AfterKind);
    }
  }

  /** Without executor interceptors a task that handles its message makes one handler call and one empty unwind. */
  lemma LoneHandlerRun(s: Handler, m: Message)
    requires s.handle(m) == Handled
    ensures RunSpec([], s, m).escaped == None
    ensures OfKind(RunSpec([], s, m).events, HandleKind) == [HandleMessage(s.id, m, Handled)]
    ensures OfKind(RunSpec([], s, m).events, BeforeKind) == []
    ensures OfKind(RunSpec([], s, m).events, AfterKind) == []
  {
    var call := HandleMessage(s.id, m, Handled);
    var unwind := Unwind(s.id, Some(m), None);
    assert RunSpec([], s, m).events == [] + [call] + [unwind] + [];
    assert [] + [call] + [unwind] + [] == [call, unwind];
    assert [call, unwind][1..] == [unwind];
  }
}
