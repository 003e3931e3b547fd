/**
 * The values that flow through an executor subscribable channel: messages,
 * the throwables that handlers and interceptors may raise, and the abstract
 * behaviours of message handlers and interceptors.
 */
module Messaging {

  /** A message: an immutable payload-and-headers envelope, opaque to the channel beyond its identity. */
  datatype Message = Message(id: nat)

  /** Identity of a subscribed message handler, as passed to the interceptor hooks. */
  type HandlerId = nat

  /**
   * What a handler or an interceptor can throw. `MessageDeliveryException` is one of the
   * messaging exceptions; `Error` stands for a `java.lang.Error` (a fatal condition).
   */
  datatype Throwable =
    | MessagingException(code: nat)
    | MessageDeliveryException(failedMessage: Message, cause: Throwable)
    | OtherException(code: nat)
    | Error(code: nat)
  {
    /** A `java.lang.Exception` (as opposed to an `Error`). */
    predicate IsException() { !Error? }

    /** An instance of `MessagingException`, including its subclass `MessageDeliveryException`. */
    predicate IsMessagingException() { MessagingException? || MessageDeliveryException? }
  }

  /** Outcome of one call of an interceptor's `beforeHandle`: a (possibly new) message, a veto (null), or a throw. */
  datatype BeforeResult = Proceed(message: Message) | Veto | Raise(thrown: Throwable)

  /** Outcome of one call of an interceptor's `afterMessageHandled`. */
  datatype AfterResult = Completed | Raised(thrown: Throwable)

  /** Outcome of one call of a handler's `handleMessage`. */
  datatype HandleResult = Handled | HandleFailed(thrown: Throwable)

  /** A subscriber: its identity and how it responds to each message. */
  datatype Handler = Handler(id: HandlerId, handle: Message -> HandleResult)

  /**
   * An interceptor with the executor capability: its two hooks as behaviours. A null
   * message or a null exception passed to `afterMessageHandled` is `None`.
   */
  datatype ExecutorInterceptor = ExecutorInterceptor(
    name: nat,
    beforeHandle: (Message, HandlerId) -> BeforeResult,
    afterMessageHandled: (Option<Message>, HandlerId, Option<Throwable>) -> AfterResult)

  /** A registered interceptor, tagged with whether it has the executor capability. */
  datatype Interceptor = Plain(name: nat) | Executor(hooks: ExecutorInterceptor)

  datatype Option<+T> = None | Some(value: T)
}
