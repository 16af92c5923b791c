/** The ways a resolver rejects. */
module Errors {

  datatype Error =
    | AppNotFound(appName: string, appVersion: string)
    | InstanceNotFound(name: string)
      /** A property read on `null` or `undefined`, which JavaScript throws on. */
    | TypeError(reason: string)
      /** An exception thrown inside a store callback, after the resolver's
          promise executor has returned: it escapes uncaught and the request's
          promise never settles, so the caller sees no answer at all. */
    | Uncaught(thrown: Error)

  /** The rejection text the resolvers produce. */
  function Message(e: Error): string {
    match e
    case AppNotFound(n, v) => "App " + n + ":" + v + " does not exist."
    case InstanceNotFound(n) => "Instance " + n + " does not exist"
    case TypeError(r) => r
    case Uncaught(t) => Message(t)
  }
}
