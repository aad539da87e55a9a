/** Values shared by every handler: the error record the handlers send back
    through the channel, the reply that carries either data or that error,
    and the success/failure answers of the collaborators (the upstream mail
    relay and the document store) that the model receives as parameters. */
module Common {

  datatype Option<+T> = None | Some(value: T)

  /** The `{name, message, stacktrace}` record built in every catch block. */
  datatype ErrorInfo = ErrorInfo(name: string, message: string, stacktrace: string)

  /** What a handler sends on its callback event: `data` or `error`. */
  datatype Reply<+T> = Data(value: T) | Error(error: ErrorInfo)

  /** The answer of a collaborator call whose value the handler ignores:
      it returned normally, or it threw. */
  datatype Outcome = Pass | Fail(error: ErrorInfo)

  /** The answer of a collaborator call whose value the handler uses. */
  datatype Answer<+T> = Returned(value: T) | Threw(error: ErrorInfo)
}
