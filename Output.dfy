/** The terminal as the model sees it: the lines the CLI prints, in order.
    Translated messages are named by their translation key and arguments;
    their wording is not part of the model. */
module Output {

  datatype Message =
    | UnsupportedPackage(packageName: string)
    | ShowUnsupportedModulesDocLink
    | RequireDeprecatedUseES6Syntax
    | FailedToApplyNodeImportProtocol

  datatype OutputEvent =
    | PrintNewLine
    | Mistake(message: Message)
    | Log(message: Message)
    | Link(url: string)
    | Error(message: Message)

  class Terminal {
    var events: seq<OutputEvent>

    constructor ()
      ensures events == []
    {
      events := [];
    }

    method Emit(e: OutputEvent)
      modifies this
      ensures events == old(events) + [e]
    {
      events := events + [e];
    }
  }
}
