/** The client's error translation (`shared/error-handler.service.ts`): a
    failed request becomes the technical message, the HTTP status when the
    server answered, and a message for the user chosen by status. */
module ErrorHandler {
  import opened Wrappers
  import opened Text

  /** A failed request: the browser could not reach the server (an
      `ErrorEvent`), or the server answered with a status. */
  datatype HttpError = ClientSide(eventMessage: string) | ServerSide(status: int, message: string)

  datatype ErrorDetails = ErrorDetails(message: string, status: Option<int>, userMessage: string)

  const ConnectionMessage := "A connection error occurred. Please check your internet connection."
  const DefaultMessage := "An unexpected error occurred. Please try again."

  /** The statuses with a message of their own that does not name the entity. */
  const FixedMessages: map<int, string> := map[
    400 := "Invalid data provided. Please check your input.",
    401 := "You need to be logged in to perform this action.",
    403 := "You do not have permission to perform this action.",
    422 := "The data could not be processed. Please verify your input.",
    500 := "An internal server error occurred. Please try again later.",
    503 := "The service is temporarily unavailable. Please try again later."]

  /** The entity named in messages: the lower-cased context, or "resource"
      when there is none or it is empty. */
  function EntityName(context: Option<string>): (r: string)
    ensures context.None? || context.value == "" ==> r == "resource"
    ensures context.Some? && context.value != "" ==> r == Lower(context.value)
    ensures |r| > 0
  {
    if context.Some? && Lower(context.value) != "" then Lower(context.value) else "resource"
  }

  /** `getUserFriendlyMessage`. */
  function UserMessage(status: int, context: Option<string>): (r: string)
    ensures status in FixedMessages ==> r == FixedMessages[status]
    ensures status == 404 ==> r == "The " + EntityName(context) + " was not found."
    ensures status == 409 ==> r == "This " + EntityName(context) + " already exists."
    ensures status !in FixedMessages && status != 404 && status != 409 ==> r == DefaultMessage
  {
    var entity := EntityName(context);
    match status
    case 400 => "Invalid data provided. Please check your input."
    case 401 => "You need to be logged in to perform this action."
    case 403 => "You do not have permission to perform this action."
    case 404 => "The " + entity + " was not found."
    case 409 => "This " + entity + " already exists."
    case 422 => "The data could not be processed. Please verify your input."
    case 500 => "An internal server error occurred. Please try again later."
    case 503 => "The service is temporarily unavailable. Please try again later."
    case _ => DefaultMessage
  }

  /** `buildErrorDetails`: no status for a connection failure, the server's status otherwise. */
  function BuildErrorDetails(error: HttpError, context: Option<string>): (r: ErrorDetails)
    ensures error.ClientSide? ==> r == ErrorDetails(error.eventMessage, None, ConnectionMessage)
    ensures error.ServerSide? ==> r.message == error.message && r.status == Some(error.status)
    ensures error.ServerSide? ==> r.userMessage == UserMessage(error.status, context)
  {
    match error
    case ClientSide(m) => ErrorDetails(m, None, ConnectionMessage)
    case ServerSide(status, m) => ErrorDetails(m, Some(status), UserMessage(status, context))
  }

  // ----- properties -----

  /** A server error's details carry its status, so the user message can be
      recovered from the details alone. */
  lemma DetailsDetermineMessage(e1: HttpError, e2: HttpError, context: Option<string>)
    requires e1.ServerSide? && e2.ServerSide?
    requires BuildErrorDetails(e1, context).status == BuildErrorDetails(e2, context).status
    ensures BuildErrorDetails(e1, context).userMessage == BuildErrorDetails(e2, context).userMessage
  {
  }

  /** A connection error's user message cannot be confused with the one of
      any server answer, whatever its status and context: seven characters
      from its end it has the `e` of "connection.", where only the conflict
      message, which ends in "exists.", has one too. */
  lemma ConnectionMessageDistinct(eventMessage: string, status: int, message: string, context: Option<string>)
    ensures BuildErrorDetails(ClientSide(eventMessage), context).userMessage
         != BuildErrorDetails(ServerSide(status, message), context).userMessage
  {
    var u := UserMessage(status, context);
    var c := ConnectionMessage;
    assert c[|c| - 7] == 'e' && c[|c| - 2] == 'n';
    if status in FixedMessages {
      forall v | v in FixedMessages.Values ensures v[|v| - 7] != 'e' {
      }
    } else if status == 404 {
      assert u[|u| - 7] == ' ';
    } else if status == 409 {
      assert u[|u| - 2] == 's';
    } else {
      assert u[|u| - 7] == ' ';
    }
  }

  /** Each status with its own message gets a different one, and none of them is the default. */
  lemma KnownStatusesDistinct(s1: int, s2: int, context: Option<string>)
    requires s1 in FixedMessages && s2 in FixedMessages && s1 != s2
    ensures UserMessage(s1, context) != UserMessage(s2, context)
    ensures UserMessage(s1, context) != DefaultMessage
  {
  }

  /** The not-found and conflict messages name the entity right after their
      first word, and differ from each other and from every fixed message. */
  lemma EntityMessagesName(context: Option<string>)
    ensures var e := EntityName(context);
      var nf := UserMessage(404, context);
      var cf := UserMessage(409, context);
      && nf[4..4 + |e|] == e && cf[5..5 + |e|] == e
      && nf != cf
      && nf !in FixedMessages.Values && cf !in FixedMessages.Values
      && nf != DefaultMessage && cf != DefaultMessage
  {
    var e := EntityName(context);
    var nf := UserMessage(404, context);
    var cf := UserMessage(409, context);
    assert nf[|nf| - 2] == 'd' && cf[|cf| - 2] == 's';
    forall v | v in FixedMessages.Values ensures nf != v && cf != v {
      assert v[|v| - 2] != 'd' && v[|v| - 2] != 's';
    }
    assert DefaultMessage[|DefaultMessage| - 2] == 'n';
  }

  /** A game that is not found is reported by its kind in lower case. */
  lemma GameNotFoundExample()
    ensures BuildErrorDetails(ServerSide(404, "Http failure"), Some("Game")).userMessage == "The game was not found."
    ensures BuildErrorDetails(ServerSide(418, "Http failure"), None).userMessage == DefaultMessage
  {
    assert Lower("Game") == "game" by {
      assert LowerChar('G') == 'g';
    }
  }
}
