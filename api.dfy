/**
 * The shared HTTP client of src/lib/api.ts: the mapping from a failed request to the
 * message shown to the user, and the response interceptor that shows it and passes the
 * failure on.
 */
module Api {
  import opened Maybe

  /** A field of the error body as JavaScript sees it: missing, a string, or something else. */
  datatype BodyValue = Absent | Str(s: string) | NonString

  datatype ErrorBody = ErrorBody(message: BodyValue, error: BodyValue)

  /** The server's answer to a failed request; `data` is missing when the body is empty. */
  datatype Response = Response(status: Option<int>, data: Option<ErrorBody>)

  /** An axios error: `response` is missing when the request never got an answer. */
  datatype HttpError = HttpError(response: Option<Response>)

  /** What awaiting a request yields: the response data, or the rejection of that error. */
  datatype Result<T> = Ok(value: T) | Err(error: HttpError)

  datatype Icon = SuccessIcon | ErrorIcon

  /** A toast notification: its icon and its title. */
  datatype Toast = Toast(icon: Icon, title: string)

  const NetworkMessage := "Network error. Please check your connection and try again."
  const BadRequestMessage := "Invalid request. Please check your input and try again."
  const UnauthorizedMessage := "Please sign in to continue."
  const ForbiddenMessage := "You don't have permission to perform this action."
  const NotFoundMessage := "The requested resource was not found."
  const UnprocessableMessage := "The information you entered could not be processed. Please check and try again."
  const RateLimitedMessage := "Too many requests. Please wait a moment and try again."
  const ServerMessage := "Something went wrong on our end. Please try again later."
  const GenericMessage := "Something went wrong. Please try again."

  /** `v && typeof v === "string"`: a non-empty string (the empty string is falsy). */
  predicate IsText(v: BodyValue)
  {
    v.Str? && v.s != ""
  }

  /** The `switch (status)` once the body has offered no text: `status && status >= 500`
      treats a missing status like any other non-server status. */
  function StatusMessage(status: Option<int>): (m: string)
    ensures m != ""
  {
    match status
    case None => GenericMessage
    case Some(code) =>
      if code == 400 then BadRequestMessage
      else if code == 401 then UnauthorizedMessage
      else if code == 403 then ForbiddenMessage
      else if code == 404 then NotFoundMessage
      else if code == 422 then UnprocessableMessage
      else if code == 429 then RateLimitedMessage
      else if code != 0 && code >= 500 then ServerMessage
      else GenericMessage
  }

  /** `getErrorMessage`: the body's message, else the body's error, else a fixed message
      chosen by whether there was a response and by its status. Never empty. */
  function ErrorMessage(e: HttpError): (m: string)
    ensures m != ""
  {
    var data := if e.response.Some? then e.response.value.data else None;
    if data.Some? && IsText(data.value.message) then data.value.message.s
    else if data.Some? && IsText(data.value.error) then data.value.error.s
    else if e.response.None? then NetworkMessage
    else StatusMessage(e.response.value.status)
  }

  /** The fixed messages the mapping can produce. */
  const FixedMessages: seq<string> := [NetworkMessage, BadRequestMessage, UnauthorizedMessage,
    ForbiddenMessage, NotFoundMessage, UnprocessableMessage, RateLimitedMessage, ServerMessage,
    GenericMessage]

  /** Whether the body carries text that takes precedence over the status. */
  predicate HasBodyText(e: HttpError)
  {
    e.response.Some? && e.response.value.data.Some?
    && (IsText(e.response.value.data.value.message) || IsText(e.response.value.data.value.error))
  }

  /** A non-empty string `message` wins over everything else; failing that, a non-empty string
      `error` wins over the status. */
  lemma BodyTextFirst(e: HttpError)
    ensures e.response.Some? && e.response.value.data.Some? && IsText(e.response.value.data.value.message)
            ==> ErrorMessage(e) == e.response.value.data.value.message.s
    ensures e.response.Some? && e.response.value.data.Some? && !IsText(e.response.value.data.value.message)
            && IsText(e.response.value.data.value.error)
            ==> ErrorMessage(e) == e.response.value.data.value.error.s
  {
  }

  /** Without body text, the message is one of the fixed ones: the network message exactly
      when no response arrived, and otherwise the one for the status. */
  lemma WithoutBodyText(e: HttpError)
    requires !HasBodyText(e)
    ensures ErrorMessage(e) in FixedMessages
    ensures ErrorMessage(e) == NetworkMessage <==> e.response.None?
    ensures e.response.Some? ==> ErrorMessage(e) == StatusMessage(e.response.value.status)
  {
  }

  /** The six client-error statuses each have their own message, distinct from each other,
      from the server message and from the generic one. */
  lemma StatusMessagesDistinct(a: int, b: int)
    requires a in {400, 401, 403, 404, 422, 429} && b in {400, 401, 403, 404, 422, 429}
    ensures StatusMessage(Some(a)) == StatusMessage(Some(b)) <==> a == b
    ensures StatusMessage(Some(a)) != ServerMessage && StatusMessage(Some(a)) != GenericMessage
  {
  }

  /** Every other status from 500 up is a server error; everything else, a missing status
      included, is the generic failure. */
  lemma StatusFallback(status: Option<int>)
    requires status.None? || status.value !in {400, 401, 403, 404, 422, 429}
    ensures StatusMessage(status) == (if status.Some? && status.value >= 500 then ServerMessage else GenericMessage)
  {
  }

  /** What the response interceptor hands back for a failed request: a rejection carrying the
      very same error, after showing the mapped message as an error toast. */
  datatype Rejection = Rejection(error: HttpError, toast: Toast)

  /** The error handler of `api.interceptors.response.use` (in a browser). */
  function Intercept(e: HttpError): Rejection
  {
    Rejection(e, Toast(ErrorIcon, ErrorMessage(e)))
  }

  /** A toast as the logs record it: one the caller showed itself, or the one the interceptor
      showed for a failed request, recorded by that request's error. */
  datatype Notice = Shown(toast: Toast) | Intercepted(error: HttpError)

  /** The toast a notice put on screen. */
  function Displayed(n: Notice): Toast
  {
    match n
    case Shown(t) => t
    case Intercepted(e) => Intercept(e).toast
  }

  /** The toast a failed request sent through `api` leaves behind: an error toast whose title
      is never empty. The title is the body's own text when it has some, and otherwise one of
      the fixed messages, the network one exactly when no response came. */
  lemma InterceptedToast(e: HttpError)
    ensures Displayed(Intercepted(e)).icon == ErrorIcon && Displayed(Intercepted(e)).title != ""
    ensures HasBodyText(e) ==>
              var body := e.response.value.data.value;
              Displayed(Intercepted(e)).title == if IsText(body.message) then body.message.s else body.error.s
    ensures !HasBodyText(e) ==>
              Displayed(Intercepted(e)).title in FixedMessages
              && (Displayed(Intercepted(e)).title == NetworkMessage <==> e.response.None?)
  {
    if !HasBodyText(e) {
      WithoutBodyText(e);
    }
  }
}
