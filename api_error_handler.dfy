/**
 * The error presenter of lib/apiErrorHandler.ts: turns a caught value into
 * a user-facing message, flattens field validation errors, and shows one
 * notification per handled error. The notification library is modelled as
 * a log of the messages shown.
 */
module ApiErrorHandler {
  import opened Wrappers
  import opened ApiTypes
  import ApiClient

  /** Default texts for the status codes the presenter knows. */
  const STATUS_MESSAGES: map<int, string> := map[
    400 := "Invalid request. Please check your input.",
    401 := "Session expired. Please log in again.",
    403 := "You do not have permission to perform this action.",
    404 := "The requested resource was not found.",
    408 := "Request timed out. Please try again.",
    409 := "A conflict occurred. The resource may have been modified.",
    422 := "Validation failed. Please correct the highlighted fields.",
    429 := "Too many requests. Please wait a moment and try again.",
    500 := "An unexpected server error occurred. Please try again later.",
    502 := "Server is temporarily unavailable. Please try again later.",
    503 := "Service is under maintenance. Please try again later."
  ]

  const FALLBACK_MESSAGE := "Something went wrong. Please try again."
  const CANCELLED_MESSAGE := "Request was cancelled."
  const NETWORK_MESSAGE := "Network error. Please check your connection."
  const ABORT_ERROR_NAME := "AbortError"
  const FAILED_TO_FETCH := "Failed to fetch"
  const INVALID_VALUE := "Invalid value"

  /** JavaScript's `a || b` on strings: `a` unless it is empty. */
  function Or(a: string, b: string): string {
    if a != "" then a else b
  }

  /** An optional string in a `||` chain: `undefined` is falsy like `""`. */
  function Text(s: Option<string>): string {
    if s.Some? then s.value else ""
  }

  /**
   * Every status the table lists is an error status (outside 200..299),
   * and every text in it is non-empty. 418 is one of the statuses it does
   * not list.
   */
  lemma StatusTable()
    ensures STATUS_MESSAGES.Keys == {400, 401, 403, 404, 408, 409, 422, 429, 500, 502, 503}
    ensures forall code :: code in STATUS_MESSAGES ==> !ApiClient.IsOk(code) && STATUS_MESSAGES[code] != ""
    ensures 418 !in STATUS_MESSAGES
  {
  }

  /** `STATUS_MESSAGES[code]`: a missing entry is `undefined`, which is falsy. */
  function StatusMessage(code: int): (text: string)
    ensures text != "" <==> code in STATUS_MESSAGES
    ensures code in STATUS_MESSAGES ==> text == STATUS_MESSAGES[code]
  {
    if code in STATUS_MESSAGES then STATUS_MESSAGES[code] else ""
  }

  /**
   * The message for a caught value: a typed API error prefers its own
   * message, then its status text, then the caller's fallback; a native
   * error singles out cancellation and network failure before its own
   * message; anything else gets the fallback. The generic text ends every
   * chain, so the result is never empty.
   */
  function GetApiErrorMessage(error: Caught, fallbackMessage: Option<string>): (message: string)
    ensures message != ""
    ensures error.ApiErr? && error.error.message != "" ==> message == error.error.message
    ensures error.NativeErr? && error.name == ABORT_ERROR_NAME ==> message == CANCELLED_MESSAGE
  {
    match error
    case ApiErr(e) =>
      Or(e.message, Or(StatusMessage(e.statusCode), Or(Text(fallbackMessage), FALLBACK_MESSAGE)))
    case NativeErr(name, msg) =>
      if name == ABORT_ERROR_NAME then CANCELLED_MESSAGE
      else if msg == FAILED_TO_FETCH then NETWORK_MESSAGE
      else Or(msg, Or(Text(fallbackMessage), FALLBACK_MESSAGE))
    case Other =>
      Or(Text(fallbackMessage), FALLBACK_MESSAGE)
  }

  /** The first non-empty string of a list, or the empty string when there is none. */
  function FirstNonEmpty(candidates: seq<string>): (first: string)
    ensures first == "" <==> forall k :: 0 <= k < |candidates| ==> candidates[k] == ""
    ensures first != "" ==>
      exists k :: 0 <= k < |candidates| && candidates[k] == first && (forall j :: 0 <= j < k ==> candidates[j] == "")
  {
    if candidates == [] then ""
    else if candidates[0] != "" then candidates[0]
    else
      var first := FirstNonEmpty(candidates[1..]);
      assert forall k :: 1 <= k < |candidates| ==> candidates[k] == candidates[1..][k - 1];
      first
  }

  lemma FirstNonEmptyCons(head: string, tail: seq<string>)
    ensures FirstNonEmpty([head] + tail) == Or(head, FirstNonEmpty(tail))
  {
    assert ([head] + tail)[1..] == tail;
  }

  /**
   * For a typed API error the message is the first non-empty of: the
   * error's message, the status-code text, the caller's fallback and the
   * generic text.
   */
  lemma ApiErrorPriority(e: ApiError, fallbackMessage: Option<string>)
    ensures GetApiErrorMessage(ApiErr(e), fallbackMessage)
      == FirstNonEmpty([e.message, StatusMessage(e.statusCode), Text(fallbackMessage), FALLBACK_MESSAGE])
  {
    FirstNonEmptyCons(FALLBACK_MESSAGE, []);
    FirstNonEmptyCons(Text(fallbackMessage), [FALLBACK_MESSAGE]);
    FirstNonEmptyCons(StatusMessage(e.statusCode), [Text(fallbackMessage), FALLBACK_MESSAGE]);
    FirstNonEmptyCons(e.message, [StatusMessage(e.statusCode), Text(fallbackMessage), FALLBACK_MESSAGE]);
  }

  /** With an empty message, a listed status gives its table text, whatever the fallback. */
  lemma ListedStatusWins(e: ApiError, fallbackMessage: Option<string>)
    requires e.message == "" && e.statusCode in STATUS_MESSAGES
    ensures GetApiErrorMessage(ApiErr(e), fallbackMessage) == STATUS_MESSAGES[e.statusCode]
  {
  }

  /** With an empty message, an unlisted status (418, say) falls through to the fallback chain. */
  lemma UnlistedStatusFallsThrough(e: ApiError, fallbackMessage: Option<string>)
    requires e.message == "" && e.statusCode !in STATUS_MESSAGES
    ensures GetApiErrorMessage(ApiErr(e), fallbackMessage) == Or(Text(fallbackMessage), FALLBACK_MESSAGE)
  {
  }

  /** Cancellation is checked first: an `AbortError` is reported as cancelled even with the network message. */
  lemma AbortBeforeNetwork(fallbackMessage: Option<string>)
    ensures GetApiErrorMessage(NativeErr(ABORT_ERROR_NAME, FAILED_TO_FETCH), fallbackMessage) == CANCELLED_MESSAGE
  {
  }

  /** Any other native error whose message is exactly `Failed to fetch` is a network error. */
  lemma FailedFetchIsNetworkError(name: string, fallbackMessage: Option<string>)
    requires name != ABORT_ERROR_NAME
    ensures GetApiErrorMessage(NativeErr(name, FAILED_TO_FETCH), fallbackMessage) == NETWORK_MESSAGE
  {
  }

  /** Other native errors use their own message, then the fallback chain; other values only the chain. */
  lemma NativeAndOtherFallbacks(name: string, msg: string, fallbackMessage: Option<string>)
    requires name != ABORT_ERROR_NAME && msg != FAILED_TO_FETCH
    ensures GetApiErrorMessage(NativeErr(name, msg), fallbackMessage)
      == FirstNonEmpty([msg, Text(fallbackMessage), FALLBACK_MESSAGE])
    ensures GetApiErrorMessage(Other, fallbackMessage) == FirstNonEmpty([Text(fallbackMessage), FALLBACK_MESSAGE])
  {
    FirstNonEmptyCons(FALLBACK_MESSAGE, []);
    FirstNonEmptyCons(Text(fallbackMessage), [FALLBACK_MESSAGE]);
    FirstNonEmptyCons(msg, [Text(fallbackMessage), FALLBACK_MESSAGE]);
  }

  /** A field's first message, or `Invalid value` when its list is empty (`messages[0] ?? ...`). */
  function FirstMessage(messages: seq<string>): (first: string)
    ensures first in messages || (messages == [] && first == INVALID_VALUE)
    ensures |messages| > 0 ==> first == messages[0]
  {
    if |messages| > 0 then messages[0] else INVALID_VALUE
  }

  /**
   * Field name to its first validation message. Without `errors` the
   * result is empty; otherwise it has exactly the same fields, each with
   * its first message (kept even when empty) or `Invalid value`.
   */
  function GetValidationErrors(error: ApiError): (fields: map<string, string>)
    ensures error.errors.None? ==> fields == map[]
    ensures error.errors.Some? ==> fields.Keys == error.errors.value.Keys
    ensures forall f :: f in fields ==>
      var messages := error.errors.value[f];
      fields[f] == (if |messages| > 0 then messages[0] else INVALID_VALUE)
  {
    match error.errors
    case None => map[]
    case Some(errors) => map f | f in errors :: FirstMessage(errors[f])
  }

  /** The notification area: every message shown, oldest first. */
  class Toaster {
    var shown: seq<string>

    constructor ()
      ensures shown == []
    {
      shown := [];
    }

    /** Shows one error notification. */
    method Error(message: string)
      modifies this
      ensures shown == old(shown) + [message]
    {
      shown := shown + [message];
    }
  }

  /**
   * Shows exactly one notification, with the resolved message, and returns
   * the typed error when the value is one, `None` (`null`) otherwise.
   */
  method HandleApiError(error: Caught, fallbackMessage: Option<string>, toaster: Toaster)
    returns (apiError: Option<ApiError>)
    modifies toaster
    ensures toaster.shown == old(toaster.shown) + [GetApiErrorMessage(error, fallbackMessage)]
    ensures apiError.Some? <==> error.ApiErr?
    ensures apiError.Some? ==> apiError.value == error.error
  {
    var message := GetApiErrorMessage(error, fallbackMessage);
    toaster.Error(message);
    apiError := if error.ApiErr? then Some(error.error) else None;
  }

  // ---------------------------------------------------------------------------
  // Client and presenter together
  // ---------------------------------------------------------------------------

  /**
   * A failed response whose body carries an empty `message` keeps it in the
   * typed error, and the presenter then shows the status-code text.
   */
  lemma EmptyServerMessageShowsStatusText<D>(response: Response<D>, fallbackMessage: Option<string>)
    requires !ApiClient.IsOk(response.status) && response.status in STATUS_MESSAGES
    requires response.body.Parsed? && response.body.body.message == Some("")
    ensures var result := ApiClient.HandleResponse(response);
      && result.Failure? && result.error.ApiErr? && result.error.error.message == ""
      && GetApiErrorMessage(result.error, fallbackMessage) == STATUS_MESSAGES[response.status]
  {
  }

  /**
   * A failed response whose body has no `message` carries the transport's
   * status text, so a non-empty status text is shown instead of the
   * status-code table entry.
   */
  lemma MissingServerMessageShowsStatusText<D>(response: Response<D>, fallbackMessage: Option<string>)
    requires !ApiClient.IsOk(response.status) && response.statusText != ""
    requires response.body.Parsed? && response.body.body.message.None?
    ensures var result := ApiClient.HandleResponse(response);
      && result.Failure? && result.error.ApiErr?
      && GetApiErrorMessage(result.error, fallbackMessage) == response.statusText
  {
  }

  /**
   * A failed response whose body is not JSON is not a typed API error: the
   * parse error's own message reaches the user, not the status-code text.
   */
  lemma MalformedErrorBodyShowsParseMessage<D>(response: Response<D>, fallbackMessage: Option<string>)
    requires response.status != ApiClient.NO_CONTENT && response.body.Malformed?
    requires response.body.reason != "" && response.body.reason != FAILED_TO_FETCH
    ensures var result := ApiClient.HandleResponse(response);
      && result.Failure? && !result.error.ApiErr?
      && GetApiErrorMessage(result.error, fallbackMessage) == response.body.reason
  {
  }

  /** The field errors of a failed response reach the form as field to first message. */
  lemma ValidationErrorsOfResponse<D>(response: Response<D>)
    requires !ApiClient.IsOk(response.status) && response.body.Parsed? && response.body.body.errors.Some?
    ensures var result := ApiClient.HandleResponse(response);
      && result.Failure? && result.error.ApiErr?
      && GetValidationErrors(result.error.error).Keys == response.body.body.errors.value.Keys
  {
  }
}
