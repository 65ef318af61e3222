/**
 * The HTTP client of lib/apiClient.ts: query-string building, header
 * merging with bearer-token injection, response normalisation, and the
 * five verb helpers. `fetch` is a parameter (the transport), and the
 * module-level token getter is a field of `Client`.
 */
module ApiClient {
  import opened Wrappers
  import opened ApiTypes
  import FormUrlEncoded
  import JsString

  const CONTENT_TYPE := "Content-Type"
  const AUTHORIZATION := "Authorization"
  const JSON_MEDIA_TYPE := "application/json"
  /** The `Bearer` scheme of section 2.1 of RFC 6750. */
  const BEARER_PREFIX := "Bearer "
  /** 204 No Content, section 15.3.5 of RFC 9110. */
  const NO_CONTENT := 204

  /** `() => string | null`, with `None` for `null`. */
  type TokenGetter = () -> Option<string>

  /** JavaScript truthiness of a `string | null`: present and not empty. */
  predicate IsTruthy(token: Option<string>) {
    token.Some? && token.value != ""
  }

  /** The Fetch Standard's `response.ok`: a status in the range 200 to 299. */
  predicate IsOk(status: int) {
    200 <= status <= 299
  }

  // ---------------------------------------------------------------------------
  // buildUrl
  // ---------------------------------------------------------------------------

  /** The pairs appended to the `URLSearchParams`: each key with `String(value)`, in order. */
  function QueryPairs(params: seq<(string, ParamValue)>): (pairs: seq<(string, string)>)
    ensures |pairs| == |params|
    ensures forall k :: 0 <= k < |params| ==> pairs[k] == (params[k].0, JsString.ParamToString(params[k].1))
  {
    if params == [] then []
    else QueryPairs(params[..|params| - 1]) + [(params[|params| - 1].0, JsString.ParamToString(params[|params| - 1].1))]
  }

  /** The URL `buildUrl` produces. */
  function UrlWithParams(url: string, params: Option<seq<(string, ParamValue)>>): string {
    match params
    case None => url
    case Some(entries) => url + "?" + FormUrlEncoded.Serialize(QueryPairs(entries))
  }

  /** Appends every parameter to a fresh query, in order, and the query to the URL after `?`. */
  method BuildUrl(url: string, params: Option<seq<(string, ParamValue)>>) returns (fullUrl: string)
    ensures fullUrl == UrlWithParams(url, params)
  {
    if params.None? {
      return url;
    }
    var entries := params.value;
    var query: seq<(string, string)> := [];
    var i := 0;
    while i < |entries|
      invariant 0 <= i <= |entries|
      invariant query == QueryPairs(entries[..i])
    {
      assert entries[..i + 1][..i] == entries[..i];
      query := query + [(entries[i].0, JsString.ParamToString(entries[i].1))];
      i := i + 1;
    }
    assert entries[..|entries|] == entries;
    fullUrl := url + "?" + FormUrlEncoded.Serialize(query);
  }

  /** Without parameters the URL is returned unchanged. */
  lemma UrlWithoutParams(url: string)
    ensures UrlWithParams(url, None) == url
  {
  }

  /** An empty parameter record still adds the `?`, with nothing after it. */
  lemma UrlWithEmptyParams(url: string)
    ensures UrlWithParams(url, Some([])) == url + "?"
  {
  }

  /**
   * With parameters, the URL is the original followed by `?` and a query
   * that a form-urlencoded parser reads back as exactly one pair per
   * entry, in insertion order, each key with its value's string form.
   */
  lemma UrlQueryRoundTrip(url: string, params: seq<(string, ParamValue)>)
    ensures var full := UrlWithParams(url, Some(params));
      && |full| > |url|
      && full[..|url| + 1] == url + "?"
      && FormUrlEncoded.Parse(full[|url| + 1..]) == QueryPairs(params)
      && |FormUrlEncoded.Parse(full[|url| + 1..])| == |params|
  {
    var query := FormUrlEncoded.Serialize(QueryPairs(params));
    var full := url + "?" + query;
    assert full[..|url| + 1] == url + "?";
    assert full[|url| + 1..] == query;
    FormUrlEncoded.ParseSerialize(QueryPairs(params));
  }

  // ---------------------------------------------------------------------------
  // buildHeaders
  // ---------------------------------------------------------------------------

  /** Spreading an absent record adds no keys. */
  function CallerHeaders(custom: Option<map<string, string>>): map<string, string> {
    if custom.Some? then custom.value else map[]
  }

  /**
   * The headers `buildHeaders` produces: the JSON content type, overridden
   * by the caller's headers, then a bearer `Authorization` when the token
   * is truthy. Keys are compared exactly, as JavaScript object keys are.
   */
  function MergeHeaders(custom: Option<map<string, string>>, token: Option<string>): (headers: map<string, string>)
    ensures headers.Keys == CallerHeaders(custom).Keys + {CONTENT_TYPE} + (if IsTruthy(token) then {AUTHORIZATION} else {})
    ensures headers[CONTENT_TYPE] ==
      if CONTENT_TYPE in CallerHeaders(custom) then CallerHeaders(custom)[CONTENT_TYPE] else JSON_MEDIA_TYPE
    ensures forall key :: key in CallerHeaders(custom) && key != AUTHORIZATION ==> headers[key] == CallerHeaders(custom)[key]
    ensures IsTruthy(token) ==> headers[AUTHORIZATION] == BEARER_PREFIX + token.value
    ensures !IsTruthy(token) ==> headers == map[CONTENT_TYPE := JSON_MEDIA_TYPE] + CallerHeaders(custom)
  {
    var merged := map[CONTENT_TYPE := JSON_MEDIA_TYPE] + CallerHeaders(custom);
    if IsTruthy(token) then merged[AUTHORIZATION := BEARER_PREFIX + token.value] else merged
  }

  /** Without a truthy token a caller's own `Authorization` is sent as it is, and none is added otherwise. */
  lemma NoTokenKeepsCallerAuthorization(custom: Option<map<string, string>>, token: Option<string>)
    requires !IsTruthy(token)
    ensures AUTHORIZATION in MergeHeaders(custom, token) <==> AUTHORIZATION in CallerHeaders(custom)
    ensures AUTHORIZATION in CallerHeaders(custom) ==>
      MergeHeaders(custom, token)[AUTHORIZATION] == CallerHeaders(custom)[AUTHORIZATION]
  {
  }

  /**
   * Header names that differ only in case are different keys here: a
   * caller's `content-type` does not replace the default `Content-Type`,
   * both are passed on.
   */
  lemma CaseVariantsCoexist(value: string, token: Option<string>)
    ensures var headers := MergeHeaders(Some(map["content-type" := value]), token);
      headers[CONTENT_TYPE] == JSON_MEDIA_TYPE && headers["content-type"] == value
  {
  }

  // ---------------------------------------------------------------------------
  // handleResponse
  // ---------------------------------------------------------------------------

  /**
   * Normalises a response: 204 gives no payload without reading the body;
   * otherwise the body is parsed (a parse failure is a `SyntaxError`), a
   * status outside 200..299 becomes a typed `ApiError`, and an ok status
   * gives the body as it is.
   */
  function HandleResponse<D>(response: Response<D>): (result: Result<Payload<D>, Caught>)
    ensures response.status == NO_CONTENT ==> result == Success(NoContent)
    ensures result.Success? <==> IsOk(response.status) && (response.status == NO_CONTENT || response.body.Parsed?)
    ensures result.Success? && response.status != NO_CONTENT ==> result.value == Json(response.body.body)
    ensures result.Failure? && result.error.ApiErr? <==> !IsOk(response.status) && response.body.Parsed?
    ensures result.Failure? && result.error.ApiErr? ==>
      && result.error.error.statusCode == response.status
      && result.error.error.errors == response.body.body.errors
      && result.error.error.message ==
         (if response.body.body.message.Some? then response.body.body.message.value else response.statusText)
    ensures result.Failure? && !result.error.ApiErr? ==>
      response.body.Malformed? && result.error == NativeErr("SyntaxError", response.body.reason)
  {
    if response.status == NO_CONTENT then Success(NoContent)
    else
      match response.body
      case Malformed(reason) => Failure(NativeErr("SyntaxError", reason))
      case Parsed(body) =>
        if !IsOk(response.status) then
          var message := if body.message.Some? then body.message.value else response.statusText;
          Failure(ApiErr(ApiError(message, response.status, body.errors)))
        else Success(Json(body))
  }

  /** A server message that is the empty string is kept: `??` only replaces `null` and `undefined`. */
  lemma EmptyServerMessageKept<D>(status: int, statusText: string, errors: Option<FieldErrors>, rest: D)
    requires !IsOk(status)
    ensures HandleResponse(Response(status, statusText, Parsed(Body(Some(""), errors, rest))))
      == Failure(ApiErr(ApiError("", status, errors)))
  {
  }

  // ---------------------------------------------------------------------------
  // request and the verb helpers
  // ---------------------------------------------------------------------------

  /** The options handed to `fetch`; `body` is the request body as JSON text. */
  datatype FetchOptions = FetchOptions(httpMethod: string, headers: map<string, string>, body: Option<string>)

  /** One call of `fetch`. */
  datatype FetchCall = FetchCall(url: string, options: FetchOptions)

  /**
   * The call `request` makes: the built URL, the verb, the merged headers,
   * and a body exactly when one was given.
   */
  function CallFor(url: string, verb: string, config: RequestConfig, body: Option<string>, token: Option<string>): (call: FetchCall)
    ensures call.url == UrlWithParams(url, config.params)
    ensures call.options.headers == MergeHeaders(config.headers, token)
    ensures call.options.httpMethod == verb && call.options.body == body
  {
    FetchCall(UrlWithParams(url, config.params), FetchOptions(verb, MergeHeaders(config.headers, token), body))
  }

  /**
   * Awaiting the transport, then `handleResponse`: a rejected `fetch`
   * propagates unchanged, and a payload only ever comes from a response
   * with an ok status.
   */
  function Settle<D>(outcome: Result<Response<D>, Caught>): (result: Result<Payload<D>, Caught>)
    ensures outcome.Failure? ==> result == Failure(outcome.error)
    ensures result.Success? ==> outcome.Success? && IsOk(outcome.value.status)
    ensures outcome.Success? && outcome.value.status == NO_CONTENT ==> result == Success(NoContent)
  {
    match outcome
    case Failure(e) => Failure(e)
    case Success(response) => HandleResponse(response)
  }

  /** The client; its one piece of state is the registered token getter. */
  class Client {
    var getAuthToken: TokenGetter

    /** The initial getter returns `null`. */
    constructor ()
      ensures getAuthToken() == None
    {
      getAuthToken := () => None;
    }

    /** Replaces the token getter; every later request reads the token through the new one. */
    method SetAuthTokenGetter(getter: TokenGetter)
      modifies this
      ensures getAuthToken == getter
    {
      getAuthToken := getter;
    }

    /** Builds the default-plus-caller record, then sets `Authorization` in place when a token is truthy. */
    method BuildHeaders(custom: Option<map<string, string>>) returns (headers: map<string, string>)
      ensures headers == MergeHeaders(custom, getAuthToken())
    {
      headers := map[CONTENT_TYPE := JSON_MEDIA_TYPE] + CallerHeaders(custom);
      var token := getAuthToken();
      if IsTruthy(token) {
        headers := headers[AUTHORIZATION := BEARER_PREFIX + token.value];
      }
    }

    /**
     * Builds the URL and headers, attaches the body only when it is
     * defined, calls the transport once and normalises its response.
     */
    method Request<D>(url: string, verb: string, config: RequestConfig, body: Option<string>,
                      fetch: FetchCall -> Result<Response<D>, Caught>)
      returns (sent: FetchCall, result: Result<Payload<D>, Caught>)
      ensures sent == CallFor(url, verb, config, body, getAuthToken())
      ensures result == Settle(fetch(sent))
    {
      var fullUrl := BuildUrl(url, config.params);
      var headers := BuildHeaders(config.headers);
      var options := FetchOptions(verb, headers, None);
      if body.Some? {
        options := options.(body := body);
      }
      sent := FetchCall(fullUrl, options);
      result := Settle(fetch(sent));
    }

    /** `GET`, never with a body. */
    method Get<D>(url: string, config: RequestConfig, fetch: FetchCall -> Result<Response<D>, Caught>)
      returns (sent: FetchCall, result: Result<Payload<D>, Caught>)
      ensures sent.options.httpMethod == "GET" && sent.options.body == None
      ensures sent == CallFor(url, "GET", config, None, getAuthToken())
      ensures result == Settle(fetch(sent))
    {
      sent, result := Request(url, "GET", config, None, fetch);
    }

    /** `POST`, with the data as the body when it is defined. */
    method Post<D>(url: string, data: Option<string>, config: RequestConfig, fetch: FetchCall -> Result<Response<D>, Caught>)
      returns (sent: FetchCall, result: Result<Payload<D>, Caught>)
      ensures sent.options.httpMethod == "POST" && sent.options.body == data
      ensures sent == CallFor(url, "POST", config, data, getAuthToken())
      ensures result == Settle(fetch(sent))
    {
      sent, result := Request(url, "POST", config, data, fetch);
    }

    /** `PUT`, with the data as the body when it is defined. */
    method Put<D>(url: string, data: Option<string>, config: RequestConfig, fetch: FetchCall -> Result<Response<D>, Caught>)
      returns (sent: FetchCall, result: Result<Payload<D>, Caught>)
      ensures sent.options.httpMethod == "PUT" && sent.options.body == data
      ensures sent == CallFor(url, "PUT", config, data, getAuthToken())
      ensures result == Settle(fetch(sent))
    {
      sent, result := Request(url, "PUT", config, data, fetch);
    }

    /** `PATCH`, with the data as the body when it is defined. */
    method Patch<D>(url: string, data: Option<string>, config: RequestConfig, fetch: FetchCall -> Result<Response<D>, Caught>)
      returns (sent: FetchCall, result: Result<Payload<D>, Caught>)
      ensures sent.options.httpMethod == "PATCH" && sent.options.body == data
      ensures sent == CallFor(url, "PATCH", config, data, getAuthToken())
      ensures result == Settle(fetch(sent))
    {
      sent, result := Request(url, "PATCH", config, data, fetch);
    }

    /** `DELETE`, never with a body. */
    method Del<D>(url: string, config: RequestConfig, fetch: FetchCall -> Result<Response<D>, Caught>)
      returns (sent: FetchCall, result: Result<Payload<D>, Caught>)
      ensures sent.options.httpMethod == "DELETE" && sent.options.body == None
      ensures sent == CallFor(url, "DELETE", config, None, getAuthToken())
      ensures result == Settle(fetch(sent))
    {
      sent, result := Request(url, "DELETE", config, None, fetch);
    }
  }

  /**
   * A fresh client injects no `Authorization`; once a getter returning a
   * non-empty token is registered, the next header build carries it.
   */
  method TokenLifecycle(token: string) returns (before: map<string, string>, after: map<string, string>)
    requires token != ""
    ensures AUTHORIZATION !in before && CONTENT_TYPE in before && before[CONTENT_TYPE] == JSON_MEDIA_TYPE
    ensures AUTHORIZATION in after && after[AUTHORIZATION] == BEARER_PREFIX + token
  {
    var client := new Client();
    before := client.BuildHeaders(None);
    client.SetAuthTokenGetter(() => Some(token));
    after := client.BuildHeaders(None);
  }
}
