# HTTP client and error presenter of a front-end starter, in Dafny

This project models the two modules of the starter template that hold decision
logic:

- `lib/apiClient.ts`, the single HTTP client every call goes through. It builds
  the URL from the caller's query parameters with the
  application/x-www-form-urlencoded serializer (section 5.2 of the WHATWG URL
  Standard). It merges the default `Content-Type: application/json` with the
  caller's headers, and injects `Authorization: Bearer <token>` (section 2.1 of
  RFC 6750) when the registered token getter returns a non-empty token. It turns
  the response into a payload or a typed `ApiError`: 204 (section 15.3.5 of
  RFC 9110) gives an empty payload, and a status outside 200 to 299 is an error.
  The five verb helpers `get`, `post`, `put`, `patch` and `del` delegate to
  `request`.
- `lib/apiErrorHandler.ts`, the presenter that turns any caught value into a
  user-facing message. It uses an 11-entry status-code table and two fallbacks,
  flattens field validation errors, and shows one notification per handled error.

Layout, one module per file:

- `wrappers.dfy` (`Wrappers`): `Option` and `Result`.
- `api_types.dfy` (`ApiTypes`): the shapes of `types/api.types.ts` (`ApiError`,
  `RequestConfig`), the parsed response, and `Caught`, the three kinds of value
  a `catch` block can receive (typed API error, native `Error`, anything else).
- `form_urlencoded.dfy` (`FormUrlEncoded`): the URL Standard's serializer, as
  `URLSearchParams.toString()` applies it. Unreserved characters are ASCII
  alphanumerics and `*-._`, a space becomes `+`, and every other character is
  written as its UTF-8 bytes in upper-case `%XX` escapes. The module also holds
  a parser for the serializer's output, and proves that parsing gives back every
  pair, in order.
- `js_string.dfy` (`JsString`): `String(value)` for the parameter values.
- `api_client.dfy` (`ApiClient`): `buildUrl`, `buildHeaders`, `handleResponse`,
  `request` and the verb helpers. The module-level token getter becomes the one
  field of class `Client`, and `fetch` becomes a transport function parameter.
- `api_error_handler.dfy` (`ApiErrorHandler`): `getApiErrorMessage`,
  `getValidationErrors` and `handleApiError`. The notification library becomes
  a `Toaster` object that logs the messages shown. The file ends with lemmas
  about the client and the presenter working together.

Three behaviours of the code are easy to miss:

- `handleResponse` calls `response.json()` before it checks `response.ok`
  (lib/apiClient.ts:92-94). A failed response with an empty or non-JSON body
  therefore throws the parser's `SyntaxError`. It does not fall back to the
  status text. The status text is used only when the body parses and has no
  `message` (`MalformedErrorBodyShowsParseMessage`,
  `MissingServerMessageShowsStatusText`).
- Without a truthy token, no `Authorization` header is added, but a caller's
  own `Authorization` header is still sent (lib/apiClient.ts:67-75,
  `NoTokenKeepsCallerAuthorization`).
- "Caller wins" holds only for keys spelled exactly alike. JavaScript object
  keys are case-sensitive, so a caller's `content-type` sits beside the default
  `Content-Type` (`CaseVariantsCoexist`).

## Model

| member | source | states |
|---|---|---|
| `FormUrlEncoded.Encode` | lib/apiClient.ts:50-54 | an encoded name or value uses only unreserved characters, `+` and `%`, so it never contains the `&` or `=` separators |
| `FormUrlEncoded.DecodeEncode` | lib/apiClient.ts:50-54 | the serializer's encoding loses nothing: decoding it gives back the original string, multi-byte characters included |
| `FormUrlEncoded.ParseSerialize` | lib/apiClient.ts:50-54 | parsing the serialized query gives back every pair, in order, with the same count |
| `JsString.Digits` | lib/apiClient.ts:52 | `String(n)` writes decimal digits only, with no leading zero, and `"0"` only for zero |
| `JsString.NumberToString` | lib/apiClient.ts:52 | `String(n)` of an integer: non-empty, starts with `-` iff the integer is negative, followed by the digits of its magnitude |
| `JsString.NumberRoundTrip` | lib/apiClient.ts:52 | an integer's string form reads back as the same integer, and after a `-` there is no leading zero |
| `JsString.ParamToString` | lib/apiClient.ts:52 | `String(value)` keeps a string as it is, writes a number as text that reads back as that number, and a boolean as `true` or `false` |
| `FormUrlEncoded.Serialize` | lib/apiClient.ts:54 | `query.toString()` is empty exactly when no pair was appended |
| `ApiClient.QueryPairs` | lib/apiClient.ts:51-53 | one appended pair per entry, in entry order, each key with `String(value)` |
| `ApiClient.BuildUrl` | lib/apiClient.ts:45-55 | the loop's query equals the pairs of all entries in order, so the result is the URL with the serialized query after `?` (or the URL itself without params) |
| `ApiClient.UrlWithoutParams` | lib/apiClient.ts:49 | absent params leave the URL unchanged |
| `ApiClient.UrlWithEmptyParams` | lib/apiClient.ts:50-54 | an empty params record still yields a trailing `?` |
| `ApiClient.UrlQueryRoundTrip` | lib/apiClient.ts:50-54 | the result starts with `url + "?"` and its query parses back to exactly the entries' pairs, in insertion order |
| `ApiClient.MergeHeaders` | lib/apiClient.ts:64-78 | the keys are the caller's plus `Content-Type`, plus `Authorization` with a truthy token. `Content-Type` is the caller's if given, else `application/json`. Every other caller header is unchanged. A truthy token sets `Bearer <token>`; without one the map is defaults overridden by the caller |
| `ApiClient.NoTokenKeepsCallerAuthorization` | lib/apiClient.ts:72-75 | with a null or empty token, `Authorization` is present iff the caller gave it, with the caller's value |
| `ApiClient.CaseVariantsCoexist` | lib/apiClient.ts:67-70 | a caller's `content-type` does not override the default `Content-Type`; both are kept |
| `ApiClient.HandleResponse` | lib/apiClient.ts:86-104 | 204 gives the empty payload whatever the body. Success iff the status is in 200..299 and the status is 204 or the body parses. An ok body is returned unchanged. A typed error arises iff the status is not ok and the body parses; it carries the status, the body's `errors`, and the body's `message` when present (even empty), else the status text. Otherwise the error is the parse error |
| `ApiClient.EmptyServerMessageKept` | lib/apiClient.ts:96 | an empty-string server message stays in the typed error, because `??` does not replace it |
| `ApiClient.CallFor` | lib/apiClient.ts:124-137 | the fetch call has the built URL, the given method and the merged headers, and its body is exactly the body argument (none when it is undefined) |
| `ApiClient.Settle` | lib/apiClient.ts:144-145 | a rejected `fetch` propagates unchanged; a 204 gives the empty payload; a payload only ever comes from a response with an ok status |
| `ApiClient.Client.constructor` | lib/apiClient.ts:21-22 | the initial token getter returns null |
| `ApiClient.Client.SetAuthTokenGetter` | lib/apiClient.ts:31-33 | the registered getter replaces the previous one |
| `ApiClient.Client.BuildHeaders` | lib/apiClient.ts:64-78 | building the record and then assigning `Authorization` in place gives `MergeHeaders` of the caller's headers and the token the current getter returns |
| `ApiClient.Client.Request` | lib/apiClient.ts:118-146 | the transport is called once, with `CallFor` of the arguments and the current token, and the result is that response normalised (a rejected transport propagates unchanged) |
| `ApiClient.Client.Get` | lib/apiClient.ts:159-161 | uses `GET` and never sends a body |
| `ApiClient.Client.Post` | lib/apiClient.ts:169-175 | uses `POST` and sends the data as body exactly when it is defined |
| `ApiClient.Client.Put` | lib/apiClient.ts:183-189 | uses `PUT` and sends the data as body exactly when it is defined |
| `ApiClient.Client.Patch` | lib/apiClient.ts:197-203 | uses `PATCH` and sends the data as body exactly when it is defined |
| `ApiClient.Client.Del` | lib/apiClient.ts:211-213 | uses `DELETE` and never sends a body |
| `ApiClient.TokenLifecycle` | lib/apiClient.ts:21-33 | a fresh client adds no `Authorization`; after registering a getter with a non-empty token, the next header build carries `Bearer <token>` |
| `ApiErrorHandler.GetApiErrorMessage` | lib/apiErrorHandler.ts:47-73 | the message is never empty; a typed error's own non-empty message wins; an `AbortError` always gives the cancellation text |
| `ApiErrorHandler.StatusTable` | lib/apiErrorHandler.ts:18-30 | the table lists exactly the 11 statuses 400, 401, 403, 404, 408, 409, 422, 429, 500, 502 and 503, all outside 200..299, each with a non-empty text; 418 is not listed |
| `ApiErrorHandler.StatusMessage` | lib/apiErrorHandler.ts:55 | the lookup is non-empty iff the status is listed, and then it is the table text |
| `ApiErrorHandler.FirstNonEmpty` | lib/apiErrorHandler.ts:53-57 | reference definition of a `||` chain: empty iff every candidate is, otherwise the earliest non-empty candidate |
| `ApiErrorHandler.ApiErrorPriority` | lib/apiErrorHandler.ts:51-58 | for a typed error the message is the first non-empty of its message, the status table entry, the fallback and the generic text |
| `ApiErrorHandler.ListedStatusWins` | lib/apiErrorHandler.ts:18-30 | an empty message with one of the 11 listed statuses gives the table text, whatever the fallback |
| `ApiErrorHandler.UnlistedStatusFallsThrough` | lib/apiErrorHandler.ts:53-57 | an empty message with an unlisted status (418 is one) gives the fallback, else the generic text |
| `ApiErrorHandler.AbortBeforeNetwork` | lib/apiErrorHandler.ts:63-65 | an `AbortError` whose message is `Failed to fetch` still gives `Request was cancelled.` |
| `ApiErrorHandler.FailedFetchIsNetworkError` | lib/apiErrorHandler.ts:66-68 | any other native error with message exactly `Failed to fetch` gives the network text |
| `ApiErrorHandler.NativeAndOtherFallbacks` | lib/apiErrorHandler.ts:69-72 | another native error gives the first non-empty of its message, the fallback and the generic text; any other value gives the fallback, else the generic text |
| `ApiErrorHandler.FirstMessage` | lib/apiErrorHandler.ts:95 | a field's shown message is its first message, or `Invalid value` only when the list is empty |
| `ApiErrorHandler.GetValidationErrors` | lib/apiErrorHandler.ts:87-98 | absent `errors` gives an empty map; otherwise exactly the same fields, each mapped to its first message (even an empty one) or `Invalid value` for an empty list |
| `ApiErrorHandler.Toaster.Error` | lib/apiErrorHandler.ts:121 | showing a notification appends exactly its message to the log |
| `ApiErrorHandler.HandleApiError` | lib/apiErrorHandler.ts:114-125 | exactly one notification is shown, with the resolved message; the result is the typed error iff the value is one, else null |
| `ApiErrorHandler.EmptyServerMessageShowsStatusText` | lib/apiErrorHandler.ts:53-55 | a failed response with an empty-string `message` and a listed status is shown as the table text: the client keeps the empty message and the presenter's or-chain skips it |
| `ApiErrorHandler.MissingServerMessageShowsStatusText` | lib/apiClient.ts:94-100 | a failed response without `message` and with a non-empty status text is shown as that status text, not the table text |
| `ApiErrorHandler.MalformedErrorBodyShowsParseMessage` | lib/apiClient.ts:92 | a non-204 response whose body is not JSON is not a typed error, and the parse error's message is shown |
| `ApiErrorHandler.ValidationErrorsOfResponse` | lib/apiClient.ts:98 | the field errors of a failed response reach `getValidationErrors` with the same fields |

## Left out

- `fetch` is not modelled. The transport is a function parameter from the call
  to a response or a rejection, and network, DNS and CORS behaviour are outside
  the model.
- `response.json()` is not modelled. A response carries its body already
  parsed, or a parse failure with its message; the JSON grammar is not modelled.
  The body's `message` is taken to be a string.
- Response bodies are modelled as JSON objects. A failed response whose body
  is JSON `null` (or another non-object) makes `body.message` at
  lib/apiClient.ts:96 throw a `TypeError` rather than an `ApiError`; the model
  has no such body and does not capture that path.
- `JSON.stringify(body)` is not modelled. A defined request body is represented
  by its JSON text, and an absent one by `None`. A `null` body is defined, so it
  is sent.
- The `signal`, `cache` and `next` fetch options are passed straight to the
  platform and are not modelled (lib/apiClient.ts:127-132,
  lib/apiClient.ts:140-142). So cancellation appears only as a caught
  `AbortError`.
- Promises and `await` are not modelled: every operation is synchronous.
- The token getter is modelled as a pure function, so one getter always
  returns the same token. A real getter reads changing auth state; the model
  captures only that the token is read through the current getter on every
  request.
- `Object.entries` order: the parameters are taken as the entry list in the
  order `Object.entries` yields it. The JavaScript rule that integer-like keys
  come first, in ascending order, is not modelled.
- `String(value)` on numbers covers only integers of magnitude at most 2^53,
  which it writes as their exact digits. Larger magnitudes print as the
  shortest digits that identify the double, padded with zeros
  (`String(2 ** 64)` is `"18446744073709552000"`), and fractions and exponent
  notation are floating-point formatting; none of these are modelled.
- NumberRoundTrip: the round trip is proved for the model's integer printer,
  which agrees with `String(n)` only up to magnitude 2^53; above that the
  padded shortest digits `String(n)` writes need not read back as `n`.
- Lone UTF-16 surrogates in parameter strings, which the serializer replaces
  by U+FFFD before encoding, are not modelled: a Dafny `char` is always a
  Unicode scalar value.
- `FormUrlEncoded.Decode` inverts the serializer, but it is not the standard's
  decoder on arbitrary input: it does not replace invalid UTF-8 with U+FFFD.
- Header names are compared exactly. How `fetch`'s `Headers` object later
  combines case variants is not modelled.
- `isApiError` is not modelled as a runtime check. Its definition is not part
  of this model, and a typed API error is a datatype tag (`Caught.ApiErr`).
- `toast.error` from the notification library is modelled only as appending
  the message to a log.
- `ApiResponse<T>` and `PaginatedResponse<T>` are compile-time casts of the
  success body with no runtime check. The body is returned as it is.
- The UI pages, layouts, loading and error boundaries, providers, the route and
  endpoint string registries, the auth service's one-line delegations and the
  tool configuration have no decision logic and are not part of this model.
