/**
 * The shapes shared by the client and the error presenter
 * (types/api.types.ts), plus the values a `catch` block can receive.
 */
module ApiTypes {
  import opened Wrappers

  /** Field name to the server's validation messages for that field. */
  type FieldErrors = map<string, seq<string>>

  /** The normalised error thrown by the client on a non-2xx response. */
  datatype ApiError = ApiError(message: string, statusCode: int, errors: Option<FieldErrors>)

  /**
   * A value caught by a `catch` block: a typed API error, a native `Error`
   * (its `name` and `message`), or anything else.
   */
  datatype Caught = ApiErr(error: ApiError) | NativeErr(name: string, message: string) | Other

  /**
   * Integers that a JavaScript number holds exactly and that `String(n)`
   * prints as their exact decimal digits: magnitudes up to 2^53. Beyond
   * that, `String(n)` writes the shortest digits that identify the double,
   * padded with zeros (`String(2 ** 64)` is `"18446744073709552000"`).
   */
  type JsInteger = i: int | -0x20_0000_0000_0000 <= i <= 0x20_0000_0000_0000

  /** A query-parameter value: `string | number | boolean`, numbers restricted to integers. */
  datatype ParamValue = Str(s: string) | Num(n: JsInteger) | Bool(b: bool)

  /**
   * Per-call overrides. `params` is the entry list `Object.entries` yields
   * for the parameter record, in that order.
   */
  datatype RequestConfig = RequestConfig(
    headers: Option<map<string, string>>,
    params: Option<seq<(string, ParamValue)>>)

  /** The configuration used when the caller passes none (`config = {}`). */
  const NoConfig := RequestConfig(None, None)

  /**
   * A parsed JSON response body: the two members the client inspects on
   * failure, and the rest of the body, of type `D`.
   */
  datatype Body<D> = Body(message: Option<string>, errors: Option<FieldErrors>, rest: D)

  /** What `response.json()` would produce: a parsed body, or a parse failure with its message. */
  datatype BodyText<D> = Parsed(body: Body<D>) | Malformed(reason: string)

  /** A transport response as the client sees it. */
  datatype Response<D> = Response(status: int, statusText: string, body: BodyText<D>)

  /** What the client returns on success: nothing (204), or the parsed body as it is. */
  datatype Payload<D> = NoContent | Json(body: Body<D>)
}
