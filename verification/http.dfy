/** What both handlers share about HTTP: the response they send back, the
    `ok` flag of a fetched response, and the configuration read from the
    process environment. */
module Http {
  import opened Options
  import opened JsValues

  /** The JSON body of a response: `{success: true}`, `{success: true, id}`
      or `{error: message}`. */
  datatype Body =
    | Success
    | SuccessWithId(id: JsValue)
    | Failure(error: string)

  datatype Response = Response(status: int, body: Body)

  /** The `ok` flag of a fetch `Response`: a status in the range 200-299. */
  predicate IsOk(status: int) {
    200 <= status <= 299
  }

  /** An environment variable counts as set when it is present and not the
      empty string (the handlers test it with `!value` / `if (value)`). */
  predicate IsSet(setting: Option<string>) {
    setting.Some? && setting.value != ""
  }

  /** The two environment variables: the provider's API key (required) and
      a downstream webhook URL (optional). */
  datatype Config = Config(apiKey: Option<string>, webhookUrl: Option<string>)

  const MethodNotAllowed := Response(405, Failure("Method not allowed"))
  const ServiceNotConfigured := Response(500, Failure("Email service not configured"))

  /** A client error: a 4xx status. */
  predicate IsClientError(r: Response) {
    400 <= r.status <= 499
  }
}
