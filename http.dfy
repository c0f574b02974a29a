/**
 * The result of one outgoing HTTP call (an axios request to Google,
 * LibreTranslate or Razorpay). The network itself is not modelled: every
 * call site takes the outcome as an input.
 */
module Http {
  import opened Wrappers

  datatype Outcome<B> =
    | Ok(body: B)            // a 2xx answer; `body` is the part of the payload the caller reads
    | HttpError(status: int) // a non-2xx answer (axios sets `error.response`)
    | NetworkError           // no answer at all (`error.response` is unset)
    | Timeout                // the request's timeout fired (`ECONNABORTED`)

  /** Whether an environment setting such as an API key is truthy: set and not empty. */
  predicate IsSet(setting: Option<string>) {
    setting.Some? && setting.value != ""
  }
}
