/**
  What the two API routes exchange with the outside: thrown values, awaited
  calls that may throw, and the JSON replies built with `NextResponse.json`.
*/
module Http {
  import opened Optional

  /** A thrown value: an `Error`, which carries a message, or anything else. */
  datatype Thrown = Error(message: string) | NonError

  /** An awaited foreign call (the language model, `JSON.parse`) returns a value or throws. */
  datatype Attempt<T> = Returned(value: T) | Threw(thrown: Thrown)

  /** The JSON body of a reply: `{ error }`, `{ roast }`, or a parsed value passed through. */
  datatype Payload<V> = ErrorPayload(error: string) | RoastPayload(roast: string) | DataPayload(data: V)

  datatype Response<V> = Response(status: int, payload: Payload<V>)

  /** A handler's reply, with the text it handed to the language model if it called it. */
  datatype Handled<V> = Handled(response: Response<V>, modelInput: Option<string>)

  /** `GEMINI_API_KEY` is set: `!apiKey` is false for anything but `undefined` and the empty string. */
  predicate KeyConfigured(apiKey: Option<string>) {
    apiKey.Some? && apiKey.value != ""
  }
}
