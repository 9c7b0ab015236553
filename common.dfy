/** Value types shared by both Lambda handlers. */
module Common {

  datatype Option<+T> = None | Some(value: T)

  /** What a handler throws. `HandlerError` is an `Error` built by the
      handler's own `catch`; `UncaughtError` is any error thrown before the
      handler's `try` (reading a field of a missing record, or unmarshalling
      a missing image), which is not "Uuuups!". */
  datatype Thrown = HandlerError(message: string) | UncaughtError

  /** How one invocation ends: the async handler resolves or rejects. */
  datatype Outcome = Returned | Threw(error: Thrown)

  /** The message of the one error both handlers rethrow from their `catch`. */
  const RethrownMessage := "Uuuups!"

  const Rethrown := Threw(HandlerError(RethrownMessage))
}

/** One row of the price table, as both handlers read it after `unmarshall`. */
module Rows {

  /** `id` is the table's partition key; `price` is the last price text seen
      on the page at `url` under `selector`, kept verbatim (no parsing). */
  datatype PriceRow = PriceRow(
    id: string,
    url: string,
    selector: string,
    item: string,
    price: string,
    email: string)
}
