/** Optional values, the JavaScript convention of a value that may be
    `undefined`, and the outcome of a call that may throw. */
module Wrappers {
  datatype Option<T> = None | Some(value: T)

  /** The outcome of an asynchronous call: the value it resolved to, or the
      error it threw (the error itself is not modelled). */
  datatype Outcome<T> = Returned(value: T) | Threw

  /** How a JavaScript template literal renders an optional string:
      a missing value prints as the text "undefined". */
  function TemplateText(o: Option<string>): string
  {
    if o.Some? then o.value else "undefined"
  }
}
