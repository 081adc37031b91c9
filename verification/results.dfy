/** Values standing for the outcome of a call the core makes into code outside the model
    (an LLM reply, an embedding, a store read or write, a scrape, a send). */
module Results {

  /** A value that may be absent: JavaScript's `null` / `undefined` where the core tests for it. */
  datatype Option<T> = None | Some(value: T)

  /** The outcome of an external call: its value, or the message of the error it threw. */
  datatype Outcome<T> = Ok(value: T) | Err(message: string)

  /** The value a call returns when it returns nothing of interest (a completed save or send). */
  datatype Unit = Unit
}
