/** Optional values and results with an error, the shapes the bot's Python code
    expresses with `None` and with raised exceptions. */
module Wrappers {

  datatype Option<+T> = None | Some(value: T) {
    function GetOr(default: T): T {
      match this
      case Some(v) => v
      case None => default
    }
  }

  datatype Result<+T, +E> = Ok(value: T) | Err(error: E)

  /** A scalar as SQLite and JSON hold it: the bot stores ints and text in the
      same columns (an `int` id or a `'theory'` section name). */
  datatype Scalar = IntVal(i: int) | TextVal(s: string)
}
