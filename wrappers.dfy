/** Outcome types shared by the whole model. */
module Wrappers {

  datatype Option<+T> = None | Some(value: T)

  /** The two failure severities of the extractor: `Err` is a Go `error`
      value handed back to the caller, `Fatal` is a Go `panic` (including
      the runtime's index-out-of-range panics). */
  datatype Result<+T> = Ok(value: T) | Err(msg: string) | Fatal(msg: string) {

    /** The same failure, at another value type. */
    function Propagate<U>(): (r: Result<U>)
      requires !Ok?
      ensures r.Err? == Err? && r.Fatal? == Fatal? && r.msg == msg
    {
      if Err? then Err(msg) else Fatal(msg)
    }
  }

  /** The panic message of a Go index expression `s[i]` on a too-short value. */
  const IndexOutOfRange: string := "runtime error: index out of range"
}
