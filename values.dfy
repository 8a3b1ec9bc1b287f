/** Values kept under the keys of a session, and the stock Option wrapper. */
module Values {

  /** A value stored under a session key. The store accepts any Go value
      (`interface{}`); the model keeps the cases the session handle tells
      apart, with `Nil` standing for Go's nil, which is also what a missing
      key reads as. */
  datatype Value = Nil | Str(s: string) | Int(i: int) | Bool(b: bool)

  datatype Option<+T> = None | Some(value: T)
}
