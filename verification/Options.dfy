/** The wrappers the model shares. */
module Options {

  /** A value or its absence. */
  datatype Option<+T> = None | Some(value: T)

  /** What was read from a position on and where the reading stopped, or a failure. */
  datatype Reading<+T> = Fail | Read(value: T, next: nat)
}
