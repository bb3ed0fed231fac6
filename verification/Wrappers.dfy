module Wrappers {
  /** An optional value: a C pointer that may be NULL, a Ruby value that may be nil. */
  datatype Option<+T> = None | Some(value: T)

  /** What `ZmqAssert` makes of a native call: it went through; it failed with EAGAIN or with no error number, and the
      call answers false; or it failed otherwise, and the call raises. */
  datatype Verdict = Accepted | TryAgain | Failed
}
