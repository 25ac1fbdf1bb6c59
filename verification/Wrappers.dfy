/** Shared types. An `Abort` stands for XLOG_ASSERT, XLOG_FATAL and XLOG_UNREACHABLE:
    the process stops, so nothing is promised about what follows. */
module Wrappers {
  datatype Option<+T> = None | Some(value: T)

  type Byte = x: int | 0 <= x < 256

  datatype Outcome<+T> = Next(value: T) | Abort
}
