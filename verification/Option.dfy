module Wrappers {
  // Go's int32.
  type Int32 = x: int | -0x8000_0000 <= x < 0x8000_0000

  // A Go pointer that may be nil.
  datatype Option<+T> = None | Some(value: T)
}
