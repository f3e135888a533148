// A few things every part of the model uses.

module Common {

  datatype Option<+T> = None | Some(value: T)

  const U64 := 0x1_0000_0000_0000_0000

  // The conversion of a number to an integer type in C, towards zero.
  function Truncate(x: real): int {
    if x >= 0.0 then x.Floor else -((-x).Floor)
  }

  function Flatten<T>(parts: seq<seq<T>>): (whole: seq<T>) {
    if parts == [] then [] else Flatten(parts[..|parts| - 1]) + parts[|parts| - 1]
  }
}
