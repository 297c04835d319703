/** Sizes and types that several parts of the system share. */
module Common {
  datatype Option<+T> = None | Some(value: T)

  const TERMINALS := 3
  const MAX_PID := 6
  const FILE_NAME := 32            // bytes in a directory entry's name and in execute's buffer for it
  const WORD := 0x1_0000_0000      // values of a 32-bit word

  function Min(a: nat, b: nat): nat { if a <= b then a else b }
}
