/** Small shared vocabulary: an optional value, the byte and 32-bit word
    types of the target, and explicit 32-bit wrap-around. */
module Base {

  datatype Option<+T> = None | Some(value: T)

  /** An 8-bit unsigned value (`uint8_t`). */
  type byte = x: int | 0 <= x < 256

  const WordModulus: int := 0x1_0000_0000

  /** A 32-bit unsigned value (`uint32_t`, `DWORD`, `unsigned long` on the target). */
  type u32 = x: int | 0 <= x < 0x1_0000_0000

  /** Reduction of an unbounded integer to the 32-bit unsigned range, as the
      target's unsigned arithmetic does. */
  function Wrap32(x: int): (r: u32)
    ensures 0 <= x < WordModulus ==> r == x
    ensures (r - x) % WordModulus == 0
  {
    x % WordModulus
  }
}
