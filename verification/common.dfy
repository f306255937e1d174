/** Small shared vocabulary: an optional value and the 32-bit unsigned
    arithmetic the firmware's counters and tick values live in. */
module Common {

  /** A value that may be absent; stands for a NULL pointer or a failed
      collaborator call. */
  datatype Option<T> = None | Some(value: T)

  /** 2^32: every `uint32_t` of the firmware is a value below this bound. */
  const UINT32_LIMIT: nat := 0x1_0000_0000

  type U32 = x: nat | x < UINT32_LIMIT

  function Min(a: nat, b: nat): nat {
    if a < b then a else b
  }

  /** `x++` on a `uint32_t`: wraps to 0 after 2^32 - 1. */
  function Inc32(x: U32): (r: U32)
    ensures x < UINT32_LIMIT - 1 ==> r == x + 1
    ensures x == UINT32_LIMIT - 1 ==> r == 0
  {
    (x + 1) % UINT32_LIMIT
  }

  /** `a - b` on `uint32_t` operands: the difference modulo 2^32. */
  function Sub32(a: U32, b: U32): (r: U32)
    ensures b <= a ==> r == a - b
    ensures a < b ==> r == a + UINT32_LIMIT - b
  {
    (a - b) % UINT32_LIMIT
  }

}
