/**
 * Machine integer types of the driver and the big-endian reading of a byte
 * string that the command layouts are checked against.
 */
module Types {

  /** `u8`: one byte of a command or data buffer. */
  newtype u8 = x: int | 0 <= x < 0x100

  /** `u32` / `unsigned int`: lengths, page addresses, status words. */
  newtype u32 = x: int | 0 <= x < 0x1_0000_0000

  const U32_RANGE: nat := 0x1_0000_0000

  datatype Option<+T> = None | Some(value: T)

  datatype Result<+T> = Ok(value: T) | Err(errno: int)

  /**
   * `mode & flag != 0` for a flag that is a single bit (`flag` a power of
   * two); `mode` is the bit set of a SPI device's mode word.
   */
  predicate HasFlag(mode: nat, flag: nat)
    requires flag > 0
  {
    (mode / flag) % 2 == 1
  }

  /** The number a byte string denotes when read most-significant byte first. */
  function BigEndian(s: seq<u8>): nat
  {
    if s == [] then 0 else BigEndian(s[..|s| - 1]) * 0x100 + s[|s| - 1] as nat
  }

  /**
   * Truncating conversion to `u32`, as C does when assigning a wider unsigned
   * value: the one `u32` congruent to `n` modulo 2^32.
   */
  function ToU32(n: nat): (r: u32)
    ensures (n - r as nat) % U32_RANGE == 0
    ensures n < U32_RANGE ==> r as nat == n
  {
    (n % U32_RANGE) as u32
  }

  /** Two values truncate to the same `u32` if and only if they agree modulo 2^32. */
  lemma ToU32Agrees(a: nat, b: nat)
    ensures ToU32(a) == ToU32(b) <==> a % U32_RANGE == b % U32_RANGE
  {
  }
}
