/** Types shared by every part of the storage model. */
module Common {

  /** A byte of flash, of the RAM disk or of a file. */
  type byte = bv8

  /** C's `uint32_t` range; sizes and offsets of the source are 32-bit. */
  const U32: int := 0x1_0000_0000

  datatype Option<+T> = None | Some(value: T)

  /** The decimal digits of `n`, as `sprintf("%d")` prints a non-negative int. */
  function NatToString(n: nat): (s: string)
    ensures |s| >= 1
    ensures forall i :: 0 <= i < |s| ==> '0' <= s[i] <= '9'
    decreases n
  {
    var d := ['0' + (n % 10) as char];
    if n < 10 then d else NatToString(n / 10) + d
  }

  /** `sprintf("%d")` for any int: a minus sign before the digits of a negative value. */
  function IntToString(n: int): (s: string)
    ensures |s| >= 1
    ensures (n < 0) == (s[0] == '-')
  {
    if n < 0 then "-" + NatToString(-n) else NatToString(n)
  }
}
