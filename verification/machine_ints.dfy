/** Fixed-width machine integers and byte-sequence helpers. */
module MachineInts {

  /** An unsigned 8-bit value (`u8`). */
  type byte = x: int | 0 <= x < 0x100

  /** An unsigned 32-bit value (`u32`). */
  type u32 = x: int | 0 <= x < 0x1_0000_0000

  /** An unsigned 64-bit value (`u64`). */
  type u64 = x: int | 0 <= x < 0x1_0000_0000_0000_0000

  /** `n` zero bytes. */
  function Zeros(n: nat): (z: seq<byte>)
    ensures |z| == n && forall i :: 0 <= i < n ==> z[i] == 0
  {
    seq(n, _ => 0)
  }

  function Min(a: nat, b: nat): nat {
    if a <= b then a else b
  }
}
