/** Bytes and fixed-width unsigned integers as bounded mathematical integers. */
module Bytes {

  /** Rust `u8`. */
  type byte = x: int | 0 <= x < 256

  /** Rust `u16`. */
  type u16 = x: int | 0 <= x < 0x1_0000

  const U32_MAX: nat := 0xFFFF_FFFF
  const U64_MAX: nat := 0xFFFF_FFFF_FFFF_FFFF

  /** Rust `u32`. */
  type u32 = x: int | 0 <= x <= U32_MAX

  /** Rust `u64`. */
  type u64 = x: int | 0 <= x <= U64_MAX

  /** Rust `i32`. */
  type i32 = x: int | -0x8000_0000 <= x < 0x8000_0000

  /** `u16::to_be_bytes`: most significant byte first. */
  function U16ToBe(n: u16): (r: seq<byte>)
    ensures |r| == 2
  {
    [n / 256, n % 256]
  }

  /** `u16::from_be_bytes`. */
  function U16FromBe(hi: byte, lo: byte): u16
  {
    hi * 256 + lo
  }

  /** `n` copies of the byte `b`. */
  function Fill(n: nat, b: byte): (r: seq<byte>)
    ensures |r| == n && forall i :: 0 <= i < n ==> r[i] == b
  {
    seq(n, _ => b)
  }

  /** The first byte of `s`, or 0. */
  function Head(s: seq<byte>): byte
  {
    if |s| > 0 then s[0] else 0
  }
}
