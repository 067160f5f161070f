/** Fixed-width unsigned integers and the little-endian encoding of a `u16`. */
module Bytes {

  /** Rust's `u8`. */
  type byte = x: int | 0 <= x < 0x100

  /** Rust's `u32`. */
  type u32 = x: int | 0 <= x < 0x1_0000_0000

  /** The number of values of Rust's `u64`: `as u64` keeps a value modulo this. */
  const U64Modulus: nat := 0x1_0000_0000_0000_0000

  /** Rust's `u16`. */
  type u16 = x: int | 0 <= x < 0x1_0000

  /** `u16::to_le_bytes`: low byte first, then high byte. */
  function ToLeBytes(v: u16): (r: seq<byte>)
    ensures |r| == 2
    ensures r[0] as int + 0x100 * r[1] as int == v
  {
    [v % 0x100, v / 0x100]
  }

  /** `u16::from_le_bytes`, the inverse of `ToLeBytes`. */
  function FromLeBytes(lo: byte, hi: byte): (v: u16)
    ensures v % 0x100 == lo as int && v / 0x100 == hi as int
  {
    lo as int + 0x100 * hi as int
  }

  /** Encoding little-endian and decoding again gives back the value. */
  lemma LeRoundTrip(v: u16)
    ensures FromLeBytes(ToLeBytes(v)[0], ToLeBytes(v)[1]) == v
  {
  }

  /** Decoding two bytes and encoding again gives back the two bytes. */
  lemma LeRoundTripBytes(lo: byte, hi: byte)
    ensures ToLeBytes(FromLeBytes(lo, hi)) == [lo, hi]
  {
  }
}
