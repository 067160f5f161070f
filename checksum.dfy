/**
 * The two checksums the crate's test computes over its reference frames: a
 * 16-bit additive sum and CRC-16/XMODEM, each shown as its little-endian bytes
 * in lower-case hex.
 */
module Checksum {
  import opened Wrappers
  import opened Bytes
  import opened Hex

  // ----- additive sum -----

  /** The sum of the bytes, as an unbounded number. */
  function Sum(bs: seq<byte>): nat
  {
    if bs == [] then 0 else bs[0] + Sum(bs[1..])
  }

  /**
   * `fold(acc, |acc, &x| acc + x as u16)`: each `+` is checked (a debug build
   * panics on `u16` overflow), so the fold yields `None` at the first overflow.
   */
  function FoldAdd(acc: u16, bs: seq<byte>): Option<u16>
    decreases |bs|
  {
    if bs == [] then Some(acc)
    else if acc + bs[0] > 0xFFFF then None
    else FoldAdd(acc + bs[0], bs[1..])
  }

  /**
   * The additive checksum of the test: the fold started at `0u16`. It exists
   * exactly when the byte sum fits in a `u16`, and it is then that sum.
   */
  function AdditiveChecksum(bs: seq<byte>): (r: Option<u16>)
    ensures r.Some? <==> Sum(bs) <= 0xFFFF
    ensures r.Some? ==> r.value == Sum(bs)
  {
    FoldAddIsSum(0, bs);
    FoldAdd(0, bs)
  }

  lemma {:induction false} FoldAddIsSum(acc: u16, bs: seq<byte>)
    ensures FoldAdd(acc, bs) == if acc + Sum(bs) <= 0xFFFF then Some(acc + Sum(bs)) else None
    decreases |bs|
  {
    if bs != [] {
      FoldAddIsSum(if acc + bs[0] > 0xFFFF then 0 else acc + bs[0], bs[1..]);
    }
  }

  /** The 15-byte payload the test sums. */
  const SumVector: seq<byte> := [0x16, 0x05, 0x00, 0x00, 0x08, 0x01, 0x10, 0xC5, 0x03, 0x00, 0x00, 0x01, 0x00, 0x00, 0x00]

  /** Golden vector: the payload sums to 0x00FD, written `FD 00` little-endian, printed `fd00`. */
  lemma SumGoldenVector()
    ensures AdditiveChecksum(SumVector) == Some(0x00FD)
    ensures ToLeBytes(AdditiveChecksum(SumVector).value) == [0xFD, 0x00]
    ensures HexEncode(ToLeBytes(AdditiveChecksum(SumVector).value)) == "fd00"
  {
    SumOfVector();
    SumPrinted();
  }

  lemma SumPrinted()
    ensures ToLeBytes(0x00FD) == [0xFD, 0x00]
    ensures HexEncode(ToLeBytes(0x00FD)) == "fd00"
  {
  }

  lemma SumOfVector()
    ensures Sum(SumVector) == 0xFD
  {
    var v := SumVector;
    SumOfVectorMiddle();
    assert Sum(v[3..]) == 0xE2;
    assert Sum(v[2..]) == 0xE2;
    assert Sum(v[1..]) == 0xE7;
  }

  lemma SumOfVectorMiddle()
    ensures Sum(SumVector[4..]) == 0xE2
  {
    var v := SumVector;
    SumOfVectorTail();
    assert Sum(v[7..]) == 0xC9;
    assert Sum(v[6..]) == 0xD9;
    assert Sum(v[5..]) == 0xDA;
  }

  lemma SumOfVectorTail()
    ensures Sum(SumVector[8..]) == 0x04
  {
    var v := SumVector;
    assert Sum(v[15..]) == 0x00;
    assert Sum(v[14..]) == 0x00;
    assert Sum(v[13..]) == 0x00;
    assert Sum(v[12..]) == 0x00;
    assert Sum(v[11..]) == 0x01;
    assert Sum(v[10..]) == 0x01;
    assert Sum(v[9..]) == 0x01;
  }

  // ----- CRC-16/XMODEM: polynomial 0x1021, initial value 0, no reflection, no final XOR -----

  /** One bit step of the register: shift left, and subtract the polynomial when a one falls out. */
  function CrcShift(c: bv16): bv16
  {
    if c & 0x8000 != 0 then (c << 1) ^ 0x1021 else c << 1
  }

  /** Feeds one byte, most significant bit first: eight bit steps. */
  function CrcByte(c: bv16, b: byte): bv16
  {
    CrcBits(c ^ ((b as bv16) << 8))
  }

  /** The eight bit steps for one byte. */
  function CrcBits(x: bv16): bv16
  {
    CrcShift(CrcShift(CrcShift(CrcShift(CrcShift(CrcShift(CrcShift(CrcShift(x))))))))
  }

  /** Feeds the bytes in order, starting from register value `c`. */
  function CrcFrom(c: bv16, bs: seq<byte>): bv16
    decreases |bs|
  {
    if bs == [] then c else CrcFrom(CrcByte(c, bs[0]), bs[1..])
  }

  /**
   * `crc16::State::<XMODEM>::calculate`. Feeding the register its own value,
   * high byte first, after the message clears it (see `CrcResidue`).
   */
  function Crc16Xmodem(bs: seq<byte>): (r: u16)
    ensures CrcFrom(0, bs + [r / 0x100, r % 0x100]) == 0
  {
    CrcResidue(bs);
    RegisterValue(CrcFrom(0, bs))
  }

  /** The register read as a number. */
  function RegisterValue(c: bv16): u16
  {
    c as int
  }

  /** The register carries everything: a message may be checksummed in pieces. */
  lemma {:induction false} CrcFromConcat(c: bv16, a: seq<byte>, b: seq<byte>)
    ensures CrcFrom(c, a + b) == CrcFrom(CrcFrom(c, a), b)
    decreases |a|
  {
    if a == [] {
      assert a + b == b;
    } else {
      assert (a + b)[0] == a[0] && (a + b)[1..] == a[1..] + b;
      CrcFromConcat(CrcByte(c, a[0]), a[1..], b);
    }
  }

  /** While no one reaches the top bit, the eight bit steps are plain shifts. */
  lemma BitsOfLowByte(x: bv16)
    requires x < 0x100
    ensures CrcBits(x) == x << 8
  {
  }

  /** The high and low bytes of a register value, as numbers. */
  lemma RegisterBytes(r: bv16)
    ensures (r as int) == 0x100 * ((r >> 8) as int) + ((r & 0xFF) as int)
    ensures (r & 0xFF) as int < 0x100
  {
  }

  lemma NumberRoundTrip(x: bv16)
    ensures (x as int) as bv16 == x
  {
  }

  /** The numeric high and low bytes of a register value are its bit fields. */
  lemma SplitRegister(r: bv16)
    ensures ((r as int) / 0x100) as bv16 == r >> 8
    ensures ((r as int) % 0x100) as bv16 == r & 0xFF
  {
    RegisterBytes(r);
    NumberRoundTrip(r >> 8);
    NumberRoundTrip(r & 0xFF);
    var h, l := (r >> 8) as int, (r & 0xFF) as int;
    assert (r as int) / 0x100 == h && (r as int) % 0x100 == l;
  }

  /** The high and low bytes of the register's value are its upper and lower eight bits. */
  lemma RegisterFields(r: bv16, hi: byte, lo: byte)
    requires hi == RegisterValue(r) / 0x100 && lo == RegisterValue(r) % 0x100
    ensures hi as bv16 == r >> 8 && lo as bv16 == r & 0xFF
  {
    SplitRegister(r);
  }

  /** Feeding a register its own high byte leaves its low byte on top. */
  lemma HighByteStep(r: bv16, hi: byte, lo: byte)
    requires hi as bv16 == r >> 8 && lo as bv16 == r & 0xFF
    ensures CrcByte(r, hi) == (lo as bv16) << 8
  {
    assert r ^ ((hi as bv16) << 8) == lo as bv16;
    BitsOfLowByte(lo as bv16);
  }

  /** Feeding a register whose high byte is `lo` and low byte zero the byte `lo` clears it. */
  lemma LowByteStep(lo: byte)
    ensures CrcByte((lo as bv16) << 8, lo) == 0
  {
    assert CrcBits(0) == 0;
  }

  /** Feeding a register its own two bytes, high byte first, clears it. */
  lemma RegisterResidue(r: bv16, hi: byte, lo: byte)
    requires hi as bv16 == r >> 8 && lo as bv16 == r & 0xFF
    ensures CrcFrom(r, [hi, lo]) == 0
  {
    HighByteStep(r, hi, lo);
    LowByteStep(lo);
    var y := CrcByte(r, hi);
    assert [hi, lo][0] == hi && [hi, lo][1..] == [lo];
    assert CrcFrom(r, [hi, lo]) == CrcFrom(y, [lo]);
    assert [lo][0] == lo && [lo][1..] == [];
    assert CrcFrom(y, [lo]) == CrcFrom(CrcByte(y, lo), []);
  }

  /**
   * Appending a message's CRC, high byte first, leaves a zero register: the
   * defining property of an unreflected CRC without final XOR.
   */
  lemma CrcResidue(msg: seq<byte>)
    ensures CrcFrom(0, msg + [RegisterValue(CrcFrom(0, msg)) / 0x100, RegisterValue(CrcFrom(0, msg)) % 0x100]) == 0
  {
    var r := CrcFrom(0, msg);
    var hi: byte := RegisterValue(r) / 0x100;
    var lo: byte := RegisterValue(r) % 0x100;
    RegisterFields(r, hi, lo);
    CrcFromConcat(0, msg, [hi, lo]);
    RegisterResidue(r, hi, lo);
  }

  /** The 8-byte frame the test checksums. */
  const CrcVector: seq<byte> := [0x55, 0xAA, 0x1B, 0x00, 0x1F, 0x02, 0x00, 0x00]

  /** The register after each byte of the test frame. */
  lemma CrcVectorTrace()
    ensures CrcByte(0x0000, 0x55) == 0x0A50
    ensures CrcByte(0x0A50, 0xAA) == 0xE5EA
    ensures CrcByte(0xE5EA, 0x1B) == 0xE4D1
    ensures CrcByte(0xE4D1, 0x00) == 0x6CAA
    ensures CrcByte(0x6CAA, 0x1F) == 0xE4F4
    ensures CrcByte(0xE4F4, 0x02) == 0x69E8
    ensures CrcByte(0x69E8, 0x00) == 0x158F
    ensures CrcByte(0x158F, 0x00) == 0xCD94
  {
  }

  lemma CrcPrinted()
    ensures ToLeBytes(0xCD94) == [0x94, 0xCD]
    ensures HexEncode(ToLeBytes(0xCD94)) == "94cd"
  {
  }

  /** Golden vector: CRC 0xCD94, written `94 CD` little-endian, printed `94cd`. */
  lemma CrcGoldenVector()
    ensures Crc16Xmodem(CrcVector) == 0xCD94
    ensures ToLeBytes(Crc16Xmodem(CrcVector)) == [0x94, 0xCD]
    ensures HexEncode(ToLeBytes(Crc16Xmodem(CrcVector))) == "94cd"
  {
    var v := CrcVector;
    CrcVectorTrace();
    assert CrcFrom(0x158F, v[7..]) == 0xCD94;
    assert CrcFrom(0x69E8, v[6..]) == 0xCD94;
    assert CrcFrom(0xE4F4, v[5..]) == 0xCD94;
    assert CrcFrom(0x6CAA, v[4..]) == 0xCD94;
    assert CrcFrom(0xE4D1, v[3..]) == 0xCD94;
    assert CrcFrom(0xE5EA, v[2..]) == 0xCD94;
    assert CrcFrom(0x0A50, v[1..]) == 0xCD94;
    CrcPrinted();
  }
}
