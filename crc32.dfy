/**
 * The CRC-32 of IEEE 802.3 (clause 3.2.9) as the `crc-32` preset of the
 * crcmod package computes it: reflected polynomial 0xEDB88320, register
 * preset to all ones, result complemented. The checksum object of the
 * ingestion scripts keeps its value between calls and is never reset.
 */
module Crc32 {
  import opened Utf8
  import opened Wrappers

  /** The generator polynomial 0x04C11DB7, bit-reversed for the LSB-first register. */
  const Poly: bv32 := 0xEDB8_8320
  const AllOnes: bv32 := 0xFFFF_FFFF

  /** One bit of polynomial division on the reflected register. */
  function ShiftBit(r: bv32): bv32 {
    if r & 1 == 1 then (r >> 1) ^ Poly else r >> 1
  }

  function ShiftBits(r: bv32, k: nat): bv32
    decreases k
  {
    if k == 0 then r else ShiftBits(ShiftBit(r), k - 1)
  }

  /** Feeds one byte, least significant bit first. */
  function AbsorbByte(r: bv32, b: byte): bv32 {
    ShiftBits(r ^ (b as bv32), 8)
  }

  /** The register after feeding `bs` in order, starting from `r`. */
  function Absorb(r: bv32, bs: seq<byte>): bv32
    decreases |bs|
  {
    if bs == [] then r else Absorb(AbsorbByte(r, bs[0]), bs[1..])
  }

  /** The CRC-32 of a byte string. */
  function Checksum(bs: seq<byte>): bv32 {
    Absorb(AllOnes, bs) ^ AllOnes
  }

  /** What crcmod's `update` does to a stored checksum value: un-complement, feed, complement. */
  function Continue(value: bv32, bs: seq<byte>): bv32 {
    Absorb(value ^ AllOnes, bs) ^ AllOnes
  }

  /** Feeding two strings one after the other is feeding their concatenation. */
  lemma {:induction false} AbsorbAppend(r: bv32, a: seq<byte>, b: seq<byte>)
    ensures Absorb(r, a + b) == Absorb(Absorb(r, a), b)
    decreases |a|
  {
    if a == [] {
      assert a + b == b;
    } else {
      assert (a + b)[0] == a[0] && (a + b)[1..] == a[1..] + b;
      AbsorbAppend(AbsorbByte(r, a[0]), a[1..], b);
    }
  }

  /** Continuing a checksum with more bytes gives the checksum of all bytes so far. */
  lemma ContinueChecksum(a: seq<byte>, b: seq<byte>)
    ensures Continue(Checksum(a), b) == Checksum(a + b)
  {
    var r := Absorb(AllOnes, a);
    calc {
      Continue(Checksum(a), b);
      { ContinueComplement(r, b); }
      Absorb(r, b) ^ AllOnes;
      { AbsorbAppend(AllOnes, a, b); }
      Absorb(AllOnes, a + b) ^ AllOnes;
    }
  }

  lemma ContinueComplement(r: bv32, b: seq<byte>)
    ensures Continue(r ^ AllOnes, b) == Absorb(r, b) ^ AllOnes
  {
    assert r ^ AllOnes ^ AllOnes == r;
  }

  lemma ContinueFrom(v: bv32, data: seq<byte>, r: bv32)
    requires r == Absorb(v ^ AllOnes, data)
    ensures r ^ AllOnes == Continue(v, data)
  {
  }

  lemma AbsorbSnoc(r: bv32, data: seq<byte>, i: nat)
    requires i < |data|
    ensures Absorb(r, data[..i + 1]) == AbsorbByte(Absorb(r, data[..i]), data[i])
  {
    var front := data[..i];
    assert data[..i + 1] == front + [data[i]];
    AbsorbAppend(r, front, [data[i]]);
    AbsorbOne(Absorb(r, front), data[i]);
  }

  lemma AbsorbOne(r: bv32, b: byte)
    ensures Absorb(r, [b]) == AbsorbByte(r, b)
  {
    assert [b][1..] == [];
  }

  /** The byte loop inside crcmod's update: feeds `data` one byte at a time. */
  method AbsorbAll(start: bv32, data: seq<byte>) returns (r: bv32)
    ensures r == Absorb(start, data)
  {
    r := start;
    for i := 0 to |data|
      invariant r == Absorb(start, data[..i])
    {
      AbsorbSnoc(start, data, i);
      r := AbsorbByte(r, data[i]);
    }
    assert data[..|data|] == data;
  }

  /** Lowers `ShiftBits(r, 8)` to eight explicit steps. */
  lemma EightBits(r: bv32)
    ensures ShiftBits(r, 8) == ShiftBit(ShiftBit(ShiftBit(ShiftBit(ShiftBit(ShiftBit(ShiftBit(ShiftBit(r))))))))
  {
  }

  /** The register after feeding the byte 0x61 (`a`) once and twice. */
  lemma RegisterAfterA()
    ensures AbsorbByte(AllOnes, 0x61) == 0x174841bc
    ensures AbsorbByte(0x174841bc, 0x61) == 0xf875e628
  {
    EightBits(0xffffff9e);
    assert ShiftBit(0xffffff9e) == 0x7fffffcf;
    assert ShiftBit(0x7fffffcf) == 0xd2477cc7;
    assert ShiftBit(0xd2477cc7) == 0x849b3d43;
    assert ShiftBit(0x849b3d43) == 0xaff51d81;
    assert ShiftBit(0xaff51d81) == 0xba420de0;
    assert ShiftBit(0xba420de0) == 0x5d2106f0;
    assert ShiftBit(0x5d2106f0) == 0x2e908378;
    assert ShiftBit(0x2e908378) == 0x174841bc;
    EightBits(0x174841dd);
    assert ShiftBit(0x174841dd) == 0xe61ca3ce;
    assert ShiftBit(0xe61ca3ce) == 0x730e51e7;
    assert ShiftBit(0x730e51e7) == 0xd43fabd3;
    assert ShiftBit(0xd43fabd3) == 0x87a756c9;
    assert ShiftBit(0x87a756c9) == 0xae6b2844;
    assert ShiftBit(0xae6b2844) == 0x57359422;
    assert ShiftBit(0x57359422) == 0x2b9aca11;
    assert ShiftBit(0x2b9aca11) == 0xf875e628;
  }

  /**
   * Because the object is never reset, the same argument gives different
   * results: `create_crc("a")` returns e8b7be43 on a fresh object and
   * 078a19d7 when called a second time.
   */
  lemma SameInputTwice()
    ensures Checksum(Encode("a")) == 0xE8B7_BE43
    ensures Checksum(Encode("a" + "a")) == 0x078A_19D7
  {
    assert Encode("a") == [0x61];
    EncodeAppend("a", "a");
    RegisterAfterA();
    assert Absorb(AllOnes, [0x61]) == 0x174841bc;
    assert Absorb(AllOnes, [0x61, 0x61]) == Absorb(0x174841bc, [0x61]);
    assert [0x61] + [0x61] == [0x61, 0x61];
  }

  // ---- digest and hexlify ----

  const HexDigits: string := "0123456789abcdef"

  predicate IsLowerHex(s: string) {
    forall i :: 0 <= i < |s| ==> s[i] in HexDigits
  }

  /** crcmod's `digest()`: the checksum as 4 bytes, most significant first. */
  function Digest(v: bv32): (r: seq<byte>)
    ensures |r| == 4
  {
    DigestOf(v as int)
  }

  function DigestOf(n: nat): (r: seq<byte>)
    requires n < 0x1_0000_0000
    ensures |r| == 4
  {
    [n / 0x100_0000, n / 0x1_0000 % 256, n / 256 % 256, n % 256]
  }

  /** Reads bytes as a big-endian unsigned number. */
  function BigEndian(bs: seq<byte>): nat {
    if bs == [] then 0 else BigEndian(bs[..|bs| - 1]) * 256 + bs[|bs| - 1]
  }

  lemma DigestValue(n: nat)
    requires n < 0x1_0000_0000
    ensures BigEndian(DigestOf(n)) == n
  {
    var d := DigestOf(n);
    assert d[..1][..0] == [];
    assert BigEndian(d[..1]) == n / 0x100_0000;
    assert BigEndian(d[..2]) == n / 0x1_0000 by {
      assert d[..2][..1] == d[..1];
    }
    assert BigEndian(d[..3]) == n / 256 by {
      assert d[..3][..2] == d[..2];
    }
    assert d[..4] == d;
  }

  function HexByte(b: byte): (r: string)
    ensures |r| == 2
  {
    [HexDigits[b / 16], HexDigits[b % 16]]
  }

  /** `binascii.hexlify(...).decode('ascii')`: two lowercase hex digits per byte. */
  function Hexlify(bs: seq<byte>): (r: string)
    ensures |r| == 2 * |bs|
  {
    if bs == [] then [] else HexByte(bs[0]) + Hexlify(bs[1..])
  }

  function HexValue(c: char): Option<nat> {
    if '0' <= c <= '9' then Some(c as int - '0' as int)
    else if 'a' <= c <= 'f' then Some(c as int - 'a' as int + 10)
    else None
  }

  /** `binascii.unhexlify` restricted to lowercase digits. */
  function Unhexlify(s: string): Option<seq<byte>>
    decreases |s|
  {
    if s == [] then Some([])
    else if |s| == 1 then None
    else match (HexValue(s[0]), HexValue(s[1]), Unhexlify(s[2..]))
      case (Some(hi), Some(lo), Some(rest)) => Some([hi * 16 + lo] + rest)
      case _ => None
  }

  lemma HexDigitsValue(d: nat)
    requires d < 16
    ensures HexValue(HexDigits[d]) == Some(d)
  {
    assert HexDigits == ['0','1','2','3','4','5','6','7','8','9','a','b','c','d','e','f'];
  }

  /** Hexlify produces lowercase hex digits only. */
  lemma {:induction false} HexlifyIsLowerHex(bs: seq<byte>)
    ensures IsLowerHex(Hexlify(bs))
  {
    if bs != [] {
      HexlifyIsLowerHex(bs[1..]);
      var h := Hexlify(bs);
      var t := Hexlify(bs[1..]);
      assert h == HexByte(bs[0]) + t;
      forall i | 0 <= i < |h| ensures h[i] in HexDigits {
        if i >= 2 { assert h[i] == t[i - 2]; }
      }
    }
  }

  /** Unhexlify inverts hexlify. */
  lemma {:induction false} HexlifyRoundTrip(bs: seq<byte>)
    ensures Unhexlify(Hexlify(bs)) == Some(bs)
  {
    if bs != [] {
      var b := bs[0];
      HexlifyRoundTrip(bs[1..]);
      HexDigitsValue(b / 16);
      HexDigitsValue(b % 16);
      var h := Hexlify(bs);
      assert h == HexByte(b) + Hexlify(bs[1..]);
      assert h[0] == HexDigits[b / 16] && h[1] == HexDigits[b % 16];
      assert h[2..] == Hexlify(bs[1..]);
      assert (b / 16) * 16 + b % 16 == b;
      assert Unhexlify(h) == Some([b] + bs[1..]);
      assert [b] + bs[1..] == bs;
    }
  }

  /** The 8-character text `create_crc` returns for a checksum value. */
  function HexDigest(v: bv32): (r: string)
    ensures |r| == 8
  {
    Hexlify(Digest(v))
  }

  /** The hex text is exactly the checksum, big-endian: nothing is lost or reordered. */
  lemma HexDigestMeaning(v: bv32)
    ensures IsLowerHex(HexDigest(v))
    ensures Unhexlify(HexDigest(v)).Some? && BigEndian(Unhexlify(HexDigest(v)).value) == v as int
  {
    HexlifyIsLowerHex(Digest(v));
    HexlifyRoundTrip(Digest(v));
    DigestValue(v as int);
  }

  /**
   * The module-level checksum object (`crcmod.predefined.Crc('crc-32')`).
   * `crcValue` is crcmod's stored, already complemented value; `consumed` is
   * every byte fed to it since it was created.
   */
  class Hasher {
    var crcValue: bv32
    ghost var consumed: seq<byte>

    ghost predicate Valid()
      reads this
    {
      crcValue == Checksum(consumed)
    }

    constructor ()
      ensures Valid() && consumed == []
    {
      crcValue := 0;
      consumed := [];
    }

    /** crcmod's `update`: feeds `data` on top of everything fed before. */
    method Update(data: seq<byte>)
      requires Valid()
      modifies this
      ensures Valid() && consumed == old(consumed) + data
    {
      var r := AbsorbAll(crcValue ^ AllOnes, data);
      ContinueFrom(crcValue, data, r);
      ContinueChecksum(consumed, data);
      crcValue := r ^ AllOnes;
      consumed := consumed + data;
    }

    /**
     * `create_crc(data)`: feeds the UTF-8 encoding of `data` and returns the
     * hex digest of everything fed so far, since the object is never reset.
     */
    method CreateCrc(data: string) returns (hex: string)
      requires Valid()
      modifies this
      ensures Valid() && consumed == old(consumed) + Encode(data)
      ensures hex == HexDigest(Checksum(consumed))
    {
      Update(Encode(data));
      hex := Hexlify(Digest(crcValue));
    }
  }

  /**
   * Two calls on a fresh checksum object: the second result is the CRC-32 of
   * both strings together, not of the second string alone.
   */
  method CreateCrcTwice(a: string, b: string) returns (first: string, second: string)
    ensures first == HexDigest(Checksum(Encode(a)))
    ensures second == HexDigest(Checksum(Encode(a + b)))
    ensures |second| == 8 && IsLowerHex(second)
  {
    var h := new Hasher();
    first := h.CreateCrc(a);
    assert h.consumed == Encode(a);
    second := h.CreateCrc(b);
    EncodeAppend(a, b);
    assert h.consumed == Encode(a + b);
    HexDigestMeaning(h.crcValue);
  }
}
