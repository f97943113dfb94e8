/**
 * UTF-8 as defined by RFC 3629: the encoding Python's `str.encode('utf-8')`
 * produces and the strict decoding `bytes.decode('utf-8')` accepts.
 * A Dafny `char` is a Unicode scalar value, which is exactly what UTF-8 encodes.
 */
module Utf8 {
  import opened Wrappers

  type byte = b: int | 0 <= b < 256

  predicate IsContinuation(b: byte) { 0x80 <= b <= 0xBF }

  /** The bytes of one scalar value (RFC 3629 section 3). */
  function EncodeChar(c: char): (r: seq<byte>)
    ensures 1 <= |r| <= 4
  {
    var n := c as int;
    if n < 0x80 then [n]
    else if n < 0x800 then [0xC0 + n / 64, 0x80 + n % 64]
    else if n < 0x10000 then [0xE0 + n / 4096, 0x80 + (n / 64) % 64, 0x80 + n % 64]
    else [0xF0 + n / 262144, 0x80 + (n / 4096) % 64, 0x80 + (n / 64) % 64, 0x80 + n % 64]
  }

  function Encode(s: string): (r: seq<byte>)
    ensures |r| >= |s|
  {
    if s == [] then [] else EncodeChar(s[0]) + Encode(s[1..])
  }

  /**
   * Decodes the one well-formed sequence (the UTF8-char production of RFC 3629
   * section 4) at the front of `bs`, giving the scalar value and its length.
   */
  function DecodeChar(bs: seq<byte>): Option<(char, nat)>
    requires bs != []
  {
    var b0: int := bs[0];
    if b0 < 0x80 then Some((b0 as char, 1))
    else if 0xC2 <= b0 <= 0xDF then
      if |bs| >= 2 && IsContinuation(bs[1]) then
        var v: int := (b0 - 0xC0) * 64 + (bs[1] as int - 0x80);
        Some((v as char, 2))
      else None
    else if 0xE0 <= b0 <= 0xEF then
      if |bs| >= 3 && IsContinuation(bs[1]) && IsContinuation(bs[2])
         && (b0 == 0xE0 ==> bs[1] >= 0xA0) && (b0 == 0xED ==> bs[1] <= 0x9F) then
        var v: int := (b0 - 0xE0) * 4096 + (bs[1] as int - 0x80) * 64 + (bs[2] as int - 0x80);
        Some((v as char, 3))
      else None
    else if 0xF0 <= b0 <= 0xF4 then
      if |bs| >= 4 && IsContinuation(bs[1]) && IsContinuation(bs[2]) && IsContinuation(bs[3])
         && (b0 == 0xF0 ==> bs[1] >= 0x90) && (b0 == 0xF4 ==> bs[1] <= 0x8F) then
        var v: int := (b0 - 0xF0) * 262144 + (bs[1] as int - 0x80) * 4096
                      + (bs[2] as int - 0x80) * 64 + (bs[3] as int - 0x80);
        Some((v as char, 4))
      else None
    else None
  }

  /** Strict decoding: `None` exactly when some byte sequence is ill-formed. */
  function Decode(bs: seq<byte>): Option<string>
    decreases |bs|
  {
    if bs == [] then Some([])
    else match DecodeChar(bs)
      case None => None
      case Some((c, k)) =>
        if 1 <= k <= |bs| then
          match Decode(bs[k..])
          case None => None
          case Some(rest) => Some([c] + rest)
        else None
  }

  lemma EncodeAppend(a: string, b: string)
    ensures Encode(a + b) == Encode(a) + Encode(b)
  {
    if a != [] {
      assert (a + b)[0] == a[0];
      assert (a + b)[1..] == a[1..] + b;
      EncodeAppend(a[1..], b);
      calc {
        Encode(a + b);
        EncodeChar(a[0]) + Encode(a[1..] + b);
        EncodeChar(a[0]) + (Encode(a[1..]) + Encode(b));
        (EncodeChar(a[0]) + Encode(a[1..])) + Encode(b);
      }
    } else {
      assert a + b == b;
    }
  }

  lemma DivisionSteps(n: int)
    requires n >= 0
    ensures n / 4096 == n / 64 / 64 && n / 262144 == n / 64 / 64 / 64
    ensures n / 4096 % 64 == n / 64 / 64 % 64
  {
  }

  lemma DecodeEncodeChar(c: char, rest: seq<byte>)
    ensures DecodeChar(EncodeChar(c) + rest) == Some((c, |EncodeChar(c)|))
  {
    var n := c as int;
    if n < 0x80 {
      assert (EncodeChar(c) + rest)[0] == n;
    } else if n < 0x800 {
      DecodeEncodeTwo(c, rest);
    } else if n < 0x10000 {
      DecodeEncodeThree(c, rest);
    } else {
      DecodeEncodeFour(c, rest);
    }
  }

  lemma DecodeEncodeTwo(c: char, rest: seq<byte>)
    requires 0x80 <= c as int < 0x800
    ensures DecodeChar(EncodeChar(c) + rest) == Some((c, 2))
  {
    var n := c as int;
    var bs := EncodeChar(c) + rest;
    assert bs[0] == 0xC0 + n / 64 && bs[1] == 0x80 + n % 64;
    assert 2 <= n / 64 < 32;
    assert (bs[0] as int - 0xC0) * 64 + (bs[1] as int - 0x80) == n;
  }

  lemma DecodeEncodeThree(c: char, rest: seq<byte>)
    requires 0x800 <= c as int < 0x10000
    ensures DecodeChar(EncodeChar(c) + rest) == Some((c, 3))
  {
    var n := c as int;
    var bs := EncodeChar(c) + rest;
    DivisionSteps(n);
    var q1, r1 := n / 64, n % 64;
    var q2, r2 := q1 / 64, q1 % 64;
    assert bs[0] == 0xE0 + q2 && bs[1] == 0x80 + r2 && bs[2] == 0x80 + r1;
    assert q2 < 16;
    assert (bs[0] as int - 0xE0) * 4096 + (bs[1] as int - 0x80) * 64 + (bs[2] as int - 0x80) == n;
  }

  lemma DecodeEncodeFour(c: char, rest: seq<byte>)
    requires 0x10000 <= c as int
    ensures DecodeChar(EncodeChar(c) + rest) == Some((c, 4))
  {
    var n := c as int;
    var bs := EncodeChar(c) + rest;
    DivisionSteps(n);
    var q1, r1 := n / 64, n % 64;
    var q2, r2 := q1 / 64, q1 % 64;
    var q3, r3 := q2 / 64, q2 % 64;
    assert bs[0] == 0xF0 + q3 && bs[1] == 0x80 + r3 && bs[2] == 0x80 + r2 && bs[3] == 0x80 + r1;
    assert q3 <= 4;
    assert (bs[0] as int - 0xF0) * 262144 + (bs[1] as int - 0x80) * 4096
           + (bs[2] as int - 0x80) * 64 + (bs[3] as int - 0x80) == n;
  }

  /** Encoding then decoding gives the string back. */
  lemma {:induction false} DecodeEncode(s: string)
    ensures Decode(Encode(s)) == Some(s)
  {
    if s != [] {
      var e := EncodeChar(s[0]);
      DecodeEncodeChar(s[0], Encode(s[1..]));
      assert (e + Encode(s[1..]))[|e|..] == Encode(s[1..]);
      DecodeEncode(s[1..]);
      assert [s[0]] + s[1..] == s;
    }
  }

  lemma EncodeDecodeChar(bs: seq<byte>)
    requires bs != [] && DecodeChar(bs).Some?
    ensures var (c, k) := DecodeChar(bs).value; k <= |bs| && EncodeChar(c) == bs[..k]
  {
    if bs[0] < 0x80 {
    } else if bs[0] <= 0xDF {
      EncodeDecodeTwo(bs);
    } else if bs[0] <= 0xEF {
      EncodeDecodeThree(bs);
    } else {
      EncodeDecodeFour(bs);
    }
  }

  lemma EncodeDecodeTwo(bs: seq<byte>)
    requires bs != [] && 0x80 <= bs[0] <= 0xDF && DecodeChar(bs).Some?
    ensures var (c, k) := DecodeChar(bs).value; k == 2 <= |bs| && EncodeChar(c) == bs[..2]
  {
    var c := DecodeChar(bs).value.0;
    var n := c as int;
    var b0: int := bs[0];
    var x1: int := bs[1] as int - 0x80;
    assert n == (b0 - 0xC0) * 64 + x1;
    assert n / 64 == b0 - 0xC0 && n % 64 == x1;
  }

  lemma EncodeDecodeThree(bs: seq<byte>)
    requires bs != [] && 0xE0 <= bs[0] <= 0xEF && DecodeChar(bs).Some?
    ensures var (c, k) := DecodeChar(bs).value; k == 3 <= |bs| && EncodeChar(c) == bs[..3]
  {
    var c := DecodeChar(bs).value.0;
    var n := c as int;
    DivisionSteps(n);
    var b0: int := bs[0];
    var x1: int := bs[1] as int - 0x80;
    var x2: int := bs[2] as int - 0x80;
    assert n == (b0 - 0xE0) * 4096 + x1 * 64 + x2;
    assert n / 64 == (b0 - 0xE0) * 64 + x1 && n % 64 == x2;
    assert n / 64 / 64 == b0 - 0xE0 && n / 64 % 64 == x1;
    assert EncodeChar(c) == [bs[0], bs[1], bs[2]];
  }

  lemma EncodeDecodeFour(bs: seq<byte>)
    requires bs != [] && 0xF0 <= bs[0] && DecodeChar(bs).Some?
    ensures var (c, k) := DecodeChar(bs).value; k == 4 <= |bs| && EncodeChar(c) == bs[..4]
  {
    var c := DecodeChar(bs).value.0;
    var n := c as int;
    DivisionSteps(n);
    var b0: int := bs[0];
    var x1: int := bs[1] as int - 0x80;
    var x2: int := bs[2] as int - 0x80;
    var x3: int := bs[3] as int - 0x80;
    assert n == (b0 - 0xF0) * 262144 + x1 * 4096 + x2 * 64 + x3;
    assert n / 64 == (b0 - 0xF0) * 4096 + x1 * 64 + x2 && n % 64 == x3;
    assert n / 64 / 64 == (b0 - 0xF0) * 64 + x1 && n / 64 % 64 == x2;
    assert n / 64 / 64 / 64 == b0 - 0xF0 && n / 64 / 64 % 64 == x1;
    assert EncodeChar(c) == [bs[0], bs[1], bs[2], bs[3]];
  }

  /**
   * A successful decoding is a first character, whose encoding is the front
   * of the bytes, followed by the decoding of the rest.
   */
  lemma DecodeFront(bs: seq<byte>) returns (c: char, k: nat)
    requires bs != [] && Decode(bs).Some?
    ensures 1 <= k <= |bs| && EncodeChar(c) == bs[..k]
    ensures Decode(bs[k..]).Some? && Decode(bs).value == [c] + Decode(bs[k..]).value
  {
    c, k := DecodeChar(bs).value.0, DecodeChar(bs).value.1;
    EncodeDecodeChar(bs);
  }

  lemma EncodeCons(c: char, rest: string)
    ensures Encode([c] + rest) == EncodeChar(c) + Encode(rest)
  {
    assert ([c] + rest)[1..] == rest;
  }

  /** Whatever decodes successfully is exactly the encoding of its result. */
  lemma {:induction false} EncodeDecode(bs: seq<byte>)
    requires Decode(bs).Some?
    ensures Encode(Decode(bs).value) == bs
  {
    if bs != [] {
      var c, k := DecodeFront(bs);
      var tail := bs[k..];
      EncodeDecode(tail);
      EncodeCons(c, Decode(tail).value);
      assert bs[..k] + tail == bs;
    }
  }
}
