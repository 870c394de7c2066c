/**
 * Endian: conversion of 16, 32 and 64-bit unsigned integers to and from
 * network byte order (big-endian) in a std::string of bytes.
 *
 * A string is its sequence of bytes. Decoding copies a fixed number of bytes
 * from c_str(), which is the string followed by its NUL terminator.
 */
module Endian {

  newtype byte = x: int | 0 <= x < 256
  newtype uint16 = x: int | 0 <= x < 0x1_0000
  newtype uint32 = x: int | 0 <= x < 0x1_0000_0000
  newtype uint64 = x: int | 0 <= x < 0x1_0000_0000_0000_0000

  /** 256^n: the number of values that n bytes can hold. */
  function Pow256(n: nat): (p: nat)
    ensures p >= 1
  {
    if n == 0 then 1 else 256 * Pow256(n - 1)
  }

  /** The width bytes of n, most significant first. */
  function ToNet(n: nat, width: nat): (b: seq<byte>)
    requires n < Pow256(width)
    ensures |b| == width
  {
    if width == 0 then []
    else
      assert n / 256 < Pow256(width - 1);
      ToNet(n / 256, width - 1) + [(n % 256) as byte]
  }

  /** The number that the bytes of b spell, most significant first. */
  function FromNet(b: seq<byte>): (n: nat)
    ensures n < Pow256(|b|)
  {
    if b == [] then 0
    else
      var high := FromNet(b[..|b| - 1]);
      assert high * 256 + b[|b| - 1] as int <= (Pow256(|b| - 1) - 1) * 256 + 255;
      high * 256 + b[|b| - 1] as int
  }

  /** Decoding an encoding gives the number back. */
  lemma {:induction false} FromToNet(n: nat, width: nat)
    requires n < Pow256(width)
    ensures FromNet(ToNet(n, width)) == n
  {
    if width > 0 {
      var b := ToNet(n, width);
      assert b[..width - 1] == ToNet(n / 256, width - 1);
      FromToNet(n / 256, width - 1);
    }
  }

  /** Encoding a decoded number gives the bytes back. */
  lemma {:induction false} ToFromNet(b: seq<byte>)
    ensures ToNet(FromNet(b), |b|) == b
  {
    if b != [] {
      var init, last := b[..|b| - 1], b[|b| - 1];
      var n := FromNet(b);
      assert n / 256 == FromNet(init) && n % 256 == last as int;
      ToFromNet(init);
      assert b == init + [last];
    }
  }

  /** Byte i of the encoding is digit width-1-i of n in base 256: the most significant byte comes first. */
  lemma {:induction false} ToNetDigit(n: nat, width: nat, i: nat)
    requires n < Pow256(width) && i < width
    ensures ToNet(n, width)[i] as int == n / Pow256(width - 1 - i) % 256
  {
    if i < width - 1 {
      ToNetDigit(n / 256, width - 1, i);
      DivDiv(n, Pow256(width - 2 - i));
    }
  }

  lemma {:induction false} Pow256Widths()
    ensures Pow256(2) == 0x1_0000
    ensures Pow256(4) == 0x1_0000_0000
    ensures Pow256(8) == 0x1_0000_0000_0000_0000
  {
    assert Pow256(1) == 0x100;
    assert Pow256(2) == 0x1_0000;
    assert Pow256(3) == 0x100_0000;
    assert Pow256(4) == 0x1_0000_0000;
    assert Pow256(5) == 0x100_0000_0000;
    assert Pow256(6) == 0x1_0000_0000_0000;
    assert Pow256(7) == 0x100_0000_0000_0000;
  }

  /**
   * The first width bytes of c_str(): the string's own bytes, then its NUL
   * terminator when the string is one byte short. Reading further would run
   * past the buffer, which the caller must not ask for.
   */
  function CStrPrefix(str: seq<byte>, width: nat): (b: seq<byte>)
    requires |str| + 1 >= width
    ensures |b| == width
  {
    (str + [0])[..width]
  }

  /** The numeric value of a decoded c_str() prefix: the NUL, when read, is the lowest byte. */
  lemma {:induction false} CStrValue(str: seq<byte>, width: nat)
    requires |str| + 1 >= width
    ensures |str| >= width ==> FromNet(CStrPrefix(str, width)) == FromNet(str[..width])
    ensures |str| + 1 == width ==> FromNet(CStrPrefix(str, width)) == FromNet(str) * 256
  {
    if |str| >= width {
      assert CStrPrefix(str, width) == str[..width];
    } else {
      assert CStrPrefix(str, width)[..|str|] == str;
    }
  }

  // uint64_to_net / uint64_from_net

  function Uint64ToNet(num: uint64): (r: seq<byte>)
    ensures |r| == 8 && FromNet(r) == num as int
  {
    Pow256Widths();
    FromToNet(num as nat, 8);
    ToNet(num as nat, 8)
  }

  function Uint64FromNet(str: seq<byte>): (num: uint64)
    requires |str| + 1 >= 8
    ensures |str| >= 8 ==> num as int == FromNet(str[..8])
    ensures |str| == 7 ==> num as int == FromNet(str) * 256
  {
    Pow256Widths();
    CStrValue(str, 8);
    FromNet(CStrPrefix(str, 8)) as uint64
  }

  lemma {:induction false} Uint64RoundTrip(num: uint64)
    ensures Uint64FromNet(Uint64ToNet(num)) == num
  {
    var r := Uint64ToNet(num);
    assert r[..8] == r;
  }

  lemma {:induction false} Uint64NetRoundTrip(str: seq<byte>)
    requires |str| >= 8
    ensures Uint64ToNet(Uint64FromNet(str)) == str[..8]
  {
    Pow256Widths();
    ToFromNet(str[..8]);
  }

  // uint32_to_net / uint32_from_net

  /** The four bytes of num, most significant first: what uint32_to_net evidently means to return. */
  function Uint32ToNet(num: uint32): (r: seq<byte>)
    ensures |r| == 4 && FromNet(r) == num as int
  {
    Pow256Widths();
    FromToNet(num as nat, 4);
    ToNet(num as nat, 4)
  }

  /**
   * uint32_to_net as written: std::string(buf, 8) on a 4-byte buf, so the
   * result also carries the 4 bytes that happen to follow buf in memory,
   * given here as `beyond`.
   */
  function Uint32ToNetAsWritten(num: uint32, beyond: seq<byte>): (r: seq<byte>)
    requires |beyond| == 4
    ensures |r| == 8 && r[..4] == Uint32ToNet(num) && r[4..] == beyond
  {
    Uint32ToNet(num) + beyond
  }

  /** The written encoder's output depends on memory outside buf, and is twice as long as the encoding. */
  lemma {:induction false} Uint32ToNetOverRead()
    ensures |Uint32ToNetAsWritten(1, [0, 0, 0, 0])| == 8
    ensures Uint32ToNetAsWritten(1, [0, 0, 0, 0]) != Uint32ToNetAsWritten(1, [7, 7, 7, 7])
  {
    assert Uint32ToNetAsWritten(1, [7, 7, 7, 7])[4] == 7;
  }

  function Uint32FromNet(str: seq<byte>): (num: uint32)
    requires |str| + 1 >= 4
    ensures |str| >= 4 ==> num as int == FromNet(str[..4])
    ensures |str| == 3 ==> num as int == FromNet(str) * 256
  {
    Pow256Widths();
    CStrValue(str, 4);
    FromNet(CStrPrefix(str, 4)) as uint32
  }

  /** Decoding reads the first four bytes, so it undoes both encoders, whatever the extra bytes are. */
  lemma {:induction false} Uint32RoundTrip(num: uint32, beyond: seq<byte>)
    requires |beyond| == 4
    ensures Uint32FromNet(Uint32ToNet(num)) == num
    ensures Uint32FromNet(Uint32ToNetAsWritten(num, beyond)) == num
  {
    var r := Uint32ToNet(num);
    assert r[..4] == r;
  }

  lemma {:induction false} Uint32NetRoundTrip(str: seq<byte>)
    requires |str| >= 4
    ensures Uint32ToNet(Uint32FromNet(str)) == str[..4]
  {
    Pow256Widths();
    ToFromNet(str[..4]);
  }

  // uint16_to_net / uint16_from_net

  /** The two bytes of num, most significant first: what uint16_to_net evidently means to return. */
  function Uint16ToNet(num: uint16): (r: seq<byte>)
    ensures |r| == 2 && FromNet(r) == num as int
  {
    Pow256Widths();
    FromToNet(num as nat, 2);
    ToNet(num as nat, 2)
  }

  /** uint16_to_net as written: std::string(buf, 8) on a 2-byte buf, carrying 6 bytes from beyond buf. */
  function Uint16ToNetAsWritten(num: uint16, beyond: seq<byte>): (r: seq<byte>)
    requires |beyond| == 6
    ensures |r| == 8 && r[..2] == Uint16ToNet(num) && r[2..] == beyond
  {
    Uint16ToNet(num) + beyond
  }

  lemma {:induction false} Uint16ToNetOverRead()
    ensures |Uint16ToNetAsWritten(1, [0, 0, 0, 0, 0, 0])| == 8
    ensures Uint16ToNetAsWritten(1, [0, 0, 0, 0, 0, 0]) != Uint16ToNetAsWritten(1, [7, 7, 7, 7, 7, 7])
  {
    assert Uint16ToNetAsWritten(1, [7, 7, 7, 7, 7, 7])[2] == 7;
  }

  function Uint16FromNet(str: seq<byte>): (num: uint16)
    requires |str| + 1 >= 2
    ensures |str| >= 2 ==> num as int == FromNet(str[..2])
    ensures |str| == 1 ==> num as int == FromNet(str) * 256
  {
    Pow256Widths();
    CStrValue(str, 2);
    FromNet(CStrPrefix(str, 2)) as uint16
  }

  lemma {:induction false} Uint16RoundTrip(num: uint16, beyond: seq<byte>)
    requires |beyond| == 6
    ensures Uint16FromNet(Uint16ToNet(num)) == num
    ensures Uint16FromNet(Uint16ToNetAsWritten(num, beyond)) == num
  {
    var r := Uint16ToNet(num);
    assert r[..2] == r;
  }

  lemma {:induction false} Uint16NetRoundTrip(str: seq<byte>)
    requires |str| >= 2
    ensures Uint16ToNet(Uint16FromNet(str)) == str[..2]
  {
    Pow256Widths();
    ToFromNet(str[..2]);
  }

  /** Dividing by 256 and then by p is dividing by 256 * p. */
  lemma {:induction false} DivDiv(n: nat, p: nat)
    requires p >= 1
    ensures n / 256 / p == n / (256 * p)
  {
    var q, r, s := n / 256 / p, n / 256 % p, n % 256;
    assert n / 256 == q * p + r;
    assert n == (q * p + r) * 256 + s;
    assert n == q * (256 * p) + (r * 256 + s) by {
      assert (q * p + r) * 256 == q * (256 * p) + r * 256;
    }
    assert r * 256 + s < 256 * p by {
      assert r <= p - 1;
      assert r * 256 <= (p - 1) * 256;
    }
    DivUnique(n, 256 * p, q, r * 256 + s);
  }

  /** The quotient is the only q with n == q * d + r and 0 <= r < d. */
  lemma {:induction false} DivUnique(n: nat, d: nat, q: nat, r: nat)
    requires d >= 1 && n == q * d + r && r < d
    ensures n / d == q
  {
    var q', r' := n / d, n % d;
    assert n == q' * d + r' && r' < d;
    if q' < q {
      MulLe(q' + 1, q, d);
    } else if q' > q {
      MulLe(q + 1, q', d);
    }
  }

  lemma {:induction false} MulLe(a: nat, b: nat, d: nat)
    requires a <= b
    ensures a * d <= b * d
  {
    assert b * d == a * d + (b - a) * d;
  }
}
