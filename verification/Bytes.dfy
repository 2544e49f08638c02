/** Bytes, and the little-endian fields every wire structure of the system is made of. */
module Bytes {

  type byte = bv8
  type bytes = seq<byte>

  // An unsigned 16-bit and an unsigned 32-bit quantity.
  type Word = x: int | 0 <= x < 0x1_0000
  type Long = x: int | 0 <= x < 0x1_0000_0000

  function Min(a: int, b: int): int {
    if a < b then a else b
  }

  function Max(a: int, b: int): int {
    if a < b then b else a
  }

  // A byte from its bits, lowest first.
  function Octet(b0: bool, b1: bool, b2: bool, b3: bool, b4: bool, b5: bool, b6: bool, b7: bool): byte {
    (if b0 then 0x01 else 0) | (if b1 then 0x02 else 0) | (if b2 then 0x04 else 0) | (if b3 then 0x08 else 0)
    | (if b4 then 0x10 else 0) | (if b5 then 0x20 else 0) | (if b6 then 0x40 else 0) | (if b7 then 0x80 else 0)
  }

  function Sum(b0: bool, b1: bool, b2: bool, b3: bool, b4: bool, b5: bool, b6: bool, b7: bool): (n: int)
    ensures 0 <= n < 256
  {
    (if b0 then 1 else 0) + (if b1 then 2 else 0) + (if b2 then 4 else 0) + (if b3 then 8 else 0)
    + (if b4 then 16 else 0) + (if b5 then 32 else 0) + (if b6 then 64 else 0) + (if b7 then 128 else 0)
  }

  function Odd(n: int): bool {
    n % 2 == 1
  }

  function Half(n: int): int {
    n / 2
  }

  // The byte a truncating cast keeps of an integer.
  function Low(n: int): byte {
    var n1 := Half(n);
    var n2 := Half(n1);
    var n3 := Half(n2);
    var n4 := Half(n3);
    var n5 := Half(n4);
    var n6 := Half(n5);
    Octet(Odd(n), Odd(n1), Odd(n2), Odd(n3), Odd(n4), Odd(n5), Odd(n6), Odd(Half(n6)))
  }

  // The integer a byte stands for.
  function Value(b: byte): (n: int)
    ensures 0 <= n < 256
  {
    Sum(b & 0x01 != 0, b & 0x02 != 0, b & 0x04 != 0, b & 0x08 != 0,
        b & 0x10 != 0, b & 0x20 != 0, b & 0x40 != 0, b & 0x80 != 0)
  }

  lemma OctetBits(b0: bool, b1: bool, b2: bool, b3: bool, b4: bool, b5: bool, b6: bool, b7: bool)
    ensures var b := Octet(b0, b1, b2, b3, b4, b5, b6, b7);
      && (b & 0x01 != 0) == b0 && (b & 0x02 != 0) == b1 && (b & 0x04 != 0) == b2 && (b & 0x08 != 0) == b3
      && (b & 0x10 != 0) == b4 && (b & 0x20 != 0) == b5 && (b & 0x40 != 0) == b6 && (b & 0x80 != 0) == b7
  {
  }

  lemma BitsOctet(b: byte)
    ensures b == Octet(b & 0x01 != 0, b & 0x02 != 0, b & 0x04 != 0, b & 0x08 != 0,
                       b & 0x10 != 0, b & 0x20 != 0, b & 0x40 != 0, b & 0x80 != 0)
  {
  }

  function Digit(b: bool): int {
    if b then 1 else 0
  }

  lemma Halve(n: int)
    ensures n == 2 * Half(n) + Digit(Odd(n))
  {
  }

  lemma Doubled(h: int, b: bool)
    ensures Half(2 * h + Digit(b)) == h && Odd(2 * h + Digit(b)) == b
  {
  }

  lemma Remainder(n: int, q: int, r: int)
    requires n == 256 * q + r && 0 <= r < 256
    ensures n % 256 == r && n / 256 == q
  {
  }

  // An integer is its eight lowest bits and a multiple of 256.
  lemma EightBits(n: int) returns (q: int)
    ensures n == 256 * q + Value(Low(n))
  {
    var n1 := Half(n);
    var n2 := Half(n1);
    var n3 := Half(n2);
    var n4 := Half(n3);
    var n5 := Half(n4);
    var n6 := Half(n5);
    var n7 := Half(n6);
    Halve(n);
    Halve(n1);
    Halve(n2);
    Halve(n3);
    Halve(n4);
    Halve(n5);
    Halve(n6);
    Halve(n7);
    OctetBits(Odd(n), Odd(n1), Odd(n2), Odd(n3), Odd(n4), Odd(n5), Odd(n6), Odd(n7));
    q := Half(n7);
  }

  lemma LowInverse(n: int)
    ensures Value(Low(n)) == n % 256
  {
    hide Low, Value;
    var q := EightBits(n);
    Remainder(n, q, Value(Low(n)));
  }

  // A byte survives, whatever multiple of 256 is added to it.
  lemma ByteInverse(b: byte, q: int)
    ensures Low(Value(b) + 256 * q) == b
  {
    var b0, b1, b2, b3 := b & 0x01 != 0, b & 0x02 != 0, b & 0x04 != 0, b & 0x08 != 0;
    var b4, b5, b6, b7 := b & 0x10 != 0, b & 0x20 != 0, b & 0x40 != 0, b & 0x80 != 0;
    var h7 := 2 * q + Digit(b7);
    var h6 := 2 * h7 + Digit(b6);
    var h5 := 2 * h6 + Digit(b5);
    var h4 := 2 * h5 + Digit(b4);
    var h3 := 2 * h4 + Digit(b3);
    var h2 := 2 * h3 + Digit(b2);
    var h1 := 2 * h2 + Digit(b1);
    assert Value(b) + 256 * q == 2 * h1 + Digit(b0);
    Doubled(h1, b0);
    Doubled(h2, b1);
    Doubled(h3, b2);
    Doubled(h4, b3);
    Doubled(h5, b4);
    Doubled(h6, b5);
    Doubled(h7, b6);
    Doubled(q, b7);
    BitsOctet(b);
  }

  function Zeros(n: nat): (r: bytes)
    ensures |r| == n
  {
    seq(n, i => 0)
  }

  function PutU16(n: Word): (r: bytes)
    ensures |r| == 2
  {
    [Low(n), Low(n / 256)]
  }

  function GetU16(b: bytes): (n: Word)
    requires |b| == 2
  {
    Value(b[0]) + 256 * Value(b[1])
  }

  // A 32-bit field is its low word followed by its high word.
  function PutU32(n: Long): (r: bytes)
    ensures |r| == 4
  {
    PutU16(n % 0x1_0000) + PutU16(n / 0x1_0000)
  }

  function GetU32(b: bytes): (n: Long)
    requires |b| == 4
  {
    GetU16(b[..2]) + 0x1_0000 * GetU16(b[2..])
  }

  lemma U16RoundTrip(n: Word)
    ensures GetU16(PutU16(n)) == n
  {
    hide Low, Value;
    LowInverse(n);
    LowInverse(n / 256);
    assert n == 256 * (n / 256) + n % 256;
    Remainder(n / 256, 0, n / 256);
  }

  lemma U16Image(b: bytes)
    requires |b| == 2
    ensures PutU16(GetU16(b)) == b
  {
    hide Low, Value;
    Remainder(GetU16(b), Value(b[1]), Value(b[0]));
    ByteInverse(b[0], Value(b[1]));
    ByteInverse(b[1], 0);
  }

  lemma U32RoundTrip(n: Long)
    ensures GetU32(PutU32(n)) == n
  {
    hide GetU16, PutU16;
    var b := PutU32(n);
    assert b[..2] == PutU16(n % 0x1_0000) && b[2..] == PutU16(n / 0x1_0000);
    U16RoundTrip(n % 0x1_0000);
    U16RoundTrip(n / 0x1_0000);
  }

  function Ascii(s: string): (r: bytes)
    ensures |r| == |s|
  {
    seq(|s|, i requires 0 <= i < |s| => Low(s[i] as int))
  }
}
