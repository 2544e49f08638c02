/**
 The two cyclic redundancy checks: CRC-16/CCITT-FALSE over packets, in the bridge and in the
 agent, and the reflected CRC-32 that rolls along a transfer.
 */
module Checksums {
  import opened Bytes
  import opened Chains

  // --- CRC-16 ---

  predicate Top16(crc: bv16) {
    crc & 0x8000 != 0
  }

  predicate Odd16(crc: bv16) {
    crc & 1 != 0
  }

  function Shift16(crc: bv16): bv16 {
    if Top16(crc) then (crc << 1) ^ 0x1021 else crc << 1
  }

  function Add16(a: bv16, b: bv16): bv16 {
    a ^ b
  }

  function High16(b: byte): bv16 {
    (b as bv16) << 8
  }

  function Low16(b: byte): bv16 {
    b as bv16
  }

  function Step16(): (bv16, byte) -> bv16 {
    ShiftIn(Shift16, Add16, High16, 8)
  }

  /** The check of a message: each byte is added in at the top and shifted out. */
  function Crc16(data: bytes, initial: bv16): bv16 {
    Chain(Step16(), initial, data)
  }

  // One byte into the register: the inner loop of both programs.
  method FeedByte16(before: bv16, b: byte) returns (crc: bv16)
    ensures crc == Step16()(before, b)
  {
    hide Shift16, Top16, Add16, High16;
    crc := before ^ ((b as bv16) << 8);
    ghost var start := Add16(before, High16(b));
    AddHigh(before, b);
    for bit := 0 to 8
      invariant crc == Iterate(Shift16, start, bit)
    {
      OneShift(crc);
      if crc & 0x8000 != 0 {
        crc := (crc << 1) ^ 0x1021;
      } else {
        crc := crc << 1;
      }
    }
  }

  lemma AddHigh(crc: bv16, b: byte)
    ensures Add16(crc, High16(b)) == crc ^ ((b as bv16) << 8)
  {
  }

  lemma OneShift(crc: bv16)
    ensures Shift16(crc) == if crc & 0x8000 != 0 then (crc << 1) ^ 0x1021 else crc << 1
  {
  }

  /** `crc16_ccitt` of the bridge. */
  method Crc16Ccitt(data: bytes, initial: bv16 := 0xFFFF) returns (crc: bv16)
    ensures crc == Crc16(data, initial)
  {
    hide Step16;
    crc := initial;
    for i := 0 to |data|
      invariant crc == Crc16(data[..i], initial)
    {
      crc := FeedByte16(crc, data[i]);
      assert data[..i + 1][..i] == data[..i];
    }
    assert data[..|data|] == data;
  }

  /** `dm_crc16_ccitt` of the agent, over the first bytes of a buffer. */
  method DmCrc16Ccitt(data: array<byte>, length: nat) returns (crc: bv16)
    requires length <= data.Length
    ensures crc == Crc16(data[..length], 0xFFFF)
  {
    hide Step16;
    crc := 0xFFFF;
    for index := 0 to length
      invariant crc == Crc16(data[..index], 0xFFFF)
    {
      crc := FeedByte16(crc, data[index]);
      assert data[..index + 1][..index] == data[..index];
    }
  }

  // --- The register as a linear machine that forgets nothing ---

  function Unshift16(crc: bv16): bv16 {
    if Odd16(crc) then ((crc ^ 0x1021) >> 1) | 0x8000 else crc >> 1
  }

  lemma UnshiftTop(crc: bv16)
    requires Top16(crc)
    ensures Unshift16(Shift16(crc)) == crc
  {
  }

  lemma UnshiftNoTop(crc: bv16)
    requires !Top16(crc)
    ensures Unshift16(Shift16(crc)) == crc
  {
  }

  lemma Shift16Injective()
    ensures Injective(Shift16)
  {
    hide Shift16, Unshift16, Top16;
    forall x: bv16
      ensures Unshift16(Shift16(x)) == x
    {
      if Top16(x) {
        UnshiftTop(x);
      } else {
        UnshiftNoTop(x);
      }
    }
    forall x: bv16, y: bv16 | Shift16(x) == Shift16(y)
      ensures x == y
    {
      assert Unshift16(Shift16(x)) == Unshift16(Shift16(y));
    }
  }

  lemma AddTops(x: bv16, y: bv16)
    requires Top16(x) && Top16(y)
    ensures Shift16(Add16(x, y)) == Add16(Shift16(x), Shift16(y))
  {
  }

  lemma AddLeftTop(x: bv16, y: bv16)
    requires Top16(x) && !Top16(y)
    ensures Shift16(Add16(x, y)) == Add16(Shift16(x), Shift16(y))
  {
  }

  lemma AddRightTop(x: bv16, y: bv16)
    requires !Top16(x) && Top16(y)
    ensures Shift16(Add16(x, y)) == Add16(Shift16(x), Shift16(y))
  {
  }

  lemma AddNoTops(x: bv16, y: bv16)
    requires !Top16(x) && !Top16(y)
    ensures Shift16(Add16(x, y)) == Add16(Shift16(x), Shift16(y))
  {
  }

  lemma Shift16Additive()
    ensures Additive(Shift16, Add16)
  {
    hide Shift16, Top16, Add16;
    forall x: bv16, y: bv16
      ensures Shift16(Add16(x, y)) == Add16(Shift16(x), Shift16(y))
    {
      if Top16(x) {
        if Top16(y) {
          AddTops(x, y);
        } else {
          AddLeftTop(x, y);
        }
      } else {
        if Top16(y) {
          AddRightTop(x, y);
        } else {
          AddNoTops(x, y);
        }
      }
    }
  }

  lemma Add16Is(x: bv16, y: bv16)
    ensures Add16(x, y) == x ^ y
  {
  }

  lemma AddRaw(x: bv16, y: bv16, z: bv16)
    ensures Add16(x ^ y, z) == Add16(x, y ^ z)
  {
  }

  lemma AddAssociates(x: bv16, y: bv16, z: bv16)
    ensures Add16(Add16(x, y), z) == Add16(x, Add16(y, z))
  {
    hide *;
    Add16Is(x, y);
    Add16Is(y, z);
    AddRaw(x, y, z);
  }

  lemma AddTwice(x: bv16, z: bv16)
    ensures Add16(x ^ z, z) == x && Add16(z, z ^ x) == x
  {
  }

  lemma AddCancels(x: bv16, y: bv16, z: bv16)
    ensures Add16(x, z) == Add16(y, z) ==> x == y
    ensures Add16(z, x) == Add16(z, y) ==> x == y
  {
    hide *;
    Add16Is(x, z);
    Add16Is(y, z);
    Add16Is(z, x);
    Add16Is(z, y);
    AddTwice(x, z);
    AddTwice(y, z);
  }

  lemma Add16Cancels()
    ensures Associative(Add16) && Cancels(Add16)
  {
    hide Add16;
    forall x: bv16, y: bv16, z: bv16
      ensures Add16(Add16(x, y), z) == Add16(x, Add16(y, z))
      ensures (Add16(x, z) == Add16(y, z) ==> x == y) && (Add16(z, x) == Add16(z, y) ==> x == y)
    {
      AddAssociates(x, y, z);
      AddCancels(x, y, z);
    }
  }

  // Eight shifts carry a low byte to the top.
  lemma LowByteRises(b: byte)
    ensures Iterate(Shift16, Low16(b), 8) == High16(b)
  {
  }

  lemma PairInjective(a: byte, b: byte, a': byte, b': byte)
    ensures Add16(High16(a), Low16(b)) == Add16(High16(a'), Low16(b')) ==> a == a' && b == b'
  {
  }

  /** Messages of equal length that differ only in two adjacent bytes have different CRC-16 values. */
  lemma AdjacentBytesDetected(before: bytes, a: byte, b: byte, a': byte, b': byte, after: bytes, initial: bv16)
    requires [a, b] != [a', b']
    ensures Crc16(before + [a, b] + after, initial) != Crc16(before + [a', b'] + after, initial)
  {
    hide Shift16, Top16, Add16, High16, Low16, Iterate, ShiftIn, Chain;
    Shift16Injective();
    Shift16Additive();
    Add16Cancels();
    forall c: byte
      ensures Iterate(Shift16, Low16(c), 8) == High16(c)
    {
      LowByteRises(c);
    }
    PairInjective(a, b, a', b');
    assert a != a' || b != b';
    TwoSymbolsDetected(Shift16, Add16, High16, Low16, 8, initial, before, a, b, a', b', after);
  }

  // --- CRC-32 ---

  predicate Odd32(crc: bv32) {
    crc & 1 != 0
  }

  function Shift32(crc: bv32): bv32 {
    (crc >> 1) ^ (if Odd32(crc) then 0xEDB88320 else 0)
  }

  function Add32(a: bv32, b: bv32): bv32 {
    a ^ b
  }

  function Low32(b: byte): bv32 {
    b as bv32
  }

  function Step32(): (bv32, byte) -> bv32 {
    ShiftIn(Shift32, Add32, Low32, 8)
  }

  function Complement(crc: bv32): bv32 {
    crc ^ 0xFFFF_FFFF
  }

  /** The check as it rolls: from the value of what came before to the value with more data. */
  function Crc32(crc: bv32, data: bytes): bv32 {
    Complement(Chain(Step32(), Complement(crc), data))
  }

  lemma AddLow(crc: bv32, b: byte)
    ensures Add32(crc, Low32(b)) == crc ^ (b as bv32)
  {
  }

  lemma OddIs(crc: bv32)
    ensures Odd32(crc) <==> crc & 1 != 0
  {
  }

  lemma ShiftOdd(crc: bv32)
    requires Odd32(crc)
    ensures Shift32(crc) == (crc >> 1) ^ 0xEDB88320
  {
    hide Odd32;
  }

  lemma ShiftEven(crc: bv32)
    requires !Odd32(crc)
    ensures Shift32(crc) == (crc >> 1) ^ 0
  {
    hide Odd32;
  }

  lemma OneShift32(crc: bv32)
    ensures Shift32(crc) == (crc >> 1) ^ (if crc & 1 != 0 then 0xEDB88320 else 0)
  {
    hide *;
    OddIs(crc);
    if Odd32(crc) {
      ShiftOdd(crc);
    } else {
      ShiftEven(crc);
    }
  }

  method FeedByte32(before: bv32, b: byte) returns (crc: bv32)
    ensures crc == Step32()(before, b)
  {
    hide Shift32, Odd32, Add32, Low32;
    crc := before ^ (b as bv32);
    ghost var start := Add32(before, Low32(b));
    AddLow(before, b);
    for bit := 0 to 8
      invariant crc == Iterate(Shift32, start, bit)
    {
      OneShift32(crc);
      crc := (crc >> 1) ^ (if crc & 1 != 0 then 0xEDB88320 else 0);
    }
  }

  /** `crc32_update`: the running value after more data. */
  method Crc32Update(crc: bv32, data: bytes) returns (r: bv32)
    ensures r == Crc32(crc, data)
  {
    hide Step32;
    r := Complement(crc);
    for index := 0 to |data|
      invariant r == Chain(Step32(), Complement(crc), data[..index])
    {
      r := FeedByte32(r, data[index]);
      assert data[..index + 1][..index] == data[..index];
    }
    assert data[..|data|] == data;
    r := Complement(r);
  }

  lemma ComplementTwice(crc: bv32)
    ensures Complement(Complement(crc)) == crc
  {
  }

  /** Rolling the check along pieces of the data gives the check of the whole. */
  lemma Crc32Append(crc: bv32, a: bytes, b: bytes)
    ensures Crc32(Crc32(crc, a), b) == Crc32(crc, a + b)
  {
    hide Complement, Step32;
    ComplementTwice(Chain(Step32(), Complement(crc), a));
    ChainAppend(Step32(), Complement(crc), a, b);
  }

  lemma Crc32Empty(crc: bv32)
    ensures Crc32(crc, []) == crc
  {
    hide Complement;
    ComplementTwice(crc);
  }

  // --- A transfer with one wrong byte never shows the check of the right one ---

  function Unshift32(crc: bv32): bv32 {
    if Top32(crc) then ((crc ^ 0xEDB88320) << 1) | 1 else crc << 1
  }

  predicate Top32(crc: bv32) {
    crc & 0x8000_0000 != 0
  }

  lemma UnshiftOdd32(crc: bv32)
    requires Odd32(crc)
    ensures Unshift32(Shift32(crc)) == crc
  {
  }

  lemma UnshiftEven32(crc: bv32)
    requires !Odd32(crc)
    ensures Unshift32(Shift32(crc)) == crc
  {
  }

  lemma Shift32Injective()
    ensures Injective(Shift32)
  {
    hide Shift32, Unshift32, Odd32;
    forall x: bv32
      ensures Unshift32(Shift32(x)) == x
    {
      if Odd32(x) {
        UnshiftOdd32(x);
      } else {
        UnshiftEven32(x);
      }
    }
    forall x: bv32, y: bv32 | Shift32(x) == Shift32(y)
      ensures x == y
    {
      assert Unshift32(Shift32(x)) == Unshift32(Shift32(y));
    }
  }

  lemma Add32Cancels()
    ensures Cancels(Add32)
  {
  }

  lemma Low32Injective(b: byte, c: byte)
    ensures Low32(b) == Low32(c) ==> b == c
  {
  }

  lemma Step32Keeps()
    ensures KeepsState(Step32()) && KeepsSymbol(Step32())
  {
    hide Shift32, Add32, Low32;
    Shift32Injective();
    Add32Cancels();
    ShiftInKeeps(Shift32, Add32, Low32, 8);
    forall x: bv32, b: byte, c: byte | Step32()(x, b) == Step32()(x, c)
      ensures b == c
    {
      IterateInjective(Shift32, Add32(x, Low32(b)), Add32(x, Low32(c)), 8);
      Low32Injective(b, c);
    }
  }

  lemma ComplementInjective(x: bv32, y: bv32)
    requires Complement(x) == Complement(y)
    ensures x == y
  {
    hide Complement;
    ComplementTwice(x);
    ComplementTwice(y);
  }

  /** A file that differs in exactly one byte has a different CRC-32. */
  lemma OneByteDetected(crc: bv32, before: bytes, b: byte, c: byte, after: bytes)
    requires b != c
    ensures Crc32(crc, before + [b] + after) != Crc32(crc, before + [c] + after)
  {
    hide Complement, Step32, Chain;
    Step32Keeps();
    OneSymbolDetected(Step32(), Complement(crc), before, b, c, after);
    if Crc32(crc, before + [b] + after) == Crc32(crc, before + [c] + after) {
      ComplementInjective(Chain(Step32(), Complement(crc), before + [b] + after),
                          Chain(Step32(), Complement(crc), before + [c] + after));
    }
  }
}
