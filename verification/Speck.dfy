/**
 The Speck32/64 block cipher. The reference is the published recursion of the key schedule; the
 agent expands it once into a table with a rotating slot, the bridge runs it beside the rounds.
 */
module Speck {
  import opened Bytes

  // --- Sixteen-bit words and their two bytes, lowest first ---

  function Word16(low: byte, high: byte): bv16 {
    (low as bv16) | ((high as bv16) << 8)
  }

  function LowByte(w: bv16): byte {
    (w & 0xFF) as byte
  }

  function HighByte(w: bv16): byte {
    (w >> 8) as byte
  }

  lemma WordOfBytes(w: bv16)
    ensures Word16(LowByte(w), HighByte(w)) == w
  {
  }

  lemma BytesOfWord(low: byte, high: byte)
    ensures LowByte(Word16(low, high)) == low && HighByte(Word16(low, high)) == high
  {
  }

  function Ror7(x: bv16): bv16 {
    (x >> 7) | (x << 9)
  }

  function Rol7(x: bv16): bv16 {
    (x << 7) | (x >> 9)
  }

  function Rol2(x: bv16): bv16 {
    (x << 2) | (x >> 14)
  }

  function Ror2(x: bv16): bv16 {
    (x >> 2) | (x << 14)
  }

  function Plus(x: bv16, y: bv16): bv16 {
    x + y
  }

  function Minus(x: bv16, y: bv16): bv16 {
    x - y
  }

  function Xor(x: bv16, y: bv16): bv16 {
    x ^ y
  }

  lemma RotationsUndo(x: bv16)
    ensures Rol7(Ror7(x)) == x && Ror7(Rol7(x)) == x && Ror2(Rol2(x)) == x && Rol2(Ror2(x)) == x
  {
  }

  lemma PlusIs(x: bv16, y: bv16)
    ensures Plus(x, y) == x + y
  {
  }

  lemma MinusIs(x: bv16, y: bv16)
    ensures Minus(x, y) == x - y
  {
  }

  lemma MinusOfSum(x: bv16, y: bv16)
    ensures Minus(x + y, y) == x
  {
  }

  lemma PlusOfDifference(x: bv16, y: bv16)
    ensures Plus(x - y, y) == x
  {
  }

  lemma MinusUndoes(x: bv16, y: bv16)
    ensures Minus(Plus(x, y), y) == x
  {
    hide *;
    PlusIs(x, y);
    MinusOfSum(x, y);
  }

  lemma PlusUndoes(x: bv16, y: bv16)
    ensures Plus(Minus(x, y), y) == x
  {
    hide *;
    MinusIs(x, y);
    PlusOfDifference(x, y);
  }

  lemma XorUndoes(x: bv16, y: bv16)
    ensures Xor(Xor(x, y), y) == x
  {
  }

  // --- Blocks and keys ---

  datatype Block = Block(left: bv16, right: bv16)

  datatype Key = Key(k0: bv16, l0: bv16, l1: bv16, l2: bv16)

  function ToBlock(b: bytes): Block
    requires |b| == 4
  {
    Block(Word16(b[0], b[1]), Word16(b[2], b[3]))
  }

  function ToBytes(b: Block): (r: bytes)
    ensures |r| == 4
  {
    [LowByte(b.left), HighByte(b.left), LowByte(b.right), HighByte(b.right)]
  }

  function ToKey(b: bytes): Key
    requires |b| == 8
  {
    Key(Word16(b[0], b[1]), Word16(b[2], b[3]), Word16(b[4], b[5]), Word16(b[6], b[7]))
  }

  lemma BlockOfBytes(b: Block)
    ensures ToBlock(ToBytes(b)) == b
  {
    hide Word16, LowByte, HighByte;
    WordOfBytes(b.left);
    WordOfBytes(b.right);
  }

  lemma BytesOfBlock(b: bytes)
    requires |b| == 4
    ensures ToBytes(ToBlock(b)) == b
  {
    hide Word16, LowByte, HighByte;
    BytesOfWord(b[0], b[1]);
    BytesOfWord(b[2], b[3]);
  }

  // --- The reference ---

  const ROUNDS := 22

  function Counter(i: nat): bv16
    requires i < ROUNDS
  {
    i as bv16
  }

  function Round(k: bv16, b: Block): Block {
    var left := Xor(Plus(Ror7(b.left), b.right), k);
    Block(left, Xor(Rol2(b.right), left))
  }

  // The two interleaved recursions of the key schedule.
  function RoundKey(key: Key, i: nat): bv16
    requires i < ROUNDS
    decreases 2 * i
  {
    if i == 0 then key.k0 else Xor(Rol2(RoundKey(key, i - 1)), Schedule(key, i + 2))
  }

  function Schedule(key: Key, i: nat): bv16
    requires i < ROUNDS + 2
    decreases if i < 3 then 0 else 2 * i - 5
  {
    if i == 0 then key.l0
    else if i == 1 then key.l1
    else if i == 2 then key.l2
    else Xor(Plus(Ror7(Schedule(key, i - 3)), RoundKey(key, i - 3)), Counter(i - 3))
  }

  function Rounds(key: Key, b: Block, n: nat): Block
    requires n <= ROUNDS
  {
    if n == 0 then b else Round(RoundKey(key, n - 1), Rounds(key, b, n - 1))
  }

  function Encrypt(key: Key, b: Block): Block {
    Rounds(key, b, ROUNDS)
  }

  // --- Every key gives a permutation of the blocks ---

  function Unround(k: bv16, b: Block): Block {
    var right := Ror2(Xor(b.right, b.left));
    Block(Rol7(Minus(Xor(b.left, k), right)), right)
  }

  function Unrounds(key: Key, b: Block, n: nat): Block
    requires n <= ROUNDS
    decreases n
  {
    if n == 0 then b else Unrounds(key, Unround(RoundKey(key, n - 1), b), n - 1)
  }

  function Decrypt(key: Key, b: Block): Block {
    Unrounds(key, b, ROUNDS)
  }

  lemma UnroundUndoes(k: bv16, b: Block)
    ensures Unround(k, Round(k, b)) == b
  {
    hide Ror7, Rol7, Ror2, Rol2, Plus, Minus, Xor;
    var sum := Plus(Ror7(b.left), b.right);
    XorUndoes(sum, k);
    XorUndoes(Rol2(b.right), Xor(sum, k));
    RotationsUndo(b.right);
    MinusUndoes(Ror7(b.left), b.right);
    RotationsUndo(b.left);
  }

  lemma RoundUndoes(k: bv16, b: Block)
    ensures Round(k, Unround(k, b)) == b
  {
    hide Ror7, Rol7, Ror2, Rol2, Plus, Minus, Xor;
    var x := Xor(b.right, b.left);
    var right := Ror2(x);
    RotationsUndo(Minus(Xor(b.left, k), right));
    PlusUndoes(Xor(b.left, k), right);
    XorUndoes(b.left, k);
    RotationsUndo(x);
    XorUndoes(b.right, b.left);
  }

  lemma {:induction false} UnroundsUndo(key: Key, b: Block, n: nat)
    requires n <= ROUNDS
    ensures Unrounds(key, Rounds(key, b, n), n) == b
  {
    hide Round, Unround, RoundKey;
    if n > 0 {
      UnroundUndoes(RoundKey(key, n - 1), Rounds(key, b, n - 1));
      UnroundsUndo(key, b, n - 1);
    }
  }

  lemma {:induction false} RoundsUndo(key: Key, b: Block, n: nat)
    requires n <= ROUNDS
    ensures Rounds(key, Unrounds(key, b, n), n) == b
    decreases n
  {
    hide Round, Unround, RoundKey;
    if n > 0 {
      RoundUndoes(RoundKey(key, n - 1), b);
      RoundsUndo(key, Unround(RoundKey(key, n - 1), b), n - 1);
    }
  }

  /** Encryption under any key is a permutation of the blocks: decryption undoes it both ways. */
  lemma Permutation(key: Key, b: Block)
    ensures Decrypt(key, Encrypt(key, b)) == b
    ensures Encrypt(key, Decrypt(key, b)) == b
  {
    hide Rounds, Unrounds;
    UnroundsUndo(key, b, ROUNDS);
    RoundsUndo(key, b, ROUNDS);
  }

  // --- The agent: a table of round keys, and a block rewritten in place ---

  method StoreWord(output: array<byte>, offset: nat, value: bv16)
    requires offset + 2 <= output.Length
    modifies output
    ensures output[..] == old(output[..offset]) + [LowByte(value), HighByte(value)] + old(output[offset + 2..])
  {
    output[offset] := (value & 0xFF) as byte;
    output[offset + 1] := (value >> 8) as byte;
  }

  method LoadWord(value: array<byte>, offset: nat) returns (w: bv16)
    requires offset + 2 <= value.Length
    ensures w == Word16(value[offset], value[offset + 1])
  {
    w := (value[offset] as bv16) | ((value[offset + 1] as bv16) << 8);
  }

  // The slot after one of the three slots of the rotating schedule.
  function After(slot: nat): nat {
    if slot + 1 == 3 then 0 else slot + 1
  }

  lemma KeyStart(key: Key)
    ensures RoundKey(key, 0) == key.k0
    ensures Schedule(key, 0) == key.l0 && Schedule(key, 1) == key.l1 && Schedule(key, 2) == key.l2
  {
  }

  lemma KeyStep(key: Key, i: nat)
    requires i + 1 < ROUNDS
    ensures Schedule(key, i + 3) == Xor(Plus(Ror7(Schedule(key, i)), RoundKey(key, i)), Counter(i))
    ensures RoundKey(key, i + 1) == Xor(Rol2(RoundKey(key, i)), Schedule(key, i + 3))
  {
    hide Ror7, Rol2, Plus, Xor, Counter;
  }

  method Expand(bytes: array<byte>, offset: nat, roundKeys: array<bv16>)
    requires offset + 8 <= bytes.Length && roundKeys.Length == ROUNDS
    modifies roundKeys
    ensures var key := ToKey(bytes[offset..offset + 8]);
      forall i :: 0 <= i < ROUNDS ==> roundKeys[i] == RoundKey(key, i)
  {
    hide Word16, Ror7, Rol2, Plus, Xor, Counter, RoundKey, Schedule;
    ghost var key := ToKey(bytes[offset..offset + 8]);
    var roundKey := LoadWord(bytes, offset);
    var schedule := new bv16[3];
    schedule[0] := LoadWord(bytes, offset + 2);
    schedule[1] := LoadWord(bytes, offset + 4);
    schedule[2] := LoadWord(bytes, offset + 6);
    var slot: nat := 0;
    KeyStart(key);
    roundKeys[0] := roundKey;
    for round := 0 to ROUNDS - 1
      invariant slot < 3
      invariant roundKey == RoundKey(key, round)
      invariant schedule[slot] == Schedule(key, round)
      invariant schedule[After(slot)] == Schedule(key, round + 1)
      invariant schedule[After(After(slot))] == Schedule(key, round + 2)
      invariant forall i :: 0 <= i <= round ==> roundKeys[i] == RoundKey(key, i)
      invariant fresh(schedule)
    {
      KeyStep(key, round);
      var nextWord := Plus(Ror7(schedule[slot]), roundKey);
      nextWord := Xor(nextWord, Counter(round));
      schedule[slot] := nextWord;
      slot := slot + 1;
      if slot == 3 {
        slot := 0;
      }
      roundKey := Xor(Rol2(roundKey), nextWord);
      roundKeys[round + 1] := roundKey;
    }
  }

  method EncryptInPlace(block: array<byte>, roundKeys: array<bv16>, ghost key: Key)
    requires block.Length == 4 && roundKeys.Length == ROUNDS
    requires forall i :: 0 <= i < ROUNDS ==> roundKeys[i] == RoundKey(key, i)
    modifies block
    ensures ToBlock(block[..]) == Encrypt(key, old(ToBlock(block[..])))
  {
    hide Word16, LowByte, HighByte, Ror7, Rol2, Plus, Xor, RoundKey;
    ghost var start := ToBlock(block[..]);
    var left := LoadWord(block, 0);
    var right := LoadWord(block, 2);
    for round := 0 to ROUNDS
      invariant Block(left, right) == Rounds(key, start, round)
      invariant unchanged(block)
    {
      left := Plus(Ror7(left), right);
      left := Xor(left, roundKeys[round]);
      right := Rol2(right);
      right := Xor(right, left);
    }
    StoreWord(block, 0, left);
    StoreWord(block, 2, right);
    assert block[..] == ToBytes(Block(left, right));
    BlockOfBytes(Block(left, right));
  }
}
