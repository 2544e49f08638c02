/**
 The packet authenticator: a CBC-MAC over Speck32/64 with length strengthening. The agent feeds
 it a byte at a time with round keys expanded beforehand; the bridge pads the whole message and
 runs the key schedule beside the rounds. Both compute the same function.
 */
module PacketMac {
  import opened Bytes
  import opened Chains
  import opened Speck
  import opened Wrappers

  // --- The function ---

  // Zero bytes after the 0x80 marker, up to a whole block.
  function ZeroCount(length: nat): (n: nat)
    ensures n < 4
  {
    (4 - (length + 1) % 4) % 4
  }

  lemma ZerosFill(length: nat) returns (k: nat)
    ensures length + 1 + ZeroCount(length) == 4 * k
  {
    k := (length + 1 + ZeroCount(length)) / 4;
  }

  function Trailer(length: Long): (r: bytes)
    ensures |r| == ZeroCount(length) + 5
  {
    hide ZeroCount, PutU32;
    [0x80] + Zeros(ZeroCount(length)) + PutU32(length)
  }

  function Padded(data: bytes): bytes
    requires |data| < 0x1_0000_0000
  {
    data + Trailer(|data|)
  }

  // The whole blocks of a string of bytes.
  function Blocks(s: bytes): seq<Block> {
    if |s| < 4 then [] else [ToBlock(s[..4])] + Blocks(s[4..])
  }

  function XorBlock(a: Block, b: Block): Block {
    Block(Xor(a.left, b.left), Xor(a.right, b.right))
  }

  function CbcStep(key: Key): (Block, Block) -> Block {
    (state, block) => Encrypt(key, XorBlock(state, block))
  }

  const ZERO := Block(0, 0)

  function Mac(key: bytes, data: bytes): Block
    requires |key| == 16 && |data| < 0x1_0000_0000
  {
    Encrypt(ToKey(key[8..]), Chain(CbcStep(ToKey(key[..8])), ZERO, Blocks(Padded(data))))
  }

  // The tag as the four bytes it travels in.
  function Tag(key: bytes, data: bytes): (r: bytes)
    requires |key| == 16 && |data| < 0x1_0000_0000
    ensures |r| == 4
  {
    ToBytes(Mac(key, data))
  }

  lemma DropHead(a: bytes, b: bytes)
    requires |a| >= 4
    ensures (a + b)[..4] == a[..4] && (a + b)[4..] == a[4..] + b
  {
  }

  lemma {:induction false} BlocksAppend(a: bytes, b: bytes, k: nat)
    requires |a| == 4 * k
    ensures Blocks(a + b) == Blocks(a) + Blocks(b)
  {
    hide ToBlock;
    if k == 0 {
      assert a + b == b;
    } else {
      BlocksAppend(a[4..], b, k - 1);
      DropHead(a, b);
      assert Blocks(a + b) == [ToBlock(a[..4])] + Blocks(a[4..] + b);
    }
  }

  lemma OneBlock(b: bytes)
    requires |b| == 4
    ensures Blocks(b) == [ToBlock(b)]
  {
    hide ToBlock;
    assert b[..4] == b;
  }

  // --- Every key: no step of the chain forgets the state or the block ---

  lemma XorBlockCancels(a: Block, b: Block, c: Block)
    ensures XorBlock(a, c) == XorBlock(b, c) ==> a == b
    ensures XorBlock(c, a) == XorBlock(c, b) ==> a == b
  {
    hide Xor;
    XorUndoes(a.left, c.left);
    XorUndoes(b.left, c.left);
    XorUndoes(a.right, c.right);
    XorUndoes(b.right, c.right);
    XorCommutes(c.left, a.left);
    XorCommutes(c.left, b.left);
    XorCommutes(c.right, a.right);
    XorCommutes(c.right, b.right);
  }

  lemma XorCommutes(x: bv16, y: bv16)
    ensures Xor(x, y) == Xor(y, x)
  {
  }

  lemma CbcStepKeeps(key: Key)
    ensures KeepsState(CbcStep(key)) && KeepsSymbol(CbcStep(key))
  {
    hide Encrypt, Decrypt, XorBlock;
    var step := CbcStep(key);
    forall x: Block, y: Block, b: Block | step(x, b) == step(y, b)
      ensures x == y
    {
      Permutation(key, XorBlock(x, b));
      Permutation(key, XorBlock(y, b));
      XorBlockCancels(x, y, b);
    }
    forall x: Block, b: Block, c: Block | step(x, b) == step(x, c)
      ensures b == c
    {
      Permutation(key, XorBlock(x, b));
      Permutation(key, XorBlock(x, c));
      XorBlockCancels(b, c, x);
    }
  }

  lemma EncryptInjective(key: Key, a: Block, b: Block)
    requires Encrypt(key, a) == Encrypt(key, b)
    ensures a == b
  {
    hide Encrypt, Decrypt;
    Permutation(key, a);
    Permutation(key, b);
  }

  lemma ToBlockInjective(a: bytes, b: bytes)
    requires |a| == 4 && |b| == 4 && ToBlock(a) == ToBlock(b)
    ensures a == b
  {
    hide ToBlock, ToBytes;
    BytesOfBlock(a);
    BytesOfBlock(b);
  }

  // Equal outside the four bytes that start at `at`.
  ghost predicate AlikeOutside(a: bytes, b: bytes, at: nat) {
    |a| == |b| && forall i :: 0 <= i < |a| && !(at <= i < at + 4) ==> a[i] == b[i]
  }

  lemma MiddleBlock(before: bytes, middle: bytes, after: bytes, k: nat)
    requires |before| == 4 * k && |middle| == 4
    ensures Blocks(before + middle + after) == Blocks(before) + [ToBlock(middle)] + Blocks(after)
  {
    hide ToBlock, Blocks;
    BlocksAppend(before + middle, after, k + 1);
    BlocksAppend(before, middle, k);
    OneBlock(middle);
  }

  lemma SomewhereOther(data: bytes, other: bytes) returns (i: nat)
    requires |data| == |other| && data != other
    ensures i < |data| && data[i] != other[i]
  {
    i := 0;
    assert data == data[..|data|] && other == other[..|data|];
    while i < |data| && data[i] == other[i]
      invariant i <= |data| && data[..i] == other[..i]
    {
      i := i + 1;
    }
  }

  // With the same trailer, such messages are the same blocks but for one.
  lemma SplitAround(data: bytes, other: bytes, trailer: bytes, k: nat, n: nat)
      returns (before: bytes, b: bytes, c: bytes, after: bytes)
    requires AlikeOutside(data, other, 4 * k) && data != other
    requires |trailer| >= 4 && |data| + |trailer| == 4 * n
    ensures |before| == 4 * k && |b| == 4 && |c| == 4 && b != c
    ensures data + trailer == before + b + after && other + trailer == before + c + after
  {
    var p, q, at := data + trailer, other + trailer, 4 * k;
    var i := SomewhereOther(data, other);
    BlockFits(i, k, |p|, n);
    before, b, c, after := p[..at], p[at..at + 4], q[at..at + 4], p[at + 4..];
    assert b[i - at] != c[i - at];
    SameAround(p, q, at);
  }

  lemma BlockFits(i: nat, k: nat, length: nat, n: nat)
    requires 4 * k <= i < 4 * k + 4 && i < length == 4 * n
    ensures 4 * k + 4 <= length
  {
  }

  lemma SameAround(p: bytes, q: bytes, at: nat)
    requires AlikeOutside(p, q, at) && at + 4 <= |p|
    ensures p == p[..at] + p[at..at + 4] + p[at + 4..]
    ensures q == p[..at] + q[at..at + 4] + p[at + 4..]
  {
    assert q[..at] == p[..at];
    assert q[at + 4..] == p[at + 4..];
  }

  /**
   Messages of equal length that differ in exactly one four-byte block have different
   authenticators, under every key.
   */
  lemma OneBlockDetected(key: bytes, data: bytes, other: bytes, k: nat)
    requires |key| == 16 && |data| < 0x1_0000_0000
    requires AlikeOutside(data, other, 4 * k) && data != other
    ensures Mac(key, data) != Mac(key, other)
    ensures Tag(key, data) != Tag(key, other)
  {
    hide ToBlock, ToBytes, Encrypt, CbcStep, Chain, ToKey, Trailer, Blocks, ZeroCount;
    var n := ZerosFill(|data|);
    var before, b, c, after := SplitAround(data, other, Trailer(|data|), k, n + 1);
    var chainKey := ToKey(key[..8]);
    if ToBlock(b) == ToBlock(c) {
      ToBlockInjective(b, c);
      assert false;
    }
    MiddleBlock(before, b, after, k);
    MiddleBlock(before, c, after, k);
    CbcStepKeeps(chainKey);
    OneSymbolDetected(CbcStep(chainKey), ZERO, Blocks(before), ToBlock(b), ToBlock(c), Blocks(after));
    if Mac(key, data) == Mac(key, other) {
      EncryptInjective(ToKey(key[8..]), Chain(CbcStep(chainKey), ZERO, Blocks(Padded(data))),
                       Chain(CbcStep(chainKey), ZERO, Blocks(Padded(other))));
    }
    BlockOfBytes(Mac(key, data));
    BlockOfBytes(Mac(key, other));
  }

  // --- The agent: one byte at a time ---

  function State(key: Key, fed: bytes): Block {
    Chain(CbcStep(key), ZERO, Blocks(fed))
  }

  lemma StateAtBlock(key: Key, done: bytes, block: bytes, k: nat)
    requires |done| == 4 * k && |block| == 4
    ensures State(key, done + block) == Encrypt(key, XorBlock(State(key, done), ToBlock(block)))
  {
    hide Encrypt, XorBlock, ToBlock, Blocks;
    BlocksAppend(done, block, k);
    OneBlock(block);
    ChainOne(CbcStep(key), ZERO, Blocks(done), ToBlock(block));
  }

  function XorByte(a: byte, b: byte): byte {
    a ^ b
  }

  lemma XorBytes(a0: byte, a1: byte, b0: byte, b1: byte)
    ensures Word16(XorByte(a0, b0), XorByte(a1, b1)) == Xor(Word16(a0, a1), Word16(b0, b1))
  {
  }

  class MacContext {
    const state: array<byte>
    const block: array<byte>
    var used: nat
    const roundKeys: array<bv16>
    ghost var key: Key
    ghost var done: bytes
    ghost var blocks: nat

    // All the bytes fed so far: those in whole blocks, and those still waiting.
    ghost function Fed(): bytes
      requires used <= block.Length
      reads this, block
    {
      done + block[..used]
    }

    ghost predicate Valid()
      reads this, state, block, roundKeys
    {
      && state.Length == 4 && block.Length == 4 && roundKeys.Length == ROUNDS
      && state != block
      && (forall i :: 0 <= i < ROUNDS ==> roundKeys[i] == RoundKey(key, i))
      && ToBlock(state[..]) == State(key, done)
      && |done| == 4 * blocks && used < 4
    }

    constructor (keyBytes: array<byte>)
      requires keyBytes.Length == 16
      ensures Valid() && Fed() == [] && key == ToKey(keyBytes[..8])
      ensures fresh(state) && fresh(block) && fresh(roundKeys)
    {
      state := new byte[4](i => 0);
      block := new byte[4](i => 0);
      roundKeys := new bv16[ROUNDS](i => 0);
      used := 0;
      key := ToKey(keyBytes[..8]);
      done := [];
      blocks := 0;
      new;
      hide Encrypt, RoundKey;
      Expand(keyBytes, 0, roundKeys);
      assert keyBytes[0..0 + 8] == keyBytes[..8];
      assert Blocks([]) == [];
      ZeroBytes();
      assert state[..] == [0, 0, 0, 0];
    }

    // `dm_mac_block`
    method Absorb()
      requires state.Length == 4 && block.Length == 4 && roundKeys.Length == ROUNDS && state != block
      requires forall i :: 0 <= i < ROUNDS ==> roundKeys[i] == RoundKey(key, i)
      modifies state, this`used
      ensures used == 0
      ensures ToBlock(state[..]) == Encrypt(key, XorBlock(old(ToBlock(state[..])), ToBlock(block[..])))
    {
      hide Encrypt, RoundKey, Word16, Xor, XorByte;
      ghost var a, b := state[..], block[..];
      for index := 0 to 4
        invariant forall j :: 0 <= j < index ==> state[j] == XorByte(a[j], b[j])
        invariant forall j :: index <= j < 4 ==> state[j] == a[j]
        invariant block[..] == b
      {
        state[index] := XorByte(state[index], block[index]);
      }
      XorBytes(a[0], a[1], b[0], b[1]);
      XorBytes(a[2], a[3], b[2], b[3]);
      EncryptInPlace(state, roundKeys, key);
      used := 0;
    }

    // `dm_mac_feed`
    method Feed(value: byte)
      requires Valid()
      modifies this`used, this`done, this`blocks, state, block
      ensures Valid() && Fed() == old(Fed()) + [value]
    {
      hide Encrypt, XorBlock, ToBlock, State, RoundKey;
      block[used] := value;
      used := used + 1;
      assert block[..used] == old(block[..used]) + [value];
      if used == 4 {
        assert block[..] == block[..used];
        StateAtBlock(key, done, block[..], blocks);
        Absorb();
        done := done + block[..];
        blocks := blocks + 1;
      }
    }
  }

  method FeedAll(context: MacContext, data: bytes)
    requires context.Valid()
    modifies context`used, context`done, context`blocks, context.state, context.block
    ensures context.Valid() && context.Fed() == old(context.Fed()) + data
  {
    hide ToBlock, State, RoundKey;
    for index := 0 to |data|
      invariant context.Valid() && context.Fed() == old(context.Fed()) + data[..index]
    {
      context.Feed(data[index]);
    }
  }

  lemma ZeroBytes()
    ensures ToBlock([0, 0, 0, 0]) == ZERO
  {
  }

  // The 32-bit number of four bytes, lowest first.
  function Word32(b: bytes): bv32
    requires |b| == 4
  {
    (b[0] as bv32) | ((b[1] as bv32) << 8) | ((b[2] as bv32) << 16) | ((b[3] as bv32) << 24)
  }

  lemma PaddingGrows(length: nat, n: nat, k: nat, used: nat)
    requires length + 1 + n == 4 * k + used && 0 < used < 4 && n <= ZeroCount(length)
    ensures n < ZeroCount(length)
  {
  }

  // Zeros up to a whole block, from any fill level.
  method Pad(context: MacContext, ghost length: nat)
    requires context.Valid() && |context.Fed()| == length + 1
    modifies context`used, context`done, context`blocks, context.state, context.block
    ensures context.Valid() && context.Fed() == old(context.Fed()) + Zeros(ZeroCount(length))
  {
    hide ZeroCount, ToBlock, State, RoundKey;
    ghost var n: nat := 0;
    while context.used != 0
      invariant context.Valid()
      invariant n <= ZeroCount(length) && context.Fed() == old(context.Fed()) + Zeros(n)
      decreases ZeroCount(length) - n
    {
      PaddingGrows(length, n, context.blocks, context.used);
      context.Feed(0);
      n := n + 1;
    }
    PaddingDone(length, n, context.blocks);
  }

  lemma AllFed(message: bytes, done: bytes, blocks: nat, waiting: bytes)
    requires |message| < 0x1_0000
    requires |done| == 4 * blocks && |waiting| < 4
    requires done + waiting == message + [0x80] + Zeros(ZeroCount(|message|)) + PutU32(|message|)
    ensures done == Padded(message)
  {
    hide ZeroCount, PutU32;
    var k := ZerosFill(|message|);
    assert |done + waiting| == 4 * k + 4;
    assert done + waiting == done;
    assert done == message + Trailer(|message|);
  }

  /** `dm_packet_mac` of the agent. */
  method DmPacketMac(data: array<byte>, length: nat, key: array<byte>) returns (mac: bv32)
    requires length <= data.Length && length < 0x1_0000 && key.Length == 16
    ensures mac == Word32(Tag(key[..], data[..length]))
  {
    hide Encrypt, ToBlock, ToBytes, State, RoundKey, ToKey, Chain, CbcStep, Blocks, PutU32, ZeroCount, Padded, MacContext.Valid;
    var context := new MacContext(key);
    ghost var message := data[..length];
    FeedAll(context, data[..length]);
    context.Feed(0x80);
    Pad(context, length);
    FeedAll(context, PutU32(length));
    mac := FinishMac(context, key, message);
  }

  // The last encryption, under the second half of the key.
  method FinishMac(context: MacContext, key: array<byte>, ghost message: bytes) returns (mac: bv32)
    requires context.Valid() && key.Length == 16 && |message| < 0x1_0000
    requires key != context.state && key != context.block
    requires context.key == ToKey(key[..8])
    requires context.Fed() == message + [0x80] + Zeros(ZeroCount(|message|)) + PutU32(|message|)
    modifies context.state, context.roundKeys
    ensures mac == Word32(Tag(old(key[..]), message))
  {
    hide Encrypt, ToBlock, ToBytes, RoundKey, ToKey, Chain, CbcStep, Padded, Blocks, ZeroCount, PutU32;
    AllFed(message, context.done, context.blocks, context.block[..context.used]);
    Expand(key, 8, context.roundKeys);
    assert key[8..8 + 8] == key[..][8..];
    assert key[..8] == key[..][..8];
    EncryptInPlace(context.state, context.roundKeys, ToKey(key[8..16]));
    BytesOfBlock(context.state[..]);
    mac := Word32(context.state[..]);
  }

  lemma PaddingDone(length: nat, n: nat, k: nat)
    requires n <= ZeroCount(length) && length + 1 + n == 4 * k
    ensures n == ZeroCount(length)
  {
  }

  // --- The bridge: wider integers masked to 16 bits, the key schedule beside the rounds ---

  const MASK16: bv32 := 0xFFFF

  function Wide(x: bv16): bv32 {
    x as bv32
  }

  // `_ror16(value, 7)` and `_rol16(value, 2)`
  function Ror16By7(value: bv32): bv32 {
    ((value >> 7) | (value << 9)) & MASK16
  }

  function Rol16By2(value: bv32): bv32 {
    ((value << 2) | (value >> 14)) & MASK16
  }

  function MaskedSum(x: bv32, y: bv32): bv32 {
    (x + y) & 0xFFFF
  }

  function WideXor(x: bv32, y: bv32): bv32 {
    x ^ y
  }

  lemma WideRor(x: bv16)
    ensures Ror16By7(Wide(x)) == Wide(Ror7(x))
  {
  }

  lemma WideRol(x: bv16)
    ensures Rol16By2(Wide(x)) == Wide(Rol2(x))
  {
  }

  lemma WideIs(x: bv16)
    ensures Wide(x) == x as bv32
  {
  }

  lemma WidePlusIs(x: bv16, y: bv16)
    ensures Wide(Plus(x, y)) == (x + y) as bv32
  {
  }

  lemma RawSum(x: bv16, y: bv16)
    ensures MaskedSum(x as bv32, y as bv32) == (x + y) as bv32
  {
  }

  lemma WideSum(x: bv16, y: bv16)
    ensures MaskedSum(Wide(x), Wide(y)) == Wide(Plus(x, y))
  {
    hide *;
    WideIs(x);
    WideIs(y);
    WidePlusIs(x, y);
    RawSum(x, y);
  }

  lemma WideIsXor(x: bv16, y: bv16)
    ensures WideXor(Wide(x), Wide(y)) == Wide(Xor(x, y))
  {
  }

  lemma NarrowWide(x: bv16)
    ensures (Wide(x) & MASK16) as bv16 == x
  {
  }

  // The bridge's variables, as masked integers, agree with round `n` of the reference.
  ghost predicate KeysAgree(key: Key, n: nat, roundKey: bv32, schedule: seq<bv32>, slot: nat)
    requires n < ROUNDS
  {
    && slot < 3 && |schedule| == 3
    && roundKey == Wide(RoundKey(key, n))
    && schedule[slot] == Wide(Schedule(key, n))
    && schedule[After(slot)] == Wide(Schedule(key, n + 1))
    && schedule[After(After(slot))] == Wide(Schedule(key, n + 2))
  }

  function NextWord(schedule: seq<bv32>, slot: nat, roundKey: bv32, n: nat): bv32
    requires slot < |schedule| && n < ROUNDS
  {
    WideXor(MaskedSum(Ror16By7(schedule[slot]), roundKey), Wide(Counter(n)))
  }

  lemma KeysStep(key: Key, n: nat, roundKey: bv32, schedule: seq<bv32>, slot: nat)
    requires n + 1 < ROUNDS && KeysAgree(key, n, roundKey, schedule, slot)
    ensures var next := NextWord(schedule, slot, roundKey, n);
      KeysAgree(key, n + 1, WideXor(Rol16By2(roundKey), next), schedule[slot := next], After(slot))
  {
    hide Wide, WideXor, MaskedSum, Ror16By7, Rol16By2, Ror7, Rol2, Plus, Xor, Counter, RoundKey, Schedule;
    KeyStep(key, n);
    var l, k := Schedule(key, n), RoundKey(key, n);
    WideRor(l);
    WideSum(Ror7(l), k);
    WideIsXor(Plus(Ror7(l), k), Counter(n));
    WideRol(k);
    WideIsXor(Rol2(k), Schedule(key, n + 3));
  }

  lemma RoundStep(k: bv16, b: Block)
    ensures var left := WideXor(MaskedSum(Ror16By7(Wide(b.left)), Wide(b.right)), Wide(k));
      && left == Wide(Round(k, b).left)
      && WideXor(Rol16By2(Wide(b.right)), left) == Wide(Round(k, b).right)
  {
    hide Wide, WideXor, MaskedSum, Ror16By7, Rol16By2, Ror7, Rol2, Plus, Xor;
    WideRor(b.left);
    WideSum(Ror7(b.left), b.right);
    WideIsXor(Plus(Ror7(b.left), b.right), k);
    WideRol(b.right);
    WideIsXor(Rol2(b.right), Round(k, b).left);
  }

  lemma NextSlot(n: nat)
    ensures n % 3 < 3 && (n + 1) % 3 == After(n % 3)
  {
  }

  /** `_speck32_encrypt` of the bridge. */
  method Speck32Encrypt(block: bytes, keyBytes: bytes) returns (r: bytes)
    requires |block| == 4 && |keyBytes| == 8
    ensures r == ToBytes(Encrypt(ToKey(keyBytes), ToBlock(block)))
  {
    hide Wide, WideXor, MaskedSum, Ror16By7, Rol16By2, Round, RoundKey, Schedule, Word16, LowByte, HighByte, After, Counter;
    ghost var key, start := ToKey(keyBytes), ToBlock(block);
    var left, right := Wide(Word16(block[0], block[1])), Wide(Word16(block[2], block[3]));
    var roundKey := Wide(Word16(keyBytes[0], keyBytes[1]));
    var schedule := [Wide(Word16(keyBytes[2], keyBytes[3])), Wide(Word16(keyBytes[4], keyBytes[5])),
                     Wide(Word16(keyBytes[6], keyBytes[7]))];
    KeysStart(key);
    for roundIndex := 0 to ROUNDS
      invariant left == Wide(Rounds(key, start, roundIndex).left)
      invariant right == Wide(Rounds(key, start, roundIndex).right)
      invariant roundIndex < ROUNDS ==> KeysAgree(key, roundIndex, roundKey, schedule, roundIndex % 3)
    {
      RoundStep(RoundKey(key, roundIndex), Rounds(key, start, roundIndex));
      left := WideXor(MaskedSum(Ror16By7(left), right), roundKey);
      right := WideXor(Rol16By2(right), left);
      if roundIndex != ROUNDS - 1 {
        NextSlot(roundIndex);
        KeysStep(key, roundIndex, roundKey, schedule, roundIndex % 3);
        var slot := roundIndex % 3;
        var nextWord := WideXor(MaskedSum(Ror16By7(schedule[slot]), roundKey), Wide(Counter(roundIndex)));
        schedule := schedule[slot := nextWord];
        roundKey := WideXor(Rol16By2(roundKey), nextWord);
      }
    }
    var b := Block((left & MASK16) as bv16, (right & MASK16) as bv16);
    NarrowWide(Rounds(key, start, ROUNDS).left);
    NarrowWide(Rounds(key, start, ROUNDS).right);
    r := ToBytes(b);
  }

  lemma KeysStart(key: Key)
    ensures KeysAgree(key, 0, Wide(key.k0), [Wide(key.l0), Wide(key.l1), Wide(key.l2)], 0)
  {
    hide Wide, RoundKey, Schedule;
    KeyStart(key);
  }

  /** `packet_mac` of the bridge: the tag as the bytes of the last state; only the key can be refused. */
  method PacketMacOf(data: bytes, key: bytes) returns (r: Option<bv32>)
    requires |data| < 0x1_0000_0000
    ensures r == if |key| == 16 then Some(Word32(Tag(key, data))) else None
  {
    hide Encrypt, ToBlock, ToBytes, ToKey, XorBlock, PutU32, ZeroCount;
    if |key| != 16 {
      return None;
    }
    var padded := data + [0x80];
    padded := padded + Zeros((4 - |padded| % 4) % 4);
    padded := padded + PutU32(|data|);
    PaddedForm(data);
    assert padded == Padded(data);
    var k := ZerosFill(|data|);
    var state: bytes := [0, 0, 0, 0];
    ZeroBytes();
    ghost var chainKey := ToKey(key[..8]);
    assert |padded| == 4 * (k + 1);
    for n := 0 to |padded| / 4
      invariant |state| == 4 && ToBlock(state) == Chain(CbcStep(chainKey), ZERO, Blocks(padded[..4 * n]))
    {
      var block := padded[4 * n..4 * n + 4];
      ghost var before := state;
      var mixed := XorFour(state, block);
      state := Speck32Encrypt(mixed, key[..8]);
      BlockOfBytes(Encrypt(chainKey, XorBlock(ToBlock(before), ToBlock(block))));
      ChainBlock(chainKey, padded, n);
    }
    assert padded[..4 * (|padded| / 4)] == padded;
    state := Speck32Encrypt(state, key[8..]);
    r := Some(Word32(state));
  }

  lemma PaddedForm(data: bytes)
    requires |data| < 0x1_0000_0000
    ensures ZeroCount(|data|) == (4 - |data + [0x80]| % 4) % 4
    ensures Padded(data) == data + [0x80] + Zeros(ZeroCount(|data|)) + PutU32(|data|)
  {
    hide PutU32;
  }

  lemma ChainBlock(key: Key, padded: bytes, n: nat)
    requires 4 * n + 4 <= |padded|
    ensures Chain(CbcStep(key), ZERO, Blocks(padded[..4 * (n + 1)]))
      == Encrypt(key, XorBlock(Chain(CbcStep(key), ZERO, Blocks(padded[..4 * n])), ToBlock(padded[4 * n..4 * n + 4])))
  {
    hide Encrypt, XorBlock, ToBlock;
    assert padded[..4 * (n + 1)] == padded[..4 * n] + padded[4 * n..4 * n + 4];
    StateAtBlock(key, padded[..4 * n], padded[4 * n..4 * n + 4], n);
  }

  function XorFour(a: bytes, b: bytes): (r: bytes)
    requires |a| == 4 && |b| == 4
    ensures |r| == 4 && ToBlock(r) == XorBlock(ToBlock(a), ToBlock(b))
  {
    hide XorByte, Word16, Xor;
    XorBytes(a[0], a[1], b[0], b[1]);
    XorBytes(a[2], a[3], b[2], b[3]);
    [XorByte(a[0], b[0]), XorByte(a[1], b[1]), XorByte(a[2], b[2]), XorByte(a[3], b[3])]
  }
}
