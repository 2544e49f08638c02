/**
 SHA-256 as FIPS 180-4 defines it (padding of section 5.1.1, hash of section 6.2), and the
 agent's streaming form: a context that takes bytes in any pieces and pads at the end.
 */
module Sha256 {
  import opened Bytes
  import opened Chains
  import opened Wrappers

  // --- Functions of section 4.1.2 and constants of sections 4.2.2 and 5.3.3 ---

  function Choose(x: bv32, y: bv32, z: bv32): bv32 {
    (x & y) ^ (!x & z)
  }

  function Majority(x: bv32, y: bv32, z: bv32): bv32 {
    (x & y) ^ (x & z) ^ (y & z)
  }

  function BigSigma0(x: bv32): bv32 {
    ((x >> 2) | (x << 30)) ^ ((x >> 13) | (x << 19)) ^ ((x >> 22) | (x << 10))
  }

  function BigSigma1(x: bv32): bv32 {
    ((x >> 6) | (x << 26)) ^ ((x >> 11) | (x << 21)) ^ ((x >> 25) | (x << 7))
  }

  function SmallSigma0(x: bv32): bv32 {
    ((x >> 7) | (x << 25)) ^ ((x >> 18) | (x << 14)) ^ (x >> 3)
  }

  function SmallSigma1(x: bv32): bv32 {
    ((x >> 17) | (x << 15)) ^ ((x >> 19) | (x << 13)) ^ (x >> 10)
  }

  function Plus(x: bv32, y: bv32): bv32 {
    x + y
  }

  function Constant(i: nat): bv32
    requires i < 64
  {
    match i
    case 0 => 0x428A2F98 case 1 => 0x71374491 case 2 => 0xB5C0FBCF case 3 => 0xE9B5DBA5
    case 4 => 0x3956C25B case 5 => 0x59F111F1 case 6 => 0x923F82A4 case 7 => 0xAB1C5ED5
    case 8 => 0xD807AA98 case 9 => 0x12835B01 case 10 => 0x243185BE case 11 => 0x550C7DC3
    case 12 => 0x72BE5D74 case 13 => 0x80DEB1FE case 14 => 0x9BDC06A7 case 15 => 0xC19BF174
    case 16 => 0xE49B69C1 case 17 => 0xEFBE4786 case 18 => 0x0FC19DC6 case 19 => 0x240CA1CC
    case 20 => 0x2DE92C6F case 21 => 0x4A7484AA case 22 => 0x5CB0A9DC case 23 => 0x76F988DA
    case 24 => 0x983E5152 case 25 => 0xA831C66D case 26 => 0xB00327C8 case 27 => 0xBF597FC7
    case 28 => 0xC6E00BF3 case 29 => 0xD5A79147 case 30 => 0x06CA6351 case 31 => 0x14292967
    case 32 => 0x27B70A85 case 33 => 0x2E1B2138 case 34 => 0x4D2C6DFC case 35 => 0x53380D13
    case 36 => 0x650A7354 case 37 => 0x766A0ABB case 38 => 0x81C2C92E case 39 => 0x92722C85
    case 40 => 0xA2BFE8A1 case 41 => 0xA81A664B case 42 => 0xC24B8B70 case 43 => 0xC76C51A3
    case 44 => 0xD192E819 case 45 => 0xD6990624 case 46 => 0xF40E3585 case 47 => 0x106AA070
    case 48 => 0x19A4C116 case 49 => 0x1E376C08 case 50 => 0x2748774C case 51 => 0x34B0BCB5
    case 52 => 0x391C0CB3 case 53 => 0x4ED8AA4A case 54 => 0x5B9CCA4F case 55 => 0x682E6FF3
    case 56 => 0x748F82EE case 57 => 0x78A5636F case 58 => 0x84C87814 case 59 => 0x8CC70208
    case 60 => 0x90BEFFFA case 61 => 0xA4506CEB case 62 => 0xBEF9A3F7 case _ => 0xC67178F2
  }

  // A hash value, or the eight working variables.
  datatype Hash = Hash(a: bv32, b: bv32, c: bv32, d: bv32, e: bv32, f: bv32, g: bv32, h: bv32)

  const INITIAL := Hash(0x6A09E667, 0xBB67AE85, 0x3C6EF372, 0xA54FF53A,
                        0x510E527F, 0x9B05688C, 0x1F83D9AB, 0x5BE0CD19)

  // --- Big-endian fields ---

  function GetBe32(b0: byte, b1: byte, b2: byte, b3: byte): bv32 {
    ((b0 as bv32) << 24) | ((b1 as bv32) << 16) | ((b2 as bv32) << 8) | (b3 as bv32)
  }

  function PutBe32(w: bv32): (r: bytes)
    ensures |r| == 4
  {
    [((w >> 24) & 0xFF) as byte, ((w >> 16) & 0xFF) as byte, ((w >> 8) & 0xFF) as byte, (w & 0xFF) as byte]
  }

  function LengthWord(n: Long): (r: bytes)
    ensures |r| == 4
  {
    hide Low;
    [Low(n / 0x100_0000), Low(n / 0x1_0000), Low(n / 0x100), Low(n)]
  }

  // --- Section 6.2 ---

  type Chunk = b: bytes | |b| == 64 witness seq(64, i => 0)

  // The message schedule.
  function W(block: Chunk, t: nat): bv32
    requires t < 64
  {
    if t < 16 then
      GetBe32(block[4 * t], block[4 * t + 1], block[4 * t + 2], block[4 * t + 3])
    else
      Plus(Plus(Plus(W(block, t - 16), SmallSigma0(W(block, t - 15))), W(block, t - 7)), SmallSigma1(W(block, t - 2)))
  }

  lemma WordOfBlock(block: Chunk, t: nat)
    requires t < 16
    ensures W(block, t) == GetBe32(block[4 * t], block[4 * t + 1], block[4 * t + 2], block[4 * t + 3])
  {
    hide GetBe32;
  }

  lemma WordOfWords(block: Chunk, t: nat)
    requires 16 <= t < 64
    ensures W(block, t)
      == Plus(Plus(Plus(W(block, t - 16), SmallSigma0(W(block, t - 15))), W(block, t - 7)), SmallSigma1(W(block, t - 2)))
  {
    hide Plus, SmallSigma0, SmallSigma1, GetBe32;
  }

  function Round(s: Hash, k: bv32, w: bv32): Hash {
    var t1 := Plus(Plus(Plus(Plus(s.h, BigSigma1(s.e)), Choose(s.e, s.f, s.g)), k), w);
    var t2 := Plus(BigSigma0(s.a), Majority(s.a, s.b, s.c));
    Hash(Plus(t1, t2), s.a, s.b, s.c, Plus(s.d, t1), s.e, s.f, s.g)
  }

  function Rounds(s: Hash, block: Chunk, n: nat): Hash
    requires n <= 64
  {
    if n == 0 then s else Round(Rounds(s, block, n - 1), Constant(n - 1), W(block, n - 1))
  }

  function AddHash(s: Hash, t: Hash): Hash {
    Hash(Plus(s.a, t.a), Plus(s.b, t.b), Plus(s.c, t.c), Plus(s.d, t.d),
         Plus(s.e, t.e), Plus(s.f, t.f), Plus(s.g, t.g), Plus(s.h, t.h))
  }

  function Compress(s: Hash, block: Chunk): Hash {
    AddHash(s, Rounds(s, block, 64))
  }

  // --- Section 5.1.1: one bit, then zeros up to 448 modulo 512 bits, then the length in bits ---

  function ZeroCount(length: nat): (k: nat)
    ensures k < 64
  {
    (55 - length) % 64
  }

  lemma ZerosFill(length: nat) returns (k: nat)
    ensures length + 1 + ZeroCount(length) + 8 == 64 * k
  {
    k := (length + 1 + ZeroCount(length) + 8) / 64;
  }

  function BitLength(length: Long): (r: bytes)
    ensures |r| == 8
  {
    LengthWord(8 * length / 0x1_0000_0000) + LengthWord(8 * length % 0x1_0000_0000)
  }

  function Padded(message: bytes): bytes
    requires |message| < 0x1_0000_0000
  {
    message + [0x80] + Zeros(ZeroCount(|message|)) + BitLength(|message|)
  }

  function Chunks(s: bytes): seq<Chunk> {
    if |s| < 64 then [] else [s[..64]] + Chunks(s[64..])
  }

  function BigEndian(words: seq<bv32>): (r: bytes)
    ensures |r| == 4 * |words|
  {
    hide PutBe32;
    if words == [] then [] else BigEndian(words[..|words| - 1]) + PutBe32(words[|words| - 1])
  }

  function Digest(h: Hash): (r: bytes)
    ensures |r| == 32
  {
    BigEndian([h.a, h.b, h.c, h.d, h.e, h.f, h.g, h.h])
  }

  function HashOf(s: bytes): Hash {
    Chain(Compress, INITIAL, Chunks(s))
  }

  /** The hash of a message of less than 2^32 bytes. */
  function Sha256(message: bytes): (r: bytes)
    requires |message| < 0x1_0000_0000
    ensures |r| == 32
  {
    Digest(HashOf(Padded(message)))
  }

  lemma DropHead(a: bytes, b: bytes)
    requires |a| >= 64
    ensures (a + b)[..64] == a[..64] && (a + b)[64..] == a[64..] + b
  {
  }

  lemma {:induction false} ChunksAppend(a: bytes, b: bytes, k: nat)
    requires |a| == 64 * k
    ensures Chunks(a + b) == Chunks(a) + Chunks(b)
  {
    if k == 0 {
      assert a + b == b;
    } else {
      ChunksAppend(a[64..], b, k - 1);
      DropHead(a, b);
      assert Chunks(a + b) == [a[..64]] + Chunks(a[64..] + b);
    }
  }

  lemma HashOfChunk(done: bytes, block: Chunk, k: nat)
    requires |done| == 64 * k
    ensures HashOf(done + block) == Compress(HashOf(done), block)
  {
    hide Compress;
    ChunksAppend(done, block, k);
    assert block[..64] == block && Chunks(block[64..]) == [];
    assert Chunks(block) == [block];
    ChainOne(Compress, INITIAL, Chunks(done), block);
  }

  // --- The agent's context ---

  function ToHash(s: seq<bv32>): Hash
    requires |s| == 8
  {
    Hash(s[0], s[1], s[2], s[3], s[4], s[5], s[6], s[7])
  }

  class ShaContext {
    const state: array<bv32>
    var total: Long
    const block: array<byte>
    var used: nat
    ghost var done: bytes
    ghost var blocks: nat

    // All the bytes fed so far: those in whole blocks, and those still waiting.
    ghost function Fed(): bytes
      requires used <= block.Length
      reads this, block
    {
      done + block[..used]
    }

    ghost predicate Valid()
      reads this, state, block
      ensures Valid() ==> state.Length == 8 && block.Length == 64 && used < 64
    {
      && state.Length == 8 && block.Length == 64
      && ToHash(state[..]) == HashOf(done)
      && |done| == 64 * blocks && used < 64
    }

    // `dm_sha_init`
    constructor ()
      ensures Valid() && Fed() == [] && total == 0
      ensures fresh(state) && fresh(block)
    {
      state := new bv32[8](i => 0);
      block := new byte[64](i => 0);
      total := 0;
      used := 0;
      done := [];
      blocks := 0;
      new;
      state[0] := 0x6A09E667;
      state[1] := 0xBB67AE85;
      state[2] := 0x3C6EF372;
      state[3] := 0xA54FF53A;
      state[4] := 0x510E527F;
      state[5] := 0x9B05688C;
      state[6] := 0x1F83D9AB;
      state[7] := 0x5BE0CD19;
    }

    // `dm_sha_transform`
    method Transform()
      requires state.Length == 8 && block.Length == 64
      modifies state, this`used
      ensures used == 0
      ensures ToHash(state[..]) == Compress(ToHash(old(state[..])), block[..])
    {
      hide W, Compress;
      ghost var chunk: Chunk := block[..];
      var words := Schedule();
      Mix(words, chunk);
      used := 0;
    }

    // The first half of `dm_sha_transform`: the words of the block, expanded.
    method Schedule() returns (words: array<bv32>)
      requires block.Length == 64
      ensures fresh(words) && words.Length == 64
      ensures forall t :: 0 <= t < 64 ==> words[t] == W(block[..], t)
    {
      hide W, SmallSigma0, SmallSigma1, Plus, GetBe32;
      ghost var chunk: Chunk := block[..];
      words := new bv32[64](i => 0);
      for index := 0 to 16
        invariant forall t :: 0 <= t < index ==> words[t] == W(chunk, t)
      {
        WordOfBlock(chunk, index);
        words[index] := GetBe32(block[4 * index], block[4 * index + 1], block[4 * index + 2], block[4 * index + 3]);
      }
      for index := 16 to 64
        invariant forall t :: 0 <= t < index ==> words[t] == W(chunk, t)
      {
        WordOfWords(chunk, index);
        var sigma0 := SmallSigma0(words[index - 15]);
        var sigma1 := SmallSigma1(words[index - 2]);
        words[index] := Plus(Plus(Plus(words[index - 16], sigma0), words[index - 7]), sigma1);
      }
    }

    // The second half of `dm_sha_transform`: sixty-four rounds over the expanded words.
    method Mix(words: array<bv32>, ghost chunk: Chunk)
      requires state.Length == 8 && words.Length == 64 && words != state
      requires forall t :: 0 <= t < 64 ==> words[t] == W(chunk, t)
      modifies state
      ensures ToHash(state[..]) == Compress(ToHash(old(state[..])), chunk)
    {
      hide Choose, Majority, BigSigma0, BigSigma1, Plus, Constant, W;
      ghost var start := ToHash(state[..]);
      var a := state[0];
      var b := state[1];
      var c := state[2];
      var d := state[3];
      var e := state[4];
      var f := state[5];
      var g := state[6];
      var h := state[7];
      for index := 0 to 64
        invariant Hash(a, b, c, d, e, f, g, h) == Rounds(start, chunk, index)
        invariant unchanged(state) && unchanged(words)
      {
        var sigma1 := BigSigma1(e);
        var choice := Choose(e, f, g);
        var temp1 := Plus(Plus(Plus(Plus(h, sigma1), choice), Constant(index)), words[index]);
        var sigma0 := BigSigma0(a);
        var majority := Majority(a, b, c);
        var temp2 := Plus(sigma0, majority);
        h := g;
        g := f;
        f := e;
        e := Plus(d, temp1);
        d := c;
        c := b;
        b := a;
        a := Plus(temp1, temp2);
      }
      state[0] := Plus(state[0], a);
      state[1] := Plus(state[1], b);
      state[2] := Plus(state[2], c);
      state[3] := Plus(state[3], d);
      state[4] := Plus(state[4], e);
      state[5] := Plus(state[5], f);
      state[6] := Plus(state[6], g);
      state[7] := Plus(state[7], h);
    }

    // `dm_sha_feed`
    method Feed(value: byte)
      requires Valid()
      modifies this`used, this`done, this`blocks, state, block
      ensures Valid() && Fed() == old(Fed()) + [value]
    {
      hide Compress, HashOf;
      block[used] := value;
      used := used + 1;
      assert block[..used] == old(block[..used]) + [value];
      if used == 64 {
        assert block[..] == block[..used];
        HashOfChunk(done, block[..], blocks);
        Transform();
        done := done + block[..];
        blocks := blocks + 1;
      }
    }

    // `dm_sha_update`
    method Update(data: bytes)
      requires Valid() && |data| < 0x1_0000
      modifies this, state, block
      ensures Valid() && Fed() == old(Fed()) + data
      ensures total == (old(total) + |data|) % 0x1_0000_0000
    {
      hide HashOf;
      total := (total + |data|) % 0x1_0000_0000;
      for index := 0 to |data|
        invariant Valid() && Fed() == old(Fed()) + data[..index]
        invariant total == (old(total) + |data|) % 0x1_0000_0000
      {
        Feed(data[index]);
      }
    }

    // `dm_sha_final`
    method Final(output: array<byte>)
      requires Valid() && output.Length == 32 && output != block
      requires |Fed()| < 0x1_0000_0000 && total == |Fed()|
      modifies this, state, block, output
      ensures output[..] == Sha256(old(Fed()))
    {
      hide HashOf, Compress, Padded;
      Pad();
      HashOfChunk(done, block[..], blocks);
      Transform();
      Output(output);
    }

    // What `dm_sha_final` appends: one bit, zeros, and the length in bits.
    method Pad()
      requires Valid() && total == |Fed()|
      modifies this`used, this`done, this`blocks, state, block
      ensures block.Length == 64 && state.Length == 8 && ToHash(state[..]) == HashOf(done) && |done| == 64 * blocks
      ensures done + block[..] == Padded(old(Fed()))
    {
      hide HashOf, ZeroCount, LengthWord;
      ghost var message := Fed();
      var bitHigh := total / 0x2000_0000;
      var bitLow := (total * 8) % 0x1_0000_0000;
      BitsOfLength(total);
      Feed(0x80);
      PadZeros(message);
      Put(56, LengthWord(bitHigh));
      Put(60, LengthWord(bitLow));
      assert block[56..] == LengthWord(bitHigh) + LengthWord(bitLow);
      used := 64;
      assert done + block[..] == Padded(message);
    }

    // Zeros up to the place of the length, from any fill level.
    method PadZeros(ghost message: bytes)
      requires Valid() && Fed() == message + [0x80]
      modifies this`used, this`done, this`blocks, state, block
      ensures Valid() && used == 56
      ensures Fed() == message + [0x80] + Zeros(ZeroCount(|message|))
    {
      hide HashOf, ZeroCount;
      ghost var n: nat := 0;
      while used != 56
        invariant Valid() && n <= ZeroCount(|message|)
        invariant Fed() == message + [0x80] + Zeros(n)
        decreases ZeroCount(|message|) - n
      {
        PaddingGrows(|message|, n, blocks, used);
        Feed(0);
        n := n + 1;
      }
      PaddingDone(|message|, n, blocks);
    }

    method Put(at: nat, word: bytes)
      requires block.Length == 64 && at + 4 <= 64 && |word| == 4
      modifies block
      ensures block[..] == old(block[..at]) + word + old(block[at + 4..])
    {
      block[at] := word[0];
      block[at + 1] := word[1];
      block[at + 2] := word[2];
      block[at + 3] := word[3];
    }

    method Output(output: array<byte>)
      requires state.Length == 8 && output.Length == 32
      modifies output
      ensures output[..] == Digest(ToHash(state[..]))
    {
      hide PutBe32;
      for index := 0 to 8
        invariant output[..4 * index] == BigEndian(state[..index])
      {
        ghost var before := output[..4 * index];
        var word := PutBe32(state[index]);
        output[4 * index] := word[0];
        output[4 * index + 1] := word[1];
        output[4 * index + 2] := word[2];
        output[4 * index + 3] := word[3];
        assert output[..4 * (index + 1)] == before + word;
        assert state[..index + 1][..index] == state[..index];
      }
      SameWords(state[..]);
      assert state[..8] == state[..] && output[..32] == output[..];
    }
  }

  lemma BitsOfLength(total: Long)
    ensures total / 0x2000_0000 == 8 * total / 0x1_0000_0000
  {
  }

  lemma PaddingGrows(length: nat, n: nat, blocks: nat, used: nat)
    requires length + 1 + n == 64 * blocks + used && used < 64 && used != 56 && n <= ZeroCount(length)
    ensures n < ZeroCount(length)
  {
    var k := ZerosFill(length);
  }

  lemma PaddingDone(length: nat, n: nat, blocks: nat)
    requires length + 1 + n == 64 * blocks + 56 && n <= ZeroCount(length)
    ensures n == ZeroCount(length)
  {
    var k := ZerosFill(length);
  }

  lemma SameWords(s: seq<bv32>)
    requires |s| == 8
    ensures Digest(ToHash(s)) == BigEndian(s)
  {
    assert [s[0], s[1], s[2], s[3], s[4], s[5], s[6], s[7]] == s;
  }

  function Joined(pieces: seq<bytes>): bytes {
    if pieces == [] then [] else Joined(pieces[..|pieces| - 1]) + pieces[|pieces| - 1]
  }

  lemma {:induction false} JoinedPrefix(pieces: seq<bytes>, n: nat)
    requires n <= |pieces|
    ensures |Joined(pieces[..n])| <= |Joined(pieces)|
    decreases |pieces|
  {
    if n < |pieces| {
      JoinedPrefix(pieces[..|pieces| - 1], n);
      assert pieces[..|pieces| - 1][..n] == pieces[..n];
    } else {
      assert pieces[..n] == pieces;
    }
  }

  /** However a message is cut into updates, the context ends with its SHA-256. */
  method HashPieces(pieces: seq<bytes>, output: array<byte>)
    requires forall p :: p in pieces ==> |p| < 0x1_0000
    requires |Joined(pieces)| < 0x1_0000_0000 && output.Length == 32
    modifies output
    ensures output[..] == Sha256(Joined(pieces))
  {
    hide ShaContext.Valid, Sha256;
    var context := new ShaContext();
    for i := 0 to |pieces|
      invariant context.Valid() && context.Fed() == Joined(pieces[..i])
      invariant context.total == |Joined(pieces[..i])|
      invariant fresh(context) && fresh(context.state) && fresh(context.block)
    {
      JoinedPrefix(pieces, i + 1);
      assert pieces[..i + 1][..i] == pieces[..i];
      context.Update(pieces[i]);
    }
    assert pieces[..|pieces|] == pieces;
    context.Final(output);
  }

  const PASSWORD_DOMAIN: bytes := Ascii("DOS-MCP credential v1") + [0]

  // `derive_password_key` of the bridge
  function PasswordKey(password: bytes): Option<bytes>
    requires |password| < 0x1_0000
  {
    if password == [] then None else Some(Sha256(PASSWORD_DOMAIN + password)[..16])
  }

  /** `dm_derive_password_key`: the key of the bridge, whatever the two pieces leave in the block. */
  method DerivePasswordKey(password: bytes, output: array<byte>)
    requires |password| < 0x1_0000 && output.Length == 16
    modifies output
    ensures output[..] == Sha256(PASSWORD_DOMAIN + password)[..16]
    ensures password != [] ==> PasswordKey(password) == Some(output[..])
  {
    hide Ascii, Sha256;
    var digest := new byte[32](i => 0);
    ghost var pieces := [PASSWORD_DOMAIN, password];
    assert pieces[..1] == [PASSWORD_DOMAIN] && pieces[..1][..0] == [];
    assert Joined(pieces[..1]) == [] + PASSWORD_DOMAIN;
    assert Joined(pieces) == PASSWORD_DOMAIN + password;
    HashPieces([PASSWORD_DOMAIN, password], digest);
    forall i | 0 <= i < 16 {
      output[i] := digest[i];
    }
  }
}
