/** Known answers of the checks, the ciphers and the packet encoding. */
module KnownAnswers {
  import opened Bytes
  import opened Chains
  import opened Checksums
  import opened PacketCodec
  import opened PacketMac
  import opened Packets
  import S = Speck
  import X = SessionKeys

  // --- Numbers of the protocol ---

  /** The operations by the numbers they travel as. */
  lemma OpcodeNumbers()
    ensures HELLO == 1 && GET_STATUS == 2 && GET_CAPABILITIES == 3 && CAPTURE_TEXT_SCREEN == 4 && SEND_KEYS == 5
    ensures PING == 6 && CANCEL == 7 && FILE_READ_BEGIN == 8 && FILE_READ_BLOCK == 9 && FILE_READ_END == 10
    ensures FILE_WRITE_BEGIN == 11 && FILE_WRITE_BLOCK == 12 && FILE_WRITE_COMMIT == 13 && FILE_ABORT == 14
    ensures GRAPHICS_BEGIN == 15 && GRAPHICS_BLOCK == 16 && GRAPHICS_END == 17 && GET_DIAGNOSTICS == 18
  {
  }

  // --- CRC-16 ---

  lemma EightTimes<S>(f: S -> S, x: S)
    ensures Iterate(f, x, 8) == f(f(f(f(f(f(f(f(x))))))))
  {
    assert Iterate(f, x, 4) == f(f(f(f(x)))) by {
      assert Iterate(f, x, 2) == f(f(x));
    }
    assert Iterate(f, x, 6) == f(f(Iterate(f, x, 4)));
  }

  function Fed16(crc: bv16, b: byte): bv16 {
    var s := crc ^ ((b as bv16) << 8);
    Shift16(Shift16(Shift16(Shift16(Shift16(Shift16(Shift16(Shift16(s))))))))
  }

  lemma Crc16More(data: bytes, crc: bv16, b: byte)
    ensures Crc16(data + [b], crc) == Fed16(Crc16(data, crc), b)
  {
    hide Shift16, Add16, High16;
    var s := Crc16(data, crc);
    ChainOne(Step16(), crc, data, b);
    AddHigh(s, b);
    EightTimes(Shift16, s ^ ((b as bv16) << 8));
  }

  lemma Crc16Four(data: bytes, crc: bv16, a: byte, b: byte, c: byte, d: byte)
    ensures Crc16(data + [a, b, c, d], crc) == Fed16(Fed16(Fed16(Fed16(Crc16(data, crc), a), b), c), d)
  {
    hide Crc16, Fed16;
    Crc16More(data, crc, a);
    Crc16More(data + [a], crc, b);
    Crc16More(data + [a] + [b], crc, c);
    Crc16More(data + [a] + [b] + [c], crc, d);
    assert data + [a] + [b] + [c] + [d] == data + [a, b, c, d];
  }

  const DIGITS: bytes := [0x31, 0x32, 0x33, 0x34, 0x35, 0x36, 0x37, 0x38, 0x39]

  /** The check value of the polynomial: the nine digits. */
  lemma Crc16Digits()
    ensures Crc16(DIGITS, 0xFFFF) == 0x29B1
  {
    hide Step16;
    var four: bytes, eight: bytes := [0x31, 0x32, 0x33, 0x34], [0x31, 0x32, 0x33, 0x34, 0x35, 0x36, 0x37, 0x38];
    Crc16Four([], 0xFFFF, 0x31, 0x32, 0x33, 0x34);
    assert [] + four == four && Crc16(four, 0xFFFF) == 0x5349;
    Crc16Four(four, 0xFFFF, 0x35, 0x36, 0x37, 0x38);
    assert four + [0x35, 0x36, 0x37, 0x38] == eight && Crc16(eight, 0xFFFF) == 0xA12B;
    Crc16More(eight, 0xFFFF, 0x39);
    assert eight + [0x39] == DIGITS;
  }

  // --- CRC-32 ---

  function Fed32(crc: bv32, b: byte): bv32 {
    var s := crc ^ (b as bv32);
    Shift32(Shift32(Shift32(Shift32(Shift32(Shift32(Shift32(Shift32(s))))))))
  }

  lemma Crc32More(data: bytes, crc: bv32, b: byte)
    ensures Chain(Step32(), crc, data + [b]) == Fed32(Chain(Step32(), crc, data), b)
  {
    hide Shift32, Add32, Low32;
    var s := Chain(Step32(), crc, data);
    ChainOne(Step32(), crc, data, b);
    AddLow(s, b);
    EightTimes(Shift32, s ^ (b as bv32));
  }

  lemma Crc32Four(data: bytes, crc: bv32, a: byte, b: byte, c: byte, d: byte)
    ensures Chain(Step32(), crc, data + [a, b, c, d])
      == Fed32(Fed32(Fed32(Fed32(Chain(Step32(), crc, data), a), b), c), d)
  {
    hide Step32, Fed32, Chain;
    Crc32More(data, crc, a);
    Crc32More(data + [a], crc, b);
    Crc32More(data + [a] + [b], crc, c);
    Crc32More(data + [a] + [b] + [c], crc, d);
    assert data + [a] + [b] + [c] + [d] == data + [a, b, c, d];
  }

  /** The same of the reflected polynomial, and the check of nothing. */
  lemma Crc32Digits()
    ensures Crc32(0, DIGITS) == 0xCBF43926 && Crc32(0, []) == 0
  {
    hide Step32;
    var four: bytes, eight: bytes := [0x31, 0x32, 0x33, 0x34], [0x31, 0x32, 0x33, 0x34, 0x35, 0x36, 0x37, 0x38];
    Crc32Four([], 0xFFFF_FFFF, 0x31, 0x32, 0x33, 0x34);
    assert [] + four == four && Chain(Step32(), 0xFFFF_FFFF, four) == 0x641C1F5C;
    Crc32Four(four, 0xFFFF_FFFF, 0x35, 0x36, 0x37, 0x38);
    assert four + [0x35, 0x36, 0x37, 0x38] == eight && Chain(Step32(), 0xFFFF_FFFF, eight) == 0x651F2550;
    Crc32More(eight, 0xFFFF_FFFF, 0x39);
    assert eight + [0x39] == DIGITS;
  }

  // --- Speck ---

  // The key words at hand in a round, and the block.
  datatype Run = Run(k: bv16, l0: bv16, l1: bv16, l2: bv16, block: S.Block)

  function Next(r: Run, i: nat): Run
    requires i < 20
  {
    var l := S.Xor(S.Plus(S.Ror7(r.l0), r.k), S.Counter(i));
    Run(S.Xor(S.Rol2(r.k), l), r.l1, r.l2, l, S.Round(r.k, r.block))
  }

  ghost function At(key: S.Key, b: S.Block, i: nat): Run
    requires i <= 20
  {
    Run(S.RoundKey(key, i), S.Schedule(key, i), S.Schedule(key, i + 1), S.Schedule(key, i + 2), S.Rounds(key, b, i))
  }

  lemma AtNext(key: S.Key, b: S.Block, i: nat)
    requires i < 20
    ensures At(key, b, i + 1) == Next(At(key, b, i), i)
  {
    hide S.Xor, S.Plus, S.Ror7, S.Rol2, S.Round, S.Counter;
  }

  function Five(r: Run, i: nat): Run
    requires i <= 15
  {
    Next(Next(Next(Next(Next(r, i), i + 1), i + 2), i + 3), i + 4)
  }

  lemma AtFive(key: S.Key, b: S.Block, i: nat)
    requires i <= 15
    ensures At(key, b, i + 5) == Five(At(key, b, i), i)
  {
    hide At, Next;
    AtNext(key, b, i);
    AtNext(key, b, i + 1);
    AtNext(key, b, i + 2);
    AtNext(key, b, i + 3);
    AtNext(key, b, i + 4);
  }

  // The last two rounds: the schedule goes one key further than the words at hand.
  lemma Encrypted(key: S.Key, b: S.Block)
    ensures var r0 := Run(key.k0, key.l0, key.l1, key.l2, b);
      var r := Five(Five(Five(Five(r0, 0), 5), 10), 15);
      var k := S.Xor(S.Rol2(r.k), S.Xor(S.Plus(S.Ror7(r.l0), r.k), S.Counter(20)));
      S.Encrypt(key, b) == S.Round(k, S.Round(r.k, r.block))
  {
    hide S.Xor, S.Plus, S.Ror7, S.Rol2, S.Round, S.Counter, Next, Five;
    assert At(key, b, 0) == Run(key.k0, key.l0, key.l1, key.l2, b);
    AtFive(key, b, 0);
    AtFive(key, b, 5);
    AtFive(key, b, 10);
    AtFive(key, b, 15);
    assert S.RoundKey(key, 21) == S.Xor(S.Rol2(S.RoundKey(key, 20)), S.Schedule(key, 23));
    assert S.Rounds(key, b, 22) == S.Round(S.RoundKey(key, 21), S.Rounds(key, b, 21));
  }

  /** The vector of the cipher's authors. */
  lemma SpeckVector()
    ensures S.Encrypt(S.Key(0x0100, 0x0908, 0x1110, 0x1918), S.Block(0x6574, 0x694C)) == S.Block(0xA868, 0x42F2)
  {
    hide S.Encrypt;
    assert Five(Run(0x0100, 0x0908, 0x1110, 0x1918, S.Block(0x6574, 0x694C)), 0)
      == Run(0x77E2, 0x91AD, 0x3879, 0xD387, S.Block(0x4164, 0x50BB));
    assert Five(Run(0x77E2, 0x91AD, 0x3879, 0xD387, S.Block(0x4164, 0x50BB)), 5)
      == Run(0x76F4, 0xDC85, 0xF198, 0x4E39, S.Block(0x6111, 0x980F));
    assert Five(Run(0x76F4, 0xDC85, 0xF198, 0x4E39, S.Block(0x6111, 0x980F)), 10)
      == Run(0xF37E, 0x612B, 0x2A04, 0xEB23, S.Block(0xA628, 0x3A29));
    assert Five(Run(0xF37E, 0x612B, 0x2A04, 0xEB23, S.Block(0xA628, 0x3A29)), 15)
      == Run(0x8229, 0xD6B1, 0x8C3D, 0x6B61, S.Block(0x7A67, 0xE278));
    Encrypted(S.Key(0x0100, 0x0908, 0x1110, 0x1918), S.Block(0x6574, 0x694C));
  }

  // --- Where the fields of a packet are ---

  /** Fields are little-endian. */
  lemma LowestFirst(n: Word, m: Long)
    ensures var b := PutU16(n); Value(b[0]) + 0x100 * Value(b[1]) == n
    ensures var b := PutU32(m);
      Value(b[0]) + 0x100 * Value(b[1]) + 0x1_0000 * Value(b[2]) + 0x100_0000 * Value(b[3]) == m
  {
    hide Low, Value, PutU16, PutU32;
    U16RoundTrip(n);
    U32RoundTrip(m);
  }

  /** Every field of every packet, by the place of its bytes. */
  lemma FieldPositions(p: Packet, key: bytes)
    requires p.Valid() && |key| == 16
    ensures var e := Encode(p, key);
      && |e| == 20 + |p.payload| && e[..3] == [0x44, 0x4D, 2] && e[5] == 0
      && Value(e[3]) == (match p.kind case REQUEST => 1 case RESPONSE => 2 case ERROR => 3) && Value(e[4]) == p.opcode
      && e[6..8] == PutU16(p.sessionId) && e[8..10] == PutU16(p.requestId)
      && Value(e[10]) == p.index && Value(e[11]) == p.count && e[12..14] == PutU16(|p.payload|)
      && e[20..] == p.payload
  {
    hide PutU16, Low, Value, Crc16, Tag, CrcBytes;
    ValueLow(KindNumber(p.kind));
    ValueLow(p.opcode);
    ValueLow(p.index);
    ValueLow(p.count);
    assert Encode(p, key)[..14] == PrefixOf(p);
  }

  /** The check is over what stands before it and the payload, and so is the tag. */
  lemma CheckPositions(p: Packet, key: bytes)
    requires p.Valid() && |key| == 16
    ensures var e := Encode(p, key);
      && |e| == 20 + |p.payload| && e[14..16] == CrcBytes(Crc16(e[..14] + p.payload, 0xFFFF))
      && e[16..20] == Tag(key, e[..16] + p.payload)
  {
    hide PrefixOf, Crc16, Tag, CrcBytes;
    var prefix, e := PrefixOf(p), Encode(p, key);
    assert e[..14] == prefix;
    assert e[..16] == prefix + CrcBytes(Crc16(prefix + p.payload, 0xFFFF));
  }

  // --- The golden packet ---

  const KEY: bytes := [0, 1, 2, 3, 4, 5, 6, 7, 8, 9, 10, 11, 12, 13, 14, 15]

  function Turn5(k0: bv16, k1: bv16, k2: bv16, k3: bv16, k4: bv16, b: S.Block): S.Block {
    S.Round(k4, S.Round(k3, S.Round(k2, S.Round(k1, S.Round(k0, b)))))
  }

  // Encryption under the first half of the key, and under the second.
  function First(b: S.Block): S.Block {
    var b5 := Turn5(0x0100, 0x0106, 0x0D09, 0x2D31, 0x8DFC, b);
    var b10 := Turn5(0x87F8, 0xADCD, 0xA90F, 0x1A56, 0x10EA, b5);
    var b15 := Turn5(0xC087, 0x9016, 0xB558, 0xC130, 0xD09A, b10);
    var b20 := Turn5(0x94E1, 0x6A80, 0xB439, 0x1911, 0x41D5, b15);
    S.Round(0x71A0, S.Round(0xB557, b20))
  }

  function Second(b: S.Block): S.Block {
    var b5 := Turn5(0x0908, 0x393E, 0xB5A1, 0x073B, 0x5F9A, b);
    var b10 := Turn5(0x6C51, 0x56B4, 0x19ED, 0xEDA2, 0x67F2, b5);
    var b15 := Turn5(0x7FB8, 0x5227, 0x0D5F, 0xC46F, 0x407A, b10);
    var b20 := Turn5(0xC4E2, 0xFF40, 0x74F0, 0x5FAA, 0x8938, b15);
    S.Round(0x792F, S.Round(0x54BA, b20))
  }

  lemma KeyFirst()
    ensures S.ToKey(KEY[..8]) == S.Key(0x0100, 0x0302, 0x0504, 0x0706)
  {
    assert KEY[..8] == [0, 1, 2, 3, 4, 5, 6, 7];
  }

  lemma FirstEncrypts(b: S.Block)
    ensures S.Encrypt(S.ToKey(KEY[..8]), b) == First(b)
  {
    hide S.Round, S.Encrypt;
    KeyFirst();
    var b5 := Turn5(0x0100, 0x0106, 0x0D09, 0x2D31, 0x8DFC, b);
    assert Five(Run(0x0100, 0x0302, 0x0504, 0x0706, b), 0) == Run(0x87F8, 0x1915, 0x3938, 0xB00A, b5);
    var b10 := Turn5(0x87F8, 0xADCD, 0xA90F, 0x1A56, 0x10EA, b5);
    assert Five(Run(0x87F8, 0x1915, 0x3938, 0xB00A, b5), 5) == Run(0xC087, 0xBE68, 0x79B2, 0x832F, b10);
    var b15 := Turn5(0xC087, 0x9016, 0xB558, 0xC130, 0xD09A, b10);
    assert Five(Run(0xC087, 0xBE68, 0x79B2, 0x832F, b10), 10) == Run(0x94E1, 0x1452, 0xD459, 0xD68A, b15);
    var b20 := Turn5(0x94E1, 0x6A80, 0xB439, 0x1911, 0x41D5, b15);
    assert Five(Run(0x94E1, 0x1452, 0xD459, 0xD68A, b15), 15) == Run(0xB557, 0xC9F7, 0x2591, 0xB202, b20);
    Encrypted(S.Key(0x0100, 0x0302, 0x0504, 0x0706), b);
  }

  lemma KeySecond()
    ensures S.ToKey(KEY[8..]) == S.Key(0x0908, 0x0B0A, 0x0D0C, 0x0F0E)
  {
    assert KEY[8..] == [8, 9, 10, 11, 12, 13, 14, 15];
  }

  lemma SecondEncrypts(b: S.Block)
    ensures S.Encrypt(S.ToKey(KEY[8..]), b) == Second(b)
  {
    hide S.Round, S.Encrypt;
    KeySecond();
    var b5 := Turn5(0x0908, 0x393E, 0xB5A1, 0x073B, 0x5F9A, b);
    assert Five(Run(0x0908, 0x0B0A, 0x0D0C, 0x0F0E, b), 0) == Run(0x6C51, 0xD1BD, 0x4376, 0x1238, b5);
    var b10 := Turn5(0x6C51, 0x56B4, 0x19ED, 0xEDA2, 0x67F2, b5);
    assert Five(Run(0x6C51, 0xD1BD, 0x4376, 0x1238, b5), 5) == Run(0x7FB8, 0x8A16, 0xD179, 0xE071, b10);
    var b15 := Turn5(0x7FB8, 0x5227, 0x0D5F, 0xC46F, 0x407A, b10);
    assert Five(Run(0x7FB8, 0x8A16, 0xD179, 0xE071, b10), 10) == Run(0xC4E2, 0xF113, 0x51C5, 0xC50B, b15);
    var b20 := Turn5(0xC4E2, 0xFF40, 0x74F0, 0x5FAA, 0x8938, b15);
    assert Five(Run(0xC4E2, 0xF113, 0x51C5, 0xC50B, b15), 15) == Run(0x54BA, 0x8C6B, 0xF791, 0x7058, b20);
    Encrypted(S.Key(0x0908, 0x0B0A, 0x0D0C, 0x0F0E), b);
  }

  lemma Absorbed(seen: seq<S.Block>, state: S.Block, block: S.Block, next: S.Block)
    requires Chain(CbcStep(S.ToKey(KEY[..8])), ZERO, seen) == state && First(XorBlock(state, block)) == next
    ensures Chain(CbcStep(S.ToKey(KEY[..8])), ZERO, seen + [block]) == next
  {
    hide First, XorBlock, S.Encrypt, S.ToKey;
    FirstEncrypts(XorBlock(state, block));
    ChainOne(CbcStep(S.ToKey(KEY[..8])), ZERO, seen, block);
  }

  // The header up to its check, the check, and the payload.
  const HEADER: bytes := [0x44, 0x4D, 0x02, 0x01, 0x02, 0x00, 0x34, 0x12, 0x78, 0x56, 0x00, 0x01, 0x06, 0x00]
  const CHECK: bytes := [0x92, 0x59]
  const PAYLOAD: bytes := [0x73, 0x74, 0x61, 0x74, 0x75, 0x73]
  const TAG: bytes := [0xB7, 0x70, 0x73, 0x54]

  const AUTHENTICATED: bytes := HEADER + CHECK + PAYLOAD

  // The blocks of the authenticated bytes, padded, and the states they lead to.
  function GoldenBlock(i: nat): S.Block {
    match i
    case 0 => S.Block(0x4D44, 0x0102)
    case 1 => S.Block(0x0002, 0x1234)
    case 2 => S.Block(0x5678, 0x0100)
    case 3 => S.Block(0x0006, 0x5992)
    case 4 => S.Block(0x7473, 0x7461)
    case 5 => S.Block(0x7375, 0x0080)
    case _ => S.Block(0x0016, 0x0000)
  }

  function GoldenState(i: nat): S.Block {
    match i
    case 0 => ZERO
    case 1 => S.Block(0x6182, 0x387C)
    case 2 => S.Block(0xDE4F, 0x9C01)
    case 3 => S.Block(0x9F31, 0xDB9A)
    case 4 => S.Block(0xEA39, 0xE8A7)
    case 5 => S.Block(0x48D4, 0xF49D)
    case 6 => S.Block(0x6C68, 0x05A7)
    case _ => S.Block(0x24C8, 0x4306)
  }

  lemma GoldenStep0(i: nat)
    requires 0 <= i < 2
    ensures First(XorBlock(GoldenState(i), GoldenBlock(i))) == GoldenState(i + 1)
  {
    match i
    case 0 => case 1 =>
  }

  lemma GoldenStep1(i: nat)
    requires 2 <= i < 4
    ensures First(XorBlock(GoldenState(i), GoldenBlock(i))) == GoldenState(i + 1)
  {
    match i
    case 2 => case 3 =>
  }

  lemma GoldenStep2(i: nat)
    requires 4 <= i < 6
    ensures First(XorBlock(GoldenState(i), GoldenBlock(i))) == GoldenState(i + 1)
  {
    match i
    case 4 => case 5 =>
  }

  lemma GoldenStep3(i: nat)
    requires 6 <= i < 7
    ensures First(XorBlock(GoldenState(i), GoldenBlock(i))) == GoldenState(i + 1)
  {
    match i
    case 6 =>
  }

  lemma GoldenStep(i: nat)
    requires i < 7
    ensures First(XorBlock(GoldenState(i), GoldenBlock(i))) == GoldenState(i + 1)
  {
    hide First, XorBlock, GoldenState, GoldenBlock;
    if i < 2 {
      GoldenStep0(i);
    } else if i < 4 {
      GoldenStep1(i);
    } else if i < 6 {
      GoldenStep2(i);
    } else {
      GoldenStep3(i);
    }
  }

  function GoldenBlocks(n: nat): (r: seq<S.Block>)
    ensures |r| == n && forall i :: 0 <= i < n ==> r[i] == GoldenBlock(i)
  {
    hide GoldenBlock;
    if n == 0 then [] else GoldenBlocks(n - 1) + [GoldenBlock(n - 1)]
  }

  lemma {:induction false} GoldenChain(n: nat)
    requires n <= 7
    ensures Chain(CbcStep(S.ToKey(KEY[..8])), ZERO, GoldenBlocks(n)) == GoldenState(n)
  {
    hide First, XorBlock, S.Encrypt, S.ToKey, GoldenBlock;
    if n > 0 {
      GoldenChain(n - 1);
      GoldenStep(n - 1);
      Absorbed(GoldenBlocks(n - 1), GoldenState(n - 1), GoldenBlock(n - 1), GoldenState(n));
    }
  }

  lemma {:induction false} BlocksAt(s: bytes, k: nat)
    requires |s| == 4 * k
    ensures |Blocks(s)| == k && forall i :: 0 <= i < k ==> Blocks(s)[i] == S.ToBlock(s[4 * i..4 * i + 4])
  {
    hide S.ToBlock;
    if k > 0 {
      BlocksAt(s[4..], k - 1);
      forall i | 0 < i < k
        ensures Blocks(s)[i] == S.ToBlock(s[4 * i..4 * i + 4])
      {
        assert s[4..][4 * (i - 1)..4 * (i - 1) + 4] == s[4 * i..4 * i + 4];
      }
    }
  }

  lemma LowOf(b: byte, v: int, q: int)
    requires Value(b) == v
    ensures Low(v + 256 * q) == b
  {
    hide Value, Low;
    ByteInverse(b, q);
  }

  lemma GoldenValues()
    ensures Value(0x34) == 0x34 && Value(0x12) == 0x12 && Value(0x78) == 0x78 && Value(0x56) == 0x56
    ensures Value(6) == 6 && Value(22) == 22 && Value(0) == 0 && Value(1) == 1 && Value(2) == 2
  {
  }

  lemma GoldenWords()
    ensures PutU16(0x1234) == [0x34, 0x12] && PutU16(0x5678) == [0x78, 0x56] && PutU16(6) == [6, 0]
    ensures PutU32(22) == [22, 0, 0, 0]
    ensures Low(0) == 0 && Low(1) == 1 && Low(2) == 2
  {
    hide Low, Value;
    GoldenValues();
    LowOf(0x34, 0x34, 0x12);
    LowOf(0x12, 0x12, 0);
    LowOf(0x78, 0x78, 0x56);
    LowOf(0x56, 0x56, 0);
    LowOf(6, 6, 0);
    LowOf(22, 22, 0);
    LowOf(0, 0, 0);
    LowOf(1, 1, 0);
    LowOf(2, 2, 0);
  }

  // What follows the authenticated bytes: a marker, zeros up to a block, and their number.
  const TRAILER: bytes := [0x80, 0, 22, 0, 0, 0]

  lemma GoldenTrailer()
    ensures Trailer(22) == TRAILER
  {
    hide PutU32, PutU16, Low, ZeroCount;
    GoldenWords();
    OneZero();
    assert Zeros(1) == [0];
  }

  lemma OneZero()
    ensures ZeroCount(22) == 1
  {
  }

  lemma GoldenSize()
    ensures |AUTHENTICATED| == 22
  {
  }

  lemma GoldenBytes(i: nat)
    requires i < 7
    ensures var d := AUTHENTICATED + TRAILER;
      |d| == 28 && S.ToBlock([d[4 * i], d[4 * i + 1], d[4 * i + 2], d[4 * i + 3]]) == GoldenBlock(i)
  {
    match i
    case 0 => case 1 => case 2 => case 3 => case 4 => case 5 => case 6 =>
  }

  lemma CutIs(d: bytes, n: nat)
    requires |d| == 4 * n
    requires forall i :: 0 <= i < n ==>
      S.ToBlock([d[4 * i], d[4 * i + 1], d[4 * i + 2], d[4 * i + 3]]) == GoldenBlock(i)
    ensures Blocks(d) == GoldenBlocks(n)
  {
    hide S.ToBlock, GoldenBlock;
    BlocksAt(d, n);
    forall i | 0 <= i < n
      ensures S.ToBlock(d[4 * i..4 * i + 4]) == GoldenBlock(i)
    {
      assert d[4 * i..4 * i + 4] == [d[4 * i], d[4 * i + 1], d[4 * i + 2], d[4 * i + 3]];
    }
  }

  lemma GoldenCut()
    ensures Blocks(AUTHENTICATED + TRAILER) == GoldenBlocks(7)
  {
    hide S.ToBlock, GoldenBlock, Blocks, GoldenBlocks;
    forall i | 0 <= i < 7
      ensures var d := AUTHENTICATED + TRAILER;
        |d| == 28 && S.ToBlock([d[4 * i], d[4 * i + 1], d[4 * i + 2], d[4 * i + 3]]) == GoldenBlock(i)
    {
      GoldenBytes(i);
    }
    GoldenBytes(0);
    CutIs(AUTHENTICATED + TRAILER, 7);
  }

  lemma GoldenLast()
    ensures Second(S.Block(0x24C8, 0x4306)) == S.Block(0x70B7, 0x5473)
  {
  }

  lemma GoldenTagBytes()
    ensures S.ToBytes(S.Block(0x70B7, 0x5473)) == TAG
  {
  }

  lemma GoldenTag()
    ensures |AUTHENTICATED| == 22 && Tag(KEY, AUTHENTICATED) == TAG
  {
    hide First, Second, S.Encrypt, S.ToKey, S.ToBytes, Trailer, Blocks, Chain, GoldenBlocks, GoldenBlock;
    GoldenSize();
    GoldenTrailer();
    GoldenCut();
    GoldenChain(7);
    SecondEncrypts(GoldenState(7));
    GoldenLast();
    GoldenTagBytes();
  }

  lemma GoldenCheck()
    ensures Crc16(HEADER + PAYLOAD, 0xFFFF) == 0x5992
  {
    hide Step16;
    var none: bytes := [];
    Crc16Four(none, 0xFFFF, 0x44, 0x4D, 0x02, 0x01);
    var b4 := none + [0x44, 0x4D, 0x02, 0x01];
    assert Crc16(b4, 0xFFFF) == 0x0912;
    Crc16Four(b4, 0xFFFF, 0x02, 0x00, 0x34, 0x12);
    var b8 := b4 + [0x02, 0x00, 0x34, 0x12];
    assert Crc16(b8, 0xFFFF) == 0xC83E;
    Crc16Four(b8, 0xFFFF, 0x78, 0x56, 0x00, 0x01);
    var b12 := b8 + [0x78, 0x56, 0x00, 0x01];
    assert Crc16(b12, 0xFFFF) == 0xD33A;
    Crc16Four(b12, 0xFFFF, 0x06, 0x00, 0x73, 0x74);
    var b16 := b12 + [0x06, 0x00, 0x73, 0x74];
    assert Crc16(b16, 0xFFFF) == 0x753B;
    Crc16Four(b16, 0xFFFF, 0x61, 0x74, 0x75, 0x73);
    var b20 := b16 + [0x61, 0x74, 0x75, 0x73];
    assert Crc16(b20, 0xFFFF) == 0x5992;
    assert HEADER + PAYLOAD == b20;
  }

  lemma GoldenCheckBytes()
    ensures CrcBytes(0x5992) == CHECK
  {
  }

  lemma GoldenHeader()
    ensures Prefix(1, 2, 0x1234, 0x5678, 0, 1, 6) == HEADER
  {
    hide PutU16, Low;
    GoldenWords();
  }

  /** The packet both halves of the repository test their encoders with. */
  lemma GoldenPacket()
    ensures Encode(Packet(REQUEST, GET_STATUS, 0x1234, 0x5678, 0, 1, PAYLOAD), KEY) == HEADER + CHECK + TAG + PAYLOAD
  {
    hide Crc16, Tag, CrcBytes, Prefix, Low, PutU16, PutU32;
    GoldenWords();
    GoldenHeader();
    GoldenCheck();
    GoldenCheckBytes();
    GoldenTag();
  }

  // --- XTEA ---

  const WORDS: X.KeyWords := [0x03020100, 0x07060504, 0x0B0A0908, 0x0F0E0D0C]

  function Picked(s: bv32): bv32 {
    var i := s & 3;
    if i == 0 then 0x03020100 else if i == 1 then 0x07060504 else if i == 2 then 0x0B0A0908 else 0x0F0E0D0C
  }

  lemma ChosenIsPicked(s: bv32)
    ensures X.Chosen(WORDS, s) == Picked(s)
  {
    LowestTwo(s & 3);
  }

  lemma LowestTwo(s: bv32)
    requires s <= 3
    ensures s as int == if s == 0 then 0 else if s == 1 then 1 else if s == 2 then 2 else 3
  {
  }

  // A total and a block under way.
  datatype Turning = Turning(total: bv32, left: bv32, right: bv32)

  function Turned(r: Turning): Turning {
    var left := X.Plus(r.left, X.Turn(r.right, r.total, Picked(r.total)));
    var total := X.Plus(r.total, X.DELTA);
    Turning(total, left, X.Plus(r.right, X.Turn(left, total, Picked(X.Shifted(total)))))
  }

  ghost function TurningAt(p: X.Pair, n: nat): Turning {
    var r := X.Rounds(WORDS, p, n);
    Turning(X.Total(n), r.left, r.right)
  }

  lemma TurningNext(p: X.Pair, n: nat)
    ensures TurningAt(p, n + 1) == Turned(TurningAt(p, n))
  {
    hide X.Plus, X.Turn, X.Shifted, X.Chosen, Picked;
    ChosenIsPicked(X.Total(n));
    ChosenIsPicked(X.Shifted(X.Total(n + 1)));
  }

  // The states of the vector's block.
  function VectorAt(k: nat): Turning {
    match k
    case 0 => Turning(0x00000000, 0x33221100, 0x77665544)
    case 1 => Turning(0x9E3779B9, 0x2168CE2E, 0x0D1C49BE)
    case 2 => Turning(0x3C6EF372, 0x9D5E8C04, 0x3634861C)
    case 3 => Turning(0xDAA66D2B, 0x7BB53C7A, 0x0C245EAE)
    case 4 => Turning(0x78DDE6E4, 0xA3B2996E, 0xA65DDB2B)
    case 5 => Turning(0x1715609D, 0x204569DE, 0xE5EB1C3C)
    case 6 => Turning(0xB54CDA56, 0x41D83CDA, 0x8B2ACA7E)
    case 7 => Turning(0x5384540F, 0xC44E9C49, 0xE4BEDC2A)
    case 8 => Turning(0xF1BBCDC8, 0x17640DB9, 0x5B60B7A4)
    case 9 => Turning(0x8FF34781, 0xFBF10722, 0x8195015E)
    case 10 => Turning(0x2E2AC13A, 0x03F9FAEF, 0xF3EB9F8A)
    case 11 => Turning(0xCC623AF3, 0x18208493, 0x358535E2)
    case 12 => Turning(0x6A99B4AC, 0x6D156F21, 0x8075AB20)
    case 13 => Turning(0x08D12E65, 0x5B6AEEF6, 0x80AD3F84)
    case 14 => Turning(0xA708A81E, 0xDBBFD11F, 0xB79BAD39)
    case 15 => Turning(0x454021D7, 0x5D72DE33, 0x33171E5C)
    case 16 => Turning(0xE3779B90, 0x8DC133A0, 0xC7D2EDFD)
    case 17 => Turning(0x81AF1549, 0x325BDDCC, 0xA206AFA8)
    case 18 => Turning(0x1FE68F02, 0x819043B4, 0x5A7B18BF)
    case 19 => Turning(0xBE1E08BB, 0x56BE37B2, 0x5FABE8AF)
    case 20 => Turning(0x5C558274, 0xF181E355, 0xADEF879A)
    case 21 => Turning(0xFA8CFC2D, 0xC852F197, 0xF04B1144)
    case 22 => Turning(0x98C475E6, 0xBB4050D6, 0xBF1C2F96)
    case 23 => Turning(0x36FBEF9F, 0xCBD88A32, 0x78CB3496)
    case 24 => Turning(0xD5336958, 0x1A224423, 0xD9FA2EFE)
    case 25 => Turning(0x736AE311, 0xC5744BF0, 0x3A89BC5C)
    case 26 => Turning(0x11A25CCA, 0x5F1DF85B, 0xAD7EC777)
    case 27 => Turning(0xAFD9D683, 0xFBC8256B, 0xBB46AA04)
    case 28 => Turning(0x4E11503C, 0xCDD90206, 0xAC135D36)
    case 29 => Turning(0xEC48C9F5, 0xEF54F989, 0xBED85352)
    case 30 => Turning(0x8A8043AE, 0x43577F7E, 0xB61EE289)
    case 31 => Turning(0x28B7BD67, 0xD34F0E39, 0xE89B42F2)
    case _ => Turning(0xC6EF3720, 0x13990093, 0x85F7C4E1)
  }

  lemma VectorStep0(k: nat)
    requires 0 <= k < 8
    ensures Turned(VectorAt(k)) == VectorAt(k + 1)
  {
    match k
    case 0 => case 1 => case 2 => case 3 => case 4 => case 5 => case 6 => case 7 =>
  }

  lemma VectorStep1(k: nat)
    requires 8 <= k < 16
    ensures Turned(VectorAt(k)) == VectorAt(k + 1)
  {
    match k
    case 8 => case 9 => case 10 => case 11 => case 12 => case 13 => case 14 => case 15 =>
  }

  lemma VectorStep2(k: nat)
    requires 16 <= k < 24
    ensures Turned(VectorAt(k)) == VectorAt(k + 1)
  {
    match k
    case 16 => case 17 => case 18 => case 19 => case 20 => case 21 => case 22 => case 23 =>
  }

  lemma VectorStep3(k: nat)
    requires 24 <= k < 32
    ensures Turned(VectorAt(k)) == VectorAt(k + 1)
  {
    match k
    case 24 => case 25 => case 26 => case 27 => case 28 => case 29 => case 30 => case 31 =>
  }

  lemma VectorStep(k: nat)
    requires k < 32
    ensures Turned(VectorAt(k)) == VectorAt(k + 1)
  {
    hide Turned, VectorAt;
    if k < 8 {
      VectorStep0(k);
    } else if k < 16 {
      VectorStep1(k);
    } else if k < 24 {
      VectorStep2(k);
    } else {
      VectorStep3(k);
    }
  }

  const VECTOR := X.Pair(0x33221100, 0x77665544)

  lemma {:induction false} VectorRuns(k: nat)
    requires k <= 32
    ensures TurningAt(VECTOR, k) == VectorAt(k)
  {
    hide Turned;
    if k == 0 {
      VectorStarts();
    } else {
      VectorRuns(k - 1);
      TurningNext(VECTOR, k - 1);
      VectorStep(k - 1);
    }
  }

  lemma VectorStarts()
    ensures TurningAt(VECTOR, 0) == VectorAt(0)
  {
  }

  /** The vector of the repository's tests: one block under the key 00, 01, up to 0F. */
  lemma XteaVector()
    ensures X.Xtea([0x00, 0x11, 0x22, 0x33, 0x44, 0x55, 0x66, 0x77], KEY)
      == [0x93, 0x00, 0x99, 0x13, 0xE1, 0xC4, 0xF7, 0x85]
  {
    hide X.Rounds, X.Total;
    var block: bytes := [0x00, 0x11, 0x22, 0x33, 0x44, 0x55, 0x66, 0x77];
    VectorWords();
    VectorRuns(32);
    VectorPair(block);
  }

  lemma VectorWords()
    ensures X.ToWords(KEY) == WORDS
  {
    hide Word32;
    assert KEY[..4] == [0, 1, 2, 3] && KEY[4..8] == [4, 5, 6, 7];
    assert KEY[8..12] == [8, 9, 10, 11] && KEY[12..] == [12, 13, 14, 15];
    LongOf([0, 1, 2, 3], 0x03020100);
    LongOf([4, 5, 6, 7], 0x07060504);
    LongOf([8, 9, 10, 11], 0x0B0A0908);
    LongOf([12, 13, 14, 15], 0x0F0E0D0C);
  }

  lemma LongOf(b: bytes, w: bv32)
    requires |b| == 4 && WordBytes(w) == b
    ensures Word32(b) == w
  {
    X.WordOfBytes(w);
  }

  lemma VectorPair(block: bytes)
    requires block == [0x00, 0x11, 0x22, 0x33, 0x44, 0x55, 0x66, 0x77]
    ensures X.ToPair(block) == VECTOR
  {
    hide Word32;
    assert block[..4] == [0x00, 0x11, 0x22, 0x33] && block[4..] == [0x44, 0x55, 0x66, 0x77];
    LongOf([0x00, 0x11, 0x22, 0x33], 0x33221100);
    LongOf([0x44, 0x55, 0x66, 0x77], 0x77665544);
  }
}
