/** The hash and the key of a password, as the repository's tests have them: one block, step by step. */
module HashVector {
  import opened Bytes
  import opened Chains
  import opened Sha256
  import opened Wrappers

  // "correct horse battery staple"
  const PASSWORD: bytes := [
    0x63, 0x6F, 0x72, 0x72, 0x65, 0x63, 0x74, 0x20, 0x68, 0x6F, 0x72, 0x73,
    0x65, 0x20, 0x62, 0x61, 0x74, 0x74, 0x65, 0x72, 0x79, 0x20, 0x73, 0x74,
    0x61, 0x70, 0x6C, 0x65]

  const DOMAIN: bytes := [
    0x44, 0x4F, 0x53, 0x2D, 0x4D, 0x43, 0x50, 0x20, 0x63, 0x72, 0x65, 0x64,
    0x65, 0x6E, 0x74, 0x69, 0x61, 0x6C, 0x20, 0x76, 0x31, 0x00]

  // What padding adds to these fifty bytes.
  const TRAILER: bytes := [0x80, 0, 0, 0, 0, 0, 0, 0, 0, 0, 0, 0, 1, 0x90]

  // --- The message schedule ---

  function Word(i: nat): bv32 {
    match i
    case 0 => 0x444F532D case 1 => 0x4D435020 case 2 => 0x63726564 case 3 => 0x656E7469
    case 4 => 0x616C2076 case 5 => 0x3100636F case 6 => 0x72726563 case 7 => 0x7420686F
    case 8 => 0x72736520 case 9 => 0x62617474 case 10 => 0x65727920 case 11 => 0x73746170
    case 12 => 0x6C658000 case 13 => 0x00000000 case 14 => 0x00000000 case 15 => 0x00000190
    case 16 => 0x43EBC795 case 17 => 0x11A179FA case 18 => 0xB58D058B case 19 => 0x4E8CDB38
    case 20 => 0x445FB097 case 21 => 0x79DB660A case 22 => 0x6B325510 case 23 => 0x2FC8CC05
    case 24 => 0x9DDBC882 case 25 => 0x69A4ECB7 case 26 => 0x484A382D case 27 => 0x10FFA2FD
    case 28 => 0x414205AC case 29 => 0x90576A98 case 30 => 0x92A0C43E case 31 => 0xC9371994
    case 32 => 0xD0B6D125 case 33 => 0x0A6EBA7B case 34 => 0xC891B9F3 case 35 => 0xE465F91C
    case 36 => 0x82F718DE case 37 => 0x090556CC case 38 => 0xE0655F71 case 39 => 0xE6DDCC18
    case 40 => 0x0583668C case 41 => 0x6F8000D7 case 42 => 0x1CC86316 case 43 => 0x66234AF9
    case 44 => 0x81C2C3F0 case 45 => 0x9B75DEB7 case 46 => 0xA9F6700B case 47 => 0x0965276E
    case 48 => 0x902D76F5 case 49 => 0xEF8FA0D1 case 50 => 0x9F38C402 case 51 => 0xF5DE9481
    case 52 => 0x65956C14 case 53 => 0xF3F99411 case 54 => 0x636C9DAE case 55 => 0x30D9E86F
    case 56 => 0x75A80A54 case 57 => 0x0F54287C case 58 => 0x43DB4C3C case 59 => 0x9EB307E0
    case 60 => 0x513B6DFC case 61 => 0x807E354F case 62 => 0x4B0C31D5 case _ => 0xFFD3F1B7
  }

  lemma BlockSize()
    ensures |DOMAIN + PASSWORD| == 50 && |DOMAIN + PASSWORD + TRAILER| == 64
  {
  }

  lemma First0(t: nat)
    requires 0 <= t < 4
    ensures var b := DOMAIN + PASSWORD + TRAILER;
      |b| == 64 && GetBe32(b[4 * t], b[4 * t + 1], b[4 * t + 2], b[4 * t + 3]) == Word(t)
  {
    match t
    case 0 => case 1 => case 2 => case 3 =>
  }

  lemma First1(t: nat)
    requires 4 <= t < 8
    ensures var b := DOMAIN + PASSWORD + TRAILER;
      |b| == 64 && GetBe32(b[4 * t], b[4 * t + 1], b[4 * t + 2], b[4 * t + 3]) == Word(t)
  {
    match t
    case 4 => case 5 => case 6 => case 7 =>
  }

  lemma First2(t: nat)
    requires 8 <= t < 12
    ensures var b := DOMAIN + PASSWORD + TRAILER;
      |b| == 64 && GetBe32(b[4 * t], b[4 * t + 1], b[4 * t + 2], b[4 * t + 3]) == Word(t)
  {
    match t
    case 8 => case 9 => case 10 => case 11 =>
  }

  lemma First3(t: nat)
    requires 12 <= t < 16
    ensures var b := DOMAIN + PASSWORD + TRAILER;
      |b| == 64 && GetBe32(b[4 * t], b[4 * t + 1], b[4 * t + 2], b[4 * t + 3]) == Word(t)
  {
    match t
    case 12 => case 13 => case 14 => case 15 =>
  }

  lemma First(t: nat)
    requires 0 <= t < 16
    ensures var b := DOMAIN + PASSWORD + TRAILER;
      |b| == 64 && GetBe32(b[4 * t], b[4 * t + 1], b[4 * t + 2], b[4 * t + 3]) == Word(t)
  {
    hide GetBe32, Word;
    if t < 4 {
      First0(t);
    } else if t < 8 {
      First1(t);
    } else if t < 12 {
      First2(t);
    } else {
      First3(t);
    }
  }

  lemma Later0(t: nat)
    requires 16 <= t < 28
    ensures Plus(Plus(Plus(Word(t - 16), SmallSigma0(Word(t - 15))), Word(t - 7)), SmallSigma1(Word(t - 2))) == Word(t)
  {
    match t
    case 16 => case 17 => case 18 => case 19 => case 20 => case 21 => case 22 => case 23 =>
    case 24 => case 25 => case 26 => case 27 =>
  }

  lemma Later1(t: nat)
    requires 28 <= t < 40
    ensures Plus(Plus(Plus(Word(t - 16), SmallSigma0(Word(t - 15))), Word(t - 7)), SmallSigma1(Word(t - 2))) == Word(t)
  {
    match t
    case 28 => case 29 => case 30 => case 31 => case 32 => case 33 => case 34 => case 35 =>
    case 36 => case 37 => case 38 => case 39 =>
  }

  lemma Later2(t: nat)
    requires 40 <= t < 52
    ensures Plus(Plus(Plus(Word(t - 16), SmallSigma0(Word(t - 15))), Word(t - 7)), SmallSigma1(Word(t - 2))) == Word(t)
  {
    match t
    case 40 => case 41 => case 42 => case 43 => case 44 => case 45 => case 46 => case 47 =>
    case 48 => case 49 => case 50 => case 51 =>
  }

  lemma Later3(t: nat)
    requires 52 <= t < 64
    ensures Plus(Plus(Plus(Word(t - 16), SmallSigma0(Word(t - 15))), Word(t - 7)), SmallSigma1(Word(t - 2))) == Word(t)
  {
    match t
    case 52 => case 53 => case 54 => case 55 => case 56 => case 57 => case 58 => case 59 =>
    case 60 => case 61 => case 62 => case 63 =>
  }

  lemma Later(t: nat)
    requires 16 <= t < 64
    ensures Plus(Plus(Plus(Word(t - 16), SmallSigma0(Word(t - 15))), Word(t - 7)), SmallSigma1(Word(t - 2))) == Word(t)
  {
    hide Plus, SmallSigma0, SmallSigma1, Word;
    if t < 28 {
      Later0(t);
    } else if t < 40 {
      Later1(t);
    } else if t < 52 {
      Later2(t);
    } else {
      Later3(t);
    }
  }

  lemma {:induction false} Scheduled(block: Chunk, t: nat)
    requires block == DOMAIN + PASSWORD + TRAILER && t < 64
    ensures W(block, t) == Word(t)
  {
    hide GetBe32, Plus, SmallSigma0, SmallSigma1, Word;
    if t < 16 {
      First(t);
    } else {
      Scheduled(block, t - 16);
      Scheduled(block, t - 15);
      Scheduled(block, t - 7);
      Scheduled(block, t - 2);
      Later(t);
    }
  }

  // --- The rounds ---

  // The first and the fifth working variable before round t, from t = -3 on; the others are older ones.
  function Upper(i: nat): bv32 {
    match i
    case 0 => 0xA54FF53A case 1 => 0x3C6EF372 case 2 => 0xBB67AE85 case 3 => 0x6A09E667
    case 4 => 0x4057DB7A case 5 => 0xBD0BEC52 case 6 => 0x21BDB027 case 7 => 0x5921744F
    case 8 => 0x6B883C4F case 9 => 0x4DEBA209 case 10 => 0x045E47F0 case 11 => 0xE29B8F44
    case 12 => 0xCA6E07EB case 13 => 0xD4736DE3 case 14 => 0x50ACF9C3 case 15 => 0x2D6974B1
    case 16 => 0x9B92D747 case 17 => 0xCB28C189 case 18 => 0x7E4DFE10 case 19 => 0x796B33A1
    case 20 => 0x722D2BBF case 21 => 0xC0EC4FEE case 22 => 0x25C4C400 case 23 => 0xF39EAF2F
    case 24 => 0x89272B29 case 25 => 0x5ECF841A case 26 => 0x7D0D8C40 case 27 => 0x12865360
    case 28 => 0x28EB190E case 29 => 0x8BB91257 case 30 => 0x1E5DEC6D case 31 => 0x8CBB82BC
    case 32 => 0x741F639E case 33 => 0x3869C831 case 34 => 0xE3B252B5 case 35 => 0x20C42C82
    case 36 => 0x4DF3CAE5 case 37 => 0x43996B0A case 38 => 0x7775D46C case 39 => 0x9CE8F164
    case 40 => 0x70166B1E case 41 => 0xE04CEC17 case 42 => 0xD597BAA3 case 43 => 0xB3E87554
    case 44 => 0x4C0A8F37 case 45 => 0x9196559A case 46 => 0x2B906721 case 47 => 0x90739C24
    case 48 => 0x4EB2EC17 case 49 => 0x8B50BA43 case 50 => 0xD8DC4D19 case 51 => 0x15B1E8A3
    case 52 => 0xE856BF50 case 53 => 0xF040531E case 54 => 0x9C327728 case 55 => 0x8F59B098
    case 56 => 0xB3BD00FF case 57 => 0xD2468DCA case 58 => 0xA850A821 case 59 => 0x2D4ED04D
    case 60 => 0xB573F943 case 61 => 0x478C50D0 case 62 => 0x9ACF90BE case 63 => 0x71241D18
    case 64 => 0xF7343FDE case 65 => 0xA10674B2 case 66 => 0x65A449DC case _ => 0x609DA396
  }

  function Lower(i: nat): bv32 {
    match i
    case 0 => 0x5BE0CD19 case 1 => 0x1F83D9AB case 2 => 0x9B05688C case 3 => 0x510E527F
    case 4 => 0xDD1735CF case 5 => 0x7A88D3FC case 6 => 0x92B3167B case 7 => 0xE27464E2
    case 8 => 0x80D27A06 case 9 => 0x88E5EB10 case 10 => 0xEEBA20E0 case 11 => 0xA66A6A2B
    case 12 => 0xC45DD873 case 13 => 0xEA268A69 case 14 => 0x3ADA3A1E case 15 => 0x95BFDFBD
    case 16 => 0xC6956E7D case 17 => 0x6E6DC280 case 18 => 0x664FD44A case 19 => 0xF2E3053F
    case 20 => 0x22B68D31 case 21 => 0xDBC9AF78 case 22 => 0xB532E6C7 case 23 => 0xD1BD7371
    case 24 => 0x1A62FECA case 25 => 0xD68BFF08 case 26 => 0x3DD12314 case 27 => 0x5DA3EBFF
    case 28 => 0xCC963F57 case 29 => 0xC3C9C379 case 30 => 0xFCA51DF4 case 31 => 0x40FA8040
    case 32 => 0x359082EE case 33 => 0xAB88F600 case 34 => 0x1D2106C3 case 35 => 0x193B0DD8
    case 36 => 0xA4A0E050 case 37 => 0x4E93E086 case 38 => 0x6C3E4D98 case 39 => 0x0BCBD412
    case 40 => 0x5634FB2A case 41 => 0x12170201 case 42 => 0xB1A43F16 case 43 => 0xE228AF5E
    case 44 => 0xA2C92D65 case 45 => 0x1BD463D1 case 46 => 0x1DB6591C case 47 => 0x08580860
    case 48 => 0xFDE22F5A case 49 => 0x998D9010 case 50 => 0x07D87DFB case 51 => 0x6B86E5ED
    case 52 => 0x55626773 case 53 => 0x084C7190 case 54 => 0x5F11DC2B case 55 => 0x552443FA
    case 56 => 0x3DF2D861 case 57 => 0x043C8D17 case 58 => 0xF0358460 case 59 => 0xA09A09CE
    case 60 => 0xCE6E8729 case 61 => 0x83DB8B3F case 62 => 0x77AEFF56 case 63 => 0xE99D545B
    case 64 => 0xF41D38E7 case 65 => 0x61A8DA5A case 66 => 0xFB493D65 case _ => 0x25EFF40D
  }

  function State(t: nat): Hash {
    Hash(Upper(t + 3), Upper(t + 2), Upper(t + 1), Upper(t), Lower(t + 3), Lower(t + 2), Lower(t + 1), Lower(t))
  }

  lemma Turn0(t: nat)
    requires 0 <= t < 8
    ensures Round(State(t), Constant(t), Word(t)) == State(t + 1)
  {
    match t
    case 0 => case 1 => case 2 => case 3 => case 4 => case 5 => case 6 => case 7 =>
  }

  lemma Turn1(t: nat)
    requires 8 <= t < 16
    ensures Round(State(t), Constant(t), Word(t)) == State(t + 1)
  {
    match t
    case 8 => case 9 => case 10 => case 11 => case 12 => case 13 => case 14 => case 15 =>
  }

  lemma Turn2(t: nat)
    requires 16 <= t < 24
    ensures Round(State(t), Constant(t), Word(t)) == State(t + 1)
  {
    match t
    case 16 => case 17 => case 18 => case 19 => case 20 => case 21 => case 22 => case 23 =>
  }

  lemma Turn3(t: nat)
    requires 24 <= t < 32
    ensures Round(State(t), Constant(t), Word(t)) == State(t + 1)
  {
    match t
    case 24 => case 25 => case 26 => case 27 => case 28 => case 29 => case 30 => case 31 =>
  }

  lemma Turn4(t: nat)
    requires 32 <= t < 40
    ensures Round(State(t), Constant(t), Word(t)) == State(t + 1)
  {
    match t
    case 32 => case 33 => case 34 => case 35 => case 36 => case 37 => case 38 => case 39 =>
  }

  lemma Turn5(t: nat)
    requires 40 <= t < 48
    ensures Round(State(t), Constant(t), Word(t)) == State(t + 1)
  {
    match t
    case 40 => case 41 => case 42 => case 43 => case 44 => case 45 => case 46 => case 47 =>
  }

  lemma Turn6(t: nat)
    requires 48 <= t < 56
    ensures Round(State(t), Constant(t), Word(t)) == State(t + 1)
  {
    match t
    case 48 => case 49 => case 50 => case 51 => case 52 => case 53 => case 54 => case 55 =>
  }

  lemma Turn7(t: nat)
    requires 56 <= t < 64
    ensures Round(State(t), Constant(t), Word(t)) == State(t + 1)
  {
    match t
    case 56 => case 57 => case 58 => case 59 => case 60 => case 61 => case 62 => case 63 =>
  }

  lemma Turn(t: nat)
    requires 0 <= t < 64
    ensures Round(State(t), Constant(t), Word(t)) == State(t + 1)
  {
    hide Round, State, Word, Constant;
    if t < 8 {
      Turn0(t);
    } else if t < 16 {
      Turn1(t);
    } else if t < 24 {
      Turn2(t);
    } else if t < 32 {
      Turn3(t);
    } else if t < 40 {
      Turn4(t);
    } else if t < 48 {
      Turn5(t);
    } else if t < 56 {
      Turn6(t);
    } else {
      Turn7(t);
    }
  }

  lemma {:induction false} Turned(block: Chunk, n: nat)
    requires block == DOMAIN + PASSWORD + TRAILER && n <= 64
    ensures Rounds(INITIAL, block, n) == State(n)
  {
    hide Round, Word, Constant, W, State;
    Starts();
    if n > 0 {
      Turned(block, n - 1);
      Scheduled(block, n - 1);
      Turn(n - 1);
    }
  }

  lemma Starts()
    ensures INITIAL == State(0)
  {
  }

  const RESULT := Hash(0xCAA789FD, 0x210BF861, 0xDD756824, 0x9C843518,
                       0x76FE468C, 0x964EA5F1, 0x812CB405, 0x4FFE0600)

  lemma UpperEnds()
    ensures Upper(67) == 0x609DA396 && Upper(66) == 0x65A449DC
    ensures Upper(65) == 0xA10674B2 && Upper(64) == 0xF7343FDE
  {
  }

  lemma LowerEnds()
    ensures Lower(67) == 0x25EFF40D && Lower(66) == 0xFB493D65
    ensures Lower(65) == 0x61A8DA5A && Lower(64) == 0xF41D38E7
  {
  }

  lemma Added()
    ensures AddHash(INITIAL, Hash(0x609DA396, 0x65A449DC, 0xA10674B2, 0xF7343FDE,
             0x25EFF40D, 0xFB493D65, 0x61A8DA5A, 0xF41D38E7)) == RESULT
  {
  }

  lemma ResultBytes()
    ensures PutBe32(RESULT.a) == [0xCA, 0xA7, 0x89, 0xFD] && PutBe32(RESULT.b) == [0x21, 0x0B, 0xF8, 0x61]
    ensures PutBe32(RESULT.c) == [0xDD, 0x75, 0x68, 0x24] && PutBe32(RESULT.d) == [0x9C, 0x84, 0x35, 0x18]
  {
  }

  // The first half of a digest.
  lemma FirstHalf(h: Hash)
    ensures Digest(h)[..16] == PutBe32(h.a) + PutBe32(h.b) + PutBe32(h.c) + PutBe32(h.d)
  {
    hide PutBe32;
    var words := [h.a, h.b, h.c, h.d, h.e, h.f, h.g, h.h];
    Prefixes(words, 4);
    assert words[..4] == [h.a, h.b, h.c, h.d];
    assert BigEndian([h.a, h.b, h.c, h.d]) == PutBe32(h.a) + PutBe32(h.b) + PutBe32(h.c) + PutBe32(h.d) by {
      FourWords(h.a, h.b, h.c, h.d);
    }
  }

  lemma FourWords(a: bv32, b: bv32, c: bv32, d: bv32)
    ensures BigEndian([a, b, c, d]) == PutBe32(a) + PutBe32(b) + PutBe32(c) + PutBe32(d)
  {
    hide PutBe32;
    var none: seq<bv32> := [];
    assert [a][..0] == none && BigEndian([a]) == PutBe32(a);
    assert [a, b][..1] == [a] && BigEndian([a, b]) == PutBe32(a) + PutBe32(b);
    assert [a, b, c][..2] == [a, b] && BigEndian([a, b, c]) == PutBe32(a) + PutBe32(b) + PutBe32(c);
    assert [a, b, c, d][..3] == [a, b, c];
  }

  lemma {:induction false} Prefixes(words: seq<bv32>, n: nat)
    requires n <= |words|
    ensures BigEndian(words)[..4 * n] == BigEndian(words[..n])
    decreases |words|
  {
    hide PutBe32;
    if n == |words| {
      assert words[..n] == words;
    } else {
      var init := words[..|words| - 1];
      Prefixes(init, n);
      assert init[..n] == words[..n];
    }
  }

  // --- The key ---

  lemma LowOf(b: byte, n: int)
    requires Value(b) == n
    ensures Low(n) == b
  {
    hide Value, Low;
    ByteInverse(b, 0);
  }

  lemma LetterValues()
    ensures Value(0x20) == 0x20 && Value(0x2D) == 0x2D && Value(0x31) == 0x31 && Value(0x43) == 0x43
    ensures Value(0x44) == 0x44 && Value(0x4D) == 0x4D && Value(0x4F) == 0x4F && Value(0x50) == 0x50
    ensures Value(0x53) == 0x53 && Value(0x61) == 0x61 && Value(0x63) == 0x63 && Value(0x64) == 0x64
    ensures Value(0x65) == 0x65 && Value(0x69) == 0x69 && Value(0x6C) == 0x6C && Value(0x6E) == 0x6E
    ensures Value(0x72) == 0x72 && Value(0x74) == 0x74 && Value(0x76) == 0x76
  {
  }

  lemma Letter0(t: nat)
    requires 0 <= t < 7
    ensures var s := "DOS-MCP credential v1"; |s| == 21 && |DOMAIN| == 22 && Low(s[t] as int) == DOMAIN[t]
  {
    hide Low, Value;
    LetterValues();
    match t
    case 0 => LowOf(0x44, 0x44);
    case 1 => LowOf(0x4F, 0x4F);
    case 2 => LowOf(0x53, 0x53);
    case 3 => LowOf(0x2D, 0x2D);
    case 4 => LowOf(0x4D, 0x4D);
    case 5 => LowOf(0x43, 0x43);
    case 6 => LowOf(0x50, 0x50);
  }

  lemma Letter1(t: nat)
    requires 7 <= t < 14
    ensures var s := "DOS-MCP credential v1"; |s| == 21 && |DOMAIN| == 22 && Low(s[t] as int) == DOMAIN[t]
  {
    hide Low, Value;
    LetterValues();
    match t
    case 7 => LowOf(0x20, 0x20);
    case 8 => LowOf(0x63, 0x63);
    case 9 => LowOf(0x72, 0x72);
    case 10 => LowOf(0x65, 0x65);
    case 11 => LowOf(0x64, 0x64);
    case 12 => LowOf(0x65, 0x65);
    case 13 => LowOf(0x6E, 0x6E);
  }

  lemma Letter2(t: nat)
    requires 14 <= t < 21
    ensures var s := "DOS-MCP credential v1"; |s| == 21 && |DOMAIN| == 22 && Low(s[t] as int) == DOMAIN[t]
  {
    hide Low, Value;
    LetterValues();
    match t
    case 14 => LowOf(0x74, 0x74);
    case 15 => LowOf(0x69, 0x69);
    case 16 => LowOf(0x61, 0x61);
    case 17 => LowOf(0x6C, 0x6C);
    case 18 => LowOf(0x20, 0x20);
    case 19 => LowOf(0x76, 0x76);
    case 20 => LowOf(0x31, 0x31);
  }

  lemma Letter(t: nat)
    requires t < 21
    ensures var s := "DOS-MCP credential v1"; |s| == 21 && |DOMAIN| == 22 && Low(s[t] as int) == DOMAIN[t]
  {
    hide Low;
    if t < 7 {
      Letter0(t);
    } else if t < 14 {
      Letter1(t);
    } else {
      Letter2(t);
    }
  }

  lemma DomainBytes()
    ensures PASSWORD_DOMAIN == DOMAIN
  {
    hide Low;
    var s := "DOS-MCP credential v1";
    forall i | 0 <= i < |s|
      ensures Low(s[i] as int) == DOMAIN[i]
    {
      Letter(i);
    }
  }

  lemma GoldenPadding()
    ensures Padded(DOMAIN + PASSWORD) == DOMAIN + PASSWORD + TRAILER
  {
    hide Low;
    BlockSize();
    LengthBytes();
    assert Zeros(5) == [0, 0, 0, 0, 0];
    assert [0x80] + Zeros(5) + BitLength(50) == TRAILER;
  }

  lemma LengthBytes()
    ensures BitLength(50) == [0, 0, 0, 0, 0, 0, 1, 0x90]
  {
    hide Low, Value;
    Values();
    ByteInverse(0, 0);
    ByteInverse(1, 0);
    ByteInverse(0x90, 1);
  }

  lemma Values()
    ensures Value(0) == 0 && Value(1) == 1 && Value(0x90) == 0x90
  {
  }

  lemma Compressed(block: Chunk)
    requires block == DOMAIN + PASSWORD + TRAILER
    ensures Compress(INITIAL, block) == RESULT
  {
    hide Rounds, Upper, Lower, AddHash, W;
    Turned(block, 64);
    UpperEnds();
    LowerEnds();
    Added();
  }

  const KEY: bytes := [0xCA, 0xA7, 0x89, 0xFD, 0x21, 0x0B, 0xF8, 0x61,
                       0xDD, 0x75, 0x68, 0x24, 0x9C, 0x84, 0x35, 0x18]

  /** The hash of the domain and the password starts with the key of the repository's test. */
  lemma PasswordVector()
    ensures PasswordKey(PASSWORD) == Some(KEY)
  {
    hide Compress, Padded, Digest, PutBe32, Ascii;
    BlockSize();
    DomainBytes();
    GoldenPadding();
    Compressed(DOMAIN + PASSWORD + TRAILER);
    var none: bytes := [];
    HashOfChunk(none, DOMAIN + PASSWORD + TRAILER, 0);
    assert none + (DOMAIN + PASSWORD + TRAILER) == DOMAIN + PASSWORD + TRAILER;
    assert HashOf(none) == INITIAL;
    FirstHalf(RESULT);
    ResultBytes();
    assert |PASSWORD| == 28;
    assert PutBe32(RESULT.a) + PutBe32(RESULT.b) + PutBe32(RESULT.c) + PutBe32(RESULT.d) == KEY;
    assert Sha256.Sha256(PASSWORD_DOMAIN + PASSWORD) == Digest(RESULT);
  }
}
