/**
 XTEA and the session key of a handshake. The reference is a Feistel network over 32-bit words;
 the agent rewrites a block in place, the bridge masks wider integers.
 */
module SessionKeys {
  import opened Bytes
  import opened Buffers
  import opened PacketCodec
  import opened PacketMac
  import opened Wrappers

  // --- Thirty-two-bit words ---

  const DELTA: bv32 := 0x9E3779B9

  const ROUNDS := 32

  function Plus(x: bv32, y: bv32): bv32 {
    x + y
  }

  function Minus(x: bv32, y: bv32): bv32 {
    x - y
  }

  function Xor(x: bv32, y: bv32): bv32 {
    x ^ y
  }

  function Left4(x: bv32): bv32 {
    x << 4
  }

  function Right5(x: bv32): bv32 {
    x >> 5
  }

  function Spread(x: bv32): bv32 {
    Plus(Xor(Left4(x), Right5(x)), x)
  }

  lemma PlusIs(x: bv32, y: bv32)
    ensures Plus(x, y) == x + y
  {
  }

  lemma MinusIs(x: bv32, y: bv32)
    ensures Minus(x, y) == x - y
  {
  }

  lemma MinusOfSum(x: bv32, y: bv32)
    ensures Minus(x + y, y) == x
  {
  }

  lemma PlusOfDifference(x: bv32, y: bv32)
    ensures Plus(x - y, y) == x
  {
  }

  lemma MinusUndoes(x: bv32, y: bv32)
    ensures Minus(Plus(x, y), y) == x
  {
    hide *;
    PlusIs(x, y);
    MinusOfSum(x, y);
  }

  lemma PlusUndoes(x: bv32, y: bv32)
    ensures Plus(Minus(x, y), y) == x
  {
    hide *;
    MinusIs(x, y);
    PlusOfDifference(x, y);
  }

  lemma XorCancels(x: bv32, y: bv32, m: bv32)
    requires Xor(x, m) == Xor(y, m)
    ensures x == y
  {
  }

  lemma WordOfBytes(w: bv32)
    ensures Word32(WordBytes(w)) == w
  {
  }

  // --- Blocks and keys ---

  datatype Pair = Pair(left: bv32, right: bv32)

  function ToPair(b: bytes): Pair
    requires |b| == 8
  {
    Pair(Word32(b[..4]), Word32(b[4..]))
  }

  function FromPair(p: Pair): (r: bytes)
    ensures |r| == 8
  {
    WordBytes(p.left) + WordBytes(p.right)
  }

  lemma PairOfBytes(p: Pair)
    ensures ToPair(FromPair(p)) == p
  {
    hide Word32, WordBytes;
    var b := FromPair(p);
    assert b[..4] == WordBytes(p.left) && b[4..] == WordBytes(p.right);
    WordOfBytes(p.left);
    WordOfBytes(p.right);
  }

  type KeyWords = k: seq<bv32> | |k| == 4 witness [0, 0, 0, 0]

  function ToWords(key: bytes): KeyWords
    requires |key| == 16
  {
    [Word32(key[..4]), Word32(key[4..8]), Word32(key[8..12]), Word32(key[12..])]
  }

  // --- The reference ---

  function Total(n: nat): bv32 {
    if n == 0 then 0 else Plus(Total(n - 1), DELTA)
  }

  // One of the four words of the key, chosen by the two lowest bits.
  function Chosen(words: KeyWords, selector: bv32): bv32 {
    words[(selector & 3) as int]
  }

  function Shifted(x: bv32): bv32 {
    x >> 11
  }

  function Turn(x: bv32, total: bv32, word: bv32): bv32 {
    Xor(Spread(x), Plus(total, word))
  }

  function Round(words: KeyWords, n: nat, p: Pair): Pair {
    var left := Plus(p.left, Turn(p.right, Total(n), Chosen(words, Total(n))));
    Pair(left, Plus(p.right, Turn(left, Total(n + 1), Chosen(words, Shifted(Total(n + 1))))))
  }

  function Rounds(words: KeyWords, p: Pair, n: nat): Pair {
    if n == 0 then p else Round(words, n - 1, Rounds(words, p, n - 1))
  }

  function Encrypt(words: KeyWords, p: Pair): Pair {
    Rounds(words, p, ROUNDS)
  }

  // --- Every key gives a permutation of the blocks ---

  function Unround(words: KeyWords, n: nat, p: Pair): Pair {
    var right := Minus(p.right, Turn(p.left, Total(n + 1), Chosen(words, Shifted(Total(n + 1)))));
    Pair(Minus(p.left, Turn(right, Total(n), Chosen(words, Total(n)))), right)
  }

  function Unrounds(words: KeyWords, p: Pair, n: nat): Pair
    decreases n
  {
    if n == 0 then p else Unrounds(words, Unround(words, n - 1, p), n - 1)
  }

  function Decrypt(words: KeyWords, p: Pair): Pair {
    Unrounds(words, p, ROUNDS)
  }

  lemma RoundUndone(words: KeyWords, n: nat, p: Pair)
    ensures Unround(words, n, Round(words, n, p)) == p
    ensures Round(words, n, Unround(words, n, p)) == p
  {
    hide Plus, Minus, Turn, Total, Chosen, Shifted;
    var first := Turn(p.right, Total(n), Chosen(words, Total(n)));
    var left := Plus(p.left, first);
    MinusUndoes(p.left, first);
    MinusUndoes(p.right, Turn(left, Total(n + 1), Chosen(words, Shifted(Total(n + 1)))));
    var u := Unround(words, n, p);
    PlusUndoes(p.left, Turn(u.right, Total(n), Chosen(words, Total(n))));
    PlusUndoes(p.right, Turn(p.left, Total(n + 1), Chosen(words, Shifted(Total(n + 1)))));
  }

  lemma {:induction false} RoundsUndone(words: KeyWords, p: Pair, n: nat)
    ensures Unrounds(words, Rounds(words, p, n), n) == p
    ensures Rounds(words, Unrounds(words, p, n), n) == p
    decreases n
  {
    hide Round, Unround;
    if n > 0 {
      RoundUndone(words, n - 1, Rounds(words, p, n - 1));
      RoundsUndone(words, p, n - 1);
      RoundUndone(words, n - 1, p);
      RoundsUndone(words, Unround(words, n - 1, p), n - 1);
    }
  }

  /** Encryption under any key is a permutation of the blocks: decryption undoes it both ways. */
  lemma XteaPermutation(words: KeyWords, p: Pair)
    ensures Decrypt(words, Encrypt(words, p)) == p
    ensures Encrypt(words, Decrypt(words, p)) == p
  {
    hide Rounds, Unrounds;
    RoundsUndone(words, p, ROUNDS);
  }

  function Xtea(block: bytes, key: bytes): (r: bytes)
    requires |block| == 8 && |key| == 16
    ensures |r| == 8
  {
    FromPair(Encrypt(ToWords(key), ToPair(block)))
  }

  lemma XteaInjective(p: Pair, q: Pair, key: bytes)
    requires |key| == 16 && Xtea(FromPair(p), key) == Xtea(FromPair(q), key)
    ensures p == q
  {
    hide Encrypt, Decrypt, ToWords, ToPair, FromPair;
    var words := ToWords(key);
    PairOfBytes(p);
    PairOfBytes(q);
    PairOfBytes(Encrypt(words, p));
    PairOfBytes(Encrypt(words, q));
    XteaPermutation(words, p);
    XteaPermutation(words, q);
  }

  // --- The key of a session ---

  const SERVER_MASK: bv32 := 0xA5A5A5A5
  const CLIENT_MASK: bv32 := 0x5A5A5A5A

  function SessionKey(key: bytes, client: bv32, server: bv32): (r: bytes)
    requires |key| == 16
    ensures |r| == 16
  {
    Xtea(FromPair(Pair(client, server)), key)
      + Xtea(FromPair(Pair(Xor(server, SERVER_MASK), Xor(client, CLIENT_MASK))), key)
  }

  /** Under one root key, handshakes with different nonces have different session keys, and differ in either half. */
  lemma SessionKeysDiffer(key: bytes, client: bv32, server: bv32, client': bv32, server': bv32)
    requires |key| == 16 && (client, server) != (client', server')
    ensures SessionKey(key, client, server)[..8] != SessionKey(key, client', server')[..8]
    ensures SessionKey(key, client, server)[8..] != SessionKey(key, client', server')[8..]
  {
    hide Xtea, Xor;
    var a, b := Pair(client, server), Pair(client', server');
    var c := Pair(Xor(server, SERVER_MASK), Xor(client, CLIENT_MASK));
    var d := Pair(Xor(server', SERVER_MASK), Xor(client', CLIENT_MASK));
    assert SessionKey(key, client, server)[..8] == Xtea(FromPair(a), key);
    assert SessionKey(key, client', server')[..8] == Xtea(FromPair(b), key);
    assert SessionKey(key, client, server)[8..] == Xtea(FromPair(c), key);
    assert SessionKey(key, client', server')[8..] == Xtea(FromPair(d), key);
    if Xtea(FromPair(a), key) == Xtea(FromPair(b), key) {
      XteaInjective(a, b, key);
      assert false;
    }
    if Xtea(FromPair(c), key) == Xtea(FromPair(d), key) {
      XteaInjective(c, d, key);
      XorCancels(server, server', SERVER_MASK);
      XorCancels(client, client', CLIENT_MASK);
      assert false;
    }
  }

  // --- The agent: a block rewritten in place ---

  method LoadLong(value: array<byte>, at: nat) returns (w: bv32)
    requires at + 4 <= value.Length
    ensures w == Word32(value[at..at + 4])
  {
    w := (value[at] as bv32) | ((value[at + 1] as bv32) << 8) | ((value[at + 2] as bv32) << 16)
      | ((value[at + 3] as bv32) << 24);
  }

  /** `dm_xtea_encrypt`: the eight bytes from `at` on, encrypted where they are. */
  method DmXteaEncrypt(block: array<byte>, at: nat, key: array<byte>)
    requires at + 8 <= block.Length && key.Length == 16 && key != block
    modifies block
    ensures block[..] == Written(old(block[..]), at, Xtea(old(block[at..at + 8]), key[..]))
  {
    hide Word32, WordBytes, Spread, Plus, Xor, Total, Shifted, Written;
    ghost var start, keyWords := ToPair(block[at..at + 8]), ToWords(key[..]);
    var left, right := LoadPair(block, at);
    var words := LoadKey(key);
    var sum: bv32 := 0;
    assert sum == Total(0) by {
      TotalStarts();
    }
    for round := 0 to ROUNDS
      invariant sum == Total(round) && Pair(left, right) == Rounds(keyWords, start, round)
      invariant unchanged(block)
    {
      left := Plus(left, Xor(Spread(right), Plus(sum, words[(sum & 3) as int])));
      TotalGrows(round);
      sum := Plus(sum, DELTA);
      right := Plus(right, Xor(Spread(left), Plus(sum, words[(Shifted(sum) & 3) as int])));
    }
    assert Rounds(keyWords, start, ROUNDS) == Encrypt(keyWords, start);
    assert Xtea(old(block[at..at + 8]), key[..]) == FromPair(Pair(left, right));
    assert block[..] == old(block[..]);
    StorePair(block, at, left, right);
  }

  lemma TotalStarts()
    ensures Total(0) == 0
  {
  }

  lemma TotalGrows(n: nat)
    ensures Total(n + 1) == Plus(Total(n), DELTA)
  {
  }

  method LoadPair(block: array<byte>, at: nat) returns (left: bv32, right: bv32)
    requires at + 8 <= block.Length
    ensures Pair(left, right) == ToPair(block[at..at + 8])
  {
    hide Word32;
    left := LoadLong(block, at);
    right := LoadLong(block, at + 4);
    assert block[at..at + 8][..4] == block[at..at + 4];
    assert block[at..at + 8][4..] == block[at + 4..at + 4 + 4];
  }

  method LoadKey(key: array<byte>) returns (words: KeyWords)
    requires key.Length == 16
    ensures words == ToWords(key[..])
  {
    hide Word32;
    var w0 := LoadLong(key, 0);
    var w1 := LoadLong(key, 4);
    var w2 := LoadLong(key, 8);
    var w3 := LoadLong(key, 12);
    words := [w0, w1, w2, w3];
    assert key[0..0 + 4] == key[..][..4] && key[4..4 + 4] == key[..][4..8];
    assert key[8..8 + 4] == key[..][8..12] && key[12..12 + 4] == key[..][12..];
  }

  method StorePair(block: array<byte>, at: nat, left: bv32, right: bv32)
    requires at + 8 <= block.Length
    modifies block
    ensures block[..] == Written(old(block[..]), at, FromPair(Pair(left, right)))
  {
    hide WordBytes;
    CopyTo(block, at, WordBytes(left));
    CopyTo(block, at + 4, WordBytes(right));
    WrittenAfter(old(block[..]), at, WordBytes(left), WordBytes(right));
  }

  lemma WrittenAfter(s: bytes, at: nat, a: bytes, b: bytes)
    requires at + |a| + |b| <= |s|
    ensures Written(Written(s, at, a), at + |a|, b) == Written(s, at, a + b)
  {
  }

  /** `dm_derive_session_key`: both blocks are laid out first and then encrypted in place. */
  method DmDeriveSessionKey(key: array<byte>, clientNonce: bv32, serverNonce: bv32, output: array<byte>)
    requires key.Length == 16 && output.Length == 16 && key != output
    modifies output
    ensures output[..] == SessionKey(key[..], clientNonce, serverNonce)
  {
    hide Xtea, FromPair, Xor;
    var second := Pair(Xor(serverNonce, SERVER_MASK), Xor(clientNonce, CLIENT_MASK));
    StorePair(output, 0, clientNonce, serverNonce);
    StorePair(output, 8, second.left, second.right);
    ghost var a, b := FromPair(Pair(clientNonce, serverNonce)), FromPair(second);
    assert output[..] == a + b;
    assert output[0..0 + 8] == a;
    DmXteaEncrypt(output, 0, key);
    assert output[..] == Xtea(a, key[..]) + b;
    assert output[8..8 + 8] == b;
    DmXteaEncrypt(output, 8, key);
    assert output[..] == Xtea(a, key[..]) + Xtea(b, key[..]);
  }

  // --- The bridge: wider integers masked to 32 bits ---

  function Wide(x: bv32): bv64 {
    x as bv64
  }

  function Masked(x: bv64): bv64 {
    x & 0xFFFF_FFFF
  }

  function Low32(x: bv64): bv32 {
    (x & 0xFFFF_FFFF) as bv32
  }

  function WideLeft4(x: bv64): bv64 {
    x << 4
  }

  function WideRight5(x: bv64): bv64 {
    x >> 5
  }

  function WidePlus(x: bv64, y: bv64): bv64 {
    x + y
  }

  function WideXor(x: bv64, y: bv64): bv64 {
    x ^ y
  }

  // The low half of a wider integer is all that is left of it in the end.
  lemma MaskedIsLow(x: bv64)
    ensures Masked(x) == Wide(Low32(x))
  {
  }

  lemma LowOfWide(w: bv32)
    ensures Low32(Wide(w)) == w
  {
  }

  lemma LowOfLeft(w: bv32)
    ensures Low32(WideLeft4(Wide(w))) == Left4(w)
  {
  }

  lemma LowOfRight(w: bv32)
    ensures Low32(WideRight5(Wide(w))) == Right5(w)
  {
  }

  lemma LowIs(x: bv64)
    ensures Low32(x) == (x & 0xFFFF_FFFF) as bv32
  {
  }

  lemma LowOfRawSum(x: bv64, y: bv64)
    ensures Low32(x + y) == Plus((x & 0xFFFF_FFFF) as bv32, (y & 0xFFFF_FFFF) as bv32)
  {
  }

  lemma LowOfRawXor(x: bv64, y: bv64)
    ensures Low32(x ^ y) == Xor((x & 0xFFFF_FFFF) as bv32, (y & 0xFFFF_FFFF) as bv32)
  {
  }

  lemma WideOperators(x: bv64, y: bv64)
    ensures WidePlus(x, y) == x + y
    ensures WideXor(x, y) == x ^ y
  {
  }

  lemma LowOfSum(x: bv64, y: bv64)
    ensures Low32(WidePlus(x, y)) == Plus(Low32(x), Low32(y))
  {
    hide *;
    WideOperators(x, y);
    LowOfRawSum(x, y);
    LowIs(x);
    LowIs(y);
  }

  lemma LowOfXor(x: bv64, y: bv64)
    ensures Low32(WideXor(x, y)) == Xor(Low32(x), Low32(y))
  {
    hide *;
    WideOperators(x, y);
    LowOfRawXor(x, y);
    LowIs(x);
    LowIs(y);
  }

  function WideSpread(x: bv64): bv64 {
    WidePlus(WideXor(WideLeft4(x), WideRight5(x)), x)
  }

  function WideTurn(x: bv64, total: bv64, word: bv64): bv64 {
    WideXor(WideSpread(x), WidePlus(total, word))
  }

  lemma LowOfSpread(w: bv32)
    ensures Low32(WideSpread(Wide(w))) == Spread(w)
  {
    hide Wide, Low32, WideLeft4, WideRight5, WideXor, WidePlus, Left4, Right5, Plus, Xor;
    var x := Wide(w);
    LowOfWide(w);
    LowOfLeft(w);
    LowOfRight(w);
    LowOfXor(WideLeft4(x), WideRight5(x));
    LowOfSum(WideXor(WideLeft4(x), WideRight5(x)), x);
  }

  lemma WideStep(l: bv32, x: bv32, total: bv32, word: bv32)
    ensures Masked(WidePlus(Wide(l), WideTurn(Wide(x), Wide(total), Wide(word)))) == Wide(Plus(l, Turn(x, total, word)))
  {
    hide Wide, Masked, Low32, WideSpread, WidePlus, WideXor, Spread, Plus, Xor;
    LowOfWide(l);
    LowOfWide(total);
    LowOfWide(word);
    LowOfSpread(x);
    LowOfSum(Wide(total), Wide(word));
    LowOfXor(WideSpread(Wide(x)), WidePlus(Wide(total), Wide(word)));
    LowOfSum(Wide(l), WideTurn(Wide(x), Wide(total), Wide(word)));
    MaskedIsLow(WidePlus(Wide(l), WideTurn(Wide(x), Wide(total), Wide(word))));
  }

  lemma WideTotal(total: bv32)
    ensures Masked(WidePlus(Wide(total), Wide(DELTA))) == Wide(Plus(total, DELTA))
  {
    hide Wide, Masked, Low32, WidePlus, Plus;
    LowOfWide(total);
    LowOfWide(DELTA);
    LowOfSum(Wide(total), Wide(DELTA));
    MaskedIsLow(WidePlus(Wide(total), Wide(DELTA)));
  }

  // The word a wider total chooses, and the one it chooses shifted by eleven.
  function WideChosen(words: KeyWords, total: bv64): bv32 {
    words[(total & 3) as int]
  }

  function WideShifted(total: bv64): bv64 {
    total >> 11
  }

  lemma SameSelector(t: bv32)
    ensures (Wide(t) & 3) as int == (t & 3) as int
  {
  }

  lemma ShiftedIs(t: bv32)
    ensures Shifted(t) == t >> 11
  {
  }

  lemma WideIs(t: bv32)
    ensures Wide(t) == t as bv64
  {
  }

  lemma WideShiftedIs(t: bv32)
    ensures WideShifted(t as bv64) == (t >> 11) as bv64
  {
  }

  lemma WideShift(t: bv32)
    ensures WideShifted(Wide(t)) == Wide(Shifted(t))
  {
    hide *;
    ShiftedIs(t);
    WideShiftedIs(t);
    WideIs(t);
    WideIs(t >> 11);
  }

  lemma SameChosen(words: KeyWords, t: bv32)
    ensures WideChosen(words, Wide(t)) == Chosen(words, t)
  {
    hide Wide;
    SameSelector(t);
  }

  /** `xtea_encrypt` of the bridge: it raises unless the block and the key have their sizes. */
  method XteaEncrypt(block: bytes, key: bytes) returns (r: Option<bytes>)
    ensures r == if |block| == 8 && |key| == 16 then Some(Xtea(block, key)) else None
  {
    hide Word32, WordBytes, Wide, Masked, Low32, WideTurn, WidePlus, Turn, Plus, Total, Shifted, Chosen, WideChosen,
      WideShifted;
    if |block| != 8 || |key| != 16 {
      return None;
    }
    ghost var start := ToPair(block);
    var left, right := Wide(Word32(block[..4])), Wide(Word32(block[4..]));
    var words := ToWords(key);
    var total := Wide(0);
    TotalStarts();
    for i := 0 to ROUNDS
      invariant total == Wide(Total(i))
      invariant left == Wide(Rounds(words, start, i).left)
      invariant right == Wide(Rounds(words, start, i).right)
    {
      ghost var p := Rounds(words, start, i);
      ghost var l := Round(words, i, p).left;
      WideRound(words, i, p);
      left := Masked(WidePlus(left, WideTurn(right, total, Wide(WideChosen(words, total)))));
      total := Masked(WidePlus(total, Wide(DELTA)));
      right := Masked(WidePlus(right, WideTurn(left, total, Wide(WideChosen(words, WideShifted(total))))));
    }
    NarrowPair(Rounds(words, start, ROUNDS));
    r := Some(FromPair(Pair(Low32(left), Low32(right))));
  }

  lemma WideRound(words: KeyWords, n: nat, p: Pair)
    ensures var total, total', next := Wide(Total(n)), Wide(Total(n + 1)), Round(words, n, p);
      && Masked(WidePlus(Wide(p.left), WideTurn(Wide(p.right), total, Wide(WideChosen(words, total))))) == Wide(next.left)
      && Masked(WidePlus(total, Wide(DELTA))) == total'
      && Masked(WidePlus(Wide(p.right),
                         WideTurn(Wide(next.left), total', Wide(WideChosen(words, WideShifted(total')))))) == Wide(next.right)
  {
    hide Wide, Masked, WideTurn, WidePlus, Turn, Plus, Total, Shifted, Chosen, WideChosen, WideShifted;
    TotalGrows(n);
    WideTotal(Total(n));
    SameChosen(words, Total(n));
    WideStep(p.left, p.right, Total(n), Chosen(words, Total(n)));
    WideShift(Total(n + 1));
    SameChosen(words, Shifted(Total(n + 1)));
    WideStep(p.right, Round(words, n, p).left, Total(n + 1), Chosen(words, Shifted(Total(n + 1))));
  }

  lemma NarrowPair(p: Pair)
    ensures Pair(Low32(Wide(p.left)), Low32(Wide(p.right))) == p
  {
    hide Wide, Low32;
    LowOfWide(p.left);
    LowOfWide(p.right);
  }

  /** `derive_session_key` of the bridge. */
  method DeriveSessionKey(key: bytes, clientNonce: bv32, serverNonce: bv32) returns (r: Option<bytes>)
    ensures r == if |key| == 16 then Some(SessionKey(key, clientNonce, serverNonce)) else None
  {
    hide Xtea, FromPair, Xor;
    var first := FromPair(Pair(clientNonce, serverNonce));
    var second := FromPair(Pair(Xor(serverNonce, SERVER_MASK), Xor(clientNonce, CLIENT_MASK)));
    var a := XteaEncrypt(first, key);
    var b := XteaEncrypt(second, key);
    r := if a.Some? && b.Some? then Some(a.value + b.value) else None;
  }
}
