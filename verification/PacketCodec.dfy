/**
 Encoding and decoding of one packet: the bridge's `Packet.encode` and `Packet.decode`, and the
 agent's `dm_packet_encode` and `dm_packet_decode`, which check in a different order.
 */
module PacketCodec {
  import opened Buffers
  import opened Bytes
  import opened Checksums
  import opened PacketMac
  import opened Packets
  import opened Speck
  import opened Wrappers

  const HEADER_SIZE := 20
  const MAGIC: bytes := [0x44, 0x4D]
  const VERSION: byte := 2
  const NO_FLAGS: byte := 0
  const PAD: byte := 0

  datatype PacketError =
    | Truncated
    | BadMagic
    | BadVersion
    | BadFlags
    | TooLong
    | LengthMismatch
    | BadFragment
    | UnknownEnum
    | CrcMismatch
    | NotAuthentic

  function KindNumber(kind: Kind): nat {
    match kind
    case REQUEST => 1
    case RESPONSE => 2
    case ERROR => 3
  }

  function KindOf(n: nat): Option<Kind> {
    if n == 1 then Some(REQUEST) else if n == 2 then Some(RESPONSE) else if n == 3 then Some(ERROR) else None
  }

  function CrcBytes(crc: bv16): (r: bytes)
    ensures |r| == 2
  {
    [LowByte(crc), HighByte(crc)]
  }

  // --- The encoding ---

  // The fourteen bytes the checksum covers.
  function Prefix(kind: byte, opcode: byte, sessionId: Word, requestId: Word, index: byte, count: byte, length: Word)
    : (r: bytes)
    ensures |r| == 14
  {
    hide PutU16;
    MAGIC + [VERSION, kind, opcode, NO_FLAGS] + PutU16(sessionId) + PutU16(requestId) + [index, count] + PutU16(length)
  }

  function Seal(prefix: bytes, payload: bytes, key: bytes): (r: bytes)
    requires |prefix| == 14 && |payload| <= MAX_FRAGMENT_PAYLOAD && |key| == 16
    ensures |r| == HEADER_SIZE + |payload|
  {
    hide Crc16, Tag, CrcBytes;
    var authenticated := prefix + CrcBytes(Crc16(prefix + payload, 0xFFFF));
    authenticated + Tag(key, authenticated + payload) + payload
  }

  function PrefixOf(p: Packet): (r: bytes)
    requires p.Valid()
    ensures |r| == 14
  {
    hide Low;
    Prefix(Low(KindNumber(p.kind)), Low(p.opcode), p.sessionId, p.requestId, Low(p.index), Low(p.count), |p.payload|)
  }

  /** `Packet.encode` */
  function Encode(p: Packet, key: bytes): (r: bytes)
    requires p.Valid() && |key| == 16
    ensures |r| == HEADER_SIZE + |p.payload|
  {
    Seal(PrefixOf(p), p.payload, key)
  }

  // --- The bridge's decoder ---

  function CrcMatches(d: bytes, payload: bytes): bool
    requires |d| >= HEADER_SIZE
  {
    Crc16(d[..14] + payload, 0xFFFF) == Word16(d[14], d[15])
  }

  function TagMatches(d: bytes, payload: bytes, key: bytes): bool
    requires |d| >= HEADER_SIZE && |payload| <= MAX_FRAGMENT_PAYLOAD && |key| == 16
  {
    Word32(d[16..20]) == Word32(Tag(key, d[..16] + payload))
  }

  // The checks once the pad byte is gone.
  function DecodeTrimmed(d: bytes, key: bytes): Result<Packet, PacketError>
    requires HEADER_SIZE <= |d| <= HEADER_SIZE + MAX_FRAGMENT_PAYLOAD && |key| == 16
  {
    hide GetU16, Value, CrcMatches, TagMatches;
    if !(1 <= Value(d[11]) <= MAX_FRAGMENTS) then Err(BadFragment)
    else if Value(d[10]) >= Value(d[11]) then Err(BadFragment)
    else if KindOf(Value(d[3])) == None || !(1 <= Value(d[4]) <= 18) then Err(UnknownEnum)
    else if !CrcMatches(d, d[HEADER_SIZE..]) then Err(CrcMismatch)
    else if !TagMatches(d, d[HEADER_SIZE..], key) then Err(NotAuthentic)
    else Ok(Packet(KindOf(Value(d[3])).value, Value(d[4]), GetU16(d[6..8]), GetU16(d[8..10]),
                   Value(d[10]), Value(d[11]), d[HEADER_SIZE..]))
  }

  /** `Packet.decode`, its checks in their order. */
  function Decode(datagram: bytes, key: bytes): Result<Packet, PacketError>
    requires |key| == 16
  {
    hide GetU16, Value, CrcMatches, TagMatches;
    if |datagram| < HEADER_SIZE then Err(Truncated)
    else
      var length := GetU16(datagram[12..14]);
      if datagram[..2] != MAGIC then Err(BadMagic)
      else if datagram[2] != VERSION then Err(BadVersion)
      else if datagram[5] != NO_FLAGS then Err(BadFlags)
      else if length > MAX_FRAGMENT_PAYLOAD then Err(TooLong)
      else
        var padded := |datagram| == HEADER_SIZE + length + 1 && datagram[|datagram| - 1] == PAD;
        var d := if padded then datagram[..HEADER_SIZE + length] else datagram;
        if |d| != HEADER_SIZE + length then Err(LengthMismatch) else DecodeTrimmed(d, key)
  }

  // --- The agent's decoder ---

  // The codes of the agent.
  datatype DmError =
    | DM_ERR_TRUNCATED
    | DM_ERR_MAGIC
    | DM_ERR_VERSION
    | DM_ERR_LENGTH
    | DM_ERR_FRAGMENT
    | DM_ERR_CRC
    | DM_ERR_AUTH
    | DM_ERR_BUFFER
    | DM_ERR_ENUM

  // The agent's packet structure, whose fields may hold anything.
  datatype DmPacket = DmPacket(
    kind: byte,
    opcode: byte,
    flags: byte,
    sessionId: Word,
    requestId: Word,
    fragmentIndex: byte,
    fragmentCount: byte,
    payload: bytes)

  /** `dm_packet_decode`, its checks in their order. */
  function DmDecode(datagram: bytes, key: bytes): Result<DmPacket, DmError>
    requires |key| == 16
  {
    hide GetU16, Value, CrcMatches, TagMatches;
    if |datagram| < HEADER_SIZE then Err(DM_ERR_TRUNCATED)
    else if datagram[0] != MAGIC[0] || datagram[1] != MAGIC[1] then Err(DM_ERR_MAGIC)
    else if datagram[2] != VERSION then Err(DM_ERR_VERSION)
    else if datagram[5] != NO_FLAGS then Err(DM_ERR_ENUM)
    else if Value(datagram[3]) < 1 || Value(datagram[3]) > 3 || Value(datagram[4]) < 1 || Value(datagram[4]) > 18 then
      Err(DM_ERR_ENUM)
    else
      var length := GetU16(datagram[12..14]);
      if length > MAX_FRAGMENT_PAYLOAD
        || (|datagram| != HEADER_SIZE + length
            && (|datagram| != HEADER_SIZE + length + 1 || datagram[|datagram| - 1] != PAD)) then
        Err(DM_ERR_LENGTH)
      else if Value(datagram[11]) == 0 || Value(datagram[11]) > MAX_FRAGMENTS
        || Value(datagram[10]) >= Value(datagram[11]) then
        Err(DM_ERR_FRAGMENT)
      else
        var payload := datagram[HEADER_SIZE..HEADER_SIZE + length];
        if !CrcMatches(datagram, payload) then Err(DM_ERR_CRC)
        else if !TagMatches(datagram, payload, key) then Err(DM_ERR_AUTH)
        else Ok(DmPacket(datagram[3], datagram[4], datagram[5], GetU16(datagram[6..8]), GetU16(datagram[8..10]),
                         datagram[10], datagram[11], payload))
  }

  // The agent's structure and the bridge's packet hold the same fields.
  ghost predicate SameFields(dm: DmPacket, p: Packet) {
    && p.Valid()
    && dm.kind == Low(KindNumber(p.kind)) && dm.opcode == Low(p.opcode) && dm.flags == NO_FLAGS
    && dm.sessionId == p.sessionId && dm.requestId == p.requestId
    && dm.fragmentIndex == Low(p.index) && dm.fragmentCount == Low(p.count)
    && dm.payload == p.payload
  }

  // --- The two decoders agree ---

  lemma LowValue(b: byte)
    ensures Low(Value(b)) == b
  {
    hide Low, Value;
    ByteInverse(b, 0);
  }

  lemma ValueLow(n: nat)
    requires n < 256
    ensures Value(Low(n)) == n
  {
    hide Low, Value;
    LowInverse(n);
  }

  lemma KindNumberOf(n: nat)
    ensures KindOf(n) != None <==> 1 <= n <= 3
    ensures KindOf(n) != None ==> KindNumber(KindOf(n).value) == n
  {
  }

  lemma MatchesAgree(datagram: bytes, d: bytes, payload: bytes, key: bytes)
    requires HEADER_SIZE <= |d| <= |datagram| && d == datagram[..|d|]
    requires |payload| <= MAX_FRAGMENT_PAYLOAD && |key| == 16
    ensures CrcMatches(d, payload) == CrcMatches(datagram, payload)
    ensures TagMatches(d, payload, key) == TagMatches(datagram, payload, key)
  {
    hide Crc16, Tag, Word16, Word32;
    assert d[..14] == datagram[..14] && d[..16] == datagram[..16] && d[16..20] == datagram[16..20];
  }

  /** The agent and the bridge accept the same datagrams, and read the same fields from them. */
  lemma DecodersAgree(datagram: bytes, key: bytes)
    requires |key| == 16
    ensures Decode(datagram, key).Ok? <==> DmDecode(datagram, key).Ok?
    ensures Decode(datagram, key).Ok? ==> SameFields(DmDecode(datagram, key).value, Decode(datagram, key).value)
  {
    hide GetU16, Value, Low, CrcMatches, TagMatches;
    if |datagram| >= HEADER_SIZE {
      var length := GetU16(datagram[12..14]);
      assert datagram[..2] == [datagram[0], datagram[1]];
      KindNumberOf(Value(datagram[3]));
      if length <= MAX_FRAGMENT_PAYLOAD && HEADER_SIZE + length <= |datagram| {
        var d := datagram[..HEADER_SIZE + length];
        assert d[HEADER_SIZE..] == datagram[HEADER_SIZE..HEADER_SIZE + length];
        assert |datagram| == HEADER_SIZE + length ==> d == datagram;
        Within(datagram, 0, HEADER_SIZE + length, 6, 8);
        Within(datagram, 0, HEADER_SIZE + length, 8, 10);
        assert d == datagram[0..HEADER_SIZE + length];
        MatchesAgree(datagram, d, d[HEADER_SIZE..], key);
        LowValue(datagram[3]);
        LowValue(datagram[4]);
        LowValue(datagram[10]);
        LowValue(datagram[11]);
      }
    }
  }

  // --- Accepted datagrams are encodings ---

  function Join32(b0: byte, b1: byte, b2: byte, b3: byte): bv32 {
    (b0 as bv32) | ((b1 as bv32) << 8) | ((b2 as bv32) << 16) | ((b3 as bv32) << 24)
  }

  function Part0(w: bv32): byte {
    (w & 0xFF) as byte
  }

  function Part1(w: bv32): byte {
    ((w >> 8) & 0xFF) as byte
  }

  function Part2(w: bv32): byte {
    ((w >> 16) & 0xFF) as byte
  }

  function Part3(w: bv32): byte {
    ((w >> 24) & 0xFF) as byte
  }

  lemma Parts(b0: byte, b1: byte, b2: byte, b3: byte)
    ensures Part0(Join32(b0, b1, b2, b3)) == b0
    ensures Part1(Join32(b0, b1, b2, b3)) == b1
    ensures Part2(Join32(b0, b1, b2, b3)) == b2
    ensures Part3(Join32(b0, b1, b2, b3)) == b3
  {
  }

  lemma Word32IsJoin(b: bytes)
    requires |b| == 4
    ensures Word32(b) == Join32(b[0], b[1], b[2], b[3])
  {
  }

  lemma Word32Injective(a: bytes, b: bytes)
    requires |a| == 4 && |b| == 4 && Word32(a) == Word32(b)
    ensures a == b
  {
    hide Word32, Join32, Part0, Part1, Part2, Part3;
    Word32IsJoin(a);
    Word32IsJoin(b);
    Parts(a[0], a[1], a[2], a[3]);
    Parts(b[0], b[1], b[2], b[3]);
  }

  lemma SealedByChecks(d: bytes, key: bytes)
    requires HEADER_SIZE <= |d| <= HEADER_SIZE + MAX_FRAGMENT_PAYLOAD && |key| == 16
    requires CrcMatches(d, d[HEADER_SIZE..]) && TagMatches(d, d[HEADER_SIZE..], key)
    ensures d == Seal(d[..14], d[HEADER_SIZE..], key)
  {
    hide Crc16, Tag, Word16, Word32, LowByte, HighByte;
    var payload := d[HEADER_SIZE..];
    BytesOfWord(d[14], d[15]);
    assert CrcBytes(Crc16(d[..14] + payload, 0xFFFF)) == d[14..16];
    assert d[..14] + d[14..16] == d[..16];
    Word32Injective(d[16..20], Tag(key, d[..16] + payload));
    assert d == d[..16] + d[16..20] + d[20..];
  }

  lemma PrefixByFields(d: bytes)
    requires |d| >= 14
    requires d[..2] == MAGIC && d[2] == VERSION && d[5] == NO_FLAGS
    ensures d[..14] == Prefix(d[3], d[4], GetU16(d[6..8]), GetU16(d[8..10]), d[10], d[11], GetU16(d[12..14]))
  {
    hide PutU16, GetU16;
    U16Image(d[6..8]);
    U16Image(d[8..10]);
    U16Image(d[12..14]);
    var r := MAGIC + [VERSION, d[3], d[4], NO_FLAGS] + d[6..8] + d[8..10] + [d[10], d[11]] + d[12..14];
    assert d[..2] == [d[0], d[1]];
    assert r == d[..14];
  }

  // The datagram without the pad byte it may carry.
  function Trimmed(datagram: bytes): bytes
    requires |datagram| >= HEADER_SIZE
  {
    hide GetU16;
    var n := HEADER_SIZE + GetU16(datagram[12..14]);
    if |datagram| == n + 1 && datagram[|datagram| - 1] == PAD then datagram[..n] else datagram
  }

  lemma AcceptedTrimmed(datagram: bytes, key: bytes)
    requires |key| == 16 && Decode(datagram, key).Ok?
    ensures var d := Trimmed(datagram);
      && (datagram == d || datagram == d + [PAD])
      && |d| >= HEADER_SIZE && d[..2] == MAGIC && d[2] == VERSION && d[5] == NO_FLAGS
      && |d| == HEADER_SIZE + GetU16(d[12..14]) <= HEADER_SIZE + MAX_FRAGMENT_PAYLOAD
      && Decode(datagram, key) == DecodeTrimmed(d, key)
  {
    hide GetU16, DecodeTrimmed;
    var d := Trimmed(datagram);
    if d != datagram {
      assert d == datagram[0..|d|] && d[..2] == d[0..2] && datagram[..2] == datagram[0..2];
      Within(datagram, 0, |d|, 0, 2);
      Within(datagram, 0, |d|, 12, 14);
      assert datagram == d + [datagram[|datagram| - 1]];
    }
  }

  /** Every accepted datagram is the encoding of the packet it decodes to, or that and one zero byte. */
  lemma AcceptedIsEncoding(datagram: bytes, key: bytes)
    requires |key| == 16 && Decode(datagram, key).Ok?
    ensures var p := Decode(datagram, key).value;
      p.Valid() && (datagram == Encode(p, key) || datagram == Encode(p, key) + [PAD])
  {
    hide GetU16, Value, Low, CrcMatches, TagMatches, Decode, Trimmed, Prefix, Seal;
    AcceptedTrimmed(datagram, key);
    var d := Trimmed(datagram);
    SealedByChecks(d, key);
    PrefixByFields(d);
    KindNumberOf(Value(d[3]));
    LowValue(d[3]);
    LowValue(d[4]);
    LowValue(d[10]);
    LowValue(d[11]);
  }

  // --- Encodings are accepted ---

  lemma FieldsOfPrefix(d: bytes, kind: byte, opcode: byte, sessionId: Word, requestId: Word,
                       index: byte, count: byte, length: Word)
    requires |d| >= 14 && d[..14] == Prefix(kind, opcode, sessionId, requestId, index, count, length)
    ensures d[..2] == MAGIC && d[2] == VERSION && d[3] == kind && d[4] == opcode && d[5] == NO_FLAGS
    ensures GetU16(d[6..8]) == sessionId && GetU16(d[8..10]) == requestId
    ensures d[10] == index && d[11] == count && GetU16(d[12..14]) == length
  {
    hide PutU16, GetU16;
    var x := d[..14];
    assert d[..2] == x[..2] && d[6..8] == x[6..8] && d[8..10] == x[8..10] && d[12..14] == x[12..14];
    assert x[..2] == MAGIC;
    assert x[6..8] == PutU16(sessionId) && x[8..10] == PutU16(requestId) && x[12..14] == PutU16(length);
    U16RoundTrip(sessionId);
    U16RoundTrip(requestId);
    U16RoundTrip(length);
    assert d[2] == x[2] && d[3] == x[3] && d[4] == x[4] && d[5] == x[5] && d[10] == x[10] && d[11] == x[11];
  }

  lemma SealPassesChecks(prefix: bytes, payload: bytes, key: bytes)
    requires |prefix| == 14 && |payload| <= MAX_FRAGMENT_PAYLOAD && |key| == 16
    ensures var d := Seal(prefix, payload, key);
      d[..14] == prefix && d[HEADER_SIZE..] == payload && CrcMatches(d, payload) && TagMatches(d, payload, key)
  {
    hide Crc16, Tag, Word16, Word32, LowByte, HighByte;
    var d := Seal(prefix, payload, key);
    var crc := Crc16(prefix + payload, 0xFFFF);
    WordOfBytes(crc);
    assert d[..14] == prefix;
    assert d[14] == LowByte(crc) && d[15] == HighByte(crc);
    assert d[..16] == prefix + CrcBytes(crc);
    assert d[16..20] == Tag(key, d[..16] + payload);
  }

  /** Decoding inverts encoding, with or without the pad byte that makes a datagram even. */
  lemma DecodeEncode(p: Packet, key: bytes, padded: bool)
    requires p.Valid() && |key| == 16
    ensures Decode(Encode(p, key) + (if padded then [PAD] else []), key) == Ok(p)
  {
    hide GetU16, Value, Low, CrcMatches, TagMatches, Prefix, Seal;
    var d := Encode(p, key);
    var datagram := d + (if padded then [PAD] else []);
    SealPassesChecks(PrefixOf(p), p.payload, key);
    FieldsOfPrefix(d, Low(KindNumber(p.kind)), Low(p.opcode), p.sessionId, p.requestId,
                   Low(p.index), Low(p.count), |p.payload|);
    ValueLow(KindNumber(p.kind));
    ValueLow(p.opcode);
    ValueLow(p.index);
    ValueLow(p.count);
    KindOfNumber(p.kind);
    assert DecodeTrimmed(d, key) == Ok(p);
    DecodeExact(d, datagram, key);
  }

  lemma KindOfNumber(kind: Kind)
    ensures KindOf(KindNumber(kind)) == Some(kind)
  {
  }

  lemma DecodeExact(d: bytes, datagram: bytes, key: bytes)
    requires |key| == 16 && |d| >= HEADER_SIZE && (datagram == d || datagram == d + [PAD])
    requires d[..2] == MAGIC && d[2] == VERSION && d[5] == NO_FLAGS
    requires |d| == HEADER_SIZE + GetU16(d[12..14]) <= HEADER_SIZE + MAX_FRAGMENT_PAYLOAD
    ensures Decode(datagram, key) == DecodeTrimmed(d, key)
  {
    hide GetU16, DecodeTrimmed;
    assert datagram[..2] == d[..2] && datagram[12..14] == d[12..14];
    assert datagram[..|d|] == d;
  }

  // `_dos_transport_datagram`
  function EvenSized(datagram: bytes): bytes {
    if |datagram| % 2 == 0 then datagram else datagram + [PAD]
  }

  lemma EvenSizedIsWords(datagram: bytes) returns (words: nat, padded: bool)
    ensures |EvenSized(datagram)| == 2 * words
    ensures EvenSized(datagram) == datagram + (if padded then [PAD] else [])
  {
    padded := |datagram| % 2 != 0;
    words := (|datagram| + 1) / 2;
    assert datagram + [] == datagram;
  }

  /** What the bridge puts on the wire is a whole number of words and means the same at both ends. */
  lemma TransportIsTransparent(p: Packet, key: bytes) returns (words: nat)
    requires p.Valid() && |key| == 16
    ensures var d := EvenSized(Encode(p, key));
      && |d| == 2 * words && Decode(d, key) == Ok(p)
      && DmDecode(d, key).Ok? && SameFields(DmDecode(d, key).value, p)
  {
    hide Encode, Decode, DmDecode, EvenSized, SameFields;
    var padded;
    words, padded := EvenSizedIsWords(Encode(p, key));
    DecodeEncode(p, key, padded);
    DecodersAgree(EvenSized(Encode(p, key)), key);
  }

  // --- The agent's programs ---

  predicate DmValid(packet: DmPacket) {
    && packet.flags == NO_FLAGS
    && 1 <= Value(packet.kind) <= 3 && 1 <= Value(packet.opcode) <= 18
    && 1 <= Value(packet.fragmentCount) <= MAX_FRAGMENTS
    && Value(packet.fragmentIndex) < Value(packet.fragmentCount)
    && |packet.payload| <= MAX_FRAGMENT_PAYLOAD
  }

  function PacketOf(packet: DmPacket): (p: Packet)
    requires DmValid(packet)
    ensures p.Valid()
  {
    hide Value;
    KindNumberOf(Value(packet.kind));
    Packet(KindOf(Value(packet.kind)).value, Value(packet.opcode), packet.sessionId, packet.requestId,
           Value(packet.fragmentIndex), Value(packet.fragmentCount), packet.payload)
  }

  lemma PacketOfFields(packet: DmPacket)
    requires DmValid(packet)
    ensures SameFields(packet, PacketOf(packet))
    ensures PrefixOf(PacketOf(packet)) == Prefix(packet.kind, packet.opcode, packet.sessionId, packet.requestId,
                                                 packet.fragmentIndex, packet.fragmentCount, |packet.payload|)
  {
    hide Value, Low, Prefix;
    KindNumberOf(Value(packet.kind));
    LowValue(packet.kind);
    LowValue(packet.opcode);
    LowValue(packet.fragmentIndex);
    LowValue(packet.fragmentCount);
  }

  // The two buffers hold the same sealed packet once checksum and authenticator are in place.
  lemma SealedInPlace(s: bytes, prefix: bytes, payload: bytes, key: bytes)
    requires |prefix| == 14 && |payload| <= MAX_FRAGMENT_PAYLOAD && |key| == 16
    requires |s| >= HEADER_SIZE + |payload| && s[..14] == prefix
    requires s[HEADER_SIZE..HEADER_SIZE + |payload|] == payload
    ensures var crc := CrcBytes(Crc16(prefix + payload, 0xFFFF));
      var tag := Tag(key, prefix + crc + payload);
      Written(Written(s, 14, crc), 16, tag) == Seal(prefix, payload, key) + s[HEADER_SIZE + |payload|..]
  {
    hide Crc16, Tag, CrcBytes;
    var crc := CrcBytes(Crc16(prefix + payload, 0xFFFF));
    var tag := Tag(key, prefix + crc + payload);
    assert s == prefix + s[14..16] + s[16..HEADER_SIZE] + payload + s[HEADER_SIZE + |payload|..];
    assert Written(s, 14, crc) == prefix + crc + s[16..HEADER_SIZE] + payload + s[HEADER_SIZE + |payload|..];
  }

  method WriteHeader(output: array<byte>, packet: DmPacket)
    requires output.Length >= HEADER_SIZE && |packet.payload| <= MAX_FRAGMENT_PAYLOAD
    requires packet.flags == NO_FLAGS
    modifies output
    ensures output[..] == Written(old(output[..]), 0,
      Prefix(packet.kind, packet.opcode, packet.sessionId, packet.requestId,
             packet.fragmentIndex, packet.fragmentCount, |packet.payload|))
  {
    hide PutU16, Written;
    ghost var s := output[..];
    ghost var session, request, size := PutU16(packet.sessionId), PutU16(packet.requestId), PutU16(|packet.payload|);
    ghost var first := MAGIC + [VERSION, packet.kind, packet.opcode, packet.flags];
    ghost var place := [packet.fragmentIndex, packet.fragmentCount];
    CopyTo(output, 0, MAGIC + [VERSION, packet.kind, packet.opcode, packet.flags]);
    CopyTo(output, 6, PutU16(packet.sessionId));
    WrittenOn(s, first, session);
    CopyTo(output, 8, PutU16(packet.requestId));
    WrittenOn(s, first + session, request);
    CopyTo(output, 10, [packet.fragmentIndex, packet.fragmentCount]);
    WrittenOn(s, first + session + request, place);
    CopyTo(output, 12, PutU16(|packet.payload|));
    WrittenOn(s, first + session + request + place, size);
  }

  lemma HeaderAndPayload(s: bytes, prefix: bytes, payload: bytes)
    requires |prefix| == 14 && HEADER_SIZE + |payload| <= |s|
    ensures var r := Written(Written(s, 0, prefix), HEADER_SIZE, payload);
      r[..14] == prefix && r[HEADER_SIZE..HEADER_SIZE + |payload|] == payload
      && r[HEADER_SIZE + |payload|..] == s[HEADER_SIZE + |payload|..]
  {
  }

  lemma CrcWritten(s: bytes, crc: bytes)
    requires |crc| == 2 && |s| >= HEADER_SIZE
    ensures Written(s, 14, crc)[..16] == s[..14] + crc
  {
  }

  // Kind, operation and flags are known ones.
  predicate Enumerated(packet: DmPacket) {
    packet.flags == NO_FLAGS && 1 <= Value(packet.kind) <= 3 && 1 <= Value(packet.opcode) <= 18
  }

  // The fragment has a place among at most 32.
  predicate Placed(packet: DmPacket) {
    Value(packet.fragmentIndex) < Value(packet.fragmentCount) <= MAX_FRAGMENTS
  }

  /** `dm_packet_encode`: the packet at the front of the output, or a code and the output untouched. */
  method DmPacketEncode(packet: DmPacket, key: array<byte>, output: array<byte>, capacity: nat, scratch: array<byte>)
      returns (code: Option<DmError>, length: nat)
    requires key.Length == 16 && scratch.Length == HEADER_SIZE + MAX_FRAGMENT_PAYLOAD && capacity <= output.Length
    requires output != scratch && key != scratch && key != output
    modifies output, scratch
    ensures code == None <==> DmValid(packet) && HEADER_SIZE + |packet.payload| <= capacity
    ensures code == None ==>
      length == HEADER_SIZE + |packet.payload|
      && output[..] == Encode(PacketOf(packet), key[..]) + old(output[length..])
    ensures code != None ==> output[..] == old(output[..])
    ensures code == Some(DM_ERR_ENUM) <==> !Enumerated(packet)
    ensures code == Some(DM_ERR_FRAGMENT) <==> Enumerated(packet) && !Placed(packet)
    ensures code == Some(DM_ERR_LENGTH) <==>
      Enumerated(packet) && Placed(packet) && |packet.payload| > MAX_FRAGMENT_PAYLOAD
    ensures code == Some(DM_ERR_BUFFER) <==> DmValid(packet) && HEADER_SIZE + |packet.payload| > capacity
  {
    hide Value, Low, Crc16, Tag, Prefix, PutU16, Word32, Seal, Written, CrcBytes;
    length := 0;
    if packet.flags != NO_FLAGS {
      return Some(DM_ERR_ENUM), 0;
    }
    if Value(packet.kind) < 1 || Value(packet.kind) > 3 || Value(packet.opcode) < 1 || Value(packet.opcode) > 18 {
      return Some(DM_ERR_ENUM), 0;
    }
    if Value(packet.fragmentCount) == 0 || Value(packet.fragmentCount) > MAX_FRAGMENTS
      || Value(packet.fragmentIndex) >= Value(packet.fragmentCount) {
      return Some(DM_ERR_FRAGMENT), 0;
    }
    if |packet.payload| > MAX_FRAGMENT_PAYLOAD {
      return Some(DM_ERR_LENGTH), 0;
    }
    var total := HEADER_SIZE + |packet.payload|;
    if capacity < total {
      return Some(DM_ERR_BUFFER), 0;
    }
    PacketOfFields(packet);
    WriteAndSeal(packet, key, output, scratch);
    return None, total;
  }

  // The part of `dm_packet_encode` after its checks.
  method WriteAndSeal(packet: DmPacket, key: array<byte>, output: array<byte>, scratch: array<byte>)
    requires key.Length == 16 && scratch.Length == HEADER_SIZE + MAX_FRAGMENT_PAYLOAD
    requires packet.flags == NO_FLAGS && |packet.payload| <= MAX_FRAGMENT_PAYLOAD
    requires HEADER_SIZE + |packet.payload| <= output.Length
    requires output != scratch && key != scratch && key != output
    modifies output, scratch
    ensures output[..] == Seal(Prefix(packet.kind, packet.opcode, packet.sessionId, packet.requestId,
                                      packet.fragmentIndex, packet.fragmentCount, |packet.payload|),
                               packet.payload, key[..]) + old(output[HEADER_SIZE + |packet.payload|..])
  {
    hide Crc16, Tag, Prefix, Word32, Seal, CrcBytes, WordBytes, Written;
    var payload := packet.payload;
    ghost var start := output[..];
    WriteHeader(output, packet);
    CopyTo(output, HEADER_SIZE, payload);
    ghost var prefix := output[..14];
    ghost var filled := output[..];
    HeaderAndPayload(start, Prefix(packet.kind, packet.opcode, packet.sessionId, packet.requestId,
                                   packet.fragmentIndex, packet.fragmentCount, |packet.payload|), payload);
    FrontWritten(scratch[..], prefix, payload);
    CopyTo(scratch, 0, output[..14]);
    CopyTo(scratch, 14, payload);
    assert scratch[..14 + |payload|] == prefix + payload;
    var crc := DmCrc16Ccitt(scratch, 14 + |payload|);
    CopyTo(output, 14, CrcBytes(crc));
    CrcWritten(filled, CrcBytes(crc));
    FrontWritten(scratch[..], prefix + CrcBytes(crc), payload);
    CopyTo(scratch, 0, output[..16]);
    CopyTo(scratch, 16, payload);
    assert scratch[..16 + |payload|] == prefix + CrcBytes(crc) + payload;
    var mac := DmPacketMac(scratch, 16 + |payload|, key);
    CopyTo(output, 16, WordBytes(mac));
    TagBytes(Tag(key[..], prefix + CrcBytes(crc) + payload));
    SealedInPlace(filled, prefix, payload, key[..]);
  }

  // `dm_put_u32`
  function WordBytes(mac: bv32): (r: bytes)
    ensures |r| == 4
  {
    [Part0(mac), Part1(mac), Part2(mac), Part3(mac)]
  }

  lemma TagBytes(tag: bytes)
    requires |tag| == 4
    ensures WordBytes(Word32(tag)) == tag
  {
    hide Word32, Join32, Part0, Part1, Part2, Part3;
    Word32IsJoin(tag);
    Parts(tag[0], tag[1], tag[2], tag[3]);
  }

  /** `dm_packet_decode`. */
  method DmPacketDecode(datagram: array<byte>, length: nat, key: array<byte>, scratch: array<byte>)
      returns (r: Result<DmPacket, DmError>)
    requires length <= datagram.Length && key.Length == 16
    requires scratch.Length == HEADER_SIZE + MAX_FRAGMENT_PAYLOAD && scratch != datagram && scratch != key
    modifies scratch
    ensures r == DmDecode(datagram[..length], key[..])
  {
    hide GetU16, Value, Crc16, Tag, Word16, Word32, Written;
    ghost var d := datagram[..length];
    if length < HEADER_SIZE {
      return Err(DM_ERR_TRUNCATED);
    }
    if datagram[0] != MAGIC[0] || datagram[1] != MAGIC[1] {
      return Err(DM_ERR_MAGIC);
    }
    if datagram[2] != VERSION {
      return Err(DM_ERR_VERSION);
    }
    if datagram[5] != NO_FLAGS {
      return Err(DM_ERR_ENUM);
    }
    if Value(datagram[3]) < 1 || Value(datagram[3]) > 3 || Value(datagram[4]) < 1 || Value(datagram[4]) > 18 {
      return Err(DM_ERR_ENUM);
    }
    assert datagram[12..14] == d[12..14];
    var payloadLength := GetU16(datagram[12..14]);
    if payloadLength > MAX_FRAGMENT_PAYLOAD
      || (length != HEADER_SIZE + payloadLength
          && (length != HEADER_SIZE + payloadLength + 1 || datagram[length - 1] != PAD)) {
      return Err(DM_ERR_LENGTH);
    }
    if Value(datagram[11]) == 0 || Value(datagram[11]) > MAX_FRAGMENTS
      || Value(datagram[10]) >= Value(datagram[11]) {
      return Err(DM_ERR_FRAGMENT);
    }
    var error := CheckSeal(datagram, length, payloadLength, key, scratch);
    if error.Some? {
      return Err(error.value);
    }
    assert datagram[6..8] == d[6..8] && datagram[8..10] == d[8..10];
    assert datagram[HEADER_SIZE..HEADER_SIZE + payloadLength] == d[HEADER_SIZE..HEADER_SIZE + payloadLength];
    r := Ok(DmPacket(datagram[3], datagram[4], datagram[5], GetU16(datagram[6..8]), GetU16(datagram[8..10]),
                     datagram[10], datagram[11], datagram[HEADER_SIZE..HEADER_SIZE + payloadLength]));
  }

  // The two checks that use the scratch buffer.
  method CheckSeal(datagram: array<byte>, length: nat, payloadLength: nat, key: array<byte>, scratch: array<byte>)
      returns (error: Option<DmError>)
    requires HEADER_SIZE + payloadLength <= length <= datagram.Length && payloadLength <= MAX_FRAGMENT_PAYLOAD
    requires key.Length == 16
    requires scratch.Length == HEADER_SIZE + MAX_FRAGMENT_PAYLOAD && scratch != datagram && scratch != key
    modifies scratch
    ensures var d := datagram[..length];
      var payload := d[HEADER_SIZE..HEADER_SIZE + payloadLength];
      error == if !CrcMatches(d, payload) then Some(DM_ERR_CRC)
               else if !TagMatches(d, payload, key[..]) then Some(DM_ERR_AUTH) else None
  {
    hide Crc16, Tag, Word16, Word32;
    ghost var d := datagram[..length];
    ghost var payload := d[HEADER_SIZE..HEADER_SIZE + payloadLength];
    CopyTo(scratch, 0, datagram[..14]);
    CopyTo(scratch, 14, datagram[HEADER_SIZE..HEADER_SIZE + payloadLength]);
    assert scratch[..14 + payloadLength] == d[..14] + payload;
    var crc := DmCrc16Ccitt(scratch, 14 + payloadLength);
    if crc != Word16(datagram[14], datagram[15]) {
      return Some(DM_ERR_CRC);
    }
    CopyTo(scratch, 0, datagram[..16]);
    CopyTo(scratch, 16, datagram[HEADER_SIZE..HEADER_SIZE + payloadLength]);
    assert scratch[..16 + payloadLength] == d[..16] + payload;
    var mac := DmPacketMac(scratch, 16 + payloadLength, key);
    assert datagram[16..20] == d[16..20];
    if mac != Word32(datagram[16..20]) {
      return Some(DM_ERR_AUTH);
    }
    return None;
  }
}
