/**
 IPv4 and UDP framing of the agent: every frame it builds is one its peer's poll takes, with the
 payload and the sender that went in, however the frame was padded.
 */
module DmNet {
  import opened Buffers
  import opened Bytes
  import opened Wrappers

  const ETH_HEADER := 14
  const IP_HEADER := 20
  const UDP_HEADER := 8
  const MAX_FRAME := 1518
  const MIN_FRAME := 60
  const MAX_PAYLOAD := MAX_FRAME - ETH_HEADER - IP_HEADER - UDP_HEADER

  // --- Big-endian words ---

  function WriteBe16(n: Word): (r: bytes)
    ensures |r| == 2
  {
    hide Low;
    [Low(n / 256), Low(n)]
  }

  function ReadBe16(high: byte, low: byte): (n: Word) {
    hide Value;
    256 * Value(high) + Value(low)
  }

  lemma Be16RoundTrip(n: Word)
    ensures ReadBe16(WriteBe16(n)[0], WriteBe16(n)[1]) == n
  {
    hide Low, Value;
    LowInverse(n);
    LowInverse(n / 256);
    Remainder(n / 256, 0, n / 256);
  }

  // --- The checksum of section 1 of RFC 1071 ---

  // The sum of the words; a last odd byte is the high half of one more.
  function Sum(data: bytes): nat {
    hide ReadBe16, Value;
    if |data| == 0 then 0
    else if |data| == 1 then 256 * Value(data[0])
    else ReadBe16(data[0], data[1]) + Sum(data[2..])
  }

  // One's-complement folding: the carries are added back in until there are none.
  function Fold(n: nat): (r: nat)
    ensures r < 0x1_0000
    ensures r % 65535 == n % 65535
    ensures r == 0 <==> n == 0
  {
    if n < 0x1_0000 then n else Fold(n % 0x1_0000 + n / 0x1_0000)
  }

  function Checksum(data: bytes): Word {
    hide Sum, Fold;
    65535 - Fold(Sum(data))
  }

  // No sum of the words of a buffer outgrows 32 bits.
  lemma {:induction false} SumFits(data: bytes)
    ensures Sum(data) <= 65535 * ((|data| + 1) / 2)
    decreases |data|
  {
    hide ReadBe16, Value;
    if |data| >= 2 {
      SumFits(data[2..]);
    }
  }

  /** `ip_checksum`: both loops end, and the result is the complement of the folded sum. */
  method IpChecksum(data: bytes) returns (checksum: Word)
    requires |data| < 0x1_0000
    ensures checksum == Checksum(data)
  {
    hide Fold, ReadBe16, Value;
    var sum: nat := 0;
    var rest := data;
    while |rest| > 1
      invariant sum + Sum(rest) == Sum(data)
      decreases |rest|
    {
      sum := sum + ReadBe16(rest[0], rest[1]);
      rest := rest[2..];
    }
    if |rest| > 0 {
      sum := sum + 256 * Value(rest[0]);
    }
    assert sum == Sum(data);
    while sum / 0x1_0000 != 0
      invariant Fold(sum) == Fold(Sum(data))
      decreases sum
    {
      FoldOnce(sum);
      sum := sum % 0x1_0000 + sum / 0x1_0000;
    }
    FoldDone(sum);
    checksum := 65535 - sum;
  }

  lemma FoldOnce(n: nat)
    requires n >= 0x1_0000
    ensures Fold(n) == Fold(n % 0x1_0000 + n / 0x1_0000) && n % 0x1_0000 + n / 0x1_0000 < n
  {
  }

  lemma FoldDone(n: nat)
    requires n < 0x1_0000
    ensures Fold(n) == n
  {
  }

  lemma {:induction false} SumAppend(a: bytes, b: bytes, k: nat)
    requires |a| == 2 * k
    ensures Sum(a + b) == Sum(a) + Sum(b)
  {
    hide ReadBe16, Value;
    if k == 0 {
      assert a + b == b;
    } else {
      SumAppend(a[2..], b, k - 1);
      assert (a + b)[2..] == a[2..] + b;
    }
  }

  /** A header with its checksum in place sums to a negative zero, so that its checksum is zero. */
  lemma ChecksumVerifies(before: bytes, after: bytes, k: nat)
    requires |before| == 2 * k && Sum(before + [0, 0] + after) > 0
    ensures Checksum(before + WriteBe16(Checksum(before + [0, 0] + after)) + after) == 0
  {
    hide Fold, WriteBe16, ReadBe16;
    var blank := before + [0, 0] + after;
    var c := Checksum(blank);
    var field := WriteBe16(c);
    SumOfThree(before, [0, 0], after, k);
    SumOfThree(before, field, after, k);
    SumOfField(c);
    SumOfZero();
    var total := Sum(blank) + c;
    assert Sum(before + field + after) == total;
    MultipleOf65535(Sum(blank), Fold(Sum(blank)));
    NegativeZero(total);
  }

  lemma SumOfThree(a: bytes, b: bytes, c: bytes, k: nat)
    requires |a| == 2 * k && |b| == 2
    ensures Sum(a + b + c) == Sum(a) + Sum(b) + Sum(c)
  {
    hide Sum;
    SumAppend(a + b, c, k + 1);
    SumAppend(a, b, k);
  }

  lemma SumOfField(n: Word)
    ensures Sum(WriteBe16(n)) == n
  {
    hide WriteBe16, ReadBe16;
    Be16RoundTrip(n);
    assert WriteBe16(n)[2..] == [];
  }

  lemma SumOfZero()
    ensures Sum([0, 0]) == 0
  {
  }

  lemma MultipleOf65535(n: nat, folded: nat)
    requires folded < 0x1_0000 && folded % 65535 == n % 65535
    ensures (n + (65535 - folded)) % 65535 == 0
  {
  }

  lemma NegativeZero(total: nat)
    requires total % 65535 == 0 && total > 0
    ensures Fold(total) == 65535
  {
    hide Fold;
    var r := Fold(total);
    assert r % 65535 == 0 && 0 < r < 0x1_0000;
  }

  // --- Frames ---

  datatype Peer = Peer(mac: bytes, ip: bytes, port: Word)
  {
    predicate Valid() {
      |mac| == 6 && |ip| == 4
    }
  }

  datatype Udp = Udp(from: Peer, payload: bytes)

  // The header of section 3.1 of RFC 791, with this value in its checksum field.
  function IpHeader(from: Peer, to: Peer, length: Word, id: Word, ttl: byte, field: bytes): (r: bytes)
    requires from.Valid() && to.Valid() && |field| == 2
    ensures |r| == IP_HEADER
  {
    hide WriteBe16;
    [0x45, 0] + WriteBe16(length) + WriteBe16(id) + [0, 0, ttl, 17] + field + from.ip + to.ip
  }

  function SealedHeader(from: Peer, to: Peer, length: Word, id: Word, ttl: byte): (r: bytes)
    requires from.Valid() && to.Valid()
    ensures |r| == IP_HEADER
  {
    hide Checksum, WriteBe16;
    IpHeader(from, to, length, id, ttl, WriteBe16(Checksum(IpHeader(from, to, length, id, ttl, [0, 0]))))
  }

  // Up to the minimum length, and to an even one.
  function Padding(length: nat): nat {
    if length < MIN_FRAME then MIN_FRAME - length else length % 2
  }

  lemma PaddedLength(length: nat) returns (words: nat)
    requires length <= MAX_FRAME
    ensures MIN_FRAME <= length + Padding(length) <= MAX_FRAME && length + Padding(length) == 2 * words
  {
    words := (length + Padding(length)) / 2;
  }

  function UdpHeader(from: Peer, to: Peer, length: nat): (r: bytes)
    requires length <= MAX_PAYLOAD
    ensures |r| == UDP_HEADER
  {
    hide WriteBe16;
    WriteBe16(from.port) + WriteBe16(to.port) + WriteBe16(UDP_HEADER + length) + WriteBe16(0)
  }

  function EthernetHeader(from: Peer, to: Peer): (r: bytes)
    requires from.Valid() && to.Valid()
    ensures |r| == ETH_HEADER
  {
    hide WriteBe16;
    to.mac + from.mac + WriteBe16(0x0800)
  }

  // A frame before it is padded.
  function Unpadded(from: Peer, to: Peer, id: Word, ttl: byte, payload: bytes): (r: bytes)
    requires from.Valid() && to.Valid() && |payload| <= MAX_PAYLOAD
    ensures |r| == ETH_HEADER + IP_HEADER + UDP_HEADER + |payload|
  {
    hide SealedHeader, UdpHeader, EthernetHeader;
    EthernetHeader(from, to) + SealedHeader(from, to, IP_HEADER + UDP_HEADER + |payload|, id, ttl)
    + UdpHeader(from, to, |payload|) + payload
  }

  /** The frame `send_to` hands to the driver. */
  function Frame(from: Peer, to: Peer, id: Word, ttl: byte, payload: bytes): (r: bytes)
    requires from.Valid() && to.Valid() && |payload| <= MAX_PAYLOAD
    ensures |r| == |Unpadded(from, to, id, ttl, payload)| + Padding(|Unpadded(from, to, id, ttl, payload)|)
  {
    hide Unpadded, Padding;
    var frame := Unpadded(from, to, id, ttl, payload);
    frame + Zeros(Padding(|frame|))
  }

  /** A frame has at least the minimum length, fits the buffer, and is a whole number of words. */
  lemma FrameIsWords(from: Peer, to: Peer, id: Word, ttl: byte, payload: bytes) returns (words: nat)
    requires from.Valid() && to.Valid() && |payload| <= MAX_PAYLOAD
    ensures |Frame(from, to, id, ttl, payload)| == 2 * words && MIN_FRAME <= 2 * words <= MAX_FRAME
  {
    hide Unpadded, Padding, Frame;
    words := PaddedLength(|Unpadded(from, to, id, ttl, payload)|);
  }

  /** `dm_net_poll`, its checks in their order: the datagram in a frame for this address and port. */
  function Poll(frame: bytes, ip: bytes, port: Word): Option<Udp>
    requires |ip| == 4
  {
    hide ReadBe16, Value, Checksum;
    if |frame| < ETH_HEADER then None
    else if ReadBe16(frame[12], frame[13]) != 0x0800 || |frame| < ETH_HEADER + IP_HEADER then None
    else
      var packet := frame[ETH_HEADER..];
      var headerLength := Value(packet[0]) % 16 * 4;
      var length := ReadBe16(packet[2], packet[3]);
      if Value(packet[0]) / 16 != 4 || headerLength < IP_HEADER then None
      else if length < headerLength + UDP_HEADER || ETH_HEADER + length > |frame| then None
      else if Value(packet[9]) != 17 || ReadBe16(packet[6], packet[7]) % 0x4000 != 0 then None
      else if packet[16..20] != ip || Checksum(packet[..headerLength]) != 0 then None
      else
        var udp := packet[headerLength..];
        var udpLength := ReadBe16(udp[4], udp[5]);
        if udpLength < UDP_HEADER || udpLength > length - headerLength || ReadBe16(udp[2], udp[3]) != port then None
        else
          Some(Udp(Peer(frame[6..12], packet[12..16], ReadBe16(udp[0], udp[1])), udp[UDP_HEADER..udpLength]))
  }

  // --- Every frame is delivered ---

  lemma ReadsBack(s: bytes, at: nat, n: Word)
    requires at + 2 <= |s| && s[at..at + 2] == WriteBe16(n)
    ensures ReadBe16(s[at], s[at + 1]) == n
  {
    hide WriteBe16, ReadBe16;
    Be16RoundTrip(n);
    assert s[at..at + 2][0] == s[at] && s[at..at + 2][1] == s[at + 1];
  }

  // The fields of a header, whatever is in its checksum field.
  lemma HeaderFields(h: bytes, from: Peer, to: Peer, length: Word, id: Word, ttl: byte, field: bytes)
    requires from.Valid() && to.Valid() && |field| == 2 && h == IpHeader(from, to, length, id, ttl, field)
    ensures h[0] == 0x45 && ReadBe16(h[2], h[3]) == length && h[6] == 0 && h[7] == 0 && h[9] == 17
    ensures h[10..12] == field && h[12..16] == from.ip && h[16..20] == to.ip
    ensures h == h[..10] + field + h[12..]
  {
    hide WriteBe16, ReadBe16;
    var l, n := WriteBe16(length), WriteBe16(id);
    assert h == [0x45, 0, l[0], l[1], n[0], n[1], 0, 0, ttl, 17] + field + (from.ip + to.ip);
    assert l == [l[0], l[1]];
    assert h[2..4] == l;
    ReadsBack(h, 2, length);
    assert h[12..] == from.ip + to.ip;
    Within(h, 12, |h|, 0, 4);
    Within(h, 12, |h|, 4, 8);
  }

  lemma {:induction false} SumPositive(s: bytes)
    requires |s| >= 2 && s[0] == 0x45
    ensures Sum(s) > 0
  {
    hide Value;
    Values();
  }

  lemma Values()
    ensures Value(0x45) == 69 && Value(17) == 17 && Value(0) == 0
  {
  }

  lemma SealedVerifies(from: Peer, to: Peer, length: Word, id: Word, ttl: byte)
    requires from.Valid() && to.Valid()
    ensures Checksum(SealedHeader(from, to, length, id, ttl)) == 0
  {
    hide Checksum, WriteBe16, ReadBe16, Sum;
    var blank := IpHeader(from, to, length, id, ttl, [0, 0]);
    var sealed := SealedHeader(from, to, length, id, ttl);
    HeaderFields(blank, from, to, length, id, ttl, [0, 0]);
    HeaderFields(sealed, from, to, length, id, ttl, WriteBe16(Checksum(blank)));
    SumPositive(blank);
    assert sealed[..10] == blank[..10] && sealed[12..] == blank[12..];
    ChecksumVerifies(blank[..10], blank[12..], 5);
  }

  // A frame in its parts.
  lemma FrameParts(frame: bytes, from: Peer, to: Peer, header: bytes, udp: bytes, payload: bytes, rest: bytes)
    requires from.Valid() && to.Valid() && |header| == IP_HEADER && |udp| == UDP_HEADER
    requires frame == EthernetHeader(from, to) + header + udp + payload + rest
    ensures frame[6..12] == from.mac && ReadBe16(frame[12], frame[13]) == 0x0800
    ensures var packet := frame[ETH_HEADER..];
      packet[..IP_HEADER] == header && packet[IP_HEADER..][..UDP_HEADER] == udp
      && packet[IP_HEADER..][UDP_HEADER..UDP_HEADER + |payload|] == payload
  {
    hide WriteBe16, ReadBe16;
    assert frame[12..14] == WriteBe16(0x0800);
    ReadsBack(frame, 12, 0x0800);
    var packet := frame[ETH_HEADER..];
    assert packet == header + udp + payload + rest;
    assert packet[IP_HEADER..] == udp + payload + rest;
  }

  lemma UdpFields(u: bytes, from: Peer, to: Peer, length: nat)
    requires length <= MAX_PAYLOAD && u == UdpHeader(from, to, length)
    ensures ReadBe16(u[0], u[1]) == from.port && ReadBe16(u[2], u[3]) == to.port
    ensures ReadBe16(u[4], u[5]) == UDP_HEADER + length
  {
    hide WriteBe16, ReadBe16;
    assert u[0..2] == WriteBe16(from.port) && u[2..4] == WriteBe16(to.port) && u[4..6] == WriteBe16(UDP_HEADER + length);
    ReadsBack(u, 0, from.port);
    ReadsBack(u, 2, to.port);
    ReadsBack(u, 4, UDP_HEADER + length);
  }

  /** Every frame built for a peer is taken by that peer's poll, with the same payload and sender. */
  lemma FrameIsDelivered(from: Peer, to: Peer, id: Word, ttl: byte, payload: bytes)
    requires from.Valid() && to.Valid() && |payload| <= MAX_PAYLOAD
    ensures Poll(Frame(from, to, id, ttl, payload), to.ip, to.port) == Some(Udp(from, payload))
  {
    hide SealedHeader, UdpHeader, EthernetHeader, Padding, ReadBe16, Value, Checksum, WriteBe16;
    var size := IP_HEADER + UDP_HEADER + |payload|;
    var frame := Frame(from, to, id, ttl, payload);
    var header, udp := SealedHeader(from, to, size, id, ttl), UdpHeader(from, to, |payload|);
    FrameParts(frame, from, to, header, udp, payload, Zeros(Padding(ETH_HEADER + size)));
    SealedFields(from, to, size, id, ttl);
    SealedVerifies(from, to, size, id, ttl);
    UdpFields(udp, from, to, |payload|);
    Values();
    PollTakes(frame, from, to, header, udp, payload);
  }

  lemma SealedFields(from: Peer, to: Peer, length: Word, id: Word, ttl: byte)
    requires from.Valid() && to.Valid()
    ensures var h := SealedHeader(from, to, length, id, ttl);
      && h[0] == 0x45 && ReadBe16(h[2], h[3]) == length && h[6] == 0 && h[7] == 0 && h[9] == 17
      && h[12..16] == from.ip && h[16..20] == to.ip
  {
    hide Checksum, WriteBe16, ReadBe16, IpHeader;
    var blank := IpHeader(from, to, length, id, ttl, [0, 0]);
    HeaderFields(SealedHeader(from, to, length, id, ttl), from, to, length, id, ttl, WriteBe16(Checksum(blank)));
  }

  /** Fields are big-endian. */
  lemma HighestFirst(n: Word)
    ensures 0x100 * Value(WriteBe16(n)[0]) + Value(WriteBe16(n)[1]) == n
  {
    hide WriteBe16, Value;
    Be16RoundTrip(n);
  }

  /** Every field of a frame, by the place RFC 894, RFC 791 and RFC 768 give it. */
  lemma FramePositions(from: Peer, to: Peer, id: Word, ttl: byte, payload: bytes)
    requires from.Valid() && to.Valid() && |payload| <= MAX_PAYLOAD
    ensures var f := Frame(from, to, id, ttl, payload);
      && |f| >= 42 + |payload| && f[..6] == to.mac && f[6..12] == from.mac && f[12..14] == WriteBe16(0x0800)
      && f[14] == 0x45 && f[16..18] == WriteBe16(28 + |payload|) && f[18..20] == WriteBe16(id)
      && f[22] == ttl && f[23] == 17 && f[26..30] == from.ip && f[30..34] == to.ip
    ensures var f := Frame(from, to, id, ttl, payload);
      && |f| >= 42 + |payload| && f[34..36] == WriteBe16(from.port) && f[36..38] == WriteBe16(to.port)
      && f[38..42] == WriteBe16(8 + |payload|) + WriteBe16(0) && f[42..42 + |payload|] == payload
  {
    hide WriteBe16, Padding, Checksum, Frame, Unpadded;
    var u, f := Unpadded(from, to, id, ttl, payload), Frame(from, to, id, ttl, payload);
    FrameStarts(from, to, id, ttl, payload);
    assert u[..16] == to.mac + from.mac + WriteBe16(0x0800) + [0x45, 0];
    assert u[16..18] == WriteBe16(28 + |payload|) && u[18..20] == WriteBe16(id);
    assert forall k :: 0 <= k < |u| ==> f[k] == u[k];
  }

  lemma FrameStarts(from: Peer, to: Peer, id: Word, ttl: byte, payload: bytes)
    requires from.Valid() && to.Valid() && |payload| <= MAX_PAYLOAD
    ensures var u := Unpadded(from, to, id, ttl, payload);
      && |u| <= |Frame(from, to, id, ttl, payload)| && Frame(from, to, id, ttl, payload)[..|u|] == u
      && u == to.mac + from.mac + WriteBe16(0x0800) + [0x45, 0] + WriteBe16(28 + |payload|) + WriteBe16(id)
              + [0, 0, ttl, 17] + u[24..26] + from.ip + to.ip
              + WriteBe16(from.port) + WriteBe16(to.port) + WriteBe16(8 + |payload|) + WriteBe16(0) + payload
  {
    hide WriteBe16, Padding, Checksum;
    var h := SealedHeader(from, to, 28 + |payload|, id, ttl);
    assert Unpadded(from, to, id, ttl, payload)[24..26] == h[10..12];
  }

  lemma PollTakes(frame: bytes, from: Peer, to: Peer, header: bytes, udp: bytes, payload: bytes)
    requires from.Valid() && to.Valid() && |header| == IP_HEADER && |udp| == UDP_HEADER && |payload| <= MAX_PAYLOAD
    requires |frame| >= ETH_HEADER + IP_HEADER + UDP_HEADER + |payload|
    requires frame[6..12] == from.mac && ReadBe16(frame[12], frame[13]) == 0x0800
    requires frame[ETH_HEADER..][..IP_HEADER] == header && frame[ETH_HEADER..][IP_HEADER..][..UDP_HEADER] == udp
    requires frame[ETH_HEADER..][IP_HEADER..][UDP_HEADER..UDP_HEADER + |payload|] == payload
    requires Value(header[0]) == 69 && ReadBe16(header[2], header[3]) == IP_HEADER + UDP_HEADER + |payload|
    requires header[6] == 0 && header[7] == 0 && Value(header[9]) == 17 && Value(0) == 0
    requires header[12..16] == from.ip && header[16..20] == to.ip && Checksum(header) == 0
    requires ReadBe16(udp[0], udp[1]) == from.port && ReadBe16(udp[2], udp[3]) == to.port
    requires ReadBe16(udp[4], udp[5]) == UDP_HEADER + |payload|
    ensures Poll(frame, to.ip, to.port) == Some(Udp(from, payload))
  {
    hide Value, Checksum;
    var packet := frame[ETH_HEADER..];
    var u := packet[IP_HEADER..];
    assert header == packet[..IP_HEADER] && udp == u[..UDP_HEADER];
    assert packet[12..16] == header[12..16] && packet[16..20] == header[16..20];
    assert packet[0] == header[0] && packet[2] == header[2] && packet[3] == header[3];
    assert packet[6] == header[6] && packet[7] == header[7] && packet[9] == header[9];
    assert u[0] == udp[0] && u[1] == udp[1] && u[2] == udp[2] && u[3] == udp[3] && u[4] == udp[4] && u[5] == udp[5];
    assert ReadBe16(packet[6], packet[7]) == 0;
  }

  // --- The agent's transmit buffer ---

  class Endpoint {
    const local: Peer
    var identifier: Word
    const transmitFrame: array<byte>

    predicate Ready()
      reads this
    {
      local.Valid() && transmitFrame.Length == MAX_FRAME
    }

    // `dm_net_open`
    constructor (local: Peer)
      requires local.Valid()
      ensures Ready() && this.local == local && identifier == 1 && fresh(transmitFrame)
    {
      this.local := local;
      identifier := 1;
      transmitFrame := new byte[MAX_FRAME](i => 0);
    }

    // The next bytes of the frame.
    method Append(at: nat, data: bytes) returns (next: nat)
      requires at + |data| <= transmitFrame.Length
      modifies transmitFrame
      ensures next == at + |data| && transmitFrame[..next] == old(transmitFrame[..at]) + data
    {
      ghost var s := transmitFrame[..];
      CopyTo(transmitFrame, at, data);
      next := at + |data|;
      assert Written(s, at, data)[..next] == s[..at] + data;
      assert transmitFrame[..next] == transmitFrame[..][..next] && s[..at] == old(transmitFrame[..at]);
    }

    // The two headers, with the checksum put into the finished IP header.
    method PutHeaders(peer: Peer, length: Word, id: Word, ttl: byte)
      requires Ready() && peer.Valid()
      modifies transmitFrame
      ensures transmitFrame[..ETH_HEADER + IP_HEADER]
        == EthernetHeader(local, peer) + SealedHeader(local, peer, length, id, ttl)
    {
      hide WriteBe16, Checksum;
      var n := Append(0, peer.mac);
      n := Append(n, local.mac);
      n := Append(n, WriteBe16(0x0800));
      n := Append(n, [0x45, 0]);
      n := Append(n, WriteBe16(length));
      n := Append(n, WriteBe16(id));
      n := Append(n, [0, 0, ttl, 17]);
      n := Append(n, [0, 0]);
      n := Append(n, local.ip);
      n := Append(n, peer.ip);
      ghost var blank := IpHeader(local, peer, length, id, ttl, [0, 0]);
      HeadersBuilt(transmitFrame[..n], local, peer, length, id, ttl);
      assert transmitFrame[ETH_HEADER..n] == blank;
      var checksum := IpChecksum(transmitFrame[ETH_HEADER..n]);
      ghost var s := transmitFrame[..];
      CopyTo(transmitFrame, ETH_HEADER + 10, WriteBe16(checksum));
      ChecksumPut(s, local, peer, length, id, ttl);
    }

    /** `send_to`: the frame handed to the driver, or a refusal of a payload that is too long. */
    method SendTo(peer: Peer, payload: bytes, ttl: byte) returns (sent: Option<bytes>)
      requires Ready() && peer.Valid()
      modifies this`identifier, transmitFrame
      ensures |payload| > MAX_PAYLOAD ==> sent == None && identifier == old(identifier)
      ensures |payload| <= MAX_PAYLOAD ==>
        sent == Some(Frame(local, peer, old(identifier), ttl, payload))
        && identifier == (old(identifier) + 1) % 0x1_0000
    {
      hide SealedHeader, EthernetHeader, WriteBe16;
      if |payload| > MAX_PAYLOAD {
        return None;
      }
      var ipLength := IP_HEADER + UDP_HEADER + |payload|;
      PutHeaders(peer, ipLength, identifier, ttl);
      ghost var id := identifier;
      identifier := (identifier + 1) % 0x1_0000;
      var n := ETH_HEADER + IP_HEADER;
      n := Append(n, WriteBe16(local.port));
      n := Append(n, WriteBe16(peer.port));
      n := Append(n, WriteBe16(UDP_HEADER + |payload|));
      n := Append(n, WriteBe16(0));
      n := Append(n, payload);
      ghost var body := transmitFrame[..n];
      UnpaddedBuilt(body, local, peer, id, ttl, payload);
      n := Pad(n);
      sent := Some(transmitFrame[..n]);
    }

    // Zeros up to the minimum length and to a whole word.
    method Pad(length: nat) returns (n: nat)
      requires Ready() && length <= MAX_FRAME
      modifies transmitFrame
      ensures n <= MAX_FRAME && transmitFrame[..n] == old(transmitFrame[..length]) + Zeros(Padding(length))
    {
      var words := PaddedLength(length);
      n := length;
      if n < MIN_FRAME {
        n := Append(n, Zeros(MIN_FRAME - n));
      }
      if n % 2 == 1 {
        n := Append(n, Zeros(1));
      }
      assert transmitFrame[..n] == old(transmitFrame[..length]) + Zeros(Padding(length));
    }
  }

  lemma HeadersBuilt(front: bytes, from: Peer, to: Peer, length: Word, id: Word, ttl: byte)
    requires from.Valid() && to.Valid()
    requires front == to.mac + from.mac + WriteBe16(0x0800) + [0x45, 0] + WriteBe16(length) + WriteBe16(id)
      + [0, 0, ttl, 17] + [0, 0] + from.ip + to.ip
    ensures |front| == ETH_HEADER + IP_HEADER
    ensures front[..ETH_HEADER] == EthernetHeader(from, to)
    ensures front[ETH_HEADER..] == IpHeader(from, to, length, id, ttl, [0, 0])
  {
    hide WriteBe16;
  }

  lemma ChecksumPut(s: bytes, from: Peer, to: Peer, length: Word, id: Word, ttl: byte)
    requires from.Valid() && to.Valid() && |s| >= ETH_HEADER + IP_HEADER
    requires s[..ETH_HEADER] == EthernetHeader(from, to)
    requires s[ETH_HEADER..ETH_HEADER + IP_HEADER] == IpHeader(from, to, length, id, ttl, [0, 0])
    ensures var field := WriteBe16(Checksum(IpHeader(from, to, length, id, ttl, [0, 0])));
      Written(s, ETH_HEADER + 10, field)[..ETH_HEADER + IP_HEADER]
      == EthernetHeader(from, to) + SealedHeader(from, to, length, id, ttl)
  {
    hide WriteBe16, Checksum, EthernetHeader;
    var blank := IpHeader(from, to, length, id, ttl, [0, 0]);
    var field := WriteBe16(Checksum(blank));
    var sealed := SealedHeader(from, to, length, id, ttl);
    assert sealed == blank[..10] + field + blank[12..];
    var r := Written(s, ETH_HEADER + 10, field)[..ETH_HEADER + IP_HEADER];
    assert s[..ETH_HEADER + 10] == s[..ETH_HEADER] + blank[..10];
    assert s[ETH_HEADER + 12..ETH_HEADER + IP_HEADER] == blank[12..];
    assert r == s[..ETH_HEADER] + blank[..10] + field + blank[12..];
  }

  lemma UnpaddedBuilt(body: bytes, from: Peer, to: Peer, id: Word, ttl: byte, payload: bytes)
    requires from.Valid() && to.Valid() && |payload| <= MAX_PAYLOAD
    requires body == EthernetHeader(from, to) + SealedHeader(from, to, IP_HEADER + UDP_HEADER + |payload|, id, ttl)
      + WriteBe16(from.port) + WriteBe16(to.port) + WriteBe16(UDP_HEADER + |payload|) + WriteBe16(0) + payload
    ensures body == Unpadded(from, to, id, ttl, payload)
  {
    hide WriteBe16, SealedHeader, EthernetHeader;
  }
}
