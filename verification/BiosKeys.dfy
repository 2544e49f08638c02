/**
 The keyboard ring of the BIOS data area as a queue of at most fifteen words, and the injection
 of a key request into it.
 */
module BiosKeys {
  import opened Buffers
  import opened Bytes

  const FIRST := 0x1E
  const END := 0x3E
  const SLOTS := 16
  const CAPACITY := 15

  // An even address inside the ring.
  predicate Address(a: Word) {
    FIRST <= a < END && a % 2 == 0
  }

  function Slot(a: Word): (i: nat)
    requires Address(a)
    ensures i < SLOTS
  {
    (a - FIRST) / 2
  }

  // The words waiting between two slots.
  function Waiting(head: nat, tail: nat): (n: nat)
    requires head < SLOTS && tail < SLOTS
    ensures n <= CAPACITY
  {
    (tail - head) % SLOTS
  }

  function SlotPast(head: nat, k: nat): (i: nat)
    ensures i < SLOTS
  {
    (head + k) % SLOTS
  }

  function Queue(ring: seq<Word>, head: nat, tail: nat): (q: seq<Word>)
    requires |ring| == SLOTS && head < SLOTS && tail < SLOTS
    ensures |q| == Waiting(head, tail) <= CAPACITY
  {
    seq(Waiting(head, tail), k requires 0 <= k < Waiting(head, tail) => ring[SlotPast(head, k)])
  }

  lemma SlotAfter(tail: nat, k: nat, head: nat)
    requires head < SLOTS && tail < SLOTS && k < Waiting(head, tail)
    ensures SlotPast(head, k) != tail
  {
  }

  lemma WaitingNext(head: nat, tail: nat, next: nat)
    requires head < SLOTS && tail < SLOTS
    requires next == (if tail + 1 == SLOTS then 0 else tail + 1) && next != head
    ensures Waiting(head, next) == Waiting(head, tail) + 1
    ensures SlotPast(head, Waiting(head, tail)) == tail
  {
  }

  // Writing the free slot and moving the tail appends a word.
  lemma Appended(ring: seq<Word>, head: nat, tail: nat, next: nat, word: Word)
    requires |ring| == SLOTS && head < SLOTS && tail < SLOTS
    requires next == (if tail + 1 == SLOTS then 0 else tail + 1) && next != head
    ensures Queue(ring[tail := word], head, next) == Queue(ring, head, tail) + [word]
  {
    hide SlotPast, Waiting;
    WaitingNext(head, tail, next);
    var before, after := Queue(ring, head, tail), Queue(ring[tail := word], head, next);
    forall k | 0 <= k < |before|
      ensures after[k] == before[k]
    {
      SlotAfter(tail, k, head);
    }
  }

  lemma FullRing(head: nat, tail: nat)
    requires head < SLOTS && tail < SLOTS
    ensures (if tail + 1 == SLOTS then 0 else tail + 1) == head <==> Waiting(head, tail) == CAPACITY
  {
  }

  // --- Words of keys ---

  const LETTER_SCAN: seq<nat> := [
    0x1E, 0x30, 0x2E, 0x20, 0x12, 0x21, 0x22, 0x23, 0x17,
    0x24, 0x25, 0x26, 0x32, 0x31, 0x18, 0x19, 0x10, 0x13,
    0x1F, 0x14, 0x16, 0x2F, 0x11, 0x2D, 0x15, 0x2C]

  const DIGIT_SCAN: seq<nat> := [0x0B, 0x02, 0x03, 0x04, 0x05, 0x06, 0x07, 0x08, 0x09, 0x0A]

  const NAMED_KEYS: seq<Word> := [
    0,
    0x1C0D, 0x011B, 0x0F09, 0x0E08,
    0x4800, 0x5000, 0x4D00, 0x4B00,
    0x4700, 0x4F00, 0x5300, 0x4900, 0x5100,
    0x3B00, 0x3C00, 0x3D00, 0x3E00, 0x3F00, 0x4000,
    0x4100, 0x4200, 0x4300, 0x4400, 0x8500, 0x8600,
    0x2E03, 0x2004]

  // `ascii_scan`
  function AsciiScan(value: nat): (scan: nat)
    ensures scan < 256
  {
    if 0x61 <= value <= 0x7A then LETTER_SCAN[value - 0x61]
    else if 0x41 <= value <= 0x5A then LETTER_SCAN[value - 0x41]
    else if 0x30 <= value <= 0x39 then DIGIT_SCAN[value - 0x30]
    else match value
      case 0x20 => 0x39
      case 0x2D => 0x0C
      case 0x3D => 0x0D
      case 0x5B => 0x1A
      case 0x5D => 0x1B
      case 0x3B => 0x27
      case 0x27 => 0x28
      case 0x60 => 0x29
      case 0x5C => 0x2B
      case 0x2C => 0x33
      case 0x2E => 0x34
      case 0x2F => 0x35
      case _ => 0
  }

  function TextWord(b: byte): Word {
    hide Value;
    256 * AsciiScan(Value(b)) + Value(b)
  }

  // `named_key_word`: zero for a key that has no word.
  function NamedKeyWord(b: byte): Word {
    hide Value;
    if Value(b) >= |NAMED_KEYS| then 0 else NAMED_KEYS[Value(b)]
  }

  function TextWords(text: bytes): (r: seq<Word>)
    ensures |r| == |text|
  {
    seq(|text|, i requires 0 <= i < |text| => TextWord(text[i]))
  }

  // The words of the named keys up to the first that has none.
  function KeyWords(keys: bytes): (r: seq<Word>)
    ensures |r| <= |keys|
    decreases |keys|
  {
    hide NamedKeyWord;
    if keys == [] || NamedKeyWord(keys[0]) == 0 then [] else [NamedKeyWord(keys[0])] + KeyWords(keys[1..])
  }

  // As many words as there is room for.
  function Fitting(words: seq<Word>, room: nat): (r: seq<Word>)
    ensures |r| == Min(|words|, room)
    ensures r <= words
  {
    words[..Min(|words|, room)]
  }

  datatype KeyRequest = KeyRequest(text: bytes, keys: bytes)

  // A well-formed key request.
  predicate KeysWellFormed(p: bytes) {
    hide GetU16, Value;
    && |p| >= 5 && GetU16(p[..2]) <= 4096 && Value(p[2]) <= 128 && GetU16(p[3..5]) <= 1000
    && |p| == 5 + GetU16(p[..2]) + Value(p[2])
  }

  function KeysOf(p: bytes): KeyRequest
    requires KeysWellFormed(p)
  {
    hide GetU16, Value;
    var n := GetU16(p[..2]);
    KeyRequest(p[5..5 + n], p[5 + n..])
  }

  // --- What a request leaves in a queue, with nobody taking words out meanwhile ---

  function AfterText(q: seq<Word>, request: KeyRequest): (r: seq<Word>)
    requires |q| <= CAPACITY
    ensures |r| <= CAPACITY && q <= r
  {
    q + Fitting(TextWords(request.text), CAPACITY - |q|)
  }

  function AfterKeys(q: seq<Word>, request: KeyRequest): (r: seq<Word>)
    requires |q| <= CAPACITY
    ensures |r| <= CAPACITY && q <= r
  {
    var after := AfterText(q, request);
    after + Fitting(KeyWords(request.keys), CAPACITY - |after|)
  }

  function AcceptedText(q: seq<Word>, request: KeyRequest): nat
    requires |q| <= CAPACITY
  {
    |AfterText(q, request)| - |q|
  }

  function AcceptedKeys(q: seq<Word>, request: KeyRequest): nat
    requires |q| <= CAPACITY
  {
    |AfterKeys(q, request)| - |AfterText(q, request)|
  }

  /**
   The queue is left with what it held, the accepted prefix of the text and then the accepted
   prefix of the keys; a key is accepted only if all the text was.
   */
  lemma PrefixesAccepted(q: seq<Word>, request: KeyRequest)
    requires |q| <= CAPACITY
    ensures AcceptedText(q, request) <= |request.text| && AcceptedKeys(q, request) <= |KeyWords(request.keys)|
    ensures AfterKeys(q, request)
      == q + TextWords(request.text)[..AcceptedText(q, request)] + KeyWords(request.keys)[..AcceptedKeys(q, request)]
    ensures AcceptedKeys(q, request) > 0 ==> AcceptedText(q, request) == |request.text|
    ensures AcceptedText(q, request) < |request.text| ==> |AfterKeys(q, request)| == CAPACITY
  {
    hide TextWords, KeyWords;
  }

  lemma KeyWordsFrom(keys: bytes, k: nat)
    requires k < |keys|
    ensures var word := NamedKeyWord(keys[k]);
      KeyWords(keys[k..]) == if word == 0 then [] else [word] + KeyWords(keys[k + 1..])
  {
    hide NamedKeyWord;
    assert keys[k..][1..] == keys[k + 1..];
  }

  class BiosDataArea {
    const ring: array<Word>
    var head: Word
    var tail: Word
    var generation: Word

    ghost predicate Valid()
      reads this
    {
      ring.Length == SLOTS
    }

    // The two pointers hold ring addresses; the BIOS keeps them so.
    predicate Sane()
      reads this
    {
      Address(head) && Address(tail)
    }

    ghost function Words(): (q: seq<Word>)
      requires Valid() && Sane()
      reads this, ring
    {
      Queue(ring[..], Slot(head), Slot(tail))
    }

    constructor ()
      ensures Valid() && Sane() && Words() == [] && fresh(ring)
    {
      ring := new Word[SLOTS](i => 0);
      head := FIRST;
      tail := FIRST;
      generation := 0;
    }

    /** `ratsr_bios_queue_word`: the word is appended, or the ring is full and nothing changes. */
    method QueueWord(word: Word) returns (queued: bool)
      requires Valid()
      modifies this`tail, ring
      ensures Valid() && (Sane() <==> old(Sane()))
      ensures queued ==> old(Sane()) && |old(Words())| < CAPACITY && Words() == old(Words()) + [word]
      ensures !queued ==> tail == old(tail) && ring[..] == old(ring[..])
      ensures !queued ==> !old(Sane()) || |old(Words())| == CAPACITY
    {
      var current := tail;
      if current < FIRST || current >= END || current % 2 != 0 {
        return false;
      }
      if head < FIRST || head >= END || head % 2 != 0 {
        return false;
      }
      var next := current + 2;
      if next >= END {
        next := FIRST;
      }
      FullRing(Slot(head), Slot(current));
      if next == head {
        return false;
      }
      Appended(ring[..], Slot(head), Slot(current), Slot(next), word);
      ring[(current - FIRST) / 2] := word;
      assert ring[..] == old(ring[..])[Slot(current) := word];
      tail := next;
      return true;
    }

    // The text of a request, until a word finds the ring full.
    method InjectText(text: bytes) returns (accepted: nat)
      requires Valid()
      modifies this`tail, ring
      ensures Valid() && (Sane() <==> old(Sane()))
      ensures !Sane() ==> accepted == 0 && tail == old(tail) && ring[..] == old(ring[..])
      ensures Sane() ==>
        Words() == old(Words()) + Fitting(TextWords(text), CAPACITY - |old(Words())|)
        && accepted == Min(|text|, CAPACITY - |old(Words())|)
    {
      hide TextWord;
      accepted := 0;
      ghost var words := TextWords(text);
      while accepted < |text|
        invariant Valid() && (Sane() <==> old(Sane())) && accepted <= |text|
        invariant !Sane() ==> accepted == 0 && tail == old(tail) && ring[..] == old(ring[..])
        invariant Sane() ==> Words() == old(Words()) + words[..accepted]
      {
        var queued := QueueWord(TextWord(text[accepted]));
        if !queued {
          return;
        }
        assert words[..accepted + 1] == words[..accepted] + [words[accepted]];
        accepted := accepted + 1;
      }
    }

    // The named keys, until one has no word or finds the ring full.
    method InjectNamed(keys: bytes) returns (accepted: nat)
      requires Valid()
      modifies this`tail, ring
      ensures Valid() && (Sane() <==> old(Sane()))
      ensures !Sane() ==> accepted == 0 && tail == old(tail) && ring[..] == old(ring[..])
      ensures Sane() ==>
        Words() == old(Words()) + Fitting(KeyWords(keys), CAPACITY - |old(Words())|)
        && accepted == Min(|KeyWords(keys)|, CAPACITY - |old(Words())|)
    {
      hide NamedKeyWord, KeyWords;
      accepted := 0;
      ghost var words := KeyWords(keys);
      assert keys[0..] == keys;
      while accepted < |keys|
        invariant Valid() && (Sane() <==> old(Sane())) && accepted <= |words|
        invariant accepted <= |keys|
        invariant !Sane() ==> accepted == 0 && tail == old(tail) && ring[..] == old(ring[..])
        invariant Sane() ==> Words() == old(Words()) + words[..accepted]
        invariant words[accepted..] == KeyWords(keys[accepted..])
      {
        KeyWordsFrom(keys, accepted);
        var word := NamedKeyWord(keys[accepted]);
        if word == 0 {
          return;
        }
        var queued := QueueWord(word);
        assert words[accepted..][0] == word;
        assert words[..accepted + 1] == words[..accepted] + [word];
        if !queued {
          return;
        }
        assert words[accepted..][1..] == words[accepted + 1..];
        accepted := accepted + 1;
      }
      NoMoreWords(keys, words, accepted);
    }

    /** `inject_keys`: the request and its reply share one buffer. */
    method InjectKeys(buffer: array<byte>, length: nat) returns (n: nat, ghost text: nat, ghost keys: nat)
      requires Valid() && 5 <= buffer.Length && length <= buffer.Length
      requires ring != buffer as object
      modifies this`tail, this`generation, ring, buffer
      ensures Valid() && (Sane() <==> old(Sane()))
      ensures n == if KeysWellFormed(old(buffer[..length])) then 5 else 0
      ensures n == 0 ==> buffer[..] == old(buffer[..]) && generation == old(generation)
      ensures n == 0 || !Sane() ==> tail == old(tail) && ring[..] == old(ring[..])
      ensures n != 0 ==>
        && generation == (old(generation) + 1) % 0x1_0000 && text < 0x1_0000
        && buffer[..] == PutU16(text) + [Low(keys)] + PutU16(generation) + old(buffer[5..])
      ensures n != 0 && !Sane() ==> text == 0 && keys == 0
      ensures n != 0 && Sane() ==>
        var request := KeysOf(old(buffer[..length]));
        && Words() == AfterKeys(old(Words()), request)
        && text == AcceptedText(old(Words()), request) && keys == AcceptedKeys(old(Words()), request)
    {
      hide KeysWellFormed, KeysOf, PutU16, Low, TextWords, KeyWords;
      text, keys := 0, 0;
      var wellFormed, textLength := ReadLengths(buffer, length);
      if !wellFormed {
        return 0, 0, 0;
      }
      var acceptedText := InjectText(buffer[5..5 + textLength]);
      var acceptedKeys := InjectNamed(buffer[5 + textLength..length]);
      generation := (generation + 1) % 0x1_0000;
      text, keys := acceptedText, acceptedKeys;
      assert buffer[..] == old(buffer[..]);
      PutReply(buffer, PutU16(acceptedText) + [Low(acceptedKeys)] + PutU16(generation));
      n := 5;
    }
  }

  // The checks of `inject_keys`, and where its text ends.
  method ReadLengths(buffer: array<byte>, length: nat) returns (ok: bool, textLength: nat)
    requires length <= buffer.Length
    ensures ok <==> KeysWellFormed(buffer[..length])
    ensures ok ==>
      && 5 + textLength <= length && textLength <= 4096
      && KeysOf(buffer[..length]) == KeyRequest(buffer[5..5 + textLength], buffer[5 + textLength..length])
  {
    hide GetU16, Value;
    ghost var p := buffer[..length];
    ok, textLength := false, 0;
    if length < 5 {
      return;
    }
    assert p[..2] == buffer[..2];
    Front(buffer, length, 3, 5);
    textLength := GetU16(buffer[..2]);
    var keyCount := Value(buffer[2]);
    var interKeyDelay := GetU16(buffer[3..5]);
    ok := !(textLength > 4096 || keyCount > 128 || interKeyDelay > 1000 || length != 5 + textLength + keyCount);
    if ok {
      Front(buffer, length, 5, 5 + textLength);
      Front(buffer, length, 5 + textLength, length);
      assert p[5 + textLength..length] == p[5 + textLength..];
    }
  }

  method PutReply(buffer: array<byte>, reply: bytes)
    requires |reply| == 5 <= buffer.Length
    modifies buffer
    ensures buffer[..] == reply + old(buffer[5..])
  {
    forall i | 0 <= i < 5 {
      buffer[i] := reply[i];
    }
  }

  lemma NoMoreWords(keys: bytes, words: seq<Word>, k: nat)
    requires k == |keys| && k <= |words| && words[k..] == KeyWords(keys[k..])
    ensures k == |words|
  {
  }
}
