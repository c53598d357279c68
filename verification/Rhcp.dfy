/** The RHCP (mmWaveLink) message codec (internal/debugcapture/mmwavelink_protocol.go). */
module Rhcp {
  import opened Bytes
  import opened Common
  import opened Sensors
  import opened Crc16

  const MAX_MESSAGE_LENGTH: int := 256
  const MAX_COMMAND_PAYLOAD_LENGTH: int := 232
  const MAX_SUBBLOCKS: int := 32

  type u16 = x: int | 0 <= x < 0x1_0000

  const HOST_TO_BSS: byte := 1
  const BSS_TO_HOST: byte := 2
  const HOST_TO_MSS: byte := 5
  const MSS_TO_HOST: byte := 6

  const HOST_SYNC: (u16, u16) := (0x1234, 0x4321)
  const DEVICE_SYNC: (u16, u16) := (0xdcba, 0xabcd)

  datatype Subblock = Subblock(id: u16, data: seq<byte>)

  datatype Command = Command(
    direction: byte, messageId: u16, sequence: byte, remainingChunks: u16, subblocks: seq<Subblock>)

  datatype Message = Message(
    direction: byte, messageClass: byte, messageId: u16, sequence: byte, remainingChunks: u16, subblocks: seq<Subblock>)

  // ---------------------------------------------------------------- layout

  function UniqueId(messageId: u16, id: u16): nat {
    messageId * MAX_SUBBLOCKS + id
  }

  function Block(messageId: u16, sb: Subblock): seq<byte> {
    PutLE(UniqueId(messageId, sb.id), 2) + PutLE(4 + |sb.data|, 2) + sb.data
  }

  function Payload(messageId: u16, blocks: seq<Subblock>): seq<byte> {
    if blocks == [] then [] else Block(messageId, blocks[0]) + Payload(messageId, blocks[1..])
  }

  /** Header and payload are padded to a multiple of four bytes. */
  function PadLength(payloadLength: nat): (n: nat)
    ensures n < 4 && (12 + payloadLength + n) % 4 == 0
  {
    (4 - (12 + payloadLength) % 4) % 4
  }

  function Padding(n: nat): (s: seq<byte>)
    ensures |s| == n && forall i | 0 <= i < n :: s[i] == 0xff
  {
    seq(n, _ => 0xff)
  }

  predicate Encodable(c: Command) {
    && (c.direction == HOST_TO_BSS || c.direction == HOST_TO_MSS)
    && c.messageId <= 0x3ff && c.sequence <= 0xf && |c.subblocks| <= MAX_SUBBLOCKS
    && (forall i | 0 <= i < |c.subblocks| :: c.subblocks[i].id < MAX_SUBBLOCKS)
    && BodyLength(c) <= MAX_COMMAND_PAYLOAD_LENGTH
  }

  function BodyLength(c: Command): nat {
    var n := |Payload(c.messageId, c.subblocks)|;
    n + PadLength(n)
  }

  function Body(c: Command): seq<byte> {
    var p := Payload(c.messageId, c.subblocks);
    p + Padding(PadLength(|p|))
  }

  /** The five header words in front of the header checksum. */
  function Head(direction: nat, messageClass: nat, c: Command): (s: seq<byte>)
    ensures |s| == 10
  {
    PutLE(direction + 16 * messageClass + 64 * c.messageId, 2) + PutLE(14 + BodyLength(c), 2)
    + PutLE(4096 * c.sequence, 2) + PutLE(c.remainingChunks, 2) + PutLE(|c.subblocks|, 2)
  }

  /** The bytes the CRC covers. */
  function Covered(direction: nat, messageClass: nat, c: Command): (s: seq<byte>)
    ensures |s| >= 12
  {
    var head := Head(direction, messageClass, c);
    head + PutLE(Checksum(head), 2) + Body(c)
  }

  /** The wire image of the command's content under the given sync words, direction and class. */
  function Layout(sync: (u16, u16), direction: nat, messageClass: nat, c: Command): seq<byte> {
    var covered := Covered(direction, messageClass, c);
    PutLE(sync.0, 2) + PutLE(sync.1, 2) + covered + PutLE(Crc(covered), 2)
  }

  function Encode(c: Command): Option<seq<byte>> {
    if Encodable(c) then Some(Layout(HOST_SYNC, c.direction, 0, c)) else None
  }

  // ---------------------------------------------------------------- decoding

  function Word(s: seq<byte>, at: nat): (v: u16)
    requires at + 2 <= |s|
  {
    var low: int, high: int := s[at], s[at + 1];
    low + 256 * high
  }

  /** The sub-block loop: count blocks off the front of the payload. */
  function Parse(messageId: u16, count: nat, payload: seq<byte>): Option<(seq<Subblock>, seq<byte>)> {
    if count == 0 then Some(([], payload))
    else if |payload| < 4 then None
    else
      var uniqueId, length := Word(payload, 0), Word(payload, 2);
      if length < 4 || length > |payload| || uniqueId / MAX_SUBBLOCKS != messageId then None
      else
        match Parse(messageId, count - 1, payload[length..])
        case None => None
        case Some((blocks, rest)) => Some(([Subblock(uniqueId % MAX_SUBBLOCKS, payload[4..length])] + blocks, rest))
  }

  predicate FlagsOk(flags: u16) {
    && (flags % 4 == 0 || flags % 4 == 3) && (flags / 4 % 4 == 0 || flags / 4 % 4 == 3)
    && flags / 16 % 16 == 0 && flags / 256 % 4 == 0 && flags / 1024 % 4 == 0
  }

  predicate HeaderOk(f: seq<byte>)
    requires |f| >= 18
  {
    && Word(f, 0) == DEVICE_SYNC.0 && Word(f, 2) == DEVICE_SYNC.1
    && Word(f, 6) == |f| - 4 && (Word(f, 6) - 2) % 4 == 0
    && Word(f, 14) == Checksum(f[4..14])
    && (Word(f, 4) % 16 == BSS_TO_HOST || Word(f, 4) % 16 == MSS_TO_HOST)
    && Word(f, 4) / 16 % 4 != 0
    && FlagsOk(Word(f, 8))
  }

  predicate CrcOk(f: seq<byte>)
    requires |f| >= 18
  {
    Word(f, |f| - 2) == Crc(f[4..|f| - 2])
  }

  function Decode(f: seq<byte>): Option<Message> {
    if |f| < 18 || |f| > MAX_MESSAGE_LENGTH || !HeaderOk(f) || !CrcOk(f) || Word(f, 12) > MAX_SUBBLOCKS then None
    else
      var messageId := Word(f, 4) / 64;
      match Parse(messageId, Word(f, 12), f[16..|f| - 2])
      case None => None
      case Some((blocks, rest)) =>
        if |rest| >= 4 || exists i | 0 <= i < |rest| :: rest[i] != 0xff then None
        else Some(Message(Word(f, 4) % 16, Word(f, 4) / 16 % 4, messageId, Word(f, 8) / 4096, Word(f, 10), blocks))
  }

  // ---------------------------------------------------------------- round trip

  lemma WordPut(s: seq<byte>, at: nat, v: u16)
    requires at + 2 <= |s| && s[at..at + 2] == PutLE(v, 2)
    ensures Word(s, at) == v
  {
    assert PutLE(v, 2) == [v % 256] + PutLE(v / 256, 1);
    assert PutLE(v / 256, 1) == [v / 256 % 256] + PutLE(v / 256 / 256, 0);
    assert s[at..at + 2][0] == s[at] && s[at..at + 2][1] == s[at + 1];
  }

  lemma PutWord(s: seq<byte>, at: nat)
    requires at + 2 <= |s|
    ensures s[at..at + 2] == PutLE(Word(s, at), 2)
  {
    var v := Word(s, at);
    assert v % 256 == s[at] && v / 256 == s[at + 1];
    assert PutLE(v, 2) == [v % 256] + PutLE(v / 256, 1);
    assert PutLE(v / 256, 1) == [v / 256 % 256] + PutLE(v / 256 / 256, 0);
  }

  /** Sub-block identifiers of different messages never collide, and each fits 16 bits. */
  lemma UniqueIdsInjective(m: u16, i: u16, m': u16, i': u16)
    requires m <= 0x3ff && i < MAX_SUBBLOCKS && m' <= 0x3ff && i' < MAX_SUBBLOCKS
    ensures UniqueId(m, i) < 0x1_0000
    ensures UniqueId(m, i) / MAX_SUBBLOCKS == m && UniqueId(m, i) % MAX_SUBBLOCKS == i
    ensures UniqueId(m, i) == UniqueId(m', i') ==> m == m' && i == i'
  {
  }

  lemma {:induction false} ParsePayload(messageId: u16, blocks: seq<Subblock>, rest: seq<byte>)
    requires messageId <= 0x3ff && forall i | 0 <= i < |blocks| :: blocks[i].id < MAX_SUBBLOCKS && |blocks[i].data| < 0xff00
    ensures Parse(messageId, |blocks|, Payload(messageId, blocks) + rest) == Some((blocks, rest))
    decreases |blocks|
  {
    hide PutLE, Word, Block;
    if blocks == [] {
      assert Payload(messageId, blocks) + rest == rest;
    } else {
      var sb, tail := blocks[0], Payload(messageId, blocks[1..]) + rest;
      var p := Payload(messageId, blocks) + rest;
      assert p == Block(messageId, sb) + tail;
      ParsePayload(messageId, blocks[1..], rest);
      ParseBlock(messageId, sb, tail);
      assert blocks == [sb] + blocks[1..];
    }
  }

  lemma ParseBlock(messageId: u16, sb: Subblock, tail: seq<byte>)
    requires messageId <= 0x3ff && sb.id < MAX_SUBBLOCKS && |sb.data| < 0xff00
    ensures var p := Block(messageId, sb) + tail;
            && |p| >= 4 && Word(p, 0) == UniqueId(messageId, sb.id) && Word(p, 2) == 4 + |sb.data| <= |p|
            && p[4 + |sb.data|..] == tail && p[4..4 + |sb.data|] == sb.data
            && Word(p, 0) / MAX_SUBBLOCKS == messageId && Word(p, 0) % MAX_SUBBLOCKS == sb.id
  {
    hide PutLE, Word;
    var p := Block(messageId, sb) + tail;
    UniqueIdsInjective(messageId, sb.id, messageId, sb.id);
    WordPut(p, 0, UniqueId(messageId, sb.id));
    WordPut(p, 2, 4 + |sb.data|);
  }

  /** Parsing consumes exactly the image of the blocks it returns. */
  lemma {:induction false} ParseExact(messageId: u16, count: nat, payload: seq<byte>)
    requires Parse(messageId, count, payload).Some?
    ensures var (blocks, rest) := Parse(messageId, count, payload).value;
            && |blocks| == count && payload == Payload(messageId, blocks) + rest
            && forall i | 0 <= i < |blocks| :: blocks[i].id < MAX_SUBBLOCKS
    decreases count
  {
    hide PutLE, Block, Word;
    if count > 0 {
      var length := Word(payload, 2);
      ParseExact(messageId, count - 1, payload[length..]);
      var (more, rest) := Parse(messageId, count - 1, payload[length..]).value;
      var block := Subblock(Word(payload, 0) % MAX_SUBBLOCKS, payload[4..length]);
      BlockExact(messageId, payload, block);
      assert Parse(messageId, count, payload).value == ([block] + more, rest);
      assert ([block] + more)[1..] == more;
      assert payload == payload[..length] + payload[length..];
      assert Block(messageId, block) + (Payload(messageId, more) + rest) == Block(messageId, block) + Payload(messageId, more) + rest;
    }
  }

  lemma BlockExact(messageId: u16, payload: seq<byte>, block: Subblock)
    requires |payload| >= 4 && 4 <= Word(payload, 2) <= |payload| && Word(payload, 0) / MAX_SUBBLOCKS == messageId
    requires block == Subblock(Word(payload, 0) % MAX_SUBBLOCKS, payload[4..Word(payload, 2)])
    ensures Block(messageId, block) == payload[..Word(payload, 2)]
  {
    hide PutLE, Word;
    var length := Word(payload, 2);
    PutWord(payload, 0);
    PutWord(payload, 2);
    assert UniqueId(messageId, block.id) == Word(payload, 0);
    assert payload[..length] == payload[0..2] + payload[2..4] + payload[4..length];
  }

  lemma {:induction false} DataFits(messageId: u16, blocks: seq<Subblock>)
    ensures forall i | 0 <= i < |blocks| :: |blocks[i].data| <= |Payload(messageId, blocks)|
    decreases |blocks|
  {
    if blocks != [] {
      DataFits(messageId, blocks[1..]);
      forall i | 0 < i < |blocks|
        ensures |blocks[i].data| <= |Payload(messageId, blocks)|
      {
        assert blocks[i] == blocks[1..][i - 1];
      }
    }
  }

  /** Where everything sits in a frame. */
  lemma LayoutFields(sync: (u16, u16), direction: nat, messageClass: nat, c: Command)
    ensures var f := Layout(sync, direction, messageClass, c);
            var head, covered, body := Head(direction, messageClass, c), Covered(direction, messageClass, c), Body(c);
            && |f| == 18 + |body|
            && f[0..2] == PutLE(sync.0, 2) && f[2..4] == PutLE(sync.1, 2)
            && f[4..14] == head && f[14..16] == PutLE(Checksum(head), 2)
            && f[16..|f| - 2] == body && f[4..|f| - 2] == covered && f[|f| - 2..|f|] == PutLE(Crc(covered), 2)
  {
    hide PutLE, Head, Body, Checksum, Crc;
  }

  lemma HeadFields(direction: nat, messageClass: nat, c: Command, f: seq<byte>)
    requires |f| >= 16 && f[4..14] == Head(direction, messageClass, c)
    ensures f[4..6] == PutLE(direction + 16 * messageClass + 64 * c.messageId, 2)
    ensures f[6..8] == PutLE(14 + BodyLength(c), 2) && f[8..10] == PutLE(4096 * c.sequence, 2)
    ensures f[10..12] == PutLE(c.remainingChunks, 2) && f[12..14] == PutLE(|c.subblocks|, 2)
  {
    hide PutLE, BodyLength;
    var head := f[4..14];
    assert forall i | 0 <= i < 10 :: head[i] == f[4 + i];
    assert f[4..6] == head[0..2];
    assert f[6..8] == head[2..4];
    assert f[8..10] == head[4..6];
    assert f[10..12] == head[6..8];
    assert f[12..14] == head[8..10];
  }

  lemma HeadWords(direction: byte, messageClass: byte, c: Command, f: seq<byte>)
    requires direction < 16 && messageClass < 4 && Encodable(c)
    requires |f| >= 16 && f[4..14] == Head(direction, messageClass, c)
    ensures Word(f, 4) % 16 == direction && Word(f, 4) / 16 % 4 == messageClass && Word(f, 4) / 64 == c.messageId
    ensures Word(f, 6) == 14 + BodyLength(c) && Word(f, 8) == 4096 * c.sequence
    ensures Word(f, 10) == c.remainingChunks && Word(f, 12) == |c.subblocks|
  {
    hide PutLE, Head, BodyLength, Word;
    HeadFields(direction, messageClass, c, f);
    WordPut(f, 4, direction + 16 * messageClass + 64 * c.messageId);
    WordPut(f, 6, 14 + BodyLength(c));
    WordPut(f, 8, 4096 * c.sequence);
    WordPut(f, 10, c.remainingChunks);
    WordPut(f, 12, |c.subblocks|);
  }

  lemma LayoutAccepted(direction: byte, messageClass: byte, c: Command)
    requires Encodable(c) && (direction == BSS_TO_HOST || direction == MSS_TO_HOST) && 0 < messageClass < 4
    ensures var f := Layout(DEVICE_SYNC, direction, messageClass, c);
            18 <= |f| <= MAX_MESSAGE_LENGTH && HeaderOk(f) && CrcOk(f)
  {
    hide PutLE, Head, Word, Checksum, Crc, Payload, PadLength, Padding, Covered;
    var f := Layout(DEVICE_SYNC, direction, messageClass, c);
    var head, covered := Head(direction, messageClass, c), Covered(direction, messageClass, c);
    LayoutFields(DEVICE_SYNC, direction, messageClass, c);
    HeadWords(direction, messageClass, c, f);
    assert |Body(c)| == BodyLength(c);
    WordPut(f, 0, DEVICE_SYNC.0);
    WordPut(f, 2, DEVICE_SYNC.1);
    WordPut(f, 14, Checksum(head));
    WordPut(f, |f| - 2, Crc(covered));
  }

  /**
    Every command the encoder accepts survives: the same content under device sync words, a device direction and any
    non-command class decodes to the same message ID, sequence, chunk count and sub-blocks, padding consumed exactly.
   */
  lemma RoundTrip(c: Command, direction: byte, messageClass: byte)
    requires Encodable(c) && (direction == BSS_TO_HOST || direction == MSS_TO_HOST) && 0 < messageClass < 4
    ensures Decode(Layout(DEVICE_SYNC, direction, messageClass, c)) ==
            Some(Message(direction, messageClass, c.messageId, c.sequence, c.remainingChunks, c.subblocks))
  {
    hide PutLE, Head, Word, Checksum, Crc, Payload, PadLength, HeaderOk, CrcOk, Covered, Parse, Layout;
    var f := Layout(DEVICE_SYNC, direction, messageClass, c);
    LayoutFields(DEVICE_SYNC, direction, messageClass, c);
    HeadWords(direction, messageClass, c, f);
    LayoutAccepted(direction, messageClass, c);
    var p := Payload(c.messageId, c.subblocks);
    DataFits(c.messageId, c.subblocks);
    ParsePayload(c.messageId, c.subblocks, Padding(PadLength(|p|)));
  }

  function BytesOf(blocks: seq<Subblock>): nat {
    if blocks == [] then 0 else 4 + |blocks[0].data| + BytesOf(blocks[1..])
  }

  lemma {:induction false} PayloadSize(messageId: u16, blocks: seq<Subblock>)
    ensures |Payload(messageId, blocks)| == BytesOf(blocks)
    decreases |blocks|
  {
    hide PutLE;
    if blocks != [] {
      PayloadSize(messageId, blocks[1..]);
    }
  }

  /** A command is refused exactly outside the bounds: its payload, four bytes and the data of each sub-block, rounded up to fours. */
  lemma EncodeRefuses(c: Command)
    ensures Encode(c).Some? <==>
            && (c.direction == 1 || c.direction == 5) && c.messageId < 1024 && c.sequence < 16 && |c.subblocks| <= 32
            && (forall i | 0 <= i < |c.subblocks| :: c.subblocks[i].id < 32)
            && (BytesOf(c.subblocks) + 3) / 4 * 4 <= 232
  {
    hide Layout, Payload;
    PayloadSize(c.messageId, c.subblocks);
    RoundedUp(BytesOf(c.subblocks));
  }

  lemma RoundedUp(n: nat)
    ensures n + PadLength(n) == (n + 3) / 4 * 4
  {
  }

  /** The frame has what the command was given: host sync words, direction, class zero, message ID, length, sequence with no flag
      set, remaining chunks, sub-block count, both check fields, and the laid-out sub-blocks followed by padding. */
  predicate CarriesCommand(c: Command, f: seq<byte>) {
    var n := BytesOf(c.subblocks);
    && |f| == 18 + (n + 3) / 4 * 4
    && f[0..4] == [0x34, 0x12, 0x21, 0x43]
    && Word(f, 4) == c.direction + 64 * c.messageId
    && Word(f, 6) == |f| - 4
    && Word(f, 8) == 4096 * c.sequence
    && Word(f, 10) == c.remainingChunks
    && Word(f, 12) == |c.subblocks|
    && Word(f, 14) == Checksum(f[4..14])
    && Word(f, |f| - 2) == Crc(f[4..|f| - 2])
    && f[16..16 + n] == Payload(c.messageId, c.subblocks)
    && forall i | 16 + n <= i < |f| - 2 :: f[i] == 0xff
  }

  lemma EncodeCarries(c: Command)
    requires Encode(c).Some?
    ensures CarriesCommand(c, Encode(c).value)
  {
    hide PutLE, Head, Checksum, Crc, Payload, Covered, Layout, PadLength, Body, Encodable;
    var f := Encode(c).value;
    PayloadSize(c.messageId, c.subblocks);
    RoundedUp(BytesOf(c.subblocks));
    LayoutFields(HOST_SYNC, c.direction, 0, c);
    CommandWords(c, f);
    HostSync();
    assert f[0..4] == f[0..2] + f[2..4];
    WordPut(f, 14, Checksum(Head(c.direction, 0, c)));
    WordPut(f, |f| - 2, Crc(f[4..|f| - 2]));
    PaddedBody(c, f);
  }

  lemma PaddedBody(c: Command, f: seq<byte>)
    requires |f| == 18 + |Body(c)| && f[16..|f| - 2] == Body(c)
    ensures var n := |Payload(c.messageId, c.subblocks)|;
            && |Body(c)| == n + PadLength(n) && f[16..16 + n] == Payload(c.messageId, c.subblocks)
            && forall i | 16 + n <= i < |f| - 2 :: f[i] == 0xff
  {
    hide Payload, PadLength;
    var p := Payload(c.messageId, c.subblocks);
    assert f[16..16 + |p|] == f[16..|f| - 2][..|p|];
    assert forall i | 16 + |p| <= i < |f| - 2 :: f[i] == f[16..|f| - 2][i - 16];
  }

  lemma HostSync()
    ensures PutLE(HOST_SYNC.0, 2) == [0x34, 0x12] && PutLE(HOST_SYNC.1, 2) == [0x21, 0x43]
  {
    assert PutLE(0x12, 1) == [0x12] && PutLE(0x43, 1) == [0x43];
  }

  lemma CommandWords(c: Command, f: seq<byte>)
    requires Encodable(c) && |f| >= 16 && f[4..14] == Head(c.direction, 0, c)
    ensures Word(f, 4) == c.direction + 64 * c.messageId && Word(f, 6) == 14 + BodyLength(c)
    ensures Word(f, 8) == 4096 * c.sequence && Word(f, 10) == c.remainingChunks && Word(f, 12) == |c.subblocks|
  {
    hide PutLE, Head, BodyLength, Word;
    HeadFields(c.direction, 0, c, f);
    WordPut(f, 4, c.direction + 64 * c.messageId);
    WordPut(f, 6, 14 + BodyLength(c));
    WordPut(f, 8, 4096 * c.sequence);
    WordPut(f, 10, c.remainingChunks);
    WordPut(f, 12, |c.subblocks|);
  }

  /** An accepted frame's payload is exactly what the encoder lays out for the decoded sub-blocks, padding included. */
  lemma DecodeExact(f: seq<byte>)
    requires Decode(f).Some?
    ensures var m := Decode(f).value; var p := Payload(m.messageId, m.subblocks);
            && f[16..|f| - 2] == p + Padding(PadLength(|p|))
            && |m.subblocks| <= MAX_SUBBLOCKS && (m.direction == BSS_TO_HOST || m.direction == MSS_TO_HOST)
            && m.messageClass != 0 && m.messageId <= 0x3ff && m.sequence <= 0xf
  {
    hide Checksum, Crc, Payload, Parse, CrcOk, PutLE;
    var m := Decode(f).value;
    ParseExact(m.messageId, Word(f, 12), f[16..|f| - 2]);
    var (blocks, rest) := Parse(m.messageId, Word(f, 12), f[16..|f| - 2]).value;
    var p := Payload(m.messageId, blocks);
    SamePad(|p|, |rest|);
    assert rest == Padding(PadLength(|p|));
  }

  lemma SamePad(n: nat, pad: nat)
    requires pad < 4 && (12 + n + pad) % 4 == 0
    ensures pad == PadLength(n)
  {
  }

  lemma Shifted(a: nat, k: nat, m: nat)
    requires m > 0
    ensures (a + m * k) % m == a % m && (a + m * k) / m == a / m + k
  {
    assert a == m * (a / m) + a % m;
    assert a + m * k == m * (a / m + k) + a % m;
    UniqueQuotient(a + m * k, m, a / m + k, a % m);
  }

  lemma UniqueQuotient(n: nat, m: nat, q: nat, r: nat)
    requires m > 0 && n == m * q + r && r < m
    ensures n / m == q && n % m == r
  {
    var d := n / m - q;
    assert n == m * (n / m) + n % m;
    assert d * m == r - n % m;
    NoSmallMultiple(d, m);
  }

  lemma FlagsBytes(low: byte, high: byte)
    ensures FlagsOk(low + 256 * high) <==> low in {0, 3, 12, 15} && high % 16 == 0
  {
    var l: nat, h: nat := low, high;
    Shifted(l, 64 * h, 4);
    Shifted(l / 4, 16 * h, 4);
    Shifted(l, 16 * h, 16);
    Shifted(l / 16, h, 16);
    Shifted(l, h, 256);
    FlagParts(l, h, l + 256 * h);
  }

  lemma FlagParts(low: nat, high: nat, flags: u16)
    requires low < 256 && high < 256
    requires flags % 4 == low % 4 && flags / 4 == low / 4 + 64 * high && flags / 4 % 4 == low / 4 % 4
    requires flags / 16 == low / 16 + 16 * high && flags / 16 % 16 == low / 16 % 16 && flags / 256 == high
    ensures FlagsOk(flags) <==> low in {0, 3, 12, 15} && high % 16 == 0
  {
    assert flags / 1024 == high / 4;
    LowFlags(low);
    HighFlags(high);
  }

  lemma HighFlags(high: nat)
    requires high < 256
    ensures high % 16 == 0 <==> high % 4 == 0 && high / 4 % 4 == 0
  {
  }

  lemma LowFlags(low: byte)
    ensures low in {0, 3, 12, 15} <==> (low % 4 == 0 || low % 4 == 3) && (low / 4 % 4 == 0 || low / 4 % 4 == 3) && low / 16 == 0
  {
    assert low == 16 * (low / 16) + 4 * (low / 4 % 4) + low % 4;
  }

  /** The bytes hold exactly these sub-blocks of the message, laid out one after the other and padded. */
  predicate HoldsBlocks(messageId: u16, blocks: seq<Subblock>, bytes: seq<byte>) {
    && bytes == Payload(messageId, blocks) + Padding(PadLength(|Payload(messageId, blocks)|))
    && forall i | 0 <= i < |blocks| :: blocks[i].id < MAX_SUBBLOCKS
  }

  lemma HeldParse(messageId: u16, blocks: seq<Subblock>, bytes: seq<byte>)
    requires HoldsBlocks(messageId, blocks, bytes) && messageId <= 0x3ff && |bytes| <= MAX_MESSAGE_LENGTH
    ensures Parse(messageId, |blocks|, bytes) == Some((blocks, Padding(PadLength(|Payload(messageId, blocks)|))))
  {
    hide Payload, PadLength;
    DataFits(messageId, blocks);
    ParsePayload(messageId, blocks, Padding(PadLength(|Payload(messageId, blocks)|)));
  }

  lemma ParsedHeld(messageId: u16, count: nat, bytes: seq<byte>)
    requires Parse(messageId, count, bytes).Some? && (12 + |bytes|) % 4 == 0
    requires var rest := Parse(messageId, count, bytes).value.1; |rest| < 4 && forall i | 0 <= i < |rest| :: rest[i] == 0xff
    ensures HoldsBlocks(messageId, Parse(messageId, count, bytes).value.0, bytes)
    ensures |Parse(messageId, count, bytes).value.0| == count
  {
    hide Payload, Parse, PadLength;
    ParseExact(messageId, count, bytes);
    var (blocks, rest) := Parse(messageId, count, bytes).value;
    SamePad(|Payload(messageId, blocks)|, |rest|);
    assert rest == Padding(PadLength(|Payload(messageId, blocks)|));
  }

  /** The header of a frame from the device, byte by byte. */
  predicate DeviceHeader(m: Message, f: seq<byte>) {
    && 18 <= |f| <= 256 && |f| % 4 == 2 && f[0..4] == [0xba, 0xdc, 0xcd, 0xab]
    && Word(f, 4) == m.direction + 16 * m.messageClass + 64 * m.messageId
    && (m.direction == 2 || m.direction == 6) && 0 < m.messageClass < 4
    && Word(f, 6) == |f| - 4 && f[8] in {0, 3, 12, 15} && f[9] == 16 * m.sequence
    && Word(f, 10) == m.remainingChunks && Word(f, 12) == |m.subblocks| <= 32
    && Word(f, 14) == Checksum(f[4..14]) && Word(f, |f| - 2) == Crc(f[4..|f| - 2])
  }

  lemma HeaderIsDevice(m: Message, f: seq<byte>)
    requires 18 <= |f| <= MAX_MESSAGE_LENGTH
    ensures HeaderOk(f) && CrcOk(f) && |m.subblocks| == Word(f, 12) <= MAX_SUBBLOCKS
            && m == Message(Word(f, 4) % 16, Word(f, 4) / 16 % 4, Word(f, 4) / 64, Word(f, 8) / 4096, Word(f, 10), m.subblocks)
            <==> DeviceHeader(m, f)
  {
    hide Checksum, Crc, FlagsOk;
    FlagsBytes(f[8], f[9]);
    SyncBytes(f);
    assert Word(f, 8) == f[8] as int + 256 * (f[9] as int);
    assert Word(f, 8) / 4096 == f[9] / 16;
    assert (|f| - 4 - 2) % 4 == 0 <==> |f| % 4 == 2;
    if m.direction < 16 && m.messageClass < 4 {
      OpcodeParts(Word(f, 4), m.direction, m.messageClass, m.messageId);
    }
  }

  lemma OpcodeParts(w: nat, direction: byte, messageClass: byte, messageId: u16)
    requires direction < 16 && messageClass < 4
    ensures w == direction + 16 * messageClass + 64 * messageId <==>
            direction == w % 16 && messageClass == w / 16 % 4 && messageId == w / 64
  {
    assert w == 64 * (w / 64) + 16 * (w / 16 % 4) + w % 16;
  }

  lemma SyncBytes(f: seq<byte>)
    requires |f| >= 4
    ensures Word(f, 0) == DEVICE_SYNC.0 && Word(f, 2) == DEVICE_SYNC.1 <==> f[0..4] == [0xba, 0xdc, 0xcd, 0xab]
  {
    assert f[0..4] == [f[0], f[1], f[2], f[3]];
  }

  /**
    Exactly the frames are accepted, and as exactly that message, whose header says so byte by byte and whose payload is the laid-out
    sub-blocks with nothing but padding behind them.
   */
  lemma DecodeIff(f: seq<byte>, m: Message)
    ensures Decode(f) == Some(m) <==> DeviceHeader(m, f) && HoldsBlocks(m.messageId, m.subblocks, f[16..|f| - 2])
  {
    hide HeaderOk, CrcOk, DeviceHeader, HoldsBlocks, Parse, Word, Payload;
    if 18 <= |f| <= MAX_MESSAGE_LENGTH {
      HeaderIsDevice(m, f);
      if Decode(f) == Some(m) {
        DecodeHeader(f, m);
      }
      if DeviceHeader(m, f) && HoldsBlocks(m.messageId, m.subblocks, f[16..|f| - 2]) {
        DeviceBounds(m, f);
        HeldParse(m.messageId, m.subblocks, f[16..|f| - 2]);
      }
    } else {
      NotDevice(m, f);
    }
  }

  lemma NotDevice(m: Message, f: seq<byte>)
    requires !(18 <= |f| <= MAX_MESSAGE_LENGTH)
    ensures !DeviceHeader(m, f)
  {
  }

  lemma DeviceBounds(m: Message, f: seq<byte>)
    requires DeviceHeader(m, f)
    ensures m.messageId <= 0x3ff && 18 <= |f| <= MAX_MESSAGE_LENGTH
  {
  }

  /** A decoded message has the header's fields and the payload's sub-blocks. */
  lemma DecodeHeader(f: seq<byte>, m: Message)
    requires 18 <= |f| <= MAX_MESSAGE_LENGTH && Decode(f) == Some(m)
    ensures HeaderOk(f) && CrcOk(f) && |m.subblocks| == Word(f, 12) <= MAX_SUBBLOCKS
    ensures m == Message(Word(f, 4) % 16, Word(f, 4) / 16 % 4, Word(f, 4) / 64, Word(f, 8) / 4096, Word(f, 10), m.subblocks)
    ensures HoldsBlocks(m.messageId, m.subblocks, f[16..|f| - 2])
  {
    hide CrcOk, HoldsBlocks, Parse, Checksum, FlagsOk;
    ParsedHeld(Word(f, 4) / 64, Word(f, 12), f[16..|f| - 2]);
  }

  // ---------------------------------------------------------------- error detection

  lemma AcceptedFrame(f: seq<byte>)
    requires Decode(f).Some?
    ensures 18 <= |f| && f[0..4] == [0xba, 0xdc, 0xcd, 0xab] && CrcOk(f)
  {
    hide Checksum, Crc, Parse, FlagsOk;
  }

  /** Two accepted frames that differ only inside two adjacent CRC-covered bytes are the same frame. */
  lemma PairDecides(f: seq<byte>, g: seq<byte>, i: nat)
    requires Decode(f).Some? && Decode(g).Some? && |f| == |g|
    requires 4 <= i && i + 2 <= |f| - 2 && f[..i] == g[..i] && f[i + 2..] == g[i + 2..]
    ensures f == g
  {
    hide Decode, Crc;
    AcceptedFrame(f);
    AcceptedFrame(g);
    var n := |f| - 2;
    var s, t := f[4..n], g[4..n];
    assert s[..i - 4] == f[..i][4..] && t[..i - 4] == g[..i][4..];
    assert s[i - 4 + 2..] == f[i + 2..][..n - i - 2] && t[i - 4 + 2..] == g[i + 2..][..n - i - 2];
    assert f[n..] == f[i + 2..][n - i - 2..] && g[n..] == g[i + 2..][n - i - 2..];
    assert Word(f, n) == Word(g, n) by {
      assert f[n] == f[n..][0] && f[n + 1] == f[n..][1] && g[n] == g[n..][0] && g[n + 1] == g[n..][1];
    }
    CrcPair(s, t, i - 4);
    assert f == f[..i][..4] + s + f[n..] && g == g[..i][..4] + t + g[n..];
  }

  /** Any change confined to two adjacent CRC-covered bytes of an accepted frame makes the decoder reject it. */
  lemma PairChangeRejected(f: seq<byte>, i: nat, a: byte, b: byte)
    requires Decode(f).Some? && 4 <= i && i + 2 <= |f| - 2
    requires a != f[i] || b != f[i + 1]
    ensures Decode(f[i := a][i + 1 := b]).None?
  {
    hide Decode;
    var g := f[i := a][i + 1 := b];
    assert g[i] == a && g[i + 1] == b;
    if Decode(g).Some? {
      PairDecides(f, g, i);
      assert false;
    }
  }

  lemma OutsideCrc(f: seq<byte>, g: seq<byte>)
    requires Decode(f).Some? && Decode(g).Some? && |f| == |g| && f[4..|f| - 2] == g[4..|f| - 2]
    ensures f == g
  {
    hide Decode, Crc, PutLE;
    AcceptedFrame(f);
    AcceptedFrame(g);
    var n := |f| - 2;
    PutWord(f, n);
    PutWord(g, n);
    assert f == f[0..4] + f[4..n] + f[n..n + 2] && g == g[0..4] + g[4..n] + g[n..n + 2];
  }

  /** Changing any single byte of an accepted frame makes the decoder reject it. */
  lemma ByteChangeRejected(f: seq<byte>, i: nat, b: byte)
    requires Decode(f).Some? && i < |f| && b != f[i]
    ensures Decode(f[i := b]).None?
  {
    hide Decode;
    var g := f[i := b];
    AcceptedFrame(f);
    var n := |f| - 2;
    if 4 <= i < n - 1 {
      assert f[i + 1] == f[i := b][i + 1];
      assert g == f[i := b][i + 1 := f[i + 1]];
      PairChangeRejected(f, i, b, f[i + 1]);
    } else if i == n - 1 {
      assert g == f[i - 1 := f[i - 1]][i := b];
      PairChangeRejected(f, i - 1, f[i - 1], b);
    } else if Decode(g).Some? {
      OutsideCrc(f, g);
      assert false;
    }
  }

  // ---------------------------------------------------------------- the buffer code

  /** The length loop of the encoder, which gives up as soon as the payload is too long. */
  method MeasurePayload(c: Command) returns (length: int)
    requires c.messageId <= 0x3ff
    ensures length >= 0 <==> (forall i | 0 <= i < |c.subblocks| :: c.subblocks[i].id < MAX_SUBBLOCKS)
                             && |Payload(c.messageId, c.subblocks)| <= MAX_COMMAND_PAYLOAD_LENGTH
    ensures length >= 0 ==> length == |Payload(c.messageId, c.subblocks)|
  {
    hide PutLE;
    length := 0;
    var i := 0;
    assert c.subblocks[0..] == c.subblocks;
    while i < |c.subblocks|
      invariant 0 <= i <= |c.subblocks| && length >= 0
      invariant forall j | 0 <= j < i :: c.subblocks[j].id < MAX_SUBBLOCKS
      invariant length + |Payload(c.messageId, c.subblocks[i..])| == |Payload(c.messageId, c.subblocks)|
      invariant length <= MAX_COMMAND_PAYLOAD_LENGTH
    {
      if c.subblocks[i].id >= MAX_SUBBLOCKS {
        return -1;
      }
      assert c.subblocks[i..][1..] == c.subblocks[i + 1..];
      length := length + 4 + |c.subblocks[i].data|;
      if length > MAX_COMMAND_PAYLOAD_LENGTH {
        return -1;
      }
      i := i + 1;
    }
  }

  /** The sub-block loop of the encoder: writes each block at a moving offset. */
  method FillBlocks(frame: array<byte>, c: Command, start: nat) returns (offset: nat)
    requires Encodable(c) && start + |Payload(c.messageId, c.subblocks)| <= frame.Length
    modifies frame
    ensures offset == start + |Payload(c.messageId, c.subblocks)|
    ensures frame[..] == Patched(old(frame[..]), start, Payload(c.messageId, c.subblocks))
  {
    hide PutLE, Patched;
    offset := start;
    ghost var was := frame[..];
    ghost var all := Payload(c.messageId, c.subblocks);
    ghost var done: seq<byte> := [];
    var i := 0;
    assert c.subblocks[0..] == c.subblocks && done + all == all;
    assert frame[..] == Patched(was, start, done);
    while i < |c.subblocks|
      invariant 0 <= i <= |c.subblocks| && offset == start + |done|
      invariant all == done + Payload(c.messageId, c.subblocks[i..])
      invariant frame[..] == Patched(was, start, done)
    {
      var sb := c.subblocks[i];
      assert c.subblocks[i..][1..] == c.subblocks[i + 1..];
      ghost var rest := Payload(c.messageId, c.subblocks[i + 1..]);
      assert done + (Block(c.messageId, sb) + rest) == done + Block(c.messageId, sb) + rest;
      FillBlock(frame, c.messageId, sb, offset);
      PatchTwice(was, start, done, Block(c.messageId, sb));
      done := done + Block(c.messageId, sb);
      offset := offset + 4 + |sb.data|;
      i := i + 1;
    }
    assert done == all;
  }

  method FillBlock(frame: array<byte>, messageId: u16, sb: Subblock, offset: nat)
    requires offset + |Block(messageId, sb)| <= frame.Length
    modifies frame
    ensures frame[..] == Patched(old(frame[..]), offset, Block(messageId, sb))
  {
    hide PutLE, Patched;
    ghost var was := frame[..];
    ghost var id, length := PutLE(UniqueId(messageId, sb.id), 2), PutLE(4 + |sb.data|, 2);
    PutField(frame, offset, messageId * MAX_SUBBLOCKS + sb.id, 2);
    PutField(frame, offset + 2, 4 + |sb.data|, 2);
    PatchTwice(was, offset, id, length);
    CopyInto(frame, offset + 4, sb.data);
    PatchTwice(was, offset, id + length, sb.data);
  }

  method FillPadding(frame: array<byte>, start: nat, count: nat)
    requires start + count <= frame.Length
    modifies frame
    ensures frame[..] == Patched(old(frame[..]), start, Padding(count))
  {
    hide Patched, Padding;
    var i := 0;
    while i < count
      invariant 0 <= i <= count
      invariant frame[..] == Patched(old(frame[..]), start, Padding(i))
    {
      frame[start + i] := 0xff;
      i := i + 1;
    }
  }

  method FillHead(frame: array<byte>, c: Command)
    requires Encodable(c) && frame.Length >= 14
    modifies frame
    ensures frame[..] == Patched(old(frame[..]), 4, Head(c.direction, 0, c))
  {
    hide PutLE, Patched, BodyLength, Encodable;
    ghost var was := frame[..];
    var opcode := c.direction + 64 * c.messageId;
    PutField(frame, 4, opcode, 2);
    ghost var a := PutLE(opcode, 2);
    PutField(frame, 6, 14 + BodyLength(c), 2);
    ghost var b := PutLE(14 + BodyLength(c), 2);
    PatchTwice(was, 4, a, b);
    PutField(frame, 8, 4096 * c.sequence, 2);
    ghost var d := PutLE(4096 * c.sequence, 2);
    PatchTwice(was, 4, a + b, d);
    PutField(frame, 10, c.remainingChunks, 2);
    ghost var e := PutLE(c.remainingChunks, 2);
    PatchTwice(was, 4, a + b + d, e);
    PutField(frame, 12, |c.subblocks|, 2);
    PatchTwice(was, 4, a + b + d + e, PutLE(|c.subblocks|, 2));
  }

  method FillBody(frame: array<byte>, c: Command)
    requires Encodable(c) && 16 + |Body(c)| <= frame.Length
    modifies frame
    ensures frame[..] == Patched(old(frame[..]), 16, Body(c))
  {
    hide PutLE, Patched, Payload, Padding, Encodable, PadLength;
    ghost var was := frame[..];
    var offset := FillBlocks(frame, c, 16);
    ghost var p := Payload(c.messageId, c.subblocks);
    FillPadding(frame, offset, PadLength(offset - 16));
    PatchTwice(was, 16, p, Padding(PadLength(|p|)));
  }

  /** encodeMMWaveLinkCommand. */
  method EncodeCommand(c: Command) returns (r: Option<seq<byte>>)
    ensures r == Encode(c)
  {
    hide PutLE, Patched, Payload, Checksum, Crc, Head, Padding, Covered;
    if c.direction != HOST_TO_BSS && c.direction != HOST_TO_MSS {
      return None;
    }
    if c.messageId > 0x3ff || c.sequence > 0xf || |c.subblocks| > MAX_SUBBLOCKS {
      return None;
    }
    var length := MeasurePayload(c);
    if length < 0 {
      return None;
    }
    var pad := PadLength(length);
    if length + pad > MAX_COMMAND_PAYLOAD_LENGTH {
      return None;
    }
    var frame := FillFrame(c, length, pad);
    return Some(frame);
  }

  method FillFrame(c: Command, length: nat, pad: nat) returns (r: seq<byte>)
    requires Encodable(c) && length == |Payload(c.messageId, c.subblocks)| && pad == PadLength(length)
    ensures r == Layout(HOST_SYNC, c.direction, 0, c)
  {
    hide PutLE, Patched, Payload, Checksum, Crc, Head, Padding, PadLength, Encodable;
    var end := 16 + length + pad;
    var frame := new byte[end + 2](_ => 0);
    PutField(frame, 0, HOST_SYNC.0, 2);
    PutField(frame, 2, HOST_SYNC.1, 2);
    FillHead(frame, c);
    FillBody(frame, c);
    ghost var sync, head := PutLE(HOST_SYNC.0, 2) + PutLE(HOST_SYNC.1, 2), Head(c.direction, 0, c);
    assert frame[..4] == sync && frame[4..14] == head && frame[16..end] == Body(c);
    SealFrame(frame, c);
    r := frame[..];
    assert r == frame[..4] + frame[4..end] + frame[end..];
  }

  /** The header checksum, then the CRC over everything after the sync words. */
  method SealFrame(frame: array<byte>, c: Command)
    requires frame.Length == 18 + |Body(c)| && frame[4..14] == Head(c.direction, 0, c) && frame[16..frame.Length - 2] == Body(c)
    modifies frame
    ensures frame[..4] == old(frame[..4]) && frame[4..frame.Length - 2] == Covered(c.direction, 0, c)
    ensures frame[frame.Length - 2..] == PutLE(Crc(Covered(c.direction, 0, c)), 2)
  {
    hide PutLE, Patched, Checksum, Crc, Head, Body;
    var end := frame.Length - 2;
    var checksum := ComputeChecksum(frame[4..14]);
    ghost var was := frame[..];
    PutField(frame, 14, checksum, 2);
    PatchKeeps(was, 14, PutLE(checksum, 2), 0, 4);
    PatchKeeps(was, 14, PutLE(checksum, 2), 4, 14);
    PatchKeeps(was, 14, PutLE(checksum, 2), 16, end);
    PatchSets(was, 14, PutLE(checksum, 2));
    assert frame[4..end] == frame[4..14] + frame[14..16] + frame[16..end];
    var crc := ComputeCrc(frame[4..end]);
    was := frame[..];
    PutField(frame, end, crc, 2);
    PatchKeeps(was, end, PutLE(crc, 2), 0, 4);
    PatchKeeps(was, end, PutLE(crc, 2), 4, end);
    PatchSets(was, end, PutLE(crc, 2));
  }

  /** decodeMMWaveLinkMessage's sub-block loop. */
  method ParseBlocks(messageId: u16, count: nat, payload: seq<byte>) returns (r: Option<(seq<Subblock>, seq<byte>)>)
    ensures r == Parse(messageId, count, payload)
  {
    var blocks: seq<Subblock>, rest, left := [], payload, count;
    assert forall more: seq<Subblock> :: [] + more == more;
    while left > 0
      invariant 0 <= left <= count
      invariant Parse(messageId, count, payload) ==
                match Parse(messageId, left, rest)
                case None => None
                case Some((more, tail)) => Some((blocks + more, tail))
    {
      if |rest| < 4 {
        return None;
      }
      var uniqueId, length := Word(rest, 0), Word(rest, 2);
      if length < 4 || length > |rest| || uniqueId / MAX_SUBBLOCKS != messageId {
        return None;
      }
      var block := Subblock(uniqueId % MAX_SUBBLOCKS, rest[4..length]);
      Regroup(messageId, left, rest, blocks, block);
      blocks := blocks + [block];
      rest := rest[length..];
      left := left - 1;
    }
    assert blocks + [] == blocks;
    return Some((blocks, rest));
  }

  lemma Regroup(messageId: u16, left: nat, rest: seq<byte>, blocks: seq<Subblock>, block: Subblock)
    requires left > 0 && |rest| >= 4 && 4 <= Word(rest, 2) <= |rest| && Word(rest, 0) / MAX_SUBBLOCKS == messageId
    requires block == Subblock(Word(rest, 0) % MAX_SUBBLOCKS, rest[4..Word(rest, 2)])
    ensures var next := Parse(messageId, left - 1, rest[Word(rest, 2)..]);
            match Parse(messageId, left, rest)
            case None => next.None?
            case Some((more, tail)) => next.Some? && next.value.1 == tail && blocks + more == blocks + [block] + next.value.0
  {
    hide Word;
  }

  method DecodeMessage(f: seq<byte>) returns (r: Option<Message>)
    ensures r == Decode(f)
  {
    hide Parse, Crc, Checksum;
    if |f| < 18 || |f| > MAX_MESSAGE_LENGTH {
      return None;
    }
    var checksum := ComputeChecksum(f[4..14]);
    var headerOk := CheckHeader(f, checksum);
    var crc := ComputeCrc(f[4..|f| - 2]);
    if !headerOk || Word(f, |f| - 2) != crc || Word(f, 12) > MAX_SUBBLOCKS {
      return None;
    }
    var parsed := ParseBlocks(Word(f, 4) / 64, Word(f, 12), f[16..|f| - 2]);
    match parsed {
      case None => return None;
      case Some((blocks, rest)) =>
        if |rest| >= 4 {
          return None;
        }
        var i := 0;
        while i < |rest|
          invariant 0 <= i <= |rest| && forall j | 0 <= j < i :: rest[j] == 0xff
        {
          if rest[i] != 0xff {
            return None;
          }
          i := i + 1;
        }
        return Some(Message(Word(f, 4) % 16, Word(f, 4) / 16 % 4, Word(f, 4) / 64, Word(f, 8) / 4096, Word(f, 10), blocks));
    }
  }

  method CheckHeader(f: seq<byte>, checksum: int) returns (ok: bool)
    requires |f| >= 18 && checksum == Checksum(f[4..14])
    ensures ok == HeaderOk(f)
  {
    hide Checksum;
    if Word(f, 0) != DEVICE_SYNC.0 || Word(f, 2) != DEVICE_SYNC.1 {
      return false;
    }
    var declared := Word(f, 6);
    if declared != |f| - 4 || (declared - 2) % 4 != 0 || Word(f, 14) != checksum {
      return false;
    }
    var direction, messageClass := Word(f, 4) % 16, Word(f, 4) / 16 % 4;
    if (direction != BSS_TO_HOST && direction != MSS_TO_HOST) || messageClass == 0 {
      return false;
    }
    return FlagsOk(Word(f, 8));
  }
}
