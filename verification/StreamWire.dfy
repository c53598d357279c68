/**
  The 80-byte record framing of the aggregate stream (internal/multisensorstream/protocol.go): what a record looks like
  on the wire, how it is read back, and the whole encoder-to-decoder path over bytes.
 */
module StreamWire {
  import opened Bytes
  import opened Common
  import opened Sensors
  import opened StreamModel
  import opened StreamLanguage
  import opened StreamLockstep

  const HEADER_SIZE: nat := 80
  const MAX_METADATA_BYTES: int := 0x10_0000
  const MAGIC: seq<byte> := [77, 77, 87, 77, 83, 84, 82, 49]  // MMWMSTR1
  // mmwcli.multisensor_stream.record.v1 and a zero byte
  const DIGEST_DOMAIN: seq<byte> :=
    [109, 109, 119, 99, 108, 105, 46, 109, 117, 108, 116, 105, 115, 101, 110, 115, 111, 114, 95, 115, 116, 114, 101, 97,
     109, 46, 114, 101, 99, 111, 114, 100, 46, 118, 49, 0]

  type JsonCheck = seq<byte> -> bool

  /** A record as protocol.go sees it: metadata is opaque text. */
  datatype Frame = Frame(rtype: RecordType, recordSeq: u64, metadata: seq<byte>, payload: seq<byte>)

  function TypeCode(t: RecordType): (c: nat)
    ensures 1 <= c <= 8
  {
    match t
    case SessionType => 1
    case RadarConfigType => 2
    case RadarStartType => 3
    case ItemType => 4
    case EndType => 5
    case CommitType => 6
    case AbortType => 7
    case EofType => 8
  }

  function TypeOf(code: nat): (t: Option<RecordType>)
    ensures t.Some? ==> TypeCode(t.value) == code
    ensures t.None? ==> code < 1 || code > 8
  {
    if code == 1 then Some(SessionType)
    else if code == 2 then Some(RadarConfigType)
    else if code == 3 then Some(RadarStartType)
    else if code == 4 then Some(ItemType)
    else if code == 5 then Some(EndType)
    else if code == 6 then Some(CommitType)
    else if code == 7 then Some(AbortType)
    else if code == 8 then Some(EofType)
    else None
  }

  lemma TypeCodes(t: RecordType)
    ensures TypeOf(TypeCode(t)) == Some(t)
  {
  }

  // ---------------------------------------------------------------- layout

  function Prefix(code: nat, recordSeq: nat, metadataBytes: nat, payloadBytes: nat): (s: seq<byte>)
    ensures |s| == 48
  {
    MAGIC + PutLE(1, 2) + PutLE(HEADER_SIZE, 2) + PutLE(code, 2) + PutLE(0, 2)
    + PutLE(recordSeq, 8) + PutLE(metadataBytes, 8) + PutLE(payloadBytes, 8) + PutLE(0, 8)
  }

  function RecordDigest(H: Hash, prefix: seq<byte>, metadata: seq<byte>, payload: seq<byte>): seq<byte> {
    H(DIGEST_DOMAIN + prefix + metadata + payload)
  }

  function Header(H: Hash, f: Frame): seq<byte> {
    var prefix := Prefix(TypeCode(f.rtype), f.recordSeq, |f.metadata|, |f.payload|);
    prefix + RecordDigest(H, prefix, f.metadata, f.payload)
  }

  function Wire(H: Hash, f: Frame): seq<byte> {
    Header(H, f) + f.metadata + f.payload
  }

  predicate Writable(json: JsonCheck, f: Frame) {
    0 < |f.metadata| <= MAX_METADATA_BYTES && json(f.metadata) && WirePayloadOk(f.rtype, |f.payload|)
  }

  datatype ReadResult = AtEof | Bad | Got(frame: Frame, rest: seq<byte>)

  /** readRecord: the checks in the order of the code. */
  function ReadFrame(H: Hash, json: JsonCheck, input: seq<byte>): ReadResult {
    if input == [] then AtEof
    else if |input| < HEADER_SIZE then Bad
    else if input[0..8] != MAGIC || GetLE(input[8..10]) != 1 || GetLE(input[10..12]) != HEADER_SIZE then Bad
    else if GetLE(input[14..16]) != 0 || GetLE(input[40..48]) != 0 then Bad
    else
      match TypeOf(GetLE(input[12..14]))
      case None => Bad
      case Some(t) => ReadBody(H, json, input, t, GetLE(input[16..24]), GetLE(input[24..32]), GetLE(input[32..40]))
  }

  function ReadBody(H: Hash, json: JsonCheck, input: seq<byte>, t: RecordType, recordSeq: nat, m: nat, p: nat): ReadResult
    requires |input| >= HEADER_SIZE
  {
    if m == 0 || m > MAX_METADATA_BYTES || !WirePayloadOk(t, p) || recordSeq > MAX_UINT64 then Bad
    else if |input| < HEADER_SIZE + m + p then Bad
    else
      var metadata, payload := input[HEADER_SIZE..HEADER_SIZE + m], input[HEADER_SIZE + m..HEADER_SIZE + m + p];
      if input[48..80] != RecordDigest(H, input[..48], metadata, payload) || !json(metadata) then Bad
      else Got(Frame(t, recordSeq, metadata, payload), input[HEADER_SIZE + m + p..])
  }

  lemma PrefixFields(code: nat, recordSeq: nat, m: nat, p: nat)
    ensures var s := Prefix(code, recordSeq, m, p);
            && s[0..8] == MAGIC && s[8..10] == PutLE(1, 2) && s[10..12] == PutLE(HEADER_SIZE, 2)
            && s[12..14] == PutLE(code, 2) && s[14..16] == PutLE(0, 2) && s[16..24] == PutLE(recordSeq, 8)
            && s[24..32] == PutLE(m, 8) && s[32..40] == PutLE(p, 8) && s[40..48] == PutLE(0, 8)
  {
    hide PutLE;
  }

  lemma FieldValues(code: nat, recordSeq: nat, m: nat, p: nat)
    requires code < 0x1_0000 && recordSeq <= MAX_UINT64 && m <= MAX_UINT64 && p <= MAX_UINT64
    ensures var s := Prefix(code, recordSeq, m, p);
            && s[0..8] == MAGIC && GetLE(s[8..10]) == 1 && GetLE(s[10..12]) == HEADER_SIZE
            && GetLE(s[12..14]) == code && GetLE(s[14..16]) == 0 && GetLE(s[16..24]) == recordSeq
            && GetLE(s[24..32]) == m && GetLE(s[32..40]) == p && GetLE(s[40..48]) == 0
  {
    hide PutLE, GetLE, Pow256, Prefix;
    PowConstants();
    PrefixFields(code, recordSeq, m, p);
    GetPut(1, 2);
    GetPut(HEADER_SIZE, 2);
    GetPut(code, 2);
    GetPut(0, 2);
    GetPut(recordSeq, 8);
    GetPut(m, 8);
    GetPut(p, 8);
    GetPut(0, 8);
  }

  /** Reading back a written record, whatever follows it. */
  lemma WriteThenRead(H: Hash, json: JsonCheck, f: Frame, rest: seq<byte>)
    requires Writable(json, f)
    ensures ReadFrame(H, json, Wire(H, f) + rest) == Got(f, rest)
  {
    hide PutLE, GetLE, Prefix;
    var m, p := |f.metadata|, |f.payload|;
    var prefix := Prefix(TypeCode(f.rtype), f.recordSeq, m, p);
    FieldValues(TypeCode(f.rtype), f.recordSeq, m, p);
    TypeCodes(f.rtype);
    var digest := RecordDigest(H, prefix, f.metadata, f.payload);
    HashLength(H, DIGEST_DOMAIN + prefix + f.metadata + f.payload);
    var input := Wire(H, f) + rest;
    Slices(prefix, digest, f.metadata, f.payload, rest, input);
    InnerSlices(prefix, input);
    assert ReadFrame(H, json, input) == ReadBody(H, json, input, f.rtype, f.recordSeq, m, p);
  }

  lemma Slices(prefix: seq<byte>, digest: seq<byte>, metadata: seq<byte>, payload: seq<byte>, rest: seq<byte>, input: seq<byte>)
    requires |prefix| == 48 && |digest| == 32 && input == prefix + digest + metadata + payload + rest
    ensures input[..48] == prefix && input[48..80] == digest && input[80..80 + |metadata|] == metadata
    ensures input[80 + |metadata|..80 + |metadata| + |payload|] == payload
    ensures input[80 + |metadata| + |payload|..] == rest
  {
  }

  lemma InnerSlices(prefix: seq<byte>, input: seq<byte>)
    requires |prefix| == 48 && prefix <= input
    ensures input[0..8] == prefix[0..8] && input[8..10] == prefix[8..10] && input[10..12] == prefix[10..12]
    ensures input[12..14] == prefix[12..14] && input[14..16] == prefix[14..16] && input[16..24] == prefix[16..24]
    ensures input[24..32] == prefix[24..32] && input[32..40] == prefix[32..40] && input[40..48] == prefix[40..48]
  {
  }

  lemma PrefixRebuilt(s: seq<byte>)
    requires |s| == 48 && s[0..8] == MAGIC && GetLE(s[8..10]) == 1 && GetLE(s[10..12]) == HEADER_SIZE
    requires GetLE(s[14..16]) == 0 && GetLE(s[40..48]) == 0
    ensures s == Prefix(GetLE(s[12..14]), GetLE(s[16..24]), GetLE(s[24..32]), GetLE(s[32..40]))
  {
    hide PutLE, GetLE;
    PutGet(s[8..10]);
    PutGet(s[10..12]);
    PutGet(s[12..14]);
    PutGet(s[14..16]);
    PutGet(s[16..24]);
    PutGet(s[24..32]);
    PutGet(s[32..40]);
    PutGet(s[40..48]);
    assert s == s[0..8] + s[8..10] + s[10..12] + s[12..14] + s[14..16] + s[16..24] + s[24..32] + s[32..40] + s[40..48];
  }

  /** Nothing but the image of a writable record is ever read as a record: the framing is canonical. */
  lemma ReadIsWritten(H: Hash, json: JsonCheck, input: seq<byte>)
    requires ReadFrame(H, json, input).Got?
    ensures var Got(f, rest) := ReadFrame(H, json, input); Writable(json, f) && input == Wire(H, f) + rest
  {
    hide PutLE, GetLE, Prefix;
    InnerSlices(input[..48], input);
    PrefixRebuilt(input[..48]);
    var Got(f, rest) := ReadFrame(H, json, input);
    var m, p := |f.metadata|, |f.payload|;
    assert input == input[..48] + input[48..80] + input[80..80 + m] + input[80 + m..80 + m + p] + input[80 + m + p..];
  }

  /** The framing is prefix-free: no record's image begins another's, and equal images come from equal records. */
  lemma PrefixFree(H: Hash, json: JsonCheck, f: Frame, g: Frame, extra: seq<byte>)
    requires Writable(json, f) && Writable(json, g) && Wire(H, f) == Wire(H, g) + extra
    ensures f == g && extra == []
  {
    hide Wire, ReadFrame;
    WriteThenRead(H, json, f, []);
    WriteThenRead(H, json, g, extra);
    assert Wire(H, f) + [] == Wire(H, g) + extra;
  }

  /** A record cut short is never mistaken for the end of the stream nor for another record. */
  lemma TruncatedIsBad(H: Hash, json: JsonCheck, f: Frame, n: nat)
    requires Writable(json, f) && 0 < n < |Wire(H, f)|
    ensures ReadFrame(H, json, Wire(H, f)[..n]).Bad?
  {
    hide PutLE, GetLE, Prefix, Header;
    var whole := Wire(H, f);
    var cut, missing := whole[..n], whole[n..];
    if ReadFrame(H, json, cut).Got? {
      ReadIsWritten(H, json, cut);
      var Got(g, rest) := ReadFrame(H, json, cut);
      assert whole == Wire(H, g) + (rest + missing);
      PrefixFree(H, json, f, g, rest + missing);
      assert false;
    }
  }

  // ---------------------------------------------------------------- whole streams over bytes

  /** JSON marshalling and exact-key unmarshalling of each record type's metadata. */
  datatype Codec = Codec(json: JsonCheck, marshal: Meta -> seq<byte>, unmarshal: (RecordType, seq<byte>) -> Option<Meta>)

  /** Metadata survives the codec and stays inside the metadata limit. */
  ghost predicate Faithful(c: Codec, r: Record) {
    && c.unmarshal(r.rtype, c.marshal(r.meta)) == Some(r.meta)
    && 0 < |c.marshal(r.meta)| <= MAX_METADATA_BYTES && c.json(c.marshal(r.meta))
    && r.recordSeq <= MAX_UINT64 && WirePayloadOk(r.rtype, |r.payload|)
  }

  function RecordWire(H: Hash, c: Codec, r: Record): seq<byte> {
    if r.recordSeq > MAX_UINT64 then [] else Wire(H, Frame(r.rtype, r.recordSeq, c.marshal(r.meta), r.payload))
  }

  function StreamBytes(H: Hash, c: Codec, records: seq<Record>): seq<byte> {
    if records == [] then [] else StreamBytes(H, c, records[..|records| - 1]) + RecordWire(H, c, records[|records| - 1])
  }

  /** What one Read sees: a framed record with readable metadata, the end of the transport, or a protocol error. */
  function InputOf(c: Codec, read: ReadResult): Input {
    match read
    case AtEof => TransportEof
    case Bad => Malformed
    case Got(f, _) =>
      match c.unmarshal(f.rtype, f.metadata)
      case None => Malformed
      case Some(meta) => Framed(Record(f.rtype, f.recordSeq, meta, f.payload))
  }

  /** Reads until the decoder completes or breaks. */
  function DecodeBytes(H: Hash, c: Codec, d: DecState, input: seq<byte>): DecState
    decreases |input|
  {
    var read := ReadFrame(H, c.json, input);
    var d' := DecStep(H, d, InputOf(c, read));
    if read.Got? && |read.rest| < |input| then DecodeBytes(H, c, d', read.rest) else d'
  }

  lemma RestIsShorter(H: Hash, json: JsonCheck, input: seq<byte>)
    ensures ReadFrame(H, json, input).Got? ==> |ReadFrame(H, json, input).rest| < |input|
  {
    hide PutLE, GetLE;
  }

  /** Decoding the bytes of a record list, then whatever follows, is decoding the records, then whatever follows. */
  lemma {:induction false} DecodePrefix(H: Hash, c: Codec, records: seq<Record>, tail: seq<byte>)
    requires forall i | 0 <= i < |records| :: Faithful(c, records[i])
    ensures DecodeBytes(H, c, NewDecoder, StreamBytes(H, c, records) + tail) == DecodeBytes(H, c, DecAll(H, records), tail)
    decreases |records|
  {
    hide PutLE, GetLE, ReadFrame, DecStep, Wire;
    if records == [] {
      assert StreamBytes(H, c, records) + tail == tail;
    } else {
      var init, r := records[..|records| - 1], records[|records| - 1];
      var wire := RecordWire(H, c, r);
      assert StreamBytes(H, c, records) + tail == StreamBytes(H, c, init) + (wire + tail);
      DecodePrefix(H, c, init, wire + tail);
      assert Faithful(c, r);
      WriteThenRead(H, c.json, Frame(r.rtype, r.recordSeq, c.marshal(r.meta), r.payload), tail);
      RestIsShorter(H, c.json, wire + tail);
      assert DecodeBytes(H, c, DecAll(H, init), wire + tail) == DecodeBytes(H, c, DecStep(H, DecAll(H, init), Framed(r)), tail);
    }
  }

  lemma AtTransportEof(H: Hash, c: Codec, d: DecState)
    ensures DecodeBytes(H, c, d, []) == DecStep(H, d, TransportEof)
  {
    hide DecStep;
  }

  /**
    End to end over bytes: whatever the calls and the transport did, a reader of the finished records completes if and
    only if the encoder terminated through Commit or Abort.
   */
  lemma EndToEnd(H: Hash, c: Codec, session: Session, attempts: seq<Attempt>)
    requires EncRun(H, session, attempts).Some?
    requires forall i | 0 <= i < |EncRun(H, session, attempts).value.1| :: Faithful(c, EncRun(H, session, attempts).value.1[i])
    ensures var (s, written) := EncRun(H, session, attempts).value;
            DecodeBytes(H, c, NewDecoder, StreamBytes(H, c, written)).phase.Completed? <==> s.status.Terminal?
  {
    hide EncStep, DecStep, SessionOk, Faithful, ReadFrame;
    var (s, written) := EncRun(H, session, attempts).value;
    DecodePrefix(H, c, written, []);
    assert StreamBytes(H, c, written) + [] == StreamBytes(H, c, written);
    AtTransportEof(H, c, DecAll(H, written));
    Lockstep(H, session, attempts);
  }

  /** Records alone never complete a decoder: that takes the end of the transport. */
  lemma {:induction false} NeverCompletedByRecords(H: Hash, records: seq<Record>)
    ensures !DecAll(H, records).phase.Completed?
  {
    hide DecStep;
    if records != [] {
      NeverCompletedByRecords(H, records[..|records| - 1]);
      NotCompletedByRecord(H, DecAll(H, records[..|records| - 1]), records[|records| - 1]);
    }
  }

  lemma NotCompletedByRecord(H: Hash, d: DecState, r: Record)
    requires !d.phase.Completed?
    ensures !DecStep(H, d, Framed(r)).phase.Completed?
  {
    hide SessionOk, NewSources, CommitReady, ItemTimeOk, FormatOk, WirePayloadOk;
  }

  /** A stream that stops inside a record never completes. */
  lemma CutStreamBreaks(H: Hash, c: Codec, written: seq<Record>, next: Record, n: nat)
    requires forall i | 0 <= i < |written| :: Faithful(c, written[i])
    requires Faithful(c, next) && 0 < n < |RecordWire(H, c, next)|
    ensures DecodeBytes(H, c, NewDecoder, StreamBytes(H, c, written) + RecordWire(H, c, next)[..n]).phase.Broken?
  {
    hide ReadFrame, Wire, StreamBytes;
    var f := Frame(next.rtype, next.recordSeq, c.marshal(next.meta), next.payload);
    TruncatedIsBad(H, c.json, f, n);
    DecodePrefix(H, c, written, RecordWire(H, c, next)[..n]);
    NeverCompletedByRecords(H, written);
  }

  // ---------------------------------------------------------------- which byte strings complete

  function WireAll(H: Hash, frames: seq<Frame>): seq<byte> {
    if frames == [] then [] else Wire(H, frames[0]) + WireAll(H, frames[1..])
  }

  predicate Carries(c: Codec, f: Frame, r: Record) {
    c.unmarshal(f.rtype, f.metadata) == Some(r.meta) && r == Record(f.rtype, f.recordSeq, r.meta, f.payload)
  }

  /** The bytes are the images of writable frames, one after the other, and the frames carry these records. */
  ghost predicate Spells(H: Hash, c: Codec, input: seq<byte>, frames: seq<Frame>, records: seq<Record>) {
    && input == WireAll(H, frames) && |frames| == |records|
    && forall i | 0 <= i < |frames| :: Writable(c.json, frames[i]) && Carries(c, frames[i], records[i])
  }

  lemma SpellsOne(H: Hash, c: Codec, input: seq<byte>, f: Frame, frames: seq<Frame>, r: Record, records: seq<Record>)
    requires Writable(c.json, f) && Carries(c, f, r)
    ensures Spells(H, c, input, frames, records) <==> Spells(H, c, Wire(H, f) + input, [f] + frames, [r] + records)
  {
    hide Wire, Writable, Carries;
    assert ([f] + frames)[1..] == frames;
    if Spells(H, c, Wire(H, f) + input, [f] + frames, [r] + records) {
      assert Wire(H, f) + input == Wire(H, f) + WireAll(H, frames);
      assert input == (Wire(H, f) + input)[|Wire(H, f)|..] == WireAll(H, frames);
      assert forall i | 0 <= i < |frames| :: ([f] + frames)[i + 1] == frames[i] && ([r] + records)[i + 1] == records[i];
    }
  }

  /** The decoder after more records. */
  function DecMore(H: Hash, d: DecState, records: seq<Record>): DecState
    decreases |records|
  {
    if records == [] then d else DecMore(H, DecStep(H, d, Framed(records[0])), records[1..])
  }

  lemma {:induction false} MoreIsAll(H: Hash, before: seq<Record>, records: seq<Record>)
    ensures DecMore(H, DecAll(H, before), records) == DecAll(H, before + records)
    decreases |records|
  {
    hide DecStep;
    if records == [] {
      assert before + records == before;
    } else {
      ReadOneMore(H, before, records[0]);
      MoreIsAll(H, before + [records[0]], records[1..]);
      assert before + [records[0]] + records[1..] == before + records;
    }
  }

  lemma {:induction false} BrokenDecode(H: Hash, c: Codec, d: DecState, input: seq<byte>)
    requires d.phase.Broken?
    ensures DecodeBytes(H, c, d, input) == d
    decreases |input|
  {
    hide ReadFrame;
    var read := ReadFrame(H, c.json, input);
    if read.Got? && |read.rest| < |input| {
      BrokenDecode(H, c, d, read.rest);
    }
  }

  /** One Got read: the decoder goes on with the record it carries, and breaks if it carries none. */
  lemma DecodeGot(H: Hash, c: Codec, d: DecState, input: seq<byte>, f: Frame, rest: seq<byte>)
    requires ReadFrame(H, c.json, input) == Got(f, rest)
    ensures forall r :: Carries(c, f, r) ==> DecodeBytes(H, c, d, input) == DecodeBytes(H, c, DecStep(H, d, Framed(r)), rest)
    ensures c.unmarshal(f.rtype, f.metadata).None? && !d.phase.Completed? ==> DecodeBytes(H, c, d, input).phase.Broken?
  {
    hide ReadFrame;
    RestIsShorter(H, c.json, input);
    if c.unmarshal(f.rtype, f.metadata).None? && !d.phase.Completed? {
      BrokenDecode(H, c, DecStep(H, d, Malformed), rest);
    }
  }

  /** Whatever bytes complete the decoder spell records that complete it. */
  lemma {:induction false} CompletedSpells(H: Hash, c: Codec, before: seq<Record>, input: seq<byte>)
    returns (frames: seq<Frame>, records: seq<Record>)
    requires DecodeBytes(H, c, DecAll(H, before), input).phase.Completed?
    ensures Spells(H, c, input, frames, records)
    ensures DecStep(H, DecAll(H, before + records), TransportEof).phase.Completed?
    decreases |input|
  {
    var d := DecAll(H, before);
    NeverCompletedByRecords(H, before);
    var read := ReadFrame(H, c.json, input);
    if read.Got? {
      hide Wire, ReadFrame, DecodeBytes, DecAll, DecStep, Writable;
      ReadIsWritten(H, c.json, input);
      RestIsShorter(H, c.json, input);
      var f, rest := read.frame, read.rest;
      DecodeGot(H, c, d, input, f, rest);
      var r := Record(f.rtype, f.recordSeq, c.unmarshal(f.rtype, f.metadata).value, f.payload);
      assert Carries(c, f, r);
      ReadOneMore(H, before, r);
      frames, records := CompletedSpells(H, c, before + [r], rest);
      SpellsOne(H, c, rest, f, frames, r, records);
      frames, records := [f] + frames, [r] + records;
      assert before + [r] + records[1..] == before + records;
    } else {
      hide ReadFrame, DecAll;
      EmptyIffEof(H, c, input);
      frames, records := [], [];
      assert before + records == before;
    }
  }

  lemma EmptyIffEof(H: Hash, c: Codec, input: seq<byte>)
    ensures ReadFrame(H, c.json, input).AtEof? <==> input == []
  {
    hide GetLE;
  }

  lemma {:induction false} SpelledDecodes(H: Hash, c: Codec, d: DecState, input: seq<byte>, frames: seq<Frame>, records: seq<Record>)
    requires Spells(H, c, input, frames, records)
    ensures DecodeBytes(H, c, d, input) == DecStep(H, DecMore(H, d, records), TransportEof)
    decreases |frames|
  {
    hide Wire, ReadFrame, DecStep, Writable, Carries;
    if frames == [] {
      AtTransportEof(H, c, d);
    } else {
      var f, r := frames[0], records[0];
      var rest := WireAll(H, frames[1..]);
      WriteThenRead(H, c.json, f, rest);
      DecodeGot(H, c, d, input, f, rest);
      SpelledDecodes(H, c, DecStep(H, d, Framed(r)), rest, frames[1..], records[1..]);
    }
  }

  /**
    The decoder completes on a byte string if and only if it is, with nothing before, between or after, the images of
    writable frames that carry a complete stream.
   */
  lemma BytesCompleteIff(H: Hash, c: Codec, input: seq<byte>)
    ensures DecodeBytes(H, c, NewDecoder, input).phase.Completed? <==>
            exists frames, records ::
              Spells(H, c, input, frames, records) && DecStep(H, DecAll(H, records), TransportEof).phase.Completed?
  {
    hide DecodeBytes, Spells, DecStep;
    if DecodeBytes(H, c, NewDecoder, input).phase.Completed? {
      assert DecAll(H, []) == NewDecoder;
      var frames, records := CompletedSpells(H, c, [], input);
      assert [] + records == records;
    }
    if frames, records :|
        Spells(H, c, input, frames, records) && DecStep(H, DecAll(H, records), TransportEof).phase.Completed? {
      SpelledDecodes(H, c, NewDecoder, input, frames, records);
      MoreIsAll(H, [], records);
      assert [] + records == records;
    }
  }

  /** Some END record of the stream states the totals of all the source's items, and a required source ended complete. */
  ghost predicate Vouched(H: Hash, records: seq<Record>, id: string)
    requires Opens(records) && Declares(records, id)
  {
    exists j ::
      && 0 <= j < |records| && Names(records[j], EndType, id) && records[j].meta.EndMeta?
      && EndTotals(H, records, records[j].meta)
      && (ContractOf(records, id).required ==> records[j].meta.outcome == Complete)
  }

  /** Bytes on which the decoder completes: their records form a whole stream, and a COMMIT in it vouches for every source. */
  lemma CompletedBytesVouch(H: Hash, c: Codec, input: seq<byte>) returns (frames: seq<Frame>, records: seq<Record>)
    requires DecodeBytes(H, c, NewDecoder, input).phase.Completed?
    ensures Spells(H, c, input, frames, records)
    ensures Admitted(H, records) && Opens(records) && |records| >= 3
    ensures forall i | 0 <= i < |records| :: records[i].recordSeq == i
    ensures records[|records| - 2].rtype.CommitType? ==> forall id | Declares(records, id) :: Vouched(H, records, id)
  {
    hide DecodeBytes, Spells, DecStep, Admitted, Vouched, Declares, Opens;
    assert DecAll(H, []) == NewDecoder;
    frames, records := CompletedSpells(H, c, [], input);
    assert [] + records == records;
    CompletedShape(H, records);
    if records[|records| - 2].rtype.CommitType? {
      forall id | Declares(records, id)
        ensures Vouched(H, records, id)
      {
        VouchedFor(H, records, id);
      }
    }
  }

  lemma VouchedFor(H: Hash, records: seq<Record>, id: string)
    requires DecStep(H, DecAll(H, records), TransportEof).phase.Completed?
    requires |records| >= 2 && records[|records| - 2].rtype.CommitType? && Opens(records) && Declares(records, id)
    ensures Vouched(H, records, id)
  {
    hide DecStep, DecAll, Opens, Declares, EndTotals, ContractOf, Names;
    var j := CommitVouches(H, records, id);
  }

  // ---------------------------------------------------------------- the buffer code

  /** writeRecord: fills the header buffer field by field; the result is what reaches the writer, or nothing. */
  method WriteRecord(H: Hash, json: JsonCheck, f: Frame) returns (written: Option<seq<byte>>)
    ensures written == if Writable(json, f) then Some(Wire(H, f)) else None
  {
    hide PutLE;
    if |f.metadata| == 0 || |f.metadata| > MAX_METADATA_BYTES || !json(f.metadata) || !WirePayloadOk(f.rtype, |f.payload|) {
      return None;
    }
    var header := FillPrefix(TypeCode(f.rtype), f.recordSeq, |f.metadata|, |f.payload|);
    var digest: Digest := H(DIGEST_DOMAIN + header[..48] + f.metadata + f.payload);
    ghost var prefix := header[..48];
    CopyInto(header, 48, digest);
    assert header[..] == prefix + digest;
    return Some(header[..] + f.metadata + f.payload);
  }

  method FillPrefix(code: nat, recordSeq: nat, m: nat, p: nat) returns (header: array<byte>)
    ensures fresh(header) && header.Length == HEADER_SIZE
    ensures header[..48] == Prefix(code, recordSeq, m, p)
  {
    hide PutLE;
    header := new byte[HEADER_SIZE](_ => 0);
    FillIdentity(header, code);
    ghost var before := header[..];
    FillLengths(header, recordSeq, m, p);
    assert header[..16] == before[..16];
    assert header[40..48] == before[40..48] == [0, 0, 0, 0, 0, 0, 0, 0];
    ZeroFields();
  }

  method FillIdentity(header: array<byte>, code: nat)
    requires header.Length == HEADER_SIZE && forall i | 0 <= i < HEADER_SIZE :: header[i] == 0
    modifies header
    ensures header[..16] == MAGIC + PutLE(1, 2) + PutLE(HEADER_SIZE, 2) + PutLE(code, 2) + [0, 0]
    ensures forall i | 16 <= i < HEADER_SIZE :: header[i] == 0
  {
    hide PutLE, Patched;
    CopyInto(header, 0, MAGIC);
    PutField(header, 8, 1, 2);
    PutField(header, 10, HEADER_SIZE, 2);
    PutField(header, 12, code, 2);
    forall i | 14 <= i < HEADER_SIZE
      ensures header[i] == 0
    {
      assert header[..][i] == old(header[..])[i];
    }
  }

  method FillLengths(header: array<byte>, recordSeq: nat, m: nat, p: nat)
    requires header.Length == HEADER_SIZE
    modifies header
    ensures header[..] == Patched(old(header[..]), 16, PutLE(recordSeq, 8) + PutLE(m, 8) + PutLE(p, 8))
  {
    hide PutLE;
    PutField(header, 16, recordSeq, 8);
    PutField(header, 24, m, 8);
    PutField(header, 32, p, 8);
  }

  lemma ZeroFields()
    ensures PutLE(0, 2) == [0, 0] && PutLE(0, 8) == [0, 0, 0, 0, 0, 0, 0, 0]
  {
    assert PutLE(0, 0) == [] && PutLE(0, 1) == [0] && PutLE(0, 2) == [0, 0] && PutLE(0, 3) == [0, 0, 0];
    assert PutLE(0, 4) == [0, 0, 0, 0] && PutLE(0, 5) == [0, 0, 0, 0, 0] && PutLE(0, 6) == [0, 0, 0, 0, 0, 0];
    assert PutLE(0, 7) == [0, 0, 0, 0, 0, 0, 0];
  }
}
