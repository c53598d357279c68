/** The canonical binary sensor index (internal/multisensor/index.go). */
module SensorIndex {
  import opened Bytes
  import opened Common
  import opened Sensors

  const MAGIC: seq<byte> := [77, 77, 87, 83, 73, 68, 88, 49]  // MMWSIDX1
  const HEADER_BYTES: nat := 32
  const ENTRY_BYTES: nat := 64

  type u32 = x: int | 0 <= x < 0x1_0000_0000

  datatype Entry = Entry(
    itemIndex: u64, payloadOffset: u64, payloadSize: u64, tick: u64, wrapCount: u64, durationTicks: u64,
    syncEventId: u64, flags: u32, reserved: u32)

  datatype Index = Index(payloadBytes: u64, entries: seq<Entry>)

  // ---------------------------------------------------------------- validity

  /** Where entry i has to start: right after its predecessor. */
  function StartOf(entries: seq<Entry>, i: nat): int
    requires i <= |entries|
  {
    if i == 0 then 0 else entries[i - 1].payloadOffset + entries[i - 1].payloadSize
  }

  predicate EntryOk(ix: Index, limits: Limits, i: nat)
    requires i < |ix.entries|
  {
    var e := ix.entries[i];
    && e.itemIndex == i && e.payloadOffset == StartOf(ix.entries, i) && 0 < e.payloadSize <= limits.maxItemBytes
    && e.payloadOffset + e.payloadSize <= MAX_UINT64 && e.payloadOffset + e.payloadSize <= ix.payloadBytes
    && e.flags == 0 && e.reserved == 0
  }

  predicate Valid(ix: Index, limits: Limits) {
    && ValidLimits(limits) && |ix.entries| <= limits.maxItems && ix.payloadBytes <= limits.maxPayloadBytes
    && (forall i | 0 <= i < |ix.entries| :: EntryOk(ix, limits, i))
    && StartOf(ix.entries, |ix.entries|) == ix.payloadBytes
  }

  predicate Holds(e: Entry, x: int) { e.payloadOffset <= x < e.payloadOffset + e.payloadSize }

  /** The entries of a valid index partition the payload: every byte belongs to exactly one item. */
  lemma Partition(ix: Index, limits: Limits, x: int)
    requires Valid(ix, limits) && 0 <= x < ix.payloadBytes
    ensures exists i :: 0 <= i < |ix.entries| && Holds(ix.entries[i], x)
    ensures forall i, j | 0 <= i < j < |ix.entries| :: !(Holds(ix.entries[i], x) && Holds(ix.entries[j], x))
  {
    var i := FindItem(ix, limits, x, |ix.entries|);
    forall i, j | 0 <= i < j < |ix.entries|
      ensures ix.entries[i].payloadOffset + ix.entries[i].payloadSize <= ix.entries[j].payloadOffset
    {
      Ordered(ix, limits, i, j);
    }
  }

  lemma {:induction false} FindItem(ix: Index, limits: Limits, x: int, n: nat) returns (i: nat)
    requires Valid(ix, limits) && n <= |ix.entries| && 0 <= x < StartOf(ix.entries, n)
    ensures i < n && Holds(ix.entries[i], x)
    decreases n
  {
    assert EntryOk(ix, limits, n - 1);
    if x >= ix.entries[n - 1].payloadOffset {
      i := n - 1;
    } else {
      i := FindItem(ix, limits, x, n - 1);
    }
  }

  lemma {:induction false} Ordered(ix: Index, limits: Limits, i: nat, j: nat)
    requires Valid(ix, limits) && i < j < |ix.entries|
    ensures ix.entries[i].payloadOffset + ix.entries[i].payloadSize <= ix.entries[j].payloadOffset
    decreases j
  {
    assert EntryOk(ix, limits, j) && EntryOk(ix, limits, j - 1);
    if i < j - 1 {
      Ordered(ix, limits, i, j - 1);
    }
  }

  // ---------------------------------------------------------------- wire form

  function EntryWire(e: Entry): (s: seq<byte>)
    ensures |s| == ENTRY_BYTES
  {
    PutLE(e.itemIndex, 8) + PutLE(e.payloadOffset, 8) + PutLE(e.payloadSize, 8) + PutLE(e.tick, 8) + PutLE(e.wrapCount, 8)
    + PutLE(e.durationTicks, 8) + PutLE(e.syncEventId, 8) + PutLE(e.flags, 4) + PutLE(e.reserved, 4)
  }

  function EntriesWire(entries: seq<Entry>): (s: seq<byte>)
    ensures |s| == ENTRY_BYTES * |entries|
  {
    if entries == [] then [] else EntriesWire(entries[..|entries| - 1]) + EntryWire(entries[|entries| - 1])
  }

  function Header(count: nat, payloadBytes: nat): (s: seq<byte>)
    ensures |s| == HEADER_BYTES
  {
    MAGIC + PutLE(1, 2) + PutLE(HEADER_BYTES, 2) + PutLE(ENTRY_BYTES, 2) + PutLE(0, 2) + PutLE(count, 8) + PutLE(payloadBytes, 8)
  }

  function Encode(ix: Index, limits: Limits): Option<seq<byte>> {
    if Valid(ix, limits) then Some(Header(|ix.entries|, ix.payloadBytes) + EntriesWire(ix.entries)) else None
  }

  function ReadEntry(s: seq<byte>): Entry
    requires |s| == ENTRY_BYTES
  {
    FieldBounds(s);
    Entry(GetLE(s[0..8]), GetLE(s[8..16]), GetLE(s[16..24]), GetLE(s[24..32]), GetLE(s[32..40]), GetLE(s[40..48]),
          GetLE(s[48..56]), GetLE(s[56..60]), GetLE(s[60..64]))
  }

  lemma FieldBounds(s: seq<byte>)
    requires |s| == ENTRY_BYTES
    ensures GetLE(s[0..8]) <= MAX_UINT64 && GetLE(s[8..16]) <= MAX_UINT64 && GetLE(s[16..24]) <= MAX_UINT64
    ensures GetLE(s[24..32]) <= MAX_UINT64 && GetLE(s[32..40]) <= MAX_UINT64 && GetLE(s[40..48]) <= MAX_UINT64
    ensures GetLE(s[48..56]) <= MAX_UINT64 && GetLE(s[56..60]) < 0x1_0000_0000 && GetLE(s[60..64]) < 0x1_0000_0000
  {
    hide GetLE, PutLE, Pow256;
    PowConstants();
    PutGet(s[0..8]);
    PutGet(s[8..16]);
    PutGet(s[16..24]);
    PutGet(s[24..32]);
    PutGet(s[32..40]);
    PutGet(s[40..48]);
    PutGet(s[48..56]);
    PutGet(s[56..60]);
    PutGet(s[60..64]);
  }

  /** Where the fields of an entry and of the header lie. */
  lemma FieldPlaces(e: Entry, count: nat, payloadBytes: nat)
    ensures var s := EntryWire(e);
            && s[0..8] == PutLE(e.itemIndex, 8) && s[8..16] == PutLE(e.payloadOffset, 8) && s[16..24] == PutLE(e.payloadSize, 8)
            && s[24..32] == PutLE(e.tick, 8) && s[32..40] == PutLE(e.wrapCount, 8) && s[40..48] == PutLE(e.durationTicks, 8)
            && s[48..56] == PutLE(e.syncEventId, 8) && s[56..60] == PutLE(e.flags, 4) && s[60..64] == PutLE(e.reserved, 4)
    ensures var s := Header(count, payloadBytes);
            && s[0..8] == [0x4d, 0x4d, 0x57, 0x53, 0x49, 0x44, 0x58, 0x31] && s[8..10] == PutLE(1, 2) && s[10..12] == PutLE(32, 2)
            && s[12..14] == PutLE(64, 2) && s[14..16] == PutLE(0, 2) && s[16..24] == PutLE(count, 8) && s[24..32] == PutLE(payloadBytes, 8)
  {
    hide PutLE;
  }

  /** Entry i of the body. */
  function BlockAt(body: seq<byte>, i: nat): seq<byte>
    requires ENTRY_BYTES * (i + 1) <= |body|
  {
    body[ENTRY_BYTES * i..ENTRY_BYTES * i + ENTRY_BYTES]
  }

  function ReadEntries(body: seq<byte>, n: nat): (entries: seq<Entry>)
    requires ENTRY_BYTES * n <= |body|
    ensures |entries| == n
  {
    if n == 0 then [] else ReadEntries(body, n - 1) + [ReadEntry(BlockAt(body, n - 1))]
  }

  predicate HeaderOk(s: seq<byte>)
    requires |s| >= HEADER_BYTES
  {
    && s[0..8] == MAGIC && GetLE(s[8..10]) == 1 && GetLE(s[10..12]) == HEADER_BYTES && GetLE(s[12..14]) == ENTRY_BYTES
    && GetLE(s[14..16]) == 0
  }

  function Decode(s: seq<byte>, limits: Limits): Option<Index> {
    if !ValidLimits(limits) || |s| < HEADER_BYTES || !HeaderOk(s) then None
    else
      var count, payloadBytes := GetLE(s[16..24]), GetLE(s[24..32]);
      if count > limits.maxItems || payloadBytes > limits.maxPayloadBytes || |s| != HEADER_BYTES + ENTRY_BYTES * count then None
      else
        var ix := Index(payloadBytes, ReadEntries(s[HEADER_BYTES..], count));
        if Valid(ix, limits) then Some(ix) else None
  }

  // ---------------------------------------------------------------- bijection

  lemma EntryFields(e: Entry)
    ensures var s := EntryWire(e);
            && s[0..8] == PutLE(e.itemIndex, 8) && s[8..16] == PutLE(e.payloadOffset, 8) && s[16..24] == PutLE(e.payloadSize, 8)
            && s[24..32] == PutLE(e.tick, 8) && s[32..40] == PutLE(e.wrapCount, 8) && s[40..48] == PutLE(e.durationTicks, 8)
            && s[48..56] == PutLE(e.syncEventId, 8) && s[56..60] == PutLE(e.flags, 4) && s[60..64] == PutLE(e.reserved, 4)
  {
    hide PutLE;
  }

  lemma ReadWritten(e: Entry)
    ensures ReadEntry(EntryWire(e)) == e
  {
    hide PutLE, GetLE, Pow256, EntryWire;
    PowConstants();
    EntryFields(e);
    GetPut(e.itemIndex, 8);
    GetPut(e.payloadOffset, 8);
    GetPut(e.payloadSize, 8);
    GetPut(e.tick, 8);
    GetPut(e.wrapCount, 8);
    GetPut(e.durationTicks, 8);
    GetPut(e.syncEventId, 8);
    GetPut(e.flags, 4);
    GetPut(e.reserved, 4);
  }

  lemma WrittenRead(s: seq<byte>)
    requires |s| == ENTRY_BYTES
    ensures EntryWire(ReadEntry(s)) == s
  {
    hide PutLE, GetLE;
    PutGet(s[0..8]);
    PutGet(s[8..16]);
    PutGet(s[16..24]);
    PutGet(s[24..32]);
    PutGet(s[32..40]);
    PutGet(s[40..48]);
    PutGet(s[48..56]);
    PutGet(s[56..60]);
    PutGet(s[60..64]);
    assert s == s[0..8] + s[8..16] + s[16..24] + s[24..32] + s[32..40] + s[40..48] + s[48..56] + s[56..60] + s[60..64];
  }

  lemma {:induction false} ReadPrefix(a: seq<byte>, b: seq<byte>, n: nat)
    requires ENTRY_BYTES * n <= |a| && a <= b
    ensures ReadEntries(a, n) == ReadEntries(b, n)
    decreases n
  {
    hide ReadEntry;
    if n > 0 {
      ReadPrefix(a, b, n - 1);
      assert BlockAt(a, n - 1) == BlockAt(b, n - 1);
    }
  }

  lemma {:induction false} ReadEntriesWire(entries: seq<Entry>)
    ensures ReadEntries(EntriesWire(entries), |entries|) == entries
    decreases |entries|
  {
    hide ReadEntry, EntryWire;
    if entries != [] {
      var init, last := entries[..|entries| - 1], entries[|entries| - 1];
      ReadEntriesWire(init);
      ReadPrefix(EntriesWire(init), EntriesWire(entries), |init|);
      assert BlockAt(EntriesWire(entries), |init|) == EntryWire(last);
      ReadWritten(last);
      assert entries == init + [last];
    }
  }

  lemma {:induction false} EntriesWireRead(body: seq<byte>, n: nat)
    requires |body| == ENTRY_BYTES * n
    ensures EntriesWire(ReadEntries(body, n)) == body
    decreases n
  {
    hide ReadEntry, EntryWire;
    if n == 0 {
      assert body == [];
    } else {
      var init := body[..ENTRY_BYTES * (n - 1)];
      EntriesWireRead(init, n - 1);
      ReadPrefix(init, body, n - 1);
      WrittenRead(BlockAt(body, n - 1));
      assert body == init + BlockAt(body, n - 1);
      var entries := ReadEntries(body, n);
      assert entries[..n - 1] == ReadEntries(body, n - 1);
    }
  }

  lemma HeaderFields(count: nat, payloadBytes: nat)
    ensures var s := Header(count, payloadBytes);
            && s[0..8] == MAGIC && s[8..10] == PutLE(1, 2) && s[10..12] == PutLE(HEADER_BYTES, 2)
            && s[12..14] == PutLE(ENTRY_BYTES, 2) && s[14..16] == PutLE(0, 2)
            && s[16..24] == PutLE(count, 8) && s[24..32] == PutLE(payloadBytes, 8)
  {
    hide PutLE;
  }

  lemma HeaderReads(count: nat, payloadBytes: nat, s: seq<byte>)
    requires count <= MAX_UINT64 && payloadBytes <= MAX_UINT64 && Header(count, payloadBytes) <= s
    ensures HeaderOk(s) && GetLE(s[16..24]) == count && GetLE(s[24..32]) == payloadBytes
  {
    hide PutLE, GetLE, Pow256, Header;
    var h := Header(count, payloadBytes);
    PowConstants();
    HeaderFields(count, payloadBytes);
    assert s[0..8] == h[0..8] && s[8..10] == h[8..10] && s[10..12] == h[10..12] && s[12..14] == h[12..14];
    assert s[14..16] == h[14..16] && s[16..24] == h[16..24] && s[24..32] == h[24..32];
    GetPut(1, 2);
    GetPut(HEADER_BYTES, 2);
    GetPut(ENTRY_BYTES, 2);
    GetPut(0, 2);
    GetPut(count, 8);
    GetPut(payloadBytes, 8);
  }

  lemma HeaderRebuilt(s: seq<byte>)
    requires |s| >= HEADER_BYTES && HeaderOk(s)
    ensures s[..HEADER_BYTES] == Header(GetLE(s[16..24]), GetLE(s[24..32]))
  {
    hide PutLE, GetLE;
    PutGet(s[8..10]);
    PutGet(s[10..12]);
    PutGet(s[12..14]);
    PutGet(s[14..16]);
    PutGet(s[16..24]);
    PutGet(s[24..32]);
    assert s[..HEADER_BYTES] == s[0..8] + s[8..10] + s[10..12] + s[12..14] + s[14..16] + s[16..24] + s[24..32];
  }

  /** Every valid index survives encoding and decoding. */
  lemma DecodeEncode(ix: Index, limits: Limits)
    requires Valid(ix, limits)
    ensures Encode(ix, limits).Some? && Decode(Encode(ix, limits).value, limits) == Some(ix)
  {
    hide Header, EntriesWire, ReadEntries, HeaderOk, GetLE, EntryOk, StartOf;
    var s := Encode(ix, limits).value;
    HeaderReads(|ix.entries|, ix.payloadBytes, s);
    ReadEntriesWire(ix.entries);
    assert s[HEADER_BYTES..] == EntriesWire(ix.entries);
  }

  /** Every accepted byte string is the encoding of what it decodes to. */
  lemma EncodeDecode(s: seq<byte>, limits: Limits)
    requires Decode(s, limits).Some?
    ensures Valid(Decode(s, limits).value, limits) && Encode(Decode(s, limits).value, limits) == Some(s)
  {
    hide Header, EntriesWire, ReadEntries, HeaderOk, GetLE, EntryOk, StartOf;
    HeaderRebuilt(s);
    var count := GetLE(s[16..24]);
    EntriesWireRead(s[HEADER_BYTES..], count);
    assert s == s[..HEADER_BYTES] + s[HEADER_BYTES..];
  }

  // ---------------------------------------------------------------- the loops

  /** Validate: one pass with the next expected offset. */
  method Validate(ix: Index, limits: Limits) returns (ok: bool)
    ensures ok == Valid(ix, limits)
  {
    if !ValidLimits(limits) || |ix.entries| > limits.maxItems || ix.payloadBytes > limits.maxPayloadBytes {
      return false;
    }
    var nextOffset: int, item := 0, 0;
    while item < |ix.entries|
      invariant 0 <= item <= |ix.entries|
      invariant nextOffset == StartOf(ix.entries, item)
      invariant forall i | 0 <= i < item :: EntryOk(ix, limits, i)
    {
      var e := ix.entries[item];
      if e.itemIndex != item || e.payloadOffset != nextOffset || e.payloadSize == 0 || e.payloadSize > limits.maxItemBytes {
        assert !EntryOk(ix, limits, item);
        return false;
      }
      var end: int := e.payloadOffset + e.payloadSize;
      if end > MAX_UINT64 || end > ix.payloadBytes || e.flags != 0 || e.reserved != 0 {
        assert !EntryOk(ix, limits, item);
        return false;
      }
      nextOffset := end;
      item := item + 1;
    }
    return nextOffset == ix.payloadBytes;
  }

  method PutEntry(buffer: array<byte>, at: nat, e: Entry)
    requires at + ENTRY_BYTES <= buffer.Length
    modifies buffer
    ensures buffer[..] == Patched(old(buffer[..]), at, EntryWire(e))
  {
    hide PutLE, Patched;
    PutFirst(buffer, at, e);
    ghost var was := old(buffer[..]);
    ghost var a := PutLE(e.itemIndex, 8) + PutLE(e.payloadOffset, 8) + PutLE(e.payloadSize, 8) + PutLE(e.tick, 8);
    PutField(buffer, at + 32, e.wrapCount, 8);
    ghost var b := PutLE(e.wrapCount, 8);
    PatchTwice(was, at, a, b);
    PutField(buffer, at + 40, e.durationTicks, 8);
    ghost var d := PutLE(e.durationTicks, 8);
    PatchTwice(was, at, a + b, d);
    PutField(buffer, at + 48, e.syncEventId, 8);
    ghost var f := PutLE(e.syncEventId, 8);
    PatchTwice(was, at, a + b + d, f);
    PutField(buffer, at + 56, e.flags, 4);
    ghost var g := PutLE(e.flags, 4);
    PatchTwice(was, at, a + b + d + f, g);
    PutField(buffer, at + 60, e.reserved, 4);
    PatchTwice(was, at, a + b + d + f + g, PutLE(e.reserved, 4));
  }

  method PutFirst(buffer: array<byte>, at: nat, e: Entry)
    requires at + ENTRY_BYTES <= buffer.Length
    modifies buffer
    ensures buffer[..] == Patched(old(buffer[..]), at,
                                  PutLE(e.itemIndex, 8) + PutLE(e.payloadOffset, 8) + PutLE(e.payloadSize, 8) + PutLE(e.tick, 8))
  {
    hide PutLE, Patched;
    ghost var was := buffer[..];
    PutField(buffer, at, e.itemIndex, 8);
    ghost var a := PutLE(e.itemIndex, 8);
    PutField(buffer, at + 8, e.payloadOffset, 8);
    ghost var b := PutLE(e.payloadOffset, 8);
    PatchTwice(was, at, a, b);
    PutField(buffer, at + 16, e.payloadSize, 8);
    ghost var c := PutLE(e.payloadSize, 8);
    PatchTwice(was, at, a + b, c);
    PutField(buffer, at + 24, e.tick, 8);
    PatchTwice(was, at, a + b + c, PutLE(e.tick, 8));
  }

  method PutEntries(buffer: array<byte>, entries: seq<Entry>)
    requires buffer.Length == HEADER_BYTES + ENTRY_BYTES * |entries|
    modifies buffer
    ensures buffer[..] == old(buffer[..HEADER_BYTES]) + EntriesWire(entries)
  {
    hide EntryWire, Patched;
    var item := 0;
    ghost var was := buffer[..];
    while item < |entries|
      invariant 0 <= item <= |entries|
      invariant buffer[..] == Patched(was, HEADER_BYTES, EntriesWire(entries[..item]))
    {
      PutEntry(buffer, HEADER_BYTES + ENTRY_BYTES * item, entries[item]);
      PatchTwice(was, HEADER_BYTES, EntriesWire(entries[..item]), EntryWire(entries[item]));
      assert entries[..item + 1][..item] == entries[..item];
      item := item + 1;
    }
    assert entries[..|entries|] == entries;
  }

  /** EncodeSensorIndex. */
  method EncodeIndex(ix: Index, limits: Limits) returns (r: Option<seq<byte>>)
    ensures r == Encode(ix, limits)
  {
    hide PutLE, EntriesWire, Valid, Header;
    var ok := Validate(ix, limits);
    if !ok {
      return None;
    }
    var buffer := new byte[HEADER_BYTES + ENTRY_BYTES * |ix.entries|](_ => 0);
    PutHeader(buffer, |ix.entries|, ix.payloadBytes);
    PutEntries(buffer, ix.entries);
    return Some(buffer[..]);
  }

  method PutHeader(buffer: array<byte>, count: nat, payloadBytes: nat)
    requires buffer.Length >= HEADER_BYTES && forall i | 0 <= i < buffer.Length :: buffer[i] == 0
    modifies buffer
    ensures buffer[..HEADER_BYTES] == Header(count, payloadBytes)
  {
    hide PutLE, Patched;
    CopyInto(buffer, 0, MAGIC);
    PutField(buffer, 8, 1, 2);
    PutField(buffer, 10, HEADER_BYTES, 2);
    PutField(buffer, 12, ENTRY_BYTES, 2);
    assert buffer[..][14] == old(buffer[..])[14] && buffer[..][15] == old(buffer[..])[15];
    assert buffer[..16] == MAGIC + PutLE(1, 2) + PutLE(HEADER_BYTES, 2) + PutLE(ENTRY_BYTES, 2) + [0, 0];
    ZeroFlags();
    PutCounts(buffer, count, payloadBytes);
  }

  lemma ZeroFlags()
    ensures PutLE(0, 2) == [0, 0]
  {
    assert PutLE(0, 1) == [0];
  }

  method PutCounts(buffer: array<byte>, count: nat, payloadBytes: nat)
    requires buffer.Length >= HEADER_BYTES
    modifies buffer
    ensures buffer[..HEADER_BYTES] == old(buffer[..16]) + PutLE(count, 8) + PutLE(payloadBytes, 8)
  {
    hide PutLE, Patched;
    PutField(buffer, 16, count, 8);
    PutField(buffer, 24, payloadBytes, 8);
  }

  /** DecodeSensorIndex. */
  method DecodeIndex(s: seq<byte>, limits: Limits) returns (r: Option<Index>)
    ensures r == Decode(s, limits)
  {
    hide Valid, ReadEntry, GetLE;
    if !ValidLimits(limits) || |s| < HEADER_BYTES || !HeaderOk(s) {
      return None;
    }
    var count := GetField(s[16..24]);
    var payloadBytes := GetField(s[24..32]);
    if count > limits.maxItems || payloadBytes > limits.maxPayloadBytes || |s| != HEADER_BYTES + ENTRY_BYTES * count {
      return None;
    }
    var body := s[HEADER_BYTES..];
    var entries, item := [], 0;
    while item < count
      invariant 0 <= item <= count && entries == ReadEntries(body, item)
    {
      entries := entries + [ReadEntry(BlockAt(body, item))];
      item := item + 1;
    }
    var ok := Validate(Index(payloadBytes, entries), limits);
    return if ok then Some(Index(payloadBytes, entries)) else None;
  }
}
