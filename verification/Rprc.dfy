/** Firmware images and their memory write plan (internal/debugcapture/rprc.go, enhancedcom_protocol.go). */
module Rprc {
  import opened Bytes
  import opened Common
  import opened Intervals
  import opened Sensors

  const MAGIC: int := 0x4352_5052
  const HEADER_SIZE: nat := 24
  const SECTION_HEADER_SIZE: nat := 24
  const MAX_WRITE_SIZE: nat := 4096
  const SPACE: int := 0x1_0000_0000

  datatype Section = Section(address: nat, declaredSize: nat, data: seq<byte>)
  datatype Image = Image(entryPoints: (nat, nat), version: nat, sections: seq<Section>)
  datatype Target = Mss | Bss
  datatype Write = Write(section: nat, address: int, data: seq<byte>)

  // ---------------------------------------------------------------- parsing

  /** One section at the cursor and the cursor after it. */
  function SectionAt(data: seq<byte>, cursor: nat): Option<(Section, nat)> {
    var headerEnd := cursor + SECTION_HEADER_SIZE;
    if headerEnd > |data| then None
    else
      var address, declared := GetLE(data[cursor..cursor + 8]), GetLE(data[cursor + 8..cursor + 12]);
      if address % 4 != 0 || declared % 4 != 0 then None
      else
        var payloadEnd := headerEnd + declared + declared % 8;
        if payloadEnd > |data| then None else Some((Section(address, declared, data[headerEnd..payloadEnd]), payloadEnd))
  }

  function SectionsFrom(data: seq<byte>, cursor: nat, count: nat): Option<(seq<Section>, nat)>
    decreases count
  {
    if count == 0 then Some(([], cursor))
    else
      match SectionAt(data, cursor)
      case None => None
      case Some((section, next)) =>
        match SectionsFrom(data, next, count - 1)
        case None => None
        case Some((rest, end)) => Some(([section] + rest, end))
  }

  function Parse(data: seq<byte>): Option<Image> {
    if |data| < HEADER_SIZE || GetLE(data[0..4]) != MAGIC then None
    else
      var count := GetLE(data[12..16]);
      if count > (|data| - HEADER_SIZE) / SECTION_HEADER_SIZE then None
      else
        match SectionsFrom(data, HEADER_SIZE, count)
        case None => None
        case Some((sections, end)) =>
          if end != |data| then None
          else Some(Image((GetLE(data[4..8]), GetLE(data[8..12])), GetLE(data[16..20]), sections))
  }

  /** The sections, each behind its own header, fill the data from the cursor to the given end without gap or overlap. */
  predicate Tiles(data: seq<byte>, cursor: nat, sections: seq<Section>, end: nat)
    decreases |sections|
  {
    if sections == [] then cursor == end
    else
      TileAt(data, cursor, sections[0])
      && Tiles(data, cursor + SECTION_HEADER_SIZE + |sections[0].data|, sections[1..], end)
  }

  /** The section lies at the cursor: its header's address and size are its own, and its bytes, stored in eights, follow. */
  predicate TileAt(data: seq<byte>, cursor: nat, s: Section) {
    var start := cursor + SECTION_HEADER_SIZE;
    && start + |s.data| <= |data| && data[start..start + |s.data|] == s.data
    && GetLE(data[cursor..cursor + 8]) == s.address && GetLE(data[cursor + 8..cursor + 12]) == s.declaredSize
    && s.address % 4 == 0 && s.declaredSize % 4 == 0
    && |s.data| % 8 == 0 && s.declaredSize <= |s.data| < s.declaredSize + 8
  }

  lemma StoredSize(declared: nat)
    requires declared % 4 == 0
    ensures (declared + declared % 8) % 8 == 0 && declared <= declared + declared % 8 < declared + 8
  {
    var q := declared / 4;
    var k, r := q / 2, q % 2;
    assert declared == 4 * q == 8 * k + 4 * r;
    EightFold(k, 4 * r);
    assert declared % 8 == 4 * r;
    EightFold(k + r, 0);
    assert declared + declared % 8 == 8 * (k + r) + 0;
  }

  lemma EightFold(k: nat, r: nat)
    requires r < 8
    ensures (8 * k + r) % 8 == r
  {
  }

  lemma {:induction false} SectionsTile(data: seq<byte>, cursor: nat, count: nat)
    requires SectionsFrom(data, cursor, count).Some?
    ensures var (sections, end) := SectionsFrom(data, cursor, count).value;
            |sections| == count && Tiles(data, cursor, sections, end)
    decreases count
  {
    hide GetLE;
    if count > 0 {
      var (section, next) := SectionAt(data, cursor).value;
      SectionsTile(data, next, count - 1);
      StoredSize(section.declaredSize);
      var (rest, end) := SectionsFrom(data, next, count - 1).value;
      assert ([section] + rest)[1..] == rest;
    }
  }

  /** An accepted image tiles the file exactly, and holds as many sections as its header says. */
  lemma ImageTilesFile(data: seq<byte>)
    requires Parse(data).Some?
    ensures |data| >= HEADER_SIZE && Tiles(data, HEADER_SIZE, Parse(data).value.sections, |data|)
    ensures |Parse(data).value.sections| == GetLE(data[12..16])
  {
    hide GetLE, SectionsFrom, Tiles;
    SectionsTile(data, HEADER_SIZE, GetLE(data[12..16]));
  }

  lemma {:induction false} TilesSize(data: seq<byte>, cursor: nat, sections: seq<Section>, end: nat)
    requires Tiles(data, cursor, sections, end)
    ensures cursor + SECTION_HEADER_SIZE * |sections| <= end
    decreases |sections|
  {
    hide GetLE;
    if sections != [] {
      TilesSize(data, cursor + SECTION_HEADER_SIZE + |sections[0].data|, sections[1..], end);
    }
  }

  lemma OnlyStoredSize(declared: nat, stored: nat)
    requires declared % 4 == 0 && stored % 8 == 0 && declared <= stored < declared + 8
    ensures stored == declared + declared % 8
  {
    StoredSize(declared);
    var other := declared + declared % 8;
    assert stored == 8 * (stored / 8) && other == 8 * (other / 8);
  }

  lemma {:induction false} TilesParse(data: seq<byte>, cursor: nat, sections: seq<Section>, end: nat)
    requires Tiles(data, cursor, sections, end)
    ensures SectionsFrom(data, cursor, |sections|) == Some((sections, end))
    decreases |sections|
  {
    hide SectionAt, TileAt;
    if sections != [] {
      var s := sections[0];
      TileIsSection(data, cursor, s);
      TilesParse(data, cursor + SECTION_HEADER_SIZE + |s.data|, sections[1..], end);
      assert [s] + sections[1..] == sections;
    }
  }

  lemma TileIsSection(data: seq<byte>, cursor: nat, s: Section)
    requires TileAt(data, cursor, s)
    ensures SectionAt(data, cursor) == Some((s, cursor + SECTION_HEADER_SIZE + |s.data|))
  {
    hide GetLE;
    OnlyStoredSize(s.declaredSize, |s.data|);
  }

  /** Exactly the files are accepted that begin with the magic number and are tiled by as many sections as they announce. */
  lemma ParseIff(data: seq<byte>, image: Image)
    ensures Parse(data) == Some(image) <==>
            && |data| >= 24 && data[0..4] == [0x52, 0x50, 0x52, 0x43]
            && GetLE(data[4..8]) == image.entryPoints.0 && GetLE(data[8..12]) == image.entryPoints.1
            && GetLE(data[12..16]) == |image.sections| && GetLE(data[16..20]) == image.version
            && Tiles(data, 24, image.sections, |data|)
  {
    hide GetLE, SectionsFrom, Tiles;
    if |data| >= 24 {
      MagicBytes(data[0..4]);
      var count := GetLE(data[12..16]);
      if Parse(data).Some? {
        ImageTilesFile(data);
      }
      if Tiles(data, 24, image.sections, |data|) {
        TilesSize(data, 24, image.sections, |data|);
        TilesParse(data, 24, image.sections, |data|);
      }
    }
  }

  lemma MagicBytes(s: seq<byte>)
    requires |s| == 4
    ensures GetLE(s) == MAGIC <==> s == [0x52, 0x50, 0x52, 0x43]
  {
    var m: seq<byte> := [0x52, 0x50, 0x52, 0x43];
    FourBytes(s);
    FourBytes(m);
  }

  lemma FourBytes(s: seq<byte>)
    requires |s| == 4
    ensures GetLE(s) == s[0] as int + 256 * (s[1] as int + 256 * (s[2] as int + 256 * (s[3] as int)))
  {
    LEStep(s);
    LEStep(s[1..]);
    LEStep(s[2..]);
    LEStep(s[3..]);
    assert s[1..][1..] == s[2..] && s[2..][1..] == s[3..] && s[3..][1..] == [];
    assert GetLE([]) == 0;
    hide GetLE;
  }

  lemma LEStep(s: seq<byte>)
    requires s != []
    ensures GetLE(s) == s[0] as int + 256 * GetLE(s[1..])
  {
  }

  /** Sections of an accepted image are aligned and stored in multiples of eight bytes. */
  predicate Aligned(s: Section) { s.address % 4 == 0 && |s.data| % 8 == 0 }

  lemma {:induction false} TiledAligned(data: seq<byte>, cursor: nat, sections: seq<Section>, end: nat)
    requires Tiles(data, cursor, sections, end)
    ensures forall i | 0 <= i < |sections| :: Aligned(sections[i])
    decreases |sections|
  {
    hide GetLE;
    if sections != [] {
      TiledAligned(data, cursor + SECTION_HEADER_SIZE + |sections[0].data|, sections[1..], end);
    }
  }

  // ---------------------------------------------------------------- address map

  /** mapSectionAddress. */
  function MapAddress(address: nat, size: nat, target: Target): Option<int> {
    if address >= SPACE || size > SPACE - address then None
    else
      var end := address + size;
      match target
      case Mss =>
        if (address >= 0x0803_0000 && end <= 0x080B_0000) || (address < 0x0800_0000 && end <= 0x0018_0000) then
          InSpace(address, size)
        else None
      case Bss =>
        if address >= 0x0800_0000 && end <= 0x0801_0000 then InSpace(address + 0x3900_0000, size)
        else if end <= 0x0020_0000 then InSpace(address + 0x4000_0000, size)
        else None
  }

  function InSpace(mapped: int, size: nat): Option<int> {
    if mapped >= SPACE || size > SPACE - mapped then None else Some(mapped)
  }

  /** The mapped range is aligned like the original and inside the 32-bit space; the last check of the code never fails. */
  lemma MappedInSpace(address: nat, size: nat, target: Target)
    requires MapAddress(address, size, target).Some?
    ensures var m := MapAddress(address, size, target).value; 0 <= m < SPACE && m + size <= SPACE && m % 4 == address % 4
  {
  }

  /** The range lies in [low, high) and is placed at the same distance from image. */
  predicate Placed(address: nat, size: nat, low: int, high: int, image: int, mapped: int) {
    low <= address && address + size <= high && mapped == image + (address - low)
  }

  /** The two windows of each target, and where the target's memory has them. */
  lemma MapImage(address: nat, size: nat, mapped: int)
    ensures MapAddress(address, size, Mss) == Some(mapped) <==>
            || Placed(address, size, 0x0803_0000, 0x080B_0000, 0x0803_0000, mapped)
            || Placed(address, size, 0, 0x0018_0000, 0, mapped)
    ensures MapAddress(address, size, Bss) == Some(mapped) <==>
            || Placed(address, size, 0x0800_0000, 0x0801_0000, 0x4100_0000, mapped)
            || Placed(address, size, 0, 0x0020_0000, 0x4000_0000, mapped)
  {
  }

  predicate Apart(a: int, n: nat, b: int, m: nat) { n == 0 || m == 0 || a + n <= b || b + m <= a }

  /** Disjoint sections stay disjoint in target memory. */
  lemma MapKeepsApart(a: nat, n: nat, b: nat, m: nat, target: Target)
    requires Apart(a, n, b, m) && MapAddress(a, n, target).Some? && MapAddress(b, m, target).Some?
    ensures Apart(MapAddress(a, n, target).value, n, MapAddress(b, m, target).value, m)
  {
  }

  // ---------------------------------------------------------------- plan

  function Chunks(section: nat, address: int, data: seq<byte>): seq<Write>
    decreases |data|
  {
    if data == [] then []
    else if |data| <= MAX_WRITE_SIZE then [Write(section, address, data)]
    else
      [Write(section, address, data[..MAX_WRITE_SIZE])]
      + Chunks(section, address + MAX_WRITE_SIZE, data[MAX_WRITE_SIZE..])
  }

  function PlanFrom(sections: seq<Section>, index: nat, target: Target): Option<seq<Write>>
    decreases |sections| - index
  {
    if index >= |sections| then Some([])
    else
      match MapAddress(sections[index].address, |sections[index].data|, target)
      case None => None
      case Some(address) =>
        match PlanFrom(sections, index + 1, target)
        case None => None
        case Some(rest) => Some(Chunks(index, address, sections[index].data) + rest)
  }

  /** planMemoryWrites. */
  function Plan(image: Image, target: Target): Option<seq<Write>> {
    PlanFrom(image.sections, 0, target)
  }

  // ---------------------------------------------------------------- target memory

  type Memory = map<int, byte>

  function Store(memory: Memory, at: int, data: seq<byte>): Memory {
    var region := Span(at, at + |data|);
    map x | x in memory.Keys + region :: if x in region then data[x - at] else memory[x]
  }

  function Execute(memory: Memory, writes: seq<Write>): Memory
    decreases |writes|
  {
    if writes == [] then memory else Execute(Store(memory, writes[0].address, writes[0].data), writes[1..])
  }

  /** Every section written whole at its mapped address, in order. */
  function StoreSections(memory: Memory, sections: seq<Section>, index: nat, target: Target): Memory
    decreases |sections| - index
  {
    if index >= |sections| then memory
    else
      match MapAddress(sections[index].address, |sections[index].data|, target)
      case None => memory
      case Some(address) => StoreSections(Store(memory, address, sections[index].data), sections, index + 1, target)
  }

  lemma StoreSplit(memory: Memory, at: int, data: seq<byte>, k: nat)
    requires k <= |data|
    ensures Store(Store(memory, at, data[..k]), at + k, data[k..]) == Store(memory, at, data)
  {
    var split := Store(Store(memory, at, data[..k]), at + k, data[k..]);
    forall x | x in split
      ensures split[x] == Store(memory, at, data)[x]
    {
    }
  }

  lemma StoreNothing(memory: Memory, at: int)
    ensures Store(memory, at, []) == memory
  {
  }

  lemma {:induction false} ExecuteMore(memory: Memory, a: seq<Write>, b: seq<Write>)
    ensures Execute(memory, a + b) == Execute(Execute(memory, a), b)
    decreases |a|
  {
    hide Store;
    if a == [] {
      assert a + b == b;
    } else {
      assert (a + b)[1..] == a[1..] + b;
      ExecuteMore(Store(memory, a[0].address, a[0].data), a[1..], b);
    }
  }

  lemma {:induction false} ChunksStore(memory: Memory, section: nat, address: int, data: seq<byte>)
    ensures Execute(memory, Chunks(section, address, data)) == Store(memory, address, data)
    decreases |data|
  {
    hide Store;
    if data == [] {
      StoreNothing(memory, address);
    } else if |data| <= MAX_WRITE_SIZE {
      assert Execute(memory, [Write(section, address, data)]) == Execute(Store(memory, address, data), []);
    } else {
      var head, tail := data[..MAX_WRITE_SIZE], data[MAX_WRITE_SIZE..];
      ChunksStore(Store(memory, address, head), section, address + MAX_WRITE_SIZE, tail);
      StoreSplit(memory, address, data, MAX_WRITE_SIZE);
      assert Chunks(section, address, data)[1..] == Chunks(section, address + MAX_WRITE_SIZE, tail);
    }
  }

  lemma {:induction false} PlanStores(memory: Memory, sections: seq<Section>, index: nat, target: Target)
    requires PlanFrom(sections, index, target).Some?
    ensures Execute(memory, PlanFrom(sections, index, target).value) == StoreSections(memory, sections, index, target)
    decreases |sections| - index
  {
    hide Store, Chunks, MapAddress;
    if index < |sections| {
      var s := sections[index];
      var address := MapAddress(s.address, |s.data|, target).value;
      var rest := PlanFrom(sections, index + 1, target).value;
      ChunksStore(memory, index, address, s.data);
      ExecuteMore(memory, Chunks(index, address, s.data), rest);
      PlanStores(Store(memory, address, s.data), sections, index + 1, target);
    }
  }

  /** Executing the planned chunk writes in order leaves the same memory as writing each section whole. */
  lemma PlanRefines(memory: Memory, image: Image, target: Target)
    requires Plan(image, target).Some?
    ensures Execute(memory, Plan(image, target).value) == StoreSections(memory, image.sections, 0, target)
  {
    PlanStores(memory, image.sections, 0, target);
  }

  // ---------------------------------------------------------------- every chunk passes the block encoder's checks

  /** The conditions of encodeEnhancedCOMBlockWrite. */
  predicate BlockOk(w: Write) {
    && 0 < |w.data| <= 4096 && w.address % 4 == 0 && |w.data| % 4 == 0 && 0 <= w.address && w.address + |w.data| <= SPACE
  }

  lemma {:induction false} ChunksOk(section: nat, address: int, data: seq<byte>)
    requires address % 4 == 0 && 0 <= address && address + |data| <= SPACE && |data| % 8 == 0
    ensures forall i | 0 <= i < |Chunks(section, address, data)| :: BlockOk(Chunks(section, address, data)[i])
    decreases |data|
  {
    if |data| > MAX_WRITE_SIZE {
      var tail := data[MAX_WRITE_SIZE..];
      RestAligned(address, |data|);
      ChunksOk(section, address + MAX_WRITE_SIZE, tail);
      var head, rest := Write(section, address, data[..MAX_WRITE_SIZE]), Chunks(section, address + MAX_WRITE_SIZE, tail);
      assert BlockOk(head);
      assert Chunks(section, address, data) == [head] + rest;
    } else if data != [] {
      WordAligned(|data|);
      assert BlockOk(Write(section, address, data));
    }
  }

  lemma RestAligned(address: int, size: nat)
    requires address % 4 == 0 && size % 8 == 0 && size > MAX_WRITE_SIZE
    ensures (address + MAX_WRITE_SIZE) % 4 == 0 && (size - MAX_WRITE_SIZE) % 8 == 0
  {
  }

  lemma WordAligned(size: nat)
    requires size % 8 == 0
    ensures size % 4 == 0
  {
  }

  lemma {:induction false} PlanBlocksOk(sections: seq<Section>, index: nat, target: Target)
    requires PlanFrom(sections, index, target).Some? && forall i | 0 <= i < |sections| :: Aligned(sections[i])
    ensures forall i | 0 <= i < |PlanFrom(sections, index, target).value| :: BlockOk(PlanFrom(sections, index, target).value[i])
    decreases |sections| - index
  {
    hide Chunks, MapAddress, BlockOk;
    if index < |sections| {
      var s := sections[index];
      MappedInSpace(s.address, |s.data|, target);
      assert Aligned(s);
      ChunksOk(index, MapAddress(s.address, |s.data|, target).value, s.data);
      PlanBlocksOk(sections, index + 1, target);
    }
  }

  /** Preflight cannot fail on a block: every planned write of an accepted image is encodable. */
  lemma PreflightNeverRejectsBlock(data: seq<byte>, target: Target)
    requires Parse(data).Some? && Plan(Parse(data).value, target).Some?
    ensures forall i | 0 <= i < |Plan(Parse(data).value, target).value| :: BlockOk(Plan(Parse(data).value, target).value[i])
  {
    hide Parse, Tiles, PlanFrom, BlockOk;
    ImageTilesFile(data);
    TiledAligned(data, HEADER_SIZE, Parse(data).value.sections, |data|);
    PlanBlocksOk(Parse(data).value.sections, 0, target);
  }

  // ---------------------------------------------------------------- the loops

  /** parseRPRC's section loop with a moving cursor. */
  method ReadSections(data: seq<byte>, count: nat) returns (r: Option<(seq<Section>, nat)>)
    ensures r == SectionsFrom(data, HEADER_SIZE, count)
  {
    hide GetLE, SectionAt;
    var sections: seq<Section>, cursor, left := [], HEADER_SIZE, count;
    assert forall more: seq<Section> :: [] + more == more;
    while left > 0
      invariant 0 <= left <= count
      invariant SectionsFrom(data, HEADER_SIZE, count) ==
                match SectionsFrom(data, cursor, left)
                case None => None
                case Some((more, end)) => Some((sections + more, end))
    {
      var next := SectionAt(data, cursor);
      if next.None? {
        return None;
      }
      Regroup(data, cursor, left, sections);
      sections := sections + [next.value.0];
      cursor := next.value.1;
      left := left - 1;
    }
    assert sections + [] == sections;
    return Some((sections, cursor));
  }

  lemma Regroup(data: seq<byte>, cursor: nat, left: nat, sections: seq<Section>)
    requires left > 0 && SectionAt(data, cursor).Some?
    ensures var (section, next) := SectionAt(data, cursor).value;
            match SectionsFrom(data, cursor, left)
            case None => SectionsFrom(data, next, left - 1).None?
            case Some((more, end)) =>
              && SectionsFrom(data, next, left - 1).Some? && SectionsFrom(data, next, left - 1).value.1 == end
              && sections + more == sections + [section] + SectionsFrom(data, next, left - 1).value.0
  {
    hide SectionAt;
  }

  method ParseImage(data: seq<byte>) returns (r: Option<Image>)
    ensures r == Parse(data)
  {
    hide GetLE, SectionsFrom;
    if |data| < HEADER_SIZE || GetLE(data[0..4]) != MAGIC {
      return None;
    }
    var count := GetLE(data[12..16]);
    if count > (|data| - HEADER_SIZE) / SECTION_HEADER_SIZE {
      return None;
    }
    var sections := ReadSections(data, count);
    if sections.None? || sections.value.1 != |data| {
      return None;
    }
    return Some(Image((GetLE(data[4..8]), GetLE(data[8..12])), GetLE(data[16..20]), sections.value.0));
  }

  /** The chunk loop over one section. */
  method SplitSection(section: nat, address: int, data: seq<byte>) returns (writes: seq<Write>)
    ensures writes == Chunks(section, address, data)
  {
    writes := [];
    var offset := 0;
    assert data[0..] == data;
    while offset < |data|
      invariant 0 <= offset <= |data|
      invariant Chunks(section, address, data) == writes + Chunks(section, address + offset, data[offset..])
    {
      var end := if offset + MAX_WRITE_SIZE < |data| then offset + MAX_WRITE_SIZE else |data|;
      var rest := data[offset..];
      assert end == |data| ==> data[offset..end] == rest;
      assert end < |data| ==> rest[MAX_WRITE_SIZE..] == data[end..] && rest[..MAX_WRITE_SIZE] == data[offset..end];
      ghost var before := writes;
      writes := writes + [Write(section, address + offset, data[offset..end])];
      assert Chunks(section, address + offset, rest) ==
             [Write(section, address + offset, data[offset..end])] + Chunks(section, address + end, data[end..]);
      offset := end;
    }
    assert data[offset..] == [];
  }

  /** planMemoryWrites. */
  method PlanWrites(image: Image, target: Target) returns (r: Option<seq<Write>>)
    ensures r == Plan(image, target)
  {
    hide Chunks, MapAddress;
    var writes: seq<Write>, index := [], 0;
    assert forall more: seq<Write> :: [] + more == more;
    while index < |image.sections|
      invariant 0 <= index <= |image.sections|
      invariant Plan(image, target) ==
                match PlanFrom(image.sections, index, target) case None => None case Some(rest) => Some(writes + rest)
    {
      var s := image.sections[index];
      var address := MapAddress(s.address, |s.data|, target);
      if address.None? {
        return None;
      }
      var chunks := SplitSection(index, address.value, s.data);
      assert forall rest: seq<Write> :: writes + (chunks + rest) == writes + chunks + rest;
      writes := writes + chunks;
      index := index + 1;
    }
    assert writes + [] == writes;
    return Some(writes);
  }
}
