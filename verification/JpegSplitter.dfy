/**
  Splitting a byte stream into JPEG images without decoding them (readJPEGFrame of internal/fixedframeproducer/child.go):
  the reader, the grammar of section B.1.1 of ITU-T T.81 it follows, and the proof that the two define the same language.
 */
module JpegSplitter {
  import opened Bytes

  // ---------------------------------------------------------------- the reader
  // Reaching the size limit inside a marker or inside scan data is reported as truncation, as the code does; only a
  // segment that announces more bytes than the limit leaves is reported as too long.

  datatype Outcome = Image(end: nat) | EndOfStream | Truncated | TooLong | Invalid

  /** A marker code and the position after it, or why there is none. */
  datatype MarkerRead = Code(code: byte, next: nat) | NoCode(why: Outcome)

  /** Skips fill bytes and reads the code that follows them. */
  function SkipFill(input: seq<byte>, p: nat, max: nat): (r: MarkerRead)
    ensures r.Code? ==> p < r.next <= |input| && r.next <= max && r.code != 0xff
    ensures r.NoCode? ==> !r.why.Image?
    decreases |input| - p
  {
    if p >= max || p >= |input| then NoCode(Truncated)
    else if input[p] == 0xff then SkipFill(input, p + 1, max)
    else Code(input[p], p + 1)
  }

  predicate IsRestart(code: byte) { 0xd0 <= code <= 0xd7 }

  datatype Mode = AtMarker | InScan

  /** The two nested loops: expecting a marker, or inside entropy-coded data. */
  function Parse(input: seq<byte>, p: nat, max: nat, mode: Mode): (r: Outcome)
    ensures r.Image? ==> p < r.end <= |input| && r.end <= max
    decreases |input| - p, 1
  {
    if p >= max || p >= |input| then Truncated
    else if input[p] != 0xff then
      if mode.AtMarker? then Invalid else Parse(input, p + 1, max, InScan)
    else
      match SkipFill(input, p + 1, max)
      case NoCode(why) => why
      case Code(code, next) =>
        if mode.InScan? && (code == 0x00 || IsRestart(code)) then Parse(input, next, max, InScan)
        else AfterMarker(input, next, max, code)
  }

  /** The marker switch and, for a marker with parameters, its length-prefixed segment. */
  function AfterMarker(input: seq<byte>, p: nat, max: nat, code: byte): (r: Outcome)
    requires p <= |input| && p <= max
    ensures r.Image? ==> p <= r.end <= |input| && r.end <= max
    decreases |input| - p, 2
  {
    if code == 0xd9 then Image(p)
    else if code == 0xd8 || code == 0x00 then Invalid
    else if code == 0x01 || IsRestart(code) then Parse(input, p, max, AtMarker)
    else if p + 1 >= max || p + 1 >= |input| then Truncated
    else
      var high: int, low: int := input[p], input[p + 1];
      var length := 256 * high + low;
      if length < 2 then Invalid
      else if p + length > max then TooLong
      else if p + length > |input| then Truncated
      else Parse(input, p + length, max, if code == 0xda then InScan else AtMarker)
  }

  /** readJPEGFrame on the rest of the stream. */
  function ReadImage(input: seq<byte>, max: nat): (r: Outcome)
    ensures r.Image? ==> 4 <= r.end <= |input| && r.end <= max
  {
    if max < 4 then Invalid
    else if |input| == 0 then EndOfStream
    else if |input| == 1 then Truncated
    else if input[0] != 0xff || input[1] != 0xd8 then Invalid
    else
      MarkerTakesTwo(input, max);
      Parse(input, 2, max, AtMarker)
  }

  lemma MarkerTakesTwo(input: seq<byte>, max: nat)
    requires |input| >= 2
    ensures Parse(input, 2, max, AtMarker).Image? ==> Parse(input, 2, max, AtMarker).end >= 4
  {
  }

  // ---------------------------------------------------------------- the grammar

  /** Entropy-coded data: a plain byte, a stuffed FF 00, or a restart marker; markers may carry extra fill bytes. */
  datatype Entropy = Raw(b: byte) | Stuffed(fill: nat) | Restart(fill: nat, code: byte)

  datatype Part =
    | Standalone(fill: nat, code: byte)
    | Segment(fill: nat, code: byte, data: seq<byte>)
    | Scan(fill: nat, data: seq<byte>, entropy: seq<Entropy>)

  datatype Jpeg = Jpeg(parts: seq<Part>, endFill: nat)

  predicate EntropyOk(e: Entropy) {
    match e
    case Raw(b) => b != 0xff
    case Stuffed(_) => true
    case Restart(_, code) => IsRestart(code)
  }

  predicate PartOk(p: Part) {
    match p
    case Standalone(_, code) => code == 0x01 || IsRestart(code)
    case Segment(_, code, data) =>
      code !in {0x00, 0x01, 0xd8, 0xd9, 0xda, 0xff} && !IsRestart(code) && |data| + 2 < 0x1_0000
    case Scan(_, data, entropy) => |data| + 2 < 0x1_0000 && forall i | 0 <= i < |entropy| :: EntropyOk(entropy[i])
  }

  predicate JpegOk(j: Jpeg) {
    forall i | 0 <= i < |j.parts| :: PartOk(j.parts[i])
  }

  function Marker(fill: nat, code: byte): (s: seq<byte>)
    ensures |s| == fill + 2
  {
    seq(fill + 1, _ => 0xff) + [code]
  }

  function Length(data: seq<byte>): (s: seq<byte>)
    requires |data| + 2 < 0x1_0000
    ensures |s| == 2
  {
    [(|data| + 2) / 256, (|data| + 2) % 256]
  }

  function EntropyWire(es: seq<Entropy>): seq<byte> {
    if es == [] then []
    else
      (match es[0]
       case Raw(b) => [b]
       case Stuffed(fill) => Marker(fill, 0x00)
       case Restart(fill, code) => Marker(fill, code))
      + EntropyWire(es[1..])
  }

  function PartWire(p: Part): seq<byte>
    requires PartOk(p)
  {
    match p
    case Standalone(fill, code) => Marker(fill, code)
    case Segment(fill, code, data) => Marker(fill, code) + Length(data) + data
    case Scan(fill, data, entropy) => Marker(fill, 0xda) + Length(data) + data + EntropyWire(entropy)
  }

  /** The parts and the EOI marker. */
  function PartsWire(parts: seq<Part>, endFill: nat): seq<byte>
    requires forall i | 0 <= i < |parts| :: PartOk(parts[i])
  {
    if parts == [] then Marker(endFill, 0xd9) else PartWire(parts[0]) + PartsWire(parts[1..], endFill)
  }

  function Wire(j: Jpeg): seq<byte>
    requires JpegOk(j)
  {
    [0xff, 0xd8] + PartsWire(j.parts, j.endFill)
  }

  // ---------------------------------------------------------------- every image of the grammar is read exactly

  /** The input at position p goes on with the given bytes. */
  predicate Has(input: seq<byte>, p: nat, s: seq<byte>) {
    p + |s| <= |input| && input[p..p + |s|] == s
  }

  lemma HasSplit(input: seq<byte>, p: nat, a: seq<byte>, b: seq<byte>)
    requires Has(input, p, a + b)
    ensures Has(input, p, a) && Has(input, p + |a|, b)
  {
    var s := input[p..p + |a + b|];
    assert input[p..p + |a|] == s[..|a|] && input[p + |a|..p + |a| + |b|] == s[|a|..];
  }

  lemma {:induction false} SkipReads(input: seq<byte>, p: nat, max: nat, n: nat, code: byte)
    requires code != 0xff && p + n < |input| && p + n < max && input[p + n] == code
    requires forall k | p <= k < p + n :: input[k] == 0xff
    ensures SkipFill(input, p, max) == Code(code, p + n + 1)
    decreases n
  {
    if n > 0 {
      SkipReads(input, p + 1, max, n - 1, code);
    }
  }

  lemma MarkerReads(input: seq<byte>, p: nat, max: nat, fill: nat, code: byte)
    requires code != 0xff && Has(input, p, Marker(fill, code)) && p + fill + 2 <= max
    ensures input[p] == 0xff && SkipFill(input, p + 1, max) == Code(code, p + fill + 2)
  {
    var m := Marker(fill, code);
    assert forall k | 0 <= k < |m| :: input[p + k] == input[p..p + |m|][k] == m[k];
    forall k | p + 1 <= k < p + 1 + fill
      ensures input[k] == 0xff
    {
      assert input[p + (k - p)] == m[k - p];
    }
    assert input[p + (fill + 1)] == m[fill + 1];
    SkipReads(input, p + 1, max, fill, code);
  }

  /** One marker from either mode. */
  lemma MarkerStep(input: seq<byte>, p: nat, max: nat, mode: Mode, fill: nat, code: byte)
    requires code != 0xff && Has(input, p, Marker(fill, code)) && p + fill + 2 <= max
    ensures Parse(input, p, max, mode) ==
            if mode.InScan? && (code == 0x00 || IsRestart(code)) then Parse(input, p + fill + 2, max, InScan)
            else AfterMarker(input, p + fill + 2, max, code)
  {
    hide Marker, SkipFill, AfterMarker;
    MarkerReads(input, p, max, fill, code);
  }

  lemma RawStep(input: seq<byte>, p: nat, max: nat)
    requires p < |input| && p < max && input[p] != 0xff
    ensures Parse(input, p, max, InScan) == Parse(input, p + 1, max, InScan)
  {
    hide SkipFill, AfterMarker;
  }

  /** Entropy-coded data is skipped as a whole. */
  lemma {:induction false} EntropyRead(input: seq<byte>, p: nat, max: nat, es: seq<Entropy>)
    requires (forall i | 0 <= i < |es| :: EntropyOk(es[i])) && Has(input, p, EntropyWire(es)) && p + |EntropyWire(es)| <= max
    ensures Parse(input, p, max, InScan) == Parse(input, p + |EntropyWire(es)|, max, InScan)
    decreases |es|
  {
    hide Marker, Parse, EntropyWire;
    if es == [] {
      EmptyEntropy();
    } else {
      var e, rest := es[0], es[1..];
      var head := EntropyWire([e]);
      HeadOfEntropy(es);
      HasSplit(input, p, head, EntropyWire(rest));
      EntropyRead(input, p + |head|, max, rest);
      match e
      case Raw(b) =>
        assert input[p] == input[p..p + 1][0] == b;
        RawStep(input, p, max);
      case Stuffed(fill) =>
        MarkerStep(input, p, max, InScan, fill, 0x00);
      case Restart(fill, code) =>
        MarkerStep(input, p, max, InScan, fill, code);
    }
  }

  lemma HeadOfEntropy(es: seq<Entropy>)
    requires es != []
    ensures EntropyWire(es) == EntropyWire([es[0]]) + EntropyWire(es[1..])
    ensures EntropyWire([es[0]]) ==
            match es[0]
            case Raw(b) => [b]
            case Stuffed(fill) => Marker(fill, 0x00)
            case Restart(fill, code) => Marker(fill, code)
  {
    hide Marker;
    assert [es[0]][1..] == [] && EntropyWire([]) == [];
  }

  lemma LengthBytes(input: seq<byte>, p: nat, data: seq<byte>)
    requires |data| + 2 < 0x1_0000 && Has(input, p, Length(data) + data)
    ensures input[p] == (|data| + 2) / 256 && input[p + 1] == (|data| + 2) % 256 && p + 2 + |data| <= |input|
  {
    HasSplit(input, p, Length(data), data);
    assert input[p] == input[p..p + 2][0] && input[p + 1] == input[p..p + 2][1];
  }

  lemma SegmentRead(input: seq<byte>, p: nat, max: nat, code: byte, data: seq<byte>)
    requires code !in {0x00, 0x01, 0xd8, 0xd9, 0xff} && !IsRestart(code) && |data| + 2 < 0x1_0000
    requires Has(input, p, Length(data) + data) && p + 2 + |data| <= max
    ensures AfterMarker(input, p, max, code) == Parse(input, p + 2 + |data|, max, if code == 0xda then InScan else AtMarker)
  {
    hide Parse, Has, Length;
    LengthBytes(input, p, data);
  }

  lemma StandaloneRead(input: seq<byte>, p: nat, max: nat, code: byte)
    requires (code == 0x01 || IsRestart(code)) && p <= |input| && p <= max
    ensures AfterMarker(input, p, max, code) == Parse(input, p, max, AtMarker)
  {
    hide Parse;
  }

  /** A part is skipped from either mode, because it begins with a marker that is not stuffing. */
  lemma PartRead(input: seq<byte>, p: nat, max: nat, part: Part, mode: Mode) returns (after: Mode)
    requires PartOk(part) && Has(input, p, PartWire(part)) && p + |PartWire(part)| <= max
    ensures Parse(input, p, max, mode) == Parse(input, p + |PartWire(part)|, max, after)
  {
    hide Marker, EntropyWire, Parse, AfterMarker, Has, Length;
    match part
    case Standalone(fill, code) =>
      MarkerStep(input, p, max, mode, fill, code);
      HasFits(input, p, Marker(fill, code));
      StandaloneRead(input, p + fill + 2, max, code);
      after := if mode.InScan? && IsRestart(code) then InScan else AtMarker;
    case Segment(fill, code, data) =>
      assert PartWire(part) + [] == PartWire(part);
      LongRead(input, p, max, mode, fill, code, data, []);
      after := AtMarker;
    case Scan(fill, data, entropy) =>
      LongRead(input, p, max, mode, fill, 0xda, data, EntropyWire(entropy));
      EntropyRead(input, p + fill + 2 + 2 + |data|, max, entropy);
      after := InScan;
  }

  lemma HasFits(input: seq<byte>, p: nat, s: seq<byte>)
    requires Has(input, p, s)
    ensures p + |s| <= |input|
  {
  }

  /** A marker with its segment, followed by anything. */
  lemma LongRead(input: seq<byte>, p: nat, max: nat, mode: Mode, fill: nat, code: byte, data: seq<byte>, rest: seq<byte>)
    requires code !in {0x00, 0x01, 0xd8, 0xd9, 0xff} && !IsRestart(code) && |data| + 2 < 0x1_0000
    requires Has(input, p, Marker(fill, code) + Length(data) + data + rest) && p + fill + 4 + |data| <= max
    ensures Parse(input, p, max, mode) == Parse(input, p + fill + 4 + |data|, max, if code == 0xda then InScan else AtMarker)
    ensures Has(input, p + fill + 4 + |data|, rest)
  {
    hide Parse, AfterMarker, Has, Marker;
    var m, d := Marker(fill, code), Length(data) + data;
    assert m + Length(data) + data + rest == m + (d + rest);
    HasSplit(input, p, m, d + rest);
    HasSplit(input, p + fill + 2, d, rest);
    MarkerStep(input, p, max, mode, fill, code);
    SegmentRead(input, p + fill + 2, max, code, data);
  }

  lemma {:induction false} PartsRead(input: seq<byte>, p: nat, max: nat, parts: seq<Part>, endFill: nat, mode: Mode)
    requires (forall i | 0 <= i < |parts| :: PartOk(parts[i]))
    requires Has(input, p, PartsWire(parts, endFill)) && p + |PartsWire(parts, endFill)| <= max
    ensures Parse(input, p, max, mode) == Image(p + |PartsWire(parts, endFill)|)
    decreases |parts|
  {
    hide Marker, PartWire, Parse, Has;
    if parts == [] {
      MarkerStep(input, p, max, mode, endFill, 0xd9);
    } else {
      HasSplit(input, p, PartWire(parts[0]), PartsWire(parts[1..], endFill));
      var after := PartRead(input, p, max, parts[0], mode);
      PartsRead(input, p + |PartWire(parts[0])|, max, parts[1..], endFill, after);
    }
  }

  /** Any well-formed image within the size limit is read exactly, whatever follows it. */
  lemma ReadsWellFormed(j: Jpeg, rest: seq<byte>, max: nat)
    requires JpegOk(j) && |Wire(j)| <= max
    ensures ReadImage(Wire(j) + rest, max) == Image(|Wire(j)|)
  {
    hide PartsWire, Parse;
    var input := Wire(j) + rest;
    var body := PartsWire(j.parts, j.endFill);
    BodyIsLong(j);
    assert input[2..2 + |body|] == body;
    PartsRead(input, 2, max, j.parts, j.endFill, AtMarker);
  }

  lemma BodyIsLong(j: Jpeg)
    requires JpegOk(j)
    ensures |PartsWire(j.parts, j.endFill)| >= 2
  {
    hide EntropyWire;
  }

  // ---------------------------------------------------------------- nothing else is read

  lemma {:induction false} SkipMeans(input: seq<byte>, p: nat, max: nat)
    requires SkipFill(input, p, max).Code?
    ensures var Code(code, next) := SkipFill(input, p, max);
            next - p >= 1 && input[next - 1] == code && forall k | p <= k < next - 1 :: input[k] == 0xff
    decreases |input| - p
  {
    if input[p] == 0xff {
      SkipMeans(input, p + 1, max);
    }
  }

  lemma MarkerMeans(input: seq<byte>, p: nat, max: nat) returns (fill: nat)
    requires p < |input| && input[p] == 0xff && SkipFill(input, p + 1, max).Code?
    ensures var Code(code, next) := SkipFill(input, p + 1, max); next == p + fill + 2 && input[p..next] == Marker(fill, code)
  {
    SkipMeans(input, p + 1, max);
    fill := SkipFill(input, p + 1, max).next - p - 2;
  }

  /** What the reader accepted from a position on: entropy-coded data if it was inside a scan, then parts, then EOI. */
  lemma {:induction false} ParseMeans(input: seq<byte>, p: nat, max: nat, mode: Mode)
    returns (es: seq<Entropy>, parts: seq<Part>, endFill: nat)
    requires Parse(input, p, max, mode).Image?
    ensures (forall i | 0 <= i < |es| :: EntropyOk(es[i])) && (forall i | 0 <= i < |parts| :: PartOk(parts[i]))
    ensures mode.AtMarker? ==> es == []
    ensures input[p..Parse(input, p, max, mode).end] == EntropyWire(es) + PartsWire(parts, endFill)
    decreases |input| - p, 1
  {
    hide Marker, PartWire, AfterMarker, SkipFill, EntropyWire, PartsWire;
    var end := Parse(input, p, max, mode).end;
    if input[p] != 0xff {
      es, parts, endFill := ParseMeans(input, p + 1, max, InScan);
      assert input[p..end] == [input[p]] + input[p + 1..end];
      es := Prepend(Raw(input[p]), [input[p]], es, PartsWire(parts, endFill));
    } else {
      var fill := MarkerMeans(input, p, max);
      var Code(code, next) := SkipFill(input, p + 1, max);
      if mode.InScan? && (code == 0x00 || IsRestart(code)) {
        assert input[p..end] == input[p..next] + input[next..end];
        es, parts, endFill := ParseMeans(input, next, max, InScan);
        var e := if code == 0x00 then Stuffed(fill) else Restart(fill, code);
        es := Prepend(e, Marker(fill, code), es, PartsWire(parts, endFill));
      } else {
        es := [];
        parts, endFill := AfterMarkerMeans(input, p, next, max, fill, code);
        EmptyEntropy();
      }
    }
  }

  lemma Prepend(e: Entropy, head: seq<byte>, es: seq<Entropy>, rest: seq<byte>) returns (all: seq<Entropy>)
    requires EntropyOk(e) && forall i | 0 <= i < |es| :: EntropyOk(es[i])
    requires head == match e case Raw(b) => [b] case Stuffed(fill) => Marker(fill, 0x00) case Restart(fill, code) => Marker(fill, code)
    ensures (forall i | 0 <= i < |all| :: EntropyOk(all[i])) && EntropyWire(all) + rest == head + (EntropyWire(es) + rest)
  {
    hide Marker, EntropyWire;
    PrependEntropy(e, es);
    all := [e] + es;
  }

  lemma PrependEntropy(e: Entropy, es: seq<Entropy>)
    ensures EntropyWire([e] + es) ==
            (match e case Raw(b) => [b] case Stuffed(fill) => Marker(fill, 0x00) case Restart(fill, code) => Marker(fill, code))
            + EntropyWire(es)
  {
    hide Marker;
    assert ([e] + es)[1..] == es;
  }

  lemma PrependPart(part: Part, parts: seq<Part>, endFill: nat)
    requires PartOk(part) && forall i | 0 <= i < |parts| :: PartOk(parts[i])
    ensures forall i | 0 <= i < |[part] + parts| :: PartOk(([part] + parts)[i])
    ensures PartsWire([part] + parts, endFill) == PartWire(part) + PartsWire(parts, endFill)
  {
    hide PartWire;
    assert ([part] + parts)[1..] == parts;
  }

  lemma {:induction false} AfterMarkerMeans(input: seq<byte>, start: nat, p: nat, max: nat, fill: nat, code: byte)
    returns (parts: seq<Part>, endFill: nat)
    requires start <= p <= |input| && p <= max && input[start..p] == Marker(fill, code) && code != 0xff
    requires AfterMarker(input, p, max, code).Image?
    ensures forall i | 0 <= i < |parts| :: PartOk(parts[i])
    ensures input[start..AfterMarker(input, p, max, code).end] == PartsWire(parts, endFill)
    decreases |input| - p, 2
  {
    hide Marker, PartWire, Parse, PartsWire, EntropyWire, Length;
    var end := AfterMarker(input, p, max, code).end;
    if code == 0xd9 {
      parts, endFill := [], fill;
      EndOnly(fill);
    } else if code == 0x01 || IsRestart(code) {
      var es;
      es, parts, endFill := ParseMeans(input, p, max, AtMarker);
      assert input[start..end] == input[start..p] + input[p..end];
      EmptyEntropy();
      StandalonePart(fill, code);
      PrependPart(Standalone(fill, code), parts, endFill);
      parts := [Standalone(fill, code)] + parts;
    } else {
      SegmentMeans(input, p, max, code);
      var data := SegmentData(input, p);
      var q := p + 2 + |data|;
      var es;
      es, parts, endFill := ParseMeans(input, q, max, if code == 0xda then InScan else AtMarker);
      assert input[start..end] == input[start..p] + input[p..q] + input[q..end];
      parts := PrependLong(fill, code, data, es, parts, endFill);
    }
  }

  /** A marker with its segment, and the scan data behind it, in front of the parts read so far. */
  lemma PrependLong(fill: nat, code: byte, data: seq<byte>, es: seq<Entropy>, parts: seq<Part>, endFill: nat)
    returns (all: seq<Part>)
    requires code !in {0x00, 0x01, 0xd8, 0xd9, 0xff} && !IsRestart(code) && |data| + 2 < 0x1_0000
    requires (forall i | 0 <= i < |es| :: EntropyOk(es[i])) && (forall i | 0 <= i < |parts| :: PartOk(parts[i]))
    requires code != 0xda ==> es == []
    ensures forall i | 0 <= i < |all| :: PartOk(all[i])
    ensures PartsWire(all, endFill) ==
            Marker(fill, code) + (Length(data) + data) + (EntropyWire(es) + PartsWire(parts, endFill))
  {
    hide Marker, PartWire, PartsWire, EntropyWire, Length;
    EmptyEntropy();
    LongPart(fill, code, data, es);
    var part := if code == 0xda then Scan(fill, data, es) else Segment(fill, code, data);
    PrependPart(part, parts, endFill);
    all := [part] + parts;
    Regrouped(Marker(fill, code) + (Length(data) + data), EntropyWire(es), PartsWire(parts, endFill));
  }

  lemma EndOnly(fill: nat)
    ensures PartsWire([], fill) == Marker(fill, 0xd9)
  {
  }

  /** The parameters of the segment at p. */
  function SegmentData(input: seq<byte>, p: nat): seq<byte>
    requires p + 1 < |input| && 2 <= 256 * input[p] as int + input[p + 1] as int <= |input| - p
  {
    input[p + 2..p + 256 * input[p] as int + input[p + 1] as int]
  }

  lemma SegmentMeans(input: seq<byte>, p: nat, max: nat, code: byte)
    requires p <= |input| && p <= max && code !in {0x01, 0xd9} && !IsRestart(code) && AfterMarker(input, p, max, code).Image?
    ensures code != 0x00 && code != 0xd8 && p + 1 < |input| && 2 <= 256 * input[p] as int + input[p + 1] as int <= |input| - p
    ensures var data := SegmentData(input, p); var q := p + 2 + |data|;
            && |data| + 2 < 0x1_0000 && q <= |input| && input[p..q] == Length(data) + data
            && AfterMarker(input, p, max, code) == Parse(input, q, max, if code == 0xda then InScan else AtMarker)
  {
    hide Parse;
    var high: int, low: int := input[p], input[p + 1];
    var length := 256 * high + low;
    assert length / 256 == high && length % 256 == low;
  }

  lemma StandalonePart(fill: nat, code: byte)
    requires code == 0x01 || IsRestart(code)
    ensures PartOk(Standalone(fill, code)) && PartWire(Standalone(fill, code)) == Marker(fill, code)
  {
  }

  lemma LongPart(fill: nat, code: byte, data: seq<byte>, es: seq<Entropy>)
    requires code !in {0x00, 0x01, 0xd8, 0xd9, 0xff} && !IsRestart(code) && |data| + 2 < 0x1_0000
    requires forall i | 0 <= i < |es| :: EntropyOk(es[i])
    ensures code != 0xda ==> PartOk(Segment(fill, code, data))
                             && PartWire(Segment(fill, code, data)) == Marker(fill, code) + (Length(data) + data)
    ensures code == 0xda ==> PartOk(Scan(fill, data, es))
                             && PartWire(Scan(fill, data, es)) == Marker(fill, code) + (Length(data) + data) + EntropyWire(es)
  {
    hide Marker, EntropyWire, Length;
    Regrouped(Marker(fill, code), Length(data), data);
  }

  lemma Regrouped(a: seq<byte>, b: seq<byte>, c: seq<byte>)
    ensures a + b + c == a + (b + c)
  {
  }

  /** Everything the reader accepts is a well-formed image: the consumed prefix and nothing more. */
  lemma AcceptsOnlyWellFormed(input: seq<byte>, max: nat) returns (j: Jpeg)
    requires ReadImage(input, max).Image?
    ensures JpegOk(j) && Wire(j) == input[..ReadImage(input, max).end]
  {
    hide Parse, PartsWire, EntropyWire;
    var es, parts, endFill := ParseMeans(input, 2, max, AtMarker);
    j := Jpeg(parts, endFill);
    var end := ReadImage(input, max).end;
    EmptyEntropy();
    assert input[..end] == input[..2] + input[2..end];
    assert EntropyWire([]) + PartsWire(parts, endFill) == PartsWire(parts, endFill);
  }

  lemma EmptyEntropy()
    ensures EntropyWire([]) == []
  {
  }

  // ---------------------------------------------------------------- consequences

  /** The accepted language is prefix-free. */
  lemma PrefixFree(a: seq<byte>, b: seq<byte>, max: nat)
    requires ReadImage(a, max) == Image(|a|) && ReadImage(b, max) == Image(|b|) && a <= b
    ensures a == b
  {
    hide Parse;
    var j := AcceptsOnlyWellFormed(a, max);
    assert a[..|a|] == a;
    assert b == a + b[|a|..];
    ReadsWellFormed(j, b[|a|..], max);
  }

  function Joined(images: seq<Jpeg>): seq<byte>
    requires forall i | 0 <= i < |images| :: JpegOk(images[i])
  {
    if images == [] then [] else Wire(images[0]) + Joined(images[1..])
  }

  function Frames(images: seq<Jpeg>): seq<seq<byte>>
    requires forall i | 0 <= i < |images| :: JpegOk(images[i])
  {
    if images == [] then [] else [Wire(images[0])] + Frames(images[1..])
  }

  /** Reads images until the stream ends or something is wrong. */
  function SplitAll(input: seq<byte>, max: nat): (r: (seq<seq<byte>>, Outcome))
    decreases |input|
  {
    match ReadImage(input, max)
    case Image(end) =>
      var (frames, last) := SplitAll(input[end..], max);
      ([input[..end]] + frames, last)
    case other => ([], other)
  }

  /** A concatenation of well-formed images within the limit is split back into exactly those images. */
  lemma {:induction false} SplitsConcatenation(images: seq<Jpeg>, max: nat)
    requires max >= 4 && forall i | 0 <= i < |images| :: JpegOk(images[i]) && |Wire(images[i])| <= max
    ensures SplitAll(Joined(images), max) == (Frames(images), EndOfStream)
    decreases |images|
  {
    hide Parse, Wire;
    if images != [] {
      var rest := images[1..];
      ReadsWellFormed(images[0], Joined(rest), max);
      SplitsConcatenation(rest, max);
      var whole := Joined(images);
      assert whole[..|Wire(images[0])|] == Wire(images[0]) && whole[|Wire(images[0])|..] == Joined(rest);
    }
  }

  // ---------------------------------------------------------------- the reader as code

  /** Reads marker bytes into the frame until one is not a fill byte. */
  method ReadCode(input: seq<byte>, before: seq<byte>, max: nat) returns (frame: seq<byte>, code: byte, ok: bool)
    requires before <= input && |before| <= max
    ensures before <= frame <= input && |frame| <= max
    ensures SkipFill(input, |before|, max) == if ok then Code(code, |frame|) else NoCode(Truncated)
  {
    frame, code, ok := before, 0xff, true;
    while code == 0xff
      invariant before <= frame <= input && |frame| <= max && (code == 0xff || |frame| > |before|)
      invariant SkipFill(input, |before|, max) ==
                if code == 0xff then SkipFill(input, |frame|, max) else Code(code, |frame|)
      decreases if code == 0xff then |input| - |frame| + 1 else 0
    {
      if |frame| >= max || |frame| >= |input| {
        return frame, 0xff, false;
      }
      code := input[|frame|];
      frame := frame + [input[|frame|]];
    }
  }

  /** Entropy-coded data up to the next marker that is neither stuffing nor a restart. */
  method ReadScan(input: seq<byte>, before: seq<byte>, max: nat) returns (frame: seq<byte>, marker: byte, ok: bool)
    requires before <= input && |before| <= max
    ensures before <= frame <= input && |frame| <= max
    ensures ok ==> |frame| > |before| && marker != 0x00 && marker != 0xff && !IsRestart(marker)
    ensures Parse(input, |before|, max, InScan) == if ok then AfterMarker(input, |frame|, max, marker) else Truncated
  {
    hide AfterMarker;
    frame, marker, ok := before, 0x00, true;
    while true
      invariant before <= frame <= input && |frame| <= max
      invariant Parse(input, |before|, max, InScan) == Parse(input, |frame|, max, InScan)
      decreases |input| - |frame|
    {
      if |frame| >= max || |frame| >= |input| {
        return frame, 0x00, false;
      }
      var value := input[|frame|];
      frame := frame + [value];
      if value != 0xff {
        continue;
      }
      frame, marker, ok := ReadCode(input, frame, max);
      if !ok {
        return;
      }
      if marker == 0x00 || IsRestart(marker) {
        continue;
      }
      return;
    }
  }

  /** The two length bytes and the segment they announce. */
  method ReadSegment(input: seq<byte>, before: seq<byte>, max: nat, marker: byte) returns (frame: seq<byte>, failure: Outcome)
    requires before <= input && |before| <= max && marker !in {0x00, 0x01, 0xd8, 0xd9, 0xff} && !IsRestart(marker)
    ensures before <= frame <= input && |frame| <= max && (failure.EndOfStream? ==> |frame| > |before|) && !failure.Image?
    ensures AfterMarker(input, |before|, max, marker) ==
            if failure.EndOfStream? then Parse(input, |frame|, max, if marker == 0xda then InScan else AtMarker) else failure
  {
    hide Parse;
    frame := before;
    if |frame| + 1 >= max || |frame| + 1 >= |input| {
      return frame, Truncated;
    }
    var high: int, low: int := input[|frame|], input[|frame| + 1];
    var length := 256 * high + low;
    if length < 2 {
      return frame, Invalid;
    }
    if |frame| + length > max {
      return frame, TooLong;
    }
    if |frame| + length > |input| {
      return frame, Truncated;
    }
    return input[..|frame| + length], EndOfStream;
  }

  /** readJPEGFrame: on success the frame is exactly the consumed prefix of the stream. */
  method ReadFrame(input: seq<byte>, max: nat) returns (frame: seq<byte>, outcome: Outcome)
    ensures outcome == ReadImage(input, max)
    ensures outcome.Image? ==> frame == input[..outcome.end]
  {
    hide Parse, AfterMarker;
    if max < 4 {
      return [], Invalid;
    }
    if |input| < 2 {
      return input, if |input| == 0 then EndOfStream else Truncated;
    }
    frame := input[..2];
    if input[0] != 0xff || input[1] != 0xd8 {
      return frame, Invalid;
    }
    outcome := EndOfStream;
    var pending: byte := 0;
    while true
      invariant 2 <= |frame| <= max && frame <= input && pending != 0xff
      invariant ReadImage(input, max) ==
                if pending == 0 then Parse(input, |frame|, max, AtMarker) else AfterMarker(input, |frame|, max, pending)
      decreases |input| - |frame|, if pending == 0 then 0 else 1
    {
      var marker := pending;
      pending := 0;
      ghost var at := |frame|;
      if marker == 0 {
        if |frame| >= max || |frame| >= |input| {
          EndsAtMarker(input, |frame|, max);
          return frame, Truncated;
        }
        if input[|frame|] != 0xff {
          NoPrefix(input, |frame|, max);
          return frame, Invalid;
        }
        ghost var start := |frame|;
        frame := frame + [input[|frame|]];
        var ok;
        frame, marker, ok := ReadCode(input, frame, max);
        MarkerAt(input, start, max);
        if !ok {
          return frame, Truncated;
        }
        if marker == 0 {
          ZeroMarker(input, |frame|, max);
          return frame, Invalid;
        }
      }
      MarkerKinds(input, |frame|, max, marker);
      if marker == 0xd9 {
        assert frame == input[..|frame|];
        return frame, Image(|frame|);
      }
      if marker == 0xd8 {
        return frame, Invalid;
      }
      if marker == 0x01 || IsRestart(marker) {
        continue;
      }
      var failure;
      frame, failure := ReadSegment(input, frame, max, marker);
      if !failure.EndOfStream? {
        return frame, failure;
      }
      if marker == 0xda {
        var ok;
        frame, pending, ok := ReadScan(input, frame, max);
        if !ok {
          return frame, Truncated;
        }
      }
    }
  }

  lemma EndsAtMarker(input: seq<byte>, p: nat, max: nat)
    requires p >= max || p >= |input|
    ensures Parse(input, p, max, AtMarker) == Truncated
  {
  }

  lemma NoPrefix(input: seq<byte>, p: nat, max: nat)
    requires p < max && p < |input| && input[p] != 0xff
    ensures Parse(input, p, max, AtMarker) == Invalid
  {
  }

  lemma MarkerAt(input: seq<byte>, p: nat, max: nat)
    requires p < max && p < |input| && input[p] == 0xff
    ensures Parse(input, p, max, AtMarker) ==
            match SkipFill(input, p + 1, max) case NoCode(why) => why case Code(code, next) => AfterMarker(input, next, max, code)
  {
  }

  lemma ZeroMarker(input: seq<byte>, p: nat, max: nat)
    requires p <= |input| && p <= max
    ensures AfterMarker(input, p, max, 0) == Invalid
  {
  }

  lemma MarkerKinds(input: seq<byte>, p: nat, max: nat, marker: byte)
    requires p <= |input| && p <= max
    ensures marker == 0xd9 ==> AfterMarker(input, p, max, marker) == Image(p)
    ensures marker == 0xd8 ==> AfterMarker(input, p, max, marker) == Invalid
    ensures marker == 0x01 || IsRestart(marker) ==> AfterMarker(input, p, max, marker) == Parse(input, p, max, AtMarker)
  {
  }
}
