/**
  The DCA1000 receive loop (internal/dca/receiver.go) and the checks the session makes of its statistics
  (internal/session/session.go). Times are integers in nanoseconds; an unset time is None.
 */
module Receiver {
  import opened Bytes
  import opened Common
  import opened Intervals
  import opened Sensors

  const MAX_TRACKED_RANGES: nat := 4096
  const MAX_PAYLOAD: nat := 1456

  datatype Config = Config(maxOutputBytes: int, expectedBytes: int, frameBytes: int, framePeriod: int)

  /** The size and cadence checks of NewReceiver. */
  function NewReceiver(raw: Config): Option<Config> {
    if || raw.maxOutputBytes <= 0 || raw.maxOutputBytes > MAX_INT64 || raw.expectedBytes < 0
       || raw.expectedBytes > raw.maxOutputBytes || (raw.frameBytes == 0) != (raw.framePeriod == 0)
       || raw.frameBytes < 0 || raw.framePeriod < 0 || raw.framePeriod > MAX_INT64 then None
    else if && raw.frameBytes > 0
            && (raw.expectedBytes <= 0 || (raw.expectedBytes - 1) / raw.frameBytes > MAX_INT64 / raw.framePeriod) then None
    else Some(if raw.expectedBytes > 0 then raw.(maxOutputBytes := raw.expectedBytes) else raw)
  }

  predicate ConfigOk(c: Config) {
    && 0 < c.maxOutputBytes <= MAX_INT64 && 0 <= c.expectedBytes && 0 <= c.frameBytes && 0 <= c.framePeriod <= MAX_INT64
    && (c.frameBytes > 0 ==>
          && c.expectedBytes == c.maxOutputBytes && c.framePeriod > 0
          && (c.expectedBytes - 1) / c.frameBytes <= MAX_INT64 / c.framePeriod)
  }

  lemma AcceptedConfig(raw: Config)
    ensures NewReceiver(raw).Some? ==> ConfigOk(NewReceiver(raw).value)
  {
  }

  /** What ParseDataPacket yields: a 32-bit sequence number, a 48-bit byte offset and 1..1456 payload bytes. */
  datatype Packet = Packet(sequence: nat, byteOffset: nat, payload: seq<byte>)

  predicate PacketOk(p: Packet) {
    p.sequence < 0x1_0000_0000 && p.byteOffset < 0x1_0000_0000_0000 && 0 < |p.payload| <= MAX_PAYLOAD
  }

  function ParsePacket(datagram: seq<byte>): (r: Option<Packet>)
    ensures r.Some? <==> 10 < |datagram| <= 10 + MAX_PAYLOAD
    ensures r.Some? ==> PacketOk(r.value)
  {
    if |datagram| <= 10 || |datagram| - 10 > MAX_PAYLOAD then None
    else
      PutGet(datagram[0..4]);
      PutGet(datagram[4..10]);
      PowConstants();
      assert Pow256(6) == 256 * 256 * Pow256(4);
      Some(Packet(GetLE(datagram[0..4]), GetLE(datagram[4..10]), datagram[10..]))
  }

  /** Every sequence number, offset and payload a packet can carry is read back from the ten header bytes and what follows. */
  lemma ParseReads(sequence: nat, byteOffset: nat, payload: seq<byte>)
    requires PacketOk(Packet(sequence, byteOffset, payload))
    ensures ParsePacket(PutLE(sequence, 4) + PutLE(byteOffset, 6) + payload) == Some(Packet(sequence, byteOffset, payload))
  {
    hide PutLE, GetLE;
    var datagram := PutLE(sequence, 4) + PutLE(byteOffset, 6) + payload;
    PowConstants();
    assert Pow256(6) == 256 * 256 * Pow256(4) by { hide PutLE; }
    GetPut(sequence, 4);
    GetPut(byteOffset, 6);
    assert datagram[0..4] == PutLE(sequence, 4) && datagram[4..10] == PutLE(byteOffset, 6) && datagram[10..] == payload;
  }

  datatype Stats = Stats(
    packets: nat, payloadBytes: nat, outputBytes: int, sequenceGaps: nat, outOfOrder: nat, missing: nat, discarded: nat,
    ignored: nat, malformed: nat, overlapping: nat, firstAt: Option<int>, lastAt: Option<int>,
    earliest: Option<int>, anchorAt: int, anchorEnd: int, anchorFrame: int)

  const NoStats: Stats := Stats(0, 0, 0, 0, 0, 0, 0, 0, 0, 0, None, None, None, 0, 0, 0)

  /** The loop variables, and the history: what is in the output, and end and time of every accepted packet. */
  datatype Loop = Loop(
    stats: Stats, ranges: seq<Range>, base: Option<nat>, highest: int, lastSequence: Option<nat>,
    output: map<int, byte>, accepted: seq<(int, int)>)

  const Start: Loop := Loop(NoStats, [], None, 0, None, map[], [])

  datatype Outcome = GoesOn | Finalised | PlainError

  datatype Event = ForeignPacket | MalformedPacket | DataPacket(packet: Packet, at: int, writeOk: bool)

  datatype Result = Result(loop: Loop, outcome: Outcome)

  /** The frame that the last byte before end belongs to. */
  function FrameOf(c: Config, end: int): int
    requires c.frameBytes > 0
  {
    (end - 1) / c.frameBytes
  }

  function ImpliedStart(c: Config, end: int, at: int): int
    requires c.frameBytes > 0
  {
    at - FrameOf(c, end) * c.framePeriod
  }

  function WithSequence(s: Loop, sequence: nat): Loop {
    match s.lastSequence
    case None => s.(lastSequence := Some(sequence))
    case Some(last) =>
      var delta := (sequence - (last + 1) % 0x1_0000_0000) % 0x1_0000_0000;
      if delta == 0 then s.(lastSequence := Some(sequence))
      else if delta < 0x8000_0000 then
        s.(lastSequence := Some(sequence), stats := s.stats.(sequenceGaps := s.stats.sequenceGaps + delta))
      else s.(stats := s.stats.(outOfOrder := s.stats.outOfOrder + 1))
  }

  function WithCadence(c: Config, st: Stats, end: int, at: int): Stats {
    if c.frameBytes <= 0 then st
    else
      var implied := ImpliedStart(c, end, at);
      if st.earliest.None? || implied < st.earliest.value then
        st.(earliest := Some(implied), anchorAt := at, anchorEnd := end, anchorFrame := FrameOf(c, end))
      else st
  }

  function Written(output: map<int, byte>, start: int, payload: seq<byte>): map<int, byte> {
    var region := Span(start, start + |payload|);
    map x | x in output.Keys + region :: if x in region then payload[x - start] else output[x]
  }

  function Recorded(c: Config, s: Loop, p: Packet, at: int, start: int): Loop {
    var end := start + |p.payload|;
    var s := WithSequence(s.(ranges := Insert(s.ranges, Range(start, end)),
                             highest := if end > s.highest then end else s.highest,
                             output := Written(s.output, start, p.payload), accepted := s.accepted + [(end, at)]), p.sequence);
    var st := s.stats.(packets := s.stats.packets + 1, payloadBytes := s.stats.payloadBytes + |p.payload|,
                       firstAt := if s.stats.firstAt.None? then Some(at) else s.stats.firstAt);
    s.(stats := WithCadence(c, st, end, at).(lastAt := Some(at), outputBytes := s.highest))
  }

  function OnPacket(c: Config, s: Loop, p: Packet, at: int, writeOk: bool): Result {
    var base := if s.base.Some? then s.base.value else p.byteOffset;
    var s := s.(base := Some(base));
    if p.byteOffset < base then
      Result(s.(stats := s.stats.(outOfOrder := s.stats.outOfOrder + 1, discarded := s.stats.discarded + 1)), GoesOn)
    else
      var start := p.byteOffset - base;
      var end := start + |p.payload|;
      if start > MAX_INT64 || |p.payload| > MAX_INT64 - start || end > c.maxOutputBytes then Result(s, PlainError)
      else if Overlaps(s.ranges, Range(start, end)) then
        Result(Finalise(s.(stats := s.stats.(overlapping := s.stats.overlapping + 1))), Finalised)
      else if |Insert(s.ranges, Range(start, end))| > MAX_TRACKED_RANGES then Result(Finalise(s), Finalised)
      else if !writeOk then Result(s, PlainError)
      else Result(Recorded(c, s, p, at, start), GoesOn)
  }

  /** finalizeStats: the uncovered bytes below the highest accepted end. */
  function Missing(rs: seq<Range>, coveredUntil: int, highest: int): nat {
    if rs == [] then if highest > coveredUntil then highest - coveredUntil else 0
    else
      (if rs[0].start > coveredUntil then rs[0].start - coveredUntil else 0)
      + Missing(rs[1..], if rs[0].end > coveredUntil then rs[0].end else coveredUntil, highest)
  }

  function Finalise(s: Loop): Loop {
    s.(stats := s.stats.(outputBytes := s.highest, missing := Missing(s.ranges, 0, s.highest)))
  }

  function Next(c: Config, s: Loop, e: Event): Result {
    match e
    case ForeignPacket => Result(s.(stats := s.stats.(ignored := s.stats.ignored + 1)), GoesOn)
    case MalformedPacket => Result(s.(stats := s.stats.(malformed := s.stats.malformed + 1)), GoesOn)
    case DataPacket(p, at, writeOk) => OnPacket(c, s, p, at, writeOk)
  }

  /** The loop over any events; a run that has ended takes no more. */
  function RunLoop(c: Config, events: seq<Event>): Result {
    if events == [] then Result(Start, GoesOn)
    else
      var before := RunLoop(c, events[..|events| - 1]);
      if before.outcome.GoesOn? then Next(c, before.loop, events[|events| - 1]) else before
  }

  /** What the receiver returns: finalised now if it was still running (idle, timeout, cancellation or close). */
  function Returned(c: Config, events: seq<Event>): Option<Loop> {
    var r := RunLoop(c, events);
    match r.outcome
    case GoesOn => Some(Finalise(r.loop))
    case Finalised => Some(r.loop)
    case PlainError => None
  }

  predicate EventsOk(events: seq<Event>) {
    forall i | 0 <= i < |events| && events[i].DataPacket? :: PacketOk(events[i].packet)
  }

  // ---------------------------------------------------------------- invariant

  function LastEnd(rs: seq<Range>): int {
    if rs == [] then 0 else rs[|rs| - 1].end
  }

  ghost predicate RangesTell(s: Loop) {
    && Canonical(s.ranges) && |s.ranges| <= MAX_TRACKED_RANGES && Within(s.ranges, 0, s.highest)
    && s.highest == LastEnd(s.ranges) && s.stats.payloadBytes == Total(s.ranges)
    && (s.ranges != [] ==> s.ranges[0].start == 0)
    && (forall x :: x in s.output <==> Covers(s.ranges, x))
    && (s.ranges == [] <==> s.stats.packets == 0)
  }

  /** Packet i is the first of the accepted ones with the smallest implied start. */
  predicate FirstMinimum(c: Config, accepted: seq<(int, int)>, i: int)
    requires c.frameBytes > 0
  {
    && 0 <= i < |accepted|
    && (forall j | 0 <= j < |accepted| :: StartOf(c, accepted[i]) <= StartOf(c, accepted[j]))
    && (forall j | 0 <= j < i :: StartOf(c, accepted[i]) < StartOf(c, accepted[j]))
  }

  /** The start that a packet's end and time imply. */
  function StartOf(c: Config, packet: (int, int)): int
    requires c.frameBytes > 0
  {
    ImpliedStart(c, packet.0, packet.1)
  }

  /** The anchor is the first of the accepted packets with the smallest implied start. */
  ghost predicate AnchorIsMinimum(
    c: Config, accepted: seq<(int, int)>, earliest: Option<int>, anchorAt: int, anchorEnd: int, anchorFrame: int)
  {
    if c.frameBytes <= 0 || accepted == [] then earliest.None?
    else
      && earliest.Some?
      && (exists i :: FirstMinimum(c, accepted, i) && accepted[i] == (anchorEnd, anchorAt))
      && earliest.value == ImpliedStart(c, anchorEnd, anchorAt) && anchorFrame == FrameOf(c, anchorEnd)
  }

  predicate EndsFit(accepted: seq<(int, int)>, highest: int) {
    forall i | 0 <= i < |accepted| :: 0 < accepted[i].0 <= highest
  }

  ghost predicate CadenceTells(c: Config, s: Loop) {
    && |s.accepted| == s.stats.packets && EndsFit(s.accepted, s.highest) && s.highest <= c.maxOutputBytes
    && AnchorIsMinimum(c, s.accepted, s.stats.earliest, s.stats.anchorAt, s.stats.anchorEnd, s.stats.anchorFrame)
  }

  ghost predicate Inv(c: Config, s: Loop) {
    RangesTell(s) && CadenceTells(c, s) && (s.ranges == [] <==> s.base.None?)
  }

  // ---------------------------------------------------------------- every packet keeps the invariant

  lemma {:induction false} InsertLastEnd(rs: seq<Range>, a: Range)
    requires Canonical(rs) && a.start < a.end
    ensures Insert(rs, a) != [] && LastEnd(Insert(rs, a)) == if rs != [] && LastEnd(rs) > a.end then LastEnd(rs) else a.end
    decreases |rs|
  {
    if rs != [] {
      CanonicalTail(rs);
      assert |rs| > 1 ==> rs[0].end < rs[|rs| - 1].start < LastEnd(rs) == LastEnd(rs[1..]);
      if rs[0].end < a.start {
        InsertLastEnd(rs[1..], a);
      } else if rs[0].start <= a.end {
        InsertLastEnd(rs[1..], Join(a, rs[0]));
      } else {
        assert LastEnd([a] + rs) == LastEnd(rs);
      }
    }
  }

  lemma AcceptedRanges(c: Config, s: Loop, p: Packet, at: int, start: int)
    requires RangesTell(s) && PacketOk(p) && start >= 0 && (s.ranges == [] ==> start == 0)
    requires !Overlaps(s.ranges, Range(start, start + |p.payload|))
    requires |Insert(s.ranges, Range(start, start + |p.payload|))| <= MAX_TRACKED_RANGES
    ensures RangesTell(Recorded(c, s, p, at, start))
  {
    hide WithCadence, Overlaps, Insert, LastEnd, Total;
    var a := Range(start, start + |p.payload|);
    InsertCorrect(s.ranges, a);
    InsertTotal(s.ranges, a);
    InsertLastEnd(s.ranges, a);
    EmptyLast(s.ranges);
    var s' := Recorded(c, s, p, at, start);
    InsertWithin(s.ranges, a, 0, s'.highest);
    WrittenKeys(s.output, start, p.payload);
    assert s'.ranges == Insert(s.ranges, a) && s'.output == Written(s.output, start, p.payload);
    CadenceLeaves(c, s, p, at, start);
  }

  lemma EmptyLast(rs: seq<Range>)
    requires Canonical(rs)
    ensures rs == [] ==> LastEnd(rs) == 0
  {
  }

  lemma WrittenKeys(output: map<int, byte>, start: int, payload: seq<byte>)
    ensures forall x :: x in Written(output, start, payload) <==> x in output || Contains(Range(start, start + |payload|), x)
  {
  }

  lemma CadenceLeaves(c: Config, s: Loop, p: Packet, at: int, start: int)
    ensures var s' := Recorded(c, s, p, at, start);
            && s'.stats.payloadBytes == s.stats.payloadBytes + |p.payload| && s'.stats.packets == s.stats.packets + 1
            && s'.base == s.base && s'.highest == (if start + |p.payload| > s.highest then start + |p.payload| else s.highest)
  {
    hide Insert, Written;
  }

  lemma AcceptedCadence(c: Config, s: Loop, p: Packet, at: int, start: int)
    requires CadenceTells(c, s) && PacketOk(p) && start >= 0 && start + |p.payload| <= c.maxOutputBytes
    ensures CadenceTells(c, Recorded(c, s, p, at, start))
  {
    hide Insert, Written, ImpliedStart, FrameOf;
    var end := start + |p.payload|;
    var s' := Recorded(c, s, p, at, start);
    assert s'.accepted == s.accepted + [(end, at)];
    CadenceLeaves(c, s, p, at, start);
    SequenceLeaves(c, s, p, at, start);
    var st := WithCadence(c, s.stats, end, at);
    assert s'.stats.earliest == st.earliest && s'.stats.anchorAt == st.anchorAt && s'.stats.anchorEnd == st.anchorEnd
           && s'.stats.anchorFrame == st.anchorFrame;
    AnchorMore(c, s.accepted, s.stats, end, at);
    hide AnchorIsMinimum;
    assert EndsFit(s'.accepted, s'.highest) by { EndsMore(s.accepted, s.highest, (end, at), s'.highest); }
  }

  lemma EndsMore(accepted: seq<(int, int)>, highest: int, x: (int, int), more: int)
    requires EndsFit(accepted, highest) && highest <= more && 0 < x.0 <= more
    ensures EndsFit(accepted + [x], more)
  {
  }

  lemma AnchorMore(c: Config, accepted: seq<(int, int)>, st: Stats, end: int, at: int)
    requires AnchorIsMinimum(c, accepted, st.earliest, st.anchorAt, st.anchorEnd, st.anchorFrame)
    ensures var after := WithCadence(c, st, end, at);
            AnchorIsMinimum(c, accepted + [(end, at)], after.earliest, after.anchorAt, after.anchorEnd, after.anchorFrame)
  {
    hide ImpliedStart, FrameOf;
    if c.frameBytes > 0 {
      var x := (end, at);
      var more := accepted + [x];
      assert more[|accepted|] == x;
      if accepted == [] {
        assert FirstMinimum(c, more, 0);
      } else {
        var i :| FirstMinimum(c, accepted, i) && accepted[i] == (st.anchorEnd, st.anchorAt);
        FirstMinimumMore(c, accepted, i, x);
      }
    }
  }

  lemma FirstMinimumMore(c: Config, accepted: seq<(int, int)>, i: int, x: (int, int))
    requires c.frameBytes > 0 && FirstMinimum(c, accepted, i)
    ensures FirstMinimum(c, accepted + [x], if StartOf(c, x) < StartOf(c, accepted[i]) then |accepted| else i)
  {
    hide StartOf;
    var more := accepted + [x];
    assert forall j | 0 <= j < |accepted| :: more[j] == accepted[j];
  }

  lemma SequenceLeaves(c: Config, s: Loop, p: Packet, at: int, start: int)
    ensures var s' := Recorded(c, s, p, at, start); var st := WithCadence(c, s.stats, start + |p.payload|, at);
            && s'.stats.earliest == st.earliest && s'.stats.anchorAt == st.anchorAt && s'.stats.anchorEnd == st.anchorEnd
            && s'.stats.anchorFrame == st.anchorFrame
  {
    hide Insert, Written, ImpliedStart, FrameOf;
  }

  lemma PacketKeeps(c: Config, s: Loop, p: Packet, at: int, writeOk: bool)
    requires Inv(c, s) && ConfigOk(c) && PacketOk(p) && !OnPacket(c, s, p, at, writeOk).outcome.PlainError?
    ensures Inv(c, OnPacket(c, s, p, at, writeOk).loop)
  {
    hide Overlaps, Insert, LastEnd, Total, Canonical, Within, Missing, ImpliedStart, FrameOf, WithCadence, WithSequence, Written;
    var base := if s.base.Some? then s.base.value else p.byteOffset;
    var s1 := s.(base := Some(base));
    EmptyAccepts(Range(p.byteOffset - base, p.byteOffset - base + |p.payload|));
    if p.byteOffset >= base && OnPacket(c, s, p, at, writeOk).outcome.GoesOn? {
      AcceptedRanges(c, s1, p, at, p.byteOffset - base);
      AcceptedCadence(c, s1, p, at, p.byteOffset - base);
      InsertLastEnd(s.ranges, Range(p.byteOffset - base, p.byteOffset - base + |p.payload|));
      CadenceLeaves(c, s1, p, at, p.byteOffset - base);
    } else {
      SameHistory(c, s, OnPacket(c, s, p, at, writeOk).loop);
    }
  }

  lemma SameHistory(c: Config, s: Loop, u: Loop)
    requires CadenceTells(c, s) && u.accepted == s.accepted && u.highest == s.highest && u.stats.packets == s.stats.packets
    requires u.stats.earliest == s.stats.earliest && u.stats.anchorAt == s.stats.anchorAt
    requires u.stats.anchorEnd == s.stats.anchorEnd && u.stats.anchorFrame == s.stats.anchorFrame
    ensures CadenceTells(c, u)
  {
  }

  lemma EmptyAccepts(a: Range)
    ensures !Overlaps([], a) && |Insert([], a)| == 1
  {
  }

  lemma StepKeeps(c: Config, s: Loop, e: Event)
    requires Inv(c, s) && ConfigOk(c) && (e.DataPacket? ==> PacketOk(e.packet)) && !Next(c, s, e).outcome.PlainError?
    ensures Inv(c, Next(c, s, e).loop)
  {
    hide OnPacket, Canonical, Within, LastEnd, Total;
    if e.DataPacket? {
      PacketKeeps(c, s, e.packet, e.at, e.writeOk);
    }
  }

  lemma StartKeeps(c: Config)
    requires ConfigOk(c)
    ensures Inv(c, Start)
  {
  }

  lemma {:induction false} RunKeeps(c: Config, events: seq<Event>)
    requires ConfigOk(c) && EventsOk(events) && !RunLoop(c, events).outcome.PlainError?
    ensures Inv(c, RunLoop(c, events).loop)
    ensures RunLoop(c, events).outcome.Finalised? ==> exists s :: RunLoop(c, events).loop == Finalise(s)
    decreases |events|
  {
    hide Inv, Next, PacketOk;
    if events == [] {
      StartKeeps(c);
    } else {
      var init, e := events[..|events| - 1], events[|events| - 1];
      RunKeeps(c, init);
      if RunLoop(c, init).outcome.GoesOn? {
        StepKeeps(c, RunLoop(c, init).loop, e);
        FinalisedStep(c, RunLoop(c, init).loop, e);
      }
    }
  }

  lemma FinalisedStep(c: Config, s: Loop, e: Event)
    ensures Next(c, s, e).outcome.Finalised? ==> exists u :: Next(c, s, e).loop == Finalise(u)
  {
    hide Insert, Overlaps, Recorded, Missing;
  }

  // ---------------------------------------------------------------- what the returned statistics mean

  lemma {:induction false} MissingIsGap(rs: seq<Range>, covered: int, highest: int)
    requires Canonical(rs) && (rs == [] ==> covered <= highest) && (rs != [] ==> covered <= rs[0].start && LastEnd(rs) == highest)
    ensures Missing(rs, covered, highest) == highest - covered - Total(rs)
    decreases |rs|
  {
    if rs != [] {
      CanonicalTail(rs);
      MissingIsGap(rs[1..], rs[0].end, highest);
    }
  }

  lemma FinaliseKeeps(c: Config, s: Loop)
    requires Inv(c, s)
    ensures Inv(c, Finalise(s)) && Finalise(s).stats.outputBytes == s.highest
    ensures s.stats.payloadBytes + Finalise(s).stats.missing == s.highest
  {
    hide Total, Within;
    MissingIsGap(s.ranges, 0, s.highest);
    TotalFits(s.ranges, s.highest);
  }

  lemma TotalFits(rs: seq<Range>, highest: int)
    requires Canonical(rs) && Within(rs, 0, highest) && highest == LastEnd(rs)
    ensures 0 <= Total(rs) <= highest
  {
    TotalIsSize(rs);
    if highest > 0 {
      SpanSize(0, highest);
      SubsetSize(CoveredSet(rs), Span(0, highest));
    }
  }

  /**
    On every finalised return, from any packets in any order: received payload plus missing bytes is the output size, the
    range list is sorted, strictly separated and at most 4096 long, and it denotes exactly the bytes written.
   */
  lemma FinalAccounting(c: Config, events: seq<Event>)
    requires ConfigOk(c) && EventsOk(events) && Returned(c, events).Some?
    ensures var s := Returned(c, events).value;
            && s.stats.payloadBytes + s.stats.missing == s.stats.outputBytes == s.highest
            && Canonical(s.ranges) && |s.ranges| <= MAX_TRACKED_RANGES && Within(s.ranges, 0, s.highest)
            && (forall x :: x in s.output <==> Covers(s.ranges, x)) && Inv(c, s)
  {
    hide RunLoop, Total, LastEnd, CadenceTells, Missing;
    RunKeeps(c, events);
    var s := RunLoop(c, events).loop;
    if RunLoop(c, events).outcome.GoesOn? {
      FinaliseKeeps(c, s);
    } else {
      var u :| s == Finalise(u);
      FinaliseAgain(u);
      FinaliseKeeps(c, s);
    }
  }

  lemma FinaliseAgain(s: Loop)
    ensures Finalise(Finalise(s)) == Finalise(s)
  {
    hide Missing;
  }

  /** No byte is missing exactly when the bytes written are the whole interval from zero to the output size. */
  lemma CompleteIffWhole(c: Config, events: seq<Event>)
    requires ConfigOk(c) && EventsOk(events) && Returned(c, events).Some?
    ensures var s := Returned(c, events).value;
            s.stats.missing == 0 <==> forall x :: x in s.output <==> 0 <= x < s.stats.outputBytes
  {
    hide RunLoop, CadenceTells, Missing, Total, Returned;
    FinalAccounting(c, events);
    var s := Returned(c, events).value;
    TotalIsSize(s.ranges);
    HighestNonnegative(s.ranges);
    SpanSize(0, s.highest);
    assert CoveredSet(s.ranges) <= Span(0, s.highest);
    SubsetSize(CoveredSet(s.ranges), Span(0, s.highest));
    if forall x :: x in s.output <==> 0 <= x < s.highest {
      assert CoveredSet(s.ranges) == Span(0, s.highest);
    }
  }

  lemma HighestNonnegative(rs: seq<Range>)
    requires Canonical(rs) && Within(rs, 0, LastEnd(rs))
    ensures LastEnd(rs) >= 0
  {
  }

  // ---------------------------------------------------------------- sequence numbers

  function WithSequences(s: Loop, numbers: seq<nat>): Loop {
    if numbers == [] then s
    else WithSequence(WithSequences(s, numbers[..|numbers| - 1]), numbers[|numbers| - 1] % 0x1_0000_0000)
  }

  lemma GapStep(s: Loop, u: nat, v: nat)
    requires s.lastSequence == Some(u % 0x1_0000_0000) && u < v <= u + 0x8000_0000
    ensures var s' := WithSequence(s, v % 0x1_0000_0000);
            && s'.lastSequence == Some(v % 0x1_0000_0000) && s'.stats.sequenceGaps == s.stats.sequenceGaps + (v - u - 1)
            && s'.stats.outOfOrder == s.stats.outOfOrder
  {
    var w := 0x1_0000_0000;
    assert (u % w + 1) % w == (u + 1) % w;
    assert (v % w - (u + 1) % w) % w == (v - u - 1) % w == v - u - 1;
  }

  /** A repeated packet, or one that comes up to half the counter's range late, counts as out of order and changes nothing else. */
  lemma LateIsOutOfOrder(s: Loop, u: nat, v: nat)
    requires s.lastSequence == Some(u % 0x1_0000_0000) && v <= u < v + 0x8000_0000
    ensures WithSequence(s, v % 0x1_0000_0000) == s.(stats := s.stats.(outOfOrder := s.stats.outOfOrder + 1))
  {
    var w := 0x1_0000_0000;
    assert (u % w + 1) % w == (u + 1) % w;
    assert (v % w - (u + 1) % w) % w == (v - u - 1) % w == v - u - 1 + w;
  }

  /** Packets in order, whatever the 32-bit counter wraps to: the gap counter is exactly the number of packets lost. */
  lemma {:induction false} GapsExact(s: Loop, numbers: seq<nat>)
    requires s.lastSequence.None? && numbers != []
    requires forall i | 0 < i < |numbers| :: numbers[i - 1] < numbers[i] <= numbers[i - 1] + 0x8000_0000
    ensures var s' := WithSequences(s, numbers); var last := numbers[|numbers| - 1];
            && s'.lastSequence == Some(last % 0x1_0000_0000) && s'.stats.outOfOrder == s.stats.outOfOrder
            && s'.stats.sequenceGaps == s.stats.sequenceGaps + (last - numbers[0] - (|numbers| - 1))
    decreases |numbers|
  {
    hide WithSequence;
    var n := |numbers|;
    if n == 1 {
      assert WithSequences(s, numbers[..0]) == s;
      FirstSequence(s, numbers[0]);
    } else {
      GapsExact(s, numbers[..n - 1]);
      GapStep(WithSequences(s, numbers[..n - 1]), numbers[n - 2], numbers[n - 1]);
    }
  }

  lemma FirstSequence(s: Loop, u: nat)
    requires s.lastSequence.None?
    ensures WithSequence(s, u % 0x1_0000_0000) == s.(lastSequence := Some(u % 0x1_0000_0000))
  {
  }

  // ---------------------------------------------------------------- the session's checks

  datatype Plan = Plan(infinite: bool, frames: nat, bytesPerFrame: int, expectedBytes: int, framePeriod: int)

  /** What Run demands of a plan before it touches hardware. */
  predicate PlanOk(p: Plan) {
    && 0 < p.bytesPerFrame <= MAX_INT64 && 0 < p.framePeriod <= MAX_INT64
    && if p.infinite then p.frames == 0 && p.expectedBytes == 0
       else p.frames > 0 && p.expectedBytes > 0 && p.expectedBytes % p.bytesPerFrame == 0
            && p.expectedBytes / p.bytesPerFrame == p.frames
  }

  /** The receiver configuration Run derives from the plan. */
  function ConfigFor(p: Plan, maxOutputBytes: int): Config {
    if p.infinite then Config(maxOutputBytes, 0, 0, 0)
    else Config(p.expectedBytes, p.expectedBytes, p.bytesPerFrame, p.framePeriod)
  }

  /** frameOffsetDuration. */
  function FrameOffset(period: int, frame: int): Option<int> {
    if period <= 0 || frame > MAX_INT64 / period then None else Some(frame * period)
  }

  /** cadenceTolerance: a tenth of the period within 1..25 ms, at most half a period, plus a thousandth of the offset. */
  function Tolerance(period: int, offset: int): Option<int> {
    var base := Min(Min(Max(period / 10, 1_000_000), 25_000_000), period / 2);
    var drift := offset / 1000 + if offset % 1000 != 0 then 1 else 0;
    if base > MAX_INT64 - drift then None else Some(base + drift)
  }

  datatype Timing = TimingOk | TooEarly | Inconsistent

  /** validateFiniteFrameTiming. */
  function CheckTiming(p: Plan, st: Stats, startIssuedAt: Option<int>): Timing {
    if p.infinite then TimingOk
    else if startIssuedAt.None? || st.earliest.None? || st.anchorEnd <= 0 then Inconsistent
    else if p.bytesPerFrame <= 0 || st.anchorEnd > st.outputBytes then Inconsistent
    else
      var frame := (st.anchorEnd - 1) / p.bytesPerFrame;
      if frame != st.anchorFrame || frame >= p.frames then Inconsistent
      else
        match FrameOffset(p.framePeriod, frame)
        case None => Inconsistent
        case Some(offset) =>
          if st.anchorAt - offset != st.earliest.value then Inconsistent
          else
            match if frame > 0 then Tolerance(p.framePeriod, offset) else Some(0)
            case None => Inconsistent
            case Some(tolerance) => if st.earliest.value + tolerance < startIssuedAt.value then TooEarly else TimingOk
  }

  /** validateResult; durationOk stands for the final check of the observed span against the plan's maximum. */
  predicate ValidResult(p: Plan, st: Stats, startIssuedAt: Option<int>, durationOk: bool) {
    && st.packets != 0 && st.missing == 0 && st.discarded == 0 && st.malformed == 0 && st.overlapping == 0
    && (p.expectedBytes > 0 ==> st.outputBytes == p.expectedBytes)
    && (p.infinite ==> st.outputBytes > 0 && p.bytesPerFrame > 0 && st.outputBytes % p.bytesPerFrame == 0)
    && CheckTiming(p, st, startIssuedAt).TimingOk? && durationOk
  }

  /** What Stats yields once the loop has ended: finalised unless the loop took a plain error return. */
  function Left(c: Config, events: seq<Event>): Loop {
    match Returned(c, events)
    case Some(s) => s
    case None => RunLoop(c, events).loop
  }

  /** The bytes written are exactly [0, OutputBytes). */
  ghost predicate Whole(s: Loop) { forall x :: x in s.output <==> 0 <= x < s.stats.outputBytes }

  /** What every state of the loop tells, also the one that a plain error leaves. */
  ghost predicate Tells(s: Loop) { RangesTell(s) && s.stats.outputBytes == s.highest }

  lemma PlainErrorLeaves(c: Config, s: Loop, e: Event)
    requires Tells(s) && Next(c, s, e).outcome.PlainError?
    ensures Tells(Next(c, s, e).loop)
  {
    hide Overlaps, Insert, LastEnd, Total, Canonical, Within, Missing, Recorded;
  }

  lemma OutputIsHighest(c: Config, s: Loop, e: Event)
    requires s.stats.outputBytes == s.highest
    ensures Next(c, s, e).loop.stats.outputBytes == Next(c, s, e).loop.highest
  {
    hide Overlaps, Insert, Missing, WithCadence, Written;
  }

  lemma {:induction false} LoopTells(c: Config, events: seq<Event>)
    requires ConfigOk(c) && EventsOk(events)
    ensures Tells(RunLoop(c, events).loop)
    decreases |events|
  {
    hide Next, PacketOk, RangesTell, CadenceTells, ConfigOk;
    if events == [] {
      StartKeeps(c);
    } else {
      var init, e := events[..|events| - 1], events[|events| - 1];
      LoopTells(c, init);
      var before := RunLoop(c, init);
      if before.outcome.GoesOn? {
        OutputIsHighest(c, before.loop, e);
        if Next(c, before.loop, e).outcome.PlainError? {
          PlainErrorLeaves(c, before.loop, e);
        } else {
          RunKeeps(c, events);
        }
      }
    }
  }

  lemma LeftTells(c: Config, events: seq<Event>)
    requires ConfigOk(c) && EventsOk(events)
    ensures Tells(Left(c, events)) && Left(c, events).output == RunLoop(c, events).loop.output
  {
    hide RunLoop, Total, LastEnd, Missing, Within, Canonical;
    LoopTells(c, events);
  }

  lemma FullIffCounted(rs: seq<Range>, highest: int)
    requires Canonical(rs) && Within(rs, 0, highest) && highest == LastEnd(rs)
    ensures CoveredSet(rs) == Span(0, highest) <==> Total(rs) == highest
  {
    TotalIsSize(rs);
    HighestNonnegative(rs);
    SpanSize(0, highest);
    assert CoveredSet(rs) <= Span(0, highest) by { hide Total; }
    hide Canonical, Within, Total, LastEnd;
    SubsetSize(CoveredSet(rs), Span(0, highest));
  }

  lemma WholeIffCounted(s: Loop)
    requires Tells(s)
    ensures Whole(s) <==> s.stats.payloadBytes == s.stats.outputBytes
  {
    hide Total, Canonical, Within, LastEnd, Covers;
    FullIffCounted(s.ranges, s.highest);
    assert Whole(s) <==> CoveredSet(s.ranges) == Span(0, s.highest) by {
      CoveredMember(s.ranges);
    }
  }

  /** The end of the output is known from the bytes in it. */
  lemma HighestIs(s: Loop, end: int)
    requires RangesTell(s) && end > 0 && forall x :: x in s.output <==> 0 <= x < end
    ensures s.highest == end
  {
    hide Total;
    var rs := s.ranges;
    assert 0 in s.output && end - 1 in s.output;
    assert rs != [] && Contains(rs[|rs| - 1], s.highest - 1) && Covers(rs, s.highest - 1);
    assert s.highest - 1 in s.output;
  }

  lemma CoveredMember(rs: seq<Range>)
    ensures forall x :: x in CoveredSet(rs) <==> Covers(rs, x)
  {
  }

  /**
    A result the session accepts has the finite plan's size, or a positive whole number of frames; and the bytes written are
    exactly [0, OutputBytes) if and only if as many payload bytes were received as the output is long. That is so whenever the
    loop finalised its statistics, for then a gap would have been counted as missing.
   */
  lemma ValidExactIff(p: Plan, c: Config, events: seq<Event>, startIssuedAt: Option<int>, durationOk: bool)
    requires PlanOk(p) && ConfigOk(c) && EventsOk(events)
    requires ValidResult(p, Left(c, events).stats, startIssuedAt, durationOk)
    ensures var s := Left(c, events);
            && (if p.infinite then s.stats.outputBytes > 0 && s.stats.outputBytes % p.bytesPerFrame == 0
                else s.stats.outputBytes == p.expectedBytes)
            && (Whole(s) <==> s.stats.payloadBytes == s.stats.outputBytes)
            && (Returned(c, events).Some? ==> Whole(s))
  {
    hide Returned, CheckTiming, RunLoop, Tells, Inv;
    LeftTells(c, events);
    WholeIffCounted(Left(c, events));
    if Returned(c, events).Some? {
      FinalAccounting(c, events);
    }
  }

  // ---------------------------------------------------------------- an accepted result with a hole

  const HolePlan: Plan := Plan(true, 0, 8, 0, 1_000_000)
  const HoleConfig: Config := ConfigFor(HolePlan, 64)

  function EightBytes(offset: nat): Packet {
    Packet(offset, offset, seq(8, _ => 1))
  }

  function Arrives(offset: nat): Event {
    DataPacket(EightBytes(offset), 0, true)
  }

  /** Two frames with two missing between them, then a packet that ends beyond the output limit. */
  const HoleEvents: seq<Event> := [Arrives(0), Arrives(24), Arrives(60)]

  /** Eight bytes accepted at an offset from the base, whatever was received before. */
  lemma EightAccepted(s: Loop, offset: nat)
    requires (s.base == Some(0) || (s.base.None? && offset == 0)) && offset + 8 <= 64
    requires !Overlaps(s.ranges, Range(offset, offset + 8)) && |Insert(s.ranges, Range(offset, offset + 8))| <= MAX_TRACKED_RANGES
    ensures Next(HoleConfig, s, Arrives(offset)) ==
            Result(Recorded(HoleConfig, s.(base := Some(0)), EightBytes(offset), 0, offset), GoesOn)
  {
    hide Recorded, Insert, Overlaps;
  }

  /** What such a packet leaves when cadence is not tracked. */
  lemma EightRecorded(s: Loop, offset: nat)
    ensures var r := Recorded(HoleConfig, s, EightBytes(offset), 0, offset);
            && r.ranges == Insert(s.ranges, Range(offset, offset + 8)) && r.base == s.base
            && r.highest == Max(s.highest, offset + 8) && r.stats.outputBytes == r.highest
            && r.stats.packets == s.stats.packets + 1 && r.stats.payloadBytes == s.stats.payloadBytes + 8
            && r.stats.missing == s.stats.missing && r.stats.discarded == s.stats.discarded
            && r.stats.malformed == s.stats.malformed && r.stats.overlapping == s.stats.overlapping
            && forall x :: x in r.output <==> x in s.output || offset <= x < offset + 8
  {
    hide Insert, Written;
    WrittenKeys(s.output, offset, EightBytes(offset).payload);
  }

  lemma ApartRanges(r: Range, a: Range)
    requires r.end < a.start
    ensures Insert([], r) == [r] && !Overlaps([], r) && Insert([r], a) == [r, a] && !Overlaps([r], a)
  {
    assert [r][1..] == [] && Insert([], a) == [a] && !Overlaps([], a);
  }

  lemma TwoArrive() returns (s: Loop)
    ensures RunLoop(HoleConfig, HoleEvents[..2]) == Result(s, GoesOn) && s.base == Some(0)
    ensures s.stats.packets == 2 && s.stats.payloadBytes == 16 && s.stats.outputBytes == 32
    ensures s.stats.missing == 0 && s.stats.discarded == 0 && s.stats.malformed == 0 && s.stats.overlapping == 0
    ensures forall x :: x in s.output <==> 0 <= x < 8 || 24 <= x < 32
  {
    hide Next, Recorded, Insert, Overlaps;
    var a, b := Range(0, 8), Range(24, 32);
    ApartRanges(a, b);
    assert HoleEvents[..0] == [] && RunLoop(HoleConfig, []) == Result(Start, GoesOn);
    LoopOneMore(HoleConfig, HoleEvents, 0);
    EightAccepted(Start, 0);
    EightRecorded(Start.(base := Some(0)), 0);
    var one := RunLoop(HoleConfig, HoleEvents[..1]).loop;
    LoopOneMore(HoleConfig, HoleEvents, 1);
    EightAccepted(one, 24);
    EightRecorded(one.(base := Some(0)), 24);
    s := RunLoop(HoleConfig, HoleEvents[..2]).loop;
  }

  /**
    The session accepts the statistics that a plain error leaves, although they were never finalised and byte 8 was never
    written: 16 payload bytes were received for an output of 32.
   */
  lemma HoleIsAccepted()
    ensures PlanOk(HolePlan) && NewReceiver(HoleConfig) == Some(HoleConfig) && EventsOk(HoleEvents)
    ensures RunLoop(HoleConfig, HoleEvents).outcome.PlainError?
    ensures var s := Left(HoleConfig, HoleEvents);
            && ValidResult(HolePlan, s.stats, Some(0), true)
            && s.stats.outputBytes == 32 && s.stats.payloadBytes == 16 && 8 !in s.output && 31 in s.output
  {
    hide Next, RunLoop;
    var s := TwoArrive();
    LoopOneMore(HoleConfig, HoleEvents, 2);
    assert HoleEvents[..3] == HoleEvents;
    LastTooLong(s);
  }

  lemma LastTooLong(s: Loop)
    requires s.base == Some(0)
    ensures Next(HoleConfig, s, Arrives(60)) == Result(s, PlainError)
  {
    hide Insert, Overlaps, Recorded;
  }

  // ---------------------------------------------------------------- cadence

  lemma OffsetFits(c: Config, end: int)
    requires ConfigOk(c) && c.frameBytes > 0 && 0 < end <= c.maxOutputBytes
    ensures 0 <= FrameOf(c, end) <= MAX_INT64 / c.framePeriod
    ensures 0 <= FrameOf(c, end) * c.framePeriod <= MAX_INT64
  {
    DivMonotone(end - 1, c.expectedBytes - 1, c.frameBytes);
    DivMonotone(0, end - 1, c.frameBytes);
    var frame, limit := FrameOf(c, end), MAX_INT64 / c.framePeriod;
    MulOrder(c.framePeriod, frame, limit);
    MulOrder(c.framePeriod, 0, frame);
    assert c.framePeriod * limit <= MAX_INT64;
  }

  lemma MulOrder(d: int, x: int, y: int)
    requires d > 0 && x <= y
    ensures d * x <= d * y
  {
  }

  /** The quotient is the largest number of whole divisors. */
  lemma QuotientBound(a: int, d: int, q: int)
    requires a >= 0 && d > 0 && a < d * q
    ensures 0 <= a / d < q
  {
    var k := a / d;
    assert a == d * k + a % d;
    if k >= q {
      MulOrder(d, q, k);
      assert false;
    }
  }

  lemma FrameInPlan(p: Plan, end: int)
    requires PlanOk(p) && !p.infinite && 0 < end <= p.expectedBytes
    ensures 0 <= (end - 1) / p.bytesPerFrame < p.frames
  {
    assert p.expectedBytes == p.bytesPerFrame * (p.expectedBytes / p.bytesPerFrame) + p.expectedBytes % p.bytesPerFrame;
    QuotientBound(end - 1, p.bytesPerFrame, p.frames);
  }

  lemma ToleranceFits(period: int, offset: int)
    requires 0 < period <= MAX_INT64 && 0 <= offset <= MAX_INT64
    ensures Tolerance(period, offset).Some? && 0 <= Tolerance(period, offset).value <= MAX_INT64
  {
  }

  /**
    In a finite run with accepted packets the consistency checks of the timing validation never fail: the verdict is
    decided by the final comparison alone, against the true minimum implied start over the accepted packets.
   */
  lemma OnlyTooEarly(p: Plan, c: Config, maxOutputBytes: int, events: seq<Event>, startIssuedAt: int)
    requires PlanOk(p) && !p.infinite && NewReceiver(ConfigFor(p, maxOutputBytes)) == Some(c)
    requires EventsOk(events) && Returned(c, events).Some? && Returned(c, events).value.accepted != []
    ensures var s := Returned(c, events).value;
            && CheckTiming(p, s.stats, Some(startIssuedAt)) != Inconsistent
            && s.stats.earliest.Some?
            && (forall i | 0 <= i < |s.accepted| :: s.stats.earliest.value <= ImpliedStart(c, s.accepted[i].0, s.accepted[i].1))
            && (exists i :: 0 <= i < |s.accepted| && s.stats.earliest.value == ImpliedStart(c, s.accepted[i].0, s.accepted[i].1))
  {
    var i := TimingVerdict(p, c, maxOutputBytes, events, startIssuedAt);
    hide Returned, RunLoop, CheckTiming, Slack;
    var s := Returned(c, events).value;
    assert s.stats.earliest.value == StartOf(c, s.accepted[i]);
    assert forall j | 0 <= j < |s.accepted| :: StartOf(c, s.accepted[i]) <= StartOf(c, s.accepted[j]);
  }

  /**
    How much earlier than the start command a frame may seem to have begun: nothing for the first frame; later a tenth of the period,
    between one and twenty-five milliseconds but at most half a period, and a thousandth of the time since the first frame,
    rounded up.
   */
  function Slack(period: int, frame: int): int {
    if frame == 0 then 0
    else
      var tenth := if period / 10 < 1_000_000 then 1_000_000 else if period / 10 > 25_000_000 then 25_000_000 else period / 10;
      (if tenth > period / 2 then period / 2 else tenth) + (frame * period + 999) / 1000
  }

  /** The packet with this end came too early for a start command issued then. */
  predicate TooSoon(p: Plan, packet: (int, int), startIssuedAt: int)
    requires p.bytesPerFrame > 0
  {
    var frame := (packet.0 - 1) / p.bytesPerFrame;
    packet.1 - frame * p.framePeriod + Slack(p.framePeriod, frame) < startIssuedAt
  }

  lemma ToleranceIsSlack(period: int, offset: int, frame: int)
    requires 0 < period <= MAX_INT64 && 0 <= offset <= MAX_INT64 && offset == frame * period && frame > 0
    ensures Tolerance(period, offset) == Some(Slack(period, frame))
  {
    ToleranceFits(period, offset);
    RoundedUp(offset);
  }

  lemma RoundedUp(n: nat)
    ensures n / 1000 + (if n % 1000 != 0 then 1 else 0) == (n + 999) / 1000
  {
  }

  lemma {:induction false} TimingVerdict(p: Plan, c: Config, maxOutputBytes: int, events: seq<Event>, startIssuedAt: int)
    returns (i: int)
    requires PlanOk(p) && !p.infinite && NewReceiver(ConfigFor(p, maxOutputBytes)) == Some(c)
    requires EventsOk(events) && Returned(c, events).Some? && Returned(c, events).value.accepted != []
    ensures c.frameBytes > 0
    ensures var s := Returned(c, events).value;
            && FirstMinimum(c, s.accepted, i) && s.stats.earliest == Some(StartOf(c, s.accepted[i]))
            && CheckTiming(p, s.stats, Some(startIssuedAt)) == if TooSoon(p, s.accepted[i], startIssuedAt) then TooEarly else TimingOk
  {
    hide Returned, RangesTell, RunLoop, CheckTiming, TooSoon, Canonical, Within, Covers;
    AcceptedConfig(ConfigFor(p, maxOutputBytes));
    FinalAccounting(c, events);
    var s := Returned(c, events).value;
    var end := s.stats.anchorEnd;
    i := AnchorOf(c, s);
    OffsetFits(c, end);
    FrameInPlan(p, end);
    VerdictOf(p, c, s.stats, s.accepted[i], startIssuedAt);
  }

  lemma AnchorOf(c: Config, s: Loop) returns (i: int)
    requires CadenceTells(c, s) && c.frameBytes > 0 && s.accepted != []
    ensures FirstMinimum(c, s.accepted, i) && s.accepted[i] == (s.stats.anchorEnd, s.stats.anchorAt)
    ensures s.stats.earliest == Some(StartOf(c, s.accepted[i])) && s.stats.anchorFrame == FrameOf(c, s.stats.anchorEnd)
    ensures 0 < s.stats.anchorEnd <= s.highest <= c.maxOutputBytes
  {
    i :| FirstMinimum(c, s.accepted, i) && s.accepted[i] == (s.stats.anchorEnd, s.stats.anchorAt);
  }

  /** The checks on a consistent anchor come down to the last comparison. */
  lemma VerdictOf(p: Plan, c: Config, st: Stats, packet: (int, int), startIssuedAt: int)
    requires PlanOk(p) && !p.infinite && c.frameBytes == p.bytesPerFrame && c.framePeriod == p.framePeriod
    requires packet == (st.anchorEnd, st.anchorAt) && 0 < st.anchorEnd <= st.outputBytes
    requires st.anchorFrame == FrameOf(c, st.anchorEnd) && st.earliest == Some(StartOf(c, packet))
    requires 0 <= st.anchorFrame < p.frames && st.anchorFrame <= MAX_INT64 / c.framePeriod
    requires 0 <= st.anchorFrame * c.framePeriod <= MAX_INT64
    ensures CheckTiming(p, st, Some(startIssuedAt)) == if TooSoon(p, packet, startIssuedAt) then TooEarly else TimingOk
  {
    hide Tolerance, Slack;
    var frame := st.anchorFrame;
    if frame > 0 {
      ToleranceIsSlack(p.framePeriod, frame * p.framePeriod, frame);
    } else {
      NoSlack(p.framePeriod);
    }
  }

  lemma NoSlack(period: int)
    ensures Slack(period, 0) == 0
  {
  }

  /**
    In a finite run with accepted packets the result is refused as too early if and only if the packet with the smallest implied
    start, the first of several, lies before the start command by more than its slack; otherwise its timing is accepted.
   */
  lemma TooEarlyIff(p: Plan, c: Config, maxOutputBytes: int, events: seq<Event>, startIssuedAt: int)
    requires PlanOk(p) && !p.infinite && NewReceiver(ConfigFor(p, maxOutputBytes)) == Some(c)
    requires EventsOk(events) && Returned(c, events).Some? && Returned(c, events).value.accepted != []
    ensures c.frameBytes > 0
    ensures var s := Returned(c, events).value; var verdict := CheckTiming(p, s.stats, Some(startIssuedAt));
            && (verdict.TooEarly? || verdict.TimingOk?)
            && (verdict.TooEarly? <==> exists i :: FirstMinimum(c, s.accepted, i) && TooSoon(p, s.accepted[i], startIssuedAt))
  {
    hide Returned, CheckTiming, TooSoon, RunLoop;
    var i := TimingVerdict(p, c, maxOutputBytes, events, startIssuedAt);
    var s := Returned(c, events).value;
    if k :| FirstMinimum(c, s.accepted, k) && TooSoon(p, s.accepted[k], startIssuedAt) {
      assert k == i;
    }
  }

  // ---------------------------------------------------------------- the loop as code

  /** The accumulation loop of finalizeStats. */
  method CountMissing(ranges: seq<Range>, highest: int) returns (missing: nat)
    ensures missing == Missing(ranges, 0, highest)
  {
    var covered, i := 0, 0;
    missing := 0;
    assert ranges[0..] == ranges;
    while i < |ranges|
      invariant 0 <= i <= |ranges|
      invariant missing + Missing(ranges[i..], covered, highest) == Missing(ranges, 0, highest)
    {
      assert ranges[i..][1..] == ranges[i + 1..] && ranges[i..][0] == ranges[i];
      if ranges[i].start > covered {
        missing := missing + ranges[i].start - covered;
      }
      if ranges[i].end > covered {
        covered := ranges[i].end;
      }
      i := i + 1;
    }
    if highest > covered {
      missing := missing + highest - covered;
    }
  }

  /** The receive loop's variables; Datagram is one turn of the loop and Close its finalising return. */
  class DataReceiver {
    const c: Config
    var stats: Stats
    var ranges: seq<Range>
    var base: Option<nat>
    var highest: int
    var lastSequence: Option<nat>
    ghost var output: map<int, byte>
    ghost var accepted: seq<(int, int)>

    ghost function Value(): Loop
      reads this
    {
      Loop(stats, ranges, base, highest, lastSequence, output, accepted)
    }

    constructor (c: Config)
      ensures this.c == c && Value() == Start
    {
      this.c := c;
      stats, ranges, base, highest, lastSequence, output, accepted := NoStats, [], None, 0, None, map[], [];
    }

    method Close()
      modifies this`stats
      ensures Value() == Finalise(old(Value()))
    {
      var missing := CountMissing(ranges, highest);
      stats := stats.(outputBytes := highest, missing := missing);
    }

    method NoteSequence(sequence: nat)
      modifies this`stats, this`lastSequence
      ensures Value() == WithSequence(old(Value()), sequence)
    {
      var advance := true;
      if lastSequence.Some? {
        var expected := (lastSequence.value + 1) % 0x1_0000_0000;
        if sequence != expected {
          var delta := (sequence - expected) % 0x1_0000_0000;
          if 0 < delta < 0x8000_0000 {
            stats := stats.(sequenceGaps := stats.sequenceGaps + delta);
          } else if delta != 0 {
            stats := stats.(outOfOrder := stats.outOfOrder + 1);
            advance := false;
          }
        }
      }
      if advance {
        lastSequence := Some(sequence);
      }
    }

    method NoteCadence(end: int, at: int)
      modifies this`stats
      ensures Value() == old(Value()).(stats := WithCadence(c, old(stats), end, at))
    {
      if c.frameBytes > 0 {
        var frame := (end - 1) / c.frameBytes;
        var implied := at - frame * c.framePeriod;
        if stats.earliest.None? || implied < stats.earliest.value {
          stats := stats.(earliest := Some(implied), anchorAt := at, anchorEnd := end, anchorFrame := frame);
        }
      }
    }

    method Take(p: Packet, at: int, start: int)
      requires Canonical(ranges) && PacketOk(p)
      modifies this
      ensures Value() == Recorded(c, old(Value()), p, at, start) && Canonical(ranges)
    {
      hide Canonical, Insert, WithCadence, WithSequence, Written;
      var end := start + |p.payload|;
      InsertCorrect(ranges, Range(start, end));
      ranges := AddRange(ranges, Range(start, end));
      output, accepted := Written(output, start, p.payload), accepted + [(end, at)];
      if end > highest {
        highest := end;
      }
      NoteSequence(p.sequence);
      stats := stats.(packets := stats.packets + 1, payloadBytes := stats.payloadBytes + |p.payload|,
                      firstAt := if stats.firstAt.None? then Some(at) else stats.firstAt);
      NoteCadence(end, at);
      stats := stats.(lastAt := Some(at), outputBytes := highest);
    }

    method Datagram(e: Event) returns (outcome: Outcome)
      requires Canonical(ranges) && (e.DataPacket? ==> PacketOk(e.packet))
      modifies this
      ensures Result(Value(), outcome) == Next(c, old(Value()), e) && Canonical(ranges)
    {
      hide Canonical, Insert, Overlaps, Recorded, Missing;
      match e
      case ForeignPacket =>
        stats := stats.(ignored := stats.ignored + 1);
        return GoesOn;
      case MalformedPacket =>
        stats := stats.(malformed := stats.malformed + 1);
        return GoesOn;
      case DataPacket(p, at, writeOk) =>
        outcome := Data(p, at, writeOk);
    }

    method Data(p: Packet, at: int, writeOk: bool) returns (outcome: Outcome)
      requires Canonical(ranges) && PacketOk(p)
      modifies this
      ensures Result(Value(), outcome) == OnPacket(c, old(Value()), p, at, writeOk) && Canonical(ranges)
    {
      hide Canonical, Insert, Overlaps, Recorded, Missing;
      if base.None? {
        base := Some(p.byteOffset);
      }
      if p.byteOffset < base.value {
        stats := stats.(outOfOrder := stats.outOfOrder + 1, discarded := stats.discarded + 1);
        return GoesOn;
      }
      var start := p.byteOffset - base.value;
      var end := start + |p.payload|;
      if start > MAX_INT64 || |p.payload| > MAX_INT64 - start || end > c.maxOutputBytes {
        return PlainError;
      }
      var verdict := Preflight(ranges, Range(start, end), MAX_TRACKED_RANGES);
      if !verdict.Accepted? {
        if verdict.Overlapping? {
          stats := stats.(overlapping := stats.overlapping + 1);
        }
        Close();
        return Finalised;
      }
      if !writeOk {
        return PlainError;
      }
      Take(p, at, start);
      return GoesOn;
    }
  }

  // ---------------------------------------------------------------- whole captures on the object

  /** A datagram as the socket delivers it: from the configured peer or not, and what writing its payload will do. */
  datatype Arrival = Arrival(foreign: bool, datagram: seq<byte>, at: int, writeOk: bool)

  function EventOf(a: Arrival): (e: Event)
    ensures e.DataPacket? ==> PacketOk(e.packet)
  {
    if a.foreign then ForeignPacket
    else
      match ParsePacket(a.datagram)
      case None => MalformedPacket
      case Some(p) => DataPacket(p, a.at, a.writeOk)
  }

  function EventsOf(arrivals: seq<Arrival>): (events: seq<Event>)
    ensures |events| == |arrivals| && EventsOk(events)
  {
    seq(|arrivals|, i requires 0 <= i < |arrivals| => EventOf(arrivals[i]))
  }

  lemma LoopOneMore(c: Config, events: seq<Event>, i: nat)
    requires i < |events|
    ensures var before := RunLoop(c, events[..i]);
            RunLoop(c, events[..i + 1]) == if before.outcome.GoesOn? then Next(c, before.loop, events[i]) else before
  {
    hide Next;
    assert events[..i + 1][..i] == events[..i];
  }

  lemma {:induction false} LoopStays(c: Config, events: seq<Event>, i: nat)
    requires i <= |events| && !RunLoop(c, events[..i]).outcome.GoesOn?
    ensures RunLoop(c, events) == RunLoop(c, events[..i])
    decreases |events|
  {
    hide Next;
    if i < |events| {
      var init := events[..|events| - 1];
      assert init[..i] == events[..i];
      LoopStays(c, init, i);
    } else {
      assert events[..i] == events;
    }
  }

  /**
    Receives any datagrams until the loop ends or they do. A receiver that returns statistics (ok) has accounted for every
    byte, and reports none missing exactly when it wrote the whole of [0, OutputBytes).
   */
  method Receive(raw: Config, arrivals: seq<Arrival>) returns (receiver: DataReceiver?, ok: bool)
    ensures receiver == null <==> NewReceiver(raw).None?
    ensures receiver != null ==>
              && NewReceiver(raw) == Some(receiver.c)
              && ok == Returned(receiver.c, EventsOf(arrivals)).Some?
              && (ok ==>
                    && Returned(receiver.c, EventsOf(arrivals)) == Some(receiver.Value())
                    && receiver.stats.payloadBytes + receiver.stats.missing == receiver.stats.outputBytes
                    && (receiver.stats.missing == 0 <==>
                        forall x :: x in receiver.output <==> 0 <= x < receiver.stats.outputBytes))
  {
    hide Next, NewReceiver, EventOf, EventsOf;
    var config := NewReceiver(raw);
    if config.None? {
      return null, false;
    }
    var c := config.value;
    receiver := new DataReceiver(c);
    var outcome := GoesOn;
    var i := 0;
    ghost var events := EventsOf(arrivals);
    while i < |arrivals| && outcome.GoesOn?
      invariant 0 <= i <= |arrivals| && fresh(receiver) && receiver.c == c && Canonical(receiver.ranges)
      invariant RunLoop(c, events[..i]) == Result(receiver.Value(), outcome)
    {
      LoopOneMore(c, events, i);
      EventAt(arrivals, i);
      outcome := receiver.Datagram(EventOf(arrivals[i]));
      i := i + 1;
    }
    if outcome.GoesOn? {
      assert events[..i] == events;
      receiver.Close();
    } else {
      LoopStays(c, events, i);
    }
    ok := !outcome.PlainError?;
    if ok {
      ReturnedMeans(raw, c, arrivals);
    }
  }

  lemma EventAt(arrivals: seq<Arrival>, i: nat)
    requires i < |arrivals|
    ensures EventsOf(arrivals)[i] == EventOf(arrivals[i])
  {
  }

  lemma ReturnedMeans(raw: Config, c: Config, arrivals: seq<Arrival>)
    requires NewReceiver(raw) == Some(c) && Returned(c, EventsOf(arrivals)).Some?
    ensures var s := Returned(c, EventsOf(arrivals)).value;
            && s.stats.payloadBytes + s.stats.missing == s.stats.outputBytes
            && (s.stats.missing == 0 <==> forall x :: x in s.output <==> 0 <= x < s.stats.outputBytes)
  {
    hide Returned, Inv, EventsOf;
    AcceptedConfig(raw);
    CompleteIffWhole(c, EventsOf(arrivals));
    FinalAccounting(c, EventsOf(arrivals));
  }
}
