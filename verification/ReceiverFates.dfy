/**
  What becomes of every datagram of a run of the receive loop, told from the datagrams alone, and what the counters of the
  statistics therefore have counted.
 */
module ReceiverFates {
  import opened Bytes
  import opened Common
  import opened Intervals
  import opened Sensors
  import opened Receiver

  datatype Fate =
    | Ignored | Malformed | BeforeBase | BeyondLimit | MeetsWritten | TooScattered | WriteFailed | Taken

  /** The offset of the first data packet. */
  function BaseOf(h: seq<Event>): Option<nat> {
    if h == [] then None
    else if h[0].DataPacket? then Some(h[0].packet.byteOffset)
    else BaseOf(h[1..])
  }

  /** The bytes of the output a packet asks for, once the base is known. */
  function Region(base: nat, p: Packet): set<int> {
    Span(p.byteOffset - base, p.byteOffset - base + |p.payload|)
  }

  ghost predicate Meets(a: set<int>, b: set<int>) {
    exists x :: x in a && x in b
  }

  /** More separate runs of bytes than the loop may track. */
  ghost predicate Scattered(a: set<int>) { |RunStarts(a)| > MAX_TRACKED_RANGES }

  /** The bytes that the accepted packets of a history have put into the output. */
  ghost function Held(c: Config, h: seq<Event>): set<int>
    decreases |h|, 0
  {
    if h == [] then {}
    else
      var init, e := h[..|h| - 1], h[|h| - 1];
      assert h == init + [e];
      if FateOf(c, init, e).Taken? then Held(c, init) + Region(BaseOf(h).value, e.packet) else Held(c, init)
  }

  /** What becomes of a datagram after a history of handled ones. */
  ghost function FateOf(c: Config, h: seq<Event>, e: Event): (f: Fate)
    ensures f.Taken? ==> e.DataPacket? && BaseOf(h + [e]).Some?
    decreases |h|, 1
  {
    match e
    case ForeignPacket => Ignored
    case MalformedPacket => Malformed
    case DataPacket(p, _, writeOk) =>
      BaseOfMore(h, e);
      var base := BaseOf(h + [e]).value;
      if p.byteOffset < base then BeforeBase
      else if p.byteOffset - base + |p.payload| > c.maxOutputBytes then BeyondLimit
      else if Meets(Region(base, p), Held(c, h)) then MeetsWritten
      else if Scattered(Held(c, h) + Region(base, p)) then TooScattered
      else if !writeOk then WriteFailed
      else Taken
  }

  lemma {:induction false} BaseOfMore(h: seq<Event>, e: Event)
    ensures BaseOf(h + [e]) == if BaseOf(h).Some? then BaseOf(h) else if e.DataPacket? then Some(e.packet.byteOffset) else None
    decreases |h|
  {
    if h == [] {
      assert (h + [e])[1..] == [];
    } else {
      assert (h + [e])[1..] == h[1..] + [e];
      BaseOfMore(h[1..], e);
    }
  }

  ghost function FateAt(c: Config, h: seq<Event>, i: nat): Fate
    requires i < |h|
  {
    FateOf(c, h[..i], h[i])
  }

  /** How many datagrams of a history met a fate. */
  ghost function Count(c: Config, h: seq<Event>, f: Fate): nat {
    if h == [] then 0 else Count(c, h[..|h| - 1], f) + if FateAt(c, h, |h| - 1) == f then 1 else 0
  }

  /** How the loop goes on after a fate. */
  function Then(f: Fate): Outcome {
    match f
    case Ignored | Malformed | BeforeBase | Taken => GoesOn
    case MeetsWritten | TooScattered => Finalised
    case BeyondLimit | WriteFailed => PlainError
  }

  ghost function EndOf(c: Config, h: seq<Event>): Outcome {
    if h == [] then GoesOn else Then(FateAt(c, h, |h| - 1))
  }

  /** The datagrams the loop has handled: it takes none after one that ends it. */
  ghost function Handled(c: Config, events: seq<Event>): seq<Event> {
    if events == [] then []
    else
      var h := Handled(c, events[..|events| - 1]);
      if EndOf(c, h).GoesOn? then h + [events[|events| - 1]] else h
  }

  // ---------------------------------------------------------------- the loop agrees

  ghost predicate Agrees(c: Config, s: Loop, h: seq<Event>) {
    && s.base == BaseOf(h) && s.output.Keys == Held(c, h)
    && s.stats.ignored == Count(c, h, Ignored) && s.stats.malformed == Count(c, h, Malformed)
    && s.stats.discarded == Count(c, h, BeforeBase) && s.stats.overlapping == Count(c, h, MeetsWritten)
    && s.stats.packets == Count(c, h, Taken)
  }

  lemma CountMore(c: Config, h: seq<Event>, e: Event)
    ensures forall f :: Count(c, h + [e], f) == Count(c, h, f) + if FateOf(c, h, e) == f then 1 else 0
    ensures FateAt(c, h + [e], |h|) == FateOf(c, h, e) && EndOf(c, h + [e]) == Then(FateOf(c, h, e))
  {
    hide FateOf;
    assert (h + [e])[..|h|] == h;
  }

  lemma HeldMore(c: Config, h: seq<Event>, e: Event)
    ensures Held(c, h + [e]) ==
            if FateOf(c, h, e).Taken? then Held(c, h) + Region(BaseOf(h + [e]).value, e.packet) else Held(c, h)
  {
    hide FateOf, Region;
    assert (h + [e])[..|h|] == h;
  }

  /** Only the counters an accepted packet has to move are moved. */
  lemma RecordedCounters(c: Config, s: Loop, p: Packet, at: int, start: int)
    ensures var r := Recorded(c, s, p, at, start);
            && r.stats.packets == s.stats.packets + 1 && r.stats.ignored == s.stats.ignored
            && r.stats.malformed == s.stats.malformed && r.stats.discarded == s.stats.discarded
            && r.stats.overlapping == s.stats.overlapping && r.base == s.base
            && r.output == Written(s.output, start, p.payload)
  {
    hide Insert, Written, ImpliedStart, FrameOf;
  }

  lemma WrittenRegion(output: map<int, byte>, start: int, payload: seq<byte>)
    ensures Written(output, start, payload).Keys == output.Keys + Span(start, start + |payload|)
  {
  }

  lemma RangesAreOutput(s: Loop)
    requires RangesTell(s)
    ensures CoveredSet(s.ranges) == s.output.Keys && Canonical(s.ranges)
  {
    hide Total, Within;
    TotalIsSize(s.ranges);
    forall x
      ensures x in CoveredSet(s.ranges) <==> x in s.output.Keys
    {
      assert x in CoveredSet(s.ranges) <==> Covers(s.ranges, x);
      assert x in s.output <==> Covers(s.ranges, x);
    }
    hide CoveredSet, Covers, Canonical;
  }

  /** What the loop does with a packet, in terms of the output it has. */
  lemma PacketOutcome(c: Config, s: Loop, p: Packet, at: int, writeOk: bool)
    requires ConfigOk(c) && RangesTell(s) && PacketOk(p)
    ensures var base := if s.base.Some? then s.base.value else p.byteOffset; var r := OnPacket(c, s, p, at, writeOk);
            var u := s.(base := Some(base)); var held := s.output.Keys;
            if p.byteOffset < base then
              r == Result(u.(stats := u.stats.(outOfOrder := u.stats.outOfOrder + 1, discarded := u.stats.discarded + 1)), GoesOn)
            else if p.byteOffset - base + |p.payload| > c.maxOutputBytes then r == Result(u, PlainError)
            else if Meets(Region(base, p), held) then
              r == Result(Finalise(u.(stats := u.stats.(overlapping := u.stats.overlapping + 1))), Finalised)
            else if Scattered(held + Region(base, p)) then r == Result(Finalise(u), Finalised)
            else if !writeOk then r == Result(u, PlainError)
            else r == Result(Recorded(c, u, p, at, p.byteOffset - base), GoesOn)
  {
    hide RangesTell, Recorded, Finalise, Insert, Overlaps, Meets, Scattered;
    var base := if s.base.Some? then s.base.value else p.byteOffset;
    RangesDecide(s, base, p);
  }

  lemma RangesDecide(s: Loop, base: nat, p: Packet)
    requires RangesTell(s) && PacketOk(p)
    ensures var a := Range(p.byteOffset - base, p.byteOffset - base + |p.payload|);
            && (Overlaps(s.ranges, a) <==> Meets(Region(base, p), s.output.Keys))
            && (|Insert(s.ranges, a)| > MAX_TRACKED_RANGES <==> Scattered(s.output.Keys + Region(base, p)))
  {
    RangesAreOutput(s);
    hide RangesTell, Canonical, CoveredSet, RunStarts, Insert, Overlaps;
    var a := Range(p.byteOffset - base, p.byteOffset - base + |p.payload|);
    InsertRuns(s.ranges, a);
    assert CoveredSet(s.ranges) == s.output.Keys && Span(a.start, a.end) == Region(base, p);
    assert Meets(Region(base, p), s.output.Keys) <==> exists x :: x in Span(a.start, a.end) && x in CoveredSet(s.ranges);
  }

  lemma PacketFate(c: Config, s: Loop, h: seq<Event>, p: Packet, at: int, writeOk: bool)
    requires ConfigOk(c) && RangesTell(s) && Agrees(c, s, h) && PacketOk(p)
    ensures var e := DataPacket(p, at, writeOk); var r := OnPacket(c, s, p, at, writeOk);
            r.outcome == Then(FateOf(c, h, e)) && Agrees(c, r.loop, h + [e])
  {
    var e := DataPacket(p, at, writeOk);
    hide RangesTell, Written, Recorded, Meets, Scattered, Missing, Count, Held, BaseOf, OnPacket;
    BaseOfMore(h, e);
    PacketOutcome(c, s, p, at, writeOk);
    CountMore(c, h, e);
    HeldMore(c, h, e);
    var base := if s.base.Some? then s.base.value else p.byteOffset;
    RecordedCounters(c, s.(base := Some(base)), p, at, p.byteOffset - base);
    WrittenRegion(s.output, p.byteOffset - base, p.payload);
  }

  lemma EventFate(c: Config, s: Loop, h: seq<Event>, e: Event)
    requires ConfigOk(c) && RangesTell(s) && Agrees(c, s, h) && (e.DataPacket? ==> PacketOk(e.packet))
    ensures var r := Next(c, s, e); r.outcome == Then(FateOf(c, h, e)) && Agrees(c, r.loop, h + [e])
  {
    hide OnPacket, RangesTell, Count, Held, BaseOf;
    match e
    case DataPacket(p, at, writeOk) => PacketFate(c, s, h, p, at, writeOk);
    case _ =>
      CountMore(c, h, e);
      HeldMore(c, h, e);
      BaseOfMore(h, e);
  }

  /**
    Every run of the loop, whatever arrives: it ends as the fate of the last handled datagram says, and its base, its output and
    its counters are those that the handled datagrams define.
   */
  lemma {:induction false} LoopCounts(c: Config, events: seq<Event>)
    requires ConfigOk(c) && EventsOk(events)
    ensures var r := RunLoop(c, events); var h := Handled(c, events);
            r.outcome == EndOf(c, h) && Agrees(c, r.loop, h)
    decreases |events|
  {
    hide Next, FateOf, Count, Held, BaseOf, RangesTell, Agrees;
    if events == [] {
      StartAgrees(c);
    } else {
      var init, e := events[..|events| - 1], events[|events| - 1];
      LoopCounts(c, init);
      LoopTells(c, init);
      var s, h := RunLoop(c, init).loop, Handled(c, init);
      if EndOf(c, h).GoesOn? {
        EventFate(c, s, h, e);
        CountMore(c, h, e);
      }
    }
  }

  lemma StartAgrees(c: Config)
    ensures Agrees(c, Start, [])
  {
  }

  // ---------------------------------------------------------------- what an accepted result has seen

  lemma LeftCounts(c: Config, events: seq<Event>)
    requires ConfigOk(c) && EventsOk(events)
    ensures Agrees(c, Left(c, events), Handled(c, events))
    ensures Returned(c, events).Some? <==> !EndOf(c, Handled(c, events)).PlainError?
  {
    hide RunLoop, FateOf, Count, Held, BaseOf, Missing, Handled;
    LoopCounts(c, events);
  }

  lemma {:induction false} CountZero(c: Config, h: seq<Event>, f: Fate)
    ensures Count(c, h, f) == 0 <==> forall i | 0 <= i < |h| :: FateAt(c, h, i) != f
    decreases |h|
  {
    hide FateOf;
    if h != [] {
      var init := h[..|h| - 1];
      CountZero(c, init, f);
      forall i | 0 <= i < |init|
        ensures FateAt(c, init, i) == FateAt(c, h, i)
      {
        assert init[..i] == h[..i];
      }
    }
  }

  ghost predicate GoesOnAt(c: Config, h: seq<Event>, i: nat)
    requires i < |h|
  {
    Then(FateAt(c, h, i)).GoesOn?
  }

  /** Only the last datagram may end the run. */
  ghost predicate OnlyLastStops(c: Config, h: seq<Event>) {
    forall i | 0 <= i < |h| - 1 :: GoesOnAt(c, h, i)
  }

  lemma {:induction false} OnlyLastEnds(c: Config, events: seq<Event>)
    ensures OnlyLastStops(c, Handled(c, events))
    decreases |events|
  {
    hide FateOf;
    if events != [] {
      var h, e := Handled(c, events[..|events| - 1]), events[|events| - 1];
      OnlyLastEnds(c, events[..|events| - 1]);
      if EndOf(c, h).GoesOn? {
        var more := h + [e];
        forall i | 0 <= i < |more| - 1
          ensures GoesOnAt(c, more, i)
        {
          assert more[..i] == h[..i] && more[i] == h[i];
          assert i < |h| - 1 ==> GoesOnAt(c, h, i);
        }
      }
    }
  }

  /**
    Exactly what the counters that validateResult reads say: none is set if and only if no handled datagram of the device was
    malformed, lay before the first one, or met bytes already written.
   */
  lemma CountersTell(c: Config, events: seq<Event>)
    requires ConfigOk(c) && EventsOk(events)
    ensures var st := Left(c, events).stats; var h := Handled(c, events);
            st.discarded == 0 && st.malformed == 0 && st.overlapping == 0 <==>
            forall i | 0 <= i < |h| :: !FateAt(c, h, i).BeforeBase? && !FateAt(c, h, i).Malformed? && !FateAt(c, h, i).MeetsWritten?
  {
    hide FateOf, Count, Handled, Left;
    LeftCounts(c, events);
    var h := Handled(c, events);
    CountZero(c, h, BeforeBase);
    CountZero(c, h, Malformed);
    CountZero(c, h, MeetsWritten);
  }

  predicate HoldsAt(output: map<int, byte>, base: nat, p: Packet, x: nat)
    requires x < |p.payload|
  {
    var o := p.byteOffset - base + x;
    o in output && output[o] == p.payload[x]
  }

  /** The output holds the payload of an accepted packet at its place. */
  predicate Holds(output: map<int, byte>, base: nat, p: Packet) {
    forall x | 0 <= x < |p.payload| :: HoldsAt(output, base, p, x)
  }

  lemma HoldsNew(output: map<int, byte>, base: nat, p: Packet)
    ensures Holds(Written(output, p.byteOffset - base, p.payload), base, p)
  {
  }

  lemma HoldsStill(output: map<int, byte>, base: nat, p: Packet, start: int, payload: seq<byte>)
    requires Holds(output, base, p) && forall x :: x in Span(start, start + |payload|) ==> x !in output
    ensures Holds(Written(output, start, payload), base, p)
  {
    var region, written := Span(start, start + |payload|), Written(output, start, payload);
    forall x | 0 <= x < |p.payload|
      ensures HoldsAt(written, base, p, x)
    {
      assert HoldsAt(output, base, p, x);
    }
  }

  lemma EventOutput(c: Config, s: Loop, h: seq<Event>, e: Event)
    requires ConfigOk(c) && RangesTell(s) && Agrees(c, s, h) && (e.DataPacket? ==> PacketOk(e.packet))
    ensures FateOf(c, h, e).Taken? ==>
              var base := BaseOf(h + [e]).value;
              && Next(c, s, e).loop.output == Written(s.output, e.packet.byteOffset - base, e.packet.payload)
              && forall x :: x in Region(base, e.packet) ==> x !in s.output
    ensures !FateOf(c, h, e).Taken? ==> Next(c, s, e).loop.output == s.output
  {
    BaseOfMore(h, e);
    EventFate(c, s, h, e);
    hide RangesTell, Count, Held, BaseOf, Insert, Overlaps, Written, Recorded, Meets, Scattered, Missing, Agrees;
    if e.DataPacket? {
      AcceptedOutput(c, s, h, e);
    }
  }

  lemma AcceptedOutput(c: Config, s: Loop, h: seq<Event>, e: Event)
    requires e.DataPacket? && s.base == BaseOf(h) && s.output.Keys == Held(c, h)
    requires BaseOf(h + [e]) == if BaseOf(h).Some? then BaseOf(h) else Some(e.packet.byteOffset)
    requires Next(c, s, e).outcome == Then(FateOf(c, h, e))
    ensures FateOf(c, h, e).Taken? ==>
              var base := BaseOf(h + [e]).value;
              && Next(c, s, e).loop.output == Written(s.output, e.packet.byteOffset - base, e.packet.payload)
              && forall x :: x in Region(base, e.packet) ==> x !in s.output
    ensures !FateOf(c, h, e).Taken? ==> Next(c, s, e).loop.output == s.output
  {
    hide Count, Held, BaseOf, Insert, Overlaps, Written, Missing, WithCadence, WithSequence;
    var base := if s.base.Some? then s.base.value else e.packet.byteOffset;
    hide Recorded;
    RecordedCounters(c, s.(base := Some(base)), e.packet, e.at, e.packet.byteOffset - base);
  }

  /** Every accepted packet is in the output, byte for byte, at its distance from the first one. */
  lemma {:induction false} AcceptedAreHeld(c: Config, events: seq<Event>, i: nat)
    requires ConfigOk(c) && EventsOk(events) && i < |Handled(c, events)|
    requires FateAt(c, Handled(c, events), i).Taken?
    ensures var h := Handled(c, events);
            && BaseOf(h).Some? && h[i].DataPacket? && Holds(RunLoop(c, events).loop.output, BaseOf(h).value, h[i].packet)
    decreases |events|
  {
    hide Next, FateOf, Count, Held, BaseOf, RangesTell, Agrees, Written, Holds;
    var init, e := events[..|events| - 1], events[|events| - 1];
    LoopCounts(c, init);
    LoopCounts(c, events);
    LoopTells(c, init);
    var s, h := RunLoop(c, init).loop, Handled(c, init);
    if EndOf(c, h).GoesOn? {
      var more := h + [e];
      EventOutput(c, s, h, e);
      CountMore(c, h, e);
      BaseOfMore(h, e);
      if i < |h| {
        assert more[..i] == h[..i] && more[i] == h[i];
        AcceptedAreHeld(c, init, i);
        if FateOf(c, h, e).Taken? {
          var start := e.packet.byteOffset - BaseOf(more).value;
          HoldsStill(s.output, BaseOf(h).value, h[i].packet, start, e.packet.payload);
        }
      } else {
        HoldsNew(s.output, BaseOf(more).value, e.packet);
      }
    } else {
      AcceptedAreHeld(c, init, i);
    }
  }

  /**
    What a result that the session accepts has lost: nothing. Every handled datagram from the device was a packet that is in the
    output at its place, except one that may have ended the run: by too many separate ranges if the statistics were finalised,
    by the output limit or a failed write if they were not.
   */
  lemma ValidLosesNothing(p: Plan, c: Config, events: seq<Event>, startIssuedAt: Option<int>, durationOk: bool, i: nat)
    requires ConfigOk(c) && EventsOk(events) && i < |Handled(c, events)|
    requires ValidResult(p, Left(c, events).stats, startIssuedAt, durationOk)
    ensures var h := Handled(c, events); var f := FateAt(c, h, i);
            && (h[i].ForeignPacket? || (h[i].DataPacket? && BaseOf(h).Some? && BaseOf(h).value <= h[i].packet.byteOffset))
            && (h[i].DataPacket? ==>
                  || Holds(Left(c, events).output, BaseOf(h).value, h[i].packet)
                  || (i == |h| - 1 && (if Returned(c, events).Some? then f.TooScattered? else f.BeyondLimit? || f.WriteFailed?)))
  {
    hide FateOf, Count, Handled, Left, Held, Holds, BaseOf, CheckTiming, Agrees;
    var h := Handled(c, events);
    CountersTell(c, events);
    LeftCounts(c, events);
    OnlyLastEnds(c, events);
    assert i < |h| - 1 ==> GoesOnAt(c, h, i);
    LeftTells(c, events);
    FateKinds(c, h, i);
    if FateAt(c, h, i).Taken? {
      AcceptedAreHeld(c, events, i);
    }
  }

  /**
    Exactly when the session accepts a finalised result: some packet was taken, none of the device's datagrams was malformed, early
    or overlapping, the output is the whole of [0, OutputBytes) and as long as planned, or a positive whole number of frames, and
    timing and duration pass their checks.
   */
  lemma ValidIff(p: Plan, c: Config, events: seq<Event>, startIssuedAt: Option<int>, durationOk: bool)
    requires PlanOk(p) && ConfigOk(c) && EventsOk(events) && Returned(c, events).Some?
    ensures var s := Returned(c, events).value; var h := Handled(c, events);
            ValidResult(p, s.stats, startIssuedAt, durationOk) <==>
            && (exists i :: 0 <= i < |h| && FateAt(c, h, i).Taken?)
            && (forall i | 0 <= i < |h| :: !FateAt(c, h, i).BeforeBase? && !FateAt(c, h, i).Malformed? && !FateAt(c, h, i).MeetsWritten?)
            && Whole(s)
            && (if p.infinite then s.stats.outputBytes > 0 && s.stats.outputBytes % p.bytesPerFrame == 0
                else s.stats.outputBytes == p.expectedBytes)
            && CheckTiming(p, s.stats, startIssuedAt).TimingOk? && durationOk
  {
    hide FateOf, Count, Handled, Returned, CheckTiming, RunLoop, Agrees;
    LeftIsReturned(c, events);
    CountersTell(c, events);
    LeftPackets(c, events);
    CountZero(c, Handled(c, events), Taken);
    CompleteIffWhole(c, events);
  }

  lemma LeftIsReturned(c: Config, events: seq<Event>)
    requires Returned(c, events).Some?
    ensures Left(c, events) == Returned(c, events).value
  {
    hide Returned;
  }

  lemma LeftPackets(c: Config, events: seq<Event>)
    requires ConfigOk(c) && EventsOk(events)
    ensures Left(c, events).stats.packets == Count(c, Handled(c, events), Taken)
  {
    hide FateOf, Count, Handled, Left, Held, BaseOf;
    LeftCounts(c, events);
  }

  /** Which datagrams can meet which fate. */
  lemma FateKinds(c: Config, h: seq<Event>, i: nat)
    requires i < |h|
    ensures h[i].ForeignPacket? <==> FateAt(c, h, i).Ignored?
    ensures h[i].MalformedPacket? <==> FateAt(c, h, i).Malformed?
    ensures h[i].DataPacket? ==> BaseOf(h).Some? && (h[i].packet.byteOffset < BaseOf(h).value <==> FateAt(c, h, i).BeforeBase?)
  {
    hide Held, Meets, Scattered, BaseOf, Region;
    if h[i].DataPacket? {
      BaseOfMore(h[..i], h[i]);
      assert h[..i + 1] == h[..i] + [h[i]];
      BaseOfPrefix(h, i + 1);
    }
  }

  lemma {:induction false} BaseOfPrefix(h: seq<Event>, n: nat)
    requires n <= |h| && BaseOf(h[..n]).Some?
    ensures BaseOf(h) == BaseOf(h[..n])
    decreases |h|
  {
    if n < |h| {
      var init := h[..|h| - 1];
      assert init[..n] == h[..n] && h == init + [h[|h| - 1]];
      BaseOfPrefix(init, n);
      BaseOfMore(init, h[|h| - 1]);
    } else {
      assert h[..n] == h;
    }
  }
}
