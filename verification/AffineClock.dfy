/** Piecewise rational clock maps of one source (internal/multisensor/model.go). Exact rationals are reals. */
module AffineClock {
  import opened Common
  import opened Sensors
  import opened SensorIndex

  datatype Observation = Observation(tick: u64, wrapCount: u64, hostBefore: u64, hostAfter: u64)

  datatype Segment = Segment(
    start: u64, end: u64, origin: u64, hostOrigin: u64, scaleNum: u64, scaleDen: u64, observationIds: seq<string>,
    uncertainty: u64)

  /** mappedHostTime. */
  function Mapped(s: Segment, tick: int): real
    requires s.scaleDen > 0
  {
    ((tick - s.origin) * s.scaleNum) as real / s.scaleDen as real + s.hostOrigin as real
  }

  /** observationIntervalCovered. */
  predicate ObservationCovered(s: Segment, o: Observation, tick: int)
    requires s.scaleDen > 0
  {
    var nominal := Mapped(s, tick);
    nominal - s.uncertainty as real <= o.hostBefore as real && nominal + s.uncertainty as real >= o.hostAfter as real
  }

  predicate Supports(clock: Clock, s: Segment, observations: map<string, Observation>, id: string)
    requires s.scaleDen > 0
  {
    && id in observations
    && var tick := UnwrapTicks(clock, observations[id].tick, observations[id].wrapCount);
    && tick.Some? && s.start <= tick.value < s.end && ObservationCovered(s, observations[id], tick.value)
  }

  predicate Distinct(ids: seq<string>) {
    forall i, j | 0 <= i < j < |ids| :: ids[i] != ids[j]
  }

  /** validateMappedRange: the whole segment, with its uncertainty, stays inside the 64-bit nanosecond range. */
  predicate RangeOk(s: Segment)
    requires s.scaleDen > 0
  {
    && Mapped(s, s.start) - s.uncertainty as real >= 0.0
    && Mapped(s, s.end) + s.uncertainty as real <= MAX_UINT64 as real
  }

  predicate SegmentOk(clock: Clock, s: Segment, observations: map<string, Observation>) {
    && s.start < s.end && s.start <= s.origin < s.end && s.scaleNum > 0 && s.scaleDen > 0
    && s.observationIds != [] && Distinct(s.observationIds)
    && (forall i | 0 <= i < |s.observationIds| :: Supports(clock, s, observations, s.observationIds[i]))
    && RangeOk(s)
  }

  predicate Follows(a: Segment, b: Segment)
    requires a.scaleDen > 0 && b.scaleDen > 0
  {
    a.end <= b.start && Mapped(a, a.end) <= Mapped(b, b.start)
  }

  predicate SegmentsOk(clock: Clock, segments: seq<Segment>, observations: map<string, Observation>) {
    && (forall i | 0 <= i < |segments| :: SegmentOk(clock, segments[i], observations))
    && (forall i | 0 < i < |segments| :: Follows(segments[i - 1], segments[i]))
  }

  predicate CoversTick(s: Segment, tick: int) { s.start <= tick < s.end }

  /** segmentCoverage. */
  function Coverage(segments: seq<Segment>, tick: int): nat {
    if segments == [] then 0
    else Coverage(segments[..|segments| - 1], tick) + if CoversTick(segments[|segments| - 1], tick) then 1 else 0
  }

  // ---------------------------------------------------------------- the map

  lemma QuotientTimes(a: int, d: int)
    requires d > 0
    ensures (a as real / d as real) * d as real == a as real
  {
  }

  lemma RealProduct(a: int, b: int)
    ensures (a * b) as real == a as real * b as real
  {
  }

  /** The origin maps to the host origin, and a difference of ticks to that many times the scale. */
  lemma MapIsAffine(s: Segment, a: int, b: int)
    requires s.scaleDen > 0
    ensures Mapped(s, s.origin) == s.hostOrigin as real
    ensures (Mapped(s, b) - Mapped(s, a)) * s.scaleDen as real == ((b - a) * s.scaleNum) as real
  {
    QuotientTimes((a - s.origin) * s.scaleNum, s.scaleDen);
    QuotientTimes((b - s.origin) * s.scaleNum, s.scaleDen);
    assert (b - s.origin) * s.scaleNum - (a - s.origin) * s.scaleNum == (b - a) * s.scaleNum;
  }

  lemma ScaledOrder(x: real, n: int, d: int)
    requires d > 0
    ensures x <= n as real <==> x * d as real <= (n * d) as real
    ensures x >= n as real <==> x * d as real >= (n * d) as real
  {
    RealProduct(n, d);
    var e := d as real;
    if x <= n as real {
      assert (n as real - x) * e >= 0.0;
    }
    if x >= n as real {
      assert (x - n as real) * e >= 0.0;
    }
    if x < n as real {
      assert (n as real - x) * e > 0.0;
    }
    if x > n as real {
      assert (x - n as real) * e > 0.0;
    }
  }

  /** A mapped time against an integer time, without a quotient. */
  lemma MappedOrder(s: Segment, tick: int, n: int)
    requires s.scaleDen > 0
    ensures Mapped(s, tick) <= n as real <==> (tick - s.origin) * s.scaleNum <= (n - s.hostOrigin) * s.scaleDen
    ensures Mapped(s, tick) >= n as real <==> (tick - s.origin) * s.scaleNum >= (n - s.hostOrigin) * s.scaleDen
  {
    var x := ((tick - s.origin) * s.scaleNum) as real / s.scaleDen as real;
    QuotientTimes((tick - s.origin) * s.scaleNum, s.scaleDen);
    ScaledOrder(x, n - s.hostOrigin, s.scaleDen);
  }

  /** What an accepted segment says of each observation that supports it, and of its ends, in whole numbers. */
  lemma SegmentSupported(clock: Clock, s: Segment, observations: map<string, Observation>, i: nat)
    requires SegmentOk(clock, s, observations) && i < |s.observationIds|
    ensures var id := s.observationIds[i];
            && id in observations
            && var o := observations[id]; var tick := UnwrapTicks(clock, o.tick, o.wrapCount);
            && tick.Some? && s.start <= tick.value < s.end
            && (tick.value - s.origin) * s.scaleNum <= (o.hostBefore + s.uncertainty - s.hostOrigin) * s.scaleDen
            && (tick.value - s.origin) * s.scaleNum >= (o.hostAfter - s.uncertainty - s.hostOrigin) * s.scaleDen
    ensures (s.start - s.origin) * s.scaleNum >= (s.uncertainty - s.hostOrigin) * s.scaleDen
    ensures (s.end - s.origin) * s.scaleNum <= (MAX_UINT64 - s.uncertainty - s.hostOrigin) * s.scaleDen
  {
    hide Mapped, UnwrapTicks;
    var id := s.observationIds[i];
    assert Supports(clock, s, observations, id);
    var o := observations[id];
    var tick := UnwrapTicks(clock, o.tick, o.wrapCount).value;
    MappedOrder(s, tick, o.hostBefore + s.uncertainty);
    MappedOrder(s, tick, o.hostAfter - s.uncertainty);
    MappedOrder(s, s.start, s.uncertainty);
    MappedOrder(s, s.end, MAX_UINT64 - s.uncertainty);
  }

  /** The coverage test of an observation is exactly that comparison. */
  lemma CoveredIff(s: Segment, o: Observation, tick: int)
    requires s.scaleDen > 0
    ensures ObservationCovered(s, o, tick) <==>
            && (tick - s.origin) * s.scaleNum <= (o.hostBefore + s.uncertainty - s.hostOrigin) * s.scaleDen
            && (tick - s.origin) * s.scaleNum >= (o.hostAfter - s.uncertainty - s.hostOrigin) * s.scaleDen
  {
    hide Mapped;
    MappedOrder(s, tick, o.hostBefore + s.uncertainty);
    MappedOrder(s, tick, o.hostAfter - s.uncertainty);
  }

  lemma Scaled(a: int, b: int, num: int, den: int)
    requires a <= b && num > 0 && den > 0
    ensures (a * num) as real / den as real <= (b * num) as real / den as real
  {
    assert a * num <= b * num;
    Divided((a * num) as real, (b * num) as real, den as real);
  }

  lemma Divided(x: real, y: real, d: real)
    requires x <= y && d > 0.0
    ensures x / d <= y / d
  {
  }

  lemma MappedMonotone(s: Segment, t: int, u: int)
    requires s.scaleNum > 0 && s.scaleDen > 0 && t <= u
    ensures Mapped(s, t) <= Mapped(s, u)
  {
    Scaled(t - s.origin, u - s.origin, s.scaleNum, s.scaleDen);
  }

  lemma {:induction false} Ordered(clock: Clock, segments: seq<Segment>, observations: map<string, Observation>, i: nat, j: nat)
    requires SegmentsOk(clock, segments, observations) && i < j < |segments|
    ensures segments[i].end <= segments[j].start && Mapped(segments[i], segments[i].end) <= Mapped(segments[j], segments[j].start)
    decreases j
  {
    hide Mapped, RangeOk, Supports, Distinct;
    assert SegmentOk(clock, segments[j - 1], observations) && Follows(segments[j - 1], segments[j]);
    assert SegmentOk(clock, segments[i], observations) && SegmentOk(clock, segments[j], observations);
    if i < j - 1 {
      Ordered(clock, segments, observations, i, j - 1);
      MappedMonotone(segments[j - 1], segments[j - 1].start, segments[j - 1].end);
    }
  }

  /** At most one validated segment covers any tick: the map is single-valued. */
  lemma SingleValued(clock: Clock, segments: seq<Segment>, observations: map<string, Observation>, i: nat, j: nat, tick: int)
    requires SegmentsOk(clock, segments, observations) && i < |segments| && j < |segments|
    requires CoversTick(segments[i], tick) && CoversTick(segments[j], tick)
    ensures i == j
  {
    hide SegmentOk, Follows, Mapped, SegmentsOk;
    if i < j {
      Ordered(clock, segments, observations, i, j);
    } else if j < i {
      Ordered(clock, segments, observations, j, i);
    }
  }

  /** segmentCoverage is one exactly when some segment covers the tick, so the code's test is a membership test. */
  lemma {:induction false} CoverageIsMembership(clock: Clock, segments: seq<Segment>, observations: map<string, Observation>, tick: int)
    requires SegmentsOk(clock, segments, observations)
    ensures Coverage(segments, tick) <= 1
    ensures Coverage(segments, tick) == 1 <==> exists i :: 0 <= i < |segments| && CoversTick(segments[i], tick)
    decreases |segments|
  {
    hide SegmentOk, Follows, Mapped;
    if segments != [] {
      var n := |segments| - 1;
      var init := segments[..n];
      assert SegmentsOk(clock, init, observations);
      CoverageIsMembership(clock, init, observations, tick);
      if CoversTick(segments[n], tick) {
        if i :| 0 <= i < n && CoversTick(init[i], tick) {
          SingleValued(clock, segments, observations, i, n, tick);
          assert false;
        }
      } else if i :| 0 <= i < |segments| && CoversTick(segments[i], tick) {
        assert CoversTick(init[i], tick);
      }
    }
  }

  /** Globally nondecreasing over any number of segments. */
  lemma MapMonotone(clock: Clock, segments: seq<Segment>, observations: map<string, Observation>, i: nat, t: int, j: nat, u: int)
    requires SegmentsOk(clock, segments, observations) && i < |segments| && j < |segments|
    requires CoversTick(segments[i], t) && CoversTick(segments[j], u) && t <= u
    ensures Mapped(segments[i], t) <= Mapped(segments[j], u)
  {
    hide Mapped, RangeOk, Supports, Distinct, Follows;
    assert SegmentOk(clock, segments[i], observations) && SegmentOk(clock, segments[j], observations);
    if i == j {
      MappedMonotone(segments[i], t, u);
    } else {
      if i < j {
        Ordered(clock, segments, observations, i, j);
      } else {
        Ordered(clock, segments, observations, j, i);
      }
      MappedMonotone(segments[i], t, segments[i].end);
      MappedMonotone(segments[j], segments[j].start, u);
    }
  }

  /** Every mapped time, with the segment's uncertainty on either side, is a 64-bit nanosecond count. */
  lemma MappedInRange(clock: Clock, segments: seq<Segment>, observations: map<string, Observation>, i: nat, t: int)
    requires SegmentsOk(clock, segments, observations) && i < |segments| && CoversTick(segments[i], t)
    ensures segments[i].scaleDen > 0
    ensures 0.0 <= Mapped(segments[i], t) - segments[i].uncertainty as real
    ensures Mapped(segments[i], t) + segments[i].uncertainty as real <= MAX_UINT64 as real
  {
    hide Mapped, Supports, Distinct, Follows;
    assert SegmentOk(clock, segments[i], observations);
    MappedMonotone(segments[i], segments[i].start, t);
    MappedMonotone(segments[i], t, segments[i].end);
  }

  // ---------------------------------------------------------------- index entries on the host clock

  /** The clock checks of validateSourceIndex on consecutive entries. */
  predicate TicksOk(clock: Clock, segments: seq<Segment>, entries: seq<Entry>) {
    && (forall i | 0 <= i < |entries| ::
          var tick := UnwrapTicks(clock, entries[i].tick, entries[i].wrapCount);
          tick.Some? && tick.value + entries[i].durationTicks <= MAX_UINT64 && Coverage(segments, tick.value) == 1)
    && (forall i | 0 < i < |entries| ::
          UnwrapTicks(clock, entries[i - 1].tick, entries[i - 1].wrapCount).value
          <= UnwrapTicks(clock, entries[i].tick, entries[i].wrapCount).value)
  }

  lemma {:induction false} TicksOrdered(clock: Clock, segments: seq<Segment>, entries: seq<Entry>, i: nat, j: nat)
    requires TicksOk(clock, segments, entries) && i <= j < |entries|
    ensures UnwrapTicks(clock, entries[i].tick, entries[i].wrapCount).value
            <= UnwrapTicks(clock, entries[j].tick, entries[j].wrapCount).value
    decreases j
  {
    hide UnwrapTicks, Coverage;
    if i < j {
      TicksOrdered(clock, segments, entries, i, j - 1);
    }
  }

  /** Entries of an accepted index have nondecreasing host times, each given by exactly one segment. */
  lemma HostTimesOrdered(clock: Clock, segments: seq<Segment>, observations: map<string, Observation>, entries: seq<Entry>, i: nat, j: nat)
    returns (p: nat, q: nat)
    requires SegmentsOk(clock, segments, observations) && TicksOk(clock, segments, entries) && i <= j < |entries|
    ensures p < |segments| && q < |segments| && segments[p].scaleDen > 0 && segments[q].scaleDen > 0
    ensures var t, u := UnwrapTicks(clock, entries[i].tick, entries[i].wrapCount).value,
                        UnwrapTicks(clock, entries[j].tick, entries[j].wrapCount).value;
            CoversTick(segments[p], t) && CoversTick(segments[q], u) && Mapped(segments[p], t) <= Mapped(segments[q], u)
  {
    hide UnwrapTicks, Coverage, SegmentsOk, Mapped, SegmentOk;
    var t, u := UnwrapTicks(clock, entries[i].tick, entries[i].wrapCount).value, UnwrapTicks(clock, entries[j].tick, entries[j].wrapCount).value;
    TicksOrdered(clock, segments, entries, i, j);
    CoverageIsMembership(clock, segments, observations, t);
    CoverageIsMembership(clock, segments, observations, u);
    p :| 0 <= p < |segments| && CoversTick(segments[p], t);
    q :| 0 <= q < |segments| && CoversTick(segments[q], u);
    MappedInRange(clock, segments, observations, p, t);
    MappedInRange(clock, segments, observations, q, u);
    MapMonotone(clock, segments, observations, p, t, q, u);
  }

  // ---------------------------------------------------------------- the loops

  method SegmentCoverage(segments: seq<Segment>, tick: int) returns (coverage: nat)
    ensures coverage == Coverage(segments, tick)
  {
    coverage := 0;
    for i := 0 to |segments|
      invariant coverage == Coverage(segments[..i], tick)
    {
      assert segments[..i + 1][..i] == segments[..i];
      if tick >= segments[i].start && tick < segments[i].end {
        coverage := coverage + 1;
      }
    }
    assert segments[..|segments|] == segments;
  }

  /** The observation loop of one segment. */
  method CheckObservations(clock: Clock, s: Segment, observations: map<string, Observation>) returns (ok: bool)
    requires s.scaleDen > 0
    ensures ok == (Distinct(s.observationIds) &&
                   forall i | 0 <= i < |s.observationIds| :: Supports(clock, s, observations, s.observationIds[i]))
  {
    hide Supports;
    var seen: set<string> := {};
    for i := 0 to |s.observationIds|
      invariant forall id :: id in seen <==> id in s.observationIds[..i]
      invariant Distinct(s.observationIds[..i])
      invariant forall k | 0 <= k < i :: Supports(clock, s, observations, s.observationIds[k])
    {
      var id := s.observationIds[i];
      if id in seen {
        var k :| 0 <= k < i && s.observationIds[..i][k] == id;
        assert s.observationIds[k] == s.observationIds[i];
        return false;
      }
      if !Supports(clock, s, observations, id) {
        return false;
      }
      assert s.observationIds[..i + 1] == s.observationIds[..i] + [id];
      seen := seen + {id};
    }
    assert s.observationIds[..|s.observationIds|] == s.observationIds;
    return true;
  }

  /** validateAffineSegments: one pass with the previous segment. */
  method ValidateSegments(clock: Clock, segments: seq<Segment>, observations: map<string, Observation>) returns (ok: bool)
    ensures ok == SegmentsOk(clock, segments, observations)
  {
    hide Supports, Mapped, RangeOk, Distinct;
    for i := 0 to |segments|
      invariant forall k | 0 <= k < i :: SegmentOk(clock, segments[k], observations)
      invariant forall k | 0 < k < i :: Follows(segments[k - 1], segments[k])
    {
      var s := segments[i];
      if s.start >= s.end || s.origin < s.start || s.origin >= s.end || s.scaleNum == 0 || s.scaleDen == 0 || s.observationIds == [] {
        assert !SegmentOk(clock, segments[i], observations);
        return false;
      }
      var supported := CheckObservations(clock, s, observations);
      if !supported || !RangeOk(s) {
        assert !SegmentOk(clock, segments[i], observations);
        return false;
      }
      assert SegmentOk(clock, segments[i], observations);
      if i > 0 && !(segments[i - 1].end <= s.start && Mapped(segments[i - 1], segments[i - 1].end) <= Mapped(s, s.start)) {
        assert !Follows(segments[i - 1], segments[i]);
        return false;
      }
    }
    return true;
  }

  /** The entry loop of validateSourceIndex, with the previous tick. */
  method ValidateTicks(clock: Clock, segments: seq<Segment>, entries: seq<Entry>) returns (ok: bool)
    ensures ok == TicksOk(clock, segments, entries)
  {
    hide UnwrapTicks;
    var previous := 0;
    for i := 0 to |entries|
      invariant TicksOk(clock, segments, entries[..i])
      invariant i > 0 ==> previous == UnwrapTicks(clock, entries[i - 1].tick, entries[i - 1].wrapCount).value
    {
      var tick := UnwrapTicks(clock, entries[i].tick, entries[i].wrapCount);
      if tick.None? || (i > 0 && tick.value < previous) || tick.value + entries[i].durationTicks > MAX_UINT64 {
        return false;
      }
      var coverage := SegmentCoverage(segments, tick.value);
      if coverage != 1 {
        return false;
      }
      previous := tick.value;
      assert forall k | 0 <= k < i :: entries[..i][k] == entries[..i + 1][k];
    }
    assert entries[..|entries|] == entries;
    return true;
  }
}
