/** Safety of the capture mirror over every run. */
module MirrorSafety {
  import opened Bytes
  import opened Common
  import opened Intervals
  import opened Coverage
  import opened MirrorModel

  // ---------------------------------------------------------------- frame arithmetic

  /** Offsets and (frame, position) pairs correspond one to one. */
  lemma AtFrame(c: Config, k: int, x: int)
    requires 0 <= x < c.frameBytes
    ensures At(c, k, x) / c.frameBytes == k && At(c, k, x) % c.frameBytes == x
  {
    var q, r := At(c, k, x) / c.frameBytes, At(c, k, x) % c.frameBytes;
    ProductStep(q - k, c.frameBytes);
    assert (q - k) * c.frameBytes == x - r;
  }

  lemma AtShift(c: Config, k: int)
    ensures forall x :: At(c, k, x) == At(c, k, 0) + x
  {
  }

  lemma AtInverse(c: Config, o: int)
    ensures 0 <= o % c.frameBytes < c.frameBytes
    ensures o == At(c, o / c.frameBytes, o % c.frameBytes)
  {
  }

  lemma AtMonotone(c: Config, j: int, k: int)
    requires j <= k
    ensures At(c, j, 0) <= At(c, k, 0)
  {
    assert (k - j) * c.frameBytes >= 0;
  }

  lemma BelowFrame(c: Config, o: int, n: int)
    ensures o < At(c, n, 0) <==> o / c.frameBytes < n
  {
    var k := o / c.frameBytes;
    AtInverse(c, o);
    if k < n {
      AtMonotone(c, k + 1, n);
      assert At(c, k + 1, 0) == At(c, k, 0) + c.frameBytes;
    } else {
      AtMonotone(c, n, k);
    }
  }

  /** A byte of frame k lies in a write exactly when its position lies in the fragment; the frame is then in the write's span. */
  lemma FragmentMember(c: Config, offset: int, length: int, k: int, x: int)
    requires 0 <= x < c.frameBytes
    ensures offset <= At(c, k, x) < offset + length
            <==> FragmentStart(c, offset, k) <= x < FragmentEnd(c, offset, length, k)
    ensures offset <= At(c, k, x) < offset + length ==> FirstFrame(c, offset) <= k <= LastFrame(c, offset, length)
  {
    assert At(c, k, x) == At(c, k, 0) + x;
    if offset <= At(c, k, x) < offset + length {
      AtFrame(c, k, x);
      DivMonotone(offset, At(c, k, x), c.frameBytes);
      DivMonotone(At(c, k, x), offset + length - 1, c.frameBytes);
    }
  }

  /** What NewMirror establishes: a usable configuration, a slot count that fits the buffer, and byte offsets that fit int64. */
  lemma NewMirrorBounds(raw: RawConfig, c: Limits)
    requires NewMirror(raw) == Some(c)
    ensures c.frameBytes > 0 && 1 <= c.maxSlots <= c.frameLimit && c.maxSlots <= MAX_FRAME_SLOTS
    ensures c.frameLimit == (if raw.frameCount == 0 then raw.maxFrameCount else c.frameCount)
    ensures c.maxSlots * c.frameBytes <= raw.bufferBytes
    ensures c.frameLimit * c.frameBytes <= MAX_INT64
  {
    TimesQuotient(c.maxSlots, raw.bufferBytes, c.frameBytes);
    TimesQuotient(c.frameLimit, MAX_INT64, c.frameBytes);
  }

  /** Exactly which configurations NewMirror accepts, and that it keeps as many slots as buffer, table and capture allow. */
  lemma NewMirrorExact(raw: RawConfig)
    ensures var limit := if raw.frameCount == 0 then raw.maxFrameCount else raw.frameCount;
            && (NewMirror(raw).Some? <==>
                  && 0 < raw.frameBytes <= MAX_FRAME_PAYLOAD_BYTES && raw.frameBytes % 2 == 0
                  && (raw.frameCount == 0) != (raw.maxFrameCount == 0) && limit * raw.frameBytes <= MAX_INT64
                  && raw.frameBytes <= raw.bufferBytes <= MAX_BUFFER_BYTES)
            && (NewMirror(raw).Some? ==>
                  var c := NewMirror(raw).value;
                  && c.frameBytes == raw.frameBytes && c.frameCount == raw.frameCount && c.frameLimit == limit
                  && forall n: int :: n <= c.maxSlots <==> n * raw.frameBytes <= raw.bufferBytes && n <= MAX_FRAME_SLOTS && n <= limit)
  {
    var limit := if raw.frameCount == 0 then raw.maxFrameCount else raw.frameCount;
    if raw.frameBytes > 0 {
      TimesIffQuotient(limit, MAX_INT64, raw.frameBytes);
      forall n: int
        ensures n * raw.frameBytes <= raw.bufferBytes <==> n <= raw.bufferBytes / raw.frameBytes
      {
        TimesIffQuotient(n, raw.bufferBytes, raw.frameBytes);
      }
      TimesIffQuotient(1, raw.bufferBytes, raw.frameBytes);
    }
  }

  lemma TimesIffQuotient(a: int, b: int, f: int)
    requires f > 0
    ensures a * f <= b <==> a <= b / f
  {
    var q := b / f;
    if a <= q {
      TimesQuotient(a, b, f);
    } else {
      assert b == f * q + b % f;
      AtLeastOneMore(a, q, f);
    }
  }

  lemma AtLeastOneMore(a: int, q: int, f: int)
    requires f > 0 && a >= q + 1
    ensures a * f >= f * q + f
  {
    assert (a - q - 1) * f >= 0;
    assert (a - q - 1) * f == a * f - f * q - f;
  }

  lemma TimesQuotient(a: int, b: int, f: int)
    requires f > 0 && a <= b / f
    ensures a * f <= b
  {
    assert (b / f - a) * f >= 0;
  }

  // ---------------------------------------------------------------- the invariant

  /** f is frame k, byte for byte as the output holds it. */
  ghost predicate Mirrors(c: Config, output: map<int, byte>, f: Frame, k: int) {
    && f.index == k
    && |f.payload| == c.frameBytes
    && forall x | 0 <= x < c.frameBytes :: At(c, k, x) in output && output[At(c, k, x)] == f.payload[x]
  }

  ghost predicate SlotMirrors(c: Config, output: map<int, byte>, k: int, sp: Spool) {
    && ValidSpool(sp, c.frameBytes)
    && sp.ranges != []
    && forall x | 0 <= x < c.frameBytes && Covers(sp.ranges, x) ::
         At(c, k, x) in output && output[At(c, k, x)] == sp.data[x]
  }

  ghost predicate SlotsInv(c: Config, s: State) {
    forall k | k in s.slots :: s.nextEmit <= k < c.frameLimit && SlotMirrors(c, s.output, k, s.slots[k])
  }

  ghost predicate PipelineInv(c: Config, s: State) {
    && s.taken + |s.queue| == s.nextEmit
    && (forall j | 0 <= j < |s.queue| :: Mirrors(c, s.output, s.queue[j], s.taken + j))
    && (Busy(s.worker) ==> s.taken > 0 && Mirrors(c, s.output, s.worker.frame, s.taken - 1))
    && (forall k | 0 <= k < |s.handed| :: Mirrors(c, s.output, s.handed[k], k))
  }

  function InHand(s: State): nat {
    if Busy(s.worker) then 1 else 0
  }

  predicate CountInv(c: Config, s: State) {
    && s.reserved == SlotCount(s.slots) + |s.queue| + InHand(s) <= c.maxSlots
    && s.nextEmit <= c.frameLimit
    && s.delivered <= s.accepted <= |s.handed| <= s.taken
    && (!s.discard ==> s.accepted == s.taken - InHand(s) && |s.handed| == s.taken - (if s.worker.Holding? then 1 else 0))
    && (s.discard ==> s.phase.Aborted? && !s.worker.Writing?)
    && (s.worker.Discarding? ==> s.discard)
    && (!s.phase.Aborted? ==> s.delivered == s.accepted)
  }

  predicate PhaseInv(c: Config, s: State) {
    && (s.failure.Some? ==> s.phase.Aborted?)
    && (s.queueClosed <==> !s.phase.Open?)
    && (s.sinkCancelled ==> s.phase.Aborted? || s.phase.Sealed?)
    && (s.worker.Done? ==> s.queue == [] && s.queueClosed)
    && (s.sealers > 0 ==> !s.phase.Open?)
    && (s.phase.Aborted? ==> s.slots == map[])
    && (s.phase.Sealing? || s.phase.Sealed? ==>
          && s.slots == map[]
          && s.nextEmit == s.sealedFrameCount > 0
          && (c.frameCount != 0 ==> s.sealedFrameCount == c.frameCount))
    && (s.phase.Sealed? ==> s.worker.Done? && s.reserved == 0)
  }

  ghost predicate EmittedInv(c: Config, s: State) {
    forall k, x | 0 <= k < s.nextEmit && 0 <= x < c.frameBytes :: At(c, k, x) in s.output
  }

  /** The byte belongs to an emitted frame or to the recorded coverage of an open slot. */
  ghost predicate Accounted(c: Config, s: State, o: int) {
    var k := o / c.frameBytes;
    0 <= o && (k < s.nextEmit || (k in s.slots && Covers(s.slots[k].ranges, o % c.frameBytes)))
  }

  ghost predicate ExactInv(c: Config, s: State) {
    !s.phase.Aborted? ==> forall o | o in s.output :: Accounted(c, s, o)
  }

  ghost predicate Inv(c: Config, s: State) {
    SlotsInv(c, s) && PipelineInv(c, s) && CountInv(c, s) && PhaseInv(c, s) && EmittedInv(c, s) && ExactInv(c, s)
  }

  // ---------------------------------------------------------------- every step keeps it

  /** Changing bytes that no emitted frame contains disturbs nothing the worker or the sink has seen. */
  lemma PipelineFrame(c: Config, s: State, output: map<int, byte>)
    requires PipelineInv(c, s) && CountInv(c, s) && EmittedInv(c, s)
    requires forall k, x | 0 <= k < s.nextEmit && 0 <= x < c.frameBytes ::
               At(c, k, x) in output && output[At(c, k, x)] == s.output[At(c, k, x)]
    ensures PipelineInv(c, s.(output := output)) && EmittedInv(c, s.(output := output))
  {
  }

  lemma AbortInv(c: Config, s: State)
    requires Inv(c, s)
    ensures Inv(c, AbortState(s))
  {
    hide SlotCount, At, Mirrors, SlotMirrors, Covers;
  }

  lemma FailInv(c: Config, s: State, f: Failure)
    requires Inv(c, s) && !s.phase.Sealed?
    ensures Inv(c, Fail(s, f))
  {
    hide SlotCount, At, Mirrors, SlotMirrors, Covers;
  }

  /** Output changes confined to a planned write leave every emitted frame alone. */
  lemma BeyondEmitted(c: Config, s: State, output: map<int, byte>, offset: int)
    requires EmittedInv(c, s) && 0 <= s.nextEmit <= FirstFrame(c, offset)
    requires forall o | o in s.output && o < offset :: o in output && output[o] == s.output[o]
    ensures forall k, x | 0 <= k < s.nextEmit && 0 <= x < c.frameBytes ::
              At(c, k, x) in output && output[At(c, k, x)] == s.output[At(c, k, x)]
  {
    forall k, x | 0 <= k < s.nextEmit && 0 <= x < c.frameBytes
      ensures At(c, k, x) < offset
    {
      if At(c, k, x) >= offset {
        AtFrame(c, k, x);
        DivMonotone(offset, At(c, k, x), c.frameBytes);
      }
    }
  }

  lemma PlanFacts(c: Config, s: State, length: nat, offset: int)
    requires Plan(c, s, length, offset).None? && s.nextEmit >= 0
    ensures length > 0 && offset >= 0
    ensures s.nextEmit <= FirstFrame(c, offset) && LastFrame(c, offset, length) < c.frameLimit
    ensures s.reserved + Missing(s.slots.Keys, FirstFrame(c, offset), LastFrame(c, offset, length)) <= c.maxSlots
    ensures CheckFragments(c, s.slots, offset, length, FirstFrame(c, offset), LastFrame(c, offset, length)).None?
  {
    hide CheckFragments, Missing;
    BelowFrame(c, offset + length - 1, c.frameLimit);
  }

  lemma DamageInv(c: Config, s: State, region: map<int, byte>, length: nat, offset: int, f: Failure)
    requires Inv(c, s) && s.phase.Open? && Plan(c, s, length, offset).None?
    requires forall o | o in region :: offset <= o < offset + length
    ensures Inv(c, Fail(s.(output := s.output + region), f))
  {
    hide At, Plan, FirstFrame, Mirrors, SlotMirrors, ExactInv;
    PlanFacts(c, s, length, offset);
    BeyondEmitted(c, s, s.output + region, offset);
    PipelineFrame(c, s, s.output + region);
    AbortOutput(c, s, s.output + region, f);
  }

  lemma AbortOutput(c: Config, s: State, output: map<int, byte>, f: Failure)
    requires CountInv(c, s) && PhaseInv(c, s) && s.phase.Open?
    requires PipelineInv(c, s.(output := output)) && EmittedInv(c, s.(output := output))
    ensures Inv(c, Fail(s.(output := output), f))
  {
    hide SlotCount, At, Mirrors, SlotMirrors;
  }

  lemma FragmentsFit(c: Config, slots: map<int, Spool>, offset: int, length: int, k: int, last: int, j: int)
    requires CheckFragments(c, slots, offset, length, k, last).None? && k <= j <= last
    ensures PreflightSpool(SlotAt(c, slots, j), FragmentStart(c, offset, j), FragmentEnd(c, offset, length, j)).Fits?
    decreases last - k
  {
    if k < j {
      FragmentsFit(c, slots, offset, length, k + 1, last, j);
    }
  }

  /** The absolute-offset view of a fragment agrees with the spool's own update. */
  lemma FragmentIsApply(c: Config, sp: Spool, payload: seq<byte>, offset: int, k: int)
    requires ValidSpool(sp, c.frameBytes)
    requires PreflightSpool(sp, FragmentStart(c, offset, k), FragmentEnd(c, offset, |payload|, k)).Fits?
    ensures var start, end := FragmentStart(c, offset, k), FragmentEnd(c, offset, |payload|, k);
            && 0 <= At(c, k, start) - offset <= At(c, k, end) - offset <= |payload|
            && ApplyFragment(c, sp, payload, offset, k)
               == ApplySpool(sp, start, payload[At(c, k, start) - offset..At(c, k, end) - offset])
  {
    hide At, Canonical, Within, Total, Insert, Overlaps;
    AtShift(c, k);
    var start, end := FragmentStart(c, offset, k), FragmentEnd(c, offset, |payload|, k);
    assert At(c, k, start) == At(c, k, 0) + start && At(c, k, end) == At(c, k, 0) + end;
  }

  /** One slot after the write: valid, and equal to the new output on its coverage. */
  lemma WrittenSlot(c: Config, s: State, payload: seq<byte>, offset: nat, k: int)
    requires SlotsInv(c, s)
    requires PreflightSpool(SlotAt(c, s.slots, k), FragmentStart(c, offset, k), FragmentEnd(c, offset, |payload|, k)).Fits?
    ensures var sp := ApplyFragment(c, SlotAt(c, s.slots, k), payload, offset, k);
            && SlotMirrors(c, s.output + Image(payload, offset), k, sp)
            && (forall x | 0 <= x < c.frameBytes ::
                  Covers(sp.ranges, x) <==>
                  Covers(SlotAt(c, s.slots, k).ranges, x) || offset <= At(c, k, x) < offset + |payload|)
  {
    hide At, Insert, Canonical, Within, Total, Covers, FragmentStart, FragmentEnd;
    EmptyValid(c.frameBytes);
    FragmentEffect(c, SlotAt(c, s.slots, k), payload, offset, k);
  }

  /** The effect of a fitting fragment on a slot, position by position. */
  lemma FragmentEffect(c: Config, sp: Spool, payload: seq<byte>, offset: nat, k: int)
    requires ValidSpool(sp, c.frameBytes)
    requires PreflightSpool(sp, FragmentStart(c, offset, k), FragmentEnd(c, offset, |payload|, k)).Fits?
    ensures var sp' := ApplyFragment(c, sp, payload, offset, k);
            && ValidSpool(sp', c.frameBytes) && sp'.ranges != []
            && (forall x | 0 <= x < c.frameBytes ::
                  Covers(sp'.ranges, x) <==> Covers(sp.ranges, x) || offset <= At(c, k, x) < offset + |payload|)
  {
    hide At, Insert, Total, Canonical, Within, Covers, FragmentStart, FragmentEnd;
    var start, end := FragmentStart(c, offset, k), FragmentEnd(c, offset, |payload|, k);
    FragmentIsApply(c, sp, payload, offset, k);
    InsertCorrect(sp.ranges, Range(start, end));
    ApplyCorrect(sp, c.frameBytes, start, payload[At(c, k, start) - offset..At(c, k, end) - offset]);
    forall x | 0 <= x < c.frameBytes
      ensures offset <= At(c, k, x) < offset + |payload| <==> start <= x < end
    {
      FragmentMember(c, offset, |payload|, k, x);
    }
  }

  lemma {:induction false} MissingCount(occupied: set<int>, k: int, last: int)
    ensures |occupied + Span(k, last + 1)| == |occupied| + Missing(occupied, k, last)
    decreases last - k
  {
    if k <= last {
      MissingCount(occupied, k, last - 1);
      var before := occupied + Span(k, last);
      assert occupied + Span(k, last + 1) == if last in occupied then before else before + {last};
    } else {
      assert occupied + Span(k, last + 1) == occupied;
    }
  }

  lemma StoredSlots(c: Config, s: State, payload: seq<byte>, offset: nat)
    requires Inv(c, s) && s.phase.Open? && Plan(c, s, |payload|, offset).None?
    ensures SlotsInv(c, Stored1(c, s, payload, offset))
  {
    hide Plan, Missing, At, FirstFrame, LastFrame, FragmentStart, FragmentEnd, ApplyFragment, Covers, CheckFragments, PreflightSpool, ValidSpool, PipelineInv, CountInv, PhaseInv, EmittedInv, ExactInv;
    var first, last := FirstFrame(c, offset), LastFrame(c, offset, |payload|);
    var s' := Stored1(c, s, payload, offset);
    PlanFacts(c, s, |payload|, offset);
    forall k | k in s'.slots
      ensures s'.nextEmit <= k < c.frameLimit && SlotMirrors(c, s'.output, k, s'.slots[k])
    {
      if first <= k <= last {
        FragmentsFit(c, s.slots, offset, |payload|, first, last, k);
        WrittenSlot(c, s, payload, offset, k);
      } else {
        forall x | 0 <= x < c.frameBytes
          ensures !(offset <= At(c, k, x) < offset + |payload|)
        {
          FragmentMember(c, offset, |payload|, k, x);
        }
      }
    }
  }

  lemma StoredExact(c: Config, s: State, payload: seq<byte>, offset: nat)
    requires Inv(c, s) && s.phase.Open? && Plan(c, s, |payload|, offset).None?
    ensures ExactInv(c, Stored1(c, s, payload, offset))
  {
    hide Plan, Missing, At, FirstFrame, LastFrame, FragmentStart, FragmentEnd, ApplyFragment, Covers, CheckFragments, PreflightSpool, ValidSpool, PipelineInv, CountInv, PhaseInv, EmittedInv, SlotMirrors;
    var first, last := FirstFrame(c, offset), LastFrame(c, offset, |payload|);
    var s' := Stored1(c, s, payload, offset);
    PlanFacts(c, s, |payload|, offset);
    forall o | o in s'.output
      ensures Accounted(c, s', o)
    {
      var k, x := o / c.frameBytes, o % c.frameBytes;
      AtInverse(c, o);
      FragmentMember(c, offset, |payload|, k, x);
      if first <= k <= last {
        FragmentsFit(c, s.slots, offset, |payload|, first, last, k);
        WrittenSlot(c, s, payload, offset, k);
        assert s'.slots[k] == ApplyFragment(c, SlotAt(c, s.slots, k), payload, offset, k);
      }
      if offset <= o < offset + |payload| {
        assert Covers(s'.slots[k].ranges, x);
      } else {
        assert o in s.output && Accounted(c, s, o);
      }
    }
  }

  lemma GrownBy<T>(m: map<int, T>, m': map<int, T>, added: set<int>)
    requires m'.Keys == m.Keys + added
    ensures SlotCount(m') - SlotCount(m) == |m.Keys + added| - |m.Keys|
  {
    assert |m'| == |m'.Keys| && |m| == |m.Keys|;
  }

  lemma WriteSlotsSize(c: Config, slots: map<int, Spool>, payload: seq<byte>, offset: nat)
    ensures SlotCount(WriteSlots(c, slots, payload, offset))
         == SlotCount(slots) + Missing(slots.Keys, FirstFrame(c, offset), LastFrame(c, offset, |payload|))
  {
    hide WriteSlots, Missing, Span, FirstFrame, LastFrame, SlotCount;
    var first, last := FirstFrame(c, offset), LastFrame(c, offset, |payload|);
    MissingCount(slots.Keys, first, last);
    GrownBy(slots, WriteSlots(c, slots, payload, offset), Span(first, last + 1));
  }

  lemma StoredCounts(c: Config, s: State, payload: seq<byte>, offset: nat)
    requires Inv(c, s) && s.phase.Open? && Plan(c, s, |payload|, offset).None?
    ensures CountInv(c, Stored1(c, s, payload, offset)) && PhaseInv(c, Stored1(c, s, payload, offset))
  {
    hide SlotCount, Plan, FirstFrame, LastFrame, WriteSlots, CheckFragments, SlotsInv, ExactInv, PipelineInv, EmittedInv, Missing, Image;
    PlanFacts(c, s, |payload|, offset);
    WriteSlotsSize(c, s.slots, payload, offset);
  }

  lemma StoredPipeline(c: Config, s: State, payload: seq<byte>, offset: nat)
    requires Inv(c, s) && s.phase.Open? && Plan(c, s, |payload|, offset).None?
    ensures PipelineInv(c, Stored1(c, s, payload, offset)) && EmittedInv(c, Stored1(c, s, payload, offset))
  {
    hide At, Plan, FirstFrame, LastFrame, WriteSlots, SlotsInv, ExactInv, CountInv, PhaseInv, PipelineInv, EmittedInv, Missing,
      SlotCount, Image;
    PlanFacts(c, s, |payload|, offset);
    var output := s.output + Image(payload, offset);
    ImageBeyond(s.output, payload, offset);
    BeyondEmitted(c, s, output, offset);
    PipelineFrame(c, s, output);
    SamePipeline(c, s.(output := output), Stored1(c, s, payload, offset));
  }

  lemma ImageBeyond(output: map<int, byte>, payload: seq<byte>, offset: int)
    ensures forall o | o in output && o < offset ::
              o in output + Image(payload, offset) && (output + Image(payload, offset))[o] == output[o]
  {
  }

  lemma SamePipeline(c: Config, s: State, u: State)
    requires PipelineInv(c, s) && EmittedInv(c, s) && u.output == s.output && u.nextEmit == s.nextEmit && u.taken == s.taken
    requires u.queue == s.queue && u.worker == s.worker && u.handed == s.handed
    ensures PipelineInv(c, u) && EmittedInv(c, u)
  {
    hide At, Mirrors;
  }

  lemma StoredInv(c: Config, s: State, payload: seq<byte>, offset: nat)
    requires Inv(c, s) && s.phase.Open? && Plan(c, s, |payload|, offset).None?
    ensures Inv(c, Stored1(c, s, payload, offset))
  {
    hide Plan, Stored1, SlotsInv, ExactInv, PipelineInv, EmittedInv, CountInv, PhaseInv;
    StoredSlots(c, s, payload, offset);
    StoredExact(c, s, payload, offset);
    StoredCounts(c, s, payload, offset);
    StoredPipeline(c, s, payload, offset);
  }

  lemma OneLess<T>(m: map<int, T>, k: int)
    requires k in m
    ensures SlotCount(m - {k}) == SlotCount(m) - 1
  {
    assert m.Keys == (m - {k}).Keys + {k};
    assert |m| == |m.Keys| && |m - {k}| == |(m - {k}).Keys|;
  }

  lemma PushInv(c: Config, s: State)
    requires Inv(c, s) && s.phase.Open? && s.nextEmit < c.frameLimit
    requires s.nextEmit in s.slots && Complete(s.slots[s.nextEmit])
    ensures |s.queue| < c.maxSlots
    ensures Inv(c, Push(s))
  {
    hide SlotCount, At;
    var k := s.nextEmit;
    var sp := s.slots[k];
    var s' := Push(s);
    CompleteIffCovered(sp, c.frameBytes);
    OneLess(s.slots, k);
    assert Mirrors(c, s.output, Frame(k, sp.data), k);
    forall o | o in s'.output
      ensures Accounted(c, s', o)
    {
      assert Accounted(c, s, o);
    }
  }

  /** Queueing keeps the invariant and never finds the queue full. */
  lemma {:induction false} EnqueueInv(c: Config, s: State)
    requires Inv(c, s) && s.phase.Open?
    ensures Inv(c, EnqueueComplete(c, s))
    ensures EnqueueComplete(c, s).phase.Open? && EnqueueComplete(c, s).failure.None?
    decreases c.frameLimit - s.nextEmit
  {
    if s.nextEmit < c.frameLimit && s.nextEmit in s.slots && Complete(s.slots[s.nextEmit]) {
      PushInv(c, s);
      EnqueueInv(c, Push(s));
    }
  }

  lemma WriteInv(c: Config, s: State, payload: seq<byte>, offset: int, outcome: Outcome)
    requires Inv(c, s) && Enabled(s, WriteEvent(payload, offset, outcome))
    ensures Inv(c, WriteNext(c, s, payload, offset, outcome))
  {
    hide Plan, WriteSlots, Missing, Image, EnqueueComplete, SlotsInv, PipelineInv, CountInv, EmittedInv, ExactInv;
    if s.phase.Open? {
      match Plan(c, s, |payload|, offset)
      case Some(f) =>
        FailInv(c, s, f);
      case None =>
        match outcome {
          case Damaged(region) =>
            DamageInv(c, s, region, |payload|, offset, WriteFailed);
          case Stored =>
            PlanFacts(c, s, |payload|, offset);
            assert Stored1(c, s, payload, offset).phase.Open?;
            StoredInv(c, s, payload, offset);
            EnqueueInv(c, Stored1(c, s, payload, offset));
        }
    }
  }

  lemma TakeInv(c: Config, s: State)
    requires Inv(c, s) && Enabled(s, TakeEvent)
    ensures Inv(c, Take(s))
  {
    hide SlotCount, At, Mirrors, SlotMirrors, Covers, SlotsInv, EmittedInv, ExactInv;
    assert forall j | 0 <= j < |s.queue| - 1 :: Take(s).queue[j] == s.queue[j + 1];
    SameCoverage(c, s, Take(s));
  }

  lemma CheckInv(c: Config, s: State)
    requires Inv(c, s) && Enabled(s, CheckEvent)
    ensures Inv(c, CheckDiscard(s))
  {
    hide SlotCount, At, Mirrors, SlotMirrors, Covers, SlotsInv, EmittedInv, ExactInv;
    SameCoverage(c, s, CheckDiscard(s));
  }

  lemma ReturnInv(c: Config, s: State, sinkOk: bool)
    requires Inv(c, s) && Enabled(s, ReturnEvent(sinkOk))
    ensures Inv(c, Return(s, sinkOk))
  {
    hide SlotCount, At, Mirrors, SlotMirrors, Covers, SlotsInv, EmittedInv, ExactInv;
    SameCoverage(c, s, Return(s, sinkOk));
  }

  /** Steps that touch neither the output nor the slots, unless they abort, keep the output exact. */
  lemma SameCoverage(c: Config, s: State, s': State)
    requires ExactInv(c, s) && SlotsInv(c, s) && EmittedInv(c, s)
    requires s'.output == s.output && s'.nextEmit == s.nextEmit
    requires s'.phase.Aborted? || (s'.slots == s.slots && !s.phase.Aborted?)
    requires s'.slots == s.slots || s'.slots == map[]
    ensures ExactInv(c, s') && SlotsInv(c, s') && EmittedInv(c, s')
  {
    hide At, SlotMirrors;
    assert !s'.phase.Aborted? ==> forall o | o in s'.output :: Accounted(c, s, o);
  }

  lemma SealBeginInv(c: Config, s: State)
    requires Inv(c, s)
    ensures Inv(c, SealBegin(c, s).0)
  {
    hide SlotCount, Mirrors, SlotsInv, EmittedInv, ExactInv;
    SameCoverage(c, s, SealBegin(c, s).0);
  }

  lemma SealFinishInv(c: Config, s: State)
    requires Inv(c, s) && Enabled(s, SealFinishEvent)
    ensures Inv(c, SealFinish(s).0)
  {
    hide SlotCount, Mirrors, SlotsInv, EmittedInv, ExactInv;
    SameCoverage(c, s, SealFinish(s).0);
  }

  lemma SealExpireInv(c: Config, s: State)
    requires Inv(c, s) && Enabled(s, SealExpireEvent)
    ensures Inv(c, SealExpire(s).0)
  {
    hide SlotCount, Mirrors, SlotsInv, EmittedInv, ExactInv;
    SameCoverage(c, s, SealExpire(s).0);
  }

  lemma QuietInv(c: Config, s: State, e: Event)
    requires Inv(c, s) && Enabled(s, e)
    requires e.CancelSinkEvent? || e.ExitEvent?
    ensures Inv(c, Next(c, s, e))
  {
    hide SlotCount, At, Mirrors, SlotMirrors, Covers, SlotsInv, EmittedInv, ExactInv;
    SameCoverage(c, s, Next(c, s, e));
  }

  lemma StepInv(c: Config, s: State, e: Event)
    requires Inv(c, s) && Enabled(s, e)
    ensures Inv(c, Next(c, s, e))
  {
    hide Inv;
    match e
    case WriteEvent(payload, offset, outcome) => WriteInv(c, s, payload, offset, outcome);
    case TakeEvent => TakeInv(c, s);
    case CheckEvent => CheckInv(c, s);
    case ReturnEvent(sinkOk) => ReturnInv(c, s, sinkOk);
    case AbortEvent => AbortInv(c, s);
    case CancelSinkEvent => QuietInv(c, s, e);
    case ExitEvent => QuietInv(c, s, e);
    case SealBeginEvent => SealBeginInv(c, s);
    case SealFinishEvent => SealFinishInv(c, s);
    case SealExpireEvent => SealExpireInv(c, s);
  }

  lemma InitialInv(c: Config)
    ensures Inv(c, Initial)
  {
  }

  lemma {:induction false} RunInv(c: Config, states: seq<State>, events: seq<Event>, i: nat)
    requires IsRun(c, states, events) && i < |states|
    ensures Inv(c, states[i])
  {
    if i == 0 {
      InitialInv(c);
    } else {
      RunInv(c, states, events, i - 1);
      StepInv(c, states[i - 1], events[i - 1]);
    }
  }

  // ---------------------------------------------------------------- main results

  lemma LogGrows(c: Config, s: State, e: Event)
    requires Inv(c, s) && Enabled(s, e)
    ensures s.handed <= Next(c, s, e).handed
    ensures s.phase.Sealed? ==> Next(c, s, e).phase.Sealed? && Next(c, s, e).output == s.output
  {
    if e.WriteEvent? && s.phase.Open? {
      if Plan(c, s, |e.payload|, e.offset).None? && e.outcome.Stored? {
        PlanFacts(c, s, |e.payload|, e.offset);
        EnqueueHanded(c, Stored1(c, s, e.payload, e.offset));
      }
    }
  }

  lemma {:induction false} EnqueueHanded(c: Config, s: State)
    ensures EnqueueComplete(c, s).handed == s.handed
    decreases c.frameLimit - s.nextEmit
  {
    if s.nextEmit < c.frameLimit && s.nextEmit in s.slots && Complete(s.slots[s.nextEmit]) && |s.queue| < c.maxSlots {
      EnqueueHanded(c, Push(s));
    }
  }

  /**
    In every run the sink is handed frames 0, 1, 2, ... with none repeated and none skipped, and every frame handed
    by step i equals the authoritative output at [k*F, (k+1)*F) at step i and at every later step j.
   */
  lemma {:induction false} HandedInOrder(c: Config, states: seq<State>, events: seq<Event>, i: nat, j: nat)
    requires IsRun(c, states, events) && i <= j < |states|
    ensures states[i].handed <= states[j].handed
    ensures forall k | 0 <= k < |states[i].handed| :: Mirrors(c, states[j].output, states[i].handed[k], k)
    decreases j - i
  {
    hide Mirrors, Next, Enabled, SlotsInv, CountInv, PhaseInv, EmittedInv, ExactInv;
    RunInv(c, states, events, j);
    if i < j {
      HandedInOrder(c, states, events, i, j - 1);
      RunInv(c, states, events, j - 1);
      LogGrows(c, states[j - 1], events[j - 1]);
    }
  }

  lemma CheckHands(c: Config, s: State)
    requires Inv(c, s) && Enabled(s, CheckEvent)
    ensures CheckDiscard(s).handed == if s.phase.Aborted? then s.handed else s.handed + [s.worker.frame]
  {
    hide SlotsInv, PipelineInv, EmittedInv, ExactInv, SlotCount;
  }

  /** The frame in the worker's hands goes to the sink if and only if the mirror is not aborted by then. */
  lemma HandedIffNotAborted(c: Config, states: seq<State>, events: seq<Event>, i: nat)
    requires IsRun(c, states, events) && i < |events| && events[i].CheckEvent?
    ensures states[i].worker.Holding?
    ensures states[i + 1].handed == if states[i].phase.Aborted? then states[i].handed else states[i].handed + [states[i].worker.frame]
  {
    hide Inv;
    RunInv(c, states, events, i);
    CheckHands(c, states[i]);
  }

  lemma AbortedStep(c: Config, s: State, e: Event)
    requires Inv(c, s) && s.phase.Aborted? && Enabled(s, e)
    ensures Next(c, s, e).phase.Aborted? && Next(c, s, e).handed == s.handed
  {
    hide SlotsInv, PipelineInv, EmittedInv, ExactInv, SlotCount, Plan, EnqueueComplete, Stored1;
  }

  /** Nothing reaches the sink after an abort or a failure, however many frames were queued. */
  lemma {:induction false} NothingAfterAbort(c: Config, states: seq<State>, events: seq<Event>, i: nat, j: nat)
    requires IsRun(c, states, events) && i <= j < |states|
    requires states[i].phase.Aborted? || states[i].failure.Some?
    ensures states[j].phase.Aborted? && states[j].handed == states[i].handed
    decreases j - i
  {
    hide Next, Enabled, SlotsInv, PipelineInv, EmittedInv, ExactInv, CountInv;
    if i < j {
      NothingAfterAbort(c, states, events, i, j - 1);
      RunInv(c, states, events, j - 1);
      AbortedStep(c, states[j - 1], events[j - 1]);
    } else {
      RunInv(c, states, events, i);
    }
  }

  /** The bytes [0, n*F). */
  ghost function FirstFrames(c: Config, n: nat): set<int> {
    Span(0, At(c, n, 0))
  }

  /** A frame total Seal may accept: the configured count, or any positive count up to the limit when open-ended. */
  predicate SealableCount(c: Config, n: int) {
    0 < n <= c.frameLimit && (c.frameCount != 0 ==> n == c.frameCount)
  }

  lemma EmptySlotsExact(c: Config, s: State)
    requires Inv(c, s) && !s.phase.Aborted? && s.slots == map[]
    ensures s.output.Keys == FirstFrames(c, s.nextEmit)
  {
    hide At;
    forall o
      ensures o in s.output <==> 0 <= o < At(c, s.nextEmit, 0)
    {
      BelowFrame(c, o, s.nextEmit);
      AtInverse(c, o);
      if o in s.output {
        assert Accounted(c, s, o);
      } else if 0 <= o {
        assert 0 <= o / c.frameBytes;
      }
    }
  }

  /** A sealed mirror: the output holds exactly [0, n*F), the sink was handed and accepted all n frames, and no slot remains. */
  lemma SealedIsExact(c: Config, states: seq<State>, events: seq<Event>, i: nat)
    requires IsRun(c, states, events) && i < |states| && states[i].phase.Sealed?
    ensures var s := states[i]; var n := s.sealedFrameCount;
            && SealableCount(c, n)
            && s.output.Keys == FirstFrames(c, n)
            && n == |s.handed| == s.accepted == s.delivered
            && s.slots == map[] && s.queue == [] && s.reserved == 0
            && s.failure.None?
  {
    RunInv(c, states, events, i);
    EmptySlotsExact(c, states[i]);
  }

  /** A sealed output is final. */
  lemma {:induction false} SealedIsFinal(c: Config, states: seq<State>, events: seq<Event>, i: nat, j: nat)
    requires IsRun(c, states, events) && i <= j < |states| && states[i].phase.Sealed?
    ensures states[j].phase.Sealed? && states[j].output == states[i].output
    decreases j - i
  {
    hide Inv, Next, Enabled;
    if i < j {
      SealedIsFinal(c, states, events, i, j - 1);
      RunInv(c, states, events, j - 1);
      LogGrows(c, states[j - 1], events[j - 1]);
    }
  }

  function SealReply(c: Config, s: State, e: Event): Reply
    requires Enabled(s, e) && (e.SealBeginEvent? || e.SealFinishEvent? || e.SealExpireEvent?)
  {
    if e.SealBeginEvent? then SealBegin(c, s).1
    else if e.SealFinishEvent? then SealFinish(s).1
    else SealExpire(s).1
  }

  /** Seal returns nil exactly when it leaves the mirror sealed; after the worker returned, a mirror that was not aborted
      always seals, so the failure and delivered/allocated mismatch branches never run. */
  lemma SealReplies(c: Config, states: seq<State>, events: seq<Event>, i: nat, e: Event)
    requires IsRun(c, states, events) && i < |states|
    requires Enabled(states[i], e) && (e.SealBeginEvent? || e.SealFinishEvent? || e.SealExpireEvent?)
    ensures SealReply(c, states[i], e).ReturnsNil? <==> Next(c, states[i], e).phase.Sealed?
    ensures e.SealFinishEvent? && !states[i].phase.Aborted? ==> SealReply(c, states[i], e).ReturnsNil?
  {
    RunInv(c, states, events, i);
  }

  /** A Seal call that returns an error has left the mirror aborted; one whose deadline passed first says so. */
  lemma SealErrors(c: Config, states: seq<State>, events: seq<Event>, i: nat, e: Event)
    requires IsRun(c, states, events) && i < |states|
    requires Enabled(states[i], e) && (e.SealBeginEvent? || e.SealFinishEvent? || e.SealExpireEvent?)
    ensures SealReply(c, states[i], e).ReturnsError? <==> Next(c, states[i], e).phase.Aborted?
    ensures e.SealExpireEvent? && states[i].phase.Sealing? ==> Next(c, states[i], e).failure == Some(SealTimedOut)
  {
    hide SlotsInv, PipelineInv, EmittedInv, ExactInv, SlotCount;
    RunInv(c, states, events, i);
  }

  /** A refused frame aborts the mirror unless it is aborted already; an abort stops every mirror that is not sealed. */
  lemma SinkAndAbort(c: Config, states: seq<State>, events: seq<Event>, i: nat)
    requires IsRun(c, states, events) && i < |states|
    ensures var s := states[i];
            && (s.worker.Writing? ==>
                  var refused, accepted := Next(c, s, ReturnEvent(false)), Next(c, s, ReturnEvent(true));
                  && refused.phase.Aborted? && (!s.phase.Aborted? ==> refused.failure == Some(SinkFailed))
                  && refused.accepted == s.accepted && accepted.accepted == s.accepted + 1 && accepted.phase == s.phase)
            && (if s.phase.Sealed? then Next(c, s, AbortEvent) == s else Next(c, s, AbortEvent).phase.Aborted?)
  {
    hide SlotsInv, EmittedInv, ExactInv, SlotCount;
    RunInv(c, states, events, i);
  }

  /** Slots are conserved: every reserved slot is an open frame, a queued frame or the frame in the worker's hands. */
  lemma SlotsConserved(c: Config, states: seq<State>, events: seq<Event>, i: nat)
    requires IsRun(c, states, events) && i < |states|
    ensures var s := states[i];
            && s.reserved == SlotCount(s.slots) + |s.queue| + InHand(s)
            && 0 <= s.reserved <= c.maxSlots
            && (s.failure.Some? ==> s.phase.Aborted?)
            && s.delivered <= s.accepted <= |s.handed| <= s.nextEmit <= c.frameLimit
  {
    RunInv(c, states, events, i);
  }

  /** Once the authoritative write has been stored the call succeeds: the queue is never full. */
  lemma StoredWriteSucceeds(c: Config, states: seq<State>, events: seq<Event>, i: nat, payload: seq<byte>, offset: int)
    requires IsRun(c, states, events) && i < |states|
    requires states[i].phase.Open? && Plan(c, states[i], |payload|, offset).None?
    ensures var s' := WriteNext(c, states[i], payload, offset, Stored); s'.phase.Open? && s'.failure.None?
  {
    RunInv(c, states, events, i);
    PlanFacts(c, states[i], |payload|, offset);
    StoredInv(c, states[i], payload, offset);
    EnqueueInv(c, Stored1(c, states[i], payload, offset));
  }

  // ---------------------------------------------------------------- when Seal proceeds

  /** No complete frame is left waiting in its slot. */
  predicate Drained(c: Config, s: State) {
    s.phase.Open? && s.nextEmit in s.slots ==> !Complete(s.slots[s.nextEmit])
  }

  lemma {:induction false} EnqueueDrains(c: Config, s: State)
    requires Inv(c, s) && s.phase.Open?
    ensures Drained(c, EnqueueComplete(c, s))
    decreases c.frameLimit - s.nextEmit
  {
    if s.nextEmit in s.slots && Complete(s.slots[s.nextEmit]) {
      PushInv(c, s);
      EnqueueDrains(c, Push(s));
    }
  }

  lemma StepDrained(c: Config, s: State, e: Event)
    requires Inv(c, s) && Drained(c, s) && Enabled(s, e)
    ensures Drained(c, Next(c, s, e))
  {
    hide Plan, Stored1, EnqueueComplete, Complete, SlotsInv, PipelineInv, CountInv, EmittedInv, ExactInv;
    if e.WriteEvent? && s.phase.Open? && Plan(c, s, |e.payload|, e.offset).None? && e.outcome.Stored? {
      PlanFacts(c, s, |e.payload|, e.offset);
      StoredInv(c, s, e.payload, e.offset);
      StoredOpen(c, s, e.payload, e.offset);
      EnqueueDrains(c, Stored1(c, s, e.payload, e.offset));
    }
  }

  lemma StoredOpen(c: Config, s: State, payload: seq<byte>, offset: nat)
    ensures Stored1(c, s, payload, offset).phase == s.phase
  {
  }

  lemma {:induction false} RunDrained(c: Config, states: seq<State>, events: seq<Event>, i: nat)
    requires IsRun(c, states, events) && i < |states|
    ensures Drained(c, states[i])
  {
    hide Inv, Next, Complete;
    if i > 0 {
      RunDrained(c, states, events, i - 1);
      RunInv(c, states, events, i - 1);
      StepDrained(c, states[i - 1], events[i - 1]);
    }
  }

  /** An open mirror is always waiting for some byte of its next frame. */
  lemma NextFrameUnfinished(c: Config, s: State) returns (x: int)
    requires Inv(c, s) && Drained(c, s) && s.phase.Open? && s.nextEmit < c.frameLimit
    ensures 0 <= x < c.frameBytes && At(c, s.nextEmit, x) !in s.output
  {
    hide At, Complete, ValidSpool, PipelineInv, CountInv, PhaseInv, EmittedInv, Covers;
    var k := s.nextEmit;
    x := 0;
    if k in s.slots {
      CompleteIffCovered(s.slots[k], c.frameBytes);
      x :| 0 <= x < c.frameBytes && !Covers(s.slots[k].ranges, x);
    }
    AtFrame(c, k, x);
    assert !Accounted(c, s, At(c, k, x));
  }

  lemma FrameOfPrefix(c: Config, k: int, x: int, n: nat)
    requires 0 <= x < c.frameBytes
    ensures At(c, k, x) in FirstFrames(c, n) <==> 0 <= k < n
  {
    AtFrame(c, k, x);
    BelowFrame(c, At(c, k, x), n);
    BelowFrame(c, At(c, k, x), 0);
  }

  lemma WrittenFrameIsEmitted(c: Config, s: State, n: nat)
    requires Inv(c, s) && Drained(c, s) && s.phase.Open? && n <= c.frameLimit
    requires s.output.Keys == FirstFrames(c, n)
    ensures s.nextEmit == n && s.slots == map[]
  {
    hide At, FirstFrames, PipelineInv, PhaseInv, ExactInv;
    assert s.nextEmit <= n by {
      FrameOfPrefix(c, s.nextEmit - 1, 0, n);
    }
    assert s.nextEmit >= c.frameLimit || s.nextEmit >= n by {
      if s.nextEmit < c.frameLimit {
        var x := NextFrameUnfinished(c, s);
        FrameOfPrefix(c, s.nextEmit, x, n);
      }
    }
    forall k
      ensures k !in s.slots
    {
      if k in s.slots {
        var sp := s.slots[k];
        var x := sp.ranges[0].start;
        assert Contains(sp.ranges[0], x) && Covers(sp.ranges, x);
        FrameOfPrefix(c, k, x, n);
        assert false;
      }
    }
  }

  /** On an open mirror, Seal goes on to wait for the worker exactly when the bytes written so far are the whole
      frames [0, n*F) of an acceptable total n; otherwise it fails the mirror. */
  lemma SealProceedsIffExact(c: Config, states: seq<State>, events: seq<Event>, i: nat)
    requires IsRun(c, states, events) && i < |states| && states[i].phase.Open?
    ensures SealBegin(c, states[i]).1.Waits? <==>
            exists n: nat :: SealableCount(c, n) && states[i].output.Keys == FirstFrames(c, n)
    ensures !SealBegin(c, states[i]).1.Waits? ==> SealBegin(c, states[i]).0.phase.Aborted?
  {
    var s := states[i];
    RunInv(c, states, events, i);
    RunDrained(c, states, events, i);
    if SealBegin(c, s).1.Waits? {
      EmptySlotsExact(c, s);
      assert SealableCount(c, s.nextEmit) && s.output.Keys == FirstFrames(c, s.nextEmit);
    }
    if n: nat :| SealableCount(c, n) && s.output.Keys == FirstFrames(c, n) {
      WrittenFrameIsEmitted(c, s, n);
    }
  }
}
