/**
  Receiver, mirror and session together. The receiver writes its packets through the mirror, whose worker, Seal and Abort
  callers interleave with it in any way; the session validates the receiver's statistics, seals the mirror and publishes.
 */
module CaptureRun {
  import opened Bytes
  import opened Common
  import opened Intervals
  import Coverage
  import R = Receiver
  import M = MirrorModel
  import S = MirrorSafety
  import T = SessionTrace

  /** A datagram at the receiver, with what the authoritative write will do if the packet gets that far. */
  datatype Arrival = Foreign | Malformed | Data(packet: R.Packet, at: int, write: M.Outcome)

  datatype Event = Datagram(arrival: Arrival) | MirrorMoves(e: M.Event)

  /** The receive loop and the mirror, each with its history. */
  datatype System = System(
    loop: R.Loop, outcome: R.Outcome, arrivals: seq<R.Event>, mirror: M.State, states: seq<M.State>, events: seq<M.Event>)

  const Start: System := System(R.Start, R.GoesOn, [], M.Initial, [M.Initial], [])

  /** Where a packet goes in the output; the first packet defines the base. */
  function Offset(loop: R.Loop, p: R.Packet): int {
    p.byteOffset - if loop.base.Some? then loop.base.value else p.byteOffset
  }

  /** The packet passes every check before the write. */
  predicate Writes(c: R.Config, loop: R.Loop, p: R.Packet, at: int) {
    R.OnPacket(c, loop, p, at, false).outcome.PlainError? && R.OnPacket(c, loop, p, at, true).outcome.GoesOn?
  }

  predicate Enabled(c: R.Config, s: System, e: Event) {
    match e
    case MirrorMoves(m) => !m.WriteEvent? && M.Enabled(s.mirror, m)
    case Datagram(Data(p, at, write)) =>
      s.outcome.GoesOn? && R.PacketOk(p) && M.Enabled(s.mirror, M.WriteEvent(p.payload, Offset(s.loop, p), write))
    case Datagram(_) => s.outcome.GoesOn?
  }

  function Received(c: R.Config, s: System, e: R.Event): System {
    var r := R.Next(c, s.loop, e);
    s.(loop := r.loop, outcome := r.outcome, arrivals := s.arrivals + [e])
  }

  function Moved(mc: M.Config, s: System, m: M.Event): System
    requires M.Enabled(s.mirror, m)
  {
    var after := M.Next(mc, s.mirror, m);
    s.(mirror := after, states := s.states + [after], events := s.events + [m])
  }

  function Next(c: R.Config, mc: M.Config, s: System, e: Event): System
    requires Enabled(c, s, e)
  {
    match e
    case MirrorMoves(m) => Moved(mc, s, m)
    case Datagram(Foreign) => Received(c, s, R.ForeignPacket)
    case Datagram(Malformed) => Received(c, s, R.MalformedPacket)
    case Datagram(Data(p, at, write)) =>
      if Writes(c, s.loop, p, at) then
        // WriteAt succeeds when the mirror was open and still is.
        var moved := Moved(mc, s, M.WriteEvent(p.payload, Offset(s.loop, p), write));
        Received(c, moved, R.DataPacket(p, at, s.mirror.phase.Open? && moved.mirror.phase.Open?))
      else Received(c, s, R.DataPacket(p, at, true))
  }

  function After(c: R.Config, mc: M.Config, script: seq<Event>): System {
    if script == [] then Start
    else
      var before, e := After(c, mc, script[..|script| - 1]), script[|script| - 1];
      if Enabled(c, before, e) then Next(c, mc, before, e) else before
  }

  // ---------------------------------------------------------------- both histories are runs, and the outputs agree

  ghost predicate Linked(c: R.Config, mc: M.Config, s: System) {
    && R.EventsOk(s.arrivals) && R.RunLoop(c, s.arrivals) == R.Result(s.loop, s.outcome)
    && |s.states| == |s.events| + 1 && M.IsRun(mc, s.states, s.events) && s.states[|s.events|] == s.mirror
    && (!s.mirror.phase.Aborted? ==> s.loop.output == s.mirror.output)
  }

  lemma ReceivedLinked(c: R.Config, mc: M.Config, s: System, e: R.Event)
    requires s.outcome.GoesOn? && R.EventsOk(s.arrivals) && R.RunLoop(c, s.arrivals) == R.Result(s.loop, s.outcome)
    requires e.DataPacket? ==> R.PacketOk(e.packet)
    ensures var s' := Received(c, s, e); R.EventsOk(s'.arrivals) && R.RunLoop(c, s'.arrivals) == R.Result(s'.loop, s'.outcome)
  {
    hide R.Next, R.PacketOk;
    var more := s.arrivals + [e];
    assert more[..|more| - 1] == s.arrivals;
  }

  lemma MovedLinked(mc: M.Config, s: System, m: M.Event)
    requires |s.states| == |s.events| + 1 && M.IsRun(mc, s.states, s.events) && s.states[|s.events|] == s.mirror
    requires M.Enabled(s.mirror, m)
    ensures var s' := Moved(mc, s, m);
            |s'.states| == |s'.events| + 1 && M.IsRun(mc, s'.states, s'.events) && s'.states[|s'.events|] == s'.mirror
  {
    hide M.Next, M.Enabled;
  }

  lemma MovesKeepOutput(mc: M.Config, m: M.State, e: M.Event)
    requires M.Enabled(m, e) && !e.WriteEvent?
    ensures M.Next(mc, m, e).output == m.output
    ensures m.phase.Aborted? ==> M.Next(mc, m, e).phase.Aborted?
  {
    hide M.WriteNext, M.SlotCount, M.Fail;
    FailKeepsOutput(m);
    FailKeepsOutput(m.(sealers := if m.sealers > 0 then m.sealers - 1 else 0));
    FailKeepsOutput(m.(reserved := m.reserved - 1, worker := M.Waiting, discard := true));
  }

  lemma FailKeepsOutput(m: M.State)
    ensures forall f :: M.Fail(m, f).output == m.output && (m.phase.Aborted? ==> M.Fail(m, f).phase.Aborted?)
  {
    hide M.SlotCount;
  }

  lemma {:induction false} EnqueueKeepsOutput(mc: M.Config, m: M.State)
    ensures M.EnqueueComplete(mc, m).output == m.output
    ensures m.phase.Open? ==> M.EnqueueComplete(mc, m).phase.Open? || M.EnqueueComplete(mc, m).phase.Aborted?
    decreases mc.frameLimit - m.nextEmit
  {
    hide Coverage.Complete, M.SlotCount;
    if m.nextEmit < mc.frameLimit && m.nextEmit in m.slots && Coverage.Complete(m.slots[m.nextEmit]) && |m.queue| < mc.maxSlots {
      EnqueueKeepsOutput(mc, M.Push(m));
    }
  }

  /** A write leaves a mirror open only if it stored exactly its payload, aborts it otherwise, and changes no other mirror. */
  lemma WriteOutcome(mc: M.Config, m: M.State, payload: seq<byte>, offset: int, write: M.Outcome)
    requires m.phase.Open? ==> m.failure.None?
    ensures var m' := M.WriteNext(mc, m, payload, offset, write);
            if !m.phase.Open? then m' == m
            else m'.phase.Aborted? || (m'.phase.Open? && m'.output == m.output + M.Image(payload, offset))
  {
    hide M.Plan, M.EnqueueComplete, M.Image, M.WriteSlots, M.Missing, M.SlotCount;
    if m.phase.Open? {
      match M.Plan(mc, m, |payload|, offset)
      case Some(_) =>
      case None =>
        S.PlanFacts(mc, m, |payload|, offset);
        if write.Stored? {
          EnqueueKeepsOutput(mc, M.Stored1(mc, m, payload, offset));
        }
    }
  }

  lemma SameImage(output: map<int, byte>, start: int, payload: seq<byte>)
    ensures R.Written(output, start, payload) == output + M.Image(payload, start)
  {
  }

  /** What a packet does to the output of the receive loop. */
  lemma PacketOutput(c: R.Config, loop: R.Loop, p: R.Packet, at: int, ok: bool)
    ensures var r := R.OnPacket(c, loop, p, at, ok);
            && (!Writes(c, loop, p, at) ==> r.loop.output == loop.output)
            && (Writes(c, loop, p, at) && ok ==> r.loop.output == R.Written(loop.output, Offset(loop, p), p.payload))
            && (Writes(c, loop, p, at) && !ok ==> r.outcome.PlainError? && r.loop.output == loop.output)
  {
    hide Insert, Overlaps, R.Missing, R.WithCadence, R.Written;
  }

  lemma DataLinked(c: R.Config, mc: M.Config, s: System, p: R.Packet, at: int, write: M.Outcome)
    requires Linked(c, mc, s) && Enabled(c, s, Datagram(Data(p, at, write)))
    ensures Linked(c, mc, Next(c, mc, s, Datagram(Data(p, at, write))))
  {
    hide M.IsRun, R.RunLoop, R.OnPacket, Writes, M.WriteNext, R.EventsOk, R.PacketOk;
    PacketOutput(c, s.loop, p, at, true);
    if Writes(c, s.loop, p, at) {
      var offset := Offset(s.loop, p);
      var moved := Moved(mc, s, M.WriteEvent(p.payload, offset, write));
      MovedLinked(mc, s, M.WriteEvent(p.payload, offset, write));
      var ok := s.mirror.phase.Open? && moved.mirror.phase.Open?;
      ReceivedLinked(c, mc, moved, R.DataPacket(p, at, ok));
      PacketOutput(c, s.loop, p, at, ok);
      S.RunInv(mc, s.states, s.events, |s.events|);
      OpenHasNoFailure(mc, s.mirror);
      WriteOutcome(mc, s.mirror, p.payload, offset, write);
      SameImage(s.loop.output, offset, p.payload);
    } else {
      ReceivedLinked(c, mc, s, R.DataPacket(p, at, true));
    }
  }

  lemma OpenHasNoFailure(mc: M.Config, m: M.State)
    requires S.Inv(mc, m)
    ensures m.phase.Open? ==> m.failure.None?
  {
  }

  lemma StepLinked(c: R.Config, mc: M.Config, s: System, e: Event)
    requires Linked(c, mc, s) && Enabled(c, s, e)
    ensures Linked(c, mc, Next(c, mc, s, e))
  {
    hide M.IsRun, R.RunLoop, R.EventsOk, R.OnPacket, M.Next;
    match e
    case MirrorMoves(m) =>
      MovedLinked(mc, s, m);
      MovesKeepOutput(mc, s.mirror, m);
    case Datagram(Foreign) => ReceivedLinked(c, mc, s, R.ForeignPacket);
    case Datagram(Malformed) => ReceivedLinked(c, mc, s, R.MalformedPacket);
    case Datagram(Data(p, at, write)) => DataLinked(c, mc, s, p, at, write);
  }

  lemma {:induction false} AlwaysLinked(c: R.Config, mc: M.Config, script: seq<Event>)
    ensures Linked(c, mc, After(c, mc, script))
    decreases |script|
  {
    hide Enabled, Next;
    if script == [] {
      assert R.RunLoop(c, []) == R.Result(R.Start, R.GoesOn);
    } else {
      hide Linked;
      var before, e := After(c, mc, script[..|script| - 1]), script[|script| - 1];
      AlwaysLinked(c, mc, script[..|script| - 1]);
      if Enabled(c, before, e) {
        StepLinked(c, mc, before, e);
      }
    }
  }

  // ---------------------------------------------------------------- the published file

  function Concat(frames: seq<M.Frame>): seq<byte> {
    if frames == [] then [] else Concat(frames[..|frames| - 1]) + frames[|frames| - 1].payload
  }

  lemma {:induction false} ConcatIndex(mc: M.Config, output: map<int, byte>, frames: seq<M.Frame>)
    requires forall k | 0 <= k < |frames| :: S.Mirrors(mc, output, frames[k], k)
    ensures |Concat(frames)| == M.At(mc, |frames|, 0)
    ensures forall o | 0 <= o < |Concat(frames)| :: o in output && output[o] == Concat(frames)[o]
    decreases |frames|
  {
    if frames == [] {
      assert M.At(mc, 0, 0) == 0;
    } else {
      var n := |frames| - 1;
      var init, last := frames[..n], frames[n];
      assert forall k | 0 <= k < n :: S.Mirrors(mc, output, frames[k], k);
      ConcatIndex(mc, output, init);
      assert S.Mirrors(mc, output, last, n);
      NextFrameAt(mc, n);
      hide M.At;
      forall o | 0 <= o < |Concat(frames)|
        ensures o in output && output[o] == Concat(frames)[o]
      {
        if o >= M.At(mc, n, 0) {
          var x := o - M.At(mc, n, 0);
          S.AtShift(mc, n);
          assert M.At(mc, n, x) == o && Concat(frames)[o] == last.payload[x];
        }
      }
    }
  }

  lemma NextFrameAt(mc: M.Config, n: nat)
    ensures M.At(mc, n + 1, 0) == M.At(mc, n, 0) + mc.frameBytes
  {
  }

  /** The output file, truncated to size. */
  ghost predicate FileIs(output: map<int, byte>, size: int, bytes: seq<byte>) {
    && output.Keys == Span(0, size) && |bytes| == size
    && forall o | 0 <= o < size :: o in output && output[o] == bytes[o]
  }

  /** What publication means: nothing but the received bytes, which are whole frames and the very frames the sink accepted. */
  ghost predicate Published(c: R.Config, mc: M.Config, s: System) {
    var left := R.Left(c, s.arrivals); var size, n := left.stats.outputBytes, s.mirror.sealedFrameCount;
    && FileIs(s.mirror.output, size, Concat(s.mirror.handed)) && left.output == s.mirror.output
    && size == n * mc.frameBytes == left.stats.payloadBytes && n == |s.mirror.handed| == s.mirror.accepted
  }

  /**
    Receiver and mirror: whatever arrived, however the mirror's callers interleaved and however the receive loop ended, if the
    mirror is sealed then the file is exactly the frames the sink accepted, one after the other, and it ends at OutputBytes.
   */
  lemma SealedCaptureIsExact(c: R.Config, mc: M.Config, script: seq<Event>)
    requires R.ConfigOk(c) && After(c, mc, script).mirror.phase.Sealed?
    ensures Published(c, mc, After(c, mc, script))
  {
    hide After, M.IsRun, R.RunLoop, R.Left, M.At, S.Mirrors, R.EventsOk, R.ConfigOk, Concat, R.RangesTell;
    var s := After(c, mc, script);
    AlwaysLinked(c, mc, script);
    R.LeftTells(c, s.arrivals);
    S.SealedIsExact(mc, s.states, s.events, |s.events|);
    S.HandedInOrder(mc, s.states, s.events, |s.events|, |s.events|);
    ConcatIndex(mc, s.mirror.output, s.mirror.handed);
    var left, n := R.Left(c, s.arrivals), s.mirror.sealedFrameCount;
    FrameTotal(mc, n);
    KeysAre(left.output, M.At(mc, n, 0));
    R.HighestIs(left, M.At(mc, n, 0));
    R.WholeIffCounted(left);
  }

  lemma KeysAre(output: map<int, byte>, end: int)
    requires output.Keys == Span(0, end)
    ensures forall x :: x in output <==> 0 <= x < end
  {
  }

  lemma FrameTotal(mc: M.Config, n: nat)
    ensures M.At(mc, n, 0) == n * mc.frameBytes && (n > 0 ==> M.At(mc, n, 0) > 0)
  {
  }

  // ---------------------------------------------------------------- the session's decision

  predicate IsSeal(e: M.Event) { e.SealBeginEvent? || e.SealFinishEvent? || e.SealExpireEvent? }

  /** Step i of the mirror's run is a Seal call that returns nil. */
  ghost predicate SealsAt(mc: M.Config, s: System, i: nat) {
    && i < |s.events| < |s.states| && IsSeal(s.events[i]) && M.Enabled(s.states[i], s.events[i])
    && S.SealReply(mc, s.states[i], s.events[i]).ReturnsNil?
  }

  lemma SealedAfter(c: R.Config, mc: M.Config, script: seq<Event>, i: nat)
    requires SealsAt(mc, After(c, mc, script), i)
    ensures After(c, mc, script).mirror.phase.Sealed?
  {
    hide After, M.Next, M.Enabled, S.SealReply, R.RunLoop, R.EventsOk;
    var s := After(c, mc, script);
    AlwaysLinked(c, mc, script);
    S.SealReplies(mc, s.states, s.events, i, s.events[i]);
    S.SealedIsFinal(mc, s.states, s.events, i + 1, |s.events|);
  }

  /** A successful Seal in the session's trace is one of the Seal calls of the mirror's run. */
  ghost predicate SealIsInRun(trace: seq<T.Step>, mc: M.Config, s: System) {
    T.Step(T.Seal, true) in trace ==> exists i :: SealsAt(mc, s, i)
  }

  /** Validate in the session's trace judges what the receive loop left. */
  predicate ValidateJudges(trace: seq<T.Step>, plan: R.Plan, left: R.Loop, startIssuedAt: Option<int>, durationOk: bool) {
    forall i | 0 <= i < |trace| && trace[i].op.Validate? :: trace[i].ok == R.ValidResult(plan, left.stats, startIssuedAt, durationOk)
  }

  /** The wait of a finite capture succeeds only if the receive loop has returned without an error. */
  predicate WaitIsFinal(trace: seq<T.Step>, plan: R.Plan, c: R.Config, arrivals: seq<R.Event>) {
    !plan.infinite && T.Step(T.WaitCapture, true) in trace ==> R.Returned(c, arrivals).Some?
  }

  lemma {:induction false} SealedSomewhere(t: seq<T.Step>) returns (i: nat)
    requires T.LedgerOf(t).seals > 0
    ensures i < |t| && t[i].op.Seal?
    decreases |t|
  {
    hide T.IsHardware;
    var n := |t| - 1;
    if t[n].op.Seal? {
      i := n;
    } else {
      i := SealedSomewhere(t[..n]);
    }
  }

  /**
    A session over a mirrored capture: whatever the hardware does and however the receive loop ended, if it commits it has
    published exactly the frames the sink accepted, and those of a finite plan are the planned bytes.
   */
  method RunMirrored(
    o: T.Options, w: T.World, c: R.Config, mc: M.Config, plan: R.Plan, script: seq<Event>, startIssuedAt: Option<int>,
    durationOk: bool)
    returns (trace: seq<T.Step>, committed: bool)
    requires o.mirror && R.ConfigOk(c) && R.PlanOk(plan)
    ensures committed <==> T.AllOk(trace)
    ensures committed && SealIsInRun(trace, mc, After(c, mc, script)) ==> Published(c, mc, After(c, mc, script))
    ensures var left := R.Left(c, After(c, mc, script).arrivals);
            committed && ValidateJudges(trace, plan, left, startIssuedAt, durationOk) && !plan.infinite ==>
              left.stats.outputBytes == plan.expectedBytes
  {
    hide T.LedgerOf, T.Ops, T.SuccessOrder, T.StoppedOnce, T.FinishedOnce, T.CommitsLast, T.CheckedAtRest, T.Honest;
    hide After, Published, R.ConfigOk, T.CancellationStays, T.StopSeen, SealsAt, R.Left, R.ValidResult;
    trace, committed := T.Run(o, w);
    if committed {
      PlannedSize(trace, plan, R.Left(c, After(c, mc, script).arrivals), startIssuedAt, durationOk);
    }
    if committed && SealIsInRun(trace, mc, After(c, mc, script)) {
      ghost var i := SealedSomewhere(trace);
      assert trace[i] == T.Step(T.Seal, true);
      ghost var k :| SealsAt(mc, After(c, mc, script), k);
      SealedAfter(c, mc, script, k);
      SealedCaptureIsExact(c, mc, script);
    }
  }

  /** The file an unmirrored session commits: the receiver's output, cut at OutputBytes. */
  ghost predicate FileIsExact(left: R.Loop) { left.output.Keys == Span(0, left.stats.outputBytes) }

  /**
    A session without a mirror: a committed file has the planned size or a whole number of frames, and it is exact if and only if
    as many payload bytes were received as it is long. A finite capture always is.
   */
  method RunUnmirrored(
    o: T.Options, w: T.World, c: R.Config, plan: R.Plan, arrivals: seq<R.Event>, startIssuedAt: Option<int>, durationOk: bool)
    returns (trace: seq<T.Step>, committed: bool)
    requires R.ConfigOk(c) && R.PlanOk(plan) && R.EventsOk(arrivals)
    ensures committed <==> T.AllOk(trace)
    ensures var left := R.Left(c, arrivals);
            committed && ValidateJudges(trace, plan, left, startIssuedAt, durationOk) && WaitIsFinal(trace, plan, c, arrivals) ==>
              && left.stats.outputBytes > 0
              && (if plan.infinite then left.stats.outputBytes % plan.bytesPerFrame == 0
                  else left.stats.outputBytes == plan.expectedBytes && FileIsExact(left))
              && (FileIsExact(left) <==> left.stats.payloadBytes == left.stats.outputBytes)
  {
    trace, committed := T.Run(o, w);
    if committed {
      Accepted(o, trace, plan, c, arrivals, startIssuedAt, durationOk);
    }
  }

  lemma {:induction false} OpsOf(t: seq<T.Step>, op: T.Op)
    ensures op in T.Ops(t) <==> exists i :: 0 <= i < |t| && t[i].op == op
    decreases |t|
  {
    if t != [] {
      var n := |t| - 1;
      OpsOf(t[..n], op);
      if op in T.Ops(t[..n]) {
        var i :| 0 <= i < n && t[..n][i].op == op;
        assert t[i].op == op;
      }
      assert op in T.Ops(t) <==> op in T.Ops(t[..n]) || op == t[n].op;
      assert forall i | 0 <= i < n :: t[..n][i] == t[i];
    }
  }

  lemma WaitInOrder(o: T.Options, awaited: bool)
    ensures T.WaitCapture in T.SuccessOrder(o, awaited)
  {
    var order := T.AwaitOrder(o);
    assert order[|order| - 1] == T.WaitCapture;
  }

  lemma Accepted(
    o: T.Options, trace: seq<T.Step>, plan: R.Plan, c: R.Config, arrivals: seq<R.Event>, startIssuedAt: Option<int>, durationOk: bool)
    requires R.ConfigOk(c) && R.PlanOk(plan) && R.EventsOk(arrivals)
    requires T.AllOk(trace) && T.CheckedAtRest(trace)
    requires T.Ops(trace) == T.SuccessOrder(o, false) || T.Ops(trace) == T.SuccessOrder(o, true)
    ensures var left := R.Left(c, arrivals);
            ValidateJudges(trace, plan, left, startIssuedAt, durationOk) && WaitIsFinal(trace, plan, c, arrivals) ==>
              && left.stats.outputBytes > 0
              && (if plan.infinite then left.stats.outputBytes % plan.bytesPerFrame == 0
                  else left.stats.outputBytes == plan.expectedBytes && FileIsExact(left))
              && (FileIsExact(left) <==> left.stats.payloadBytes == left.stats.outputBytes)
  {
    var left := R.Left(c, arrivals);
    hide T.SuccessOrder, T.Ops, R.Left, R.ValidResult, R.Returned, R.EventsOk, R.ConfigOk;
    WaitInOrder(o, false);
    WaitInOrder(o, true);
    OpsOf(trace, T.WaitCapture);
    if ValidateJudges(trace, plan, left, startIssuedAt, durationOk) {
      ValidatedResult(trace, plan, left, startIssuedAt, durationOk);
      R.ValidExactIff(plan, c, arrivals, startIssuedAt, durationOk);
      WholeMeansExact(left);
    }
  }

  lemma ValidatedResult(trace: seq<T.Step>, plan: R.Plan, left: R.Loop, startIssuedAt: Option<int>, durationOk: bool)
    requires T.CheckedAtRest(trace) && ValidateJudges(trace, plan, left, startIssuedAt, durationOk)
    ensures R.ValidResult(plan, left.stats, startIssuedAt, durationOk)
  {
    hide R.ValidResult;
    var k, v :| 0 <= k < v < |trace| && trace[k] == T.Step(T.CheckContext, true) && trace[v] == T.Step(T.Validate, true)
                && forall j | k < j < |trace| :: !T.IsHardware(trace[j].op);
  }

  lemma PlannedSize(trace: seq<T.Step>, plan: R.Plan, left: R.Loop, startIssuedAt: Option<int>, durationOk: bool)
    requires T.CheckedAtRest(trace) && R.PlanOk(plan)
    ensures ValidateJudges(trace, plan, left, startIssuedAt, durationOk) && !plan.infinite ==>
              left.stats.outputBytes == plan.expectedBytes
  {
    hide T.CheckedAtRest, ValidateJudges, R.CheckTiming;
    if ValidateJudges(trace, plan, left, startIssuedAt, durationOk) {
      ValidatedResult(trace, plan, left, startIssuedAt, durationOk);
    }
  }

  lemma WholeMeansExact(left: R.Loop)
    ensures R.Whole(left) <==> FileIsExact(left)
  {
  }

  /** An open-ended session can commit a file with a hole: every call succeeds, and Validate judges unfinalised statistics. */
  method CommitWithHole() returns (o: T.Options, trace: seq<T.Step>, committed: bool)
    ensures committed && !o.mirror && o.infinite && ValidateJudges(trace, R.HolePlan, R.Left(R.HoleConfig, R.HoleEvents), Some(0), true)
    ensures R.Left(R.HoleConfig, R.HoleEvents).stats.outputBytes == 32 && !FileIsExact(R.Left(R.HoleConfig, R.HoleEvents))
  {
    hide R.Left, R.ValidResult, R.RunLoop, T.Ops, T.SuccessOrder, T.LedgerOf, T.StoppedOnce, T.FinishedOnce, T.CommitsLast;
    hide T.CancellationStays, T.StopSeen, T.CheckedAtRest;
    o := T.Options(false, true, false, false, false, true, true, false);
    var w := T.World((t, op) => true, (t, q: T.Query) => q.StopObserved?);
    trace, committed := T.Run(o, w);
    R.HoleIsAccepted();
  }
}
