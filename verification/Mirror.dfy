/**
  The mirror object. Each critical section of the mutex (the caller's WriteAt, Seal and Abort, and the sections of the
  sink worker) is a method that performs exactly the corresponding step of MirrorModel and keeps the invariant of
  MirrorSafety. Play runs any script of them on the object and draws the safety results for it.
 */
module Mirror {
  import opened Bytes
  import opened Common
  import opened Intervals
  import opened Coverage
  import opened MirrorModel
  import opened MirrorSafety
  import opened MirrorAdmission

  lemma CanonicalSlots(c: Config, s: State)
    requires Inv(c, s)
    ensures forall k | k in s.slots :: Canonical(s.slots[k].ranges)
  {
    hide At, Covers, Total;
    assert forall k | k in s.slots :: SlotMirrors(c, s.output, k, s.slots[k]);
  }

  /** Every fragment of the write fits the frame it falls into. */
  ghost predicate Fitting(c: Config, slots: map<int, Spool>, payload: seq<byte>, offset: nat) {
    forall k | FirstFrame(c, offset) <= k <= LastFrame(c, offset, |payload|) ::
      && ValidSpool(SlotAt(c, slots, k), c.frameBytes)
      && PreflightSpool(SlotAt(c, slots, k), FragmentStart(c, offset, k), FragmentEnd(c, offset, |payload|, k)).Fits?
  }

  lemma PlannedFits(c: Config, s: State, payload: seq<byte>, offset: nat)
    requires Inv(c, s) && Plan(c, s, |payload|, offset).None?
    ensures Fitting(c, s.slots, payload, offset)
  {
    hide Plan, At, FirstFrame, LastFrame, FragmentStart, FragmentEnd, PreflightSpool, ValidSpool;
    PlanFacts(c, s, |payload|, offset);
    EmptyValid(c.frameBytes);
    var first, last := FirstFrame(c, offset), LastFrame(c, offset, |payload|);
    forall k | first <= k <= last
      ensures ValidSpool(SlotAt(c, s.slots, k), c.frameBytes)
      ensures PreflightSpool(SlotAt(c, s.slots, k), FragmentStart(c, offset, k), FragmentEnd(c, offset, |payload|, k)).Fits?
    {
      FragmentsFit(c, s.slots, offset, |payload|, first, last, k);
    }
  }

  /** The part of the write that falls into frame k. */
  method ApplyTo(c: Config, sp: Spool, payload: seq<byte>, offset: nat, k: int) returns (applied: Spool)
    requires ValidSpool(sp, c.frameBytes)
    requires PreflightSpool(sp, FragmentStart(c, offset, k), FragmentEnd(c, offset, |payload|, k)).Fits?
    ensures applied == ApplyFragment(c, sp, payload, offset, k)
  {
    hide ApplySpool, ApplyFragment, Total, Insert, Overlaps, Within;
    FragmentIsApply(c, sp, payload, offset, k);
    var start, end := FragmentStart(c, offset, k), FragmentEnd(c, offset, |payload|, k);
    AtShift(c, k);
    applied := Apply(sp, start, payload[At(c, k, start) - offset..At(c, k, end) - offset]);
  }

  /** The loop that creates missing slots and applies every fragment to its frame. */
  method ApplyFragments(c: Config, slots: map<int, Spool>, payload: seq<byte>, offset: nat) returns (written: map<int, Spool>)
    requires Fitting(c, slots, payload, offset)
    ensures written == WriteSlots(c, slots, payload, offset)
  {
    hide FirstFrame, LastFrame, PreflightSpool, ValidSpool, ApplyFragment, At, SlotAt, FragmentStart, FragmentEnd;
    var first, last := FirstFrame(c, offset), LastFrame(c, offset, |payload|);
    written := slots;
    var index := first;
    while index <= last
      invariant first <= index
      invariant index > last ==> index == last + 1 || index == first
      invariant written.Keys == slots.Keys + Span(first, index)
      invariant forall k | k in written ::
                  written[k] == if first <= k < index then ApplyFragment(c, SlotAt(c, slots, k), payload, offset, k) else slots[k]
    {
      var frame := ApplyTo(c, SlotAt(c, slots, index), payload, offset, index);
      written := written[index := frame];
      index := index + 1;
    }
  }

  lemma FailCloses(s: State, f: Failure)
    ensures !Fail(s, f).phase.Open?
  {
  }

  class Mirror {
    const c: Config
    var phase: Phase
    var failure: Option<Failure>
    var slots: map<int, Spool>
    var reserved: int
    var nextEmit: nat
    var delivered: nat
    var sealedFrameCount: nat
    var queue: seq<Frame>
    var queueClosed: bool
    var sinkCancelled: bool
    var discard: bool  // the sink worker's local variable

    // Positions of the Seal callers and of the worker.
    var sealers: nat
    var worker: Worker

    // The history of output and sink.
    ghost var output: map<int, byte>
    ghost var handed: seq<Frame>
    ghost var accepted: nat
    ghost var taken: nat

    ghost function Value(): State
      reads this
    {
      State(phase, failure, slots, reserved, nextEmit, delivered, sealedFrameCount, queue, queueClosed,
            sinkCancelled, sealers, worker, discard, output, handed, accepted, taken)
    }

    constructor (c: Config)
      ensures this.c == c && Value() == Initial && Inv(c, Value())
    {
      InitialInv(c);
      this.c := c;
      phase, failure, slots, reserved, nextEmit := Open, None, map[], 0, 0;
      delivered, sealedFrameCount, queue, queueClosed, sinkCancelled, discard := 0, 0, [], false, false, false;
      sealers, worker, output, handed, accepted, taken := 0, Waiting, map[], [], 0, 0;
    }

    /** NewMirror: refuses an unusable configuration, otherwise starts in the initial state. */
    static method Create(raw: RawConfig) returns (mirror: Mirror?)
      ensures mirror == null <==> NewMirror(raw).None?
      ensures mirror != null ==> fresh(mirror) && NewMirror(raw).value == mirror.c && mirror.Value() == Initial
    {
      match NewMirror(raw)
      case None =>
        mirror := null;
      case Some(limits) =>
        NewMirrorBounds(raw, limits);
        mirror := new Mirror(limits);
    }

    method AbortLocked()
      modifies this`phase, this`reserved, this`slots, this`queueClosed
      ensures Value() == AbortState(old(Value()))
    {
      hide SlotCount;
      if !phase.Sealed? && !phase.Aborted? {
        phase := Aborted;
        reserved := reserved - SlotCount(slots);
        slots := map[];
        queueClosed := true;
      }
    }

    /** failLocked: only the first failure is kept. */
    method FailLocked(f: Failure)
      modifies this`failure, this`phase, this`reserved, this`slots, this`queueClosed
      ensures Value() == Fail(old(Value()), f)
    {
      if failure.None? {
        failure := Some(f);
      }
      AbortLocked();
    }

    // -------------------------------------------------------------- writers

    /** planWriteLocked: the refusal, if any, decided before anything is written. */
    method PlanWrite(length: nat, offset: int) returns (refusal: Option<Failure>)
      requires forall k | k in slots :: Canonical(slots[k].ranges)
      ensures refusal == Plan(c, Value(), length, offset)
    {
      if length == 0 || offset < 0 || offset > ExpectedBytes(c) || length > ExpectedBytes(c) - offset {
        return Some(Integrity);
      }
      hide Missing, CheckFragments, Canonical, At, FirstFrame, LastFrame;
      var firstFrame, lastFrame := FirstFrame(c, offset), LastFrame(c, offset, length);
      if firstFrame < nextEmit {
        return Some(Integrity);
      }
      if lastFrame - nextEmit >= c.maxSlots {
        return Some(Backpressure);
      }
      var missing := CountMissing(firstFrame, lastFrame);
      if missing > c.maxSlots - reserved {
        return Some(Backpressure);
      }
      refusal := PreflightFragments(length, offset, firstFrame, lastFrame);
    }

    method CountMissing(firstFrame: int, lastFrame: int) returns (missing: nat)
      ensures missing == Missing(slots.Keys, firstFrame, lastFrame)
    {
      missing := 0;
      var index := firstFrame;
      while index <= lastFrame
        invariant missing == Missing(slots.Keys, firstFrame, index - 1)
        invariant index == firstFrame || firstFrame <= index <= lastFrame + 1
      {
        if index !in slots {
          missing := missing + 1;
        }
        index := index + 1;
      }
    }

    method PreflightFragments(length: nat, offset: int, firstFrame: int, lastFrame: int) returns (refusal: Option<Failure>)
      requires forall k | k in slots :: Canonical(slots[k].ranges)
      ensures refusal == CheckFragments(c, slots, offset, length, firstFrame, lastFrame)
    {
      hide At, FragmentStart, FragmentEnd;
      var index := firstFrame;
      while index <= lastFrame
        invariant CheckFragments(c, slots, offset, length, firstFrame, lastFrame)
               == CheckFragments(c, slots, offset, length, index, lastFrame)
      {
        var frame := SlotAt(c, slots, index);
        EmptyValid(c.frameBytes);
        var check := CheckRange(frame, FragmentStart(c, offset, index), FragmentEnd(c, offset, length, index));
        if check.Refused? {
          return Some(if check.reason.SparseLimit? then Backpressure else Integrity);
        }
        index := index + 1;
      }
      return None;
    }

    /** enqueueCompleteLocked: moves complete frames from their slots to the queue, oldest first. */
    method EnqueueCompleteFrames()
      modifies this
      ensures Value() == EnqueueComplete(c, old(Value()))
    {
      hide Complete, SlotCount, Push, Fail;
      ghost var target := EnqueueComplete(c, Value());
      while nextEmit < c.frameLimit
        invariant EnqueueComplete(c, Value()) == target
      {
        if nextEmit !in slots || !Complete(slots[nextEmit]) {
          break;
        }
        if |queue| >= c.maxSlots {
          FailLocked(Backpressure);
          return;
        }
        PushNext();
      }
    }

    method PushNext()
      requires nextEmit in slots
      modifies this`queue, this`slots, this`nextEmit
      ensures Value() == Push(old(Value())) && nextEmit == old(nextEmit) + 1
    {
      queue := queue + [Frame(nextEmit, slots[nextEmit].data)];
      slots := slots - {nextEmit};
      nextEmit := nextEmit + 1;
    }

    /** Records a stored write: authoritative bytes, reserved slots and coverage. */
    method StorePlanned(payload: seq<byte>, offset: nat)
      requires Fitting(c, slots, payload, offset)
      modifies this`output, this`slots, this`reserved
      ensures Value() == Stored1(c, old(Value()), payload, offset)
    {
      hide Fitting, Missing, WriteSlots, Image, FirstFrame, LastFrame;
      var missing := CountMissing(FirstFrame(c, offset), LastFrame(c, offset, |payload|));
      output := output + Image(payload, offset);
      slots := ApplyFragments(c, slots, payload, offset);
      reserved := reserved + missing;
    }

    method WriteAt(payload: seq<byte>, offset: int, outcome: Outcome) returns (ok: bool)
      requires Inv(c, Value()) && Enabled(Value(), WriteEvent(payload, offset, outcome))
      modifies this
      ensures Inv(c, Value()) && Value() == WriteNext(c, old(Value()), payload, offset, outcome)
      ensures ok <==> old(phase).Open? && phase.Open?
      ensures outcome.Stored? ==> (ok <==> old(phase).Open? && Admissible(c, old(Value()), |payload|, offset))
    {
      WriteInv(c, Value(), payload, offset, outcome);
      CanonicalSlots(c, Value());
      if phase.Open? {
        WriteDecides(c, Value(), payload, offset);
      }
      hide Admissible, Fault, WriteNext;
      hide Inv, Plan, EnqueueComplete, Stored1, Canonical, Fail;
      if failure.Some? || !phase.Open? {
        return false;
      }
      ok := WriteOpen(payload, offset, outcome);
    }

    method WriteOpen(payload: seq<byte>, offset: int, outcome: Outcome) returns (ok: bool)
      requires Inv(c, Value()) && failure.None? && phase.Open?
      requires forall k | k in slots :: Canonical(slots[k].ranges)
      modifies this
      ensures Value() == WriteNext(c, old(Value()), payload, offset, outcome)
      ensures ok <==> phase.Open?
    {
      hide Inv, Plan, EnqueueComplete, Stored1, Canonical, Fail;
      var refusal := PlanWrite(|payload|, offset);
      if refusal.Some? {
        FailCloses(Value(), refusal.value);
        FailLocked(refusal.value);
        return false;
      }
      if outcome.Damaged? {
        output := output + outcome.region;
        FailCloses(Value(), WriteFailed);
        FailLocked(WriteFailed);
        return false;
      }
      PlanFacts(c, Value(), |payload|, offset);
      StoreAndQueue(payload, offset);
      return phase.Open?;
    }

    method StoreAndQueue(payload: seq<byte>, offset: nat)
      requires Inv(c, Value()) && Plan(c, Value(), |payload|, offset).None?
      modifies this
      ensures Value() == EnqueueComplete(c, Stored1(c, old(Value()), payload, offset))
    {
      hide Inv, Plan, EnqueueComplete, Stored1, Fitting;
      PlannedFits(c, Value(), payload, offset);
      StorePlanned(payload, offset);
      EnqueueCompleteFrames();
    }

    // -------------------------------------------------------------- the sink worker

    method WorkerTake() returns (frame: Frame)
      requires Inv(c, Value()) && Enabled(Value(), TakeEvent)
      modifies this`queue, this`worker, this`taken
      ensures Inv(c, Value()) && Value() == Take(old(Value())) && worker == Holding(frame)
    {
      hide Inv;
      TakeInv(c, Value());
      frame := queue[0];
      queue := queue[1..];
      worker, taken := Holding(frame), taken + 1;
    }

    /** Decides, under the lock, whether the frame in hand still goes to the sink. */
    method WorkerCheckDiscard(frame: Frame) returns (deliver: bool)
      requires Inv(c, Value()) && worker == Holding(frame)
      modifies this`discard, this`worker, this`handed
      ensures Inv(c, Value()) && Value() == CheckDiscard(old(Value())) && deliver == worker.Writing?
    {
      hide Inv;
      CheckInv(c, Value());
      if !discard {
        discard := failure.Some? || phase.Aborted? || sinkCancelled;
      }
      worker := if discard then Discarding(frame) else Writing(frame);
      if !discard {
        handed := handed + [frame];
      }
      return !discard;
    }

    /** The section after WriteFrame returned (called), or after the frame was skipped (not called). */
    method WorkerReturn(called: bool, sinkOk: bool)
      requires Inv(c, Value()) && Enabled(Value(), ReturnEvent(sinkOk)) && called == worker.Writing?
      modifies this
      ensures Inv(c, Value()) && Value() == Return(old(Value()), sinkOk)
    {
      hide Inv, Return;
      ReturnInv(c, Value(), sinkOk);
      ReleaseFrame(called, sinkOk);
    }

    method SinkRefuses()
      modifies this`discard, this`failure, this`phase, this`reserved, this`slots, this`queueClosed
      ensures var stopped := old(Value()).(discard := true);
              Value() == if stopped.phase.Aborted? then stopped else Fail(stopped, SinkFailed)
    {
      hide Fail;
      discard := true;
      if !phase.Aborted? {
        FailLocked(SinkFailed);
      }
    }

    method ReleaseFrame(called: bool, sinkOk: bool)
      requires (worker.Writing? || worker.Discarding?) && called == worker.Writing?
      modifies this
      ensures Value() == Return(old(Value()), sinkOk)
    {
      hide Fail;
      reserved := reserved - 1;
      worker := Waiting;
      if called {
        if !sinkOk {
          SinkRefuses();
        } else {
          accepted := accepted + 1;
          if !phase.Aborted? {
            delivered := delivered + 1;
          }
        }
      }
    }

    method WorkerExit()
      requires Inv(c, Value()) && Enabled(Value(), ExitEvent)
      modifies this`worker
      ensures Inv(c, Value()) && Value() == old(Value()).(worker := Done)
    {
      hide Inv;
      QuietInv(c, Value(), ExitEvent);
      worker := Done;
    }

    // -------------------------------------------------------------- Seal and Abort

    /** Seal up to the point where it returns or starts waiting for the worker. */
    method BeginSeal() returns (reply: Reply)
      requires Inv(c, Value())
      modifies this
      ensures Inv(c, Value()) && Value() == SealBegin(c, old(Value())).0 && reply == SealBegin(c, old(Value())).1
    {
      hide Inv;
      SealBeginInv(c, Value());
      hide Fail, AbortState, SlotCount;
      match phase
      case Sealed => return ReturnsNil;
      case Aborted => return ReturnsError;
      case Sealing =>
        sealers := sealers + 1;
        return Waits;
      case Open =>
        if failure.Some? {
          AbortLocked();
          return ReturnsError;
        }
        var count := if c.frameCount == 0 then nextEmit else c.frameCount;
        if count == 0 || nextEmit != count || SlotCount(slots) != 0 {
          FailLocked(Integrity);
          return ReturnsError;
        }
        sealedFrameCount := count;
        phase := Sealing;
        queueClosed := true;
        sealers := sealers + 1;
        return Waits;
    }

    /** Seal once the worker has returned. */
    method FinishSeal() returns (reply: Reply)
      requires Inv(c, Value()) && Enabled(Value(), SealFinishEvent)
      modifies this
      ensures Inv(c, Value()) && Value() == SealFinish(old(Value())).0 && reply == SealFinish(old(Value())).1
    {
      hide Inv;
      SealFinishInv(c, Value());
      hide Fail;
      sealers := sealers - 1;
      match phase
      case Aborted => return ReturnsError;
      case Sealed => return ReturnsNil;
      case Open => return ReturnsError;
      case Sealing =>
        if failure.Some? {
          phase := Aborted;
          return ReturnsError;
        }
        if delivered != sealedFrameCount || reserved != 0 {
          FailLocked(Integrity);
          return ReturnsError;
        }
        phase := Sealed;
        return ReturnsNil;
    }

    /** Seal when its deadline passes first. */
    method ExpireSeal() returns (reply: Reply)
      requires Inv(c, Value()) && Enabled(Value(), SealExpireEvent)
      modifies this
      ensures Inv(c, Value()) && Value() == SealExpire(old(Value())).0 && reply == SealExpire(old(Value())).1
    {
      hide Inv;
      SealExpireInv(c, Value());
      hide Fail;
      sealers := sealers - 1;
      if phase.Sealed? {
        return ReturnsNil;
      }
      if phase.Aborted? {
        return ReturnsError;
      }
      FailLocked(SealTimedOut);
      return ReturnsError;
    }

    method Abort()
      requires Inv(c, Value())
      modifies this
      ensures Inv(c, Value()) && Value() == AbortState(old(Value()))
    {
      hide Inv;
      AbortInv(c, Value());
      AbortLocked();
    }

    /** The sinkCancel call that follows an abort or a seal outside the lock. */
    method CancelSink()
      requires Inv(c, Value()) && Enabled(Value(), CancelSinkEvent)
      modifies this`sinkCancelled
      ensures Inv(c, Value()) && Value() == old(Value()).(sinkCancelled := true)
    {
      hide Inv;
      QuietInv(c, Value(), CancelSinkEvent);
      sinkCancelled := true;
    }

    // -------------------------------------------------------------- scripts

    method IsEnabled(e: Event) returns (enabled: bool)
      ensures enabled == Enabled(Value(), e)
    {
      match e
      case WriteEvent(payload, offset, outcome) =>
        enabled := outcome.Damaged? ==> forall o | o in outcome.region :: offset <= o < offset + |payload|;
      case TakeEvent => enabled := worker.Waiting? && queue != [];
      case CheckEvent => enabled := worker.Holding?;
      case ReturnEvent(_) => enabled := worker.Writing? || worker.Discarding?;
      case ExitEvent => enabled := worker.Waiting? && queue == [] && queueClosed;
      case SealBeginEvent => enabled := true;
      case SealFinishEvent => enabled := sealers > 0 && worker.Done?;
      case SealExpireEvent => enabled := sealers > 0;
      case AbortEvent => enabled := true;
      case CancelSinkEvent => enabled := phase.Aborted? || phase.Sealed?;
    }

    method WorkerStep(e: Event)
      requires Inv(c, Value()) && Enabled(Value(), e)
      requires e.TakeEvent? || e.CheckEvent? || e.ReturnEvent? || e.ExitEvent?
      modifies this
      ensures Inv(c, Value()) && Value() == Next(c, old(Value()), e)
    {
      hide Inv, Take, CheckDiscard, Return;
      match e
      case TakeEvent => var _ := WorkerTake();
      case CheckEvent => var _ := WorkerCheckDiscard(worker.frame);
      case ReturnEvent(sinkOk) => WorkerReturn(worker.Writing?, sinkOk);
      case ExitEvent => WorkerExit();
    }

    method CallerStep(e: Event)
      requires Inv(c, Value()) && Enabled(Value(), e)
      requires !e.TakeEvent? && !e.CheckEvent? && !e.ReturnEvent? && !e.ExitEvent?
      modifies this
      ensures Inv(c, Value()) && Value() == Next(c, old(Value()), e)
    {
      hide Inv, WriteNext, SealBegin, SealFinish, SealExpire, AbortState;
      match e
      case WriteEvent(payload, offset, outcome) => var _ := WriteAt(payload, offset, outcome);
      case SealBeginEvent => var _ := BeginSeal();
      case SealFinishEvent => var _ := FinishSeal();
      case SealExpireEvent => var _ := ExpireSeal();
      case AbortEvent => Abort();
      case CancelSinkEvent => CancelSink();
    }
  }

  /** The mirror after a script of events, each of which happens if it can. */
  ghost function Played(c: Config, script: seq<Event>): State {
    if script == [] then Initial
    else
      var before, e := Played(c, script[..|script| - 1]), script[|script| - 1];
      if Enabled(before, e) then Next(c, before, e) else before
  }

  lemma PlayedOne(c: Config, script: seq<Event>, i: nat)
    requires i < |script|
    ensures var before := Played(c, script[..i]);
            Played(c, script[..i + 1]) == if Enabled(before, script[i]) then Next(c, before, script[i]) else before
  {
    hide Enabled, Next;
    assert script[..i + 1][..i] == script[..i];
  }

  lemma Extend(c: Config, states: seq<State>, events: seq<Event>, e: Event, next: State)
    requires IsRun(c, states, events) && Enabled(states[|events|], e) && next == Next(c, states[|events|], e)
    ensures IsRun(c, states + [next], events + [e])
  {
    hide Enabled, Next;
  }

  /**
    Plays a script of events on a new mirror, leaving out those that cannot happen. What the object goes through is a run, so
    the sink was handed frames 0, 1, 2, ... as the output holds them, and a sealed mirror's output is exactly
    the frames the sink accepted.
   */
  method Play(raw: RawConfig, script: seq<Event>) returns (mirror: Mirror?, ghost states: seq<State>, ghost events: seq<Event>)
    ensures mirror == null <==> NewMirror(raw).None?
    ensures mirror != null ==>
              && NewMirror(raw) == Some(mirror.c) && mirror.Value() == Played(mirror.c, script)
              && |states| == |events| + 1 && IsRun(mirror.c, states, events) && states[|events|] == mirror.Value()
              && (forall k | 0 <= k < |mirror.handed| :: Mirrors(mirror.c, mirror.output, mirror.handed[k], k))
              && (mirror.phase.Sealed? ==>
                    && mirror.output.Keys == FirstFrames(mirror.c, mirror.sealedFrameCount)
                    && mirror.sealedFrameCount == |mirror.handed| == mirror.accepted)
  {
    hide Inv, Enabled, Next, NewMirror, Mirrors, FirstFrames;
    states, events := [], [];
    mirror := Mirror.Create(raw);
    if mirror == null {
      return;
    }
    var c := mirror.c;
    states := [mirror.Value()];
    assert IsRun(c, states, events) && Played(c, script[..0]) == Initial;
    InitialInv(c);
    hide IsRun, Played;
    for i := 0 to |script|
      invariant fresh(mirror) && mirror.c == c && |states| == |events| + 1 && IsRun(c, states, events)
      invariant Inv(c, mirror.Value()) && states[|events|] == mirror.Value() == Played(c, script[..i])
    {
      PlayedOne(c, script, i);
      var e := script[i];
      var enabled := mirror.IsEnabled(e);
      if enabled {
        if e.TakeEvent? || e.CheckEvent? || e.ReturnEvent? || e.ExitEvent? {
          mirror.WorkerStep(e);
        } else {
          mirror.CallerStep(e);
        }
        Extend(c, states, events, e, mirror.Value());
        states, events := states + [mirror.Value()], events + [e];
      }
    }
    assert script[..|script|] == script;
    HandedInOrder(c, states, events, |events|, |events|);
    if mirror.phase.Sealed? {
      SealedIsExact(c, states, events, |events|);
    }
  }
}
