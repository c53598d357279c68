/**
  The lifecycle of one capture session (internal/session/session.go): Run, its deferred finaliser and cleanup, with
  StartRecordConvergent of internal/dca/client.go. Every call into hardware, receiver, participant, mirror and output file
  is a step of a trace, and its outcome is chosen by an arbitrary world that may depend on everything before it.
 */
module SessionTrace {

  datatype Op =
    | CheckContext | VerifyPlatform | StopRadar | StopRecord | ResetFpga | Configure | TakeAsyncStatuses | ApplyRadar
    | Arm | NewReceiver | StartReceiver | StartRecord | StartParticipant | StartRadar | WaitForFirst | FrameStartInterval
    | WaitCapture | AwaitFrameEnd | DrainReceiver | DrainAsyncStatuses | CloseReceiver
    | Validate | Finish(complete: bool) | MirrorErr | Seal | AbortMirror | Truncate | Commit | CloseOutput

  datatype Step = Step(op: Op, ok: bool)

  /** Facts the code reads from its surroundings besides the result of a call. */
  datatype Query = StopObserved | WaitWasCancelled | ContextDone | FrameEndSeen

  /** Any behaviour of everything outside: the outcome of a call, and the answer to a query, after a history. */
  datatype World = World(outcome: (seq<Step>, Op) -> bool, answer: (seq<Step>, Query) -> bool)

  datatype Options = Options(
    resetFpga: bool, fullConfiguration: bool, participant: bool, observesFrameStart: bool, mirror: bool,
    infinite: bool, stopChannel: bool, awaitsFrameEnd: bool)

  // ---------------------------------------------------------------- what a trace promises

  function Count(t: seq<Step>, ops: set<Op>): nat {
    if t == [] then 0 else Count(t[..|t| - 1], ops) + if t[|t| - 1].op in ops then 1 else 0
  }

  /** The start operation is attempted at most once, and an attempt is followed by exactly one of the stop operations. */
  predicate StoppedOnce(t: seq<Step>, start: Op, stops: set<Op>) {
    Count(t, {start}) <= 1 && StopsAfter(t, start, stops, 1)
  }

  predicate StopsAfter(t: seq<Step>, start: Op, stops: set<Op>, n: nat) {
    forall i | 0 <= i < |t| && t[i].op == start :: Count(t[i + 1..], stops) == n
  }

  predicate AllOk(t: seq<Step>) {
    forall i | 0 <= i < |t| :: t[i].ok
  }

  predicate IsHardware(op: Op) {
    match op
    case VerifyPlatform | StopRadar | StopRecord | ResetFpga | Configure | ApplyRadar | StartReceiver | StartRecord
         | StartRadar | AwaitFrameEnd | DrainReceiver | DrainAsyncStatuses | CloseReceiver => true
    case _ => false
  }

  /** Finish happens once if Arm did and never otherwise; it is told the truth, and the hardware is at rest by then. */
  predicate FinishedOnce(t: seq<Step>) {
    && Count(t, {Arm}) == Count(t, {Finish(true), Finish(false)}) <= 1
    && forall i | 0 <= i < |t| && t[i].op.Finish? ::
         && t[i].op.complete == AllOk(t[..i])
         && forall j | i < j < |t| :: !IsHardware(t[j].op)
  }

  /** A commit or a truncation is only ever attempted when every call before it succeeded. */
  predicate CommitsLast(t: seq<Step>) {
    forall i | 0 <= i < |t| && (t[i].op.Commit? || t[i].op.Truncate?) :: AllOk(t[..i])
  }

  /** With the hardware at rest for good, the context was found uncancelled and then the result valid. */
  predicate CheckedAtRest(t: seq<Step>) {
    exists c, v | 0 <= c < v < |t| ::
      t[c] == Step(CheckContext, true) && t[v] == Step(Validate, true) && forall j | c < j < |t| :: !IsHardware(t[j].op)
  }

  function Ops(t: seq<Step>): seq<Op> {
    if t == [] then [] else Ops(t[..|t| - 1]) + [t[|t| - 1].op]
  }

  /** When waiting for the capture counts as success; an open-ended capture that just goes idle does not. */
  predicate CaptureOk(o: Options, w: World, t: seq<Step>) {
    if !o.infinite then w.outcome(t, WaitCapture)
    else if o.stopChannel && w.answer(t, StopObserved) then
      !w.answer(t, ContextDone) && (w.outcome(t, WaitCapture) || w.answer(t, WaitWasCancelled))
    else w.outcome(t, WaitCapture) && w.answer(t, ContextDone)
  }

  /** Every recorded result is the one the world gave. */
  predicate Honest(o: Options, w: World, t: seq<Step>) {
    forall i | 0 <= i < |t| :: t[i].ok == if t[i].op.WaitCapture? then CaptureOk(o, w, t[..i]) else w.outcome(t[..i], t[i].op)
  }

  /** Calls of the finaliser after cleanup. */
  predicate IsFinal(op: Op) {
    op.Finish? || op.MirrorErr? || op.Seal? || op.AbortMirror? || op.Truncate? || op.Commit? || op.CloseOutput?
  }

  predicate StopsDevice(op: Op) { op.StopRadar? || op.StopRecord? || op.AwaitFrameEnd? }

  /**
    A receiver that was made is closed exactly once, after it was made and before any call of the finaliser; and nothing is closed
    that was not made.
   */
  predicate ReceiverClosed(t: seq<Step>) {
    && (if Step(NewReceiver, true) in t then Count(t, {CloseReceiver}) == 1 else Count(t, {CloseReceiver}) == 0)
    && forall i | 0 <= i < |t| && t[i].op.CloseReceiver? ::
         Step(NewReceiver, true) in t[..i] && forall j | 0 <= j < i :: !IsFinal(t[j].op)
  }

  /** The receiver is drained exactly once if the start of the radar was attempted, and never otherwise. */
  predicate DrainedOnce(t: seq<Step>) {
    Count(t, {DrainReceiver}) == Count(t, {StartRadar}) <= 1
  }

  /** If the radar could be stopped at first, the asynchronous statuses are taken after every stop of a device. */
  predicate StatusesTaken(t: seq<Step>) {
    Step(StopRadar, true) in t ==>
      exists i | 0 <= i < |t| :: t[i].op.TakeAsyncStatuses? && forall j | i < j < |t| :: !StopsDevice(t[j].op)
  }

  /** A cancelled context stays cancelled. */
  ghost predicate CancellationStays(w: World) {
    forall t: seq<Step>, u: seq<Step> :: t <= u && w.answer(t, ContextDone) ==> !w.outcome(u, CheckContext)
  }

  /** The wait for the capture ended because a stop was observed. */
  ghost predicate StopSeen(w: World, t: seq<Step>) {
    exists i | 0 <= i < |t| :: t[i] == Step(WaitCapture, true) && w.answer(t[..i], StopObserved)
  }

  /**
    The wait for the capture ended well: the receiver's wait of a finite capture succeeded; of an open-ended one it succeeded or was
    ended by the session itself, after a stop request and with nothing cancelled.
   */
  ghost predicate WaitedWell(o: Options, w: World, t: seq<Step>) {
    exists i | 0 <= i < |t| ::
      && t[i] == Step(WaitCapture, true)
      && if !o.infinite then w.outcome(t[..i], WaitCapture)
         else o.stopChannel && w.answer(t[..i], StopObserved) && !w.answer(t[..i], ContextDone)
              && (w.outcome(t[..i], WaitCapture) || w.answer(t[..i], WaitWasCancelled))
  }

  /** After the wait the radar ends by itself: a finite capture whose last frame was seen, with a radar that can await its end. */
  predicate EndsByItself(o: Options, w: World, t: seq<Step>) {
    !o.infinite && o.awaitsFrameEnd && w.answer(t, FrameEndSeen) && !w.answer(t, ContextDone)
  }

  /** The calls were those of a successful session, with the radar awaited or stopped as the end of the wait decides. */
  predicate Succeeded(o: Options, w: World, t: seq<Step>) {
    exists n :: 0 < n <= |t| && t[n - 1] == Step(WaitCapture, true) && Ops(t) == SuccessOrder(o, EndsByItself(o, w, t[..n]))
  }

  /** Nothing goes wrong anywhere, and an open-ended capture is asked to stop. */
  ghost predicate Benign(o: Options, w: World) {
    && (forall t, op :: w.outcome(t, op))
    && (o.infinite ==> o.stopChannel && forall t :: w.answer(t, StopObserved) && !w.answer(t, ContextDone))
  }

  function If<T>(b: bool, s: seq<T>): seq<T> { if b then s else [] }

  /** The order of a successful session. */
  function SetUpOrder(o: Options): seq<Op> {
    [CheckContext, VerifyPlatform, StopRadar, StopRecord] + If(o.resetFpga, [ResetFpga]) + [Configure, TakeAsyncStatuses]
    + If(o.fullConfiguration, [ApplyRadar])
  }

  function StartOrder(o: Options): seq<Op> {
    [CheckContext, StartRecord, TakeAsyncStatuses, CheckContext] + If(o.participant, [StartParticipant]) + [StartRadar]
  }

  function AwaitOrder(o: Options): seq<Op> {
    [WaitForFirst] + If(o.observesFrameStart, [FrameStartInterval]) + [WaitCapture]
  }

  function CaptureOrder(o: Options): seq<Op> {
    If(o.participant, [Arm]) + [NewReceiver, StartReceiver] + StartOrder(o) + AwaitOrder(o)
  }

  function CleanupOrder(awaited: bool): seq<Op> {
    [if awaited then AwaitFrameEnd else StopRadar, DrainReceiver, StopRecord, DrainAsyncStatuses, CloseReceiver, TakeAsyncStatuses]
  }

  function PublishOrder(o: Options): seq<Op> {
    [CheckContext, Validate] + If(o.participant, [Finish(true)]) + If(o.mirror, [MirrorErr, Seal]) + [Truncate, Commit]
  }

  function SuccessOrder(o: Options, awaited: bool): seq<Op> {
    SetUpOrder(o) + CaptureOrder(o) + CleanupOrder(awaited) + PublishOrder(o)
  }

  // ---------------------------------------------------------------- the same, as a running ledger

  datatype Device = Idle | Running | AtRest | Broken

  function Started(d: Device): Device { if d.Idle? then Running else Broken }

  function Ended(d: Device): Device {
    match d
    case Idle => Idle
    case Running => AtRest
    case AtRest => Broken
    case Broken => Broken
  }

  datatype Ledger = Ledger(
    record: Device, radar: Device, arms: nat, finishes: nat, finishOk: bool, allOk: bool, commitOk: bool,
    committed: bool, seals: nat, aborts: nat, closes: nat, checked: Checked)

  /** How far the last checks have come since the hardware was last touched. */
  datatype Checked = Unchecked | NotCancelled | Validated

  const EmptyLedger: Ledger := Ledger(Idle, Idle, 0, 0, true, true, true, false, 0, 0, 0, Unchecked)

  /** Calls that start or stop no device and are none of the finaliser's own. */
  predicate Plain(op: Op) {
    match op
    case StartRecord | StopRecord | StartRadar | StopRadar | AwaitFrameEnd | Arm | Finish(_) | Seal | AbortMirror
         | Truncate | Commit | CloseOutput => false
    case _ => true
  }

  function Advance(l: Ledger, s: Step): Ledger {
    var op := s.op;
    Ledger(
      record := if op.StartRecord? then Started(l.record) else if op.StopRecord? then Ended(l.record) else l.record,
      radar := if op.StartRadar? then Started(l.radar) else if op.StopRadar? || op.AwaitFrameEnd? then Ended(l.radar) else l.radar,
      arms := if op.Arm? then l.arms + 1 else l.arms,
      finishes := if op.Finish? then l.finishes + 1 else l.finishes,
      finishOk := l.finishOk && !(l.finishes > 0 && IsHardware(op)) && (op.Finish? ==> op.complete == l.allOk),
      allOk := l.allOk && s.ok,
      commitOk := l.commitOk && (op.Commit? || op.Truncate? ==> l.allOk),
      committed := if op.Commit? then s.ok else l.committed,
      seals := if op.Seal? then l.seals + 1 else l.seals,
      aborts := if op.AbortMirror? then l.aborts + 1 else l.aborts,
      closes := if op.CloseOutput? then l.closes + 1 else l.closes,
      checked :=
        if IsHardware(op) then Unchecked
        else if op.CheckContext? && s.ok && l.checked.Unchecked? then NotCancelled
        else if op.Validate? && s.ok && !l.checked.Unchecked? then Validated
        else l.checked)
  }

  function LedgerOf(t: seq<Step>): Ledger {
    if t == [] then EmptyLedger else Advance(LedgerOf(t[..|t| - 1]), t[|t| - 1])
  }

  /** What a trace has done to the receiver and left of the asynchronous statuses. */
  datatype Marks = Marks(made: bool, closes: nat, drains: nat, radars: nat, stopped: bool, pending: bool, final: bool, closedOk: bool)

  const NoMarks: Marks := Marks(false, 0, 0, 0, false, false, false, true)

  function Mark(m: Marks, s: Step): Marks {
    Marks(
      made := m.made || s == Step(NewReceiver, true),
      closes := if s.op.CloseReceiver? then m.closes + 1 else m.closes,
      drains := if s.op.DrainReceiver? then m.drains + 1 else m.drains,
      radars := if s.op.StartRadar? then m.radars + 1 else m.radars,
      stopped := m.stopped || s == Step(StopRadar, true),
      pending := if s.op.TakeAsyncStatuses? then false else m.pending || StopsDevice(s.op),
      final := m.final || IsFinal(s.op),
      closedOk := m.closedOk && (s.op.CloseReceiver? ==> m.made && !m.final))
  }

  function MarksOf(t: seq<Step>): Marks {
    if t == [] then NoMarks else Mark(MarksOf(t[..|t| - 1]), t[|t| - 1])
  }

  /** Calls that leave the marks alone. */
  predicate Unmarked(op: Op) {
    match op
    case NewReceiver | CloseReceiver | DrainReceiver | StartRadar | StopRadar | StopRecord | AwaitFrameEnd | TakeAsyncStatuses => false
    case _ => !IsFinal(op)
  }

  /** The same marks, but that the finaliser may have begun. */
  predicate LaterMarks(m: Marks, n: Marks) { n == m.(final := n.final) }

  /** The same marks, but for the statuses. */
  predicate SameMarks(m: Marks, n: Marks) { n == m.(pending := n.pending) }

  lemma MarkDevice(m: Marks, op: Op, ok: bool)
    requires StopsDevice(op)
    ensures Mark(m, Step(op, ok)) == m.(stopped := m.stopped || (op.StopRadar? && ok), pending := true)
  {
  }

  lemma MarkStart(m: Marks, ok: bool)
    ensures Mark(m, Step(StartRadar, ok)) == m.(radars := m.radars + 1)
  {
  }

  lemma MarkNew(m: Marks, ok: bool)
    ensures Mark(m, Step(NewReceiver, ok)) == m.(made := m.made || ok)
  {
  }

  lemma MarkDrain(m: Marks, ok: bool)
    ensures Mark(m, Step(DrainReceiver, ok)) == m.(drains := m.drains + 1)
  {
  }

  lemma MarkClose(m: Marks, ok: bool)
    ensures Mark(m, Step(CloseReceiver, ok)) == m.(closes := m.closes + 1, closedOk := m.closedOk && m.made && !m.final)
  {
  }

  lemma MarkFinal(m: Marks, op: Op, ok: bool)
    requires IsFinal(op)
    ensures Mark(m, Step(op, ok)) == m.(final := true)
  {
  }

  lemma MarkUnmarked(m: Marks, op: Op, ok: bool)
    ensures Unmarked(op) ==> Mark(m, Step(op, ok)) == m
    ensures op.TakeAsyncStatuses? ==> Mark(m, Step(op, ok)) == m.(pending := false)
  {
  }

  lemma MarkMore(t: seq<Step>, s: Step)
    ensures MarksOf(t + [s]) == Mark(MarksOf(t), s)
  {
    assert (t + [s])[..|t|] == t;
  }

  // ---------------------------------------------------------------- how one step changes the ledger

  lemma AdvancePlain(l: Ledger, op: Op, ok: bool)
    requires Plain(op) && (l.finishes == 0 || !IsHardware(op))
    ensures Advance(l, Step(op, ok)) == l.(allOk := l.allOk && ok, checked := Advance(l, Step(op, ok)).checked)
    ensures op.MirrorErr? ==> Advance(l, Step(op, ok)).checked == l.checked
    ensures op.CheckContext? && ok ==> !Advance(l, Step(op, ok)).checked.Unchecked?
    ensures op.Validate? && ok && !l.checked.Unchecked? ==> Advance(l, Step(op, ok)).checked.Validated?
  {
  }

  lemma AdvanceRecord(l: Ledger, ok: bool)
    requires l.finishes == 0
    ensures Advance(l, Step(StartRecord, ok)) == l.(allOk := l.allOk && ok, record := Started(l.record), checked := Unchecked)
    ensures Advance(l, Step(StopRecord, ok)) == l.(allOk := l.allOk && ok, record := Ended(l.record), checked := Unchecked)
  {
  }

  lemma AdvanceRadar(l: Ledger, ok: bool)
    requires l.finishes == 0
    ensures Advance(l, Step(StartRadar, ok)) == l.(allOk := l.allOk && ok, radar := Started(l.radar), checked := Unchecked)
    ensures Advance(l, Step(StopRadar, ok)) == l.(allOk := l.allOk && ok, radar := Ended(l.radar), checked := Unchecked)
    ensures Advance(l, Step(AwaitFrameEnd, ok)) == l.(allOk := l.allOk && ok, radar := Ended(l.radar), checked := Unchecked)
  {
  }

  lemma AdvanceArm(l: Ledger, ok: bool)
    requires l.finishes == 0
    ensures Advance(l, Step(Arm, ok)) == l.(allOk := l.allOk && ok, arms := l.arms + 1)
  {
  }

  lemma AdvanceFinish(l: Ledger, ok: bool)
    ensures Advance(l, Step(Finish(l.allOk), ok)) == l.(allOk := l.allOk && ok, finishes := l.finishes + 1)
  {
  }

  lemma AdvanceMirror(l: Ledger, ok: bool)
    ensures Advance(l, Step(Seal, ok)) == l.(allOk := l.allOk && ok, seals := l.seals + 1)
    ensures Advance(l, Step(AbortMirror, ok)) == l.(allOk := l.allOk && ok, aborts := l.aborts + 1)
  {
  }

  lemma AdvanceCommit(l: Ledger, ok: bool)
    requires l.allOk && l.commitOk
    ensures Advance(l, Step(Truncate, ok)) == l.(allOk := ok)
    ensures Advance(l, Step(Commit, ok)) == l.(allOk := ok, committed := ok)
  {
  }

  lemma AdvanceClose(l: Ledger, ok: bool)
    ensures Advance(l, Step(CloseOutput, ok)) == l.(allOk := l.allOk && ok, closes := l.closes + 1)
  {
  }

  lemma Unfold(t: seq<Step>, s: Step)
    ensures LedgerOf(t + [s]) == Advance(LedgerOf(t), s)
  {
    hide Advance;
    assert (t + [s])[..|t|] == t;
  }

  // ---------------------------------------------------------------- what the ledger means

  lemma CountOne(t: seq<Step>, s: Step, ops: set<Op>)
    ensures Count(t + [s], ops) == Count(t, ops) + if s.op in ops then 1 else 0
  {
    assert (t + [s])[..|t|] == t;
  }

  function DeviceOf(t: seq<Step>, start: Op, stops: set<Op>): Device {
    if t == [] then Idle
    else
      var before, op := DeviceOf(t[..|t| - 1], start, stops), t[|t| - 1].op;
      if op == start then Started(before) else if op in stops then Ended(before) else before
  }

  lemma OneMoreStop(t: seq<Step>, s: Step, start: Op, stops: set<Op>, n: nat)
    requires StopsAfter(t, start, stops, n) && s.op != start
    ensures StopsAfter(t + [s], start, stops, n + if s.op in stops then 1 else 0)
  {
    var more := t + [s];
    forall i | 0 <= i < |more| && more[i].op == start
      ensures Count(more[i + 1..], stops) == n + if s.op in stops then 1 else 0
    {
      assert more[i + 1..] == t[i + 1..] + [s];
      CountOne(t[i + 1..], s, stops);
    }
  }

  lemma FirstStart(t: seq<Step>, s: Step, start: Op, stops: set<Op>)
    requires Count(t, {start}) == 0
    ensures StopsAfter(t + [s], start, stops, 0)
  {
    NoneBefore(t, start);
    assert (t + [s])[|t| + 1..] == [];
  }

  /** A device left idle or at rest was stopped exactly once after its only start. */
  lemma {:induction false} DeviceMeans(t: seq<Step>, start: Op, stops: set<Op>)
    requires start !in stops
    ensures DeviceOf(t, start, stops) == Idle ==> Count(t, {start}) == 0
    ensures DeviceOf(t, start, stops) == Running ==> Count(t, {start}) == 1 && StopsAfter(t, start, stops, 0)
    ensures DeviceOf(t, start, stops) == AtRest ==> Count(t, {start}) == 1 && StopsAfter(t, start, stops, 1)
    decreases |t|
  {
    hide StopsAfter;
    if t != [] {
      var u, s := t[..|t| - 1], t[|t| - 1];
      assert t == u + [s];
      DeviceMeans(u, start, stops);
      CountOne(u, s, {start});
      match DeviceOf(u, start, stops)
      case Idle =>
        FirstStart(u, s, start, stops);
      case Running =>
        if s.op != start {
          OneMoreStop(u, s, start, stops, 0);
        }
      case AtRest =>
        if s.op != start {
          OneMoreStop(u, s, start, stops, 1);
        }
      case Broken =>
    }
  }

  lemma {:induction false} NoneBefore(t: seq<Step>, op: Op)
    ensures Count(t, {op}) == 0 ==> forall i | 0 <= i < |t| :: t[i].op != op
    decreases |t|
  {
    if t != [] {
      NoneBefore(t[..|t| - 1], op);
    }
  }

  lemma {:induction false} LedgerDevices(t: seq<Step>)
    ensures LedgerOf(t).record == DeviceOf(t, StartRecord, {StopRecord})
    ensures LedgerOf(t).radar == DeviceOf(t, StartRadar, {StopRadar, AwaitFrameEnd})
    decreases |t|
  {
    hide IsHardware;
    if t != [] {
      LedgerDevices(t[..|t| - 1]);
    }
  }

  lemma DevicesMean(t: seq<Step>)
    requires LedgerOf(t).record.Idle? || LedgerOf(t).record.AtRest?
    requires LedgerOf(t).radar.Idle? || LedgerOf(t).radar.AtRest?
    ensures StoppedOnce(t, StartRecord, {StopRecord}) && StoppedOnce(t, StartRadar, {StopRadar, AwaitFrameEnd})
    ensures LedgerOf(t).record.AtRest? ==> Count(t, {StartRecord}) == 1
    ensures LedgerOf(t).radar.AtRest? ==> Count(t, {StartRadar}) == 1
  {
    hide LedgerOf, DeviceOf;
    LedgerDevices(t);
    DeviceMeans(t, StartRecord, {StopRecord});
    DeviceMeans(t, StartRadar, {StopRadar, AwaitFrameEnd});
    NoneBefore(t, StartRecord);
    NoneBefore(t, StartRadar);
  }

  lemma {:induction false} CountsMean(t: seq<Step>)
    ensures LedgerOf(t).allOk == AllOk(t)
    ensures LedgerOf(t).arms == Count(t, {Arm}) && LedgerOf(t).finishes == Count(t, {Finish(true), Finish(false)})
    decreases |t|
  {
    hide IsHardware;
    if t != [] {
      var u, s := t[..|t| - 1], t[|t| - 1];
      CountsMean(u);
      assert s.op.Finish? <==> s.op in {Finish(true), Finish(false)};
      assert AllOk(t) <==> AllOk(u) && s.ok by {
        assert t == u + [s];
      }
    }
  }

  lemma {:induction false} FinishMeans(t: seq<Step>)
    requires LedgerOf(t).finishOk
    ensures LedgerOf(t).finishes == 0 ==> forall i | 0 <= i < |t| :: !t[i].op.Finish?
    ensures forall i | 0 <= i < |t| && t[i].op.Finish? ::
              t[i].op.complete == AllOk(t[..i]) && forall j | i < j < |t| :: !IsHardware(t[j].op)
    decreases |t|
  {
    hide IsHardware, AllOk;
    if t != [] {
      var u, s := t[..|t| - 1], t[|t| - 1];
      FinishMeans(u);
      CountsMean(u);
      assert forall i | 0 <= i < |u| :: t[..i] == u[..i] && t[i] == u[i];
    }
  }

  lemma {:induction false} MarksMean(t: seq<Step>)
    ensures MarksOf(t).made == (Step(NewReceiver, true) in t) && MarksOf(t).stopped == (Step(StopRadar, true) in t)
    ensures MarksOf(t).closes == Count(t, {CloseReceiver}) && MarksOf(t).drains == Count(t, {DrainReceiver})
    ensures MarksOf(t).radars == Count(t, {StartRadar})
    ensures MarksOf(t).final == exists i | 0 <= i < |t| :: IsFinal(t[i].op)
    decreases |t|
  {
    if t != [] {
      var u, s := t[..|t| - 1], t[|t| - 1];
      MarksMean(u);
      assert t == u + [s];
      hide MarksOf, Count;
      hide Mark;
      MarkParts(MarksOf(u), s);
      MarkMore(u, s);
      CountOne(u, s, {CloseReceiver});
      CountOne(u, s, {DrainReceiver});
      CountOne(u, s, {StartRadar});
    }
  }

  lemma MarkParts(m: Marks, s: Step)
    ensures var n := Mark(m, s);
            && n.made == (m.made || s == Step(NewReceiver, true)) && n.stopped == (m.stopped || s == Step(StopRadar, true))
            && n.closes == m.closes + (if s.op in {CloseReceiver} then 1 else 0)
            && n.drains == m.drains + (if s.op in {DrainReceiver} then 1 else 0)
            && n.radars == m.radars + (if s.op in {StartRadar} then 1 else 0)
            && n.final == (m.final || IsFinal(s.op))
  {
  }

  lemma {:induction false} ClosedMeans(t: seq<Step>)
    requires MarksOf(t).closedOk
    ensures forall i | 0 <= i < |t| && t[i].op.CloseReceiver? ::
              Step(NewReceiver, true) in t[..i] && forall j | 0 <= j < i :: !IsFinal(t[j].op)
    decreases |t|
  {
    if t != [] {
      var u, s := t[..|t| - 1], t[|t| - 1];
      ClosedMeans(u);
      MarksMean(u);
      assert forall i | 0 <= i < |u| :: t[..i] == u[..i] && t[i] == u[i];
    }
  }

  predicate TakenAt(t: seq<Step>, i: int) {
    0 <= i < |t| && t[i].op.TakeAsyncStatuses? && forall j | i < j < |t| :: !StopsDevice(t[j].op)
  }

  lemma {:induction false} PendingMeans(t: seq<Step>)
    ensures !MarksOf(t).pending ==> (forall j | 0 <= j < |t| :: !StopsDevice(t[j].op)) || exists i :: TakenAt(t, i)
    decreases |t|
  {
    if t != [] && !MarksOf(t).pending {
      var u, s := t[..|t| - 1], t[|t| - 1];
      assert t == u + [s];
      PendingMeans(u);
      if s.op.TakeAsyncStatuses? {
        assert TakenAt(t, |u|);
      } else if exists i :: TakenAt(u, i) {
        var i :| TakenAt(u, i);
        assert TakenAt(t, i);
      }
    }
  }

  /** A whole trace whose marks are settled. */
  predicate Settled(m: Marks) {
    m.closedOk && m.closes == (if m.made then 1 else 0) && m.drains == m.radars <= 1 && (m.stopped ==> !m.pending)
  }

  lemma SettledMeans(t: seq<Step>)
    requires Settled(MarksOf(t))
    ensures ReceiverClosed(t) && DrainedOnce(t) && StatusesTaken(t)
  {
    hide MarksOf, Count;
    MarksMean(t);
    ClosedMeans(t);
    PendingMeans(t);
    if Step(StopRadar, true) in t {
      var k :| 0 <= k < |t| && t[k] == Step(StopRadar, true);
      assert StopsDevice(t[k].op);
      var i :| TakenAt(t, i);
    }
  }

  predicate ContextChecked(t: seq<Step>, c: int) {
    0 <= c < |t| && t[c] == Step(CheckContext, true) && forall j | c < j < |t| :: !IsHardware(t[j].op)
  }

  lemma {:induction false} CheckedMeans(t: seq<Step>)
    ensures !LedgerOf(t).checked.Unchecked? ==> exists c :: ContextChecked(t, c)
    ensures LedgerOf(t).checked.Validated? ==> CheckedAtRest(t)
    decreases |t|
  {
    hide IsHardware;
    if t != [] {
      var u, s := t[..|t| - 1], t[|t| - 1];
      assert t == u + [s];
      CheckedMeans(u);
      if !LedgerOf(t).checked.Unchecked? {
        if LedgerOf(u).checked.Unchecked? {
          assert ContextChecked(t, |u|);
        } else {
          var c :| ContextChecked(u, c);
          assert ContextChecked(t, c);
          if LedgerOf(t).checked.Validated? {
            if LedgerOf(u).checked.Validated? {
              StillAtRest(u, s);
            } else {
              assert t[|u|] == Step(Validate, true) && t[c] == Step(CheckContext, true);
            }
          }
        }
      }
    }
  }

  lemma StillAtRest(t: seq<Step>, s: Step)
    requires CheckedAtRest(t) && !IsHardware(s.op)
    ensures CheckedAtRest(t + [s])
  {
    hide IsHardware;
    var c, v :| 0 <= c < v < |t| && t[c] == Step(CheckContext, true) && t[v] == Step(Validate, true)
                && forall j | c < j < |t| :: !IsHardware(t[j].op);
    var more := t + [s];
    assert more[c] == Step(CheckContext, true) && more[v] == Step(Validate, true);
  }

  lemma {:induction false} CommitMeans(t: seq<Step>)
    requires LedgerOf(t).commitOk
    ensures CommitsLast(t)
    decreases |t|
  {
    hide IsHardware, AllOk;
    if t != [] {
      var u, s := t[..|t| - 1], t[|t| - 1];
      CommitMeans(u);
      CountsMean(u);
      assert forall i | 0 <= i < |u| :: t[..i] == u[..i] && t[i] == u[i];
    }
  }

  lemma OneMoreCall(o: Options, w: World, t: seq<Step>, s: Step)
    requires Honest(o, w, t) && s.ok == if s.op.WaitCapture? then CaptureOk(o, w, t) else w.outcome(t, s.op)
    ensures Honest(o, w, t + [s]) && Ops(t + [s]) == Ops(t) + [s.op]
  {
    hide CaptureOk;
    var u := t + [s];
    assert u[..|t|] == t;
    forall i | 0 <= i < |u|
      ensures u[i].ok == if u[i].op.WaitCapture? then CaptureOk(o, w, u[..i]) else w.outcome(u[..i], u[i].op)
    {
      if i < |t| {
        assert u[..i] == t[..i] && u[i] == t[i];
      }
    }
  }

  // ---------------------------------------------------------------- the code

  /** One call: its outcome is the world's, and the trace grows by it. */
  method Call(o: Options, w: World, t: seq<Step>, op: Op) returns (after: seq<Step>, ok: bool)
    requires Honest(o, w, t) && !op.WaitCapture?
    ensures t <= after && Honest(o, w, after) && Ops(after) == Ops(t) + [op] && |after| == |t| + 1 && after[|t|] == Step(op, ok)
    ensures LedgerOf(after) == Advance(LedgerOf(t), Step(op, ok)) && MarksOf(after) == Mark(MarksOf(t), Step(op, ok))
  {
    hide Advance, Mark;
    MarkMore(t, Step(op, w.outcome(t, op)));
    ok := w.outcome(t, op);
    after := t + [Step(op, ok)];
    Unfold(t, Step(op, ok));
    OneMoreCall(o, w, t, Step(op, ok));
  }

  /** Plain calls in order, up to the first that fails. */
  method CallAll(o: Options, w: World, t: seq<Step>, ops: seq<Op>) returns (after: seq<Step>, ok: bool)
    requires LedgerOf(t).finishes == 0 && forall i | 0 <= i < |ops| :: Plain(ops[i]) && !ops[i].WaitCapture?
    requires Honest(o, w, t)
    ensures t <= after && Honest(o, w, after) && (ok ==> Ops(after) == Ops(t) + ops)
    ensures |ops| == 1 ==> |after| == |t| + 1 && after[|t|] == Step(ops[0], ok)
    ensures LedgerOf(after) == LedgerOf(t).(allOk := LedgerOf(t).allOk && ok, checked := LedgerOf(after).checked)
    ensures |ops| == 1 ==> Ops(after) == Ops(t) + ops && MarksOf(after) == Mark(MarksOf(t), Step(ops[0], ok))
    ensures (forall i | 0 <= i < |ops| :: Unmarked(ops[i]) || ops[i].TakeAsyncStatuses?) ==> SameMarks(MarksOf(t), MarksOf(after))
    ensures ok && ops == [CheckContext] ==> !LedgerOf(after).checked.Unchecked?
    ensures ok && ops == [Validate] && !LedgerOf(t).checked.Unchecked? ==> LedgerOf(after).checked.Validated?
  {
    hide LedgerOf, Advance, IsHardware, Honest, Ops, MarksOf, Mark, Unmarked;
    after, ok := t, true;
    for i := 0 to |ops|
      invariant (forall k | 0 <= k < |ops| :: Unmarked(ops[k]) || ops[k].TakeAsyncStatuses?) ==> SameMarks(MarksOf(t), MarksOf(after))
      invariant |ops| == 1 && i == 1 ==> MarksOf(after) == Mark(MarksOf(t), Step(ops[0], true))
      invariant ok && LedgerOf(after) == LedgerOf(t).(checked := LedgerOf(after).checked)
      invariant t <= after && Honest(o, w, after) && Ops(after) == Ops(t) + ops[..i]
      invariant i == 1 ==> |after| == |t| + 1 && after[|t|] == Step(ops[0], true)
      invariant i == 0 ==> after == t
      invariant i == 1 && ops[0] == CheckContext ==> !LedgerOf(after).checked.Unchecked?
      invariant i == 1 && ops[0] == Validate && !LedgerOf(t).checked.Unchecked? ==> LedgerOf(after).checked.Validated?
    {
      ghost var l, m := LedgerOf(after), MarksOf(after);
      after, ok := Call(o, w, after, ops[i]);
      AdvancePlain(l, ops[i], ok);
      MarkUnmarked(m, ops[i], ok);
      if !ok {
        return;
      }
      assert ops[..i + 1] == ops[..i] + [ops[i]];
    }
    assert ops[..|ops|] == ops;
  }

  /** StartRecordConvergent: one start, and if it did not succeed, one stop. */
  method StartRecordConvergent(o: Options, w: World, t: seq<Step>) returns (after: seq<Step>, ok: bool)
    requires LedgerOf(t).record.Idle? && LedgerOf(t).finishes == 0
    requires Honest(o, w, t)
    ensures LedgerOf(after) ==
            LedgerOf(t).(allOk := LedgerOf(t).allOk && ok, record := LedgerOf(after).record, checked := LedgerOf(after).checked)
    ensures if ok then LedgerOf(after).record.Running? else LedgerOf(after).record.Idle? || LedgerOf(after).record.AtRest?
    ensures t <= after && Honest(o, w, after) && (ok ==> Ops(after) == Ops(t) + [CheckContext, StartRecord])
    ensures SameMarks(MarksOf(t), MarksOf(after))
  {
    hide LedgerOf, Advance, IsHardware, Honest, Ops, MarksOf, Mark;
    after, ok := CallAll(o, w, t, [CheckContext]);
    if !ok {
      return after, false;
    }
    ghost var l, m := LedgerOf(after), MarksOf(after);
    after, ok := Call(o, w, after, StartRecord);
    AdvanceRecord(l, ok);
    MarkUnmarked(m, StartRecord, ok);
    if ok {
      return after, true;
    }
    l := LedgerOf(after);
    var stopped;
    m := MarksOf(after);
    after, stopped := Call(o, w, after, StopRecord);
    AdvanceRecord(l, stopped);
    MarkDevice(m, StopRecord, stopped);
  }

  /** The flag variables of Run. */
  datatype Flags = Flags(
    receiverMade: bool, receiverStarted: bool, radarMayBeRunning: bool, frameEndObserved: bool, dcaUsed: bool,
    dcaRecording: bool, participantActive: bool)

  const NoFlags: Flags := Flags(false, false, false, false, false, false, false)

  /** The ledger while the session runs: the finaliser has done nothing yet. */
  predicate Live(l: Ledger, record: Device, radar: Device, arms: nat, allOk: bool) {
    l == EmptyLedger.(record := record, radar := radar, arms := arms, allOk := allOk, checked := l.checked)
  }

  /** What the flags say about the devices: cleanup knows exactly what still has to be stopped. */
  predicate FlagsTell(f: Flags, l: Ledger, allOk: bool) {
    && Live(l, l.record, if f.radarMayBeRunning then Running else Idle, if f.participantActive then 1 else 0, allOk)
    && (if f.dcaRecording then l.record.Running? else l.record.Idle? || l.record.AtRest?)
    && (f.radarMayBeRunning ==> f.receiverStarted) && (f.receiverStarted ==> f.receiverMade)
  }

  /** What the flags say about the marks before cleanup. */
  predicate FlagsMark(f: Flags, m: Marks) {
    && m == Marks(f.receiverMade, 0, 0, if f.radarMayBeRunning then 1 else 0, f.dcaUsed, m.pending, false, true)
    && (f.radarMayBeRunning ==> f.dcaUsed)
  }

  /** Both devices are brought to a stop and configured. */
  method Establish(o: Options, w: World) returns (t: seq<Step>, ok: bool, dcaUsed: bool)
    ensures Live(LedgerOf(t), Idle, Idle, 0, ok)
    ensures Honest(o, w, t) && (ok ==> Ops(t) == SetUpOrder(o) && dcaUsed)
    ensures FlagsMark(NoFlags.(dcaUsed := dcaUsed), MarksOf(t))
  {
    hide LedgerOf, Advance, IsHardware, Honest, Ops, MarksOf, Mark;
    EmptyTrace(o, w);
    dcaUsed := false;
    t, ok := CallAll(o, w, [], [CheckContext, VerifyPlatform]);
    if !ok { return; }
    t, ok, dcaUsed := StopBoth(o, w, t);
    if !ok { return; }
    assert Ops(t) == [CheckContext, VerifyPlatform, StopRadar, StopRecord];
    var calls := If(o.resetFpga, [ResetFpga]) + [Configure, TakeAsyncStatuses] + If(o.fullConfiguration, [ApplyRadar]);
    ConfigurationCalls(o);
    hide If, Unmarked, Plain;
    t, ok := CallAll(o, w, t, calls);
  }

  lemma ConfigurationCalls(o: Options)
    ensures var calls := If(o.resetFpga, [ResetFpga]) + [Configure, TakeAsyncStatuses] + If(o.fullConfiguration, [ApplyRadar]);
            forall i | 0 <= i < |calls| ::
              Plain(calls[i]) && !calls[i].WaitCapture? && (Unmarked(calls[i]) || calls[i].TakeAsyncStatuses?)
  {
  }

  method StopBoth(o: Options, w: World, before: seq<Step>) returns (t: seq<Step>, ok: bool, dcaUsed: bool)
    requires Live(LedgerOf(before), Idle, Idle, 0, true) && Honest(o, w, before) && FlagsMark(NoFlags, MarksOf(before))
    ensures Live(LedgerOf(t), Idle, Idle, 0, ok) && Honest(o, w, t) && FlagsMark(NoFlags.(dcaUsed := dcaUsed), MarksOf(t))
    ensures ok ==> dcaUsed && Ops(t) == Ops(before) + [StopRadar] + [StopRecord]
  {
    hide LedgerOf, Advance, IsHardware, Honest, Ops, MarksOf, Mark;
    dcaUsed := false;
    t, ok := Call(o, w, before, StopRadar);
    AdvanceRadar(LedgerOf(before), ok);
    MarkDevice(MarksOf(before), StopRadar, ok);
    if !ok { return; }
    dcaUsed := true;
    ghost var l, m := LedgerOf(t), MarksOf(t);
    t, ok := Call(o, w, t, StopRecord);
    AdvanceRecord(l, ok);
    MarkDevice(m, StopRecord, ok);
  }

  lemma EmptyTrace(o: Options, w: World)
    ensures LedgerOf([]) == EmptyLedger && Honest(o, w, []) && Ops([]) == [] && MarksOf([]) == NoMarks
  {
  }

  /** The participant is armed and the data socket opened. */
  method ArmAndListen(o: Options, w: World, before: seq<Step>, dcaUsed: bool) returns (t: seq<Step>, ok: bool, f: Flags)
    requires Live(LedgerOf(before), Idle, Idle, 0, true)
    requires Honest(o, w, before) && FlagsMark(NoFlags.(dcaUsed := dcaUsed), MarksOf(before))
    ensures FlagsTell(f, LedgerOf(t), ok) && LedgerOf(t).record.Idle? && f.dcaUsed == dcaUsed && FlagsMark(f, MarksOf(t))
    ensures !f.radarMayBeRunning && !f.dcaRecording && !f.frameEndObserved
    ensures ok ==> f.receiverStarted && f.participantActive == o.participant
    ensures before <= t && Honest(o, w, t)
    ensures ok ==> Ops(t) == Ops(before) + If(o.participant, [Arm]) + [NewReceiver, StartReceiver]
  {
    hide LedgerOf, Advance, IsHardware, Honest, Ops, MarksOf, Mark;
    t, f := before, NoFlags.(dcaUsed := dcaUsed);
    if o.participant {
      f := f.(participantActive := true);
      t, ok := Call(o, w, before, Arm);
      AdvanceArm(LedgerOf(before), ok);
      MarkUnmarked(MarksOf(before), Arm, ok);
      if !ok { return; }
    }
    ghost var m := MarksOf(t);
    t, ok := CallAll(o, w, t, [NewReceiver]);
    MarkNew(m, ok);
    if !ok { return; }
    f := f.(receiverMade := true);
    t, ok := CallAll(o, w, t, [StartReceiver]);
    if !ok { return; }
    f := f.(receiverStarted := true);
  }

  /** Recording, the participant and the radar are started. */
  method StartAll(o: Options, w: World, before: seq<Step>, flags: Flags) returns (t: seq<Step>, ok: bool, f: Flags)
    requires FlagsTell(flags, LedgerOf(before), true) && LedgerOf(before).record.Idle?
    requires !flags.radarMayBeRunning && !flags.dcaRecording && flags.receiverStarted
    requires Honest(o, w, before) && FlagsMark(flags, MarksOf(before)) && flags.dcaUsed
    ensures FlagsMark(f, MarksOf(t))
    ensures FlagsTell(f, LedgerOf(t), ok) && f.participantActive == flags.participantActive && f.dcaUsed == flags.dcaUsed
    ensures f.frameEndObserved == flags.frameEndObserved && (ok ==> f.radarMayBeRunning && f.dcaRecording)
    ensures before <= t && Honest(o, w, t)
    ensures ok ==> Ops(t) == Ops(before) + StartOrder(o)
  {
    hide LedgerOf, Advance, IsHardware, Honest, Ops, If, MarksOf, Mark;
    f := flags;
    var recording;
    t, ok, recording := StartRecording(o, w, before);
    f := f.(dcaRecording := recording);
    if !ok { return; }
    if o.participant {
      t, ok := CallAll(o, w, t, [StartParticipant]);
      if !ok { return; }
    }
    ghost var l, ops, m := LedgerOf(t), Ops(t), MarksOf(t);
    IfOps(o.participant, [StartParticipant]);
    assert ops == Ops(before) + [CheckContext, StartRecord, TakeAsyncStatuses, CheckContext] + If(o.participant, [StartParticipant]);
    f := f.(radarMayBeRunning := true);
    t, ok := Call(o, w, t, StartRadar);
    AdvanceRadar(l, ok);
    MarkStart(m, ok);
  }

  /** Recording is started, and nothing was reported or cancelled meanwhile. */
  method StartRecording(o: Options, w: World, before: seq<Step>) returns (t: seq<Step>, ok: bool, recording: bool)
    requires LedgerOf(before).record.Idle? && LedgerOf(before).finishes == 0 && Honest(o, w, before)
    ensures LedgerOf(t) == LedgerOf(before).(allOk := LedgerOf(before).allOk && ok, record := LedgerOf(t).record,
                                             checked := LedgerOf(t).checked)
    ensures if recording then LedgerOf(t).record.Running? else LedgerOf(t).record.Idle? || LedgerOf(t).record.AtRest?
    ensures before <= t && Honest(o, w, t) && SameMarks(MarksOf(before), MarksOf(t)) && (ok ==> recording)
    ensures ok ==> Ops(t) == Ops(before) + [CheckContext, StartRecord, TakeAsyncStatuses, CheckContext]
  {
    hide LedgerOf, Advance, IsHardware, Honest, Ops, MarksOf, Mark;
    t, ok := StartRecordConvergent(o, w, before);
    recording := ok;
    if ok {
      t, ok := CallAll(o, w, t, [TakeAsyncStatuses, CheckContext]);
    }
  }

  lemma IfOps(b: bool, s: seq<Op>)
    ensures If(b, s) == if b then s else []
  {
  }

  /** The first packet, the frame-start interval, and then the capture itself are awaited. */
  method Capture(o: Options, w: World, before: seq<Step>, flags: Flags) returns (t: seq<Step>, ok: bool, f: Flags)
    requires FlagsTell(flags, LedgerOf(before), true) && flags.radarMayBeRunning && flags.dcaRecording
    requires Honest(o, w, before)
    ensures FlagsTell(f, LedgerOf(t), ok) && f == flags.(frameEndObserved := f.frameEndObserved)
    ensures SameMarks(MarksOf(before), MarksOf(t))
    ensures f.frameEndObserved && !flags.frameEndObserved ==> !o.infinite && ok
    ensures ok ==> (f.frameEndObserved <==> flags.frameEndObserved || (!o.infinite && w.answer(t, FrameEndSeen)))
    ensures before <= t && Honest(o, w, t)
    ensures ok ==> Ops(t) == Ops(before) + AwaitOrder(o) && t != [] && t[|t| - 1] == Step(WaitCapture, true)
  {
    hide LedgerOf, Advance, IsHardware, Honest, Ops, If, CaptureOk, MarksOf, Mark;
    f := flags;
    t, ok := AwaitFirst(o, w, before);
    if !ok { return; }
    t, ok := AwaitCapture(o, w, t);
    if !o.infinite && ok && w.answer(t, FrameEndSeen) {
      f := f.(frameEndObserved := true);
    }
  }

  method AwaitFirst(o: Options, w: World, before: seq<Step>) returns (t: seq<Step>, ok: bool)
    requires LedgerOf(before).finishes == 0 && Honest(o, w, before)
    ensures LedgerOf(t) == LedgerOf(before).(allOk := LedgerOf(before).allOk && ok, checked := LedgerOf(t).checked)
    ensures before <= t && Honest(o, w, t) && SameMarks(MarksOf(before), MarksOf(t))
    ensures ok ==> Ops(t) == Ops(before) + ([WaitForFirst] + If(o.observesFrameStart, [FrameStartInterval]))
  {
    hide LedgerOf, Advance, IsHardware, Honest, Ops, If, MarksOf, Mark;
    IfOps(o.observesFrameStart, [FrameStartInterval]);
    t, ok := CallAll(o, w, before, [WaitForFirst]);
    if !ok { return; }
    if o.observesFrameStart {
      t, ok := CallAll(o, w, t, [FrameStartInterval]);
    }
  }

  /** The three ways to wait: open-ended, open-ended with a stop channel, and finite. */
  method AwaitCapture(o: Options, w: World, before: seq<Step>) returns (t: seq<Step>, ok: bool)
    requires LedgerOf(before).finishes == 0
    requires Honest(o, w, before)
    ensures LedgerOf(t) == LedgerOf(before).(allOk := LedgerOf(before).allOk && ok, checked := LedgerOf(t).checked)
    ensures t == before + [Step(WaitCapture, ok)] && Honest(o, w, t) && Ops(t) == Ops(before) + [WaitCapture]
    ensures SameMarks(MarksOf(before), MarksOf(t))
  {
    hide LedgerOf, Advance, Honest, Ops, MarksOf, Mark;
    var waited := w.outcome(before, WaitCapture);
    if !o.infinite {
      ok := waited;
    } else {
      var stopped := o.stopChannel && w.answer(before, StopObserved);
      var cancelled := w.answer(before, ContextDone);
      if stopped {
        ok := !cancelled && (waited || w.answer(before, WaitWasCancelled));
      } else {
        ok := waited && cancelled;
      }
    }
    t := before + [Step(WaitCapture, ok)];
    OneMoreCall(o, w, before, Step(WaitCapture, ok));
    MarkMore(before, Step(WaitCapture, ok));
    MarkUnmarked(MarksOf(before), WaitCapture, ok);
    Unfold(before, Step(WaitCapture, ok));
    AdvancePlain(LedgerOf(before), WaitCapture, ok);
  }

  /** The calls of cleanup, whatever fails on the way: only the asynchronous statuses are not drained after a failed StopRecord. */
  function CleanupCalls(f: Flags, awaited: bool, recordStopped: bool): seq<Op> {
    If(f.radarMayBeRunning, [if awaited then AwaitFrameEnd else StopRadar, DrainReceiver])
    + If(f.dcaRecording, [StopRecord] + If(recordStopped, [DrainAsyncStatuses]))
    + If(f.receiverMade, [CloseReceiver]) + If(f.dcaUsed, [TakeAsyncStatuses])
  }

  /** cleanup: stops what the flags say is running; clean means that no call of it failed. */
  method Cleanup(o: Options, w: World, before: seq<Step>, f: Flags, good: bool)
    returns (t: seq<Step>, clean: bool, awaited: bool, recordStopped: bool)
    requires FlagsTell(f, LedgerOf(before), good)
    requires Honest(o, w, before) && FlagsMark(f, MarksOf(before))
    ensures Live(LedgerOf(t), LedgerOf(t).record, if f.radarMayBeRunning then AtRest else Idle, LedgerOf(before).arms, good && clean)
    ensures LedgerOf(t).record.AtRest? || (LedgerOf(t).record.Idle? && !f.dcaRecording)
    ensures before <= t && Honest(o, w, t) && Settled(MarksOf(t)) && MarksOf(t).made == f.receiverMade
    ensures awaited <==> f.radarMayBeRunning && o.awaitsFrameEnd && f.frameEndObserved && !w.answer(before, ContextDone)
    ensures Ops(t) == Ops(before) + CleanupCalls(f, awaited, recordStopped) && (clean ==> recordStopped)
  {
    hide LedgerOf, Advance, IsHardware, Honest, Ops, MarksOf, Mark;
    FlagsFacts(f, LedgerOf(before), good);
    hide If, FlagsTell, FlagsMark, Live, Settled, CleanupCalls, Ended, SameMarks;
    var t1, t2, ok1, ok2, ok3;
    t1, ok1, awaited := StopAndDrain(o, w, before, f);
    t2, ok2, recordStopped := StopIfRecording(o, w, t1, f);
    t, ok3 := CloseAll(o, w, t2, f);
    clean := ok1 && ok2 && ok3;
    CleanedLedger(f, LedgerOf(before), LedgerOf(t1), LedgerOf(t2), LedgerOf(t), good, ok1, ok2, ok3);
    CleanedMarks(f, MarksOf(before), MarksOf(t1), MarksOf(t2), MarksOf(t));
    CleanedOps(f, awaited, recordStopped, Ops(before), Ops(t1), Ops(t2), Ops(t));
  }

  lemma CleanedOps(f: Flags, awaited: bool, recordStopped: bool, a: seq<Op>, a1: seq<Op>, a2: seq<Op>, a3: seq<Op>)
    requires a1 == a + If(f.radarMayBeRunning, [if awaited then AwaitFrameEnd else StopRadar, DrainReceiver])
    requires a2 == a1 + If(f.dcaRecording, [StopRecord] + If(recordStopped, [DrainAsyncStatuses]))
    requires a3 == a2 + (If(f.receiverMade, [CloseReceiver]) + If(f.dcaUsed, [TakeAsyncStatuses]))
    ensures a3 == a + CleanupCalls(f, awaited, recordStopped)
  {
    hide If;
  }

  lemma FlagsFacts(f: Flags, l: Ledger, good: bool)
    requires FlagsTell(f, l, good)
    ensures l.finishes == 0 && (f.radarMayBeRunning ==> f.receiverStarted)
  {
  }

  /** The ledger after cleanup, from what its three parts do to it. */
  lemma CleanedLedger(f: Flags, l: Ledger, l1: Ledger, l2: Ledger, l3: Ledger, good: bool, ok1: bool, ok2: bool, ok3: bool)
    requires FlagsTell(f, l, good)
    requires l1 == (if f.radarMayBeRunning then l.(radar := Ended(l.radar), allOk := l.allOk && ok1, checked := l1.checked) else l)
    requires l2 == (if f.dcaRecording then l1.(record := Ended(l1.record), allOk := l1.allOk && ok2, checked := l2.checked) else l1)
    requires l3 == l2.(allOk := l2.allOk && ok3, checked := l3.checked)
    requires (!f.radarMayBeRunning ==> ok1) && (!f.dcaRecording ==> ok2)
    ensures Live(l3, l3.record, if f.radarMayBeRunning then AtRest else Idle, l.arms, good && ok1 && ok2 && ok3)
    ensures l3.record.AtRest? || (l3.record.Idle? && !f.dcaRecording)
  {
  }

  lemma CleanedMarks(f: Flags, m: Marks, m1: Marks, m2: Marks, m3: Marks)
    requires FlagsMark(f, m) && m1 == m.(drains := m.radars, pending := m1.pending) && SameMarks(m1, m2)
    requires m3 == m2.(closes := m2.closes + if f.receiverMade then 1 else 0,
                       closedOk := m2.closedOk && (f.receiverMade ==> m2.made && !m2.final), pending := m2.pending && !f.dcaUsed)
    ensures Settled(m3) && m3.made == f.receiverMade
  {
  }

  lemma Regroup(a: seq<Op>, b: seq<Op>, c: seq<Op>, d: seq<Op>, e: seq<Op>)
    ensures a + b + c + (d + e) == a + (b + c + d + e)
  {
  }

  method StopAndDrain(o: Options, w: World, before: seq<Step>, f: Flags) returns (t: seq<Step>, clean: bool, awaited: bool)
    requires LedgerOf(before).finishes == 0 && Honest(o, w, before) && FlagsMark(f, MarksOf(before))
    requires f.radarMayBeRunning ==> f.receiverStarted
    ensures LedgerOf(t) ==
            if f.radarMayBeRunning
            then LedgerOf(before).(radar := Ended(LedgerOf(before).radar), allOk := LedgerOf(before).allOk && clean,
                                   checked := LedgerOf(t).checked)
            else LedgerOf(before)
    ensures !f.radarMayBeRunning ==> clean
    ensures before <= t && Honest(o, w, t)
    ensures Ops(t) == Ops(before) + If(f.radarMayBeRunning, [if awaited then AwaitFrameEnd else StopRadar, DrainReceiver])
    ensures awaited <==> f.radarMayBeRunning && o.awaitsFrameEnd && f.frameEndObserved && !w.answer(before, ContextDone)
    ensures MarksOf(t) == MarksOf(before).(drains := MarksOf(before).radars, pending := MarksOf(t).pending)
  {
    hide LedgerOf, Advance, IsHardware, Honest, Ops, MarksOf, Mark;
    t, clean, awaited := StopTheRadar(o, w, before, f);
    if f.receiverStarted && f.radarMayBeRunning {
      ghost var m := MarksOf(t);
      var ok;
      t, ok := CallAll(o, w, t, [DrainReceiver]);
      MarkDrain(m, ok);
      clean := clean && ok;
    }
  }

  method CloseAll(o: Options, w: World, before: seq<Step>, f: Flags) returns (t: seq<Step>, clean: bool)
    requires LedgerOf(before).finishes == 0 && Honest(o, w, before)
    ensures LedgerOf(t) == LedgerOf(before).(allOk := LedgerOf(before).allOk && clean, checked := LedgerOf(t).checked)
    ensures before <= t && Honest(o, w, t)
    ensures Ops(t) == Ops(before) + (If(f.receiverMade, [CloseReceiver]) + If(f.dcaUsed, [TakeAsyncStatuses]))
    ensures var m := MarksOf(before);
            MarksOf(t) == m.(closes := m.closes + if f.receiverMade then 1 else 0,
                             closedOk := m.closedOk && (f.receiverMade ==> m.made && !m.final), pending := m.pending && !f.dcaUsed)
  {
    hide LedgerOf, Advance, IsHardware, Honest, Ops, MarksOf, Mark;
    var ok;
    t, clean := before, true;
    if f.receiverMade {
      t, clean := CallAll(o, w, t, [CloseReceiver]);
      MarkClose(MarksOf(before), clean);
    }
    if f.dcaUsed {
      ghost var m := MarksOf(t);
      t, ok := CallAll(o, w, t, [TakeAsyncStatuses]);
      MarkUnmarked(m, TakeAsyncStatuses, ok);
      clean := clean && ok;
    }
  }

  method StopIfRecording(o: Options, w: World, before: seq<Step>, f: Flags) returns (t: seq<Step>, ok: bool, stopped: bool)
    requires LedgerOf(before).finishes == 0 && Honest(o, w, before)
    ensures LedgerOf(t) ==
            if f.dcaRecording
            then LedgerOf(before).(record := Ended(LedgerOf(before).record), allOk := LedgerOf(before).allOk && ok,
                                   checked := LedgerOf(t).checked)
            else LedgerOf(before)
    ensures !f.dcaRecording ==> ok
    ensures before <= t && Honest(o, w, t) && SameMarks(MarksOf(before), MarksOf(t)) && (ok ==> stopped)
    ensures Ops(t) == Ops(before) + If(f.dcaRecording, [StopRecord] + If(stopped, [DrainAsyncStatuses]))
  {
    t, ok, stopped := before, true, true;
    if f.dcaRecording {
      t, ok, stopped := StopTheRecording(o, w, before);
    }
  }

  method StopTheRecording(o: Options, w: World, before: seq<Step>) returns (t: seq<Step>, ok: bool, stopped: bool)
    requires LedgerOf(before).finishes == 0
    requires Honest(o, w, before)
    ensures LedgerOf(t) == LedgerOf(before).(record := Ended(LedgerOf(before).record), allOk := LedgerOf(before).allOk && ok,
                                             checked := LedgerOf(t).checked)
    ensures before <= t && Honest(o, w, t) && SameMarks(MarksOf(before), MarksOf(t)) && (ok ==> stopped)
    ensures Ops(t) == Ops(before) + ([StopRecord] + If(stopped, [DrainAsyncStatuses]))
  {
    hide LedgerOf, Advance, IsHardware, Honest, Ops, MarksOf, Mark;
    t, ok := Call(o, w, before, StopRecord);
    AdvanceRecord(LedgerOf(before), ok);
    MarkDevice(MarksOf(before), StopRecord, ok);
    stopped := ok;
    if ok {
      t, ok := CallAll(o, w, t, [DrainAsyncStatuses]);
    }
  }

  method StopTheRadar(o: Options, w: World, before: seq<Step>, f: Flags) returns (t: seq<Step>, ok: bool, awaited: bool)
    requires LedgerOf(before).finishes == 0
    requires Honest(o, w, before)
    ensures LedgerOf(t) ==
            if f.radarMayBeRunning
            then LedgerOf(before).(radar := Ended(LedgerOf(before).radar), allOk := LedgerOf(before).allOk && ok,
                                   checked := LedgerOf(t).checked)
            else LedgerOf(before)
    ensures !f.radarMayBeRunning ==> ok
    ensures before <= t && Honest(o, w, t)
    ensures Ops(t) == Ops(before) + If(f.radarMayBeRunning, [if awaited then AwaitFrameEnd else StopRadar])
    ensures awaited <==> f.radarMayBeRunning && o.awaitsFrameEnd && f.frameEndObserved && !w.answer(before, ContextDone)
    ensures MarksOf(before).stopped || !f.radarMayBeRunning ==> SameMarks(MarksOf(before), MarksOf(t))
  {
    hide LedgerOf, Advance, IsHardware, Honest, Ops, MarksOf, Mark;
    t, ok, awaited := before, true, false;
    if f.radarMayBeRunning {
      if o.awaitsFrameEnd && f.frameEndObserved && !w.answer(t, ContextDone) {
        awaited := true;
        t, ok := Call(o, w, t, AwaitFrameEnd);
        MarkDevice(MarksOf(before), AwaitFrameEnd, ok);
      } else {
        t, ok := Call(o, w, t, StopRadar);
        MarkDevice(MarksOf(before), StopRadar, ok);
      }
      AdvanceRadar(LedgerOf(before), ok);
    }
  }

  /** Cancellation, validation and the participant's Finish. */
  method Conclude(o: Options, w: World, before: seq<Step>, participantActive: bool, clean: bool) returns (t: seq<Step>, result: bool)
    requires LedgerOf(before).finishes == 0 && clean == LedgerOf(before).allOk
    requires LedgerOf(before).arms == if participantActive then 1 else 0
    requires Honest(o, w, before)
    ensures LedgerOf(t) == LedgerOf(before).(allOk := result, finishes := LedgerOf(before).arms, checked := LedgerOf(t).checked)
    ensures result ==> clean && LedgerOf(t).checked.Validated?
    ensures before <= t && Honest(o, w, t) && |before| < |t| && (result ==> t[|before|] == Step(CheckContext, true))
    ensures result ==> Ops(t) == Ops(before) + [CheckContext, Validate] + If(participantActive, [Finish(true)])
    ensures LaterMarks(MarksOf(before), MarksOf(t))
  {
    hide LedgerOf, Advance, IsHardware, Honest, Ops, MarksOf, Mark;
    var ok;
    t, result := CheckAndValidate(o, w, before, clean);
    if participantActive {
      ghost var l, m := LedgerOf(t), MarksOf(t);
      t, ok := Call(o, w, t, Finish(result));
      AdvanceFinish(l, ok);
      MarkFinal(m, Finish(result), ok);
      result := result && ok;
    }
  }

  method CheckAndValidate(o: Options, w: World, before: seq<Step>, clean: bool) returns (t: seq<Step>, result: bool)
    requires LedgerOf(before).finishes == 0 && clean == LedgerOf(before).allOk && Honest(o, w, before)
    ensures LedgerOf(t) == LedgerOf(before).(allOk := result, checked := LedgerOf(t).checked)
    ensures result ==> clean && LedgerOf(t).checked.Validated?
    ensures before <= t && Honest(o, w, t) && |before| < |t| && (result ==> t[|before|] == Step(CheckContext, true))
    ensures result ==> Ops(t) == Ops(before) + [CheckContext, Validate]
    ensures MarksOf(t) == MarksOf(before)
  {
    hide LedgerOf, Advance, IsHardware, Honest, Ops, MarksOf, Mark;
    var ok;
    t, ok := CallAll(o, w, before, [CheckContext]);
    MarkUnmarked(MarksOf(before), CheckContext, ok);
    result := clean && ok;
    if result {
      t, result := CallAll(o, w, t, [Validate]);
      MarkUnmarked(MarksOf(before), Validate, result);
    }
  }

  /** The mirror is sealed if everything is good so far and aborted otherwise. */
  method SettleMirror(o: Options, w: World, before: seq<Step>, good: bool) returns (t: seq<Step>, result: bool)
    requires good == LedgerOf(before).allOk && LedgerOf(before).seals == 0 && LedgerOf(before).aborts == 0
    requires Honest(o, w, before)
    ensures LedgerOf(t) == LedgerOf(before).(allOk := LedgerOf(t).allOk, seals := LedgerOf(t).seals, aborts := LedgerOf(t).aborts)
    ensures result == LedgerOf(t).allOk && (result ==> good && LedgerOf(t).seals == 1 && LedgerOf(t).aborts == 0)
    ensures before <= t && Honest(o, w, t) && (result ==> Ops(t) == Ops(before) + [MirrorErr, Seal])
    ensures LaterMarks(MarksOf(before), MarksOf(t))
  {
    hide LedgerOf, Advance, Honest, Ops, MarksOf, Mark;
    ghost var l := LedgerOf(before);
    var ok;
    t, ok := Call(o, w, before, MirrorErr);
    AdvancePlain(l, MirrorErr, ok);
    MarkFinal(MarksOf(before), MirrorErr, ok);
    result := good && ok;
    l := LedgerOf(t);
    ghost var m := MarksOf(t);
    if !result {
      t, ok := Call(o, w, t, AbortMirror);
      AdvanceMirror(l, ok);
      MarkFinal(m, AbortMirror, ok);
    } else {
      t, result := Call(o, w, t, Seal);
      AdvanceMirror(l, result);
      MarkFinal(m, Seal, result);
    }
  }

  /** The output is committed if everything succeeded, and otherwise closed with the mirror aborted. */
  method SettleOutput(o: Options, w: World, before: seq<Step>, good: bool) returns (t: seq<Step>, committed: bool)
    requires good == LedgerOf(before).allOk && LedgerOf(before).commitOk && !LedgerOf(before).committed && LedgerOf(before).closes == 0
    requires Honest(o, w, before)
    ensures LedgerOf(t) == LedgerOf(before).(allOk := committed, committed := committed, closes := if committed then 0 else 1,
                                             aborts := LedgerOf(t).aborts)
    ensures committed ==> good && LedgerOf(t).aborts == LedgerOf(before).aborts
    ensures !committed && o.mirror ==> LedgerOf(t).aborts > LedgerOf(before).aborts
    ensures before <= t && Honest(o, w, t) && (committed ==> Ops(t) == Ops(before) + [Truncate, Commit])
    ensures LaterMarks(MarksOf(before), MarksOf(t))
  {
    hide LedgerOf, Advance, Honest, Ops, MarksOf, Mark;
    t, committed := before, good;
    if good {
      t, committed := Call(o, w, t, Truncate);
      AdvanceCommit(LedgerOf(before), committed);
      MarkFinal(MarksOf(before), Truncate, committed);
      if committed {
        ghost var l, m := LedgerOf(t), MarksOf(t);
        t, committed := Call(o, w, t, Commit);
        AdvanceCommit(l, committed);
        MarkFinal(m, Commit, committed);
      }
    }
    if !committed {
      t := Abandon(o, w, t);
    }
  }

  method Abandon(o: Options, w: World, before: seq<Step>) returns (t: seq<Step>)
    requires !LedgerOf(before).allOk
    requires Honest(o, w, before)
    ensures LedgerOf(t) == LedgerOf(before).(aborts := LedgerOf(before).aborts + (if o.mirror then 1 else 0),
                                             closes := LedgerOf(before).closes + 1)
    ensures before <= t && Honest(o, w, t) && LaterMarks(MarksOf(before), MarksOf(t))
  {
    hide LedgerOf, Advance, Honest, Ops, MarksOf, Mark;
    t := before;
    var ok;
    if o.mirror {
      t, ok := Call(o, w, t, AbortMirror);
      AdvanceMirror(LedgerOf(before), ok);
      MarkFinal(MarksOf(before), AbortMirror, ok);
    }
    ghost var l, m := LedgerOf(t), MarksOf(t);
    t, ok := Call(o, w, t, CloseOutput);
    AdvanceClose(l, ok);
    MarkFinal(m, CloseOutput, ok);
  }

  /**
    Run, from the point where it owns the output. Whatever the hardware does: recording and radar are stopped exactly
    once after being started, a receiver that was made is drained iff the radar was started and closed exactly once before the
    finaliser, Finish runs once iff Arm did, and the capture is committed iff every single call succeeded.
    A mirrored capture is committed only with the mirror sealed once and never aborted; otherwise the mirror is aborted
    and the output closed. If cancellation is permanent, an open-ended capture is committed only if its stop was observed.
   */
  method Run(o: Options, w: World) returns (trace: seq<Step>, committed: bool)
    ensures StoppedOnce(trace, StartRecord, {StopRecord})
    ensures StoppedOnce(trace, StartRadar, {StopRadar, AwaitFrameEnd})
    ensures FinishedOnce(trace) && CommitsLast(trace)
    ensures ReceiverClosed(trace) && DrainedOnce(trace) && StatusesTaken(trace)
    ensures Honest(o, w, trace) && (committed <==> AllOk(trace))
    ensures committed ==> CheckedAtRest(trace)
    ensures committed ==> Ops(trace) == SuccessOrder(o, false) || (Ops(trace) == SuccessOrder(o, true) && !o.infinite && o.awaitsFrameEnd)
    ensures LedgerOf(trace).committed == committed && LedgerOf(trace).closes == if committed then 0 else 1
    ensures o.mirror ==> if committed then LedgerOf(trace).seals == 1 && LedgerOf(trace).aborts == 0
                         else LedgerOf(trace).aborts > 0
    ensures CancellationStays(w) && o.infinite && committed ==> o.stopChannel && StopSeen(w, trace)
    ensures CancellationStays(w) && committed ==> WaitedWell(o, w, trace)
    ensures Benign(o, w) ==> committed
    ensures committed ==> Succeeded(o, w, trace)
  {
    hide LedgerOf, Advance, IsHardware, Honest, Ops, SetUpOrder, CaptureOrder, PublishOrder, MarksOf;
    hide ReceiverClosed, DrainedOnce, StatusesTaken, StoppedOnce, FinishedOnce, CommitsLast;
    var body, ok, f := RunBody(o, w);
    var t, clean, awaited, recordStopped := Cleanup(o, w, body, f, ok);
    trace, committed := Finaliser(o, w, t, f.participantActive, ok && clean);
    TraceMeans(trace);
    SettledMeans(trace);
    BenignSucceeds(o, w, trace);
    hide Benign, AllOk;
    if committed {
      assert CleanupCalls(f, awaited, recordStopped) == CleanupOrder(awaited);
      hide CleanupOrder;
      assert Ops(trace) == SuccessOrder(o, awaited);
      OpenEndedStops(o, w, body, t, trace);
      assert trace[..|body|] == body;
    }
  }

  lemma TraceMeans(t: seq<Step>)
    requires LedgerOf(t).record.Idle? || LedgerOf(t).record.AtRest?
    requires LedgerOf(t).radar.Idle? || LedgerOf(t).radar.AtRest?
    requires LedgerOf(t).finishes == LedgerOf(t).arms <= 1 && LedgerOf(t).finishOk && LedgerOf(t).commitOk
    ensures StoppedOnce(t, StartRecord, {StopRecord}) && StoppedOnce(t, StartRadar, {StopRadar, AwaitFrameEnd})
    ensures FinishedOnce(t) && CommitsLast(t) && LedgerOf(t).allOk == AllOk(t)
    ensures LedgerOf(t).checked.Validated? ==> CheckedAtRest(t)
  {
    hide LedgerOf, IsHardware, StoppedOnce, CommitsLast, CheckedAtRest;
    DevicesMean(t);
    CountsMean(t);
    FinishMeans(t);
    CommitMeans(t);
    CheckedMeans(t);
  }

  lemma BenignSucceeds(o: Options, w: World, t: seq<Step>)
    requires Honest(o, w, t)
    ensures Benign(o, w) ==> AllOk(t)
  {
  }

  /**
    An open-ended capture whose wait succeeded, and which was not found cancelled afterwards, was asked to stop: the only other
    way to end the wait well is a cancellation, and that the final check does not pass.
   */
  lemma OpenEndedStops(o: Options, w: World, body: seq<Step>, cleaned: seq<Step>, trace: seq<Step>)
    requires Honest(o, w, trace) && body <= cleaned <= trace && body != [] && |cleaned| < |trace|
    requires body[|body| - 1] == Step(WaitCapture, true) && trace[|cleaned|] == Step(CheckContext, true)
    ensures CancellationStays(w) && o.infinite ==> o.stopChannel && StopSeen(w, trace)
    ensures CancellationStays(w) ==> WaitedWell(o, w, trace)
  {
    var i := |body| - 1;
    assert trace[i] == body[i] && trace[..i] <= trace[..|cleaned|];
    assert CaptureOk(o, w, trace[..i]);
    assert w.outcome(trace[..|cleaned|], CheckContext);
  }

  method RunBody(o: Options, w: World) returns (t: seq<Step>, ok: bool, f: Flags)
    ensures FlagsTell(f, LedgerOf(t), ok) && (f.frameEndObserved ==> !o.infinite)
    ensures ok ==> f.radarMayBeRunning && f.dcaRecording && f.participantActive == o.participant
    ensures FlagsMark(f, MarksOf(t))
    ensures Honest(o, w, t) && (ok ==> f.dcaUsed && Ops(t) == SetUpOrder(o) + CaptureOrder(o))
    ensures ok ==> t != [] && t[|t| - 1] == Step(WaitCapture, true)
    ensures ok ==> (f.frameEndObserved <==> !o.infinite && w.answer(t, FrameEndSeen))
  {
    hide LedgerOf, Honest, Ops, If, SetUpOrder, StartOrder, AwaitOrder, MarksOf;
    var dcaUsed;
    t, ok, dcaUsed := Establish(o, w);
    f := NoFlags.(dcaUsed := dcaUsed);
    if !ok { return; }
    t, ok, f := ArmAndListen(o, w, t, dcaUsed);
    if !ok { return; }
    t, ok, f := StartAll(o, w, t, f);
    if !ok { return; }
    t, ok, f := Capture(o, w, t, f);
  }

  method Finaliser(o: Options, w: World, before: seq<Step>, participantActive: bool, clean: bool)
    returns (t: seq<Step>, committed: bool)
    requires LedgerOf(before).arms == if participantActive then 1 else 0
    requires Live(LedgerOf(before), LedgerOf(before).record, LedgerOf(before).radar, LedgerOf(before).arms, clean)
    requires Honest(o, w, before)
    ensures LedgerOf(t).record == LedgerOf(before).record && LedgerOf(t).radar == LedgerOf(before).radar
    ensures LedgerOf(t).arms == LedgerOf(before).arms && (committed ==> clean && LedgerOf(t).checked.Validated?)
    ensures LedgerOf(t).finishes == LedgerOf(t).arms <= 1 && LedgerOf(t).finishOk && LedgerOf(t).commitOk
    ensures committed == LedgerOf(t).committed == LedgerOf(t).allOk && LedgerOf(t).closes == if committed then 0 else 1
    ensures o.mirror ==> if committed then LedgerOf(t).seals == 1 && LedgerOf(t).aborts == 0 else LedgerOf(t).aborts > 0
    ensures before <= t && Honest(o, w, t) && (committed ==> |before| < |t| && t[|before|] == Step(CheckContext, true))
    ensures committed && participantActive == o.participant ==> Ops(t) == Ops(before) + PublishOrder(o)
    ensures LaterMarks(MarksOf(before), MarksOf(t))
  {
    hide LedgerOf, Honest, Ops, MarksOf;
    var good;
    t, good := Conclude(o, w, before, participantActive, clean);
    if o.mirror {
      t, good := SettleMirror(o, w, t, good);
    }
    t, committed := SettleOutput(o, w, t, good);
  }
}
