/**
  The capture mirror (internal/capturestream/mirror.go) as a state machine. Every
  critical section of the mirror's mutex is one step, so a run is any interleaving of
  writers, the sink worker, Seal callers and Abort callers. The state carries three
  pieces of history that the program does not: the authoritative output, the frames
  handed to the sink, and how many of them the sink accepted.
 */
module MirrorModel {
  import opened Bytes
  import opened Common
  import opened Intervals
  import opened Coverage

  const MAX_BUFFER_BYTES: int := 128 * 1024 * 1024
  const MAX_FRAME_PAYLOAD_BYTES: int := 64 * 1024 * 1024
  const MAX_FRAME_SLOTS: int := 4096

  datatype RawConfig = RawConfig(frameBytes: int, frameCount: nat, maxFrameCount: nat, bufferBytes: int)

  /** What the mirror derives from its configuration and keeps for its lifetime. */
  datatype Limits = Limits(frameBytes: int, frameCount: nat, frameLimit: nat, maxSlots: int)

  type Config = c: Limits
    | c.frameBytes > 0 && 1 <= c.maxSlots && (c.frameCount != 0 ==> c.frameLimit == c.frameCount)
    witness Limits(2, 1, 1, 1)

  /** NewMirror: the accepted configurations and the limits derived from them. */
  function NewMirror(raw: RawConfig): Option<Limits> {
    if raw.frameBytes <= 0 || raw.frameBytes % 2 != 0 || raw.frameBytes > MAX_FRAME_PAYLOAD_BYTES then None
    else if raw.frameCount == 0 && raw.maxFrameCount == 0 then None
    else if raw.frameCount != 0 && raw.maxFrameCount != 0 then None
    else
      var frameLimit := if raw.frameCount == 0 then raw.maxFrameCount else raw.frameCount;
      if frameLimit > MAX_INT64 / raw.frameBytes then None
      else if raw.bufferBytes < raw.frameBytes || raw.bufferBytes > MAX_BUFFER_BYTES then None
      else
        var maxSlots := Min(Min(raw.bufferBytes / raw.frameBytes, MAX_FRAME_SLOTS), frameLimit);
        if maxSlots <= 0 then None
        else Some(Limits(raw.frameBytes, raw.frameCount, frameLimit, maxSlots))
  }

  /** Byte offset of position x of frame k. */
  function At(c: Config, k: int, x: int): int {
    k * c.frameBytes + x
  }

  function ExpectedBytes(c: Config): int {
    At(c, c.frameLimit, 0)
  }

  datatype Failure = Integrity | Backpressure | WriteFailed | SinkFailed | SealTimedOut
  datatype Phase = Open | Sealing | Sealed | Aborted
  datatype Frame = Frame(index: nat, payload: seq<byte>)

  /** Where the worker stands: waiting on the queue, holding a frame it has not checked yet,
      inside the sink call, skipping a frame, or returned because the queue was closed. */
  datatype Worker = Waiting | Holding(frame: Frame) | Writing(frame: Frame) | Discarding(frame: Frame) | Done

  predicate Busy(w: Worker) {
    w.Holding? || w.Writing? || w.Discarding?
  }

  datatype State = State(
    phase: Phase,
    failure: Option<Failure>,
    slots: map<int, Spool>,
    reserved: int,
    nextEmit: nat,
    delivered: nat,
    sealedFrameCount: nat,
    queue: seq<Frame>,
    queueClosed: bool,
    sinkCancelled: bool,
    sealers: nat,
    worker: Worker,
    discard: bool,
    output: map<int, byte>,
    handed: seq<Frame>,
    accepted: nat,
    taken: nat)

  const Initial: State :=
    State(Open, None, map[], 0, 0, 0, 0, [], false, false, 0, Waiting, false, map[], [], 0, 0)

  function SlotCount<T>(slots: map<int, T>): (n: nat)
    ensures n == 0 <==> slots == map[]
  {
    |slots|
  }

  // ---------------------------------------------------------------- steps

  function AbortState(s: State): State {
    if s.phase.Sealed? || s.phase.Aborted? then s
    else s.(phase := Aborted, reserved := s.reserved - SlotCount(s.slots), slots := map[], queueClosed := true)
  }

  function Fail(s: State, f: Failure): State {
    AbortState(if s.failure.None? then s.(failure := Some(f)) else s)
  }

  function FirstFrame(c: Config, offset: int): int {
    offset / c.frameBytes
  }

  function LastFrame(c: Config, offset: int, length: int): int {
    (offset + length - 1) / c.frameBytes
  }

  function FragmentStart(c: Config, offset: int, k: int): int {
    Max(offset - At(c, k, 0), 0)
  }

  function FragmentEnd(c: Config, offset: int, length: int, k: int): int {
    Min(offset + length - At(c, k, 0), c.frameBytes)
  }

  function SlotAt(c: Config, slots: map<int, Spool>, k: int): Spool {
    if k in slots then slots[k] else EmptySpool(c.frameBytes)
  }

  /** How many of the frames k..last have no slot. */
  function Missing(occupied: set<int>, k: int, last: int): nat
    decreases last - k
  {
    if k > last then 0 else Missing(occupied, k, last - 1) + (if last in occupied then 0 else 1)
  }

  function CheckFragments(c: Config, slots: map<int, Spool>, offset: int, length: int, k: int, last: int): Option<Failure>
    decreases last - k
  {
    if k > last then None
    else
      match PreflightSpool(SlotAt(c, slots, k), FragmentStart(c, offset, k), FragmentEnd(c, offset, length, k))
      case Refused(SparseLimit) => Some(Backpressure)
      case Refused(_) => Some(Integrity)
      case Fits => CheckFragments(c, slots, offset, length, k + 1, last)
  }

  /** planWriteLocked: why a write is refused, if it is. */
  function Plan(c: Config, s: State, length: nat, offset: int): Option<Failure> {
    if length == 0 || offset < 0 || offset > ExpectedBytes(c) || length > ExpectedBytes(c) - offset then Some(Integrity)
    else
      var first, last := FirstFrame(c, offset), LastFrame(c, offset, length);
      if first < s.nextEmit then Some(Integrity)
      else if last - s.nextEmit >= c.maxSlots then Some(Backpressure)
      else if Missing(s.slots.Keys, first, last) > c.maxSlots - s.reserved then Some(Backpressure)
      else CheckFragments(c, s.slots, offset, length, first, last)
  }

  /** The part of a write that falls into frame k. */
  function ApplyFragment(c: Config, sp: Spool, payload: seq<byte>, offset: int, k: int): Spool {
    Spool(seq(|sp.data|, x requires 0 <= x < |sp.data| =>
                if offset <= At(c, k, x) < offset + |payload| then payload[At(c, k, x) - offset] else sp.data[x]),
          Insert(sp.ranges, Range(FragmentStart(c, offset, k), FragmentEnd(c, offset, |payload|, k))),
          sp.covered + FragmentEnd(c, offset, |payload|, k) - FragmentStart(c, offset, k))
  }

  function WriteSlots(c: Config, slots: map<int, Spool>, payload: seq<byte>, offset: nat): (written: map<int, Spool>)
    ensures written.Keys == slots.Keys + Span(FirstFrame(c, offset), LastFrame(c, offset, |payload|) + 1)
  {
    var first, last := FirstFrame(c, offset), LastFrame(c, offset, |payload|);
    map k | k in slots.Keys + Span(first, last + 1) ::
      if first <= k <= last then ApplyFragment(c, SlotAt(c, slots, k), payload, offset, k) else slots[k]
  }

  function Image(payload: seq<byte>, offset: int): map<int, byte> {
    var region := Span(offset, offset + |payload|);
    map o | o in region :: payload[o - offset]
  }

  /** enqueueCompleteLocked. */
  function EnqueueComplete(c: Config, s: State): State
    decreases c.frameLimit - s.nextEmit
  {
    if s.nextEmit < c.frameLimit && s.nextEmit in s.slots && Complete(s.slots[s.nextEmit]) then
      if |s.queue| < c.maxSlots then EnqueueComplete(c, Push(s)) else Fail(s, Backpressure)
    else s
  }

  function Push(s: State): State
    requires s.nextEmit in s.slots
  {
    s.(queue := s.queue + [Frame(s.nextEmit, s.slots[s.nextEmit].data)],
       slots := s.slots - {s.nextEmit},
       nextEmit := s.nextEmit + 1)
  }

  /** The authoritative write either stores the payload or fails and may leave anything in the written region. */
  datatype Outcome = Stored | Damaged(region: map<int, byte>)

  function WriteNext(c: Config, s: State, payload: seq<byte>, offset: int, outcome: Outcome): State {
    if s.failure.Some? || !s.phase.Open? then s
    else
      match Plan(c, s, |payload|, offset)
      case Some(f) => Fail(s, f)
      case None =>
        match outcome
        case Damaged(region) => Fail(s.(output := s.output + region), WriteFailed)
        case Stored => EnqueueComplete(c, Stored1(c, s, payload, offset))
  }

  /** The state after the output write and the coverage update, before any frame is queued. */
  function Stored1(c: Config, s: State, payload: seq<byte>, offset: nat): State {
    s.(output := s.output + Image(payload, offset),
       slots := WriteSlots(c, s.slots, payload, offset),
       reserved := s.reserved + Missing(s.slots.Keys, FirstFrame(c, offset), LastFrame(c, offset, |payload|)))
  }

  datatype Reply = ReturnsNil | ReturnsError | Waits

  function SealBegin(c: Config, s: State): (State, Reply) {
    match s.phase
    case Sealed => (s, ReturnsNil)
    case Aborted => (s, ReturnsError)
    case Sealing => (s.(sealers := s.sealers + 1), Waits)
    case Open =>
      if s.failure.Some? then (AbortState(s), ReturnsError)
      else
        var count := if c.frameCount == 0 then s.nextEmit else c.frameCount;
        if count == 0 || s.nextEmit != count || SlotCount(s.slots) != 0 then (Fail(s, Integrity), ReturnsError)
        else (s.(sealedFrameCount := count, phase := Sealing, queueClosed := true, sealers := s.sealers + 1), Waits)
  }

  /** Seal after the worker returned. */
  function SealFinish(s: State): (State, Reply)
    requires s.sealers > 0
  {
    var s := s.(sealers := s.sealers - 1);
    match s.phase
    case Aborted => (s, ReturnsError)
    case Sealed => (s, ReturnsNil)
    case Open => (s, ReturnsError)
    case Sealing =>
      if s.failure.Some? then (s.(phase := Aborted), ReturnsError)
      else if s.delivered != s.sealedFrameCount || s.reserved != 0 then (Fail(s, Integrity), ReturnsError)
      else (s.(phase := Sealed), ReturnsNil)
  }

  /** Seal when its deadline wins. */
  function SealExpire(s: State): (State, Reply)
    requires s.sealers > 0
  {
    var s := s.(sealers := s.sealers - 1);
    if s.phase.Sealed? then (s, ReturnsNil)
    else if s.phase.Aborted? then (s, ReturnsError)
    else (Fail(s, SealTimedOut), ReturnsError)
  }

  function Take(s: State): State
    requires s.queue != []
  {
    s.(worker := Holding(s.queue[0]), queue := s.queue[1..], taken := s.taken + 1)
  }

  function CheckDiscard(s: State): State
    requires s.worker.Holding?
  {
    var discard := s.discard || s.failure.Some? || s.phase.Aborted? || s.sinkCancelled;
    if discard then s.(discard := true, worker := Discarding(s.worker.frame))
    else s.(worker := Writing(s.worker.frame), handed := s.handed + [s.worker.frame])
  }

  function Return(s: State, sinkOk: bool): State
    requires s.worker.Writing? || s.worker.Discarding?
  {
    var idle := s.(reserved := s.reserved - 1, worker := Waiting);
    if s.worker.Discarding? then idle
    else if !sinkOk then
      var stopped := idle.(discard := true);
      if s.phase.Aborted? then stopped else Fail(stopped, SinkFailed)
    else if s.phase.Aborted? then idle.(accepted := s.accepted + 1)
    else idle.(accepted := s.accepted + 1, delivered := s.delivered + 1)
  }

  datatype Event =
    | WriteEvent(payload: seq<byte>, offset: int, outcome: Outcome)
    | TakeEvent
    | CheckEvent
    | ReturnEvent(sinkOk: bool)
    | ExitEvent
    | SealBeginEvent
    | SealFinishEvent
    | SealExpireEvent
    | AbortEvent
    | CancelSinkEvent

  /** When a step can happen at all. */
  predicate Enabled(s: State, e: Event) {
    match e
    case WriteEvent(payload, offset, outcome) =>
      outcome.Damaged? ==> forall o | o in outcome.region :: offset <= o < offset + |payload|
    case TakeEvent => s.worker.Waiting? && s.queue != []
    case CheckEvent => s.worker.Holding?
    case ReturnEvent(_) => s.worker.Writing? || s.worker.Discarding?
    case ExitEvent => s.worker.Waiting? && s.queue == [] && s.queueClosed
    case SealBeginEvent => true
    case SealFinishEvent => s.sealers > 0 && s.worker.Done?
    case SealExpireEvent => s.sealers > 0
    case AbortEvent => true
    case CancelSinkEvent => s.phase.Aborted? || s.phase.Sealed?
  }

  function Next(c: Config, s: State, e: Event): State
    requires Enabled(s, e)
  {
    match e
    case WriteEvent(payload, offset, outcome) => WriteNext(c, s, payload, offset, outcome)
    case TakeEvent => Take(s)
    case CheckEvent => CheckDiscard(s)
    case ReturnEvent(sinkOk) => Return(s, sinkOk)
    case ExitEvent => s.(worker := Done)
    case SealBeginEvent => SealBegin(c, s).0
    case SealFinishEvent => SealFinish(s).0
    case SealExpireEvent => SealExpire(s).0
    case AbortEvent => AbortState(s)
    case CancelSinkEvent => s.(sinkCancelled := true)
  }

  /** Any interleaving: a chain of enabled steps from the initial state. */
  ghost predicate IsRun(c: Config, states: seq<State>, events: seq<Event>) {
    && |states| == |events| + 1
    && states[0] == Initial
    && forall i | 0 <= i < |events| :: Enabled(states[i], events[i]) && states[i + 1] == Next(c, states[i], events[i])
  }
}
