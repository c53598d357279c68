/** The host side of the sensor-producer protocol (internal/sensorproducer/state.go, protocol.go). */
module SensorProducer {
  import opened Common
  import opened Sensors
  import opened Utf8

  const MAX_ID_BYTES: int := 128
  const MAX_PAYLOAD_BYTES: int := 0x400_0000
  const MAX_ERROR_BYTES: int := 4096

  datatype Command = Ready | Arm | Start | Stop | Cancel
  datatype Control = Control(command: Command, sessionId: string, sourceId: string, number: nat)

  datatype Meta =
    | AckMeta(command: Command, ok: bool, error: string)
    | SessionMeta
    | ItemMeta(index: nat)
    | EndMeta(itemCount: nat, payloadBytes: nat)
    | ErrorMeta(message: string)
    | EofMeta

  /** One frame of the producer's output; the constructor of meta is the frame type and size the raw payload length. */
  datatype Record = Record(sessionId: string, sourceId: string, number: nat, meta: Meta, size: nat)

  predicate IdOk(s: string) {
    && 1 <= |s| <= MAX_ID_BYTES
    && forall i | 0 <= i < |s| :: 'a' <= s[i] <= 'z' || 'A' <= s[i] <= 'Z' || '0' <= s[i] <= '9' || s[i] in "._:-"
  }

  predicate RecordOk(r: Record) {
    && IdOk(r.sessionId) && IdOk(r.sourceId) && 0 < r.number <= MAX_UINT64
    && r.size <= MAX_PAYLOAD_BYTES && (r.size != 0 ==> r.meta.ItemMeta?)
  }

  /** The limits on error texts count bytes of UTF-8, as the source's len does. */
  function TextBytes(m: string): (n: nat)
    ensures |m| <= n <= 4 * |m|
  {
    if m == "" then 0 else TextBytes(m[..|m| - 1]) + |EncodeRune(m[|m| - 1])|
  }

  lemma {:induction false} TextBytesExact(m: string)
    ensures TextBytes(m) == |EncodeText(m)|
  {
    hide EncodeRune;
    if m != "" {
      TextBytesExact(m[..|m| - 1]);
      EncodeLast(m[..|m| - 1], m[|m| - 1]);
      assert m == m[..|m| - 1] + [m[|m| - 1]];
    }
  }

  lemma {:induction false} EncodeLast(m: string, c: char)
    ensures |EncodeText(m + [c])| == |EncodeText(m)| + |EncodeRune(c)|
  {
    hide EncodeRune;
    if m == "" {
      assert m + [c] == [c] && [c][1..] == "";
    } else {
      EncodeLast(m[1..], c);
      assert (m + [c])[1..] == m[1..] + [c];
    }
  }

  predicate MessageOk(m: string) { 0 < TextBytes(m) <= MAX_ERROR_BYTES }

  predicate AckOk(m: Meta) {
    m.AckMeta? && (m.ok <==> m.error == "") && TextBytes(m.error) <= MAX_ERROR_BYTES
  }

  datatype Phase =
    | PhaseInit | PhaseReady | PhaseArmed | PhaseStarted | PhaseStreaming | PhaseStopped | PhaseCanceled
    | PhaseEnded | PhaseFailed | PhaseEof | PhaseComplete

  datatype Cause = ProtocolError | ProducerError(command: Option<Command>, message: string)

  datatype Host = Host(
    sessionId: string, sourceId: string, phase: Phase, nextSeq: nat, pending: Option<Control>,
    lastData: nat, cause: Option<Cause>)

  function NewHost(sessionId: string, sourceId: string): Option<Host> {
    if IdOk(sessionId) && IdOk(sourceId) then Some(Host(sessionId, sourceId, PhaseInit, 1, None, 0, None)) else None
  }

  predicate CommandAllowed(phase: Phase, command: Command) {
    match command
    case Cancel => phase.PhaseInit? || phase.PhaseReady? || phase.PhaseArmed? || phase.PhaseStarted? || phase.PhaseStreaming?
    case Ready => phase.PhaseInit?
    case Arm => phase.PhaseReady?
    case Start => phase.PhaseArmed?
    case Stop => phase.PhaseStarted? || phase.PhaseStreaming?
  }

  /** Prepare: the command to send, or an error that leaves the state alone. */
  function NextControl(h: Host, command: Command): Option<Control> {
    if h.pending.Some? || !CommandAllowed(h.phase, command) then None
    else Some(Control(command, h.sessionId, h.sourceId, h.nextSeq))
  }

  function Prepared(h: Host, command: Command): Host {
    match NextControl(h, command)
    case None => h
    case Some(c) => h.(nextSeq := h.nextSeq + 1, pending := Some(c))
  }

  /** A later error replaces a recorded protocol error but never a recorded producer error. */
  function FailHost(h: Host, cause: Cause): Host {
    h.(phase := PhaseFailed, cause := if h.cause.None? || h.cause.value.ProtocolError? then Some(cause) else h.cause)
  }

  function AcknowledgedPhase(c: Command): Phase {
    match c
    case Ready => PhaseReady
    case Arm => PhaseArmed
    case Start => PhaseStarted
    case Stop => PhaseStopped
    case Cancel => PhaseCanceled
  }

  function AcceptAck(h: Host, r: Record): Host {
    if h.pending.None? || r.number != h.pending.value.number || !AckOk(r.meta) || r.meta.command != h.pending.value.command then
      FailHost(h, ProtocolError)
    else if !r.meta.ok then FailHost(h.(pending := None), ProducerError(Some(r.meta.command), r.meta.error))
    else h.(pending := None, phase := AcknowledgedPhase(r.meta.command))
  }

  function AcceptData(h: Host, r: Record): Host {
    match r.meta
    case SessionMeta =>
      if !h.phase.PhaseStarted? || h.lastData != 1 then FailHost(h, ProtocolError) else h.(phase := PhaseStreaming)
    case ItemMeta(_) => if !h.phase.PhaseStreaming? then FailHost(h, ProtocolError) else h
    case EndMeta(_, _) => if !h.phase.PhaseStopped? then FailHost(h, ProtocolError) else h.(phase := PhaseEnded)
    case ErrorMeta(message) =>
      if !MessageOk(message) then FailHost(h, ProtocolError)
      else h.(phase := PhaseFailed, cause := if h.cause.None? then Some(ProducerError(None, message)) else h.cause)
    case EofMeta =>
      if h.phase.PhaseEnded? || h.phase.PhaseCanceled? || h.phase.PhaseFailed? then h.(phase := PhaseEof)
      else FailHost(h, ProtocolError)
    case AckMeta(_, _, _) => h
  }

  function Accept(h: Host, r: Record): Host {
    if !RecordOk(r) || r.sessionId != h.sessionId || r.sourceId != h.sourceId then FailHost(h, ProtocolError)
    else if r.meta.AckMeta? then AcceptAck(h, r)
    else if h.lastData >= MAX_UINT64 || r.number != h.lastData + 1 then FailHost(h, ProtocolError)
    else AcceptData(h.(lastData := r.number), r)
  }

  /** The error that acceptACK returns: its own, whatever the recorded cause is. */
  function AckReply(h: Host, r: Record): Option<Cause> {
    if h.pending.None? || r.number != h.pending.value.number || !AckOk(r.meta) || r.meta.command != h.pending.value.command then
      Some(ProtocolError)
    else if !r.meta.ok then Some(ProducerError(Some(r.meta.command), r.meta.error))
    else None
  }

  function DataReply(h: Host, r: Record): Option<Cause> {
    match r.meta
    case SessionMeta => if !h.phase.PhaseStarted? || h.lastData != 1 then Some(ProtocolError) else None
    case ItemMeta(_) => if !h.phase.PhaseStreaming? then Some(ProtocolError) else None
    case EndMeta(_, _) => if !h.phase.PhaseStopped? then Some(ProtocolError) else None
    case ErrorMeta(message) => if !MessageOk(message) then Some(ProtocolError) else None
    case EofMeta => if h.phase.PhaseEnded? || h.phase.PhaseCanceled? || h.phase.PhaseFailed? then None else Some(ProtocolError)
    case AckMeta(_, _, _) => None
  }

  /** The error that Accept returns; a frame that is malformed, foreign or out of sequence is answered with the recorded cause. */
  function Reply(h: Host, r: Record): Option<Cause> {
    if !RecordOk(r) || r.sessionId != h.sessionId || r.sourceId != h.sourceId then FailHost(h, ProtocolError).cause
    else if r.meta.AckMeta? then AckReply(h, r)
    else if h.lastData >= MAX_UINT64 then Some(ProtocolError)
    else if r.number != h.lastData + 1 then FailHost(h, ProtocolError).cause
    else DataReply(h.(lastData := r.number), r)
  }

  function AcceptTransportEof(h: Host): Host {
    if h.phase.PhaseEof? then h.(phase := PhaseComplete) else FailHost(h, ProtocolError)
  }

  /** The host object; its mutex makes every method one step. */
  class State {
    const sessionId: string
    const sourceId: string
    var phase: Phase
    var nextSeq: nat
    var pending: Option<Control>
    var lastData: nat
    var cause: Option<Cause>

    ghost function Value(): Host
      reads this
    {
      Host(sessionId, sourceId, phase, nextSeq, pending, lastData, cause)
    }

    /** NewState refuses identifiers that are not well formed. */
    static method Create(sessionId: string, sourceId: string) returns (state: State?)
      ensures state == null <==> NewHost(sessionId, sourceId) == None
      ensures state != null ==> fresh(state) && NewHost(sessionId, sourceId) == Some(state.Value())
    {
      if !IdOk(sessionId) || !IdOk(sourceId) {
        return null;
      }
      state := new State(sessionId, sourceId);
    }

    constructor (sessionId: string, sourceId: string)
      requires IdOk(sessionId) && IdOk(sourceId)
      ensures NewHost(sessionId, sourceId) == Some(Value())
    {
      this.sessionId, this.sourceId := sessionId, sourceId;
      phase, nextSeq, pending, lastData, cause := PhaseInit, 1, None, 0, None;
    }

    method Prepare(command: Command) returns (control: Option<Control>)
      modifies this`nextSeq, this`pending
      ensures control == NextControl(old(Value()), command) && Value() == Prepared(old(Value()), command)
    {
      if pending.Some? || !CommandAllowed(phase, command) {
        return None;
      }
      control := Some(Control(command, sessionId, sourceId, nextSeq));
      nextSeq := nextSeq + 1;
      pending := control;
    }

    method Fail(failure: Cause)
      modifies this`phase, this`cause
      ensures Value() == FailHost(old(Value()), failure)
    {
      if cause.None? || cause.value.ProtocolError? {
        cause := Some(failure);
      }
      phase := PhaseFailed;
    }

    method AcceptRecord(r: Record) returns (failure: Option<Cause>)
      modifies this
      ensures Value() == Accept(old(Value()), r) && failure == Reply(old(Value()), r)
    {
      if !RecordOk(r) || r.sessionId != sessionId || r.sourceId != sourceId {
        Fail(ProtocolError);
        return cause;
      }
      if r.meta.AckMeta? {
        failure := TakeAck(r);
        return;
      }
      if lastData >= MAX_UINT64 {
        Fail(ProtocolError);
        return Some(ProtocolError);
      }
      if r.number != lastData + 1 {
        Fail(ProtocolError);
        return cause;
      }
      lastData := r.number;
      failure := TakeData(r);
    }

    method TakeData(r: Record) returns (failure: Option<Cause>)
      requires !r.meta.AckMeta?
      modifies this`phase, this`cause
      ensures Value() == AcceptData(old(Value()), r) && failure == DataReply(old(Value()), r)
    {
      failure := None;
      match r.meta
      case SessionMeta =>
        if !phase.PhaseStarted? || lastData != 1 {
          Fail(ProtocolError);
          return Some(ProtocolError);
        }
        phase := PhaseStreaming;
      case ItemMeta(_) =>
        if !phase.PhaseStreaming? {
          Fail(ProtocolError);
          return Some(ProtocolError);
        }
      case EndMeta(_, _) =>
        if !phase.PhaseStopped? {
          Fail(ProtocolError);
          return Some(ProtocolError);
        }
        phase := PhaseEnded;
      case ErrorMeta(message) =>
        if !MessageOk(message) {
          Fail(ProtocolError);
          return Some(ProtocolError);
        }
        if cause.None? {
          cause := Some(ProducerError(None, message));
        }
        phase := PhaseFailed;
      case EofMeta =>
        if !phase.PhaseEnded? && !phase.PhaseCanceled? && !phase.PhaseFailed? {
          Fail(ProtocolError);
          return Some(ProtocolError);
        }
        phase := PhaseEof;
    }

    method TakeAck(r: Record) returns (failure: Option<Cause>)
      requires r.meta.AckMeta?
      modifies this
      ensures Value() == AcceptAck(old(Value()), r) && failure == AckReply(old(Value()), r)
    {
      if pending.None? || r.number != pending.value.number || !AckOk(r.meta) || r.meta.command != pending.value.command {
        Fail(ProtocolError);
        return Some(ProtocolError);
      }
      pending := None;
      if !r.meta.ok {
        Fail(ProducerError(Some(r.meta.command), r.meta.error));
        return Some(ProducerError(Some(r.meta.command), r.meta.error));
      }
      phase := AcknowledgedPhase(r.meta.command);
      return None;
    }

    method TransportEof() returns (result: Option<Cause>)
      modifies this`phase, this`cause
      ensures Value() == AcceptTransportEof(old(Value())) && result == cause
    {
      if !phase.PhaseEof? {
        Fail(ProtocolError);
        return cause;
      }
      phase := PhaseComplete;
      return cause;
    }
  }
}

/** The built-in camera producer (internal/fixedframeproducer/producer.go). */
module FrameProducer {
  import opened Common
  import opened Sensors
  import opened SensorProducer

  datatype Plan = Plan(sourceId: string, limits: Limits, frameBytes: nat)

  /** The part of validateConfiguration the protocol depends on. */
  predicate PlanOk(p: Plan) {
    && IdOk(p.sourceId) && ValidLimits(p.limits)
    && 0 < p.frameBytes <= MAX_PAYLOAD_BYTES && p.frameBytes <= p.limits.maxItemBytes && p.frameBytes <= p.limits.maxPayloadBytes
  }

  /** Where run, awaitStart or stream waits; Exited means that run has returned. */
  datatype Place = AwaitReady | AwaitArm | AwaitStart | Streaming | Exited

  datatype Producer = Producer(
    place: Place, sessionId: string, nextControlSeq: nat, nextRecordSeq: nat, itemCount: nat, payloadBytes: nat,
    discardThrough: nat, failed: bool)

  const NewProducer: Producer := Producer(AwaitReady, "", 1, 1, 0, 0, 0, false)

  /** What the camera child did: it failed to start at ARM, or had exited at STOP. */
  datatype Camera =
    | CameraFine
    | CameraBroken(message: string)

  /** A control as the reading goroutine hands it over, with the frames completed when it was read. */
  datatype Reading = Reading(control: Control, frameBoundary: nat)

  datatype Output = Output(p: Producer, records: seq<Record>)

  /** boundedErrorMessage drops characters from the end while the text has too many bytes. */
  function Trimmed(message: string): (m: string)
    ensures m <= message && TextBytes(m) <= MAX_ERROR_BYTES && (message != "" ==> m != "")
  {
    if TextBytes(message) <= MAX_ERROR_BYTES then message else Trimmed(message[..|message| - 1])
  }

  function Bounded(message: string): (m: string)
    ensures MessageOk(m)
  {
    if Trimmed(message) == "" then "camera producer failed" else Trimmed(message)
  }

  lemma {:induction false} LongerHasMore(m: string, k: nat)
    requires k <= |m|
    ensures TextBytes(m[..k]) <= TextBytes(m)
    decreases |m|
  {
    if k < |m| {
      LongerHasMore(m[..|m| - 1], k);
      assert m[..|m| - 1][..k] == m[..k];
    } else {
      assert m[..k] == m;
    }
  }

  /** The text kept is the longest prefix of whole characters that fits, and only an empty text is replaced. */
  lemma {:induction false} BoundedIsLongestPrefix(message: string, k: nat)
    requires message != "" && k <= |message|
    ensures Bounded(message) <= message
    ensures k <= |Bounded(message)| <==> TextBytes(message[..k]) <= MAX_ERROR_BYTES
    decreases |message|
  {
    if TextBytes(message) <= MAX_ERROR_BYTES {
      LongerHasMore(message, k);
    } else {
      var shorter := message[..|message| - 1];
      BoundedIsLongestPrefix(shorter, if k < |message| then k else 0);
      assert Bounded(message) == Bounded(shorter);
      if k < |message| {
        assert shorter[..k] == message[..k];
      } else {
        assert message[..k] == message;
      }
    }
  }

  /** boundedErrorMessage itself. */
  method BoundMessage(text: string) returns (m: string)
    ensures m == Bounded(text)
  {
    m := text;
    while TextBytes(m) > MAX_ERROR_BYTES
      invariant m <= text && Trimmed(m) == Trimmed(text)
      decreases |m|
    {
      m := m[..|m| - 1];
    }
    if m == "" {
      return "camera producer failed";
    }
  }

  /** writeRecord: nothing is written once the sequence is exhausted. */
  function Written(plan: Plan, o: Output, meta: Meta, size: nat): Output {
    if o.p.nextRecordSeq == 0 then o
    else
      var r := Record(o.p.sessionId, plan.sourceId, o.p.nextRecordSeq, meta, size);
      Output(o.p.(nextRecordSeq := if o.p.nextRecordSeq == MAX_UINT64 then 0 else o.p.nextRecordSeq + 1), o.records + [r])
  }

  function Acked(plan: Plan, p: Producer, c: Control, ok: bool, error: string): Output {
    Output(p, [Record(c.sessionId, c.sourceId, c.number, AckMeta(c.command, ok, error), 0)])
  }

  function Returned(o: Output): Output {
    o.(p := o.p.(place := Exited))
  }

  /** writeFailure, after which run returns. */
  function FailureWritten(plan: Plan, o: Output, message: string): Output {
    var o := o.(p := o.p.(failed := true));
    Returned(Written(plan, Written(plan, o, ErrorMeta(Bounded(message)), 0), EofMeta, 0))
  }

  function Rejected(plan: Plan, p: Producer, c: Control, message: string): Output {
    FailureWritten(plan, Acked(plan, p, c, false, Bounded(message)), message)
  }

  function Cancelled(plan: Plan, p: Producer, c: Control): Output {
    Returned(Written(plan, Acked(plan, p, c, true, ""), EofMeta, 0))
  }

  function Stopped(plan: Plan, p: Producer, c: Control, camera: Camera): Output {
    var acked := Acked(plan, p, c, true, "");
    match camera
    case CameraBroken(message) => FailureWritten(plan, acked, message)
    case CameraFine => Returned(Written(plan, Written(plan, acked, EndMeta(p.itemCount, p.payloadBytes), 0), EofMeta, 0))
  }

  /** nextControl refuses another source, a changed session and a gap; run or awaitStart then returns the error silently. */
  predicate ControlOk(plan: Plan, p: Producer, c: Control) {
    c.sourceId == plan.sourceId && (p.sessionId == "" || c.sessionId == p.sessionId) && c.number == p.nextControlSeq
  }

  function OnControl(plan: Plan, p: Producer, r: Reading, camera: Camera): Output {
    var c := r.control;
    if p.place.Exited? then Output(p, [])
    else if !ControlOk(plan, p, c) then
      if p.place.Streaming? then FailureWritten(plan, Output(p, []), "read terminal producer control")
      else Returned(Output(p, []))
    else
      var p := p.(sessionId := c.sessionId, nextControlSeq := p.nextControlSeq + 1);
      if c.command.Cancel? then Cancelled(plan, p, c)
      else Advanced(plan, p, r, camera)
  }

  /** The command a place waits for is carried out; any other is rejected. */
  function Advanced(plan: Plan, p: Producer, r: Reading, camera: Camera): Output {
    var c := r.control;
    match p.place
    case AwaitReady =>
      if c.command.Ready? then Acked(plan, p.(place := AwaitArm), c, true, "") else Rejected(plan, p, c, "expected READY")
    case AwaitArm =>
      if !c.command.Arm? then Rejected(plan, p, c, "expected ARM")
      else if camera.CameraBroken? then Rejected(plan, p, c, camera.message)
      else Acked(plan, p.(place := AwaitStart), c, true, "")
    case AwaitStart =>
      if !c.command.Start? then Rejected(plan, p, c, "expected START")
      else
        Written(plan, Acked(plan, p.(place := Streaming, discardThrough := r.frameBoundary), c, true, ""), SessionMeta, 0)
    case Streaming =>
      if c.command.Stop? then Stopped(plan, p, c, camera) else Rejected(plan, p, c, "expected STOP or CANCEL")
    case Exited => Output(p, [])
  }

  /** A frame from the camera reader: discarded before START and up to the boundary, otherwise one item. */
  function OnFrame(plan: Plan, p: Producer, sequence: nat, size: nat): Output {
    if !p.place.Streaming? || sequence <= p.discardThrough then Output(p, [])
    else if || size == 0 || size > plan.limits.maxItemBytes || p.itemCount >= plan.limits.maxItems
            || p.payloadBytes > plan.limits.maxPayloadBytes - size then
      FailureWritten(plan, Output(p, []), "camera child output exceeds the source limits")
    else
      var o := Written(plan, Output(p, []), ItemMeta(p.itemCount), size);
      if o.records == [] then Returned(o)
      else o.(p := o.p.(itemCount := p.itemCount + 1, payloadBytes := p.payloadBytes + size))
  }

  /** A read error or a stopped frame reader while waiting for START or streaming. */
  function OnCameraFailure(plan: Plan, p: Producer, message: string): Output {
    if p.place.AwaitStart? || p.place.Streaming? then FailureWritten(plan, Output(p, []), message) else Output(p, [])
  }

  /** The producer object: the runner's fields, with what it wrote so far. */
  class Runner {
    const plan: Plan
    var place: Place
    var sessionId: string
    var nextControlSeq: nat
    var nextRecordSeq: nat
    var itemCount: nat
    var payloadBytes: nat
    var discardThrough: nat
    ghost var failed: bool
    var output: seq<Record>

    ghost function Value(): Producer
      reads this
    {
      Producer(place, sessionId, nextControlSeq, nextRecordSeq, itemCount, payloadBytes, discardThrough, failed)
    }

    constructor (plan: Plan)
      ensures this.plan == plan && Value() == NewProducer && output == []
    {
      this.plan := plan;
      place, sessionId, nextControlSeq, nextRecordSeq := AwaitReady, "", 1, 1;
      itemCount, payloadBytes, discardThrough, failed, output := 0, 0, 0, false, [];
    }

    /** The object has moved on exactly as the output says, from the records written before. */
    ghost predicate Is(o: Output, before: seq<Record>)
      reads this
    {
      Value() == o.p && output == before + o.records
    }

    method WriteRecord(meta: Meta, size: nat, ghost o: Output, ghost before: seq<Record>)
      requires Is(o, before)
      modifies this`nextRecordSeq, this`output
      ensures Is(Written(plan, o, meta, size), before)
    {
      if nextRecordSeq == 0 {
        return;
      }
      output := output + [Record(sessionId, plan.sourceId, nextRecordSeq, meta, size)];
      nextRecordSeq := if nextRecordSeq == MAX_UINT64 then 0 else nextRecordSeq + 1;
    }

    method WriteAck(c: Control, ok: bool, error: string)
      modifies this`output
      ensures Is(Acked(plan, old(Value()), c, ok, error), old(output))
    {
      output := output + [Record(c.sessionId, c.sourceId, c.number, AckMeta(c.command, ok, error), 0)];
    }

    method WriteFailure(message: string, ghost o: Output, ghost before: seq<Record>)
      requires Is(o, before)
      modifies this`nextRecordSeq, this`output, this`place, this`failed
      ensures Is(FailureWritten(plan, o, message), before)
    {
      hide Written;
      failed := true;
      ghost var o1 := o.(p := o.p.(failed := true));
      var text := BoundMessage(message);
      WriteRecord(ErrorMeta(text), 0, o1, before);
      WriteRecord(EofMeta, 0, Written(plan, o1, ErrorMeta(Bounded(message)), 0), before);
      place := Exited;
    }

    method Reject(c: Control, message: string)
      modifies this
      ensures Is(Rejected(plan, old(Value()), c, message), old(output))
    {
      hide FailureWritten;
      ghost var p, before := Value(), output;
      var text := BoundMessage(message);
      WriteAck(c, false, text);
      WriteFailure(message, Acked(plan, p, c, false, Bounded(message)), before);
    }

    method CancelStream(c: Control)
      modifies this
      ensures Is(Cancelled(plan, old(Value()), c), old(output))
    {
      hide Written;
      ghost var p, before := Value(), output;
      WriteAck(c, true, "");
      WriteRecord(EofMeta, 0, Acked(plan, p, c, true, ""), before);
      place := Exited;
    }

    method StopStream(c: Control, camera: Camera)
      modifies this
      ensures Is(Stopped(plan, old(Value()), c, camera), old(output))
    {
      hide Written, FailureWritten;
      ghost var p, before := Value(), output;
      WriteAck(c, true, "");
      ghost var acked := Acked(plan, p, c, true, "");
      if camera.CameraBroken? {
        WriteFailure(camera.message, acked, before);
        return;
      }
      WriteRecord(EndMeta(itemCount, payloadBytes), 0, acked, before);
      WriteRecord(EofMeta, 0, Written(plan, acked, EndMeta(p.itemCount, p.payloadBytes), 0), before);
      place := Exited;
    }

    /** run, awaitStart and stream on the next control line. */
    method TakeControl(r: Reading, camera: Camera)
      modifies this
      ensures Is(OnControl(plan, old(Value()), r, camera), old(output))
    {
      hide Written, FailureWritten, Rejected, Cancelled, Stopped, Advanced;
      var c := r.control;
      if place.Exited? {
        return;
      }
      if c.sourceId != plan.sourceId || (sessionId != "" && c.sessionId != sessionId) || c.number != nextControlSeq {
        if place.Streaming? {
          WriteFailure("read terminal producer control", Output(Value(), []), output);
        } else {
          place := Exited;
        }
        return;
      }
      sessionId := c.sessionId;
      nextControlSeq := nextControlSeq + 1;
      if c.command.Cancel? {
        CancelStream(c);
        return;
      }
      Proceed(r, camera);
    }

    method Proceed(r: Reading, camera: Camera)
      requires !place.Exited? && !r.control.command.Cancel?
      modifies this
      ensures Is(Advanced(plan, old(Value()), r, camera), old(output))
    {
      hide Written, FailureWritten, Rejected, Stopped;
      var c := r.control;
      match place
      case AwaitReady =>
        if !c.command.Ready? {
          Reject(c, "expected READY");
          return;
        }
        place := AwaitArm;
        WriteAck(c, true, "");
      case AwaitArm =>
        if !c.command.Arm? {
          Reject(c, "expected ARM");
          return;
        }
        if camera.CameraBroken? {
          Reject(c, camera.message);
          return;
        }
        place := AwaitStart;
        WriteAck(c, true, "");
      case AwaitStart =>
        if !c.command.Start? {
          Reject(c, "expected START");
          return;
        }
        discardThrough := r.frameBoundary;
        place := Streaming;
        ghost var p, before := Value(), output;
        WriteAck(c, true, "");
        WriteRecord(SessionMeta, 0, Acked(plan, p, c, true, ""), before);
      case Streaming =>
        if c.command.Stop? {
          StopStream(c, camera);
        } else {
          Reject(c, "expected STOP or CANCEL");
        }
    }

    method TakeFrame(sequence: nat, size: nat)
      modifies this
      ensures Is(OnFrame(plan, old(Value()), sequence, size), old(output))
    {
      hide FailureWritten;
      if !place.Streaming? || sequence <= discardThrough {
        return;
      }
      ghost var p, before := Value(), output;
      if || size == 0 || size > plan.limits.maxItemBytes || itemCount >= plan.limits.maxItems
         || payloadBytes > plan.limits.maxPayloadBytes - size {
        WriteFailure("camera child output exceeds the source limits", Output(p, []), before);
        return;
      }
      if nextRecordSeq == 0 {
        place := Exited;
        return;
      }
      WriteRecord(ItemMeta(itemCount), size, Output(p, []), before);
      itemCount := itemCount + 1;
      payloadBytes := payloadBytes + size;
    }

    method TakeCameraFailure(message: string)
      modifies this
      ensures Is(OnCameraFailure(plan, old(Value()), message), old(output))
    {
      hide FailureWritten;
      if place.AwaitStart? || place.Streaming? {
        WriteFailure(message, Output(Value(), []), output);
      }
    }
  }
}
