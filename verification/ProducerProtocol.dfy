/**
  The host State and the built-in producer composed over two FIFO channels: every interleaving of host commands, camera
  behaviour and delivery. Writes succeed and nothing is cancelled from outside; the producer's output closes when it exits.
 */
module ProducerProtocol {
  import opened Common
  import opened Sensors
  import opened SensorProducer
  import opened FrameProducer

  /**
    reading is a control a goroutine has read and handed over but the select has not taken yet. all is everything the
    producer ever wrote, of which the first |all| - |records| were delivered. completed is the camera reader's counter,
    waiting the size of a completed frame it still offers, and items the numbers of the frames written as items.
   */
  datatype System = System(
    host: Host, producer: Producer, controls: seq<Control>, reading: Option<Reading>, records: seq<Record>, all: seq<Record>,
    closed: bool, completed: nat, waiting: Option<nat>, items: seq<nat>)

  datatype Event =
    | HostCommands(command: Command)
    | ControlRead
    | ControlTaken(camera: Camera)
    | FrameCompletes(size: nat)
    | FrameTaken
    | CameraFails(message: string)
    | HostReceives
    | HostSeesEof

  predicate CameraRuns(p: Producer) { p.place.AwaitStart? || p.place.Streaming? }

  predicate Enabled(plan: Plan, s: System, e: Event) {
    match e
    case HostCommands(_) => !s.closed
    // One goroutine at a time reads a control, loads the frame counter and offers both to the select.
    case ControlRead => !s.producer.place.Exited? && s.reading.None? && s.controls != []
    case ControlTaken(_) => !s.producer.place.Exited? && s.reading.Some?
    // The camera reader offers one frame and goes on when it was consumed.
    case FrameCompletes(size) => CameraRuns(s.producer) && s.waiting.None? && size <= plan.frameBytes
    case FrameTaken => CameraRuns(s.producer) && s.waiting.Some?
    case CameraFails(_) => CameraRuns(s.producer) && s.waiting.None?
    case HostReceives => s.records != []
    case HostSeesEof => s.producer.place.Exited? && s.records == [] && !s.closed
  }

  function Produce(s: System, o: Output): System {
    s.(producer := o.p, records := s.records + o.records, all := s.all + o.records)
  }

  function FrameDone(s: System, o: Output): System {
    var items := if o.p.itemCount > s.producer.itemCount then s.items + [s.completed] else s.items;
    Produce(s, o).(waiting := None, items := items)
  }

  function Next(plan: Plan, s: System, e: Event): System
    requires Enabled(plan, s, e)
  {
    match e
    case HostCommands(command) =>
      (match NextControl(s.host, command)
       case None => s
       case Some(c) => s.(host := Prepared(s.host, command), controls := s.controls + [c]))
    case ControlRead => s.(controls := s.controls[1..], reading := Some(Reading(s.controls[0], s.completed)))
    case ControlTaken(camera) => Produce(s.(reading := None), OnControl(plan, s.producer, s.reading.value, camera))
    case FrameCompletes(size) => s.(completed := s.completed + 1, waiting := Some(size))
    case FrameTaken => FrameDone(s, OnFrame(plan, s.producer, s.completed, s.waiting.value))
    case CameraFails(message) => Produce(s, OnCameraFailure(plan, s.producer, message))
    case HostReceives => s.(host := Accept(s.host, s.records[0]), records := s.records[1..])
    case HostSeesEof => s.(host := AcceptTransportEof(s.host), closed := true)
  }

  function Initial(plan: Plan, host: Host): System {
    System(host, NewProducer, [], None, [], [], false, 0, None, [])
  }

  ghost predicate IsRun(plan: Plan, sessionId: string, states: seq<System>, events: seq<Event>) {
    && PlanOk(plan) && NewHost(sessionId, plan.sourceId).Some?
    && |states| == |events| + 1
    && states[0] == Initial(plan, NewHost(sessionId, plan.sourceId).value)
    && forall i | 0 <= i < |events| :: Enabled(plan, states[i], events[i]) && states[i + 1] == Next(plan, states[i], events[i])
  }

  // ---------------------------------------------------------------- delivering a queue

  /** The host after receiving the whole queue. */
  function Deliver(h: Host, rs: seq<Record>): Host
    decreases |rs|
  {
    if rs == [] then h else Deliver(Accept(h, rs[0]), rs[1..])
  }

  predicate Clean(h: Host) { !(h.cause.Some? && h.cause.value.ProtocolError?) }

  /** No protocol error at any point of the delivery. */
  predicate CleanDelivery(h: Host, rs: seq<Record>)
    decreases |rs|
  {
    Clean(h) && (rs == [] || CleanDelivery(Accept(h, rs[0]), rs[1..]))
  }

  predicate NoAcks(rs: seq<Record>) {
    forall i | 0 <= i < |rs| :: !rs[i].meta.AckMeta?
  }

  predicate AtMostOneAck(rs: seq<Record>) {
    forall i, j | 0 <= i < j < |rs| :: !(rs[i].meta.AckMeta? && rs[j].meta.AckMeta?)
  }

  lemma {:induction false} DeliverMore(h: Host, rs: seq<Record>, more: seq<Record>)
    ensures Deliver(h, rs + more) == Deliver(Deliver(h, rs), more)
    ensures CleanDelivery(h, rs) && CleanDelivery(Deliver(h, rs), more) ==> CleanDelivery(h, rs + more)
    decreases |rs|
  {
    hide Accept, Clean;
    if rs == [] {
      assert rs + more == more;
    } else {
      assert (rs + more)[1..] == rs[1..] + more;
      DeliverMore(Accept(h, rs[0]), rs[1..], more);
    }
  }

  lemma {:induction false} CleanAtTheEnd(h: Host, rs: seq<Record>)
    requires CleanDelivery(h, rs)
    ensures Clean(Deliver(h, rs))
    decreases |rs|
  {
    hide Accept, Clean;
    if rs != [] {
      CleanAtTheEnd(Accept(h, rs[0]), rs[1..]);
    }
  }

  /** Preparing a command commutes with receiving anything but an ACK. */
  lemma PrepareCommutes(h: Host, r: Record, next: nat, c: Option<Control>)
    requires !r.meta.AckMeta?
    ensures Accept(h.(nextSeq := next, pending := c), r) == Accept(h, r).(nextSeq := next, pending := c)
  {
  }

  lemma {:induction false} PrepareBeforeDelivery(h: Host, rs: seq<Record>, next: nat, c: Option<Control>)
    requires NoAcks(rs)
    ensures Deliver(h.(nextSeq := next, pending := c), rs) == Deliver(h, rs).(nextSeq := next, pending := c)
    ensures CleanDelivery(h, rs) ==> CleanDelivery(h.(nextSeq := next, pending := c), rs)
    decreases |rs|
  {
    hide Accept;
    if rs != [] {
      PrepareCommutes(h, rs[0], next, c);
      PrepareBeforeDelivery(Accept(h, rs[0]), rs[1..], next, c);
    }
  }

  /** Phases in which the host only waits for the end. */
  predicate Closing(p: Phase) {
    p.PhaseStopped? || p.PhaseCanceled? || p.PhaseEnded? || p.PhaseFailed? || p.PhaseEof? || p.PhaseComplete?
  }

  lemma {:induction false} ClosingStays(h: Host, rs: seq<Record>)
    requires Closing(h.phase) && NoAcks(rs)
    ensures Closing(Deliver(h, rs).phase)
    decreases |rs|
  {
    if rs != [] {
      ClosingStays(Accept(h, rs[0]), rs[1..]);
    }
  }

  /** With no ACK under way the host lags behind the queue by at most the SESSION frame. */
  lemma {:induction false} LagsBySession(h: Host, rs: seq<Record>)
    requires NoAcks(rs) && !Closing(Deliver(h, rs).phase)
    ensures h.phase == Deliver(h, rs).phase || (h.phase.PhaseStarted? && Deliver(h, rs).phase.PhaseStreaming?)
    ensures h.pending == Deliver(h, rs).pending && h.nextSeq == Deliver(h, rs).nextSeq
    decreases |rs|
  {
    hide RecordOk;
    if rs != [] {
      var h' := Accept(h, rs[0]);
      if Closing(h'.phase) {
        ClosingStays(h', rs[1..]);
      } else {
        LagsBySession(h', rs[1..]);
      }
    }
  }

  // ---------------------------------------------------------------- invariant

  function PhaseAt(place: Place): Phase {
    match place
    case AwaitReady => PhaseInit
    case AwaitArm => PhaseReady
    case AwaitStart => PhaseArmed
    case Streaming => PhaseStreaming
    case Exited => PhaseEof
  }

  function ItemTotals(rs: seq<Record>): (nat, nat) {
    if rs == [] then (0, 0)
    else
      var (n, b) := ItemTotals(rs[..|rs| - 1]);
      if rs[|rs| - 1].meta.ItemMeta? then (n + 1, b + rs[|rs| - 1].size) else (n, b)
  }

  /** Every END frame carries the totals, and every ITEM frame the index, of the items before it. */
  predicate TotalsBound(rs: seq<Record>) {
    forall i | 0 <= i < |rs| ::
      && (rs[i].meta.EndMeta? ==> (rs[i].meta.itemCount, rs[i].meta.payloadBytes) == ItemTotals(rs[..i]))
      && (rs[i].meta.ItemMeta? ==> rs[i].meta.index == ItemTotals(rs[..i]).0)
  }

  /** The producer reads READY, ARM, START and one terminal command, numbered from one. */
  function ControlsAt(place: Place): nat {
    match place
    case AwaitReady => 1
    case AwaitArm => 2
    case AwaitStart => 3
    case Streaming => 4
    case Exited => 5
  }

  /** The command under way, as the producer will find it. */
  predicate ControlsAgree(p: Producer, v: Host, controls: seq<Control>) {
    && |controls| <= 1 && p.nextControlSeq + |controls| == v.nextSeq && p.nextControlSeq == ControlsAt(p.place)
    && v.pending == (if controls == [] then None else Some(controls[0]))
    && (controls != [] ==>
          && controls[0] == Control(controls[0].command, v.sessionId, v.sourceId, p.nextControlSeq)
          && CommandAllowed(v.phase, controls[0].command))
  }

  predicate CountsAgree(plan: Plan, p: Producer, v: Host) {
    && v.lastData + 1 == p.nextRecordSeq <= p.itemCount + 2 && p.itemCount <= plan.limits.maxItems
    && (!p.place.Streaming? ==> p.nextRecordSeq == 1 && p.itemCount == 0)
  }

  /** The producer, and the host as it will be once the queue is delivered. */
  predicate Agree(plan: Plan, p: Producer, v: Host, controls: seq<Control>) {
    && v.phase == PhaseAt(p.place) && v.sourceId == plan.sourceId && IdOk(v.sessionId) && Clean(v)
    && (v.cause.Some? <==> p.failed)
    && (!p.place.Exited? ==>
          && !p.failed && p.sessionId == (if p.place.AwaitReady? then "" else v.sessionId)
          && ControlsAgree(p, v, controls) && CountsAgree(plan, p, v))
  }

  /** The command under way: read and in hand, or still in the pipe. */
  function Pending(s: System): seq<Control> {
    (if s.reading.Some? then [s.reading.value.control] else []) + s.controls
  }

  /** A frame that is offered fits the plan. */
  predicate OfferFits(plan: Plan, s: System) { s.waiting.Some? ==> s.waiting.value <= plan.frameBytes }

  ghost predicate Inv(plan: Plan, s: System) {
    && PlanOk(plan) && OfferFits(plan, s)
    && (s.host.pending.None? ==> NoAcks(s.records)) && AtMostOneAck(s.records)
    && (!s.producer.place.Exited? && Pending(s) != [] ==> NoAcks(s.records))
    && ItemTotals(s.all) == (s.producer.itemCount, s.producer.payloadBytes) && TotalsBound(s.all)
    && if s.closed then
         && s.producer.place.Exited? && s.records == [] && s.host.phase.PhaseComplete? && Clean(s.host)
         && (s.host.cause.Some? <==> s.producer.failed)
       else
         CleanDelivery(s.host, s.records) && Agree(plan, s.producer, Deliver(s.host, s.records), Pending(s))
  }

  // ---------------------------------------------------------------- what the producer writes is received cleanly

  lemma DeliverOne(h: Host, a: Record)
    ensures Deliver(h, []) == h && CleanDelivery(h, []) == Clean(h)
    ensures Deliver(h, [a]) == Accept(h, a) && CleanDelivery(h, [a]) == (Clean(h) && Clean(Accept(h, a)))
  {
    hide Accept, Clean;
    assert [a][1..] == [] && Deliver(Accept(h, a), []) == Accept(h, a);
  }

  lemma DeliverTwo(h: Host, a: Record, b: Record)
    ensures Deliver(h, [a, b]) == Accept(Accept(h, a), b)
    ensures CleanDelivery(h, [a, b]) == (Clean(h) && Clean(Accept(h, a)) && Clean(Accept(Accept(h, a), b)))
  {
    hide Accept, Clean;
    DeliverOne(Accept(h, a), b);
    assert [a, b][1..] == [b];
  }

  lemma DeliverThree(h: Host, a: Record, b: Record, c: Record)
    ensures Deliver(h, [a, b, c]) == Accept(Accept(Accept(h, a), b), c)
    ensures CleanDelivery(h, [a, b, c]) ==
            (Clean(h) && Clean(Accept(h, a)) && Clean(Accept(Accept(h, a), b)) && Clean(Accept(Accept(Accept(h, a), b), c)))
  {
    hide Accept, Clean;
    DeliverTwo(Accept(h, a), b, c);
    assert [a, b, c][1..] == [b, c];
  }

  ghost predicate Received(plan: Plan, v: Host, o: Output, controls: seq<Control>) {
    CleanDelivery(v, o.records) && Agree(plan, o.p, Deliver(v, o.records), controls)
  }

  /** The host can take at least two more data frames from the producer. */
  predicate CanWrite(plan: Plan, p: Producer, v: Host) {
    && v.sourceId == plan.sourceId && p.sessionId == v.sessionId && IdOk(v.sessionId) && IdOk(v.sourceId) && Clean(v)
    && v.lastData + 1 == p.nextRecordSeq < MAX_UINT64 - 2
  }

  lemma FailureReceived(plan: Plan, p: Producer, v: Host, message: string, controls: seq<Control>)
    requires CanWrite(plan, p, v)
    ensures Received(plan, v, FailureWritten(plan, Output(p, []), message), controls)
  {
    hide IdOk, Bounded, ControlsAgree, CountsAgree;
    var q := p.(failed := true);
    var a := Record(p.sessionId, plan.sourceId, p.nextRecordSeq, ErrorMeta(Bounded(message)), 0);
    var b := Record(p.sessionId, plan.sourceId, p.nextRecordSeq + 1, EofMeta, 0);
    DeliverTwo(v, a, b);
    assert FailureWritten(plan, Output(p, []), message).records == [a, b];
  }

  lemma AckReceived(plan: Plan, p: Producer, v: Host, c: Control, ok: bool, error: string)
    requires CanWrite(plan, p, v) && v.pending == Some(c) && c.sessionId == v.sessionId && c.sourceId == v.sourceId
    requires 0 < c.number <= MAX_UINT64 && (ok <==> error == "") && TextBytes(error) <= MAX_ERROR_BYTES && v.cause.None?
    ensures var a := Acked(plan, p, c, ok, error).records[0];
            && Accept(v, a) == (if ok then v.(pending := None, phase := AcknowledgedPhase(c.command))
                                else v.(pending := None, phase := PhaseFailed, cause := Some(ProducerError(Some(c.command), error))))
            && CanWrite(plan, p, Accept(v, a))
  {
    hide IdOk;
  }

  lemma RejectReceived(plan: Plan, p: Producer, v: Host, c: Control, message: string, controls: seq<Control>)
    requires CanWrite(plan, p, v) && v.pending == Some(c) && c.sessionId == v.sessionId && c.sourceId == v.sourceId
    requires 0 < c.number <= MAX_UINT64 && v.cause.None?
    ensures Received(plan, v, Rejected(plan, p, c, message), controls)
  {
    hide IdOk, Bounded, ControlsAgree, CountsAgree;
    AckReceived(plan, p, v, c, false, Bounded(message));
    var a := Acked(plan, p, c, false, Bounded(message)).records[0];
    FailureReceived(plan, p, Accept(v, a), message, controls);
    var o := FailureWritten(plan, Output(p, []), message);
    assert Rejected(plan, p, c, message).records == [a] + o.records;
    DeliverOne(v, a);
    DeliverMore(v, [a], o.records);
  }

  lemma CancelReceived(plan: Plan, p: Producer, v: Host, c: Control, controls: seq<Control>)
    requires CanWrite(plan, p, v) && v.pending == Some(c) && c.sessionId == v.sessionId && c.sourceId == v.sourceId
    requires 0 < c.number <= MAX_UINT64 && v.cause.None? && !p.failed && c.command.Cancel?
    ensures Received(plan, v, Cancelled(plan, p, c), controls)
  {
    hide IdOk, ControlsAgree, CountsAgree;
    AckReceived(plan, p, v, c, true, "");
    var a := Acked(plan, p, c, true, "").records[0];
    var b := Record(p.sessionId, plan.sourceId, p.nextRecordSeq, EofMeta, 0);
    DeliverTwo(v, a, b);
    assert Cancelled(plan, p, c).records == [a, b];
  }

  lemma StopReceived(plan: Plan, p: Producer, v: Host, c: Control, camera: Camera, controls: seq<Control>)
    requires CanWrite(plan, p, v) && v.pending == Some(c) && c.sessionId == v.sessionId && c.sourceId == v.sourceId
    requires 0 < c.number <= MAX_UINT64 && v.cause.None? && !p.failed && c.command.Stop?
    ensures Received(plan, v, Stopped(plan, p, c, camera), controls)
  {
    hide IdOk, ControlsAgree, CountsAgree, Bounded;
    AckReceived(plan, p, v, c, true, "");
    var a := Acked(plan, p, c, true, "").records[0];
    if camera.CameraBroken? {
      FailureReceived(plan, p, Accept(v, a), camera.message, controls);
      var o := FailureWritten(plan, Output(p, []), camera.message);
      assert Stopped(plan, p, c, camera).records == [a] + o.records;
      DeliverOne(v, a);
      DeliverMore(v, [a], o.records);
    } else {
      var b := Record(p.sessionId, plan.sourceId, p.nextRecordSeq, EndMeta(p.itemCount, p.payloadBytes), 0);
      var d := Record(p.sessionId, plan.sourceId, p.nextRecordSeq + 1, EofMeta, 0);
      DeliverThree(v, a, b, d);
      assert Stopped(plan, p, c, camera).records == [a, b, d];
    }
  }

  lemma AdvanceReceived(plan: Plan, p: Producer, v: Host, r: Reading, c: Control, camera: Camera)
    requires PlanOk(plan) && !p.place.Exited? && CanWrite(plan, p, v) && v.phase == PhaseAt(p.place)
    requires r.control == c && v.pending == Some(c) && c.sessionId == v.sessionId && c.sourceId == v.sourceId
    requires 0 < c.number == v.nextSeq - 1 <= MAX_UINT64 && v.cause.None? && !p.failed
    requires CommandAllowed(v.phase, c.command) && !c.command.Cancel?
    requires p.nextControlSeq == ControlsAt(p.place) + 1 == v.nextSeq && CountsAgree(plan, p, v)
    ensures Received(plan, v, Advanced(plan, p, r, camera), [])
  {
    hide IdOk, Bounded, FailureWritten, ValidLimits;
    match p.place
    case AwaitReady =>
      AckReceived(plan, p, v, c, true, "");
      var a := Acked(plan, p, c, true, "").records[0];
      DeliverOne(v, a);
    case AwaitArm =>
      if camera.CameraBroken? {
        RejectReceived(plan, p, v, c, camera.message, []);
      } else {
        AckReceived(plan, p, v, c, true, "");
        var a := Acked(plan, p, c, true, "").records[0];
        DeliverOne(v, a);
      }
    case AwaitStart =>
      AckReceived(plan, p, v, c, true, "");
      var a := Acked(plan, p, c, true, "").records[0];
      var b := Record(p.sessionId, plan.sourceId, p.nextRecordSeq, SessionMeta, 0);
      DeliverTwo(v, a, b);
      assert Advanced(plan, p, r, camera).records == [a, b];
    case Streaming =>
      StopReceived(plan, p, v, c, camera, []);
  }

  lemma ControlReceived(plan: Plan, p: Producer, v: Host, controls: seq<Control>, r: Reading, camera: Camera)
    requires PlanOk(plan) && !p.place.Exited? && controls != [] && Agree(plan, p, v, controls) && r.control == controls[0]
    ensures Received(plan, v, OnControl(plan, p, r, camera), [])
  {
    hide IdOk, Cancelled, Advanced, FailureWritten;
    var c := controls[0];
    var q := p.(sessionId := c.sessionId, nextControlSeq := p.nextControlSeq + 1);
    if c.command.Cancel? {
      CancelReceived(plan, q, v, c, []);
    } else {
      AdvanceReceived(plan, q, v, r, c, camera);
    }
  }

  lemma FrameReceived(plan: Plan, p: Producer, v: Host, controls: seq<Control>, sequence: nat, size: nat)
    requires PlanOk(plan) && (p.place.AwaitStart? || p.place.Streaming?) && Agree(plan, p, v, controls) && size <= plan.frameBytes
    ensures Received(plan, v, OnFrame(plan, p, sequence, size), controls)
  {
    hide IdOk, FailureWritten, CommandAllowed, Written;
    var o := OnFrame(plan, p, sequence, size);
    var a := Record(p.sessionId, plan.sourceId, p.nextRecordSeq, ItemMeta(p.itemCount), size);
    DeliverOne(v, a);
    if p.place.Streaming? && sequence > p.discardThrough {
      if || size == 0 || size > plan.limits.maxItemBytes || p.itemCount >= plan.limits.maxItems
         || p.payloadBytes > plan.limits.maxPayloadBytes - size {
        FailureReceived(plan, p, v, "camera child output exceeds the source limits", controls);
      } else {
        ItemReceived(plan, p, v, controls, size);
      }
    }
  }

  lemma ItemReceived(plan: Plan, p: Producer, v: Host, controls: seq<Control>, size: nat)
    requires PlanOk(plan) && p.place.Streaming? && Agree(plan, p, v, controls) && size <= plan.frameBytes
    requires p.itemCount < plan.limits.maxItems
    ensures var o := Written(plan, Output(p, []), ItemMeta(p.itemCount), size);
            && |o.records| == 1
            && Received(plan, v, o.(p := o.p.(itemCount := p.itemCount + 1, payloadBytes := p.payloadBytes + size)), controls)
  {
    hide IdOk, CommandAllowed;
    var a := Record(p.sessionId, plan.sourceId, p.nextRecordSeq, ItemMeta(p.itemCount), size);
    DeliverOne(v, a);
    assert [] + [a] == [a];
  }

  lemma CameraFailureReceived(plan: Plan, p: Producer, v: Host, controls: seq<Control>, message: string)
    requires PlanOk(plan) && (p.place.AwaitStart? || p.place.Streaming?) && Agree(plan, p, v, controls)
    ensures Received(plan, v, OnCameraFailure(plan, p, message), controls)
  {
    hide IdOk, FailureWritten;
    FailureReceived(plan, p, v, message, controls);
  }

  // ---------------------------------------------------------------- totals and acknowledgements in what the producer writes

  predicate Quiet(r: Record) { !r.meta.ItemMeta? && !r.meta.EndMeta? }

  predicate AllQuiet(rs: seq<Record>) {
    forall i | 0 <= i < |rs| :: Quiet(rs[i])
  }

  predicate SameCounts(p: Producer, q: Producer) {
    p.itemCount == q.itemCount && p.payloadBytes == q.payloadBytes
  }

  /** An ACK comes first or not at all; an END carries the producer's totals and is the only counting frame. */
  predicate Shaped(p: Producer, o: Output) {
    && (forall i | 0 < i < |o.records| :: !o.records[i].meta.AckMeta?)
    && SameCounts(p, o.p)
    && (|| AllQuiet(o.records)
        || (|o.records| == 3 && Quiet(o.records[0]) && Quiet(o.records[2])
            && o.records[1].meta == EndMeta(p.itemCount, p.payloadBytes)))
  }

  lemma FailureShape(plan: Plan, o: Output, message: string)
    requires AllQuiet(o.records) && (forall i | 0 < i < |o.records| :: !o.records[i].meta.AckMeta?)
    ensures Shaped(o.p, FailureWritten(plan, o, message)) && AllQuiet(FailureWritten(plan, o, message).records)
    ensures NoAcks(o.records) ==> NoAcks(FailureWritten(plan, o, message).records)
  {
    hide Bounded;
  }

  lemma StopShape(plan: Plan, p: Producer, c: Control, camera: Camera)
    requires 0 < p.nextRecordSeq < MAX_UINT64 - 2
    ensures Shaped(p, Stopped(plan, p, c, camera))
  {
    if camera.CameraBroken? {
      FailureShape(plan, Acked(plan, p, c, true, ""), camera.message);
    }
  }

  lemma AdvanceShape(plan: Plan, p: Producer, r: Reading, camera: Camera)
    requires 0 < p.nextRecordSeq < MAX_UINT64 - 2
    ensures Shaped(p, Advanced(plan, p, r, camera))
  {
    hide Bounded, FailureWritten, Stopped;
    var c := r.control;
    StopShape(plan, p, c, camera);
    RejectShape(plan, p, c, "expected READY");
    RejectShape(plan, p, c, "expected ARM");
    RejectShape(plan, p, c, "expected START");
    RejectShape(plan, p, c, "expected STOP or CANCEL");
    if camera.CameraBroken? {
      RejectShape(plan, p, c, camera.message);
    }
    hide Rejected;
  }

  lemma RejectShape(plan: Plan, p: Producer, c: Control, message: string)
    ensures Shaped(p, Rejected(plan, p, c, message))
  {
    hide FailureWritten, Bounded;
    FailureShape(plan, Acked(plan, p, c, false, Bounded(message)), message);
  }

  lemma ControlShape(plan: Plan, p: Producer, r: Reading, camera: Camera)
    requires !p.place.Exited? && 0 < p.nextRecordSeq < MAX_UINT64 - 2
    ensures Shaped(p, OnControl(plan, p, r, camera))
  {
    hide FailureWritten, Advanced, ControlOk;
    FailureShape(plan, Output(p, []), "read terminal producer control");
    AdvanceShape(plan, p.(sessionId := r.control.sessionId, nextControlSeq := p.nextControlSeq + 1), r, camera);
  }

  lemma CameraShape(plan: Plan, p: Producer, message: string)
    ensures var o := OnCameraFailure(plan, p, message); NoAcks(o.records) && AllQuiet(o.records) && SameCounts(p, o.p)
  {
    hide Bounded;
  }

  lemma FrameShape(plan: Plan, p: Producer, sequence: nat, size: nat)
    ensures var o := OnFrame(plan, p, sequence, size);
            && NoAcks(o.records)
            && (|| (AllQuiet(o.records) && SameCounts(p, o.p))
                || (|o.records| == 1 && o.records[0].meta == ItemMeta(p.itemCount) && o.records[0].size == size
                    && o.p.itemCount == p.itemCount + 1 && o.p.payloadBytes == p.payloadBytes + size))
  {
    hide Bounded;
  }

  lemma OneMoreRecord(all: seq<Record>, r: Record)
    requires TotalsBound(all)
    requires r.meta.EndMeta? ==> (r.meta.itemCount, r.meta.payloadBytes) == ItemTotals(all)
    requires r.meta.ItemMeta? ==> r.meta.index == ItemTotals(all).0
    ensures TotalsBound(all + [r])
    ensures ItemTotals(all + [r]) ==
            if r.meta.ItemMeta? then (ItemTotals(all).0 + 1, ItemTotals(all).1 + r.size) else ItemTotals(all)
  {
    hide ItemTotals;
    var more := all + [r];
    assert more[..|all|] == all;
    forall i | 0 <= i < |more|
      ensures more[i].meta.EndMeta? ==> (more[i].meta.itemCount, more[i].meta.payloadBytes) == ItemTotals(more[..i])
      ensures more[i].meta.ItemMeta? ==> more[i].meta.index == ItemTotals(more[..i]).0
    {
      if i < |all| {
        assert more[..i] == all[..i];
      }
    }
    TotalsOfLast(all, r);
  }

  lemma TotalsOfLast(all: seq<Record>, r: Record)
    ensures ItemTotals(all + [r]) ==
            if r.meta.ItemMeta? then (ItemTotals(all).0 + 1, ItemTotals(all).1 + r.size) else ItemTotals(all)
  {
    assert (all + [r])[..|all|] == all;
  }

  lemma {:induction false} MoreQuiet(all: seq<Record>, rs: seq<Record>)
    requires TotalsBound(all) && AllQuiet(rs)
    ensures TotalsBound(all + rs) && ItemTotals(all + rs) == ItemTotals(all)
    decreases |rs|
  {
    hide TotalsBound, ItemTotals;
    if rs == [] {
      assert all + rs == all;
    } else {
      OneMoreRecord(all, rs[0]);
      MoreQuiet(all + [rs[0]], rs[1..]);
      assert all + rs == all + [rs[0]] + rs[1..];
    }
  }

  lemma MoreShaped(all: seq<Record>, p: Producer, o: Output)
    requires TotalsBound(all) && ItemTotals(all) == (p.itemCount, p.payloadBytes) && Shaped(p, o)
    ensures TotalsBound(all + o.records) && ItemTotals(all + o.records) == (p.itemCount, p.payloadBytes)
  {
    hide TotalsBound, ItemTotals;
    if AllQuiet(o.records) {
      MoreQuiet(all, o.records);
    } else {
      var a, b, c := o.records[0], o.records[1], o.records[2];
      OneMoreRecord(all, a);
      OneMoreRecord(all + [a], b);
      OneMoreRecord(all + [a] + [b], c);
      assert o.records == [a, b, c];
      assert all + o.records == all + [a] + [b] + [c];
    }
  }

  // ---------------------------------------------------------------- every step keeps the invariant

  lemma {:induction false} PendingKept(h: Host, rs: seq<Record>)
    requires NoAcks(rs)
    ensures Deliver(h, rs).pending == h.pending
    decreases |rs|
  {
    hide RecordOk;
    if rs != [] {
      PendingKept(Accept(h, rs[0]), rs[1..]);
    }
  }

  /** t is s with its command taken or its frame consumed, about to produce. */
  predicate SameLink(s: System, t: System) {
    && t.host == s.host && t.producer == s.producer && t.records == s.records && t.all == s.all && t.closed == s.closed
    && (t.waiting == s.waiting || t.waiting.None?)
  }

  lemma ProduceKeeps(plan: Plan, s: System, t: System, o: Output)
    requires Inv(plan, s) && !s.closed && !s.producer.place.Exited? && SameLink(s, t)
    requires Received(plan, Deliver(s.host, s.records), o, Pending(t))
    requires (NoAcks(o.records) && Pending(t) == Pending(s)) || (Pending(t) == [] && Pending(s) != [])
    requires forall i | 0 < i < |o.records| :: !o.records[i].meta.AckMeta?
    requires TotalsBound(s.all + o.records) && ItemTotals(s.all + o.records) == (o.p.itemCount, o.p.payloadBytes)
    ensures Inv(plan, Produce(t, o))
  {
    hide Agree, TotalsBound, ItemTotals, CleanDelivery, Deliver, PlanOk;
    DeliverMore(s.host, s.records, o.records);
    assert Pending(Produce(t, o)) == Pending(t);
    if Pending(s) != [] {
      PendingKept(s.host, s.records);
      WaitingHost(plan, s.producer, Deliver(s.host, s.records), Pending(s));
    }
  }

  lemma WaitingHost(plan: Plan, p: Producer, v: Host, controls: seq<Control>)
    requires Agree(plan, p, v, controls) && !p.place.Exited? && controls != []
    ensures v.pending.Some? && |controls| == 1
  {
    hide IdOk;
  }

  lemma CommandKeeps(plan: Plan, s: System, command: Command)
    requires Inv(plan, s) && !s.closed
    ensures Inv(plan, Next(plan, s, HostCommands(command)))
  {
    hide TotalsBound, ItemTotals, PlanOk, Agree, Deliver, CleanDelivery, CommandAllowed, NoAcks, AtMostOneAck;
    var h := s.host;
    if h.pending.None? && CommandAllowed(h.phase, command) {
      var c := NextControl(h, command).value;
      PendingKept(h, s.records);
      IdentityKept(h, s.records);
      if !s.producer.place.Exited? {
        NotClosing(plan, s.producer, Deliver(h, s.records), Pending(s));
        LagsBySession(h, s.records);
      }
      CommandAgrees(plan, s.producer, h, Deliver(h, s.records), Pending(s), c);
      PrepareBeforeDelivery(h, s.records, h.nextSeq + 1, Some(c));
      var t := Next(plan, s, HostCommands(command));
      assert Pending(t) == Pending(s) + [c];
    }
  }

  lemma NotClosing(plan: Plan, p: Producer, v: Host, controls: seq<Control>)
    requires Agree(plan, p, v, controls) && !p.place.Exited?
    ensures !Closing(v.phase)
  {
    hide IdOk;
  }

  /** A host behind the queue prepares a command that still suits it, and the producer, once the queue is delivered. */
  lemma CommandAgrees(plan: Plan, p: Producer, h: Host, v: Host, controls: seq<Control>, c: Control)
    requires Agree(plan, p, v, controls) && v.pending.None?
    requires c == Control(c.command, v.sessionId, v.sourceId, h.nextSeq) && CommandAllowed(h.phase, c.command)
    requires !p.place.Exited? ==>
               && (h.phase == v.phase || (h.phase.PhaseStarted? && v.phase.PhaseStreaming?)) && h.nextSeq == v.nextSeq
    ensures Agree(plan, p, v.(nextSeq := h.nextSeq + 1, pending := Some(c)), controls + [c])
    ensures !p.place.Exited? ==> controls == []
  {
    hide IdOk;
  }

  lemma {:induction false} IdentityKept(h: Host, rs: seq<Record>)
    ensures Deliver(h, rs).sessionId == h.sessionId && Deliver(h, rs).sourceId == h.sourceId
    decreases |rs|
  {
    hide RecordOk;
    if rs != [] {
      IdentityKept(Accept(h, rs[0]), rs[1..]);
    }
  }

  lemma ReceiveKeeps(plan: Plan, s: System)
    requires Inv(plan, s) && s.records != []
    ensures Inv(plan, Next(plan, s, HostReceives))
  {
    hide TotalsBound, ItemTotals, Agree, RecordOk;
    var r, rest := s.records[0], s.records[1..];
    assert Deliver(s.host, s.records) == Deliver(Accept(s.host, r), rest);
    assert forall i | 0 <= i < |rest| :: rest[i] == s.records[i + 1];
    assert r.meta.AckMeta? ==> NoAcks(rest);
  }

  lemma EofKeeps(plan: Plan, s: System)
    requires Inv(plan, s) && s.producer.place.Exited? && s.records == [] && !s.closed
    ensures Inv(plan, Next(plan, s, HostSeesEof))
  {
    hide TotalsBound, ItemTotals;
  }

  lemma WritableNow(plan: Plan, p: Producer, v: Host, controls: seq<Control>)
    requires PlanOk(plan) && Agree(plan, p, v, controls) && !p.place.Exited?
    ensures 0 < p.nextRecordSeq < MAX_UINT64 - 2
  {
    hide IdOk;
  }

  lemma StepKeeps(plan: Plan, s: System, e: Event)
    requires Inv(plan, s) && Enabled(plan, s, e)
    ensures Inv(plan, Next(plan, s, e))
  {
    hide TotalsBound, ItemTotals, Agree, CleanDelivery, Deliver, OnControl, OnFrame, OnCameraFailure, PlanOk, Shaped;
    var p, v := s.producer, Deliver(s.host, s.records);
    match e
    case HostCommands(command) => CommandKeeps(plan, s, command);
    case HostReceives => ReceiveKeeps(plan, s);
    case HostSeesEof => EofKeeps(plan, s);
    case ControlRead => ReadKeeps(plan, s);
    case ControlTaken(camera) =>
      var o := OnControl(plan, p, s.reading.value, camera);
      ControlReceived(plan, p, v, Pending(s), s.reading.value, camera);
      WritableNow(plan, p, v, Pending(s));
      WaitingHost(plan, p, v, Pending(s));
      ControlShape(plan, p, s.reading.value, camera);
      MoreShaped(s.all, p, o);
      ShapedFacts(p, o);
      assert Pending(s.(reading := None)) == [];
      ProduceKeeps(plan, s, s.(reading := None), o);
    case FrameCompletes(size) =>
      assert Pending(Next(plan, s, e)) == Pending(s);
    case FrameTaken =>
      FrameKeeps(plan, s);
    case CameraFails(message) =>
      var o := OnCameraFailure(plan, p, message);
      CameraFailureReceived(plan, p, v, Pending(s), message);
      CameraShape(plan, p, message);
      MoreQuiet(s.all, o.records);
      ProduceKeeps(plan, s, s, o);
  }

  lemma ReadKeeps(plan: Plan, s: System)
    requires Inv(plan, s) && Enabled(plan, s, ControlRead)
    ensures Inv(plan, Next(plan, s, ControlRead))
  {
    hide TotalsBound, ItemTotals, Agree, CleanDelivery, Deliver, PlanOk;
    assert Pending(Next(plan, s, ControlRead)) == Pending(s);
  }

  lemma FrameKeeps(plan: Plan, s: System)
    requires Inv(plan, s) && Enabled(plan, s, FrameTaken)
    ensures Inv(plan, Next(plan, s, FrameTaken))
  {
    hide TotalsBound, ItemTotals, Agree, CleanDelivery, Deliver, OnFrame, PlanOk;
    var p, v := s.producer, Deliver(s.host, s.records);
    var o := OnFrame(plan, p, s.completed, s.waiting.value);
    FrameReceived(plan, p, v, Pending(s), s.completed, s.waiting.value);
    FrameShape(plan, p, s.completed, s.waiting.value);
    if |o.records| == 1 && o.records[0].meta.ItemMeta? {
      OneMoreRecord(s.all, o.records[0]);
      assert o.records == [o.records[0]];
    } else {
      MoreQuiet(s.all, o.records);
    }
    var t := FrameDone(s, o).(producer := p, records := s.records, all := s.all);
    assert Pending(t) == Pending(s);
    ProduceKeeps(plan, s, t, o);
    assert Produce(t, o) == Next(plan, s, FrameTaken);
  }

  lemma ShapedFacts(p: Producer, o: Output)
    requires Shaped(p, o)
    ensures (forall i | 0 < i < |o.records| :: !o.records[i].meta.AckMeta?) && SameCounts(p, o.p)
  {
  }

  lemma {:induction false} RunKeeps(plan: Plan, sessionId: string, states: seq<System>, events: seq<Event>, n: nat)
    requires IsRun(plan, sessionId, states, events) && n < |states|
    ensures Inv(plan, states[n])
  {
    hide Inv, Next, Enabled;
    if n == 0 {
      FirstKeeps(plan, sessionId, states[0]);
    } else {
      RunKeeps(plan, sessionId, states, events, n - 1);
      StepKeeps(plan, states[n - 1], events[n - 1]);
    }
  }

  lemma FirstKeeps(plan: Plan, sessionId: string, s: System)
    requires PlanOk(plan) && NewHost(sessionId, plan.sourceId).Some?
    requires s == Initial(plan, NewHost(sessionId, plan.sourceId).value)
    ensures Inv(plan, s)
  {
    hide IdOk;
  }

  // ---------------------------------------------------------------- main results

  /** In no interleaving does the host ever record a protocol error. */
  lemma NeverProtocolError(plan: Plan, sessionId: string, states: seq<System>, events: seq<Event>, n: nat)
    requires IsRun(plan, sessionId, states, events) && n < |states|
    ensures states[n].host.cause != Some(ProtocolError)
  {
    hide IsRun;
    RunKeeps(plan, sessionId, states, events, n);
    CleanHost(plan, states[n]);
  }

  lemma CleanHost(plan: Plan, s: System)
    requires Inv(plan, s)
    ensures Clean(s.host)
  {
  }

  /**
    When the producer has exited and everything was delivered, the transport EOF completes the host, and it reports
    success exactly when the producer never failed.
   */
  lemma CompletesExactly(plan: Plan, sessionId: string, states: seq<System>, events: seq<Event>, n: nat)
    requires IsRun(plan, sessionId, states, events) && n < |states|
    requires states[n].producer.place.Exited? && states[n].records == []
    ensures var h := if states[n].closed then states[n].host else AcceptTransportEof(states[n].host);
            h.phase.PhaseComplete? && (h.cause.None? <==> !states[n].producer.failed)
  {
    hide IsRun, ItemTotals, TotalsBound, RecordOk;
    RunKeeps(plan, sessionId, states, events, n);
  }

  /** An END frame the host received names exactly the items, and the bytes, that were delivered before it. */
  lemma EndMatchesItems(plan: Plan, sessionId: string, states: seq<System>, events: seq<Event>, n: nat, i: nat)
    requires IsRun(plan, sessionId, states, events) && n < |states|
    requires i < |states[n].all| && states[n].all[i].meta.EndMeta?
    ensures (states[n].all[i].meta.itemCount, states[n].all[i].meta.payloadBytes) == ItemTotals(states[n].all[..i])
  {
    hide IsRun, ItemTotals;
    RunKeeps(plan, sessionId, states, events, n);
  }

  // ---------------------------------------------------------------- which frames become items

  /** The frames the select has consumed, as items or not. */
  function Taken(s: System): int {
    if s.waiting.Some? then s.completed - 1 else s.completed
  }

  /** The numbers above low, up to high. */
  function FramesBetween(low: nat, high: int): (r: seq<nat>) {
    seq(if high > low then high - low else 0, i requires 0 <= i => low + 1 + i)
  }

  /** The camera reader is at most one frame ahead of the select, and no item precedes START. */
  predicate CameraInv(s: System) {
    && (s.waiting.Some? ==> s.completed > 0)
    && |s.items| == s.producer.itemCount
    && (s.reading.Some? ==> s.reading.value.frameBoundary <= s.completed)
  }

  lemma CameraStep(plan: Plan, s: System, e: Event)
    requires CameraInv(s) && Enabled(plan, s, e)
    ensures CameraInv(Next(plan, s, e)) && Taken(s) <= Taken(Next(plan, s, e)) && s.completed <= Next(plan, s, e).completed
  {
    hide OnControl, OnFrame, OnCameraFailure, Accept, NextControl, Prepared, AcceptTransportEof;
    match e
    case ControlTaken(camera) => ControlCounts(plan, s.producer, s.reading.value, camera);
    case FrameTaken => FrameShape(plan, s.producer, s.completed, s.waiting.value);
    case CameraFails(message) => CameraShape(plan, s.producer, message);
    case _ =>
  }

  lemma FailureCounts(plan: Plan, o: Output, message: string)
    ensures SameCounts(o.p, FailureWritten(plan, o, message).p)
    ensures FailureWritten(plan, o, message).p.place.Exited? && FailureWritten(plan, o, message).p.failed
  {
    hide Bounded;
  }

  lemma RejectCounts(plan: Plan, p: Producer, c: Control, message: string)
    ensures SameCounts(p, Rejected(plan, p, c, message).p) && Rejected(plan, p, c, message).p.place.Exited?
  {
    hide FailureWritten, Bounded;
    FailureCounts(plan, Acked(plan, p, c, false, Bounded(message)), message);
  }

  lemma StopCounts(plan: Plan, p: Producer, c: Control, camera: Camera)
    ensures SameCounts(p, Stopped(plan, p, c, camera).p) && Stopped(plan, p, c, camera).p.place.Exited?
  {
    hide FailureWritten;
    if camera.CameraBroken? {
      FailureCounts(plan, Acked(plan, p, c, true, ""), camera.message);
    }
  }

  /** The counts stay, and the producer streams only after awaitStart, with the boundary that was read. */
  predicate Moved(p: Producer, q: Producer, boundary: nat) {
    && SameCounts(p, q) && (p.place.Streaming? ==> q.place.Exited?)
    && (q.place.Streaming? ==> p.place.AwaitStart? && q.discardThrough == boundary)
    && (p.place.AwaitStart? ==> q.place.Streaming? || q.place.Exited?)
  }

  lemma AdvanceCounts(plan: Plan, p: Producer, r: Reading, camera: Camera)
    ensures Moved(p, Advanced(plan, p, r, camera).p, r.frameBoundary)
  {
    hide Rejected, Stopped;
    var c := r.control;
    StopCounts(plan, p, c, camera);
    RejectCounts(plan, p, c, "expected READY");
    RejectCounts(plan, p, c, "expected ARM");
    RejectCounts(plan, p, c, "expected START");
    RejectCounts(plan, p, c, "expected STOP or CANCEL");
    if camera.CameraBroken? {
      RejectCounts(plan, p, c, camera.message);
    }
  }

  lemma ControlCounts(plan: Plan, p: Producer, r: Reading, camera: Camera)
    ensures Moved(p, OnControl(plan, p, r, camera).p, r.frameBoundary)
  {
    hide FailureWritten, Advanced, ControlOk;
    FailureCounts(plan, Output(p, []), "read terminal producer control");
    AdvanceCounts(plan, p.(sessionId := r.control.sessionId, nextControlSeq := p.nextControlSeq + 1), r, camera);
  }

  lemma CameraCounts(plan: Plan, p: Producer, message: string)
    requires CameraRuns(p)
    ensures SameCounts(p, OnCameraFailure(plan, p, message).p) && OnCameraFailure(plan, p, message).p.place.Exited?
  {
    hide FailureWritten;
    FailureCounts(plan, Output(p, []), message);
  }

  lemma {:induction false} CameraRun(plan: Plan, sessionId: string, states: seq<System>, events: seq<Event>, n: nat)
    requires IsRun(plan, sessionId, states, events) && n < |states|
    ensures CameraInv(states[n])
  {
    hide Next, Enabled, PlanOk, IdOk;
    if n > 0 {
      CameraRun(plan, sessionId, states, events, n - 1);
      CameraStep(plan, states[n - 1], events[n - 1]);
    }
  }

  /** A START is read at r, with the frames completed by then as its boundary, and the same START is taken at t. */
  ghost predicate StartReadAndTaken(states: seq<System>, events: seq<Event>, r: nat, t: nat) {
    && r < t < |events| < |states|
    && states[r].producer.place.AwaitStart? && events[r].ControlRead? && events[t].ControlTaken?
    && (forall k | r < k < t :: !events[k].ControlTaken?)
    && states[t + 1].producer.place.Streaming?
  }

  lemma HandStep(plan: Plan, s: System, e: Event)
    requires Enabled(plan, s, e) && s.producer.place.AwaitStart? && !e.ControlTaken?
    ensures var s' := Next(plan, s, e);
            && (s'.producer.place.AwaitStart? || s'.producer.place.Exited?)
            && (s.reading.Some? ==> s'.reading == s.reading)
  {
    hide OnCameraFailure, Accept, NextControl, Prepared, AcceptTransportEof;
    match e
    case CameraFails(message) => CameraCounts(plan, s.producer, message);
    case _ =>
  }

  lemma ExitedStays(plan: Plan, s: System, e: Event)
    requires Enabled(plan, s, e) && s.producer.place.Exited?
    ensures var s' := Next(plan, s, e); s'.producer == s.producer && s'.items == s.items && Taken(s') == Taken(s)
  {
    hide Accept, NextControl, Prepared, AcceptTransportEof;
  }

  lemma ReadLoads(plan: Plan, s: System)
    requires Enabled(plan, s, ControlRead)
    ensures var s' := Next(plan, s, ControlRead);
            s'.producer == s.producer && s'.reading.Some? && s'.reading.value.frameBoundary == s.completed
  {
  }

  /** From its reading to its taking the START and its boundary stay in hand. */
  lemma {:induction false} StartInHand(
    plan: Plan, sessionId: string, states: seq<System>, events: seq<Event>, r: nat, t: nat, k: nat)
    requires IsRun(plan, sessionId, states, events) && r < k <= t < |events|
    requires states[r].producer.place.AwaitStart? && events[r].ControlRead? && (forall i | r < i < t :: !events[i].ControlTaken?)
    ensures states[k].producer.place.AwaitStart? || states[k].producer.place.Exited?
    ensures states[k].producer.place.AwaitStart? ==>
              states[k].reading.Some? && states[k].reading.value.frameBoundary == states[r].completed
  {
    hide Next, Enabled, PlanOk, IdOk;
    assert Enabled(plan, states[k - 1], events[k - 1]) && states[k] == Next(plan, states[k - 1], events[k - 1]);
    if k == r + 1 {
      ReadLoads(plan, states[r]);
    } else {
      StartInHand(plan, sessionId, states, events, r, t, k - 1);
      if states[k - 1].producer.place.AwaitStart? {
        HandStep(plan, states[k - 1], events[k - 1]);
      } else {
        ExitedStays(plan, states[k - 1], events[k - 1]);
      }
    }
  }

  /** The items since streaming began, with the boundary and the frames consumed by then. */
  predicate Streamed(s: System, boundary: nat, consumed: int) {
    var low := Max(boundary, consumed);
    && (s.producer.place.Streaming? || s.producer.place.Exited?)
    && s.items == FramesBetween(low, low + |s.items|)
    && (s.producer.place.Streaming? ==> s.producer.discardThrough == boundary)
    && (StreamIsGood(s) ==> consumed <= Taken(s) && s.items == FramesBetween(low, Taken(s)))
  }

  /** The producer streams, or has finished its stream without a failure. */
  predicate StreamIsGood(s: System) {
    s.producer.place.Streaming? || (s.producer.place.Exited? && !s.producer.failed)
  }

  lemma FrameFate(plan: Plan, p: Producer, sequence: nat, size: nat)
    requires p.place.Streaming? && p.nextRecordSeq > 0
    ensures var q := OnFrame(plan, p, sequence, size).p;
            && (q.place.Streaming? || (q.place.Exited? && q.failed))
            && (q.place.Streaming? ==> q.discardThrough == p.discardThrough)
            && (q.itemCount > p.itemCount <==> q.place.Streaming? && sequence > p.discardThrough)
  {
    hide FailureWritten;
    FailureCounts(plan, Output(p, []), "camera child output exceeds the source limits");
  }

  lemma OneMoreFrame(low: nat, high: int)
    ensures low <= high ==> FramesBetween(low, high + 1) == FramesBetween(low, high) + [high + 1]
    ensures high < low ==> FramesBetween(low, high + 1) == FramesBetween(low, high) == []
    ensures FramesBetween(low, low + |FramesBetween(low, high)|) == FramesBetween(low, high)
  {
  }

  lemma StreamStep(plan: Plan, s: System, e: Event, boundary: nat, consumed: int)
    requires CameraInv(s) && Streamed(s, boundary, consumed) && Enabled(plan, s, e)
    requires s.producer.place.Streaming? ==> s.producer.nextRecordSeq > 0
    ensures Streamed(Next(plan, s, e), boundary, consumed)
  {
    hide OnControl, OnFrame, OnCameraFailure, Accept, NextControl, Prepared, AcceptTransportEof, FramesBetween;
    var low := Max(boundary, consumed);
    if s.producer.place.Exited? {
      ExitedStays(plan, s, e);
    } else {
      OneMoreFrame(low, Taken(s));
      match e
      case ControlTaken(camera) => ControlCounts(plan, s.producer, s.reading.value, camera);
      case CameraFails(message) => CameraCounts(plan, s.producer, message);
      case FrameTaken =>
        FrameFate(plan, s.producer, s.completed, s.waiting.value);
        OneMoreFrame(low, Taken(s) + 1);
      case _ =>
    }
  }

  lemma StreamBegins(plan: Plan, s: System, e: Event)
    requires CameraInv(s) && Enabled(plan, s, e) && e.ControlTaken? && s.producer.place.AwaitStart? && s.items == []
    requires Next(plan, s, e).producer.place.Streaming?
    ensures Streamed(Next(plan, s, e), s.reading.value.frameBoundary, Taken(s))
  {
    hide OnControl;
    ControlCounts(plan, s.producer, s.reading.value, e.camera);
  }

  /** The items of a stream are consecutive frames, from the first one that was neither completed by the time START was read nor
      consumed by the time it was taken, up to the last one consumed. */
  lemma {:induction false} StreamedRun(
    plan: Plan, sessionId: string, states: seq<System>, events: seq<Event>, r: nat, t: nat, n: nat)
    requires IsRun(plan, sessionId, states, events) && StartReadAndTaken(states, events, r, t) && t < n < |states|
    ensures Streamed(states[n], states[r].completed, Taken(states[t]))
  {
    hide Next, Enabled, PlanOk, IdOk, Streamed;
    CameraRun(plan, sessionId, states, events, n - 1);
    assert Enabled(plan, states[n - 1], events[n - 1]) && states[n] == Next(plan, states[n - 1], events[n - 1]);
    if n == t + 1 {
      StartInHand(plan, sessionId, states, events, r, t, t);
      if states[t].producer.place.Exited? {
        ExitedStays(plan, states[t], events[t]);
        assert false;
      }
      RunKeeps(plan, sessionId, states, events, t);
      NoItemsBeforeStart(plan, states[t]);
      StreamBegins(plan, states[t], events[t]);
    } else {
      StreamedRun(plan, sessionId, states, events, r, t, n - 1);
      RunKeeps(plan, sessionId, states, events, n - 1);
      StreamingWrites(plan, states[n - 1]);
      StreamStep(plan, states[n - 1], events[n - 1], states[r].completed, Taken(states[t]));
    }
  }

  lemma StreamingWrites(plan: Plan, s: System)
    requires Inv(plan, s)
    ensures s.producer.place.Streaming? ==> s.producer.nextRecordSeq > 0
  {
    hide ItemTotals, TotalsBound, PlanOk, CleanDelivery, Deliver, IdOk;
  }

  lemma NoItemsBeforeStart(plan: Plan, s: System)
    requires Inv(plan, s) && !s.producer.place.Exited? && !s.producer.place.Streaming?
    ensures s.producer.itemCount == 0
  {
    hide ItemTotals, TotalsBound, IdOk;
  }

  /** No frame that was complete when START was read ever becomes an item, and no later frame becomes one twice or out of order. */
  lemma NoEarlyItem(
    plan: Plan, sessionId: string, states: seq<System>, events: seq<Event>, r: nat, t: nat, n: nat, i: nat)
    requires IsRun(plan, sessionId, states, events) && StartReadAndTaken(states, events, r, t) && t < n < |states|
    requires i < |states[n].items|
    ensures states[r].completed < states[n].items[i] == states[n].items[0] + i
    ensures |states[n].items| == ItemTotals(states[n].all).0
  {
    hide IsRun, ItemTotals;
    StreamedRun(plan, sessionId, states, events, r, t, n);
    CameraRun(plan, sessionId, states, events, n);
    RunKeeps(plan, sessionId, states, events, n);
    var low := Max(states[r].completed, Taken(states[t]));
    assert states[n].items == FramesBetween(low, low + |states[n].items|);
  }

  /** No frame beyond the boundary is consumed between the reading of START and its taking. */
  ghost predicate NoneConsumedBetween(states: seq<System>, events: seq<Event>, r: nat, t: nat)
    requires t <= |events| < |states|
  {
    forall k | r < k < t && events[k].FrameTaken? :: states[k].completed <= states[r].completed
  }

  lemma FrameTakes(plan: Plan, s: System, e: Event)
    requires Enabled(plan, s, e)
    ensures Taken(Next(plan, s, e)) == if e.FrameTaken? then s.completed else Taken(s)
  {
    hide OnControl, OnFrame, OnCameraFailure, Accept, NextControl, Prepared, AcceptTransportEof;
  }

  lemma {:induction false} ConsumedMeansTaken(
    plan: Plan, sessionId: string, states: seq<System>, events: seq<Event>, r: nat, t: nat)
    requires IsRun(plan, sessionId, states, events) && r < t < |states| && !events[r].FrameTaken?
    ensures Taken(states[t]) <= states[r].completed <==> NoneConsumedBetween(states, events, r, t)
  {
    hide Next, Enabled, PlanOk, IdOk;
    assert Enabled(plan, states[t - 1], events[t - 1]) && states[t] == Next(plan, states[t - 1], events[t - 1]);
    CameraRun(plan, sessionId, states, events, t - 1);
    CameraStep(plan, states[t - 1], events[t - 1]);
    FrameTakes(plan, states[t - 1], events[t - 1]);
    if t > r + 1 {
      ConsumedMeansTaken(plan, sessionId, states, events, r, t - 1);
    }
  }

  /**
    While streaming, and of a stream that was finished without a failure, the items are all the frames after the boundary that
    were consumed, if and only if none of those was consumed between the reading of START and its taking: such a frame is
    discarded although it completed after START was read.
   */
  lemma AllFramesAfterBoundaryIff(
    plan: Plan, sessionId: string, states: seq<System>, events: seq<Event>, r: nat, t: nat, n: nat)
    requires IsRun(plan, sessionId, states, events) && StartReadAndTaken(states, events, r, t) && t < n < |states|
    requires StreamIsGood(states[n])
    ensures states[n].items == FramesBetween(states[r].completed, Taken(states[n])) <==> NoneConsumedBetween(states, events, r, t)
  {
    hide IsRun;
    StreamedRun(plan, sessionId, states, events, r, t, n);
    ConsumedMeansTaken(plan, sessionId, states, events, r, t);
    var b, c, h := states[r].completed, Taken(states[t]), Taken(states[n]);
    if c > b {
      assert |FramesBetween(b, h)| != |FramesBetween(c, h)|;
    }
  }

  lemma FrameRefused(plan: Plan, p: Producer, sequence: nat, size: nat)
    requires p.place.Streaming? && !p.failed && p.nextRecordSeq > 0 && sequence > p.discardThrough
    requires size <= plan.limits.maxItemBytes
    ensures OnFrame(plan, p, sequence, size).p.failed <==>
            size == 0 || p.itemCount >= plan.limits.maxItems || p.payloadBytes + size > plan.limits.maxPayloadBytes
  {
    hide FailureWritten;
    FailureCounts(plan, Output(p, []), "camera child output exceeds the source limits");
  }

  lemma StreamingIsLive(plan: Plan, s: System)
    requires Inv(plan, s) && s.producer.place.Streaming?
    ensures !s.producer.failed && (s.waiting.Some? ==> s.waiting.value <= plan.limits.maxItemBytes)
    ensures ItemTotals(s.all) == (s.producer.itemCount, s.producer.payloadBytes)
  {
    hide ItemTotals, TotalsBound, CleanDelivery, Deliver, IdOk;
  }

  /** A frame after the boundary fails a stream if and only if it is empty or would exceed the limits on items or payload. */
  lemma FrameFailsIff(plan: Plan, sessionId: string, states: seq<System>, events: seq<Event>, n: nat)
    requires IsRun(plan, sessionId, states, events) && n < |events| && events[n].FrameTaken?
    requires states[n].producer.place.Streaming? && states[n].completed > states[n].producer.discardThrough
    ensures states[n].waiting.Some?
    ensures var (items, bytes) := ItemTotals(states[n].all); var size := states[n].waiting.value;
            states[n + 1].producer.failed <==>
            size == 0 || items >= plan.limits.maxItems || bytes + size > plan.limits.maxPayloadBytes
  {
    hide Inv, OnFrame, PlanOk, IdOk, ItemTotals, OnControl, OnCameraFailure, Accept, AcceptTransportEof, NextControl;
    var s := states[n];
    RunKeeps(plan, sessionId, states, events, n);
    assert Enabled(plan, s, events[n]) && states[n + 1] == Next(plan, s, events[n]);
    StreamingWrites(plan, s);
    StreamingIsLive(plan, s);
    FrameRefused(plan, s.producer, s.completed, s.waiting.value);
  }

  // ---------------------------------------------------------------- a run that loses a frame

  lemma Extend(plan: Plan, sessionId: string, states: seq<System>, events: seq<Event>, e: Event, next: System)
    requires IsRun(plan, sessionId, states, events)
    requires Enabled(plan, states[|events|], e) && next == Next(plan, states[|events|], e)
    ensures IsRun(plan, sessionId, states + [next], events + [e])
  {
    hide Next, Enabled, PlanOk, IdOk, Initial;
  }

  /** The system between two commands: nothing under way, the first three commands acknowledged up to phase. */
  function Settled(plan: Plan, sessionId: string, place: Place, all: seq<Record>): System {
    var n := ControlsAt(place);
    System(Host(sessionId, plan.sourceId, PhaseAt(place), n, None, 0, None),
           Producer(place, if n == 1 then "" else sessionId, n, 1, 0, 0, 0, false), [], None, [], all, false, 0, None, [])
  }

  function CommandAt(place: Place): Command {
    match place
    case AwaitReady => Ready
    case AwaitArm => Arm
    case AwaitStart => Start
    case Streaming => Stop
    case Exited => Cancel
  }

  function ReadUp(plan: Plan, sessionId: string, place: Place, all: seq<Record>): System {
    var s := Settled(plan, sessionId, place, all);
    var c := Control(CommandAt(place), sessionId, plan.sourceId, ControlsAt(place));
    s.(host := s.host.(nextSeq := s.host.nextSeq + 1, pending := Some(c)), reading := Some(Reading(c, 0)))
  }

  /** The host commands, and a goroutine reads the command. */
  lemma CommandAndRead(
    plan: Plan, sessionId: string, states: seq<System>, events: seq<Event>, place: Place, all: seq<Record>)
    returns (after: seq<System>, done: seq<Event>)
    requires IsRun(plan, sessionId, states, events) && states[|events|] == Settled(plan, sessionId, place, all)
    requires place.AwaitReady? || place.AwaitArm? || place.AwaitStart?
    ensures IsRun(plan, sessionId, after, done) && done == events + [HostCommands(CommandAt(place)), ControlRead]
    ensures after == states + [after[|events| + 1], ReadUp(plan, sessionId, place, all)]
    ensures after[|events| + 1].producer == Settled(plan, sessionId, place, all).producer
    ensures after[|events| + 1].completed == 0
  {
    var s := states[|events|];
    var e := HostCommands(CommandAt(place));
    var s1 := Next(plan, s, e);
    Extend(plan, sessionId, states, events, e, s1);
    var s2 := ReadUp(plan, sessionId, place, all);
    assert s1.controls == [s2.reading.value.control] && s1.controls[1..] == [];
    Extend(plan, sessionId, states + [s1], events + [e], ControlRead, s2);
    after, done := states + [s1] + [s2], events + [e] + [ControlRead];
  }

  /** The select takes READY or ARM, and the host receives the acknowledgement. */
  lemma TakeAndAcknowledge(
    plan: Plan, sessionId: string, states: seq<System>, events: seq<Event>, place: Place, all: seq<Record>)
    returns (after: seq<System>, done: seq<Event>, more: seq<Record>)
    requires IsRun(plan, sessionId, states, events) && states[|events|] == ReadUp(plan, sessionId, place, all)
    requires place.AwaitReady? || place.AwaitArm?
    ensures IsRun(plan, sessionId, after, done) && done == events + [ControlTaken(CameraFine), HostReceives]
    ensures var place' := if place.AwaitReady? then AwaitArm else AwaitStart;
            after[|done|] == Settled(plan, sessionId, place', more)
  {
    var s := states[|events|];
    var e := ControlTaken(CameraFine);
    var s1 := Next(plan, s, e);
    Extend(plan, sessionId, states, events, e, s1);
    var s2 := Next(plan, s1, HostReceives);
    Extend(plan, sessionId, states + [s1], events + [e], HostReceives, s2);
    after, done, more := states + [s1] + [s2], events + [e] + [HostReceives], s1.all;
    assert s1.records[1..] == [];
  }

  /** A frame completes and is discarded while START is in hand; then START is taken. */
  lemma LoseOne(plan: Plan, sessionId: string, states: seq<System>, events: seq<Event>, all: seq<Record>)
    returns (after: seq<System>, done: seq<Event>)
    requires IsRun(plan, sessionId, states, events) && states[|events|] == ReadUp(plan, sessionId, AwaitStart, all)
    ensures IsRun(plan, sessionId, after, done) && done == events + [FrameCompletes(plan.frameBytes), FrameTaken, ControlTaken(CameraFine)]
    ensures |after| == |states| + 3 && after[..|states|] == states
    ensures var s := after[|done|]; s.producer.place.Streaming? && s.items == [] && Taken(s) == 1
  {
    var s := states[|events|];
    var s1 := Next(plan, s, FrameCompletes(plan.frameBytes));
    Extend(plan, sessionId, states, events, FrameCompletes(plan.frameBytes), s1);
    var s2 := Next(plan, s1, FrameTaken);
    Extend(plan, sessionId, states + [s1], events + [FrameCompletes(plan.frameBytes)], FrameTaken, s2);
    var e := ControlTaken(CameraFine);
    var s3 := Next(plan, s2, e);
    Extend(plan, sessionId, states + [s1] + [s2], events + [FrameCompletes(plan.frameBytes)] + [FrameTaken], e, s3);
    after := states + [s1] + [s2] + [s3];
    done := events + [FrameCompletes(plan.frameBytes)] + [FrameTaken] + [e];
  }

  /** Under every plan and session the first frame can complete after START was read and still be lost. */
  lemma FrameCanBeLost(plan: Plan, sessionId: string) returns (states: seq<System>, events: seq<Event>, r: nat, t: nat)
    requires PlanOk(plan) && IdOk(sessionId)
    ensures IsRun(plan, sessionId, states, events) && StartReadAndTaken(states, events, r, t) && |events| == t + 1
    ensures states[t + 1].items == [] && FramesBetween(states[r].completed, Taken(states[t + 1])) == [1]
  {
    hide IdOk, Next, Enabled;
    states, events := [Settled(plan, sessionId, AwaitReady, [])], [];
    assert IsRun(plan, sessionId, states, events);
    hide IsRun, PlanOk;
    var all: seq<Record> := [];
    states, events := CommandAndRead(plan, sessionId, states, events, AwaitReady, all);
    states, events, all := TakeAndAcknowledge(plan, sessionId, states, events, AwaitReady, all);
    states, events := CommandAndRead(plan, sessionId, states, events, AwaitArm, all);
    states, events, all := TakeAndAcknowledge(plan, sessionId, states, events, AwaitArm, all);
    states, events := CommandAndRead(plan, sessionId, states, events, AwaitStart, all);
    r, t := 9, 12;
    states, events := LoseOne(plan, sessionId, states, events, all);
  }
}
