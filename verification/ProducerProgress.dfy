/** Progress of the composed producer protocol: no reachable state is stuck, and every one can be brought to completion. */
module ProducerProgress {
  import opened Common
  import opened Sensors
  import opened SensorProducer
  import opened FrameProducer
  import opened ProducerProtocol

  function StagesLeft(place: Place): nat {
    match place
    case AwaitReady => 4
    case AwaitArm => 3
    case AwaitStart => 2
    case Streaming => 1
    case Exited => 0
  }

  /** Steps until the next command is taken: it is sent, read and taken. */
  function CommandLeft(s: System): nat {
    if s.producer.place.Exited? then 0 else if s.reading.Some? then 1 else if s.controls != [] then 2 else 3
  }

  /** An upper bound on the steps to completion: a stage costs at most eight, with the up to three frames it writes. */
  function Ahead(s: System): nat {
    8 * StagesLeft(s.producer.place) + |s.records| + CommandLeft(s) + if s.closed then 0 else 1
  }

  lemma FailureSize(plan: Plan, o: Output, message: string)
    ensures |FailureWritten(plan, o, message).records| <= |o.records| + 2 && FailureWritten(plan, o, message).p.place.Exited?
  {
    hide Bounded;
  }

  lemma RejectSize(plan: Plan, p: Producer, c: Control, message: string)
    ensures |Rejected(plan, p, c, message).records| <= 3 && Rejected(plan, p, c, message).p.place.Exited?
  {
    hide FailureWritten, Bounded;
    FailureSize(plan, Acked(plan, p, c, false, Bounded(message)), message);
  }

  lemma StopSize(plan: Plan, p: Producer, c: Control, camera: Camera)
    ensures |Stopped(plan, p, c, camera).records| <= 3 && Stopped(plan, p, c, camera).p.place.Exited?
  {
    hide FailureWritten;
    if camera.CameraBroken? {
      FailureSize(plan, Acked(plan, p, c, true, ""), camera.message);
    }
  }

  lemma AdvanceSize(plan: Plan, p: Producer, r: Reading, camera: Camera)
    requires !p.place.Exited?
    ensures var o := Advanced(plan, p, r, camera); |o.records| <= 3 && StagesLeft(o.p.place) < StagesLeft(p.place)
  {
    hide Rejected, Stopped;
    var c := r.control;
    StopSize(plan, p, c, camera);
    RejectSize(plan, p, c, "expected READY");
    RejectSize(plan, p, c, "expected ARM");
    RejectSize(plan, p, c, "expected START");
    RejectSize(plan, p, c, "expected STOP or CANCEL");
    if camera.CameraBroken? {
      RejectSize(plan, p, c, camera.message);
    }
  }

  /** Every control that is taken moves the producer on by at least one stage and writes at most three frames. */
  lemma ControlSize(plan: Plan, p: Producer, r: Reading, camera: Camera)
    requires !p.place.Exited?
    ensures var o := OnControl(plan, p, r, camera); |o.records| <= 3 && StagesLeft(o.p.place) < StagesLeft(p.place)
  {
    hide FailureWritten, Advanced, ControlOk;
    FailureSize(plan, Output(p, []), "read terminal producer control");
    AdvanceSize(plan, p.(sessionId := r.control.sessionId, nextControlSeq := p.nextControlSeq + 1), r, camera);
  }

  /** With everything delivered and nothing under way the host may cancel. */
  lemma MayCancel(plan: Plan, s: System)
    requires Inv(plan, s) && !s.closed && s.records == [] && !s.producer.place.Exited? && Pending(s) == []
    ensures NextControl(s.host, Cancel).Some? && s.host.pending.None?
  {
    hide ItemTotals, TotalsBound, PlanOk, IdOk;
    assert Deliver(s.host, s.records) == s.host;
  }

  /**
    No reachable state is stuck. Until the host has seen the end of the transport some step brings completion nearer: delivering a
    frame, seeing the end, taking or reading a control, or, only if no command is unanswered, commanding CANCEL.
   */
  lemma NotStuck(plan: Plan, s: System) returns (e: Event)
    requires Inv(plan, s) && !s.closed
    ensures Enabled(plan, s, e) && Ahead(Next(plan, s, e)) < Ahead(s)
    ensures e.HostReceives? || e.HostSeesEof? || e.ControlTaken? || e.ControlRead? || (e == HostCommands(Cancel) && s.host.pending.None?)
  {
    hide Inv, OnControl, OnFrame, OnCameraFailure, Accept, AcceptTransportEof;
    if s.records != [] {
      e := HostReceives;
    } else if s.producer.place.Exited? {
      e := HostSeesEof;
    } else if s.reading.Some? {
      e := ControlTaken(CameraFine);
      ControlSize(plan, s.producer, s.reading.value, CameraFine);
    } else if s.controls != [] {
      e := ControlRead;
    } else {
      MayCancel(plan, s);
      e := HostCommands(Cancel);
    }
  }

  lemma AheadBound(s: System)
    ensures Ahead(s) <= |s.records| + 36
  {
  }

  /**
    From every reachable state the host can be brought to completion, in a number of steps bounded by the frames under way and a
    constant, and it then reports success exactly when the producer did not fail.
   */
  lemma {:induction false} CanComplete(plan: Plan, sessionId: string, states: seq<System>, events: seq<Event>)
    returns (after: seq<System>, done: seq<Event>)
    requires IsRun(plan, sessionId, states, events) && |states| == |events| + 1
    ensures IsRun(plan, sessionId, after, done) && |after| == |done| + 1
    ensures events <= done && |done| <= |events| + |states[|events|].records| + 36
    ensures after[|done|].closed && after[|done|].host.phase.PhaseComplete?
    ensures after[|done|].host.cause.None? <==> !after[|done|].producer.failed
  {
    after, done := Finish(plan, sessionId, states, events);
    AheadBound(states[|events|]);
    var s := after[|done|];
    RunKeeps(plan, sessionId, after, done, |done|);
    ClosedIsComplete(plan, s);
  }

  lemma ClosedIsComplete(plan: Plan, s: System)
    requires Inv(plan, s) && s.closed
    ensures s.host.phase.PhaseComplete? && (s.host.cause.None? <==> !s.producer.failed)
  {
    hide ItemTotals, TotalsBound, PlanOk;
  }

  lemma {:induction false} Finish(plan: Plan, sessionId: string, states: seq<System>, events: seq<Event>)
    returns (after: seq<System>, done: seq<Event>)
    requires IsRun(plan, sessionId, states, events) && |states| == |events| + 1
    ensures IsRun(plan, sessionId, after, done) && |after| == |done| + 1
    ensures events <= done && |done| <= |events| + Ahead(states[|events|]) && after[|done|].closed
    decreases Ahead(states[|events|])
  {
    hide IsRun, Next, Enabled, Inv, Ahead;
    var s := states[|events|];
    if s.closed {
      after, done := states, events;
    } else {
      RunKeeps(plan, sessionId, states, events, |events|);
      var e := NotStuck(plan, s);
      Extend(plan, sessionId, states, events, e, Next(plan, s, e));
      after, done := Finish(plan, sessionId, states + [Next(plan, s, e)], events + [e]);
    }
  }
}
