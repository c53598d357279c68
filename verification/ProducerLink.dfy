/** The host and producer objects joined by their two pipes: any script of events on them is a run of the protocol. */
module ProducerLink {
  import opened Common
  import opened Sensors
  import opened SensorProducer
  import opened FrameProducer
  import opened ProducerProtocol

  class Link {
    const host: State
    const runner: Runner
    var controls: seq<Control>
    var reading: Option<Reading>
    var delivered: nat
    var closed: bool
    var completed: nat
    var waiting: Option<nat>
    var items: seq<nat>

    ghost predicate Valid()
      reads this, runner
    {
      delivered <= |runner.output|
    }

    ghost function Value(): System
      requires Valid()
      reads this, host, runner
    {
      System(host.Value(), runner.Value(), controls, reading, runner.output[delivered..], runner.output, closed,
             completed, waiting, items)
    }

    constructor (plan: Plan, host: State)
      ensures Valid() && this.host == host && fresh(runner) && runner.plan == plan
      ensures Value() == Initial(plan, host.Value())
    {
      this.host := host;
      runner := new Runner(plan);
      controls, reading, delivered, closed := [], None, 0, false;
      completed, waiting, items := 0, None, [];
    }

    method IsEnabled(e: Event) returns (enabled: bool)
      requires Valid()
      ensures enabled == Enabled(runner.plan, Value(), e)
    {
      var cameraRuns := runner.place.AwaitStart? || runner.place.Streaming?;
      match e
      case HostCommands(_) => enabled := !closed;
      case ControlRead => enabled := !runner.place.Exited? && reading.None? && controls != [];
      case ControlTaken(_) => enabled := !runner.place.Exited? && reading.Some?;
      case FrameCompletes(size) => enabled := cameraRuns && waiting.None? && size <= runner.plan.frameBytes;
      case FrameTaken => enabled := cameraRuns && waiting.Some?;
      case CameraFails(_) => enabled := cameraRuns && waiting.None?;
      case HostReceives => enabled := delivered < |runner.output|;
      case HostSeesEof => enabled := runner.place.Exited? && delivered == |runner.output| && !closed;
    }

    /** The host's side of an event. */
    method HostStep(e: Event)
      requires Valid() && Enabled(runner.plan, Value(), e)
      requires e.HostCommands? || e.HostReceives? || e.HostSeesEof?
      modifies this, host
      ensures Valid() && Value() == Next(runner.plan, old(Value()), e)
    {
      hide Accept, AcceptTransportEof;
      match e
      case HostCommands(command) =>
        var c := host.Prepare(command);
        if c.Some? {
          controls := controls + [c.value];
        }
      case HostReceives =>
        var _ := host.AcceptRecord(runner.output[delivered]);
        assert runner.output[delivered..][1..] == runner.output[delivered + 1..];
        delivered := delivered + 1;
      case HostSeesEof =>
        var _ := host.TransportEof();
        closed := true;
    }

    /** What the producer wrote joins the queue. */
    lemma Queued(before: seq<Record>, more: seq<Record>)
      requires delivered <= |before|
      ensures (before + more)[delivered..] == before[delivered..] + more
    {
    }

    /** The select takes a control or a frame, or sees the camera fail. */
    method ProducerStep(e: Event)
      requires Valid() && Enabled(runner.plan, Value(), e)
      requires e.ControlTaken? || e.FrameTaken? || e.CameraFails?
      modifies this`reading, this`waiting, this`items, runner
      ensures Valid() && Value() == Next(runner.plan, old(Value()), e)
    {
      hide OnControl, OnFrame, OnCameraFailure;
      ghost var p, before := runner.Value(), runner.output;
      match e
      case ControlTaken(camera) =>
        runner.TakeControl(reading.value, camera);
        Queued(before, OnControl(runner.plan, p, reading.value, camera).records);
        reading := None;
      case FrameTaken =>
        var count := runner.itemCount;
        runner.TakeFrame(completed, waiting.value);
        Queued(before, OnFrame(runner.plan, p, completed, waiting.value).records);
        waiting := None;
        if runner.itemCount > count {
          items := items + [completed];
        }
      case CameraFails(message) =>
        runner.TakeCameraFailure(message);
        Queued(before, OnCameraFailure(runner.plan, p, message).records);
    }

    method Step(e: Event)
      requires Valid() && Enabled(runner.plan, Value(), e)
      modifies this, host, runner
      ensures Valid() && Value() == Next(runner.plan, old(Value()), e)
    {
      match e
      case ControlRead =>
        reading := Some(Reading(controls[0], completed));
        controls := controls[1..];
      case FrameCompletes(size) =>
        completed := completed + 1;
        waiting := Some(size);
      case HostCommands(_) => HostStep(e);
      case HostReceives => HostStep(e);
      case HostSeesEof => HostStep(e);
      case _ => ProducerStep(e);
    }
  }

  /** The system after a script of events, each of which happens if it can. */
  function Played(plan: Plan, s: System, script: seq<Event>): System {
    if script == [] then s
    else
      var before, e := Played(plan, s, script[..|script| - 1]), script[|script| - 1];
      if Enabled(plan, before, e) then Next(plan, before, e) else before
  }

  lemma PlayedNone(plan: Plan, s: System, script: seq<Event>)
    ensures Played(plan, s, script[..0]) == s
  {
  }

  lemma PlayedOne(plan: Plan, s: System, script: seq<Event>, i: nat)
    requires i < |script|
    ensures var before := Played(plan, s, script[..i]);
            Played(plan, s, script[..i + 1]) == if Enabled(plan, before, script[i]) then Next(plan, before, script[i]) else before
  {
    hide Enabled, Next;
    assert script[..i + 1][..i] == script[..i];
  }

  /**
    Plays a script of events on the objects, leaving out those that cannot happen: what the objects go through is a run of the
    protocol, so the host never records a protocol error, and a transport EOF reports success exactly when the producer
    never failed.
   */
  method Play(plan: Plan, sessionId: string, script: seq<Event>)
    returns (link: Link?, ghost states: seq<System>, ghost events: seq<Event>)
    requires PlanOk(plan)
    ensures link == null <==> !IdOk(sessionId)
    ensures link != null ==>
              && link.Valid() && link.runner.plan == plan
              && link.Value() == Played(plan, Initial(plan, NewHost(sessionId, plan.sourceId).value), script)
              && IsRun(plan, sessionId, states, events) && states[|events|] == link.Value()
              && link.host.cause != Some(ProtocolError)
              && (link.closed ==> link.host.phase.PhaseComplete? && (link.host.cause.None? <==> !link.runner.failed))
              && ItemTotals(link.runner.output) == (link.runner.itemCount, link.runner.payloadBytes)
  {
    hide IdOk, Next, Enabled, PlanOk;
    states, events := [], [];
    var host := State.Create(sessionId, plan.sourceId);
    if host == null {
      assert !IdOk(sessionId) by { SourceIdOk(plan); }
      return null, states, events;
    }
    link := new Link(plan, host);
    states := [link.Value()];
    assert IsRun(plan, sessionId, states, events);
    ghost var first := link.Value();
    PlayedNone(plan, first, script);
    hide IsRun, Played, Initial;
    for i := 0 to |script|
      invariant fresh(link) && fresh(link.host) && fresh(link.runner) && link.Valid() && link.runner.plan == plan
      invariant |states| == |events| + 1 && IsRun(plan, sessionId, states, events) && states[|events|] == link.Value() == Played(plan, first, script[..i])
    {
      PlayedOne(plan, first, script, i);
      var enabled := link.IsEnabled(script[i]);
      if enabled {
        link.Step(script[i]);
        Extend(plan, sessionId, states, events, script[i], link.Value());
        states, events := states + [link.Value()], events + [script[i]];
      }
    }
    assert script[..|script|] == script;
    RunMeans(plan, sessionId, states, events);
  }

  lemma SourceIdOk(plan: Plan)
    requires PlanOk(plan)
    ensures IdOk(plan.sourceId)
  {
  }

  lemma RunMeans(plan: Plan, sessionId: string, states: seq<System>, events: seq<Event>)
    requires IsRun(plan, sessionId, states, events)
    ensures var s := states[|events|];
            && s.host.cause != Some(ProtocolError)
            && (s.closed ==> s.host.phase.PhaseComplete? && (s.host.cause.None? <==> !s.producer.failed))
            && ItemTotals(s.all) == (s.producer.itemCount, s.producer.payloadBytes)
  {
    assert |states| == |events| + 1;
    hide IsRun, ItemTotals, TotalsBound, CleanDelivery, Agree, Deliver, PlanOk;
    NeverProtocolError(plan, sessionId, states, events, |events|);
    RunKeeps(plan, sessionId, states, events, |events|);
  }
}
