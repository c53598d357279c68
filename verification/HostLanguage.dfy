/**
  The host of the sensor-producer protocol on its own: which commands it may give and which frames it accepts, after any
  history, from a producer that may do anything.
 */
module HostLanguage {
  import opened Common
  import opened Sensors
  import opened SensorProducer

  /** What has happened so far: a command that was given, or a frame that arrived. */
  datatype Entry = Sent(command: Command) | Got(record: Record)

  // ---------------------------------------------------------------- what a log says

  function SentCount(log: seq<Entry>): nat {
    if log == [] then 0 else SentCount(log[..|log| - 1]) + if log[|log| - 1].Sent? then 1 else 0
  }

  /** The data frames: everything that arrived except acknowledgements. */
  function DataCount(log: seq<Entry>): nat {
    if log == [] then 0
    else DataCount(log[..|log| - 1]) + if log[|log| - 1].Got? && !log[|log| - 1].record.meta.AckMeta? then 1 else 0
  }

  /** The command that no ACK has answered yet. */
  function Unanswered(log: seq<Entry>): Option<Command> {
    if log == [] then None
    else
      match log[|log| - 1]
      case Sent(command) => Some(command)
      case Got(r) => if r.meta.AckMeta? then None else Unanswered(log[..|log| - 1])
  }

  /** The last frame that is not an ITEM. */
  function LastTurn(log: seq<Entry>): Option<Meta> {
    if log == [] then None
    else
      match log[|log| - 1]
      case Sent(_) => LastTurn(log[..|log| - 1])
      case Got(r) => if r.meta.ItemMeta? then LastTurn(log[..|log| - 1]) else Some(r.meta)
  }

  /** A frame by which the producer reports its own failure. */
  predicate Reports(m: Meta) { m.ErrorMeta? || (m.AckMeta? && !m.ok) }

  function ReportOf(m: Meta): Cause
    requires Reports(m)
  {
    if m.ErrorMeta? then ProducerError(None, m.message) else ProducerError(Some(m.command), m.error)
  }

  /** The first failure the producer reported. */
  function FirstReport(log: seq<Entry>): Option<Cause> {
    if log == [] then None
    else
      var before, e := FirstReport(log[..|log| - 1]), log[|log| - 1];
      if before.None? && e.Got? && Reports(e.record.meta) then Some(ReportOf(e.record.meta)) else before
  }

  // ---------------------------------------------------------------- what may come next

  predicate Acknowledges(turn: Option<Meta>, command: Command) {
    turn.Some? && turn.value.AckMeta? && turn.value.ok && turn.value.command == command
  }

  predicate TurnIsSession(turn: Option<Meta>) { turn.Some? && turn.value.SessionMeta? }

  /** One command at a time: READY, ARM, START and STOP in this order, or CANCEL, and neither after STOP, CANCEL or a failure. */
  predicate MayCommand(log: seq<Entry>, command: Command) {
    var turn := LastTurn(log);
    && Unanswered(log).None?
    && match command
       case Ready => turn.None?
       case Arm => Acknowledges(turn, Ready)
       case Start => Acknowledges(turn, Arm)
       case Stop => Acknowledges(turn, Start) || TurnIsSession(turn)
       case Cancel =>
         turn.None? || Acknowledges(turn, Ready) || Acknowledges(turn, Arm) || Acknowledges(turn, Start) || TurnIsSession(turn)
  }

  /**
    An ACK answers the outstanding command by number and kind. Data frames are numbered from one; SESSION is the first of them and
    follows the accepted START; ITEM comes only between SESSION and the accepted STOP or CANCEL; END only after the accepted STOP;
    EOF only after END, the accepted CANCEL or a reported failure; a failure may be reported at any time.
   */
  predicate MayReceive(sessionId: string, sourceId: string, log: seq<Entry>, r: Record) {
    var turn := LastTurn(log);
    && RecordOk(r) && r.sessionId == sessionId && r.sourceId == sourceId
    && match r.meta
       case AckMeta(command, _, _) => Unanswered(log) == Some(command) && r.number == SentCount(log) && AckOk(r.meta)
       case SessionMeta => r.number == DataCount(log) + 1 == 1 && Acknowledges(turn, Start)
       case ItemMeta(_) => r.number == DataCount(log) + 1 && TurnIsSession(turn)
       case EndMeta(_, _) => r.number == DataCount(log) + 1 && Acknowledges(turn, Stop)
       case ErrorMeta(message) => r.number == DataCount(log) + 1 && MessageOk(message)
       case EofMeta =>
         && r.number == DataCount(log) + 1
         && turn.Some? && (turn.value.EndMeta? || Acknowledges(turn, Cancel) || Reports(turn.value))
  }

  /** What is asked of the host: a command, which may be refused, or a frame that arrives. */
  datatype Input = Asks(command: Command) | Arrives(record: Record)

  /** The commands given and the frames that arrived. */
  function LogOf(inputs: seq<Input>): seq<Entry> {
    if inputs == [] then []
    else
      var log := LogOf(inputs[..|inputs| - 1]);
      match inputs[|inputs| - 1]
      case Asks(command) => if MayCommand(log, command) then log + [Sent(command)] else log
      case Arrives(r) => log + [Got(r)]
  }

  predicate AdmittedAt(sessionId: string, sourceId: string, inputs: seq<Input>, i: nat)
    requires i < |inputs|
  {
    inputs[i].Arrives? ==> MayReceive(sessionId, sourceId, LogOf(inputs[..i]), inputs[i].record)
  }

  predicate Admitted(sessionId: string, sourceId: string, inputs: seq<Input>) {
    forall i | 0 <= i < |inputs| :: AdmittedAt(sessionId, sourceId, inputs, i)
  }

  // ---------------------------------------------------------------- the host as a function of the log

  function HostAfter(first: Host, inputs: seq<Input>): Host {
    if inputs == [] then first
    else
      var h := HostAfter(first, inputs[..|inputs| - 1]);
      match inputs[|inputs| - 1]
      case Asks(command) => Prepared(h, command)
      case Arrives(r) => Accept(h, r)
  }

  function PhaseOf(turn: Option<Meta>): Phase {
    match turn
    case None => PhaseInit
    case Some(AckMeta(command, ok, _)) => if ok then AcknowledgedPhase(command) else PhaseFailed
    case Some(SessionMeta) => PhaseStreaming
    case Some(ItemMeta(_)) => PhaseStreaming
    case Some(EndMeta(_, _)) => PhaseEnded
    case Some(ErrorMeta(_)) => PhaseFailed
    case Some(EofMeta) => PhaseEof
  }

  function StateOf(sessionId: string, sourceId: string, log: seq<Entry>): Host {
    var pending :=
      match Unanswered(log)
      case None => None
      case Some(command) => Some(Control(command, sessionId, sourceId, SentCount(log)));
    Host(sessionId, sourceId, PhaseOf(LastTurn(log)), SentCount(log) + 1, pending, DataCount(log), FirstReport(log))
  }

  lemma OneMore(log: seq<Entry>, e: Entry)
    ensures SentCount(log + [e]) == SentCount(log) + if e.Sent? then 1 else 0
    ensures DataCount(log + [e]) == DataCount(log) + if e.Got? && !e.record.meta.AckMeta? then 1 else 0
    ensures Unanswered(log + [e]) ==
            (match e case Sent(command) => Some(command) case Got(r) => if r.meta.AckMeta? then None else Unanswered(log))
    ensures LastTurn(log + [e]) ==
            (match e case Sent(_) => LastTurn(log) case Got(r) => if r.meta.ItemMeta? then LastTurn(log) else Some(r.meta))
    ensures FirstReport(log + [e]) ==
            if FirstReport(log).None? && e.Got? && Reports(e.record.meta) then Some(ReportOf(e.record.meta)) else FirstReport(log)
  {
    assert (log + [e])[..|log|] == log;
  }

  /** The turn is never an ITEM, and a recorded report is the producer's. */
  lemma {:induction false} LogFacts(log: seq<Entry>)
    ensures LastTurn(log).Some? ==> !LastTurn(log).value.ItemMeta?
    ensures FirstReport(log).Some? ==> FirstReport(log).value.ProducerError?
    decreases |log|
  {
    if log != [] {
      LogFacts(log[..|log| - 1]);
    }
  }

  /** A command is given exactly when the log allows it, with the next number. */
  lemma CommandExact(sessionId: string, sourceId: string, log: seq<Entry>, command: Command)
    ensures var h := StateOf(sessionId, sourceId, log);
            && (NextControl(h, command).Some? <==> MayCommand(log, command))
            && (NextControl(h, command).Some? ==>
                  NextControl(h, command).value == Control(command, sessionId, sourceId, SentCount(log) + 1))
            && Prepared(h, command) == StateOf(sessionId, sourceId, if MayCommand(log, command) then log + [Sent(command)] else log)
  {
    hide SentCount, DataCount, Unanswered, LastTurn, FirstReport;
    LogFacts(log);
    OneMore(log, Sent(command));
  }

  /** A frame is taken without an error exactly when the log allows it, unless it reports a failure, which is the answer then. */
  lemma FrameExact(sessionId: string, sourceId: string, log: seq<Entry>, r: Record)
    ensures var h := StateOf(sessionId, sourceId, log);
            && (MayReceive(sessionId, sourceId, log, r) ==>
                  && Accept(h, r) == StateOf(sessionId, sourceId, log + [Got(r)])
                  && Reply(h, r) == if r.meta.AckMeta? && !r.meta.ok then Some(ReportOf(r.meta)) else None)
            && (!MayReceive(sessionId, sourceId, log, r) ==>
                  && Reply(h, r).Some? && Accept(h, r).phase.PhaseFailed?
                  && Accept(h, r).cause == if FirstReport(log).Some? then FirstReport(log) else Some(ProtocolError))
  {
    hide SentCount, DataCount, Unanswered, LastTurn, FirstReport, IdOk, TextBytes;
    LogFacts(log);
    OneMore(log, Got(r));
  }

  // ---------------------------------------------------------------- whole histories

  lemma AdmittedPrefix(sessionId: string, sourceId: string, inputs: seq<Input>, i: nat)
    requires i <= |inputs|
    ensures Admitted(sessionId, sourceId, inputs) ==> Admitted(sessionId, sourceId, inputs[..i])
    ensures i < |inputs| && Admitted(sessionId, sourceId, inputs[..i]) && AdmittedAt(sessionId, sourceId, inputs, i) ==>
              Admitted(sessionId, sourceId, inputs[..i + 1])
    ensures i < |inputs| && Admitted(sessionId, sourceId, inputs[..i + 1]) ==> AdmittedAt(sessionId, sourceId, inputs, i)
  {
    hide MayReceive, LogOf;
    SameAt(sessionId, sourceId, inputs, i);
    if i < |inputs| {
      SameAt(sessionId, sourceId, inputs, i + 1);
    }
  }

  lemma SameAt(sessionId: string, sourceId: string, inputs: seq<Input>, i: nat)
    requires i <= |inputs|
    ensures forall k | 0 <= k < i ::
              AdmittedAt(sessionId, sourceId, inputs[..i], k) <==> AdmittedAt(sessionId, sourceId, inputs, k)
  {
    hide MayReceive, LogOf;
    assert forall k | 0 <= k < i :: inputs[..i][..k] == inputs[..k] && inputs[..i][k] == inputs[k];
  }

  /** As long as every frame was admissible the host's state is the one its log defines, and it has recorded no protocol error. */
  lemma {:induction false} HostExact(first: Host, inputs: seq<Input>)
    requires NewHost(first.sessionId, first.sourceId) == Some(first) && Admitted(first.sessionId, first.sourceId, inputs)
    ensures HostAfter(first, inputs) == StateOf(first.sessionId, first.sourceId, LogOf(inputs))
    ensures HostAfter(first, inputs).cause == FirstReport(LogOf(inputs)) && HostAfter(first, inputs).cause != Some(ProtocolError)
    decreases |inputs|
  {
    hide Accept, Prepared, MayReceive, MayCommand, StateOf, IdOk, Admitted;
    var id, source := first.sessionId, first.sourceId;
    if inputs == [] {
      FreshHost(id, source);
    } else {
      var n := |inputs| - 1;
      var init, log := inputs[..n], LogOf(inputs[..n]);
      AdmittedPrefix(id, source, inputs, n);
      assert inputs[..n + 1] == inputs;
      HostExact(first, init);
      match inputs[n]
      case Asks(command) => CommandExact(id, source, log, command);
      case Arrives(r) => FrameExact(id, source, log, r);
    }
    LogFacts(LogOf(inputs));
    CauseOf(id, source, LogOf(inputs));
  }

  lemma FreshHost(sessionId: string, sourceId: string)
    requires NewHost(sessionId, sourceId).Some?
    ensures NewHost(sessionId, sourceId).value == StateOf(sessionId, sourceId, [])
  {
    hide IdOk;
  }

  lemma CauseOf(sessionId: string, sourceId: string, log: seq<Entry>)
    ensures StateOf(sessionId, sourceId, log).cause == FirstReport(log)
  {
  }

  /** A failure that the producer reported stays the recorded one, whatever follows. */
  lemma ReportStays(h: Host, input: Input)
    requires h.cause.Some? && h.cause.value.ProducerError?
    ensures match input
            case Asks(command) => Prepared(h, command).cause == h.cause
            case Arrives(r) => Accept(h, r).cause == h.cause
  {
    hide RecordOk, MessageOk, AckOk;
  }

  lemma {:induction false} ReportStaysFor(first: Host, inputs: seq<Input>, i: nat, j: nat)
    requires i <= j <= |inputs|
    requires HostAfter(first, inputs[..i]).cause.Some? && HostAfter(first, inputs[..i]).cause.value.ProducerError?
    ensures HostAfter(first, inputs[..j]).cause == HostAfter(first, inputs[..i]).cause
    decreases j - i
  {
    hide Accept, Prepared;
    if i < j {
      ReportStaysFor(first, inputs, i, j - 1);
      AfterOne(first, inputs, j - 1);
      ReportStays(HostAfter(first, inputs[..j - 1]), inputs[j - 1]);
    }
  }

  lemma AfterOne(first: Host, inputs: seq<Input>, i: nat)
    requires i < |inputs|
    ensures var h := HostAfter(first, inputs[..i]);
            HostAfter(first, inputs[..i + 1]) ==
            match inputs[i] case Asks(command) => Prepared(h, command) case Arrives(r) => Accept(h, r)
  {
    hide Accept, Prepared;
    assert inputs[..i + 1][..i] == inputs[..i];
  }

  /** Frame i is the first that is not admissible. */
  predicate BreaksAt(sessionId: string, sourceId: string, inputs: seq<Input>, i: nat) {
    i < |inputs| && Admitted(sessionId, sourceId, inputs[..i]) && !AdmittedAt(sessionId, sourceId, inputs, i)
  }

  lemma {:induction false} FirstBreak(sessionId: string, sourceId: string, inputs: seq<Input>) returns (i: nat)
    requires !Admitted(sessionId, sourceId, inputs)
    ensures BreaksAt(sessionId, sourceId, inputs, i)
    decreases |inputs|
  {
    hide MayReceive, LogOf;
    var n := |inputs| - 1;
    AdmittedPrefix(sessionId, sourceId, inputs, n);
    assert inputs[..n + 1] == inputs;
    if Admitted(sessionId, sourceId, inputs[..n]) {
      i := n;
    } else {
      i := FirstBreak(sessionId, sourceId, inputs[..n]);
      assert inputs[..n][..i] == inputs[..i];
    }
  }

  ghost predicate ErrsAt(first: Host, inputs: seq<Input>, j: nat) {
    j <= |inputs| && HostAfter(first, inputs[..j]).cause == Some(ProtocolError)
  }

  /**
    For every order of commands and every frames of any producer: the host records a protocol error at some point if and only if
    some frame was not admissible after what came before, unless the producer had reported a failure by then, which stays the
    recorded one.
   */
  lemma ProtocolErrorIff(first: Host, inputs: seq<Input>)
    requires NewHost(first.sessionId, first.sourceId) == Some(first)
    ensures (exists j :: ErrsAt(first, inputs, j)) <==>
            exists i: nat :: BreaksAt(first.sessionId, first.sourceId, inputs, i) && FirstReport(LogOf(inputs[..i])).None?
  {
    hide MayReceive, MayCommand, LogOf, HostAfter, StateOf, Accept, Prepared, NewHost, FirstReport;
    var id, source := first.sessionId, first.sourceId;
    if i: nat :| BreaksAt(id, source, inputs, i) && FirstReport(LogOf(inputs[..i])).None? {
      BreakAnswered(first, inputs, i);
      assert ErrsAt(first, inputs, i + 1);
    }
    if j: nat :| ErrsAt(first, inputs, j) {
      if Admitted(id, source, inputs[..j]) {
        HostExact(first, inputs[..j]);
        assert false;
      }
      var i := FirstBreak(id, source, inputs[..j]);
      assert inputs[..j][..i] == inputs[..i];
      BreakAnswered(first, inputs, i);
      if FirstReport(LogOf(inputs[..i])).Some? {
        ReportStaysFor(first, inputs, i, j);
      }
      BreakWithin(id, source, inputs, i, j);
    }
  }

  lemma BreakWithin(sessionId: string, sourceId: string, inputs: seq<Input>, i: nat, j: nat)
    requires j <= |inputs| && BreaksAt(sessionId, sourceId, inputs[..j], i)
    ensures BreaksAt(sessionId, sourceId, inputs, i)
  {
    hide MayReceive, LogOf;
    assert inputs[..j][..i] == inputs[..i];
  }

  /** What the first inadmissible frame does. */
  lemma {:induction false} BreakAnswered(first: Host, inputs: seq<Input>, i: nat)
    requires NewHost(first.sessionId, first.sourceId) == Some(first)
    requires i < |inputs| && Admitted(first.sessionId, first.sourceId, inputs[..i])
    ensures HostAfter(first, inputs[..i]).cause == FirstReport(LogOf(inputs[..i]))
    ensures FirstReport(LogOf(inputs[..i])).Some? ==> FirstReport(LogOf(inputs[..i])).value.ProducerError?
    ensures BreaksAt(first.sessionId, first.sourceId, inputs, i) ==>
              var h := HostAfter(first, inputs[..i + 1]);
              && h.phase.PhaseFailed?
              && h.cause == if FirstReport(LogOf(inputs[..i])).Some? then FirstReport(LogOf(inputs[..i])) else Some(ProtocolError)
  {
    hide MayReceive, MayCommand, LogOf, HostAfter, StateOf, Accept, Prepared, NewHost, FirstReport, Reply;
    HostExact(first, inputs[..i]);
    LogFacts(LogOf(inputs[..i]));
    AfterOne(first, inputs, i);
    if inputs[i].Arrives? {
      FrameExact(first.sessionId, first.sourceId, LogOf(inputs[..i]), inputs[i].record);
    }
  }

  /** Without a reported failure: no protocol error was recorded if and only if every frame was admissible. */
  lemma NoErrorIffAdmitted(first: Host, inputs: seq<Input>)
    requires NewHost(first.sessionId, first.sourceId) == Some(first)
    requires forall i | 0 <= i < |inputs| && inputs[i].Arrives? :: !Reports(inputs[i].record.meta)
    ensures (forall j :: !ErrsAt(first, inputs, j)) <==> Admitted(first.sessionId, first.sourceId, inputs)
  {
    hide MayReceive, MayCommand, HostAfter, StateOf, NewHost, FirstReport, Admitted, LogOf, ErrsAt, Reports;
    ProtocolErrorIff(first, inputs);
    if !Admitted(first.sessionId, first.sourceId, inputs) {
      var i := FirstBreak(first.sessionId, first.sourceId, inputs);
      NoReport(inputs, i);
    } else if i: nat :| BreaksAt(first.sessionId, first.sourceId, inputs, i) {
      NoBreak(first.sessionId, first.sourceId, inputs, i);
    }
  }

  lemma NoBreak(sessionId: string, sourceId: string, inputs: seq<Input>, i: nat)
    requires Admitted(sessionId, sourceId, inputs)
    ensures !BreaksAt(sessionId, sourceId, inputs, i)
  {
    hide MayReceive, LogOf;
  }

  lemma {:induction false} NoReport(inputs: seq<Input>, i: nat)
    requires i <= |inputs| && forall k | 0 <= k < |inputs| && inputs[k].Arrives? :: !Reports(inputs[k].record.meta)
    ensures FirstReport(LogOf(inputs[..i])).None?
    decreases i
  {
    hide FirstReport, MayCommand, Reports, LogOf, SentCount, DataCount, Unanswered, LastTurn;
    if i == 0 {
      assert inputs[..0] == [];
      NothingReported();
    } else {
      NoReport(inputs, i - 1);
      LogOne(inputs, i - 1);
      var log := LogOf(inputs[..i - 1]);
      match inputs[i - 1]
      case Asks(command) => OneMore(log, Sent(command));
      case Arrives(r) => OneMore(log, Got(r));
    }
  }

  lemma LogOne(inputs: seq<Input>, i: nat)
    requires i < |inputs|
    ensures LogOf(inputs[..i + 1]) ==
            var log := LogOf(inputs[..i]);
            match inputs[i]
            case Asks(command) => if MayCommand(log, command) then log + [Sent(command)] else log
            case Arrives(r) => log + [Got(r)]
  {
    hide MayCommand;
    assert inputs[..i + 1][..i] == inputs[..i];
  }

  lemma NothingReported()
    ensures FirstReport(LogOf([])).None?
  {
  }

  /** The end of the transport completes an orderly session exactly if the last frame other than an ITEM is EOF. */
  lemma CompletesAfterEof(first: Host, inputs: seq<Input>)
    requires NewHost(first.sessionId, first.sourceId) == Some(first) && Admitted(first.sessionId, first.sourceId, inputs)
    ensures var h := AcceptTransportEof(HostAfter(first, inputs)); var log := LogOf(inputs);
            && (h.phase.PhaseComplete? <==> LastTurn(log) == Some(EofMeta))
            && h.cause == if LastTurn(log) == Some(EofMeta) || FirstReport(log).Some? then FirstReport(log) else Some(ProtocolError)
  {
    hide LogOf, HostAfter, Admitted, LastTurn, FirstReport, SentCount, DataCount, Unanswered, NewHost;
    HostExact(first, inputs);
    LogFacts(LogOf(inputs));
  }

  // ---------------------------------------------------------------- the object

  /** Plays any commands and frames on a new host object. */
  method PlayHost(sessionId: string, sourceId: string, inputs: seq<Input>) returns (host: State?)
    ensures host == null <==> NewHost(sessionId, sourceId).None?
    ensures host != null ==>
              var first := NewHost(sessionId, sourceId).value;
              && host.Value() == HostAfter(first, inputs)
              && (Admitted(sessionId, sourceId, inputs) ==> host.Value() == StateOf(sessionId, sourceId, LogOf(inputs)))
              && (inputs != [] && BreaksAt(sessionId, sourceId, inputs, |inputs| - 1)
                  && FirstReport(LogOf(inputs[..|inputs| - 1])).None? ==>
                    host.cause == Some(ProtocolError))
  {
    host := State.Create(sessionId, sourceId);
    if host == null {
      return;
    }
    ghost var first := host.Value();
    Identified(sessionId, sourceId, first);
    hide MayReceive, MayCommand, LogOf, StateOf, Accept, Prepared, NewHost, FirstReport, Reply, NextControl;
    assert inputs[..0] == [];
    for i := 0 to |inputs|
      invariant fresh(host) && host.Value() == HostAfter(first, inputs[..i])
    {
      AfterOne(first, inputs, i);
      match inputs[i]
      case Asks(command) => var _ := host.Prepare(command);
      case Arrives(r) => var _ := host.AcceptRecord(r);
    }
    assert inputs[..|inputs|] == inputs;
    PlayMeans(first, inputs);
  }

  lemma Identified(sessionId: string, sourceId: string, h: Host)
    requires NewHost(sessionId, sourceId) == Some(h)
    ensures h.sessionId == sessionId && h.sourceId == sourceId && NewHost(h.sessionId, h.sourceId) == Some(h)
  {
    hide IdOk;
  }

  lemma PlayMeans(first: Host, inputs: seq<Input>)
    requires NewHost(first.sessionId, first.sourceId) == Some(first)
    ensures var id, source := first.sessionId, first.sourceId;
            && (Admitted(id, source, inputs) ==> HostAfter(first, inputs) == StateOf(id, source, LogOf(inputs)))
            && (inputs != [] && BreaksAt(id, source, inputs, |inputs| - 1) && FirstReport(LogOf(inputs[..|inputs| - 1])).None? ==>
                  HostAfter(first, inputs).cause == Some(ProtocolError))
  {
    hide MayReceive, MayCommand, LogOf, HostAfter, StateOf, NewHost, FirstReport;
    var id, source := first.sessionId, first.sourceId;
    if Admitted(id, source, inputs) {
      HostExact(first, inputs);
    }
    if inputs != [] && BreaksAt(id, source, inputs, |inputs| - 1) {
      BreakAnswered(first, inputs, |inputs| - 1);
      assert inputs[..|inputs| - 1 + 1] == inputs;
    }
  }
}
