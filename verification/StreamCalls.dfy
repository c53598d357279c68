/** What the encoder writes says what it was told: which calls it takes, and which record each of them becomes. */
module StreamCalls {
  import opened Bytes
  import opened Common
  import opened Sensors
  import opened StreamModel
  import opened StreamLanguage
  import opened StreamLockstep

  /** The record carries every argument of the call, in the session of that identifier. */
  predicate Conveys(H: Hash, sessionId: string, call: Call, r: Record) {
    match call
    case RadarConfigCall(id, format, payload) =>
      && r.rtype.RadarConfigType? && r.meta.RadarConfigMeta? && r.payload == payload
      && r.meta.sourceId == id && r.meta.format == format && r.meta.sizeBytes == |payload| && r.meta.digest == H(payload)
    case RadarStartCall(id, lower, upper) =>
      && r.rtype.RadarStartType? && r.meta.RadarStartMeta? && r.payload == []
      && r.meta.sourceId == id && r.meta.hostLower == lower && r.meta.hostUpper == upper
    case ItemCall(id, index, tick, wrapCount, duration, sync, payload) =>
      && r.rtype.ItemType? && r.meta.ItemMeta? && r.payload == payload
      && r.meta.sourceId == id && r.meta.itemIndex == index && r.meta.provisional && r.meta.tick == tick
      && r.meta.wrapCount == wrapCount && r.meta.durationTicks == duration && r.meta.syncEventId == sync
    case EndCall(id, outcome) =>
      r.rtype.EndType? && r.meta.EndMeta? && r.payload == [] && r.meta.sourceId == id && r.meta.outcome == outcome
    case CommitCall(size, digest) =>
      && r.rtype.CommitType? && r.meta.CommitMeta? && r.payload == []
      && r.meta.sessionId == sessionId && r.meta.sessionJsonBytes == size && r.meta.digest == digest
    case AbortCall(reason) =>
      r.rtype.AbortType? && r.meta.AbortMeta? && r.payload == [] && r.meta.sessionId == sessionId && r.meta.reason == reason
  }

  // ---------------------------------------------------------------- every finished record is that of a call

  /** The attempted calls of which a record was finished. */
  function Taken(H: Hash, session: Session, attempts: seq<Attempt>): seq<Call>
    requires EncRun(H, session, attempts).Some?
  {
    if attempts == [] then []
    else
      var init, last := attempts[..|attempts| - 1], attempts[|attempts| - 1];
      if |EncRun(H, session, attempts).value.1| > |EncRun(H, session, init).value.1| then Taken(H, session, init) + [last.call]
      else Taken(H, session, init)
  }

  predicate EndsInEof(written: seq<Record>) { written != [] && written[|written| - 1].rtype.EofType? }

  /** The records after SESSION and before EOF. */
  function Between(written: seq<Record>): seq<Record> {
    if written == [] then [] else if EndsInEof(written[1..]) then written[1..|written| - 1] else written[1..]
  }

  /** What was written, told by the calls that were taken: SESSION, one record for each call, and EOF after the last. */
  ghost predicate Told(H: Hash, session: Session, calls: seq<Call>, written: seq<Record>, terminal: bool) {
    && written != [] && written[0].rtype.SessionType? && written[0].meta == SessionMeta(session)
    && |Between(written)| == |calls| && (forall k | 0 <= k < |calls| :: Conveys(H, session.sessionId, calls[k], Between(written)[k]))
    && (terminal <==> EndsInEof(written[1..]))
    && (terminal ==> written[|written| - 1].meta == EofMeta(session.sessionId))
    && forall i | 0 <= i < |written| :: written[i].recordSeq == i
  }

  lemma FirstConveys(H: Hash, s: EncState, call: Call)
    requires CallOk(s, call)
    ensures var r := Record(CallType(call), s.nextRecord, CallMeta(H, s, call), CallPayload(call));
            Conveys(H, s.sessionId, call, r) && !r.rtype.EofType? && r.recordSeq == s.nextRecord
  {
    hide ItemTimeOk, FormatOk, CommitReady;
  }

  lemma ToldFirst(H: Hash, session: Session)
    ensures Told(H, session, [], [SessionRecord(session)], false)
  {
    assert [SessionRecord(session)][1..] == [];
  }

  lemma ToldMore(H: Hash, session: Session, calls: seq<Call>, written: seq<Record>, call: Call, r: Record)
    requires Told(H, session, calls, written, false) && Conveys(H, session.sessionId, call, r) && !r.rtype.EofType?
    requires r.recordSeq == |written|
    ensures Told(H, session, calls + [call], written + [r], false)
  {
    hide Conveys;
    var more := written + [r];
    assert more[1..] == written[1..] + [r] && Between(more) == Between(written) + [r];
  }

  lemma ToldEof(H: Hash, session: Session, calls: seq<Call>, written: seq<Record>, r: Record)
    requires Told(H, session, calls, written, false) && r == Record(EofType, |written|, EofMeta(session.sessionId), [])
    ensures Told(H, session, calls, written + [r], true)
  {
    hide Conveys;
    var more := written + [r];
    assert more[1..] == written[1..] + [r] && more[1..|more| - 1] == written[1..];
    assert Between(more) == written[1..] == Between(written);
  }

  ghost predicate RunTold(H: Hash, session: Session, calls: seq<Call>, s: EncState, written: seq<Record>) {
    && Told(H, session, calls, written, s.status.Terminal?) && s.sessionId == session.sessionId && s.nextRecord == |written|
  }

  lemma AfterKeeps(s: EncState, call: Call)
    requires CallOk(s, call)
    ensures AfterCall(s, call).sessionId == s.sessionId && AfterCall(s, call).status == s.status
  {
    hide ItemTimeOk, FormatOk, CommitReady;
  }

  lemma AttemptTold(H: Hash, session: Session, calls: seq<Call>, s: EncState, written: seq<Record>, call: Call, transport: Transport)
    requires RunTold(H, session, calls, s, written)
    ensures var step := EncStep(H, s, call, transport);
            RunTold(H, session, if step.records == [] then calls else calls + [call], step.state, written + step.records)
  {
    hide Told, Conveys, CallOk, AfterCall, CallMeta;
    var step := EncStep(H, s, call, transport);
    if step.records == [] {
      assert written + step.records == written;
    } else {
      var first := step.records[0];
      FirstConveys(H, s, call);
      AfterKeeps(s, call);
      ToldMore(H, session, calls, written, call, first);
      if |step.records| == 1 {
        assert step.records == [first];
      } else {
        var eof := step.records[1];
        ToldEof(H, session, calls + [call], written + [first], eof);
        assert written + step.records == written + [first] + [eof];
      }
    }
  }

  lemma {:induction false} RunIsTold(H: Hash, session: Session, attempts: seq<Attempt>)
    requires EncRun(H, session, attempts).Some?
    ensures var (s, written) := EncRun(H, session, attempts).value; RunTold(H, session, Taken(H, session, attempts), s, written)
    decreases |attempts|
  {
    hide SessionOk, EncStep, Told, NewSources;
    if attempts == [] {
      ToldFirst(H, session);
    } else {
      var init, last := attempts[..|attempts| - 1], attempts[|attempts| - 1];
      RunIsTold(H, session, init);
      var (s, written) := EncRun(H, session, init).value;
      AttemptTold(H, session, Taken(H, session, init), s, written, last.call, last.transport);
    }
  }

  /**
    For every session, every sequence of calls and every way the transport fails: the finished records are SESSION, then one
    for each call that was taken, in order and carrying all its arguments, then EOF exactly if the encoder terminated; and they are
    numbered from zero.
   */
  lemma RecordsConveyCalls(H: Hash, session: Session, attempts: seq<Attempt>)
    requires EncRun(H, session, attempts).Some?
    ensures var (s, written) := EncRun(H, session, attempts).value;
            Told(H, session, Taken(H, session, attempts), written, s.status.Terminal?)
  {
    hide SessionOk, EncRun, Told, Taken;
    RunIsTold(H, session, attempts);
  }

  // ---------------------------------------------------------------- which calls are taken

  /** What the decoder must find in a record for the encoder to have taken the call. */
  lemma AcceptedWasOk(H: Hash, s: EncState, d: DecState, call: Call, r: Record)
    requires SameState(s, d) && d.phase.Open? && LimitsOk(s.sources) && Conveys(H, s.sessionId, call, r)
    requires WirePayloadOk(r.rtype, |r.payload|) && Accept(H, d, r).Some?
    ensures CallOk(s, call)
  {
    hide ItemTimeOk, FormatOk, CommitReady, LimitsOk;
    match call
    case RadarConfigCall(_, _, _) =>
    case RadarStartCall(_, _, _) =>
    case ItemCall(_, _, _, _, _, _, _) =>
    case EndCall(_, _) =>
    case CommitCall(_, _) =>
    case AbortCall(_) =>
  }

  lemma UnbrokenAccepts(H: Hash, d: DecState, r: Record)
    requires d.phase.Open? && !DecStep(H, d, Framed(r)).phase.Broken?
    ensures WirePayloadOk(r.rtype, |r.payload|) && Accept(H, d, r).Some? && r.recordSeq == d.nextRecord
  {
    hide Accept, WirePayloadOk;
  }

  /** Some record that carries the call may follow what has been written. */
  ghost predicate MayFollow(H: Hash, sessionId: string, written: seq<Record>, call: Call) {
    exists r :: Conveys(H, sessionId, call, r) && Admitted(H, written + [r])
  }

  lemma StepWrites(H: Hash, s: EncState, call: Call)
    requires s.status.Active? && s.nextRecord < MAX_UINT64
    ensures EncStep(H, s, call, AllWritten).records != [] <==> CallOk(s, call)
    ensures CallOk(s, call) ==>
              EncStep(H, s, call, AllWritten).records[0] == Record(CallType(call), s.nextRecord, CallMeta(H, s, call), CallPayload(call))
  {
    hide CallOk, CallMeta, AfterCall;
  }

  lemma OpenPhase(H: Hash, s: EncState, written: seq<Record>)
    requires InStep(H, s, written) && s.status.Active?
    ensures DecAll(H, written).phase.Open? && SameState(s, DecAll(H, written)) && LimitsOk(s.sources)
  {
    hide DecAll, LimitsOk, SameState;
  }

  /**
    An active encoder whose writer works takes a call if and only if some record that carries it is admissible after everything
    written so far: it refuses nothing that a decoder would accept, and takes nothing that one would refuse.
   */
  lemma TakesIffAdmissible(H: Hash, session: Session, attempts: seq<Attempt>, call: Call)
    requires EncRun(H, session, attempts).Some?
    requires EncRun(H, session, attempts).value.0.status.Active? && EncRun(H, session, attempts).value.0.nextRecord < MAX_UINT64
    ensures var (s, written) := EncRun(H, session, attempts).value;
            EncStep(H, s, call, AllWritten).records != [] <==> MayFollow(H, session.sessionId, written, call)
  {
    hide SessionOk, EncRun, EncStep, InStep, Told, Conveys, Admitted, DecAll, DecStep, CallOk, CallMeta, Accept, Taken, WirePayloadOk;
    hide AfterCall, LimitsOk, SameState;
    var (s, written) := EncRun(H, session, attempts).value;
    RunInStep(H, session, attempts);
    RunIsTold(H, session, attempts);
    OpenPhase(H, s, written);
    StepWrites(H, s, call);
    var d := DecAll(H, written);
    if CallOk(s, call) {
      var r := EncStep(H, s, call, AllWritten).records[0];
      FirstConveys(H, s, call);
      FirstAccepted(H, s, d, call);
      ReadOneMore(H, written, r);
      DecoderExact(H, written + [r]);
      assert Conveys(H, session.sessionId, call, r) && Admitted(H, written + [r]);
    }
    if r :| Conveys(H, session.sessionId, call, r) && Admitted(H, written + [r]) {
      DecoderExact(H, written + [r]);
      ReadOneMore(H, written, r);
      UnbrokenAccepts(H, d, r);
      AcceptedWasOk(H, s, d, call, r);
    }
  }

  // ---------------------------------------------------------------- after a failure

  /** A call fails exactly if it leaves the encoder poisoned or found it inactive. */
  lemma FailureInactivates(H: Hash, s: EncState, call: Call, transport: Transport)
    ensures var step := EncStep(H, s, call, transport);
            && (s.status.Active? && !step.ok ==> step.state.status.Poisoned?)
            && (s.status.Active? && step.ok ==>
                  if call.CommitCall? || call.AbortCall? then step.state.status.Terminal? else step.state.status.Active?)
            && (!s.status.Active? ==> !step.ok && step.state == s && step.records == [])
  {
    hide CallMeta, ItemTimeOk, FormatOk, CommitReady;
    if CallOk(s, call) {
      AfterKeeps(s, call);
    }
    hide CallOk, AfterCall;
  }

  /** After a failed call, and after Commit or Abort, nothing more is written, whatever is called. */
  lemma {:induction false} NothingAfterFailure(H: Hash, session: Session, attempts: seq<Attempt>, n: nat)
    requires n <= |attempts| && EncRun(H, session, attempts[..n]).Some? && !EncRun(H, session, attempts[..n]).value.0.status.Active?
    ensures EncRun(H, session, attempts) == EncRun(H, session, attempts[..n])
    decreases |attempts|
  {
    hide EncStep, SessionOk;
    if n < |attempts| {
      var init, last := attempts[..|attempts| - 1], attempts[|attempts| - 1];
      assert init[..n] == attempts[..n];
      NothingAfterFailure(H, session, init, n);
      var (s, written) := EncRun(H, session, init).value;
      FailureInactivates(H, s, last.call, last.transport);
      assert written + [] == written;
    } else {
      assert attempts[..n] == attempts;
    }
  }
}
