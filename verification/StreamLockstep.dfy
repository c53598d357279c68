/**
  The encoder and the decoder in lockstep: whatever is called and however the transport fails, the decoder accepts every
  record the encoder finished and holds the same state, and it completes exactly when the encoder terminated properly.
 */
module StreamLockstep {
  import opened Bytes
  import opened Common
  import opened Sensors
  import opened StreamModel
  import opened StreamLanguage

  /** Same session, same per-source progress, same flags, same next sequence number. */
  predicate SameState(s: EncState, d: DecState) {
    && d.sessionId == s.sessionId && d.sources == s.sources && d.nextRecord == s.nextRecord
    && d.configWritten == s.configWritten && d.recordsStarted == s.recordsStarted && d.endingStarted == s.endingStarted
  }

  predicate SamePhase(s: EncState, d: DecState) {
    match s.status
    case Active => d.phase.Open?
    case Terminal => d.phase.EofSeen?
    case Poisoned => d.phase.Open? || d.phase.Closing?
  }

  predicate LimitsOk(sources: map<string, Progress>) {
    forall id | id in sources :: ValidLimits(sources[id].contract.limits)
  }

  /** The decoder takes the first record of a call exactly as the encoder accounts for it. */
  lemma FirstAccepted(H: Hash, s: EncState, d: DecState, call: Call)
    requires SameState(s, d) && d.phase.Open? && LimitsOk(s.sources) && CallOk(s, call) && s.nextRecord < MAX_UINT64
    ensures var d' := DecStep(H, d, Framed(Record(CallType(call), s.nextRecord, CallMeta(H, s, call), CallPayload(call))));
            && SameState(AfterCall(s, call).(nextRecord := s.nextRecord + 1), d')
            && (if call.CommitCall? || call.AbortCall? then d'.phase.Closing? else d'.phase.Open?)
  {
    hide ItemTimeOk, FormatOk, CommitReady;
    match call
    case RadarConfigCall(_, _, payload) => HashLength(H, payload);
    case EndCall(id, _) => HashLength(H, s.sources[id].hashed);
    case _ =>
  }

  lemma LimitsKept(s: EncState, call: Call)
    requires LimitsOk(s.sources) && CallOk(s, call)
    ensures LimitsOk(AfterCall(s, call).sources)
    ensures AfterCall(s, call).sessionId == s.sessionId && AfterCall(s, call).status == s.status
  {
    hide ItemTimeOk, FormatOk, CommitReady, ValidLimits;
  }

  ghost predicate InStep(H: Hash, s: EncState, written: seq<Record>) {
    LimitsOk(s.sources) && SameState(s, DecAll(H, written)) && SamePhase(s, DecAll(H, written))
  }

  lemma ReadOneMore(H: Hash, written: seq<Record>, r: Record)
    ensures DecAll(H, written + [r]) == DecStep(H, DecAll(H, written), Framed(r))
  {
    assert (written + [r])[..|written|] == written;
  }

  lemma AttemptInStep(H: Hash, s: EncState, written: seq<Record>, call: Call, transport: Transport)
    requires InStep(H, s, written)
    ensures var step := EncStep(H, s, call, transport); InStep(H, step.state, written + step.records)
  {
    hide DecAll, DecStep, CallOk, AfterCall, CallMeta, LimitsOk;
    var step := EncStep(H, s, call, transport);
    if step.records == [] {
      assert written + step.records == written;
    } else {
      var first := step.records[0];
      ReadOneMore(H, written, first);
      FirstAccepted(H, s, DecAll(H, written), call);
      LimitsKept(s, call);
      if |step.records| == 1 {
        assert written + step.records == written + [first];
      } else {
        ReadOneMore(H, written + [first], step.records[1]);
        assert written + step.records == written + [first] + [step.records[1]];
        EofAccepted(H, DecAll(H, written + [first]), step.records[1]);
      }
    }
  }

  lemma EofAccepted(H: Hash, d: DecState, r: Record)
    requires d.phase.Closing? && d.nextRecord < MAX_UINT64
    requires r == Record(EofType, d.nextRecord, EofMeta(d.sessionId), [])
    ensures DecStep(H, d, Framed(r)) == d.(phase := EofSeen, nextRecord := d.nextRecord + 1)
  {
  }

  lemma SessionAccepted(H: Hash, session: Session)
    requires SessionOk(session)
    ensures InStep(H, NewEncoder(session).value, [SessionRecord(session)])
  {
    hide SourceIdOk, FormatOk, OpaqueIdOk, SessionIdOk, FilenameOk, NewSources;
    ReadOneMore(H, [], SessionRecord(session));
    assert [] + [SessionRecord(session)] == [SessionRecord(session)];
    assert DecAll(H, []) == NewDecoder;
    DeclaredLimits(session);
  }

  lemma DeclaredLimits(session: Session)
    requires SessionOk(session)
    ensures LimitsOk(NewSources(session))
  {
    hide SourceIdOk, FormatOk, OpaqueIdOk, SessionIdOk, FilenameOk, ValidLimits;
    var sources := NewSources(session);
    forall id | id in sources
      ensures ValidLimits(sources[id].contract.limits)
    {
      DeclaredIsOneOf(session.sources, id);
    }
  }

  /** An accepted session has one source for each declaration, under its own identifier and with its own contract. */
  lemma SourcesAreDeclared(session: Session, i: nat)
    requires SessionOk(session) && i < |session.sources|
    ensures var s := session.sources[i]; s.id in NewSources(session) && NewSources(session)[s.id] == NewProgress(s)
    ensures forall j | 0 <= j < |session.sources| && j != i :: session.sources[j].id != session.sources[i].id
    ensures NewSources(session).Keys == SourceIds(session)
  {
    hide SourceOk, SessionIdOk;
    DeclaredIsOneOf(session.sources, session.sources[i].id);
    var s := Declared(session.sources, session.sources[i].id);
    var k :| 0 <= k < |session.sources| && session.sources[k] == s;
    assert k == i;
  }

  lemma {:induction false} DeclaredIsOneOf(sources: seq<Source>, id: string)
    requires exists i :: 0 <= i < |sources| && sources[i].id == id
    ensures Declared(sources, id) in sources && Declared(sources, id).id == id
    decreases |sources|
  {
    if sources[0].id != id {
      var i :| 0 <= i < |sources| && sources[i].id == id;
      assert sources[1..][i - 1].id == id;
      DeclaredIsOneOf(sources[1..], id);
    }
  }

  lemma {:induction false} RunInStep(H: Hash, session: Session, attempts: seq<Attempt>)
    requires EncRun(H, session, attempts).Some?
    ensures var (s, written) := EncRun(H, session, attempts).value; InStep(H, s, written)
    decreases |attempts|
  {
    hide SessionOk, InStep, EncStep;
    if attempts == [] {
      SessionAccepted(H, session);
    } else {
      RunInStep(H, session, attempts[..|attempts| - 1]);
      var (s, written) := EncRun(H, session, attempts[..|attempts| - 1]).value;
      var last := attempts[|attempts| - 1];
      AttemptInStep(H, s, written, last.call, last.transport);
    }
  }

  lemma EofOnTransport(H: Hash, s: EncState, d: DecState)
    requires SamePhase(s, d)
    ensures DecStep(H, d, TransportEof).phase.Completed? <==> s.status.Terminal?
  {
  }

  /**
    Lockstep. For every session contract, every sequence of encoder calls and every way the transport fails, the decoder
    accepts each record the encoder finished and agrees with it on per-source progress and flags; and a stream that ends
    here completes if and only if the encoder reached its terminal state through Commit or Abort.
   */
  lemma Lockstep(H: Hash, session: Session, attempts: seq<Attempt>)
    requires EncRun(H, session, attempts).Some?
    ensures var (s, written) := EncRun(H, session, attempts).value;
            var d := DecAll(H, written);
            && SameState(s, d) && SamePhase(s, d)
            && (DecStep(H, d, TransportEof).phase.Completed? <==> s.status.Terminal?)
  {
    hide SessionOk, EncStep, LimitsOk;
    RunInStep(H, session, attempts);
    var (s, written) := EncRun(H, session, attempts).value;
    EofOnTransport(H, s, DecAll(H, written));
  }
}
