/**
  The Encoder and Decoder objects (internal/multisensorstream/encoder.go, decoder.go). Every method performs exactly one step
  of StreamModel; Transfer and DecodeStream run them on any calls and any bytes and draw the results of
  StreamLanguage, StreamLockstep and StreamWire for the objects.
 */
module StreamObjects {
  import opened Bytes
  import opened Common
  import opened Sensors
  import opened StreamModel
  import opened StreamLanguage
  import opened StreamLockstep
  import opened StreamWire
  import opened StreamCalls

  /** The loop of validateCommitOutcomes, which both objects carry. */
  method ValidateCommitOutcomes(sources: map<string, Progress>) returns (ok: bool)
    ensures ok == CommitReady(sources)
  {
    var remaining := sources.Keys;
    while remaining != {}
      invariant remaining <= sources.Keys
      invariant forall id | id in sources && id !in remaining :: MayCommit(sources[id])
      decreases remaining
    {
      var id :| id in remaining;
      var source := sources[id];
      if || !source.ended || (source.contract.required && source.outcome != Complete)
         || (source.contract.kind.Radar? && source.outcome == Complete && source.nextItem != 0 && !source.radarStarted) {
        return false;
      }
      remaining := remaining - {id};
    }
    return true;
  }

  class Encoder {
    const H: Hash
    const sessionId: string
    var sources: map<string, Progress>
    var nextRecord: nat
    var configWritten: bool
    var recordsStarted: bool
    var endingStarted: bool
    var status: EncStatus
    var output: seq<Record>  // every record the writer took whole

    ghost function Value(): EncState
      reads this
    {
      EncState(sessionId, sources, nextRecord, configWritten, recordsStarted, endingStarted, status)
    }

    /** NewEncoder: refuses a session that fails validation, and gives up when the writer does not take SESSION. */
    static method Create(H: Hash, session: Session, taken: bool) returns (encoder: Encoder?)
      ensures encoder == null <==> NewEncoder(session).None? || !taken
      ensures encoder != null ==>
                && fresh(encoder) && encoder.H == H && NewEncoder(session) == Some(encoder.Value())
                && encoder.output == [SessionRecord(session)]
    {
      hide SessionOk;
      if !SessionOk(session) || !taken {
        return null;
      }
      encoder := new Encoder(H, session);
    }

    /** An encoder whose writer took the SESSION record. */
    constructor (H: Hash, session: Session)
      requires SessionOk(session)
      ensures this.H == H && NewEncoder(session) == Some(Value()) && output == [SessionRecord(session)]
    {
      this.H, this.sessionId, this.sources := H, session.sessionId, NewSources(session);
      nextRecord, configWritten, recordsStarted, endingStarted, status := 1, false, false, false, Active;
      output := [SessionRecord(session)];
    }

    method Poison()
      modifies this`status
      ensures status == Poisoned
    {
      status := Poisoned;
    }

    method Emit(t: RecordType, meta: Meta, payload: seq<byte>, taken: bool) returns (ok: bool)
      modifies this`nextRecord, this`output
      ensures ok == (old(nextRecord) < MAX_UINT64 && taken)
      ensures !ok ==> unchanged(this)
      ensures ok ==> nextRecord == old(nextRecord) + 1 && output == old(output) + [Record(t, old(nextRecord), meta, payload)]
    {
      if nextRecord >= MAX_UINT64 || !taken {
        return false;
      }
      output := output + [Record(t, nextRecord, meta, payload)];
      nextRecord := nextRecord + 1;
      return true;
    }

    method WriteRadarConfig(id: string, format: string, payload: seq<byte>, transport: Transport) returns (ok: bool)
      modifies this
      ensures Performed(old(Value()), old(output), RadarConfigCall(id, format, payload), transport, ok)
    {
      hide FormatOk;
      if status != Active {
        return false;
      }
      if configWritten || recordsStarted || id !in sources || !sources[id].contract.kind.Radar? || !FormatOk(format)
         || |payload| == 0 || |payload| > MAX_RADAR_CONFIG_BYTES {
        Poison();
        return false;
      }
      ok := Emit(RadarConfigType, RadarConfigMeta(id, format, |payload|, H(payload)), payload, !transport.NoneWritten?);
      if !ok {
        Poison();
        return false;
      }
      configWritten := true;
    }

    method WriteRadarStart(id: string, lower: u64, upper: u64, transport: Transport) returns (ok: bool)
      modifies this
      ensures Performed(old(Value()), old(output), RadarStartCall(id, lower, upper), transport, ok)
    {
      if status != Active {
        return false;
      }
      if || id !in sources || !sources[id].contract.kind.Radar? || sources[id].radarStarted
         || sources[id].nextItem != 0 || sources[id].ended || endingStarted || lower > upper {
        Poison();
        return false;
      }
      ok := Emit(RadarStartType, RadarStartMeta(id, lower, upper), [], !transport.NoneWritten?);
      if !ok {
        Poison();
        return false;
      }
      sources := sources[id := sources[id].(radarStarted := true)];
    }

    method WriteItem(id: string, index: u64, tick: u64, wrapCount: u64, duration: u64, sync: u64, payload: seq<byte>,
                     transport: Transport) returns (ok: bool)
      modifies this
      ensures Performed(old(Value()), old(output), ItemCall(id, index, tick, wrapCount, duration, sync, payload), transport, ok)
    {
      hide ItemTimeOk;
      if status != Active {
        return false;
      }
      if || id !in sources || sources[id].ended || (sources[id].contract.kind.Radar? && !sources[id].radarStarted)
         || endingStarted || index != sources[id].nextItem
         || |payload| == 0 || |payload| > sources[id].contract.limits.maxItemBytes
         || sources[id].nextItem >= sources[id].contract.limits.maxItems
         || |payload| > sources[id].contract.limits.maxPayloadBytes - sources[id].payloadBytes
         || !ItemTimeOk(sources[id].contract.clock, tick, wrapCount, duration) {
        Poison();
        return false;
      }
      ok := Emit(ItemType, ItemMeta(id, index, true, tick, wrapCount, duration, sync), payload, !transport.NoneWritten?);
      if !ok {
        Poison();
        return false;
      }
      sources := sources[id := AddItem(sources[id], payload)];
      recordsStarted := true;
    }

    method EndSource(id: string, outcome: Outcome, transport: Transport) returns (ok: bool)
      modifies this
      ensures Performed(old(Value()), old(output), EndCall(id, outcome), transport, ok)
    {
      if status != Active {
        return false;
      }
      if id !in sources || sources[id].ended || !OutcomeOk(outcome) {
        Poison();
        return false;
      }
      ok := Emit(EndType, EndMeta(id, outcome, sources[id].nextItem, sources[id].payloadBytes, H(sources[id].hashed)), [],
                 !transport.NoneWritten?);
      if !ok {
        Poison();
        return false;
      }
      sources := sources[id := sources[id].(ended := true, outcome := outcome)];
      recordsStarted, endingStarted := true, true;
    }

    method Commit(size: u64, digest: Digest, transport: Transport) returns (ok: bool)
      modifies this
      ensures Performed(old(Value()), old(output), CommitCall(size, digest), transport, ok)
    {
      hide CommitReady;
      if status != Active {
        return false;
      }
      var ready := ValidateCommitOutcomes(sources);
      if !ready || !ArtifactOk(size) {
        Poison();
        return false;
      }
      ok := EmitTerminal(CommitType, CommitMeta(sessionId, size, digest), transport);
    }

    method Abort(reason: AbortReason, transport: Transport) returns (ok: bool)
      modifies this
      ensures Performed(old(Value()), old(output), AbortCall(reason), transport, ok)
    {
      if status != Active {
        return false;
      }
      if !ReasonOk(reason) {
        Poison();
        return false;
      }
      ok := EmitTerminal(AbortType, AbortMeta(sessionId, reason), transport);
    }

    method EmitTerminal(t: RecordType, meta: Meta, transport: Transport) returns (ok: bool)
      requires status.Active?
      modifies this`nextRecord, this`output, this`status
      ensures ok == (old(nextRecord) + 1 < MAX_UINT64 && transport.AllWritten?)
      ensures status == if ok then Terminal else Poisoned
      ensures var n := if old(nextRecord) >= MAX_UINT64 || transport.NoneWritten? then 0 else if ok then 2 else 1;
              && nextRecord == old(nextRecord) + n
              && output == old(output) + [Record(t, old(nextRecord), meta, []),
                                          Record(EofType, old(nextRecord) + 1, EofMeta(sessionId), [])][..n]
    {
      ok := Emit(t, meta, [], !transport.NoneWritten?);
      if !ok {
        Poison();
        return false;
      }
      ok := Emit(EofType, EofMeta(sessionId), [], !transport.OneWritten?);
      if !ok {
        Poison();
        return false;
      }
      status := Terminal;
    }

    /** The object did exactly what EncStep says from the given state and output. */
    ghost predicate Performed(before: EncState, written: seq<Record>, call: Call, transport: Transport, ok: bool)
      reads this
    {
      var step := EncStep(H, before, call, transport);
      Value() == step.state && output == written + step.records && ok == step.ok
    }
  }

  class Decoder {
    const H: Hash
    var phase: DecPhase
    var sessionId: string
    var sources: map<string, Progress>
    var nextRecord: nat
    var configWritten: bool
    var recordsStarted: bool
    var endingStarted: bool

    ghost function Value(): DecState
      reads this
    {
      DecState(phase, sessionId, sources, nextRecord, configWritten, recordsStarted, endingStarted)
    }

    constructor (H: Hash)
      ensures this.H == H && Value() == NewDecoder
    {
      this.H := H;
      phase, sessionId, sources, nextRecord := Initial, "", map[], 0;
      configWritten, recordsStarted, endingStarted := false, false, false;
    }

    /** Read, given what readRecord delivered. */
    method Read(input: Input) returns (ok: bool)
      modifies this
      ensures Value() == DecStep(H, old(Value()), input)
      ensures ok <==> !old(phase).Broken? && !old(phase).Completed? && input.Framed? && !phase.Broken?
    {
      hide WirePayloadOk;
      ok := false;
      if phase.Broken? || phase.Completed? {
        return;
      }
      match input
      case TransportEof =>
        phase := if phase.EofSeen? then Completed else Broken;
      case Malformed =>
        phase := Broken;
      case Framed(r) =>
        if !WirePayloadOk(r.rtype, |r.payload|) || r.recordSeq != nextRecord || r.recordSeq >= MAX_UINT64 {
          phase := Broken;
          return;
        }
        AcceptKeepsPhase(H, Value(), r);
        ok := Dispatch(r);
        if !ok {
          phase := Broken;
          return;
        }
        nextRecord := nextRecord + 1;
    }

    /** An accept function either took the record, making exactly the specified change, or left the decoder alone. */
    ghost predicate Took(before: DecState, after: Option<DecState>, ok: bool)
      reads this
    {
      if ok then after == Some(Value()) else after.None? && Value() == before
    }

    method Dispatch(r: Record) returns (ok: bool)
      modifies this
      ensures Took(old(Value()), Accept(H, old(Value()), r), ok)
    {
      hide AcceptSession, AcceptRadarConfig, AcceptRadarStart, AcceptItem, AcceptEnd, AcceptCommit, AcceptAbort, AcceptEof;
      match r.rtype
      case SessionType => ok := TakeSession(r);
      case RadarConfigType => ok := TakeRadarConfig(r);
      case RadarStartType => ok := TakeRadarStart(r);
      case ItemType => ok := TakeItem(r);
      case EndType => ok := TakeEnd(r);
      case CommitType => ok := TakeCommit(r);
      case AbortType => ok := TakeAbort(r);
      case EofType => ok := TakeEof(r);
    }

    method TakeSession(r: Record) returns (ok: bool)
      modifies this
      ensures Took(old(Value()), AcceptSession(old(Value()), r), ok)
    {
      hide SessionOk, NewSources;
      if !phase.Initial? || r.recordSeq != 0 || !r.meta.SessionMeta? || !SessionOk(r.meta.session) {
        return false;
      }
      sessionId, sources, phase := r.meta.session.sessionId, NewSources(r.meta.session), Open;
      return true;
    }

    method TakeRadarConfig(r: Record) returns (ok: bool)
      modifies this
      ensures Took(old(Value()), AcceptRadarConfig(H, old(Value()), r), ok)
    {
      hide FormatOk;
      if || !phase.Open? || configWritten || recordsStarted || !r.meta.RadarConfigMeta?
         || r.meta.sourceId !in sources || !sources[r.meta.sourceId].contract.kind.Radar?
         || !FormatOk(r.meta.format) || r.meta.sizeBytes != |r.payload| || !DigestOk(r.meta.digest)
         || r.meta.digest != H(r.payload) {
        return false;
      }
      configWritten := true;
      return true;
    }

    method TakeRadarStart(r: Record) returns (ok: bool)
      modifies this
      ensures Took(old(Value()), AcceptRadarStart(old(Value()), r), ok)
    {
      if || !phase.Open? || endingStarted || !r.meta.RadarStartMeta? || r.meta.sourceId !in sources
         || !sources[r.meta.sourceId].contract.kind.Radar? {
        return false;
      }
      var source := sources[r.meta.sourceId];
      if source.radarStarted || source.nextItem != 0 || source.ended || r.meta.hostLower > r.meta.hostUpper {
        return false;
      }
      sources := sources[r.meta.sourceId := source.(radarStarted := true)];
      return true;
    }

    method TakeItem(r: Record) returns (ok: bool)
      modifies this
      ensures Took(old(Value()), AcceptItem(old(Value()), r), ok)
    {
      hide ItemTimeOk;
      if || !phase.Open? || endingStarted || !r.meta.ItemMeta? || !r.meta.provisional
         || r.meta.sourceId !in sources || sources[r.meta.sourceId].ended {
        return false;
      }
      var source := sources[r.meta.sourceId];
      if || (source.contract.kind.Radar? && !source.radarStarted) || r.meta.itemIndex != source.nextItem
         || source.nextItem >= source.contract.limits.maxItems || |r.payload| > source.contract.limits.maxItemBytes
         || |r.payload| > source.contract.limits.maxPayloadBytes - source.payloadBytes
         || !ItemTimeOk(source.contract.clock, r.meta.tick, r.meta.wrapCount, r.meta.durationTicks) {
        return false;
      }
      sources := sources[r.meta.sourceId := AddItem(source, r.payload)];
      recordsStarted := true;
      return true;
    }

    method TakeEnd(r: Record) returns (ok: bool)
      modifies this
      ensures Took(old(Value()), AcceptEnd(H, old(Value()), r), ok)
    {
      if || !phase.Open? || !r.meta.EndMeta? || r.meta.sourceId !in sources || sources[r.meta.sourceId].ended
         || !DigestOk(r.meta.digest) {
        return false;
      }
      var source := sources[r.meta.sourceId];
      if || !OutcomeOk(r.meta.outcome) || r.meta.itemCount != source.nextItem || r.meta.payloadBytes != source.payloadBytes
         || r.meta.digest != H(source.hashed) {
        return false;
      }
      sources := sources[r.meta.sourceId := source.(ended := true, outcome := r.meta.outcome)];
      recordsStarted, endingStarted := true, true;
      return true;
    }

    method TakeCommit(r: Record) returns (ok: bool)
      modifies this
      ensures Took(old(Value()), AcceptCommit(old(Value()), r), ok)
    {
      hide CommitReady;
      if !phase.Open? {
        return false;
      }
      var ready := ValidateCommitOutcomes(sources);
      if || !ready || !r.meta.CommitMeta? || r.meta.sessionId != sessionId || !DigestOk(r.meta.digest)
         || !ArtifactOk(r.meta.sessionJsonBytes) {
        return false;
      }
      phase := Closing;
      return true;
    }

    method TakeAbort(r: Record) returns (ok: bool)
      modifies this
      ensures Took(old(Value()), AcceptAbort(old(Value()), r), ok)
    {
      if !phase.Open? || !r.meta.AbortMeta? || r.meta.sessionId != sessionId || !ReasonOk(r.meta.reason) {
        return false;
      }
      phase := Closing;
      return true;
    }

    method TakeEof(r: Record) returns (ok: bool)
      modifies this
      ensures Took(old(Value()), AcceptEof(old(Value()), r), ok)
    {
      if !phase.Closing? || !r.meta.EofMeta? || r.meta.sessionId != sessionId {
        return false;
      }
      phase := EofSeen;
      return true;
    }
  }

  lemma AcceptKeepsPhase(H: Hash, d: DecState, r: Record)
    requires !d.phase.Broken?
    ensures Accept(H, d, r).Some? ==> !Accept(H, d, r).value.phase.Broken? && Accept(H, d, r).value.nextRecord == d.nextRecord
  {
    hide SessionOk, NewSources, CommitReady, ItemTimeOk, FormatOk;
  }

  // ---------------------------------------------------------------- whole sessions on the objects

  /** One attempted call. */
  method Perform(encoder: Encoder, call: Call, transport: Transport) returns (ok: bool)
    modifies encoder
    ensures encoder.Performed(old(encoder.Value()), old(encoder.output), call, transport, ok)
  {
    hide EncStep;
    match call
    case RadarConfigCall(id, format, payload) => ok := encoder.WriteRadarConfig(id, format, payload, transport);
    case RadarStartCall(id, lower, upper) => ok := encoder.WriteRadarStart(id, lower, upper, transport);
    case ItemCall(id, index, tick, wrapCount, duration, sync, payload) =>
      ok := encoder.WriteItem(id, index, tick, wrapCount, duration, sync, payload, transport);
    case EndCall(id, outcome) => ok := encoder.EndSource(id, outcome, transport);
    case CommitCall(size, digest) => ok := encoder.Commit(size, digest, transport);
    case AbortCall(reason) => ok := encoder.Abort(reason, transport);
  }

  lemma RunOneMore(H: Hash, session: Session, attempts: seq<Attempt>, i: nat, s: EncState, written: seq<Record>)
    requires i < |attempts| && EncRun(H, session, attempts[..i]) == Some((s, written))
    ensures var step := EncStep(H, s, attempts[i].call, attempts[i].transport);
            EncRun(H, session, attempts[..i + 1]) == Some((step.state, written + step.records))
  {
    hide EncStep;
    assert attempts[..i + 1][..i] == attempts[..i];
  }

  /** Drives a new encoder through any calls and transport failures. */
  method Drive(H: Hash, session: Session, attempts: seq<Attempt>) returns (encoder: Encoder?)
    ensures encoder == null <==> !SessionOk(session)
    ensures encoder != null ==>
              fresh(encoder) && encoder.H == H && EncRun(H, session, attempts) == Some((encoder.Value(), encoder.output))
  {
    hide SessionOk, EncStep;
    encoder := Encoder.Create(H, session, true);
    if encoder == null {
      return;
    }
    assert attempts[..0] == [];
    for i := 0 to |attempts|
      invariant fresh(encoder) && encoder.H == H
      invariant EncRun(H, session, attempts[..i]) == Some((encoder.Value(), encoder.output))
    {
      RunOneMore(H, session, attempts, i, encoder.Value(), encoder.output);
      var _ := Perform(encoder, attempts[i].call, attempts[i].transport);
    }
    assert attempts[..|attempts|] == attempts;
  }

  /** Feeds a new decoder any records: it stays unbroken exactly when they are a prefix of some admissible stream. */
  method Feed(H: Hash, records: seq<Record>) returns (decoder: Decoder)
    ensures fresh(decoder) && decoder.H == H && decoder.Value() == DecAll(H, records)
    ensures !decoder.phase.Broken? <==> Admitted(H, records)
  {
    hide DecStep, Admitted;
    decoder := new Decoder(H);
    for i := 0 to |records|
      invariant fresh(decoder) && decoder.H == H && decoder.Value() == DecAll(H, records[..i])
    {
      assert records[..i + 1] == records[..i] + [records[i]];
      ReadOneMore(H, records[..i], records[i]);
      var _ := decoder.Read(Framed(records[i]));
    }
    assert records[..|records|] == records;
    DecoderExact(H, records);
  }

  /**
    A whole session between the two objects: what is transferred are the taken calls with all their arguments; the decoder ends
    with the encoder's progress and flags, and completes exactly when the encoder terminated through Commit or Abort.
   */
  method Transfer(H: Hash, session: Session, attempts: seq<Attempt>) returns (encoder: Encoder?, decoder: Decoder?)
    ensures encoder == null <==> !SessionOk(session)
    ensures encoder != null ==>
              && decoder != null && decoder.sources == encoder.sources && decoder.nextRecord == encoder.nextRecord
              && decoder.endingStarted == encoder.endingStarted
              && (decoder.phase.Completed? <==> encoder.status.Terminal?)
              && EncRun(H, session, attempts) == Some((encoder.Value(), encoder.output))
              && Told(H, session, Taken(H, session, attempts), encoder.output, encoder.status.Terminal?)
              && decoder.Value() == DecStep(H, DecAll(H, encoder.output), TransportEof)
  {
    hide SessionOk, EncRun, DecAll, Admitted, Told, Taken;
    decoder := null;
    encoder := Drive(H, session, attempts);
    if encoder == null {
      return;
    }
    RecordsConveyCalls(H, session, attempts);
    decoder := Feed(H, encoder.output);
    Lockstep(H, session, attempts);
    var _ := decoder.Read(TransportEof);
  }

  /**
    Reads bytes until the decoder returns an error or the end: it completes exactly when the bytes are the images of
    frames that carry a complete stream, with nothing before, between or after.
   */
  method DecodeStream(H: Hash, c: Codec, input: seq<byte>) returns (decoder: Decoder)
    ensures decoder.Value() == DecodeBytes(H, c, NewDecoder, input)
    ensures decoder.phase.Completed? <==>
            exists frames, records ::
              Spells(H, c, input, frames, records) && DecStep(H, DecAll(H, records), TransportEof).phase.Completed?
  {
    hide DecStep, ReadFrame, Spells, DecAll;
    decoder := new Decoder(H);
    var rest := input;
    while true
      invariant fresh(decoder) && decoder.H == H
      invariant DecodeBytes(H, c, decoder.Value(), rest) == DecodeBytes(H, c, NewDecoder, input)
      decreases |rest|
    {
      var read := ReadFrame(H, c.json, rest);
      RestIsShorter(H, c.json, rest);
      var _ := decoder.Read(InputOf(c, read));
      if !read.Got? {
        break;
      }
      rest := read.rest;
    }
    assert decoder.Value() == DecodeBytes(H, c, NewDecoder, input);
    BytesCompleteIff(H, c, input);
  }
}
