/**
  The language of the aggregate stream, stated on whole record histories instead of running
  state, and the proof that the decoder accepts exactly that language.
 */
module StreamLanguage {
  import opened Bytes
  import opened Common
  import opened Sensors
  import opened StreamModel

  // ---------------------------------------------------------------- what a history says

  predicate Names(r: Record, t: RecordType, id: string) {
    r.rtype == t &&
    match r.meta
    case RadarConfigMeta(sourceId, _, _, _) => sourceId == id
    case RadarStartMeta(sourceId, _, _) => sourceId == id
    case ItemMeta(sourceId, _, _, _, _, _, _) => sourceId == id
    case EndMeta(sourceId, _, _, _, _) => sourceId == id
    case _ => false
  }

  predicate Has(h: seq<Record>, t: RecordType) {
    exists i | 0 <= i < |h| :: h[i].rtype == t
  }

  predicate HasFor(h: seq<Record>, t: RecordType, id: string) {
    exists i | 0 <= i < |h| :: Names(h[i], t, id)
  }

  /** The ITEM records of one source, in order. */
  function Items(h: seq<Record>, id: string): seq<Record> {
    if h == [] then []
    else Items(h[..|h| - 1], id) + if Names(h[|h| - 1], ItemType, id) then [h[|h| - 1]] else []
  }

  /** The raw bytes of one source: its item payloads concatenated. */
  function ItemBytes(h: seq<Record>, id: string): seq<byte> {
    if h == [] then []
    else ItemBytes(h[..|h| - 1], id) + if Names(h[|h| - 1], ItemType, id) then h[|h| - 1].payload else []
  }

  /** The outcome of the source's END record. */
  function EndOutcome(h: seq<Record>, id: string): Outcome {
    if h == [] then OtherOutcome("")
    else if Names(h[|h| - 1], EndType, id) && h[|h| - 1].meta.EndMeta? then h[|h| - 1].meta.outcome
    else EndOutcome(h[..|h| - 1], id)
  }

  predicate Closed(h: seq<Record>) {
    Has(h, CommitType) || Has(h, AbortType)
  }

  predicate Opens(h: seq<Record>) {
    h != [] && h[0].meta.SessionMeta? && SessionOk(h[0].meta.session)
  }

  function TheSession(h: seq<Record>): Session
    requires Opens(h)
  {
    h[0].meta.session
  }

  predicate Declares(h: seq<Record>, id: string)
    requires Opens(h)
  {
    id in SourceIds(TheSession(h))
  }

  function ContractOf(h: seq<Record>, id: string): Source
    requires Opens(h) && Declares(h, id)
  {
    Declared(TheSession(h).sources, id)
  }

  predicate DeclaresRadar(h: seq<Record>, id: string)
    requires Opens(h)
  {
    Declares(h, id) && ContractOf(h, id).kind.Radar?
  }

  // ---------------------------------------------------------------- the language

  /** Record r may follow history h. */
  predicate Admissible(H: Hash, h: seq<Record>, r: Record) {
    && r.recordSeq == |h| < MAX_UINT64
    && WirePayloadOk(r.rtype, |r.payload|)
    && (r.rtype.SessionType? <==> h == [])
    && (h == [] ==> Opens([r]))
    && (h != [] ==> Opens(h) && Follows(H, h, r))
  }

  predicate Follows(H: Hash, h: seq<Record>, r: Record)
    requires Opens(h)
  {
    match r.rtype
    case SessionType => false
    case RadarConfigType =>
      && !Closed(h) && !Has(h, RadarConfigType) && !Has(h, ItemType) && !Has(h, EndType)
      && r.meta.RadarConfigMeta? && DeclaresRadar(h, r.meta.sourceId) && FormatOk(r.meta.format)
      && r.meta.sizeBytes == |r.payload| && r.meta.digest == H(r.payload)
    case RadarStartType =>
      && !Closed(h) && !Has(h, EndType)
      && r.meta.RadarStartMeta? && DeclaresRadar(h, r.meta.sourceId)
      && !HasFor(h, RadarStartType, r.meta.sourceId) && Items(h, r.meta.sourceId) == []
      && r.meta.hostLower <= r.meta.hostUpper
    case ItemType =>
      && !Closed(h) && !Has(h, EndType)
      && r.meta.ItemMeta? && r.meta.provisional && Declares(h, r.meta.sourceId)
      && ItemFits(h, r)
    case EndType =>
      && !Closed(h) && r.meta.EndMeta? && Declares(h, r.meta.sourceId)
      && !HasFor(h, EndType, r.meta.sourceId) && OutcomeOk(r.meta.outcome)
      && EndTotals(H, h, r.meta)
    case CommitType =>
      && !Closed(h) && r.meta.CommitMeta? && r.meta.sessionId == TheSession(h).sessionId
      && DigestOk(r.meta.digest) && ArtifactOk(r.meta.sessionJsonBytes)
      && Committable(h)
    case AbortType =>
      && !Closed(h) && r.meta.AbortMeta? && r.meta.sessionId == TheSession(h).sessionId && ReasonOk(r.meta.reason)
    case EofType =>
      Closed(h) && !Has(h, EofType) && r.meta.EofMeta? && r.meta.sessionId == TheSession(h).sessionId
  }

  /** The next item of its source, inside the source's static limits and clock. */
  predicate ItemFits(h: seq<Record>, r: Record)
    requires Opens(h) && r.meta.ItemMeta? && Declares(h, r.meta.sourceId)
  {
    var id := r.meta.sourceId;
    var contract := ContractOf(h, id);
    && (contract.kind.Radar? ==> HasFor(h, RadarStartType, id))
    && r.meta.itemIndex == |Items(h, id)| < contract.limits.maxItems
    && |r.payload| <= contract.limits.maxItemBytes
    && |ItemBytes(h, id)| + |r.payload| <= contract.limits.maxPayloadBytes
    && ItemTimeOk(contract.clock, r.meta.tick, r.meta.wrapCount, r.meta.durationTicks)
  }

  /** END binds the number of items, the number of bytes and the digest of all the source's bytes. */
  predicate EndTotals(H: Hash, h: seq<Record>, meta: Meta)
    requires meta.EndMeta?
  {
    && meta.itemCount == |Items(h, meta.sourceId)|
    && meta.payloadBytes == |ItemBytes(h, meta.sourceId)|
    && meta.digest == H(ItemBytes(h, meta.sourceId))
  }

  /** Every declared source ended, and every required one ended complete. */
  predicate Committable(h: seq<Record>)
    requires Opens(h)
  {
    forall id | id in SourceIds(TheSession(h)) ::
      HasFor(h, EndType, id) && (ContractOf(h, id).required ==> EndOutcome(h, id) == Complete)
  }

  ghost predicate Admitted(H: Hash, h: seq<Record>) {
    forall i | 0 <= i < |h| :: Admissible(H, h[..i], h[i])
  }

  // ---------------------------------------------------------------- the decoder's state as a function of the history

  function ProgressOf(h: seq<Record>, id: string): Progress
    requires Opens(h) && Declares(h, id)
  {
    Progress(ContractOf(h, id), |Items(h, id)|, |ItemBytes(h, id)|, ItemBytes(h, id),
             HasFor(h, RadarStartType, id), HasFor(h, EndType, id), EndOutcome(h, id))
  }

  function PhaseOf(h: seq<Record>): DecPhase {
    if Has(h, EofType) then EofSeen else if Closed(h) then Closing else Open
  }

  function StateOf(h: seq<Record>): DecState
    requires h == [] || Opens(h)
  {
    if h == [] then NewDecoder
    else
      DecState(PhaseOf(h), TheSession(h).sessionId,
               map id | id in SourceIds(TheSession(h)) :: ProgressOf(h, id),
               |h|, Has(h, RadarConfigType), Has(h, ItemType) || Has(h, EndType), Has(h, EndType))
  }

  lemma AppendTypes(h: seq<Record>, r: Record)
    ensures forall t :: Has(h + [r], t) <==> Has(h, t) || r.rtype == t
  {
    var g := h + [r];
    forall t
      ensures Has(g, t) <==> Has(h, t) || r.rtype == t
    {
      if Has(h, t) {
        var i :| 0 <= i < |h| && h[i].rtype == t;
        assert g[i].rtype == t;
      }
      if r.rtype == t {
        assert g[|h|].rtype == t;
      }
    }
  }

  lemma AppendHasFor(h: seq<Record>, r: Record, t: RecordType, id: string)
    ensures HasFor(h + [r], t, id) <==> HasFor(h, t, id) || Names(r, t, id)
  {
    hide Names;
    var g := h + [r];
    if HasFor(h, t, id) {
      var i :| 0 <= i < |h| && Names(h[i], t, id);
      assert Names(g[i], t, id);
    }
    if Names(r, t, id) {
      assert Names(g[|h|], t, id);
    }
  }

  /** How one more record changes what the history says about one source. */
  lemma AppendSource(h: seq<Record>, r: Record, id: string)
    ensures HasFor(h + [r], RadarStartType, id) <==> HasFor(h, RadarStartType, id) || Names(r, RadarStartType, id)
    ensures HasFor(h + [r], EndType, id) <==> HasFor(h, EndType, id) || Names(r, EndType, id)
    ensures Items(h + [r], id) == Items(h, id) + if Names(r, ItemType, id) then [r] else []
    ensures ItemBytes(h + [r], id) == ItemBytes(h, id) + if Names(r, ItemType, id) then r.payload else []
    ensures EndOutcome(h + [r], id) ==
            if Names(r, EndType, id) && r.meta.EndMeta? then r.meta.outcome else EndOutcome(h, id)
  {
    hide Names, HasFor;
    var g := h + [r];
    assert g[..|g| - 1] == h && g[|g| - 1] == r;
    AppendHasFor(h, r, RadarStartType, id);
    AppendHasFor(h, r, EndType, id);
  }

  /** Admitting records keeps the session open and never runs past the explicit EOF record. */
  lemma AdmittedPrefix(H: Hash, h: seq<Record>, r: Record)
    ensures Admitted(H, h + [r]) <==> Admitted(H, h) && Admissible(H, h, r)
  {
    var g := h + [r];
    assert g[..|h|] == h && g[|h|] == r;
    assert forall i | 0 <= i < |h| :: g[..i] == h[..i] && g[i] == h[i];
    if Admitted(H, h) && Admissible(H, h, r) {
      forall i | 0 <= i < |g|
        ensures Admissible(H, g[..i], g[i])
      {
        assert i < |h| ==> Admissible(H, h[..i], h[i]);
      }
    }
    if Admitted(H, g) {
      forall i | 0 <= i < |h|
        ensures Admissible(H, h[..i], h[i])
      {
        assert Admissible(H, g[..i], g[i]);
      }
      assert Admissible(H, g[..|h|], g[|h|]);
    }
  }

  /** A radar source with items has been started, so the decoder's extra check at COMMIT never bites. */
  lemma {:induction false} ItemsAreStarted(H: Hash, h: seq<Record>, id: string)
    requires Admitted(H, h) && Opens(h) && DeclaresRadar(h, id) && Items(h, id) != []
    ensures HasFor(h, RadarStartType, id)
    decreases |h|
  {
    hide SessionOk, Admitted, Declared, WirePayloadOk, Has, HasFor, ItemTimeOk;
    var g, r := h[..|h| - 1], h[|h| - 1];
    assert h == g + [r];
    AdmittedPrefix(H, g, r);
    AppendSource(g, r, id);
    if g != [] {
      assert TheSession(g) == TheSession(h);
      if !Names(r, ItemType, id) {
        ItemsAreStarted(H, g, id);
      }
    }
  }

  lemma CommitChecks(H: Hash, h: seq<Record>)
    requires Admitted(H, h) && Opens(h)
    ensures CommitReady(StateOf(h).sources) <==> Committable(h)
  {
    hide SessionOk, Items, ItemBytes, HasFor, EndOutcome, Admitted, Declared, PhaseOf, Has, SourceIds;
    var sources := StateOf(h).sources;
    forall id | id in sources
      ensures sources[id] == ProgressOf(h, id)
      ensures sources[id].contract.kind.Radar? && sources[id].nextItem != 0 ==> sources[id].radarStarted
    {
      if sources[id].contract.kind.Radar? && sources[id].nextItem != 0 {
        ItemsAreStarted(H, h, id);
      }
    }
    if CommitReady(sources) {
      forall id | id in SourceIds(TheSession(h))
        ensures HasFor(h, EndType, id) && (ContractOf(h, id).required ==> EndOutcome(h, id) == Complete)
      {
        assert id in sources;
      }
    }
  }

  /** The sources after one of them changed. */
  lemma SourcesAfter(h: seq<Record>, r: Record, id: string, p: Progress)
    requires Opens(h) && Declares(h, id) && Opens(h + [r]) && TheSession(h + [r]) == TheSession(h)
    requires p == ProgressOf(h + [r], id)
    requires forall other | other != id :: !Names(r, ItemType, other) && !Names(r, EndType, other) && !Names(r, RadarStartType, other)
    ensures StateOf(h + [r]).sources == StateOf(h).sources[id := p]
  {
    hide SessionOk, Items, ItemBytes, HasFor, EndOutcome, Names, Declared, Has, PhaseOf, SourceIds;
    forall other | other in SourceIds(TheSession(h)) && other != id
      ensures ProgressOf(h + [r], other) == ProgressOf(h, other)
    {
      AppendSource(h, r, other);
    }
  }

  lemma SourcesUnchanged(h: seq<Record>, r: Record)
    requires Opens(h) && Opens(h + [r]) && TheSession(h + [r]) == TheSession(h)
    requires forall id :: !Names(r, ItemType, id) && !Names(r, EndType, id) && !Names(r, RadarStartType, id)
    ensures StateOf(h + [r]).sources == StateOf(h).sources
  {
    hide SessionOk, Items, ItemBytes, HasFor, EndOutcome, Names, Declared, Has, PhaseOf, SourceIds;
    forall id | id in SourceIds(TheSession(h))
      ensures ProgressOf(h + [r], id) == ProgressOf(h, id)
    {
      AppendSource(h, r, id);
    }
  }

  ghost predicate Simulates(H: Hash, h: seq<Record>, r: Record)
    requires h == [] || Opens(h)
  {
    var d' := DecStep(H, StateOf(h), Framed(r));
    if Admissible(H, h, r) then Opens(h + [r]) && d' == StateOf(h + [r]) else d'.phase.Broken?
  }

  lemma FirstSources(r: Record)
    requires Opens([r]) && r.rtype.SessionType?
    ensures StateOf([r]).sources == NewSources(r.meta.session)
  {
    hide SessionOk, Declared, SourceIds, PhaseOf, Has;
    var h := [r];
    assert [] + [r] == h;
    forall id | id in SourceIds(TheSession(h))
      ensures ProgressOf(h, id) == NewProgress(ContractOf(h, id))
    {
      AppendSource([], r, id);
    }
  }

  lemma FirstRecord(H: Hash, r: Record)
    ensures Simulates(H, [], r)
  {
    hide SessionOk, NewSources, Declared, SourceIds;
    assert [] + [r] == [r];
    AppendTypes([], r);
    if Admissible(H, [], r) {
      FirstSources(r);
    }
  }

  lemma ConfigRecord(H: Hash, h: seq<Record>, r: Record)
    requires Opens(h) && (Has(h, EofType) ==> Closed(h)) && r.rtype.RadarConfigType?
    ensures Simulates(H, h, r)
  {
    hide AcceptSession, AcceptRadarStart, AcceptItem, AcceptEnd, AcceptCommit, AcceptAbort, AcceptEof;
    hide SessionOk, Items, ItemBytes, HasFor, EndOutcome, Declared, FormatOk, SourceIds, Has;
    HashLength(H, r.payload);
    AppendTypes(h, r);
    SourcesUnchanged(h, r);
  }

  lemma HashLength(H: Hash, data: seq<byte>)
    ensures |H(data)| == 32
  {
    var digest: Digest := H(data);
  }

  lemma StartRecord(H: Hash, h: seq<Record>, r: Record)
    requires Opens(h) && (Has(h, EofType) ==> Closed(h)) && r.rtype.RadarStartType?
    ensures Simulates(H, h, r)
  {
    hide AcceptSession, AcceptRadarConfig, AcceptItem, AcceptEnd, AcceptCommit, AcceptAbort, AcceptEof;
    hide SessionOk, Items, ItemBytes, HasFor, EndOutcome, Declared, SourceIds, Has;
    AppendTypes(h, r);
    if r.meta.RadarStartMeta? && Declares(h, r.meta.sourceId) {
      var id := r.meta.sourceId;
      EndedIsEnding(h, id);
      AppendSource(h, r, id);
      SourcesAfter(h, r, id, ProgressOf(h, id).(radarStarted := true));
    }
  }

  lemma EndedIsEnding(h: seq<Record>, id: string)
    ensures HasFor(h, EndType, id) ==> Has(h, EndType)
  {
  }

  lemma ItemRecord(H: Hash, h: seq<Record>, r: Record)
    requires Opens(h) && (Has(h, EofType) ==> Closed(h)) && r.rtype.ItemType?
    ensures Simulates(H, h, r)
  {
    hide AcceptSession, AcceptRadarConfig, AcceptRadarStart, AcceptEnd, AcceptCommit, AcceptAbort, AcceptEof;
    hide SessionOk, Items, ItemBytes, HasFor, EndOutcome, Declared, ItemTimeOk, SourceIds, Has;
    AppendTypes(h, r);
    if r.meta.ItemMeta? && Declares(h, r.meta.sourceId) {
      var id := r.meta.sourceId;
      EndedIsEnding(h, id);
      AppendSource(h, r, id);
      SourcesAfter(h, r, id, AddItem(ProgressOf(h, id), r.payload));
    }
  }

  lemma EndRecord(H: Hash, h: seq<Record>, r: Record)
    requires Opens(h) && (Has(h, EofType) ==> Closed(h)) && r.rtype.EndType?
    ensures Simulates(H, h, r)
  {
    hide AcceptSession, AcceptRadarConfig, AcceptRadarStart, AcceptItem, AcceptCommit, AcceptAbort, AcceptEof;
    hide SessionOk, Items, ItemBytes, HasFor, EndOutcome, Declared, SourceIds, Has;
    AppendTypes(h, r);
    if r.meta.EndMeta? && Declares(h, r.meta.sourceId) {
      var id := r.meta.sourceId;
      AppendSource(h, r, id);
      HashLength(H, ItemBytes(h, id));
      SourcesAfter(h, r, id, ProgressOf(h, id).(ended := true, outcome := r.meta.outcome));
    }
  }

  lemma ClosingRecord(H: Hash, h: seq<Record>, r: Record)
    requires Opens(h) && Admitted(H, h)
    requires r.rtype.CommitType? || r.rtype.AbortType? || r.rtype.EofType? || r.rtype.SessionType?
    ensures Simulates(H, h, r)
  {
    hide SessionOk, Items, ItemBytes, HasFor, EndOutcome, Declared, Committable, CommitReady, SourceIds, Has, Admitted, ProgressOf;
    AppendTypes(h, r);
    CommitChecks(H, h);
    SourcesUnchanged(h, r);
    EofIsClosed(H, h);
  }

  lemma {:induction false} EofIsClosed(H: Hash, h: seq<Record>)
    requires Admitted(H, h)
    ensures Has(h, EofType) ==> Closed(h)
    decreases |h|
  {
    hide SessionOk, Has, Admitted, HasFor, Items, ItemBytes, WirePayloadOk, Declared, SourceIds;
    if h == [] {
      NothingIn();
    } else {
      var g, r := h[..|h| - 1], h[|h| - 1];
      assert h == g + [r];
      AdmittedPrefix(H, g, r);
      AppendTypes(g, r);
      EofIsClosed(H, g);
    }
  }

  lemma NothingIn()
    ensures forall t :: !Has([], t)
  {
  }

  lemma StepSimulates(H: Hash, h: seq<Record>, r: Record)
    requires Admitted(H, h) && (h == [] || Opens(h))
    ensures Simulates(H, h, r)
  {
    hide Simulates, Admitted, SessionOk;
    if h == [] {
      FirstRecord(H, r);
    } else {
      EofIsClosed(H, h);
      match r.rtype
      case RadarConfigType => ConfigRecord(H, h, r);
      case RadarStartType => StartRecord(H, h, r);
      case ItemType => ItemRecord(H, h, r);
      case EndType => EndRecord(H, h, r);
      case _ => ClosingRecord(H, h, r);
    }
  }

  // ---------------------------------------------------------------- main results

  /** One more record read from the state a history defines. */
  lemma OneMore(H: Hash, h: seq<Record>, r: Record)
    requires Admitted(H, h) && (h == [] || Opens(h))
    ensures var d' := DecStep(H, StateOf(h), Framed(r));
            && (d'.phase.Broken? <==> !Admissible(H, h, r))
            && (Admissible(H, h, r) ==> Opens(h + [r]) && d' == StateOf(h + [r]))
  {
    hide Admitted, SessionOk, Admissible, DecStep, StateOf, Opens;
    StepSimulates(H, h, r);
    if Admissible(H, h, r) {
      StaysLive(h, r);
    }
  }

  lemma BrokenStays(H: Hash, d: DecState, input: Input)
    ensures d.phase.Broken? ==> DecStep(H, d, input) == d
  {
  }

  /**
    The decoder accepts exactly the language: it is unbroken after a record sequence if and only if every record was
    admissible after the ones before it, and its running state is then the one the history defines.
   */
  lemma {:induction false} DecoderExact(H: Hash, records: seq<Record>)
    ensures !DecAll(H, records).phase.Broken? <==> Admitted(H, records)
    ensures Admitted(H, records) ==> (records == [] || Opens(records)) && DecAll(H, records) == StateOf(records)
    decreases |records|
  {
    hide SessionOk, Admitted, Admissible, StateOf, Opens, DecStep;
    if records == [] {
      EmptyAdmitted(H);
    } else {
      var h, r := records[..|records| - 1], records[|records| - 1];
      assert records == h + [r];
      DecoderExact(H, h);
      AdmittedPrefix(H, h, r);
      if Admitted(H, h) {
        OneMore(H, h, r);
      } else {
        BrokenStays(H, DecAll(H, h), Framed(r));
      }
    }
  }

  lemma EmptyAdmitted(H: Hash)
    ensures Admitted(H, []) && StateOf([]) == NewDecoder
  {
  }

  lemma StaysLive(h: seq<Record>, r: Record)
    requires Opens(h + [r])
    ensures !StateOf(h + [r]).phase.Broken? && !StateOf(h + [r]).phase.Completed?
  {
  }

  // ---------------------------------------------------------------- what a completed stream guarantees

  /** Record i of an admitted stream is admissible after its predecessors. */
  lemma AtIndex(H: Hash, records: seq<Record>, i: nat)
    requires Admitted(H, records) && i <= |records|
    ensures Admitted(H, records[..i])
    ensures i < |records| ==> Admissible(H, records[..i], records[i])
  {
    hide Admissible;
    forall j | 0 <= j < i
      ensures Admissible(H, records[..i][..j], records[..i][j])
    {
      assert records[..i][..j] == records[..j];
    }
  }

  /** The last record decides the phase: after the terminal record only EOF is admissible, and after EOF nothing is. */
  lemma LastRecord(H: Hash, h: seq<Record>, r: Record)
    requires Admitted(H, h) && Admissible(H, h, r)
    ensures Has(h + [r], EofType) <==> r.rtype.EofType?
    ensures Closed(h) <==> r.rtype.EofType?
    ensures Closed(h + [r]) <==> r.rtype.EofType? || r.rtype.CommitType? || r.rtype.AbortType?
  {
    hide SessionOk, Has, HasFor, Items, ItemBytes, Committable, ItemFits, EndTotals, Declared, WirePayloadOk, SourceIds, Admitted;
    EofIsClosed(H, h);
    NothingIn();
    AppendTypes(h, r);
  }

  lemma NotIn(h: seq<Record>, t: RecordType)
    requires !Has(h, t)
    ensures forall i | 0 <= i < |h| :: h[i].rtype != t
  {
  }

  /**
    A stream the decoder completes: sequence numbers are gap-free, SESSION comes first and only first, the terminal
    record is the last but one and the only one of its kind, and the explicit EOF record ends the stream.
   */
  lemma CompletedShape(H: Hash, records: seq<Record>)
    requires DecStep(H, DecAll(H, records), TransportEof).phase.Completed?
    ensures Admitted(H, records) && Opens(records) && |records| >= 3
    ensures forall i | 0 <= i < |records| :: records[i].recordSeq == i && (records[i].rtype.SessionType? <==> i == 0)
    ensures records[|records| - 1].rtype.EofType?
    ensures records[|records| - 2].rtype.CommitType? || records[|records| - 2].rtype.AbortType?
    ensures forall i | 0 <= i < |records| - 2 ::
              !records[i].rtype.CommitType? && !records[i].rtype.AbortType? && !records[i].rtype.EofType?
  {
    hide SessionOk, Follows, WirePayloadOk, Has, Admitted;
    DecoderExact(H, records);
    CompletedHasEof(H, records);
    LastTwo(H, records);
    forall i | 0 <= i < |records|
      ensures records[i].recordSeq == i && (records[i].rtype.SessionType? <==> i == 0)
    {
      AtIndex(H, records, i);
    }
  }

  lemma CompletedHasEof(H: Hash, records: seq<Record>)
    requires Admitted(H, records) && (records == [] || Opens(records))
    requires DecStep(H, StateOf(records), TransportEof).phase.Completed?
    ensures records != [] && Has(records, EofType)
  {
    hide Admitted, SessionOk, Has, Admissible;
  }

  lemma LastTwo(H: Hash, records: seq<Record>)
    requires Admitted(H, records) && records != [] && Has(records, EofType)
    ensures |records| >= 3 && records[|records| - 1].rtype.EofType?
    ensures records[|records| - 2].rtype.CommitType? || records[|records| - 2].rtype.AbortType?
    ensures forall i | 0 <= i < |records| - 2 ::
              !records[i].rtype.CommitType? && !records[i].rtype.AbortType? && !records[i].rtype.EofType?
  {
    hide SessionOk, Follows, WirePayloadOk, Has, Admitted;
    var n := |records|;
    var g, eof := records[..n - 1], records[n - 1];
    assert records == g + [eof];
    AtIndex(H, records, n - 1);
    LastRecord(H, g, eof);
    NothingIn();
    assert g != [];
    var f, terminal := g[..n - 2], g[n - 2];
    assert g == f + [terminal];
    AtIndex(H, g, n - 2);
    LastRecord(H, f, terminal);
    EofIsClosed(H, f);
    assert !Has(g, EofType) by {
      AppendTypes(g, eof);
      AdmittedPrefix(H, g, eof);
      NoSecondEof(H, g, eof);
    }
    AppendTypes(f, terminal);
    NotIn(f, CommitType);
    NotIn(f, AbortType);
    NotIn(f, EofType);
  }

  lemma NoSecondEof(H: Hash, h: seq<Record>, r: Record)
    requires Admissible(H, h, r) && r.rtype.EofType?
    ensures !Has(h, EofType)
  {
    hide SessionOk, WirePayloadOk;
  }

  /** The first END record freezes every source: no item, radar start or radar configuration follows it. */
  lemma EndFreezes(H: Hash, records: seq<Record>, i: nat, j: nat)
    requires Admitted(H, records) && i < j < |records| && records[i].rtype.EndType?
    ensures !records[j].rtype.ItemType? && !records[j].rtype.RadarStartType? && !records[j].rtype.RadarConfigType?
  {
    hide SessionOk, WirePayloadOk, HasFor, Items, ItemBytes, Committable, ItemFits, EndTotals, Declared, SourceIds, Admitted;
    AtIndex(H, records, j);
    assert records[..j][i].rtype == EndType;
  }

  /** Item indices of every source count 0, 1, 2, ..., and its totals stay inside the declared limits. */
  lemma {:induction false} ItemsAreNumbered(H: Hash, h: seq<Record>, id: string)
    requires Admitted(H, h) && Opens(h) && Declares(h, id)
    ensures forall k | 0 <= k < |Items(h, id)| :: Items(h, id)[k].meta.ItemMeta? && Items(h, id)[k].meta.itemIndex == k
    ensures |Items(h, id)| <= ContractOf(h, id).limits.maxItems
    ensures |ItemBytes(h, id)| <= ContractOf(h, id).limits.maxPayloadBytes
    decreases |h|
  {
    hide SessionOk, Admitted, Admissible, Declared, HasFor, ItemTimeOk, SourceIds, Items, ItemBytes, Names;
    var g, r := h[..|h| - 1], h[|h| - 1];
    assert h == g + [r];
    AdmittedPrefix(H, g, r);
    AppendSource(g, r, id);
    if g == [] {
      FirstNamesNothing(H, r, id);
      NoItemsYet(id);
    } else {
      AdmissibleOpens(H, g, r);
      assert TheSession(g) == TheSession(h);
      ItemsAreNumbered(H, g, id);
      if Names(r, ItemType, id) {
        AdmissibleItem(H, g, r, id);
      }
    }
  }

  lemma NoItemsYet(id: string)
    ensures Items([], id) == [] && ItemBytes([], id) == []
  {
  }

  lemma FirstNamesNothing(H: Hash, r: Record, id: string)
    requires Admissible(H, [], r)
    ensures !Names(r, ItemType, id)
  {
    hide SessionOk, WirePayloadOk;
  }

  lemma AdmissibleOpens(H: Hash, h: seq<Record>, r: Record)
    requires Admissible(H, h, r) && h != []
    ensures Opens(h)
  {
    hide SessionOk, WirePayloadOk, Follows;
  }

  lemma AdmissibleItem(H: Hash, h: seq<Record>, r: Record, id: string)
    requires h != [] && Admissible(H, h, r) && Names(r, ItemType, id)
    ensures Opens(h) && r.meta.ItemMeta? && r.meta.sourceId == id && Declares(h, id) && ItemFits(h, r)
  {
    hide SessionOk, WirePayloadOk, ItemFits, SourceIds, Declared, Has, Items, ItemBytes, Committable, EndTotals;
  }

  /** Once some source has ended, no source gains another item. */
  lemma {:induction false} ItemsFrozen(H: Hash, records: seq<Record>, i: nat, id: string)
    requires Admitted(H, records) && i <= |records| && Has(records[..i], EndType)
    ensures Items(records, id) == Items(records[..i], id) && ItemBytes(records, id) == ItemBytes(records[..i], id)
    decreases |records|
  {
    hide SessionOk, Admitted, Admissible, Items, ItemBytes, HasFor;
    if i == |records| {
      assert records[..i] == records;
    } else {
      var g, r := records[..|records| - 1], records[|records| - 1];
      assert records == g + [r] && g[..i] == records[..i];
      AtIndex(H, records, |records| - 1);
      ItemsFrozen(H, g, i, id);
      AppendSource(g, r, id);
      var k :| 0 <= k < i && records[..i][k].rtype == EndType;
      EndFreezes(H, records, k, |records| - 1);
    }
  }

  /** The END record of a source that has ended. */
  lemma {:induction false} TheEnd(H: Hash, h: seq<Record>, id: string) returns (j: nat)
    requires Admitted(H, h) && HasFor(h, EndType, id)
    ensures j < |h| && Names(h[j], EndType, id) && h[j].meta.EndMeta? && h[j].meta.outcome == EndOutcome(h, id)
    ensures EndTotals(H, h[..j], h[j].meta)
    decreases |h|
  {
    hide SessionOk, Admitted, Declared, WirePayloadOk, Has, HasFor, Committable, ItemFits, SourceIds, EndTotals;
    HasForNonempty(h, EndType, id);
    var g, r := h[..|h| - 1], h[|h| - 1];
    assert h == g + [r];
    AdmittedPrefix(H, g, r);
    AppendSource(g, r, id);
    if Names(r, EndType, id) {
      j := |g|;
    } else {
      j := TheEnd(H, g, id);
      assert h[..j] == g[..j];
    }
  }

  lemma HasForNonempty(h: seq<Record>, t: RecordType, id: string)
    requires HasFor(h, t, id)
    ensures h != []
  {
  }

  /**
    A committed stream vouches for every declared source: it has an END record whose item count, byte count and digest
    are those of all the source's items in the whole stream, and a required source ended complete.
   */
  lemma CommitVouches(H: Hash, records: seq<Record>, id: string) returns (j: nat)
    requires DecStep(H, DecAll(H, records), TransportEof).phase.Completed?
    requires |records| >= 2 && records[|records| - 2].rtype.CommitType?
    requires Opens(records) && Declares(records, id)
    ensures j < |records| && Names(records[j], EndType, id) && records[j].meta.EndMeta?
    ensures EndTotals(H, records, records[j].meta)
    ensures ContractOf(records, id).required ==> records[j].meta.outcome == Complete
  {
    hide SessionOk, Admitted, Declared, WirePayloadOk, Has, HasFor, ItemFits, Items, ItemBytes, SourceIds, EndOutcome, DecAll, DecStep;
    CompletedShape(H, records);
    var n := |records| - 2;
    var h := records[..n];
    AtIndex(H, records, n);
    assert TheSession(h) == TheSession(records) && Committable(h);
    j := TheEnd(H, h, id);
    assert h[..j] == records[..j] && h[j] == records[j];
    assert Has(records[..j + 1], EndType) by {
      AppendTypes(records[..j], records[j]);
      assert records[..j + 1] == records[..j] + [records[j]];
    }
    ItemsFrozen(H, records, j + 1, id);
    AppendSource(records[..j], records[j], id);
    assert records[..j + 1] == records[..j] + [records[j]];
    assert Items(records, id) == Items(records[..j], id) && ItemBytes(records, id) == ItemBytes(records[..j], id);
    assert records[j].meta.sourceId == id;
  }
}
