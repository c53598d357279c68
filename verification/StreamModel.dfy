/**
  The aggregate multi-sensor stream: its contract, its records, and the encoder and decoder
  state machines (internal/multisensorstream). JSON metadata is a datatype, SHA-256 is an
  arbitrary function H, and strings are byte strings.
 */
module StreamModel {
  import opened Bytes
  import opened Common
  import opened Sensors
  import opened Utf8

  const MAX_SOURCES: int := 32
  const MAX_RADAR_CONFIG_BYTES: int := 4 * 1024 * 1024
  const MAX_SESSION_JSON_BYTES: int := 1024 * 1024
  const MAX_FILENAME_BYTES: int := 128

  type Digest = d: seq<byte> | |d| == 32 witness seq(32, _ => 0)
  type Hash = seq<byte> -> Digest

  datatype Kind = Radar | Camera | OtherKind(text: string)
  datatype Outcome = Complete | Failed | Omitted | OtherOutcome(text: string)
  datatype AbortReason =
    | Cancelled | Backpressure | SourceFailed | IntegrityFailed | CleanupFailed | PublishFailed
    | OtherReason(text: string)

  datatype Source = Source(
    id: string, kind: Kind, required: bool, filename: string, format: string, clock: Clock, limits: Limits)

  datatype Session = Session(sessionId: string, softwareBarrier: bool, sources: seq<Source>)

  // ---------------------------------------------------------------- contract validation

  predicate Lower(ch: char) { 'a' <= ch <= 'z' }
  predicate Upper(ch: char) { 'A' <= ch <= 'Z' }
  predicate Digit(ch: char) { '0' <= ch <= '9' }
  predicate Hex(ch: char) { Digit(ch) || 'a' <= ch <= 'f' }

  predicate SourceIdOk(s: string) {
    1 <= |s| <= 64 && Lower(s[0]) && forall i | 0 <= i < |s| :: Lower(s[i]) || Digit(s[i]) || s[i] == '-'
  }

  predicate FormatOk(s: string) {
    && 1 <= |s| <= 128 && (Lower(s[0]) || Digit(s[0]))
    && forall i | 0 <= i < |s| :: Lower(s[i]) || Digit(s[i]) || s[i] in "._-"
  }

  predicate OpaqueIdOk(s: string) {
    && 1 <= |s| <= 128 && (Lower(s[0]) || Upper(s[0]) || Digit(s[0]))
    && forall i | 0 <= i < |s| :: Lower(s[i]) || Upper(s[i]) || Digit(s[i]) || s[i] in "._:-"
  }

  /** A lowercase version 4 UUID. */
  predicate SessionIdOk(s: string) {
    && |s| == 36 && s[14] == '4' && s[19] in "89ab"
    && forall i | 0 <= i < 36 :: if i in {8, 13, 18, 23} then s[i] == '-' else Hex(s[i])
  }

  predicate HasAny(s: string, chars: string) {
    exists i | 0 <= i < |s| :: s[i] in chars
  }

  predicate HasSuffix(s: string, suffix: string) {
    |s| >= |suffix| && s[|s| - |suffix|..] == suffix
  }

  /** validateLeaf: the set of refused characters is a raw string, so it names 'x' and '0' and not the NUL. */
  predicate LeafOk(s: string) {
    && 1 <= |s| <= MAX_FILENAME_BYTES && ValidUtf8(s) && s != "." && s != ".."
    && !HasAny(s, @"/\\\x00") && !HasSuffix(s, ".part")
  }

  predicate FilenameOk(s: string) { LeafOk(s) && s != "index.bin" }

  function WithoutTrailing(s: string): string {
    if s != "" && s[|s| - 1] == '/' then WithoutTrailing(s[..|s| - 1]) else s
  }

  function AfterLastSlash(s: string): string {
    if s == "" || s[|s| - 1] == '/' then "" else AfterLastSlash(s[..|s| - 1]) + [s[|s| - 1]]
  }

  /** filepath.Base where the separator is '/' and there are no volume names. */
  function Base(path: string): string {
    if path == "" then "."
    else
      var last := AfterLastSlash(WithoutTrailing(path));
      if last == "" then "/" else last
  }

  lemma {:induction false} NoSlashKept(s: string)
    requires !HasAny(s, "/")
    ensures WithoutTrailing(s) == s && AfterLastSlash(s) == s
  {
    if s != "" {
      var init := s[..|s| - 1];
      assert forall i | 0 <= i < |init| :: init[i] == s[i];
      NoSlashKept(init);
      assert s[|s| - 1] !in "/";
      assert s == init + [s[|s| - 1]];
    }
  }

  /** A name without a separator is its own base. */
  lemma BaseOfLeaf(s: string)
    requires s != "" && !HasAny(s, @"/\\")
    ensures Base(s) == s
  {
    assert !HasAny(s, "/") by {
      assert forall c :: c in "/" ==> c in @"/\\";
    }
    NoSlashKept(s);
  }

  /** validateArtifactLeaf, by which the capture plan and the recorder's metadata judge the same name. */
  predicate ArtifactLeafOk(s: string) {
    && 1 <= |s| <= MAX_FILENAME_BYTES && s != "." && s != ".." && Base(s) == s && !HasAny(s, @"/\\")
    && !HasSuffix(s, ".part") && !HasAny(s, "\0")
  }

  /** The two rules for a payload filename differ exactly on 'x' and '0', which only the stream refuses, and on the NUL
      and on malformed UTF-8, which only one of them refuses each. */
  lemma LeafRulesDiffer(s: string)
    ensures ArtifactLeafOk(s) ==> (LeafOk(s) <==> ValidUtf8(s) && !HasAny(s, "x0"))
    ensures LeafOk(s) ==> (ArtifactLeafOk(s) <==> !HasAny(s, "\0"))
  {
    hide ValidUtf8, HasSuffix, Base;
    if LeafOk(s) {
      BaseOfLeaf(s);
    }
    assert forall c :: c in @"/\\\x00" <==> c in @"/\\" || c in "x0";
  }

  /** A name the capture plan accepts and the stream refuses. */
  lemma ZeroIsRefused()
    ensures ArtifactLeafOk("cam0.bin") && !LeafOk("cam0.bin")
  {
    hide ValidUtf8, Base;
    var name := "cam0.bin";
    BaseOfLeaf(name);
    assert name[3] in @"/\\\x00" && name[3..] == "0.bin";
  }

  /** A name the stream accepts and the capture plan refuses. */
  lemma NulIsAccepted()
    ensures LeafOk("cam\0.bin") && !ArtifactLeafOk("cam\0.bin")
  {
    hide ValidUtf8, Base;
    var name := "cam\0.bin";
    AsciiIsValid(name);
    assert name[3] in "\0" && name[3..] == "\0.bin";
  }

  lemma {:induction false} AsciiIsValid(s: string)
    requires forall i | 0 <= i < |s| :: s[i] < '\U{80}'
    ensures ValidUtf8(s)
  {
    if s != "" {
      AsciiIsValid(s[1..]);
    }
  }

  predicate SourceOk(s: Source) {
    && SourceIdOk(s.id) && ValidLimits(s.limits) && FilenameOk(s.filename) && FormatOk(s.format)
    && OpaqueIdOk(s.clock.clockId) && s.clock.tickHz != 0 && s.clock.wrapTicks != 1
    && match s.kind
       case Radar => s.clock.semantics.FrameStart?
       case Camera =>
         || s.clock.semantics.ExposureMidpoint?
         || (&& s.clock.semantics.DeliveryObserved? && s.clock.clockId == s.id + "-delivery-observed"
             && s.clock.tickHz == 1_000_000_000 && s.clock.wrapTicks == 0)
       case OtherKind(_) => false
  }

  predicate SessionOk(s: Session) {
    && SessionIdOk(s.sessionId) && s.softwareBarrier && 1 <= |s.sources| <= MAX_SOURCES
    && (forall i | 0 <= i < |s.sources| :: SourceOk(s.sources[i]))
    && (forall i, j | 0 <= i < j < |s.sources| ::
          s.sources[i].id != s.sources[j].id && s.sources[i].clock.clockId != s.sources[j].clock.clockId)
  }

  predicate OutcomeOk(o: Outcome) { !o.OtherOutcome? }
  predicate ReasonOk(r: AbortReason) { !r.OtherReason? }
  predicate ArtifactOk(size: u64) { 0 < size <= MAX_SESSION_JSON_BYTES }
  predicate DigestOk(d: seq<byte>) { |d| == 32 }

  predicate ItemTimeOk(clock: Clock, tick: u64, wrapCount: u64, duration: u64) {
    var unwrapped := UnwrapTicks(clock, tick, wrapCount);
    unwrapped.Some? && duration <= MAX_UINT64 - unwrapped.value
  }

  // ---------------------------------------------------------------- records

  datatype RecordType = SessionType | RadarConfigType | RadarStartType | ItemType | EndType | CommitType | AbortType | EofType

  datatype Meta =
    | SessionMeta(session: Session)
    | RadarConfigMeta(sourceId: string, format: string, sizeBytes: nat, digest: seq<byte>)
    | RadarStartMeta(sourceId: string, hostLower: u64, hostUpper: u64)
    | ItemMeta(sourceId: string, itemIndex: u64, provisional: bool,
               tick: u64, wrapCount: u64, durationTicks: u64, syncEventId: u64)
    | EndMeta(sourceId: string, outcome: Outcome, itemCount: nat, payloadBytes: nat, digest: seq<byte>)
    | CommitMeta(sessionId: string, sessionJsonBytes: u64, digest: seq<byte>)
    | AbortMeta(sessionId: string, reason: AbortReason)
    | EofMeta(sessionId: string)

  datatype Record = Record(rtype: RecordType, recordSeq: nat, meta: Meta, payload: seq<byte>)

  /** validateWirePayload: only RADAR_CONFIG and ITEM carry raw bytes, and then at least one. */
  predicate WirePayloadOk(t: RecordType, size: nat) {
    match t
    case RadarConfigType => 0 < size <= MAX_RADAR_CONFIG_BYTES
    case ItemType => 0 < size <= MAXIMUM_ITEM_BYTES
    case _ => size == 0
  }

  datatype Progress = Progress(
    contract: Source, nextItem: nat, payloadBytes: nat, hashed: seq<byte>,
    radarStarted: bool, ended: bool, outcome: Outcome)

  function NewProgress(s: Source): Progress {
    Progress(s, 0, 0, [], false, false, OtherOutcome(""))
  }

  function SourceIds(session: Session): set<string> {
    set i | 0 <= i < |session.sources| :: session.sources[i].id
  }

  /** The declared source with this identifier; identifiers of an accepted session are unique. */
  function Declared(sources: seq<Source>, id: string): Source
    requires exists i :: 0 <= i < |sources| && sources[i].id == id
  {
    if sources[0].id == id then sources[0] else Declared(sources[1..], id)
  }

  function NewSources(session: Session): map<string, Progress> {
    map id | id in SourceIds(session) :: NewProgress(Declared(session.sources, id))
  }

  predicate MayCommit(p: Progress) {
    && p.ended
    && (p.contract.required ==> p.outcome == Complete)
    && (p.contract.kind.Radar? && p.outcome == Complete && p.nextItem != 0 ==> p.radarStarted)
  }

  /** What validateCommitOutcomes demands. */
  predicate CommitReady(sources: map<string, Progress>) {
    forall id | id in sources :: MayCommit(sources[id])
  }

  // ---------------------------------------------------------------- encoder

  datatype EncStatus = Active | Poisoned | Terminal

  datatype EncState = EncState(
    sessionId: string, sources: map<string, Progress>, nextRecord: nat,
    configWritten: bool, recordsStarted: bool, endingStarted: bool, status: EncStatus)

  datatype Call =
    | RadarConfigCall(sourceId: string, format: string, payload: seq<byte>)
    | RadarStartCall(sourceId: string, hostLower: u64, hostUpper: u64)
    | ItemCall(sourceId: string, itemIndex: u64, tick: u64, wrapCount: u64, durationTicks: u64, syncEventId: u64,
               payload: seq<byte>)
    | EndCall(sourceId: string, outcome: Outcome)
    | CommitCall(sessionJsonBytes: u64, digest: Digest)
    | AbortCall(reason: AbortReason)

  /** How many records of the call reach the writer before it fails; a call writes at most two. */
  datatype Transport = AllWritten | OneWritten | NoneWritten

  datatype EncResult = EncResult(state: EncState, records: seq<Record>, ok: bool)

  function EncPoison(s: EncState): EncState {
    s.(status := Poisoned)
  }

  /** The checks of each encoder method, before anything is emitted. */
  predicate CallOk(s: EncState, call: Call) {
    match call
    case RadarConfigCall(id, format, payload) =>
      && !s.configWritten && !s.recordsStarted
      && id in s.sources && s.sources[id].contract.kind.Radar?
      && FormatOk(format) && 0 < |payload| <= MAX_RADAR_CONFIG_BYTES
    case RadarStartCall(id, lower, upper) =>
      && id in s.sources && s.sources[id].contract.kind.Radar?
      && !s.sources[id].radarStarted
      && s.sources[id].nextItem == 0 && !s.sources[id].ended && !s.endingStarted
      && lower <= upper
    case ItemCall(id, index, tick, wrapCount, duration, _, payload) =>
      && id in s.sources
      && var p := s.sources[id];
      && !p.ended && (p.contract.kind.Radar? ==> p.radarStarted) && !s.endingStarted
      && index == p.nextItem
      && 0 < |payload| <= p.contract.limits.maxItemBytes
      && p.nextItem < p.contract.limits.maxItems
      && |payload| <= p.contract.limits.maxPayloadBytes - p.payloadBytes
      && ItemTimeOk(p.contract.clock, tick, wrapCount, duration)
    case EndCall(id, outcome) =>
      id in s.sources && !s.sources[id].ended && OutcomeOk(outcome)
    case CommitCall(size, _) => CommitReady(s.sources) && ArtifactOk(size)
    case AbortCall(reason) => ReasonOk(reason)
  }

  function CallType(call: Call): RecordType {
    match call
    case RadarConfigCall(_, _, _) => RadarConfigType
    case RadarStartCall(_, _, _) => RadarStartType
    case ItemCall(_, _, _, _, _, _, _) => ItemType
    case EndCall(_, _) => EndType
    case CommitCall(_, _) => CommitType
    case AbortCall(_) => AbortType
  }

  function CallPayload(call: Call): seq<byte> {
    if call.RadarConfigCall? || call.ItemCall? then call.payload else []
  }

  /** The metadata the encoder builds for an accepted call. */
  function CallMeta(H: Hash, s: EncState, call: Call): Meta
    requires CallOk(s, call)
  {
    match call
    case RadarConfigCall(id, format, payload) => RadarConfigMeta(id, format, |payload|, H(payload))
    case RadarStartCall(id, lower, upper) => RadarStartMeta(id, lower, upper)
    case ItemCall(id, index, tick, wrapCount, duration, sync, _) => ItemMeta(id, index, true, tick, wrapCount, duration, sync)
    case EndCall(id, outcome) =>
      EndMeta(id, outcome, s.sources[id].nextItem, s.sources[id].payloadBytes, H(s.sources[id].hashed))
    case CommitCall(size, digest) => CommitMeta(s.sessionId, size, digest)
    case AbortCall(reason) => AbortMeta(s.sessionId, reason)
  }

  /** Bookkeeping after the record is out. */
  function AfterCall(s: EncState, call: Call): EncState
    requires CallOk(s, call)
  {
    match call
    case RadarConfigCall(_, _, _) => s.(configWritten := true)
    case RadarStartCall(id, _, _) => s.(sources := s.sources[id := s.sources[id].(radarStarted := true)])
    case ItemCall(id, _, _, _, _, _, payload) =>
      s.(sources := s.sources[id := AddItem(s.sources[id], payload)], recordsStarted := true)
    case EndCall(id, outcome) =>
      s.(sources := s.sources[id := s.sources[id].(ended := true, outcome := outcome)],
         recordsStarted := true, endingStarted := true)
    case _ => s
  }

  function AddItem(p: Progress, payload: seq<byte>): Progress {
    p.(hashed := p.hashed + payload, payloadBytes := p.payloadBytes + |payload|, nextItem := p.nextItem + 1)
  }

  function EncStep(H: Hash, s: EncState, call: Call, transport: Transport): EncResult {
    if !s.status.Active? then EncResult(s, [], false)
    else if !CallOk(s, call) || s.nextRecord >= MAX_UINT64 || transport.NoneWritten? then EncResult(EncPoison(s), [], false)
    else
      var first := Record(CallType(call), s.nextRecord, CallMeta(H, s, call), CallPayload(call));
      var s' := AfterCall(s, call).(nextRecord := s.nextRecord + 1);
      if !call.CommitCall? && !call.AbortCall? then EncResult(s', [first], true)
      else if s'.nextRecord >= MAX_UINT64 || transport.OneWritten? then EncResult(EncPoison(s'), [first], false)
      else
        var eof := Record(EofType, s'.nextRecord, EofMeta(s.sessionId), []);
        EncResult(s'.(nextRecord := s'.nextRecord + 1, status := Terminal), [first, eof], true)
  }

  /** NewEncoder: the first record is SESSION with sequence number zero. */
  function NewEncoder(session: Session): Option<EncState> {
    if !SessionOk(session) then None
    else Some(EncState(session.sessionId, NewSources(session), 1, false, false, false, Active))
  }

  function SessionRecord(session: Session): Record {
    Record(SessionType, 0, SessionMeta(session), [])
  }

  datatype Attempt = Attempt(call: Call, transport: Transport)

  /** A session driven through any attempted calls: the encoder's state and every record it finished writing. */
  function EncRun(H: Hash, session: Session, attempts: seq<Attempt>): Option<(EncState, seq<Record>)> {
    if attempts == [] then
      match NewEncoder(session)
      case None => None
      case Some(s) => Some((s, [SessionRecord(session)]))
    else
      match EncRun(H, session, attempts[..|attempts| - 1])
      case None => None
      case Some((s, written)) =>
        var last := attempts[|attempts| - 1];
        var step := EncStep(H, s, last.call, last.transport);
        Some((step.state, written + step.records))
  }

  // ---------------------------------------------------------------- decoder

  datatype DecPhase = Initial | Open | Closing | EofSeen | Completed | Broken

  datatype DecState = DecState(
    phase: DecPhase, sessionId: string, sources: map<string, Progress>, nextRecord: nat,
    configWritten: bool, recordsStarted: bool, endingStarted: bool)

  const NewDecoder: DecState := DecState(Initial, "", map[], 0, false, false, false)

  function DecPoison(d: DecState): DecState {
    d.(phase := Broken)
  }

  function Accept(H: Hash, d: DecState, r: Record): Option<DecState> {
    match r.rtype
    case SessionType => AcceptSession(d, r)
    case RadarConfigType => AcceptRadarConfig(H, d, r)
    case RadarStartType => AcceptRadarStart(d, r)
    case ItemType => AcceptItem(d, r)
    case EndType => AcceptEnd(H, d, r)
    case CommitType => AcceptCommit(d, r)
    case AbortType => AcceptAbort(d, r)
    case EofType => AcceptEof(d, r)
  }

  function AcceptSession(d: DecState, r: Record): Option<DecState> {
    if !d.phase.Initial? || r.recordSeq != 0 || !r.meta.SessionMeta? || !SessionOk(r.meta.session) then None
    else Some(d.(sessionId := r.meta.session.sessionId, sources := NewSources(r.meta.session), phase := Open))
  }

  function AcceptRadarConfig(H: Hash, d: DecState, r: Record): Option<DecState> {
    if !d.phase.Open? || d.configWritten || d.recordsStarted || !r.meta.RadarConfigMeta? then None
    else if r.meta.sourceId !in d.sources || !d.sources[r.meta.sourceId].contract.kind.Radar? then None
    else if !FormatOk(r.meta.format) || r.meta.sizeBytes != |r.payload| || !DigestOk(r.meta.digest) then None
    else if r.meta.digest != H(r.payload) then None
    else Some(d.(configWritten := true))
  }

  function AcceptRadarStart(d: DecState, r: Record): Option<DecState> {
    if !d.phase.Open? || d.endingStarted || !r.meta.RadarStartMeta? then None
    else if r.meta.sourceId !in d.sources || !d.sources[r.meta.sourceId].contract.kind.Radar? then None
    else
      var p := d.sources[r.meta.sourceId];
      if p.radarStarted || p.nextItem != 0 || p.ended || r.meta.hostLower > r.meta.hostUpper then None
      else Some(d.(sources := d.sources[r.meta.sourceId := p.(radarStarted := true)]))
  }

  function AcceptItem(d: DecState, r: Record): Option<DecState> {
    if !d.phase.Open? || d.endingStarted || !r.meta.ItemMeta? then None
    else if !r.meta.provisional || r.meta.sourceId !in d.sources || d.sources[r.meta.sourceId].ended then None
    else
      var p := d.sources[r.meta.sourceId];
      if p.contract.kind.Radar? && !p.radarStarted then None
      else if r.meta.itemIndex != p.nextItem then None
      else if || p.nextItem >= p.contract.limits.maxItems || |r.payload| > p.contract.limits.maxItemBytes
              || |r.payload| > p.contract.limits.maxPayloadBytes - p.payloadBytes then None
      else if !ItemTimeOk(p.contract.clock, r.meta.tick, r.meta.wrapCount, r.meta.durationTicks) then None
      else Some(d.(sources := d.sources[r.meta.sourceId := AddItem(p, r.payload)], recordsStarted := true))
  }

  function AcceptEnd(H: Hash, d: DecState, r: Record): Option<DecState> {
    if !d.phase.Open? || !r.meta.EndMeta? then None
    else if r.meta.sourceId !in d.sources || d.sources[r.meta.sourceId].ended || !DigestOk(r.meta.digest) then None
    else
      var p := d.sources[r.meta.sourceId];
      if !OutcomeOk(r.meta.outcome) then None
      else if r.meta.itemCount != p.nextItem || r.meta.payloadBytes != p.payloadBytes || r.meta.digest != H(p.hashed) then None
      else Some(d.(sources := d.sources[r.meta.sourceId := p.(ended := true, outcome := r.meta.outcome)],
                   recordsStarted := true, endingStarted := true))
  }

  function AcceptCommit(d: DecState, r: Record): Option<DecState> {
    if !d.phase.Open? || !CommitReady(d.sources) || !r.meta.CommitMeta? then None
    else if r.meta.sessionId != d.sessionId || !DigestOk(r.meta.digest) || !ArtifactOk(r.meta.sessionJsonBytes) then None
    else Some(d.(phase := Closing))
  }

  function AcceptAbort(d: DecState, r: Record): Option<DecState> {
    if !d.phase.Open? || !r.meta.AbortMeta? || r.meta.sessionId != d.sessionId || !ReasonOk(r.meta.reason) then None
    else Some(d.(phase := Closing))
  }

  function AcceptEof(d: DecState, r: Record): Option<DecState> {
    if !d.phase.Closing? || !r.meta.EofMeta? || r.meta.sessionId != d.sessionId then None
    else Some(d.(phase := EofSeen))
  }

  /** What readRecord delivers. */
  datatype Input = Framed(record: Record) | TransportEof | Malformed

  function DecStep(H: Hash, d: DecState, input: Input): DecState {
    if d.phase.Broken? || d.phase.Completed? then d
    else
      match input
      case TransportEof => if d.phase.EofSeen? then d.(phase := Completed) else DecPoison(d)
      case Malformed => DecPoison(d)
      case Framed(r) =>
        if !WirePayloadOk(r.rtype, |r.payload|) || r.recordSeq != d.nextRecord || r.recordSeq >= MAX_UINT64 then DecPoison(d)
        else
          match Accept(H, d, r)
          case None => DecPoison(d)
          case Some(d') => d'.(nextRecord := d.nextRecord + 1)
  }

  /** Reads the records one by one. */
  function DecAll(H: Hash, records: seq<Record>): DecState {
    if records == [] then NewDecoder
    else DecStep(H, DecAll(H, records[..|records| - 1]), Framed(records[|records| - 1]))
  }
}
