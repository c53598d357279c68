/**
  Which writes the capture mirror admits, said of the output, the frames and the counts alone: no range list, slot map or
  preflight appears in the conditions.
 */
module MirrorAdmission {
  import opened Bytes
  import opened Common
  import opened Intervals
  import opened Coverage
  import opened MirrorModel
  import opened MirrorSafety

  // ---------------------------------------------------------------- the conditions

  /** The positions of frame k that the output holds. */
  ghost function WrittenIn(c: Config, output: map<int, byte>, k: int): set<int> {
    set x | x in Span(0, c.frameBytes) && At(c, k, x) in output
  }

  /** The positions of frame k that the write reaches. */
  ghost function ReachedIn(c: Config, length: int, offset: int, k: int): set<int> {
    set x | x in Span(0, c.frameBytes) && offset <= At(c, k, x) < offset + length
  }

  ghost function Touched(c: Config, length: int, offset: int): set<int> {
    set k | k in Span(0, c.frameLimit) && ReachedIn(c, length, offset, k) != {}
  }

  /** The frames that are begun and not yet emitted. */
  ghost function Started(c: Config, s: State): set<int> {
    set k | k in Span(s.nextEmit, c.frameLimit) && WrittenIn(c, s.output, k) != {}
  }

  /** The write is nonempty, inside the capture, and begins in no emitted frame. */
  predicate InPlace(c: Config, s: State, length: int, offset: int) {
    0 < length && 0 <= offset && offset + length <= At(c, c.frameLimit, 0) && At(c, s.nextEmit, 0) <= offset
  }

  /** The write ends inside the window of maxSlots frames, and a buffer is left for every frame it begins. */
  ghost predicate HasRoom(c: Config, s: State, length: int, offset: int) {
    && offset + length <= At(c, s.nextEmit + c.maxSlots, 0)
    && |Started(c, s) + Touched(c, length, offset)| + |s.queue| + InHand(s) <= c.maxSlots
  }

  /** Some byte of frame k would be written twice. */
  ghost predicate Clashes(c: Config, s: State, length: int, offset: int, k: int) {
    exists x :: x in ReachedIn(c, length, offset, k) && x in WrittenIn(c, s.output, k)
  }

  /** Frame k would hold more separate runs of bytes than its range list may. */
  ghost predicate Scatters(c: Config, s: State, length: int, offset: int, k: int) {
    |RunStarts(WrittenIn(c, s.output, k) + ReachedIn(c, length, offset, k))| > MAX_RANGES_PER_FRAME
  }

  ghost predicate Offends(c: Config, s: State, length: int, offset: int, k: int) {
    Clashes(c, s, length, offset, k) || Scatters(c, s, length, offset, k)
  }

  ghost predicate Admissible(c: Config, s: State, length: int, offset: int) {
    && InPlace(c, s, length, offset) && HasRoom(c, s, length, offset)
    && (forall o | offset <= o < offset + length :: o !in s.output)
    && forall k | k in Touched(c, length, offset) :: !Scatters(c, s, length, offset, k)
  }

  /** The first frame of the write at fault decides: a byte written twice is an integrity failure, scatter is backpressure. */
  ghost predicate FirstFault(c: Config, s: State, length: int, offset: int, f: Failure) {
    exists k ::
      && k in Touched(c, length, offset) && Offends(c, s, length, offset, k)
      && (forall j | j in Touched(c, length, offset) && j < k :: !Offends(c, s, length, offset, j))
      && f == if Clashes(c, s, length, offset, k) then Integrity else Backpressure
  }

  /** Why a write that is not admissible is refused. */
  ghost predicate Fault(c: Config, s: State, length: int, offset: int, f: Failure) {
    if !InPlace(c, s, length, offset) then f == Integrity
    else if !HasRoom(c, s, length, offset) then f == Backpressure
    else FirstFault(c, s, length, offset, f)
  }

  // ---------------------------------------------------------------- what the state's own terms mean

  lemma WrittenIsCovered(c: Config, s: State, k: int)
    requires Inv(c, s) && s.phase.Open? && s.nextEmit <= k < c.frameLimit
    ensures Canonical(SlotAt(c, s.slots, k).ranges) && |SlotAt(c, s.slots, k).data| == c.frameBytes
    ensures WrittenIn(c, s.output, k) == CoveredSet(SlotAt(c, s.slots, k).ranges)
  {
    hide PipelineInv, CountInv, PhaseInv, EmittedInv, Total, Covers;
    var rs := SlotAt(c, s.slots, k).ranges;
    EmptyValid(c.frameBytes);
    if k in s.slots {
      assert SlotMirrors(c, s.output, k, s.slots[k]);
    }
    TotalIsSize(rs);
    forall x
      ensures x in WrittenIn(c, s.output, k) <==> Covers(rs, x)
    {
      if 0 <= x < c.frameBytes {
        AtFrame(c, k, x);
        if At(c, k, x) in s.output {
          assert Accounted(c, s, At(c, k, x));
        }
      } else {
        OutsideFrame(rs, c.frameBytes, x);
      }
    }
  }

  lemma OutsideFrame(rs: seq<Range>, frameBytes: int, x: int)
    requires Within(rs, 0, frameBytes) && !(0 <= x < frameBytes)
    ensures !Covers(rs, x)
  {
  }

  lemma ReachedIsFragment(c: Config, length: int, offset: int, k: int)
    ensures ReachedIn(c, length, offset, k) == Span(FragmentStart(c, offset, k), FragmentEnd(c, offset, length, k))
  {
    hide At;
    AtShift(c, k);
    forall x
      ensures x in ReachedIn(c, length, offset, k) <==> FragmentStart(c, offset, k) <= x < FragmentEnd(c, offset, length, k)
    {
      if 0 <= x < c.frameBytes {
        FragmentMember(c, offset, length, k, x);
      }
    }
  }

  /** The spool's answer to a fragment, in terms of the output. */
  lemma FragmentVerdict(c: Config, s: State, length: int, offset: int, k: int)
    requires Inv(c, s) && s.phase.Open? && s.nextEmit <= k < c.frameLimit && ReachedIn(c, length, offset, k) != {}
    ensures var check := PreflightSpool(SlotAt(c, s.slots, k), FragmentStart(c, offset, k), FragmentEnd(c, offset, length, k));
            check == if Clashes(c, s, length, offset, k) then Refused(OverlapsCoverage)
                     else if Scatters(c, s, length, offset, k) then Refused(SparseLimit) else Fits
  {
    WrittenIsCovered(c, s, k);
    ReachedIsFragment(c, length, offset, k);
    FragmentInside(c, length, offset, k);
    var rs := SlotAt(c, s.slots, k).ranges;
    InsertRuns(rs, Range(FragmentStart(c, offset, k), FragmentEnd(c, offset, length, k)));
    hide Inv, WrittenIn, ReachedIn, Canonical, Insert, Overlaps, At, RunStarts, CoveredSet, FragmentStart, FragmentEnd;
  }

  lemma FragmentInside(c: Config, length: int, offset: int, k: int)
    requires ReachedIn(c, length, offset, k) != {}
    ensures 0 <= FragmentStart(c, offset, k) < FragmentEnd(c, offset, length, k) <= c.frameBytes
  {
    ReachedIsFragment(c, length, offset, k);
    hide ReachedIn, At;
    assert exists x :: x in ReachedIn(c, length, offset, k);
  }

  lemma TouchedIsSpan(c: Config, length: int, offset: int)
    requires 0 < length && 0 <= offset && offset + length <= At(c, c.frameLimit, 0)
    ensures Touched(c, length, offset) == Span(FirstFrame(c, offset), LastFrame(c, offset, length) + 1)
  {
    hide At;
    BelowFrame(c, offset + length - 1, c.frameLimit);
    BelowFrame(c, offset, 0);
    forall k
      ensures k in Touched(c, length, offset) <==> FirstFrame(c, offset) <= k <= LastFrame(c, offset, length)
    {
      if FirstFrame(c, offset) <= k <= LastFrame(c, offset, length) {
        Reaches(c, length, offset, k);
      } else if k in Touched(c, length, offset) {
        var x :| x in ReachedIn(c, length, offset, k);
        FragmentMember(c, offset, length, k, x);
      }
    }
  }

  /** Every frame from the first to the last holds a byte of the write. */
  lemma Reaches(c: Config, length: int, offset: int, k: int)
    requires 0 < length && 0 <= offset && FirstFrame(c, offset) <= k <= LastFrame(c, offset, length)
    ensures 0 <= k && ReachedIn(c, length, offset, k) != {}
  {
    hide At, ReachedIn;
    BelowFrame(c, offset, 0);
    AtShift(c, 0);
    AtZero(c);
    var x := if k == FirstFrame(c, offset) then offset % c.frameBytes else 0;
    if k == FirstFrame(c, offset) {
      AtInverse(c, offset);
    } else {
      BelowFrame(c, offset, k);
      BelowFrame(c, offset + length - 1, k);
    }
    ReachedAt(c, length, offset, k, x);
  }

  lemma AtZero(c: Config)
    ensures At(c, 0, 0) == 0
  {
  }

  lemma ReachedAt(c: Config, length: int, offset: int, k: int, x: int)
    requires 0 <= x < c.frameBytes && offset <= At(c, k, x) < offset + length
    ensures x in ReachedIn(c, length, offset, k)
  {
    hide At;
  }

  lemma SlotsAreStarted(c: Config, s: State)
    requires Inv(c, s) && s.phase.Open?
    ensures s.slots.Keys == Started(c, s)
  {
    hide PipelineInv, CountInv, PhaseInv, EmittedInv, Covers, Total, At;
    forall k
      ensures k in s.slots <==> k in Started(c, s)
    {
      if k in s.slots {
        assert s.nextEmit <= k < c.frameLimit && SlotMirrors(c, s.output, k, s.slots[k]);
        WrittenIsCovered(c, s, k);
        FirstCovered(s.slots[k].ranges);
      } else if s.nextEmit <= k < c.frameLimit {
        WrittenIsCovered(c, s, k);
      }
    }
  }

  lemma FirstCovered(rs: seq<Range>)
    requires rs != [] && Canonical(rs)
    ensures CoveredSet(rs) != {}
  {
    assert rs[0].start in CoveredSet(rs);
  }

  /** The slots a write needs beyond the reserved ones, counted as frames. */
  lemma RoomIsSlots(c: Config, s: State, length: int, offset: int)
    requires Inv(c, s) && s.phase.Open? && InPlace(c, s, length, offset)
    ensures Missing(s.slots.Keys, FirstFrame(c, offset), LastFrame(c, offset, length)) > c.maxSlots - s.reserved <==>
            |Started(c, s) + Touched(c, length, offset)| + |s.queue| + InHand(s) > c.maxSlots
  {
    SlotsAreStarted(c, s);
    TouchedIsSpan(c, length, offset);
    MissingCount(s.slots.Keys, FirstFrame(c, offset), LastFrame(c, offset, length));
    KeysCount(s.slots);
    hide SlotsInv, PipelineInv, PhaseInv, EmittedInv, ExactInv, At, Touched, Started, Missing, SlotCount;
  }

  lemma KeysCount(slots: map<int, Spool>)
    ensures SlotCount(slots) == |slots.Keys|
  {
  }

  // ---------------------------------------------------------------- the plan

  /** The fragment loop answers for the first frame at fault. */
  lemma {:induction false} ChecksFirstFault(c: Config, s: State, length: int, offset: int, k: int, last: int)
    requires Inv(c, s) && s.phase.Open? && s.nextEmit <= k && last < c.frameLimit
    requires forall j | k <= j <= last :: ReachedIn(c, length, offset, j) != {}
    ensures match CheckFragments(c, s.slots, offset, length, k, last)
            case None => forall j | k <= j <= last :: !Offends(c, s, length, offset, j)
            case Some(f) =>
              exists j ::
                && k <= j <= last && Offends(c, s, length, offset, j)
                && (forall i | k <= i < j :: !Offends(c, s, length, offset, i))
                && f == if Clashes(c, s, length, offset, j) then Integrity else Backpressure
    decreases last - k
  {
    hide Inv, PreflightSpool, Clashes, Scatters, ReachedIn;
    if k <= last {
      FragmentVerdict(c, s, length, offset, k);
      if !Offends(c, s, length, offset, k) {
        ChecksFirstFault(c, s, length, offset, k + 1, last);
      }
    }
  }

  lemma PlanAnswers(c: Config, s: State, length: nat, offset: int)
    requires Inv(c, s) && s.phase.Open?
    ensures match Plan(c, s, length, offset)
            case None => Admissible(c, s, length, offset)
            case Some(f) => !Admissible(c, s, length, offset) && Fault(c, s, length, offset, f)
  {
    hide Inv, CheckFragments, Missing, At, Touched, Started, Clashes, Scatters, FirstFrame, LastFrame, FirstFault, Offends;
    if InPlace(c, s, length, offset) {
      PlaceInFrames(c, s, length, offset);
      RoomIsSlots(c, s, length, offset);
      if HasRoom(c, s, length, offset) {
        RoomyAnswers(c, s, length, offset);
      }
    } else {
      OutOfPlace(c, s, length, offset);
    }
  }

  lemma RoomyAnswers(c: Config, s: State, length: nat, offset: int)
    requires Inv(c, s) && s.phase.Open? && InPlace(c, s, length, offset)
    ensures match CheckFragments(c, s.slots, offset, length, FirstFrame(c, offset), LastFrame(c, offset, length))
            case None =>
              && (forall o | offset <= o < offset + length :: o !in s.output)
              && forall k | k in Touched(c, length, offset) :: !Scatters(c, s, length, offset, k)
            case Some(f) =>
              && FirstFault(c, s, length, offset, f)
              && !((forall o | offset <= o < offset + length :: o !in s.output)
                   && forall k | k in Touched(c, length, offset) :: !Scatters(c, s, length, offset, k))
  {
    hide Inv, CheckFragments, At, Touched, Clashes, Scatters, FirstFault, Offends;
    PlaceInFrames(c, s, length, offset);
    TouchedIsSpan(c, length, offset);
    hide FirstFrame, LastFrame, InPlace;
    var first, last := FirstFrame(c, offset), LastFrame(c, offset, length);
    forall j | first <= j <= last
      ensures ReachedIn(c, length, offset, j) != {}
    {
      InPlaceReaches(c, s, length, offset, j);
    }
    ChecksFirstFault(c, s, length, offset, first, last);
    NoneWritten(c, s, length, offset);
    FaultInSpan(c, s, length, offset, first, last);
  }

  lemma InPlaceReaches(c: Config, s: State, length: nat, offset: int, k: int)
    requires InPlace(c, s, length, offset) && FirstFrame(c, offset) <= k <= LastFrame(c, offset, length)
    ensures ReachedIn(c, length, offset, k) != {}
  {
    Reaches(c, length, offset, k);
  }

  lemma PlaceInFrames(c: Config, s: State, length: nat, offset: int)
    requires InPlace(c, s, length, offset)
    ensures s.nextEmit <= FirstFrame(c, offset) && LastFrame(c, offset, length) < c.frameLimit
    ensures LastFrame(c, offset, length) - s.nextEmit < c.maxSlots <==> offset + length <= At(c, s.nextEmit + c.maxSlots, 0)
  {
    hide At;
    BelowFrame(c, offset, s.nextEmit);
    BelowFrame(c, offset + length - 1, c.frameLimit);
    BelowFrame(c, offset + length - 1, s.nextEmit + c.maxSlots);
  }

  lemma OutOfPlace(c: Config, s: State, length: nat, offset: int)
    requires !InPlace(c, s, length, offset)
    ensures Plan(c, s, length, offset) == Some(Integrity)
  {
    hide Missing, CheckFragments, At;
    BelowFrame(c, offset, s.nextEmit);
  }

  /** Byte by byte or frame by frame: nothing would be written twice. */
  lemma NoneWritten(c: Config, s: State, length: nat, offset: int)
    requires InPlace(c, s, length, offset)
    ensures (forall o | offset <= o < offset + length :: o !in s.output) <==>
            (forall k | k in Touched(c, length, offset) :: !Clashes(c, s, length, offset, k))
  {
    hide At;
    if forall k | k in Touched(c, length, offset) :: !Clashes(c, s, length, offset, k) {
      forall o | offset <= o < offset + length
        ensures o !in s.output
      {
        var k, x := o / c.frameBytes, o % c.frameBytes;
        AtInverse(c, o);
        BelowFrame(c, o, c.frameLimit);
        BelowFrame(c, o, 0);
        assert x in ReachedIn(c, length, offset, k) && k in Touched(c, length, offset);
        assert x in WrittenIn(c, s.output, k) ==> Clashes(c, s, length, offset, k);
      }
    }
  }

  lemma FaultInSpan(c: Config, s: State, length: nat, offset: int, first: int, last: int)
    requires Touched(c, length, offset) == Span(first, last + 1)
    ensures forall f ::
              (exists j ::
                 && first <= j <= last && Offends(c, s, length, offset, j)
                 && (forall i | first <= i < j :: !Offends(c, s, length, offset, i))
                 && f == if Clashes(c, s, length, offset, j) then Integrity else Backpressure)
              ==> FirstFault(c, s, length, offset, f)
    ensures (forall j | first <= j <= last :: !Offends(c, s, length, offset, j)) <==>
            (forall k | k in Touched(c, length, offset) :: !Clashes(c, s, length, offset, k))
            && (forall k | k in Touched(c, length, offset) :: !Scatters(c, s, length, offset, k))
  {
    hide Touched, Clashes, Scatters;
    assert forall k | k in Touched(c, length, offset) ::
        Offends(c, s, length, offset, k) <==> Clashes(c, s, length, offset, k) || Scatters(c, s, length, offset, k);
  }

  // ---------------------------------------------------------------- main result

  lemma OpenUnfailed(c: Config, s: State)
    requires Inv(c, s) && s.phase.Open?
    ensures s.failure.None?
  {
  }

  /** A refused write fails an open mirror with the reason, whatever the output would have done. */
  lemma RefusedFails(c: Config, s: State, payload: seq<byte>, offset: int, outcome: Outcome)
    requires s.phase.Open? && s.failure.None? && Plan(c, s, |payload|, offset).Some?
    ensures var s' := WriteNext(c, s, payload, offset, outcome);
            s'.phase.Aborted? && s'.failure == Plan(c, s, |payload|, offset) && s'.output == s.output
  {
    hide Plan, SlotCount;
  }

  /** What a stored write does to an open mirror. */
  ghost predicate Decides(c: Config, s: State, payload: seq<byte>, offset: int, s': State) {
    && (s'.phase.Open? <==> Admissible(c, s, |payload|, offset))
    && (s'.phase.Open? ==> s'.failure.None? && s'.output == s.output + Image(payload, offset))
    && (!s'.phase.Open? ==>
          && s'.phase.Aborted? && s'.output == s.output
          && s'.failure.Some? && Fault(c, s, |payload|, offset, s'.failure.value))
  }

  lemma WriteDecides(c: Config, s: State, payload: seq<byte>, offset: int)
    requires Inv(c, s) && s.phase.Open?
    ensures Decides(c, s, payload, offset, WriteNext(c, s, payload, offset, Stored))
  {
    OpenUnfailed(c, s);
    hide Plan, Admissible, Fault, Inv, Image, EnqueueComplete, Stored1;
    PlanAnswers(c, s, |payload|, offset);
    if Plan(c, s, |payload|, offset).None? {
      PlanFacts(c, s, |payload|, offset);
      StoredInv(c, s, payload, offset);
      EnqueueInv(c, Stored1(c, s, payload, offset));
      StoredOutput(c, s, payload, offset);
    } else {
      RefusedFails(c, s, payload, offset, Stored);
    }
  }

  /**
    In every run an open mirror takes a stored write, and stays open, if and only if the write is admissible: nonempty, inside
    the capture, not before the next frame to emit, inside the window, with a buffer for every frame it begins, with no byte
    written before, and leaving no frame too scattered. Any other write aborts the mirror, leaves the output alone and reports
    the first condition broken.
   */
  lemma AdmitsExactly(c: Config, states: seq<State>, events: seq<Event>, i: nat, payload: seq<byte>, offset: int)
    requires IsRun(c, states, events) && i < |states| && states[i].phase.Open?
    ensures var s := states[i]; var s' := WriteNext(c, s, payload, offset, Stored);
            && (s'.phase.Open? <==> Admissible(c, s, |payload|, offset))
            && (s'.phase.Open? ==> s'.failure.None? && s'.output == s.output + Image(payload, offset))
            && (!s'.phase.Open? ==>
                  && s'.phase.Aborted? && s'.output == s.output
                  && s'.failure.Some? && Fault(c, s, |payload|, offset, s'.failure.value))
  {
    hide Admissible, Fault, WriteNext, Inv, Image;
    RunInv(c, states, events, i);
    WriteDecides(c, states[i], payload, offset);
  }

  lemma StoredOutput(c: Config, s: State, payload: seq<byte>, offset: int)
    requires s.phase.Open? && s.failure.None? && Plan(c, s, |payload|, offset).None?
    ensures WriteNext(c, s, payload, offset, Stored).output == s.output + Image(payload, offset)
  {
    hide WriteSlots, Missing, Image, EnqueueComplete;
    PlanFacts(c, s, |payload|, offset);
    hide Plan;
    EnqueueOutput(c, Stored1(c, s, payload, offset));
  }

  lemma {:induction false} EnqueueOutput(c: Config, s: State)
    ensures EnqueueComplete(c, s).output == s.output
    decreases c.frameLimit - s.nextEmit
  {
    hide Complete, SlotCount;
    if s.nextEmit < c.frameLimit && s.nextEmit in s.slots && Complete(s.slots[s.nextEmit]) && |s.queue| < c.maxSlots {
      EnqueueOutput(c, Push(s));
    }
  }

  /** No write that would be refused reaches the output, also one that the output would have damaged. */
  lemma RefusedBeforeWriting(
    c: Config, states: seq<State>, events: seq<Event>, i: nat, payload: seq<byte>, offset: int, outcome: Outcome)
    requires IsRun(c, states, events) && i < |states| && states[i].phase.Open?
    requires !Admissible(c, states[i], |payload|, offset)
    ensures var s' := WriteNext(c, states[i], payload, offset, outcome); s'.phase.Aborted? && s'.output == states[i].output
  {
    hide Plan, Admissible, Fault, WriteNext, Inv;
    RunInv(c, states, events, i);
    OpenUnfailed(c, states[i]);
    PlanAnswers(c, states[i], |payload|, offset);
    RefusedFails(c, states[i], payload, offset, outcome);
  }

  /** An admissible write that the output damages aborts the mirror and says so, with whatever the damage left. */
  lemma DamageFails(
    c: Config, states: seq<State>, events: seq<Event>, i: nat, payload: seq<byte>, offset: int, region: map<int, byte>)
    requires IsRun(c, states, events) && i < |states| && states[i].phase.Open?
    requires Admissible(c, states[i], |payload|, offset)
    ensures var s' := WriteNext(c, states[i], payload, offset, Damaged(region));
            s'.phase.Aborted? && s'.failure == Some(WriteFailed) && s'.output == states[i].output + region
  {
    hide Plan, Admissible, Fault, Inv, SlotCount;
    RunInv(c, states, events, i);
    OpenUnfailed(c, states[i]);
    PlanAnswers(c, states[i], |payload|, offset);
  }
}
