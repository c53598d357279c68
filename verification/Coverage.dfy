/** One frame being reassembled (internal/capturestream/coverage.go). */
module Coverage {
  import opened Bytes
  import opened Intervals

  const MAX_RANGES_PER_FRAME: nat := 256

  /** The value of a frame spool: its buffer, the covered ranges and the covered byte count. */
  datatype Spool = Spool(data: seq<byte>, ranges: seq<Range>, covered: int)

  predicate ValidSpool(sp: Spool, frameBytes: nat) {
    && |sp.data| == frameBytes
    && Canonical(sp.ranges)
    && Within(sp.ranges, 0, frameBytes)
    && sp.covered == Total(sp.ranges)
    && |sp.ranges| <= MAX_RANGES_PER_FRAME
  }

  function EmptySpool(frameBytes: nat): Spool {
    Spool(seq(frameBytes, _ => 0), [], 0)
  }

  lemma EmptyValid(frameBytes: nat)
    ensures ValidSpool(EmptySpool(frameBytes), frameBytes)
    ensures forall x :: !Covers(EmptySpool(frameBytes).ranges, x)
  {
  }

  datatype Refusal = InvalidRange | OverlapsCoverage | SparseLimit
  datatype Check = Fits | Refused(reason: Refusal)

  function PreflightSpool(sp: Spool, start: int, end: int): Check {
    if start < 0 || end <= start || end > |sp.data| then Refused(InvalidRange)
    else if Overlaps(sp.ranges, Range(start, end)) then Refused(OverlapsCoverage)
    else if |Insert(sp.ranges, Range(start, end))| > MAX_RANGES_PER_FRAME then Refused(SparseLimit)
    else Fits
  }

  /** Copies the payload to position start, clipped to the buffer, and records its range. */
  function ApplySpool(sp: Spool, start: int, payload: seq<byte>): Spool {
    Spool(seq(|sp.data|, x requires 0 <= x < |sp.data| =>
                if start <= x < start + |payload| then payload[x - start] else sp.data[x]),
          Insert(sp.ranges, Range(start, start + |payload|)),
          sp.covered + |payload|)
  }

  predicate Complete(sp: Spool) {
    && sp.covered == |sp.data|
    && |sp.ranges| == 1
    && sp.ranges[0] == Range(0, |sp.data|)
  }

  /** A fitting fragment keeps the spool valid, changes only its own bytes and extends the coverage by exactly them. */
  lemma ApplyCorrect(sp: Spool, frameBytes: nat, start: nat, payload: seq<byte>)
    requires ValidSpool(sp, frameBytes)
    requires PreflightSpool(sp, start, start + |payload|).Fits?
    ensures var sp' := ApplySpool(sp, start, payload);
            && ValidSpool(sp', frameBytes)
            && (forall x :: Covers(sp'.ranges, x) <==> Covers(sp.ranges, x) || start <= x < start + |payload|)
            && (forall x | 0 <= x < frameBytes ::
                  sp'.data[x] == if start <= x < start + |payload| then payload[x - start] else sp.data[x])
  {
    var a := Range(start, start + |payload|);
    InsertCorrect(sp.ranges, a);
    InsertTotal(sp.ranges, a);
    InsertWithin(sp.ranges, a, 0, frameBytes);
  }

  /** complete() holds exactly when every byte of the frame is covered. */
  lemma CompleteIffCovered(sp: Spool, frameBytes: nat)
    requires ValidSpool(sp, frameBytes) && frameBytes > 0
    ensures Complete(sp) <==> forall x | 0 <= x < frameBytes :: Covers(sp.ranges, x)
  {
    var whole := [Range(0, frameBytes)];
    if Complete(sp) {
      assert sp.ranges == whole;
      forall x | 0 <= x < frameBytes
        ensures Covers(sp.ranges, x)
      {
        assert Contains(sp.ranges[0], x);
      }
    }
    if forall x | 0 <= x < frameBytes :: Covers(sp.ranges, x) {
      forall x
        ensures Covers(sp.ranges, x) <==> Covers(whole, x)
      {
        if 0 <= x < frameBytes {
          assert Contains(whole[0], x);
        }
      }
      CanonicalUnique(sp.ranges, whole);
      assert Total(whole) == frameBytes + Total(whole[1..]);
      assert Complete(sp);
    }
  }

  /** preflight: the checks made before anything is written. */
  method CheckRange(frame: Spool, start: int, end: int) returns (check: Check)
    requires Canonical(frame.ranges)
    ensures check == PreflightSpool(frame, start, end)
  {
    if start < 0 || end <= start || end > |frame.data| {
      return Refused(InvalidRange);
    }
    var verdict := Preflight(frame.ranges, Range(start, end), MAX_RANGES_PER_FRAME);
    return match verdict
           case Overlapping => Refused(OverlapsCoverage)
           case TooSparse => Refused(SparseLimit)
           case Accepted => Fits;
  }

  /** apply: copies the payload into the buffer and extends the coverage. */
  method Apply(frame: Spool, start: nat, payload: seq<byte>) returns (applied: Spool)
    requires Canonical(frame.ranges) && payload != [] && start + |payload| <= |frame.data|
    ensures applied == ApplySpool(frame, start, payload)
  {
    var ranges := AddRange(frame.ranges, Range(start, start + |payload|));
    applied := Spool(frame.data[..start] + payload + frame.data[start + |payload|..], ranges, frame.covered + |payload|);
  }

  /** frameSpool: a reusable frame buffer filled in place. */
  class FrameSpool {
    const data: array<byte>
    var ranges: seq<Range>
    var covered: int

    ghost function Value(): Spool
      reads this, data
    {
      Spool(data[..], ranges, covered)
    }

    constructor (frameBytes: nat)
      ensures fresh(data) && Value() == EmptySpool(frameBytes)
    {
      data := new byte[frameBytes](_ => 0);
      ranges, covered := [], 0;
      new;
      assert data[..] == EmptySpool(frameBytes).data;
    }

    method Preflight(start: int, end: int) returns (check: Check)
      requires Canonical(ranges)
      ensures check == PreflightSpool(Value(), start, end)
    {
      check := CheckRange(Spool(data[..], ranges, covered), start, end);
    }

    method Fill(start: nat, payload: seq<byte>)
      requires Canonical(ranges) && payload != [] && start + |payload| <= data.Length
      modifies this, data
      ensures Value() == ApplySpool(old(Value()), start, payload)
    {
      CopyInto(data, start, payload);
      ranges := AddRange(ranges, Range(start, start + |payload|));
      covered := covered + |payload|;
    }

    method IsComplete() returns (complete: bool)
      ensures complete == Complete(Value())
    {
      return covered == data.Length && |ranges| == 1 && ranges[0] == Range(0, data.Length);
    }
  }
}
