/**
  Sorted lists of half-open byte ranges. The capture mirror keeps one such list per
  frame and the DCA1000 receiver keeps one for the whole output; both packages carry
  the same insertion and preflight loops, so they are modelled once here.
 */
module Intervals {

  datatype Range = Range(start: int, end: int)

  predicate Contains(r: Range, x: int) {
    r.start <= x < r.end
  }

  /** Nonempty ranges in increasing order, with at least one uncovered byte between neighbours. */
  predicate Canonical(rs: seq<Range>) {
    && (forall i | 0 <= i < |rs| :: rs[i].start < rs[i].end)
    && (forall i, j | 0 <= i < j < |rs| :: rs[i].end < rs[j].start)
  }

  predicate Within(rs: seq<Range>, lo: int, hi: int) {
    forall i | 0 <= i < |rs| :: lo <= rs[i].start && rs[i].end <= hi
  }

  ghost predicate Covers(rs: seq<Range>, x: int) {
    exists i | 0 <= i < |rs| :: Contains(rs[i], x)
  }

  predicate Disjoint(r: Range, a: Range) {
    r.end <= a.start || a.end <= r.start
  }

  predicate Overlaps(rs: seq<Range>, a: Range) {
    exists i | 0 <= i < |rs| :: !Disjoint(rs[i], a)
  }

  /** Sum of the range lengths. */
  function Total(rs: seq<Range>): int {
    if rs == [] then 0 else rs[0].end - rs[0].start + Total(rs[1..])
  }

  function Join(a: Range, b: Range): Range {
    Range(if b.start < a.start then b.start else a.start,
          if b.end > a.end then b.end else a.end)
  }

  /** Insertion that absorbs every range touching the addition. */
  function Insert(rs: seq<Range>, a: Range): seq<Range> {
    if rs == [] then [a]
    else if rs[0].end < a.start then [rs[0]] + Insert(rs[1..], a)
    else if rs[0].start <= a.end then Insert(rs[1..], Join(a, rs[0]))
    else [a] + rs
  }

  lemma CanonicalTail(rs: seq<Range>)
    requires rs != [] && Canonical(rs)
    ensures Canonical(rs[1..])
    ensures forall x :: Covers(rs, x) <==> Contains(rs[0], x) || Covers(rs[1..], x)
  {
    forall x
      ensures Covers(rs, x) <==> Contains(rs[0], x) || Covers(rs[1..], x)
    {
      CoversCons(rs[0], rs[1..], x);
      assert rs == [rs[0]] + rs[1..];
    }
  }

  lemma CoversCons(r: Range, rs: seq<Range>, x: int)
    ensures Covers([r] + rs, x) <==> Contains(r, x) || Covers(rs, x)
  {
    var all := [r] + rs;
    if Covers(rs, x) {
      var i :| 0 <= i < |rs| && Contains(rs[i], x);
      assert Contains(all[i + 1], x);
    }
    if Contains(r, x) {
      assert Contains(all[0], x);
    }
    if Covers(all, x) {
      var i :| 0 <= i < |all| && Contains(all[i], x);
      assert i > 0 ==> Contains(rs[i - 1], x);
    }
  }

  /** The new list is canonical, covers exactly the old bytes and the addition, and starts no earlier than either. */
  lemma {:induction false} InsertCorrect(rs: seq<Range>, a: Range)
    requires Canonical(rs) && a.start < a.end
    ensures Canonical(Insert(rs, a)) && Insert(rs, a) != []
    ensures forall x :: Covers(Insert(rs, a), x) <==> Covers(rs, x) || Contains(a, x)
    ensures Insert(rs, a)[0].start == if rs != [] && rs[0].start < a.start then rs[0].start else a.start
    decreases |rs|
  {
    if rs == [] {
      forall x
        ensures Covers([a], x) <==> Contains(a, x)
      {
        CoversCons(a, [], x);
      }
    } else {
      CanonicalTail(rs);
      if rs[0].end < a.start {
        InsertCorrect(rs[1..], a);
        ConsCanonical(rs[0], Insert(rs[1..], a));
        forall x { CoversCons(rs[0], Insert(rs[1..], a), x); }
      } else if rs[0].start <= a.end {
        InsertCorrect(rs[1..], Join(a, rs[0]));
      } else {
        ConsCanonical(a, rs);
        forall x { CoversCons(a, rs, x); }
      }
    }
  }

  lemma ConsCanonical(r: Range, rs: seq<Range>)
    requires Canonical(rs) && r.start < r.end
    requires rs != [] ==> r.end < rs[0].start
    ensures Canonical([r] + rs)
  {
    forall j | 0 <= j < |rs|
      ensures r.end < rs[j].start
    {
      if j > 0 {
        assert rs[0].start < rs[0].end < rs[j].start;
      }
    }
  }

  /** Overlap of nonempty ranges is exactly a shared byte. */
  lemma OverlapIsSharedByte(rs: seq<Range>, a: Range)
    requires Canonical(rs) && a.start < a.end
    ensures Overlaps(rs, a) <==> exists x :: Covers(rs, x) && Contains(a, x)
  {
    if Overlaps(rs, a) {
      var i :| 0 <= i < |rs| && !Disjoint(rs[i], a);
      var x := if rs[i].start < a.start then a.start else rs[i].start;
      assert Contains(rs[i], x);
      assert Covers(rs, x) && Contains(a, x);
    }
  }

  /** An addition that meets no covered byte adds exactly its own length. */
  lemma {:induction false} InsertTotal(rs: seq<Range>, a: Range)
    requires Canonical(rs) && a.start < a.end && !Overlaps(rs, a)
    ensures Total(Insert(rs, a)) == Total(rs) + a.end - a.start
    decreases |rs|
  {
    if rs != [] {
      CanonicalTail(rs);
      var tail := rs[1..];
      assert Disjoint(rs[0], a);
      assert forall i | 0 <= i < |tail| :: tail[i] == rs[i + 1] && Disjoint(rs[i + 1], a);
      if rs[0].end < a.start {
        InsertTotal(tail, a);
        assert ([rs[0]] + Insert(tail, a))[1..] == Insert(tail, a);
      } else if rs[0].start <= a.end {
        forall i | 0 <= i < |tail|
          ensures Disjoint(tail[i], Join(a, rs[0]))
        {
          assert rs[0].end < rs[i + 1].start;
        }
        InsertTotal(tail, Join(a, rs[0]));
      } else {
        assert ([a] + rs)[1..] == rs;
      }
    } else {
      assert [a][1..] == [];
    }
  }

  lemma {:induction false} InsertWithin(rs: seq<Range>, a: Range, lo: int, hi: int)
    requires Within(rs, lo, hi) && lo <= a.start && a.end <= hi
    ensures Within(Insert(rs, a), lo, hi)
    decreases |rs|
  {
    if rs != [] {
      if rs[0].end < a.start {
        InsertWithin(rs[1..], a, lo, hi);
      } else if rs[0].start <= a.end {
        InsertWithin(rs[1..], Join(a, rs[0]), lo, hi);
      }
    }
  }

  /** A byte set has at most one canonical list: equal coverage forces equal lists. */
  lemma {:induction false} CanonicalUnique(a: seq<Range>, b: seq<Range>)
    requires Canonical(a) && Canonical(b)
    requires forall x :: Covers(a, x) <==> Covers(b, x)
    ensures a == b
    decreases |a|
  {
    assert a != [] ==> Contains(a[0], a[0].start) && Covers(a, a[0].start);
    assert b != [] ==> Contains(b[0], b[0].start) && Covers(b, b[0].start);
    if a != [] {
      FirstRangeAgrees(a, b);
      FirstRangeAgrees(b, a);
      CanonicalTail(a);
      CanonicalTail(b);
      forall x
        ensures Covers(a[1..], x) <==> Covers(b[1..], x)
      {
        TailAfterHead(a, x);
        TailAfterHead(b, x);
      }
      CanonicalUnique(a[1..], b[1..]);
      assert a == [a[0]] + a[1..] && b == [b[0]] + b[1..];
    }
  }

  lemma TailAfterHead(rs: seq<Range>, x: int)
    requires rs != [] && Canonical(rs)
    ensures Covers(rs[1..], x) ==> rs[0].end < x
  {
    if Covers(rs[1..], x) {
      var i :| 0 <= i < |rs[1..]| && Contains(rs[1..][i], x);
      assert rs[1..][i] == rs[i + 1];
    }
  }

  lemma FirstRangeAgrees(a: seq<Range>, b: seq<Range>)
    requires a != [] && b != [] && Canonical(a) && Canonical(b)
    requires forall x :: Covers(a, x) <==> Covers(b, x)
    ensures b[0].start <= a[0].start
    ensures b[0].start == a[0].start ==> a[0].end <= b[0].end
  {
    assert Contains(a[0], a[0].start) && Covers(a, a[0].start);
    var i :| 0 <= i < |b| && Contains(b[i], a[0].start);
    assert i == 0 || b[0].end < b[i].start;
    assert !Covers(b, b[0].end);
    assert !Contains(a[0], b[0].end);
  }

  /** The covered bytes as a set; Total is its size. */
  ghost function CoveredSet(rs: seq<Range>): set<int> {
    if rs == [] then {} else Span(rs[0].start, rs[0].end) + CoveredSet(rs[1..])
  }

  function Span(lo: int, hi: int): (s: set<int>)
    ensures forall x :: x in s <==> lo <= x < hi
    decreases hi - lo
  {
    if lo >= hi then {} else Span(lo, hi - 1) + {hi - 1}
  }

  lemma {:induction false} SpanSize(lo: int, hi: int)
    requires lo <= hi
    ensures |Span(lo, hi)| == hi - lo
    decreases hi - lo
  {
    if lo < hi {
      SpanSize(lo, hi - 1);
    }
  }

  lemma {:induction false} TotalIsSize(rs: seq<Range>)
    requires Canonical(rs)
    ensures forall x :: x in CoveredSet(rs) <==> Covers(rs, x)
    ensures Total(rs) == |CoveredSet(rs)|
    decreases |rs|
  {
    if rs != [] {
      CanonicalTail(rs);
      TotalIsSize(rs[1..]);
      SpanSize(rs[0].start, rs[0].end);
      forall x { TailAfterHead(rs, x); }
      assert Span(rs[0].start, rs[0].end) !! CoveredSet(rs[1..]);
    }
  }

  lemma {:induction false} SubsetSize(a: set<int>, b: set<int>)
    requires a <= b
    ensures |a| <= |b|
    ensures |a| == |b| ==> a == b
    decreases |a|
  {
    if a != {} {
      assert exists x :: x in a by {
        assert (forall x :: x !in a) ==> a == {};
      }
      var x :| x in a;
      SubsetSize(a - {x}, b - {x});
      assert a == a - {x} + {x} && b == b - {x} + {x};
    }
  }

  predicate Begins(s: set<int>, x: int) { x in s && x - 1 !in s }

  /** Where the maximal runs of consecutive numbers of a set begin. */
  ghost function RunStarts(s: set<int>): set<int> {
    set x | x in s && Begins(s, x)
  }

  lemma FirstRun(lo: int, hi: int, rest: set<int>)
    requires lo < hi && forall x :: x in rest ==> hi < x
    ensures lo !in RunStarts(rest) && RunStarts(Span(lo, hi) + rest) == {lo} + RunStarts(rest)
  {
  }

  /** A canonical list holds one range for each maximal run of the bytes it covers. */
  lemma {:induction false} RangesAreRuns(rs: seq<Range>)
    requires Canonical(rs)
    ensures |rs| == |RunStarts(CoveredSet(rs))|
    decreases |rs|
  {
    hide Total, Covers, RunStarts;
    if rs != [] {
      CanonicalTail(rs);
      RangesAreRuns(rs[1..]);
      TailBeyond(rs);
      FirstRun(rs[0].start, rs[0].end, CoveredSet(rs[1..]));
    } else {
      NoRuns();
    }
  }

  lemma NoRuns()
    ensures RunStarts({}) == {}
  {
  }

  lemma TailBeyond(rs: seq<Range>)
    requires rs != [] && Canonical(rs)
    ensures forall x :: x in CoveredSet(rs[1..]) ==> rs[0].end < x
  {
    CanonicalTail(rs);
    TotalIsSize(rs[1..]);
    forall x
      ensures x in CoveredSet(rs[1..]) ==> rs[0].end < x
    {
      TailAfterHead(rs, x);
    }
  }

  /** What insertion makes of the list, as a count of runs, and when it meets covered bytes, as sets. */
  lemma InsertRuns(rs: seq<Range>, a: Range)
    requires Canonical(rs) && a.start < a.end
    ensures |Insert(rs, a)| == |RunStarts(CoveredSet(rs) + Span(a.start, a.end))|
    ensures Overlaps(rs, a) <==> exists x :: x in Span(a.start, a.end) && x in CoveredSet(rs)
  {
    hide Covers, Total, Canonical, Insert, Overlaps, CoveredSet, RunStarts;
    InsertCorrect(rs, a);
    TotalIsSize(rs);
    TotalIsSize(Insert(rs, a));
    RangesAreRuns(Insert(rs, a));
    OverlapIsSharedByte(rs, a);
    assert CoveredSet(Insert(rs, a)) == CoveredSet(rs) + Span(a.start, a.end);
    assert forall x :: x in CoveredSet(rs) <==> Covers(rs, x);
  }

  /** The in-place insertion loop shared by addCoverageRange and addRange. */
  method AddRange(ranges: seq<Range>, addition: Range) returns (result: seq<Range>)
    requires Canonical(ranges) && addition.start < addition.end
    ensures result == Insert(ranges, addition)
  {
    result := ranges;
    var index := 0;
    while index < |result| && result[index].end < addition.start
      invariant 0 <= index <= |ranges| && result == ranges
      invariant Insert(ranges, addition) == ranges[..index] + Insert(ranges[index..], addition)
    {
      SkipOne(ranges, index, addition);
      index := index + 1;
    }
    result := AbsorbAt(result, index, addition);
  }

  /** From index on, every range that touches the addition is removed and joined to it. */
  method AbsorbAt(ranges: seq<Range>, index: nat, addition: Range) returns (result: seq<Range>)
    requires Canonical(ranges) && index <= |ranges| && (index < |ranges| ==> addition.start <= ranges[index].end)
    ensures result == ranges[..index] + Insert(ranges[index..], addition)
  {
    hide Canonical;
    var a, removed := addition, 0;
    result := ranges;
    while index < |result| && result[index].start <= a.end
      invariant 0 <= removed <= |ranges| - index && result == ranges[..index] + ranges[index + removed..]
      invariant Insert(ranges[index..], addition) == Insert(ranges[index + removed..], a)
      invariant index + removed < |ranges| ==> a.start <= ranges[index + removed].end
      decreases |ranges| - removed
    {
      AbsorbOne(ranges, index + removed, a);
      a := Join(a, result[index]);
      result := result[..index] + result[index + 1..];
      removed := removed + 1;
    }
    var rest := ranges[index + removed..];
    assert rest != [] ==> rest[0] == result[index];
    result := result[..index] + [a] + result[index..];
  }

  lemma AbsorbOne(rs: seq<Range>, i: nat, a: Range)
    requires Canonical(rs) && i < |rs| && a.start <= rs[i].end && rs[i].start <= a.end
    ensures Insert(rs[i..], a) == Insert(rs[i + 1..], Join(a, rs[i]))
    ensures i + 1 < |rs| ==> Join(a, rs[i]).start <= rs[i + 1].end
  {
    assert rs[i..][0] == rs[i] && rs[i..][1..] == rs[i + 1..];
    assert i + 1 < |rs| ==> rs[i].end < rs[i + 1].start < rs[i + 1].end;
  }

  lemma SkipOne(rs: seq<Range>, index: nat, a: Range)
    requires index < |rs| && rs[index].end < a.start
    ensures rs[..index] + Insert(rs[index..], a) == rs[..index + 1] + Insert(rs[index + 1..], a)
  {
    assert rs[index..][1..] == rs[index + 1..];
    assert rs[..index + 1] == rs[..index] + [rs[index]];
  }

  datatype Verdict = Accepted | Overlapping | TooSparse

  /** The scan that decides, before anything is written, whether an addition may be recorded. */
  method Preflight(ranges: seq<Range>, addition: Range, limit: nat) returns (verdict: Verdict)
    requires Canonical(ranges) && addition.start < addition.end
    ensures verdict.Overlapping? <==> Overlaps(ranges, addition)
    ensures verdict.TooSparse? <==> !Overlaps(ranges, addition) && |Insert(ranges, addition)| > limit
  {
    var count := |ranges| + 1;
    var index := 0;
    ghost var joined := addition;  // the addition together with the neighbours absorbed so far
    while index < |ranges|
      invariant 0 <= index <= |ranges|
      invariant forall i | 0 <= i < index :: Disjoint(ranges[i], addition)
      invariant |Insert(ranges, addition)| == count - 1 - (|ranges| - index) + |Insert(ranges[index..], joined)|
      invariant joined.start <= addition.start && addition.end <= joined.end
      invariant joined.start < addition.start && index < |ranges| ==> addition.start < ranges[index].end
      invariant joined.end > addition.end && index < |ranges| ==> joined.end < ranges[index].start
    {
      var current := ranges[index];
      assert ranges[index..][0] == current && ranges[index..][1..] == ranges[index + 1..];
      assert index + 1 < |ranges| ==> current.end < ranges[index + 1].start;
      if current.end < addition.start {
      } else if current.start > addition.end {
        assert forall i | index <= i < |ranges| :: Disjoint(ranges[i], addition);
        break;
      } else if current.end > addition.start && current.start < addition.end {
        assert !Disjoint(ranges[index], addition);
        return Overlapping;
      } else {
        count := count - 1;
        joined := Join(joined, current);
      }
      index := index + 1;
    }
    if index < |ranges| {
      assert ranges[index..][0] == ranges[index];
      assert Insert(ranges[index..], joined) == [joined] + ranges[index..];
    } else {
      assert ranges[index..] == [];
    }
    return if count > limit then TooSparse else Accepted;
  }
}
