/** Chirp-to-profile mapping and capture size derivation (internal/radar/config.go and the two checks that mirror it). */
module ChirpPlan {
  import opened Common
  import opened Sensors

  const MAX_CHIRP_INDEX: nat := 511

  /** A configured chirp range; tx is the set of transmitters its enable mask selects. */
  datatype Chirps = Chirps(start: nat, end: nat, profile: nat, tx: set<nat>)

  datatype Frame = Frame(chirpStart: nat, chirpEnd: nat, loops: nat, frames: nat)

  predicate RangeOk(r: Chirps) { r.start <= r.end <= MAX_CHIRP_INDEX }
  predicate FrameOk(f: Frame) { f.chirpStart <= f.chirpEnd <= MAX_CHIRP_INDEX && 0 < f.loops <= 255 && f.frames <= 0xffff }

  predicate RangesOk(rs: seq<Chirps>) { forall i | 0 <= i < |rs| :: RangeOk(rs[i]) }

  predicate Holds(r: Chirps, c: int) { r.start <= c <= r.end }
  predicate Meets(r: Chirps, lo: int, hi: int) { r.start <= hi && lo <= r.end }
  predicate Apart(a: Chirps, b: Chirps) { a.end < b.start || b.end < a.start }

  predicate PairwiseApart(rs: seq<Chirps>) {
    forall i, j | 0 <= i < j < |rs| :: Apart(rs[i], rs[j])
  }

  // ---------------------------------------------------------------- sorting and the overlap check

  predicate Before(a: Chirps, b: Chirps) { a.start < b.start || (a.start == b.start && a.end < b.end) }

  function InsertSorted(rs: seq<Chirps>, r: Chirps): seq<Chirps> {
    if rs == [] || Before(r, rs[0]) then [r] + rs else [rs[0]] + InsertSorted(rs[1..], r)
  }

  /** The ranges in the order of sort.Slice. */
  function SortOf(rs: seq<Chirps>): seq<Chirps> {
    if rs == [] then [] else InsertSorted(SortOf(rs[1..]), rs[0])
  }

  predicate Sorted(rs: seq<Chirps>) {
    forall i | 0 < i < |rs| :: !Before(rs[i], rs[i - 1])
  }

  /** The adjacent-pairs check after sorting. */
  predicate NoAdjacentOverlap(rs: seq<Chirps>) {
    forall i | 0 < i < |rs| :: rs[i - 1].end < rs[i].start
  }

  lemma {:induction false} InsertAdds(rs: seq<Chirps>, r: Chirps)
    ensures multiset(InsertSorted(rs, r)) == multiset(rs) + multiset{r}
    decreases |rs|
  {
    if rs != [] && !Before(r, rs[0]) {
      InsertAdds(rs[1..], r);
      assert rs == [rs[0]] + rs[1..];
    }
  }

  lemma {:induction false} InsertKeeps(rs: seq<Chirps>, r: Chirps)
    requires Sorted(rs)
    ensures Sorted(InsertSorted(rs, r)) && InsertSorted(rs, r) != []
    ensures InsertSorted(rs, r)[0] == r || (rs != [] && InsertSorted(rs, r)[0] == rs[0])
    decreases |rs|
  {
    if rs == [] || Before(r, rs[0]) {
      SortedCons(r, rs);
    } else {
      var tail := rs[1..];
      assert forall i | 0 < i < |tail| :: tail[i] == rs[i + 1] && tail[i - 1] == rs[i];
      InsertKeeps(tail, r);
      SortedCons(rs[0], InsertSorted(tail, r));
    }
  }

  lemma SortedCons(r: Chirps, rs: seq<Chirps>)
    requires Sorted(rs) && (rs != [] ==> !Before(rs[0], r))
    ensures Sorted([r] + rs)
  {
    var all := [r] + rs;
    forall i | 0 < i < |all|
      ensures !Before(all[i], all[i - 1])
    {
      if i > 1 {
        assert all[i] == rs[i - 1] && all[i - 1] == rs[i - 2];
      }
    }
  }

  /** Sorting permutes: nothing is lost, added or repeated. */
  lemma {:induction false} SortKeeps(rs: seq<Chirps>)
    ensures Sorted(SortOf(rs)) && multiset(SortOf(rs)) == multiset(rs)
    decreases |rs|
  {
    if rs != [] {
      SortKeeps(rs[1..]);
      InsertKeeps(SortOf(rs[1..]), rs[0]);
      InsertAdds(SortOf(rs[1..]), rs[0]);
      assert rs == [rs[0]] + rs[1..];
    }
  }

  lemma SameMembers(rs: seq<Chirps>)
    ensures forall r :: r in SortOf(rs) <==> r in rs
  {
    SortKeeps(rs);
    forall r
      ensures r in SortOf(rs) <==> r in rs
    {
      assert r in SortOf(rs) <==> r in multiset(SortOf(rs));
      assert r in rs <==> r in multiset(rs);
    }
  }

  predicate AllApart(rs: seq<Chirps>, r: Chirps) {
    forall i | 0 <= i < |rs| :: Apart(rs[i], r)
  }

  lemma ApartCons(r: Chirps, rs: seq<Chirps>)
    ensures PairwiseApart([r] + rs) <==> PairwiseApart(rs) && AllApart(rs, r)
  {
    var all := [r] + rs;
    if PairwiseApart(all) {
      forall i | 0 <= i < |rs|
        ensures Apart(rs[i], r)
      {
        assert Apart(all[0], all[i + 1]);
      }
      forall i, j | 0 <= i < j < |rs|
        ensures Apart(rs[i], rs[j])
      {
        assert Apart(all[i + 1], all[j + 1]);
      }
    }
  }

  lemma AllApartCons(x: Chirps, rs: seq<Chirps>, r: Chirps)
    ensures AllApart([x] + rs, r) <==> Apart(x, r) && AllApart(rs, r)
  {
    var all := [x] + rs;
    if AllApart(all, r) {
      assert Apart(all[0], r);
      assert forall i | 0 <= i < |rs| :: rs[i] == all[i + 1];
    }
  }

  lemma {:induction false} InsertApart(rs: seq<Chirps>, r: Chirps, x: Chirps)
    ensures AllApart(InsertSorted(rs, r), x) <==> AllApart(rs, x) && Apart(r, x)
    ensures PairwiseApart(InsertSorted(rs, r)) <==> PairwiseApart(rs) && AllApart(rs, r)
    decreases |rs|
  {
    hide AllApart, PairwiseApart;
    if rs == [] || Before(r, rs[0]) {
      ApartCons(r, rs);
      AllApartCons(r, rs, x);
    } else {
      var tail := rs[1..];
      assert rs == [rs[0]] + tail;
      InsertApart(tail, r, x);
      InsertApart(tail, r, rs[0]);
      ApartCons(rs[0], InsertSorted(tail, r));
      ApartCons(rs[0], tail);
      AllApartCons(rs[0], InsertSorted(tail, r), x);
      AllApartCons(rs[0], tail, x);
      AllApartCons(rs[0], tail, r);
    }
  }

  lemma {:induction false} SortApart(rs: seq<Chirps>, x: Chirps)
    ensures AllApart(SortOf(rs), x) <==> AllApart(rs, x)
    ensures PairwiseApart(SortOf(rs)) <==> PairwiseApart(rs)
    decreases |rs|
  {
    hide AllApart, PairwiseApart, InsertSorted;
    if rs != [] {
      SortApart(rs[1..], x);
      SortApart(rs[1..], rs[0]);
      InsertApart(SortOf(rs[1..]), rs[0], x);
      assert rs == [rs[0]] + rs[1..];
      ApartCons(rs[0], rs[1..]);
      AllApartCons(rs[0], rs[1..], x);
    }
  }

  lemma {:induction false} SpreadApart(rs: seq<Chirps>, i: nat, j: nat)
    requires RangesOk(rs) && NoAdjacentOverlap(rs) && i < j < |rs|
    ensures rs[i].end < rs[j].start
    decreases j
  {
    if i < j - 1 {
      SpreadApart(rs, i, j - 1);
      assert RangeOk(rs[j - 1]);
    }
  }

  /** On sorted ranges the adjacent check is the pairwise one. */
  lemma AdjacentIsPairwise(rs: seq<Chirps>)
    requires RangesOk(rs) && Sorted(rs)
    ensures NoAdjacentOverlap(rs) <==> PairwiseApart(rs)
  {
    if NoAdjacentOverlap(rs) {
      forall i, j | 0 <= i < j < |rs|
        ensures Apart(rs[i], rs[j])
      {
        SpreadApart(rs, i, j);
      }
    }
    if PairwiseApart(rs) {
      forall i | 0 < i < |rs|
        ensures rs[i - 1].end < rs[i].start
      {
        assert Apart(rs[i - 1], rs[i]) && RangeOk(rs[i]) && RangeOk(rs[i - 1]) && !Before(rs[i], rs[i - 1]);
      }
    }
  }

  /** Sorting and checking neighbours accepts exactly the configurations with no two overlapping ranges, in any order. */
  lemma OverlapCheckExact(rs: seq<Chirps>)
    requires RangesOk(rs)
    ensures RangesOk(SortOf(rs)) && (NoAdjacentOverlap(SortOf(rs)) <==> PairwiseApart(rs))
  {
    hide SortOf, PairwiseApart, NoAdjacentOverlap;
    SortKeeps(rs);
    SameMembers(rs);
    forall i | 0 <= i < |SortOf(rs)|
      ensures RangeOk(SortOf(rs)[i])
    {
      assert SortOf(rs)[i] in rs;
    }
    AdjacentIsPairwise(SortOf(rs));
    SortApart(rs, Chirps(0, 0, 0, {}));
  }

  // ---------------------------------------------------------------- the sweep

  /** mappedSamplesPerLoop: the one profile of the frame, or nothing. */
  function Sweep(f: Frame, rs: seq<Chirps>, next: int, profile: Option<nat>, tx: set<nat>): Option<nat>
    decreases |rs|
  {
    if rs == [] then None
    else
      var r := rs[0];
      if r.end < next then Sweep(f, rs[1..], next, profile, tx)
      else if r.start > f.chirpEnd || r.start > next then None
      else if profile.Some? && r.profile != profile.value then None
      else if r.end >= f.chirpEnd then if tx + r.tx == {} then None else Some(r.profile)
      else Sweep(f, rs[1..], r.end + 1, Some(r.profile), tx + r.tx)
  }

  predicate InSome(rs: seq<Chirps>, c: int) {
    exists i | 0 <= i < |rs| :: Holds(rs[i], c)
  }

  predicate Covered(rs: seq<Chirps>, lo: int, hi: int) {
    forall c | lo <= c <= hi :: InSome(rs, c)
  }

  predicate OneProfile(rs: seq<Chirps>, lo: int, hi: int, p: nat) {
    forall i | 0 <= i < |rs| && Meets(rs[i], lo, hi) :: rs[i].profile == p
  }

  predicate SomeTransmitter(rs: seq<Chirps>, lo: int, hi: int) {
    exists i | 0 <= i < |rs| :: Meets(rs[i], lo, hi) && rs[i].tx != {}
  }

  ghost predicate Expected(f: Frame, rs: seq<Chirps>, next: int, profile: Option<nat>, tx: set<nat>, p: nat) {
    && Covered(rs, next, f.chirpEnd) && OneProfile(rs, next, f.chirpEnd, p) && (profile.Some? ==> profile.value == p)
    && (tx != {} || SomeTransmitter(rs, next, f.chirpEnd))
  }

  /** Dropping a range that ends before the interval changes nothing. */
  lemma DropEarly(rs: seq<Chirps>, lo: int, hi: int, p: nat)
    requires rs != [] && rs[0].end < lo
    ensures Covered(rs, lo, hi) <==> Covered(rs[1..], lo, hi)
    ensures OneProfile(rs, lo, hi, p) <==> OneProfile(rs[1..], lo, hi, p)
    ensures SomeTransmitter(rs, lo, hi) <==> SomeTransmitter(rs[1..], lo, hi)
  {
    var tail := rs[1..];
    assert forall i | 0 <= i < |tail| :: tail[i] == rs[i + 1];
    assert forall i | 0 < i < |rs| :: rs[i] == tail[i - 1];
    forall c | lo <= c <= hi
      ensures InSome(rs, c) <==> InSome(tail, c)
    {
      if i :| 0 <= i < |rs| && Holds(rs[i], c) {
        assert Holds(tail[i - 1], c);
      }
      if i :| 0 <= i < |tail| && Holds(tail[i], c) {
        assert Holds(rs[i + 1], c);
      }
    }
    if SomeTransmitter(rs, lo, hi) {
      var i :| 0 <= i < |rs| && Meets(rs[i], lo, hi) && rs[i].tx != {};
      assert Meets(tail[i - 1], lo, hi) && tail[i - 1].tx != {};
    }
    if SomeTransmitter(tail, lo, hi) {
      var i :| 0 <= i < |tail| && Meets(tail[i], lo, hi) && tail[i].tx != {};
      assert Meets(rs[i + 1], lo, hi) && rs[i + 1].tx != {};
    }
  }

  lemma TailApart(rs: seq<Chirps>)
    requires rs != [] && RangesOk(rs) && NoAdjacentOverlap(rs)
    ensures RangesOk(rs[1..]) && NoAdjacentOverlap(rs[1..]) && forall i | 0 <= i < |rs[1..]| :: rs[0].end < rs[1..][i].start
  {
    forall i | 0 <= i < |rs[1..]|
      ensures rs[0].end < rs[1..][i].start && RangeOk(rs[1..][i])
    {
      SpreadApart(rs, 0, i + 1);
    }
    assert forall i | 0 < i < |rs[1..]| :: rs[1..][i - 1] == rs[i] && rs[1..][i] == rs[i + 1];
  }

  /** Nothing covers the first chirp if the first remaining range starts after it. */
  lemma StartsLate(rs: seq<Chirps>, lo: int, hi: int)
    requires rs != [] && RangesOk(rs) && NoAdjacentOverlap(rs) && lo <= hi && lo < rs[0].start
    ensures !Covered(rs, lo, hi)
  {
    forall i | 0 <= i < |rs|
      ensures !Holds(rs[i], lo)
    {
      if i > 0 {
        SpreadApart(rs, 0, i);
      }
    }
    assert !InSome(rs, lo);
  }

  /** The last range the frame reaches: it alone decides what is left. */
  lemma LastRange(f: Frame, rs: seq<Chirps>, next: int, profile: Option<nat>, tx: set<nat>, p: nat)
    requires rs != [] && RangesOk(rs) && NoAdjacentOverlap(rs) && next <= f.chirpEnd
    requires rs[0].start <= next && f.chirpEnd <= rs[0].end
    ensures Expected(f, rs, next, profile, tx, p) <==>
            rs[0].profile == p && (profile.Some? ==> profile.value == p) && tx + rs[0].tx != {}
  {
    var hi := f.chirpEnd;
    forall i | 0 < i < |rs|
      ensures !Meets(rs[i], next, hi)
    {
      SpreadApart(rs, 0, i);
    }
    assert Meets(rs[0], next, hi);
    forall c | next <= c <= hi
      ensures InSome(rs, c)
    {
      assert Holds(rs[0], c);
    }
    if SomeTransmitter(rs, next, hi) {
      var i :| 0 <= i < |rs| && Meets(rs[i], next, hi) && rs[i].tx != {};
      var t :| t in rs[i].tx;
      assert t in tx + rs[0].tx;
    }
  }

  /** A range that ends inside the frame hands over to the rest. */
  lemma HandOver(f: Frame, rs: seq<Chirps>, next: int, profile: Option<nat>, tx: set<nat>, p: nat)
    requires rs != [] && RangesOk(rs) && NoAdjacentOverlap(rs) && next <= f.chirpEnd
    requires rs[0].start <= next <= rs[0].end < f.chirpEnd && (profile.Some? ==> rs[0].profile == profile.value)
    ensures Expected(f, rs, next, profile, tx, p) <==>
            Expected(f, rs[1..], rs[0].end + 1, Some(rs[0].profile), tx + rs[0].tx, p)
  {
    var r, tail, hi := rs[0], rs[1..], f.chirpEnd;
    var mid := r.end + 1;
    assert Meets(r, next, hi);
    TailApart(rs);
    CoverSplit(rs, next, mid, hi);
    DropEarly(rs, mid, hi, p);
    forall i | 0 < i < |rs|
      ensures Meets(rs[i], next, hi) <==> Meets(rs[i], mid, hi)
    {
      assert rs[i] == tail[i - 1] && RangeOk(rs[i]);
    }
    assert OneProfile(rs, next, hi, p) <==> r.profile == p && OneProfile(rs, mid, hi, p);
    TransmitterSplit(rs, next, mid, hi);
    assert tx + r.tx != {} <==> tx != {} || r.tx != {};
  }

  lemma CoverSplit(rs: seq<Chirps>, lo: int, mid: int, hi: int)
    requires rs != [] && rs[0].start <= lo && rs[0].end == mid - 1 && lo <= mid <= hi
    ensures Covered(rs, lo, hi) <==> Covered(rs, mid, hi)
  {
    if Covered(rs, mid, hi) {
      forall c | lo <= c <= hi
        ensures InSome(rs, c)
      {
        if c < mid {
          assert Holds(rs[0], c);
        }
      }
    }
  }

  lemma TransmitterSplit(rs: seq<Chirps>, lo: int, mid: int, hi: int)
    requires rs != [] && Meets(rs[0], lo, hi) && rs[0].end < mid
    requires forall i | 0 < i < |rs| :: Meets(rs[i], lo, hi) <==> Meets(rs[i], mid, hi)
    ensures SomeTransmitter(rs, lo, hi) <==> rs[0].tx != {} || SomeTransmitter(rs, mid, hi)
  {
    if SomeTransmitter(rs, lo, hi) {
      var i :| 0 <= i < |rs| && Meets(rs[i], lo, hi) && rs[i].tx != {};
      assert i > 0 ==> Meets(rs[i], mid, hi);
    }
    if SomeTransmitter(rs, mid, hi) {
      var i :| 0 <= i < |rs| && Meets(rs[i], mid, hi) && rs[i].tx != {};
      assert Meets(rs[i], lo, hi);
    }
  }

  lemma {:induction false} SweepFrom(f: Frame, rs: seq<Chirps>, next: int, profile: Option<nat>, tx: set<nat>, p: nat)
    requires RangesOk(rs) && NoAdjacentOverlap(rs) && next <= f.chirpEnd
    ensures Sweep(f, rs, next, profile, tx) == Some(p) <==> Expected(f, rs, next, profile, tx, p)
    decreases |rs|
  {
    hide Covered, OneProfile, SomeTransmitter, Expected;
    if rs == [] {
      NothingCovered(next, f.chirpEnd, profile, tx, p, f);
    } else {
      var r := rs[0];
      TailApart(rs);
      if r.end < next {
        SweepFrom(f, rs[1..], next, profile, tx, p);
        EarlyExpected(f, rs, next, profile, tx, p);
      } else if r.start > next {
        LateExpected(f, rs, next, profile, tx, p);
      } else if profile.Some? && r.profile != profile.value {
        MixedExpected(f, rs, next, profile, tx, p);
      } else if r.end >= f.chirpEnd {
        LastRange(f, rs, next, profile, tx, p);
      } else {
        SweepFrom(f, rs[1..], r.end + 1, Some(r.profile), tx + r.tx, p);
        HandOver(f, rs, next, profile, tx, p);
      }
    }
  }

  lemma NothingCovered(lo: int, hi: int, profile: Option<nat>, tx: set<nat>, p: nat, f: Frame)
    requires lo <= hi == f.chirpEnd
    ensures !Expected(f, [], lo, profile, tx, p)
  {
    assert !InSome([], lo);
  }

  lemma EarlyExpected(f: Frame, rs: seq<Chirps>, next: int, profile: Option<nat>, tx: set<nat>, p: nat)
    requires rs != [] && rs[0].end < next
    ensures Expected(f, rs, next, profile, tx, p) <==> Expected(f, rs[1..], next, profile, tx, p)
  {
    hide Covered, OneProfile, SomeTransmitter;
    DropEarly(rs, next, f.chirpEnd, p);
  }

  lemma LateExpected(f: Frame, rs: seq<Chirps>, next: int, profile: Option<nat>, tx: set<nat>, p: nat)
    requires rs != [] && RangesOk(rs) && NoAdjacentOverlap(rs) && next <= f.chirpEnd && next < rs[0].start
    ensures !Expected(f, rs, next, profile, tx, p)
  {
    hide Covered, OneProfile, SomeTransmitter;
    StartsLate(rs, next, f.chirpEnd);
  }

  lemma MixedExpected(f: Frame, rs: seq<Chirps>, next: int, profile: Option<nat>, tx: set<nat>, p: nat)
    requires rs != [] && rs[0].start <= next <= rs[0].end && next <= f.chirpEnd && profile.Some? && rs[0].profile != profile.value
    ensures !Expected(f, rs, next, profile, tx, p)
  {
    hide Covered, SomeTransmitter;
    assert Meets(rs[0], next, f.chirpEnd);
  }

  /**
    The sweep over sorted, non-overlapping ranges selects profile p if and only if every chirp of the frame lies in some
    range, all ranges that meet the frame use p, and at least one of them enables a transmitter.
   */
  lemma SweepExact(f: Frame, rs: seq<Chirps>, p: nat)
    requires FrameOk(f) && RangesOk(rs) && NoAdjacentOverlap(rs)
    ensures Sweep(f, rs, f.chirpStart, None, {}) == Some(p) <==>
            && Covered(rs, f.chirpStart, f.chirpEnd) && OneProfile(rs, f.chirpStart, f.chirpEnd, p)
            && SomeTransmitter(rs, f.chirpStart, f.chirpEnd)
  {
    hide Covered, OneProfile, SomeTransmitter;
    SweepFrom(f, rs, f.chirpStart, None, {}, p);
  }

  lemma SortedInSome(rs: seq<Chirps>, c: int)
    ensures InSome(SortOf(rs), c) <==> InSome(rs, c)
  {
    SameMembers(rs);
    var sorted := SortOf(rs);
    if InSome(sorted, c) {
      var i :| 0 <= i < |sorted| && Holds(sorted[i], c);
      assert sorted[i] in rs;
    }
    if InSome(rs, c) {
      var i :| 0 <= i < |rs| && Holds(rs[i], c);
      assert rs[i] in sorted;
    }
  }

  lemma SortedOneProfile(rs: seq<Chirps>, lo: int, hi: int, p: nat)
    ensures OneProfile(SortOf(rs), lo, hi, p) <==> OneProfile(rs, lo, hi, p)
  {
    SameMembers(rs);
    var sorted := SortOf(rs);
    assert forall i | 0 <= i < |rs| :: rs[i] in sorted;
    assert forall i | 0 <= i < |sorted| :: sorted[i] in rs;
    hide SortOf;
  }

  lemma SortedTransmitter(rs: seq<Chirps>, lo: int, hi: int)
    ensures SomeTransmitter(SortOf(rs), lo, hi) <==> SomeTransmitter(rs, lo, hi)
  {
    hide SortOf;
    SameMembers(rs);
    var sorted := SortOf(rs);
    if SomeTransmitter(sorted, lo, hi) {
      var i :| 0 <= i < |sorted| && Meets(sorted[i], lo, hi) && sorted[i].tx != {};
      assert sorted[i] in rs;
    }
    if SomeTransmitter(rs, lo, hi) {
      var i :| 0 <= i < |rs| && Meets(rs[i], lo, hi) && rs[i].tx != {};
      assert rs[i] in sorted;
    }
  }

  /**
    Sorting, the neighbour check and the sweep together, on ranges in file order: they select profile p if and only if no two
    ranges overlap, every chirp of the frame lies in a range, the ranges that meet the frame all use p, and one of them
    enables a transmitter.
   */
  lemma ChecksAgree(f: Frame, rs: seq<Chirps>, p: nat)
    requires FrameOk(f) && RangesOk(rs)
    ensures NoAdjacentOverlap(SortOf(rs)) && Sweep(f, SortOf(rs), f.chirpStart, None, {}) == Some(p) <==>
            && PairwiseApart(rs) && Covered(rs, f.chirpStart, f.chirpEnd)
            && OneProfile(rs, f.chirpStart, f.chirpEnd, p) && SomeTransmitter(rs, f.chirpStart, f.chirpEnd)
  {
    hide SortOf, PairwiseApart, NoAdjacentOverlap, InSome, OneProfile, SomeTransmitter, Sweep;
    OverlapCheckExact(rs);
    if NoAdjacentOverlap(SortOf(rs)) {
      SweepExact(f, SortOf(rs), p);
      forall c
        ensures InSome(SortOf(rs), c) <==> InSome(rs, c)
      {
        SortedInSome(rs, c);
      }
      SortedOneProfile(rs, f.chirpStart, f.chirpEnd, p);
      SortedTransmitter(rs, f.chirpStart, f.chirpEnd);
    }
  }

  // ---------------------------------------------------------------- the session contract's rule

  /** The last range that holds chirp c, as successive stores into a map leave it. */
  function Owner(rs: seq<Chirps>, c: int): Option<Chirps> {
    if rs == [] then None
    else if Holds(rs[|rs| - 1], c) then Some(rs[|rs| - 1])
    else Owner(rs[..|rs| - 1], c)
  }

  lemma {:induction false} OwnerHolds(rs: seq<Chirps>, c: int)
    ensures Owner(rs, c).Some? <==> InSome(rs, c)
    ensures Owner(rs, c).Some? ==> Owner(rs, c).value in rs && Holds(Owner(rs, c).value, c)
    decreases |rs|
  {
    if rs != [] {
      var init := rs[..|rs| - 1];
      OwnerHolds(init, c);
      OneMoreRange(rs, |init|);
      assert rs[..|init| + 1] == rs;
    }
  }

  /** The transmitters of the range that defines chirp c. */
  function TxOf(rs: seq<Chirps>, c: int): set<nat> {
    match Owner(rs, c)
    case None => {}
    case Some(r) => r.tx
  }

  function TxBetween(rs: seq<Chirps>, lo: int, hi: int): set<nat>
    decreases hi - lo
  {
    if hi < lo then {} else TxBetween(rs, lo, hi - 1) + TxOf(rs, hi)
  }

  /** Every chirp of the frame is defined and enables exactly one transmitter, and no transmitter serves two chirps. */
  predicate OneTxPerChirp(rs: seq<Chirps>, lo: int, hi: int) {
    && Covered(rs, lo, hi)
    && (forall c | lo <= c <= hi :: |TxOf(rs, c)| == 1)
    && (forall c, d | lo <= c < d <= hi :: TxOf(rs, c) !! TxOf(rs, d))
  }

  lemma {:induction false} SeenApart(rs: seq<Chirps>, lo: int, hi: int, tx: set<nat>)
    ensures TxBetween(rs, lo, hi) !! tx <==> forall c | lo <= c <= hi :: TxOf(rs, c) !! tx
    decreases hi - lo
  {
    hide TxOf;
    if lo <= hi {
      SeenApart(rs, lo, hi - 1, tx);
    }
  }

  /** The last chirp of a prefix: what the loop checks of it, against the transmitters seen before. */
  lemma OneMoreChirp(rs: seq<Chirps>, lo: int, c: int)
    requires lo <= c && OneTxPerChirp(rs, lo, c - 1)
    ensures OneTxPerChirp(rs, lo, c) <==> InSome(rs, c) && |TxOf(rs, c)| == 1 && TxBetween(rs, lo, c - 1) !! TxOf(rs, c)
  {
    hide TxOf, InSome, TxBetween;
    SeenApart(rs, lo, c - 1, TxOf(rs, c));
  }

  /** The rule makes a frame loop a one-to-one pairing of chirps and active transmitters. */
  lemma {:induction false} ChirpsPairTransmitters(rs: seq<Chirps>, lo: int, hi: int)
    requires lo <= hi + 1 && OneTxPerChirp(rs, lo, hi)
    ensures |TxBetween(rs, lo, hi)| == hi - lo + 1
    decreases hi - lo
  {
    hide Owner, TxOf, InSome;
    if lo <= hi {
      assert OneTxPerChirp(rs, lo, hi - 1);
      ChirpsPairTransmitters(rs, lo, hi - 1);
      OneMoreChirp(rs, lo, hi);
    }
  }

  /** On ranges that keep the session contract's rule the sweep can fail only because of an overlap or a second profile. */
  lemma SessionChirpsSweep(f: Frame, rs: seq<Chirps>, p: nat)
    requires FrameOk(f) && RangesOk(rs) && OneTxPerChirp(rs, f.chirpStart, f.chirpEnd)
    ensures NoAdjacentOverlap(SortOf(rs)) && Sweep(f, SortOf(rs), f.chirpStart, None, {}) == Some(p) <==>
            PairwiseApart(rs) && OneProfile(rs, f.chirpStart, f.chirpEnd, p)
  {
    hide SortOf, PairwiseApart, NoAdjacentOverlap, OneProfile, Sweep, InSome, Owner;
    ChecksAgree(f, rs, p);
    var c := f.chirpStart;
    OwnerHolds(rs, c);
    assert InSome(rs, c) && |TxOf(rs, c)| == 1;
    var r := Owner(rs, c).value;
    var i :| 0 <= i < |rs| && rs[i] == r;
    assert Meets(rs[i], f.chirpStart, f.chirpEnd) && r.tx != {};
  }

  // ---------------------------------------------------------------- the binary configuration's rule

  predicate LinkRangeOk(r: Chirps, channelTx: set<nat>, maxTx: nat) {
    r.profile == 0 && r.tx != {} && r.tx <= channelTx && |r.tx| <= maxTx
  }

  predicate LinkOk(f: Frame, rs: seq<Chirps>, channelTx: set<nat>, maxTx: nat) {
    && PairwiseApart(rs) && Covered(rs, f.chirpStart, f.chirpEnd)
    && forall i | 0 <= i < |rs| :: LinkRangeOk(rs[i], channelTx, maxTx)
  }

  /** Whatever the binary configuration path accepts, the text path's sort, neighbour check and sweep accept with profile 0. */
  lemma LinkChirpsSweep(f: Frame, rs: seq<Chirps>, channelTx: set<nat>, maxTx: nat)
    requires FrameOk(f) && RangesOk(rs) && LinkOk(f, rs, channelTx, maxTx)
    ensures NoAdjacentOverlap(SortOf(rs)) && Sweep(f, SortOf(rs), f.chirpStart, None, {}) == Some(0)
  {
    hide SortOf, PairwiseApart, NoAdjacentOverlap, Sweep;
    ChecksAgree(f, rs, 0);
    assert InSome(rs, f.chirpStart);
    var i :| 0 <= i < |rs| && Holds(rs[i], f.chirpStart);
    assert LinkRangeOk(rs[i], channelTx, maxTx) && Meets(rs[i], f.chirpStart, f.chirpEnd);
    assert forall k | 0 <= k < |rs| :: LinkRangeOk(rs[k], channelTx, maxTx);
  }

  // ---------------------------------------------------------------- size derivation

  /** The checked product of unsigned 64-bit factors. */
  function Times(a: Option<u64>, b: u64): Option<u64> {
    if a.None? then None else CheckedMul(a.value, b)
  }

  /** deriveExpectedBytes after parsing: bytes per frame and of a finite capture, through the code's checked steps. */
  function Derive(f: Frame, samplesPerChirp: u64, receivers: u64): Option<(int, int)>
    requires FrameOk(f)
  {
    var chirps := f.chirpEnd - f.chirpStart + 1;
    if chirps > 32 then None
    else
      var perFrame := Times(Times(Times(CheckedMul(chirps, samplesPerChirp), f.loops), receivers), 4);
      if perFrame.None? || perFrame.value > MAX_INT64 then None
      else if f.frames == 0 then Some((perFrame.value, 0))
      else
        var total := CheckedMul(perFrame.value, f.frames);
        if total.None? || total.value > MAX_INT64 then None else Some((perFrame.value, total.value))
  }

  lemma Bounded(a: nat, b: nat, x: nat, y: nat)
    requires a <= x && b <= y
    ensures 0 <= a * b <= x * y
  {
    assert a * b <= x * b <= x * y;
  }

  /** No overflow branch is reachable: the derived size is the plain product. */
  lemma DeriveExact(f: Frame, samplesPerChirp: u64, receivers: u64)
    requires FrameOk(f) && f.chirpEnd - f.chirpStart < 32 && samplesPerChirp <= 0xffff && receivers <= 4
    ensures var perFrame := (f.chirpEnd - f.chirpStart + 1) * samplesPerChirp * f.loops * receivers * 4;
            Derive(f, samplesPerChirp, receivers) == Some((perFrame, perFrame * f.frames))
  {
    var chirps := f.chirpEnd - f.chirpStart + 1;
    var a := chirps * samplesPerChirp;
    Bounded(chirps, samplesPerChirp, 32, 0xffff);
    var b := a * f.loops;
    Bounded(a, f.loops, 32 * 0xffff, 255);
    var c := b * receivers;
    Bounded(b, receivers, 32 * 0xffff * 255, 4);
    var d := c * 4;
    Bounded(c, 4, 32 * 0xffff * 255 * 4, 4);
    Bounded(d, f.frames, 32 * 0xffff * 255 * 4 * 4, 0xffff);
  }

  /** validateRawBufferSizes through its checked steps. */
  predicate BuffersOk(samplesPerChirp: u64, receivers: u64, adcBufBytes: u64) {
    var channel := CheckedMul(samplesPerChirp, 4);
    && channel.Some? && channel.value <= 0x7ffe
    && var transfer := CheckedMul(channel.value, receivers);
    && transfer.Some? && transfer.value >= 64
    && var aligned := CheckedAdd(channel.value, 15);
    && aligned.Some?
    && var total := CheckedMul(aligned.value - aligned.value % 16, receivers);
    && total.Some? && total.value <= adcBufBytes
  }

  function RoundUp16(n: nat): nat { (n + 15) / 16 * 16 }

  /** With at most four receivers no checked step overflows, and the buffer check is the plain arithmetic condition. */
  lemma BuffersExact(samplesPerChirp: u64, receivers: u64, adcBufBytes: u64)
    requires receivers <= 4
    ensures BuffersOk(samplesPerChirp, receivers, adcBufBytes) <==>
            && 4 * samplesPerChirp <= 0x7ffe && 64 <= 4 * samplesPerChirp * receivers
            && RoundUp16(4 * samplesPerChirp) * receivers <= adcBufBytes
    ensures BuffersOk(samplesPerChirp, receivers, adcBufBytes) ==> 0 < samplesPerChirp <= 0x1fff && receivers > 0
  {
    var channel := 4 * samplesPerChirp;
    if channel <= 0x7ffe {
      Bounded(channel, receivers, 0x7ffe, 4);
      Masked(channel + 15);
      Bounded(RoundUp16(channel), receivers, 0x8000 + 15, 4);
    }
  }

  lemma Masked(n: nat)
    ensures n - n % 16 == n / 16 * 16 <= n
  {
  }

  // ---------------------------------------------------------------- the loops

  /** mappedSamplesPerLoop's loop. */
  method SelectProfile(f: Frame, rs: seq<Chirps>) returns (r: Option<nat>)
    ensures r == Sweep(f, rs, f.chirpStart, None, {})
  {
    var next: int, profile: Option<nat>, tx: set<nat> := f.chirpStart, None, {};
    var i := 0;
    assert rs[0..] == rs;
    while i < |rs|
      invariant 0 <= i <= |rs|
      invariant Sweep(f, rs, f.chirpStart, None, {}) == Sweep(f, rs[i..], next, profile, tx)
    {
      var c := rs[i];
      assert rs[i..][0] == c && rs[i..][1..] == rs[i + 1..];
      i := i + 1;
      if c.end < next {
        continue;
      }
      if c.start > f.chirpEnd {
        break;
      }
      if c.start > next || (profile.Some? && c.profile != profile.value) {
        return None;
      }
      profile := Some(c.profile);
      tx := tx + c.tx;
      if c.end >= f.chirpEnd {
        return if tx == {} then None else profile;
      }
      next := c.end + 1;
    }
    return None;
  }

  /** validateCaptureSessionV1Chirps: the per-index map, then every chirp of the frame against the transmitters seen. */
  method CheckSessionChirps(f: Frame, rs: seq<Chirps>) returns (ok: bool)
    ensures ok == OneTxPerChirp(rs, f.chirpStart, f.chirpEnd)
  {
    hide OneTxPerChirp, InSome;
    var byIndex := IndexChirps(rs);
    var seen: set<nat> := {};
    var c: int := f.chirpStart;
    NoChirps(rs, c);
    while c <= f.chirpEnd
      invariant f.chirpStart <= c && OneTxPerChirp(rs, f.chirpStart, c - 1) && seen == TxBetween(rs, f.chirpStart, c - 1)
      invariant c > f.chirpEnd ==> c == f.chirpEnd + 1 || c == f.chirpStart
    {
      OneMoreChirp(rs, f.chirpStart, c);
      OwnerHolds(rs, c);
      assert c in byIndex ==> TxOf(rs, c) == byIndex[c].tx;
      ApartWhenDisjoint(seen, TxOf(rs, c));
      if c !in byIndex || |byIndex[c].tx| != 1 || seen * byIndex[c].tx != {} {
        Refused(rs, f.chirpStart, c, f.chirpEnd);
        return false;
      }
      seen := seen + byIndex[c].tx;
      c := c + 1;
    }
    if f.chirpEnd < f.chirpStart {
      NoChirpsBelow(rs, f.chirpStart, f.chirpEnd);
    }
    return true;
  }

  lemma ApartWhenDisjoint(a: set<nat>, b: set<nat>)
    ensures a !! b <==> a * b == {}
  {
    if a * b == {} {
      forall t | t in a
        ensures t !in b
      {
        assert t in b ==> t in a * b;
      }
    }
  }

  lemma NoChirps(rs: seq<Chirps>, lo: int)
    ensures OneTxPerChirp(rs, lo, lo - 1)
  {
  }

  lemma NoChirpsBelow(rs: seq<Chirps>, lo: int, hi: int)
    requires hi < lo
    ensures OneTxPerChirp(rs, lo, hi)
  {
  }

  lemma Refused(rs: seq<Chirps>, lo: int, c: int, hi: int)
    requires lo <= c <= hi && !OneTxPerChirp(rs, lo, c)
    ensures !OneTxPerChirp(rs, lo, hi)
  {
    hide Owner, TxOf, InSome;
  }

  /** The map from chirp index to the range that defines it; a later range replaces an earlier one. */
  method IndexChirps(rs: seq<Chirps>) returns (byIndex: map<int, Chirps>)
    ensures forall c :: if c in byIndex then Owner(rs, c) == Some(byIndex[c]) else Owner(rs, c) == None
  {
    byIndex := map[];
    for i := 0 to |rs|
      invariant forall c :: if c in byIndex then Owner(rs[..i], c) == Some(byIndex[c]) else Owner(rs[..i], c) == None
    {
      byIndex := AddIndices(byIndex, rs[i]);
      assert rs[..i + 1][..i] == rs[..i];
    }
    assert rs[..|rs|] == rs;
  }

  method AddIndices(before: map<int, Chirps>, r: Chirps) returns (after: map<int, Chirps>)
    ensures forall c :: c in after <==> c in before || Holds(r, c)
    ensures forall c | c in after :: after[c] == if Holds(r, c) then r else before[c]
  {
    after := before;
    var c: int := r.start;
    while c <= r.end
      invariant r.start <= c
      invariant forall x :: x in after <==> x in before || (r.start <= x < c && x <= r.end)
      invariant forall x | x in after :: after[x] == if r.start <= x < c && x <= r.end then r else before[x]
    {
      after := after[c := r];
      c := c + 1;
    }
  }

  /** validateMMWaveLinkRelationships: the rules of each range, then the boolean array for overlap and coverage. */
  method CheckLinkChirps(f: Frame, rs: seq<Chirps>, channelTx: set<nat>, maxTx: nat) returns (ok: bool)
    requires FrameOk(f) && RangesOk(rs)
    ensures ok == LinkOk(f, rs, channelTx, maxTx)
  {
    hide LinkRangeOk;
    var covered := new bool[MAX_CHIRP_INDEX + 1](_ => false);
    var i := 0;
    while i < |rs|
      invariant 0 <= i <= |rs| && PairwiseApart(rs[..i])
      invariant forall k | 0 <= k < i :: LinkRangeOk(rs[k], channelTx, maxTx)
      invariant forall c | 0 <= c <= MAX_CHIRP_INDEX :: covered[c] <==> InSome(rs[..i], c)
    {
      assert RangeOk(rs[i]);
      if !LinkRangeOk(rs[i], channelTx, maxTx) {
        return false;
      }
      var unmarked := MarkRange(covered, rs[i]);
      if !unmarked {
        var c :| Holds(rs[i], c) && InSome(rs[..i], c);
        var k :| 0 <= k < i && Holds(rs[..i][k], c);
        assert Holds(rs[k], c) && !Apart(rs[k], rs[i]);
        return false;
      }
      ExtendApart(rs, i);
      OneMoreRange(rs, i);
      i := i + 1;
    }
    assert rs[..|rs|] == rs;
    var c := f.chirpStart;
    while c <= f.chirpEnd
      invariant f.chirpStart <= c <= f.chirpEnd + 1 && Covered(rs, f.chirpStart, c - 1)
    {
      if !covered[c] {
        assert !InSome(rs, c);
        return false;
      }
      c := c + 1;
    }
    return true;
  }

  lemma OneMoreRange(rs: seq<Chirps>, i: nat)
    requires i < |rs|
    ensures forall c :: InSome(rs[..i + 1], c) <==> InSome(rs[..i], c) || Holds(rs[i], c)
  {
    var less, more := rs[..i], rs[..i + 1];
    forall c
      ensures InSome(more, c) <==> InSome(less, c) || Holds(rs[i], c)
    {
      if InSome(less, c) {
        var k :| 0 <= k < |less| && Holds(less[k], c);
        assert Holds(more[k], c);
      }
      if Holds(rs[i], c) {
        assert Holds(more[i], c);
      }
      if InSome(more, c) {
        var k :| 0 <= k < |more| && Holds(more[k], c);
        assert k < i ==> Holds(less[k], c);
      }
    }
  }

  lemma ExtendApart(rs: seq<Chirps>, i: nat)
    requires i < |rs| && RangesOk(rs) && PairwiseApart(rs[..i])
    requires forall c | Holds(rs[i], c) :: !InSome(rs[..i], c)
    ensures PairwiseApart(rs[..i + 1])
  {
    forall k | 0 <= k < i
      ensures Apart(rs[k], rs[i])
    {
      assert RangeOk(rs[k]) && RangeOk(rs[i]);
      var c := if rs[k].start < rs[i].start then rs[i].start else rs[k].start;
      assert Holds(rs[i], c) ==> !Holds(rs[..i][k], c);
    }
    assert forall a, b | 0 <= a < b < i :: rs[..i][a] == rs[a] && rs[..i][b] == rs[b];
  }

  /** Marks a range unless one of its chirps is marked already. */
  method MarkRange(covered: array<bool>, r: Chirps) returns (unmarked: bool)
    requires covered.Length == MAX_CHIRP_INDEX + 1 && RangeOk(r)
    modifies covered
    ensures unmarked <==> forall c | Holds(r, c) :: !old(covered[c])
    ensures unmarked ==> forall c | 0 <= c < covered.Length :: covered[c] == (old(covered[c]) || Holds(r, c))
  {
    var c := r.start;
    while c <= r.end
      invariant r.start <= c <= r.end + 1
      invariant forall x | r.start <= x < c :: !old(covered[x])
      invariant forall x | 0 <= x < covered.Length :: covered[x] == (old(covered[x]) || r.start <= x < c)
    {
      if covered[c] {
        assert Holds(r, c);
        return false;
      }
      covered[c] := true;
      c := c + 1;
    }
    return true;
  }
}
