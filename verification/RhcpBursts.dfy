/**
  Bursts of at most sixteen consecutive bits on an RHCP frame, in the order of its bytes and most significant bit first: which of
  them the decoder can accept. Every burst inside the sync words, the covered bytes or the CRC field is rejected; across
  the border into the field, which holds its low byte first, exactly twelve differences are not.
 */
module RhcpBursts {
  import opened Bytes
  import opened CrcBits
  import opened Crc16
  import opened Rhcp

  predicate SameBit(f: seq<byte>, g: seq<byte>, i: nat, k: nat)
    requires i < |f| == |g| && k < 8
  {
    BitAt(f[i], k) == BitAt(g[i], k)
  }

  /** All differing bits lie among the sixteen from bit p on. */
  predicate Burst(f: seq<byte>, g: seq<byte>, p: nat) {
    |f| == |g| && forall i, k | 0 <= i < |f| && 0 <= k < 8 && !SameBit(f, g, i, k) :: p <= 8 * i + k < p + 16
  }

  lemma AllClear(x: bv8)
    requires TopClear(x, 8)
    ensures x == 0
  {
  }

  lemma TopAgrees(a: byte, b: byte, j: nat)
    requires j <= 8 && forall k | 0 <= k < j :: BitAt(a, k) == BitAt(b, k)
    ensures TopClear(Diff(a, b), j)
  {
    hide BitAt, Diff, Clear;
    DiffBits(a, b);
  }

  lemma RestAgrees(a: byte, b: byte, j: nat)
    requires j <= 8 && forall k | j <= k < 8 :: BitAt(a, k) == BitAt(b, k)
    ensures RestClear(Diff(a, b), j)
  {
    hide BitAt, Diff, Clear;
    DiffBits(a, b);
  }

  /** A burst touches three adjacent bytes: the end of the first, the second, and the beginning of the third. */
  lemma BurstByte(f: seq<byte>, g: seq<byte>, p: nat, i: nat)
    requires Burst(f, g, p) && i < |f|
    ensures i < p / 8 || i > p / 8 + 2 ==> f[i] == g[i]
    ensures i == p / 8 ==> TopClear(Diff(f[i], g[i]), p % 8)
    ensures i == p / 8 + 2 ==> RestClear(Diff(f[i], g[i]), p % 8)
  {
    hide BitAt, Diff, TopClear, RestClear;
    var first, j := p / 8, p % 8;
    forall k | 0 <= k < 8 && !(p <= 8 * i + k < p + 16)
      ensures BitAt(f[i], k) == BitAt(g[i], k)
    {
      assert SameBit(f, g, i, k);
    }
    if i == first {
      TopAgrees(f[i], g[i], j);
    } else if i == first + 2 {
      RestAgrees(f[i], g[i], j);
    } else if i < first || i > first + 2 {
      TopAgrees(f[i], g[i], 8);
      AllClear(Diff(f[i], g[i]));
      NoDiff(f[i], g[i]);
    }
  }

  // ---------------------------------------------------------------- inside the covered bytes

  lemma ThreeBytes(c: bv16, a: byte, b: byte, d: byte, a': byte, b': byte, d': byte, j: nat)
    requires j < 8 && TopClear(Diff(a, a'), j) && RestClear(Diff(d, d'), j)
    requires CrcByte(CrcByte(CrcByte(c, a), b), d) == CrcByte(CrcByte(CrcByte(c, a'), b'), d')
    ensures a == a' && b == b' && d == d'
  {
    hide Feed, Bits, TopClear, RestClear, Add, Xor;
    FeedLinear(c, c, Bits(a), Bits(a'));
    AddSelf(c);
    var x, x' := CrcByte(c, a), CrcByte(c, a');
    FeedLinear(x, x', Bits(b), Bits(b'));
    var y, y' := CrcByte(x, b), CrcByte(x', b');
    FeedLinear(y, y', Bits(d), Bits(d'));
    AddSelf(CrcByte(y, d));
    FeedThreeVanishes(Diff(a, a'), Diff(b, b'), Diff(d, d'), j);
    NoDiff(a, a');
    NoDiff(b, b');
    NoDiff(d, d');
  }

  /** Equal-length messages that differ in at most sixteen consecutive bits have different CRCs. */
  lemma {:induction false} CrcDetectsBurst(c: bv16, s: seq<byte>, t: seq<byte>, i: nat, j: nat)
    requires |s| == |t| && i + 3 <= |s| && s[..i] == t[..i] && s[i + 3..] == t[i + 3..]
    requires j < 8 && TopClear(Diff(s[i], t[i]), j) && RestClear(Diff(s[i + 2], t[i + 2]), j)
    requires CrcFrom(c, s) == CrcFrom(c, t)
    ensures s == t
    decreases |s|
  {
    hide CrcByte, Diff, TopClear, RestClear;
    if i == 0 {
      var rest := s[3..];
      ThreeOff(c, s);
      ThreeOff(c, t);
      CrcInjective(CrcByte(CrcByte(CrcByte(c, s[0]), s[1]), s[2]), CrcByte(CrcByte(CrcByte(c, t[0]), t[1]), t[2]), rest);
      ThreeBytes(c, s[0], s[1], s[2], t[0], t[1], t[2], j);
      assert s == [s[0], s[1], s[2]] + rest && t == [t[0], t[1], t[2]] + rest;
    } else {
      assert s[0] == s[..i][0] == t[..i][0] == t[0];
      assert s[1..][..i - 1] == s[..i][1..] && t[1..][..i - 1] == t[..i][1..];
      assert s[1..][i - 1 + 3..] == s[i + 3..] && t[1..][i - 1 + 3..] == t[i + 3..];
      CrcDetectsBurst(CrcByte(c, s[0]), s[1..], t[1..], i - 1, j);
      assert s == [s[0]] + s[1..] && t == [t[0]] + t[1..];
    }
  }

  lemma ThreeOff(c: bv16, s: seq<byte>)
    requires |s| >= 3
    ensures CrcFrom(c, s) == CrcFrom(CrcByte(CrcByte(CrcByte(c, s[0]), s[1]), s[2]), s[3..])
  {
    hide CrcByte;
    var one := CrcByte(c, s[0]);
    var two := CrcByte(one, s[1]);
    assert s[1..][1..] == s[2..] && s[2..][1..] == s[3..];
    assert CrcFrom(c, s) == CrcFrom(one, s[1..]) == CrcFrom(two, s[2..]);
  }

  // ---------------------------------------------------------------- across the border

  lemma {:induction false} RegisterDiff(c: bv16, s: seq<byte>, t: seq<byte>)
    requires 2 <= |s| == |t| && s[..|s| - 2] == t[..|s| - 2]
    ensures var m := |s|;
            Add(CrcFrom(c, s), CrcFrom(c, t)) == Feed(Feed(0, Diff(s[m - 2], t[m - 2])), Diff(s[m - 1], t[m - 1]))
    decreases |s|
  {
    hide Feed, Bits, Add, Xor;
    var m := |s|;
    if m == 2 {
      TwoOff(c, s);
      TwoOff(c, t);
      AddSelf(c);
      FeedLinear(c, c, Bits(s[0]), Bits(t[0]));
      FeedLinear(CrcByte(c, s[0]), CrcByte(c, t[0]), Bits(s[1]), Bits(t[1]));
    } else {
      assert s[0] == s[..m - 2][0] == t[..m - 2][0] == t[0];
      assert s[1..][..m - 3] == s[..m - 2][1..] && t[1..][..m - 3] == t[..m - 2][1..];
      RegisterDiff(CrcByte(c, s[0]), s[1..], t[1..]);
    }
  }

  lemma TwoOff(c: bv16, s: seq<byte>)
    requires |s| == 2
    ensures CrcFrom(c, s) == CrcByte(CrcByte(c, s[0]), s[1])
  {
    hide CrcByte;
    var one := CrcByte(c, s[0]);
    assert s[1..][1..] == [];
    assert CrcFrom(c, s) == CrcFrom(one, s[1..]) == CrcFrom(CrcByte(one, s[1]), []);
  }

  lemma FieldIsRegister(f: seq<byte>)
    requires |f| >= 18
    ensures CrcOk(f) <==>
            CrcFrom(0xffff, f[4..|f| - 2]) == Add(Upper(Bits(f[|f| - 1])), Lower(Bits(f[|f| - 2])))
  {
    hide CrcFrom, Number, Upper, Lower, Add, Bits;
    FieldHoldsRegister(CrcFrom(0xffff, f[4..|f| - 2]), f[|f| - 2], f[|f| - 1]);
  }

  /** A frame that differs from a frame with a good CRC only in its last four bytes has a good CRC iff the differences fit. */
  lemma CrcAtTheEnd(f: seq<byte>, g: seq<byte>)
    requires 18 <= |f| == |g| && f[..|f| - 4] == g[..|f| - 4] && CrcOk(f)
    ensures var n := |f| - 2;
            CrcOk(g) <==> Feed(Feed(0, Diff(f[n - 2], g[n - 2])), Diff(f[n - 1], g[n - 1]))
                          == Add(Upper(Diff(f[n + 1], g[n + 1])), Lower(Diff(f[n], g[n])))
  {
    hide CrcFrom, Feed, Upper, Lower, Add, Bits, CrcOk, Xor;
    var n := |f| - 2;
    var s, t := f[4..n], g[4..n];
    assert s[..|s| - 2] == f[..n - 2][4..] && t[..|s| - 2] == g[..n - 2][4..];
    RegisterDiff(0xffff, s, t);
    FieldIsRegister(f);
    FieldIsRegister(g);
    var x, y := CrcFrom(0xffff, s), CrcFrom(0xffff, t);
    var u, v := Add(Upper(Bits(f[n + 1])), Lower(Bits(f[n]))), Add(Upper(Bits(g[n + 1])), Lower(Bits(g[n])));
    AddSwaps(Upper(Bits(f[n + 1])), Lower(Bits(f[n])), Upper(Bits(g[n + 1])), Lower(Bits(g[n])));
    UpperAdd(Bits(f[n + 1]), Bits(g[n + 1]));
    LowerAdd(Bits(f[n]), Bits(g[n]));
    AddCancels(x, y);
    AddCancels(x, v);
  }

  /** The two frames differ only at their end, by one of the differences that the CRC does not see. */
  predicate EscapesAtEnd(f: seq<byte>, g: seq<byte>) {
    && 18 <= |f| == |g| && f[..|f| - 4] == g[..|f| - 4]
    && var n := |f| - 2;
       Escapes(Diff(f[n - 2], g[n - 2]), Diff(f[n - 1], g[n - 1]), Diff(f[n], g[n]), Diff(f[n + 1], g[n + 1]))
  }

  lemma CrossingBurst(f: seq<byte>, g: seq<byte>, p: nat)
    requires 18 <= |f| && Burst(f, g, p) && CrcOk(f) && CrcOk(g) && f != g && |f| - 4 <= p / 8 < |f| - 2
    ensures EscapesAtEnd(f, g)
  {
    hide Burst, CrcOk, Diff, Feed, Upper, Lower, Add, Escapes, TopClear, RestClear;
    var n := |f| - 2;
    assert |f| == |g| by { SameLength(f, g, p); }
    forall i | 0 <= i < |f|
      ensures i < p / 8 || i > p / 8 + 2 ==> f[i] == g[i]
    {
      BurstByte(f, g, p, i);
    }
    assert f[..n - 2] == g[..n - 2];
    CrcAtTheEnd(f, g);
    var w, x, y, z := Diff(f[n - 2], g[n - 2]), Diff(f[n - 1], g[n - 1]), Diff(f[n], g[n]), Diff(f[n + 1], g[n + 1]);
    NoDiff(f[n - 2], g[n - 2]);
    NoDiff(f[n - 1], g[n - 1]);
    NoDiff(f[n], g[n]);
    NoDiff(f[n + 1], g[n + 1]);
    assert !(w == 0 && x == 0 && y == 0 && z == 0) by {
      assert f == f[..n - 2] + [f[n - 2], f[n - 1], f[n], f[n + 1]] && g == g[..n - 2] + [g[n - 2], g[n - 1], g[n], g[n + 1]];
    }
    if p / 8 == n - 1 {
      BurstByte(f, g, p, n - 1);
      BurstByte(f, g, p, n + 1);
      FeedNothing();
      CrossingOne(x, y, z, p % 8);
    } else {
      BurstByte(f, g, p, n - 2);
      BurstByte(f, g, p, n);
      OnlyLower(y);
      CrossingTwo(w, x, y, p % 8);
    }
  }

  lemma SameLength(f: seq<byte>, g: seq<byte>, p: nat)
    requires Burst(f, g, p)
    ensures |f| == |g|
  {
  }

  lemma FeedNothing()
    ensures Feed(0, 0) == 0
  {
  }

  lemma OnlyLower(x: bv8)
    ensures Add(Upper(0), Lower(x)) == Lower(x)
  {
  }

  // ---------------------------------------------------------------- main results

  lemma SlicesAgree(f: seq<byte>, g: seq<byte>, i: nat, n: nat)
    requires 4 <= i && i + 3 <= n <= |f| == |g| && forall k | 0 <= k < |f| :: k < i || k > i + 2 ==> f[k] == g[k]
    ensures var s, t := f[4..n], g[4..n];
            && s[..i - 4] == t[..i - 4] && s[i - 4 + 3..] == t[i - 4 + 3..]
            && f[..4] == g[..4] && f[n..] == g[n..]
  {
    var s, t := f[4..n], g[4..n];
    assert forall k | 0 <= k < i - 4 :: s[k] == f[k + 4] && t[k] == g[k + 4];
    assert forall k | i - 1 <= k < n - 4 :: s[k] == f[k + 4] && t[k] == g[k + 4];
  }

  lemma InnerBurst(f: seq<byte>, g: seq<byte>, p: nat)
    requires 18 <= |f| && Burst(f, g, p) && CrcOk(f) && CrcOk(g) && 4 <= p / 8 && p / 8 + 3 <= |f| - 2
    ensures f == g
  {
    hide Burst, CrcFrom, Diff, TopClear, RestClear;
    var i, n := p / 8, |f| - 2;
    SameLength(f, g, p);
    forall k | 0 <= k < |f|
      ensures k < i || k > i + 2 ==> f[k] == g[k]
    {
      BurstByte(f, g, p, k);
    }
    BurstByte(f, g, p, i);
    BurstByte(f, g, p, i + 2);
    var s, t := f[4..n], g[4..n];
    NumberInjective(CrcFrom(0xffff, s), CrcFrom(0xffff, t));
    SlicesAgree(f, g, i, n);
    CrcDetectsBurst(0xffff, s, t, i - 4, p % 8);
    assert f == f[..4] + s + f[n..] && g == g[..4] + t + g[n..];
  }

  /**
    A burst of at most sixteen bits on an accepted frame, anywhere in it, gives a frame that the decoder rejects, except for the
    twelve differences across the border into the CRC field.
   */
  lemma BurstRejected(f: seq<byte>, g: seq<byte>, p: nat)
    requires Decode(f).Some? && Burst(f, g, p) && f != g && Decode(g).Some?
    ensures EscapesAtEnd(f, g)
  {
    hide Decode, Burst, Crc, CrcOk, EscapesAtEnd;
    AcceptedFrame(f);
    AcceptedFrame(g);
    SameLength(f, g, p);
    var i, n := p / 8, |f| - 2;
    forall k | 0 <= k < |f|
      ensures k < i || k > i + 2 ==> f[k] == g[k]
    {
      BurstByte(f, g, p, k);
    }
    if i < 4 {
      assert f[..4] == f[0..4] && g[..4] == g[0..4];
      PairDecides(f, g, 4);
    } else if i + 3 <= n {
      InnerBurst(f, g, p);
    } else if i < n {
      CrossingBurst(f, g, p);
    } else {
      OutsideCrc(f, g);
    }
  }

  /** The exception is exact: the CRC accepts every such difference. */
  lemma EscapesAreAccepted(f: seq<byte>, g: seq<byte>)
    requires EscapesAtEnd(f, g) && CrcOk(f)
    ensures CrcOk(g)
  {
    hide CrcOk, Diff, Escapes, Feed, Upper, Lower, Add;
    var n := |f| - 2;
    CrcAtTheEnd(f, g);
    EscapesFit(Diff(f[n - 2], g[n - 2]), Diff(f[n - 1], g[n - 1]), Diff(f[n], g[n]), Diff(f[n + 1], g[n + 1]));
  }

  // ---------------------------------------------------------------- what the decoder makes of the escaping differences

  predicate Padded(rest: seq<byte>) { |rest| < 4 && forall i | 0 <= i < |rest| :: rest[i] == 0xff }

  /** The payload holds count sub-blocks of the message, and nothing but padding after them. */
  predicate PayloadOk(messageId: u16, count: nat, payload: seq<byte>) {
    Parse(messageId, count, payload).Some? && Padded(Parse(messageId, count, payload).value.1)
  }

  /** The payload ends, without padding, in at least k data bytes of its last sub-block. */
  predicate EndsInData(blocks: seq<Subblock>, rest: seq<byte>, k: nat) {
    rest == [] && blocks != [] && |blocks[|blocks| - 1].data| >= k
  }

  /** Equal lengths, different last bytes, and no difference before the last two bytes. */
  predicate DifferAtEnd(a: seq<byte>, b: seq<byte>) {
    0 < |a| == |b| && a[|a| - 1] != b[|a| - 1] && forall i | 0 <= i < |a| - 2 :: a[i] == b[i]
  }

  function Touched(a: seq<byte>, b: seq<byte>): nat
    requires |a| == |b|
  {
    if |a| >= 2 && a[|a| - 2] != b[|a| - 2] then 2 else 1
  }

  lemma ParseStep(messageId: u16, count: nat, a: seq<byte>)
    requires count > 0 && Parse(messageId, count, a).Some?
    ensures |a| >= 4 && 4 <= Word(a, 2) <= |a| && Word(a, 0) / MAX_SUBBLOCKS == messageId
    ensures var length := Word(a, 2);
            && Parse(messageId, count - 1, a[length..]).Some?
            && var (more, rest) := Parse(messageId, count - 1, a[length..]).value;
               Parse(messageId, count, a).value == ([Subblock(Word(a, 0) % MAX_SUBBLOCKS, a[4..length])] + more, rest)
  {
  }

  /** The same header: the other payload goes on after a sub-block of the same length. */
  lemma SameStep(messageId: u16, count: nat, a: seq<byte>, b: seq<byte>)
    requires count > 0 && Parse(messageId, count, a).Some? && |a| == |b| && forall i | 0 <= i < 4 && i < |a| :: a[i] == b[i]
    ensures |a| >= 4 && 4 <= Word(a, 2) <= |a| && Word(b, 2) == Word(a, 2)
    ensures PayloadOk(messageId, count, b) <==> PayloadOk(messageId, count - 1, b[Word(a, 2)..])
  {
    ParseStep(messageId, count, a);
    assert Word(b, 0) == Word(a, 0) && Word(b, 2) == Word(a, 2);
  }

  /** A changed high byte of the length announces more than there is. */
  lemma LengthTooLarge(messageId: u16, count: nat, a: seq<byte>, b: seq<byte>)
    requires count > 0 && Parse(messageId, count, a).Some? && |a| == |b| < 256 && |a| >= 4 && a[3] != b[3]
    ensures !PayloadOk(messageId, count, b)
  {
    ParseStep(messageId, count, a);
    assert a[3] == 0 && Word(b, 2) >= 256;
  }

  lemma LastShort(messageId: u16, count: nat, a: seq<byte>)
    requires |a| < 4 && Parse(messageId, count, a).Some?
    ensures count == 0 && Parse(messageId, count, a).value == ([], a)
  {
  }

  /** The last sub-block ends the payload: the other payload is accepted iff only data bytes were touched. */
  lemma LastBlockChange(messageId: u16, count: nat, a: seq<byte>, b: seq<byte>)
    requires count > 0 && PayloadOk(messageId, count, a) && DifferAtEnd(a, b) && |a| < 256 && |a| >= 4 && Word(a, 2) == |a|
    ensures var (blocks, rest) := Parse(messageId, count, a).value;
            PayloadOk(messageId, count, b) <==> EndsInData(blocks, rest, Touched(a, b))
  {
    hide Word;
    ParseStep(messageId, count, a);
    var n := |a|;
    assert a[n..] == [] && b[n..] == [];
    LastShort(messageId, count - 1, a[n..]);
    var blocks := Parse(messageId, count, a).value.0;
    assert blocks == [Subblock(Word(a, 0) % MAX_SUBBLOCKS, a[4..n])] && |blocks[0].data| == n - 4;
    if a[3] != b[3] {
      LengthTooLarge(messageId, count, a, b);
    } else {
      assert n > 4 && forall i | 0 <= i < 4 :: a[i] == b[i];
      SameStep(messageId, count, a, b);
    }
  }

  /** One more byte follows the last sub-block: it is padding, so its change is refused. */
  lemma PadByteChange(messageId: u16, count: nat, a: seq<byte>, b: seq<byte>)
    requires count > 0 && PayloadOk(messageId, count, a) && DifferAtEnd(a, b) && |a| < 256 && |a| >= 4 && Word(a, 2) == |a| - 1
    ensures !PayloadOk(messageId, count, b) && Parse(messageId, count, a).value.1 != []
  {
    hide Word;
    ParseStep(messageId, count, a);
    var n := |a| - 1;
    LastShort(messageId, count - 1, a[n..]);
    assert a[n..] == [a[n]] && b[n..] == [b[n]] && Parse(messageId, count, a).value.1 == a[n..];
    assert a[n..][0] == 0xff;
    if a[3] != b[3] {
      LengthTooLarge(messageId, count, a, b);
    } else {
      assert forall i | 0 <= i < 4 :: a[i] == b[i];
      SameStep(messageId, count, a, b);
      assert b[n..][0] != 0xff && !Padded(b[n..]);
    }
  }

  lemma LastOfMore(block: Subblock, more: seq<Subblock>, rest: seq<byte>, k: nat)
    requires more != []
    ensures EndsInData([block] + more, rest, k) <==> EndsInData(more, rest, k)
  {
    assert ([block] + more)[|more|] == more[|more| - 1];
  }

  /** A change of the last byte, and perhaps of the one before it, is accepted iff it touches only data of the last sub-block. */
  lemma {:induction false} EndChange(messageId: u16, count: nat, a: seq<byte>, b: seq<byte>)
    requires PayloadOk(messageId, count, a) && DifferAtEnd(a, b) && |a| < 256
    ensures var (blocks, rest) := Parse(messageId, count, a).value;
            PayloadOk(messageId, count, b) <==> EndsInData(blocks, rest, Touched(a, b))
    decreases count
  {
    var n := |a|;
    if count == 0 {
      assert a[n - 1] == 0xff && b[n - 1] != 0xff && Parse(messageId, 0, b).value.1 == b;
      assert !Padded(b);
    } else {
      hide Word, Parse;
      ParseStep(messageId, count, a);
      var length := Word(a, 2);
      if length == n {
        LastBlockChange(messageId, count, a, b);
      } else if length == n - 1 {
        PadByteChange(messageId, count, a, b);
      } else {
        var a', b' := a[length..], b[length..];
        SameStep(messageId, count, a, b);
        assert DifferAtEnd(a', b') && Touched(a', b') == Touched(a, b);
        EndChange(messageId, count - 1, a', b');
        var (more, rest) := Parse(messageId, count - 1, a').value;
        if more != [] {
          LastOfMore(Subblock(Word(a, 0) % MAX_SUBBLOCKS, a[4..length]), more, rest, Touched(a, b));
        } else {
          NoBlocks(messageId, count - 1, a');
        }
      }
    }
  }

  lemma NoBlocks(messageId: u16, count: nat, a: seq<byte>)
    requires Parse(messageId, count, a).Some? && Parse(messageId, count, a).value.0 == []
    ensures Parse(messageId, count, a).value.1 == a
  {
  }

  /** The decoder's checks besides the CRC and the payload. */
  predicate FrontOk(f: seq<byte>) {
    18 <= |f| <= MAX_MESSAGE_LENGTH && HeaderOk(f) && Word(f, 12) <= MAX_SUBBLOCKS
  }

  lemma DecodeParts(f: seq<byte>)
    ensures Decode(f).Some? <==>
            FrontOk(f) && CrcOk(f) && PayloadOk(Word(f, 4) / 64, Word(f, 12), f[16..|f| - 2])
    ensures Decode(f).Some? ==>
              && (|f| - 6) % 4 == 0 && Decode(f).value.messageId == Word(f, 4) / 64
              && Decode(f).value.subblocks == Parse(Word(f, 4) / 64, Word(f, 12), f[16..|f| - 2]).value.0
  {
    hide Parse, Checksum, CrcOk, FlagsOk;
  }

  lemma SameFront(f: seq<byte>, g: seq<byte>)
    requires 18 <= |f| == |g| && f[..16] == g[..16]
    ensures FrontOk(f) <==> FrontOk(g)
    ensures Word(f, 4) == Word(g, 4) && Word(f, 12) == Word(g, 12)
  {
    hide Checksum, FlagsOk;
    assert forall i | 0 <= i < 16 :: f[i] == f[..16][i] && g[i] == g[..16][i];
    assert f[4..14] == g[4..14];
  }

  lemma EscapeTouches(f: seq<byte>, g: seq<byte>)
    requires EscapesAtEnd(f, g)
    ensures f[|f| - 3] != g[|f| - 3]
  {
    hide Diff;
    NoDiff(f[|f| - 3], g[|f| - 3]);
  }

  /** A frame without a body: the difference falls into the header checksum. */
  lemma EmptyBodyRefused(f: seq<byte>, g: seq<byte>)
    requires 18 == |f| == |g| && f[..14] == g[..14] && f[15] != g[15] && FrontOk(f)
    ensures !FrontOk(g)
  {
    hide Checksum, FlagsOk;
    assert f[4..14] == f[..14][4..] && g[4..14] == g[..14][4..];
  }

  /** The message's payload fills the frame and its last sub-block has at least k data bytes. */
  predicate FillsFrame(m: Message, k: nat) {
    && PadLength(|Payload(m.messageId, m.subblocks)|) == 0
    && m.subblocks != [] && |m.subblocks[|m.subblocks| - 1].data| >= k
  }

  lemma FillsIffEnds(f: seq<byte>, k: nat)
    requires Decode(f).Some?
    ensures var m := Decode(f).value; var rest := Parse(Word(f, 4) / 64, Word(f, 12), f[16..|f| - 2]).value.1;
            FillsFrame(m, k) <==> EndsInData(m.subblocks, rest, k)
  {
    hide Decode, Parse, Payload;
    DecodeParts(f);
    ParseExact(Word(f, 4) / 64, Word(f, 12), f[16..|f| - 2]);
    var m := Decode(f).value;
    var rest := Parse(Word(f, 4) / 64, Word(f, 12), f[16..|f| - 2]).value.1;
    SamePad(|Payload(m.messageId, m.subblocks)|, |rest|);
  }

  lemma EscapeDecoded(f: seq<byte>, g: seq<byte>)
    requires Decode(f).Some? && EscapesAtEnd(f, g)
    ensures Decode(g).Some? <==> FillsFrame(Decode(f).value, Touched(f[..|f| - 2], g[..|f| - 2]))
  {
    hide Decode, Parse, Payload, CrcOk, FrontOk, Escapes, Diff, Word, PayloadOk, EndsInData, FillsFrame;
    var n := |f| - 2;
    DecodeParts(f);
    DecodeParts(g);
    EscapeTouches(f, g);
    EscapesAreAccepted(f, g);
    var a, b := f[16..n], g[16..n];
    var k := Touched(f[..n], g[..n]);
    FillsIffEnds(f, k);
    if n == 16 {
      assert f[..14] == f[..|f| - 4] && g[..14] == g[..|f| - 4];
      EmptyBodyRefused(f, g);
      NothingIn(Word(f, 4) / 64, Word(f, 12), a, k);
    } else {
      assert n >= 20;
      assert forall i | 0 <= i < n - 2 :: f[i] == f[..|f| - 4][i] && g[i] == g[..|f| - 4][i];
      SameFront(f, g);
      assert DifferAtEnd(a, b) && Touched(a, b) == k;
      FrontSize(f);
      EndChange(Word(f, 4) / 64, Word(f, 12), a, b);
    }
  }

  lemma NothingIn(messageId: u16, count: nat, a: seq<byte>, k: nat)
    requires a == [] && PayloadOk(messageId, count, a)
    ensures var (blocks, rest) := Parse(messageId, count, a).value; !EndsInData(blocks, rest, k)
  {
    LastShort(messageId, count, a);
  }

  lemma FrontSize(f: seq<byte>)
    requires FrontOk(f)
    ensures |f| <= 256
  {
  }

  /**
    The exact answer of the decoder to a burst of at most sixteen bits on an accepted frame: it accepts the damaged frame if and
    only if the difference is one of the twelve across the border into the CRC field and touches nothing before the field
    but data bytes of the last sub-block.
   */
  lemma BurstAcceptedIff(f: seq<byte>, g: seq<byte>, p: nat)
    requires Decode(f).Some? && Burst(f, g, p) && f != g
    ensures Decode(g).Some? <==>
            EscapesAtEnd(f, g) && FillsFrame(Decode(f).value, if f[|f| - 4] != g[|f| - 4] then 2 else 1)
  {
    hide Decode, Burst, EscapesAtEnd, FillsFrame;
    if Decode(g).Some? {
      BurstRejected(f, g, p);
    }
    if EscapesAtEnd(f, g) {
      EscapeDecoded(f, g);
      EscapeSize(f, g);
    }
  }

  lemma EscapeSize(f: seq<byte>, g: seq<byte>)
    requires EscapesAtEnd(f, g)
    ensures 18 <= |f| == |g| && Touched(f[..|f| - 2], g[..|f| - 2]) == if f[|f| - 4] != g[|f| - 4] then 2 else 1
  {
    hide Escapes, Diff;
  }

  // ---------------------------------------------------------------- one valid message into another

  /** The same command with another last data byte in its only sub-block. */
  function WithLast(c: Command, d: seq<byte>, x: byte): Command
    requires |c.subblocks| == 1
  {
    c.(subblocks := [c.subblocks[0].(data := d + [x])])
  }

  /** What comes before the last data byte. */
  function BlockBefore(c: Command, d: seq<byte>): (s: seq<byte>)
    requires |c.subblocks| == 1
    ensures |s| == 4 + |d|
  {
    PutLE(UniqueId(c.messageId, c.subblocks[0].id), 2) + PutLE(5 + |d|, 2) + d
  }

  lemma OnePayload(c: Command, d: seq<byte>, x: byte)
    requires |c.subblocks| == 1
    ensures var w := WithLast(c, d, x); Payload(w.messageId, w.subblocks) == BlockBefore(c, d) + [x]
  {
    hide PutLE, UniqueId;
    var w := WithLast(c, d, x);
    var block := Block(w.messageId, w.subblocks[0]);
    assert w.subblocks[1..] == [];
    assert Payload(w.messageId, w.subblocks) == block + [] == block;
    assert 4 + |d + [x]| == 5 + |d|;
    assert block == BlockBefore(c, d) + [x];
  }

  lemma OneBlock(c: Command, d: seq<byte>, x: byte)
    requires |c.subblocks| == 1 && |d| % 4 == 3
    ensures Body(WithLast(c, d, x)) == BlockBefore(c, d) + [x] && BodyLength(WithLast(c, d, x)) == 5 + |d|
  {
    hide Payload, BlockBefore;
    OnePayload(c, d, x);
    SamePad(5 + |d|, 0);
    assert Padding(0) == [];
  }

  lemma SameHead(c: Command, d: seq<byte>, x: byte, y: byte, direction: byte, messageClass: byte)
    requires |c.subblocks| == 1 && |d| % 4 == 3
    ensures Head(direction, messageClass, WithLast(c, d, x)) == Head(direction, messageClass, WithLast(c, d, y))
    ensures Encodable(WithLast(c, d, x)) <==> Encodable(WithLast(c, d, y))
  {
    hide PutLE, BodyLength;
    OneBlock(c, d, x);
    OneBlock(c, d, y);
  }

  lemma FramesUpToLast(c: Command, d: seq<byte>, x: byte, y: byte, direction: byte, messageClass: byte)
    requires |c.subblocks| == 1 && |d| % 4 == 3
    ensures var f := Layout(DEVICE_SYNC, direction, messageClass, WithLast(c, d, x));
            var g := Layout(DEVICE_SYNC, direction, messageClass, WithLast(c, d, y));
            18 <= |f| == |g| && f[..|f| - 3] == g[..|f| - 3] && f[|f| - 3] == x && g[|f| - 3] == y
  {
    hide PutLE, Head, Checksum, Crc, BodyLength, Body, Layout, BlockBefore;
    var f := Layout(DEVICE_SYNC, direction, messageClass, WithLast(c, d, x));
    var g := Layout(DEVICE_SYNC, direction, messageClass, WithLast(c, d, y));
    OneBlock(c, d, x);
    OneBlock(c, d, y);
    SameHead(c, d, x, y, direction, messageClass);
    LayoutFields(DEVICE_SYNC, direction, messageClass, WithLast(c, d, x));
    LayoutFields(DEVICE_SYNC, direction, messageClass, WithLast(c, d, y));
    var n := |f| - 2;
    assert f[..n] == f[0..2] + f[2..4] + f[4..14] + f[14..16] + f[16..n];
    assert g[..n] == g[0..2] + g[2..4] + g[4..14] + g[14..16] + g[16..n];
    var before := f[0..2] + f[2..4] + f[4..14] + f[14..16] + BlockBefore(c, d);
    assert f[..n] == before + [x] && g[..n] == before + [y];
    assert f[..n - 1] == f[..n][..n - 1] && g[..n - 1] == g[..n][..n - 1];
  }

  lemma LastBitDiffers(x: byte)
    requires x % 2 == 0 && x + 1 < 256
    ensures Diff(x, x + 1) == 1
  {
    hide BitAt, Diff;
    EvenBits(x);
    DiffBits(x, x + 1);
    OnlyLast(Diff(x, x + 1));
  }

  lemma OnlyLast(v: bv8)
    requires TopClear(v, 7) && !Clear(v, 1)
    ensures v == 1
  {
  }

  lemma EvenBits(x: byte)
    requires x % 2 == 0 && x + 1 < 256
    ensures BitAt(x, 7) != BitAt(x + 1, 7) && forall k | 0 <= k < 7 :: BitAt(x, k) == BitAt(x + 1, k)
  {
    hide Odd, Half;
    assert Odd(x) != Odd(x + 1) && Half(x) == Half(x + 1) by { HalfOfEven(x); }
    assert Halves(x, 0) == x && Halves(x + 1, 0) == x + 1;
    forall k | 0 <= k < 7
      ensures BitAt(x, k) == BitAt(x + 1, k)
    {
      SameHalves(x, x + 1, 7 - k);
    }
  }

  lemma HalfOfEven(x: nat)
    requires x % 2 == 0
    ensures Odd(x) != Odd(x + 1) && Half(x) == Half(x + 1)
  {
  }

  lemma {:induction false} SameHalves(x: nat, y: nat, k: nat)
    requires Half(x) == Half(y) && k > 0
    ensures Halves(x, k) == Halves(y, k)
  {
    if k > 1 {
      SameHalves(x, y, k - 1);
    }
  }

  lemma FieldChange(high: bv8, low: bv8)
    requires Feed(Feed(0, 0), 1) == Add(Upper(high), Lower(low))
    ensures high == 0x10 && low == 0x21
  {
  }

  /** Differences 01, 21, 10 in the last three bytes are a burst of thirteen bits. */
  lemma ThirteenBits(f: seq<byte>, g: seq<byte>)
    requires 3 <= |f| == |g| && f[..|f| - 3] == g[..|f| - 3]
    requires Diff(f[|f| - 3], g[|f| - 3]) == 0x01 && Diff(f[|f| - 2], g[|f| - 2]) == 0x21 && Diff(f[|f| - 1], g[|f| - 1]) == 0x10
    ensures Burst(f, g, 8 * (|f| - 3) + 7)
  {
    hide Diff, BitAt;
    var m := |f| - 3;
    assert forall i | 0 <= i < m :: f[i] == f[..m][i] && g[i] == g[..m][i];
    DiffBits(f[m], g[m]);
    DiffBits(f[m + 1], g[m + 1]);
    DiffBits(f[m + 2], g[m + 2]);
    forall i, k | 0 <= i < |f| && 0 <= k < 8 && !SameBit(f, g, i, k)
      ensures 8 * m + 7 <= 8 * i + k < 8 * m + 7 + 16
    {
      assert i >= m;
    }
  }

  /**
    A burst of thirteen bits turns a valid frame into another valid frame, which the decoder accepts as a different message: for
    every command with one sub-block whose data fills the frame and ends in an even byte.
   */
  lemma BurstForgesMessage(c: Command, d: seq<byte>, x: byte, direction: byte, messageClass: byte)
    requires |c.subblocks| == 1 && |d| % 4 == 3 && x % 2 == 0 && x + 1 < 256 && Encodable(WithLast(c, d, x))
    requires (direction == BSS_TO_HOST || direction == MSS_TO_HOST) && 0 < messageClass < 4
    ensures var f := Layout(DEVICE_SYNC, direction, messageClass, WithLast(c, d, x));
            var g := Layout(DEVICE_SYNC, direction, messageClass, WithLast(c, d, x + 1));
            && Decode(f).Some? && Decode(g).Some? && Decode(f) != Decode(g)
            && |f| == |g| && Burst(f, g, 8 * (|f| - 3) + 7)
  {
    hide Layout, Decode, Burst, CrcOk, Feed, Upper, Lower, Add, Diff, Encodable;
    var f := Layout(DEVICE_SYNC, direction, messageClass, WithLast(c, d, x));
    var g := Layout(DEVICE_SYNC, direction, messageClass, WithLast(c, d, x + 1));
    SameHead(c, d, x, x + 1, direction, messageClass);
    RoundTrip(WithLast(c, d, x), direction, messageClass);
    RoundTrip(WithLast(c, d, x + 1), direction, messageClass);
    assert (d + [x])[|d|] != (d + [x + 1])[|d|];
    FramesUpToLast(c, d, x, x + 1, direction, messageClass);
    AcceptedFrame(f);
    AcceptedFrame(g);
    var n := |f| - 2;
    assert f[..|f| - 4] == f[..n - 1][..n - 2] && g[..|f| - 4] == g[..n - 1][..n - 2];
    assert f[n - 2] == f[..n - 1][n - 2] == g[..n - 1][n - 2] == g[n - 2];
    NoDiff(f[n - 2], g[n - 2]);
    LastBitDiffers(x);
    CrcAtTheEnd(f, g);
    FieldChange(Diff(f[n + 1], g[n + 1]), Diff(f[n], g[n]));
    ThirteenBits(f, g);
  }
}
