/** The register of CRC-16/CCITT-FALSE over bit vectors: one shift step is a linear bijection. */
module CrcBits {

  predicate High(c: bv16) { c & 0x8000 != 0 }
  predicate Low(c: bv16) { c & 1 != 0 }
  function Add(c: bv16, d: bv16): bv16 { c ^ d }
  function Double(c: bv16): bv16 { c << 1 }

  const POLYNOMIAL: bv16 := 0x1021

  function Shift(c: bv16): bv16 {
    if High(c) then Add(Double(c), POLYNOMIAL) else Double(c)
  }

  function Unshift(d: bv16): bv16 {
    if Low(d) then ((d ^ 0x1021) >> 1) | 0x8000 else d >> 1
  }

  function Shift8(c: bv16): bv16 {
    Shift(Shift(Shift(Shift(Shift(Shift(Shift(Shift(c))))))))
  }

  function Unshift8(c: bv16): bv16 {
    Unshift(Unshift(Unshift(Unshift(Unshift(Unshift(Unshift(Unshift(c))))))))
  }

  lemma HighCase(c: bv16)
    requires c & 0x8000 != 0
    ensures ((c << 1) ^ 0x1021) & 1 != 0
    ensures ((((c << 1) ^ 0x1021) ^ 0x1021) >> 1) | 0x8000 == c
  {
  }

  lemma LowCase(c: bv16)
    requires c & 0x8000 == 0
    ensures (c << 1) & 1 == 0 && (c << 1) >> 1 == c
  {
  }

  /** The polynomial is odd, so the lowest bit tells whether it was added and the step can be undone. */
  lemma UnshiftShift(c: bv16)
    ensures Unshift(Shift(c)) == c
  {
    if High(c) {
      HighCase(c);
    } else {
      LowCase(c);
    }
  }

  lemma Unshift8Shift8(c: bv16)
    ensures Unshift8(Shift8(c)) == c
  {
    hide Shift, Unshift;
    var c1 := Shift(c);
    var c2 := Shift(c1);
    var c3 := Shift(c2);
    var c4 := Shift(c3);
    var c5 := Shift(c4);
    var c6 := Shift(c5);
    var c7 := Shift(c6);
    UnshiftShift(c);
    UnshiftShift(c1);
    UnshiftShift(c2);
    UnshiftShift(c3);
    UnshiftShift(c4);
    UnshiftShift(c5);
    UnshiftShift(c6);
    UnshiftShift(c7);
  }

  function Bit(p: bool, weight: bv8): bv8 { if p then weight else 0 }

  function Pack(p0: bool, p1: bool, p2: bool, p3: bool, p4: bool, p5: bool, p6: bool, p7: bool): bv8 {
    Bit(p0, 1) | Bit(p1, 2) | Bit(p2, 4) | Bit(p3, 8) | Bit(p4, 16) | Bit(p5, 32) | Bit(p6, 64) | Bit(p7, 128)
  }

  lemma PackInjective(p0: bool, p1: bool, p2: bool, p3: bool, p4: bool, p5: bool, p6: bool, p7: bool,
                      q0: bool, q1: bool, q2: bool, q3: bool, q4: bool, q5: bool, q6: bool, q7: bool)
    requires Pack(p0, p1, p2, p3, p4, p5, p6, p7) == Pack(q0, q1, q2, q3, q4, q5, q6, q7)
    ensures p0 == q0 && p1 == q1 && p2 == q2 && p3 == q3 && p4 == q4 && p5 == q5 && p6 == q6 && p7 == q7
  {
  }

  lemma XorCancel(x: bv16, y: bv16)
    ensures x ^ (x ^ y) == y
  {
  }

  lemma XorCancelRight(x: bv16, y: bv16)
    ensures (y ^ x) ^ x == y
  {
  }

  lemma XorAssociates(x: bv16, y: bv16, z: bv16)
    ensures (x ^ y) ^ z == x ^ (y ^ z)
  {
  }

  lemma AddCancels(x: bv16, y: bv16)
    ensures Add(x, Add(x, y)) == y
  {
    XorCancel(x, y);
  }

  lemma AddCancelsRight(x: bv16, y: bv16)
    ensures Add(Add(y, x), x) == y
  {
    XorCancelRight(x, y);
  }

  lemma AddAssociates(x: bv16, y: bv16, z: bv16)
    ensures Add(Add(x, y), z) == Add(x, Add(y, z))
  {
    XorAssociates(x, y, z);
  }

  lemma DoubleAdd(c: bv16, d: bv16)
    ensures Double(Add(c, d)) == Add(Double(c), Double(d))
  {
    DoubleXor(c, d);
  }

  lemma DoubleXor(c: bv16, d: bv16)
    ensures (c ^ d) << 1 == (c << 1) ^ (d << 1)
  {
  }

  lemma HighAdd(c: bv16, d: bv16)
    ensures High(Add(c, d)) == (High(c) != High(d))
  {
    HighXor(c, d);
  }

  lemma HighXor(c: bv16, d: bv16)
    ensures ((c ^ d) & 0x8000 != 0) == ((c & 0x8000 != 0) != (d & 0x8000 != 0))
  {
  }

  lemma AddCommutes(c: bv16, d: bv16)
    ensures Add(c, d) == Add(d, c)
  {
  }

  lemma ShiftLinear(c: bv16, d: bv16)
    ensures Shift(Add(c, d)) == Add(Shift(c), Shift(d))
  {
    hide Add, Double, High, POLYNOMIAL;
    var x, y, p := Double(c), Double(d), POLYNOMIAL;
    DoubleAdd(c, d);
    HighAdd(c, d);
    AddAssociates(x, y, p);
    AddAssociates(x, p, y);
    AddCommutes(p, y);
    AddAssociates(Add(x, p), y, p);
    AddCancelsRight(p, Add(x, y));
  }

  lemma Shift8Linear(c: bv16, d: bv16)
    ensures Shift8(Add(c, d)) == Add(Shift8(c), Shift8(d))
  {
    hide Shift, Add;
    var c1, d1 := Shift(c), Shift(d);
    var c2, d2 := Shift(c1), Shift(d1);
    var c3, d3 := Shift(c2), Shift(d2);
    var c4, d4 := Shift(c3), Shift(d3);
    var c5, d5 := Shift(c4), Shift(d4);
    var c6, d6 := Shift(c5), Shift(d5);
    var c7, d7 := Shift(c6), Shift(d6);
    ShiftLinear(c, d);
    ShiftLinear(c1, d1);
    ShiftLinear(c2, d2);
    ShiftLinear(c3, d3);
    ShiftLinear(c4, d4);
    ShiftLinear(c5, d5);
    ShiftLinear(c6, d6);
    ShiftLinear(c7, d7);
  }

  /** A byte in the low and in the high half of the register. */
  function Lower(b: bv8): bv16 { b as bv16 }
  function Upper(b: bv8): bv16 { Lower(b) << 8 }

  /** Eight steps carry a byte from the low half into the high half unchanged. */
  lemma Shift8Lower(b: bv8)
    ensures Shift8(Lower(b)) == Upper(b)
  {
    LowSteps(Lower(b));
  }

  lemma LowSteps(d: bv16)
    requires d & 0xff00 == 0
    ensures Shift8(d) == d << 8
  {
    assert !High(d) && !High(d << 1) && !High(d << 2) && !High(d << 3);
    assert !High(d << 4) && !High(d << 5) && !High(d << 6) && !High(d << 7);
    assert (d << 1) << 1 == d << 2 && (d << 2) << 1 == d << 3 && (d << 3) << 1 == d << 4 && (d << 4) << 1 == d << 5;
    assert (d << 5) << 1 == d << 6 && (d << 6) << 1 == d << 7 && (d << 7) << 1 == d << 8;
  }

  /** One byte of input: added to the high half, then eight shift steps. */
  function Feed(c: bv16, b: bv8): bv16 {
    Shift8(Add(c, Upper(b)))
  }

  lemma JoinInjective(a: bv8, b: bv8, c: bv8, d: bv8)
    requires Add(Upper(a), Lower(b)) == Add(Upper(c), Lower(d))
    ensures a == c && b == d
  {
  }

  /** Feeding a fixed byte is a bijection of the register. */
  lemma FeedInjective(c: bv16, d: bv16, b: bv8)
    requires Feed(c, b) == Feed(d, b)
    ensures c == d
  {
    hide Shift8, Unshift8, Upper, Add;
    Unshift8Shift8(Add(c, Upper(b)));
    Unshift8Shift8(Add(d, Upper(b)));
    AddCancelsRight(Upper(b), c);
    AddCancelsRight(Upper(b), d);
  }

  lemma FeedTwo(c: bv16, a: bv8, b: bv8)
    ensures Feed(Feed(c, a), b) == Shift8(Shift8(Add(c, Add(Upper(a), Lower(b)))))
  {
    hide Shift8, Upper, Lower, Add;
    Shift8Lower(b);
    Shift8Linear(Add(c, Upper(a)), Lower(b));
    AddAssociates(c, Upper(a), Lower(b));
  }

  /** Two bytes fed into one register value: the results agree only if both bytes do. */
  lemma FeedTwoInjective(c: bv16, a: bv8, b: bv8, a': bv8, b': bv8)
    requires Feed(Feed(c, a), b) == Feed(Feed(c, a'), b')
    ensures a == a' && b == b'
  {
    hide Shift8, Unshift8, Upper, Lower, Add, Feed;
    FeedTwo(c, a, b);
    FeedTwo(c, a', b');
    var x, x' := Add(Upper(a), Lower(b)), Add(Upper(a'), Lower(b'));
    Unshift8Shift8(Shift8(Add(c, x)));
    Unshift8Shift8(Shift8(Add(c, x')));
    Unshift8Shift8(Add(c, x));
    Unshift8Shift8(Add(c, x'));
    AddCancels(c, x);
    AddCancels(c, x');
    JoinInjective(a, b, a', b');
  }

  // ---------------------------------------------------------------- differences

  lemma AddSwaps(c: bv16, x: bv16, d: bv16, y: bv16)
    ensures Add(Add(c, x), Add(d, y)) == Add(Add(c, d), Add(x, y))
  {
    hide Add;
    AddAssociates(c, x, Add(d, y));
    AddAssociates(x, d, y);
    AddCommutes(x, d);
    AddAssociates(d, x, y);
    AddAssociates(c, d, Add(x, y));
  }

  lemma UpperAdd(x: bv8, y: bv8)
    ensures Add(Upper(x), Upper(y)) == Upper(Xor(x, y))
  {
  }

  lemma LowerAdd(x: bv8, y: bv8)
    ensures Add(Lower(x), Lower(y)) == Lower(Xor(x, y))
  {
  }

  lemma AddSelf(c: bv16)
    ensures Add(c, c) == 0
  {
  }

  lemma AddZero(c: bv16, d: bv16)
    ensures Add(c, d) == 0 <==> c == d
  {
    hide Add;
    AddSelf(c);
    AddCancels(c, d);
    AddNothing(c);
    AddCommutes(0, c);
  }

  /** The registers of two messages differ by what their difference alone would leave. */
  lemma FeedLinear(c: bv16, d: bv16, x: bv8, y: bv8)
    ensures Add(Feed(c, x), Feed(d, y)) == Feed(Add(c, d), Xor(x, y))
  {
    hide Shift8, Upper, Add, Xor;
    Shift8Linear(Add(c, Upper(x)), Add(d, Upper(y)));
    AddSwaps(c, Upper(x), d, Upper(y));
    UpperAdd(x, y);
  }

  function Xor(x: bv8, y: bv8): bv8 { x ^ y }

  predicate Clear(x: bv8, weight: bv8) { x & weight == 0 }

  /** The first j bits are clear, counting from the most significant one. */
  predicate TopClear(x: bv8, j: nat) {
    && (j > 0 ==> Clear(x, 0x80)) && (j > 1 ==> Clear(x, 0x40)) && (j > 2 ==> Clear(x, 0x20)) && (j > 3 ==> Clear(x, 0x10))
    && (j > 4 ==> Clear(x, 0x08)) && (j > 5 ==> Clear(x, 0x04)) && (j > 6 ==> Clear(x, 0x02)) && (j > 7 ==> Clear(x, 0x01))
  }

  /** All bits but the first j are clear. */
  predicate RestClear(x: bv8, j: nat) {
    && (j < 1 ==> Clear(x, 0x80)) && (j < 2 ==> Clear(x, 0x40)) && (j < 3 ==> Clear(x, 0x20)) && (j < 4 ==> Clear(x, 0x10))
    && (j < 5 ==> Clear(x, 0x08)) && (j < 6 ==> Clear(x, 0x04)) && (j < 7 ==> Clear(x, 0x02)) && (j < 8 ==> Clear(x, 0x01))
  }

  lemma WindowVanishes(a: bv8, b: bv8, d: bv8, j: nat)
    requires j < 8 && TopClear(a, j) && RestClear(d, j) && Shift8(Add(Upper(a), Lower(b))) == Lower(d)
    ensures a == 0 && b == 0 && d == 0
  {
  }

  /** A difference of at most sixteen consecutive bits, wherever it starts in its first byte, never leaves the register alone. */
  lemma FeedThreeVanishes(a: bv8, b: bv8, d: bv8, j: nat)
    requires j < 8 && TopClear(a, j) && RestClear(d, j) && Feed(Feed(Feed(0, a), b), d) == 0
    ensures a == 0 && b == 0 && d == 0
  {
    hide Shift8, Unshift8, Upper, Lower, Add, TopClear, RestClear;
    var x := Add(Upper(a), Lower(b));
    FeedTwo(0, a, b);
    AddNothing(x);
    Shift8Lower(d);
    Shift8Linear(Shift8(x), Lower(d));
    var y := Add(Shift8(x), Lower(d));
    Unshift8Shift8(Shift8(y));
    Unshift8Shift8(y);
    Unshift8Shift8(0);
    ShiftNothing();
    AddZero(Shift8(x), Lower(d));
    WindowVanishes(a, b, d, j);
  }

  lemma AddNothing(x: bv16)
    ensures Add(0, x) == x
  {
  }

  lemma ShiftNothing()
    ensures Shift8(0) == 0
  {
  }

  /**
    The differences of two data bytes and of the low and the high byte of the CRC field, in frame order, that span at most
    sixteen bits, touch the data, and still satisfy the CRC: the field holds its low byte first, so its bits are not in
    the order in which the register would take them.
   */
  predicate Escapes(x: bv8, y: bv8, low: bv8, high: bv8) {
    || (x == 0 && 1 <= y <= 7 && low == (y << 5) | y && high == y << 4)
    || (x == 0x00 && y == 0x89 && low == 0xa1 && high == 0)
    || (x == 0x02 && y == 0x35 && low == 0x94 && high == 0)
    || (x == 0x08 && y == 0xc5 && low == 0x40 && high == 0)
    || (x == 0x11 && y == 0x8a && low == 0x80 && high == 0)
    || (x == 0x19 && y == 0x4f && low == 0xc0 && high == 0)
  }

  /** One data byte and both bytes of the field. */
  lemma CrossingOne(y: bv8, low: bv8, high: bv8, j: nat)
    requires j < 8 && TopClear(y, j) && RestClear(high, j) && Feed(0, y) == Add(Upper(high), Lower(low))
    ensures (y == 0 && low == 0 && high == 0) || Escapes(0, y, low, high)
  {
  }

  /** Two data bytes and the first byte of the field. */
  lemma CrossingTwo(x: bv8, y: bv8, low: bv8, j: nat)
    requires j < 8 && TopClear(x, j) && RestClear(low, j) && Feed(Feed(0, x), y) == Lower(low)
    ensures (x == 0 && y == 0 && low == 0) || Escapes(x, y, low, 0)
  {
    hide Feed, Escapes, Lower;
    if j < 4 {
      CrossingEarly(x, y, low, j);
    } else {
      CrossingLate(x, y, low, j);
    }
  }

  lemma CrossingEarly(x: bv8, y: bv8, low: bv8, j: nat)
    requires j < 4 && TopClear(x, j) && RestClear(low, j) && Feed(Feed(0, x), y) == Lower(low)
    ensures (x == 0 && y == 0 && low == 0) || Escapes(x, y, low, 0)
  {
  }

  lemma CrossingLate(x: bv8, y: bv8, low: bv8, j: nat)
    requires 4 <= j < 8 && TopClear(x, j) && RestClear(low, j) && Feed(Feed(0, x), y) == Lower(low)
    ensures (x == 0 && y == 0 && low == 0) || Escapes(x, y, low, 0)
  {
  }

  lemma EscapesFit(x: bv8, y: bv8, low: bv8, high: bv8)
    requires Escapes(x, y, low, high)
    ensures Feed(Feed(0, x), y) == Add(Upper(high), Lower(low))
  {
    if x == 0 && 1 <= y <= 7 {
      NothingFed();
      hide Escapes;
      EscapesLow(y);
    } else {
      EscapesRest(x, y, low, high);
    }
  }

  lemma NothingFed()
    ensures Feed(0, 0) == 0
  {
  }

  lemma EscapesLow(y: bv8)
    requires 1 <= y <= 7
    ensures Feed(0, y) == Add(Upper(y << 4), Lower((y << 5) | y))
  {
  }

  lemma EscapesRest(x: bv8, y: bv8, low: bv8, high: bv8)
    requires Escapes(x, y, low, high) && !(x == 0 && 1 <= y <= 7)
    ensures Feed(Feed(0, x), y) == Add(Upper(high), Lower(low))
  {
    hide Feed, Upper, Lower, Add;
    if x == 0 {
      EscapeOne();
    } else if x == 0x02 {
      EscapeTwo();
    } else if x == 0x08 {
      EscapeThree();
    } else if x == 0x11 {
      EscapeFour();
    } else {
      EscapeFive();
    }
  }

  lemma EscapeOne()
    ensures Feed(Feed(0, 0x00), 0x89) == Add(Upper(0), Lower(0xa1))
  {
  }

  lemma EscapeTwo()
    ensures Feed(Feed(0, 0x02), 0x35) == Add(Upper(0), Lower(0x94))
  {
  }

  lemma EscapeThree()
    ensures Feed(Feed(0, 0x08), 0xc5) == Add(Upper(0), Lower(0x40))
  {
  }

  lemma EscapeFour()
    ensures Feed(Feed(0, 0x11), 0x8a) == Add(Upper(0), Lower(0x80))
  {
  }

  lemma EscapeFive()
    ensures Feed(Feed(0, 0x19), 0x4f) == Add(Upper(0), Lower(0xc0))
  {
  }
}

/** The two integrity checks of an RHCP frame: CRC-16/CCITT-FALSE and the one's-complement header checksum. */
module Crc16 {
  import opened Bytes
  import opened CrcBits

  // ---------------------------------------------------------------- CRC

  predicate Odd(n: nat) { n % 2 == 1 }
  function Half(n: nat): nat { n / 2 }
  function Halves(n: nat, k: nat): nat { if k == 0 then n else Half(Halves(n, k - 1)) }

  /** uint16(value): the byte as a bit vector, bit by bit. */
  function Bits(b: byte): bv8 {
    Pack(Odd(b), Odd(Halves(b, 1)), Odd(Halves(b, 2)), Odd(Halves(b, 3)),
         Odd(Halves(b, 4)), Odd(Halves(b, 5)), Odd(Halves(b, 6)), Odd(Halves(b, 7)))
  }

  lemma FromHalf(m: nat, n: nat)
    requires Half(m) == Half(n) && Odd(m) == Odd(n)
    ensures m == n
  {
  }

  lemma EightHalves(b: byte)
    ensures Halves(b, 8) == 0
  {
    assert Halves(b, 1) < 128;
    assert Halves(b, 2) < 64;
    assert Halves(b, 3) < 32;
    assert Halves(b, 4) < 16;
    assert Halves(b, 5) < 8;
    assert Halves(b, 6) < 4;
    assert Halves(b, 7) < 2;
  }

  lemma BitsInjective(a: byte, b: byte)
    requires Bits(a) == Bits(b)
    ensures a == b
  {
    hide Pack, Odd, Half;
    PackInjective(Odd(a), Odd(Halves(a, 1)), Odd(Halves(a, 2)), Odd(Halves(a, 3)),
                  Odd(Halves(a, 4)), Odd(Halves(a, 5)), Odd(Halves(a, 6)), Odd(Halves(a, 7)),
                  Odd(b), Odd(Halves(b, 1)), Odd(Halves(b, 2)), Odd(Halves(b, 3)),
                  Odd(Halves(b, 4)), Odd(Halves(b, 5)), Odd(Halves(b, 6)), Odd(Halves(b, 7)));
    EightHalves(a);
    EightHalves(b);
    FromHalf(Halves(a, 7), Halves(b, 7));
    FromHalf(Halves(a, 6), Halves(b, 6));
    FromHalf(Halves(a, 5), Halves(b, 5));
    FromHalf(Halves(a, 4), Halves(b, 4));
    FromHalf(Halves(a, 3), Halves(b, 3));
    FromHalf(Halves(a, 2), Halves(b, 2));
    FromHalf(Halves(a, 1), Halves(b, 1));
    assert Halves(a, 0) == a && Halves(b, 0) == b;
    assert Halves(a, 1) == Half(Halves(a, 0)) && Halves(b, 1) == Half(Halves(b, 0));
    FromHalf(a, b);
  }

  function CrcByte(c: bv16, b: byte): bv16 {
    Feed(c, Bits(b))
  }

  function CrcFrom(c: bv16, s: seq<byte>): bv16
    decreases |s|
  {
    if s == [] then c else CrcFrom(CrcByte(c, s[0]), s[1..])
  }

  function Crc(s: seq<byte>): (v: int)
    ensures 0 <= v < 0x1_0000
  {
    Number(CrcFrom(0xffff, s))
  }

  function LowHalf(c: bv16): bv8 { (c & 0xff) as bv8 }
  function HighHalf(c: bv16): bv8 { (c >> 8) as bv8 }

  function Value(x: bv8): (v: byte) { x as int }

  /** The register as a number: its little-endian bytes are its low and its high half. */
  function Number(c: bv16): (v: int)
    ensures 0 <= v < 0x1_0000
  {
    Value(LowHalf(c)) + 256 * Value(HighHalf(c))
  }

  lemma HalvesJoin(c: bv16)
    ensures c == Add(Upper(HighHalf(c)), Lower(LowHalf(c)))
  {
  }

  lemma JoinHalves(high: bv8, low: bv8)
    ensures LowHalf(Add(Upper(high), Lower(low))) == low && HighHalf(Add(Upper(high), Lower(low))) == high
  {
  }

  lemma ValueInjective(x: bv8, y: bv8)
    requires Value(x) == Value(y)
    ensures x == y
  {
  }

  lemma NumberInjective(c: bv16, d: bv16)
    requires Number(c) == Number(d)
    ensures c == d
  {
    hide Value, LowHalf, HighHalf, Upper, Lower, Add;
    ValueInjective(LowHalf(c), LowHalf(d));
    ValueInjective(HighHalf(c), HighHalf(d));
    HalvesJoin(c);
    HalvesJoin(d);
  }

  function Weigh(p: bool, weight: nat): nat { if p then weight else 0 }

  lemma PackValue(p0: bool, p1: bool, p2: bool, p3: bool, p4: bool, p5: bool, p6: bool, p7: bool)
    ensures Value(Pack(p0, p1, p2, p3, p4, p5, p6, p7)) ==
            Weigh(p0, 1) + Weigh(p1, 2) + Weigh(p2, 4) + Weigh(p3, 8) + Weigh(p4, 16) + Weigh(p5, 32) + Weigh(p6, 64) + Weigh(p7, 128)
  {
  }

  lemma HalfWeighs(n: nat)
    ensures n == Weigh(Odd(n), 1) + 2 * Half(n)
  {
  }

  lemma ValueBits(b: byte)
    ensures Value(Bits(b)) == b
  {
    hide Pack, Odd, Half, Value;
    PackValue(Odd(b), Odd(Halves(b, 1)), Odd(Halves(b, 2)), Odd(Halves(b, 3)),
              Odd(Halves(b, 4)), Odd(Halves(b, 5)), Odd(Halves(b, 6)), Odd(Halves(b, 7)));
    EightHalves(b);
    HalfWeighs(b);
    assert Halves(b, 0) == b;
    HalfWeighs(Halves(b, 1));
    HalfWeighs(Halves(b, 2));
    HalfWeighs(Halves(b, 3));
    HalfWeighs(Halves(b, 4));
    HalfWeighs(Halves(b, 5));
    HalfWeighs(Halves(b, 6));
    HalfWeighs(Halves(b, 7));
  }

  /** A two-byte little-endian field holds the register's number exactly when it holds the register's halves. */
  lemma FieldHoldsRegister(c: bv16, low: byte, high: byte)
    ensures Number(c) == low + 256 * high <==> c == Add(Upper(Bits(high)), Lower(Bits(low)))
  {
    hide Value, LowHalf, HighHalf, Upper, Lower, Add, Bits;
    ValueBits(low);
    ValueBits(high);
    HalvesJoin(c);
    JoinHalves(Bits(high), Bits(low));
    if Number(c) == low + 256 * high {
      ValueInjective(LowHalf(c), Bits(low));
      ValueInjective(HighHalf(c), Bits(high));
    }
  }

  /** The bits in which two bytes differ. */
  function Diff(a: byte, b: byte): bv8 { Xor(Bits(a), Bits(b)) }

  lemma NoDiff(a: byte, b: byte)
    ensures Diff(a, b) == 0 <==> a == b
  {
    hide Bits, Xor;
    NoXor(Bits(a));
    if Diff(a, b) == 0 {
      SameWhenNoDiff(Bits(a), Bits(b));
      BitsInjective(a, b);
    }
  }

  lemma NoXor(x: bv8)
    ensures Xor(x, x) == 0
  {
  }

  lemma SameWhenNoDiff(x: bv8, y: bv8)
    requires Xor(x, y) == 0
    ensures x == y
  {
  }

  /** Bit k of a byte, counting from the most significant one. */
  predicate BitAt(b: byte, k: nat)
    requires k < 8
  {
    Odd(Halves(b, 7 - k))
  }

  lemma BitsOf(b: byte)
    ensures Bits(b) == Pack(BitAt(b, 7), BitAt(b, 6), BitAt(b, 5), BitAt(b, 4), BitAt(b, 3), BitAt(b, 2), BitAt(b, 1), BitAt(b, 0))
  {
    hide Pack, Odd, Half;
    assert Halves(b, 0) == b;
  }

  lemma DiffOf(a: byte, b: byte)
    ensures Diff(a, b) ==
            Xor(Pack(BitAt(a, 7), BitAt(a, 6), BitAt(a, 5), BitAt(a, 4), BitAt(a, 3), BitAt(a, 2), BitAt(a, 1), BitAt(a, 0)),
                Pack(BitAt(b, 7), BitAt(b, 6), BitAt(b, 5), BitAt(b, 4), BitAt(b, 3), BitAt(b, 2), BitAt(b, 1), BitAt(b, 0)))
  {
    hide Pack, BitAt, Xor, Bits;
    BitsOf(a);
    BitsOf(b);
  }

  /** The clear bits of a difference are the bits on which the bytes agree. */
  lemma DiffBits(a: byte, b: byte)
    ensures var x := Diff(a, b);
            && (Clear(x, 0x80) <==> BitAt(a, 0) == BitAt(b, 0)) && (Clear(x, 0x40) <==> BitAt(a, 1) == BitAt(b, 1))
            && (Clear(x, 0x20) <==> BitAt(a, 2) == BitAt(b, 2)) && (Clear(x, 0x10) <==> BitAt(a, 3) == BitAt(b, 3))
            && (Clear(x, 0x08) <==> BitAt(a, 4) == BitAt(b, 4)) && (Clear(x, 0x04) <==> BitAt(a, 5) == BitAt(b, 5))
            && (Clear(x, 0x02) <==> BitAt(a, 6) == BitAt(b, 6)) && (Clear(x, 0x01) <==> BitAt(a, 7) == BitAt(b, 7))
  {
    hide BitAt, Bits, Diff;
    DiffOf(a, b);
  }

  lemma {:induction false} CrcInjective(c: bv16, d: bv16, s: seq<byte>)
    requires CrcFrom(c, s) == CrcFrom(d, s)
    ensures c == d
    decreases |s|
  {
    hide Feed, Bits;
    if s != [] {
      CrcInjective(CrcByte(c, s[0]), CrcByte(d, s[0]), s[1..]);
      FeedInjective(c, d, Bits(s[0]));
    }
  }

  lemma TwoBytes(c: bv16, a: byte, b: byte, a': byte, b': byte)
    requires CrcByte(CrcByte(c, a), b) == CrcByte(CrcByte(c, a'), b')
    ensures a == a' && b == b'
  {
    hide Feed, Bits;
    FeedTwoInjective(c, Bits(a), Bits(b), Bits(a'), Bits(b'));
    BitsInjective(a, a');
    BitsInjective(b, b');
  }

  /** Equal-length messages that differ only inside two adjacent bytes have different CRCs. */
  lemma {:induction false} CrcDetectsPair(c: bv16, s: seq<byte>, t: seq<byte>, i: nat)
    requires |s| == |t| && i + 2 <= |s|
    requires s[..i] == t[..i] && s[i + 2..] == t[i + 2..]
    requires CrcFrom(c, s) == CrcFrom(c, t)
    ensures s == t
    decreases |s|
  {
    hide CrcByte;
    if i == 0 {
      var rest := s[2..];
      assert s[1..][1..] == rest && t[1..][1..] == rest;
      assert CrcFrom(c, s) == CrcFrom(CrcByte(CrcByte(c, s[0]), s[1]), rest);
      assert CrcFrom(c, t) == CrcFrom(CrcByte(CrcByte(c, t[0]), t[1]), rest);
      CrcInjective(CrcByte(CrcByte(c, s[0]), s[1]), CrcByte(CrcByte(c, t[0]), t[1]), rest);
      TwoBytes(c, s[0], s[1], t[0], t[1]);
      assert s == [s[0], s[1]] + rest && t == [t[0], t[1]] + rest;
    } else {
      assert s[0] == s[..i][0] == t[..i][0] == t[0];
      assert s[1..][..i - 1] == s[..i][1..] && t[1..][..i - 1] == t[..i][1..];
      assert s[1..][i - 1 + 2..] == s[i + 2..] && t[1..][i - 1 + 2..] == t[i + 2..];
      CrcDetectsPair(CrcByte(c, s[0]), s[1..], t[1..], i - 1);
      assert s == [s[0]] + s[1..] && t == [t[0]] + t[1..];
    }
  }

  /** The same, as the code compares checksums. */
  lemma CrcPair(s: seq<byte>, t: seq<byte>, i: nat)
    requires |s| == |t| && i + 2 <= |s| && s[..i] == t[..i] && s[i + 2..] == t[i + 2..]
    ensures Crc(s) == Crc(t) ==> s == t
  {
    hide CrcFrom, Number;
    if Crc(s) == Crc(t) {
      NumberInjective(CrcFrom(0xffff, s), CrcFrom(0xffff, t));
      CrcDetectsPair(0xffff, s, t, i);
    }
  }

  /** rhcpCRC16CCITTFalse. */
  method ComputeCrc(data: seq<byte>) returns (v: int)
    ensures v == Crc(data)
  {
    hide Number, Shift8, Bits;
    var crc: bv16 := 0xffff;
    var i := 0;
    assert data[0..] == data;
    while i < |data|
      invariant 0 <= i <= |data|
      invariant CrcFrom(crc, data[i..]) == CrcFrom(0xffff, data)
    {
      assert data[i..][1..] == data[i + 1..] && data[i..][0] == data[i];
      crc := crc ^ Upper(Bits(data[i]));
      crc := EightShifts(crc);
      i := i + 1;
    }
    return Number(crc);
  }

  function Shifted(c: bv16, n: nat): bv16
    decreases n
  {
    if n == 0 then c else Shifted(Shift(c), n - 1)
  }

  method EightShifts(start: bv16) returns (crc: bv16)
    ensures crc == Shift8(start)
  {
    hide Shift8;
    crc := start;
    var n := 8;
    Unroll(start);
    while n > 0
      invariant 0 <= n <= 8 && Shifted(crc, n) == Shift8(start)
    {
      if crc & 0x8000 != 0 {
        crc := (crc << 1) ^ 0x1021;
      } else {
        crc := crc << 1;
      }
      n := n - 1;
    }
  }

  lemma Unroll(c: bv16)
    ensures Shifted(c, 8) == Shift8(c)
  {
    hide Shift;
    var c4 := Shift(Shift(Shift(Shift(c))));
    assert Shifted(c, 8) == Shifted(Shift(c), 7) == Shifted(Shift(Shift(c)), 6) == Shifted(Shift(Shift(Shift(c))), 5);
    assert Shifted(Shift(Shift(Shift(c))), 5) == Shifted(c4, 4);
    assert Shifted(c4, 4) == Shifted(Shift(c4), 3) == Shifted(Shift(Shift(c4)), 2) == Shifted(Shift(Shift(Shift(c4))), 1);
    assert Shifted(Shift(Shift(Shift(c4))), 1) == Shifted(Shift(Shift(Shift(Shift(c4)))), 0);
  }

  // ---------------------------------------------------------------- one's-complement header checksum

  /** The sum of the little-endian words; an odd last byte counts as a word of its own. */
  function WordSum(s: seq<byte>): nat {
    if s == [] then 0 else if |s| == 1 then s[0] else s[0] + 256 * s[1] + WordSum(s[2..])
  }

  /** End-around carry until the sum fits 16 bits. */
  function Fold(sum: nat): (r: nat)
    ensures r < 0x1_0000
    ensures r % 65535 == sum % 65535
    ensures r == 0 <==> sum == 0
    decreases sum
  {
    if sum < 0x1_0000 then sum
    else
      FoldStep(sum);
      Fold(sum % 0x1_0000 + sum / 0x1_0000)
  }

  lemma FoldStep(sum: nat)
    requires sum >= 0x1_0000
    ensures var r := sum % 0x1_0000 + sum / 0x1_0000; 0 < r < sum && r % 65535 == sum % 65535
  {
    var q := sum / 0x1_0000;
    assert sum == 0x1_0000 * q + sum % 0x1_0000;
    assert sum == 65535 * q + (sum % 0x1_0000 + q);
    ModShift(sum % 0x1_0000 + q, q);
  }

  lemma ModShift(r: nat, q: nat)
    ensures (65535 * q + r) % 65535 == r % 65535
  {
  }

  function Checksum(s: seq<byte>): (v: int)
    ensures 0 <= v < 0x1_0000
  {
    0xffff - Fold(WordSum(s))
  }

  /** Changing one byte moves the word sum by less than the modulus, and not by zero. */
  lemma {:induction false} OneByteMovesSum(s: seq<byte>, i: nat, b: byte)
    requires i < |s| && b != s[i]
    ensures 0 < WordSum(s) - WordSum(s[i := b]) < 65535 || 0 < WordSum(s[i := b]) - WordSum(s) < 65535
    decreases |s|
  {
    if i >= 2 {
      assert s[i := b][2..] == s[2..][i - 2 := b];
      OneByteMovesSum(s[2..], i - 2, b);
    } else if |s| >= 2 {
      assert s[i := b][2..] == s[2..];
    }
  }

  lemma DifferentResidue(a: nat, b: nat)
    requires a < b < a + 65535
    ensures a % 65535 != b % 65535
  {
    var qa, qb := a / 65535, b / 65535;
    assert a == 65535 * qa + a % 65535 && b == 65535 * qb + b % 65535;
    assert a % 65535 == b % 65535 ==> b - a == 65535 * (qb - qa);
  }

  /** The header checksum alone detects every change of a single header byte. */
  lemma ChecksumDetectsByte(s: seq<byte>, i: nat, b: byte)
    requires i < |s| && b != s[i]
    ensures Checksum(s[i := b]) != Checksum(s)
  {
    hide WordSum, Fold;
    OneByteMovesSum(s, i, b);
    var x, y := WordSum(s), WordSum(s[i := b]);
    if x < y {
      DifferentResidue(x, y);
    } else {
      DifferentResidue(y, x);
    }
  }

  /** rhcpHeaderChecksum. */
  method ComputeChecksum(data: seq<byte>) returns (v: int)
    ensures v == Checksum(data)
  {
    hide Fold;
    var sum: nat, rest := 0, data;
    while |rest| >= 2
      invariant sum + WordSum(rest) == WordSum(data)
      decreases |rest|
    {
      var low: int, high: int := rest[0], rest[1];
      sum := sum + low + 256 * high;
      rest := rest[2..];
    }
    if |rest| != 0 {
      var last: int := rest[0];
      sum := sum + last;
    }
    sum := FoldCarries(sum);
    return 0xffff - sum;
  }

  method FoldCarries(start: nat) returns (sum: nat)
    ensures sum == Fold(start)
  {
    sum := start;
    while sum / 0x1_0000 != 0
      invariant Fold(sum) == Fold(start)
      decreases sum
    {
      FoldStep(sum);
      sum := sum % 0x1_0000 + sum / 0x1_0000;
    }
  }
}
