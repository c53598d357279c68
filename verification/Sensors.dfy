/** Source limits, clocks and checked 64-bit arithmetic shared by the sensor formats (internal/multisensor). */
module Sensors {
  import opened Common

  const MAX_UINT64: int := 0xffff_ffff_ffff_ffff

  type u64 = x: int | 0 <= x < 0x1_0000_0000_0000_0000

  const MAXIMUM_INDEX_ITEMS: int := 0x100_0000
  const MAXIMUM_ITEM_BYTES: int := 0x4_0000_0000
  const MAXIMUM_PAYLOAD_BYTES: int := 0x4_0000_0000_0000

  datatype Limits = Limits(maxItems: u64, maxItemBytes: u64, maxPayloadBytes: u64)

  predicate ValidLimits(l: Limits) {
    && 0 < l.maxItems <= MAXIMUM_INDEX_ITEMS
    && 0 < l.maxItemBytes <= MAXIMUM_ITEM_BYTES
    && 0 < l.maxPayloadBytes <= MAXIMUM_PAYLOAD_BYTES
    && l.maxItemBytes <= l.maxPayloadBytes
  }

  datatype Semantics = HostMonotonic | FrameStart | ExposureMidpoint | DeliveryObserved | OtherSemantics(text: string)

  datatype Clock = Clock(clockId: string, tickHz: u64, wrapTicks: u64, semantics: Semantics)

  function CheckedAdd(a: u64, b: u64): Option<u64> {
    if a + b <= MAX_UINT64 then Some(a + b) else None
  }

  function CheckedMul(a: u64, b: u64): Option<u64> {
    var product := a * b;
    if 0 <= product <= MAX_UINT64 then Some(product) else None
  }

  /** The tick count since the clock's origin, unless it leaves the 64-bit range or the pair is not canonical. */
  function UnwrapTicks(clock: Clock, tick: u64, wrapCount: u64): Option<u64> {
    if clock.wrapTicks == 0 then
      if wrapCount != 0 then None else Some(tick)
    else if tick >= clock.wrapTicks then None
    else
      match CheckedMul(wrapCount, clock.wrapTicks)
      case None => None
      case Some(wrapped) => CheckedAdd(wrapped, tick)
  }

  lemma NoSmallMultiple(d: int, w: int)
    requires w > 0 && -w < d * w < w
    ensures d == 0
  {
    assert d >= 1 ==> d * w >= w;
    assert d <= -1 ==> d * w <= -w;
  }

  /** Unwrapping is exact and loses nothing: the value determines the wrap count and the tick. */
  lemma UnwrapInjective(clock: Clock, t1: u64, w1: u64, t2: u64, w2: u64)
    requires UnwrapTicks(clock, t1, w1).Some? && UnwrapTicks(clock, t1, w1) == UnwrapTicks(clock, t2, w2)
    ensures t1 == t2 && w1 == w2
  {
    var w := clock.wrapTicks;
    if w != 0 {
      assert w1 * w + t1 == w2 * w + t2;
      Distribute(w1, w2, w);
      NoSmallMultiple(w1 - w2, w);
    }
  }

  /** A pair unwraps exactly if it is canonical and its value fits 64 bits, and to that value. */
  lemma UnwrapExact(clock: Clock, tick: u64, wrapCount: u64, value: u64)
    ensures UnwrapTicks(clock, tick, wrapCount) == Some(value) <==>
            && value == wrapCount * clock.wrapTicks + tick
            && if clock.wrapTicks == 0 then wrapCount == 0 else tick < clock.wrapTicks
  {
    assert wrapCount * clock.wrapTicks >= 0;
  }

  lemma Distribute(a: int, b: int, w: int)
    ensures (a - b) * w == a * w - b * w
  {
  }
}
