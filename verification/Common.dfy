/** Small things every component uses. */
module Common {

  datatype Option<+T> = None | Some(value: T)

  const MAX_INT64: int := 0x7fff_ffff_ffff_ffff

  function Min(a: int, b: int): int {
    if a < b then a else b
  }

  function Max(a: int, b: int): int {
    if a < b then b else a
  }

  lemma ProductStep(a: int, f: int)
    requires f > 0
    ensures a >= 1 ==> a * f >= f
    ensures a <= -1 ==> a * f <= -f
  {
  }

  lemma DivMonotone(a: int, b: int, f: int)
    requires f > 0 && a <= b
    ensures a / f <= b / f
  {
    ProductStep(a / f - b / f, f);
    assert (a / f - b / f) * f == (a - a % f) - (b - b % f);
  }
}
