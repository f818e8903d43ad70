/**
 * Unit selection in `format_size`: the size is divided by 1024 until it is
 * below 1024 or the units B..TB are used up, and PB is used after that.
 * Rendering the scaled value with one decimal is not modelled; the scaled
 * value is kept exactly, as a real.
 */
module SizeFormat {

  const UNITS: seq<string> := ["B", "KB", "MB", "GB", "TB", "PB"]

  function Pow1024(k: nat): (p: nat)
    ensures p >= 1
  {
    if k == 0 then 1 else 1024 * Pow1024(k - 1)
  }

  /** The size from which the unit after unit `k` is used: 1024^(k+1). */
  function Threshold(k: nat): nat
  {
    Pow1024(k + 1)
  }

  /** The first unit index from `k` on whose next threshold exceeds `size`, or 5 (PB). */
  function UnitFrom(size: int, k: nat): (u: nat)
    requires k <= 5
    ensures k <= u <= 5
    decreases 5 - k
  {
    if k == 5 || size < Threshold(k) then k else UnitFrom(size, k + 1)
  }

  function Unit(size: int): nat
  {
    UnitFrom(size, 0)
  }

  /**
   * The chosen unit is the least k <= 4 with size < 1024^(k+1), and PB (5)
   * when there is none.
   */
  lemma {:induction false} UnitIsLeast(size: int, k: nat)
    requires k <= 5
    ensures var u := UnitFrom(size, k);
      && (u < 5 ==> size < Threshold(u))
      && (forall j :: k <= j < u ==> size >= Threshold(j))
    decreases 5 - k
  {
    if k < 5 && size >= Threshold(k) {
      UnitIsLeast(size, k + 1);
    }
  }

  lemma BelowThreshold(x: real, p: real)
    requires p > 0.0
    ensures x / p < 1024.0 <==> x < 1024.0 * p
  {
    assert x == (x / p) * p;
  }

  lemma DivideAgain(x: real, p: real)
    requires p > 0.0
    ensures x / p / 1024.0 == x / (1024.0 * p)
  {
  }

  /**
   * `format_size` without the rendering: the unit index it picks and the
   * value it would print with that unit.
   */
  method FormatSize(size: int) returns (unit: nat, scaled: real)
    ensures unit == Unit(size) && unit < |UNITS|
    ensures scaled == size as real / Pow1024(unit) as real
  {
    scaled := size as real;
    unit := 0;
    while unit < 5
      invariant unit <= 5
      invariant Unit(size) == UnitFrom(size, unit)
      invariant scaled == size as real / Pow1024(unit) as real
    {
      BelowThreshold(size as real, Pow1024(unit) as real);
      if scaled < 1024.0 {
        return;
      }
      DivideAgain(size as real, Pow1024(unit) as real);
      scaled := scaled / 1024.0;
      unit := unit + 1;
    }
  }

  /** Outside PB the printed value is below 1024, and from KB on it is at least 1. */
  lemma ScaledInRange(size: int)
    ensures var u := Unit(size); var scaled := size as real / Pow1024(u) as real;
      && (u < 5 ==> scaled < 1024.0)
      && (u > 0 ==> scaled >= 1.0)
  {
    var u := Unit(size);
    UnitIsLeast(size, 0);
    var p := Pow1024(u) as real;
    BelowThreshold(size as real, p);
    if u > 0 {
      assert size >= Threshold(u - 1);
      assert (size as real / p) * p == size as real;
    }
  }

  /** 734003200 bytes is shown in MB, as 700 of them. */
  lemma FormatSizeExample()
    ensures Unit(734003200) == 2
    ensures 734003200 as real / Pow1024(2) as real == 700.0
  {
  }
}
