/**
 The numeric decisions behind one table cell: the percentage shown next to a
 value, the colour class of a value, and the per-call average of the diff
 summary. Text formatting (thousands separators, the `%` sign, one decimal)
 is presentation and is not modelled; a percentage is the real fraction the
 formatter receives, or `None` for the "N/A" text.
 */
module Cells {
  import opened Php

  /** `print_td_pct`: "N/A%" on a zero denominator, otherwise `numer / abs(denom)`. */
  function PctCell(numer: int, denom: int): (r: Option<real>)
    ensures r.None? <==> denom == 0
    ensures r.Some? ==> r.value * (Abs(denom) as real) == numer as real
    ensures r.Some? ==> (r.value > 0.0 <==> numer > 0) && (r.value < 0.0 <==> numer < 0)
  {
    if denom == 0 then None
    else Some((numer as real) / (Abs(denom) as real))
  }

  /** A run that went from 100 to 60 shows a delta of -40%: the sign of the
      delta survives the division, as the colour convention needs. */
  lemma DiffPercentExample()
    ensures PctCell(60 - 100, 100) == Some(-0.4)
    ensures PctCell(100 - 60, -60) == Some(40.0 / 60.0)
  {
  }

  /** PHP's `round`: to the nearest integer, halves away from zero. */
  function Round(x: real): (n: int)
    ensures -0.5 <= (n as real) - x <= 0.5
    ensures x >= 0.0 ==> n >= 0
    ensures x <= 0.0 ==> n <= 0
  {
    if x >= 0.0 then (x + 0.5).Floor else -((-x + 0.5).Floor)
  }

  /** `pct`: a percentage rounded to one decimal, or "N/A" when the base is zero. */
  function Pct(a: int, b: int): (r: Option<real>)
    ensures r.None? <==> b == 0
    ensures r.Some? ==> -0.05 <= r.value - (a as real) * 100.0 / (b as real) <= 0.05
    ensures r.Some? && ((a >= 0 && b > 0) || (a <= 0 && b < 0)) ==> r.value >= 0.0
    ensures r.Some? && ((a <= 0 && b > 0) || (a >= 0 && b < 0)) ==> r.value <= 0.0
  {
    if b == 0 then None
    else
      var q := (a as real) * 1000.0 / (b as real);
      QuotientSign(a as real * 1000.0, b as real);
      assert q == 10.0 * ((a as real) * 100.0 / (b as real)) by {
        var y := b as real;
        assert q * y == (a as real) * 1000.0;
        assert ((a as real) * 100.0 / y) * y == (a as real) * 100.0;
      }
      Some((Round(q) as real) / 10.0)
  }

  lemma QuotientSign(x: real, y: real)
    requires y != 0.0
    ensures (x >= 0.0 && y > 0.0) || (x <= 0.0 && y < 0.0) ==> x / y >= 0.0
    ensures (x <= 0.0 && y > 0.0) || (x >= 0.0 && y < 0.0) ==> x / y <= 0.0
  {
  }

  datatype CellClass = Plain | Blue | Green | Red

  /** `get_print_class`: only highlighted cells are coloured; in diff mode a
      delta that is not positive is green, a positive one red. */
  function PrintClass(num: int, bold: bool, diffMode: bool): (c: CellClass)
    ensures c == Plain <==> !bold
    ensures c == Blue <==> bold && !diffMode
    ensures c == Green <==> bold && diffMode && num <= 0
    ensures c == Red <==> bold && diffMode && num > 0
  {
    if bold then
      if diffMode then
        if num <= 0 then Green else Red
      else Blue
    else Plain
  }

  /** The delta `run2 - run1` is green exactly when the second run is no more
      expensive, and inverting the diff turns a red delta green. */
  lemma DeltaColour(run1: int, run2: int)
    ensures PrintClass(run2 - run1, true, true) == Green <==> run2 <= run1
    ensures PrintClass(run2 - run1, true, true) == Red <==> run2 > run1
    ensures PrintClass(run2 - run1, true, true) == Red ==> PrintClass(run1 - run2, true, true) == Green
  {
  }

  /** The per-call average of the diff summary: only when the call count is positive. */
  function PerCall(value: int, ct: int): (avg: Option<real>)
    ensures avg.Some? <==> ct > 0
    ensures avg.Some? ==> avg.value * (ct as real) == value as real
  {
    if ct > 0 then Some((value as real) / (ct as real)) else None
  }
}
