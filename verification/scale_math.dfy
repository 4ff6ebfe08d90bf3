/**
 * The pure scale-splitting helpers of CircleRectScreenView.kt: `Int.inverse`,
 * `Float.maxScale` and `Float.divideScale`. A `Float` is modelled as an exact
 * `real`; `divideScale(i, n)` carves the progress range [0, 1] into `n` equal
 * slots and rescales slot `i` back onto [0, 1].
 */
module ScaleMath {

  /** The value `x` clamped into the closed unit interval. */
  function Clamp01(x: real): (r: real)
    ensures 0.0 <= r <= 1.0
    ensures 0.0 <= x <= 1.0 ==> r == x
    ensures x < 0.0 ==> r == 0.0
    ensures x > 1.0 ==> r == 1.0
  {
    if x < 0.0 then 0.0 else if x > 1.0 then 1.0 else x
  }

  /** `n.inverse()`: the reciprocal of a non-zero count. */
  function Inverse(n: int): (r: real)
    requires n != 0
    ensures r * (n as real) == 1.0
    ensures n > 0 ==> r > 0.0
    ensures n < 0 ==> r < 0.0
  {
    1.0 / (n as real)
  }

  /** `s.maxScale(i, n)`: how far `s` has moved past the start `i / n` of slot `i`, never negative. */
  function MaxScale(s: real, i: int, n: int): (r: real)
    requires n != 0
    ensures r >= 0.0
    ensures r >= s - (i as real) * Inverse(n)
    ensures r == 0.0 || r == s - (i as real) * Inverse(n)
  {
    var d := s - (i as real) * Inverse(n);
    if 0.0 >= d then 0.0 else d
  }

  /** `s.divideScale(i, n)`: the progress of slot `i` of `n`, rescaled onto the whole unit range. */
  function DivideScale(s: real, i: int, n: int): (r: real)
    requires n != 0
    ensures n > 0 ==> 0.0 <= r <= 1.0
    ensures n < 0 ==> r == 1.0
  {
    var m := MaxScale(s, i, n);
    var inv := Inverse(n);
    var lower := if inv <= m then inv else m;
    if n > 0 then
      ScaleLe(0.0, lower, n as real);
      ScaleLe(lower, inv, n as real);
      lower * (n as real)
    else
      lower * (n as real)
  }

  /** The smaller of `inv` and the non-negative part of `d`, scaled by `nr`, with `inv * nr == 1`, is `d * nr` clamped. */
  lemma ClampScaled(d: real, inv: real, nr: real)
    requires nr > 0.0 && inv * nr == 1.0
    ensures var m := if 0.0 >= d then 0.0 else d;
            (if inv <= m then inv else m) * nr == Clamp01(d * nr)
  {
    if d <= 0.0 {
      ScaleLe(d, 0.0, nr);
    } else if inv <= d {
      ScaleLe(inv, d, nr);
    } else {
      ScaleLt(d, inv, nr);
      ScaleLt(0.0, d, nr);
    }
  }

  /** Scaling the offset `s - i / n` by `n` gives `n * s - i`. */
  lemma ScaledOffset(s: real, i: int, n: int)
    requires n != 0
    ensures (s - (i as real) * Inverse(n)) * (n as real) == s * (n as real) - (i as real)
  {
    Cancel(s, i as real, Inverse(n), n as real);
  }

  /** The algebra behind `ScaledOffset`, with the reciprocal kept abstract. */
  lemma Cancel(s: real, a: real, inv: real, nr: real)
    requires inv * nr == 1.0
    ensures (s - a * inv) * nr == s * nr - a
  {
    calc {
      (s - a * inv) * nr;
      s * nr - (a * inv) * nr;
      s * nr - a * (inv * nr);
      s * nr - a;
    }
  }

  /** Multiplying both sides by a positive factor keeps a non-strict order. */
  lemma ScaleLe(x: real, y: real, c: real)
    requires c > 0.0 && x <= y
    ensures x * c <= y * c
  {
    assert (y - x) * c >= 0.0;
  }

  /** Multiplying both sides by a positive factor keeps a strict order. */
  lemma ScaleLt(x: real, y: real, c: real)
    requires c > 0.0 && x < y
    ensures x * c < y * c
  {
    assert (y - x) * c > 0.0;
  }

  /** Clamping `s * nr - a` is monotone in `s` for a positive factor `nr`. */
  lemma ClampScaledMonotone(s1: real, s2: real, a: real, nr: real)
    requires nr > 0.0 && s1 <= s2
    ensures Clamp01(s1 * nr - a) <= Clamp01(s2 * nr - a)
  {
    ScaleLe(s1, s2, nr);
    var x1 := s1 * nr - a;
    var x2 := s2 * nr - a;
    assert x1 <= x2;
    if x1 < 0.0 {
      assert Clamp01(x1) == 0.0;
    } else if x2 > 1.0 {
      assert Clamp01(x2) == 1.0;
    } else {
      assert Clamp01(x1) == x1 && Clamp01(x2) == x2;
    }
  }

  /** Before its slot starts (`n * s <= i`), a slot's own progress is zero, and only then. */
  lemma MaxScaleZeroBeforeSlot(s: real, i: int, n: int)
    requires n > 0
    ensures MaxScale(s, i, n) == 0.0 <==> s * (n as real) <= i as real
  {
    var nr := n as real;
    var d := s - (i as real) * Inverse(n);
    ScaledOffset(s, i, n);
    if d <= 0.0 {
      ScaleLe(d, 0.0, nr);
    } else {
      ScaleLt(0.0, d, nr);
    }
  }

  /**
   * For a positive slot count, `divideScale` is the clamp of `n * s - i` into [0, 1]:
   * zero before slot `i`, rising linearly across it, one after it.
   */
  lemma DivideScaleIsClamp(s: real, i: int, n: int)
    requires n > 0
    ensures DivideScale(s, i, n) == Clamp01(s * (n as real) - (i as real))
  {
    var d := s - (i as real) * Inverse(n);
    ScaledOffset(s, i, n);
    ClampScaled(d, Inverse(n), n as real);
  }

  /** `divideScale` never decreases as the overall progress `s` grows. */
  lemma DivideScaleMonotone(s1: real, s2: real, i: int, n: int)
    requires n != 0
    requires s1 <= s2
    ensures DivideScale(s1, i, n) <= DivideScale(s2, i, n)
  {
    if n > 0 {
      DivideScaleIsClamp(s1, i, n);
      DivideScaleIsClamp(s2, i, n);
      ClampScaledMonotone(s1, s2, i as real, n as real);
    }
  }
}
