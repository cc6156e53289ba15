/** The welcome section's response to scrolling: a shrink progress in [0, 1]
    derived from the scroll value and the HIDE_WELCOME threshold, the scale,
    opacity and centring offsets derived from it, and the hard cut-off after
    which the section renders nothing. Values are exact reals. */
module WelcomeScroll {

  /** Shrinking starts at this fraction of the HIDE_WELCOME threshold. */
  const ShrinkStartFraction: real := 0.3
  /** At full progress the section is scaled down by this much (to 20%). */
  const ScaleDrop: real := 0.8
  /** At full progress the section's opacity drops by this much (to 30%). */
  const OpacityDrop: real := 0.7
  /** Horizontal and vertical offsets toward the centre at full progress. */
  const CenterXSpan: real := 50.0
  const CenterYSpan: real := 30.0

  function Min(a: real, b: real): (m: real) { if a <= b then a else b }
  function Max(a: real, b: real): (m: real) { if a >= b then a else b }

  /** The scroll value at which the section starts to shrink. */
  function ShrinkStart(threshold: real): (start: real)
    requires threshold > 0.0
    ensures 0.0 < start < threshold
  {
    threshold * ShrinkStartFraction
  }

  /** `Math.max(0, Math.min(1, (scroll - shrinkStart) / (threshold - shrinkStart)))`. */
  function ShrinkProgress(scroll: real, threshold: real): (p: real)
    requires threshold > 0.0
    ensures 0.0 <= p <= 1.0
    ensures scroll <= ShrinkStart(threshold) ==> p == 0.0
    ensures scroll >= threshold ==> p == 1.0
    ensures 0.0 < p < 1.0 <==> ShrinkStart(threshold) < scroll < threshold
    ensures ShrinkStart(threshold) <= scroll <= threshold ==>
              p * (threshold - ShrinkStart(threshold)) == scroll - ShrinkStart(threshold)
  {
    var start := ShrinkStart(threshold);
    var ratio := (scroll - start) / (threshold - start);
    RatioBelowOne(scroll, start, threshold);
    Max(0.0, Min(1.0, ratio))
  }

  /** Multiplying by a positive factor keeps the order of two reals. */
  lemma ScaledOrder(q: real, c: real, d: real)
    requires d > 0.0
    ensures q <= c <==> q * d <= c * d
  {
    assert (c - q) * d == c * d - q * d;
    if q <= c {
      assert (c - q) * d >= 0.0;
    } else {
      assert (q - c) * d > 0.0;
    }
  }

  /** The ratio `(x - a) / (b - a)` is at most 0 exactly when `x <= a`, at
      least 1 exactly when `x >= b`, and scales back to `x - a`. */
  lemma RatioBelowOne(x: real, a: real, b: real)
    requires a < b
    ensures var q := (x - a) / (b - a);
      && (q <= 0.0 <==> x <= a)
      && (q >= 1.0 <==> x >= b)
      && q * (b - a) == x - a
  {
    var d := b - a;
    var q := (x - a) / d;
    assert q * d == x - a;
    ScaledOrder(q, 0.0, d);
    ScaledOrder(1.0, q, d);
  }

  /** `(x - a) / (b - a)` is non-decreasing in `x`. */
  lemma RatioMonotone(x: real, y: real, a: real, b: real)
    requires a < b && x <= y
    ensures (x - a) / (b - a) <= (y - a) / (b - a)
  {
    var d := b - a;
    var qx := (x - a) / d;
    var qy := (y - a) / d;
    assert qx * d == x - a;
    assert qy * d == y - a;
    ScaledOrder(qx, qy, d);
  }

  /** Two reals that a positive factor scales to strictly ordered values are
      strictly ordered themselves. */
  lemma StrictlyOrderedRatios(q1: real, q2: real, d: real, e1: real, e2: real)
    requires d > 0.0 && q1 * d == e1 && q2 * d == e2 && e1 < e2
    ensures q1 < q2
  {
    ScaledOrder(q2, q1, d);
  }

  /** More scrolling never undoes shrinking. */
  lemma ShrinkMonotone(scroll1: real, scroll2: real, threshold: real)
    requires threshold > 0.0 && scroll1 <= scroll2
    ensures ShrinkProgress(scroll1, threshold) <= ShrinkProgress(scroll2, threshold)
  {
    RatioMonotone(scroll1, scroll2, ShrinkStart(threshold), threshold);
  }

  /** `1 - shrinkProgress * 0.8`. */
  function Scale(p: real): (s: real)
    requires 0.0 <= p <= 1.0
    ensures 0.2 <= s <= 1.0
    ensures s == 1.0 <==> p == 0.0
    ensures s == 0.2 <==> p == 1.0
  {
    1.0 - p * ScaleDrop
  }

  /** `1 - shrinkProgress * 0.7`. */
  function Opacity(p: real): (o: real)
    requires 0.0 <= p <= 1.0
    ensures 0.3 <= o <= 1.0
    ensures o == 1.0 <==> p == 0.0
    ensures o == 0.3 <==> p == 1.0
  {
    1.0 - p * OpacityDrop
  }

  /** What the section renders for one scroll value. */
  datatype View =
    | Hidden
    | Shown(scale: real, opacity: real, centerX: real, centerY: real)

  /** The whole section: nothing once the scroll value exceeds HIDE_WELCOME,
      otherwise the shrunk, faded and centred layout. */
  function Render(scroll: real, threshold: real): (v: View)
    requires threshold > 0.0
    ensures v.Hidden? <==> scroll > threshold
    ensures v.Shown? ==>
              && 0.2 <= v.scale <= 1.0
              && 0.3 <= v.opacity <= 1.0
              && 0.0 <= v.centerX <= CenterXSpan
              && 0.0 <= v.centerY <= CenterYSpan
    ensures scroll <= ShrinkStart(threshold) ==> v == Shown(1.0, 1.0, 0.0, 0.0)
    ensures scroll == threshold ==> v == Shown(0.2, 0.3, CenterXSpan, CenterYSpan)
    ensures v.Shown? ==> var p := ShrinkProgress(scroll, threshold);
              && 1.0 - v.scale == ScaleDrop * p
              && 1.0 - v.opacity == OpacityDrop * p
              && v.centerX == CenterXSpan * p
              && v.centerY == CenterYSpan * p
  {
    var p := ShrinkProgress(scroll, threshold);
    if !(scroll <= threshold) then Hidden
    else Shown(Scale(p), Opacity(p), p * CenterXSpan, p * CenterYSpan)
  }

  /** While the section is visible, scrolling further never grows it, never
      makes it more opaque and never moves it back from the centre. */
  lemma RenderMonotone(scroll1: real, scroll2: real, threshold: real)
    requires threshold > 0.0 && scroll1 <= scroll2 <= threshold
    ensures Render(scroll1, threshold).Shown? && Render(scroll2, threshold).Shown?
    ensures Render(scroll2, threshold).scale <= Render(scroll1, threshold).scale
    ensures Render(scroll2, threshold).opacity <= Render(scroll1, threshold).opacity
    ensures Render(scroll1, threshold).centerX <= Render(scroll2, threshold).centerX
    ensures Render(scroll1, threshold).centerY <= Render(scroll2, threshold).centerY
  {
    ShrinkMonotone(scroll1, scroll2, threshold);
  }

  /** Between the shrink start and the threshold, every further bit of
      scrolling strictly shrinks, fades and centres the section. */
  lemma RenderStrictlyShrinks(scroll1: real, scroll2: real, threshold: real)
    requires threshold > 0.0 && ShrinkStart(threshold) < scroll1 < scroll2 <= threshold
    ensures Render(scroll1, threshold).Shown? && Render(scroll2, threshold).Shown?
    ensures ShrinkProgress(scroll1, threshold) < ShrinkProgress(scroll2, threshold)
    ensures Render(scroll2, threshold).scale < Render(scroll1, threshold).scale
    ensures Render(scroll2, threshold).opacity < Render(scroll1, threshold).opacity
    ensures Render(scroll1, threshold).centerX < Render(scroll2, threshold).centerX
    ensures Render(scroll1, threshold).centerY < Render(scroll2, threshold).centerY
  {
    var start := ShrinkStart(threshold);
    StrictlyOrderedRatios(ShrinkProgress(scroll1, threshold), ShrinkProgress(scroll2, threshold),
                          threshold - start, scroll1 - start, scroll2 - start);
  }

  /** The cut-off is abrupt: just at the threshold the section is still drawn
      at its smallest, and any scroll value beyond it draws nothing at all. */
  lemma CutOffIsAbrupt(threshold: real, beyond: real)
    requires threshold > 0.0 && beyond > threshold
    ensures Render(threshold, threshold).Shown? && Render(threshold, threshold).opacity == 0.3
    ensures Render(beyond, threshold) == Hidden
    ensures ShrinkProgress(beyond, threshold) == 1.0
  {
  }
}
