/**
  The scalar geometry of the side menu of the root screen: the menu's width,
  the half-way threshold, the display fraction derived from the horizontal
  scroll offset, and the quantities the menu pane's look is computed from
  (opacity, rotation angle, horizontal translation).

  `CGFloat` is modelled by `real`, so there is no rounding. The constant pi
  is passed in as a parameter and only assumed positive where a bound needs it.
 */
module MenuGeometry {

  /** Width of the menu pane, in points. */
  const MenuWidth: real := 80.0

  /** Half the menu width: the offset that separates "menu hidden" from "menu shown". */
  const Threshold: real := MenuWidth / 2.0

  /** The two offsets the menu comes to rest at: 0 (menu shown) and MenuWidth (menu hidden). */
  predicate AtRest(x: real) {
    x == 0.0 || x == MenuWidth
  }

  /** Swift.max on two reals. */
  function Max(a: real, b: real): (m: real)
    ensures m >= a && m >= b
    ensures m == a || m == b
  {
    if a < b then b else a
  }

  /** Swift.min on two reals. */
  function Min(a: real, b: real): (m: real)
    ensures m <= a && m <= b
    ensures m == a || m == b
  {
    if b < a then b else a
  }

  /**
    How far the menu has been scrolled out of view: 0 when it is fully shown,
    1 when it is fully hidden. The offset divided by the menu width, clamped
    to the unit interval.
   */
  function DisplayFraction(x: real): (f: real)
    ensures 0.0 <= f <= 1.0
    ensures x <= 0.0 ==> f == 0.0
    ensures x >= MenuWidth ==> f == 1.0
    ensures 0.0 <= x <= MenuWidth ==> f == x / MenuWidth
  {
    Min(Max(0.0, x / MenuWidth), 1.0)
  }

  /** A larger offset never shows more of the menu. */
  lemma DisplayFractionMonotone(x: real, y: real)
    requires x <= y
    ensures DisplayFraction(x) <= DisplayFraction(y)
  {
  }

  /**
    Opacity of the menu pane (and the hamburger icon's open amount) for a
    display fraction: fully opaque when the menu is shown, transparent when
    it is hidden.
   */
  function MenuAlpha(f: real): (a: real)
    ensures 0.0 <= f <= 1.0 ==> 0.0 <= a <= 1.0
    ensures a + f == 1.0
  {
    1.0 - f
  }

  /**
    Rotation of the menu pane about the vertical axis: none when shown, a
    quarter turn away from the viewer (edge-on) when hidden.
   */
  function RotationAngle(f: real, pi: real): (angle: real)
    ensures pi > 0.0 && 0.0 <= f <= 1.0 ==> -pi / 2.0 <= angle <= 0.0
    ensures f == 0.0 ==> angle == 0.0
    ensures f == 1.0 ==> angle == -pi / 2.0
  {
    -f * pi / 2.0
  }

  /** Horizontal translation of the menu pane of the given width for a display fraction. */
  function ShiftX(f: real, width: real): (dx: real)
    ensures width >= 0.0 && 0.0 <= f <= 1.0 ==> width / 2.0 <= dx <= 3.0 * width / 4.0
    ensures f == 0.0 ==> dx == width / 2.0
    ensures f == 1.0 ==> dx == 3.0 * width / 4.0
  {
    width / 2.0 + width * f / 4.0
  }

  /** The more the menu is hidden, the further it is turned away. */
  lemma RotationAngleMonotone(f: real, g: real, pi: real)
    requires pi > 0.0
    requires f <= g
    ensures RotationAngle(g, pi) <= RotationAngle(f, pi)
  {
    ScaleMonotone(f, g, pi);
    NegatedHalfAntitone(f * pi, g * pi);
    assert RotationAngle(f, pi) == -(f * pi) / 2.0;
    assert RotationAngle(g, pi) == -(g * pi) / 2.0;
  }

  /** The more the menu is hidden, the further right it is pushed. */
  lemma ShiftXMonotone(f: real, g: real, width: real)
    requires width >= 0.0
    requires f <= g
    ensures ShiftX(f, width) <= ShiftX(g, width)
  {
  }

  /** Negating and halving reverses the order of two reals. */
  lemma NegatedHalfAntitone(a: real, b: real)
    requires a <= b
    ensures -b / 2.0 <= -a / 2.0
  {
  }

  /** Scaling a non-negative quantity by a larger factor gives a larger result. */
  lemma ScaleMonotone(f: real, g: real, q: real)
    requires f <= g
    requires q >= 0.0
    ensures f * q <= g * q
  {
  }
}
