/**
 The letterbox map from a touch in the view to a desktop pixel, over exact reals: the desktop is
 scaled to the largest size that fits and centred; touches on the bars map to nothing.
 */
module DesktopMapping {
  import opened Wrappers

  datatype Point = Point(x: int, y: int)

  datatype Screen = Screen(viewWidth: int, viewHeight: int, desktopWidth: int, desktopHeight: int)

  predicate Positive(s: Screen) {
    s.viewWidth > 0 && s.viewHeight > 0 && s.desktopWidth > 0 && s.desktopHeight > 0
  }

  function Scale(s: Screen): (r: real)
    requires Positive(s)
  {
    var a, b := s.viewWidth as real / s.desktopWidth as real, s.viewHeight as real / s.desktopHeight as real;
    if a < b then a else b
  }

  function ContentWidth(s: Screen): real
    requires Positive(s)
  {
    s.desktopWidth as real * Scale(s)
  }

  function ContentHeight(s: Screen): real
    requires Positive(s)
  {
    s.desktopHeight as real * Scale(s)
  }

  function OffsetX(s: Screen): real
    requires Positive(s)
  {
    (s.viewWidth as real - ContentWidth(s)) / 2.0
  }

  function OffsetY(s: Screen): real
    requires Positive(s)
  {
    (s.viewHeight as real - ContentHeight(s)) / 2.0
  }

  predicate InContent(s: Screen, x: real, y: real)
    requires Positive(s)
  {
    && OffsetX(s) <= x < OffsetX(s) + ContentWidth(s)
    && OffsetY(s) <= y < OffsetY(s) + ContentHeight(s)
  }

  function Clamp(n: int, lo: int, hi: int): int {
    if n < lo then lo else if n > hi then hi else n
  }

  /** The pixel index along one axis before it is clamped. */
  function Cell(x: real, offset: real, scale: real): int
    requires scale > 0.0
  {
    ((x - offset) / scale).Floor
  }

  lemma ScalePositive(s: Screen)
    requires Positive(s)
    ensures Scale(s) > 0.0
  {
    QuotientPositive(s.viewWidth as real, s.desktopWidth as real);
    QuotientPositive(s.viewHeight as real, s.desktopHeight as real);
  }

  lemma QuotientPositive(a: real, b: real)
    requires a > 0.0 && b > 0.0
    ensures a / b > 0.0
  {
  }

  function Map(s: Screen, x: real, y: real): Option<Point> {
    if !Positive(s) then None
    else
      ScalePositive(s);
      if !InContent(s, x, y) then None
      else Some(Point(Clamp(Cell(x, OffsetX(s), Scale(s)), 0, s.desktopWidth - 1),
                      Clamp(Cell(y, OffsetY(s), Scale(s)), 0, s.desktopHeight - 1)))
  }

  // ---------------------------------------------------------------- one axis

  lemma CellAtLeast(x: real, offset: real, scale: real, k: int)
    requires scale > 0.0
    ensures k <= Cell(x, offset, scale) <==> offset + k as real * scale <= x
  {
    var q := (x - offset) / scale;
    assert k <= q.Floor <==> k as real <= q;
    TimesQuotient(x - offset, scale, k as real);
  }

  /** Cell `k` holds exactly the points from its left edge up to the next cell's. */
  lemma CellIff(x: real, offset: real, scale: real, k: int)
    requires scale > 0.0
    ensures Cell(x, offset, scale) == k <==> InCell(x, offset, scale, k)
  {
    CellAtLeast(x, offset, scale, k);
    CellAtLeast(x, offset, scale, k + 1);
  }

  /** The part of one axis that pixel `k` takes. */
  predicate InCell(x: real, offset: real, scale: real, k: int) {
    offset + k as real * scale <= x < offset + (k + 1) as real * scale
  }

  lemma Scaled(a: real, b: real, scale: real)
    requires scale > 0.0
    ensures a <= b <==> a * scale <= b * scale
  {
    if a < b {
      assert (b - a) * scale > 0.0;
    } else if b < a {
      assert (a - b) * scale > 0.0;
    }
  }

  lemma TimesQuotient(a: real, b: real, m: real)
    requires b > 0.0
    ensures m <= a / b <==> m * b <= a
    ensures m == a / b <==> m * b == a
  {
    var q := a / b;
    assert q * b == a;
    Scaled(m, q, b);
    Scaled(q, m, b);
  }

  /** A point inside `n` cells lies in one of them, so clamping changes nothing. */
  lemma CellInRange(x: real, offset: real, scale: real, n: int)
    requires scale > 0.0 && n > 0 && offset <= x < offset + n as real * scale
    ensures 0 <= Cell(x, offset, scale) < n
  {
    var k := Cell(x, offset, scale);
    CellIff(x, offset, scale, k);
    Scaled((k + 1) as real, 0.0, scale);
    Scaled(n as real, k as real, scale);
  }

  /** The clamped index of `x` along an axis of `n` pixels is `k`, and `x` is on the content. */
  predicate AxisMapsTo(x: real, offset: real, scale: real, n: int, k: int)
    requires scale > 0.0
  {
    offset <= x < offset + n as real * scale && Clamp(Cell(x, offset, scale), 0, n - 1) == k
  }

  lemma CellOnAxis(x: real, offset: real, scale: real, n: int, k: int)
    requires scale > 0.0 && 0 <= k < n && InCell(x, offset, scale, k)
    ensures offset <= x < offset + n as real * scale
  {
    Scaled(0.0, k as real, scale);
    Scaled((k + 1) as real, n as real, scale);
  }

  lemma MapsToCell(x: real, offset: real, scale: real, n: int, k: int)
    requires scale > 0.0 && n > 0 && AxisMapsTo(x, offset, scale, n, k)
    ensures 0 <= k < n && InCell(x, offset, scale, k)
  {
    CellInRange(x, offset, scale, n);
    CellIff(x, offset, scale, k);
  }

  lemma CellMapsTo(x: real, offset: real, scale: real, n: int, k: int)
    requires scale > 0.0 && 0 <= k < n && InCell(x, offset, scale, k)
    ensures AxisMapsTo(x, offset, scale, n, k)
  {
    CellOnAxis(x, offset, scale, n, k);
    CellIff(x, offset, scale, k);
  }

  lemma AxisIff(x: real, offset: real, scale: real, n: int, k: int)
    requires scale > 0.0 && n > 0
    ensures AxisMapsTo(x, offset, scale, n, k) <==> 0 <= k < n && InCell(x, offset, scale, k)
  {
    if AxisMapsTo(x, offset, scale, n, k) {
      MapsToCell(x, offset, scale, n, k);
    } else if 0 <= k < n && InCell(x, offset, scale, k) {
      CellMapsTo(x, offset, scale, n, k);
    }
  }

  // ---------------------------------------------------------------- the map

  /** The clamp never changes a coordinate. */
  lemma ClampIsIdle(s: Screen, x: real, y: real)
    requires Positive(s) && InContent(s, x, y)
    ensures Scale(s) > 0.0
    ensures 0 <= Cell(x, OffsetX(s), Scale(s)) < s.desktopWidth && 0 <= Cell(y, OffsetY(s), Scale(s)) < s.desktopHeight
    ensures Map(s, x, y) == Some(Point(Cell(x, OffsetX(s), Scale(s)), Cell(y, OffsetY(s), Scale(s))))
  {
    ScalePositive(s);
    CellInRange(x, OffsetX(s), Scale(s), s.desktopWidth);
    CellInRange(y, OffsetY(s), Scale(s), s.desktopHeight);
  }

  /** The square that desktop pixel `p` takes in the view. */
  predicate InSquare(s: Screen, x: real, y: real, p: Point)
    requires Positive(s)
  {
    InCell(x, OffsetX(s), Scale(s), p.x) && InCell(y, OffsetY(s), Scale(s), p.y)
  }

  predicate OnDesktop(s: Screen, p: Point) {
    0 <= p.x < s.desktopWidth && 0 <= p.y < s.desktopHeight
  }

  lemma MapByAxes(s: Screen, x: real, y: real, p: Point)
    requires Positive(s)
    ensures Scale(s) > 0.0
    ensures Map(s, x, y) == Some(p) <==>
      && AxisMapsTo(x, OffsetX(s), Scale(s), s.desktopWidth, p.x)
      && AxisMapsTo(y, OffsetY(s), Scale(s), s.desktopHeight, p.y)
  {
    ScalePositive(s);
  }

  lemma AxesIff(ox: real, oy: real, scale: real, w: int, h: int, x: real, y: real, p: Point)
    requires scale > 0.0 && w > 0 && h > 0
    ensures AxisMapsTo(x, ox, scale, w, p.x) && AxisMapsTo(y, oy, scale, h, p.y)
      <==> 0 <= p.x < w && 0 <= p.y < h && InCell(x, ox, scale, p.x) && InCell(y, oy, scale, p.y)
  {
    AxisIff(x, ox, scale, w, p.x);
    AxisIff(y, oy, scale, h, p.y);
  }

  /** A touch maps to a pixel exactly when the pixel is on the desktop and the touch is in its square. */
  lemma MapsToIff(s: Screen, x: real, y: real, p: Point)
    requires Positive(s)
    ensures Map(s, x, y) == Some(p) <==> OnDesktop(s, p) && InSquare(s, x, y, p)
  {
    MapByAxes(s, x, y, p);
    AxesIff(OffsetX(s), OffsetY(s), Scale(s), s.desktopWidth, s.desktopHeight, x, y, p);
  }

  /** The middle of the part of an axis that pixel `k` takes. */
  function Middle(offset: real, scale: real, k: int): real {
    offset + (k as real + 0.5) * scale
  }

  /** The centre of a desktop pixel's square maps back to the pixel. */
  lemma CentreRoundTrip(s: Screen, p: Point, x: real, y: real)
    requires Positive(s) && OnDesktop(s, p)
    requires x == Middle(OffsetX(s), Scale(s), p.x) && y == Middle(OffsetY(s), Scale(s), p.y)
    ensures Map(s, x, y) == Some(p)
  {
    MapByAxes(s, x, y, p);
    CentreMapsBack(OffsetX(s), OffsetY(s), Scale(s), s.desktopWidth, s.desktopHeight, x, y, p);
  }

  lemma CentreMapsBack(ox: real, oy: real, scale: real, w: int, h: int, x: real, y: real, p: Point)
    requires scale > 0.0 && 0 <= p.x < w && 0 <= p.y < h
    requires x == Middle(ox, scale, p.x) && y == Middle(oy, scale, p.y)
    ensures AxisMapsTo(x, ox, scale, w, p.x) && AxisMapsTo(y, oy, scale, h, p.y)
  {
    CentreInCell(ox, scale, p.x);
    CentreInCell(oy, scale, p.y);
    AxesIff(ox, oy, scale, w, h, x, y, p);
  }

  lemma CentreInCell(offset: real, scale: real, k: int)
    requires scale > 0.0
    ensures InCell(Middle(offset, scale, k), offset, scale, k)
  {
    Scaled(k as real, k as real + 0.5, scale);
    Scaled((k + 1) as real, k as real + 0.5, scale);
  }

  /** Moving right never moves the pixel left, and moving down never moves it up. */
  lemma {:induction false} MapIsMonotone(s: Screen, x: real, y: real, x': real, y': real)
    requires Positive(s) && InContent(s, x, y) && InContent(s, x', y') && x <= x' && y <= y'
    ensures Map(s, x, y).Some? && Map(s, x', y').Some?
    ensures Map(s, x, y).value.x <= Map(s, x', y').value.x && Map(s, x, y).value.y <= Map(s, x', y').value.y
  {
    ClampIsIdle(s, x, y);
    ClampIsIdle(s, x', y');
    CellMonotone(x, x', OffsetX(s), Scale(s));
    CellMonotone(y, y', OffsetY(s), Scale(s));
  }

  lemma CellMonotone(x: real, x': real, offset: real, scale: real)
    requires scale > 0.0 && x <= x'
    ensures Cell(x, offset, scale) <= Cell(x', offset, scale)
  {
    var q, q' := (x - offset) / scale, (x' - offset) / scale;
    assert q * scale == x - offset && q' * scale == x' - offset;
    Scaled(q, q', scale);
  }

  // ---------------------------------------------------------------- the letterbox

  /** The content lies inside the view and touches two opposite edges of it. */
  lemma ContentFits(s: Screen)
    requires Positive(s)
    ensures 0.0 <= OffsetX(s) && OffsetX(s) + ContentWidth(s) <= s.viewWidth as real
    ensures 0.0 <= OffsetY(s) && OffsetY(s) + ContentHeight(s) <= s.viewHeight as real
    ensures OffsetX(s) == 0.0 || OffsetY(s) == 0.0
  {
    TimesQuotient(s.viewWidth as real, s.desktopWidth as real, Scale(s));
    TimesQuotient(s.viewHeight as real, s.desktopHeight as real, Scale(s));
  }

  /** It is as far from the left edge as from the right, from the top as from the bottom, and keeps its shape. */
  lemma ContentIsCentred(s: Screen)
    requires Positive(s)
    ensures OffsetX(s) == s.viewWidth as real - (OffsetX(s) + ContentWidth(s))
    ensures OffsetY(s) == s.viewHeight as real - (OffsetY(s) + ContentHeight(s))
    ensures ContentWidth(s) * s.desktopHeight as real == ContentHeight(s) * s.desktopWidth as real
  {
    TimesSwap(s.desktopWidth as real, Scale(s), s.desktopHeight as real);
  }

  lemma TimesSwap(a: real, b: real, c: real)
    ensures (a * b) * c == (c * b) * a
  {
  }
}
