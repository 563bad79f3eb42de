/** Arena constants, pygame-style integer rectangles and the angle difference fed to the
    controllers. */
module Geometry {

  /** Size of the arena (the window), in pixels. */
  const WinWidth: int := 800
  const WinHeight: int := 800

  /** An axis-aligned integer rectangle as pygame's Rect keeps it: top-left corner and size.
      The y axis points down the screen. */
  datatype Rect = Rect(x: int, y: int, w: nat, h: nat) {
    function Left(): int { x }
    function Right(): int { x + w }
    function Top(): int { y }
    function Bottom(): int { y + h }
    /** pygame's centre: the corner plus half the size, rounded down. */
    function CenterX(): int { x + w / 2 }
    function CenterY(): int { y + h / 2 }
  }

  /** True when the rectangle lies entirely inside the arena. */
  predicate InArena(r: Rect) {
    0 <= r.Left() && r.Right() <= WinWidth && 0 <= r.Top() && r.Bottom() <= WinHeight
  }

  /** The rectangle of size w x h that `get_rect(center = (cx, cy))` builds: placing it by its
      centre puts the centre exactly at (cx, cy). */
  function CenteredAt(cx: int, cy: int, w: nat, h: nat): (r: Rect)
    ensures r.CenterX() == cx && r.CenterY() == cy
    ensures r.w == w && r.h == h
  {
    Rect(cx - w / 2, cy - h / 2, w, h)
  }

  /** pygame's `colliderect`: two rectangles of positive size collide when their interiors
      overlap on both axes; touching edges do not count, and an empty rectangle collides with
      nothing. */
  predicate Collides(a: Rect, b: Rect) {
    && a.w > 0 && a.h > 0 && b.w > 0 && b.h > 0
    && a.Left() < b.Right() && b.Left() < a.Right()
    && a.Top() < b.Bottom() && b.Top() < a.Bottom()
  }

  /** True when the pixel (px, py) lies inside the rectangle. */
  predicate Covers(r: Rect, px: int, py: int) {
    r.Left() <= px < r.Right() && r.Top() <= py < r.Bottom()
  }

  /** Two rectangles collide exactly when some pixel lies inside both. */
  lemma CollidesIffSharedPixel(a: Rect, b: Rect)
    ensures Collides(a, b) <==> exists px, py :: Covers(a, px, py) && Covers(b, px, py)
  {
    if Collides(a, b) {
      var px := if a.x < b.x then b.x else a.x;
      var py := if a.y < b.y then b.y else a.y;
      assert Covers(a, px, py) && Covers(b, px, py);
    }
    if exists px, py :: Covers(a, px, py) && Covers(b, px, py) {
      var px, py :| Covers(a, px, py) && Covers(b, px, py);
      assert Collides(a, b);
    }
  }

  lemma CollidesSymmetric(a: Rect, b: Rect)
    ensures Collides(a, b) <==> Collides(b, a)
  {
  }

  /** Two non-empty rectangles with the same centre always collide: a seeker placed on the
      centre of its flag acquires it. */
  lemma SharedCenterCollides(a: Rect, b: Rect)
    requires a.w > 0 && a.h > 0 && b.w > 0 && b.h > 0
    requires a.CenterX() == b.CenterX() && a.CenterY() == b.CenterY()
    ensures Collides(a, b)
  {
  }

  /** The safety clamp run on every seeker after the wall checks, as four ifs in this order:
      a left edge below 0 moves x to 0, then a right edge past the width moves x to
      width - w; likewise for y. */
  function Clamped(r: Rect): (c: Rect)
    ensures c.w == r.w && c.h == r.h
    ensures r.w <= WinWidth ==> 0 <= c.Left() && c.Right() <= WinWidth
    ensures r.h <= WinHeight ==> 0 <= c.Top() && c.Bottom() <= WinHeight
    ensures InArena(r) ==> c == r
    ensures r.w > WinWidth ==> c.Right() == WinWidth
    ensures r.h > WinHeight ==> c.Bottom() == WinHeight
    ensures 0 <= r.Left() && r.Right() <= WinWidth ==> c.x == r.x
    ensures 0 <= r.Top() && r.Bottom() <= WinHeight ==> c.y == r.y
    ensures r.Left() < 0 && r.w <= WinWidth ==> c.Left() == 0
    ensures r.Top() < 0 && r.h <= WinHeight ==> c.Top() == 0
    ensures r.Right() > WinWidth ==> c.Right() == WinWidth
    ensures r.Bottom() > WinHeight ==> c.Bottom() == WinHeight
  {
    var x1 := if r.Left() < 0 then 0 else r.x;
    var x2 := if x1 + r.w > WinWidth then WinWidth - r.w else x1;
    var y1 := if r.Top() < 0 then 0 else r.y;
    var y2 := if y1 + r.h > WinHeight then WinHeight - r.h else y1;
    Rect(x2, y2, r.w, r.h)
  }

  /** Clamping a rectangle that fits in the arena a second time changes nothing. */
  lemma ClampIdempotent(r: Rect)
    requires r.w <= WinWidth && r.h <= WinHeight
    ensures InArena(Clamped(r))
    ensures Clamped(Clamped(r)) == Clamped(r)
  {
  }

  /** `calc_diff`: the signed difference of two angles in degrees, by plain subtraction and
      deliberately not wrapped into a half turn. */
  function CalcDiff(angle1: real, angle2: real): (d: real)
    ensures angle2 + d == angle1
  {
    angle1 - angle2
  }

  lemma CalcDiffAntisymmetric(a: real, b: real)
    ensures CalcDiff(a, b) == -CalcDiff(b, a)
    ensures CalcDiff(a, a) == 0.0
  {
  }

  /** The difference is not wrapped: 370 degrees against 0 stays 370, not 10. */
  lemma CalcDiffUnwrapped()
    ensures CalcDiff(370.0, 0.0) == 370.0
    ensures CalcDiff(0.0, 370.0) == -370.0
  {
  }
}
