/** Heading arithmetic of a seeker. The heading (`rotation`) is an integer number of degrees,
    0 pointing right and growing counter-clockwise. Python's `%` with the positive divisor 360
    is Euclidean, as Dafny's is, so `(h + 10) % 360` means the same in both. */
module Heading {

  /** Degrees turned per tick by one turn output. */
  const RotSpeed: int := 10

  /** A heading already reduced into one turn. */
  predicate Normal(h: int) { 0 <= h < 360 }

  /** The heading update of `Missle.move`: a left output adds RotSpeed, a right output subtracts
      it, each followed by `% 360`; both may fire in one tick. */
  function Turned(h: int, left: bool, right: bool): (r: int)
    ensures left || right ==> Normal(r)
    ensures !left && !right ==> r == h
    ensures left && !right ==> r == (h + RotSpeed) % 360
    ensures right && !left ==> r == (h - RotSpeed) % 360
  {
    var h1 := if left then (h + RotSpeed) % 360 else h;
    if right then (h1 - RotSpeed) % 360 else h1
  }

  /** Reducing modulo 360 ignores any whole number of turns added first. */
  lemma ModTurns(a: int, k: int)
    ensures (a + 360 * k) % 360 == a % 360
  {
  }

  /** With both outputs firing, the two turns cancel up to normalisation: the heading ends at
      h % 360 (which differs from h only for the initial heading 360). */
  lemma TurnBothCancels(h: int)
    ensures Turned(h, true, true) == h % 360
  {
    var g := h + RotSpeed;
    var q, r := g / 360, g % 360;
    assert g == 360 * q + r;
    assert Turned(h, true, true) == (r - RotSpeed) % 360;
    assert r - RotSpeed == h + 360 * -q;
    ModTurns(h, -q);
  }

  /** The bounce off a left or right wall: the heading is mirrored about the vertical axis. */
  function ReflectH(h: int): (r: int)
    ensures Normal(r)
  {
    (180 - h) % 360
  }

  /** The bounce off a top or bottom wall: the heading is mirrored about the horizontal axis. */
  function ReflectV(h: int): (r: int)
    ensures Normal(r)
  {
    (-h) % 360
  }

  /** Bouncing twice off the same kind of wall restores the heading, modulo 360. */
  lemma ReflectHInvolution(h: int)
    ensures ReflectH(ReflectH(h)) == h % 360
  {
    var g := 180 - h;
    var q, r := g / 360, g % 360;
    assert g == 360 * q + r;
    assert ReflectH(h) == r;
    assert 180 - r == h + 360 * q;
    ModTurns(h, q);
  }

  lemma ReflectVInvolution(h: int)
    ensures ReflectV(ReflectV(h)) == h % 360
  {
    var g := -h;
    var q, r := g / 360, g % 360;
    assert g == 360 * q + r;
    assert ReflectV(h) == r;
    assert -r == h + 360 * q;
    ModTurns(h, q);
  }

  /** A corner bounce (both walls in one tick) reverses the heading: it turns it by 180. */
  lemma CornerBounceReverses(h: int)
    ensures ReflectV(ReflectH(h)) == (h + 180) % 360
  {
    var g := 180 - h;
    var q, r := g / 360, g % 360;
    assert g == 360 * q + r;
    assert ReflectH(h) == r;
    assert -r == (h + 180) + 360 * (q - 1);
    ModTurns(h + 180, q - 1);
  }
}
