/** The seeker (`Missle`) and its target (`Flag`). A seeker's fields are updated in place every
    tick, so it is a class; a flag never changes after it is placed (a hit replaces it), so it
    is a value. */
module Missiles {
  import opened Geometry
  import opened Heading

  /** Side of the (unrotated) seeker and flag images, in pixels. */
  const ImgSize: nat := 25
  /** Distance kept from the arena edges when placing a seeker or a flag at random. */
  const Margin: int := 50
  /** Ticks a seeker may go without reaching a flag; also the value a hit resets it to. */
  const AgeBudget: int := 600

  /** Smallest and largest top-left coordinate `randint` may give a new 25 x 25 image. */
  const PlaceMin: int := Margin
  const PlaceMaxX: int := WinWidth - ImgSize - Margin
  const PlaceMaxY: int := WinHeight - ImgSize - Margin

  /** True when (px, py) is a position `randint(50, WIN - 25 - 50)` can draw on both axes. */
  predicate PlaceableAt(px: int, py: int) {
    PlaceMin <= px <= PlaceMaxX && PlaceMin <= py <= PlaceMaxY
  }

  /** A target: an image rectangle at a fixed position. Its colour is presentation only. */
  datatype Flag = Flag(rect: Rect)

  /** True for every flag `Flag()` can create: a 25 x 25 rectangle inside the arena with a
      margin of 50 on every side. */
  predicate FlagPlaced(f: Flag) {
    f.rect.w == ImgSize && f.rect.h == ImgSize && PlaceableAt(f.rect.x, f.rect.y)
  }

  /** `Flag()` with the two values its `randint` calls drew. */
  function NewFlag(px: int, py: int): (f: Flag)
    requires PlaceableAt(px, py)
    ensures FlagPlaced(f)
    ensures f.rect.Left() == px && f.rect.Top() == py
  {
    Flag(Rect(px, py, ImgSize, ImgSize))
  }

  /** A placed flag lies inside the arena, 50 pixels clear of every wall. */
  lemma FlagInsideArena(f: Flag)
    requires FlagPlaced(f)
    ensures InArena(f.rect)
    ensures Margin <= f.rect.Left() && f.rect.Right() <= WinWidth - Margin
    ensures Margin <= f.rect.Top() && f.rect.Bottom() <= WinHeight - Margin
  {
  }

  /** The values the random draws of `Missle()` produce: the initial heading
      (`randint(1, 360)`), the position, and the position of the first flag. */
  datatype Seed = Seed(rotation: int, x: int, y: int, flagX: int, flagY: int)

  predicate SeedOk(s: Seed) {
    1 <= s.rotation <= 360 && PlaceableAt(s.x, s.y) && PlaceableAt(s.flagX, s.flagY)
  }

  /** The simulated state of one seeker, as a value. The velocity vector, image and colour are
      not part of it. */
  datatype MissleState = MissleState(rotation: int, rect: Rect, age: int, hits: nat, flag: Flag)

  /** What holds of every seeker at all times: the heading lies in [0, 360] (360 is possible only
      before the first turn or bounce, since `randint(1, 360)` may draw it), the age never
      exceeds the budget, and the flag was placed by `Flag()`. */
  predicate MissleOk(m: MissleState) {
    0 <= m.rotation <= 360 && m.age <= AgeBudget && FlagPlaced(m.flag)
  }

  /** The state `Missle()` creates from its random draws. */
  function Spawned(s: Seed): (m: MissleState)
    requires SeedOk(s)
    ensures MissleOk(m) && m.age == AgeBudget && m.hits == 0
    ensures m.rotation == s.rotation && 1 <= m.rotation <= 360
    ensures m.rect.Left() == s.x && m.rect.Top() == s.y && m.rect.w == ImgSize && m.rect.h == ImgSize
    ensures InArena(m.rect)
    ensures m.flag.rect.Left() == s.flagX && m.flag.rect.Top() == s.flagY && FlagPlaced(m.flag)
  {
    MissleState(s.rotation, Rect(s.x, s.y, ImgSize, ImgSize), AgeBudget, 0,
                NewFlag(s.flagX, s.flagY))
  }

  class Missle {
    var rotation: int
    var rect: Rect
    var age: int
    var hits: nat
    var flag: Flag

    /** The simulated state of this seeker. */
    function State(): MissleState
      reads this
    {
      MissleState(rotation, rect, age, hits, flag)
    }

    /** `Missle()`, with its random draws supplied as `seed`. */
    constructor (seed: Seed)
      requires SeedOk(seed)
      ensures State() == Spawned(seed)
    {
      rotation := seed.rotation;
      rect := Rect(seed.x, seed.y, ImgSize, ImgSize);
      age := AgeBudget;
      flag := NewFlag(seed.flagX, seed.flagY);
      hits := 0;
    }

    /** `move`: turn by the two outputs, then move the centre by the displacement (dx, dy)
        (the velocity vector times the speed, as the caller computed it) and rebuild the rect
        around the new centre with the current image's size w x h. */
    method Move(left: bool, right: bool, dx: int, dy: int, w: nat, h: nat)
      modifies this
      ensures rotation == Turned(old(rotation), left, right)
      ensures rect == CenteredAt(old(rect).CenterX() + dx, old(rect).CenterY() + dy, w, h)
      ensures age == old(age) && hits == old(hits) && flag == old(flag)
    {
      if left {
        rotation := (rotation + RotSpeed) % 360;
      }
      if right {
        rotation := (rotation - RotSpeed) % 360;
      }
      var cx, cy := rect.CenterX() + dx, rect.CenterY() + dy;
      rect := CenteredAt(cx, cy, w, h);
    }
  }
}
