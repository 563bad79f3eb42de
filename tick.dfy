/** One seeker's share of a tick, as a function on values: the specification the in-place tick
    body (`Evaluation.Evaluator.StepAgent`) is proved against, stage by stage in source order. */
module Tick {
  import opened Geometry
  import opened Heading
  import opened Missiles

  /** A controller: the network's `activate`, from the single angle-difference input to its
      first two outputs. It is supplied by the optimizer and opaque here. */
  type Net = real -> (real, real)

  /** `calc_angle`: the bearing, in degrees, from the first point to the second. It is computed
      in floating point with `atan2`, so the model takes it as a parameter. */
  type Bearing = (int, int, int, int) -> real

  /** Fitness shaping constants. */
  const TickPenalty: int := 2
  const TurnPenalty: int := 1
  const HitReward: int := 1000
  const WallPenalty: int := 10
  const FitnessCeiling: int := 1000000

  /** The optimizer's genome record. The evaluator never replaces it; it only adds to and
      subtracts from its fitness, which the optimizer reads after the generation. */
  class Genome {
    var fitness: int
  }

  /** One entry of the cohort: a controller, its seeker, its genome's fitness and the genome
      object itself, whose fitness field the evaluator keeps equal to `fitness`. */
  datatype Agent = Agent(net: Net, missle: MissleState, fitness: int, genome: Genome)

  /** What the model does not compute itself for one seeker's tick: the displacement of its
      centre (velocity vector times speed), the size of its current image, and the position a
      new flag would be drawn at if it hits. */
  datatype StepInput = StepInput(dx: int, dy: int, w: nat, h: nat, flagX: int, flagY: int)

  predicate InputOk(inp: StepInput) {
    PlaceableAt(inp.flagX, inp.flagY)
  }

  /** The controller's input: the bearing from the seeker's centre to its flag's centre, minus
      the heading. */
  function ControllerInput(m: MissleState, angle: Bearing): real {
    CalcDiff(angle(m.rect.CenterX(), m.rect.CenterY(), m.flag.rect.CenterX(), m.flag.rect.CenterY()),
             m.rotation as real)
  }

  /** Each of the two outputs fires independently when it exceeds 0.5. */
  function TurnLeft(a: Agent, angle: Bearing): bool {
    a.net(ControllerInput(a.missle, angle)).0 > 0.5
  }

  function TurnRight(a: Agent, angle: Bearing): bool {
    a.net(ControllerInput(a.missle, angle)).1 > 0.5
  }

  /** The controller's input is the heading error, and `calc_diff` does not wrap it: a left
      turn lowers the input by RotSpeed and a right turn raises it by RotSpeed, except where the
      turn carries the heading across 0/360, and there the input jumps by a whole turn. */
  lemma ControllerInputTracksHeading(m: MissleState, angle: Bearing)
    requires 0 <= m.rotation <= 360
    ensures ControllerInput(m.(rotation := Turned(m.rotation, true, false)), angle)
            == ControllerInput(m, angle) - RotSpeed as real
               + (if m.rotation >= 360 - RotSpeed then 360.0 else 0.0)
    ensures ControllerInput(m.(rotation := Turned(m.rotation, false, true)), angle)
            == ControllerInput(m, angle) + RotSpeed as real
               - (if m.rotation < RotSpeed then 360.0 else 0.0)
  {
  }

  /** The controller query and `move`: the first output above 0.5 turns left by RotSpeed, the
      second turns right by RotSpeed, both together cancel up to normalisation, and any turn
      costs the turn penalty on top of the flat one. */
  lemma ControllerTurns(a: Agent, angle: Bearing, inp: StepInput)
    ensures var out := a.net(ControllerInput(a.missle, angle));
            var h := a.missle.rotation;
            && AfterMove(a, angle, inp).missle.rotation
               == (if out.0 > 0.5 && out.1 > 0.5 then h % 360
                   else if out.0 > 0.5 then (h + RotSpeed) % 360
                   else if out.1 > 0.5 then (h - RotSpeed) % 360
                   else h)
            && AfterMove(a, angle, inp).fitness
               == a.fitness - TickPenalty - (if out.0 > 0.5 || out.1 > 0.5 then TurnPenalty else 0)
  {
    TurnBothCancels(a.missle.rotation);
  }

  /** The rect after `move`. */
  function MovedRect(m: MissleState, inp: StepInput): Rect {
    CenteredAt(m.rect.CenterX() + inp.dx, m.rect.CenterY() + inp.dy, inp.w, inp.h)
  }

  /** The tick acquires the flag when the moved rect collides with it. */
  predicate Hit(m: MissleState, inp: StepInput) {
    Collides(MovedRect(m, inp), m.flag.rect)
  }

  /** A horizontal escape: the moved rect crosses the left or the right wall. */
  predicate EscapedH(m: MissleState, inp: StepInput) {
    var r := MovedRect(m, inp);
    r.Left() < 0 || r.Right() > WinWidth
  }

  /** A vertical escape: the moved rect crosses the top or the bottom wall. */
  predicate EscapedV(m: MissleState, inp: StepInput) {
    var r := MovedRect(m, inp);
    r.Top() < 0 || r.Bottom() > WinHeight
  }

  /** First stage of the tick: the age counts down, the flat penalty is paid, the controller
      is queried, `move` turns and moves the seeker, and a turn costs the turn penalty. */
  function AfterMove(a: Agent, angle: Bearing, inp: StepInput): (r: Agent)
    ensures r.net == a.net && r.genome == a.genome
    ensures r.missle.flag == a.missle.flag && r.missle.hits == a.missle.hits
    ensures r.missle.age == a.missle.age - 1
    ensures r.fitness == a.fitness - TickPenalty
                         - (if TurnLeft(a, angle) || TurnRight(a, angle) then TurnPenalty else 0)
  {
    var m := a.missle;
    var left, right := TurnLeft(a, angle), TurnRight(a, angle);
    var fit := a.fitness - TickPenalty;
    a.(missle := m.(age := m.age - 1, rotation := Turned(m.rotation, left, right),
                    rect := MovedRect(m, inp)),
       fitness := if left || right then fit - TurnPenalty else fit)
  }

  /** Second stage: a collision with the flag earns the reward, resets the age, replaces the
      flag and counts a hit. */
  function AfterHit(a: Agent, inp: StepInput): (r: Agent)
    requires InputOk(inp)
    ensures r.net == a.net && r.genome == a.genome
    ensures r.missle.rect == a.missle.rect && r.missle.rotation == a.missle.rotation
    ensures !Collides(a.missle.rect, a.missle.flag.rect) ==> r == a
    ensures Collides(a.missle.rect, a.missle.flag.rect) ==>
              && r.fitness == a.fitness + HitReward && r.missle.age == AgeBudget
              && r.missle.hits == a.missle.hits + 1 && FlagPlaced(r.missle.flag)
  {
    var m := a.missle;
    if Collides(m.rect, m.flag.rect) then
      a.(missle := m.(age := AgeBudget, flag := NewFlag(inp.flagX, inp.flagY), hits := m.hits + 1),
         fitness := a.fitness + HitReward)
    else a
  }

  /** Third stage: the wall bounces. A rect past the left or right wall mirrors the heading with
      (180 - h) % 360, one past the top or bottom wall with (-h) % 360; each costs the wall
      penalty. Neither moves the rect. */
  function AfterBounce(a: Agent): (r: Agent)
    ensures r.net == a.net && r.genome == a.genome
    ensures r.missle.rect == a.missle.rect && r.missle.age == a.missle.age
    ensures r.missle.hits == a.missle.hits && r.missle.flag == a.missle.flag
    ensures r.fitness == a.fitness
                         - (if a.missle.rect.Left() < 0 || a.missle.rect.Right() > WinWidth
                            then WallPenalty else 0)
                         - (if a.missle.rect.Top() < 0 || a.missle.rect.Bottom() > WinHeight
                            then WallPenalty else 0)
  {
    var m := a.missle;
    var escH := m.rect.Left() < 0 || m.rect.Right() > WinWidth;
    var escV := m.rect.Top() < 0 || m.rect.Bottom() > WinHeight;
    var rot1 := if escH then ReflectH(m.rotation) else m.rotation;
    var fit1 := if escH then a.fitness - WallPenalty else a.fitness;
    a.(missle := m.(rotation := if escV then ReflectV(rot1) else rot1),
       fitness := if escV then fit1 - WallPenalty else fit1)
  }

  /** Last stage: the safety clamp. */
  function AfterClamp(a: Agent): (r: Agent)
    ensures r.net == a.net && r.genome == a.genome && r.fitness == a.fitness
    ensures r.missle == a.missle.(rect := r.missle.rect)
    ensures r.missle.rect == Clamped(a.missle.rect)
  {
    a.(missle := a.missle.(rect := Clamped(a.missle.rect)))
  }

  /** The whole tick of one agent, the four stages in source order. */
  function Step(a: Agent, angle: Bearing, inp: StepInput): (r: Agent)
    requires InputOk(inp)
    ensures r.net == a.net && r.genome == a.genome
    ensures MissleOk(a.missle) ==> MissleOk(r.missle)
  {
    AfterClamp(AfterBounce(AfterHit(AfterMove(a, angle, inp), inp)))
  }

  /** Number of walls (0, 1 or 2) the seeker escaped through this tick. */
  function Escapes(m: MissleState, inp: StepInput): (n: nat)
    ensures n <= 2
  {
    (if EscapedH(m, inp) then 1 else 0) + (if EscapedV(m, inp) then 1 else 0)
  }

  /** The fitness change of one tick is exactly -2, -1 more if either output fired, +1000 on a
      hit and -10 per escaped axis. */
  lemma StepFitnessDelta(a: Agent, angle: Bearing, inp: StepInput)
    requires InputOk(inp)
    ensures Step(a, angle, inp).fitness - a.fitness
         == -TickPenalty
            - (if TurnLeft(a, angle) || TurnRight(a, angle) then TurnPenalty else 0)
            + (if Hit(a.missle, inp) then HitReward else 0)
            - WallPenalty * Escapes(a.missle, inp)
  {
  }

  /** Without a hit the age drops by exactly one and the flag and hit count stay; a hit resets
      the age to the budget, counts one more hit and draws a new flag. Hits never decrease. */
  lemma StepAgeAndHits(a: Agent, angle: Bearing, inp: StepInput)
    requires InputOk(inp)
    ensures var r := Step(a, angle, inp).missle;
      && (!Hit(a.missle, inp) ==> r.age == a.missle.age - 1 && r.hits == a.missle.hits
                                  && r.flag == a.missle.flag)
      && (Hit(a.missle, inp) ==> r.age == AgeBudget && r.hits == a.missle.hits + 1
                                 && r.flag == NewFlag(inp.flagX, inp.flagY))
      && r.hits >= a.missle.hits
  {
  }

  /** The heading after a tick: unchanged when nothing turned or bounced, otherwise reduced into
      [0, 360). A horizontal bounce is applied to the turned heading, then a vertical one. */
  lemma StepHeading(a: Agent, angle: Bearing, inp: StepInput)
    requires InputOk(inp)
    ensures var m := a.missle;
            var rot1 := Turned(m.rotation, TurnLeft(a, angle), TurnRight(a, angle));
            var rot2 := if EscapedH(m, inp) then ReflectH(rot1) else rot1;
            Step(a, angle, inp).missle.rotation == if EscapedV(m, inp) then ReflectV(rot2) else rot2
    ensures TurnLeft(a, angle) || TurnRight(a, angle) || EscapedH(a.missle, inp) || EscapedV(a.missle, inp)
            ==> Normal(Step(a, angle, inp).missle.rotation)
    ensures !TurnLeft(a, angle) && !TurnRight(a, angle) && !EscapedH(a.missle, inp) && !EscapedV(a.missle, inp)
            ==> Step(a, angle, inp).missle.rotation == a.missle.rotation
  {
  }

  /** After the clamp a seeker whose image fits in the arena lies inside it, touching no wall
      from outside. */
  lemma StepStaysInArena(a: Agent, angle: Bearing, inp: StepInput)
    requires InputOk(inp)
    requires inp.w <= WinWidth && inp.h <= WinHeight
    ensures InArena(Step(a, angle, inp).missle.rect)
    ensures Step(a, angle, inp).missle.rect.w == inp.w && Step(a, angle, inp).missle.rect.h == inp.h
  {
  }

  /** A seeker moved onto the centre of its flag acquires it that tick: it gains at least the
      reward minus the flat and turn penalties, and the walls cannot take more than 20. */
  lemma CenteredOnFlagHits(a: Agent, angle: Bearing, inp: StepInput)
    requires InputOk(inp) && FlagPlaced(a.missle.flag)
    requires inp.w > 0 && inp.h > 0
    requires MovedRect(a.missle, inp).CenterX() == a.missle.flag.rect.CenterX()
    requires MovedRect(a.missle, inp).CenterY() == a.missle.flag.rect.CenterY()
    ensures Hit(a.missle, inp)
    ensures Step(a, angle, inp).missle.hits == a.missle.hits + 1
    ensures Step(a, angle, inp).missle.age == AgeBudget
    ensures Step(a, angle, inp).fitness
            >= a.fitness + HitReward - TickPenalty - TurnPenalty - 2 * WallPenalty
  {
    SharedCenterCollides(MovedRect(a.missle, inp), a.missle.flag.rect);
    StepFitnessDelta(a, angle, inp);
  }

  /** How the removal rules treat an agent after its tick. */
  datatype Fate = Stays | ReachedCeiling | AgedOut

  /** The two removal rules in source order: the fitness ceiling first, then the age, which
      is ignored in testing mode. */
  function FateOf(a: Agent, testing: bool): (f: Fate)
    ensures f == Stays <==> a.fitness <= FitnessCeiling && (a.missle.age >= 0 || testing)
  {
    if a.fitness > FitnessCeiling then ReachedCeiling
    else if a.missle.age < 0 && !testing then AgedOut
    else Stays
  }

  /** An agent over the ceiling goes whatever its age; otherwise it goes exactly when it has
      aged out outside testing mode. In testing mode age never removes anyone. */
  lemma FateRules(a: Agent, testing: bool)
    ensures a.fitness > FitnessCeiling ==> FateOf(a, testing) == ReachedCeiling
    ensures FateOf(a, testing) == AgedOut <==> a.fitness <= FitnessCeiling && a.missle.age < 0 && !testing
    ensures testing ==> (FateOf(a, testing) != Stays <==> a.fitness > FitnessCeiling)
  {
  }
}
