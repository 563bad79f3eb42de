# Target seeking: a verified model of one generation's simulation

`main.py` trains seeker controllers ("missles") with NEAT. A seeker flies at constant speed
through an 800 x 800 arena. A controller turns it left or right toward its own flag. One call
of `eval_genomes` is one generation. Each genome gets a controller and a fresh seeker. Then the
game runs tick by tick until no seeker is left.

In every tick, each seeker the `for` loop reaches goes through the same steps:
- it ages by one tick and pays a flat fitness penalty;
- it asks its controller whether to turn, moves, and pays for any turn;
- it scores 1000 when it touches its flag, which also resets its age and places a new flag;
- it bounces off the walls, paying 10 per wall axis, and is clamped back into the arena;
- it is removed once its fitness passes 1000000, or once its age runs out (never in testing
  mode).

A removed seeker's entry is popped from three parallel lists: controllers, genomes and
seekers. Its hit count is recorded.

The fitness each genome holds at the end is the only result the optimizer reads. So every
agent record in the model names its genome object, and the model tracks which genome sits at
which index. A generation therefore cannot end with one agent's score on another agent's
genome.

The model keeps the source's shape.
- `Missle` is a class whose fields `move` and the tick update in place.
- The evaluator is a class. It holds the three parallel lists and the hit record as sequence
  fields, which its methods reassign, as `list.pop` and `list.append` do.
- The tick body is imperative code over those fields.

Each method is proved against a value-level specification:
- `Tick.Step` is one seeker's tick, stage by stage in source order.
- `Cohort.PassFrom` / `Cohort.Pass` is one pass of the `for x, missle in enumerate(missles)`
  loop.
- `Cohort.Run` is the `while` loop.

Properties of the tick and of the cohort are proved as lemmas about those functions.

The `for` loop pops from the list it is iterating over, and this is modelled as written.
After agent x is removed, the iterator moves on to position x + 1. So the agent that slid into
position x is not stepped in that tick (`Cohort.SkipAfterRemoval`). A reading of the program
in which every live seeker advances once per tick is therefore not what the code does. The
model follows the code.

Modules:
- `Geometry`: arena, integer rectangles, clamp, collision, `calc_diff`.
- `Heading`: turn and bounce arithmetic.
- `Missiles`: `Flag`, `Missle`.
- `Tick`: the `Genome` record and the `Agent` datatype, and one seeker's tick as a function.
- `Cohort`: pass and run as functions, and their lemmas.
- `Lists`: `list.pop`, `list.index`, distinctness.
- `Evaluation`: the `Evaluator` class, the set-up loop and `eval_genomes`.

## Model

| member | source | states |
|---|---|---|
| Geometry.CenteredAt | main.py:76 | a rect rebuilt with `get_rect(center=…)` has exactly the requested centre and the image's size |
| Geometry.CollidesIffSharedPixel | main.py:252 | `colliderect` holds exactly when some pixel lies inside both rects (an independent definition of the overlap test) |
| Geometry.CollidesSymmetric | main.py:252 | `colliderect` does not depend on which rect asks |
| Geometry.SharedCenterCollides | main.py:252 | two non-empty rects with the same centre always collide |
| Geometry.Clamped | main.py:274-281 | the clamp keeps the size and fixes the position on each axis: a coordinate already inside is kept; a rect past the left (top) wall that fits lands at 0; a rect past the right (bottom) wall ends flush with it; so a rect that fits ends inside the arena, and a wider (taller) one ends flush with the right (bottom) wall |
| Geometry.ClampIdempotent | main.py:274-281 | for a rect that fits, the clamp's result lies in the arena and clamping it again changes nothing |
| Geometry.CalcDiffAntisymmetric | main.py:185-197 | `calc_diff(a, b) == -calc_diff(b, a)` and `calc_diff(a, a) == 0` |
| Geometry.CalcDiffUnwrapped | main.py:195-197 | the difference is not wrapped into a half turn: `calc_diff(370, 0) == 370` and `calc_diff(0, 370) == -370` |
| Geometry.CalcDiff | main.py:185-197 | the difference is how far the heading must turn to reach the bearing: heading plus difference gives the bearing back |
| Heading.Turned | main.py:63-70 | a left turn gives (h + 10) % 360, a right turn (h - 10) % 360, no turn leaves h; any turned heading lies in [0, 360) |
| Heading.TurnBothCancels | main.py:63-70 | when both outputs fire the heading ends at h % 360 |
| Heading.ReflectH | main.py:260-265 | the left/right wall bounce (180 - h) % 360 lies in [0, 360) |
| Heading.ReflectV | main.py:266-271 | the top/bottom wall bounce (-h) % 360 lies in [0, 360) |
| Heading.ReflectHInvolution | main.py:265 | bouncing twice off a side wall gives back h modulo 360 |
| Heading.ReflectVInvolution | main.py:271 | bouncing twice off the top or bottom gives back h modulo 360 |
| Heading.CornerBounceReverses | main.py:260-271 | a bounce on both axes in one tick turns the heading by exactly 180 degrees |
| Missiles.NewFlag | main.py:102-110 | a flag drawn by `Flag()` is 25 x 25 at the drawn position, within the `randint(50, 800 - 25 - 50)` range |
| Missiles.FlagInsideArena | main.py:108-109 | every placed flag lies inside the arena with 50 pixels clear of every wall |
| Missiles.Spawned | main.py:30-52 | a new seeker has age 600, no hits, the drawn heading (in [1, 360]), a 25 x 25 rect at the drawn position and inside the arena, and a placed flag at the drawn flag position |
| Missiles.Missle.constructor | main.py:30-52 | `Missle()` sets exactly the state `Spawned` describes for its random draws |
| Missiles.Missle.Move | main.py:54-76 | `move` turns the heading as `Turned` says, moves the centre by the displacement, rebuilds the rect around it, and leaves age, hits and flag alone |
| Tick.ControllerInputTracksHeading | main.py:243 | the controller's input is the unwrapped heading error: a left turn lowers it by 10 and a right turn raises it by 10, but a turn across 0/360 makes it jump by 360 instead (a left turn from 350 or more rises by 350, a right turn from below 10 falls by 350) |
| Tick.ControllerTurns | main.py:243-249 | the first output above 0.5 turns left by 10, the second turns right by 10, both together leave h % 360; the flat penalty is 2, plus 1 when either output fired |
| Tick.AfterMove | main.py:239-249 | the first stage lowers the age by 1 and the fitness by 2, plus 1 for a turn, and never touches the controller, the genome, the flag or the hit count |
| Tick.AfterHit | main.py:252-257 | without a collision nothing changes; with one the fitness grows by 1000, the age is 600, hits grow by 1 and the new flag is placed; position and heading stay |
| Tick.AfterBounce | main.py:260-271 | the bounce stage costs 10 per escaped axis and changes only heading and fitness: position, age, hits and flag stay |
| Tick.AfterClamp | main.py:274-281 | the new rect is the clamp of the old one, and nothing else changes: controller, genome, fitness, heading, age, hits and flag stay |
| Tick.Step | main.py:238-281 | a tick keeps an agent's controller and genome, and keeps a well-formed seeker well-formed (heading in [0, 360], age at most 600, flag placed) |
| Tick.StepFitnessDelta | main.py:240-267 | a tick changes fitness by exactly -2, -1 more if either output fired, +1000 on a hit and -10 per escaped axis |
| Tick.StepAgeAndHits | main.py:239-257 | without a hit the age drops by exactly 1 and hits and flag stay; with a hit the age is 600, hits grow by 1 and the flag is the new one; hits never decrease |
| Tick.StepHeading | main.py:245-271 | the final heading is the turned heading, then the side bounce, then the top/bottom bounce; it is normalised whenever anything turned or bounced, and unchanged otherwise |
| Tick.StepStaysInArena | main.py:274-281 | after a tick, a seeker whose image fits in the arena lies inside it, with its image's size |
| Tick.CenteredOnFlagHits | main.py:252-257 | a seeker moved onto its flag's centre acquires it: one more hit, age 600, and at least 1000 - 2 - 1 - 20 fitness gained |
| Tick.FateOf | main.py:284-291 | an agent stays exactly when its fitness is at most 1000000 and its age is not negative or the run is testing |
| Tick.FateRules | main.py:284-291 | over the ceiling means removal whatever the age; age removes only at or under the ceiling, at negative age and outside testing; in testing mode only the ceiling removes |
| Cohort.Initial | main.py:139-149 | agent k of the initial cohort has genome k, controller k, the seeker spawned from draw k and fitness 0, and every seeker is well-formed |
| Cohort.PassFrom | main.py:238-291 | the survivors and the removed agents of the rest of a pass number exactly the agents it started with, and it leaves the positions before the iterator alone |
| Cohort.PassFromKeeps | main.py:238-291 | every agent a pass removes met a removal rule, and a pass keeps every seeker well-formed |
| Cohort.PassFromKeepsGenomes | main.py:224-291 | a pass neither loses, duplicates nor invents genomes: the survivors' and the removed agents' genomes are, as a multiset, those of the cohort |
| Cohort.Pass | main.py:238 | the survivors and the removed agents of one tick number exactly the agents it started with |
| Cohort.SkipAfterRemoval | main.py:238-291 | when the agent at x is removed, the agent after it slides into x and is not stepped in that pass |
| Cohort.SurvivorStepped | main.py:238-291 | an agent that survives its step is found at the same position, stepped exactly once |
| Cohort.Run | main.py:200 | the survivors and the removed agents of a run number exactly the agents it started with; it runs at most one tick per script entry, and ends early only when the cohort is empty |
| Cohort.RunKeeps | main.py:200-291 | every agent a run removes met a removal rule when it was removed, and seekers stay well-formed throughout |
| Cohort.RunKeepsGenomes | main.py:200-291 | a whole run neither loses, duplicates nor invents genomes |
| Cohort.EveryGenomeOnce | main.py:127-291 | a generation started from distinct genomes ends with each of them named by exactly one agent, surviving or removed, and with no other genome |
| Cohort.TestingRemovesOnlyAtCeiling | main.py:288-291 | in testing mode every agent removed has fitness over 1000000 |
| Cohort.EmptyCohortStops | main.py:200 | an empty cohort runs no tick |
| Lists.Pop | main.py:233-235 | `list.pop(k)` removes entry k and shifts later entries down by one, keeping their order |
| Lists.IndexOf | main.py:233-235 | `list.index` returns the first position holding the value |
| Lists.MoveKeepsDistinct | main.py:224-235 | moving a genome from the live list to the removed list loses or duplicates no genome |
| Evaluation.Evaluator.constructor | main.py:139-149 | set-up gives every genome fitness 0, agent k the seeker spawned from draw k, and empty hit and removal records |
| Evaluation.SpawnAll | main.py:144-149 | the set-up loop creates one new, distinct seeker per genome in the order of the genomes, and zeroes each fitness |
| Evaluation.Evaluator.MoveStage | main.py:239-249 | the in-place first stage does to the agent at x what `Tick.AfterMove` says |
| Evaluation.Evaluator.HitStage | main.py:252-257 | the in-place hit test does what `Tick.AfterHit` says |
| Evaluation.Evaluator.BounceStage | main.py:260-271 | the in-place bounces do what `Tick.AfterBounce` says |
| Evaluation.Evaluator.ClampStage | main.py:274-281 | the in-place clamp does what `Tick.AfterClamp` says |
| Evaluation.Evaluator.StepAgent | main.py:239-281 | the loop body before the removal rules updates the record at x exactly as `Tick.Step` says, and keeps the lists aligned and their seekers well-formed |
| Evaluation.Evaluator.Remove | main.py:224-235 | `remove` pops the same index from all three lists, so the cohort of records loses exactly that record and the rest keep order and pairing; the seeker's hits are appended; its genome is retired, and no genome is lost |
| Evaluation.Evaluator.Drop | main.py:232-235 | with the index known, the three pops and the append leave the lists aligned and free of repeats, and retire the genome with its fitness |
| Evaluation.Evaluator.TickBody | main.py:239-291 | one loop body removes the agent exactly when its stepped record meets a removal rule (ceiling first, then age unless testing), retiring its genome, and otherwise replaces it by its stepped record |
| Evaluation.Evaluator.Visit | main.py:238-291 | one visit keeps the in-place pass on track for `Cohort.Pass` and the hit records in step with the agents removed |
| Evaluation.Evaluator.OneTick | main.py:238-291 | one tick leaves the cohort that `Cohort.Pass` computes (each record naming the genome at its index), records the hits, the fitness and the genomes of the agents it removes in removal order, and loses no genome |
| Evaluation.Evaluator.Advance | main.py:200-291 | one pass of the `while` loop keeps the run on track for `Cohort.Run` |
| Evaluation.Evaluator.RunTicks | main.py:200-291 | the iterations of the `while` loop stop only when the script ends or the cohort is empty, and keep the run on track for `Cohort.Run`, with the removal records |
| Evaluation.Evaluator.RunGeneration | main.py:200-291 | the `while` loop leaves the cohort `Cohort.Run` computes, with the genome at each index, after the number of ticks it computes; the removed agents' hits, fitness and genomes are recorded in removal order |
| Evaluation.EvalGenomes | main.py:127-291 | a generation from set-up to the end of the loop ends as `Cohort.Run` says from the initial cohort: the live genome list is the genomes of the surviving agents, in order, the retired genomes are those of the removed agents, in removal order, with their fitness and hits recorded; the genome each surviving or removed agent names holds that agent's fitness, so no agent's score reaches another genome; and no genome is lost |
| Evaluation.Evaluator.FitnessPaired | main.py:240-291 | when the cohort's records are the surviving agents of a run and the retired genomes and their fitness are those of its removed agents, the genome each record names holds that record's fitness |
| Evaluation.Evaluator.GenomesOfAgents | main.py:139-149 | the genomes named by the cohort's records are exactly the evaluator's genome list, in order |

## Left out

- The pygame window, images, fonts, drawing, event loop, key toggles, frame clock and the
  `drawing`/`superspeed` flags (main.py:9-20, 78-92, 112-136, 203-222, 293-322). These are
  presentation only. The QUIT event exits the process; the model takes it to be the end of the
  script of ticks.
- NEAT network construction and `activate` (main.py:146, 243). A controller is an opaque
  function from its one input to its first two outputs. `run_neat`, `test_neat` and the
  `pickle` file I/O (main.py:327-366) are not part of this model.
- `calc_angle` (main.py:156-183) is floating-point `atan2`, so the bearing is a parameter. Its
  cardinal-direction branches (main.py:170-179) are dead, because line 181 overwrites their
  result.
- The float `vel_vector`, its rotation on a turn and its sign flip on a bounce (main.py:36-37,
  66, 70, 73, 264, 270). Each tick's centre displacement is an integer input, so the model does
  not tie one tick's bounce to the next tick's direction. Nor does it model how pygame converts
  the float centre to integers.
- Missiles.Missle.Move: the image size after `move` is an input, because `draw` replaces the
  image with a rotated copy (main.py:84).
- `random.randint` draws (main.py:33, 43-46, 108-109) are supplied values, required to lie in
  the source's ranges. The colour is not modelled.
- The closing average-hits print (main.py:325): console output and float division. With an empty population `sum(hits)/len(hits)` raises `ZeroDivisionError`; `EvalGenomes` with no genomes returns normally instead.
- Lists.IndexOf: the `ValueError` of `list.index` for a missing value is not modelled; `remove`
  is only called on a seeker that is in the list.
- Evaluation.EvalGenomes: requires the genomes to be distinct objects, as the optimizer's
  population provides. The integer genome ids are not modelled.
- Evaluation.Evaluator.Remove: the three `missles.index` lookups are taken together before the
  pops. The source interleaves them. The result is the same, because `missles` is popped last.
- Fitness and ages are unbounded integers, as Python's are.
