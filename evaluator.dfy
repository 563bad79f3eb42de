/** `eval_genomes`: the generation evaluator. It keeps the cohort in three index-aligned lists
    (controllers, genomes, seekers), steps each seeker its `for` loop reaches in place, removes
    agents from all three lists at once, and records each removed seeker's hits. Every method
    is proved against the value-level functions of `Cohort` and `Tick`. */
module Evaluation {
  import opened Geometry
  import opened Missiles
  import opened Tick
  import opened Cohort
  import opened Lists

  /** The fitness of the first n genomes of a list. */
  ghost function FitnessUpTo(gs: seq<Genome>, n: nat): (s: seq<int>)
    reads gs
    requires n <= |gs|
    ensures |s| == n
    ensures forall k :: 0 <= k < n ==> s[k] == gs[k].fitness
  {
    if n == 0 then [] else FitnessUpTo(gs, n - 1) + [gs[n - 1].fitness]
  }

  /** Appending a genome appends its fitness. */
  lemma FitnessUpToAppend(gs: seq<Genome>, g: Genome)
    ensures FitnessUpTo(gs + [g], |gs| + 1) == FitnessUpTo(gs, |gs|) + [g.fitness]
  {
  }

  class Evaluator {
    /** The three parallel lists of `eval_genomes`: entry k of each belongs to agent k. */
    var nets: seq<Net>
    var ge: seq<Genome>
    var missles: seq<Missle>
    /** The hit count of every removed seeker, in removal order. */
    var hits: seq<nat>
    /** Testing mode: age never removes a seeker. */
    const testing: bool
    /** `calc_angle`. */
    const angle: Bearing
    /** The genomes of removed agents, in removal order. The evaluator drops them, but their
        fitness stays the optimizer's to read, so the model keeps track of them. */
    ghost var retired: seq<Genome>
    /** Every seeker and genome of the generation: the objects the evaluator may update. */
    ghost const Repr: set<object>

    ghost predicate Valid()
      reads this, missles
    {
      && |nets| == |ge| == |missles|
      && (forall k :: 0 <= k < |missles| ==> missles[k] in Repr)
      && (forall k :: 0 <= k < |ge| ==> ge[k] in Repr)
      && Distinct(missles) && Distinct(ge) && Distinct(retired) && Disjoint(ge, retired)
      && (forall i :: 0 <= i < |missles| ==> MissleOk(missles[i].State()))
    }

    /** The first n records of the cohort: record k is assembled from entry k of each of the
        three lists, and names the genome at entry k. */
    ghost function AgentsUpTo(n: nat): (s: seq<Agent>)
      reads this, missles, ge
      requires n <= |nets| == |ge| == |missles|
      ensures |s| == n
      ensures forall k :: 0 <= k < n ==> s[k] == Agent(nets[k], missles[k].State(), ge[k].fitness, ge[k])
    {
      if n == 0 then [] else AgentsUpTo(n - 1) + [AgentAt(n - 1)]
    }

    /** The cohort as one sequence of (controller, seeker, fitness, genome) records. */
    ghost function Agents(): (s: seq<Agent>)
      reads this, missles, ge
      requires |nets| == |ge| == |missles|
      ensures |s| == |missles|
      ensures forall k :: 0 <= k < |s| ==>
                s[k] == Agent(nets[k], missles[k].State(), ge[k].fitness, ge[k])
    {
      AgentsUpTo(|missles|)
    }

    /** The genomes named by the cohort's records are the genome list itself. */
    lemma GenomesOfAgents()
      requires |nets| == |ge| == |missles|
      ensures GenomesOf(Agents()) == ge
    {
    }

    /** Where the records are those of a run (agents surviving, removed retired), the genome each
        record names holds that record's fitness. */
    lemma FitnessPaired(agents: seq<Agent>, removed: seq<Agent>)
      requires |nets| == |ge| == |missles|
      requires Agents() == agents
      requires retired == GenomesOf(removed) && RetiredFitness() == FitnessOf(removed)
      ensures forall k :: 0 <= k < |agents| ==> agents[k].genome.fitness == agents[k].fitness
      ensures forall k :: 0 <= k < |removed| ==> removed[k].genome.fitness == removed[k].fitness
    {
    }

    /** Entry x of the three lists as one record. */
    ghost function AgentAt(x: nat): Agent
      reads this, missles, ge
      requires x < |nets| == |ge| == |missles|
    {
      Agent(nets[x], missles[x].State(), ge[x].fitness, ge[x])
    }

    /** The fitness of every removed agent's genome, in removal order. */
    ghost function RetiredFitness(): (s: seq<int>)
      reads this, retired
      ensures |s| == |retired|
      ensures forall k :: 0 <= k < |s| ==> s[k] == retired[k].fitness
    {
      FitnessUpTo(retired, |retired|)
    }

    /** Every genome of the generation, live or removed. */
    ghost function Roster(): multiset<Genome>
      reads this
    {
      multiset(ge) + multiset(retired)
    }

    /** The set-up part of `eval_genomes`: each genome's fitness is set to 0, and its
        controller, a new seeker and the genome are appended to the three lists. */
    constructor (genomes: seq<Genome>, controllers: seq<Net>, seeds: seq<Seed>, angle: Bearing,
                 testing: bool)
      requires |controllers| == |genomes| == |seeds|
      requires Distinct(genomes)
      requires forall k :: 0 <= k < |seeds| ==> SeedOk(seeds[k])
      modifies set k | 0 <= k < |genomes| :: genomes[k]
      ensures Valid()
      ensures this.testing == testing && this.angle == angle
      ensures ge == genomes && nets == controllers && hits == [] && retired == []
      ensures forall k :: 0 <= k < |missles| ==>
                missles[k].State() == Spawned(seeds[k]) && genomes[k].fitness == 0
      ensures forall o :: o in Repr ==> fresh(o) || o in set k | 0 <= k < |genomes| :: genomes[k]
    {
      var ms := SpawnAll(genomes, seeds);
      this.testing := testing;
      this.angle := angle;
      nets, ge, missles, hits := controllers, genomes, ms, [];
      retired := [];
      Repr := (set k | 0 <= k < |ms| :: ms[k] as object) + (set k | 0 <= k < |genomes| :: genomes[k] as object);
    }

    /** First stage of the tick body for the agent at x: age countdown, flat penalty,
        controller query, `move`, turn penalty. */
    method MoveStage(x: nat, inp: StepInput)
      requires x < |nets| == |ge| == |missles|
      modifies missles[x], ge[x]
      ensures AgentAt(x) == AfterMove(old(AgentAt(x)), angle, inp)
    {
      var missle := missles[x];
      missle.age := missle.age - 1;
      ge[x].fitness := ge[x].fitness - TickPenalty;

      var output := nets[x](CalcDiff(angle(missle.rect.CenterX(), missle.rect.CenterY(),
                                           missle.flag.rect.CenterX(), missle.flag.rect.CenterY()),
                                     missle.rotation as real));
      missle.Move(output.0 > 0.5, output.1 > 0.5, inp.dx, inp.dy, inp.w, inp.h);
      if output.0 > 0.5 || output.1 > 0.5 {
        ge[x].fitness := ge[x].fitness - TurnPenalty;
      }
    }

    /** Second stage: the hit test against the seeker's flag. */
    method HitStage(x: nat, inp: StepInput)
      requires x < |nets| == |ge| == |missles| && InputOk(inp)
      modifies missles[x], ge[x]
      ensures AgentAt(x) == AfterHit(old(AgentAt(x)), inp)
    {
      var missle := missles[x];
      if Collides(missle.rect, missle.flag.rect) {
        ge[x].fitness := ge[x].fitness + HitReward;
        missle.age := AgeBudget;
        missle.flag := NewFlag(inp.flagX, inp.flagY);
        missle.hits := missle.hits + 1;
      }
    }

    /** Third stage: the two wall bounces. */
    method BounceStage(x: nat)
      requires x < |nets| == |ge| == |missles|
      modifies missles[x], ge[x]
      ensures AgentAt(x) == AfterBounce(old(AgentAt(x)))
    {
      var missle := missles[x];
      if missle.rect.Left() < 0 || missle.rect.Right() > WinWidth {
        ge[x].fitness := ge[x].fitness - WallPenalty;
        missle.rotation := (180 - missle.rotation) % 360;
      }
      if missle.rect.Top() < 0 || missle.rect.Bottom() > WinHeight {
        ge[x].fitness := ge[x].fitness - WallPenalty;
        missle.rotation := (-missle.rotation) % 360;
      }
    }

    /** Last stage: the clamp that keeps the seeker from getting stuck out of bounds. */
    method ClampStage(x: nat)
      requires x < |nets| == |ge| == |missles|
      modifies missles[x]
      ensures AgentAt(x) == AfterClamp(old(AgentAt(x)))
    {
      var missle := missles[x];
      if missle.rect.Left() < 0 {
        missle.rect := missle.rect.(x := 0);
      }
      if missle.rect.Right() > WinWidth {
        missle.rect := missle.rect.(x := WinWidth - missle.rect.w);
      }
      if missle.rect.Top() < 0 {
        missle.rect := missle.rect.(y := 0);
      }
      if missle.rect.Bottom() > WinHeight {
        missle.rect := missle.rect.(y := WinHeight - missle.rect.h);
      }
    }

    /** One seeker's share of the tick, the body of the `for` loop up to the removal rules:
        only the seeker at x and its genome change, and they change as `Step` says. */
    method StepAgent(x: nat, inp: StepInput)
      requires Valid() && x < |missles| && InputOk(inp)
      modifies missles[x], ge[x]
      ensures Valid()
      ensures AgentAt(x) == Step(old(AgentAt(x)), angle, inp)
    {
      MoveStage(x, inp);
      HitStage(x, inp);
      BounceStage(x);
      ClampStage(x);
      DistinctIff(missles);
      DistinctIff(ge);
      assert forall k :: 0 <= k < |missles| && k != x ==> missles[k] != missles[x] && ge[k] != ge[x];
    }

    /** `remove`: record the seeker's hits, then pop its index (found with `list.index`) from
        the controllers, the genomes and the seekers. The other agents keep their order and
        their pairing. */
    method Remove(missle: Missle, ghost x: nat)
      requires Valid() && x < |missles| && missles[x] == missle
      modifies this
      ensures Valid()
      ensures nets == Pop(old(nets), x) && ge == Pop(old(ge), x) && missles == Pop(old(missles), x)
      ensures hits == old(hits) + [missle.hits]
      ensures retired == old(retired) + [old(ge[x])]
      ensures Agents() == Pop(old(Agents()), x)
      ensures RetiredFitness() == old(RetiredFitness()) + [old(Agents()[x].fitness)]
      ensures Roster() == old(Roster())
    {
      // Each of the three pops looks the seeker up again; `missles` itself is popped last,
      // so all three lookups search the same list.
      var kNets := IndexOf(missles, missle);
      var kGe := IndexOf(missles, missle);
      var kMissles := IndexOf(missles, missle);
      IndexInDistinct(missles, x, kNets);
      IndexInDistinct(missles, x, kGe);
      IndexInDistinct(missles, x, kMissles);
      Drop(missle, kNets, kGe, kMissles);
    }

    /** The assignments of `remove` once the three indices are known. */
    method Drop(missle: Missle, kNets: nat, kGe: nat, kMissles: nat)
      requires Valid() && kNets < |missles| && kGe == kNets && kMissles == kNets
      requires missles[kNets] == missle
      modifies this
      ensures Valid()
      ensures nets == Pop(old(nets), kNets) && ge == Pop(old(ge), kNets)
      ensures missles == Pop(old(missles), kNets)
      ensures hits == old(hits) + [missle.hits]
      ensures retired == old(retired) + [old(ge[kNets])]
      ensures RetiredFitness() == old(RetiredFitness()) + [old(ge[kNets].fitness)]
      ensures Roster() == old(Roster())
    {
      MoveKeepsDistinct(ge, retired, kGe);
      PopKeepsDistinct(missles, kMissles);
      FitnessUpToAppend(retired, ge[kGe]);
      hits, nets, ge, missles, retired :=
        hits + [missle.hits], Pop(nets, kNets), Pop(ge, kGe), Pop(missles, kMissles), retired + [ge[kGe]];
    }

    /** The body of the `for` loop for position x: step the agent, then apply the removal
        rules, the fitness ceiling first (`continue` skips the age rule), then the age unless
        testing. Returns whether the agent was removed. */
    method TickBody(x: nat, inp: StepInput) returns (gone: bool)
      requires Valid() && x < |missles| && InputOk(inp)
      modifies this, missles[x], ge[x]
      ensures Valid()
      ensures var a := Step(old(Agents())[x], angle, inp);
        && gone == (FateOf(a, testing) != Stays)
        && (gone ==> && Agents() == Pop(old(Agents()), x)
                     && missles == Pop(old(missles), x) && ge == Pop(old(ge), x)
                     && hits == old(hits) + [a.missle.hits]
                     && RetiredFitness() == old(RetiredFitness()) + [a.fitness]
                     && retired == old(retired) + [a.genome])
        && (!gone ==> && Agents() == old(Agents())[x := a]
                      && missles == old(missles) && ge == old(ge)
                      && hits == old(hits) && RetiredFitness() == old(RetiredFitness())
                      && retired == old(retired))
      ensures Roster() == old(Roster())
    {
      ghost var a := Step(Agents()[x], angle, inp);
      ghost var retiredFitness := RetiredFitness();
      var missle := missles[x];
      DisjointIff(ge, retired);
      assert forall j :: 0 <= j < |retired| ==> retired[j] != ge[x];
      DistinctIff(missles);
      DistinctIff(ge);
      ghost var before := Agents();
      StepAgent(x, inp);
      assert RetiredFitness() == retiredFitness;
      assert Agents() == before[x := a];
      gone := false;
      if ge[x].fitness > FitnessCeiling {
        Remove(missle, x);
        gone := true;
      } else if missle.age < 0 && !testing {
        Remove(missle, x);
        gone := true;
      }
    }

    /** One visit of the `for` loop, at position i, together with where it leaves the rest of
        the pass: cur is the cohort before the visit, removed the agents the pass has removed
        so far, h0, f0 and g0 the removal records (hits, fitness, genomes) before the pass. */
    method Visit(i: nat, inputs: seq<StepInput>, ghost cur: seq<Agent>, ghost removed: seq<Agent>,
                 ghost goal: PassResult, ghost h0: seq<nat>, ghost f0: seq<int>,
                 ghost g0: seq<Genome>)
      returns (ghost cur': seq<Agent>, ghost removed': seq<Agent>)
      requires Valid() && cur == Agents() && i < |cur| <= |inputs| && InputsOk(inputs)
      requires PassTracks(cur, i, inputs, angle, testing, removed, goal)
      requires Recorded(h0, hits, f0, RetiredFitness(), g0, retired, removed)
      modifies this, missles[i], ge[i]
      ensures Valid() && cur' == Agents() && |cur'| <= |cur|
      ensures PassTracks(cur', i + 1, inputs, angle, testing, removed', goal)
      ensures Recorded(h0, hits, f0, RetiredFitness(), g0, retired, removed')
      ensures Roster() == old(Roster())
    {
      ghost var a := Step(cur[i], angle, inputs[i]);
      PassTracksStep(cur, i, inputs, angle, testing, removed, goal);
      RecordRemoval(h0, hits, f0, RetiredFitness(), g0, retired, removed, a);
      assert InputOk(inputs[i]);
      var gone := TickBody(i, inputs[i]);
      if gone {
        cur', removed' := Pop(cur, i), removed + [a];
      } else {
        cur', removed' := cur[i := a], removed;
      }
    }

    /** One tick: the `for x, missle in enumerate(missles)` loop. inputs[i] is used by the
        seeker stepped at position i. After a removal the loop still moves on to the next
        position, so the seeker that slid into the removed one's place waits a tick. */
    method OneTick(inputs: seq<StepInput>)
      requires Valid() && |missles| <= |inputs| && InputsOk(inputs)
      modifies this, Repr
      ensures Valid()
      ensures var r := Pass(old(Agents()), inputs, angle, testing);
              && Agents() == r.agents
              && Recorded(old(hits), hits, old(RetiredFitness()), RetiredFitness(), old(retired), retired,
                          r.removed)
      ensures Roster() == old(Roster())
    {
      ghost var cur := Agents();
      ghost var goal := Pass(cur, inputs, angle, testing);
      ghost var removed: seq<Agent> := [];
      ghost var h0, f0, g0, roster := hits, RetiredFitness(), retired, Roster();
      PassTracksStart(cur, inputs, angle, testing);
      RecordNone(h0, f0, g0);
      var i := 0;
      while i < |missles|
        invariant Valid() && cur == Agents() && |cur| <= |inputs|
        invariant PassTracks(cur, i, inputs, angle, testing, removed, goal)
        invariant Recorded(h0, hits, f0, RetiredFitness(), g0, retired, removed)
        invariant Roster() == roster
        decreases |missles| - i
      {
        cur, removed := Visit(i, inputs, cur, removed, goal, h0, f0, g0);
        i := i + 1;
      }
      PassTracksDone(cur, i, inputs, angle, testing, removed, goal);
    }

    /** One pass of the `while` loop: one tick, and where it leaves the rest of the run. cur
        is the cohort before the tick, removed the agents the run has removed so far, h0 and
        f0 and g0 the removal records (hits, fitness, genomes) before the run. */
    method Advance(script: seq<seq<StepInput>>, ticks: nat, ghost cur: seq<Agent>,
                   ghost removed: seq<Agent>, ghost goal: RunResult, ghost h0: seq<nat>,
                   ghost f0: seq<int>, ghost g0: seq<Genome>)
      returns (ghost cur': seq<Agent>, ghost removed': seq<Agent>)
      requires Valid() && cur == Agents() && |cur| > 0
      requires ticks < |script| && ScriptOk(script, |cur|)
      requires RunTracks(cur, script, ticks, angle, testing, removed, goal)
      requires Recorded(h0, hits, f0, RetiredFitness(), g0, retired, removed)
      modifies this, Repr
      ensures Valid() && cur' == Agents() && ScriptOk(script, |cur'|)
      ensures RunTracks(cur', script, ticks + 1, angle, testing, removed', goal)
      ensures Recorded(h0, hits, f0, RetiredFitness(), g0, retired, removed')
      ensures Roster() == old(Roster())
    {
      ghost var p := Pass(cur, script[ticks], angle, testing);
      RunTracksStep(cur, script, ticks, angle, testing, removed, goal);
      ghost var h1, f1, g1 := hits, RetiredFitness(), retired;
      OneTick(script[ticks]);
      RecordMore(h0, h1, hits, f0, f1, RetiredFitness(), g0, g1, retired, removed, p.removed);
      cur', removed' := p.agents, removed + p.removed;
    }

    /** The `while run and len(missles) > 0` loop: ticks run until the cohort is empty or the
        script of ticks ends (the external stop). Returns the number of ticks run. */
    method RunGeneration(script: seq<seq<StepInput>>) returns (ticks: nat)
      requires Valid() && ScriptOk(script, |missles|)
      modifies this, Repr
      ensures Valid()
      ensures var r := Run(old(Agents()), script, angle, testing);
              && Agents() == r.agents && ticks == r.ticks
              && Recorded(old(hits), hits, old(RetiredFitness()), RetiredFitness(), old(retired), retired,
                          r.removed)
      ensures Roster() == old(Roster())
    {
      ghost var cur := Agents();
      ghost var goal := Run(cur, script, angle, testing);
      RunTracksStart(cur, script, angle, testing);
      RecordNone(hits, RetiredFitness(), retired);
      ghost var removed;
      ticks, cur, removed := RunTicks(script, cur, goal, hits, RetiredFitness(), retired);
      RunTracksDone(cur, script, ticks, angle, testing, removed, goal);
    }

    /** The iterations of the `while` loop, from the start of the run to its end. */
    method RunTicks(script: seq<seq<StepInput>>, ghost cur0: seq<Agent>, ghost goal: RunResult,
                ghost h0: seq<nat>, ghost f0: seq<int>, ghost g0: seq<Genome>)
      returns (ticks: nat, ghost cur: seq<Agent>, ghost removed: seq<Agent>)
      requires Valid() && cur0 == Agents() && ScriptOk(script, |cur0|)
      requires RunTracks(cur0, script, 0, angle, testing, [], goal)
      requires Recorded(h0, hits, f0, RetiredFitness(), g0, retired, [])
      modifies this, Repr
      ensures Valid() && cur == Agents()
      ensures ticks <= |script| && ScriptOk(script, |cur|) && (ticks == |script| || cur == [])
      ensures RunTracks(cur, script, ticks, angle, testing, removed, goal)
      ensures Recorded(h0, hits, f0, RetiredFitness(), g0, retired, removed)
      ensures Roster() == old(Roster())
    {
      cur, removed := cur0, [];
      ticks := 0;
      while ticks < |script| && |missles| > 0
        invariant Valid() && cur == Agents()
        invariant ticks <= |script| && ScriptOk(script, |cur|)
        invariant RunTracks(cur, script, ticks, angle, testing, removed, goal)
        invariant Recorded(h0, hits, f0, RetiredFitness(), g0, retired, removed)
        invariant Roster() == old(Roster())
        decreases |script| - ticks
      {
        cur, removed := Advance(script, ticks, cur, removed, goal, h0, f0, g0);
        ticks := ticks + 1;
      }
    }
  }

  /** The set-up loop of `eval_genomes`: for each genome in turn its fitness is set to 0 and a
      new seeker is created from its random draws. */
  method SpawnAll(genomes: seq<Genome>, seeds: seq<Seed>) returns (ms: seq<Missle>)
    requires |genomes| == |seeds|
    requires forall k :: 0 <= k < |seeds| ==> SeedOk(seeds[k])
    modifies set k | 0 <= k < |genomes| :: genomes[k]
    ensures |ms| == |genomes| && Distinct(ms)
    ensures forall k :: 0 <= k < |ms| ==> fresh(ms[k]) && ms[k].State() == Spawned(seeds[k])
    ensures forall k :: 0 <= k < |genomes| ==> genomes[k].fitness == 0
  {
    ms := [];
    var n := 0;
    while n < |genomes|
      invariant n <= |genomes| && |ms| == n
      invariant forall k :: 0 <= k < n ==> fresh(ms[k])
      invariant Distinct(ms)
      invariant forall k :: 0 <= k < n ==> genomes[k].fitness == 0
      invariant forall k :: 0 <= k < n ==> ms[k].State() == Spawned(seeds[k])
    {
      genomes[n].fitness := 0;
      var m := new Missle(seeds[n]);
      AppendKeepsDistinct(ms, m);
      ms := ms + [m];
      n := n + 1;
    }
  }

  /** `eval_genomes(genomes, config, testing)`: build the cohort, then run the generation.
      Afterwards the live genomes are those of the agents `Cohort.Run` keeps, at their positions,
      the retired genomes are those of the agents it removes, in removal order, and every genome
      holds the fitness of its own agent. */
  method EvalGenomes(genomes: seq<Genome>, controllers: seq<Net>, seeds: seq<Seed>,
                     angle: Bearing, script: seq<seq<StepInput>>, testing: bool)
    returns (e: Evaluator, ticks: nat)
    requires |controllers| == |genomes| == |seeds|
    requires Distinct(genomes)
    requires forall k :: 0 <= k < |seeds| ==> SeedOk(seeds[k])
    requires ScriptOk(script, |genomes|)
    modifies set k | 0 <= k < |genomes| :: genomes[k]
    ensures e.Valid()
    ensures var r := Run(Initial(genomes, controllers, seeds), script, angle, testing);
            && e.Agents() == r.agents && ticks == r.ticks
            && e.ge == GenomesOf(r.agents) && e.retired == GenomesOf(r.removed)
            && e.hits == HitsOf(r.removed) && e.RetiredFitness() == FitnessOf(r.removed)
    ensures var r := Run(Initial(genomes, controllers, seeds), script, angle, testing);
            && (forall k :: 0 <= k < |r.agents| ==> r.agents[k].genome.fitness == r.agents[k].fitness)
            && (forall k :: 0 <= k < |r.removed| ==> r.removed[k].genome.fitness == r.removed[k].fitness)
    ensures e.Roster() == multiset(genomes)
  {
    e := new Evaluator(genomes, controllers, seeds, angle, testing);
    assert e.Agents() == Initial(genomes, controllers, seeds);
    ticks := e.RunGeneration(script);
    e.GenomesOfAgents();
    e.FitnessPaired(e.Agents(), Run(Initial(genomes, controllers, seeds), script, angle, testing).removed);
  }
}
