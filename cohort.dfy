/** The cohort as a sequence of agents, and what one tick and a whole run do to it, as functions
    on values. `Evaluation.Evaluator` keeps the cohort in three index-aligned lists and is proved
    to follow these functions. */
module Cohort {
  import opened Missiles
  import opened Tick
  import opened Lists

  predicate InputsOk(inputs: seq<StepInput>) {
    forall k :: 0 <= k < |inputs| ==> InputOk(inputs[k])
  }

  predicate AllOk(agents: seq<Agent>) {
    forall k :: 0 <= k < |agents| ==> MissleOk(agents[k].missle)
  }

  /** The cohort `eval_genomes` builds: agent k gets genome k, controller k, a fresh seeker
      from its random draws and fitness 0. */
  function Initial(genomes: seq<Genome>, controllers: seq<Net>, seeds: seq<Seed>): (s: seq<Agent>)
    requires |controllers| == |genomes| == |seeds|
    requires forall k :: 0 <= k < |seeds| ==> SeedOk(seeds[k])
    ensures |s| == |seeds| && AllOk(s) && GenomesOf(s) == genomes
    ensures forall k :: 0 <= k < |s| ==>
              && s[k].genome == genomes[k] && s[k].net == controllers[k]
              && s[k].missle == Spawned(seeds[k]) && s[k].fitness == 0
  {
    seq(|seeds|, k requires 0 <= k < |seeds| =>
                   Agent(controllers[k], Spawned(seeds[k]), 0, genomes[k]))
  }

  /** The genomes of a sequence of agents, in order. */
  function GenomesOf(agents: seq<Agent>): (s: seq<Genome>)
    ensures |s| == |agents|
    ensures forall k :: 0 <= k < |s| ==> s[k] == agents[k].genome
  {
    seq(|agents|, k requires 0 <= k < |agents| => agents[k].genome)
  }

  /** The hit counts of a sequence of agents, in order. */
  function HitsOf(agents: seq<Agent>): (s: seq<nat>)
    ensures |s| == |agents|
    ensures forall k :: 0 <= k < |s| ==> s[k] == agents[k].missle.hits
  {
    seq(|agents|, k requires 0 <= k < |agents| => agents[k].missle.hits)
  }

  /** The fitness values of a sequence of agents, in order. */
  function FitnessOf(agents: seq<Agent>): (s: seq<int>)
    ensures |s| == |agents|
    ensures forall k :: 0 <= k < |s| ==> s[k] == agents[k].fitness
  {
    seq(|agents|, k requires 0 <= k < |agents| => agents[k].fitness)
  }

  /** Recording one more removed agent appends its hit count, its fitness and its genome. */
  lemma RecordOneMore(removed: seq<Agent>, a: Agent)
    ensures HitsOf(removed + [a]) == HitsOf(removed) + [a.missle.hits]
    ensures FitnessOf(removed + [a]) == FitnessOf(removed) + [a.fitness]
    ensures GenomesOf(removed + [a]) == GenomesOf(removed) + [a.genome]
  {
  }

  /** The removal records: the hit counts h1, the fitness values f1 and the retired genomes g1
      extend h0, f0 and g0 by those of the removed agents, in removal order. */
  predicate Recorded(h0: seq<nat>, h1: seq<nat>, f0: seq<int>, f1: seq<int>,
                     g0: seq<Genome>, g1: seq<Genome>, removed: seq<Agent>) {
    h1 == h0 + HitsOf(removed) && f1 == f0 + FitnessOf(removed) && g1 == g0 + GenomesOf(removed)
  }

  /** Recording one more removed agent appends its hit count, its fitness and its genome to the
      records. */
  lemma RecordRemoval(h0: seq<nat>, h1: seq<nat>, f0: seq<int>, f1: seq<int>,
                      g0: seq<Genome>, g1: seq<Genome>, removed: seq<Agent>, a: Agent)
    requires Recorded(h0, h1, f0, f1, g0, g1, removed)
    ensures Recorded(h0, h1 + [a.missle.hits], f0, f1 + [a.fitness], g0, g1 + [a.genome],
                     removed + [a])
  {
    RecordOneMore(removed, a);
    AppendAssoc(h0, HitsOf(removed), [a.missle.hits]);
    AppendAssoc(f0, FitnessOf(removed), [a.fitness]);
    AppendAssoc(g0, GenomesOf(removed), [a.genome]);
  }

  /** Records extended by no removal are unchanged. */
  lemma RecordNone(h: seq<nat>, f: seq<int>, g: seq<Genome>)
    ensures Recorded(h, h, f, f, g, g, [])
  {
    assert h + HitsOf([]) == h;
    assert f + FitnessOf([]) == f;
    assert g + GenomesOf([]) == g;
  }

  /** Records extended by one batch of removals and then by another are extended by both. */
  lemma RecordMore(h0: seq<nat>, h1: seq<nat>, h2: seq<nat>, f0: seq<int>, f1: seq<int>,
                   f2: seq<int>, g0: seq<Genome>, g1: seq<Genome>, g2: seq<Genome>,
                   removed: seq<Agent>, more: seq<Agent>)
    requires Recorded(h0, h1, f0, f1, g0, g1, removed) && Recorded(h1, h2, f1, f2, g1, g2, more)
    ensures Recorded(h0, h2, f0, f2, g0, g2, removed + more)
  {
    assert HitsOf(removed + more) == HitsOf(removed) + HitsOf(more);
    assert FitnessOf(removed + more) == FitnessOf(removed) + FitnessOf(more);
    assert GenomesOf(removed + more) == GenomesOf(removed) + GenomesOf(more);
    AppendAssoc(h0, HitsOf(removed), HitsOf(more));
    AppendAssoc(f0, FitnessOf(removed), FitnessOf(more));
    AppendAssoc(g0, GenomesOf(removed), GenomesOf(more));
  }

  /** Each agent removed during a pass or a run, with the state it was removed in. */
  predicate AllRemovable(removed: seq<Agent>, testing: bool) {
    forall k :: 0 <= k < |removed| ==> FateOf(removed[k], testing) != Stays
  }

  /** The cohort after a pass and the agents the pass removed, in removal order. */
  datatype PassResult = PassResult(agents: seq<Agent>, removed: seq<Agent>)

  /** The rest of one tick's `for x, missle in enumerate(missles)` loop, with the iterator at
      position i of the current list. The agent at i is stepped; if a removal rule applies it is
      popped, and the iterator still moves on to i + 1, so the agent that slid into position i
      is not stepped in this tick. inputs[i] is what the agent stepped at position i needs. */
  function PassFrom(agents: seq<Agent>, i: nat, inputs: seq<StepInput>, angle: Bearing,
                    testing: bool): (r: PassResult)
    requires |agents| <= |inputs| && InputsOk(inputs)
    ensures |r.agents| + |r.removed| == |agents|
    ensures i <= |agents| ==> |r.agents| >= i && r.agents[..i] == agents[..i]
    decreases |agents| - i
  {
    if i >= |agents| then PassResult(agents, [])
    else
      var a := Step(agents[i], angle, inputs[i]);
      if FateOf(a, testing) != Stays then
        var rest := Pop(agents, i);
        var r := PassFrom(rest, i + 1, inputs, angle, testing);
        assert rest[..i] == agents[..i];
        PassResult(r.agents, [a] + r.removed)
      else
        var r := PassFrom(agents[i := a], i + 1, inputs, angle, testing);
        assert agents[i := a][..i] == agents[..i];
        r
  }

  /** One iteration of the pass: what stepping position i does to the rest of the pass. */
  lemma PassFromUnfold(agents: seq<Agent>, i: nat, inputs: seq<StepInput>, angle: Bearing,
                       testing: bool, a: Agent)
    requires |agents| <= |inputs| && InputsOk(inputs) && i < |agents|
    requires a == Step(agents[i], angle, inputs[i])
    ensures FateOf(a, testing) != Stays ==>
              && PassFrom(agents, i, inputs, angle, testing).agents
                 == PassFrom(Pop(agents, i), i + 1, inputs, angle, testing).agents
              && PassFrom(agents, i, inputs, angle, testing).removed
                 == [a] + PassFrom(Pop(agents, i), i + 1, inputs, angle, testing).removed
    ensures FateOf(a, testing) == Stays ==>
              PassFrom(agents, i, inputs, angle, testing)
              == PassFrom(agents[i := a], i + 1, inputs, angle, testing)
  {
  }

  /** Popping an agent keeps the rest of the cohort well-formed. */
  lemma AllOkPop(agents: seq<Agent>, i: nat)
    requires i < |agents|
    ensures AllOk(agents) ==> AllOk(Pop(agents, i))
  {
  }

  /** Replacing an agent by a well-formed one keeps the cohort well-formed. */
  lemma AllOkUpdate(agents: seq<Agent>, i: nat, a: Agent)
    requires i < |agents|
    ensures AllOk(agents) && MissleOk(a.missle) ==> AllOk(agents[i := a])
  {
  }

  /** Putting a removable agent in front of a list of removable agents. */
  lemma RemovedCons(a: Agent, removed: seq<Agent>, testing: bool)
    requires FateOf(a, testing) != Stays && AllRemovable(removed, testing)
    ensures AllRemovable([a] + removed, testing)
    ensures MissleOk(a.missle) && AllOk(removed) ==> AllOk([a] + removed)
  {
  }

  /** Every agent a pass removes met a removal rule, and a pass keeps every seeker's state
      well-formed, in the cohort and in the removed list alike. */
  lemma {:induction false} PassFromKeeps(agents: seq<Agent>, i: nat, inputs: seq<StepInput>,
                                         angle: Bearing, testing: bool)
    requires |agents| <= |inputs| && InputsOk(inputs)
    ensures AllRemovable(PassFrom(agents, i, inputs, angle, testing).removed, testing)
    ensures AllOk(agents) ==> && AllOk(PassFrom(agents, i, inputs, angle, testing).agents)
                              && AllOk(PassFrom(agents, i, inputs, angle, testing).removed)
    decreases |agents| - i
  {
    if i < |agents| {
      var a := Step(agents[i], angle, inputs[i]);
      PassFromUnfold(agents, i, inputs, angle, testing, a);
      if FateOf(a, testing) != Stays {
        var rest := Pop(agents, i);
        PassFromKeeps(rest, i + 1, inputs, angle, testing);
        AllOkPop(agents, i);
        RemovedCons(a, PassFrom(rest, i + 1, inputs, angle, testing).removed, testing);
      } else {
        PassFromKeeps(agents[i := a], i + 1, inputs, angle, testing);
        AllOkUpdate(agents, i, a);
      }
    }
  }

  /** Popping an agent takes exactly its genome out of the cohort's genomes. */
  lemma PopGenomes(agents: seq<Agent>, i: nat)
    requires i < |agents|
    ensures multiset(GenomesOf(Pop(agents, i))) + multiset{agents[i].genome}
            == multiset(GenomesOf(agents))
  {
    var g := GenomesOf(agents);
    assert GenomesOf(Pop(agents, i)) == g[..i] + g[i + 1..];
    assert g == g[..i] + [g[i]] + g[i + 1..];
  }

  /** Replacing an agent by one with the same genome leaves the cohort's genomes alone. */
  lemma UpdateGenomes(agents: seq<Agent>, i: nat, a: Agent)
    requires i < |agents| && a.genome == agents[i].genome
    ensures GenomesOf(agents[i := a]) == GenomesOf(agents)
  {
  }

  /** The genomes of two cohorts placed one after the other. */
  lemma GenomesOfAppend(x: seq<Agent>, y: seq<Agent>)
    ensures multiset(GenomesOf(x + y)) == multiset(GenomesOf(x)) + multiset(GenomesOf(y))
  {
    assert GenomesOf(x + y) == GenomesOf(x) + GenomesOf(y);
  }

  /** When the agent at i is removed, its genome moves from the cohort to the front of the
      removed list. */
  lemma RemovedGenomes(agents: seq<Agent>, i: nat, a: Agent, kept: seq<Agent>, removed: seq<Agent>)
    requires i < |agents| && a.genome == agents[i].genome
    requires multiset(GenomesOf(kept)) + multiset(GenomesOf(removed))
             == multiset(GenomesOf(Pop(agents, i)))
    ensures multiset(GenomesOf(kept)) + multiset(GenomesOf([a] + removed))
            == multiset(GenomesOf(agents))
  {
    PopGenomes(agents, i);
    GenomesOfAppend([a], removed);
    assert GenomesOf([a]) == [a.genome];
  }

  /** A pass neither loses, duplicates nor swaps genomes: the genomes of the survivors and of
      the removed agents are exactly those of the cohort. */
  lemma {:induction false} PassFromKeepsGenomes(agents: seq<Agent>, i: nat, inputs: seq<StepInput>,
                                                angle: Bearing, testing: bool)
    requires |agents| <= |inputs| && InputsOk(inputs)
    ensures var r := PassFrom(agents, i, inputs, angle, testing);
            multiset(GenomesOf(r.agents)) + multiset(GenomesOf(r.removed))
            == multiset(GenomesOf(agents))
    decreases |agents| - i
  {
    if i < |agents| {
      var a := Step(agents[i], angle, inputs[i]);
      PassFromUnfold(agents, i, inputs, angle, testing, a);
      if FateOf(a, testing) != Stays {
        var rest := Pop(agents, i);
        var r := PassFrom(rest, i + 1, inputs, angle, testing);
        PassFromKeepsGenomes(rest, i + 1, inputs, angle, testing);
        RemovedGenomes(agents, i, a, r.agents, r.removed);
      } else {
        PassFromKeepsGenomes(agents[i := a], i + 1, inputs, angle, testing);
        UpdateGenomes(agents, i, a);
      }
    }
  }

  /** The state of a pass part-way: with the iterator at i of cur and removed already
      taken out, the rest of the pass ends where the whole pass (goal) ends. */
  ghost predicate PassTracks(cur: seq<Agent>, i: nat, inputs: seq<StepInput>, angle: Bearing,
                       testing: bool, removed: seq<Agent>, goal: PassResult)
    requires |cur| <= |inputs| && InputsOk(inputs)
  {
    var r := PassFrom(cur, i, inputs, angle, testing);
    r.agents == goal.agents && removed + r.removed == goal.removed
  }

  /** Before the first visit the pass is on track for itself. */
  lemma PassTracksStart(cur: seq<Agent>, inputs: seq<StepInput>, angle: Bearing, testing: bool)
    requires |cur| <= |inputs| && InputsOk(inputs)
    ensures PassTracks(cur, 0, inputs, angle, testing, [], Pass(cur, inputs, angle, testing))
  {
    assert [] + Pass(cur, inputs, angle, testing).removed == Pass(cur, inputs, angle, testing).removed;
  }

  /** Stepping position i keeps the pass on track: a removed agent moves to the removed list
      and the iterator passes over the next one, a kept agent is replaced by its stepped self. */
  lemma PassTracksStep(cur: seq<Agent>, i: nat, inputs: seq<StepInput>, angle: Bearing,
                       testing: bool, removed: seq<Agent>, goal: PassResult)
    requires |cur| <= |inputs| && InputsOk(inputs) && i < |cur|
    requires PassTracks(cur, i, inputs, angle, testing, removed, goal)
    ensures var a := Step(cur[i], angle, inputs[i]);
            && (FateOf(a, testing) != Stays ==>
                  PassTracks(Pop(cur, i), i + 1, inputs, angle, testing, removed + [a], goal))
            && (FateOf(a, testing) == Stays ==>
                  PassTracks(cur[i := a], i + 1, inputs, angle, testing, removed, goal))
  {
    var a := Step(cur[i], angle, inputs[i]);
    PassFromUnfold(cur, i, inputs, angle, testing, a);
    if FateOf(a, testing) != Stays {
      AppendAssoc(removed, [a], PassFrom(Pop(cur, i), i + 1, inputs, angle, testing).removed);
    }
  }

  /** Once the iterator has run off the end, the cohort and the removed list are the pass's. */
  lemma PassTracksDone(cur: seq<Agent>, i: nat, inputs: seq<StepInput>, angle: Bearing,
                       testing: bool, removed: seq<Agent>, goal: PassResult)
    requires |cur| <= |inputs| && InputsOk(inputs) && i >= |cur|
    requires PassTracks(cur, i, inputs, angle, testing, removed, goal)
    ensures cur == goal.agents && removed == goal.removed
  {
  }

  /** One tick over the whole cohort. */
  function Pass(agents: seq<Agent>, inputs: seq<StepInput>, angle: Bearing, testing: bool)
    : (r: PassResult)
    requires |agents| <= |inputs| && InputsOk(inputs)
    ensures |r.agents| + |r.removed| == |agents|
  {
    PassFrom(agents, 0, inputs, angle, testing)
  }

  /** When the agent at position i is removed, the next agent slides into position i and is
      left exactly as it was by the rest of the pass: it skips this tick. */
  lemma SkipAfterRemoval(agents: seq<Agent>, i: nat, inputs: seq<StepInput>, angle: Bearing,
                         testing: bool)
    requires |agents| <= |inputs| && InputsOk(inputs)
    requires i + 1 < |agents|
    requires FateOf(Step(agents[i], angle, inputs[i]), testing) != Stays
    ensures |PassFrom(agents, i, inputs, angle, testing).agents| > i
    ensures PassFrom(agents, i, inputs, angle, testing).agents[i] == agents[i + 1]
  {
    var rest := Pop(agents, i);
    var r := PassFrom(rest, i + 1, inputs, angle, testing);
    assert r.agents[..i + 1] == rest[..i + 1];
    assert rest[i] == agents[i + 1];
    assert r.agents[i] == r.agents[..i + 1][i];
  }

  /** An agent at position i that survives its step is found, stepped, at position i after the
      pass. */
  lemma SurvivorStepped(agents: seq<Agent>, i: nat, inputs: seq<StepInput>, angle: Bearing,
                        testing: bool)
    requires |agents| <= |inputs| && InputsOk(inputs)
    requires i < |agents|
    requires FateOf(Step(agents[i], angle, inputs[i]), testing) == Stays
    ensures |PassFrom(agents, i, inputs, angle, testing).agents| > i
    ensures PassFrom(agents, i, inputs, angle, testing).agents[i] == Step(agents[i], angle, inputs[i])
  {
    var a := Step(agents[i], angle, inputs[i]);
    var r := PassFrom(agents[i := a], i + 1, inputs, angle, testing);
    assert r.agents[..i + 1] == agents[i := a][..i + 1];
    assert r.agents[i] == r.agents[..i + 1][i];
  }

  /** True when every tick of the script has an input for each of up to n agents. */
  predicate ScriptOk(script: seq<seq<StepInput>>, n: nat) {
    forall t :: 0 <= t < |script| ==> n <= |script[t]| && InputsOk(script[t])
  }

  /** The cohort at the end of a run, every agent removed on the way (in removal order) and the
      number of ticks run. */
  datatype RunResult = RunResult(agents: seq<Agent>, removed: seq<Agent>, ticks: nat)

  /** `while run and len(missles) > 0`: ticks run while the cohort is non-empty; the end of the
      script stands for the external stop. */
  function Run(agents: seq<Agent>, script: seq<seq<StepInput>>, angle: Bearing, testing: bool)
    : (r: RunResult)
    requires ScriptOk(script, |agents|)
    ensures |r.agents| + |r.removed| == |agents|
    ensures r.ticks <= |script|
    ensures r.ticks < |script| ==> r.agents == []
    decreases |script|
  {
    if |agents| == 0 || |script| == 0 then RunResult(agents, [], 0)
    else
      var p := Pass(agents, script[0], angle, testing);
      var q := Run(p.agents, script[1..], angle, testing);
      RunResult(q.agents, p.removed + q.removed, q.ticks + 1)
  }

  /** Every agent a run removes met a removal rule when it was removed, and a run keeps every
      seeker's state well-formed. */
  lemma {:induction false} RunKeeps(agents: seq<Agent>, script: seq<seq<StepInput>>,
                                    angle: Bearing, testing: bool)
    requires ScriptOk(script, |agents|)
    ensures AllRemovable(Run(agents, script, angle, testing).removed, testing)
    ensures AllOk(agents) ==> && AllOk(Run(agents, script, angle, testing).agents)
                              && AllOk(Run(agents, script, angle, testing).removed)
    decreases |script|
  {
    if |agents| > 0 && |script| > 0 {
      var p := Pass(agents, script[0], angle, testing);
      PassFromKeeps(agents, 0, script[0], angle, testing);
      RunKeeps(p.agents, script[1..], angle, testing);
    }
  }

  /** A run neither loses, duplicates nor swaps genomes. */
  lemma {:induction false} RunKeepsGenomes(agents: seq<Agent>, script: seq<seq<StepInput>>,
                                           angle: Bearing, testing: bool)
    requires ScriptOk(script, |agents|)
    ensures var r := Run(agents, script, angle, testing);
            multiset(GenomesOf(r.agents)) + multiset(GenomesOf(r.removed))
            == multiset(GenomesOf(agents))
    decreases |script|
  {
    if |agents| > 0 && |script| > 0 {
      var p := Pass(agents, script[0], angle, testing);
      var q := Run(p.agents, script[1..], angle, testing);
      assert Run(agents, script, angle, testing).agents == q.agents;
      assert Run(agents, script, angle, testing).removed == p.removed + q.removed;
      PassFromKeepsGenomes(agents, 0, script[0], angle, testing);
      RunKeepsGenomes(p.agents, script[1..], angle, testing);
      GenomesOfAppend(p.removed, q.removed);
    }
  }

  /** A generation started from distinct genomes accounts for each of them exactly once: every
      input genome names exactly one record, surviving or removed, and no other genome appears. */
  lemma EveryGenomeOnce(genomes: seq<Genome>, controllers: seq<Net>, seeds: seq<Seed>,
                        script: seq<seq<StepInput>>, angle: Bearing, testing: bool)
    requires |controllers| == |genomes| == |seeds|
    requires forall k :: 0 <= k < |seeds| ==> SeedOk(seeds[k])
    requires Distinct(genomes)
    requires ScriptOk(script, |genomes|)
    ensures var r := Run(Initial(genomes, controllers, seeds), script, angle, testing);
            var all := multiset(GenomesOf(r.agents)) + multiset(GenomesOf(r.removed));
            && all == multiset(genomes)
            && forall j :: 0 <= j < |genomes| ==> all[genomes[j]] == 1
  {
    var s := Initial(genomes, controllers, seeds);
    RunKeepsGenomes(s, script, angle, testing);
    forall j | 0 <= j < |genomes|
      ensures multiset(genomes)[genomes[j]] == 1
    {
      DistinctOnce(genomes, j);
    }
  }

  /** The state of a run part-way: after `ticks` ticks of the script, with cohort cur and
      removed already taken out, the rest of the run ends where the whole run (goal) ends. */
  ghost predicate RunTracks(cur: seq<Agent>, script: seq<seq<StepInput>>, ticks: nat,
                            angle: Bearing, testing: bool, removed: seq<Agent>, goal: RunResult)
    requires ticks <= |script| && ScriptOk(script, |cur|)
  {
    var r := Run(cur, script[ticks..], angle, testing);
    r.agents == goal.agents && removed + r.removed == goal.removed && ticks + r.ticks == goal.ticks
  }

  /** Before the first tick the run is on track for itself. */
  lemma RunTracksStart(cur: seq<Agent>, script: seq<seq<StepInput>>, angle: Bearing, testing: bool)
    requires ScriptOk(script, |cur|)
    ensures RunTracks(cur, script, 0, angle, testing, [], Run(cur, script, angle, testing))
  {
    assert script[0..] == script;
    assert [] + Run(cur, script, angle, testing).removed == Run(cur, script, angle, testing).removed;
  }

  /** A script stays usable for a cohort that shrank. */
  lemma ScriptOkShrinks(script: seq<seq<StepInput>>, n: nat, m: nat)
    requires ScriptOk(script, n) && m <= n
    ensures ScriptOk(script, m)
  {
  }

  /** One more tick keeps the run on track: the cohort becomes the pass's cohort and the pass's
      removals are appended. */
  lemma RunTracksStep(cur: seq<Agent>, script: seq<seq<StepInput>>, ticks: nat, angle: Bearing,
                      testing: bool, removed: seq<Agent>, goal: RunResult)
    requires ticks < |script| && ScriptOk(script, |cur|) && |cur| > 0
    requires RunTracks(cur, script, ticks, angle, testing, removed, goal)
    ensures var p := Pass(cur, script[ticks], angle, testing);
            && ScriptOk(script, |p.agents|)
            && RunTracks(p.agents, script, ticks + 1, angle, testing, removed + p.removed, goal)
  {
    var p := Pass(cur, script[ticks], angle, testing);
    ScriptOkShrinks(script, |cur|, |p.agents|);
    assert script[ticks..][1..] == script[ticks + 1..];
    var q := Run(p.agents, script[ticks + 1..], angle, testing);
    AppendAssoc(removed, p.removed, q.removed);
  }

  /** Once the cohort is empty or the script has ended, the cohort, the removed list and the
      tick count are the run's. */
  lemma RunTracksDone(cur: seq<Agent>, script: seq<seq<StepInput>>, ticks: nat, angle: Bearing,
                      testing: bool, removed: seq<Agent>, goal: RunResult)
    requires ticks <= |script| && ScriptOk(script, |cur|) && (ticks == |script| || cur == [])
    requires RunTracks(cur, script, ticks, angle, testing, removed, goal)
    ensures cur == goal.agents && removed == goal.removed && ticks == goal.ticks
  {
  }

  /** In testing mode age never removes anyone: every agent a run removes has passed the
      fitness ceiling. */
  lemma TestingRemovesOnlyAtCeiling(agents: seq<Agent>, script: seq<seq<StepInput>>,
                                    angle: Bearing)
    requires ScriptOk(script, |agents|)
    ensures var r := Run(agents, script, angle, true);
            forall k :: 0 <= k < |r.removed| ==> r.removed[k].fitness > FitnessCeiling
  {
    var r := Run(agents, script, angle, true);
    RunKeeps(agents, script, angle, true);
    forall k | 0 <= k < |r.removed|
      ensures r.removed[k].fitness > FitnessCeiling
    {
      FateRules(r.removed[k], true);
    }
  }

  /** An empty cohort ends the run before any tick. */
  lemma EmptyCohortStops(script: seq<seq<StepInput>>, angle: Bearing, testing: bool)
    requires ScriptOk(script, 0)
    ensures Run([], script, angle, testing) == RunResult([], [], 0)
  {
  }
}
