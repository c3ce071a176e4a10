/**
 * The generational loop of the genetic algorithm.
 *
 * Every generation scores each individual by its makespan, then builds
 * `P / 2` pairs of children: two tournaments of size 2 pick the parents, a
 * coin decides whether they are crossed over (otherwise the children are
 * the parents themselves), and two more coins decide whether each child is
 * mutated in place.  The children replace the whole population.  At the end
 * the individual with the smallest makespan, the first one on ties, is
 * returned with its makespan and timetable.
 *
 * Every random draw is an input.  A draw from an empty range raises in the
 * program; here it is an error result, and the first one met ends the run.
 */
module Genetic {
  import opened JobShop
  import opened Simulator
  import opened Timetable
  import opened Encoding
  import opened Selection

  datatype Option<T> = None | Some(value: T)

  /** The number of contestants in each tournament. */
  const TournamentSize: nat := 2

  /** The draws of one mutation: the gene, the slot in its assignment and
      the new machine. */
  datatype MutationDraw = MutationDraw(pos: int, slot: int, machine: int)

  /** The draws of one round: the two tournament samples, the crossover coin
      and cut point, and the coin and draws of each child's mutation. */
  datatype RoundDraws = RoundDraws(
    sample1: seq<nat>, sample2: seq<nat>,
    cross: bool, cut: int,
    mutate1: bool, mutation1: MutationDraw,
    mutate2: bool, mutation2: MutationDraw)

  /** The result of a run: the best individual, its makespan and timetable. */
  datatype Best = Best(individual: Individual, makespan: real, table: seq<Entry>)

  /** `range(P)` is empty for a negative `P`. */
  function Clamp(p: int): nat
  {
    if p < 0 then 0 else p
  }

  /** Pairs of children per generation: `P // 2`, or none when `P` is
      negative. */
  function Pairs(p: int): nat
  {
    if p < 0 then 0 else p / 2
  }

  /** The population size after `g` generations. */
  function PopulationSize(p: int, g: nat): nat
  {
    if g == 0 then Clamp(p) else 2 * Pairs(p)
  }

  /** All assignment lists of a population. */
  function Arrays(pop: seq<Individual>): set<array<nat>>
  {
    set x, i | 0 <= x < |pop| && 0 <= i < |pop[x]| :: pop[x][i].machines
  }

  ghost predicate ValidPopulation(inst: Instance, pop: seq<Individual>)
    reads set x, i | 0 <= x < |pop| && 0 <= i < |pop[x]| :: pop[x][i].machines
  {
    forall x :: 0 <= x < |pop| ==> ValidIndividual(inst, pop[x])
  }

  // ---------------------------------------------------------------------
  // Draws and the errors they cause
  // ---------------------------------------------------------------------

  /** A mutation of a well-formed individual fails when it has no gene to
      draw or the drawn gene has no slot. */
  ghost predicate MutationFails(inst: Instance, m: MutationDraw)
    requires forall j :: j in inst.jobOrder ==> j in inst.jobs
  {
    |inst.jobOrder| == 0 || (0 <= m.pos < |inst.jobOrder| && |inst.jobs[inst.jobOrder[m.pos]]| == 0)
  }

  /** Mutation draws on a well-formed individual that lie in their ranges. */
  ghost predicate MutationDrawFits(inst: Instance, m: MutationDraw)
    requires inst.Valid()
  {
    var n := |inst.jobOrder|;
    && (n > 0 ==> 0 <= m.pos < n)
    && (n > 0 && |inst.jobs[inst.jobOrder[m.pos]]| > 0 ==>
          && 0 <= m.slot < |inst.jobs[inst.jobOrder[m.pos]]|
          && 1 <= m.machine <= |inst.durations[inst.jobs[inst.jobOrder[m.pos]][m.slot]]|)
  }

  /** The draws of one round lie in their ranges, for a population of `n`
      well-formed individuals. */
  ghost predicate RoundFits(inst: Instance, n: nat, d: RoundDraws)
    requires inst.Valid()
  {
    && (TournamentSize <= n ==> IsSample(d.sample1, TournamentSize, n) && IsSample(d.sample2, TournamentSize, n))
    && (d.cross && |inst.jobOrder| >= 2 ==> 1 <= d.cut <= |inst.jobOrder| - 1)
    && (d.mutate1 ==> MutationDrawFits(inst, d.mutation1))
    && (d.mutate2 ==> MutationDrawFits(inst, d.mutation2))
  }

  /** The error a round raises, if any: a crossover with no cut point, then
      a failed mutation of the first child, then of the second. */
  ghost function RoundError(inst: Instance, d: RoundDraws): (e: Option<GaError>)
    requires forall j :: j in inst.jobOrder ==> j in inst.jobs
    ensures e.None? <==>
      && !(d.cross && |inst.jobOrder| < 2)
      && !(d.mutate1 && MutationFails(inst, d.mutation1))
      && !(d.mutate2 && MutationFails(inst, d.mutation2))
    ensures e.Some? ==> e.value == (if d.cross && |inst.jobOrder| < 2 then NoCutPoint else EmptyChoice)
  {
    if d.cross && |inst.jobOrder| < 2 then Some(NoCutPoint)
    else if d.mutate1 && MutationFails(inst, d.mutation1) then Some(EmptyChoice)
    else if d.mutate2 && MutationFails(inst, d.mutation2) then Some(EmptyChoice)
    else None
  }

  /** The first error raised by a sequence of rounds. */
  ghost function RoundsError(inst: Instance, rounds: seq<RoundDraws>): (e: Option<GaError>)
    requires forall j :: j in inst.jobOrder ==> j in inst.jobs
    ensures e.None? <==> forall i :: 0 <= i < |rounds| ==> RoundError(inst, rounds[i]).None?
    ensures e.Some? ==> exists i ::
      && 0 <= i < |rounds| && e == RoundError(inst, rounds[i])
      && forall k :: 0 <= k < i ==> RoundError(inst, rounds[k]).None?
  {
    if rounds == [] then None
    else
      var front := rounds[..|rounds| - 1];
      assert forall i :: 0 <= i < |front| ==> front[i] == rounds[i];
      var e := RoundsError(inst, front);
      if e.Some? then e else RoundError(inst, rounds[|rounds| - 1])
  }

  /** The first error raised by a sequence of generations. */
  ghost function RunError(inst: Instance, gens: seq<seq<RoundDraws>>): (e: Option<GaError>)
    requires forall j :: j in inst.jobOrder ==> j in inst.jobs
    ensures e.None? <==> forall g :: 0 <= g < |gens| ==> RoundsError(inst, gens[g]).None?
    ensures e.Some? ==> exists g ::
      && 0 <= g < |gens| && e == RoundsError(inst, gens[g])
      && forall k :: 0 <= k < g ==> RoundsError(inst, gens[k]).None?
  {
    if gens == [] then None
    else
      var front := gens[..|gens| - 1];
      assert forall g :: 0 <= g < |front| ==> front[g] == gens[g];
      var e := RunError(inst, front);
      if e.Some? then e else RoundsError(inst, gens[|gens| - 1])
  }

  // ---------------------------------------------------------------------
  // One round
  // ---------------------------------------------------------------------

  /** The parents two tournaments pick and the children they have. */
  datatype Mating = Mating(parent1: nat, parent2: nat, child1: Individual, child2: Individual)

  /** Pick two parents by tournament and, if the coin says so, cross them
      over; otherwise the children are the parents themselves. */
  function Mate(inst: Instance, pop: seq<Individual>, scores: seq<real>, d: RoundDraws): (r: Result<Mating>)
    requires |scores| == |pop| >= TournamentSize
    requires forall x :: 0 <= x < |pop| ==> |pop[x]| == |inst.jobOrder|
    requires IsSample(d.sample1, TournamentSize, |pop|) && IsSample(d.sample2, TournamentSize, |pop|)
    requires d.cross && |inst.jobOrder| >= 2 ==> 1 <= d.cut <= |inst.jobOrder| - 1
    ensures r.Failure? <==> d.cross && |inst.jobOrder| < 2
    ensures r.Failure? ==> r.error == NoCutPoint
    ensures r.Success? ==>
      && r.value.parent1 == Tournament(pop, scores, TournamentSize, d.sample1).value
      && r.value.parent2 == Tournament(pop, scores, TournamentSize, d.sample2).value
      && r.value.parent1 < |pop| && r.value.parent2 < |pop|
      && |r.value.child1| == |inst.jobOrder| && |r.value.child2| == |inst.jobOrder|
      && (forall i :: 0 <= i < |inst.jobOrder| ==>
            r.value.child1[i] == pop[r.value.parent1][i] || r.value.child1[i] == pop[r.value.parent2][i])
      && (forall i :: 0 <= i < |inst.jobOrder| ==>
            r.value.child2[i] == pop[r.value.parent1][i] || r.value.child2[i] == pop[r.value.parent2][i])
  {
    var t1 := Tournament(pop, scores, TournamentSize, d.sample1).value;
    var t2 := Tournament(pop, scores, TournamentSize, d.sample2).value;
    if d.cross then
      var x := Crossover(pop[t1], pop[t2], d.cut);
      if x.Failure? then Failure(x.error) else Success(Mating(t1, t2, x.value.0, x.value.1))
    else Success(Mating(t1, t2, pop[t1], pop[t2]))
  }

  /** An individual made, position by position, of genes of two well-formed
      members of a population is well-formed and shares only the
      population's assignment lists. */
  lemma ChildValid(inst: Instance, pop: seq<Individual>, a: nat, b: nat, c: Individual)
    requires a < |pop| && b < |pop| && ValidIndividual(inst, pop[a]) && ValidIndividual(inst, pop[b])
    requires |c| == |inst.jobOrder|
    requires forall i :: 0 <= i < |c| ==> c[i] == pop[a][i] || c[i] == pop[b][i]
    ensures ValidIndividual(inst, c)
    ensures forall i :: 0 <= i < |c| ==> c[i].machines in Arrays(pop)
  {
    var va, vb, vc := View(pop[a]), View(pop[b]), View(c);
    forall i | 0 <= i < |c|
      ensures vc[i] == va[i] || vc[i] == vb[i]
      ensures c[i].machines in Arrays(pop)
    {
      if c[i] == pop[a][i] {
        assert vc[i] == va[i];
      } else {
        assert vc[i] == vb[i];
      }
    }
  }

  /** Every assignment list of `kids` is one of the population's. */
  ghost predicate SharesOnly(kids: seq<Individual>, pop: seq<Individual>)
  {
    forall x, i :: 0 <= x < |kids| && 0 <= i < |kids[x]| ==> kids[x][i].machines in Arrays(pop)
  }

  lemma PairSharesOnly(c1: Individual, c2: Individual, pop: seq<Individual>)
    requires forall i :: 0 <= i < |c1| ==> c1[i].machines in Arrays(pop)
    requires forall i :: 0 <= i < |c2| ==> c2[i].machines in Arrays(pop)
    ensures SharesOnly([c1, c2], pop)
  {
    var kids: seq<Individual> := [c1, c2];
    forall x, i | 0 <= x < 2 && 0 <= i < |kids[x]|
      ensures kids[x][i].machines in Arrays(pop)
    {
      if x == 0 { assert kids[x][i] == c1[i]; } else { assert kids[x][i] == c2[i]; }
    }
  }

  /** A population is well-formed exactly when each of its parts is. */
  lemma ValidParts(inst: Instance, a: seq<Individual>, b: seq<Individual>, c: seq<Individual>)
    ensures ValidPopulation(inst, a + b + c) <==>
      ValidPopulation(inst, a) && ValidPopulation(inst, b) && ValidPopulation(inst, c)
  {
    var all := a + b + c;
    assert forall x :: 0 <= x < |a| ==> all[x] == a[x];
    assert forall x :: 0 <= x < |b| ==> all[|a| + x] == b[x];
    assert forall x :: 0 <= x < |c| ==> all[|a| + |b| + x] == c[x];
  }

  /** Mutate a child when its coin says so; an empty range fails.  Every
      individual of `world` stays well-formed. */
  method MaybeMutate(inst: Instance, c: Individual, flip: bool, m: MutationDraw, ghost world: seq<Individual>)
    returns (s: Status)
    requires inst.Valid() && ValidIndividual(inst, c) && (flip ==> MutationDrawFits(inst, m))
    requires ValidPopulation(inst, world)
    modifies set i | 0 <= i < |c| && i == m.pos :: c[i].machines
    ensures s.Failed? <==> flip && MutationFails(inst, m)
    ensures s.Failed? ==> s.error == EmptyChoice
    ensures !flip ==> unchanged(set i | 0 <= i < |c| :: c[i].machines)
    ensures flip && s.Done? ==>
      && 0 <= m.pos < |c|
      && c[m.pos].machines[..] == old(c[m.pos].machines[..])[m.slot := m.machine]
    ensures ValidPopulation(inst, world)
  {
    if !flip {
      return Done;
    }
    ghost var plan := View(c);
    assert |c| > 0 ==> |plan[m.pos].machines| == c[m.pos].machines.Length;
    s := Mutate(inst, c, m.pos, m.slot, m.machine, world);
  }

  /** One round of the generation: mate, then mutate each child if its coin
      says so; the children are those of the mating, mutated in place.
      Every individual of the population and of the children made so far
      (`kept`) stays well-formed, whatever lists the children share. */
  method Breed(inst: Instance, pop: seq<Individual>, scores: seq<real>, d: RoundDraws, ghost kept: seq<Individual>)
    returns (r: Result<(Individual, Individual)>)
    requires inst.Valid() && ValidPopulation(inst, pop) && ValidPopulation(inst, kept)
    requires |scores| == |pop| >= TournamentSize && RoundFits(inst, |pop|, d)
    modifies Arrays(pop)
    ensures r.Failure? <==> RoundError(inst, d).Some?
    ensures r.Failure? ==> r.error == RoundError(inst, d).value
    ensures ValidPopulation(inst, pop) && ValidPopulation(inst, kept)
    ensures r.Success? ==> ValidPopulation(inst, [r.value.0, r.value.1])
    ensures r.Success? ==> SharesOnly([r.value.0, r.value.1], pop)
    ensures r.Success? ==>
      && Mate(inst, pop, scores, d).Success?
      && r.value == (Mate(inst, pop, scores, d).value.child1, Mate(inst, pop, scores, d).value.child2)
  {
    var m := Mate(inst, pop, scores, d);
    if m.Failure? {
      return Failure(m.error);
    }
    var c1, c2 := m.value.child1, m.value.child2;
    ChildValid(inst, pop, m.value.parent1, m.value.parent2, c1);
    ChildValid(inst, pop, m.value.parent1, m.value.parent2, c2);
    ghost var kids := [c1, c2];
    ghost var world := pop + kept + kids;
    ValidParts(inst, pop, kept, kids);
    var s1 := MaybeMutate(inst, c1, d.mutate1, d.mutation1, world);
    if s1.Failed? {
      ValidParts(inst, pop, kept, kids);
      return Failure(s1.error);
    }
    assert world[|world| - 1] == c2;
    var s2 := MaybeMutate(inst, c2, d.mutate2, d.mutation2, world);
    ValidParts(inst, pop, kept, kids);
    if s2.Failed? {
      return Failure(s2.error);
    }
    PairSharesOnly(c1, c2, pop);
    r := Success((c1, c2));
  }

  // ---------------------------------------------------------------------
  // Error bookkeeping across rounds and generations
  // ---------------------------------------------------------------------

  /** Once a prefix of the rounds has raised, the later rounds do not
      change the error. */
  lemma {:induction false} RoundsErrorSticks(inst: Instance, rounds: seq<RoundDraws>, n: nat)
    requires forall j :: j in inst.jobOrder ==> j in inst.jobs
    requires n <= |rounds| && RoundsError(inst, rounds[..n]).Some?
    ensures RoundsError(inst, rounds) == RoundsError(inst, rounds[..n])
    decreases |rounds| - n
  {
    if n < |rounds| {
      assert rounds[..n + 1][..n] == rounds[..n];
      RoundsErrorSticks(inst, rounds, n + 1);
    } else {
      assert rounds[..n] == rounds;
    }
  }

  /** Once a prefix of the generations has raised, the later generations do
      not change the error. */
  lemma {:induction false} RunErrorSticks(inst: Instance, gens: seq<seq<RoundDraws>>, n: nat)
    requires forall j :: j in inst.jobOrder ==> j in inst.jobs
    requires n <= |gens| && RunError(inst, gens[..n]).Some?
    ensures RunError(inst, gens) == RunError(inst, gens[..n])
    decreases |gens| - n
  {
    if n < |gens| {
      assert gens[..n + 1][..n] == gens[..n];
      RunErrorSticks(inst, gens, n + 1);
    } else {
      assert gens[..n] == gens;
    }
  }

  // ---------------------------------------------------------------------
  // Scores and one generation
  // ---------------------------------------------------------------------

  /** The makespan of a genome, its score (lower is better); a genome the
      scheduler cannot run has none, and scores 0 here. */
  ghost function Makespan(inst: Instance, plan: Plan): (r: real)
    ensures inst.TimesNonNegative() && WellFormed(inst, plan) ==>
      && 0.0 <= r
      && (forall k :: 0 <= k < |Simulate(inst, plan).table| ==> Simulate(inst, plan).table[k].end <= r)
      && (Simulate(inst, plan).table != [] ==>
            exists k :: 0 <= k < |Simulate(inst, plan).table| && Simulate(inst, plan).table[k].end == r)
  {
    if !WellFormed(inst, plan) then 0.0
    else if inst.TimesNonNegative() then MakespanBounds(inst, plan); Simulate(inst, plan).makespan
    else Simulate(inst, plan).makespan
  }

  /** Score one individual, whose current contents are `plan`: the
      makespan of its schedule, and the schedule's rows. */
  method Score(inst: Instance, ind: Individual, ghost plan: Plan) returns (makespan: real, table: seq<Entry>)
    requires inst.Valid() && ValidPlan(inst, plan) && View(ind) == plan
    ensures makespan == Makespan(inst, plan)
    ensures WellFormed(inst, plan) && Schedule(makespan, table) == Simulate(inst, plan)
  {
    ValidIsWellFormed(inst, plan);
    makespan, table := Evaluate(inst, ind);
  }

  /** Scoring the next genome extends the scores of those before it. */
  lemma AppendScore(inst: Instance, plans: seq<Plan>, scores: seq<real>, makespan: real)
    requires |scores| < |plans| && makespan == Makespan(inst, plans[|scores|])
    requires forall y :: 0 <= y < |scores| ==> scores[y] == Makespan(inst, plans[y])
    ensures forall y :: 0 <= y <= |scores| ==> (scores + [makespan])[y] == Makespan(inst, plans[y])
  {
    var more := scores + [makespan];
    forall y | 0 <= y <= |scores|
      ensures more[y] == Makespan(inst, plans[y])
    {
      if y < |scores| {
        assert more[y] == scores[y];
      }
    }
  }

  /** Score every individual of the population, in order; `plans` are
      their current contents. */
  method Scores(inst: Instance, pop: seq<Individual>, ghost plans: seq<Plan>) returns (scores: seq<real>)
    requires inst.Valid() && plans == Views(pop)
    requires forall y :: 0 <= y < |plans| ==> ValidPlan(inst, plans[y])
    ensures |scores| == |pop|
    ensures forall x :: 0 <= x < |pop| ==> scores[x] == Makespan(inst, plans[x])
  {
    scores := [];
    for x := 0 to |pop|
      invariant forall y :: 0 <= y < |pop| ==> View(pop[y]) == plans[y]
      invariant |scores| == x
      invariant forall y :: 0 <= y < x ==> scores[y] == Makespan(inst, plans[y])
    {
      var makespan, _ := Score(inst, pop[x], plans[x]);
      AppendScore(inst, plans, scores, makespan);
      scores := scores + [makespan];
    }
  }

  /** Appending well-formed children keeps a list well-formed, and
      appending children that share only the population's lists keeps that
      property. */
  lemma AppendPair(inst: Instance, next: seq<Individual>, c1: Individual, c2: Individual, pop: seq<Individual>)
    requires ValidPopulation(inst, next) && ValidPopulation(inst, [c1, c2])
    requires SharesOnly(next, pop) && SharesOnly([c1, c2], pop)
    ensures ValidPopulation(inst, next + [c1, c2])
    ensures SharesOnly(next + [c1, c2], pop)
  {
    ValidParts(inst, next, [c1, c2], []);
    assert next + [c1, c2] + [] == next + [c1, c2];
    var all: seq<Individual> := next + [c1, c2];
    forall x, i | 0 <= x < |all| && 0 <= i < |all[x]|
      ensures all[x][i].machines in Arrays(pop)
    {
      if x < |next| {
        assert all[x] == next[x];
      } else {
        assert all[x] == [c1, c2][x - |next|];
      }
    }
  }

  /** `next` holds, round by round and in order, the two children of the
      mating that the round's draws make from `pop` and its scores. */
  ghost predicate BredFrom(inst: Instance, pop: seq<Individual>, scores: seq<real>,
                           rounds: seq<RoundDraws>, next: seq<Individual>)
    requires inst.Valid()
  {
    && |next| == 2 * |rounds|
    && forall i :: 0 <= i < |rounds| ==>
         && |scores| == |pop| >= TournamentSize
         && (forall x :: 0 <= x < |pop| ==> |pop[x]| == |inst.jobOrder|)
         && RoundFits(inst, |pop|, rounds[i])
         && Mate(inst, pop, scores, rounds[i]).Success?
         && next[2 * i] == Mate(inst, pop, scores, rounds[i]).value.child1
         && next[2 * i + 1] == Mate(inst, pop, scores, rounds[i]).value.child2
  }

  /** One more round appends its mating's children. */
  lemma BredStep(inst: Instance, pop: seq<Individual>, scores: seq<real>, rounds: seq<RoundDraws>, i: nat,
                 next: seq<Individual>, c1: Individual, c2: Individual)
    requires inst.Valid() && i < |rounds| && BredFrom(inst, pop, scores, rounds[..i], next)
    requires |scores| == |pop| >= TournamentSize && RoundFits(inst, |pop|, rounds[i])
    requires forall x :: 0 <= x < |pop| ==> |pop[x]| == |inst.jobOrder|
    requires Mate(inst, pop, scores, rounds[i]).Success?
    requires c1 == Mate(inst, pop, scores, rounds[i]).value.child1
    requires c2 == Mate(inst, pop, scores, rounds[i]).value.child2
    ensures BredFrom(inst, pop, scores, rounds[..i + 1], next + [c1, c2])
  {
    var after, more := rounds[..i + 1], next + [c1, c2];
    forall k | 0 <= k < i + 1
      ensures after[k] == rounds[k]
    {
    }
    assert more[2 * i] == c1 && more[2 * i + 1] == c2;
    forall k | 0 <= k < i
      ensures more[2 * k] == next[2 * k] && more[2 * k + 1] == next[2 * k + 1]
    {
    }
  }

  /** The lengths of a well-formed population's individuals. */
  lemma ValidShaped(inst: Instance, pop: seq<Individual>)
    requires ValidPopulation(inst, pop)
    ensures forall x :: 0 <= x < |pop| ==> |pop[x]| == |inst.jobOrder|
  {
    forall x | 0 <= x < |pop|
      ensures |pop[x]| == |inst.jobOrder|
    {
      assert |View(pop[x])| == |pop[x]|;
    }
  }

  /** One generation: score the population, then breed `|rounds|` pairs of
      children from it; the children, in order, are the new population.
      Scores are taken once, before any child is mutated. */
  method Generation(inst: Instance, pop: seq<Individual>, rounds: seq<RoundDraws>)
    returns (r: Result<seq<Individual>>, ghost scores: seq<real>)
    requires inst.Valid() && ValidPopulation(inst, pop)
    requires 2 * |rounds| <= |pop|
    requires forall i :: 0 <= i < |rounds| ==> RoundFits(inst, |pop|, rounds[i])
    modifies Arrays(pop)
    ensures r.Failure? <==> RoundsError(inst, rounds).Some?
    ensures r.Failure? ==> r.error == RoundsError(inst, rounds).value
    ensures ValidPopulation(inst, pop)
    ensures |scores| == |pop| && forall x :: 0 <= x < |pop| ==> scores[x] == Makespan(inst, old(Views(pop))[x])
    ensures r.Success? ==> BredFrom(inst, pop, scores, rounds, r.value)
    ensures r.Success? ==> ValidPopulation(inst, r.value) && SharesOnly(r.value, pop)
  {
    ghost var plans := Views(pop);
    var s := Scores(inst, pop, plans);
    scores := s;
    ValidShaped(inst, pop);
    var next: seq<Individual> := [];
    for i := 0 to |rounds|
      invariant BredFrom(inst, pop, s, rounds[..i], next)
      invariant ValidPopulation(inst, pop) && ValidPopulation(inst, next)
      invariant SharesOnly(next, pop)
      invariant RoundsError(inst, rounds[..i]).None?
    {
      assert rounds[..i + 1][..i] == rounds[..i];
      assert rounds[..i + 1][i] == rounds[i];
      var b := Breed(inst, pop, s, rounds[i], next);
      if b.Failure? {
        RoundsErrorSticks(inst, rounds, i + 1);
        return Failure(b.error), scores;
      }
      BredStep(inst, pop, s, rounds, i, next, b.value.0, b.value.1);
      AppendPair(inst, next, b.value.0, b.value.1, pop);
      next := next + [b.value.0, b.value.1];
    }
    assert rounds[..|rounds|] == rounds;
    r := Success(next);
  }

  /** Children that share only a population's lists use none but its lists. */
  lemma SharesOnlyArrays(next: seq<Individual>, pop: seq<Individual>)
    requires SharesOnly(next, pop)
    ensures Arrays(next) <= Arrays(pop)
  {
  }

  /** The lists of a population grown by one individual. */
  lemma ArraysAppend(pop: seq<Individual>, ind: Individual)
    ensures Arrays(pop + [ind]) == Arrays(pop) + set i | 0 <= i < |ind| :: ind[i].machines
  {
    var all := pop + [ind];
    assert forall x :: 0 <= x < |pop| ==> all[x] == pop[x];
    assert all[|pop|] == ind;
  }

  /** No two genes of a population, at different places, hold the same
      assignment list: every individual is independent of every other. */
  ghost predicate Unshared(pop: seq<Individual>)
  {
    forall x, y, i, j ::
      0 <= x < |pop| && 0 <= y < |pop| && 0 <= i < |pop[x]| && 0 <= j < |pop[y]| && (x != y || i != j) ==>
        pop[x][i].machines != pop[y][j].machines
  }

  /** An individual whose lists are pairwise distinct and appear nowhere in
      an unshared population can join it. */
  lemma AppendUnshared(pop: seq<Individual>, ind: Individual)
    requires Unshared(pop)
    requires forall k, l :: 0 <= k < l < |ind| ==> ind[k].machines != ind[l].machines
    requires forall k, x, i :: 0 <= k < |ind| && 0 <= x < |pop| && 0 <= i < |pop[x]| ==>
               ind[k].machines != pop[x][i].machines
    ensures Unshared(pop + [ind])
  {
    var all := pop + [ind];
    assert forall x :: 0 <= x < |pop| ==> all[x] == pop[x];
    assert all[|pop|] == ind;
  }

  // ---------------------------------------------------------------------
  // The whole run
  // ---------------------------------------------------------------------

  /** Build the first population: one individual per list of draws, each
      with fresh assignment lists. */
  method InitialPopulation(inst: Instance, init: seq<seq<seq<nat>>>) returns (pop: seq<Individual>)
    requires inst.Valid() && forall x :: 0 <= x < |init| ==> ChoicesFit(inst, init[x])
    ensures |pop| == |init|
    ensures forall x :: 0 <= x < |pop| ==> |init[x]| == |inst.jobOrder| && View(pop[x]) == ChosenPlan(inst, init[x])
    ensures ValidPopulation(inst, pop)
    ensures forall a :: a in Arrays(pop) ==> fresh(a)
    ensures Unshared(pop)
  {
    pop := [];
    for x := 0 to |init|
      invariant |pop| == x
      invariant forall y :: 0 <= y < x ==> View(pop[y]) == ChosenPlan(inst, init[y])
      invariant ValidPopulation(inst, pop)
      invariant forall a :: a in Arrays(pop) ==> fresh(a)
      invariant Unshared(pop)
    {
      var ind := NewIndividual(inst, init[x]);
      AppendUnshared(pop, ind);
      ArraysAppend(pop, ind);
      pop := pop + [ind];
    }
  }

  /** The current contents of every individual of a population. */
  ghost function Views(pop: seq<Individual>): (plans: seq<Plan>)
    reads Arrays(pop)
    ensures |plans| == |pop| && forall y :: 0 <= y < |pop| ==> plans[y] == View(pop[y])
  {
    seq(|pop|, y requires 0 <= y < |pop| reads Arrays(pop) => View(pop[y]))
  }

  /** The genome at `index` is the first one of `plans` with the smallest
      makespan, and `makespan` and `table` are its schedule. */
  ghost predicate IsBest(inst: Instance, plans: seq<Plan>, makespan: real, table: seq<Entry>, index: nat)
  {
    && index < |plans|
    && WellFormed(inst, plans[index])
    && Schedule(makespan, table) == Simulate(inst, plans[index])
    && (forall x :: 0 <= x < |plans| ==> makespan <= Makespan(inst, plans[x]))
    && (forall x :: 0 <= x < index ==> makespan < Makespan(inst, plans[x]))
  }

  /** All positions of a list of `n`, in order. */
  function Positions(n: nat): (ps: seq<nat>)
    ensures |ps| == n && forall y :: 0 <= y < n ==> ps[y] == y
  {
    seq(n, y requires 0 <= y < n => y)
  }

  /** The first smallest score picks the best genome. */
  lemma FirstMinIsBest(inst: Instance, plans: seq<Plan>, scores: seq<real>, best: nat, makespan: real, table: seq<Entry>)
    requires |scores| == |plans| > 0 && best == FirstMin(scores, Positions(|scores|))
    requires forall y :: 0 <= y < |plans| ==> scores[y] == Makespan(inst, plans[y])
    requires WellFormed(inst, plans[best]) && Schedule(makespan, table) == Simulate(inst, plans[best])
    ensures IsBest(inst, plans, makespan, table, best)
  {
    var ps := Positions(|scores|);
    assert ps[best] == best;
    assert makespan == scores[best];
    forall y | 0 <= y < |plans|
      ensures makespan <= Makespan(inst, plans[y])
    {
      assert ps[y] == y;
    }
    forall y | 0 <= y < best
      ensures makespan < Makespan(inst, plans[y])
    {
      assert ps[y] == y;
    }
  }

  /** The best individual of the final population, scored again for its
      timetable; an empty population has none. */
  method SelectBest(inst: Instance, pop: seq<Individual>) returns (r: Result<Best>, ghost index: nat)
    requires inst.Valid() && ValidPopulation(inst, pop)
    ensures r.Failure? <==> |pop| == 0
    ensures r.Failure? ==> r.error == EmptyPopulation
    ensures r.Success? ==> index < |pop| && r.value.individual == pop[index]
    ensures r.Success? ==> IsBest(inst, old(Views(pop)), r.value.makespan, r.value.table, index)
  {
    if |pop| == 0 {
      return Failure(EmptyPopulation), 0;
    }
    ghost var plans := Views(pop);
    var scores := Scores(inst, pop, plans);
    assert Views(pop) == plans;
    // `min` with a key keeps its candidate unless a later key is strictly
    // smaller: the first smallest score, as in a tournament over everyone.
    var best := FirstMin(scores, Positions(|scores|));
    var makespan, table := Score(inst, pop[best], plans[best]);
    FirstMinIsBest(inst, plans, scores, best, makespan, table);
    index := best;
    r := Success(Best(pop[best], makespan, table));
  }

  /** The genetic algorithm: a first population of `size` individuals, then
      `generations` generations of `size / 2` rounds each, then the best of
      the last population.  The first error a draw raises ends the run; an
      empty last population has no best. */
  method GeneticAlgorithm(inst: Instance, size: int, generations: int,
                          init: seq<seq<seq<nat>>>, draws: seq<seq<RoundDraws>>)
    returns (r: Result<Best>, ghost finalPop: seq<Individual>, ghost index: nat)
    requires inst.Valid()
    requires |init| == Clamp(size) && forall x :: 0 <= x < |init| ==> ChoicesFit(inst, init[x])
    requires |draws| == Clamp(generations) && forall g :: 0 <= g < |draws| ==> |draws[g]| == Pairs(size)
    requires forall g, i :: 0 <= g < |draws| && 0 <= i < |draws[g]| ==>
               RoundFits(inst, PopulationSize(size, g), draws[g][i])
    ensures r.Failure? <==> RunError(inst, draws).Some? || PopulationSize(size, |draws|) == 0
    ensures r.Failure? ==>
      r.error == if RunError(inst, draws).Some? then RunError(inst, draws).value else EmptyPopulation
    ensures r.Success? ==> |finalPop| == PopulationSize(size, |draws|) && ValidPopulation(inst, finalPop)
    ensures r.Success? ==> index < |finalPop| && r.value.individual == finalPop[index]
    ensures r.Success? ==> IsBest(inst, Views(finalPop), r.value.makespan, r.value.table, index)
  {
    var pop := InitialPopulation(inst, init);
    for g := 0 to |draws|
      invariant |pop| == PopulationSize(size, g)
      invariant ValidPopulation(inst, pop)
      invariant forall a :: a in Arrays(pop) ==> fresh(a)
      invariant RunError(inst, draws[..g]).None?
    {
      assert draws[..g + 1][..g] == draws[..g];
      assert draws[..g + 1][g] == draws[g];
      var next, _ := Generation(inst, pop, draws[g]);
      if next.Failure? {
        RunErrorSticks(inst, draws, g + 1);
        return Failure(next.error), pop, 0;
      }
      SharesOnlyArrays(next.value, pop);
      pop := next.value;
    }
    assert draws[..|draws|] == draws;
    finalPop := pop;
    ghost var plans := Views(pop);
    r, index := SelectBest(inst, pop);
    assert Views(pop) == plans;
  }
}
