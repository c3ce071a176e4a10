/**
 * Individuals: how they are built, checked, crossed over and mutated.
 *
 * An individual holds one gene per job of the instance, in the order the
 * job table lists the jobs.  A gene's machine assignment is a mutable list:
 * crossover copies references to these lists, so two individuals can share
 * one, and mutation writes into it in place.
 */
module Encoding {
  import opened JobShop
  import opened Simulator
  import opened Timetable

  /** A well-formed genome: one gene per job in the job table's order, each
      assignment as long as its job and naming machines 1..M. */
  ghost predicate ValidPlan(inst: Instance, plan: Plan)
  {
    && |plan| == |inst.jobOrder|
    && (forall i :: 0 <= i < |plan| ==>
          && plan[i].job == inst.jobOrder[i]
          && plan[i].job in inst.jobs
          && |plan[i].machines| == |inst.jobs[plan[i].job]|)
    && (forall i, s :: 0 <= i < |plan| && 0 <= s < |plan[i].machines| ==>
          1 <= plan[i].machines[s] <= inst.machines)
  }

  /** The current contents of an individual form a well-formed genome. */
  ghost predicate ValidIndividual(inst: Instance, ind: Individual)
    reads set i | 0 <= i < |ind| :: ind[i].machines
  {
    ValidPlan(inst, View(ind))
  }

  /** A well-formed genome of a well-formed instance can be scheduled. */
  lemma ValidIsWellFormed(inst: Instance, plan: Plan)
    requires inst.Valid() && ValidPlan(inst, plan)
    ensures WellFormed(inst, plan)
  {
    forall p, i | 0 <= p < |plan| && 0 <= i < |inst.jobs[plan[p].job]|
      ensures inst.jobs[plan[p].job][i] in inst.durations
      ensures 1 <= plan[p].machines[i] <= |inst.durations[inst.jobs[plan[p].job][i]]|
    {
    }
  }

  /** A well-formed genome has as many operations as the instance. */
  lemma {:induction false} ValidPlanOps(inst: Instance, plan: Plan, n: nat)
    requires ValidPlan(inst, plan) && n <= |plan|
    requires forall j :: j in inst.jobOrder ==> j in inst.jobs
    ensures TotalOps(inst, plan, n) == OperationCount(inst, inst.jobOrder[..n])
  {
    if n > 0 {
      ValidPlanOps(inst, plan, n - 1);
      assert inst.jobOrder[..n][..n - 1] == inst.jobOrder[..n - 1];
    }
  }

  /** The timetable of a well-formed genome has one row per operation of the
      instance. */
  lemma ScheduleLength(inst: Instance, plan: Plan)
    requires inst.Valid() && ValidPlan(inst, plan)
    ensures WellFormed(inst, plan)
    ensures |Simulate(inst, plan).table| == OperationCount(inst, inst.jobOrder)
  {
    ValidIsWellFormed(inst, plan);
    ScheduleRows(inst, plan);
    ValidPlanOps(inst, plan, |plan|);
    assert inst.jobOrder[..|plan|] == inst.jobOrder;
  }

  /** Every well-formed genome of the shipped instance is scheduled into 19
      rows, one per operation of its job table. */
  lemma DefaultScheduleLength(plan: Plan)
    requires ValidPlan(DefaultInstance, plan)
    ensures WellFormed(DefaultInstance, plan)
    ensures |Simulate(DefaultInstance, plan).table| == 19
  {
    DefaultInstanceValid();
    ScheduleLength(DefaultInstance, plan);
    DefaultOperationCount();
  }

  // ---------------------------------------------------------------------
  // Random construction
  // ---------------------------------------------------------------------

  /** The draws for one individual fit: one list per job in job-table order,
      one machine per operation, each in 1..(number of machines pricing the
      operation). */
  ghost predicate ChoicesFit(inst: Instance, choices: seq<seq<nat>>)
    requires forall j :: j in inst.jobOrder ==> j in inst.jobs
    requires forall j, i :: j in inst.jobs && 0 <= i < |inst.jobs[j]| ==> inst.jobs[j][i] in inst.durations
  {
    && |choices| == |inst.jobOrder|
    && forall k :: 0 <= k < |choices| ==>
         && |choices[k]| == |inst.jobs[inst.jobOrder[k]]|
         && forall s :: 0 <= s < |choices[k]| ==>
              1 <= choices[k][s] <= |inst.durations[inst.jobs[inst.jobOrder[k]][s]]|
  }

  /** The genome a list of draws describes. */
  function ChosenPlan(inst: Instance, choices: seq<seq<nat>>): Plan
    requires |choices| <= |inst.jobOrder|
  {
    seq(|choices|, k requires 0 <= k < |choices| => JobPlan(inst.jobOrder[k], choices[k]))
  }

  /** Draws that fit describe a well-formed genome. */
  lemma ChosenPlanValid(inst: Instance, choices: seq<seq<nat>>)
    requires inst.Valid() && ChoicesFit(inst, choices)
    ensures ValidPlan(inst, ChosenPlan(inst, choices))
  {
  }

  /** Build one individual: for each job in the job table's order, a fresh
      assignment list holding the drawn machine of each operation. */
  method NewIndividual(inst: Instance, choices: seq<seq<nat>>) returns (ind: Individual)
    requires inst.Valid() && ChoicesFit(inst, choices)
    ensures View(ind) == ChosenPlan(inst, choices)
    ensures ValidIndividual(inst, ind)
    ensures forall k :: 0 <= k < |ind| ==> fresh(ind[k].machines)
    ensures forall k, l :: 0 <= k < l < |ind| ==> ind[k].machines != ind[l].machines
  {
    ind := NewGenes(inst.jobOrder, choices);
    ChosenPlanValid(inst, choices);
    ghost var plan := View(ind);
    assert forall x :: 0 <= x < |plan| ==> plan[x] == ChosenPlan(inst, choices)[x];
  }

  /** The program's loop over the job table: one gene per job, each with a
      fresh list holding that job's drawn machines. */
  method NewGenes(jobOrder: seq<JobId>, choices: seq<seq<nat>>) returns (ind: Individual)
    requires |choices| == |jobOrder|
    ensures |ind| == |choices|
    ensures forall x :: 0 <= x < |ind| ==> ind[x].job == jobOrder[x] && ind[x].machines[..] == choices[x]
    ensures forall x :: 0 <= x < |ind| ==> fresh(ind[x].machines)
    ensures forall x, y :: 0 <= x < y < |ind| ==> ind[x].machines != ind[y].machines
  {
    ind := [];
    var k := 0;
    while k < |choices|
      invariant k <= |choices| && |ind| == k
      invariant forall x :: 0 <= x < k ==> ind[x].job == jobOrder[x] && ind[x].machines[..] == choices[x]
      invariant forall x :: 0 <= x < k ==> fresh(ind[x].machines)
      invariant forall x, y :: 0 <= x < y < k ==> ind[x].machines != ind[y].machines
    {
      var row := choices[k];
      var machines := new nat[|row|](s requires 0 <= s < |row| => row[s]);
      ind := ind + [Gene(jobOrder[k], machines)];
      k := k + 1;
    }
  }

  // ---------------------------------------------------------------------
  // Crossover
  // ---------------------------------------------------------------------

  /** Single-point crossover at `cut`, drawn from 1..|p1| - 1.  With fewer
      than two genes there is no cut point to draw.  Slicing the second
      parent stops at its end, as list slicing does. */
  function Crossover(p1: Individual, p2: Individual, cut: int): (r: Result<(Individual, Individual)>)
    requires |p1| >= 2 ==> 1 <= cut <= |p1| - 1
    ensures r.Failure? <==> |p1| < 2
    ensures r.Failure? ==> r.error == NoCutPoint
    ensures r.Success? && |p1| == |p2| ==>
      && |r.value.0| == |p1| && |r.value.1| == |p1|
      && (forall i :: 0 <= i < |p1| ==> r.value.0[i] == (if i < cut then p1[i] else p2[i]))
      && (forall i :: 0 <= i < |p1| ==> r.value.1[i] == (if i < cut then p2[i] else p1[i]))
  {
    if |p1| < 2 then Failure(NoCutPoint)
    else
      var c := if cut <= |p2| then cut else |p2|;
      Success((p1[..cut] + p2[c..], p2[..c] + p1[cut..]))
  }

  /** Crossover only redistributes genes: together the children hold exactly
      the parents' genes, whatever the parents' lengths. */
  lemma CrossoverConservesGenes(p1: Individual, p2: Individual, cut: int)
    requires |p1| >= 2 && 1 <= cut <= |p1| - 1
    ensures var r := Crossover(p1, p2, cut).value;
      multiset(r.0) + multiset(r.1) == multiset(p1) + multiset(p2)
  {
    var c := if cut <= |p2| then cut else |p2|;
    assert p1 == p1[..cut] + p1[cut..];
    assert p2 == p2[..c] + p2[c..];
  }

  /** Crossing the two children again at the same point gives back the
      parents. */
  lemma CrossoverInvolution(p1: Individual, p2: Individual, cut: int)
    requires |p1| == |p2| && |p1| >= 2 && 1 <= cut <= |p1| - 1
    ensures var r := Crossover(p1, p2, cut).value;
      Crossover(r.0, r.1, cut) == Success((p1, p2))
  {
    var r := Crossover(p1, p2, cut).value;
    var back := Crossover(r.0, r.1, cut).value;
    assert back.0 == p1;
    assert back.1 == p2;
  }

  /** Crossing two well-formed individuals gives well-formed children. */
  lemma CrossoverKeepsValid(inst: Instance, p1: Individual, p2: Individual, cut: int)
    requires ValidIndividual(inst, p1) && ValidIndividual(inst, p2)
    requires |p1| >= 2 ==> 1 <= cut <= |p1| - 1
    ensures var r := Crossover(p1, p2, cut);
      r.Success? ==> ValidIndividual(inst, r.value.0) && ValidIndividual(inst, r.value.1)
  {
    var r := Crossover(p1, p2, cut);
    if r.Success? {
      var v1, v2 := View(p1), View(p2);
      var w1, w2 := View(r.value.0), View(r.value.1);
      assert forall i :: 0 <= i < |p1| ==> w1[i] == (if i < cut then v1[i] else v2[i]);
      assert forall i :: 0 <= i < |p1| ==> w2[i] == (if i < cut then v2[i] else v1[i]);
    }
  }

  // ---------------------------------------------------------------------
  // Mutation
  // ---------------------------------------------------------------------

  /** The draws of a mutation fit: a gene position, a slot of that gene's
      assignment and a machine able to run the slot's operation; a range
      that is empty leaves its draw free. */
  ghost predicate MutationFits(inst: Instance, plan: Plan, pos: int, slot: int, machine: int)
    requires ValidPlan(inst, plan)
    requires forall j, i :: j in inst.jobs && 0 <= i < |inst.jobs[j]| ==> inst.jobs[j][i] in inst.durations
  {
    && (|plan| > 0 ==> 0 <= pos < |plan|)
    && (|plan| > 0 && |plan[pos].machines| > 0 ==>
          && 0 <= slot < |plan[pos].machines|
          && 1 <= machine <= |inst.durations[inst.jobs[plan[pos].job][slot]]|)
  }

  /** Reassign one machine slot of one gene in place.  Drawing a gene of an
      empty individual, or a slot of an empty assignment, fails.  Every
      individual that shares the assignment list sees the change and stays
      well-formed, because the new machine is one of 1..M. */
  method Mutate(inst: Instance, ind: Individual, pos: int, slot: int, machine: int, ghost others: seq<Individual>)
    returns (r: Status)
    requires inst.Valid() && ValidIndividual(inst, ind) && MutationFits(inst, View(ind), pos, slot, machine)
    requires forall x :: 0 <= x < |others| ==> ValidIndividual(inst, others[x])
    modifies set i | 0 <= i < |ind| && i == pos :: ind[i].machines
    ensures r.Done? <==> |ind| > 0 && ind[pos].machines.Length > 0
    ensures r.Failed? ==> r.error == EmptyChoice
    ensures r.Done? ==> ind[pos].machines[..] == old(ind[pos].machines[..])[slot := machine]
    ensures ValidIndividual(inst, ind)
    ensures forall x :: 0 <= x < |others| ==> ValidIndividual(inst, others[x])
  {
    if |ind| == 0 || ind[pos].machines.Length == 0 {
      return Failed(EmptyChoice);
    }
    var a := ind[pos].machines;
    ghost var plan := View(ind);
    assert plan[pos].job in inst.jobs && slot < |inst.jobs[plan[pos].job]|;
    assert plan[pos].machines == a[..];
    assert forall s :: 0 <= s < a.Length ==> 1 <= a[s] <= inst.machines;
    a[slot] := machine;
    r := Done;
    ghost var all := others + [ind];
    forall x | 0 <= x < |all|
      ensures ValidIndividual(inst, all[x])
    {
      var y := all[x];
      ghost var before, after := old(View(y)), View(y);
      forall i | 0 <= i < |y|
        ensures after[i] == before[i] || (after[i].job == before[i].job && after[i].machines == a[..])
      {
        if y[i].machines != a {
          assert after[i] == before[i];
        }
      }
      RewriteKeepsValid(inst, before, after, a[..]);
    }
    assert ind == all[|others|];
    assert forall x :: 0 <= x < |others| ==> others[x] == all[x];
  }

  /** A well-formed genome stays well-formed when some of its assignments are
      replaced by one list of the same length naming machines 1..M. */
  lemma RewriteKeepsValid(inst: Instance, before: Plan, after: Plan, row: seq<nat>)
    requires ValidPlan(inst, before) && |after| == |before|
    requires forall s :: 0 <= s < |row| ==> 1 <= row[s] <= inst.machines
    requires forall i :: 0 <= i < |after| ==>
               || after[i] == before[i]
               || (after[i].job == before[i].job && after[i].machines == row && |row| == |before[i].machines|)
    ensures ValidPlan(inst, after)
  {
  }
}
