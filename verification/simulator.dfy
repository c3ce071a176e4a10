/**
 * Fitness evaluation: a deterministic, non-preemptive list scheduler.
 *
 * The genome is walked job by job, and each job's operations in precedence
 * order.  Every operation starts when both its job and its machine are free,
 * and occupies the machine for its duration.  The result is the makespan (the
 * latest time any machine becomes free) and the timetable, one entry per
 * operation in the order the entries were produced.
 *
 * `Simulate` is the specification, written as the left fold the program's
 * loops perform; `Evaluate` is the program's nested loop, proved equal to it.
 */
module Simulator {
  import opened JobShop

  /** One row of the timetable. */
  datatype Entry = Entry(job: JobId, op: OpId, machine: nat, start: real, end: real)

  datatype Schedule = Schedule(makespan: real, table: seq<Entry>)

  function Max(a: real, b: real): real
  {
    if a >= b then a else b
  }

  /** The largest element of a non-empty list. */
  function MaxOf(s: seq<real>): real
    requires |s| > 0
  {
    if |s| == 1 then s[0] else Max(MaxOf(s[..|s| - 1]), s[|s| - 1])
  }

  /** `MaxOf` is an upper bound that is reached. */
  lemma {:induction false} MaxOfBounds(s: seq<real>)
    requires |s| > 0
    ensures forall i :: 0 <= i < |s| ==> s[i] <= MaxOf(s)
    ensures exists i :: 0 <= i < |s| && s[i] == MaxOf(s)
  {
    if |s| == 1 {
      assert s[0] == MaxOf(s);
    } else {
      MaxOfBounds(s[..|s| - 1]);
      var i :| 0 <= i < |s| - 1 && s[..|s| - 1][i] == MaxOf(s[..|s| - 1]);
      if MaxOf(s) == s[|s| - 1] {
        assert s[|s| - 1] == MaxOf(s);
      } else {
        assert s[i] == MaxOf(s);
      }
    }
  }

  /** The latest end time in a timetable, 0 for an empty one. */
  function MaxEnd(table: seq<Entry>): real
  {
    if table == [] then 0.0 else Max(MaxEnd(table[..|table| - 1]), table[|table| - 1].end)
  }

  /** The scheduler can place every operation of `job` with this assignment:
      the job and its operations are known, and each operation has a machine
      that indexes both its duration list and the machine table 1..M. */
  ghost predicate JobFits(inst: Instance, job: JobId, machines: seq<nat>)
  {
    && job in inst.jobs
    && |inst.jobs[job]| <= |machines|
    && forall i :: 0 <= i < |inst.jobs[job]| ==>
         && inst.jobs[job][i] in inst.durations
         && 1 <= machines[i] <= |inst.durations[inst.jobs[job][i]]|
         && machines[i] <= inst.machines
  }

  /** What the scheduler needs of a genome: every gene fits. */
  ghost predicate WellFormed(inst: Instance, plan: Plan)
  {
    forall p :: 0 <= p < |plan| ==> JobFits(inst, plan[p].job, plan[p].machines)
  }

  /** Scheduler state while one job is being placed: machine free times
      (index 0 unused), the job's own free time, and the rows so far. */
  datatype Clock = Clock(machineFree: seq<real>, jobTime: real, table: seq<Entry>)

  /** Scheduler state between jobs: machine free times, per-job free times,
      and the rows so far. */
  datatype SimState = SimState(machineFree: seq<real>, jobFree: map<JobId, real>, table: seq<Entry>)

  /** Place one operation on machine `m`. */
  function Place(inst: Instance, c: Clock, job: JobId, op: OpId, m: nat): (r: Clock)
    requires op in inst.durations && 1 <= m <= |inst.durations[op]| && m < |c.machineFree|
    ensures |r.machineFree| == |c.machineFree|
    ensures |r.table| == |c.table| + 1 && r.table[..|c.table|] == c.table
    ensures var e := r.table[|c.table|];
      && e.job == job && e.op == op && e.machine == m
      && c.jobTime <= e.start && c.machineFree[m] <= e.start
      && (e.start == c.jobTime || e.start == c.machineFree[m])
      && e.end == e.start + inst.Duration(op, m)
      && r.jobTime == e.end && r.machineFree[m] == e.end
    ensures forall k :: 0 <= k < |c.machineFree| && k != m ==> r.machineFree[k] == c.machineFree[k]
  {
    var start := Max(c.jobTime, c.machineFree[m]);
    var end := start + inst.Duration(op, m);
    Clock(c.machineFree[m := end], end, c.table + [Entry(job, op, m, start, end)])
  }

  /** Place the first `n` operations of `job`, in precedence order. */
  function RunJob(inst: Instance, c: Clock, job: JobId, machines: seq<nat>, n: nat): (r: Clock)
    requires JobFits(inst, job, machines) && n <= |inst.jobs[job]|
    requires |c.machineFree| == inst.machines + 1
    ensures |r.machineFree| == inst.machines + 1
  {
    if n == 0 then c
    else Place(inst, RunJob(inst, c, job, machines, n - 1), job, inst.jobs[job][n - 1], machines[n - 1])
  }

  /** All machines and all jobs free at time 0, no rows. */
  function Start(inst: Instance): (s: SimState)
    ensures |s.machineFree| == inst.machines + 1
    ensures forall k :: 0 <= k < |s.machineFree| ==> s.machineFree[k] == 0.0
    ensures s.jobFree.Keys == inst.jobs.Keys && forall j :: j in s.jobFree ==> s.jobFree[j] == 0.0
    ensures s.table == []
  {
    SimState(seq(inst.machines + 1, _ => 0.0), map j | j in inst.jobs :: 0.0, [])
  }

  /** The state after the first `n` genes of the plan. */
  function RunPlan(inst: Instance, plan: Plan, n: nat): (s: SimState)
    requires WellFormed(inst, plan) && n <= |plan|
    ensures |s.machineFree| == inst.machines + 1 && s.jobFree.Keys == inst.jobs.Keys
  {
    if n == 0 then Start(inst)
    else
      var s := RunPlan(inst, plan, n - 1);
      var g := plan[n - 1];
      var c := RunJob(inst, Clock(s.machineFree, s.jobFree[g.job], s.table), g.job, g.machines, |inst.jobs[g.job]|);
      SimState(c.machineFree, s.jobFree[g.job := c.jobTime], c.table)
  }

  /** The schedule of a whole plan: the latest machine free time and the rows. */
  function Simulate(inst: Instance, plan: Plan): (r: Schedule)
    requires WellFormed(inst, plan)
    ensures forall k :: 0 <= k < |RunPlan(inst, plan, |plan|).machineFree| ==>
              RunPlan(inst, plan, |plan|).machineFree[k] <= r.makespan
    ensures exists k :: 0 <= k < |RunPlan(inst, plan, |plan|).machineFree| &&
              RunPlan(inst, plan, |plan|).machineFree[k] == r.makespan
  {
    var s := RunPlan(inst, plan, |plan|);
    MaxOfBounds(s.machineFree);
    Schedule(MaxOf(s.machineFree), s.table)
  }

  // ---------------------------------------------------------------------
  // The program's loop
  // ---------------------------------------------------------------------

  /** Evaluate an individual: the program's loop over its genes, keeping the
      machine free times, the job free times and the rows produced so far. */
  method Evaluate(inst: Instance, ind: Individual) returns (makespan: real, table: seq<Entry>)
    requires WellFormed(inst, View(ind))
    ensures Schedule(makespan, table) == Simulate(inst, View(ind))
  {
    ghost var plan := View(ind);
    var start := Start(inst);
    assert start == RunPlan(inst, plan, 0);
    var machineFree, jobFree := start.machineFree, start.jobFree;
    table := [];
    var p := 0;
    while p < |ind|
      invariant p <= |ind|
      invariant SimState(machineFree, jobFree, table) == RunPlan(inst, plan, p)
    {
      var job := ind[p].job;
      assert plan[p] == JobPlan(job, ind[p].machines[..]);
      var jobTime;
      machineFree, jobTime, table := ScheduleJob(inst, job, ind[p].machines, machineFree, jobFree[job], table);
      jobFree := jobFree[job := jobTime];
      p := p + 1;
    }
    assert p == |plan|;
    makespan := MaxOf(machineFree);
  }

  /** The program's inner loop: place the operations of one job in precedence
      order, each on its assigned machine, as soon as both the job and the
      machine are free. */
  method ScheduleJob(inst: Instance, job: JobId, machines: array<nat>,
                     machineFree0: seq<real>, jobTime0: real, table0: seq<Entry>)
    returns (machineFree: seq<real>, jobTime: real, table: seq<Entry>)
    requires JobFits(inst, job, machines[..]) && |machineFree0| == inst.machines + 1
    ensures Clock(machineFree, jobTime, table)
         == RunJob(inst, Clock(machineFree0, jobTime0, table0), job, machines[..], |inst.jobs[job]|)
  {
    ghost var c0 := Clock(machineFree0, jobTime0, table0);
    machineFree, jobTime, table := machineFree0, jobTime0, table0;
    var ops := inst.jobs[job];
    var i := 0;
    while i < |ops|
      invariant i <= |ops|
      invariant Clock(machineFree, jobTime, table) == RunJob(inst, c0, job, machines[..], i)
    {
      var m := machines[i];
      var start := Max(jobTime, machineFree[m]);
      var end := start + inst.durations[ops[i]][m - 1];
      table := table + [Entry(job, ops[i], m, start, end)];
      jobTime := end;
      machineFree := machineFree[m := end];
      i := i + 1;
    }
  }
}
