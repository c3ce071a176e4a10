/**
 * What the scheduler guarantees about the timetable it produces.
 *
 * Every row is priced correctly and starts no earlier than time 0; no two
 * rows on one machine overlap; the rows of one job follow each other; the
 * makespan is the latest end time; every job finishes no earlier than the
 * sum of its assigned processing times; and the rows are exactly the
 * operations of the plan, gene by gene and, inside a gene, in precedence
 * order.
 */
module Timetable {
  import opened JobShop
  import opened Simulator

  /** A row is priced correctly: its machine exists and may run its
      operation, it starts at or after 0, and it lasts exactly the
      operation's time on that machine. */
  ghost predicate Timed(inst: Instance, e: Entry)
  {
    && e.op in inst.durations
    && 1 <= e.machine <= |inst.durations[e.op]|
    && e.machine <= inst.machines
    && 0.0 <= e.start
    && e.end == e.start + inst.Duration(e.op, e.machine)
  }

  /** Of two rows on the same machine, the later one starts after the
      earlier one ends. */
  ghost predicate MachinesDisjoint(table: seq<Entry>)
  {
    forall k, l :: 0 <= k < l < |table| && table[k].machine == table[l].machine ==>
      table[k].end <= table[l].start
  }

  /** Of two rows of the same job, the later one starts after the earlier
      one ends. */
  ghost predicate JobsChained(table: seq<Entry>)
  {
    forall k, l :: 0 <= k < l < |table| && table[k].job == table[l].job ==>
      table[k].end <= table[l].start
  }

  /** No row of `job` ends after `t`. */
  ghost predicate JobBound(table: seq<Entry>, job: JobId, t: real)
  {
    forall k :: 0 <= k < |table| && table[k].job == job ==> table[k].end <= t
  }

  /** Every row is priced and ends by the time its machine is free. */
  ghost predicate RowsFit(inst: Instance, machineFree: seq<real>, table: seq<Entry>)
  {
    forall k :: 0 <= k < |table| ==>
      && Timed(inst, table[k])
      && table[k].machine < |machineFree|
      && table[k].end <= machineFree[table[k].machine]
  }

  /** The machine side of the scheduler state: slot 0 is unused and stays 0,
      every row is priced and ends by its machine's free time, the latest
      machine free time is the latest end time, and the rows never overlap
      on a machine and follow each other within a job. */
  ghost predicate Sound(inst: Instance, machineFree: seq<real>, table: seq<Entry>)
  {
    && |machineFree| == inst.machines + 1
    && machineFree[0] == 0.0
    && RowsFit(inst, machineFree, table)
    && MaxOf(machineFree) == MaxEnd(table)
    && MachinesDisjoint(table)
    && JobsChained(table)
  }

  // ---------------------------------------------------------------------
  // Maxima
  // ---------------------------------------------------------------------

  /** Raising one element of a list to `v` raises its maximum to at least `v`
      and leaves it otherwise unchanged. */
  lemma {:induction false} MaxOfRaise(s: seq<real>, m: nat, v: real)
    requires m < |s| && s[m] <= v
    ensures MaxOf(s[m := v]) == Max(MaxOf(s), v)
  {
    if |s| > 1 {
      if m < |s| - 1 {
        assert s[m := v][..|s| - 1] == s[..|s| - 1][m := v];
        MaxOfRaise(s[..|s| - 1], m, v);
      } else {
        assert s[m := v][..|s| - 1] == s[..|s| - 1];
        MaxOfBounds(s[..|s| - 1]);
      }
    }
  }

  /** The largest element of a list of zeros is zero. */
  lemma {:induction false} MaxOfZeros(n: nat)
    requires n > 0
    ensures MaxOf(seq(n, _ => 0.0)) == 0.0
  {
    if n > 1 {
      assert seq(n, _ => 0.0)[..n - 1] == seq(n - 1, _ => 0.0);
      MaxOfZeros(n - 1);
    }
  }

  /** `MaxEnd` is at least 0, bounds every end time, and is reached by one of
      them when the timetable is not empty. */
  lemma {:induction false} MaxEndBounds(table: seq<Entry>)
    ensures 0.0 <= MaxEnd(table)
    ensures forall k :: 0 <= k < |table| ==> table[k].end <= MaxEnd(table)
    ensures table != [] && (forall k :: 0 <= k < |table| ==> 0.0 <= table[k].end) ==>
              exists k :: 0 <= k < |table| && table[k].end == MaxEnd(table)
  {
    if table != [] {
      var init := table[..|table| - 1];
      MaxEndBounds(init);
      assert forall k :: 0 <= k < |init| ==> init[k] == table[k];
      if (forall k :: 0 <= k < |table| ==> 0.0 <= table[k].end) && MaxEnd(table) != table[|table| - 1].end {
        if init != [] {
          var k :| 0 <= k < |init| && init[k].end == MaxEnd(init);
          assert table[k].end == MaxEnd(table);
        }
      }
    }
  }

  // ---------------------------------------------------------------------
  // One operation
  // ---------------------------------------------------------------------

  /** A row that starts once its machine is free keeps the rows apart on
      every machine. */
  lemma AppendDisjoint(table: seq<Entry>, machineFree: seq<real>, e: Entry)
    requires forall k :: 0 <= k < |table| ==>
               table[k].machine < |machineFree| && table[k].end <= machineFree[table[k].machine]
    requires e.machine < |machineFree| && machineFree[e.machine] <= e.start
    requires MachinesDisjoint(table)
    ensures MachinesDisjoint(table + [e])
  {
    var t := table + [e];
    forall k, l | 0 <= k < l < |t| && t[k].machine == t[l].machine
      ensures t[k].end <= t[l].start
    {
      assert t[k] == table[k];
    }
  }

  /** A row that starts once its job is free keeps every job's rows in
      sequence. */
  lemma AppendChained(table: seq<Entry>, jobTime: real, e: Entry)
    requires JobBound(table, e.job, jobTime) && jobTime <= e.start
    requires JobsChained(table)
    ensures JobsChained(table + [e])
  {
    var t := table + [e];
    forall k, l | 0 <= k < l < |t| && t[k].job == t[l].job
      ensures t[k].end <= t[l].start
    {
      assert t[k] == table[k];
    }
  }

  /** Placing one operation keeps every row priced and within its
      machine's free time, and raises the latest machine free time to the
      new row's end. */
  lemma PlaceFits(inst: Instance, c: Clock, job: JobId, op: OpId, m: nat)
    requires inst.TimesNonNegative()
    requires op in inst.durations && 1 <= m <= |inst.durations[op]| && m <= inst.machines
    requires |c.machineFree| == inst.machines + 1 && RowsFit(inst, c.machineFree, c.table)
    requires 0.0 <= c.jobTime
    ensures var r := Place(inst, c, job, op, m);
      && RowsFit(inst, r.machineFree, r.table)
      && MaxOf(r.machineFree) == Max(MaxOf(c.machineFree), r.jobTime)
  {
    var r := Place(inst, c, job, op, m);
    var e := r.table[|c.table|];
    assert inst.Duration(op, m) >= 0.0;
    MaxOfRaise(c.machineFree, m, e.end);
    forall k | 0 <= k < |r.table|
      ensures Timed(inst, r.table[k]) && r.table[k].end <= r.machineFree[r.table[k].machine]
    {
      if k < |c.table| {
        assert r.table[k] == c.table[k];
      }
    }
  }

  /** Placing one operation keeps the scheduler state sound, moves the job's
      clock forward by at least the operation's time, keeps every earlier
      row, and appends one row of `job`. */
  lemma PlaceKeeps(inst: Instance, c: Clock, job: JobId, op: OpId, m: nat)
    requires inst.TimesNonNegative()
    requires op in inst.durations && 1 <= m <= |inst.durations[op]| && m <= inst.machines
    requires Sound(inst, c.machineFree, c.table)
    requires 0.0 <= c.jobTime <= MaxEnd(c.table) && JobBound(c.table, job, c.jobTime)
    ensures var r := Place(inst, c, job, op, m);
      && Sound(inst, r.machineFree, r.table)
      && 0.0 <= r.jobTime <= MaxEnd(r.table) && JobBound(r.table, job, r.jobTime)
      && c.jobTime + inst.Duration(op, m) <= r.jobTime
      && r.table == c.table + [r.table[|c.table|]] && r.table[|c.table|].job == job
  {
    var r := Place(inst, c, job, op, m);
    var e := r.table[|c.table|];
    assert inst.Duration(op, m) >= 0.0;
    PlaceFits(inst, c, job, op, m);
    AppendDisjoint(c.table, c.machineFree, e);
    AppendChained(c.table, c.jobTime, e);
  }

  /** `MaxEnd` can only grow as rows are appended. */
  lemma {:induction false} MaxEndGrows(a: seq<Entry>, b: seq<Entry>)
    requires a <= b
    ensures MaxEnd(a) <= MaxEnd(b)
    decreases |b|
  {
    if |a| < |b| {
      assert a <= b[..|b| - 1];
      MaxEndGrows(a, b[..|b| - 1]);
    } else {
      assert a == b;
    }
  }

  // ---------------------------------------------------------------------
  // One job
  // ---------------------------------------------------------------------

  /** The total processing time of the first `n` operations of `job` on
      their assigned machines. */
  function Work(inst: Instance, job: JobId, machines: seq<nat>, n: nat): real
    requires JobFits(inst, job, machines) && n <= |inst.jobs[job]|
  {
    if n == 0 then 0.0
    else Work(inst, job, machines, n - 1) + inst.Duration(inst.jobs[job][n - 1], machines[n - 1])
  }

  /** With non-negative times no job has negative work. */
  lemma {:induction false} WorkNonNegative(inst: Instance, job: JobId, machines: seq<nat>, n: nat)
    requires inst.TimesNonNegative()
    requires JobFits(inst, job, machines) && n <= |inst.jobs[job]|
    ensures 0.0 <= Work(inst, job, machines, n)
  {
    if n > 0 {
      WorkNonNegative(inst, job, machines, n - 1);
      assert inst.Duration(inst.jobs[job][n - 1], machines[n - 1]) >= 0.0;
    }
  }

  /** Placing the operations of one job keeps the earlier rows, appends only
      rows of that job, and advances the job's clock by at least the job's
      work. */
  lemma {:induction false} RunJobAppends(inst: Instance, c: Clock, job: JobId, machines: seq<nat>, n: nat)
    requires JobFits(inst, job, machines) && n <= |inst.jobs[job]|
    requires |c.machineFree| == inst.machines + 1
    ensures var r := RunJob(inst, c, job, machines, n);
      && c.jobTime + Work(inst, job, machines, n) <= r.jobTime
      && c.table <= r.table
      && forall k :: |c.table| <= k < |r.table| ==> r.table[k].job == job
  {
    if n > 0 {
      RunJobAppends(inst, c, job, machines, n - 1);
    }
  }

  /** Placing the operations of one job keeps the scheduler state sound and
      the job's clock within the timetable. */
  lemma {:induction false} RunJobKeeps(inst: Instance, c: Clock, job: JobId, machines: seq<nat>, n: nat)
    requires inst.TimesNonNegative()
    requires JobFits(inst, job, machines) && n <= |inst.jobs[job]|
    requires Sound(inst, c.machineFree, c.table)
    requires 0.0 <= c.jobTime <= MaxEnd(c.table) && JobBound(c.table, job, c.jobTime)
    ensures var r := RunJob(inst, c, job, machines, n);
      && Sound(inst, r.machineFree, r.table)
      && 0.0 <= r.jobTime <= MaxEnd(r.table) && JobBound(r.table, job, r.jobTime)
  {
    if n > 0 {
      RunJobKeeps(inst, c, job, machines, n - 1);
      var p := RunJob(inst, c, job, machines, n - 1);
      PlaceKeeps(inst, p, job, inst.jobs[job][n - 1], machines[n - 1]);
    }
  }

  // ---------------------------------------------------------------------
  // The whole plan
  // ---------------------------------------------------------------------

  /** The job side of the scheduler state: every row's job has a clock that
      is not behind the row, and every job clock lies between 0 and the
      latest end time. */
  ghost predicate JobsAhead(jobFree: map<JobId, real>, table: seq<Entry>)
  {
    && (forall k :: 0 <= k < |table| ==> table[k].job in jobFree && table[k].end <= jobFree[table[k].job])
    && (forall j :: j in jobFree ==> 0.0 <= jobFree[j] <= MaxEnd(table))
  }

  /** After a job's operations are appended to the timetable, the job
      side still holds once the job's clock is moved to the job's new time. */
  lemma GeneAhead(jobFree: map<JobId, real>, table: seq<Entry>, job: JobId, r: Clock)
    requires JobsAhead(jobFree, table) && job in jobFree
    requires table <= r.table && forall k :: |table| <= k < |r.table| ==> r.table[k].job == job
    requires 0.0 <= r.jobTime <= MaxEnd(r.table) && JobBound(r.table, job, r.jobTime)
    ensures JobsAhead(jobFree[job := r.jobTime], r.table)
  {
    MaxEndGrows(table, r.table);
    forall k | 0 <= k < |r.table| && r.table[k].job != job
      ensures r.table[k].job in jobFree && r.table[k].end <= jobFree[r.table[k].job]
    {
      assert r.table[k] == table[k];
    }
  }

  /** Scheduling one more gene keeps both sides of the scheduler state. */
  lemma RunPlanStep(inst: Instance, plan: Plan, n: nat)
    requires inst.TimesNonNegative()
    requires WellFormed(inst, plan) && 0 < n <= |plan|
    requires var s := RunPlan(inst, plan, n - 1);
      Sound(inst, s.machineFree, s.table) && JobsAhead(s.jobFree, s.table)
    ensures var s := RunPlan(inst, plan, n);
      Sound(inst, s.machineFree, s.table) && JobsAhead(s.jobFree, s.table)
  {
    var s0 := RunPlan(inst, plan, n - 1);
    var g := plan[n - 1];
    assert JobFits(inst, g.job, g.machines);
    var c := Clock(s0.machineFree, s0.jobFree[g.job], s0.table);
    assert JobBound(c.table, g.job, c.jobTime);
    RunJobKeeps(inst, c, g.job, g.machines, |inst.jobs[g.job]|);
    RunJobAppends(inst, c, g.job, g.machines, |inst.jobs[g.job]|);
    GeneAhead(s0.jobFree, s0.table, g.job, RunJob(inst, c, g.job, g.machines, |inst.jobs[g.job]|));
  }

  /** Both sides of the scheduler state hold after every prefix of the plan. */
  lemma {:induction false} RunPlanKeeps(inst: Instance, plan: Plan, n: nat)
    requires inst.TimesNonNegative()
    requires WellFormed(inst, plan) && n <= |plan|
    ensures var s := RunPlan(inst, plan, n);
      Sound(inst, s.machineFree, s.table) && JobsAhead(s.jobFree, s.table)
  {
    if n == 0 {
      MaxOfZeros(inst.machines + 1);
    } else {
      RunPlanKeeps(inst, plan, n - 1);
      RunPlanStep(inst, plan, n);
    }
  }

  /** Every job clock lies between 0 and the latest end time. */
  lemma JobClocksBounded(inst: Instance, plan: Plan, n: nat)
    requires inst.TimesNonNegative()
    requires WellFormed(inst, plan) && n <= |plan|
    ensures forall j :: j in RunPlan(inst, plan, n).jobFree ==>
              0.0 <= RunPlan(inst, plan, n).jobFree[j] <= MaxEnd(RunPlan(inst, plan, n).table)
  {
    RunPlanKeeps(inst, plan, n);
  }

  /** The first `n` genes each have their job's clock at or past the gene's
      work. */
  ghost predicate WorkCovered(inst: Instance, plan: Plan, n: nat, jobFree: map<JobId, real>)
    requires WellFormed(inst, plan) && n <= |plan|
  {
    forall p :: 0 <= p < n ==>
      plan[p].job in jobFree &&
      Work(inst, plan[p].job, plan[p].machines, |inst.jobs[plan[p].job]|) <= jobFree[plan[p].job]
  }

  /** Moving gene `n - 1`'s job clock forward to a time covering its work
      extends the coverage to the first `n` genes. */
  lemma WorkCoveredStep(inst: Instance, plan: Plan, n: nat, jobFree: map<JobId, real>, t: real)
    requires WellFormed(inst, plan) && 0 < n <= |plan|
    requires WorkCovered(inst, plan, n - 1, jobFree)
    requires plan[n - 1].job in jobFree && jobFree[plan[n - 1].job] <= t
    requires Work(inst, plan[n - 1].job, plan[n - 1].machines, |inst.jobs[plan[n - 1].job]|) <= t
    ensures WorkCovered(inst, plan, n, jobFree[plan[n - 1].job := t])
  {
  }

  /** After the first `n` genes, each of them has its job's clock at or past
      the gene's work. */
  lemma {:induction false} RunPlanWork(inst: Instance, plan: Plan, n: nat)
    requires inst.TimesNonNegative()
    requires WellFormed(inst, plan) && n <= |plan|
    ensures WorkCovered(inst, plan, n, RunPlan(inst, plan, n).jobFree)
  {
    if n > 0 {
      RunPlanWork(inst, plan, n - 1);
      JobClocksBounded(inst, plan, n - 1);
      var s0 := RunPlan(inst, plan, n - 1);
      var g := plan[n - 1];
      assert JobFits(inst, g.job, g.machines);
      var c := Clock(s0.machineFree, s0.jobFree[g.job], s0.table);
      RunJobAppends(inst, c, g.job, g.machines, |inst.jobs[g.job]|);
      WorkNonNegative(inst, g.job, g.machines, |inst.jobs[g.job]|);
      var r := RunJob(inst, c, g.job, g.machines, |inst.jobs[g.job]|);
      assert g.job in s0.jobFree;
      assert 0.0 <= c.jobTime;
      assert RunPlan(inst, plan, n).jobFree == s0.jobFree[g.job := r.jobTime];
      WorkCoveredStep(inst, plan, n, s0.jobFree, r.jobTime);
    }
  }

  // ---------------------------------------------------------------------
  // Which rows the timetable holds
  // ---------------------------------------------------------------------

  /** What a row is about, leaving out its times. */
  datatype Slot = Slot(job: JobId, op: OpId, machine: nat)

  /** The rows of a timetable without their times. */
  function Slots(table: seq<Entry>): (r: seq<Slot>)
    ensures |r| == |table|
    ensures forall k :: 0 <= k < |table| ==> r[k] == Slot(table[k].job, table[k].op, table[k].machine)
  {
    seq(|table|, k requires 0 <= k < |table| => Slot(table[k].job, table[k].op, table[k].machine))
  }

  /** The rows one gene should produce: its first `n` operations in
      precedence order, each on its assigned machine. */
  function JobSlots(inst: Instance, job: JobId, machines: seq<nat>, n: nat): (r: seq<Slot>)
    requires JobFits(inst, job, machines) && n <= |inst.jobs[job]|
    ensures |r| == n
    ensures forall i :: 0 <= i < n ==> r[i] == Slot(job, inst.jobs[job][i], machines[i])
  {
    if n == 0 then [] else JobSlots(inst, job, machines, n - 1) + [Slot(job, inst.jobs[job][n - 1], machines[n - 1])]
  }

  /** The rows the first `n` genes of a plan should produce, gene by gene. */
  function PlanSlots(inst: Instance, plan: Plan, n: nat): seq<Slot>
    requires WellFormed(inst, plan) && n <= |plan|
  {
    if n == 0 then []
    else PlanSlots(inst, plan, n - 1) + JobSlots(inst, plan[n - 1].job, plan[n - 1].machines, |inst.jobs[plan[n - 1].job]|)
  }

  /** The number of operations of the first `n` genes of a plan. */
  function TotalOps(inst: Instance, plan: Plan, n: nat): nat
    requires n <= |plan| && forall p :: 0 <= p < n ==> plan[p].job in inst.jobs
  {
    if n == 0 then 0 else TotalOps(inst, plan, n - 1) + |inst.jobs[plan[n - 1].job]|
  }

  /** A plan should produce one row per operation of its genes. */
  lemma {:induction false} PlanSlotsLength(inst: Instance, plan: Plan, n: nat)
    requires WellFormed(inst, plan) && n <= |plan|
    ensures |PlanSlots(inst, plan, n)| == TotalOps(inst, plan, n)
  {
    if n > 0 {
      PlanSlotsLength(inst, plan, n - 1);
    }
  }

  /** Placing the first `n` operations of a job appends exactly that job's
      first `n` rows. */
  lemma {:induction false} RunJobRows(inst: Instance, c: Clock, job: JobId, machines: seq<nat>, n: nat)
    requires JobFits(inst, job, machines) && n <= |inst.jobs[job]|
    requires |c.machineFree| == inst.machines + 1
    ensures Slots(RunJob(inst, c, job, machines, n).table) == Slots(c.table) + JobSlots(inst, job, machines, n)
  {
    if n > 0 {
      RunJobRows(inst, c, job, machines, n - 1);
    }
  }

  /** Scheduling the first `n` genes produces exactly their rows, gene by
      gene. */
  lemma {:induction false} RunPlanRows(inst: Instance, plan: Plan, n: nat)
    requires WellFormed(inst, plan) && n <= |plan|
    ensures Slots(RunPlan(inst, plan, n).table) == PlanSlots(inst, plan, n)
  {
    if n > 0 {
      RunPlanRows(inst, plan, n - 1);
      var s0 := RunPlan(inst, plan, n - 1);
      var g := plan[n - 1];
      assert JobFits(inst, g.job, g.machines);
      RunJobRows(inst, Clock(s0.machineFree, s0.jobFree[g.job], s0.table), g.job, g.machines, |inst.jobs[g.job]|);
    }
  }

  // ---------------------------------------------------------------------
  // What the schedule of a plan satisfies
  // ---------------------------------------------------------------------

  /** Every row of the schedule is priced and starts at or after 0, rows on
      one machine never overlap, rows of one job follow each other, and the
      makespan is the latest end time. */
  lemma ScheduleSound(inst: Instance, plan: Plan)
    requires inst.TimesNonNegative() && WellFormed(inst, plan)
    ensures var sch := Simulate(inst, plan);
      && (forall k :: 0 <= k < |sch.table| ==> Timed(inst, sch.table[k]))
      && MachinesDisjoint(sch.table)
      && JobsChained(sch.table)
      && sch.makespan == MaxEnd(sch.table)
  {
    RunPlanKeeps(inst, plan, |plan|);
  }

  /** The makespan is at least 0 and at least every end time; it is 0 for an
      empty timetable and otherwise the end time of some row. */
  lemma MakespanBounds(inst: Instance, plan: Plan)
    requires inst.TimesNonNegative() && WellFormed(inst, plan)
    ensures var sch := Simulate(inst, plan);
      && 0.0 <= sch.makespan
      && (forall k :: 0 <= k < |sch.table| ==> sch.table[k].end <= sch.makespan)
      && (sch.table == [] ==> sch.makespan == 0.0)
      && (sch.table != [] ==> exists k :: 0 <= k < |sch.table| && sch.table[k].end == sch.makespan)
  {
    var sch := Simulate(inst, plan);
    ScheduleSound(inst, plan);
    assert forall k :: 0 <= k < |sch.table| ==> 0.0 <= sch.table[k].end by {
      forall k | 0 <= k < |sch.table|
        ensures 0.0 <= sch.table[k].end
      {
        assert Timed(inst, sch.table[k]);
        assert inst.Duration(sch.table[k].op, sch.table[k].machine) >= 0.0;
      }
    }
    MaxEndBounds(sch.table);
  }

  /** No gene finishes before the makespan allows: the makespan is at least
      the total processing time of every gene on its assigned machines. */
  lemma MakespanCoversWork(inst: Instance, plan: Plan)
    requires inst.TimesNonNegative() && WellFormed(inst, plan)
    ensures forall p :: 0 <= p < |plan| ==>
      Work(inst, plan[p].job, plan[p].machines, |inst.jobs[plan[p].job]|) <= Simulate(inst, plan).makespan
  {
    RunPlanWork(inst, plan, |plan|);
    JobClocksBounded(inst, plan, |plan|);
    ScheduleSound(inst, plan);
    var s := RunPlan(inst, plan, |plan|);
    var sch := Simulate(inst, plan);
    assert sch.makespan == MaxEnd(s.table);
    forall p | 0 <= p < |plan|
      ensures Work(inst, plan[p].job, plan[p].machines, |inst.jobs[plan[p].job]|) <= sch.makespan
    {
      assert Work(inst, plan[p].job, plan[p].machines, |inst.jobs[plan[p].job]|) <= s.jobFree[plan[p].job];
    }
  }

  /** The timetable holds one row per operation of the plan, gene by gene
      and, within a gene, in precedence order on the assigned machines. */
  lemma ScheduleRows(inst: Instance, plan: Plan)
    requires WellFormed(inst, plan)
    ensures Slots(Simulate(inst, plan).table) == PlanSlots(inst, plan, |plan|)
    ensures |Simulate(inst, plan).table| == TotalOps(inst, plan, |plan|)
  {
    RunPlanRows(inst, plan, |plan|);
    PlanSlotsLength(inst, plan, |plan|);
  }
}
