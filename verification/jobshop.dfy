/**
 * The problem instance of the flexible job-shop scheduler and the shapes of
 * its genome.
 *
 * An instance gives, for every operation, its processing time on each of the
 * machines 1..M, and for every job the ordered list of its operations.  An
 * individual (one candidate schedule) lists, job by job, which machine runs
 * each operation of that job.
 */
module JobShop {

  type JobId = string
  type OpId = string

  /** The failures the genetic engine can run into: each one is an exception
      raised by a random draw over an empty range or by a builtin. */
  datatype GaError =
    | NoCutPoint       // a cut point drawn from [1, n - 1] with fewer than two jobs
    | EmptyChoice      // a mutation drawing a job of an empty genome, or a slot of an empty job
    | BadSampleSize    // a tournament sampling more individuals than the population holds, or a negative number
    | EmptySample      // a tournament of size zero has no first contestant
    | EmptyPopulation  // the best of an empty final population

  datatype Result<T> = Success(value: T) | Failure(error: GaError)

  /** The outcome of an operation that yields nothing but may fail. */
  datatype Status = Done | Failed(error: GaError)

  /** `durations[op][m - 1]` is the processing time of `op` on machine `m`;
      `jobs[j]` is the operation sequence of job `j`; `jobOrder` is the order
      in which the job table lists its jobs; `machines` is M. */
  datatype Instance = Instance(
    durations: map<OpId, seq<real>>,
    jobs: map<JobId, seq<OpId>>,
    jobOrder: seq<JobId>,
    machines: nat)
  {
    /** A well-formed instance: at least one operation and one machine, every
        operation priced on every machine with a non-negative time, every
        job's operations known, and the job order listing each job exactly
        once. */
    ghost predicate Valid()
    {
      && |durations| > 0
      && machines >= 1
      && (forall op :: op in durations ==> |durations[op]| == machines)
      && TimesNonNegative()
      && (forall j, i :: j in jobs && 0 <= i < |jobs[j]| ==> jobs[j][i] in durations)
      && (forall j :: j in jobs <==> j in jobOrder)
      && (forall a, b :: 0 <= a < b < |jobOrder| ==> jobOrder[a] != jobOrder[b])
    }

    /** No operation takes a negative time on any machine. */
    ghost predicate TimesNonNegative()
    {
      forall op, m :: op in durations && 0 <= m < |durations[op]| ==> durations[op][m] >= 0.0
    }

    /** Processing time of `op` on machine `m` (machines are numbered from 1). */
    function Duration(op: OpId, m: nat): real
      requires op in durations && 1 <= m <= |durations[op]|
    {
      durations[op][m - 1]
    }
  }

  /** The value of one gene: a job and the machine chosen for each of its operations. */
  datatype JobPlan = JobPlan(job: JobId, machines: seq<nat>)
  type Plan = seq<JobPlan>

  /** A gene as the engine holds it: the machine assignment is a mutable list
      that several individuals may share. */
  datatype Gene = Gene(job: JobId, machines: array<nat>)
  type Individual = seq<Gene>

  /** The current contents of an individual. */
  function View(ind: Individual): (plan: Plan)
    reads set i | 0 <= i < |ind| :: ind[i].machines
  {
    seq(|ind|, i requires 0 <= i < |ind| reads set i | 0 <= i < |ind| :: ind[i].machines
                 => JobPlan(ind[i].job, ind[i].machines[..]))
  }

  /** The instance the program ships with: five operations priced on four
      machines and six jobs. */
  const DefaultInstance: Instance := Instance(
    map[
      "O1" := [3.5, 6.7, 2.5, 8.2],
      "O2" := [5.5, 4.2, 7.6, 9.0],
      "O3" := [6.1, 7.3, 5.5, 6.7],
      "O4" := [4.8, 5.3, 3.8, 4.7],
      "O5" := [3.8, 3.4, 4.2, 3.6]],
    map[
      "j1" := ["O2", "O4", "O5"],
      "j2" := ["O1", "O3", "O5"],
      "j3" := ["O1", "O2", "O3", "O4", "O5"],
      "j4" := ["O4", "O5"],
      "j5" := ["O2", "O4"],
      "j6" := ["O1", "O2", "O4", "O5"]],
    ["j1", "j2", "j3", "j4", "j5", "j6"],
    4)

  /** Total number of operations over all jobs of an instance. */
  function OperationCount(inst: Instance, order: seq<JobId>): nat
    requires forall j :: j in order ==> j in inst.jobs
  {
    if order == [] then 0
    else OperationCount(inst, order[..|order| - 1]) + |inst.jobs[order[|order| - 1]]|
  }

  lemma DefaultInstanceValid()
    ensures DefaultInstance.Valid()
  {
    assert "O1" in DefaultInstance.durations;
    DefaultPricesValid();
    DefaultJobsValid();
    DefaultOrderValid();
  }

  lemma DefaultPricesValid()
    ensures forall op :: op in DefaultInstance.durations ==> |DefaultInstance.durations[op]| == 4
    ensures forall op, m :: op in DefaultInstance.durations && 0 <= m < |DefaultInstance.durations[op]| ==>
              DefaultInstance.durations[op][m] >= 0.0
  {
    assert DefaultInstance.durations.Keys == {"O1", "O2", "O3", "O4", "O5"};
  }

  lemma DefaultJobsValid()
    ensures forall j, i :: j in DefaultInstance.jobs && 0 <= i < |DefaultInstance.jobs[j]| ==>
              DefaultInstance.jobs[j][i] in DefaultInstance.durations
  {
    assert DefaultInstance.jobs.Keys == {"j1", "j2", "j3", "j4", "j5", "j6"};
  }

  lemma DefaultOrderValid()
    ensures forall j :: j in DefaultInstance.jobs <==> j in DefaultInstance.jobOrder
    ensures forall a, b :: 0 <= a < b < |DefaultInstance.jobOrder| ==>
              DefaultInstance.jobOrder[a] != DefaultInstance.jobOrder[b]
  {
    var order := DefaultInstance.jobOrder;
    assert DefaultInstance.jobs.Keys == {"j1", "j2", "j3", "j4", "j5", "j6"};
    forall a, b | 0 <= a < b < |order|
      ensures order[a] != order[b]
    {
      assert order[a][1] != order[b][1];
    }
  }

  /** The shipped instance has 3 + 3 + 5 + 2 + 2 + 4 = 19 operations. */
  lemma DefaultOperationCount()
    ensures OperationCount(DefaultInstance, DefaultInstance.jobOrder) == 19
  {
    var inst := DefaultInstance;
    assert OperationCount(inst, ["j1"]) == 3 by {
      assert ["j1"][..0] == [];
    }
    assert OperationCount(inst, ["j1", "j2"]) == 6 by {
      assert ["j1", "j2"][..1] == ["j1"];
    }
    assert OperationCount(inst, ["j1", "j2", "j3"]) == 11 by {
      assert ["j1", "j2", "j3"][..2] == ["j1", "j2"];
    }
    assert OperationCount(inst, ["j1", "j2", "j3", "j4"]) == 13 by {
      assert ["j1", "j2", "j3", "j4"][..3] == ["j1", "j2", "j3"];
    }
    assert OperationCount(inst, ["j1", "j2", "j3", "j4", "j5"]) == 15 by {
      assert ["j1", "j2", "j3", "j4", "j5"][..4] == ["j1", "j2", "j3", "j4"];
    }
    assert inst.jobOrder[..5] == ["j1", "j2", "j3", "j4", "j5"];
  }
}
