# Flexible job-shop genetic algorithm, modelled in Dafny

`ptAGConsola.py` solves a flexible job-shop scheduling problem with a genetic
algorithm. Each operation can run on any of M machines, with a processing
time per machine. Each job is an ordered list of operations. An individual
(a *planificación*) lists, job by job in the job table's order, the machine
chosen for each operation of that job.

The fitness of an individual is the makespan that a deterministic list
scheduler produces. Jobs are taken in genome order, and each job's
operations in precedence order. Each operation starts as soon as both its
job and its machine are free.

The algorithm runs as follows:

- It builds a random first population.
- Every generation scores the population, then runs `P // 2` rounds. A round:
  - picks two parents by size-2 tournaments;
  - crosses them over at one point when a coin says so (otherwise the
    children are the parents themselves);
  - mutates each child in place when its own coin says so.
- The children replace the population.
- At the end it returns the individual with the smallest makespan, with that
  makespan and its timetable.

The model has six modules:

- `JobShop` (`jobshop.dfy`) holds the instance, the shipped data, the genome
  shapes and the error type. An individual is a sequence of genes
  `(job, array<nat>)`. The assignment lists are arrays because the program
  mutates them in place, and because crossover and pass-through make several
  individuals share one list.
- `Simulator` (`simulator.dfy`) holds the scheduler. `Simulate` is its
  specification, a fold over genes and operations. `Evaluate` and
  `ScheduleJob` are the program's two nested loops, proved equal to it.
- `Timetable` (`timetable.dfy`) proves what a timetable guarantees:
  - every row is priced correctly and starts at or after 0;
  - no two rows on one machine overlap, and the rows of a job follow each
    other;
  - the makespan is the latest end time, and bounds every job's total work;
  - the rows are exactly the plan's operations, in order.
- `Encoding` (`encoding.dfy`) holds well-formed genomes, construction of an
  individual, one-point crossover and in-place mutation.
- `Selection` (`selection.dfy`) holds tournament selection over a sample of
  positions.
- `Genetic` (`genetic.dfy`) holds the rounds, the generations, the choice of
  the best individual and the whole run.

Every random draw is an input:

- the machine choices of the first population;
- per round: the two tournament samples, the crossover coin and cut point,
  and each child's mutation coin with its gene, slot and machine.

A draw from an empty range raises an exception in the program; here it
returns an error value. The possible errors are:

- `NoCutPoint`: `randint(1, 0)` on a genome with fewer than two jobs.
- `EmptyChoice`: a mutation of an empty genome, or of an empty assignment.
- `BadSampleSize`: a tournament whose size is negative or larger than the
  population.
- `EmptySample`: a tournament of size zero, which has no first contestant.
- `EmptyPopulation`: `min` of an empty final population.

The first error met ends the run, and `RunError` names it.

## Model

| member | source | states |
|---|---|---|
| JobShop.DefaultInstanceValid | ptAGConsola.py:8-23 | the shipped data is a well-formed instance: 4 machines, every operation priced on all 4 with non-negative times, every job's operations priced, each job listed once |
| JobShop.DefaultOperationCount | ptAGConsola.py:16-23 | the shipped jobs have 19 operations in all |
| Simulator.Place | ptAGConsola.py:48-53 | one operation starts at the later of its job's and its machine's free times, so as soon as both are free; it lasts its duration on the chosen machine; the job and that machine become free at its end, the other machines keep their times, and one row is appended to the earlier ones |
| Simulator.Start | ptAGConsola.py:42-44 | machines 0..M and every job of the table start free at time 0, with no rows |
| Simulator.RunJob | ptAGConsola.py:46-53 | placing a job's operations keeps one free-time slot per machine plus the unused slot 0 |
| Simulator.RunPlan | ptAGConsola.py:42-54 | walking the genes keeps the machine table at M + 1 slots and keeps a free time for exactly the instance's jobs |
| Simulator.Simulate | ptAGConsola.py:40-55 | the specification of the scheduler: its makespan is the latest free time of any machine after the whole genome, bounding them all and reached by one |
| Simulator.Evaluate | ptAGConsola.py:40-55 | the program's loop returns exactly the makespan and rows of the specification `Simulate` for the individual's current contents |
| Simulator.ScheduleJob | ptAGConsola.py:46-54 | the inner loop leaves the machine times, the job's time and the rows that `RunJob` specifies |
| Simulator.MaxOfBounds | ptAGConsola.py:55 | `max` of the machine times bounds every machine time and equals one of them |
| Timetable.MaxOfRaise | ptAGConsola.py:53 | raising one machine's free time to a later time `v` makes the maximum the larger of the old maximum and `v` |
| Timetable.MaxOfZeros | ptAGConsola.py:42 | the maximum of the all-zero machine table is 0 |
| Timetable.MaxEndBounds | ptAGConsola.py:51 | the latest end time is at least 0 and bounds every row; when the table is non-empty and its ends are non-negative, some row reaches it |
| Timetable.MaxEndGrows | ptAGConsola.py:51 | appending rows never lowers the latest end time |
| Timetable.AppendDisjoint | ptAGConsola.py:49-53 | a row starting no earlier than its machine's free time overlaps no earlier row on that machine |
| Timetable.AppendChained | ptAGConsola.py:49-52 | a row starting no earlier than its job's time follows every earlier row of its job |
| Timetable.PlaceFits | ptAGConsola.py:49-53 | placing one operation keeps every row correctly priced and ending by its machine's free time |
| Timetable.PlaceKeeps | ptAGConsola.py:49-53 | placing one operation keeps the timetable sound, appends exactly one row of that job, and advances the job's time by at least the operation's duration |
| Timetable.WorkNonNegative | ptAGConsola.py:50 | the summed processing time of a job's assigned operations is non-negative |
| Timetable.RunJobAppends | ptAGConsola.py:46-53 | placing a job only appends rows, all of that job, and advances its time by at least its total work |
| Timetable.RunJobKeeps | ptAGConsola.py:46-53 | placing a whole job keeps the timetable sound and the job's time between its last row and the makespan |
| Timetable.GeneAhead | ptAGConsola.py:54 | after a gene is placed, every job's recorded free time still bounds the ends of its rows |
| Timetable.RunPlanStep | ptAGConsola.py:45-54 | one more gene keeps the schedule sound and the job free times ahead of their rows |
| Timetable.RunPlanKeeps | ptAGConsola.py:45-54 | every prefix of the genome yields a sound schedule whose job free times bound their rows |
| Timetable.JobClocksBounded | ptAGConsola.py:43-54 | every job's recorded free time lies between 0 and the latest end time |
| Timetable.WorkCoveredStep | ptAGConsola.py:54 | recording a job's new free time keeps every placed gene's work covered by its job's free time |
| Timetable.RunPlanWork | ptAGConsola.py:45-54 | every placed gene's total work is covered by its job's recorded free time |
| Timetable.JobSlots | ptAGConsola.py:47-51 | a job contributes, in precedence order, one (job, operation, assigned machine) per operation |
| Timetable.PlanSlotsLength | ptAGConsola.py:45-51 | the expected rows of a genome number as many as its genes' operations |
| Timetable.RunJobRows | ptAGConsola.py:47-51 | placing a job appends exactly its operations, in precedence order, on their assigned machines |
| Timetable.RunPlanRows | ptAGConsola.py:45-51 | the rows are the genes' operations, gene by gene, in order |
| Timetable.ScheduleSound | ptAGConsola.py:40-55 | every row is priced correctly and starts at or after 0; rows on one machine never overlap; rows of one job follow each other; the makespan is the latest end time |
| Timetable.MakespanBounds | ptAGConsola.py:55 | the makespan is non-negative and bounds every row; it is 0 for an empty table and otherwise the end of some row |
| Timetable.MakespanCoversWork | ptAGConsola.py:40-55 | no gene's summed processing time exceeds the makespan |
| Timetable.ScheduleRows | ptAGConsola.py:45-55 | the timetable lists exactly the genome's operations in gene and precedence order, one row each |
| Encoding.ValidIsWellFormed | ptAGConsola.py:32-37 | a well-formed genome of a well-formed instance can be scheduled |
| Encoding.ValidPlanOps | ptAGConsola.py:34-36 | a well-formed genome's operation count is the instance's, job by job |
| Encoding.ScheduleLength | ptAGConsola.py:40-55 | a well-formed genome's timetable has one row per operation of the instance |
| Encoding.DefaultScheduleLength | ptAGConsola.py:16-23 | every well-formed genome of the shipped instance is scheduled into exactly 19 rows |
| Encoding.ChosenPlanValid | ptAGConsola.py:32-37 | machine draws in their ranges describe a well-formed genome |
| Encoding.NewIndividual | ptAGConsola.py:32-37 | the new individual holds, job by job in table order, exactly the drawn machines, in fresh and pairwise distinct lists, and is well-formed |
| Encoding.NewGenes | ptAGConsola.py:33-36 | one gene per job, in order, each a fresh list holding that job's draws |
| Encoding.Crossover | ptAGConsola.py:64-68 | fails with `NoCutPoint` exactly when the first parent has fewer than two genes; otherwise each child takes one parent's genes before the cut and the other's from it on |
| Encoding.CrossoverConservesGenes | ptAGConsola.py:66-67 | the two children together hold exactly the parents' genes |
| Encoding.CrossoverInvolution | ptAGConsola.py:66-67 | crossing the children again at the same cut gives back the parents |
| Encoding.CrossoverKeepsValid | ptAGConsola.py:64-68 | children of well-formed parents are well-formed |
| Encoding.Mutate | ptAGConsola.py:71-74 | fails with `EmptyChoice` exactly when there is no gene or the gene has no slot; otherwise exactly the drawn slot of the drawn gene's list becomes the new machine; the individual and every other individual, whatever lists they share, stay well-formed |
| Encoding.RewriteKeepsValid | ptAGConsola.py:74 | replacing assignment lists by one list of the right length naming machines 1..M keeps a genome well-formed |
| Selection.FirstMin | ptAGConsola.py:60-61 | the first contestant after a stable sort by score: it has the lowest score, strictly lower than every contestant drawn before it |
| Selection.Tournament | ptAGConsola.py:58-61 | fails exactly when the size is not in 1..n (`EmptySample` for 0, `BadSampleSize` otherwise); the winner is a sampled position with the lowest sampled score, the first such in draw order |
| Selection.TournamentOfTwo | ptAGConsola.py:58-61 | of two contestants, the second wins only with a strictly lower score |
| Genetic.Mate | ptAGConsola.py:85-90 | fails with `NoCutPoint` exactly when crossing over a genome of fewer than two jobs; the parents are the two tournament winners, and each child gene is the same-position gene of one parent |
| Genetic.ChildValid | ptAGConsola.py:88-90 | a child made of its parents' genes is well-formed and shares only the population's lists |
| Genetic.MaybeMutate | ptAGConsola.py:91-94 | fails exactly when the coin says mutate and the draw has an empty range; with the coin down no list changes; otherwise exactly the drawn slot of the drawn gene is set to the drawn machine and nothing outside that list changes; every individual stays well-formed |
| Genetic.Breed | ptAGConsola.py:85-95 | fails exactly with the round's first error; the children are those of the mating; the population, the children made so far and the new children stay well-formed and share only the population's lists |
| Genetic.RoundsErrorSticks | ptAGConsola.py:84-95 | once a round has raised, later rounds do not change the error |
| Genetic.RoundError | ptAGConsola.py:84-94 | a round raises exactly when the crossover coin is up on a genome of fewer than two jobs, or a mutation coin is up on a draw with an empty range; a missing cut point is reported before a failed mutation |
| Genetic.RoundsError | ptAGConsola.py:83-95 | a generation's rounds raise nothing exactly when no round raises; otherwise the error is that of the first round that raises |
| Genetic.RunError | ptAGConsola.py:80-96 | a run raises nothing exactly when no generation raises; otherwise the error is that of the first generation that raises |
| Genetic.RunErrorSticks | ptAGConsola.py:80-96 | once a generation has raised, later generations do not change the error |
| Genetic.Makespan | ptAGConsola.py:81-82 | the score of a schedulable genome with non-negative times is non-negative, no row of its timetable ends after it, and some row ends at it when there are rows |
| Genetic.Score | ptAGConsola.py:81 | an individual's score is the makespan of its current contents, with the matching timetable |
| Genetic.AppendScore | ptAGConsola.py:81-82 | scoring the next individual extends the scores of those before it |
| Genetic.Scores | ptAGConsola.py:81-82 | one score per individual, in order, each the makespan of its contents |
| Genetic.AppendPair | ptAGConsola.py:95 | appending the round's children keeps the new population well-formed and sharing only the old population's lists |
| Genetic.BredStep | ptAGConsola.py:84-95 | each round appends exactly its mating's two children |
| Genetic.ValidShaped | ptAGConsola.py:32-37 | every individual of a well-formed population has one gene per job |
| Genetic.Generation | ptAGConsola.py:80-96 | fails exactly with the rounds' first error; scores are the makespans of the population as it was at the start; the new population is, round by round, the children of the matings those scores select; it is well-formed and shares only the old population's lists |
| Genetic.SharesOnlyArrays | ptAGConsola.py:95-96 | the new population uses no list the old one did not have |
| Genetic.ArraysAppend | ptAGConsola.py:78 | the lists of a population grown by one individual |
| Genetic.InitialPopulation | ptAGConsola.py:78 | one individual per draw list, holding exactly those draws, well-formed, all lists fresh, and no list held by two genes anywhere in the population |
| Genetic.FirstMinIsBest | ptAGConsola.py:98-99 | the first smallest score picks the first individual of least makespan |
| Genetic.SelectBest | ptAGConsola.py:98-100 | fails with `EmptyPopulation` exactly for an empty population; otherwise returns the first individual of least makespan, with its own makespan and timetable |
| Genetic.GeneticAlgorithm | ptAGConsola.py:77-100 | fails exactly with the first error any draw raises, or with `EmptyPopulation` when the last population is empty; otherwise the last population has the size `P // 2` rounds give and is well-formed, and the result is its first individual of least makespan, with its makespan and timetable |

## Left out

- Plotting the Gantt chart, tabulated printing, the console menu, `main`, and
  loading an instance from JSON are not part of this model. They are I/O.
- The pseudo-random generator is not modelled. Every draw is an input,
  required to lie in its range whenever that range is non-empty.
- The mutation and crossover rates only decide coins. The coins are inputs,
  so the rates do not appear.
- Floating point is modelled as exact reals. Rounding is not captured.
- The number of machines M is a field of the instance. The program reads it
  off the first operation's price list, and raises `StopIteration` when there
  are no operations. A well-formed instance here has at least one operation
  and prices every operation on all M machines, so the two agree.
- Instances whose price lists differ in length are not modelled, because a
  well-formed instance requires one length. The program draws each machine
  from the operation's own list. Lists shorter than the first therefore run
  without error in the program. Only a list longer than the first can draw a
  machine above M, which fails when the machine table is indexed.
- Genetic.Breed: states the children's identity and well-formedness, but not
  their contents after mutation through shared lists. The single mutation's
  exact effect is what `Encoding.Mutate` states.
- Genetic.Generation: does not state the contents of the new population
  beyond its composition, well-formedness and shared lists. It inherits this
  from `Breed`.
- Genetic.GeneticAlgorithm: states the final population's size,
  well-formedness and best individual. It does not state the final
  population's contents in terms of the draws.
- Genetic.SelectBest: its postcondition ranks the contents the population had
  on entry. These are also the contents on exit, because it modifies nothing.
- Scores go stale within a generation. A parent mutated in place as a child
  keeps its old score for the rest of the generation's tournaments. The model
  keeps this behaviour rather than correcting it.
