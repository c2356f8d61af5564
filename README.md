# Genetic algorithm for the job-shop scheduling problem, modelled in Dafny

This project models the engine class `GeneticAlgorithm` of a small genetic
algorithm for the job-shop scheduling problem. An *instance* is a list of jobs.
Each job is an ordered list of operations, and each operation needs one
machine for some processing time. An individual (`Gene`) holds

- a *chromosome*: a sequence of job ids in which job `j` occurs once per
  operation of `j`, and
- a *fitness*: the makespan of the schedule that the chromosome decodes to.

The engine
derives three fixed 1024 x 1024 lookup tables from an instance:

- job x process index -> machine;
- job x process index -> time;
- job x machine -> process index.

On top of these tables it implements

- the decoder `calculateFitness`;
- the random initial population;
- order-preserving crossover;
- swap mutation;
- tournament selection;
- the final best-individual scan.

The model is written in the source's own form:

- The engine is a `class` whose fields hold the tables, the counters and the
  population. Its operations are `method`s with the source's loops and the
  loop invariants those loops need.
- Each method is proved against a specification function:
  - `Decode` for fitness;
  - `InitialChromosome` / `Scatter` for the initial chromosomes;
  - `CrossChild` for crossover;
  - `ApplySwaps` / `DrawnPairs` for mutation;
  - `Tournament` for both scans;
  - `MachineTable` / `TimeTable` / `ProcessTable` for the tables.
- Lemmas prove the properties the engine relies on: schedule timing, machine exclusivity, makespan bounds, the permutation and slice facts of crossover and mutation, and first-minimum selection.

Every random draw is an explicit argument: the raw result of each
`random.nextInt(list.size())` call, in call order. `CanDraw` states that each
draw is below the size of the list it is taken from.

Modules:

| module | contents |
|---|---|
| `Sequences` | `makeList`, `filterArray`, `subArray`; sampling without replacement from an index list; first-occurrence removal; pair swaps |
| `Instance` | jobs, well-formedness, the three lookup tables, chromosomes of an instance |
| `Decoder` | the schedule decoder and the timing properties of the schedule it builds |
| `Population` | the scatter of jobs over free positions that `initialPopulation` performs |
| `Crossover` | the child of `crossGene` as a function of the parents and the cut points |
| `Selection` | the scan of `selectGene` and of the best-individual search |
| `Genetic` | the `Gene` and `GeneticAlgorithm` classes and the imperative operations |
| `Demo` | the three-job instance of `main` and the schedule one of its chromosomes decodes to |

## Model

| member | source | states |
|---|---|---|
| Sequences.MakeList | GA_for_JobShopSchedulingProblem/GeneticAlgorithm.java:34-38 | the list has length n and holds i at position i, so it is the index list 0 .. n-1 |
| Sequences.FilterArray | GA_for_JobShopSchedulingProblem/GeneticAlgorithm.java:41-49 | the result is the input with every element equal to the filter value dropped, in order |
| Sequences.FilterMultiset | GA_for_JobShopSchedulingProblem/GeneticAlgorithm.java:41-49 | filtering removes exactly the occurrences of the filter value; every other value keeps its number of occurrences |
| Sequences.FilterSubsequence | GA_for_JobShopSchedulingProblem/GeneticAlgorithm.java:41-49 | the survivors keep their relative order |
| Sequences.SubArray | GA_for_JobShopSchedulingProblem/GeneticAlgorithm.java:76-80 | the list holds the elements at positions start .. end-1 |
| Sequences.ToArray | GA_for_JobShopSchedulingProblem/GeneticAlgorithm.java:130 | the list becomes a new array with the same elements |
| Sequences.RemoveAtFacts | GA_for_JobShopSchedulingProblem/GeneticAlgorithm.java:61-62 | removing one position of the index list removes exactly that element; a list without repeats stays without repeats and no longer holds the removed value |
| Sequences.SampleFacts | GA_for_JobShopSchedulingProblem/GeneticAlgorithm.java:154-158 | values drawn by repeated index-and-remove from a list without repeats are all different, come from the list and are no longer in what is left; what is left also has no repeats |
| Sequences.SamplePrefix | GA_for_JobShopSchedulingProblem/GeneticAlgorithm.java:154-158 | the first k values drawn depend only on the first k draws |
| Sequences.DrawnPairs | GA_for_JobShopSchedulingProblem/GeneticAlgorithm.java:137-139 | the positions drawn two at a time are all valid positions and all different |
| Sequences.RemoveFirstFacts | GA_for_JobShopSchedulingProblem/GeneticAlgorithm.java:117-122 | removing the first match of a value removes one occurrence of it if present, shortens the list by one exactly then, and keeps the order of the rest |
| Sequences.RemoveEachFacts | GA_for_JobShopSchedulingProblem/GeneticAlgorithm.java:116-123 | removing the slice value by value leaves the multiset difference, in the original order, and shortens the list by the slice length when the slice's values are all present |
| Sequences.ApplySwapsMultiset | GA_for_JobShopSchedulingProblem/GeneticAlgorithm.java:137-143 | the pair swaps permute the chromosome: every value keeps its number of occurrences |
| Sequences.ApplySwapsExchange | GA_for_JobShopSchedulingProblem/GeneticAlgorithm.java:137-143 | with all drawn positions different, each drawn position ends up holding the original value of its partner, and every other position is unchanged |
| Instance.Fill | GA_for_JobShopSchedulingProblem/GeneticAlgorithm.java:29-30 | the initial table holds the fill value at every entry |
| Instance.LastProcess | GA_for_JobShopSchedulingProblem/GeneticAlgorithm.java:191-197 | the process index recorded for a machine is the last process of the job on that machine, or -1 when the job never visits it |
| Instance.OpsFillStep | GA_for_JobShopSchedulingProblem/GeneticAlgorithm.java:185-188 | one write of the first set-up loop extends the machine and time tables by one operation of the job |
| Instance.OpsFillDone | GA_for_JobShopSchedulingProblem/GeneticAlgorithm.java:181-189 | after every job has been visited, the tables are the machine and time tables of the instance |
| Instance.ProcessFillStep | GA_for_JobShopSchedulingProblem/GeneticAlgorithm.java:192-195 | one step of the second set-up loop records process j for its machine only when the entry is a real machine |
| Instance.ProcessFillDone | GA_for_JobShopSchedulingProblem/GeneticAlgorithm.java:191-197 | after every job has been visited, the table is the process table of the instance |
| Instance.MaxOpsBounds | GA_for_JobShopSchedulingProblem/GeneticAlgorithm.java:183 | processNumber bounds the length of every job and fits the tables |
| Instance.ProcessTableInverse | GA_for_JobShopSchedulingProblem/GeneticAlgorithm.java:191-197 | the process table inverts the machine table: every recorded process is a real operation on that machine, and with no machine repeated the process recorded for operation p's machine is p |
| Instance.RealOpsCount | GA_for_JobShopSchedulingProblem/GeneticAlgorithm.java:59-66 | for a well-formed instance, the machines among 0 .. machineNumber-1 with a recorded process number exactly the job's operations |
| Instance.PlacedChromosome | GA_for_JobShopSchedulingProblem/GeneticAlgorithm.java:59-69 | a sequence of job ids with one occurrence per recorded process is a chromosome of the instance |
| Instance.ChromosomeLength | GA_for_JobShopSchedulingProblem/GeneticAlgorithm.java:182 | every chromosome of the instance is chromosomeSize (the total number of operations) long |
| Instance.SameCounts | GA_for_JobShopSchedulingProblem/GeneticAlgorithm.java:216-217 | any two chromosomes of the instance are rearrangements of each other |
| Instance.PermutedChromosome | GA_for_JobShopSchedulingProblem/GeneticAlgorithm.java:135-146 | a rearrangement of a chromosome is a chromosome |
| Decoder.NewResult | GA_for_JobShopSchedulingProblem/GeneticAlgorithm.java:84 | a new result has tables of the engine's size |
| Decoder.Decode | GA_for_JobShopSchedulingProblem/GeneticAlgorithm.java:83-101 | after decoding, each job's process counter equals the number of its occurrences in the chromosome |
| Decoder.BeforeStep | GA_for_JobShopSchedulingProblem/GeneticAlgorithm.java:86-92 | at position i the job's counter equals the number of earlier occurrences of the job, so position i decodes process ProcessAt(c, i) |
| Decoder.BeforeAll | GA_for_JobShopSchedulingProblem/GeneticAlgorithm.java:86-99 | running the loop over every position gives the decoded result |
| Decoder.OccurrenceOrder | GA_for_JobShopSchedulingProblem/GeneticAlgorithm.java:88-92 | a later occurrence of a job stands for a later process of that job |
| Decoder.OccurrenceCount | GA_for_JobShopSchedulingProblem/GeneticAlgorithm.java:88-92 | the process an occurrence stands for is below the job's number of occurrences |
| Decoder.LastOccurrence | GA_for_JobShopSchedulingProblem/GeneticAlgorithm.java:88-92 | the last process of every occurring job is decoded at some position |
| Decoder.Stable | GA_for_JobShopSchedulingProblem/GeneticAlgorithm.java:94-97 | later steps never overwrite a recorded start or end time |
| Decoder.Monotone | GA_for_JobShopSchedulingProblem/GeneticAlgorithm.java:96-98 | later steps never lower the makespan and, with non-negative times, never make a machine free earlier |
| Decoder.Timing | GA_for_JobShopSchedulingProblem/GeneticAlgorithm.java:94-98 | in the decoded schedule, the operation at each position starts at its machine's free time (at the later of that and its job's previous end time when it is not the job's first process), ends its processing time later, leaves its machine free at that end time, and ends no later than the makespan. |
| Decoder.MachineExclusive | GA_for_JobShopSchedulingProblem/GeneticAlgorithm.java:94-96 | two operations decoded on the same machine do not overlap: the later one starts no earlier than the earlier one ends |
| Decoder.MachineBounds | GA_for_JobShopSchedulingProblem/GeneticAlgorithm.java:96-98 | each machine is free no earlier than its total assigned processing time and no later than the makespan |
| Decoder.JobBounds | GA_for_JobShopSchedulingProblem/GeneticAlgorithm.java:94-97 | each decoded process ends no earlier than the total time of its job's processes up to and including it |
| Decoder.MakespanLowerBounds | GA_for_JobShopSchedulingProblem/GeneticAlgorithm.java:98 | the makespan is at least every job's decoded work and every machine's load |
| Decoder.MakespanAttained | GA_for_JobShopSchedulingProblem/GeneticAlgorithm.java:98 | the makespan is 0 for an empty chromosome and is otherwise the end time of some decoded process |
| Decoder.ChromosomeDecodable | GA_for_JobShopSchedulingProblem/GeneticAlgorithm.java:86-90 | decoding a chromosome of the instance never reads outside the tables or hits an empty machine entry |
| Decoder.InstanceTimesNonNeg | GA_for_JobShopSchedulingProblem/GeneticAlgorithm.java:187 | non-negative processing times give a non-negative time table |
| Population.ScatterStep | GA_for_JobShopSchedulingProblem/GeneticAlgorithm.java:61-66 | one draw takes the value at the drawn index of the free positions, removes it from them, and writes the wanted entry there |
| Population.ScatterFacts | GA_for_JobShopSchedulingProblem/GeneticAlgorithm.java:56-67 | the positions still free after the scatter hold -1, and the job ids written are exactly the wanted ones, counted with multiplicity |
| Population.ScatterFree | GA_for_JobShopSchedulingProblem/GeneticAlgorithm.java:56-67 | positions never drawn keep -1 |
| Population.ScatterCounts | GA_for_JobShopSchedulingProblem/GeneticAlgorithm.java:61-66 | every value other than -1 occurs as often in the scratch chromosome as in the wanted entries |
| Population.PlaceAt | GA_for_JobShopSchedulingProblem/GeneticAlgorithm.java:65 | writing a job id over a -1 adds exactly one occurrence of it |
| Population.RowWantedCount | GA_for_JobShopSchedulingProblem/GeneticAlgorithm.java:60-66 | for one job, the entries wanted are the job id once per machine with a recorded process, and -1 otherwise |
| Population.WantedCount | GA_for_JobShopSchedulingProblem/GeneticAlgorithm.java:59-67 | over all jobs, job x is wanted once per machine with a recorded process, and nothing but job ids and -1 is wanted |
| Population.InitialCounts | GA_for_JobShopSchedulingProblem/GeneticAlgorithm.java:56-69 | the filtered initial chromosome holds each job once per machine with a recorded process and nothing else |
| Crossover.CutPoints | GA_for_JobShopSchedulingProblem/GeneticAlgorithm.java:104-109 | the cut points are two different positions, the smaller first |
| Crossover.CrossDefined | GA_for_JobShopSchedulingProblem/GeneticAlgorithm.java:116-126 | for parents with equal counts, what is left after the removal is long enough to split at start |
| Crossover.CrossFacts | GA_for_JobShopSchedulingProblem/GeneticAlgorithm.java:112-127 | the child is as long as the parents and a rearrangement of the second parent; it carries the first parent's slice at the slice's own positions, and around it the rest of the second parent in order |
| Crossover.Splice | GA_for_JobShopSchedulingProblem/GeneticAlgorithm.java:125-127 | putting the slice in at start keeps it at start .. start+len-1 and the rest in order around it |
| Selection.Tournament | GA_for_JobShopSchedulingProblem/GeneticAlgorithm.java:159-168 | the scan keeps the placeholder or an individual of the population |
| Selection.TournamentFacts | GA_for_JobShopSchedulingProblem/GeneticAlgorithm.java:159-168 | the kept fitness is at most the placeholder's and at most every chosen individual's; the placeholder is kept only when no chosen individual is below it; otherwise the kept individual is chosen, below the placeholder and the first minimum |
| Selection.ChosenFacts | GA_for_JobShopSchedulingProblem/GeneticAlgorithm.java:154-158 | an index is in the map exactly when a draw picked it, and every such index is an individual's |
| Selection.AllIndicesFacts | GA_for_JobShopSchedulingProblem/GeneticAlgorithm.java:224 | the final scan looks at every individual |
| Genetic.Gene.constructor | GA_for_JobShopSchedulingProblem/GeneticAlgorithm.java:54 | a new gene has an empty chromosome and fitness 0 |
| Genetic.Gene.WithFitness | GA_for_JobShopSchedulingProblem/GeneticAlgorithm.java:159 | a placeholder gene has an empty chromosome and the given fitness |
| Genetic.GeneticAlgorithm.constructor | GA_for_JobShopSchedulingProblem/GeneticAlgorithm.java:26-31 | the job and machine counts are stored; the machine and process tables hold -1, the time table 0, the counters 0; the population is empty |
| Genetic.GeneticAlgorithm.BuildLookups | GA_for_JobShopSchedulingProblem/GeneticAlgorithm.java:179-197 | the set-up of the strategy leaves the three tables and both counters equal to those of the instance |
| Genetic.GeneticAlgorithm.FillOperationTables | GA_for_JobShopSchedulingProblem/GeneticAlgorithm.java:181-189 | the machine and time tables are those of the instance, chromosomeSize is the total and processNumber the largest number of operations |
| Genetic.GeneticAlgorithm.RecordOperations | GA_for_JobShopSchedulingProblem/GeneticAlgorithm.java:185-188 | copying one job's operations extends the filled tables by that job |
| Genetic.GeneticAlgorithm.FillProcessMatrix | GA_for_JobShopSchedulingProblem/GeneticAlgorithm.java:191-197 | the process table is the inverse table of the instance |
| Genetic.GeneticAlgorithm.RecordProcesses | GA_for_JobShopSchedulingProblem/GeneticAlgorithm.java:192-196 | recording one job's processes extends the filled process table by that job |
| Genetic.GeneticAlgorithm.ScheduleNext | GA_for_JobShopSchedulingProblem/GeneticAlgorithm.java:87-98 | the in-place update of one loop iteration computes one decoding step |
| Genetic.GeneticAlgorithm.CalculateFitness | GA_for_JobShopSchedulingProblem/GeneticAlgorithm.java:83-101 | the loop computes the decoded schedule of the gene's chromosome |
| Genetic.GeneticAlgorithm.Fitnesses | GA_for_JobShopSchedulingProblem/GeneticAlgorithm.java:163 | the fitness values of the population, in iteration order |
| Genetic.GeneticAlgorithm.InitialPopulation | GA_for_JobShopSchedulingProblem/GeneticAlgorithm.java:52-73 | populationNumber genes are added after the existing ones, which stay as they were; each new chromosome is the filtered scatter of its draws and its fitness is its makespan; the tables are untouched |
| Genetic.GeneticAlgorithm.InitialPopulationProper | GA_for_JobShopSchedulingProblem/GeneticAlgorithm.java:52-73 | the genes initialPopulation adds are proper: chromosomes of the instance, chromosomeSize long, rated with their makespan; so the population is proper exactly when the genes before them are |
| Genetic.GeneticAlgorithm.NewIndividuals | GA_for_JobShopSchedulingProblem/GeneticAlgorithm.java:53-72 | one rated initial individual per draw sequence |
| Genetic.GeneticAlgorithm.NewIndividual | GA_for_JobShopSchedulingProblem/GeneticAlgorithm.java:54-70 | the individual's chromosome is the filtered scatter of its draws and its fitness is its makespan |
| Genetic.GeneticAlgorithm.BornMember | GA_for_JobShopSchedulingProblem/GeneticAlgorithm.java:54-70 | an individual built that way for a well-formed instance holds a chromosome of the instance, chromosomeSize long, and is rated with its makespan |
| Genetic.GeneticAlgorithm.NewChromosome | GA_for_JobShopSchedulingProblem/GeneticAlgorithm.java:55-69 | the chromosome is the filtered scatter; it holds each job once per machine with a recorded process, and only job ids |
| Genetic.GeneticAlgorithm.CrossGene | GA_for_JobShopSchedulingProblem/GeneticAlgorithm.java:103-133 | the new child's chromosome is the crossover of the parents at the drawn cut points; it is a chromosome of the instance and its fitness is its makespan |
| Genetic.GeneticAlgorithm.NewGene | GA_for_JobShopSchedulingProblem/GeneticAlgorithm.java:129-131 | a new gene holds the given chromosome and its makespan |
| Genetic.GeneticAlgorithm.Rate | GA_for_JobShopSchedulingProblem/GeneticAlgorithm.java:144 | the fitness becomes the makespan of the unchanged chromosome |
| Genetic.GeneticAlgorithm.MutationGene | GA_for_JobShopSchedulingProblem/GeneticAlgorithm.java:135-146 | the same gene is returned; its chromosome, in place, gets the drawn pairs swapped, stays a chromosome of the instance, and its fitness is its new makespan |
| Genetic.GeneticAlgorithm.AddGene | GA_for_JobShopSchedulingProblem/GeneticAlgorithm.java:218-219 | the child joins the population after the others, which stay as they were; a proper child keeps a proper population proper |
| Genetic.GeneticAlgorithm.MutationGeneTwice | GA_for_JobShopSchedulingProblem/GeneticAlgorithm.java:148-150 | mutation with two swaps |
| Genetic.GeneticAlgorithm.SelectGene | GA_for_JobShopSchedulingProblem/GeneticAlgorithm.java:153-170 | returns the individual the tournament over the drawn indices keeps (see Selection.TournamentFacts), or a new placeholder with an empty chromosome and fitness 0xfffff when none is below it |
| Genetic.GeneticAlgorithm.SelectGeneThree | GA_for_JobShopSchedulingProblem/GeneticAlgorithm.java:172-174 | a tournament of three |
| Genetic.GeneticAlgorithm.BestGene | GA_for_JobShopSchedulingProblem/GeneticAlgorithm.java:223-228 | returns the first individual of smallest fitness, or a new placeholder with an empty chromosome and fitness 0xffffff when none is below it |
| Demo.DemoSchedule | GA_for_JobShopSchedulingProblem/GeneticAlgorithm.java:235-239 | on the demo instance, the chromosome 0, 1, 2, 0, 1, 2, 0, 1 is a chromosome of the instance and decodes to end times 3, 6, 11 (job 0), 5, 6, 10 (job 1) and 4, 9 (job 2), with makespan 11 |
| Genetic.ScatterJobs | GA_for_JobShopSchedulingProblem/GeneticAlgorithm.java:56-68 | the scratch chromosome, filled with -1 and written through the drawn free positions, is the scatter of the wanted entries |
| Genetic.PlaceJob | GA_for_JobShopSchedulingProblem/GeneticAlgorithm.java:59-67 | one outer iteration places one more job and consumes machineNumber draws |
| Genetic.PlaceMachines | GA_for_JobShopSchedulingProblem/GeneticAlgorithm.java:60-66 | the inner loop places the job on every machine it visits and consumes one draw per machine |
| Genetic.PlaceDraw | GA_for_JobShopSchedulingProblem/GeneticAlgorithm.java:61-66 | one draw removes a free position and writes the job there if it visits the machine |
| Genetic.InitialChromosomeValid | GA_for_JobShopSchedulingProblem/GeneticAlgorithm.java:52-70 | every initial chromosome of a well-formed instance is a chromosome of it and decodes within the tables |
| Genetic.ChildFacts | GA_for_JobShopSchedulingProblem/GeneticAlgorithm.java:103-131 | the child of two chromosomes is a chromosome and decodes within the tables; the parents are chromosomeSize long |
| Genetic.MutantFacts | GA_for_JobShopSchedulingProblem/GeneticAlgorithm.java:135-144 | a chromosome with drawn pairs swapped is a chromosome and decodes within the tables |
| Genetic.DrawIndices | GA_for_JobShopSchedulingProblem/GeneticAlgorithm.java:154-158 | the map's keys are the drawn indices |
| Genetic.CrossChromosomes | GA_for_JobShopSchedulingProblem/GeneticAlgorithm.java:104-127 | the list built is the crossover of the parents at the drawn cut points |
| Genetic.DrawCutPoints | GA_for_JobShopSchedulingProblem/GeneticAlgorithm.java:104-109 | the two draws give the cut points |
| Genetic.CopyList | GA_for_JobShopSchedulingProblem/GeneticAlgorithm.java:114-115 | the list is a copy of the array |
| Genetic.RemoveMatches | GA_for_JobShopSchedulingProblem/GeneticAlgorithm.java:116-123 | the nested loops remove the first match of each slice value in turn |
| Genetic.SwapDrawn | GA_for_JobShopSchedulingProblem/GeneticAlgorithm.java:136-143 | the array, in place, gets exactly the drawn pairs swapped |
| Genetic.SwapPair | GA_for_JobShopSchedulingProblem/GeneticAlgorithm.java:138-142 | one iteration draws two more positions and swaps them in place |

## Left out

- `java.util.Random` is not modelled. Each `nextInt` result is a parameter, and `CanDraw` states that each draw is in range. The `nextInt(0)` exception of a too-short index list is excluded by the same precondition.
- The population is a `seq<Gene>`, not a `HashSet`. A `HashSet` iterates in an unspecified order; the model takes the order in which genes were added, and `selectGene` and the best scan iterate in that order.
- The deduplication of `HashSet.add` (lines 71 and 218-219) is not modelled: the model always appends the new gene. Whether `add` could drop a gene depends on `Gene`'s `equals` and `hashCode`; `Gene.java` is not part of this model.
- The generation loop of `GA_Strategy` (lines 203-221) is not a method. It needs `nextInt(100)` and the double mutation probability. Its building blocks are modelled: `SelectGeneThree`, `CrossGene`, `MutationGeneTwice` and `AddGene`. A population is *proper* (`Population`) when every gene holds a chromosome of the instance of length `chromosomeSize` and is rated with its makespan; `InitialPopulationProper` and `AddGene` show that the genes the strategy adds keep it proper.
- The strategy's final `calculateFitness(bestGene)` call (line 230) is `CalculateFitness` applied to the result of `BestGene`. It is not a method of its own.
- `main` and the Gantt chart output (lines 233 onwards) are I/O and are not modelled.
- Fitness is an `int` makespan. The `(double)` cast at line 131 does not change the value of an integer makespan.
- Java `int` arithmetic is 32-bit. The model's integers are unbounded, so a makespan above 2^31 - 1 is not wrapped.
- The 1024 x 1024 tables are sequences that have exactly that size. `ArrayIndexOutOfBoundsException` is not modelled: the preconditions `InBounds` and `Decodable` exclude the inputs that would raise it, including negative machine ids.
- Genetic.GeneticAlgorithm.BuildLookups: only covers a freshly constructed engine (`Blank`). The strategy runs its set-up once; a second run would keep adding to `chromosomeSize` and leave old entries in the tables.
- Genetic.GeneticAlgorithm.InitialPopulation: requires a well-formed instance. That means every machine id below `machineNumber`, no machine repeated within a job, and at most `jobNumber` jobs. The source also runs on other inputs and then builds sequences that omit some operations; the model does not cover those runs. The contract does not state that the added genes are new objects.
- Genetic.GeneticAlgorithm.NewIndividual: does not state that the gene is a new object.
- Genetic.GeneticAlgorithm.MutationGene: requires the gene to hold a chromosome of the instance of length `chromosomeSize`. The source needs only enough positions for the draws, plus a decodable result.
- Genetic.GeneticAlgorithm.MutationGene: states that the mutated gene stays proper, but not that the rest of the population does. That would need the invariant that no two individuals share a chromosome array.
- Genetic.GeneticAlgorithm.CrossGene: requires both parents to be chromosomes of the instance. The source would also cross other sequences of equal job counts.
- In `crossGene`, `t.subList(0, start)` is a view of `t`. The model computes the same list by value: the first `start` values left after the removal, followed by `proto`. The aliasing between `temp` and `t` is not modelled.
- Genetic.Gene.WithFitness: the placeholder `new Gene(fitness)` (lines 159 and 223) is modelled with an empty chromosome, because `Gene.java` is not part of this model; in Java its `chromosome` field may well be `null`, so the final `calculateFitness(bestGene)` of an empty population would throw where the model decodes an empty chromosome to fitness 0.
- `SelectGene` and `BestGene` return a new placeholder gene when no individual beats it, as the source does. The object identity of other genes in the population is stated only as `best == geneSet[r]`.
