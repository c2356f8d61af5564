/** The genetic-algorithm engine: the lookup tables, the population of genes
    and the operators that create, recombine, mutate and select genes. Every
    random draw the engine makes is an argument here: the raw result of each
    `random.nextInt(list.size())` call, in the order of the calls. */
module Genetic {
  import opened Sequences
  import opened Instance
  import opened Decoder
  import opened Population
  import opened Crossover
  import opened Selection

  /** Fitness of the placeholder a tournament starts from. */
  const SelectSentinel: int := 0xfffff
  /** Fitness of the placeholder the final scan starts from. */
  const BestSentinel: int := 0xffffff

  /** One individual: a chromosome of job ids and its fitness, the makespan of
      its decoded schedule (smaller is better). */
  class Gene {
    var chromosome: array<int>
    var fitness: int

    /** `new Gene()`: no genes yet and fitness 0. */
    constructor ()
      ensures chromosome.Length == 0 && fitness == 0
    {
      chromosome := new int[0];
      fitness := 0;
    }

    /** `new Gene(fitness)`: a placeholder with the given fitness and no genes. */
    constructor WithFitness(f: int)
      ensures chromosome.Length == 0 && fitness == f
    {
      chromosome := new int[0];
      fitness := f;
    }
  }

  class GeneticAlgorithm {
    const populationNumber: nat := 60
    const jobNumber: nat
    const machineNumber: nat
    var processNumber: nat
    var chromosomeSize: nat
    var machineMatrix: seq<seq<int>>
    var timeMatrix: seq<seq<int>>
    var processMatrix: seq<seq<int>>
    var geneSet: seq<Gene>
    /** The instance the tables were built from. */
    ghost var jobs: seq<seq<Op>>

    /** The engine for `jobNumber` jobs on `machineNumber` machines, before
        any instance is loaded. */
    constructor (jobNumber: nat, machineNumber: nat)
      ensures this.jobNumber == jobNumber && this.machineNumber == machineNumber
      ensures Blank() && geneSet == []
    {
      this.jobNumber := jobNumber;
      this.machineNumber := machineNumber;
      processNumber := 0;
      chromosomeSize := 0;
      machineMatrix := Fill(-1);
      timeMatrix := Fill(0);
      processMatrix := Fill(-1);
      geneSet := [];
      jobs := [];
    }

    /** No instance loaded: counters 0, machine and process tables all -1,
        time table all 0. */
    predicate Blank()
      reads this
    {
      processNumber == 0 && chromosomeSize == 0 &&
      machineMatrix == Fill(-1) && timeMatrix == Fill(0) && processMatrix == Fill(-1)
    }

    /** The tables and counters are those of the instance `jobs`. */
    ghost predicate Loaded()
      reads this`machineMatrix, this`timeMatrix, this`processMatrix, this`chromosomeSize, this`processNumber, this`jobs
    {
      machineMatrix == MachineTable(jobs) && timeMatrix == TimeTable(jobs) &&
      processMatrix == ProcessTable(jobs) &&
      chromosomeSize == TotalOps(jobs) && processNumber == MaxOps(jobs)
    }

    /** An instance consistent with the configured job and machine counts is
        loaded. */
    ghost predicate Consistent()
      reads this`machineMatrix, this`timeMatrix, this`processMatrix, this`chromosomeSize, this`processNumber, this`jobs
    {
      Loaded() && WellFormed(jobNumber, machineNumber, jobs)
    }

    /** `g` decodes without an out-of-range access and its fitness is the
        makespan of its schedule. */
    predicate Evaluated(g: Gene)
      reads this, g, g.chromosome
    {
      Rated(machineMatrix, timeMatrix, g)
    }

    /** `g` is a proper individual of the loaded instance: it holds a
        chromosome of the instance, `chromosomeSize` long, and its fitness is
        the makespan of that chromosome. */
    ghost predicate Member(g: Gene)
      reads this`jobs, this`chromosomeSize, this`machineMatrix, this`timeMatrix, g, g.chromosome
    {
      IsChromosome(jobs, g.chromosome[..]) && g.chromosome.Length == chromosomeSize &&
      Rated(machineMatrix, timeMatrix, g)
    }

    /** Every individual of the population is a proper one. */
    ghost predicate Population()
      reads this, geneSet, set g | g in geneSet :: g.chromosome
    {
      forall k :: 0 <= k < |geneSet| ==> Member(geneSet[k])
    }

    /** The set-up of `GA_Strategy`: the operation tables first, then the
        inverse process table. */
    method BuildLookups(job: seq<seq<Op>>)
      requires Blank() && InBounds(job)
      modifies this
      ensures jobs == job && Loaded()
      ensures geneSet == old(geneSet)
    {
      jobs := job;
      FillOperationTables(job);
      FillProcessMatrix(job);
    }

    /** The first set-up loop: count the operations, find the longest job, and
        record machine and time per job and process index. */
    method FillOperationTables(job: seq<seq<Op>>)
      requires Blank() && |job| <= MaxSize && forall i :: 0 <= i < |job| ==> |job[i]| <= MaxSize
      modifies this`machineMatrix, this`timeMatrix, this`chromosomeSize, this`processNumber
      ensures machineMatrix == MachineTable(job) && timeMatrix == TimeTable(job)
      ensures chromosomeSize == TotalOps(job) && processNumber == MaxOps(job)
    {
      OpsFillStart(job);
      var i := 0;
      while i < |job|
        invariant 0 <= i <= |job|
        invariant chromosomeSize == TotalOps(job[..i]) && processNumber == MaxOps(job[..i])
        invariant OpsFilled(job, i, 0, machineMatrix, timeMatrix)
      {
        assert job[..i + 1][..i] == job[..i];
        chromosomeSize := chromosomeSize + |job[i]|;
        processNumber := if processNumber < |job[i]| then |job[i]| else processNumber;
        RecordOperations(job, i);
        i := i + 1;
      }
      assert job[..|job|] == job;
      OpsFillDone(job, machineMatrix, timeMatrix);
    }

    /** The inner loop of the first set-up loop, for job `i`: the machine and
        time of each of its operations are recorded. */
    method RecordOperations(job: seq<seq<Op>>, i: nat)
      requires |job| <= MaxSize && i < |job| && |job[i]| <= MaxSize
      requires OpsFilled(job, i, 0, machineMatrix, timeMatrix)
      modifies this`machineMatrix, this`timeMatrix
      ensures OpsFilled(job, i + 1, 0, machineMatrix, timeMatrix)
    {
      var j := 0;
      while j < |job[i]|
        invariant 0 <= j <= |job[i]|
        invariant OpsFilled(job, i, j, machineMatrix, timeMatrix)
      {
        OpsFillStep(job, i, j, machineMatrix, timeMatrix);
        machineMatrix := machineMatrix[i := machineMatrix[i][j := job[i][j].machine]];
        timeMatrix := timeMatrix[i := timeMatrix[i][j := job[i][j].time]];
        j := j + 1;
      }
      OpsFillRow(job, i, machineMatrix, timeMatrix);
    }

    /** The second set-up loop: for every real operation `j` of job `i`,
        record `j` as the process of job `i` on that operation's machine. */
    method FillProcessMatrix(job: seq<seq<Op>>)
      requires InBounds(job) && machineMatrix == MachineTable(job) && processNumber == MaxOps(job)
      requires processMatrix == Fill(-1)
      modifies this`processMatrix
      ensures processMatrix == ProcessTable(job)
    {
      MaxOpsBounds(job);
      ProcessFillStart(job);
      var i := 0;
      while i < |job|
        invariant 0 <= i <= |job|
        invariant ProcessFilled(job, i, 0, processMatrix)
      {
        RecordProcesses(job, i);
        i := i + 1;
      }
      ProcessFillDone(job, processMatrix);
    }

    /** The inner loop of the second set-up loop, for job `i`: every process
        index below `processNumber` that is a real operation of job `i` is
        recorded on that operation's machine. */
    method RecordProcesses(job: seq<seq<Op>>, i: nat)
      requires InBounds(job) && i < |job| && machineMatrix == MachineTable(job) && processNumber == MaxOps(job)
      requires ProcessFilled(job, i, 0, processMatrix)
      modifies this`processMatrix
      ensures ProcessFilled(job, i + 1, 0, processMatrix)
    {
      MaxOpsBounds(job);
      var j := 0;
      while j < processNumber
        invariant 0 <= j <= processNumber
        invariant ProcessFilled(job, i, j, processMatrix)
      {
        ProcessFillStep(job, i, j, processMatrix);
        if machineMatrix[i][j] != -1 {
          processMatrix := processMatrix[i := processMatrix[i][machineMatrix[i][j] := j]];
        }
        j := j + 1;
      }
      ProcessFillRow(job, i, j, processMatrix);
    }

    /** One pass of the decoding loop of `calculateFitness` for job `jobId`:
        the job moves to its next process, which starts when both the job's
        previous process and its machine are done; the machine is busy until
        the process ends and the makespan is raised to that end. */
    method ScheduleNext(result: Result, jobId: int) returns (next: Result)
      requires Grid(machineMatrix) && Grid(timeMatrix) && Shaped(result) && 0 <= jobId < MaxSize
      requires StepOk(machineMatrix, jobId, result.processIds[jobId])
      ensures next == Step(machineMatrix, timeMatrix, result, jobId)
    {
      var processIds, startTime, endTime, machineWorkTime, fulfillTime :=
        result.processIds, result.startTime, result.endTime, result.machineWorkTime, result.fulfillTime;
      var processId := processIds[jobId];
      var machineId := machineMatrix[jobId][processId];
      var time := timeMatrix[jobId][processId];
      processIds := processIds[jobId := processIds[jobId] + 1];
      var start := if processId == 0 then machineWorkTime[machineId]
                   else Max(endTime[jobId][processId - 1], machineWorkTime[machineId]);
      startTime := startTime[jobId := startTime[jobId][processId := start]];
      machineWorkTime := machineWorkTime[machineId := startTime[jobId][processId] + time];
      endTime := endTime[jobId := endTime[jobId][processId := machineWorkTime[machineId]]];
      fulfillTime := Max(fulfillTime, machineWorkTime[machineId]);
      next := Result(processIds, startTime, endTime, machineWorkTime, fulfillTime);
    }

    /** `calculateFitness`: decode the chromosome of `g` left to right into a
        schedule, starting from the all-zero `Result`. */
    method CalculateFitness(g: Gene) returns (result: Result)
      requires Grid(machineMatrix) && Grid(timeMatrix) && Decodable(machineMatrix, g.chromosome[..])
      ensures result == Decode(machineMatrix, timeMatrix, g.chromosome[..])
    {
      ghost var c := g.chromosome[..];
      result := NewResult();
      assert c[..0] == [];
      var i := 0;
      while i < g.chromosome.Length
        invariant 0 <= i <= g.chromosome.Length
        invariant result == Before(machineMatrix, timeMatrix, c, i)
      {
        BeforeStep(machineMatrix, timeMatrix, c, i);
        result := ScheduleNext(result, g.chromosome[i]);
        i := i + 1;
      }
      BeforeAll(machineMatrix, timeMatrix, c);
    }

    /** The fitness of each individual, in population order. */
    function Fitnesses(): (f: seq<int>)
      reads this, geneSet
      ensures |f| == |geneSet| && forall k :: 0 <= k < |geneSet| ==> f[k] == geneSet[k].fitness
    {
      seq(|geneSet|, k reads this, geneSet requires 0 <= k < |geneSet| => geneSet[k].fitness)
    }

    /** `initialPopulation`: `populationNumber` new individuals are appended
        to the population, the `i`-th holding the placement the draws
        `draws[i]` give and rated with its makespan. The old individuals and
        the tables are left alone. */
    method InitialPopulation(draws: seq<seq<nat>>)
      requires Consistent() && |draws| == populationNumber
      requires forall i :: 0 <= i < |draws| ==>
        |draws[i]| == jobNumber * machineNumber && CanDraw(jobNumber * machineNumber, draws[i])
      modifies this`geneSet
      ensures jobs == old(jobs) && machineMatrix == old(machineMatrix) && timeMatrix == old(timeMatrix)
      ensures processMatrix == old(processMatrix) && chromosomeSize == old(chromosomeSize)
      ensures processNumber == old(processNumber) && Consistent()
      ensures |geneSet| == |old(geneSet)| + populationNumber && geneSet[..|old(geneSet)|] == old(geneSet)
      ensures forall k :: |old(geneSet)| <= k < |geneSet| ==>
        geneSet[k].chromosome[..] == InitialChromosome(processMatrix, jobNumber, machineNumber, draws[k - |old(geneSet)|])
      ensures forall k :: |old(geneSet)| <= k < |geneSet| ==> Rated(machineMatrix, timeMatrix, geneSet[k])
    {
      var added := NewIndividuals(draws);
      geneSet := geneSet + added;
    }

    /** What `initialPopulation` leaves behind is proper: the individuals it
        appended after the first `n`, built from `draws`, are proper genes of
        the instance, so a proper prefix makes a proper population. */
    lemma InitialPopulationProper(n: nat, draws: seq<seq<nat>>)
      requires Consistent() && n + |draws| == |geneSet|
      requires forall i :: 0 <= i < |draws| ==>
        |draws[i]| == jobNumber * machineNumber && CanDraw(jobNumber * machineNumber, draws[i])
      requires forall k :: n <= k < |geneSet| ==>
        geneSet[k].chromosome[..] == InitialChromosome(processMatrix, jobNumber, machineNumber, draws[k - n])
      requires forall k :: n <= k < |geneSet| ==> Rated(machineMatrix, timeMatrix, geneSet[k])
      ensures forall k :: n <= k < |geneSet| ==> Member(geneSet[k])
      ensures (forall k :: 0 <= k < n ==> Member(geneSet[k])) <==> Population()
    {
      forall k | n <= k < |geneSet|
        ensures Member(geneSet[k])
      {
        BornMember(geneSet[k], draws[k - n]);
      }
    }

    /** `geneSet.add(child)` in the generation loop: the gene joins the
        population after the others; a proper gene keeps the population
        proper. */
    method AddGene(g: Gene)
      modifies this`geneSet
      ensures geneSet == old(geneSet) + [g]
      ensures old(Population()) && Member(g) ==> Population()
    {
      geneSet := geneSet + [g];
    }

    /** The loop of `initialPopulation`: one new individual per entry of
        `draws`, in order. */
    method NewIndividuals(draws: seq<seq<nat>>) returns (added: seq<Gene>)
      requires Consistent()
      requires forall i :: 0 <= i < |draws| ==>
        |draws[i]| == jobNumber * machineNumber && CanDraw(jobNumber * machineNumber, draws[i])
      ensures |added| == |draws|
      ensures forall k :: 0 <= k < |added| ==> Born(added[k], draws[k])
    {
      added := [];
      var i := 0;
      while i < |draws|
        invariant 0 <= i <= |draws| && |added| == i
        invariant forall k :: 0 <= k < i ==> allocated(added[k]) && Born(added[k], draws[k])
      {
        var g := NewIndividual(draws[i]);
        added := added + [g];
        i := i + 1;
      }
    }

    /** An individual `initialPopulation` builds for the loaded instance is
        a proper one: a chromosome of the instance, `chromosomeSize` long. */
    lemma BornMember(g: Gene, d: seq<nat>)
      requires Consistent() && Born(g, d)
      ensures IsChromosome(jobs, g.chromosome[..]) && Member(g)
    {
      InitialChromosomeValid(jobNumber, machineNumber, jobs, d);
      ChromosomeLength(jobs, g.chromosome[..]);
    }

    /** `g` is the individual `initialPopulation` builds from the draws `d`:
        it holds the placement those draws give and is rated with its
        makespan. */
    ghost predicate Born(g: Gene, d: seq<nat>)
      reads this`processMatrix, this`machineMatrix, this`timeMatrix, g, g.chromosome
    {
      Grid(processMatrix) && jobNumber <= MaxSize && machineNumber <= MaxSize &&
      |d| == jobNumber * machineNumber && CanDraw(jobNumber * machineNumber, d) &&
      g.chromosome[..] == InitialChromosome(processMatrix, jobNumber, machineNumber, d) &&
      Rated(machineMatrix, timeMatrix, g)
    }

    method NewIndividual(draws: seq<nat>) returns (g: Gene)
      requires Consistent()
      requires |draws| == jobNumber * machineNumber && CanDraw(jobNumber * machineNumber, draws)
      ensures Born(g, draws)
    {
      var c := NewChromosome(draws);
      assert IsChromosome(jobs, c) && Decodable(machineMatrix, c) by {
        InitialChromosomeValid(jobNumber, machineNumber, jobs, draws);
      }
      g := NewGene(c);
    }

    /** One individual of `initialPopulation`: for every job `j` below
        `jobNumber` and machine `k` below `machineNumber`, in that order, a
        position is drawn without replacement from 0 .. size - 1; it receives
        `j` when job `j` uses machine `k`. The unused positions are filtered
        out. Job `j` therefore occurs once per machine it uses. */
    method NewChromosome(draws: seq<nat>) returns (chromosome: seq<int>)
      requires Grid(processMatrix) && jobNumber <= MaxSize && machineNumber <= MaxSize
      requires |draws| == jobNumber * machineNumber && CanDraw(jobNumber * machineNumber, draws)
      ensures chromosome == InitialChromosome(processMatrix, jobNumber, machineNumber, draws)
      ensures forall x :: 0 <= x < jobNumber ==> multiset(chromosome)[x] == CountReal(processMatrix[x], machineNumber)
      ensures forall i :: 0 <= i < |chromosome| ==> 0 <= chromosome[i] < jobNumber
    {
      var scratch := ScatterJobs(processMatrix, jobNumber, machineNumber, draws);
      chromosome := FilterArray(scratch, -1);
      InitialCounts(processMatrix, jobNumber, machineNumber, draws);
    }

    /** `crossGene(g1, g2)`: two cut points are drawn without replacement
        from 0 .. chromosomeSize - 1; the slice of `g1` between them (both
        included) is removed, first match by first match, from a copy of
        `g2` and put back in at the smaller cut point. The child is a new
        gene whose fitness is that of its schedule. */
    method CrossGene(g1: Gene, g2: Gene, draws: seq<nat>) returns (child: Gene)
      requires Consistent() && IsChromosome(jobs, g1.chromosome[..]) && IsChromosome(jobs, g2.chromosome[..])
      requires multiset(g1.chromosome[..]) == multiset(g2.chromosome[..])
      requires |draws| == 2 && CanDraw(chromosomeSize, draws)
      ensures fresh(child) && fresh(child.chromosome)
      ensures chromosomeSize == g1.chromosome.Length
      ensures child.chromosome[..] == CrossChild(g1.chromosome[..], g2.chromosome[..], draws)
      ensures IsChromosome(jobs, child.chromosome[..]) && Evaluated(child) && Member(child)
    {
      ghost var a, b := g1.chromosome[..], g2.chromosome[..];
      assert |a| == |b| == |CrossChild(a, b, draws)| == chromosomeSize && IsChromosome(jobs, CrossChild(a, b, draws)) &&
             Grid(machineMatrix) && Grid(timeMatrix) && Decodable(machineMatrix, CrossChild(a, b, draws)) by {
        ChildFacts(jobs, a, b, draws);
      }
      var temp, start, end := CrossChromosomes(g1.chromosome, g2.chromosome, draws);
      child := NewGene(temp);
      assert g1.chromosome[..] == a && g2.chromosome[..] == b;
    }

    /** A new gene holding `chromosome`, with the fitness of its schedule
        (`new Gene()`, the chromosome set from the list, and the fitness from
        `calculateFitness`). */
    method NewGene(chromosome: seq<int>) returns (g: Gene)
      requires Grid(machineMatrix) && Grid(timeMatrix) && Decodable(machineMatrix, chromosome)
      ensures fresh(g) && fresh(g.chromosome)
      ensures g.chromosome[..] == chromosome && Evaluated(g)
    {
      g := new Gene();
      g.chromosome := ToArray(chromosome);
      Rate(g);
    }

    /** `gene.fitness = calculateFitness(gene)`: the fitness becomes the
        makespan of the gene's schedule, and the chromosome is left alone. */
    method Rate(g: Gene)
      requires Grid(machineMatrix) && Grid(timeMatrix) && Decodable(machineMatrix, g.chromosome[..])
      modifies g
      ensures g.chromosome == old(g.chromosome) && g.chromosome[..] == old(g.chromosome[..]) && Evaluated(g)
    {
      var r := CalculateFitness(g);
      g.fitness := r.fulfillTime;
    }

    /** `selectGene(n)`: `n` indices of the population are drawn without
        replacement into a map; the scan then starts from a placeholder of
        fitness 0xfffff and keeps every mapped individual whose fitness is
        strictly smaller than that of the one kept so far. */
    method SelectGene(n: nat, draws: seq<nat>) returns (best: Gene)
      requires |draws| == n && CanDraw(|geneSet|, draws)
      ensures var r := Tournament(Fitnesses(), Chosen(|geneSet|, draws), SelectSentinel);
        (r == -1 ==> fresh(best) && best.chromosome.Length == 0 && best.fitness == SelectSentinel) && (r != -1 ==> best == geneSet[r])
    {
      var chosen := DrawIndices(|geneSet|, draws);
      best := new Gene.WithFitness(SelectSentinel);
      ghost var fits := Fitnesses();
      ghost var r := -1;
      assert fits[..0] == [];
      var i := 0;
      while i < |geneSet|
        invariant 0 <= i <= |geneSet| && r == Tournament(fits[..i], chosen.Keys, SelectSentinel)
        invariant best.fitness == Kept(fits[..i], r, SelectSentinel)
        invariant r == -1 ==> fresh(best) && best.chromosome.Length == 0
        invariant r != -1 ==> best == geneSet[r]
      {
        assert fits[..i + 1][..i] == fits[..i];
        if i in chosen {
          if best.fitness > geneSet[i].fitness {
            best := geneSet[i];
            r := i;
          }
        }
        i := i + 1;
      }
      assert fits[..|geneSet|] == fits;
    }

    /** `selectGene()`: a tournament of three. */
    method SelectGeneThree(draws: seq<nat>) returns (best: Gene)
      requires |draws| == 3 && CanDraw(|geneSet|, draws)
      ensures var r := Tournament(Fitnesses(), Chosen(|geneSet|, draws), SelectSentinel);
        (r == -1 ==> fresh(best) && best.chromosome.Length == 0 && best.fitness == SelectSentinel) && (r != -1 ==> best == geneSet[r])
    {
      best := SelectGene(3, draws);
    }

    /** The final scan of `GA_Strategy`: starting from a placeholder of
        fitness 0xffffff, keep every individual whose fitness is strictly
        smaller than that of the one kept so far. */
    method BestGene() returns (best: Gene)
      ensures var r := Tournament(Fitnesses(), AllIndices(|geneSet|), BestSentinel);
        (r == -1 ==> fresh(best) && best.chromosome.Length == 0 && best.fitness == BestSentinel) && (r != -1 ==> best == geneSet[r])
    {
      best := new Gene.WithFitness(BestSentinel);
      AllIndicesFacts(|geneSet|);
      ghost var fits := Fitnesses();
      ghost var r := -1;
      assert fits[..0] == [];
      var i := 0;
      while i < |geneSet|
        invariant 0 <= i <= |geneSet| && r == Tournament(fits[..i], AllIndices(|geneSet|), BestSentinel)
        invariant best.fitness == Kept(fits[..i], r, BestSentinel)
        invariant r == -1 ==> fresh(best) && best.chromosome.Length == 0
        invariant r != -1 ==> best == geneSet[r]
      {
        assert fits[..i + 1][..i] == fits[..i];
        if best.fitness > geneSet[i].fitness {
          best := geneSet[i];
          r := i;
        }
        i := i + 1;
      }
      assert fits[..|geneSet|] == fits;
    }

    /** `mutationGene(gene, n)`: `n` times, two positions are drawn without
        replacement from 0 .. chromosomeSize - 1 and the genes there are
        exchanged in place; then the fitness is recomputed. */
    method MutationGene(gene: Gene, n: nat, draws: seq<nat>) returns (mutated: Gene)
      requires Consistent() && IsChromosome(jobs, gene.chromosome[..])
      requires gene.chromosome.Length == chromosomeSize
      requires |draws| == 2 * n && CanDraw(chromosomeSize, draws)
      modifies gene, gene.chromosome
      ensures mutated == gene && gene.chromosome == old(gene.chromosome)
      ensures gene.chromosome[..] == ApplySwaps(old(gene.chromosome[..]), DrawnPairs(chromosomeSize, draws))
      ensures IsChromosome(jobs, gene.chromosome[..]) && Evaluated(gene) && Member(gene)
    {
      MutantFacts(jobs, gene.chromosome[..], draws);
      SwapDrawn(gene.chromosome, n, draws);
      Rate(gene);
      mutated := gene;
    }

    /** `mutationGene(gene)`: two swaps. */
    method MutationGeneTwice(gene: Gene, draws: seq<nat>) returns (mutated: Gene)
      requires Consistent() && IsChromosome(jobs, gene.chromosome[..])
      requires gene.chromosome.Length == chromosomeSize
      requires |draws| == 4 && CanDraw(chromosomeSize, draws)
      modifies gene, gene.chromosome
      ensures mutated == gene && gene.chromosome == old(gene.chromosome)
      ensures gene.chromosome[..] == ApplySwaps(old(gene.chromosome[..]), DrawnPairs(chromosomeSize, draws))
      ensures IsChromosome(jobs, gene.chromosome[..]) && Evaluated(gene) && Member(gene)
    {
      mutated := MutationGene(gene, 2, draws);
    }
  }

  /** The loops of `initialPopulation` that fill the scratch array for one
      individual: an array of `rows * cols` entries, all `-1`, and the list
      0 .. rows * cols - 1 of free positions; then, job by job and machine by
      machine, one draw from that list. */
  method ScatterJobs(pm: seq<seq<int>>, rows: nat, cols: nat, draws: seq<nat>) returns (scratch: array<int>)
    requires rows <= |pm| && forall i :: 0 <= i < rows ==> cols <= |pm[i]|
    requires |draws| == rows * cols && CanDraw(rows * cols, draws)
    ensures fresh(scratch) && scratch[..] == Scatter(rows * cols, Wanted(pm, rows, cols), draws)
  {
    var size := rows * cols;
    var indexList := MakeList(size);
    scratch := new int[size](_ => -1);
    PlacedStart(pm, cols, draws, scratch[..]);
    var t: nat := 0;  // number of draws consumed
    var j := 0;
    while j < rows
      invariant 0 <= j <= rows && Placed(pm, j, cols, draws, t, scratch[..], indexList)
    {
      assert t + cols <= |draws| by {
        RowLayout(j, rows, cols);
      }
      indexList, t := PlaceJob(pm, j, cols, scratch, draws, t, indexList);
      j := j + 1;
    }
    assert draws[..t] == draws;
  }

  /** One pass of the outer loop of `initialPopulation`: the draws for job
      `j`, one per machine below `cols`, extend the placement of jobs
      0 .. j - 1 to jobs 0 .. j. */
  method PlaceJob(pm: seq<seq<int>>, j: nat, cols: nat, scratch: array<int>, draws: seq<nat>, t: nat,
                  indexList: seq<int>)
    returns (indexList': seq<int>, t': nat)
    requires j < |pm| && cols <= |pm[j]| && t + cols <= |draws| && CanDraw(|draws|, draws)
    requires Placed(pm, j, cols, draws, t, scratch[..], indexList)
    modifies scratch
    ensures t' == t + cols && Placed(pm, j + 1, cols, draws, t', scratch[..], indexList')
  {
    PlacingStart(pm, j, cols, draws, t, scratch[..], indexList);
    indexList', t' := PlaceMachines(pm[j], j, cols, scratch, draws, t, indexList, Wanted(pm, j, cols));
    PlacingDone(pm, j, cols, draws, t', scratch[..], indexList');
  }

  /** The inner loop of `initialPopulation` for job `j`, whose process-table
      row is `row`: one draw per machine below `cols`; the drawn position
      receives `j` when job `j` uses the machine. `w` is what the draws
      before this job wanted written. */
  method PlaceMachines(row: seq<int>, j: nat, cols: nat, scratch: array<int>, draws: seq<nat>, t: nat,
                       indexList: seq<int>, ghost w: seq<int>)
    returns (indexList': seq<int>, t': nat)
    requires cols <= |row| && t + cols <= |draws| && CanDraw(|draws|, draws)
    requires Placing(row, j, 0, w, draws, t, scratch[..], indexList)
    modifies scratch
    ensures t' == t + cols && Placing(row, j, cols, w, draws, t', scratch[..], indexList')
  {
    indexList' := indexList;
    t' := t;
    for k := 0 to cols
      invariant t' == t + k && Placing(row, j, k, w, draws, t', scratch[..], indexList')
    {
      indexList', t' := PlaceDraw(row, j, k, scratch, draws, t', indexList', w);
    }
  }

  /** One draw of the inner loop, for machine `k`: the position at index
      `draws[t]` of the positions not yet drawn is taken out of `indexList`
      and receives `j` when job `j` uses machine `k`. `w` is what the draws
      before this job wanted written. */
  method PlaceDraw(row: seq<int>, j: nat, k: nat, scratch: array<int>, draws: seq<nat>, t: nat,
                   indexList: seq<int>, ghost w: seq<int>)
    returns (indexList': seq<int>, t': nat)
    requires k < |row| && t < |draws| && CanDraw(|draws|, draws)
    requires Placing(row, j, k, w, draws, t, scratch[..], indexList)
    modifies scratch
    ensures t' == t + 1 && Placing(row, j, k + 1, w, draws, t', scratch[..], indexList')
  {
    t' := t + 1;
    ghost var e := if row[k] != -1 then j else -1;
    ScatterStep(scratch.Length, w + RowWanted(row, j, k), e, draws, t);
    assert w + RowWanted(row, j, k + 1) == w + RowWanted(row, j, k) + [e];
    var index := draws[t];
    var val := indexList[index];
    indexList' := RemoveAt(indexList, index);
    if row[k] != -1 {
      scratch[val] := j;
    }
  }


  /** `g` decodes under the machine table `mm` without an out-of-range
      access and its fitness is the makespan of its schedule under `mm` and
      the time table `tm`. */
  predicate Rated(mm: seq<seq<int>>, tm: seq<seq<int>>, g: Gene)
    reads g, g.chromosome
  {
    Grid(mm) && Grid(tm) && Decodable(mm, g.chromosome[..]) &&
    g.fitness == Decode(mm, tm, g.chromosome[..]).fulfillTime
  }

  /** A chromosome `initialPopulation` builds for a loaded instance is a
      chromosome of that instance and decodes without an out-of-range
      access. */
  lemma InitialChromosomeValid(jobNumber: nat, machineNumber: nat, jobs: seq<seq<Op>>, draws: seq<nat>)
    requires WellFormed(jobNumber, machineNumber, jobs)
    requires |draws| == jobNumber * machineNumber && CanDraw(jobNumber * machineNumber, draws)
    ensures var c := InitialChromosome(ProcessTable(jobs), jobNumber, machineNumber, draws);
      IsChromosome(jobs, c) && Decodable(MachineTable(jobs), c)
  {
    var c := InitialChromosome(ProcessTable(jobs), jobNumber, machineNumber, draws);
    InitialCounts(ProcessTable(jobs), jobNumber, machineNumber, draws);
    PlacedChromosome(jobNumber, machineNumber, jobs, c);
    ChromosomeDecodable(jobs, c);
  }

  /** The child of two chromosomes of an instance is a chromosome of that
      instance and decodes without an out-of-range access; the parents are
      as long as the instance has operations. */
  lemma ChildFacts(jobs: seq<seq<Op>>, a: seq<int>, b: seq<int>, draws: seq<nat>)
    requires InBounds(jobs) && IsChromosome(jobs, a) && IsChromosome(jobs, b)
    requires multiset(a) == multiset(b) && |draws| == 2 && CanDraw(TotalOps(jobs), draws)
    ensures |a| == |b| == TotalOps(jobs)
    ensures |CrossChild(a, b, draws)| == TotalOps(jobs)
    ensures IsChromosome(jobs, CrossChild(a, b, draws)) && Decodable(MachineTable(jobs), CrossChild(a, b, draws))
  {
    ChromosomeLength(jobs, a);
    ChromosomeLength(jobs, b);
    var cut := CutPoints(|a|, draws);
    CrossFacts(a, b, cut.0, cut.1);
    PermutedChromosome(jobs, b, CrossChild(a, b, draws));
    ChromosomeLength(jobs, CrossChild(a, b, draws));
    ChromosomeDecodable(jobs, CrossChild(a, b, draws));
  }

  /** A chromosome of an instance with drawn pairs of positions swapped is a
      chromosome of that instance and decodes without an out-of-range
      access. */
  lemma MutantFacts(jobs: seq<seq<Op>>, c: seq<int>, draws: seq<nat>)
    requires InBounds(jobs) && IsChromosome(jobs, c)
    requires |draws| % 2 == 0 && CanDraw(|c|, draws)
    ensures var m := ApplySwaps(c, DrawnPairs(|c|, draws));
      IsChromosome(jobs, m) && Decodable(MachineTable(jobs), m)
  {
    var m := ApplySwaps(c, DrawnPairs(|c|, draws));
    ApplySwapsMultiset(c, DrawnPairs(|c|, draws));
    PermutedChromosome(jobs, c, m);
    ChromosomeDecodable(jobs, m);
  }

  /** The map of `selectGene`: `n` indices drawn without replacement from
      0 .. size - 1, each mapped to `true`. */
  method DrawIndices(size: nat, draws: seq<nat>) returns (chosen: map<int, bool>)
    requires CanDraw(size, draws)
    ensures chosen.Keys == Chosen(size, draws)
  {
    var indexList := MakeList(size);
    assert indexList == Range(size);
    chosen := map[];
    assert draws[..0] == [];
    var i := 0;
    while i < |draws|
      invariant 0 <= i <= |draws| && CanDraw(size, draws[..i])
      invariant indexList == Remaining(Range(size), draws[..i])
      invariant chosen.Keys == Chosen(size, draws[..i])
    {
      SampleStep(Range(size), draws, i);
      chosen := chosen[indexList[draws[i]] := true];
      indexList := RemoveAt(indexList, draws[i]);
      i := i + 1;
    }
    assert draws[..|draws|] == draws;
  }

  /** The list surgery of `crossGene` on parents `g1` and `g2` of the same
      length: draw the cut points, copy the slice of `g1` between them, remove
      its values first match by first match from a copy of `g2`, and splice
      the slice back in at the smaller cut point. */
  method CrossChromosomes(g1: array<int>, g2: array<int>, draws: seq<nat>)
    returns (temp: seq<int>, start: nat, end: nat)
    requires multiset(g1[..]) == multiset(g2[..]) && g1.Length == g2.Length
    requires |draws| == 2 && CanDraw(g1.Length, draws)
    ensures (start, end) == CutPoints(g1.Length, draws) && temp == CrossChild(g1[..], g2[..], draws)
  {
    ghost var a, b := g1[..], g2[..];
    start, end := DrawCutPoints(g1.Length, draws);
    var proto := SubArray(g1, start, end + 1);
    var t := CopyList(g2);
    t := RemoveMatches(t, proto);
    CrossDefined(a, b, start, end);
    assert t[..start] + (proto + t[start..]) == t[..start] + proto + t[start..];
    proto := proto + t[start..];
    temp := t[..start] + proto;
  }

  /** The cut-point draws of `crossGene`: two positions removed from the
      list 0 .. n - 1 at the drawn indices, smaller one first. */
  method DrawCutPoints(n: nat, draws: seq<nat>) returns (start: nat, end: nat)
    requires |draws| == 2 && CanDraw(n, draws)
    ensures (start, end) == CutPoints(n, draws)
  {
    var indexList := MakeList(n);
    assert indexList == Range(n);
    DrawnPairStep(n, draws, 0);
    assert draws[..0] == [] && draws[..2] == draws;
    var p1 := indexList[draws[0]];
    indexList := RemoveAt(indexList, draws[0]);
    var p2 := indexList[draws[1]];
    indexList := RemoveAt(indexList, draws[1]);
    start := if p1 < p2 then p1 else p2;
    end := if p1 < p2 then p2 else p1;
  }

  /** The copy loop of `crossGene`: the elements of the array, in order. */
  method CopyList(arr: array<int>) returns (list: seq<int>)
    ensures list == arr[..]
  {
    list := [];
    var i := 0;
    while i < arr.Length
      invariant 0 <= i <= arr.Length && list == arr[..i]
    {
      list := list + [arr[i]];
      i := i + 1;
    }
  }

  /** The removal loops of `crossGene`: for each value of `proto` in turn,
      the first equal element of `t`, if any, is removed. */
  method RemoveMatches(t: seq<int>, proto: seq<int>) returns (rest: seq<int>)
    ensures rest == RemoveEach(t, proto)
  {
    rest := t;
    var v := 0;
    while v < |proto|
      invariant 0 <= v <= |proto| && rest == RemoveEach(t, proto[..v])
    {
      assert proto[..v + 1][..v] == proto[..v];
      var val := proto[v];
      ghost var before := rest;
      var i := 0;
      while i < |rest|
        invariant 0 <= i <= |rest| && rest == before
        invariant forall q :: 0 <= q < i ==> rest[q] != val
      {
        if val == rest[i] {
          FirstIndexAt(rest, val, i);
          rest := RemoveAt(rest, i);
          break;
        }
        i := i + 1;
      }
      assert rest == RemoveFirst(before, val);
      v := v + 1;
    }
    assert proto[..|proto|] == proto;
  }

  /** The swap loop of `mutationGene`: `n` times, two positions are drawn
      without replacement from 0 .. chromosome.Length - 1 and the genes
      there are exchanged. */
  method SwapDrawn(chromosome: array<int>, n: nat, draws: seq<nat>)
    requires |draws| == 2 * n && CanDraw(chromosome.Length, draws)
    modifies chromosome
    ensures chromosome[..] == ApplySwaps(old(chromosome[..]), DrawnPairs(chromosome.Length, draws))
  {
    ghost var s0 := chromosome[..];
    var indexList := MakeList(chromosome.Length);
    assert draws[..0] == [];
    var i := 0;
    while i < n
      invariant 0 <= i <= n && Swapping(s0, draws, i, chromosome[..], indexList)
    {
      indexList := SwapPair(chromosome, draws, i, indexList, s0);
      i := i + 1;
    }
    assert draws[..2 * n] == draws;
  }

  /** Swap `i` of `mutationGene`: the positions at indices `draws[2 * i]`
      and `draws[2 * i + 1]` of the list of positions not yet drawn are each
      taken out in turn, and the entries at those positions are exchanged. */
  method SwapPair(chromosome: array<int>, draws: seq<nat>, i: nat, indexList: seq<int>, ghost s0: seq<int>)
    returns (indexList': seq<int>)
    requires 2 * i + 2 <= |draws| && CanDraw(chromosome.Length, draws)
    requires Swapping(s0, draws, i, chromosome[..], indexList)
    modifies chromosome
    ensures Swapping(s0, draws, i + 1, chromosome[..], indexList')
  {
    var size := chromosome.Length;
    DrawnPairStep(size, draws, 2 * i);
    ApplySwapsStep(s0, DrawnPairs(size, draws[..2 * i]), indexList[draws[2 * i]],
                   RemoveAt(indexList, draws[2 * i])[draws[2 * i + 1]]);
    ghost var before := chromosome[..];
    var a := indexList[draws[2 * i]];
    indexList' := RemoveAt(indexList, draws[2 * i]);
    var b := indexList'[draws[2 * i + 1]];
    indexList' := RemoveAt(indexList', draws[2 * i + 1]);
    var t := chromosome[a];
    chromosome[a] := chromosome[b];
    chromosome[b] := t;
    assert chromosome[..] == Swap(before, a, b);
    assert 2 * (i + 1) == 2 * i + 2;
  }

  /** In a grid with `cols` columns laid out row by row, row `j` ends where
      row `j + 1` starts, and the first `j <= rows` rows fit in `rows` rows. */
  lemma RowLayout(j: nat, rows: nat, cols: nat)
    requires j < rows
    ensures j * cols + cols == (j + 1) * cols <= rows * cols
  {
    assert (j + 1) * cols <= rows * cols by {
      assert j + 1 <= rows;
    }
  }
}
