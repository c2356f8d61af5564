/** The problem instance (jobs as ordered lists of machine/time operations)
    and the three lookup tables the engine derives from it: job x process
    index -> machine, job x process index -> time, and the inverse
    job x machine -> process index. The engine stores them in fixed
    1024 x 1024 tables; unused machine and process entries hold -1 and unused
    time entries hold 0. */
module Instance {

  /** Side of the engine's fixed lookup tables. */
  const MaxSize: nat := 1024

  /** One operation of a job: the machine it needs and its processing time. */
  datatype Op = Op(machine: int, time: int)

  /** A MaxSize x MaxSize table. */
  predicate Grid(t: seq<seq<int>>)
  {
    |t| == MaxSize && forall a :: 0 <= a < MaxSize ==> |t[a]| == MaxSize
  }

  /** A table holding `v` everywhere (the engine's initial tables). */
  function Fill(v: int): (g: seq<seq<int>>)
    ensures Grid(g)
    ensures forall a, b :: 0 <= a < MaxSize && 0 <= b < MaxSize ==> g[a][b] == v
  {
    seq(MaxSize, _ => seq(MaxSize, _ => v))
  }

  /** The input fits the tables without an out-of-range access. */
  predicate InBounds(jobs: seq<seq<Op>>)
  {
    |jobs| <= MaxSize &&
    forall i :: 0 <= i < |jobs| ==>
      |jobs[i]| <= MaxSize &&
      forall p :: 0 <= p < |jobs[i]| ==> 0 <= jobs[i][p].machine < MaxSize
  }

  /** No job visits a machine twice. */
  predicate DistinctMachines(job: seq<Op>)
  {
    forall p, q :: 0 <= p < q < |job| ==> job[p].machine != job[q].machine
  }

  /** The instance is consistent with the configured job and machine counts:
      at most `jobNumber` jobs, every machine id below `machineNumber`, and
      each job on each machine at most once. */
  predicate WellFormed(jobNumber: nat, machineNumber: nat, jobs: seq<seq<Op>>)
  {
    InBounds(jobs) && |jobs| <= jobNumber <= MaxSize && machineNumber <= MaxSize &&
    forall i :: 0 <= i < |jobs| ==>
      DistinctMachines(jobs[i]) &&
      forall p :: 0 <= p < |jobs[i]| ==> jobs[i][p].machine < machineNumber
  }

  /** `machineMatrix`: the machine of operation `p` of job `i`, or -1. */
  function MachineTable(jobs: seq<seq<Op>>): seq<seq<int>>
  {
    seq(MaxSize, i => seq(MaxSize, p =>
      if 0 <= i < |jobs| && 0 <= p < |jobs[i]| then jobs[i][p].machine else -1))
  }

  /** `timeMatrix`: the time of operation `p` of job `i`, or 0. */
  function TimeTable(jobs: seq<seq<Op>>): seq<seq<int>>
  {
    seq(MaxSize, i => seq(MaxSize, p =>
      if 0 <= i < |jobs| && 0 <= p < |jobs[i]| then jobs[i][p].time else 0))
  }

  /** The last of the first `n` operations of `job` that runs on machine `m`,
      or -1 if none does. */
  function LastProcess(job: seq<Op>, m: int, n: nat): (r: int)
    requires n <= |job|
    ensures -1 <= r < n
    ensures r >= 0 ==> job[r].machine == m && forall q :: r < q < n ==> job[q].machine != m
    ensures r == -1 ==> forall q :: 0 <= q < n ==> job[q].machine != m
  {
    if n == 0 then -1
    else if job[n - 1].machine == m then n - 1
    else LastProcess(job, m, n - 1)
  }

  /** `processMatrix`: the process index at which job `i` uses machine `m`,
      or -1. A job that visits a machine twice records its last visit. */
  function ProcessTable(jobs: seq<seq<Op>>): seq<seq<int>>
  {
    seq(MaxSize, i => seq(MaxSize, m =>
      if 0 <= i < |jobs| then LastProcess(jobs[i], m, |jobs[i]|) else -1))
  }

  /** `machineMatrix` and `timeMatrix` part way through the first set-up
      loop, at operation `j` of job `i`: jobs before `i` are recorded in
      full, job `i` for its operations before `j`, and everything else still
      holds -1 and 0. */
  ghost predicate OpsFilled(jobs: seq<seq<Op>>, i: nat, j: nat, mm: seq<seq<int>>, tm: seq<seq<int>>)
  {
    i <= |jobs| && Grid(mm) && Grid(tm) &&
    forall a, b :: 0 <= a < MaxSize && 0 <= b < MaxSize ==>
      var done := (a < i && b < |jobs[a]|) || (a == i < |jobs| && b < j && b < |jobs[a]|);
      mm[a][b] == (if done then jobs[a][b].machine else -1) &&
      tm[a][b] == (if done then jobs[a][b].time else 0)
  }

  /** The tables of -1 and 0 are where the first set-up loop starts. */
  lemma OpsFillStart(jobs: seq<seq<Op>>)
    ensures OpsFilled(jobs, 0, 0, Fill(-1), Fill(0))
  {
  }

  /** Handling operation `j` of job `i` records its machine and time. */
  lemma OpsFillStep(jobs: seq<seq<Op>>, i: nat, j: nat, mm: seq<seq<int>>, tm: seq<seq<int>>)
    requires |jobs| <= MaxSize && i < |jobs| && j < |jobs[i]| <= MaxSize && OpsFilled(jobs, i, j, mm, tm)
    ensures OpsFilled(jobs, i, j + 1, mm[i := mm[i][j := jobs[i][j].machine]], tm[i := tm[i][j := jobs[i][j].time]])
  {
  }

  /** Once every operation of job `i` is handled, the loop moves to job
      `i + 1`. */
  lemma OpsFillRow(jobs: seq<seq<Op>>, i: nat, mm: seq<seq<int>>, tm: seq<seq<int>>)
    requires i < |jobs| && OpsFilled(jobs, i, |jobs[i]|, mm, tm)
    ensures OpsFilled(jobs, i + 1, 0, mm, tm)
  {
  }

  /** After the last job the tables are `MachineTable` and `TimeTable`. */
  lemma OpsFillDone(jobs: seq<seq<Op>>, mm: seq<seq<int>>, tm: seq<seq<int>>)
    requires OpsFilled(jobs, |jobs|, 0, mm, tm)
    ensures mm == MachineTable(jobs) && tm == TimeTable(jobs)
  {
    forall a | 0 <= a < MaxSize ensures mm[a] == MachineTable(jobs)[a] && tm[a] == TimeTable(jobs)[a] { }
  }

  /** `processMatrix` part way through the second set-up loop, at operation
      `j` of job `i`: jobs before `i` are recorded in full, job `i` for its
      operations before `j`, and the rows after it still hold -1. */
  ghost predicate ProcessFilled(jobs: seq<seq<Op>>, i: nat, j: nat, pm: seq<seq<int>>)
  {
    i <= |jobs| && Grid(pm) &&
    forall a, m :: 0 <= a < MaxSize && 0 <= m < MaxSize ==>
      pm[a][m] ==
        (if a < i then LastProcess(jobs[a], m, |jobs[a]|)
         else if a == i < |jobs| then LastProcess(jobs[a], m, if j < |jobs[a]| then j else |jobs[a]|)
         else -1)
  }

  /** The table of -1 everywhere is where the second set-up loop starts. */
  lemma ProcessFillStart(jobs: seq<seq<Op>>)
    ensures ProcessFilled(jobs, 0, 0, Fill(-1))
  {
  }

  /** Handling operation `j` of job `i` records `j` for its machine, which
      now makes `j` the last of the operations before `j + 1` on that
      machine; a position past the job's last operation records nothing. */
  lemma ProcessFillStep(jobs: seq<seq<Op>>, i: nat, j: nat, pm: seq<seq<int>>)
    requires InBounds(jobs) && i < |jobs| && j < MaxSize && ProcessFilled(jobs, i, j, pm)
    ensures var m := MachineTable(jobs)[i][j];
      ProcessFilled(jobs, i, j + 1, if m != -1 then pm[i := pm[i][m := j]] else pm)
  {
    var m := MachineTable(jobs)[i][j];
    if m != -1 {
      var pm' := pm[i := pm[i][m := j]];
      forall a, x | 0 <= a < MaxSize && 0 <= x < MaxSize
        ensures pm'[a][x] ==
          (if a < i then LastProcess(jobs[a], x, |jobs[a]|)
           else if a == i < |jobs| then LastProcess(jobs[a], x, if j + 1 < |jobs[a]| then j + 1 else |jobs[a]|)
           else -1)
      {
        if a == i {
          assert LastProcess(jobs[i], x, j + 1) == if jobs[i][j].machine == x then j else LastProcess(jobs[i], x, j);
        }
      }
    }
  }

  /** Once every operation of job `i` is handled, the loop moves to job
      `i + 1`. */
  lemma ProcessFillRow(jobs: seq<seq<Op>>, i: nat, j: nat, pm: seq<seq<int>>)
    requires i < |jobs| && |jobs[i]| <= j && ProcessFilled(jobs, i, j, pm)
    ensures ProcessFilled(jobs, i + 1, 0, pm)
  {
  }

  /** After the last job the table is `ProcessTable`. */
  lemma ProcessFillDone(jobs: seq<seq<Op>>, pm: seq<seq<int>>)
    requires ProcessFilled(jobs, |jobs|, 0, pm)
    ensures pm == ProcessTable(jobs)
  {
    forall a | 0 <= a < MaxSize ensures pm[a] == ProcessTable(jobs)[a] { }
  }

  /** `chromosomeSize`: the total number of operations. */
  function TotalOps(jobs: seq<seq<Op>>): nat
    decreases |jobs|
  {
    if jobs == [] then 0 else TotalOps(jobs[..|jobs| - 1]) + |jobs[|jobs| - 1]|
  }

  /** `processNumber`: the largest number of operations of one job. */
  function MaxOps(jobs: seq<seq<Op>>): nat
    decreases |jobs|
  {
    if jobs == [] then 0
    else
      var m := MaxOps(jobs[..|jobs| - 1]);
      if m < |jobs[|jobs| - 1]| then |jobs[|jobs| - 1]| else m
  }

  lemma {:induction false} MaxOpsBounds(jobs: seq<seq<Op>>)
    ensures forall i :: 0 <= i < |jobs| ==> |jobs[i]| <= MaxOps(jobs)
    ensures InBounds(jobs) ==> MaxOps(jobs) <= MaxSize
    decreases |jobs|
  {
    if jobs != [] {
      var p := jobs[..|jobs| - 1];
      MaxOpsBounds(p);
      assert forall i :: 0 <= i < |p| ==> p[i] == jobs[i];
    }
  }

  /** A chromosome for the instance: job ids only, each job id occurring once
      per operation of that job. */
  predicate IsChromosome(jobs: seq<seq<Op>>, c: seq<int>)
  {
    (forall i :: 0 <= i < |c| ==> 0 <= c[i] < |jobs|) &&
    forall j :: 0 <= j < |jobs| ==> multiset(c)[j] == |jobs[j]|
  }

  /** The tables are inverse to each other on the real operations: the
      process index recorded for the machine of operation `p` is `p` itself
      (when machines are not repeated), and every recorded process index
      names a real operation on that machine. */
  lemma ProcessTableInverse(jobs: seq<seq<Op>>)
    requires InBounds(jobs)
    ensures forall i, m :: 0 <= i < MaxSize && 0 <= m < MaxSize && ProcessTable(jobs)[i][m] != -1 ==>
      i < |jobs| && 0 <= ProcessTable(jobs)[i][m] < |jobs[i]| &&
      MachineTable(jobs)[i][ProcessTable(jobs)[i][m]] == m
    ensures forall i, p :: 0 <= i < |jobs| && DistinctMachines(jobs[i]) && 0 <= p < |jobs[i]| ==>
      ProcessTable(jobs)[i][MachineTable(jobs)[i][p]] == p
  {
    forall i, p | 0 <= i < |jobs| && DistinctMachines(jobs[i]) && 0 <= p < |jobs[i]|
      ensures ProcessTable(jobs)[i][MachineTable(jobs)[i][p]] == p
    {
      var m := jobs[i][p].machine;
      assert MachineTable(jobs)[i][p] == m;
      var r := LastProcess(jobs[i], m, |jobs[i]|);
      assert ProcessTable(jobs)[i][m] == r;
    }
  }

  /** Number of entries among the first `k` of `row` that are not -1. */
  function CountReal(row: seq<int>, k: nat): nat
    requires k <= |row|
  {
    if k == 0 then 0 else CountReal(row, k - 1) + (if row[k - 1] != -1 then 1 else 0)
  }

  lemma {:induction false} CardOps(job: seq<Op>, bound: int, n: nat)
    requires n <= |job| && forall p :: 0 <= p < |job| ==> job[p].machine < bound
    ensures |set p | 0 <= p < n && job[p].machine < bound| == n
  {
    if n > 0 {
      CardOps(job, bound, n - 1);
      assert (set p | 0 <= p < n && job[p].machine < bound) ==
        (set p | 0 <= p < n - 1 && job[p].machine < bound) + {n - 1};
    }
  }

  /** Counting the real entries of a job's `processMatrix` row up to machine
      `k` counts the job's operations on machines below `k`. */
  lemma {:induction false} CountRealBelow(job: seq<Op>, row: seq<int>, k: nat)
    requires DistinctMachines(job) && forall p :: 0 <= p < |job| ==> 0 <= job[p].machine
    requires |row| == MaxSize && k <= MaxSize
    requires forall m :: 0 <= m < MaxSize ==> row[m] == LastProcess(job, m, |job|)
    ensures CountReal(row, k) == |set p | 0 <= p < |job| && job[p].machine < k|
  {
    if k > 0 {
      CountRealBelow(job, row, k - 1);
      assert row[k - 1] == LastProcess(job, k - 1, |job|);
      MachinesBelowStep(job, k);
    }
  }

  /** The operations on machines below `k` are those on machines below
      `k - 1` and, if there is one, the operation on machine `k - 1`. */
  lemma MachinesBelowStep(job: seq<Op>, k: nat)
    requires DistinctMachines(job) && k > 0
    ensures var r := LastProcess(job, k - 1, |job|);
      |set p | 0 <= p < |job| && job[p].machine < k| ==
      |set p | 0 <= p < |job| && job[p].machine < k - 1| + (if r != -1 then 1 else 0)
  {
    var below := set p | 0 <= p < |job| && job[p].machine < k - 1;
    var upTo := set p | 0 <= p < |job| && job[p].machine < k;
    var r := LastProcess(job, k - 1, |job|);
    if r != -1 {
      assert upTo == below + {r} by {
        forall p | p in upTo ensures p in below + {r} {
          if job[p].machine == k - 1 { assert p == r; }
        }
      }
      assert r !in below;
    } else {
      assert upTo == below;
    }
  }

  /** The initialisation places job `j` once per machine `k < machineNumber`
      whose `processMatrix[j][k]` is not -1; for a well-formed instance that is
      exactly once per operation of the job. */
  lemma RealOpsCount(jobNumber: nat, machineNumber: nat, jobs: seq<seq<Op>>, j: nat)
    requires WellFormed(jobNumber, machineNumber, jobs) && j < MaxSize
    ensures CountReal(ProcessTable(jobs)[j], machineNumber) == if j < |jobs| then |jobs[j]| else 0
  {
    var row := ProcessTable(jobs)[j];
    if j < |jobs| {
      var job := jobs[j];
      CountRealBelow(job, row, machineNumber);
      CardOps(job, machineNumber, |job|);
    } else {
      NoRealEntries(row, machineNumber);
    }
  }

  /** A chromosome built by placing job `x` once per machine `k <
      machineNumber` with a real `processMatrix[x][k]` entry, for every job id
      below `jobNumber`, is a chromosome of the instance. */
  lemma PlacedChromosome(jobNumber: nat, machineNumber: nat, jobs: seq<seq<Op>>, c: seq<int>)
    requires WellFormed(jobNumber, machineNumber, jobs)
    requires forall i :: 0 <= i < |c| ==> 0 <= c[i] < jobNumber
    requires forall x :: 0 <= x < jobNumber ==> multiset(c)[x] == CountReal(ProcessTable(jobs)[x], machineNumber)
    ensures IsChromosome(jobs, c)
  {
    forall i | 0 <= i < |c| ensures c[i] < |jobs| {
      RealOpsCount(jobNumber, machineNumber, jobs, c[i]);
      assert c[i] in multiset(c);
    }
    forall x | 0 <= x < |jobs| ensures multiset(c)[x] == |jobs[x]| {
      RealOpsCount(jobNumber, machineNumber, jobs, x);
    }
  }

  lemma {:induction false} NoRealEntries(row: seq<int>, k: nat)
    requires k <= |row| && forall m :: 0 <= m < |row| ==> row[m] == -1
    ensures CountReal(row, k) == 0
  {
    if k > 0 { NoRealEntries(row, k - 1); }
  }

  /** Sum of the counts of job ids 0 .. n - 1 in `m`. */
  function CountSum(m: multiset<int>, n: nat): nat
  {
    if n == 0 then 0 else CountSum(m, n - 1) + m[n - 1]
  }

  lemma {:induction false} CountSumAdd(m: multiset<int>, x: int, n: nat)
    requires 0 <= x < n
    ensures CountSum(m + multiset{x}, n) == CountSum(m, n) + 1
  {
    if x < n - 1 { CountSumAdd(m, x, n - 1); }
    else if n > 1 { CountSumOutside(m, x, n - 1); }
  }

  lemma {:induction false} CountSumOutside(m: multiset<int>, x: int, n: nat)
    requires x >= n
    ensures CountSum(m + multiset{x}, n) == CountSum(m, n)
  {
    if n > 0 { CountSumOutside(m, x, n - 1); }
  }

  lemma {:induction false} CountSumLength(c: seq<int>, n: nat)
    requires forall i :: 0 <= i < |c| ==> 0 <= c[i] < n
    ensures CountSum(multiset(c), n) == |c|
    decreases |c|
  {
    if c == [] {
      CountSumEmpty(n);
    } else {
      var p := c[..|c| - 1];
      assert c == p + [c[|c| - 1]];
      CountSumLength(p, n);
      CountSumAdd(multiset(p), c[|c| - 1], n);
    }
  }

  lemma {:induction false} CountSumEmpty(n: nat)
    ensures CountSum(multiset{}, n) == 0
  {
    if n > 0 { CountSumEmpty(n - 1); }
  }

  lemma {:induction false} CountSumOps(jobs: seq<seq<Op>>, c: seq<int>, k: nat)
    requires IsChromosome(jobs, c) && k <= |jobs|
    ensures CountSum(multiset(c), k) == TotalOps(jobs[..k])
  {
    if k > 0 {
      CountSumOps(jobs, c, k - 1);
      assert jobs[..k][..k - 1] == jobs[..k - 1];
    }
  }

  /** Every chromosome of the instance has `chromosomeSize` genes. */
  lemma ChromosomeLength(jobs: seq<seq<Op>>, c: seq<int>)
    requires IsChromosome(jobs, c)
    ensures |c| == TotalOps(jobs)
  {
    CountSumLength(c, |jobs|);
    CountSumOps(jobs, c, |jobs|);
    assert jobs[..|jobs|] == jobs;
  }

  /** Two chromosomes of the same instance are rearrangements of each other. */
  lemma SameCounts(jobs: seq<seq<Op>>, c: seq<int>, d: seq<int>)
    requires IsChromosome(jobs, c) && IsChromosome(jobs, d)
    ensures multiset(c) == multiset(d)
  {
    forall x ensures multiset(c)[x] == multiset(d)[x] {
      if !(0 <= x < |jobs|) {
        assert x !in c && x !in d;
      }
    }
  }

  /** Rearranging the genes of a chromosome gives a chromosome. */
  lemma PermutedChromosome(jobs: seq<seq<Op>>, c: seq<int>, d: seq<int>)
    requires IsChromosome(jobs, c) && multiset(d) == multiset(c)
    ensures IsChromosome(jobs, d)
  {
    forall i | 0 <= i < |d| ensures 0 <= d[i] < |jobs| {
      assert d[i] in multiset(d);
      assert d[i] in c;
    }
  }
}
