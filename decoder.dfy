/** The schedule decoder behind `calculateFitness`. A chromosome is read left
    to right; the k-th occurrence of job `j` stands for operation k - 1 of
    job `j`. Each operation starts when its machine is free and, unless it is
    the job's first operation, no earlier than the end of the job's previous
    operation; it ends its processing time later. The makespan
    (`fulfillTime`) is the largest end time. */
module Decoder {
  import opened Instance

  /** What one decoding produces (the engine's `Result`): the per-job process
      counters, start and end time per job and process index, the time at
      which each machine becomes free, and the makespan. Its tables have the
      engine's fixed size. */
  datatype Result = Result(
    processIds: seq<int>,
    startTime: seq<seq<int>>,
    endTime: seq<seq<int>>,
    machineWorkTime: seq<int>,
    fulfillTime: int)

  predicate Shaped(r: Result)
  {
    |r.processIds| == MaxSize && Grid(r.startTime) && Grid(r.endTime) && |r.machineWorkTime| == MaxSize
  }

  /** A fresh `Result`: all counters, times and the makespan are 0. */
  function NewResult(): (r: Result)
    ensures Shaped(r)
  {
    Result(seq(MaxSize, _ => 0), Fill(0), Fill(0), seq(MaxSize, _ => 0), 0)
  }

  function Max(a: int, b: int): int
  {
    if a < b then b else a
  }

  /** The process index that position `i` of a chromosome stands for: the
      number of earlier occurrences of the same job. */
  function ProcessAt(c: seq<int>, i: nat): nat
    requires i < |c|
  {
    multiset(c[..i])[c[i]]
  }

  /** Decoding job `j` at process index `p` reads the tables in range and
      finds a real machine there. */
  predicate StepOk(mm: seq<seq<int>>, j: int, p: int)
    requires Grid(mm)
  {
    0 <= j < MaxSize && 0 <= p < MaxSize && 0 <= mm[j][p] < MaxSize
  }

  /** Every position of `c` decodes without an out-of-range access, which is
      what `calculateFitness` needs of its chromosome. */
  predicate Decodable(mm: seq<seq<int>>, c: seq<int>)
    requires Grid(mm)
  {
    forall i {:trigger ProcessAt(c, i)} :: 0 <= i < |c| ==> StepOk(mm, c[i], ProcessAt(c, i))
  }

  lemma DecodablePrefix(mm: seq<seq<int>>, c: seq<int>, k: nat)
    requires Grid(mm) && Decodable(mm, c) && k <= |c|
    ensures Decodable(mm, c[..k])
  {
    forall i | 0 <= i < k ensures StepOk(mm, c[..k][i], ProcessAt(c[..k], i)) {
      assert c[..k][..i] == c[..i];
      DecodableAt(mm, c, i);
    }
  }

  /** Position `i` of a decodable chromosome decodes without an out-of-range
      access. */
  lemma DecodableAt(mm: seq<seq<int>>, c: seq<int>, i: nat)
    requires Grid(mm) && Decodable(mm, c) && i < |c|
    ensures StepOk(mm, c[i], ProcessAt(c, i))
  {
    assert StepOk(mm, c[i], ProcessAt(c, i));
  }

  /** One iteration of the decoding loop: operation `processIds[jobId]` of
      job `jobId` is scheduled on its machine. */
  function Step(mm: seq<seq<int>>, tm: seq<seq<int>>, r: Result, jobId: int): (next: Result)
    requires Grid(mm) && Grid(tm) && Shaped(r) && 0 <= jobId < MaxSize
    requires StepOk(mm, jobId, r.processIds[jobId])
    ensures Shaped(next)
  {
    var processId := r.processIds[jobId];
    var machineId := mm[jobId][processId];
    var start := if processId == 0 then r.machineWorkTime[machineId]
                 else Max(r.endTime[jobId][processId - 1], r.machineWorkTime[machineId]);
    var end := start + tm[jobId][processId];
    Result(
      r.processIds[jobId := processId + 1],
      r.startTime[jobId := r.startTime[jobId][processId := start]],
      r.endTime[jobId := r.endTime[jobId][processId := end]],
      r.machineWorkTime[machineId := end],
      Max(r.fulfillTime, end))
  }

  /** What one step changes: the job's counter goes up by one, the start and
      end time of the scheduled process are recorded, its machine becomes free
      at that end, the makespan takes the maximum, and nothing else changes. */
  lemma StepFacts(mm: seq<seq<int>>, tm: seq<seq<int>>, r: Result, jobId: int)
    requires Grid(mm) && Grid(tm) && Shaped(r) && 0 <= jobId < MaxSize
    requires StepOk(mm, jobId, r.processIds[jobId])
    ensures var n, p := Step(mm, tm, r, jobId), r.processIds[jobId];
      var m := mm[jobId][p];
      && n.processIds[jobId] == p + 1
      && (forall j :: 0 <= j < MaxSize && j != jobId ==> n.processIds[j] == r.processIds[j])
      && (forall j, q :: 0 <= j < MaxSize && 0 <= q < MaxSize && (j != jobId || q != p) ==>
            n.startTime[j][q] == r.startTime[j][q] && n.endTime[j][q] == r.endTime[j][q])
      && n.startTime[jobId][p] == (if p == 0 then r.machineWorkTime[m] else Max(r.endTime[jobId][p - 1], r.machineWorkTime[m]))
      && n.endTime[jobId][p] == n.startTime[jobId][p] + tm[jobId][p]
      && n.machineWorkTime[m] == n.endTime[jobId][p]
      && (forall m' :: 0 <= m' < MaxSize && m' != m ==> n.machineWorkTime[m'] == r.machineWorkTime[m'])
      && n.fulfillTime == Max(r.fulfillTime, n.endTime[jobId][p])
  {
  }

  /** The result of decoding `c` against the machine table `mm` and the time
      table `tm`. After decoding, each job's process counter is the number of
      occurrences of the job in the chromosome. */
  function Decode(mm: seq<seq<int>>, tm: seq<seq<int>>, c: seq<int>): (r: Result)
    requires Grid(mm) && Grid(tm) && Decodable(mm, c)
    ensures Shaped(r)
    ensures forall j :: 0 <= j < MaxSize ==> r.processIds[j] == multiset(c)[j]
    decreases |c|
  {
    if c == [] then NewResult()
    else
      var prefix := c[..|c| - 1];
      DecodablePrefix(mm, c, |c| - 1);
      DecodableAt(mm, c, |c| - 1);
      assert c == prefix + [c[|c| - 1]];
      Step(mm, tm, Decode(mm, tm, prefix), c[|c| - 1])
  }

  /** The state of the decoder before position `i` of `c`. */
  function Before(mm: seq<seq<int>>, tm: seq<seq<int>>, c: seq<int>, i: nat): (r: Result)
    requires Grid(mm) && Grid(tm) && Decodable(mm, c) && i <= |c|
  {
    DecodablePrefix(mm, c, i);
    Decode(mm, tm, c[..i])
  }

  /** Position `i` is decoded by one step from the state before it. */
  lemma BeforeStep(mm: seq<seq<int>>, tm: seq<seq<int>>, c: seq<int>, i: nat)
    requires Grid(mm) && Grid(tm) && Decodable(mm, c) && i < |c|
    ensures StepOk(mm, c[i], ProcessAt(c, i))
    ensures Before(mm, tm, c, i).processIds[c[i]] == ProcessAt(c, i)
    ensures StepOk(mm, c[i], Before(mm, tm, c, i).processIds[c[i]])
    ensures Before(mm, tm, c, i + 1) == Step(mm, tm, Before(mm, tm, c, i), c[i])
  {
    DecodableAt(mm, c, i);
    assert c[..i + 1][..i] == c[..i];
    assert c[..i + 1][i] == c[i];
  }

  lemma BeforeAll(mm: seq<seq<int>>, tm: seq<seq<int>>, c: seq<int>)
    requires Grid(mm) && Grid(tm) && Decodable(mm, c)
    ensures Before(mm, tm, c, |c|) == Decode(mm, tm, c)
  {
    assert c[..|c|] == c;
  }

  predicate NonNegTimes(tm: seq<seq<int>>)
    requires Grid(tm)
  {
    forall a, b :: 0 <= a < MaxSize && 0 <= b < MaxSize ==> tm[a][b] >= 0
  }

  /** Later steps never overwrite a recorded start or end time. */
  lemma {:induction false} Stable(mm: seq<seq<int>>, tm: seq<seq<int>>, c: seq<int>, i: nat, k: nat)
    requires Grid(mm) && Grid(tm) && Decodable(mm, c) && i <= k <= |c|
    ensures forall j, p :: 0 <= j < MaxSize && 0 <= p < MaxSize && p < Before(mm, tm, c, i).processIds[j] ==>
      Before(mm, tm, c, k).startTime[j][p] == Before(mm, tm, c, i).startTime[j][p] &&
      Before(mm, tm, c, k).endTime[j][p] == Before(mm, tm, c, i).endTime[j][p]
    decreases k - i
  {
    if i < k {
      Stable(mm, tm, c, i + 1, k);
      BeforeStep(mm, tm, c, i);
      StepFacts(mm, tm, Before(mm, tm, c, i), c[i]);
    }
  }

  /** Later steps never lower the makespan, and with non-negative times they
      never make a machine free earlier. */
  lemma {:induction false} Monotone(mm: seq<seq<int>>, tm: seq<seq<int>>, c: seq<int>, i: nat, k: nat)
    requires Grid(mm) && Grid(tm) && Decodable(mm, c) && i <= k <= |c|
    ensures Before(mm, tm, c, i).fulfillTime <= Before(mm, tm, c, k).fulfillTime
    ensures NonNegTimes(tm) ==> forall m :: 0 <= m < MaxSize ==>
      Before(mm, tm, c, i).machineWorkTime[m] <= Before(mm, tm, c, k).machineWorkTime[m]
    decreases k - i
  {
    if i < k {
      Monotone(mm, tm, c, i + 1, k);
      BeforeStep(mm, tm, c, i);
      StepFacts(mm, tm, Before(mm, tm, c, i), c[i]);
    }
  }

  /** The timing rules, read off the finished schedule. For the operation at
      position `i` (process `p` of job `j` on machine `m`): it starts at the
      time `m` was free before it if `p` is 0, otherwise at the later of that
      time and the end of process `p - 1`; it ends its processing time after
      it starts; `m` is free again exactly at that end; and the makespan is
      not below it. */
  lemma Timing(mm: seq<seq<int>>, tm: seq<seq<int>>, c: seq<int>, i: nat)
    requires Grid(mm) && Grid(tm) && Decodable(mm, c) && i < |c|
    ensures var f, b, j, p := Decode(mm, tm, c), Before(mm, tm, c, i), c[i], ProcessAt(c, i);
      var m := mm[j][p];
      && f.startTime[j][p] == (if p == 0 then b.machineWorkTime[m] else Max(f.endTime[j][p - 1], b.machineWorkTime[m]))
      && f.startTime[j][p] >= b.machineWorkTime[m]
      && (p > 0 ==> f.startTime[j][p] >= f.endTime[j][p - 1])
      && f.endTime[j][p] == f.startTime[j][p] + tm[j][p]
      && Before(mm, tm, c, i + 1).machineWorkTime[m] == f.endTime[j][p]
      && f.fulfillTime >= f.endTime[j][p]
  {
    var b := Before(mm, tm, c, i);
    var a := Before(mm, tm, c, i + 1);
    var f := Decode(mm, tm, c);
    var j, p := c[i], ProcessAt(c, i);
    BeforeStep(mm, tm, c, i);
    StepFacts(mm, tm, b, j);
    Stable(mm, tm, c, i + 1, |c|);
    BeforeAll(mm, tm, c);
    assert f.startTime[j][p] == a.startTime[j][p] && f.endTime[j][p] == a.endTime[j][p];
    if p > 0 {
      Stable(mm, tm, c, i, |c|);
      assert f.endTime[j][p - 1] == b.endTime[j][p - 1];
    }
    Monotone(mm, tm, c, i + 1, |c|);
  }

  /** A machine runs one operation at a time: with non-negative times, an
      operation decoded after another on the same machine starts no earlier
      than the other ends. */
  lemma MachineExclusive(mm: seq<seq<int>>, tm: seq<seq<int>>, c: seq<int>, i: nat, k: nat)
    requires Grid(mm) && Grid(tm) && NonNegTimes(tm) && Decodable(mm, c)
    requires i < k < |c| && var p, q := ProcessAt(c, i), ProcessAt(c, k); mm[c[i]][p] == mm[c[k]][q]
    ensures var f := Decode(mm, tm, c);
      f.startTime[c[k]][ProcessAt(c, k)] >= f.endTime[c[i]][ProcessAt(c, i)]
  {
    Timing(mm, tm, c, i);
    Timing(mm, tm, c, k);
    Monotone(mm, tm, c, i + 1, k);
  }

  /** Occurrences of a job are decoded in order: a later occurrence stands for
      a later process index. */
  lemma OccurrenceOrder(c: seq<int>, i: nat, k: nat)
    requires i < k < |c| && c[i] == c[k]
    ensures ProcessAt(c, i) < ProcessAt(c, k)
  {
    assert c[..k] == c[..i] + c[i..k];
    assert c[i..k][0] == c[i];
  }

  /** Total time of the first `n` operations of job `j`. */
  function JobWork(tm: seq<seq<int>>, j: nat, n: nat): int
    requires Grid(tm) && j < MaxSize && n <= MaxSize
  {
    if n == 0 then 0 else JobWork(tm, j, n - 1) + tm[j][n - 1]
  }

  /** Total time of the operations of `c` that are decoded onto machine `m`. */
  function MachineLoad(mm: seq<seq<int>>, tm: seq<seq<int>>, c: seq<int>, m: int): int
    requires Grid(mm) && Grid(tm) && Decodable(mm, c)
    decreases |c|
  {
    if c == [] then 0
    else
      var last := |c| - 1;
      DecodablePrefix(mm, c, last);
      DecodableAt(mm, c, last);
      MachineLoad(mm, tm, c[..last], m) +
        (if mm[c[last]][ProcessAt(c, last)] == m then tm[c[last]][ProcessAt(c, last)] else 0)
  }

  /** With non-negative times every machine is free no earlier than the total
      time of the operations assigned to it and no later than the makespan. */
  lemma {:induction false} MachineBounds(mm: seq<seq<int>>, tm: seq<seq<int>>, c: seq<int>)
    requires Grid(mm) && Grid(tm) && NonNegTimes(tm) && Decodable(mm, c)
    ensures var f := Decode(mm, tm, c);
      forall m :: 0 <= m < MaxSize ==>
        0 <= MachineLoad(mm, tm, c, m) <= f.machineWorkTime[m] <= f.fulfillTime
    decreases |c|
  {
    if c != [] {
      var last := |c| - 1;
      var prefix := c[..last];
      DecodablePrefix(mm, c, last);
      MachineBounds(mm, tm, prefix);
      var pf := Decode(mm, tm, prefix);
      var f := Decode(mm, tm, c);
      DecodableAt(mm, c, last);
      var j := c[last];
      var p := pf.processIds[j];
      assert c == prefix + [j];
      assert f == Step(mm, tm, pf, j);
      assert p == ProcessAt(c, last);
      StepFacts(mm, tm, pf, j);
      forall m | 0 <= m < MaxSize
        ensures 0 <= MachineLoad(mm, tm, c, m) <= f.machineWorkTime[m] <= f.fulfillTime
      {
        assert MachineLoad(mm, tm, c, m) ==
          MachineLoad(mm, tm, prefix, m) + (if mm[j][p] == m then tm[j][p] else 0);
      }
    }
  }

  /** Every recorded process of `r` ends no earlier than the total time of
      its job's processes up to and including it. */
  predicate EndsAfterWork(tm: seq<seq<int>>, r: Result)
    requires Grid(tm) && Shaped(r)
  {
    forall j, p :: 0 <= j < MaxSize && 0 <= p < MaxSize && p < r.processIds[j] ==>
      r.endTime[j][p] >= JobWork(tm, j, p + 1)
  }

  lemma JobBoundsStep(mm: seq<seq<int>>, tm: seq<seq<int>>, r: Result, jobId: int)
    requires Grid(mm) && Grid(tm) && NonNegTimes(tm) && Shaped(r) && 0 <= jobId < MaxSize
    requires StepOk(mm, jobId, r.processIds[jobId])
    requires forall m :: 0 <= m < MaxSize ==> r.machineWorkTime[m] >= 0
    requires EndsAfterWork(tm, r)
    ensures EndsAfterWork(tm, Step(mm, tm, r, jobId))
  {
    var n := Step(mm, tm, r, jobId);
    var p := r.processIds[jobId];
    StepFacts(mm, tm, r, jobId);
    assert n.endTime[jobId][p] >= JobWork(tm, jobId, p + 1) by {
      if p > 0 {
        assert n.endTime[jobId][p] >= r.endTime[jobId][p - 1] + tm[jobId][p];
      } else {
        assert n.endTime[jobId][p] >= r.machineWorkTime[mm[jobId][p]] + tm[jobId][p];
      }
    }
    forall j, q | 0 <= j < MaxSize && 0 <= q < MaxSize && q < n.processIds[j]
      ensures n.endTime[j][q] >= JobWork(tm, j, q + 1)
    {
      if j != jobId || q != p {
        assert q < r.processIds[j];
      }
    }
  }

  lemma FreeTimesNonNeg(mm: seq<seq<int>>, tm: seq<seq<int>>, c: seq<int>)
    requires Grid(mm) && Grid(tm) && NonNegTimes(tm) && Decodable(mm, c)
    ensures forall m :: 0 <= m < MaxSize ==> Decode(mm, tm, c).machineWorkTime[m] >= 0
  {
    MachineBounds(mm, tm, c);
  }

  /** With non-negative times, process `p` of job `j` ends no earlier than the
      total time of the job's processes 0 .. p. */
  lemma {:induction false} JobBounds(mm: seq<seq<int>>, tm: seq<seq<int>>, c: seq<int>)
    requires Grid(mm) && Grid(tm) && NonNegTimes(tm) && Decodable(mm, c)
    ensures EndsAfterWork(tm, Decode(mm, tm, c))
    decreases |c|
  {
    if c != [] {
      var last := |c| - 1;
      var prefix := c[..last];
      DecodablePrefix(mm, c, last);
      JobBounds(mm, tm, prefix);
      FreeTimesNonNeg(mm, tm, prefix);
      var pf := Decode(mm, tm, prefix);
      DecodableAt(mm, c, last);
      assert c == prefix + [c[last]];
      assert Decode(mm, tm, c) == Step(mm, tm, pf, c[last]);
      JobBoundsStep(mm, tm, pf, c[last]);
    }
  }

  /** The makespan lower bounds: no schedule finishes before the total time of
      any one job, or before the total time assigned to any one machine. */
  lemma MakespanLowerBounds(mm: seq<seq<int>>, tm: seq<seq<int>>, c: seq<int>)
    requires Grid(mm) && Grid(tm) && NonNegTimes(tm) && Decodable(mm, c)
    ensures forall j :: 0 <= j < MaxSize && multiset(c)[j] <= MaxSize ==>
      Decode(mm, tm, c).fulfillTime >= JobWork(tm, j, multiset(c)[j])
    ensures forall m :: 0 <= m < MaxSize ==> Decode(mm, tm, c).fulfillTime >= MachineLoad(mm, tm, c, m)
  {
    var f := Decode(mm, tm, c);
    MachineBounds(mm, tm, c);
    forall j | 0 <= j < MaxSize && multiset(c)[j] <= MaxSize
      ensures f.fulfillTime >= JobWork(tm, j, multiset(c)[j])
    {
      var n := multiset(c)[j];
      if n > 0 {
        assert f.endTime[j][n - 1] >= JobWork(tm, j, n) by {
          JobBounds(mm, tm, c);
          assert n - 1 < f.processIds[j];
        }
        LastOccurrence(c, j);
        var k :| 0 <= k < |c| && c[k] == j && ProcessAt(c, k) == n - 1;
        Timing(mm, tm, c, k);
        assert f.fulfillTime >= f.endTime[j][n - 1];
      } else {
        assert MachineLoad(mm, tm, c, 0) <= f.machineWorkTime[0] <= f.fulfillTime;
      }
    }
  }

  /** The last occurrence of a job stands for its last decoded process. */
  lemma {:induction false} LastOccurrence(c: seq<int>, j: int)
    requires multiset(c)[j] > 0
    ensures exists k :: 0 <= k < |c| && c[k] == j && ProcessAt(c, k) == multiset(c)[j] - 1
    decreases |c|
  {
    var last := |c| - 1;
    var prefix := c[..last];
    assert c == prefix + [c[last]];
    if c[last] == j {
      assert ProcessAt(c, last) == multiset(prefix)[j];
    } else {
      LastOccurrence(prefix, j);
      var k :| 0 <= k < |prefix| && prefix[k] == j && ProcessAt(prefix, k) == multiset(prefix)[j] - 1;
      assert c[..k] == prefix[..k];
    }
  }

  /** Some recorded process of `r` ends exactly at the makespan. */
  predicate Attained(r: Result)
    requires Shaped(r)
  {
    exists j, p :: 0 <= j < MaxSize && 0 <= p < MaxSize && p < r.processIds[j] && r.fulfillTime == r.endTime[j][p]
  }

  lemma AttainedStep(mm: seq<seq<int>>, tm: seq<seq<int>>, r: Result, jobId: int)
    requires Grid(mm) && Grid(tm) && NonNegTimes(tm) && Shaped(r) && 0 <= jobId < MaxSize
    requires StepOk(mm, jobId, r.processIds[jobId])
    requires forall m :: 0 <= m < MaxSize ==> r.machineWorkTime[m] >= 0
    requires r.fulfillTime == 0 || Attained(r)
    ensures Attained(Step(mm, tm, r, jobId))
  {
    var n := Step(mm, tm, r, jobId);
    var p := r.processIds[jobId];
    StepFacts(mm, tm, r, jobId);
    if n.fulfillTime != n.endTime[jobId][p] {
      assert n.endTime[jobId][p] >= 0 by {
        if p > 0 {
          assert n.endTime[jobId][p] >= r.machineWorkTime[mm[jobId][p]] + tm[jobId][p];
        }
      }
      var j, q :| 0 <= j < MaxSize && 0 <= q < MaxSize && q < r.processIds[j] && r.fulfillTime == r.endTime[j][q];
      assert n.endTime[j][q] == r.endTime[j][q];
    }
  }

  /** The makespan is attained: with non-negative times it is 0 for the
      empty chromosome and otherwise the end time of some decoded operation
      (a process index below the job's number of occurrences). */
  lemma {:induction false} MakespanAttained(mm: seq<seq<int>>, tm: seq<seq<int>>, c: seq<int>)
    requires Grid(mm) && Grid(tm) && NonNegTimes(tm) && Decodable(mm, c)
    ensures c == [] ==> Decode(mm, tm, c).fulfillTime == 0
    ensures c != [] ==> Attained(Decode(mm, tm, c))
    decreases |c|
  {
    if c != [] {
      var last := |c| - 1;
      var prefix := c[..last];
      DecodablePrefix(mm, c, last);
      MakespanAttained(mm, tm, prefix);
      FreeTimesNonNeg(mm, tm, prefix);
      DecodableAt(mm, c, last);
      assert c == prefix + [c[last]];
      AttainedStep(mm, tm, Decode(mm, tm, prefix), c[last]);
    }
  }

  lemma OccurrenceCount(c: seq<int>, i: nat)
    requires i < |c|
    ensures ProcessAt(c, i) < multiset(c)[c[i]]
  {
    assert c == c[..i] + c[i..];
    assert c[i..][0] == c[i];
  }

  /** A chromosome of an instance that fits the tables decodes without an
      out-of-range access. */
  lemma ChromosomeDecodable(jobs: seq<seq<Op>>, c: seq<int>)
    requires InBounds(jobs) && IsChromosome(jobs, c)
    ensures Decodable(MachineTable(jobs), c)
  {
    forall i | 0 <= i < |c| ensures StepOk(MachineTable(jobs), c[i], ProcessAt(c, i)) {
      OccurrenceCount(c, i);
    }
  }

  lemma InstanceTimesNonNeg(jobs: seq<seq<Op>>)
    requires forall i, p :: 0 <= i < |jobs| && 0 <= p < |jobs[i]| ==> jobs[i][p].time >= 0
    ensures NonNegTimes(TimeTable(jobs))
  {
  }
}
