/** The instance of the engine's demo run: three jobs on three machines, and
    the schedule one chromosome decodes to. */
module Demo {
  import opened Instance
  import opened Decoder

  /** Job 0 runs on machines 0, 1, 2 for 3, 2, 2; job 1 on machines 0, 2, 1
      for 2, 1, 4; job 2 on machines 1, 2 for 4, 3. */
  function DemoJobs(): (jobs: seq<seq<Op>>)
    ensures WellFormed(3, 3, jobs)
  {
    [[Op(0, 3), Op(1, 2), Op(2, 2)], [Op(0, 2), Op(2, 1), Op(1, 4)], [Op(1, 4), Op(2, 3)]]
  }

  /** The chromosome decoded below: jobs in turn, 0, 1, 2, 0, 1, 2, 0, 1. */
  const DemoChromosome: seq<int> := [0, 1, 2, 0, 1, 2, 0, 1]

  /** The entries of the demo's tables the decoding reads. */
  predicate DemoEntries(mm: seq<seq<int>>, tm: seq<seq<int>>)
  {
    && Grid(mm) && Grid(tm)
    && mm[0][0] == 0 && mm[0][1] == 1 && mm[0][2] == 2
    && mm[1][0] == 0 && mm[1][1] == 2 && mm[1][2] == 1
    && mm[2][0] == 1 && mm[2][1] == 2
    && tm[0][0] == 3 && tm[0][1] == 2 && tm[0][2] == 2
    && tm[1][0] == 2 && tm[1][1] == 1 && tm[1][2] == 4
    && tm[2][0] == 4 && tm[2][1] == 3
  }

  /** The demo's lookup tables hold each operation's machine and time. */
  lemma DemoTables(jobs: seq<seq<Op>>)
    requires jobs == DemoJobs()
    ensures DemoEntries(MachineTable(jobs), TimeTable(jobs))
  {
  }

  /** The demo chromosome names only jobs 0, 1 and 2. */
  lemma DemoRange()
    ensures forall i :: 0 <= i < |DemoChromosome| ==> 0 <= DemoChromosome[i] < 3
  {
  }

  /** The demo chromosome holds jobs 0 and 1 three times and job 2 twice. */
  lemma DemoCounts()
    ensures var m := multiset(DemoChromosome); m[0] == 3 && m[1] == 3 && m[2] == 2
  {
    var turn := multiset{0, 1, 2};
    assert multiset([0, 1, 2]) == turn;
    assert multiset([0, 1]) == multiset{0, 1};
    assert DemoChromosome == [0, 1, 2] + [0, 1, 2] + [0, 1];
    assert multiset(DemoChromosome) == turn + turn + multiset{0, 1};
  }

  /** The demo chromosome holds each job once per operation, so it decodes. */
  lemma DemoDecodable(jobs: seq<seq<Op>>, c: seq<int>)
    requires jobs == DemoJobs() && c == DemoChromosome
    ensures IsChromosome(jobs, c) && Decodable(MachineTable(jobs), c)
  {
    assert |jobs| == 3 && |jobs[0]| == 3 && |jobs[1]| == 3 && |jobs[2]| == 2;
    DemoRange();
    DemoCounts();
    ChromosomeDecodable(jobs, c);
  }

  /** The part of a decoder state the demo touches: the counters of jobs
      0-2, the free times of machines 0-2, the end times of the eight
      operations (job `j`'s operation `p` at `3 * j + p`) and the makespan. */
  datatype Win = Win(ids: seq<int>, free: seq<int>, ends: seq<int>, makespan: int)

  predicate Sized(w: Win)
  {
    |w.ids| == 3 && |w.free| == 3 && |w.ends| == 8
  }

  /** `r` shows the window `w`. */
  predicate Window(r: Result, w: Win)
    requires Shaped(r) && Sized(w)
  {
    && r.processIds[0] == w.ids[0] && r.processIds[1] == w.ids[1] && r.processIds[2] == w.ids[2]
    && r.machineWorkTime[0] == w.free[0] && r.machineWorkTime[1] == w.free[1] && r.machineWorkTime[2] == w.free[2]
    && r.endTime[0][0] == w.ends[0] && r.endTime[0][1] == w.ends[1] && r.endTime[0][2] == w.ends[2]
    && r.endTime[1][0] == w.ends[3] && r.endTime[1][1] == w.ends[4] && r.endTime[1][2] == w.ends[5]
    && r.endTime[2][0] == w.ends[6] && r.endTime[2][1] == w.ends[7]
    && r.fulfillTime == w.makespan
  }

  /** Whether the next operation of job `j` exists and runs on one of
      machines 0-2. */
  predicate CanAdvance(mm: seq<seq<int>>, w: Win, j: int)
    requires Grid(mm) && Sized(w)
  {
    0 <= j < 3 && 0 <= w.ids[j] < (if j < 2 then 3 else 2) &&
    0 <= mm[j][w.ids[j]] < 3
  }

  /** A proof device for the demo only: the decoder's `Step` read through
      the window, which `WindowStep` shows it agrees with. The next operation
      `p` of job `j` runs on its machine `m` for its time: it starts when the
      machine is free and, after the job's first operation, when the previous
      one has ended. */
  function Next(mm: seq<seq<int>>, tm: seq<seq<int>>, w: Win, j: int): (n: Win)
    requires Grid(mm) && Grid(tm) && Sized(w) && CanAdvance(mm, w, j)
    ensures Sized(n)
  {
    var p, m := w.ids[j], mm[j][w.ids[j]];
    var e := (if p == 0 then w.free[m] else Max(w.ends[3 * j + p - 1], w.free[m])) + tm[j][p];
    Win(w.ids[j := p + 1], w.free[m := e], w.ends[3 * j + p := e], Max(w.makespan, e))
  }

  /** One decoding step, seen through the window, is `Next`. */
  lemma WindowStep(mm: seq<seq<int>>, tm: seq<seq<int>>, r: Result, w: Win, j: int)
    requires Grid(mm) && Grid(tm) && Shaped(r) && Sized(w) && Window(r, w) && CanAdvance(mm, w, j)
    ensures StepOk(mm, j, r.processIds[j])
    ensures Window(Step(mm, tm, r, j), Next(mm, tm, w, j))
  {
    StepFacts(mm, tm, r, j);
    if j == 0 {
    } else if j == 1 {
    } else {
    }
  }

  /** `a` and `b` agree on every entry the window holds. */
  predicate SameWindow(a: Win, b: Win)
    requires Sized(a) && Sized(b)
  {
    && a.ids[0] == b.ids[0] && a.ids[1] == b.ids[1] && a.ids[2] == b.ids[2]
    && a.free[0] == b.free[0] && a.free[1] == b.free[1] && a.free[2] == b.free[2]
    && a.ends[0] == b.ends[0] && a.ends[1] == b.ends[1] && a.ends[2] == b.ends[2]
    && a.ends[3] == b.ends[3] && a.ends[4] == b.ends[4] && a.ends[5] == b.ends[5]
    && a.ends[6] == b.ends[6] && a.ends[7] == b.ends[7]
    && a.makespan == b.makespan
  }

  /** Position `k` of a decodable chromosome, seen through the window. */
  lemma Advance(mm: seq<seq<int>>, tm: seq<seq<int>>, c: seq<int>, k: nat, w: Win, w': Win)
    requires Grid(mm) && Grid(tm) && Decodable(mm, c) && k < |c| && Sized(w) && Sized(w')
    requires Window(Before(mm, tm, c, k), w) && CanAdvance(mm, w, c[k])
    requires SameWindow(Next(mm, tm, w, c[k]), w')
    ensures Window(Before(mm, tm, c, k + 1), w')
  {
    BeforeStep(mm, tm, c, k);
    WindowStep(mm, tm, Before(mm, tm, c, k), w, c[k]);
  }

  /** The window before position `k` of the demo chromosome (`k` = 8: after
      the last one). */
  function DemoWindow(k: nat): (w: Win)
    ensures Sized(w)
  {
    if k == 0 then Win([0, 0, 0], [0, 0, 0], [0, 0, 0, 0, 0, 0, 0, 0], 0)
    else if k == 1 then Win([1, 0, 0], [3, 0, 0], [3, 0, 0, 0, 0, 0, 0, 0], 3)
    else if k == 2 then Win([1, 1, 0], [5, 0, 0], [3, 0, 0, 5, 0, 0, 0, 0], 5)
    else if k == 3 then Win([1, 1, 1], [5, 4, 0], [3, 0, 0, 5, 0, 0, 4, 0], 5)
    else if k == 4 then Win([2, 1, 1], [5, 6, 0], [3, 6, 0, 5, 0, 0, 4, 0], 6)
    else if k == 5 then Win([2, 2, 1], [5, 6, 6], [3, 6, 0, 5, 6, 0, 4, 0], 6)
    else if k == 6 then Win([2, 2, 2], [5, 6, 9], [3, 6, 0, 5, 6, 0, 4, 9], 9)
    else if k == 7 then Win([3, 2, 2], [5, 6, 11], [3, 6, 11, 5, 6, 0, 4, 9], 11)
    else Win([3, 3, 2], [5, 10, 11], [3, 6, 11, 5, 6, 10, 4, 9], 11)
  }

  /** `c` lists the demo chromosome's jobs. */
  predicate DemoOrder(c: seq<int>)
  {
    && |c| == 8 && c[0] == 0 && c[1] == 1 && c[2] == 2 && c[3] == 0
    && c[4] == 1 && c[5] == 2 && c[6] == 0 && c[7] == 1
  }

  lemma DemoOrdered(c: seq<int>)
    requires c == DemoChromosome
    ensures DemoOrder(c)
  {
  }

  /** Each of the first four windows is followed by the next one. */
  lemma DemoNextEarly(mm: seq<seq<int>>, tm: seq<seq<int>>, c: seq<int>, k: nat)
    requires DemoEntries(mm, tm) && DemoOrder(c) && k < 4
    ensures CanAdvance(mm, DemoWindow(k), c[k])
    ensures SameWindow(Next(mm, tm, DemoWindow(k), c[k]), DemoWindow(k + 1))
  {
    if k == 0 {
    } else if k == 1 {
    } else if k == 2 {
    } else {
    }
  }

  /** Each of the windows before positions 4-7 is followed by the next one. */
  lemma DemoNextLate(mm: seq<seq<int>>, tm: seq<seq<int>>, c: seq<int>, k: nat)
    requires DemoEntries(mm, tm) && DemoOrder(c) && 4 <= k < 8
    ensures CanAdvance(mm, DemoWindow(k), c[k])
    ensures SameWindow(Next(mm, tm, DemoWindow(k), c[k]), DemoWindow(k + 1))
  {
    if k == 4 {
    } else if k == 5 {
    } else if k == 6 {
    } else {
    }
  }

  /** The decoder state before position `k` shows the `k`-th window. */
  lemma {:induction false} DemoBefore(mm: seq<seq<int>>, tm: seq<seq<int>>, c: seq<int>, k: nat)
    requires DemoEntries(mm, tm) && DemoOrder(c) && Decodable(mm, c) && k <= 8
    ensures Window(Before(mm, tm, c, k), DemoWindow(k))
  {
    if k == 0 {
      assert c[..0] == [];
    } else {
      DemoBefore(mm, tm, c, k - 1);
      if k - 1 < 4 {
        DemoNextEarly(mm, tm, c, k - 1);
      } else {
        DemoNextLate(mm, tm, c, k - 1);
      }
      Advance(mm, tm, c, k - 1, DemoWindow(k - 1), DemoWindow(k));
    }
  }

  /** Decoding the demo chromosome against any tables with the demo's
      entries. */
  lemma DemoDecode(mm: seq<seq<int>>, tm: seq<seq<int>>, c: seq<int>)
    requires DemoEntries(mm, tm) && DemoOrder(c) && Decodable(mm, c)
    ensures var r := Decode(mm, tm, c);
      && r.endTime[0][0] == 3 && r.endTime[0][1] == 6 && r.endTime[0][2] == 11
      && r.endTime[1][0] == 5 && r.endTime[1][1] == 6 && r.endTime[1][2] == 10
      && r.endTime[2][0] == 4 && r.endTime[2][1] == 9
      && r.fulfillTime == 11
  {
    DemoBefore(mm, tm, c, 8);
    BeforeAll(mm, tm, c);
  }

  /** Decoding the demo chromosome on the demo instance: the operations end
      at 3, 5, 4, 6, 6, 9, 11 and 10, each when both its machine and its
      job's previous operation allow, and the makespan is 11. */
  lemma DemoSchedule(jobs: seq<seq<Op>>, c: seq<int>)
    requires jobs == DemoJobs() && c == DemoChromosome
    ensures var mm, tm := MachineTable(jobs), TimeTable(jobs);
      && Grid(mm) && Grid(tm) && IsChromosome(jobs, c) && Decodable(mm, c)
      && var r := Decode(mm, tm, c);
      && r.endTime[0][0] == 3 && r.endTime[0][1] == 6 && r.endTime[0][2] == 11
      && r.endTime[1][0] == 5 && r.endTime[1][1] == 6 && r.endTime[1][2] == 10
      && r.endTime[2][0] == 4 && r.endTime[2][1] == 9
      && r.fulfillTime == 11
  {
    DemoTables(jobs);
    DemoDecodable(jobs, c);
    DemoOrdered(c);
    DemoDecode(MachineTable(jobs), TimeTable(jobs), c);
  }
}
