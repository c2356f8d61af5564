/** What one run of the placement in `initialPopulation` produces, as
    functions of the process table and the random draws, and the per-job
    occurrence counts those functions guarantee. */
module Population {
  import opened Sequences
  import opened Instance

  /** The value the placement wants written for machines 0 .. k - 1 of a job
      `x` whose process-table row is `row`: `x` where the job uses the
      machine, `-1` (nothing written) where it does not. */
  function RowWanted(row: seq<int>, x: int, k: nat): (w: seq<int>)
    requires k <= |row|
    ensures |w| == k
  {
    if k == 0 then [] else RowWanted(row, x, k - 1) + [if row[k - 1] != -1 then x else -1]
  }

  /** `RowWanted` of jobs 0 .. rows - 1, one after the other: the value wanted
      at each of the `rows * cols` draws, in the order the draws are made. */
  function Wanted(pm: seq<seq<int>>, rows: nat, cols: nat): (w: seq<int>)
    requires rows <= |pm| && forall i :: 0 <= i < rows ==> cols <= |pm[i]|
    ensures |w| == rows * cols
  {
    if rows == 0 then []
    else
      assert (rows - 1) * cols + cols == rows * cols;
      Wanted(pm, rows - 1, cols) + RowWanted(pm[rows - 1], rows - 1, cols)
  }

  /** The scratch array of size `n` after the draws: it starts all `-1`,
      and draw `t` takes the position at index `draws[t]` of the positions
      not yet drawn and writes `w[t]` there unless `w[t]` is `-1`. */
  function Scatter(n: nat, w: seq<int>, draws: seq<nat>): (s: seq<int>)
    requires |w| == |draws| && CanDraw(n, draws)
    ensures |s| == n
    decreases |draws|
  {
    if draws == [] then seq(n, _ => -1)
    else
      var t := |draws| - 1;
      RangeFacts(n);
      SampleStep(Range(n), draws, t);
      FreePositions(n, draws[..t]);
      var free := Remaining(Range(n), draws[..t]);
      var pos := free[draws[t]];
      assert pos in free;
      var prev := Scatter(n, w[..t], draws[..t]);
      if w[t] != -1 then prev[pos := w[t]] else prev
  }

  /** Draw `t` in terms of the state after the draws before it: the position
      at index `draws[t]` of the positions not yet drawn receives `e` unless
      `e` is `-1`. */
  lemma ScatterStep(n: nat, w: seq<int>, e: int, draws: seq<nat>, t: nat)
    requires t < |draws| && CanDraw(n, draws) && |w| == t
    ensures CanDraw(n, draws[..t]) && CanDraw(n, draws[..t + 1])
    ensures draws[t] < |Remaining(Range(n), draws[..t])|
    ensures 0 <= Remaining(Range(n), draws[..t])[draws[t]] < n
    ensures Remaining(Range(n), draws[..t + 1]) == RemoveAt(Remaining(Range(n), draws[..t]), draws[t])
    ensures Scatter(n, w + [e], draws[..t + 1]) ==
      if e != -1 then Scatter(n, w, draws[..t])[Remaining(Range(n), draws[..t])[draws[t]] := e]
      else Scatter(n, w, draws[..t])
  {
    SampleStep(Range(n), draws, t);
    FreePositions(n, draws[..t]);
    assert Remaining(Range(n), draws[..t])[draws[t]] in Remaining(Range(n), draws[..t]);
    assert (w + [e])[..t] == w;
    assert draws[..t + 1][..t] == draws[..t];
  }

  /** The placement after the draws for jobs 0 .. j - 1 (`t` draws in
      all): the scratch array `s` is what those draws scatter, and `il` lists
      the positions not yet drawn. */
  ghost predicate Placed(pm: seq<seq<int>>, j: nat, cols: nat, draws: seq<nat>, t: nat,
                         s: seq<int>, il: seq<int>)
  {
    j <= |pm| && (forall i :: 0 <= i < j ==> cols <= |pm[i]|) &&
    t == j * cols <= |draws| == |s| && CanDraw(|s|, draws[..t]) &&
    s == Scatter(|s|, Wanted(pm, j, cols), draws[..t]) &&
    il == Remaining(Range(|s|), draws[..t])
  }

  /** The placement part way through job `x`, whose process-table row is
      `row`, after its machines 0 .. k - 1: `w` is what the draws before the
      job wanted written, `t` the number of draws made in all. */
  ghost predicate Placing(row: seq<int>, x: int, k: nat, w: seq<int>, draws: seq<nat>, t: nat,
                          s: seq<int>, il: seq<int>)
  {
    k <= |row| && |w| + k == t <= |draws| == |s| && CanDraw(|s|, draws[..t]) &&
    s == Scatter(|s|, w + RowWanted(row, x, k), draws[..t]) &&
    il == Remaining(Range(|s|), draws[..t])
  }

  /** Before any draw the scratch array is all `-1` and every position is
      free. */
  lemma PlacedStart(pm: seq<seq<int>>, cols: nat, draws: seq<nat>, s: seq<int>)
    requires |s| == |draws| && forall p :: 0 <= p < |s| ==> s[p] == -1
    ensures Placed(pm, 0, cols, draws, 0, s, Range(|s|))
  {
    assert draws[..0] == [];
    assert s == seq(|s|, _ => -1);
  }

  /** Job `j` starts where the jobs before it left the placement. */
  lemma PlacingStart(pm: seq<seq<int>>, j: nat, cols: nat, draws: seq<nat>, t: nat, s: seq<int>, il: seq<int>)
    requires Placed(pm, j, cols, draws, t, s, il) && j < |pm| && cols <= |pm[j]|
    ensures Placing(pm[j], j, 0, Wanted(pm, j, cols), draws, t, s, il)
  {
    assert Wanted(pm, j, cols) + RowWanted(pm[j], j, 0) == Wanted(pm, j, cols);
  }

  /** Once job `j` has a draw for each of its `cols` machines, the jobs
      0 .. j are placed. */
  lemma PlacingDone(pm: seq<seq<int>>, j: nat, cols: nat, draws: seq<nat>, t: nat, s: seq<int>, il: seq<int>)
    requires j < |pm| && (forall i :: 0 <= i <= j ==> cols <= |pm[i]|)
    requires Placing(pm[j], j, cols, Wanted(pm, j, cols), draws, t, s, il)
    ensures Placed(pm, j + 1, cols, draws, t, s, il)
  {
    assert j * cols + cols == (j + 1) * cols;
    assert Wanted(pm, j + 1, cols) == Wanted(pm, j, cols) + RowWanted(pm[j], j, cols);
  }

  /** The positions not yet drawn are distinct positions below `n`. */
  lemma FreePositions(n: nat, draws: seq<nat>)
    requires CanDraw(n, draws)
    ensures Distinct(Remaining(Range(n), draws))
    ensures forall p :: p in Remaining(Range(n), draws) ==> 0 <= p < n
  {
    RangeFacts(n);
    SampleFacts(Range(n), draws);
  }

  /** Every position not yet drawn still holds `-1`, and the values other
      than `-1` in the scratch array are exactly the wanted values other
      than `-1` written so far: no write is lost or repeated. */
  lemma ScatterFacts(n: nat, w: seq<int>, draws: seq<nat>)
    requires |w| == |draws| && CanDraw(n, draws)
    ensures forall p :: p in Remaining(Range(n), draws) ==> 0 <= p < n && Scatter(n, w, draws)[p] == -1
    ensures multiset(Scatter(n, w, draws))[-1 := 0] == multiset(w)[-1 := 0]
  {
    ScatterFree(n, w, draws);
    ScatterCounts(n, w, draws);
  }

  /** Every position not yet drawn still holds `-1`. */
  lemma {:induction false} ScatterFree(n: nat, w: seq<int>, draws: seq<nat>)
    requires |w| == |draws| && CanDraw(n, draws)
    ensures forall p :: p in Remaining(Range(n), draws) ==> 0 <= p < n && Scatter(n, w, draws)[p] == -1
    decreases |draws|
  {
    FreePositions(n, draws);
    if draws != [] {
      var t := |draws| - 1;
      assert CanDraw(n, draws[..t]);
      var free := Remaining(Range(n), draws[..t]);
      var prev := Scatter(n, w[..t], draws[..t]);
      var pos := free[draws[t]];
      assert forall p :: p in Remaining(Range(n), draws) ==> p in free && p != pos by {
        assert draws[..t + 1] == draws;
        SampleStep(Range(n), draws, t);
        FreePositions(n, draws[..t]);
        RemoveAtFacts(free, draws[t]);
      }
      assert forall p :: p in free ==> 0 <= p < n && prev[p] == -1 by {
        ScatterFree(n, w[..t], draws[..t]);
      }
      forall p | p in Remaining(Range(n), draws) ensures Scatter(n, w, draws)[p] == -1 {
        assert prev[p] == -1;
      }
    }
  }

  /** The values other than `-1` in the scratch array are exactly the wanted
      values other than `-1` written so far. */
  lemma {:induction false} ScatterCounts(n: nat, w: seq<int>, draws: seq<nat>)
    requires |w| == |draws| && CanDraw(n, draws)
    ensures multiset(Scatter(n, w, draws))[-1 := 0] == multiset(w)[-1 := 0]
    decreases |draws|
  {
    if draws == [] {
      var s := Scatter(n, w, draws);
      assert multiset(s)[-1 := 0] == multiset{} by {
        forall x | x != -1 ensures multiset(s)[x] == 0 {
          assert x !in s;
        }
      }
    } else {
      var t := |draws| - 1;
      assert CanDraw(n, draws[..t]);
      var free := Remaining(Range(n), draws[..t]);
      var prev := Scatter(n, w[..t], draws[..t]);
      var pos := free[draws[t]];
      assert 0 <= pos < n && prev[pos] == -1 by {
        FreePositions(n, draws[..t]);
        assert pos in free;
        ScatterFree(n, w[..t], draws[..t]);
      }
      assert multiset(prev)[-1 := 0] == multiset(w[..t])[-1 := 0] by {
        ScatterCounts(n, w[..t], draws[..t]);
      }
      assert multiset(w) == multiset(w[..t]) + multiset{w[t]} by {
        assert w == w[..t] + [w[t]];
      }
      if w[t] != -1 {
        assert Scatter(n, w, draws) == prev[pos := w[t]];
        PlaceAt(prev, pos, w[t]);
      } else {
        assert Scatter(n, w, draws) == prev;
      }
    }
  }

  /** Writing `x` over a `-1` entry adds one `x` to the entries other than `-1`. */
  lemma PlaceAt(s: seq<int>, p: nat, x: int)
    requires p < |s| && s[p] == -1 && x != -1
    ensures multiset(s[p := x])[-1 := 0] == multiset(s)[-1 := 0] + multiset{x}
  {
    assert multiset(s[p := x]) == multiset(s) - multiset{-1} + multiset{x};
  }

  /** Job `x` is wanted once per machine below `k` it uses, and nothing but
      `x` and `-1` is wanted in its row. */
  lemma RowWantedCount(row: seq<int>, x: int, k: nat)
    requires k <= |row| && x != -1
    ensures multiset(RowWanted(row, x, k))[x] == CountReal(row, k)
    ensures forall y :: y in RowWanted(row, x, k) ==> y == x || y == -1
  {
    RowWantedOccurrences(row, x, k);
    RowWantedValues(row, x, k);
  }

  lemma {:induction false} RowWantedOccurrences(row: seq<int>, x: int, k: nat)
    requires k <= |row| && x != -1
    ensures multiset(RowWanted(row, x, k))[x] == CountReal(row, k)
  {
    if k > 0 {
      var p := RowWanted(row, x, k - 1);
      var e := if row[k - 1] != -1 then x else -1;
      assert multiset(p)[x] == CountReal(row, k - 1) by {
        RowWantedOccurrences(row, x, k - 1);
      }
      assert multiset(RowWanted(row, x, k))[x] == multiset(p)[x] + (if e == x then 1 else 0) by {
        assert RowWanted(row, x, k) == p + [e];
        assert multiset(p + [e]) == multiset(p) + multiset{e};
      }
    }
  }

  lemma {:induction false} RowWantedValues(row: seq<int>, x: int, k: nat)
    requires k <= |row|
    ensures forall y :: y in RowWanted(row, x, k) ==> y == x || y == -1
  {
    if k > 0 {
      RowWantedValues(row, x, k - 1);
    }
  }

  /** Over the first `rows` jobs, job `x` is wanted once per machine below
      `cols` it uses, and nothing but those jobs and `-1` is wanted. */
  lemma WantedCount(pm: seq<seq<int>>, rows: nat, cols: nat)
    requires rows <= |pm| && forall i :: 0 <= i < rows ==> cols <= |pm[i]|
    ensures forall x :: 0 <= x < rows ==> multiset(Wanted(pm, rows, cols))[x] == CountReal(pm[x], cols)
    ensures forall y :: y in Wanted(pm, rows, cols) ==> y == -1 || 0 <= y < rows
  {
    WantedValues(pm, rows, cols);
    WantedOccurrences(pm, rows, cols);
  }

  lemma {:induction false} WantedValues(pm: seq<seq<int>>, rows: nat, cols: nat)
    requires rows <= |pm| && forall i :: 0 <= i < rows ==> cols <= |pm[i]|
    ensures forall y :: y in Wanted(pm, rows, cols) ==> y == -1 || 0 <= y < rows
  {
    if rows > 0 {
      WantedValues(pm, rows - 1, cols);
      RowWantedValues(pm[rows - 1], rows - 1, cols);
      assert Wanted(pm, rows, cols) == Wanted(pm, rows - 1, cols) + RowWanted(pm[rows - 1], rows - 1, cols);
    }
  }

  lemma {:induction false} WantedOccurrences(pm: seq<seq<int>>, rows: nat, cols: nat)
    requires rows <= |pm| && forall i :: 0 <= i < rows ==> cols <= |pm[i]|
    ensures forall x :: 0 <= x < rows ==> multiset(Wanted(pm, rows, cols))[x] == CountReal(pm[x], cols)
  {
    if rows > 0 {
      var last := rows - 1;
      var before := Wanted(pm, last, cols);
      var row := RowWanted(pm[last], last, cols);
      assert Wanted(pm, rows, cols) == before + row;
      assert forall x :: 0 <= x < last ==> multiset(before)[x] == CountReal(pm[x], cols) by {
        WantedOccurrences(pm, last, cols);
      }
      assert multiset(row)[last] == CountReal(pm[last], cols) by {
        RowWantedOccurrences(pm[last], last, cols);
      }
      assert (forall x :: 0 <= x < last ==> multiset(before + row)[x] == multiset(before)[x]) &&
             multiset(before + row)[last] == multiset(row)[last] by {
        WantedValues(pm, last, cols);
        RowWantedValues(pm[last], last, cols);
        AppendCounts(before, row, last);
      }
      CountsStep(pm, cols, last, before, row);
    }
  }

  /** The counts of jobs 0 .. last - 1 carried over from `before` and the
      count of job `last` from `row` give the counts of jobs 0 .. last in
      `before + row`. */
  lemma CountsStep(pm: seq<seq<int>>, cols: nat, last: nat, before: seq<int>, row: seq<int>)
    requires last < |pm| && forall i :: 0 <= i <= last ==> cols <= |pm[i]|
    requires forall x :: 0 <= x < last ==> multiset(before)[x] == CountReal(pm[x], cols)
    requires multiset(row)[last] == CountReal(pm[last], cols)
    requires forall x :: 0 <= x < last ==> multiset(before + row)[x] == multiset(before)[x]
    requires multiset(before + row)[last] == multiset(row)[last]
    ensures forall x :: 0 <= x <= last ==> multiset(before + row)[x] == CountReal(pm[x], cols)
  {
  }

  /** Appending a block that holds only `last` and `-1` to a sequence that
      holds only `-1` and values below `last` leaves the counts of the values
      below `last` alone and adds the block's count of `last`. */
  lemma AppendCounts(before: seq<int>, row: seq<int>, last: nat)
    requires forall y :: y in before ==> y == -1 || 0 <= y < last
    requires forall y :: y in row ==> y == last || y == -1
    ensures forall x :: 0 <= x < last ==> multiset(before + row)[x] == multiset(before)[x]
    ensures multiset(before + row)[last] == multiset(row)[last]
  {
    assert multiset(before + row) == multiset(before) + multiset(row);
    forall x | 0 <= x < last ensures multiset(row)[x] == 0 {
      assert x !in row;
    }
    assert last !in before;
  }

  /** A chromosome `initialPopulation` builds for `rows` jobs and `cols`
      machines: the scratch array after the draws, with the unused `-1`
      positions filtered out. */
  function InitialChromosome(pm: seq<seq<int>>, rows: nat, cols: nat, draws: seq<nat>): seq<int>
    requires rows <= |pm| && forall i :: 0 <= i < rows ==> cols <= |pm[i]|
    requires |draws| == rows * cols && CanDraw(rows * cols, draws)
  {
    Filter(Scatter(rows * cols, Wanted(pm, rows, cols), draws), -1)
  }

  /** The occurrence counts of a chromosome `initialPopulation` builds: job
      `x` occurs once per machine below `cols` it uses, and only jobs below
      `rows` occur (no `-1` survives the filter). */
  lemma InitialCounts(pm: seq<seq<int>>, rows: nat, cols: nat, draws: seq<nat>)
    requires rows <= |pm| && forall i :: 0 <= i < rows ==> cols <= |pm[i]|
    requires |draws| == rows * cols && CanDraw(rows * cols, draws)
    ensures var c := InitialChromosome(pm, rows, cols, draws);
      (forall x :: 0 <= x < rows ==> multiset(c)[x] == CountReal(pm[x], cols)) &&
      (forall i :: 0 <= i < |c| ==> 0 <= c[i] < rows)
  {
    var w := Wanted(pm, rows, cols);
    var s := Scatter(rows * cols, w, draws);
    var c := Filter(s, -1);
    ScatterFacts(rows * cols, w, draws);
    FilterMultiset(s, -1);
    WantedCount(pm, rows, cols);
    forall x | 0 <= x < rows ensures multiset(c)[x] == CountReal(pm[x], cols) {
      assert multiset(c)[x] == multiset(w)[-1 := 0][x];
    }
    forall i | 0 <= i < |c| ensures 0 <= c[i] < rows {
      assert c[i] in multiset(c);
      assert c[i] in w by {
        assert multiset(w)[-1 := 0][c[i]] > 0;
      }
    }
  }
}
