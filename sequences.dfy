/** Sequence operations behind the engine's list handling: the index lists it
    samples positions from, the `-1` filter applied after placement, the
    first-match removal used by crossover and the swaps used by mutation.
    Every Java `List<Integer>` and `Integer[]` of the engine is a `seq<int>` here. */
module Sequences {

  /** The list 0, 1, ..., n - 1. */
  function Range(n: nat): seq<int>
  {
    seq(n, i => i)
  }

  lemma RangeFacts(n: nat)
    ensures |Range(n)| == n
    ensures Distinct(Range(n))
    ensures forall x :: x in Range(n) <==> 0 <= x < n
  {
    forall x | 0 <= x < n ensures x in Range(n) {
      assert Range(n)[x] == x;
    }
  }

  predicate Distinct(s: seq<int>)
  {
    forall i, k :: 0 <= i < k < |s| ==> s[i] != s[k]
  }

  /** What `list.remove(index)` leaves in a Java list: the element at
      `index` goes and the later ones move up by one. */
  function RemoveAt(s: seq<int>, index: nat): (r: seq<int>)
    requires index < |s|
    ensures |r| == |s| - 1
  {
    s[..index] + s[index + 1..]
  }

  lemma RemoveAtFacts(s: seq<int>, index: nat)
    requires index < |s|
    ensures multiset(RemoveAt(s, index)) == multiset(s) - multiset{s[index]}
    ensures forall x :: x in RemoveAt(s, index) ==> x in s
    ensures Distinct(s) ==> Distinct(RemoveAt(s, index)) && s[index] !in RemoveAt(s, index)
  {
    RemoveAtMultiset(s, index);
    RemoveAtMembers(s, index);
    if Distinct(s) {
      RemoveAtDistinct(s, index);
    }
  }

  lemma RemoveAtMultiset(s: seq<int>, index: nat)
    requires index < |s|
    ensures multiset(RemoveAt(s, index)) == multiset(s) - multiset{s[index]}
  {
    assert s == s[..index] + [s[index]] + s[index + 1..];
  }

  lemma RemoveAtMembers(s: seq<int>, index: nat)
    requires index < |s|
    ensures forall x :: x in RemoveAt(s, index) ==> x in s
  {
    var r := RemoveAt(s, index);
    forall x | x in r ensures x in s {
      var k :| 0 <= k < |r| && r[k] == x;
      if k < index { assert r[k] == s[k]; } else { assert r[k] == s[k + 1]; }
    }
  }

  lemma RemoveAtDistinct(s: seq<int>, index: nat)
    requires index < |s| && Distinct(s)
    ensures Distinct(RemoveAt(s, index)) && s[index] !in RemoveAt(s, index)
  {
    var r := RemoveAt(s, index);
    forall i, k | 0 <= i < k < |r| ensures r[i] != r[k] {
      var i' := if i < index then i else i + 1;
      var k' := if k < index then k else k + 1;
      assert r[i] == s[i'] && r[k] == s[k'];
    }
    forall k | 0 <= k < |r| ensures r[k] != s[index] {
      if k < index { assert r[k] == s[k]; } else { assert r[k] == s[k + 1]; }
    }
  }

  /** The draws are valid arguments of successive `random.nextInt(list.size())`
      calls on a list of size `n` from which one element is removed per draw. */
  predicate CanDraw(n: nat, draws: seq<nat>)
  {
    forall t :: 0 <= t < |draws| ==> draws[t] < n - t
  }

  /** The list left after removing, in turn, the elements at the drawn indices. */
  function Remaining(pool: seq<int>, draws: seq<nat>): (r: seq<int>)
    requires CanDraw(|pool|, draws)
    ensures |r| == |pool| - |draws|
    decreases |draws|
  {
    if draws == [] then pool
    else
      var prefix := draws[..|draws| - 1];
      assert CanDraw(|pool|, prefix);
      RemoveAt(Remaining(pool, prefix), draws[|draws| - 1])
  }

  /** The elements removed by those draws, in the order they were removed. */
  function Sample(pool: seq<int>, draws: seq<nat>): (r: seq<int>)
    requires CanDraw(|pool|, draws)
    ensures |r| == |draws|
    decreases |draws|
  {
    if draws == [] then []
    else
      var prefix := draws[..|draws| - 1];
      assert CanDraw(|pool|, prefix);
      Sample(pool, prefix) + [Remaining(pool, prefix)[draws[|draws| - 1]]]
  }

  /** One more draw extends the sample by the element at the drawn index of the
      remaining list, and removes it from that list. */
  lemma SampleStep(pool: seq<int>, draws: seq<nat>, k: nat)
    requires CanDraw(|pool|, draws) && k < |draws|
    ensures CanDraw(|pool|, draws[..k]) && CanDraw(|pool|, draws[..k + 1])
    ensures draws[k] < |Remaining(pool, draws[..k])|
    ensures Sample(pool, draws[..k + 1]) == Sample(pool, draws[..k]) + [Remaining(pool, draws[..k])[draws[k]]]
    ensures Remaining(pool, draws[..k + 1]) == RemoveAt(Remaining(pool, draws[..k]), draws[k])
  {
    assert draws[..k + 1][..k] == draws[..k];
  }

  /** Sampling without replacement from a list of distinct values yields
      distinct values of the list, none of which is still in the remaining list. */
  lemma {:induction false} SampleFacts(pool: seq<int>, draws: seq<nat>)
    requires Distinct(pool) && CanDraw(|pool|, draws)
    ensures Distinct(Sample(pool, draws)) && Distinct(Remaining(pool, draws))
    ensures forall x :: x in Sample(pool, draws) ==> x in pool && x !in Remaining(pool, draws)
    ensures forall x :: x in Remaining(pool, draws) ==> x in pool
    decreases |draws|
  {
    if draws != [] {
      var prefix := draws[..|draws| - 1];
      assert CanDraw(|pool|, prefix);
      SampleFacts(pool, prefix);
      var rest := Remaining(pool, prefix);
      var d := draws[|draws| - 1];
      RemoveAtFacts(rest, d);
      var s := Sample(pool, prefix);
      assert Sample(pool, draws) == s + [rest[d]];
      assert rest[d] in rest;
      forall i, k | 0 <= i < k < |s| + 1 ensures (s + [rest[d]])[i] != (s + [rest[d]])[k] {
        if k == |s| { assert s[i] in s; }
      }
    }
  }

  /** The first `k` elements removed depend only on the first `k` draws. */
  lemma {:induction false} SamplePrefix(pool: seq<int>, draws: seq<nat>, k: nat)
    requires CanDraw(|pool|, draws) && k <= |draws|
    ensures CanDraw(|pool|, draws[..k])
    ensures Sample(pool, draws[..k]) == Sample(pool, draws)[..k]
    decreases |draws| - k
  {
    if k < |draws| {
      SamplePrefix(pool, draws, k + 1);
      SampleStep(pool, draws, k);
      assert Sample(pool, draws[..k + 1])[..k] == Sample(pool, draws[..k]);
    } else {
      assert draws[..k] == draws;
    }
  }

  /** The elements of `s` other than `v`, in their original order (what
      `filterArray(arr, v)` returns). */
  function Filter(s: seq<int>, v: int): seq<int>
    decreases |s|
  {
    if s == [] then []
    else Filter(s[..|s| - 1], v) + (if s[|s| - 1] == v then [] else [s[|s| - 1]])
  }

  /** Filtering removes exactly the occurrences of `v`: every other value
      keeps its count and `v` is gone. */
  lemma {:induction false} FilterMultiset(s: seq<int>, v: int)
    ensures multiset(Filter(s, v)) == multiset(s)[v := 0]
    ensures v !in Filter(s, v)
    decreases |s|
  {
    if s != [] {
      var p := s[..|s| - 1];
      var x := s[|s| - 1];
      assert s == p + [x];
      FilterMultiset(p, v);
    }
  }

  /** The survivors of the filter keep their relative order. */
  lemma {:induction false} FilterSubsequence(s: seq<int>, v: int)
    ensures IsSubsequence(Filter(s, v), s)
    decreases |s|
  {
    if s != [] {
      var p := s[..|s| - 1];
      FilterSubsequence(p, v);
      if s[|s| - 1] == v {
        assert Filter(s, v) == Filter(p, v);
        SubsequenceDropLast(Filter(p, v), s);
      } else {
        var f := Filter(s, v);
        assert f[..|f| - 1] == Filter(p, v);
      }
    }
  }

  /** `a` can be obtained from `b` by deleting elements (order is kept). */
  predicate IsSubsequence(a: seq<int>, b: seq<int>)
    decreases |b|
  {
    a == [] ||
    (b != [] &&
     ((a[|a| - 1] == b[|b| - 1] && IsSubsequence(a[..|a| - 1], b[..|b| - 1])) ||
      IsSubsequence(a, b[..|b| - 1])))
  }

  lemma SubsequenceDropLast(a: seq<int>, b: seq<int>)
    requires b != [] && IsSubsequence(a, b[..|b| - 1])
    ensures IsSubsequence(a, b)
  {
  }

  lemma {:induction false} SubsequenceReflexive(a: seq<int>)
    ensures IsSubsequence(a, a)
    decreases |a|
  {
    if a != [] { SubsequenceReflexive(a[..|a| - 1]); }
  }

  lemma {:induction false} SubsequenceTransitive(a: seq<int>, b: seq<int>, c: seq<int>)
    requires IsSubsequence(a, b) && IsSubsequence(b, c)
    ensures IsSubsequence(a, c)
    decreases |c|
  {
    if a != [] {
      assert b != [] && c != [];
      var a', b', c' := a[..|a| - 1], b[..|b| - 1], c[..|c| - 1];
      if IsSubsequence(b, c') {
        SubsequenceTransitive(a, b, c');
      } else if a[|a| - 1] == b[|b| - 1] && IsSubsequence(a', b') {
        SubsequenceTransitive(a', b', c');
      } else {
        SubsequenceTransitive(a, b', c');
      }
    }
  }

  lemma {:induction false} RemoveAtSubsequence(s: seq<int>, index: nat)
    requires index < |s|
    ensures IsSubsequence(RemoveAt(s, index), s)
    decreases |s|
  {
    var r := RemoveAt(s, index);
    if index == |s| - 1 {
      assert r == s[..|s| - 1];
      SubsequenceReflexive(r);
    } else {
      var p := s[..|s| - 1];
      RemoveAtSubsequence(p, index);
      assert RemoveAt(p, index) == r[..|r| - 1];
      assert r[|r| - 1] == s[|s| - 1];
    }
  }

  /** Index of the first occurrence of `v` in `s`. */
  function FirstIndex(s: seq<int>, v: int): (r: nat)
    requires v in s
    ensures r < |s| && s[r] == v
    ensures forall q :: 0 <= q < r ==> s[q] != v
  {
    if s[0] == v then 0 else 1 + FirstIndex(s[1..], v)
  }

  /** The list after the scan that removes the first element equal to `v`,
      if there is one (the inner loop of crossover). */
  function RemoveFirst(s: seq<int>, v: int): seq<int>
  {
    if v in s then RemoveAt(s, FirstIndex(s, v)) else s
  }

  lemma RemoveFirstFacts(s: seq<int>, v: int)
    ensures multiset(RemoveFirst(s, v)) == multiset(s) - multiset{v}
    ensures |RemoveFirst(s, v)| == if v in s then |s| - 1 else |s|
    ensures IsSubsequence(RemoveFirst(s, v), s)
  {
    if v in s {
      RemoveAtFacts(s, FirstIndex(s, v));
      RemoveAtSubsequence(s, FirstIndex(s, v));
    } else {
      assert multiset(s)[v] == 0;
      SubsequenceReflexive(s);
    }
  }

  /** The first element equal to `v` sits at `i` when `s[i] == v` and no
      earlier element equals `v`. */
  lemma FirstIndexAt(s: seq<int>, v: int, i: nat)
    requires i < |s| && s[i] == v
    requires forall q :: 0 <= q < i ==> s[q] != v
    ensures v in s && FirstIndex(s, v) == i
  {
  }

  /** `s` after removing, for each element of `d` in turn, its first match. */
  function RemoveEach(s: seq<int>, d: seq<int>): seq<int>
    decreases |d|
  {
    if d == [] then s else RemoveFirst(RemoveEach(s, d[..|d| - 1]), d[|d| - 1])
  }

  /** The removal takes away exactly the multiset of `d`, keeps the order of
      what remains, and shortens `s` by `|d|` whenever `d` is contained in `s`. */
  lemma RemoveEachFacts(s: seq<int>, d: seq<int>)
    ensures multiset(RemoveEach(s, d)) == multiset(s) - multiset(d)
    ensures multiset(d) <= multiset(s) ==> |RemoveEach(s, d)| == |s| - |d|
    ensures IsSubsequence(RemoveEach(s, d), s)
  {
    RemoveEachMultiset(s, d);
    if multiset(d) <= multiset(s) {
      RemoveEachLength(s, d);
    }
    RemoveEachSubsequence(s, d);
  }

  lemma {:induction false} RemoveEachMultiset(s: seq<int>, d: seq<int>)
    ensures multiset(RemoveEach(s, d)) == multiset(s) - multiset(d)
    decreases |d|
  {
    if d != [] {
      var p := d[..|d| - 1];
      var v := d[|d| - 1];
      assert d == p + [v];
      assert multiset(d) == multiset(p) + multiset{v};
      RemoveEachMultiset(s, p);
      var t := RemoveEach(s, p);
      RemoveFirstFacts(t, v);
      assert RemoveEach(s, d) == RemoveFirst(t, v);
      MultisetDiffStep(multiset(s), multiset(p), v);
    }
  }

  /** Taking away `p` and then one `v` takes away `p` plus one `v`. */
  lemma MultisetDiffStep(a: multiset<int>, p: multiset<int>, v: int)
    ensures a - p - multiset{v} == a - (p + multiset{v})
  {
    forall x ensures (a - p - multiset{v})[x] == (a - (p + multiset{v}))[x] {
    }
  }

  lemma {:induction false} RemoveEachLength(s: seq<int>, d: seq<int>)
    requires multiset(d) <= multiset(s)
    ensures |RemoveEach(s, d)| == |s| - |d|
    decreases |d|
  {
    if d != [] {
      var p := d[..|d| - 1];
      var v := d[|d| - 1];
      assert d == p + [v];
      assert multiset(p) <= multiset(s) by {
        forall x ensures multiset(p)[x] <= multiset(s)[x] {
          assert multiset(p)[x] <= multiset(d)[x];
        }
      }
      RemoveEachLength(s, p);
      var t := RemoveEach(s, p);
      RemoveEachMultiset(s, p);
      RemoveFirstFacts(t, v);
      assert multiset(t)[v] >= 1;
      assert v in t;
    }
  }

  lemma {:induction false} RemoveEachSubsequence(s: seq<int>, d: seq<int>)
    ensures IsSubsequence(RemoveEach(s, d), s)
    decreases |d|
  {
    if d == [] {
      SubsequenceReflexive(s);
    } else {
      var p := d[..|d| - 1];
      RemoveEachSubsequence(s, p);
      var t := RemoveEach(s, p);
      RemoveFirstFacts(t, d[|d| - 1]);
      SubsequenceTransitive(RemoveFirst(t, d[|d| - 1]), t, s);
    }
  }

  /** `s` with the entries at `a` and `b` exchanged. */
  function Swap(s: seq<int>, a: nat, b: nat): seq<int>
    requires a < |s| && b < |s|
  {
    s[a := s[b]][b := s[a]]
  }

  predicate PairedPositions(n: nat, pos: seq<int>)
  {
    |pos| % 2 == 0 && forall k :: 0 <= k < |pos| ==> 0 <= pos[k] < n
  }

  /** `s` after swapping `pos[0]` with `pos[1]`, then `pos[2]` with `pos[3]`, and so on. */
  function ApplySwaps(s: seq<int>, pos: seq<int>): (r: seq<int>)
    requires PairedPositions(|s|, pos)
    ensures |r| == |s|
    decreases |pos|
  {
    if pos == [] then s
    else
      var prefix := pos[..|pos| - 2];
      assert PairedPositions(|s|, prefix);
      Swap(ApplySwaps(s, prefix), pos[|pos| - 2], pos[|pos| - 1])
  }

  /** The positions `mutationGene` swaps: drawn without replacement from
      0 .. n - 1, taken two at a time. */
  function DrawnPairs(n: nat, draws: seq<nat>): (pos: seq<int>)
    requires |draws| % 2 == 0 && CanDraw(n, draws)
    ensures |pos| == |draws| && PairedPositions(n, pos) && Distinct(pos)
  {
    RangeFacts(n);
    SampleFacts(Range(n), draws);
    var pos := Sample(Range(n), draws);
    assert forall k :: 0 <= k < |pos| ==> pos[k] in pos;
    pos
  }

  /** Draws `k` and `k + 1` pick the next pair: the positions at the drawn
      indices of the list left by the earlier draws, each taken out in turn. */
  lemma DrawnPairStep(n: nat, draws: seq<nat>, k: nat)
    requires k % 2 == 0 && k + 2 <= |draws| && CanDraw(n, draws)
    ensures CanDraw(n, draws[..k]) && CanDraw(n, draws[..k + 1]) && CanDraw(n, draws[..k + 2])
    ensures var free := Remaining(Range(n), draws[..k]);
      draws[k] < |free| && 0 <= free[draws[k]] < n &&
      var free' := RemoveAt(free, draws[k]);
      free' == Remaining(Range(n), draws[..k + 1]) &&
      draws[k + 1] < |free'| && 0 <= free'[draws[k + 1]] < n &&
      RemoveAt(free', draws[k + 1]) == Remaining(Range(n), draws[..k + 2]) &&
      DrawnPairs(n, draws[..k + 2]) == DrawnPairs(n, draws[..k]) + [free[draws[k]], free'[draws[k + 1]]]
  {
    var pool := Range(n);
    RangeFacts(n);
    SampleStep(pool, draws, k);
    SampleStep(pool, draws, k + 1);
    SampleFacts(pool, draws[..k]);
    SampleFacts(pool, draws[..k + 1]);
    var free := Remaining(pool, draws[..k]);
    var free' := Remaining(pool, draws[..k + 1]);
    assert free[draws[k]] in free;
    assert free'[draws[k + 1]] in free';
  }

  /** Applying one more pair of swaps. */
  lemma ApplySwapsStep(s: seq<int>, pos: seq<int>, a: nat, b: nat)
    requires PairedPositions(|s|, pos) && a < |s| && b < |s|
    ensures PairedPositions(|s|, pos + [a, b])
    ensures ApplySwaps(s, pos + [a, b]) == Swap(ApplySwaps(s, pos), a, b)
  {
    assert (pos + [a, b])[..|pos|] == pos;
  }

  /** The state of the loop of `mutationGene` after `i` swaps: from the
      starting sequence `s0`, the list `il` of positions not yet drawn and
      the sequence `s` are what the first `2 * i` draws leave. */
  ghost predicate Swapping(s0: seq<int>, draws: seq<nat>, i: nat, s: seq<int>, il: seq<int>)
  {
    2 * i <= |draws| && |s| == |s0| && CanDraw(|s|, draws[..2 * i]) &&
    il == Remaining(Range(|s|), draws[..2 * i]) &&
    s == ApplySwaps(s0, DrawnPairs(|s|, draws[..2 * i]))
  }

  /** The position a chosen position is swapped with. */
  function Partner(k: nat): nat
  {
    if k % 2 == 0 then k + 1 else k - 1
  }

  /** Swaps only move values, so the multiset of values is unchanged. */
  lemma {:induction false} ApplySwapsMultiset(s: seq<int>, pos: seq<int>)
    requires PairedPositions(|s|, pos)
    ensures multiset(ApplySwaps(s, pos)) == multiset(s)
    decreases |pos|
  {
    if pos != [] {
      var prefix := pos[..|pos| - 2];
      assert PairedPositions(|s|, prefix);
      ApplySwapsMultiset(s, prefix);
      SwapMultiset(ApplySwaps(s, prefix), pos[|pos| - 2], pos[|pos| - 1]);
    }
  }

  /** With distinct positions, the swaps exchange exactly the chosen pairs:
      each chosen position receives the value of its partner and every other
      position is unchanged. */
  lemma {:induction false} ApplySwapsExchange(s: seq<int>, pos: seq<int>)
    requires PairedPositions(|s|, pos) && Distinct(pos)
    ensures forall p :: 0 <= p < |s| && p !in pos ==> ApplySwaps(s, pos)[p] == s[p]
    ensures forall k :: 0 <= k < |pos| ==> Partner(k) < |pos| && ApplySwaps(s, pos)[pos[k]] == s[pos[Partner(k)]]
    decreases |pos|
  {
    if pos != [] {
      var prefix := pos[..|pos| - 2];
      var a, b := pos[|pos| - 2], pos[|pos| - 1];
      assert PairedPositions(|s|, prefix);
      assert Distinct(prefix);
      ApplySwapsExchange(s, prefix);
      var t := ApplySwaps(s, prefix);
      forall k | 0 <= k < |prefix| ensures prefix[k] != a && prefix[k] != b {
        assert prefix[k] == pos[k];
      }
      assert t[a] == s[a] && t[b] == s[b];
      var r := Swap(t, a, b);
      forall p | 0 <= p < |s| && p !in pos ensures r[p] == s[p] {
        forall k | 0 <= k < |prefix| ensures prefix[k] != p {
          assert prefix[k] == pos[k];
        }
      }
      forall k | 0 <= k < |pos| ensures Partner(k) < |pos| && r[pos[k]] == s[pos[Partner(k)]] {
        if k < |prefix| {
          assert pos[k] == prefix[k] && Partner(k) < |prefix| && pos[Partner(k)] == prefix[Partner(k)];
        }
      }
    }
  }

  lemma SwapMultiset(s: seq<int>, a: nat, b: nat)
    requires a < |s| && b < |s|
    ensures multiset(Swap(s, a, b)) == multiset(s)
  {
    var t := s[a := s[b]];
    assert multiset(t) == multiset(s) - multiset{s[a]} + multiset{s[b]};
    assert multiset(t[b := s[a]]) == multiset(t) - multiset{t[b]} + multiset{s[a]};
  }

  /** `makeList(n)`: the list 0, 1, ..., n - 1, built by appending. */
  method MakeList(n: nat) returns (result: seq<int>)
    ensures |result| == n
    ensures forall i :: 0 <= i < n ==> result[i] == i
    ensures result == Range(n)
  {
    result := [];
    var i := 0;
    while i < n
      invariant 0 <= i <= n
      invariant |result| == i
      invariant forall k :: 0 <= k < i ==> result[k] == k
    {
      result := result + [i];
      i := i + 1;
    }
    assert result == Range(n);
  }

  /** `filterArray(arr, filterVal)`: the elements different from `filterVal`,
      in order (the Java copies them to a fresh array). */
  method FilterArray(arr: array<int>, filterVal: int) returns (result: seq<int>)
    ensures result == Filter(arr[..], filterVal)
  {
    result := [];
    var i := 0;
    while i < arr.Length
      invariant 0 <= i <= arr.Length
      invariant result == Filter(arr[..i], filterVal)
    {
      assert arr[..i + 1][..i] == arr[..i];
      if arr[i] != filterVal {
        result := result + [arr[i]];
      }
      i := i + 1;
    }
    assert arr[..arr.Length] == arr[..];
  }

  /** `subArray(arr, start, end)`: the elements at positions start, ..., end - 1. */
  method SubArray(arr: array<int>, start: nat, end: nat) returns (list: seq<int>)
    requires start <= end <= arr.Length
    ensures list == arr[start..end]
  {
    list := [];
    var i := start;
    while i < end
      invariant start <= i <= end
      invariant list == arr[start..i]
    {
      assert arr[start..i + 1] == arr[start..i] + [arr[i]];
      list := list + [arr[i]];
      i := i + 1;
    }
  }

  /** `list.toArray(...)`: a fresh array holding the elements of the list. */
  method ToArray(list: seq<int>) returns (arr: array<int>)
    ensures fresh(arr) && arr[..] == list
  {
    arr := new int[|list|];
    var i := 0;
    while i < |list|
      invariant 0 <= i <= |list|
      invariant arr[..i] == list[..i]
    {
      arr[i] := list[i];
      i := i + 1;
    }
    assert arr[..] == arr[..|list|];
  }
}
