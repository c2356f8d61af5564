/** Order-preserving crossover as a function of the two parents and the two
    drawn cut points, with the facts that make it a recombination: the child
    is a rearrangement of the second parent that carries the first parent's
    slice at its original positions. */
module Crossover {
  import opened Sequences

  /** The cut points of `crossGene`: the two distinct positions drawn
      without replacement from 0 .. n - 1, smaller one first. */
  function CutPoints(n: nat, draws: seq<nat>): (r: (nat, nat))
    requires |draws| == 2 && CanDraw(n, draws)
    ensures r.0 < r.1 < n
  {
    var pos := DrawnPairs(n, draws);
    assert pos[0] != pos[1];
    if pos[0] < pos[1] then (pos[0], pos[1]) else (pos[1], pos[0])
  }

  /** The child of `crossGene(a, b)` for cut points `start <= end`: the slice
      `a[start..end]` (both ends included) is removed, occurrence by
      occurrence, from `b`, and put back in at position `start`. */
  function Cross(a: seq<int>, b: seq<int>, start: nat, end: nat): seq<int>
    requires start <= end < |a| && start <= |RemoveEach(b, a[start..end + 1])|
  {
    var donor := a[start..end + 1];
    var rest := RemoveEach(b, donor);
    rest[..start] + donor + rest[start..]
  }

  /** The child of `crossGene` for parents `a` and `b` of length `n` with
      the same occurrence counts, at the cut points the draws give. */
  function CrossChild(a: seq<int>, b: seq<int>, draws: seq<nat>): seq<int>
    requires multiset(a) == multiset(b) && |draws| == 2 && CanDraw(|a|, draws)
  {
    var cut := CutPoints(|a|, draws);
    CrossDefined(a, b, cut.0, cut.1);
    Cross(a, b, cut.0, cut.1)
  }

  /** For parents with the same occurrence counts, what is left of `b`
      after the removal is `|b| - |slice|` long, so the slice can be put back
      in at `start`. */
  lemma CrossDefined(a: seq<int>, b: seq<int>, start: nat, end: nat)
    requires multiset(a) == multiset(b) && start <= end < |a|
    ensures |RemoveEach(b, a[start..end + 1])| == |b| - (end + 1 - start) >= start
  {
    var donor := a[start..end + 1];
    assert a == a[..start] + donor + a[end + 1..];
    assert multiset(donor) <= multiset(b);
    RemoveEachFacts(b, donor);
    assert |a| == |b| by {
      assert |multiset(a)| == |multiset(b)|;
    }
  }

  /** For parents with the same occurrence counts: the child is defined, it
      is a rearrangement of `b`, it holds `a`'s slice at the slice's own
      positions, and around the slice it holds what is left of `b` after the
      removal, in `b`'s order. */
  lemma CrossFacts(a: seq<int>, b: seq<int>, start: nat, end: nat)
    requires multiset(a) == multiset(b) && start <= end < |a|
    ensures start <= |RemoveEach(b, a[start..end + 1])|
    ensures |Cross(a, b, start, end)| == |b|
    ensures multiset(Cross(a, b, start, end)) == multiset(b)
    ensures Cross(a, b, start, end)[start..end + 1] == a[start..end + 1]
    ensures Cross(a, b, start, end)[..start] + Cross(a, b, start, end)[end + 1..] == RemoveEach(b, a[start..end + 1])
    ensures IsSubsequence(RemoveEach(b, a[start..end + 1]), b)
  {
    var donor := a[start..end + 1];
    var rest := RemoveEach(b, donor);
    assert multiset(donor) <= multiset(b) by {
      assert a == a[..start] + donor + a[end + 1..];
    }
    assert |rest| == |b| - |donor| >= start by {
      CrossDefined(a, b, start, end);
    }
    assert multiset(rest) == multiset(b) - multiset(donor) && IsSubsequence(rest, b) by {
      RemoveEachFacts(b, donor);
    }
    Splice(rest, donor, start);
  }

  /** Putting `d` into `s` at position `k`: `d` sits at `k .. k + |d| - 1`
      and the other positions hold `s` in order. */
  lemma Splice(s: seq<int>, d: seq<int>, k: nat)
    requires k <= |s|
    ensures var c := s[..k] + d + s[k..];
      |c| == |s| + |d| && multiset(c) == multiset(s) + multiset(d) &&
      c[k..k + |d|] == d && c[..k] + c[k + |d|..] == s
  {
    var c := s[..k] + d + s[k..];
    assert s == s[..k] + s[k..];
    assert c[k..k + |d|] == d;
    assert c[..k] == s[..k];
    assert c[k + |d|..] == s[k..];
  }
}
