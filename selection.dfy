/** The scans of `selectGene` and of the final best-gene search, as a
    function of the population's fitness values: which individual the scan
    keeps, and why that individual has the smallest fitness. */
module Selection {
  import opened Sequences

  /** The index the scan keeps after looking at `fits` in order, or -1 while
      it still holds the placeholder of fitness `sentinel`: an index in
      `chosen` replaces the kept individual when its fitness is strictly
      smaller. */
  function Tournament(fits: seq<int>, chosen: set<int>, sentinel: int): (r: int)
    ensures -1 <= r < |fits|
    decreases |fits|
  {
    if fits == [] then -1
    else
      var i := |fits| - 1;
      var r := Tournament(fits[..i], chosen, sentinel);
      if i in chosen && Kept(fits[..i], r, sentinel) > fits[i] then i else r
  }

  /** The fitness of what the scan holds: the placeholder's or that of
      individual `r`. */
  function Kept(fits: seq<int>, r: int, sentinel: int): int
    requires -1 <= r < |fits|
  {
    if r == -1 then sentinel else fits[r]
  }

  /** The indices `selectGene` puts in its map: the positions drawn without
      replacement from 0 .. n - 1. */
  function Chosen(n: nat, draws: seq<nat>): set<int>
    requires CanDraw(n, draws)
  {
    set x | x in Sample(Range(n), draws)
  }

  /** Every index of a population of size `n`. */
  function AllIndices(n: nat): set<int>
  {
    set x | x in Range(n)
  }

  /** The scan keeps the placeholder only when no chosen individual has a
      fitness below the placeholder's; otherwise it keeps a chosen
      individual whose fitness is below the placeholder's, at most that of
      every chosen individual, and strictly less than that of every chosen
      individual before it (the first minimum). */
  lemma {:induction false} TournamentFacts(fits: seq<int>, chosen: set<int>, sentinel: int)
    ensures var r := Tournament(fits, chosen, sentinel);
      Kept(fits, r, sentinel) <= sentinel &&
      (forall k :: 0 <= k < |fits| && k in chosen ==> Kept(fits, r, sentinel) <= fits[k]) &&
      (r == -1 ==> forall k :: 0 <= k < |fits| && k in chosen ==> fits[k] >= sentinel) &&
      (r != -1 ==> r in chosen && fits[r] < sentinel &&
                   forall k :: 0 <= k < r && k in chosen ==> fits[r] < fits[k])
    decreases |fits|
  {
    if fits != [] {
      var i := |fits| - 1;
      var p := fits[..i];
      TournamentFacts(p, chosen, sentinel);
      var r := Tournament(p, chosen, sentinel);
      assert forall k :: 0 <= k < i ==> fits[k] == p[k];
      assert r != -1 ==> Kept(fits, r, sentinel) == Kept(p, r, sentinel);
    }
  }

  /** An index is chosen exactly when one of the draws picked it, and every
      chosen index is an index of the population. */
  lemma ChosenFacts(n: nat, draws: seq<nat>)
    requires CanDraw(n, draws)
    ensures forall x :: x in Chosen(n, draws) <==> x in Sample(Range(n), draws)
    ensures forall x :: x in Chosen(n, draws) ==> 0 <= x < n
  {
    RangeFacts(n);
    SampleFacts(Range(n), draws);
  }

  lemma AllIndicesFacts(n: nat)
    ensures forall x :: x in AllIndices(n) <==> 0 <= x < n
  {
    RangeFacts(n);
  }
}
