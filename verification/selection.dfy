/**
 * Tournament selection.
 *
 * `k` distinct individuals are drawn from the population, paired with their
 * scores; the sample is sorted by score with a stable sort and the first
 * one wins.  So the winner has the lowest sampled score and, among equal
 * scores, it is the one drawn first.  The draw is an input here: the list
 * of sampled positions.
 */
module Selection {
  import opened JobShop

  function MinNat(a: nat, b: nat): nat
  {
    if a <= b then a else b
  }

  /** `samples` is a draw of `k` distinct positions among the first `n`. */
  ghost predicate IsSample(samples: seq<nat>, k: nat, n: nat)
  {
    && |samples| == k
    && (forall v :: 0 <= v < |samples| ==> samples[v] < n)
    && (forall v, w :: 0 <= v < w < |samples| ==> samples[v] != samples[w])
  }

  /** The position, in the sample, of the first sampled individual with the
      lowest score: what a stable sort by score puts first. */
  function FirstMin(scores: seq<real>, samples: seq<nat>): (w: nat)
    requires |samples| > 0
    requires forall v :: 0 <= v < |samples| ==> samples[v] < |scores|
    ensures w < |samples|
    ensures forall v :: 0 <= v < |samples| ==> scores[samples[w]] <= scores[samples[v]]
    ensures forall v :: 0 <= v < w ==> scores[samples[w]] < scores[samples[v]]
  {
    if |samples| == 1 then 0
    else
      var w := FirstMin(scores, samples[..|samples| - 1]);
      if scores[samples[|samples| - 1]] < scores[samples[w]] then |samples| - 1 else w
  }

  /** Tournament of size `k` over a population and its scores, paired up
      position by position (the pairing stops at the shorter list).  A
      negative size or one larger than the population cannot be sampled; a
      sample of size 0 has no first element. */
  function Tournament<T>(pop: seq<T>, scores: seq<real>, k: int, samples: seq<nat>): (r: Result<nat>)
    requires 0 <= k <= MinNat(|pop|, |scores|) ==> IsSample(samples, k, MinNat(|pop|, |scores|))
    ensures r.Failure? <==> k <= 0 || k > MinNat(|pop|, |scores|)
    ensures r.Failure? ==> r.error == (if k == 0 then EmptySample else BadSampleSize)
    ensures r.Success? ==> r.value < |pop| && r.value < |scores| && r.value in samples
    ensures r.Success? ==> forall v :: 0 <= v < |samples| ==> scores[r.value] <= scores[samples[v]]
    ensures r.Success? ==> forall v, w :: 0 <= v < w < |samples| && samples[w] == r.value ==>
              scores[r.value] < scores[samples[v]]
  {
    var n := MinNat(|pop|, |scores|);
    if k < 0 || k > n then Failure(BadSampleSize)
    else if k == 0 then Failure(EmptySample)
    else
      var w := FirstMin(scores, samples);
      assert forall v :: 0 <= v < |samples| && samples[v] == samples[w] ==> v == w;
      Success(samples[w])
  }

  /** A tournament of two: the second contestant wins only with a strictly
      lower score. */
  lemma TournamentOfTwo<T>(pop: seq<T>, scores: seq<real>, a: nat, b: nat)
    requires a < |pop| && b < |pop| && |scores| == |pop| && a != b
    ensures Tournament(pop, scores, 2, [a, b]) == Success(if scores[b] < scores[a] then b else a)
  {
    assert [a, b][..1] == [a];
  }
}
