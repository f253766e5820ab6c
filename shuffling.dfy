/**
 * The Fisher-Yates pass shared by vector_shuffle and array_shuffle: for i
 * from size - 1 down to 1, swap item i with item random() % (i + 1). The
 * draws of random() are a parameter, one per index.
 */
module Shuffling {

  function Swap<T>(s: seq<T>, i: nat, j: nat): (r: seq<T>)
    requires i < |s| && j < |s|
    ensures |r| == |s| && r[i] == s[j] && r[j] == s[i]
    ensures forall k :: 0 <= k < |s| && k != i && k != j ==> r[k] == s[k]
  {
    s[i := s[j]][j := s[i]]
  }

  /** The index the pass swaps with at step i: random() % (i + 1), always in [0, i]. */
  function Pick(draws: seq<nat>, i: nat): (j: nat)
    requires i < |draws|
    ensures j <= i
  {
    draws[i] % (i + 1)
  }

  /** The steps i, i - 1, ..., 1 of the pass applied to s. */
  function ShuffleDown<T>(s: seq<T>, draws: seq<nat>, i: nat): seq<T>
    requires i < |s| == |draws|
    decreases i
  {
    if i == 0 then s else ShuffleDown(Swap(s, i, Pick(draws, i)), draws, i - 1)
  }

  /** One step of the pass. */
  lemma ShuffleDownStep<T>(s: seq<T>, draws: seq<nat>, i: nat)
    requires 0 < i < |s| == |draws|
    ensures ShuffleDown(s, draws, i) == ShuffleDown(Swap(s, i, Pick(draws, i)), draws, i - 1)
  {
  }

  /** The whole pass over a non-empty sequence. */
  function Shuffled<T>(s: seq<T>, draws: seq<nat>): seq<T>
    requires 0 < |s| == |draws|
  {
    ShuffleDown(s, draws, |s| - 1)
  }

  lemma SwapPermutes<T>(s: seq<T>, i: nat, j: nat)
    requires i < |s| && j < |s|
    ensures multiset(Swap(s, i, j)) == multiset(s)
  {
  }

  lemma {:induction false} ShuffleDownPermutes<T>(s: seq<T>, draws: seq<nat>, i: nat)
    requires i < |s| == |draws|
    ensures |ShuffleDown(s, draws, i)| == |s|
    ensures multiset(ShuffleDown(s, draws, i)) == multiset(s)
    decreases i
  {
    if i > 0 {
      var t := Swap(s, i, Pick(draws, i));
      SwapPermutes(s, i, Pick(draws, i));
      ShuffleDownPermutes(t, draws, i - 1);
    }
  }

  /** Whatever random() returns, the shuffle keeps the length and rearranges the items. */
  lemma ShuffledIsPermutation<T>(s: seq<T>, draws: seq<nat>)
    requires 0 < |s| == |draws|
    ensures |Shuffled(s, draws)| == |s|
    ensures multiset(Shuffled(s, draws)) == multiset(s)
  {
    ShuffleDownPermutes(s, draws, |s| - 1);
  }
}
