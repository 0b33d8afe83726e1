/** The Fisher–Yates shuffle that both mini-games use. `Math.random()` is
    replaced by a caller-supplied oracle: `draws[i]` is the index that
    `Math.floor(Math.random() * (i + 1))` yields when the loop is at `i`. */
module Shuffle {
  import opened Sequences

  /** The oracle answers every position below `n` with an index at most that position. */
  predicate Draws(draws: seq<nat>, n: nat) {
    |draws| == n && forall i | 0 <= i < n :: draws[i] <= i
  }

  /** `s` with the elements at `i` and `j` exchanged. */
  function Swap<T>(s: seq<T>, i: nat, j: nat): (r: seq<T>)
    requires i < |s| && j < |s|
    ensures |r| == |s|
  {
    s[i := s[j]][j := s[i]]
  }

  lemma SwapPermutes<T>(s: seq<T>, i: nat, j: nat)
    requires i < |s| && j < |s|
    ensures multiset(Swap(s, i, j)) == multiset(s)
  {
    assert multiset(s[i := s[j]]) == multiset(s) - multiset{s[i]} + multiset{s[j]};
  }

  /** The rest of the shuffle once every position above `i` is final:
      positions `i`, `i - 1`, ..., `1` are swapped with their drawn partner in turn. */
  function ShuffledFrom<T>(s: seq<T>, draws: seq<nat>, i: int): seq<T>
    requires Draws(draws, |s|) && i < |s|
    decreases i
  {
    if i <= 0 then s else ShuffledFrom(Swap(s, i, draws[i]), draws, i - 1)
  }

  /** The whole shuffle, from the last index down to 1. */
  function Shuffled<T>(s: seq<T>, draws: seq<nat>): seq<T>
    requires Draws(draws, |s|)
  {
    ShuffledFrom(s, draws, |s| - 1)
  }

  /** Every step only exchanges two elements, so the result is a permutation. */
  lemma {:induction false} ShuffledFromPermutes<T>(s: seq<T>, draws: seq<nat>, i: int)
    requires Draws(draws, |s|) && i < |s|
    ensures |ShuffledFrom(s, draws, i)| == |s|
    ensures multiset(ShuffledFrom(s, draws, i)) == multiset(s)
    decreases i
  {
    if i > 0 {
      SwapPermutes(s, i, draws[i]);
      ShuffledFromPermutes(Swap(s, i, draws[i]), draws, i - 1);
    }
  }

  /** The shuffle returns a permutation of its input, whatever the oracle answers. */
  lemma ShuffledPermutes<T>(s: seq<T>, draws: seq<nat>)
    requires Draws(draws, |s|)
    ensures |Shuffled(s, draws)| == |s|
    ensures multiset(Shuffled(s, draws)) == multiset(s)
    ensures forall x :: x in Shuffled(s, draws) <==> x in s
  {
    ShuffledFromPermutes(s, draws, |s| - 1);
    var r := Shuffled(s, draws);
    forall x
      ensures x in r <==> x in s
    {
      assert x in r <==> x in multiset(r);
      assert x in s <==> x in multiset(s);
    }
  }

  lemma SwapKeepsDistinct<T>(s: seq<T>, i: nat, j: nat)
    requires i < |s| && j < |s| && Distinct(s)
    ensures Distinct(Swap(s, i, j))
  {
    var r := Swap(s, i, j);
    forall p, q | 0 <= p < q < |r|
      ensures r[p] != r[q]
    {
      var fp := if p == j then i else if p == i then j else p;
      var fq := if q == j then i else if q == i then j else q;
      assert r[p] == s[fp] && r[q] == s[fq];
      assert fp != fq;
      if fp < fq {
        assert s[fp] != s[fq];
      } else {
        assert s[fq] != s[fp];
      }
    }
  }

  lemma {:induction false} ShuffledFromKeepsDistinct<T>(s: seq<T>, draws: seq<nat>, i: int)
    requires Draws(draws, |s|) && i < |s| && Distinct(s)
    ensures Distinct(ShuffledFrom(s, draws, i))
    decreases i
  {
    if i > 0 {
      SwapKeepsDistinct(s, i, draws[i]);
      ShuffledFromKeepsDistinct(Swap(s, i, draws[i]), draws, i - 1);
    }
  }

  /** A list without repeats stays without repeats, whatever the oracle answers. */
  lemma ShuffledDistinct<T>(s: seq<T>, draws: seq<nat>)
    requires Draws(draws, |s|) && Distinct(s)
    ensures Distinct(Shuffled(s, draws))
  {
    ShuffledFromKeepsDistinct(s, draws, |s| - 1);
  }

  /** `shuffle`: copies the input into a fresh array and swaps in place on the copy,
      so the caller's list is never touched. */
  method Shuffle<T>(arr: seq<T>, draws: seq<nat>) returns (r: seq<T>)
    requires Draws(draws, |arr|)
    ensures r == Shuffled(arr, draws)
    ensures |r| == |arr|
  {
    var out := new T[|arr|](k requires 0 <= k < |arr| => arr[k]);
    assert out[..] == arr;
    var i := out.Length - 1;
    while i > 0
      invariant -1 <= i < out.Length == |arr|
      invariant ShuffledFrom(out[..], draws, i) == Shuffled(arr, draws)
      decreases i
    {
      var j := draws[i];
      ghost var before := out[..];
      out[i], out[j] := out[j], out[i];
      assert out[..] == Swap(before, i, j);
      i := i - 1;
    }
    r := out[..];
    ShuffledFromPermutes(arr, draws, |arr| - 1);
  }
}
