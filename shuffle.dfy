/**
 * Python's `random.shuffle`, which reorders a list in place by the Fisher-Yates
 * method: for i from the last index down to 1 it draws j with 0 <= j <= i and
 * exchanges the elements at i and j. The random draws are a parameter here, so
 * every run of the shuffle is one choice of `draws`.
 */
module Shuffle {

  /** `draws` holds, for each index i of a list of length n, a draw j with j <= i (draws[0] is not used). */
  predicate ValidDraws(draws: seq<nat>, n: nat)
  {
    |draws| == n && forall i :: 0 <= i < n ==> draws[i] <= i
  }

  /** `s` with the elements at `i` and `j` exchanged. */
  function Swap<T>(s: seq<T>, i: nat, j: nat): (r: seq<T>)
    requires i < |s| && j < |s|
    ensures |r| == |s| && r[i] == s[j] && r[j] == s[i]
    ensures forall k :: 0 <= k < |s| && k != i && k != j ==> r[k] == s[k]
    ensures multiset(r) == multiset(s)
  {
    s[i := s[j]][j := s[i]]
  }

  /**
   * The list after the shuffle has processed indices i-1 down to 1, exchanging
   * the element at each index k with the one at draws[k].
   */
  function FisherYates<T>(s: seq<T>, draws: seq<nat>, i: nat): (r: seq<T>)
    requires i <= |s| && ValidDraws(draws, |s|)
    ensures |r| == |s|
    ensures multiset(r) == multiset(s)
    decreases i
  {
    if i <= 1 then s
    else FisherYates(Swap(s, i - 1, draws[i - 1]), draws, i - 1)
  }

  /** Draws that always pick the current index leave the list as it was. */
  lemma {:induction false} IdentityDrawsKeepOrder<T>(s: seq<T>, draws: seq<nat>, i: nat)
    requires i <= |s| && ValidDraws(draws, |s|)
    requires forall k :: 0 <= k < |s| ==> draws[k] == k
    ensures FisherYates(s, draws, i) == s
    decreases i
  {
    if i > 1 {
      assert Swap(s, i - 1, draws[i - 1]) == s;
      IdentityDrawsKeepOrder(s, draws, i - 1);
    }
  }

  /** Shuffles `a` in place with the given draws; only the order of the elements changes. */
  method ShuffleInPlace<T>(a: array<T>, draws: seq<nat>)
    requires ValidDraws(draws, a.Length)
    modifies a
    ensures a[..] == FisherYates(old(a[..]), draws, a.Length)
    ensures multiset(a[..]) == multiset(old(a[..]))
  {
    var i := a.Length - 1;
    while i > 0
      invariant -1 <= i < a.Length
      invariant FisherYates(a[..], draws, i + 1) == FisherYates(old(a[..]), draws, a.Length)
    {
      var j := draws[i];
      ghost var before := a[..];
      var t := a[i];
      a[i] := a[j];
      a[j] := t;
      assert a[..] == Swap(before, i, j);
      i := i - 1;
    }
    assert FisherYates(a[..], draws, i + 1) == a[..];
  }
}
