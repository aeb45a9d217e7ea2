/**
 * The drawing: the shuffled participant list is zipped against itself rotated
 * right by one place, so participant i gives a present to participant i - 1
 * (the first one to the last). Every participant gives once and receives once,
 * and following "gives to" from anyone walks through the whole list before
 * coming back: a single cycle, with no self-couple once there are two people.
 */
module Drawing {
  import opened Paisanos

  /** One couple of the drawing: `gifter` gives a present to `gifted`. */
  datatype Couple = Couple(gifted: Paisano, gifter: Paisano)

  /** Python's `xs[-1:]`: the last element alone, or nothing for an empty list. */
  function LastSlice<T>(xs: seq<T>): seq<T>
  {
    if xs == [] then [] else xs[|xs| - 1..]
  }

  /** Python's `xs[:-1]`: everything but the last element, or nothing for an empty list. */
  function InitSlice<T>(xs: seq<T>): seq<T>
  {
    if xs == [] then [] else xs[..|xs| - 1]
  }

  /**
   * The index before `i` in a list of length `n`, wrapping from 0 to the last
   * index: Python's `(i - 1) % n`, the one index below n that differs from
   * i - 1 by a multiple of n.
   */
  function PrevIndex(i: nat, n: nat): (j: nat)
    requires i < n
    ensures j < n && (j == i - 1 || j == i - 1 + n)
  {
    if i == 0 then n - 1 else i - 1
  }

  /** `xs[-1:] + xs[:-1]`: the list rotated right by one place. */
  function RotateRight<T>(xs: seq<T>): (r: seq<T>)
    ensures |r| == |xs|
    ensures forall i {:trigger r[i]} :: 0 <= i < |xs| ==> r[i] == xs[PrevIndex(i, |xs|)]
  {
    LastSlice(xs) + InitSlice(xs)
  }

  /** A rotation only moves elements: it is a permutation of the list. */
  lemma RotateRightPermutes<T>(xs: seq<T>)
    ensures multiset(RotateRight(xs)) == multiset(xs)
  {
    if xs != [] {
      assert xs == InitSlice(xs) + LastSlice(xs);
    }
  }

  /** Python's `zip(xs, ys)`: pairs of elements at the same index, as many as the shorter list has. */
  function Zip<A, B>(xs: seq<A>, ys: seq<B>): (r: seq<(A, B)>)
    ensures |r| == if |xs| <= |ys| then |xs| else |ys|
    ensures forall i :: 0 <= i < |r| ==> r[i] == (xs[i], ys[i])
  {
    if xs == [] || ys == [] then []
    else [(xs[0], ys[0])] + Zip(xs[1..], ys[1..])
  }

  /** The couples of the drawing over the (already shuffled) participant list. */
  function MakeCouples(paisanos: seq<Paisano>): (r: seq<Couple>)
    ensures |r| == |paisanos|
    ensures forall i {:trigger r[i]} :: 0 <= i < |r| ==>
      r[i].gifter == paisanos[i] && r[i].gifted == paisanos[PrevIndex(i, |paisanos|)]
  {
    var pairs := Zip(paisanos, RotateRight(paisanos));
    seq(|pairs|, i requires 0 <= i < |pairs| => Couple(gifted := pairs[i].1, gifter := pairs[i].0))
  }

  /** The givers of the couples, in order. */
  function Gifters(couples: seq<Couple>): (r: seq<Paisano>)
    ensures |r| == |couples| && forall i :: 0 <= i < |r| ==> r[i] == couples[i].gifter
  {
    seq(|couples|, i requires 0 <= i < |couples| => couples[i].gifter)
  }

  /** The receivers of the couples, in order. */
  function Gifteds(couples: seq<Couple>): (r: seq<Paisano>)
    ensures |r| == |couples| && forall i :: 0 <= i < |r| ==> r[i] == couples[i].gifted
  {
    seq(|couples|, i requires 0 <= i < |couples| => couples[i].gifted)
  }

  /**
   * Every participant gives exactly as often as they appear in the list, in the
   * list's own order, and receives exactly as often: the receivers are a
   * permutation of the participants.
   */
  lemma EveryoneGivesAndReceivesOnce(paisanos: seq<Paisano>)
    ensures Gifters(MakeCouples(paisanos)) == paisanos
    ensures Gifteds(MakeCouples(paisanos)) == RotateRight(paisanos)
    ensures multiset(Gifteds(MakeCouples(paisanos))) == multiset(paisanos)
  {
    RotateRightPermutes(paisanos);
  }

  /** The list has no participant twice. */
  predicate Distinct<T(==)>(xs: seq<T>)
  {
    forall i, j :: 0 <= i < j < |xs| ==> xs[i] != xs[j]
  }

  /**
   * With at least two participants no couple joins an index to itself, so when
   * the participants are distinct nobody gives a present to themselves.
   */
  lemma NoSelfCouple(paisanos: seq<Paisano>, i: nat)
    requires |paisanos| >= 2 && i < |paisanos|
    ensures PrevIndex(i, |paisanos|) != i
    ensures Distinct(paisanos) ==> MakeCouples(paisanos)[i].gifter != MakeCouples(paisanos)[i].gifted
  {
  }

  /** The person a couple's receiver gives to is the receiver of the previous couple. */
  lemma ReceiverGivesNext(paisanos: seq<Paisano>, i: nat)
    requires i < |paisanos|
    ensures MakeCouples(paisanos)[i].gifted == MakeCouples(paisanos)[PrevIndex(i, |paisanos|)].gifter
  {
  }

  /** The index reached from `i` after following "gives to" `k` times in a list of length `n`. */
  function Follow(i: nat, k: nat, n: nat): (j: nat)
    requires i < n
    ensures j < n
  {
    if k == 0 then i else PrevIndex(Follow(i, k - 1, n), n)
  }

  /** Following "gives to" k times, for k up to n, steps back k places, wrapping around. */
  lemma {:induction false} FollowStepsBack(i: nat, k: nat, n: nat)
    requires i < n && k <= n
    ensures Follow(i, k, n) == if k <= i then i - k else i - k + n
  {
    if k > 0 {
      FollowStepsBack(i, k - 1, n);
    }
  }

  /** How many times "gives to" must be followed to get from index `i` to index `j`. */
  function StepsBetween(i: nat, j: nat, n: nat): nat
    requires i < n && j < n
  {
    if j <= i then i - j else i - j + n
  }

  /**
   * The couples form a single cycle over all n indices: from any index, following
   * "gives to" comes back after exactly n steps, not earlier, and reaches every
   * index on the way.
   */
  lemma SingleCycle(i: nat, n: nat)
    requires i < n
    ensures Follow(i, n, n) == i
    ensures forall k :: 0 < k < n ==> Follow(i, k, n) != i
    ensures forall j :: 0 <= j < n ==> StepsBetween(i, j, n) < n && Follow(i, StepsBetween(i, j, n), n) == j
  {
    FollowStepsBack(i, n, n);
    forall k | 0 < k < n
      ensures Follow(i, k, n) != i
    {
      FollowStepsBack(i, k, n);
    }
    forall j | 0 <= j < n
      ensures StepsBetween(i, j, n) < n && Follow(i, StepsBetween(i, j, n), n) == j
    {
      FollowStepsBack(i, StepsBetween(i, j, n), n);
    }
  }

  /**
   * "Gives to" read on the couples themselves: walking from couple i, the
   * receiver of the couple reached after k steps is the giver of the couple
   * reached after k + 1 steps, and before n steps the walk is not back at i.
   */
  lemma CouplesWalkStep(paisanos: seq<Paisano>, i: nat, k: nat)
    requires i < |paisanos|
    ensures MakeCouples(paisanos)[Follow(i, k, |paisanos|)].gifted
      == MakeCouples(paisanos)[Follow(i, k + 1, |paisanos|)].gifter
    ensures 0 < k < |paisanos| ==> Follow(i, k, |paisanos|) != i
  {
    ReceiverGivesNext(paisanos, Follow(i, k, |paisanos|));
    if k < |paisanos| {
      FollowStepsBack(i, k, |paisanos|);
    }
  }

  /**
   * The walk over the couples is one cycle: from couple i it is back at couple i
   * after n steps, and it reaches couple j within n steps.
   */
  lemma CouplesFormOneCycle(paisanos: seq<Paisano>, i: nat, j: nat)
    requires i < |paisanos| && j < |paisanos|
    ensures MakeCouples(paisanos)[Follow(i, |paisanos|, |paisanos|)] == MakeCouples(paisanos)[i]
    ensures StepsBetween(i, j, |paisanos|) < |paisanos|
    ensures MakeCouples(paisanos)[Follow(i, StepsBetween(i, j, |paisanos|), |paisanos|)] == MakeCouples(paisanos)[j]
  {
    var n := |paisanos|;
    FollowStepsBack(i, n, n);
    var steps := StepsBetween(i, j, n);
    FollowStepsBack(i, steps, n);
    if j <= i {
      assert steps == i - j;
    } else {
      assert steps == i - j + n;
    }
    assert Follow(i, steps, n) == j;
  }

  /** The drawings the source produces for small lists: none, a self-couple, and a swap. */
  lemma SmallDrawings(a: Paisano, b: Paisano)
    ensures MakeCouples([]) == []
    ensures MakeCouples([a]) == [Couple(gifted := a, gifter := a)]
    ensures MakeCouples([a, b]) == [Couple(gifted := b, gifter := a), Couple(gifted := a, gifter := b)]
  {
  }
}
