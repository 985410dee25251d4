/**
  The load-time shuffle. The program sorts the fetched array with a comparator
  that answers at random; whatever the engine does with such a comparator, the
  array ends up holding the same elements in some order. The model takes the
  random answers as an input: a selection shuffle in which `picks[k]` chooses,
  among the elements not yet placed, the one that goes to position `k`.
  Two facts pin the model down: every result is a reordering of the input
  (`Shuffle`'s contract), and every reordering is some result (`EveryOrderReachable`).
 */
module Shuffling {

  /** `xs` with the element at `k` taken out. */
  function Without<T>(xs: seq<T>, k: nat): (r: seq<T>)
    requires k < |xs|
    ensures |r| == |xs| - 1
    ensures multiset(r) + multiset{xs[k]} == multiset(xs)
  {
    assert xs == xs[..k] + [xs[k]] + xs[k + 1..];
    xs[..k] + xs[k + 1..]
  }

  /** `m` brought into `0 .. n - 1` by repeatedly taking `n` off: the remainder of `m` by `n`. */
  function Wrap(m: nat, n: nat): (r: nat)
    requires 0 < n
    ensures r < n
    ensures m < n ==> r == m
    decreases m
  {
    if m < n then m else Wrap(m - n, n)
  }

  /** The order the random comparator leaves `xs` in, for the random choices `picks`. */
  function Shuffle<T>(xs: seq<T>, picks: seq<nat>): (r: seq<T>)
    ensures |r| == |xs|
    ensures multiset(r) == multiset(xs)
    decreases |xs|
  {
    if |xs| == 0 then []
    else
      var k := Wrap(if |picks| == 0 then 0 else picks[0], |xs|);
      [xs[k]] + Shuffle(Without(xs, k), Later(picks))
  }

  /** The rest of the random choices after the first one. */
  function Later(picks: seq<nat>): (rest: seq<nat>)
    ensures |picks| > 0 ==> picks == [picks[0]] + rest
    ensures |picks| == 0 ==> rest == []
  {
    if |picks| == 0 then [] else picks[1..]
  }

  /** A first choice of 0 places the first element first. */
  lemma ZeroFirst<T>(xs: seq<T>, picks: seq<nat>)
    requires 0 < |xs|
    requires |picks| == 0 || picks[0] == 0
    ensures Shuffle(xs, picks) == [xs[0]] + Shuffle(xs[1..], Later(picks))
  {
    assert Without(xs, 0) == xs[1..];
  }

  /** Random choices that always pick the first remaining element keep the original order. */
  lemma {:induction false} FirstPicksKeepOrder<T>(xs: seq<T>, picks: seq<nat>)
    requires forall k :: 0 <= k < |picks| ==> picks[k] == 0
    ensures Shuffle(xs, picks) == xs
    decreases |xs|
  {
    if |xs| > 0 {
      ZeroFirst(xs, picks);
      FirstPicksKeepOrder(xs[1..], Later(picks));
    }
  }

  /** The position of the first occurrence of `x` in `xs`. */
  function IndexOf<T(==)>(xs: seq<T>, x: T): (k: nat)
    requires x in xs
    ensures k < |xs| && xs[k] == x
  {
    if xs[0] == x then 0 else 1 + IndexOf(xs[1..], x)
  }

  /** Placing `ys[0]` first leaves the rest of `ys` to be made from the rest of `xs`. */
  lemma RestAfterPick<T>(xs: seq<T>, ys: seq<T>, k: nat)
    requires multiset(ys) == multiset(xs)
    requires k < |xs| && 0 < |ys| && xs[k] == ys[0]
    ensures multiset(ys[1..]) == multiset(Without(xs, k))
  {
    assert ys == [ys[0]] + ys[1..];
    assert multiset(ys[1..]) == multiset(ys) - multiset{ys[0]};
    assert multiset(Without(xs, k)) == multiset(xs) - multiset{ys[0]};
  }

  /** Random choices that make `Shuffle` produce the reordering `ys` of `xs`. */
  function PicksFor<T(==)>(xs: seq<T>, ys: seq<T>): (picks: seq<nat>)
    requires multiset(ys) == multiset(xs)
    ensures |picks| == |xs|
    decreases |xs|
  {
    if |xs| == 0 then []
    else
      assert ys[0] in multiset(xs);
      var k := IndexOf(xs, ys[0]);
      RestAfterPick(xs, ys, k);
      [k] + PicksFor(Without(xs, k), ys[1..])
  }

  /** A first pick of `k` puts `xs[k]` in front of the shuffle of the others. */
  lemma PickFirst<T>(xs: seq<T>, k: nat, rest: seq<nat>)
    requires k < |xs|
    ensures Shuffle(xs, [k] + rest) == [xs[k]] + Shuffle(Without(xs, k), rest)
  {
  }

  /** The choices for `ys` start with the position of `ys[0]` in `xs`. */
  lemma PicksForFirst<T>(xs: seq<T>, ys: seq<T>, k: nat)
    requires multiset(ys) == multiset(xs) && 0 < |xs|
    requires ys[0] in xs && k == IndexOf(xs, ys[0])
    ensures multiset(ys[1..]) == multiset(Without(xs, k))
    ensures PicksFor(xs, ys) == [k] + PicksFor(Without(xs, k), ys[1..])
  {
    RestAfterPick(xs, ys, k);
  }

  /** Every reordering of the loaded questions is an order the shuffle can produce. */
  lemma {:induction false} EveryOrderReachable<T>(xs: seq<T>, ys: seq<T>)
    requires multiset(ys) == multiset(xs)
    ensures Shuffle(xs, PicksFor(xs, ys)) == ys
    decreases |xs|
  {
    if |xs| == 0 {
      assert |ys| == |multiset(ys)| == 0;
    } else {
      assert ys[0] in multiset(xs);
      var k := IndexOf(xs, ys[0]);
      var rest := PicksFor(Without(xs, k), ys[1..]) by {
        RestAfterPick(xs, ys, k);
      }
      assert PicksFor(xs, ys) == [k] + rest by {
        PicksForFirst(xs, ys, k);
      }
      assert Shuffle(Without(xs, k), rest) == ys[1..] by {
        RestAfterPick(xs, ys, k);
        EveryOrderReachable(Without(xs, k), ys[1..]);
      }
      calc {
        Shuffle(xs, PicksFor(xs, ys));
        Shuffle(xs, [k] + rest);
        { PickFirst(xs, k, rest); }
        [xs[k]] + Shuffle(Without(xs, k), rest);
        [ys[0]] + ys[1..];
        ys;
      }
    }
  }
}
