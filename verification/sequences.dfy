/**
 * Array.prototype.filter on sequences, and the facts about it that the task
 * list relies on: filtering keeps exactly the matching elements, in order, and
 * a predicate and its negation split a sequence in two.
 */
module Sequences {

  /** `xs.filter(p)`. */
  function Keep<T>(xs: seq<T>, p: T -> bool): (r: seq<T>)
    ensures |r| <= |xs|
    ensures forall i :: 0 <= i < |r| ==> p(r[i]) && r[i] in xs
    ensures forall i :: 0 <= i < |xs| && p(xs[i]) ==> xs[i] in r
  {
    if xs == [] then []
    else if p(xs[0]) then [xs[0]] + Keep(xs[1..], p)
    else Keep(xs[1..], p)
  }

  /** `xs` can be obtained from `ys` by deleting elements: an order-preserving
      selection. */
  ghost predicate IsSubsequence<T>(xs: seq<T>, ys: seq<T>)
    decreases |ys|
  {
    xs == []
    || (ys != []
        && ((xs[0] == ys[0] && IsSubsequence(xs[1..], ys[1..]))
            || IsSubsequence(xs, ys[1..])))
  }

  /** Every sequence is a subsequence of itself. */
  lemma {:induction false} SubsequenceReflexive<T>(xs: seq<T>)
    ensures IsSubsequence(xs, xs)
  {
    if xs != [] {
      SubsequenceReflexive(xs[1..]);
    }
  }

  /** Filtering never reorders: the result is a subsequence of the input. */
  lemma {:induction false} KeepIsSubsequence<T>(xs: seq<T>, p: T -> bool)
    ensures IsSubsequence(Keep(xs, p), xs)
  {
    if xs != [] {
      KeepIsSubsequence(xs[1..], p);
      if p(xs[0]) {
        assert Keep(xs, p)[1..] == Keep(xs[1..], p);
      }
    }
  }

  /** A predicate and its negation split a sequence: together the two filtered
      sequences hold every element exactly as often as the input does. */
  lemma {:induction false} KeepPartition<T>(xs: seq<T>, p: T -> bool, q: T -> bool)
    requires forall x :: q(x) == !p(x)
    ensures multiset(Keep(xs, p)) + multiset(Keep(xs, q)) == multiset(xs)
    ensures |Keep(xs, p)| + |Keep(xs, q)| == |xs|
  {
    if xs != [] {
      KeepPartition(xs[1..], p, q);
      assert xs == [xs[0]] + xs[1..];
    }
    assert |multiset(Keep(xs, p))| == |Keep(xs, p)|;
    assert |multiset(Keep(xs, q))| == |Keep(xs, q)|;
  }

  /** Filtering with a predicate every element meets changes nothing. */
  lemma {:induction false} KeepAll<T>(xs: seq<T>, p: T -> bool)
    requires forall i :: 0 <= i < |xs| ==> p(xs[i])
    ensures Keep(xs, p) == xs
  {
    if xs != [] {
      KeepAll(xs[1..], p);
      assert xs == [xs[0]] + xs[1..];
    }
  }

  /** Filtering out a single element at `i`, when every other element stays,
      is removing position `i`. */
  lemma {:induction false} KeepDropsOne<T>(xs: seq<T>, p: T -> bool, i: nat)
    requires i < |xs| && !p(xs[i])
    requires forall j :: 0 <= j < |xs| && j != i ==> p(xs[j])
    ensures Keep(xs, p) == xs[..i] + xs[i + 1..]
  {
    var rest := xs[1..];
    if i == 0 {
      KeepAll(rest, p);
      assert xs[..0] + xs[1..] == rest;
    } else {
      KeepDropsOne(rest, p, i - 1);
      calc {
        Keep(xs, p);
        [xs[0]] + Keep(rest, p);
        [xs[0]] + (rest[..i - 1] + rest[i..]);
        { assert [xs[0]] + rest[..i - 1] == xs[..i]; assert rest[i..] == xs[i + 1..]; }
        xs[..i] + xs[i + 1..];
      }
    }
  }

  /** Replacing the element at `i` changes the number of elements the filter
      keeps by what the old and new elements each contribute. */
  lemma {:induction false} KeepCountUpdate<T>(xs: seq<T>, i: nat, y: T, p: T -> bool)
    requires i < |xs|
    ensures |Keep(xs[i := y], p)| + (if p(xs[i]) then 1 else 0)
         == |Keep(xs, p)| + (if p(y) then 1 else 0)
  {
    var ys := xs[i := y];
    if i > 0 {
      KeepCountUpdate(xs[1..], i - 1, y, p);
      assert ys[1..] == xs[1..][i - 1 := y];
    } else {
      assert ys[1..] == xs[1..];
    }
  }
}
