/** Maps over sequences, as `flatMap` and `map((x, index) => …)` compute them. */
module Seqs {

  /** Each element's contributions, concatenated in order. */
  function FlatMap<A, B>(xs: seq<A>, f: A -> seq<B>): seq<B> {
    if xs == [] then [] else f(xs[0]) + FlatMap(xs[1..], f)
  }

  lemma {:induction false} FlatMapAppend<A, B>(xs: seq<A>, ys: seq<A>, f: A -> seq<B>)
    ensures FlatMap(xs + ys, f) == FlatMap(xs, f) + FlatMap(ys, f)
    decreases |xs|
  {
    if xs == [] {
      assert xs + ys == ys;
    } else {
      assert (xs + ys)[0] == xs[0];
      assert (xs + ys)[1..] == xs[1..] + ys;
      FlatMapAppend(xs[1..], ys, f);
    }
  }

  /** Whatever holds of every contribution holds of the whole result. */
  lemma {:induction false} FlatMapAll<A, B>(xs: seq<A>, f: A -> seq<B>, p: B -> bool)
    requires forall x, k :: x in xs && 0 <= k < |f(x)| ==> p(f(x)[k])
    ensures forall k :: 0 <= k < |FlatMap(xs, f)| ==> p(FlatMap(xs, f)[k])
    decreases |xs|
  {
    if xs != [] {
      FlatMapAll(xs[1..], f, p);
      var h, t := f(xs[0]), FlatMap(xs[1..], f);
      assert FlatMap(xs, f) == h + t;
      forall k | 0 <= k < |h + t| ensures p((h + t)[k]) {
        if k >= |h| {
          assert (h + t)[k] == t[k - |h|];
        }
      }
    }
  }

  /** `xs.map((x, k) => f(x, index + k))`. */
  function MapIndexed<A, B>(xs: seq<A>, f: (A, nat) -> B, index: nat): (r: seq<B>)
    ensures |r| == |xs|
    ensures forall k :: 0 <= k < |xs| ==> r[k] == f(xs[k], index + k)
    decreases |xs|
  {
    if xs == [] then [] else [f(xs[0], index)] + MapIndexed(xs[1..], f, index + 1)
  }

  lemma {:induction false} MapIndexedSnoc<A, B>(xs: seq<A>, x: A, f: (A, nat) -> B)
    ensures MapIndexed(xs + [x], f, 0) == MapIndexed(xs, f, 0) + [f(x, |xs|)]
  {
    var l, r := MapIndexed(xs + [x], f, 0), MapIndexed(xs, f, 0) + [f(x, |xs|)];
    forall k | 0 <= k < |l| ensures l[k] == r[k] {
      if k < |xs| {
        assert (xs + [x])[k] == xs[k];
      }
    }
  }

  /** One step of a loop that maps `xs` element by element. */
  lemma MapIndexedStep<A, B>(xs: seq<A>, i: nat, f: (A, nat) -> B)
    requires i < |xs|
    ensures MapIndexed(xs[..i + 1], f, 0) == MapIndexed(xs[..i], f, 0) + [f(xs[i], i)]
  {
    assert xs[..i + 1] == xs[..i] + [xs[i]];
    MapIndexedSnoc(xs[..i], xs[i], f);
  }

  lemma PrefixWhole<A>(xs: seq<A>)
    ensures xs[..|xs|] == xs
  {
  }

  /** One step of a loop that collects the contributions of `xs[lo..]`. */
  lemma FlatMapStep<A, B>(xs: seq<A>, lo: nat, i: nat, f: A -> seq<B>)
    requires lo <= i < |xs|
    ensures FlatMap(xs[lo..i + 1], f) == FlatMap(xs[lo..i], f) + f(xs[i])
  {
    assert xs[lo..i + 1] == xs[lo..i] + [xs[i]];
    FlatMapAppend(xs[lo..i], [xs[i]], f);
    assert [xs[i]][1..] == [];
    assert FlatMap([xs[i]], f) == f(xs[i]) + FlatMap([], f);
  }

  /** The prefix one longer is the prefix and the next element. */
  lemma PrefixStep<A>(xs: seq<A>, i: nat)
    requires i < |xs|
    ensures xs[..i + 1][..i] == xs[..i] && xs[..i + 1][i] == xs[i]
    ensures |xs[..i + 1]| == i + 1
  {
  }
}
