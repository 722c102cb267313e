/** Concatenation of images, the shape of every encoder and decoder here. */
module SeqOps {
  /** f(xs[0]) + f(xs[1]) + ... */
  function FlatMap<A, B>(f: A -> seq<B>, xs: seq<A>): seq<B> {
    if xs == [] then [] else FlatMap(f, xs[..|xs| - 1]) + f(xs[|xs| - 1])
  }

  lemma {:induction false} FlatMapAppend<A, B>(f: A -> seq<B>, a: seq<A>, b: seq<A>)
    ensures FlatMap(f, a + b) == FlatMap(f, a) + FlatMap(f, b)
  {
    if b == [] {
      assert a + b == a;
    } else {
      var init, last := b[..|b| - 1], b[|b| - 1];
      FlatMapAppend(f, a, init);
      assert (a + b)[..|a + b| - 1] == a + init;
      var x, y, z := FlatMap(f, a), FlatMap(f, init), f(last);
      assert FlatMap(f, a + b) == (x + y) + z;
      assert (x + y) + z == x + (y + z);
    }
  }

  lemma FlatMapParts<A, B>(f: A -> seq<B>, a: seq<A>, b: seq<A>, x: seq<B>, y: seq<B>)
    requires FlatMap(f, a) == x && FlatMap(f, b) == y
    ensures FlatMap(f, a + b) == x + y
  {
    FlatMapAppend(f, a, b);
  }

  lemma Assoc<T>(a: seq<T>, b: seq<T>, c: seq<T>)
    ensures (a + b) + c == a + (b + c)
  {
  }

  lemma SliceJoin<T>(t: seq<T>, i: nat, j: nat, k: nat)
    requires i <= j <= k <= |t|
    ensures t[i..j] + t[j..k] == t[i..k]
  {
  }

  lemma SuffixJoin<T>(t: seq<T>, i: nat, j: nat)
    requires i <= j <= |t|
    ensures t[i..j] + t[j..] == t[i..]
  {
  }

  lemma FlatMapOne<A, B>(f: A -> seq<B>, x: A)
    ensures FlatMap(f, [x]) == f(x)
  {
    assert [x][..0] == [];
    assert FlatMap(f, [x]) == [] + f(x);
  }

  lemma {:induction false} FlatMapCons<A, B>(f: A -> seq<B>, xs: seq<A>)
    requires xs != []
    ensures FlatMap(f, xs) == f(xs[0]) + FlatMap(f, xs[1..])
  {
    assert xs == [xs[0]] + xs[1..];
    FlatMapAppend(f, [xs[0]], xs[1..]);
    FlatMapOne(f, xs[0]);
  }

  lemma FlatMapSnoc<A, B>(f: A -> seq<B>, xs: seq<A>, i: nat)
    requires i < |xs|
    ensures FlatMap(f, xs[..i + 1]) == FlatMap(f, xs[..i]) + f(xs[i])
  {
    assert xs[..i + 1][..i] == xs[..i];
  }

  /** A bound on every image bounds the whole. */
  lemma {:induction false} FlatMapBound<A, B>(f: A -> seq<B>, xs: seq<A>, n: nat)
    requires forall k :: 0 <= k < |xs| ==> |f(xs[k])| <= n
    ensures |FlatMap(f, xs)| <= n * |xs|
  {
    if xs != [] {
      FlatMapBound(f, xs[..|xs| - 1], n);
    }
  }

  /** If g undoes f element by element, it undoes it on the whole. */
  lemma {:induction false} FlatMapCompose<A, B, C>(f: A -> seq<B>, g: B -> seq<C>, h: A -> seq<C>, xs: seq<A>)
    requires forall k :: 0 <= k < |xs| ==> FlatMap(g, f(xs[k])) == h(xs[k])
    ensures FlatMap(g, FlatMap(f, xs)) == FlatMap(h, xs)
  {
    if xs != [] {
      var init, last := xs[..|xs| - 1], xs[|xs| - 1];
      FlatMapCompose(f, g, h, init);
      FlatMapAppend(g, FlatMap(f, init), f(last));
    }
  }
}
