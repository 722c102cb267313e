/** fwd_switch_glu: the path that sorts all expert indices before the gathered matrix products, and
    the direct path, give the same result slot by slot. */
module ExpertDispatch {
  /** The per-slot arithmetic, uninterpreted: gate, up and down projections of an expert, and the
      activation that joins gate and up. */
  datatype Expert<!X, !A, !Y> = Expert(
    gate: (nat, X) -> A,
    up: (nat, X) -> A,
    act: (A, A) -> A,
    down: (nat, A) -> Y)

  function Slot<X, A, Y>(w: Expert<X, A, Y>, e: nat, x: X): Y {
    w.down(e, w.act(w.gate(e, x), w.up(e, x)))
  }

  // ---------------------------------------------------------------- argsort

  ghost predicate Permutation(order: seq<nat>, n: nat) {
    && |order| == n
    && (forall i :: 0 <= i < n ==> order[i] < n)
    && (forall i, j :: 0 <= i < j < n ==> order[i] != order[j])
  }

  /** What mlx_argsort_axis promises; which of several orders it returns for ties is left open. */
  ghost predicate IsArgsort(order: seq<nat>, xs: seq<nat>) {
    && Permutation(order, |xs|)
    && (forall i, j :: 0 <= i < j < |xs| ==> xs[order[i]] <= xs[order[j]])
  }

  lemma {:induction false} IncreasingAtLeast(y: seq<nat>, k: nat)
    requires k < |y| && forall i, j :: 0 <= i < j < |y| ==> y[i] < y[j]
    ensures y[k] >= k
  {
    if k > 0 {
      IncreasingAtLeast(y, k - 1);
    }
  }

  lemma {:induction false} IncreasingAtMost(y: seq<nat>, k: nat)
    requires k < |y| && forall i, j :: 0 <= i < j < |y| ==> y[i] < y[j]
    requires forall i :: 0 <= i < |y| ==> y[i] < |y|
    ensures y[k] <= k
    decreases |y| - k
  {
    if k + 1 < |y| {
      IncreasingAtMost(y, k + 1);
    }
  }

  /** The argsort of a permutation is its inverse. */
  lemma ArgsortInverts(order: seq<nat>, inv: seq<nat>, k: nat)
    requires Permutation(order, |order|) && IsArgsort(inv, order) && k < |order|
    ensures order[inv[k]] == k
  {
    var n := |order|;
    var y := seq(n, i requires 0 <= i < n => order[inv[i]]);
    assert forall i, j :: 0 <= i < j < n ==> y[i] <= y[j] && inv[i] != inv[j];
    forall i, j | 0 <= i < j < n
      ensures y[i] < y[j]
    {
      assert order[inv[i]] != order[inv[j]];
    }
    IncreasingAtLeast(y, k);
    IncreasingAtMost(y, k);
  }

  // ---------------------------------------------------------------- shapes

  /** A rectangular array of n rows of d columns. */
  ghost predicate Rect<X>(x: seq<seq<X>>, n: nat, d: nat) {
    |x| == n && forall i :: 0 <= i < n ==> |x[i]| == d
  }

  lemma MulLe(a: nat, b: nat, c: nat)
    requires a <= b
    ensures a * c <= b * c
  {
  }

  /** Row q, column r of an [n, d] array is position q * d + r of the reshaped one. */
  lemma {:induction false} RowMajor(q: nat, r: nat, n: nat, d: nat)
    requires q < n && r < d
    ensures q * d + r < n * d && (q * d + r) / d == q && (q * d + r) % d == r
  {
    MulLe(q + 1, n, d);
    DivUnique(q * d + r, d, q, r, (q * d + r) / d, (q * d + r) % d);
  }

  lemma {:induction false} DivUnique(p: nat, d: nat, q: nat, r: nat, q': nat, r': nat)
    requires d > 0 && r < d && r' < d && p == q * d + r == q' * d + r'
    ensures q == q' && r == r'
  {
    if q < q' {
      MulLe(q + 1, q', d);
    } else if q' < q {
      MulLe(q' + 1, q, d);
    }
  }

  lemma DivBelow(p: nat, n: nat, d: nat)
    requires p < n * d
    ensures d > 0 && p / d < n
  {
    assert d > 0;
    if n <= p / d {
      MulLe(n, p / d, d);
    }
  }

  /** mlx_reshape of an [n, d] array to [n * d]. */
  ghost function Reshape<X>(x: seq<seq<X>>, n: nat, d: nat): (r: seq<X>)
    requires Rect(x, n, d)
    ensures |r| == n * d
  {
    seq(n * d, p requires 0 <= p < n * d => DivBelow(p, n, d); x[p / d][p % d])
  }

  lemma {:induction false} ReshapeAt<X>(x: seq<seq<X>>, n: nat, d: nat, q: nat, r: nat)
    requires Rect(x, n, d) && q < n && r < d
    ensures q * d + r < n * d && Reshape(x, n, d)[q * d + r] == x[q][r]
  {
    RowMajor(q, r, n, d);
  }

  /** x is [B, S] rows, inds is [B, S, K] experts. */
  ghost predicate Shaped<X>(x: seq<seq<X>>, inds: seq<seq<seq<nat>>>, b: nat, s: nat, k: nat) {
    && k > 0 && Rect(x, b, s) && Rect(inds, b, s)
    && (forall i :: 0 <= i < b ==> Rect(inds[i], s, k))
  }

  lemma {:induction false} RowsRect<X>(x: seq<seq<X>>, inds: seq<seq<seq<nat>>>, b: nat, s: nat, k: nat)
    requires Shaped(x, inds, b, s, k)
    ensures Rect(Reshape(inds, b, s), b * s, k)
  {
    var rows := Reshape(inds, b, s);
    forall p | 0 <= p < b * s
      ensures |rows[p]| == k
    {
      DivBelow(p, b, s);
      assert rows[p] == inds[p / s][p % s];
      assert Rect(inds[p / s], s, k);
    }
  }

  /** mlx_reshape(inds, {B * S * K}), one axis at a time. */
  ghost function FlatInds<X>(x: seq<seq<X>>, inds: seq<seq<seq<nat>>>, b: nat, s: nat, k: nat): (r: seq<nat>)
    requires Shaped(x, inds, b, s, k)
    ensures |r| == b * s * k
  {
    RowsRect(x, inds, b, s, k);
    Reshape(Reshape(inds, b, s), b * s, k)
  }

  // ---------------------------------------------------------------- the two paths

  /** The direct path: slot (i, j, l) is expert inds[i][j][l] applied to row (i, j). */
  ghost function Direct<X, A, Y>(w: Expert<X, A, Y>, x: seq<seq<X>>, inds: seq<seq<seq<nat>>>, i: nat, j: nat, l: nat): Y
    requires i < |x| && i < |inds| && j < |x[i]| && j < |inds[i]| && l < |inds[i][j]|
  {
    Slot(w, inds[i][j][l], x[i][j])
  }

  /** The sorted path, for whatever orders the two argsorts returned. */
  ghost function Sorted<X, A, Y>(w: Expert<X, A, Y>, flatX: seq<X>, flat: seq<nat>, k: nat, order: seq<nat>, inv: seq<nat>): (r: seq<Y>)
    requires k > 0 && IsArgsort(order, flat) && IsArgsort(inv, order)
    requires forall p :: 0 <= p < |flat| ==> p / k < |flatX|
    ensures |r| == |flat|
  {
    var n := |flat|;
    var sortedInds := seq(n, p requires 0 <= p < n => flat[order[p]]);
    var xRep := seq(n, p requires 0 <= p < n => flatX[order[p] / k]);
    var gate := seq(n, p requires 0 <= p < n => w.gate(sortedInds[p], xRep[p]));
    var up := seq(n, p requires 0 <= p < n => w.up(sortedInds[p], xRep[p]));
    var act := seq(n, p requires 0 <= p < n => w.act(gate[p], up[p]));
    var down := seq(n, p requires 0 <= p < n => w.down(sortedInds[p], act[p]));
    seq(n, p requires 0 <= p < n => down[inv[p]])
  }

  /** Position p of the unsorted result is expert flat[p] applied to row p / K. */
  lemma SortedSlot<X, A, Y>(w: Expert<X, A, Y>, flatX: seq<X>, flat: seq<nat>, k: nat, order: seq<nat>, inv: seq<nat>, p: nat)
    requires k > 0 && IsArgsort(order, flat) && IsArgsort(inv, order) && p < |flat|
    requires forall q :: 0 <= q < |flat| ==> q / k < |flatX|
    ensures var e, x := flat[p], flatX[p / k];
            Sorted(w, flatX, flat, k, order, inv)[p] == w.down(e, w.act(w.gate(e, x), w.up(e, x)))
  {
    ArgsortInverts(order, inv, p);
  }

  /** For every shape, every index array and every pair of argsort results, slot (i, j, l) of the
      sorted path, reshaped to [B, S, K], is slot (i, j, l) of the direct path. */
  lemma {:induction false} PathsAgree<X, A, Y>(w: Expert<X, A, Y>, x: seq<seq<X>>, inds: seq<seq<seq<nat>>>, b: nat, s: nat, k: nat,
                            order: seq<nat>, inv: seq<nat>, i: nat, j: nat, l: nat)
    requires Shaped(x, inds, b, s, k) && i < b && j < s && l < k
    requires IsArgsort(order, FlatInds(x, inds, b, s, k)) && IsArgsort(inv, order)
    ensures forall p :: 0 <= p < b * s * k ==> p / k < b * s
    ensures (i * s + j) * k + l < b * s * k
    ensures Sorted(w, Reshape(x, b, s), FlatInds(x, inds, b, s, k), k, order, inv)[(i * s + j) * k + l]
         == Direct(w, x, inds, i, j, l)
    ensures var e := inds[i][j][l];
            Direct(w, x, inds, i, j, l) == w.down(e, w.act(w.gate(e, x[i][j]), w.up(e, x[i][j])))
  {
    forall p | 0 <= p < b * s * k
      ensures p / k < b * s
    {
      DivBelow(p, b * s, k);
    }
    var q := i * s + j;
    ReshapeAt(x, b, s, i, j);
    ReshapeAt(inds, b, s, i, j);
    RowsRect(x, inds, b, s, k);
    ReshapeAt(Reshape(inds, b, s), b * s, k, q, l);
    RowMajor(q, l, b * s, k);
    SortedSlot(w, Reshape(x, b, s), FlatInds(x, inds, b, s, k), k, order, inv, q * k + l);
  }
}
