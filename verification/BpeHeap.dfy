/** The binary heap of merge candidates (bpe_cand_less, bpe_push_cand, bpe_heap_pop). */
module BpeHeap {
  datatype Cand = Cand(rank: nat, left: nat, right: nat, lver: nat, rver: nat)

  /** Rank first; equal ranks are ordered by the left node, that is by text position. */
  predicate Less(a: Cand, b: Cand) {
    if a.rank != b.rank then a.rank < b.rank else a.left < b.left
  }

  function Parent(i: nat): nat
    requires i > 0
  {
    (i - 1) / 2
  }

  ghost predicate Ordered(s: seq<Cand>) {
    forall i :: 1 <= i < |s| ==> !Less(s[i], s[Parent(i)])
  }

  lemma {:induction false} RootIsLeast(s: seq<Cand>, i: nat)
    requires Ordered(s) && i < |s|
    ensures !Less(s[i], s[0])
  {
    if i > 0 {
      RootIsLeast(s, Parent(i));
    }
  }

  lemma RootBelowAll(s: seq<Cand>)
    requires Ordered(s) && |s| > 0
    ensures forall d :: d in multiset(s) ==> !Less(d, s[0])
  {
    forall d | d in multiset(s)
      ensures !Less(d, s[0])
    {
      var k :| 0 <= k < |s| && s[k] == d;
      RootIsLeast(s, k);
    }
  }

  function SwapAt(s: seq<Cand>, i: nat, j: nat): (r: seq<Cand>)
    requires i < |s| && j < |s|
    ensures |r| == |s| && multiset(r) == multiset(s)
  {
    s[i := s[j]][j := s[i]]
  }

  /** Ordered everywhere except that the element at i may be smaller than its parent. */
  ghost predicate OrderedBut(s: seq<Cand>, i: nat) {
    && (forall j :: 1 <= j < |s| && j != i ==> !Less(s[j], s[Parent(j)]))
    && (forall j :: 1 <= j < |s| && i > 0 && Parent(j) == i ==> !Less(s[j], s[Parent(i)]))
  }

  lemma SwapUp(s: seq<Cand>, i: nat)
    requires 0 < i < |s| && OrderedBut(s, i) && Less(s[i], s[Parent(i)])
    ensures OrderedBut(SwapAt(s, i, Parent(i)), Parent(i))
  {
  }

  /** Ordered everywhere except that the element at i may be larger than its children. */
  ghost predicate OrderedBelow(s: seq<Cand>, i: nat) {
    && (forall j :: 1 <= j < |s| && Parent(j) != i ==> !Less(s[j], s[Parent(j)]))
    && (forall j :: 1 <= j < |s| && i > 0 && Parent(j) == i ==> !Less(s[j], s[Parent(i)]))
  }

  lemma SwapDown(s: seq<Cand>, i: nat, c: nat)
    requires i < c < |s| && Parent(c) == i && OrderedBelow(s, i) && Less(s[c], s[i])
    requires forall j :: 1 <= j < |s| && Parent(j) == i ==> !Less(s[j], s[c])
    ensures OrderedBelow(SwapAt(s, i, c), c)
  {
  }

  lemma DropLast(s: seq<Cand>)
    requires |s| > 0
    ensures multiset(s[..|s| - 1]) == multiset(s) - multiset{s[|s| - 1]}
  {
    assert s == s[..|s| - 1] + [s[|s| - 1]];
  }

  /** s->heap[0..heap_len) inside a buffer of fixed capacity. */
  class CandHeap {
    const buf: array<Cand>
    var len: nat
    ghost var pushes: nat    // how often Push has been called

    constructor (capacity: nat)
      ensures fresh(buf) && buf.Length == capacity && len == 0 && Valid()
      ensures Contents() == multiset{}
    {
      buf := new Cand[capacity](_ => Cand(0, 0, 0, 0, 0));
      len, pushes := 0, 0;
    }

    ghost predicate Valid()
      reads this, buf
    {
      len <= buf.Length && Ordered(buf[..len])
    }

    ghost function Contents(): (c: multiset<Cand>)
      requires len <= buf.Length
      reads this, buf
    {
      multiset(buf[..len])
    }

    method Swap(i: nat, j: nat)
      requires len <= buf.Length && i < len && j < len
      modifies buf
      ensures buf[..len] == SwapAt(old(buf[..len]), i, j)
    {
      buf[i], buf[j] := buf[j], buf[i];
    }

    /** The tail of bpe_push_cand: append, then sift up. */
    method Push(c: Cand)
      requires Valid() && len < buf.Length
      modifies buf, this`len, this`pushes
      ensures Valid() && len == old(len) + 1 && pushes == old(pushes) + 1
      ensures Contents() == old(Contents()) + multiset{c}
    {
      ghost var before := buf[..len];
      buf[len] := c;
      len := len + 1;
      pushes := pushes + 1;
      assert buf[..len] == before + [c];
      SiftUp(multiset(before) + multiset{c});
    }

    method SiftUp(ghost all: multiset<Cand>)
      requires 0 < len <= buf.Length && OrderedBut(buf[..len], len - 1) && multiset(buf[..len]) == all
      modifies buf
      ensures Valid() && Contents() == all
    {
      var i := len - 1;
      while i > 0
        invariant 0 <= i < len <= buf.Length
        invariant OrderedBut(buf[..len], i)
        invariant multiset(buf[..len]) == all
      {
        var parent := (i - 1) / 2;
        if !Less(buf[i], buf[parent]) {
          break;
        }
        SwapUp(buf[..len], i);
        Swap(i, parent);
        i := parent;
      }
      assert Ordered(buf[..len]);
    }

    /** bpe_heap_pop: the least candidate leaves, nothing else does. */
    method Pop() returns (top: Cand)
      requires Valid() && len > 0
      modifies buf, this`len
      ensures Valid() && len == old(len) - 1
      ensures top in old(Contents()) && Contents() == old(Contents()) - multiset{top}
      ensures forall d :: d in old(Contents()) ==> !Less(d, top)
    {
      ghost var before := buf[..len];
      RootBelowAll(before);
      top := buf[0];
      buf[0] := buf[len - 1];
      len := len - 1;
      RemoveRoot(before, buf[..len]);
      SiftDown(multiset(before) - multiset{top});
    }

    method SiftDown(ghost all: multiset<Cand>)
      requires len <= buf.Length && OrderedBelow(buf[..len], 0) && multiset(buf[..len]) == all
      modifies buf
      ensures Valid() && Contents() == all
    {
      var i := 0;
      while true
        invariant len <= buf.Length && (i < len || i == len == 0)
        invariant OrderedBelow(buf[..len], i)
        invariant multiset(buf[..len]) == all
        decreases len - i
      {
        var smallest := i;
        var lc, rc := 2 * i + 1, 2 * i + 2;
        if lc < len && Less(buf[lc], buf[smallest]) {
          smallest := lc;
        }
        if rc < len && Less(buf[rc], buf[smallest]) {
          smallest := rc;
        }
        assert forall j :: 1 <= j < len && Parent(j) == i ==> (j == lc || j == rc);
        if smallest == i {
          break;
        }
        SwapDown(buf[..len], i, smallest);
        Swap(i, smallest);
        i := smallest;
      }
    }
  }

  /** Moving the last element to the root loses exactly the old root. */
  lemma RemoveRoot(s: seq<Cand>, r: seq<Cand>)
    requires |s| > 0 && Ordered(s)
    requires |r| == |s| - 1 && r == s[0 := s[|s| - 1]][..|s| - 1]
    ensures OrderedBelow(r, 0) && multiset(r) == multiset(s) - multiset{s[0]}
  {
    var u := SwapAt(s, 0, |s| - 1);
    DropLast(u);
    assert r == u[..|s| - 1];
  }
}
