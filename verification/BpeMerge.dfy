/** bpe_merge: candidate heap, version-stamped lazy deletion and a doubly linked list threaded
    through an array of nodes, proved to end with exactly the symbols of BpeNaive.

    The proof is about three values: the nodes ns, the ghost list `live` of the indices that are
    still linked, and the multiset h of heap candidates. */
module BpeMerge {
  import opened Utf8
  import opened BpeNaive
  import opened BpeHeap
  import opened Tokenizer
  import opened SeqOps

  const INT32_MAX: nat := 0x7FFF_FFFF

  /** A symbol: the slice [start, end) of the input, its list neighbours (-1 for none), and the
      number of merges that have touched it. */
  datatype Node = Node(start: nat, end: nat, prev: int, next: int, ver: nat)

  // ---------------------------------------------------------------- the linked list

  ghost predicate Increasing(live: seq<nat>, n: nat) {
    && (forall k :: 0 <= k < |live| ==> live[k] < n)
    && (forall j, k :: 0 <= j < k < |live| ==> live[j] < live[k])
  }

  ghost function NextOf(live: seq<nat>, k: nat): int {
    if k + 1 < |live| then live[k + 1] else -1
  }

  ghost function PrevOf(live: seq<nat>, k: nat): int
    requires k <= |live|
  {
    if k > 0 then live[k - 1] else -1
  }

  ghost predicate Linked(ns: seq<Node>, live: seq<nat>) {
    && Increasing(live, |ns|)
    && (|live| > 0 ==> live[0] == 0)
    && (forall k {:trigger NextOf(live, k)} :: 0 <= k < |live| ==> ns[live[k]].next == NextOf(live, k))
    && (forall k {:trigger PrevOf(live, k)} :: 0 <= k < |live| ==> ns[live[k]].prev == PrevOf(live, k))
  }

  ghost predicate Touching(ns: seq<Node>, live: seq<nat>, k: nat)
    requires Increasing(live, |ns|)
  {
    k + 1 < |live| ==> ns[live[k]].end == ns[live[k + 1]].start
  }

  /** The live slices are non-empty and each ends where the next begins. */
  ghost predicate Tiled(ns: seq<Node>, live: seq<nat>, len: nat)
    requires Increasing(live, |ns|)
  {
    && (forall k :: 0 <= k < |live| ==> ns[live[k]].start < ns[live[k]].end <= len)
    && (forall k {:trigger Touching(ns, live, k)} :: 0 <= k < |live| ==> Touching(ns, live, k))
  }

  ghost function SymbolOf(input: Bytes, n: Node): Bytes
    requires n.start <= n.end <= |input|
  {
    input[n.start..n.end]
  }

  ghost function Symbols(input: Bytes, ns: seq<Node>, live: seq<nat>): (s: seq<Bytes>)
    requires Increasing(live, |ns|) && Tiled(ns, live, |input|)
    ensures |s| == |live|
    ensures forall k :: 0 <= k < |live| ==> s[k] == SymbolOf(input, ns[live[k]])
  {
    seq(|live|, k requires 0 <= k < |live| => SymbolOf(input, ns[live[k]]))
  }

  ghost function Unlink(live: seq<nat>, k: nat): (r: seq<nat>)
    requires k + 1 < |live|
    ensures |r| == |live| - 1
    ensures forall j :: 0 <= j <= k ==> r[j] == live[j]
    ensures forall j :: k < j < |r| ==> r[j] == live[j + 1]
  {
    live[..k + 1] + live[k + 2..]
  }

  /** us is ns after element k + 1 of the list has been folded into element k. */
  ghost predicate Merged(ns: seq<Node>, us: seq<Node>, live: seq<nat>, k: nat)
    requires Increasing(live, |ns|) && k + 1 < |live|
  {
    && |us| == |ns|
    && us[live[k]] == Node(ns[live[k]].start, ns[live[k + 1]].end, ns[live[k]].prev, NextOf(live, k + 1), ns[live[k]].ver + 1)
    && us[live[k + 1]] == ns[live[k + 1]].(ver := ns[live[k + 1]].ver + 1)
    && (k + 2 < |live| ==> us[live[k + 2]] == ns[live[k + 2]].(prev := live[k]))
    && (forall i :: 0 <= i < |ns| && i != live[k] && i != live[k + 1] && i != NextOf(live, k + 1) ==> us[i] == ns[i])
  }

  lemma MergeKeepsLinks(ns: seq<Node>, us: seq<Node>, live: seq<nat>, k: nat)
    requires Linked(ns, live) && k + 1 < |live| && Merged(ns, us, live, k)
    ensures Linked(us, Unlink(live, k))
  {
    var live' := Unlink(live, k);
    assert Increasing(live', |us|);
    forall j: nat | j < |live'|
      ensures us[live'[j]].next == NextOf(live', j)
      ensures us[live'[j]].prev == PrevOf(live', j)
    {
      var i := if j <= k then j else j + 1;
      assert live'[j] == live[i];
      assert ns[live[i]].next == NextOf(live, i) && ns[live[i]].prev == PrevOf(live, i);
    }
  }

  lemma MergeKeepsTiles(ns: seq<Node>, us: seq<Node>, live: seq<nat>, k: nat, len: nat)
    requires Linked(ns, live) && k + 1 < |live| && Tiled(ns, live, len) && Merged(ns, us, live, k)
    ensures Increasing(Unlink(live, k), |us|)
    ensures Tiled(us, Unlink(live, k), len)
  {
    var live' := Unlink(live, k);
    assert Touching(ns, live, k);
    forall j: nat | j < |live'|
      ensures us[live'[j]].start < us[live'[j]].end <= len
      ensures Touching(us, live', j)
    {
      var i := if j <= k then j else j + 1;
      assert live'[j] == live[i];
      assert Touching(ns, live, i) && Touching(ns, live, k + 1);
    }
  }

  /** One list merge is one step of the naive procedure on the symbols. */
  lemma MergeSymbols(input: Bytes, ns: seq<Node>, us: seq<Node>, live: seq<nat>, k: nat)
    requires Linked(ns, live) && k + 1 < |live| && Tiled(ns, live, |input|) && Merged(ns, us, live, k)
    requires Increasing(Unlink(live, k), |us|) && Tiled(us, Unlink(live, k), |input|)
    ensures Symbols(input, us, Unlink(live, k)) == MergeAt(Symbols(input, ns, live), k)
  {
    var live' := Unlink(live, k);
    var a, s := Symbols(input, us, live'), Symbols(input, ns, live);
    forall j | 0 <= j < |a|
      ensures a[j] == MergeAt(s, k)[j]
    {
      MergedSymbol(input, ns, us, live, k, j);
    }
  }

  lemma MergedSymbol(input: Bytes, ns: seq<Node>, us: seq<Node>, live: seq<nat>, k: nat, j: nat)
    requires Linked(ns, live) && k + 1 < |live| && Tiled(ns, live, |input|) && Merged(ns, us, live, k)
    requires Increasing(Unlink(live, k), |us|) && Tiled(us, Unlink(live, k), |input|) && j < |live| - 1
    ensures var a, s := Symbols(input, us, Unlink(live, k)), Symbols(input, ns, live);
            a[j] == if j == k then s[k] + s[k + 1] else s[if j < k then j else j + 1]
  {
    assert Unlink(live, k)[j] == live[if j <= k then j else j + 1];
    if j == k {
      assert Touching(ns, live, k);
      var l, r := ns[live[k]], ns[live[k + 1]];
      SliceJoin(input, l.start, l.end, r.end);
    }
  }

  // ---------------------------------------------------------------- the candidates

  predicate Fresh(ns: seq<Node>, c: Cand) {
    c.left < |ns| && c.right < |ns| && ns[c.left].ver == c.lver && ns[c.right].ver == c.rver
  }

  /** The candidate that bpe_push_cand builds for the k-th adjacent pair. */
  ghost function CandFor(m: Ranks, input: Bytes, ns: seq<Node>, live: seq<nat>, k: nat): Cand
    requires Increasing(live, |ns|) && Tiled(ns, live, |input|)
    requires Ranked(m, Symbols(input, ns, live), k)
  {
    Cand(RankAt(m, Symbols(input, ns, live), k), live[k], live[k + 1], ns[live[k]].ver, ns[live[k + 1]].ver)
  }

  /** Candidates never run ahead of the versions, so bumping a version outdates all of them. */
  ghost predicate NotAhead(ns: seq<Node>, h: multiset<Cand>) {
    forall c :: c in h ==> c.left < |ns| && c.right < |ns| && c.lver <= ns[c.left].ver && c.rver <= ns[c.right].ver
  }

  /** Every fresh candidate is a ranked adjacent live pair at its current rank. */
  ghost predicate Sound(m: Ranks, input: Bytes, ns: seq<Node>, live: seq<nat>, h: multiset<Cand>)
    requires Increasing(live, |ns|) && Tiled(ns, live, |input|)
  {
    forall c :: c in h && Fresh(ns, c) ==>
      exists k: nat :: Ranked(m, Symbols(input, ns, live), k) && c == CandFor(m, input, ns, live, k)
  }

  /** Every ranked adjacent live pair outside [lo, hi) has its current candidate in the heap. */
  ghost predicate CompleteBut(m: Ranks, input: Bytes, ns: seq<Node>, live: seq<nat>, h: multiset<Cand>, lo: int, hi: int)
    requires Increasing(live, |ns|) && Tiled(ns, live, |input|)
  {
    forall k: nat :: Ranked(m, Symbols(input, ns, live), k) && !(lo <= k < hi) ==>
      CandFor(m, input, ns, live, k) in h
  }

  /** The loop invariant: fresh candidates are exactly the ranked live adjacent pairs. */
  ghost predicate Inv(m: Ranks, input: Bytes, ns: seq<Node>, live: seq<nat>, h: multiset<Cand>, lo: int, hi: int) {
    && Linked(ns, live)
    && Tiled(ns, live, |input|)
    && NotAhead(ns, h)
    && Sound(m, input, ns, live, h)
    && CompleteBut(m, input, ns, live, h, lo, hi)
  }

  /** A fresh least candidate is the pair the naive scan would choose. */
  lemma FreshLeastIsBest(m: Ranks, input: Bytes, ns: seq<Node>, live: seq<nat>, h: multiset<Cand>, c: Cand) returns (k: nat)
    requires Inv(m, input, ns, live, h, 0, 0)
    requires c in h && Fresh(ns, c) && forall d :: d in h ==> !Less(d, c)
    ensures Ranked(m, Symbols(input, ns, live), k) && c == CandFor(m, input, ns, live, k)
    ensures IsBest(m, Symbols(input, ns, live), k)
  {
    var s := Symbols(input, ns, live);
    k :| Ranked(m, s, k) && c == CandFor(m, input, ns, live, k);
    forall j: nat | Ranked(m, s, j)
      ensures RankAt(m, s, k) < RankAt(m, s, j) || (RankAt(m, s, k) == RankAt(m, s, j) && k <= j)
    {
      var d := CandFor(m, input, ns, live, j);
      assert d in h && !Less(d, c);
    }
  }

  /** Dropping a stale candidate keeps the invariant. */
  lemma DropStale(m: Ranks, input: Bytes, ns: seq<Node>, live: seq<nat>, h: multiset<Cand>, c: Cand)
    requires Inv(m, input, ns, live, h, 0, 0) && c in h && !Fresh(ns, c)
    ensures Inv(m, input, ns, live, h - multiset{c}, 0, 0)
  {
    forall k: nat | Ranked(m, Symbols(input, ns, live), k)
      ensures CandFor(m, input, ns, live, k) in h - multiset{c}
    {
      assert Fresh(ns, CandFor(m, input, ns, live, k));
    }
  }

  /** How pair numbers move when pair k is merged: pairs before k - 1 stay, pairs after k + 1 move
      down by one, and neither their symbols nor their candidates change. */
  lemma {:induction false} PairMoves(m: Ranks, input: Bytes, ns: seq<Node>, us: seq<Node>, live: seq<nat>, k: nat, j: nat)
    requires Linked(ns, live) && k + 1 < |live| && Tiled(ns, live, |input|) && Merged(ns, us, live, k)
    requires Increasing(Unlink(live, k), |us|) && Tiled(us, Unlink(live, k), |input|)
    requires j + 1 < k || k < j
    ensures var live' := Unlink(live, k);
            var i := if j < k then j else j + 1;
            && Ranked(m, Symbols(input, us, live'), j) == Ranked(m, Symbols(input, ns, live), i)
            && (Ranked(m, Symbols(input, ns, live), i) ==>
                  CandFor(m, input, us, live', j) == CandFor(m, input, ns, live, i))
  {
    var live' := Unlink(live, k);
    var i := if j < k then j else j + 1;
    if j + 1 < |live'| {
      assert live'[j] == live[i] && live'[j + 1] == live[i + 1];
      assert us[live[i]].ver == ns[live[i]].ver && us[live[i + 1]].ver == ns[live[i + 1]].ver;
      assert Symbols(input, us, live')[j] == Symbols(input, ns, live)[i];
      assert Symbols(input, us, live')[j + 1] == Symbols(input, ns, live)[i + 1];
    }
  }

  /** The version bumps outdate every candidate that mentions a merged node. */
  lemma FreshUntouched(ns: seq<Node>, us: seq<Node>, live: seq<nat>, h: multiset<Cand>, k: nat, d: Cand)
    requires Increasing(live, |ns|) && k + 1 < |live| && Merged(ns, us, live, k) && NotAhead(ns, h)
    requires d in h && Fresh(us, d)
    ensures Fresh(ns, d)
    ensures d.left != live[k] && d.left != live[k + 1] && d.right != live[k] && d.right != live[k + 1]
  {
    assert d.lver <= ns[d.left].ver && d.rver <= ns[d.right].ver;
  }

  /** After the list merge a candidate that is still fresh is the moved candidate of another pair. */
  lemma FreshAfterMerge(m: Ranks, input: Bytes, ns: seq<Node>, us: seq<Node>, live: seq<nat>, h: multiset<Cand>, k: nat, d: Cand)
    requires Inv(m, input, ns, live, h, 0, 0) && Ranked(m, Symbols(input, ns, live), k) && Merged(ns, us, live, k)
    requires Increasing(Unlink(live, k), |us|) && Tiled(us, Unlink(live, k), |input|)
    requires d in h && Fresh(us, d)
    ensures exists j: nat :: Ranked(m, Symbols(input, us, Unlink(live, k)), j)
                             && d == CandFor(m, input, us, Unlink(live, k), j)
  {
    var i := FreshPair(m, input, ns, us, live, h, k, d);
    var j := if i < k then i else i - 1;
    PairMoves(m, input, ns, us, live, k, j);
    assert Ranked(m, Symbols(input, us, Unlink(live, k)), j);
  }

  lemma {:induction false} FreshPair(m: Ranks, input: Bytes, ns: seq<Node>, us: seq<Node>, live: seq<nat>, h: multiset<Cand>, k: nat, d: Cand) returns (i: nat)
    requires Inv(m, input, ns, live, h, 0, 0) && k + 1 < |live| && Merged(ns, us, live, k) && d in h && Fresh(us, d)
    ensures Ranked(m, Symbols(input, ns, live), i) && d == CandFor(m, input, ns, live, i)
    ensures i != k && i != k + 1 && i + 1 != k
  {
    FreshUntouched(ns, us, live, h, k, d);
    i :| Ranked(m, Symbols(input, ns, live), i) && d == CandFor(m, input, ns, live, i);
    assert live[i] == d.left && live[i + 1] == d.right;
  }

  /** After the list merge, what is left of the heap is sound, and complete but for the two pairs
      that now involve the merged node. */
  lemma {:induction false} MergeKeepsInv(m: Ranks, input: Bytes, ns: seq<Node>, us: seq<Node>, live: seq<nat>, h: multiset<Cand>, k: nat)
    requires Inv(m, input, ns, live, h, 0, 0) && Ranked(m, Symbols(input, ns, live), k) && Merged(ns, us, live, k)
    ensures Inv(m, input, us, Unlink(live, k), h - multiset{CandFor(m, input, ns, live, k)}, k - 1, k + 1)
  {
    var c := CandFor(m, input, ns, live, k);
    var live', h' := Unlink(live, k), h - multiset{c};
    MergeKeepsLinks(ns, us, live, k);
    MergeKeepsTiles(ns, us, live, k, |input|);
    assert Sound(m, input, us, live', h') by {
      forall d | d in h' && Fresh(us, d)
        ensures exists j: nat :: Ranked(m, Symbols(input, us, live'), j) && d == CandFor(m, input, us, live', j)
      {
        assert d in h;
        FreshAfterMerge(m, input, ns, us, live, h, k, d);
      }
    }
    CompleteAfterMerge(m, input, ns, us, live, h, k);
  }

  lemma CompleteAfterMerge(m: Ranks, input: Bytes, ns: seq<Node>, us: seq<Node>, live: seq<nat>, h: multiset<Cand>, k: nat)
    requires Inv(m, input, ns, live, h, 0, 0) && Ranked(m, Symbols(input, ns, live), k) && Merged(ns, us, live, k)
    requires Increasing(Unlink(live, k), |us|) && Tiled(us, Unlink(live, k), |input|)
    ensures CompleteBut(m, input, us, Unlink(live, k), h - multiset{CandFor(m, input, ns, live, k)}, k - 1, k + 1)
  {
    var c, live' := CandFor(m, input, ns, live, k), Unlink(live, k);
    forall j: nat | Ranked(m, Symbols(input, us, live'), j) && !(k - 1 <= j < k + 1)
      ensures CandFor(m, input, us, live', j) in h - multiset{c}
    {
      PairMoves(m, input, ns, us, live, k, j);
      var i := if j < k then j else j + 1;
      assert CandFor(m, input, ns, live, i) in h;
      assert live[i] != live[k];
    }
  }

  /** The version counters are bounded by the number of merges, so a 32-bit counter never wraps. */
  ghost predicate VersionsBelow(ns: seq<Node>, merges: int) {
    forall i :: 0 <= i < |ns| ==> ns[i].ver <= merges
  }

  /** The loop invariant, with `goal` the symbols the naive procedure still ends with. */
  ghost predicate State(m: Ranks, input: Bytes, ns: seq<Node>, live: seq<nat>, h: multiset<Cand>, goal: seq<Bytes>) {
    && Inv(m, input, ns, live, h, 0, 0)
    && (|ns| > 0 ==> |live| > 0)
    && VersionsBelow(ns, |ns| - |live|)
    && Naive(m, Symbols(input, ns, live)) == goal
  }

  lemma {:induction false} MergeKeepsState(m: Ranks, input: Bytes, ns: seq<Node>, us: seq<Node>, live: seq<nat>,
                        h: multiset<Cand>, h': multiset<Cand>, k: nat, goal: seq<Bytes>)
    requires State(m, input, ns, live, h, goal) && IsBest(m, Symbols(input, ns, live), k)
    requires Merged(ns, us, live, k) && Inv(m, input, us, Unlink(live, k), h', 0, 0)
    ensures State(m, input, us, Unlink(live, k), h', goal)
  {
    NaiveStep(m, Symbols(input, ns, live), k);
    MergeSymbols(input, ns, us, live, k);
    assert VersionsBelow(us, |us| - |Unlink(live, k)|);
  }

  /** Pushing the candidate of pair lo, if it is ranked, closes that gap. */
  lemma PushKeepsInv(m: Ranks, input: Bytes, ns: seq<Node>, live: seq<nat>, h: multiset<Cand>, h': multiset<Cand>, lo: nat, hi: int)
    requires Inv(m, input, ns, live, h, lo, hi)
    requires if Ranked(m, Symbols(input, ns, live), lo) then h' == h + multiset{CandFor(m, input, ns, live, lo)} else h' == h
    ensures Inv(m, input, ns, live, h', lo + 1, hi)
  {
  }

  // ---------------------------------------------------------------- the start

  /** The nodes that the splitting loop still has to write when it stands at pos with `index`
      nodes written. */
  ghost function InitialNodes(input: Bytes, pos: nat, index: nat): (r: seq<Node>)
    requires pos <= |input|
    ensures |r| == |CharsFrom(input, pos)|
    decreases |input| - pos
  {
    if pos == |input| then []
    else
      var end := pos + CodepointAt(input, pos).len;
      [Node(pos, end, index - 1, if end < |input| then index + 1 else -1, 0)] + InitialNodes(input, end, index + 1)
  }

  lemma InitialStep(input: Bytes, pos: nat, index: nat, all: seq<Node>)
    requires pos < |input| && index <= |all| && all[index..] == InitialNodes(input, pos, index)
    ensures var end := pos + CodepointAt(input, pos).len;
            && index < |all|
            && all[index] == Node(pos, end, index - 1, if end < |input| then index + 1 else -1, 0)
            && all[index + 1..] == InitialNodes(input, end, index + 1)
  {
    assert all[index] == all[index..][0];
    assert all[index + 1..] == all[index..][1..];
  }

  lemma {:induction false} InitialNodeAt(input: Bytes, pos: nat, index: nat, k: nat)
    requires pos <= |input| && k < |InitialNodes(input, pos, index)|
    ensures var r, chars := InitialNodes(input, pos, index), CharsFrom(input, pos);
            && r[k].start < r[k].end <= |input| && r[k].ver == 0 && r[k].prev == index + k - 1
            && SymbolOf(input, r[k]) == chars[k]
            && (if k + 1 < |r| then r[k].next == index + k + 1 && r[k].end == r[k + 1].start else r[k].next == -1)
    decreases |input| - pos
  {
    var end := pos + CodepointAt(input, pos).len;
    var r, rest := InitialNodes(input, pos, index), InitialNodes(input, end, index + 1);
    assert r[1..] == rest;
    assert CharsFrom(input, pos) == [input[pos..end]] + CharsFrom(input, end);
    if k > 0 {
      InitialNodeAt(input, end, index + 1, k - 1);
      assert r[k] == rest[k - 1];
      assert k + 1 < |r| ==> r[k + 1] == rest[k];
    } else if end < |input| {
      assert r[1] == rest[0];
    }
  }

  ghost function Identity(n: nat): (r: seq<nat>)
    ensures |r| == n && forall k :: 0 <= k < n ==> r[k] == k
  {
    seq(n, k => k)
  }

  lemma SeedPair(m: Ranks, input: Bytes, ns: seq<Node>, j: nat)
    requires j + 1 < |ns| && Increasing(Identity(|ns|), |ns|) && Tiled(ns, Identity(|ns|), |input|)
    ensures ns[j].start <= ns[j].end <= |input| && ns[j + 1].start <= ns[j + 1].end <= |input|
    ensures Symbols(input, ns, Identity(|ns|))[j] == SymbolOf(input, ns[j])
    ensures Symbols(input, ns, Identity(|ns|))[j + 1] == SymbolOf(input, ns[j + 1])
  {
    assert Identity(|ns|)[j] == j && Identity(|ns|)[j + 1] == j + 1;
  }

  lemma {:induction false} InitialInv(m: Ranks, input: Bytes)
    ensures var ns := InitialNodes(input, 0, 0);
            && Inv(m, input, ns, Identity(|ns|), multiset{}, 0, |ns|)
            && Symbols(input, ns, Identity(|ns|)) == CharsFrom(input, 0)
            && VersionsBelow(ns, 0)
  {
    InitialLinked(input);
    InitialTiled(input);
  }

  lemma InitialLinked(input: Bytes)
    ensures var ns := InitialNodes(input, 0, 0); Linked(ns, Identity(|ns|)) && VersionsBelow(ns, 0)
  {
    var ns := InitialNodes(input, 0, 0);
    var live := Identity(|ns|);
    forall k: nat | k < |ns|
      ensures ns[live[k]].next == NextOf(live, k) && ns[live[k]].prev == PrevOf(live, k) && ns[k].ver == 0
    {
      InitialNodeAt(input, 0, 0, k);
    }
  }

  lemma {:induction false} InitialTiled(input: Bytes)
    ensures var ns := InitialNodes(input, 0, 0);
            var live := Identity(|ns|);
            && Increasing(live, |ns|) && Tiled(ns, live, |input|)
            && Symbols(input, ns, live) == CharsFrom(input, 0)
  {
    var ns := InitialNodes(input, 0, 0);
    var live := Identity(|ns|);
    forall k: nat | k < |ns|
      ensures ns[k].start < ns[k].end <= |input|
      ensures Touching(ns, live, k) && SymbolOf(input, ns[k]) == CharsFrom(input, 0)[k]
    {
      InitialNodeAt(input, 0, 0, k);
    }
  }

  /** Once every pair has been offered, the merge loop's invariant holds. */
  lemma {:induction false} SeedDone(m: Ranks, input: Bytes, ns: seq<Node>, h: multiset<Cand>, j: nat)
    requires ns == InitialNodes(input, 0, 0) && j + 1 >= |ns| && Inv(m, input, ns, Identity(|ns|), h, j, |ns|)
    ensures State(m, input, ns, Identity(|ns|), h, Naive(m, CharsFrom(input, 0)))
  {
    InitialTiled(input);
    InitialLinked(input);
    assert CompleteBut(m, input, ns, Identity(|ns|), h, 0, 0);
  }

  /** An empty heap means no pair is ranked any more. */
  lemma NothingLeft(m: Ranks, input: Bytes, ns: seq<Node>, live: seq<nat>, goal: seq<Bytes>)
    requires State(m, input, ns, live, multiset{}, goal)
    ensures Symbols(input, ns, live) == goal
  {
  }

  // ---------------------------------------------------------------- the algorithm

  class Scratch {
    const nodes: array<Node>
    const heap: CandHeap
    const ids: array<int>

    constructor (len: nat)
      ensures fresh(nodes) && fresh(heap) && fresh(heap.buf) && fresh(ids)
      ensures Reserved(len)
    {
      nodes := new Node[len](_ => Node(0, 0, -1, -1, 0));
      heap := new CandHeap(3 * len);
      ids := new int[len](_ => 0);
    }

    /** What a successful encode_scratch_reserve(s, len) leaves behind. */
    ghost predicate Reserved(len: nat) {
      nodes.Length >= len && heap.buf.Length >= 3 * len && ids.Length >= len
    }

    /** The loop that cuts the input into UTF-8 characters. */
    method Split(input: Bytes) returns (n: nat)
      requires Reserved(|input|)
      modifies nodes
      ensures n <= |input| && nodes[..n] == InitialNodes(input, 0, 0)
    {
      n := 0;
      var pos := 0;
      ghost var all := InitialNodes(input, 0, 0);
      while pos < |input|
        invariant 0 <= pos <= |input| && n <= pos && n <= |all|
        invariant forall k :: 0 <= k < n ==> nodes[k] == all[k]
        invariant all[n..] == InitialNodes(input, pos, n)
        decreases |input| - pos
      {
        pos := SplitOne(input, pos, n, all);
        n := n + 1;
      }
      assert all[..n] == all;
    }

    method SplitOne(input: Bytes, pos: nat, n: nat, ghost all: seq<Node>) returns (end: nat)
      requires n <= pos < |input| <= nodes.Length && n <= |all| && all[n..] == InitialNodes(input, pos, n)
      modifies nodes
      ensures pos < end <= |input| && n < |all| && all[n + 1..] == InitialNodes(input, end, n + 1)
      ensures nodes[n] == all[n] && forall k :: 0 <= k < n ==> nodes[k] == old(nodes[k])
    {
      var info := DecodeCodepoint(input, pos);
      end := pos + info.len;
      InitialStep(input, pos, n, all);
      nodes[n] := Node(pos, end, n - 1, if end < |input| then n + 1 else -1, 0);
    }

    /** bpe_push_cand: push (l, r) if the slices they hold now have a rank. */
    method PushCand(m: Ranks, input: Bytes, l: nat, r: nat)
      requires l < nodes.Length && r < nodes.Length && heap.Valid() && heap.len < heap.buf.Length
      requires nodes[l].start <= nodes[l].end <= |input| && nodes[r].start <= nodes[r].end <= |input|
      modifies heap.buf, heap`len, heap`pushes
      ensures heap.Valid() && heap.len <= old(heap.len) + 1 && heap.pushes <= old(heap.pushes) + 1
      ensures nodes[..] == old(nodes[..])
      ensures var p := (SymbolOf(input, nodes[l]), SymbolOf(input, nodes[r]));
              heap.Contents() == if p in m
                                 then old(heap.Contents()) + multiset{Cand(m[p], l, r, nodes[l].ver, nodes[r].ver)}
                                 else old(heap.Contents())
    {
      var p := (input[nodes[l].start..nodes[l].end], input[nodes[r].start..nodes[r].end]);
      if p in m {
        heap.Push(Cand(m[p], l, r, nodes[l].ver, nodes[r].ver));
      }
    }

    /** Fold `right` into `left` in place: extend, bump both versions, unlink. */
    method Fold(n: nat, left: nat, right: nat, ghost live: seq<nat>, ghost k: nat)
      requires n <= nodes.Length && Linked(nodes[..n], live) && k + 1 < |live|
      requires left == live[k] && right == live[k + 1]
      modifies nodes
      ensures Merged(old(nodes[..n]), nodes[..n], live, k)
    {
      ghost var ns := nodes[..n];
      assert ns[right].next == NextOf(live, k + 1) && ns[left].next == NextOf(live, k);
      nodes[left] := nodes[left].(end := nodes[right].end);
      nodes[left] := nodes[left].(ver := nodes[left].ver + 1);
      nodes[right] := nodes[right].(ver := nodes[right].ver + 1);
      nodes[left] := nodes[left].(next := nodes[right].next);
      if nodes[right].next >= 0 {
        nodes[nodes[right].next] := nodes[nodes[right].next].(prev := left);
      }
    }

    /** Seed the heap with every ranked adjacent pair. */
    method Seed(m: Ranks, input: Bytes, n: nat)
      requires Reserved(|input|) && n <= |input| && nodes[..n] == InitialNodes(input, 0, 0)
      modifies heap.buf, heap`len, heap`pushes
      ensures nodes[..n] == old(nodes[..n])
      ensures heap.Valid() && heap.len <= (if n == 0 then 0 else n - 1)
      ensures heap.pushes <= old(heap.pushes) + (if n == 0 then 0 else n - 1)
      ensures State(m, input, nodes[..n], Identity(n), heap.Contents(), Naive(m, CharsFrom(input, 0)))
    {
      ghost var ns := nodes[..n];
      InitialInv(m, input);
      heap.len := 0;
      var j := 0;
      while j + 1 < n
        invariant heap.Valid() && heap.len <= j && 0 <= j && j <= n && (n > 0 ==> j < n)
        invariant heap.pushes <= old(heap.pushes) + j
        invariant nodes[..n] == ns
        invariant Inv(m, input, ns, Identity(n), heap.Contents(), j, n)
      {
        SeedOne(m, input, n, j);
        j := j + 1;
      }
      SeedDone(m, input, ns, heap.Contents(), j);
    }

    method SeedOne(m: Ranks, input: Bytes, n: nat, j: nat)
      requires n <= nodes.Length && j + 1 < n && heap.Valid() && heap.len < heap.buf.Length
      requires Inv(m, input, nodes[..n], Identity(n), heap.Contents(), j, n)
      modifies heap.buf, heap`len, heap`pushes
      ensures nodes[..n] == old(nodes[..n])
      ensures heap.Valid() && heap.len <= old(heap.len) + 1 && heap.pushes <= old(heap.pushes) + 1
      ensures Inv(m, input, nodes[..n], Identity(n), heap.Contents(), j + 1, n)
    {
      ghost var h, ns := heap.Contents(), nodes[..n];
      SeedPair(m, input, ns, j);
      PushCand(m, input, j, j + 1);
      assert nodes[..n] == nodes[..][..n];
      PushKeepsInv(m, input, ns, Identity(n), h, heap.Contents(), j, n);
    }

    /** The body of the merge loop for a fresh candidate: fold the pair, then offer the two pairs
        that the merged node now forms. */
    method MergePair(m: Ranks, input: Bytes, n: nat, c: Cand, ghost live: seq<nat>, ghost h: multiset<Cand>, ghost k: nat)
      requires n <= nodes.Length && heap.Valid() && heap.len + 2 <= heap.buf.Length
      requires Inv(m, input, nodes[..n], live, h, 0, 0)
      requires Ranked(m, Symbols(input, nodes[..n], live), k) && c == CandFor(m, input, nodes[..n], live, k)
      requires c in h && heap.Contents() == h - multiset{c}
      modifies nodes, heap.buf, heap`len, heap`pushes
      ensures heap.Valid() && heap.len <= old(heap.len) + 2 && heap.pushes <= old(heap.pushes) + 2
      ensures Merged(old(nodes[..n]), nodes[..n], live, k)
      ensures Inv(m, input, nodes[..n], Unlink(live, k), heap.Contents(), 0, 0)
    {
      ghost var ns := nodes[..n];
      Fold(n, c.left, c.right, live, k);
      ghost var us, live' := nodes[..n], Unlink(live, k);
      MergeKeepsInv(m, input, ns, us, live, h, k);
      ghost var h1 := heap.Contents();
      ghost var s := Symbols(input, us, live');
      assert us[live'[k]].prev == PrevOf(live', k) && us[live'[k]].next == NextOf(live', k);
      if nodes[c.left].prev >= 0 {
        assert s[k - 1] == SymbolOf(input, us[live'[k - 1]]) && s[k] == SymbolOf(input, us[live'[k]]);
        PushCand(m, input, nodes[c.left].prev, c.left);
        assert nodes[..n] == nodes[..][..n];
        PushKeepsInv(m, input, us, live', h1, heap.Contents(), k - 1, k + 1);
      }
      assert Inv(m, input, us, live', heap.Contents(), k, k + 1);
      ghost var h2 := heap.Contents();
      if nodes[c.left].next >= 0 {
        assert s[k] == SymbolOf(input, us[live'[k]]) && s[k + 1] == SymbolOf(input, us[live'[k + 1]]);
        PushCand(m, input, c.left, nodes[c.left].next);
        assert nodes[..n] == nodes[..][..n];
      }
      PushKeepsInv(m, input, us, live', h2, heap.Contents(), k, k + 1);
      assert nodes[..n] == us;
    }

    /** One turn of the merge loop: a stale candidate is dropped, a fresh one is merged. */
    method Turn(m: Ranks, input: Bytes, n: nat, ghost live: seq<nat>, ghost goal: seq<Bytes>)
      returns (ghost live': seq<nat>)
      requires n <= nodes.Length && heap.Valid() && 0 < heap.len && heap.len + 1 <= heap.buf.Length
      requires State(m, input, nodes[..n], live, heap.Contents(), goal)
      modifies nodes, heap.buf, heap`len, heap`pushes
      ensures heap.Valid() && State(m, input, nodes[..n], live', heap.Contents(), goal)
      ensures if |live'| == |live| then heap.len == old(heap.len) - 1 && heap.pushes == old(heap.pushes)
              else |live'| == |live| - 1 && heap.len <= old(heap.len) + 1 && heap.pushes <= old(heap.pushes) + 2
    {
      ghost var h, ns := heap.Contents(), nodes[..n];
      var c := heap.Pop();
      assert nodes[..n] == ns;
      assert c.left < n && c.right < n;
      if nodes[c.left].ver != c.lver || nodes[c.right].ver != c.rver {
        DropStale(m, input, ns, live, h, c);
        live' := live;
      } else {
        ghost var k := FreshLeastIsBest(m, input, ns, live, h, c);
        MergePair(m, input, n, c, live, h, k);
        MergeKeepsState(m, input, ns, nodes[..n], live, h, heap.Contents(), k, goal);
        live' := Unlink(live, k);
      }
    }

    /** The merge loop.  The heap never holds more than 3 * n - 2 * |live| - 1 candidates. */
    method Loop(m: Ranks, input: Bytes, n: nat, ghost goal: seq<Bytes>) returns (ghost live: seq<nat>)
      requires n <= nodes.Length && heap.Valid() && heap.len <= (if n == 0 then 0 else n - 1)
      requires 3 * n <= heap.buf.Length
      requires State(m, input, nodes[..n], Identity(n), heap.Contents(), goal)
      modifies nodes, heap.buf, heap`len, heap`pushes
      ensures State(m, input, nodes[..n], live, multiset{}, goal)
      ensures heap.pushes <= old(heap.pushes) + (if n == 0 then 0 else 2 * (n - 1))
    {
      live := Identity(n);
      while heap.len > 0
        invariant heap.Valid() && |live| <= n
        invariant heap.len <= if n == 0 then 0 else 3 * n - 2 * |live| - 1
        invariant heap.pushes <= old(heap.pushes) + 2 * (n - |live|)
        invariant State(m, input, nodes[..n], live, heap.Contents(), goal)
        decreases |live|, heap.len
      {
        live := Turn(m, input, n, live, goal);
      }
      assert heap.Contents() == multiset{};
    }

    /** bpe_emit_symbol: a vocabulary hit, else the per-byte fallback. */
    method EmitNode(tok: Tokenizer, input: Bytes, n: Node, count: nat) returns (c: nat)
      requires n.start < n.end <= |input| && count + (n.end - n.start) <= ids.Length
      modifies ids
      ensures c <= count + (n.end - n.start) && count <= c <= ids.Length
      ensures ids[..c] == old(ids[..count]) + EmitSymbol(tok, input[n.start..n.end])
    {
      c := count;
      var sym := input[n.start..n.end];
      if sym in tok.vocab {
        ids[c] := tok.vocab[sym];
        c := c + 1;
        return;
      }
      for b := n.start to n.end
        invariant count <= c <= count + (b - n.start)
        invariant ids[..c] == old(ids[..count]) + FlatMap(ByteIds(tok), sym[..b - n.start])
      {
        ghost var i := b - n.start;
        FlatMapSnoc(ByteIds(tok), sym, i);
        Assoc(old(ids[..count]), FlatMap(ByteIds(tok), sym[..i]), EmitByte(tok, sym[i]));
        c := EmitFallback(tok, input[b], c);
      }
      assert sym[..|sym|] == sym;
    }

    method EmitFallback(tok: Tokenizer, b: Byte, count: nat) returns (c: nat)
      requires count < ids.Length
      modifies ids
      ensures count <= c <= count + 1 && ids[..c] == old(ids[..count]) + EmitByte(tok, b)
    {
      c := count;
      var fid := tok.fallback(b);
      if fid >= 0 {
        ids[c] := fid;
        c := c + 1;
      } else if tok.unkId >= 0 {
        ids[c] := tok.unkId;
        c := c + 1;
      }
    }

    /** Walk the surviving list and map every symbol to ids. */
    method Emit(tok: Tokenizer, input: Bytes, n: nat, ghost live: seq<nat>) returns (count: nat)
      requires Reserved(|input|) && n <= nodes.Length
      requires Linked(nodes[..n], live) && Tiled(nodes[..n], live, |input|) && (n > 0 ==> |live| > 0)
      modifies ids
      ensures count <= ids.Length
      ensures ids[..count] == EmitAll(tok, Symbols(input, nodes[..n], live))
    {
      count := 0;
      ghost var ns, k := nodes[..n], 0;
      ghost var s := Symbols(input, ns, live);
      var cur := if n > 0 then 0 else -1;
      while cur >= 0
        invariant nodes[..n] == ns && 0 <= k <= |live|
        invariant cur == if k < |live| then live[k] else -1
        invariant count <= (if k == 0 then 0 else ns[live[k - 1]].end)
        invariant count <= ids.Length && ids[..count] == EmitAll(tok, s[..k])
        decreases |live| - k
      {
        assert k > 0 ==> Touching(ns, live, k - 1);
        assert ns[live[k]].next == NextOf(live, k);
        FlatMapSnoc(SymbolIds(tok), s, k);
        count := EmitNode(tok, input, nodes[cur], count);
        cur := nodes[cur].next;
        k := k + 1;
      }
      assert s[..k] == s;
    }

    /** bpe_merge.  For every merge table, vocabulary and input, the ids written are those of the
        naive procedure; -1 only for WordPiece or an unrepresentable length.  A merge of n characters
        makes at most 3 * (n - 1) pushes. */
    method Merge(tok: Tokenizer, input: Bytes) returns (count: int)
      requires Reserved(|input|)
      modifies nodes, heap.buf, heap`len, heap`pushes, ids
      ensures count == -1 <==> tok.kind.WordPiece? || |input| > 0x7FFF_FFFF
      ensures count != -1 ==> 0 <= count <= ids.Length && ids[..count] == BpeIds(tok, input)
      ensures heap.pushes <= old(heap.pushes) + (if input == [] then 0 else 3 * (|CharsFrom(input, 0)| - 1))
    {
      if tok.kind.WordPiece? {
        return -1;
      }
      if |input| > INT32_MAX {
        return -1;
      }
      var n := Split(input);
      Seed(tok.merges, input, n);
      ghost var live := Loop(tok.merges, input, n, Naive(tok.merges, CharsFrom(input, 0)));
      NothingLeft(tok.merges, input, nodes[..n], live, Naive(tok.merges, CharsFrom(input, 0)));
      count := Emit(tok, input, n, live);
    }
  }
}
