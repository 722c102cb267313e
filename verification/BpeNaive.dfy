/** The textbook byte-pair merge: rescan the symbol list, merge the lowest-ranked adjacent pair
    (leftmost on ties), repeat until no adjacent pair has a rank.  This is the reference that the
    heap-driven merge of tokenizer.c is proved to agree with. */
module BpeNaive {
  import opened Utf8

  /** merge_map as a finite map; ProbeTable shows that the hash table behaves as one. */
  type Ranks = map<(Bytes, Bytes), nat>

  datatype Choice = NoPair | Pair(at: nat)

  predicate Ranked(m: Ranks, s: seq<Bytes>, i: nat) {
    i + 1 < |s| && (s[i], s[i + 1]) in m
  }

  function RankAt(m: Ranks, s: seq<Bytes>, i: nat): nat
    requires Ranked(m, s, i)
  {
    m[(s[i], s[i + 1])]
  }

  /** i is the pair to merge next: no ranked pair is cheaper, and none as cheap is further left. */
  ghost predicate IsBest(m: Ranks, s: seq<Bytes>, i: nat) {
    && Ranked(m, s, i)
    && forall j: nat :: Ranked(m, s, j) ==>
         RankAt(m, s, i) < RankAt(m, s, j) || (RankAt(m, s, i) == RankAt(m, s, j) && i <= j)
  }

  /** One scan over the pairs that start at i or later. */
  function Scan(m: Ranks, s: seq<Bytes>, i: nat): (r: Choice)
    ensures r.NoPair? ==> forall j :: i <= j ==> !Ranked(m, s, j)
    ensures r.Pair? ==> i <= r.at && Ranked(m, s, r.at)
    ensures r.Pair? ==> forall j :: i <= j && Ranked(m, s, j) ==>
              RankAt(m, s, r.at) < RankAt(m, s, j) || (RankAt(m, s, r.at) == RankAt(m, s, j) && r.at <= j)
    decreases |s| - i
  {
    if i + 1 >= |s| then NoPair
    else
      var rest := Scan(m, s, i + 1);
      if Ranked(m, s, i) && (rest.NoPair? || RankAt(m, s, i) <= RankAt(m, s, rest.at)) then Pair(i)
      else rest
  }

  function MergeAt(s: seq<Bytes>, i: nat): (r: seq<Bytes>)
    requires i + 1 < |s|
    ensures |r| == |s| - 1
  {
    s[..i] + [s[i] + s[i + 1]] + s[i + 2..]
  }

  function Naive(m: Ranks, s: seq<Bytes>): seq<Bytes>
    decreases |s|
  {
    match Scan(m, s, 0)
    case NoPair => s
    case Pair(i) => Naive(m, MergeAt(s, i))
  }

  /** The scan finds the best pair whenever there is one, and the best pair is unique. */
  lemma ScanFindsBest(m: Ranks, s: seq<Bytes>, i: nat)
    requires IsBest(m, s, i)
    ensures Scan(m, s, 0) == Pair(i)
  {
    var c := Scan(m, s, 0);
    assert Ranked(m, s, i);
    assert c.Pair?;
    assert Ranked(m, s, c.at);
  }

  lemma NaiveStep(m: Ranks, s: seq<Bytes>, i: nat)
    requires IsBest(m, s, i)
    ensures Naive(m, s) == Naive(m, MergeAt(s, i))
  {
    ScanFindsBest(m, s, i);
  }

  /** The lower rank goes first, wherever it stands. */
  lemma {:induction false} LowerRankFirst(m: Ranks, a: Bytes, b: Bytes, c: Bytes)
    requires (a, b) in m && (b, c) in m && m[(b, c)] < m[(a, b)] && (a, b + c) !in m
    ensures Naive(m, [a, b, c]) == [a, b + c]
  {
    var s, t := [a, b, c], [a, b + c];
    assert IsBest(m, s, 1);
    NaiveStep(m, s, 1);
    assert MergeAt(s, 1) == t && !Ranked(m, t, 0);
  }

  /** Of equal ranks the leftmost pair goes first. */
  lemma {:induction false} LeftmostFirst(m: Ranks, a: Bytes)
    requires (a, a) in m && (a + a, a) !in m
    ensures Naive(m, [a, a, a]) == [a + a, a]
  {
    var s, t := [a, a, a], [a + a, a];
    assert IsBest(m, s, 0);
    NaiveStep(m, s, 0);
    assert MergeAt(s, 0) == t && !Ranked(m, t, 0);
  }

  /** Merging only regroups: the symbols still spell the same text. */
  lemma {:induction false} NaiveKeepsText(m: Ranks, s: seq<Bytes>)
    ensures Flatten(Naive(m, s)) == Flatten(s)
    decreases |s|
  {
    match Scan(m, s, 0)
    case NoPair =>
    case Pair(i) =>
      NaiveKeepsText(m, MergeAt(s, i));
      MergeKeepsText(s, i);
  }

  lemma {:induction false} MergeKeepsText(s: seq<Bytes>, i: nat)
    requires i + 1 < |s|
    ensures Flatten(MergeAt(s, i)) == Flatten(s)
  {
    if i == 0 {
      assert MergeAt(s, 0)[1..] == s[2..] == s[1..][1..];
    } else {
      MergeKeepsText(s[1..], i - 1);
      assert MergeAt(s, i)[1..] == MergeAt(s[1..], i - 1);
    }
  }

  /** The result is a normal form: nothing is left to merge. */
  lemma {:induction false} NaiveIsFinal(m: Ranks, s: seq<Bytes>)
    ensures forall j :: 0 <= j ==> !Ranked(m, Naive(m, s), j)
    ensures |Naive(m, s)| <= |s|
    decreases |s|
  {
    match Scan(m, s, 0)
    case NoPair =>
    case Pair(i) =>
      NaiveIsFinal(m, MergeAt(s, i));
  }

  /** Every surviving symbol is one of the initial symbols or the product of a merge rule. */
  lemma {:induction false} NaiveSymbols(m: Ranks, s: seq<Bytes>, x: Bytes)
    requires x in Naive(m, s)
    ensures x in s || exists p :: p in m && x == p.0 + p.1
    decreases |s|
  {
    match Scan(m, s, 0)
    case NoPair =>
    case Pair(i) =>
      NaiveSymbols(m, MergeAt(s, i), x);
      if x in MergeAt(s, i) && x !in s {
        var p := (s[i], s[i + 1]);
        assert p in m && x == p.0 + p.1;
      }
  }
}
