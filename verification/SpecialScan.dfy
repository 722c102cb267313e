/** The special-token scan of encode_alloc_impl: cached occurrences that are probed again only when
    they fall behind the cursor, against the rule "earliest occurrence, longest key on ties". */
module SpecialScan {
  import opened SeqOps
  import opened Utf8

  /** SIZE_MAX stands for "no more occurrences". */
  datatype Found = Nowhere | At(pos: nat)

  predicate Occurs(t: Bytes, k: Bytes, p: nat) {
    p + |k| <= |t| && t[p..p + |k|] == k
  }

  /** The first occurrence of k at or after `from`. */
  ghost predicate FirstFrom(t: Bytes, k: Bytes, from: nat, r: Found) {
    match r
    case Nowhere => forall q: nat :: from <= q ==> !Occurs(t, k, q)
    case At(p) => Occurs(t, k, p) && from <= p && forall q: nat :: from <= q < p ==> !Occurs(t, k, q)
  }

  /** find_sub: jump to the next byte equal to the first of the key, then compare.  An empty key is
      never found. */
  method FindSub(hay: Bytes, from: nat, needle: Bytes) returns (r: Found)
    ensures needle == [] ==> r.Nowhere?
    ensures needle != [] ==> FirstFrom(hay, needle, from, r)
  {
    if |needle| == 0 || |needle| > |hay| {
      return Nowhere;
    }
    var f := from;
    while f + |needle| <= |hay|
      invariant from <= f && forall q: nat :: from <= q < f ==> !Occurs(hay, needle, q)
      decreases |hay| - f
    {
      var p := f;
      while p + |needle| <= |hay| && hay[p] != needle[0]
        invariant f <= p && forall q: nat :: from <= q < p ==> !Occurs(hay, needle, q)
        decreases |hay| - p
      {
        assert hay[p..p + |needle|][0] == hay[p];
        p := p + 1;
      }
      if p + |needle| > |hay| {
        return Nowhere;
      }
      if hay[p..p + |needle|] == needle {
        return At(p);
      }
      f := p + 1;
    }
    return Nowhere;
  }

  // ---------------------------------------------------------------- specification

  type Specials = map<Bytes, int>

  /** Key k at p is what the scan has to take next: nothing starts earlier, and nothing longer
      starts there. */
  ghost predicate IsNext(m: Specials, t: Bytes, pos: nat, p: nat, k: Bytes) {
    && k in m && k != [] && pos <= p && Occurs(t, k, p)
    && forall q: nat, j :: j in m && j != [] && pos <= q && Occurs(t, j, q) ==> p < q || (p == q && |j| <= |k|)
  }

  ghost predicate HasNext(m: Specials, t: Bytes, pos: nat) {
    exists p: nat, k :: IsNext(m, t, pos, p, k)
  }

  /** There is never a choice. */
  lemma NextUnique(m: Specials, t: Bytes, pos: nat, p: nat, k: Bytes, q: nat, j: Bytes)
    requires IsNext(m, t, pos, p, k) && IsNext(m, t, pos, q, j)
    ensures p == q && k == j
  {
  }

  datatype Piece = Gap(text: Bytes) | Special(key: Bytes)

  function PieceText(): Piece -> Bytes {
    (p: Piece) => if p.Gap? then p.text else p.key
  }

  ghost function NextPos(m: Specials, t: Bytes, pos: nat): nat
    requires HasNext(m, t, pos)
  {
    var p: nat, k :| IsNext(m, t, pos, p, k);
    p
  }

  ghost function NextKey(m: Specials, t: Bytes, pos: nat): (k: Bytes)
    requires HasNext(m, t, pos)
    ensures IsNext(m, t, pos, NextPos(m, t, pos), k)
  {
    var k :| IsNext(m, t, pos, NextPos(m, t, pos), k);
    k
  }

  /** A special token with the gap before it. */
  ghost function Around(t: Bytes, pos: nat, p: nat, k: Bytes): seq<Piece>
    requires pos <= p <= |t|
  {
    if p > pos then [Gap(t[pos..p]), Special(k)] else [Special(k)]
  }

  /** The text from pos on, cut around the special tokens. */
  ghost function Pieces(m: Specials, t: Bytes, pos: nat): seq<Piece>
    requires pos <= |t|
    decreases |t| - pos
  {
    if HasNext(m, t, pos) then
      var p, k := NextPos(m, t, pos), NextKey(m, t, pos);
      Around(t, pos, p, k) + Pieces(m, t, p + |k|)
    else if pos < |t| then [Gap(t[pos..])]
    else []
  }

  lemma PiecesUnfold(m: Specials, t: Bytes, pos: nat) returns (p: nat, k: Bytes)
    requires pos <= |t| && HasNext(m, t, pos)
    ensures k != [] && pos <= p && Occurs(t, k, p)
    ensures Pieces(m, t, pos) == Around(t, pos, p, k) + Pieces(m, t, p + |k|)
  {
    p, k := NextPos(m, t, pos), NextKey(m, t, pos);
  }

  lemma {:induction false} PiecesSpell(m: Specials, t: Bytes, pos: nat)
    requires pos <= |t|
    ensures Spelled(Pieces(m, t, pos)) == t[pos..]
    decreases |t| - pos
  {
    if HasNext(m, t, pos) {
      var p, k := PiecesUnfold(m, t, pos);
      PiecesSpell(m, t, p + |k|);
      SpelledStep(t, pos, p, k, Pieces(m, t, pos), Pieces(m, t, p + |k|));
    } else {
      LastPiece(m, t, pos);
    }
  }

  lemma LastPiece(m: Specials, t: Bytes, pos: nat)
    requires pos <= |t| && !HasNext(m, t, pos)
    ensures Spelled(Pieces(m, t, pos)) == t[pos..]
  {
    FlatMapOne(PieceText(), Gap(t[pos..]));
  }

  lemma SpelledStep(t: Bytes, pos: nat, p: nat, k: Bytes, all: seq<Piece>, rest: seq<Piece>)
    requires pos <= p && Occurs(t, k, p)
    requires all == Around(t, pos, p, k) + rest && Spelled(rest) == t[p + |k|..]
    ensures Spelled(all) == t[pos..]
  {
    AroundText(t, pos, p, k);
    SuffixJoin(t, pos, p + |k|);
    SpelledParts(all, Around(t, pos, p, k), rest);
  }

  ghost function Spelled(ps: seq<Piece>): Bytes {
    FlatMap(PieceText(), ps)
  }

  lemma SpelledParts(all: seq<Piece>, a: seq<Piece>, b: seq<Piece>)
    requires all == a + b
    ensures Spelled(all) == Spelled(a) + Spelled(b)
  {
    FlatMapAppend(PieceText(), a, b);
  }

  /** The pieces concatenate back to the text. */
  lemma PiecesSpellText(m: Specials, t: Bytes, pos: nat)
    requires pos <= |t|
    ensures FlatMap(PieceText(), Pieces(m, t, pos)) == t[pos..]
  {
    PiecesSpell(m, t, pos);
  }

  lemma AroundText(t: Bytes, pos: nat, p: nat, k: Bytes)
    requires pos <= p && Occurs(t, k, p)
    ensures Spelled(Around(t, pos, p, k)) == t[pos..p + |k|]
  {
    FlatMapOne(PieceText(), Special(k));
    if p > pos {
      FlatMapOne(PieceText(), Gap(t[pos..p]));
      FlatMapParts(PieceText(), [Gap(t[pos..p])], [Special(k)], t[pos..p], t[p..p + |k|]);
      SliceJoin(t, pos, p, p + |k|);
      assert Around(t, pos, p, k) == [Gap(t[pos..p])] + [Special(k)];
    } else {
      assert Around(t, pos, p, k) == [Special(k)];
    }
  }

  // ---------------------------------------------------------------- ids

  datatype Ids = Failed | Ok(ids: seq<int>)

  function Add(a: Ids, b: Ids): Ids {
    if a.Ok? && b.Ok? then Ok(a.ids + b.ids) else Failed
  }

  /** enc is the mode's segment encoder, which may fail. */
  function PieceIds(m: Specials, enc: Bytes -> Ids, p: Piece): Ids {
    if p.Gap? then enc(p.text) else if p.key in m then Ok([m[p.key]]) else Failed
  }

  function AllIds(m: Specials, enc: Bytes -> Ids, ps: seq<Piece>): Ids {
    if ps == [] then Ok([]) else Add(PieceIds(m, enc, ps[0]), AllIds(m, enc, ps[1..]))
  }

  /** What the scan has to produce; it depends on the set of special tokens, not on their order. */
  ghost function Encoded(m: Specials, enc: Bytes -> Ids, t: Bytes, pos: nat): Ids
    requires pos <= |t|
  {
    AllIds(m, enc, Pieces(m, t, pos))
  }

  /** Without special tokens the whole text is one segment. */
  lemma {:induction false} NoSpecials(enc: Bytes -> Ids, t: Bytes)
    requires t != []
    ensures Encoded(map[], enc, t, 0) == enc(t)
  {
    var ps := [Gap(t)];
    assert t[0..] == t && Pieces(map[], t, 0) == ps && ps[1..] == [];
    assert AllIds(map[], enc, ps) == Add(enc(t), AllIds(map[], enc, ps[1..]));
    assert enc(t).Ok? ==> enc(t).ids + [] == enc(t).ids;
  }

  /** Of two special tokens that begin at the same place the longer one is taken whole: "<" and "<|"
      in "<|". */
  lemma {:induction false} LongerIsTaken(a: Byte, b: Byte, i: int, j: int, enc: Bytes -> Ids)
    ensures var m: Specials := map[[a] := i, [a, b] := j]; Encoded(m, enc, [a, b], 0) == Ok([j])
  {
    var m: Specials := map[[a] := i, [a, b] := j];
    var t := [a, b];
    assert t[0..0 + 2] == t;
    assert IsNext(m, t, 0, 0, t);
    EncodedStep(m, enc, t, 0, 0, t);
    forall p: nat, k | IsNext(m, t, 2, p, k)
      ensures false
    {
    }
    EncodedEnd(m, enc, t, 2);
  }

  lemma AddAssoc(a: Ids, b: Ids, c: Ids)
    ensures Add(Add(a, b), c) == Add(a, Add(b, c))
  {
    if a.Ok? && b.Ok? && c.Ok? {
      assert (a.ids + b.ids) + c.ids == a.ids + (b.ids + c.ids);
    }
  }

  /** One turn of the scan, in terms of ids. */
  lemma EncodedStep(m: Specials, enc: Bytes -> Ids, t: Bytes, pos: nat, p: nat, k: Bytes)
    requires pos <= |t| && IsNext(m, t, pos, p, k)
    ensures Encoded(m, enc, t, pos)
         == Add(if p > pos then enc(t[pos..p]) else Ok([]), Add(Ok([m[k]]), Encoded(m, enc, t, p + |k|)))
  {
    assert HasNext(m, t, pos);
    NextUnique(m, t, pos, p, k, NextPos(m, t, pos), NextKey(m, t, pos));
    var rest := Pieces(m, t, p + |k|);
    var after := AllIds(m, enc, [Special(k)] + rest);
    assert ([Special(k)] + rest)[1..] == rest;
    if p > pos {
      assert Pieces(m, t, pos) == [Gap(t[pos..p])] + ([Special(k)] + rest);
      assert ([Gap(t[pos..p])] + ([Special(k)] + rest))[1..] == [Special(k)] + rest;
    } else {
      assert Pieces(m, t, pos) == [Special(k)] + rest;
      assert after.Ok? ==> [] + after.ids == after.ids;
    }
  }

  lemma EncodedEnd(m: Specials, enc: Bytes -> Ids, t: Bytes, pos: nat)
    requires pos <= |t| && !HasNext(m, t, pos)
    ensures Encoded(m, enc, t, pos) == if pos < |t| then Add(enc(t[pos..]), Ok([])) else Ok([])
  {
    if pos < |t| {
      var ps := [Gap(t[pos..])];
      assert Pieces(m, t, pos) == ps && ps[1..] == [];
      assert AllIds(m, enc, ps) == Add(enc(t[pos..]), AllIds(m, enc, ps[1..]));
    }
  }

  // ---------------------------------------------------------------- the cached scan

  datatype Site = Site(key: Bytes, id: int, next: Found)

  /** A cached occurrence is right for every cursor up to it; behind the cursor it is stale. */
  ghost predicate CacheOk(t: Bytes, s: Site, pos: nat) {
    match s.next
    case Nowhere => s.key == [] || forall q: nat :: pos <= q ==> !Occurs(t, s.key, q)
    case At(n) => s.key != [] && Occurs(t, s.key, n) && forall q: nat :: pos <= q < n ==> !Occurs(t, s.key, q)
  }

  /** The sites list the special tokens, in any order. */
  ghost predicate Lists(m: Specials, s: seq<Site>) {
    && (forall i :: 0 <= i < |s| ==> s[i].key in m && m[s[i].key] == s[i].id)
    && (forall k :: k in m ==> exists i :: 0 <= i < |s| && s[i].key == k)
  }

  /** A better than b: earlier, or at the same place and longer. */
  predicate Better(a: Site, b: Site)
    requires a.next.At? && b.next.At?
  {
    a.next.pos < b.next.pos || (a.next.pos == b.next.pos && |a.key| > |b.key|)
  }

  /** The refreshed sites below n agree that `best` is the one to take. */
  ghost predicate BestBelow(s: seq<Site>, n: nat, pos: nat, best: int)
    requires n <= |s|
  {
    && -1 <= best < n
    && (forall i :: 0 <= i < n && s[i].next.At? ==> s[i].next.pos >= pos)
    && (best == -1 ==> forall i :: 0 <= i < n ==> s[i].next.Nowhere?)
    && (best >= 0 ==> s[best].next.At? && forall i :: 0 <= i < n && s[i].next.At? ==> !Better(s[i], s[best]))
  }

  /** The inner loop: refresh what is stale, keep the best. */
  method PickBest(t: Bytes, sites: array<Site>, pos: nat) returns (best: int)
    requires forall i :: 0 <= i < sites.Length ==> CacheOk(t, sites[i], pos)
    modifies sites
    ensures forall i :: 0 <= i < sites.Length ==> CacheOk(t, sites[i], pos)
    ensures forall i :: 0 <= i < sites.Length ==> sites[i].key == old(sites[i].key) && sites[i].id == old(sites[i].id)
    ensures BestBelow(sites[..], sites.Length, pos, best)
  {
    best := -1;
    for i := 0 to sites.Length
      invariant forall k :: 0 <= k < sites.Length ==> CacheOk(t, sites[k], pos)
      invariant forall k :: 0 <= k < sites.Length ==> sites[k].key == old(sites[k].key) && sites[k].id == old(sites[k].id)
      invariant BestBelow(sites[..], i, pos, best)
    {
      if sites[i].next.At? && sites[i].next.pos < pos {
        var next := FindSub(t, pos, sites[i].key);
        sites[i] := sites[i].(next := next);
      }
      if sites[i].next.At? {
        if best == -1 || Better(sites[i], sites[best]) {
          best := i;
        }
      }
    }
  }

  /** What PickBest chose is the next special token of the specification. */
  lemma BestIsNext(m: Specials, t: Bytes, s: seq<Site>, pos: nat, best: int)
    requires Lists(m, s) && (forall i :: 0 <= i < |s| ==> CacheOk(t, s[i], pos)) && BestBelow(s, |s|, pos, best)
    ensures best >= 0 ==> IsNext(m, t, pos, s[best].next.pos, s[best].key)
    ensures best == -1 ==> !HasNext(m, t, pos)
  {
    forall q: nat, j | j in m && j != [] && pos <= q && Occurs(t, j, q)
      ensures best >= 0 && (s[best].next.pos < q || (s[best].next.pos == q && |j| <= |s[best].key|))
    {
      var i :| 0 <= i < |s| && s[i].key == j;
      assert CacheOk(t, s[i], pos);
      assert s[i].next.At? && s[i].next.pos <= q;
      assert !Better(s[i], s[best]);
    }
  }

  ghost predicate SitesOk(m: Specials, t: Bytes, s: seq<Site>, pos: nat) {
    Lists(m, s) && forall i :: 0 <= i < |s| ==> CacheOk(t, s[i], pos)
  }

  /** A cache stays right as the cursor moves on. */
  lemma SitesLater(m: Specials, t: Bytes, s: seq<Site>, pos: nat, later: nat)
    requires SitesOk(m, t, s, pos) && pos <= later
    ensures SitesOk(m, t, s, later)
  {
  }

  lemma ListsSame(m: Specials, s: seq<Site>, r: seq<Site>)
    requires Lists(m, s) && |r| == |s| && forall i :: 0 <= i < |s| ==> r[i].key == s[i].key && r[i].id == s[i].id
    ensures Lists(m, r)
  {
    forall k | k in m
      ensures exists i :: 0 <= i < |r| && r[i].key == k
    {
      var i :| 0 <= i < |s| && s[i].key == k;
      assert r[i].key == k;
    }
  }

  method PickNext(m: Specials, t: Bytes, sites: array<Site>, pos: nat) returns (best: int)
    requires SitesOk(m, t, sites[..], pos)
    modifies sites
    ensures SitesOk(m, t, sites[..], pos) && -1 <= best < sites.Length
    ensures best >= 0 ==> sites[best].next.At? && IsNext(m, t, pos, sites[best].next.pos, sites[best].key)
    ensures best >= 0 ==> m[sites[best].key] == sites[best].id
    ensures best == -1 ==> !HasNext(m, t, pos)
  {
    ghost var before := sites[..];
    best := PickBest(t, sites, pos);
    ListsSame(m, before, sites[..]);
    BestIsNext(m, t, sites[..], pos, best);
  }

  function GapIds(enc: Bytes -> Ids, t: Bytes, pos: nat, p: nat): Ids
    requires pos <= p <= |t|
  {
    if p > pos then enc(t[pos..p]) else Ok([])
  }

  /** Appending a gap and a special token to the ids so far is one turn of the specification. */
  lemma AppendStep(m: Specials, enc: Bytes -> Ids, t: Bytes, pos: nat, p: nat, k: Bytes, out: seq<int>, goal: Ids)
    requires pos <= |t| && IsNext(m, t, pos, p, k) && Add(Ok(out), Encoded(m, enc, t, pos)) == goal
    ensures GapIds(enc, t, pos, p).Failed? ==> goal.Failed?
    ensures GapIds(enc, t, pos, p).Ok? ==>
              Add(Ok(out + GapIds(enc, t, pos, p).ids + [m[k]]), Encoded(m, enc, t, p + |k|)) == goal
  {
    EncodedStep(m, enc, t, pos, p, k);
    var g, e := GapIds(enc, t, pos, p), Encoded(m, enc, t, p + |k|);
    AddAssoc(Ok(out), g, Add(Ok([m[k]]), e));
    AddAssoc(Add(Ok(out), g), Ok([m[k]]), e);
  }

  lemma {:induction false} TakeStep(m: Specials, enc: Bytes -> Ids, t: Bytes, s: seq<Site>, pos: nat, p: nat, k: Bytes, out: seq<int>, goal: Ids)
    requires pos <= |t| && SitesOk(m, t, s, pos)
    requires IsNext(m, t, pos, p, k) && Add(Ok(out), Encoded(m, enc, t, pos)) == goal
    ensures pos < p + |k| <= |t| && SitesOk(m, t, s, p + |k|)
    ensures var g := GapIds(enc, t, pos, p);
            if g.Ok? then Add(Ok(out + g.ids + [m[k]]), Encoded(m, enc, t, p + |k|)) == goal else goal.Failed?
  {
    AppendStep(m, enc, t, pos, p, k, out, goal);
    SitesLater(m, t, s, pos, p + |k|);
  }

  /** The special branch of encode_alloc_impl.  `entries` is the special_tokens map in whatever order
      its slots are visited. */
  method EncodeWithSpecials(m: Specials, entries: seq<(Bytes, int)>, parseSpecial: bool, enc: Bytes -> Ids, t: Bytes)
    returns (r: Ids)
    requires forall i :: 0 <= i < |entries| ==> entries[i].0 in m && m[entries[i].0] == entries[i].1
    requires forall k :: k in m ==> exists i :: 0 <= i < |entries| && entries[i].0 == k
    ensures r == Encoded(if parseSpecial then m else map[], enc, t, 0)
  {
    if parseSpecial {
      var sites := Probe(m, entries, t);
      r := Scan(m, sites, enc, t);
    } else {
      var sites := new Site[0];
      r := Scan(map[], sites, enc, t);
    }
  }

  /** Build the sites with their first occurrences. */
  method Probe(m: Specials, entries: seq<(Bytes, int)>, t: Bytes) returns (sites: array<Site>)
    requires forall i :: 0 <= i < |entries| ==> entries[i].0 in m && m[entries[i].0] == entries[i].1
    requires forall k :: k in m ==> exists i :: 0 <= i < |entries| && entries[i].0 == k
    ensures fresh(sites) && SitesOk(m, t, sites[..], 0)
  {
    sites := new Site[|entries|](_ => Site([], 0, Nowhere));
    for i := 0 to |entries|
      invariant forall k :: 0 <= k < i ==> sites[k].key == entries[k].0 && sites[k].id == entries[k].1
      invariant forall k :: 0 <= k < i ==> CacheOk(t, sites[k], 0)
    {
      var next := FindSub(t, 0, entries[i].0);
      sites[i] := Site(entries[i].0, entries[i].1, next);
    }
    forall k | k in m
      ensures exists i :: 0 <= i < |sites[..]| && sites[..][i].key == k
    {
      var i :| 0 <= i < |entries| && entries[i].0 == k;
      assert sites[..][i].key == k;
    }
  }

  /** The scan loop; it ends because every special token it takes is non-empty. */
  method Scan(m: Specials, sites: array<Site>, enc: Bytes -> Ids, t: Bytes) returns (r: Ids)
    requires SitesOk(m, t, sites[..], 0)
    modifies sites
    ensures r == Encoded(m, enc, t, 0)
  {
    var out: seq<int> := [];
    var pos := 0;
    ghost var goal := Encoded(m, enc, t, 0);
    assert goal.Ok? ==> [] + goal.ids == goal.ids;
    while pos < |t|
      invariant 0 <= pos <= |t| && SitesOk(m, t, sites[..], pos)
      invariant Add(Ok(out), Encoded(m, enc, t, pos)) == goal
      decreases |t| - pos
    {
      var turn := Turn(m, sites, enc, t, pos, out, goal);
      match turn {
        case Stop => break;
        case Error => return Failed;
        case Took(p, o) => pos, out := p, o;
      }
    }
    r := Finish(m, enc, t, pos, out, goal);
  }

  datatype Outcome = Stop | Error | Took(pos: nat, out: seq<int>)

  /** One turn: take the next special token, if there is one, and the gap before it. */
  method Turn(m: Specials, sites: array<Site>, enc: Bytes -> Ids, t: Bytes, pos: nat, out: seq<int>, ghost goal: Ids)
    returns (r: Outcome)
    requires pos <= |t| && SitesOk(m, t, sites[..], pos) && Add(Ok(out), Encoded(m, enc, t, pos)) == goal
    modifies sites
    ensures r.Stop? ==> !HasNext(m, t, pos)
    ensures r.Error? ==> goal.Failed?
    ensures r.Took? ==> pos < r.pos <= |t| && SitesOk(m, t, sites[..], r.pos)
                        && Add(Ok(r.out), Encoded(m, enc, t, r.pos)) == goal
  {
    var best := PickNext(m, t, sites, pos);
    if best == -1 {
      return Stop;
    }
    var next, key, id := sites[best].next.pos, sites[best].key, sites[best].id;
    TakeStep(m, enc, t, sites[..], pos, next, key, out, goal);
    var seg := GapIds(enc, t, pos, next);
    if seg.Failed? {
      return Error;
    }
    return Took(next + |key|, out + seg.ids + [id]);
  }

  /** The text after the last special token. */
  method Finish(m: Specials, enc: Bytes -> Ids, t: Bytes, pos: nat, out: seq<int>, ghost goal: Ids) returns (r: Ids)
    requires pos <= |t| && (pos < |t| ==> !HasNext(m, t, pos))
    requires Add(Ok(out), Encoded(m, enc, t, pos)) == goal
    ensures r == goal
  {
    if pos == |t| {
      assert !HasNext(m, t, pos);
    }
    EncodedEnd(m, enc, t, pos);
    if pos < |t| {
      var seg := enc(t[pos..]);
      if seg.Failed? {
        return Failed;
      }
      assert out + (seg.ids + []) == out + seg.ids;
      return Ok(out + seg.ids);
    }
    assert out + [] == out;
    return Ok(out);
  }
}
