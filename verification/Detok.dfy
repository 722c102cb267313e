/** The streaming detokenizer of detok.c: feeding ids one at a time and flushing gives the bytes of
    the batch decoder, cut only between characters. */
module Detok {
  import opened SeqOps
  import opened Utf8
  import opened Tokenizer
  import ByteLevel

  /** utf8_char_len: what the lead byte announces; anything else passes through as one byte. */
  function CharLen(lead: Byte): (n: nat)
    ensures 1 <= n <= 4
  {
    if lead < 0x80 then 1
    else if lead / 32 == 6 then 2
    else if lead / 16 == 14 then 3
    else if lead / 8 == 30 then 4
    else 1
  }

  /** A lead byte announces the length of the well-formed units it begins; a byte that begins none
      stands alone, but for C0, C1 and F5 to F7, which announce what the grammar would give them. */
  lemma {:induction false} AnnouncedLength(t: Bytes, i: nat)
    requires i < |t|
    ensures WellFormedAt(t, i) ==> CodepointAt(t, i).len == CharLen(t[i])
    ensures Tail(t[i]) || t[i] >= 0xF8 ==> CharLen(t[i]) == 1
    ensures 0xC0 <= t[i] <= 0xC1 ==> CharLen(t[i]) == 2
    ensures 0xF5 <= t[i] <= 0xF7 ==> CharLen(t[i]) == 4
  {
    if WellFormedAt(t, i) && t[i] >= 0x80 {
      var n := CodepointAt(t, i).len;
      assert n > 1;
    }
  }

  /** How many bytes of s are announced completely. */
  function Cut(s: Bytes): (n: nat)
    ensures n <= |s|
  {
    if s == [] || CharLen(s[0]) > |s| then 0 else CharLen(s[0]) + Cut(s[CharLen(s[0])..])
  }

  /** The rest is empty or shorter than its first byte announces. */
  lemma {:induction false} CutStops(s: Bytes)
    ensures Cut(s) < |s| ==> CharLen(s[Cut(s)]) > |s| - Cut(s)
    decreases |s|
  {
    if s != [] && CharLen(s[0]) <= |s| {
      CutStops(s[CharLen(s[0])..]);
    }
  }

  /** utf8_complete_prefix. */
  method CompletePrefix(s: Bytes) returns (i: nat)
    ensures i == Cut(s)
  {
    i := 0;
    while i < |s|
      invariant 0 <= i <= |s| && i + Cut(s[i..]) == Cut(s)
    {
      var cl := CharLen(s[i]);
      assert s[i..][0] == s[i];
      if i + cl > |s| {
        break;
      }
      assert s[i..][cl..] == s[i + cl..];
      i := i + cl;
    }
  }

  /** One feed on a held-back buffer: the text emitted. */
  function Emitted(held: Bytes, piece: Bytes): Bytes {
    var all := held + ByteLevel.CStr(piece);
    all[..Cut(all)]
  }

  /** What stays behind: nothing, or fewer bytes than its first one announces, so at most three; and
      what was there is all emitted or kept. */
  function Kept(held: Bytes, piece: Bytes): (r: Bytes)
    ensures r == [] || |r| < CharLen(r[0]) <= 4
    ensures Emitted(held, piece) + r == held + ByteLevel.CStr(piece)
  {
    var all := held + ByteLevel.CStr(piece);
    CutStops(all);
    all[Cut(all)..]
  }

  class Detokenizer {
    const tok: Tokenizer
    var buf: Bytes

    constructor (tok: Tokenizer)
      ensures this.tok == tok && buf == []
    {
      this.tok := tok;
      buf := [];
    }

    /** detok_feed for a byte-level tokenizer. */
    method Feed(id: int) returns (out: Bytes)
      modifies this`buf
      ensures out == Emitted(old(buf), ByteLevel.DecodeId(tok, id))
      ensures buf == Kept(old(buf), ByteLevel.DecodeId(tok, id))
    {
      var s := ByteLevel.Decode(tok, [id]);
      FlatMapOne(ByteLevel.IdBytes(tok), id);
      var piece := ByteLevel.CStr(s);
      if |piece| > 0 {
        buf := buf + piece;
      } else {
        assert buf + piece == buf;
      }
      var boundary := CompletePrefix(buf);
      out := buf[..boundary];
      buf := buf[boundary..];
    }

    /** detok_flush. */
    method Flush() returns (out: Bytes)
      modifies this`buf
      ensures out == old(buf) && buf == []
    {
      out := buf;
      buf := [];
    }
  }

  // ---------------------------------------------------------------- whole streams

  /** The emitted pieces for a list of decoded tokens, the flush last. */
  function Stream(held: Bytes, pieces: seq<Bytes>): (out: seq<Bytes>)
    ensures |out| == |pieces| + 1
    decreases |pieces|
  {
    if pieces == [] then [held]
    else [Emitted(held, pieces[0])] + Stream(Kept(held, pieces[0]), pieces[1..])
  }

  lemma StreamStep(outs: seq<Bytes>, held: Bytes, p: seq<Bytes>, i: nat)
    requires i < |p|
    ensures outs + Stream(held, p[i..]) == (outs + [Emitted(held, p[i])]) + Stream(Kept(held, p[i]), p[i + 1..])
  {
    assert p[i..][1..] == p[i + 1..];
    Assoc(outs, [Emitted(held, p[i])], Stream(Kept(held, p[i]), p[i + 1..]));
  }

  /** A client that feeds every id and flushes sees exactly this stream. */
  method FeedAll(tok: Tokenizer, ids: seq<int>) returns (outs: seq<Bytes>)
    ensures outs == Stream([], Pieces(tok, ids))
  {
    var d := new Detokenizer(tok);
    outs := [];
    ghost var p := Pieces(tok, ids);
    assert p[0..] == p;
    for i := 0 to |ids|
      invariant d.tok == tok && outs + Stream(d.buf, p[i..]) == Stream([], p)
    {
      ghost var held := d.buf;
      var out := d.Feed(ids[i]);
      StreamStep(outs, held, p, i);
      outs := outs + [out];
    }
    var last := d.Flush();
    outs := outs + [last];
  }

  function CStrFn(): Bytes -> Bytes {
    (s: Bytes) => ByteLevel.CStr(s)
  }

  /** Nothing is lost, duplicated or reordered, whatever the pieces are. */
  lemma {:induction false} StreamConserves(held: Bytes, pieces: seq<Bytes>)
    ensures Flatten(Stream(held, pieces)) == held + FlatMap(CStrFn(), pieces)
    decreases |pieces|
  {
    if pieces == [] {
      assert Flatten([held]) == held + [] == held;
    } else {
      var e, k := Emitted(held, pieces[0]), Kept(held, pieces[0]);
      StreamConserves(k, pieces[1..]);
      FlatMapCons(CStrFn(), pieces);
      assert Stream(held, pieces)[1..] == Stream(k, pieces[1..]);
      Regroup(e, k, held, ByteLevel.CStr(pieces[0]), FlatMap(CStrFn(), pieces[1..]));
    }
  }

  lemma Regroup(e: Bytes, k: Bytes, held: Bytes, piece: Bytes, tail: Bytes)
    requires e + k == held + piece
    ensures e + (k + tail) == held + (piece + tail)
  {
    assert e + (k + tail) == (e + k) + tail;
  }

  ghost predicate NulFree(s: Bytes) {
    forall k :: 0 <= k < |s| ==> s[k] != 0
  }

  lemma {:induction false} CutAtNul(pieces: seq<Bytes>)
    ensures |FlatMap(CStrFn(), pieces)| <= |FlatMap(Same(), pieces)|
    ensures FlatMap(CStrFn(), pieces) == FlatMap(Same(), pieces) <==> forall k :: 0 <= k < |pieces| ==> NulFree(pieces[k])
  {
    if pieces != [] {
      var init, last := pieces[..|pieces| - 1], pieces[|pieces| - 1];
      CutAtNul(init);
      var a, b, x, y := FlatMap(CStrFn(), init), FlatMap(Same(), init), ByteLevel.CStr(last), last;
      assert FlatMap(CStrFn(), pieces) == a + x && FlatMap(Same(), pieces) == b + y;
      assert x <= y;
      if a + x == b + y {
        assert |a| == |b|;
        assert a == (a + x)[..|a|] == (b + y)[..|b|] == b;
        assert x == (a + x)[|a|..] == (b + y)[|b|..] == y;
      }
      assert a + x == b + y <==> a == b && x == y;
    }
  }

  function Pieces(tok: Tokenizer, ids: seq<int>): (p: seq<Bytes>)
    ensures |p| == |ids| && forall k :: 0 <= k < |ids| ==> p[k] == ByteLevel.DecodeId(tok, ids[k])
  {
    seq(|ids|, k requires 0 <= k < |ids| => ByteLevel.DecodeId(tok, ids[k]))
  }

  lemma {:induction false} PiecesAreBatch(tok: Tokenizer, ids: seq<int>)
    ensures FlatMap(Same(), Pieces(tok, ids)) == ByteLevel.DecodeIds(tok, ids)
  {
    if ids != [] {
      PiecesAreBatch(tok, ids[..|ids| - 1]);
      assert Pieces(tok, ids)[..|ids| - 1] == Pieces(tok, ids[..|ids| - 1]);
    }
  }

  /** The stream equals the batch decode exactly when no token decodes to a NUL byte: the feed reads
      each decoded token as a C string. */
  lemma {:induction false} StreamEqualsBatch(tok: Tokenizer, ids: seq<int>)
    ensures Flatten(Stream([], Pieces(tok, ids))) == ByteLevel.DecodeIds(tok, ids)
       <==> forall k :: 0 <= k < |ids| ==> NulFree(ByteLevel.DecodeId(tok, ids[k]))
  {
    var p := Pieces(tok, ids);
    StreamConserves([], p);
    CutAtNul(p);
    PiecesAreBatch(tok, ids);
    assert [] + FlatMap(CStrFn(), p) == FlatMap(CStrFn(), p);
    assert (forall k :: 0 <= k < |p| ==> NulFree(p[k])) <==>
           (forall k :: 0 <= k < |ids| ==> NulFree(ByteLevel.DecodeId(tok, ids[k])));
  }

  /** A token that spells byte 0, as U+0100, is such a token: it decodes to the NUL, and a stream of it
      is empty. */
  lemma NulIsLost()
    ensures ByteLevel.DecodeText([0xC4, 0x80]) == [0] && Stream([], [[0]]) == [[], []]
  {
    var s: Bytes := [0xC4, 0x80];
    assert CodepointAt(s, 0) == CpInfo(0x100, 2);
    assert CharsFrom(s, 0) == [s[0..2]] + CharsFrom(s, 2) && s[0..2] == s && CharsFrom(s, 2) == [];
    FlatMapOne(ByteLevel.UnitFn(), s);
    var piece: Bytes := [0];
    assert ByteLevel.CStr(piece) == [] && [] + ByteLevel.CStr(piece) == [];
    assert Emitted([], piece) == [] && Kept([], piece) == [];
  }

  // ---------------------------------------------------------------- characters stay whole

  /** s is a sequence of well-formed UTF-8 units. */
  ghost predicate WellFormed(s: Bytes)
    decreases |s|
  {
    s == [] || (WellFormedAt(s, 0) && WellFormed(s[CodepointAt(s, 0).len..]))
  }

  /** u is exactly one well-formed unit. */
  ghost predicate OneUnit(u: Bytes) {
    WellFormedAt(u, 0) && CodepointAt(u, 0).len == |u|
  }

  /** The first unit of well-formed text is as long as its lead byte says. */
  lemma FirstUnit(t: Bytes)
    requires WellFormed(t) && t != []
    ensures CharLen(t[0]) <= |t| && OneUnit(t[..CharLen(t[0])]) && WellFormed(t[CharLen(t[0])..])
  {
    var n := CodepointAt(t, 0).len;
    assert n == CharLen(t[0]);
    var u := t[..n];
    assert u[0] == t[0] && (n > 1 ==> u[1] == t[1]) && (n > 2 ==> u[2] == t[2]) && (n > 3 ==> u[3] == t[3]);
  }

  lemma AddUnit(u: Bytes, s: Bytes)
    requires OneUnit(u) && WellFormed(s)
    ensures WellFormed(u + s)
  {
    var t, n := u + s, |u|;
    assert t[0] == u[0] && (n > 1 ==> t[1] == u[1]) && (n > 2 ==> t[2] == u[2]) && (n > 3 ==> t[3] == u[3]);
    assert CodepointAt(t, 0).len == n;
    assert t[n..] == s;
  }

  /** Cutting a prefix of well-formed text leaves well-formed text on both sides. */
  lemma {:induction false} CutKeepsWhole(b: Bytes, c: Bytes)
    requires WellFormed(b + c)
    ensures WellFormed(b[..Cut(b)]) && WellFormed(b[Cut(b)..] + c)
    decreases |b|
  {
    if b == [] || CharLen(b[0]) > |b| {
      assert b[..0] == [] && b[0..] == b;
    } else {
      var n := CharLen(b[0]);
      FirstUnit(b + c);
      SplitPrefix(b, c, n);
      CutKeepsWhole(b[n..], c);
      AddUnit(b[..n], b[n..][..Cut(b[n..])]);
      SplitCut(b, n, Cut(b[n..]));
    }
  }

  lemma SplitPrefix(b: Bytes, c: Bytes, n: nat)
    requires n <= |b|
    ensures (b + c)[..n] == b[..n] && (b + c)[n..] == b[n..] + c
  {
  }

  lemma SplitCut(b: Bytes, n: nat, e: nat)
    requires n + e <= |b|
    ensures b[..n + e] == b[..n] + b[n..][..e] && b[n + e..] == b[n..][e..]
  {
  }

  lemma {:induction false} FeedKeepsWhole(held: Bytes, piece: Bytes, tail: Bytes)
    requires WellFormed(held + (ByteLevel.CStr(piece) + tail))
    ensures WellFormed(Emitted(held, piece)) && WellFormed(Kept(held, piece) + tail)
  {
    Assoc(held, ByteLevel.CStr(piece), tail);
    CutKeepsWhole(held + ByteLevel.CStr(piece), tail);
  }

  /** If the whole text is well-formed UTF-8, so is every piece that is emitted. */
  lemma {:induction false} PiecesWellFormed(held: Bytes, pieces: seq<Bytes>, k: nat)
    requires WellFormed(held + FlatMap(CStrFn(), pieces)) && k <= |pieces|
    ensures WellFormed(Stream(held, pieces)[k])
    decreases |pieces|
  {
    if pieces == [] {
      assert held + [] == held;
    } else {
      FlatMapCons(CStrFn(), pieces);
      FeedKeepsWhole(held, pieces[0], FlatMap(CStrFn(), pieces[1..]));
      if k > 0 {
        PiecesWellFormed(Kept(held, pieces[0]), pieces[1..], k - 1);
      }
    }
  }
}
