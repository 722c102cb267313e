/** The public encoder for byte-level and SentencePiece tokenizers, special tokens included: decoding
    its ids gives the text back. */
module EncodeAlloc {
  import opened SeqOps
  import opened Utf8
  import opened Tokenizer
  import opened SpecialScan
  import B = ByteLevel
  import P = Pretokenize
  import S = SentencePiece
  import M = BpeMerge

  /** encode_segment for a byte-level tokenizer: fails only on segments beyond the size limit. */
  ghost function SegmentIds(u: P.Classes, tok: Tokenizer, s: Bytes): Ids
    requires P.NumbersApart(u)
  {
    if 2 * |s| > B.UINT32_MAX / 3 then Failed else Ok(B.WordsIds(tok, B.Words(u, s)))
  }

  /** enc behaves as encode_segment. */
  ghost predicate IsSegmentEncoder(u: P.Classes, tok: Tokenizer, enc: Bytes -> Ids)
    requires P.NumbersApart(u)
  {
    forall s: Bytes :: enc(s) == SegmentIds(u, tok, s)
  }

  /** Every special token decodes to its own spelling. */
  ghost predicate Rendered(tok: Tokenizer, m: Specials) {
    forall k :: k in m ==> B.DecodeId(tok, m[k]) == k
  }

  lemma {:induction false} PiecesDecode(u: P.Classes, tok: Tokenizer, m: Specials, enc: Bytes -> Ids, ps: seq<Piece>)
    requires P.NumbersApart(u) && B.Complete(tok) && IsSegmentEncoder(u, tok, enc) && Rendered(tok, m)
    ensures var r := AllIds(m, enc, ps); r.Ok? ==> B.DecodeIds(tok, r.ids) == FlatMap(PieceText(), ps)
  {
    if ps != [] && AllIds(m, enc, ps).Ok? {
      PiecesDecode(u, tok, m, enc, ps[1..]);
      var a, b := PieceIds(m, enc, ps[0]).ids, AllIds(m, enc, ps[1..]).ids;
      FlatMapAppend(B.IdBytes(tok), a, b);
      FlatMapCons(PieceText(), ps);
      PieceDecodes(u, tok, m, enc, ps[0]);
    }
  }

  lemma PieceDecodes(u: P.Classes, tok: Tokenizer, m: Specials, enc: Bytes -> Ids, p: Piece)
    requires P.NumbersApart(u) && B.Complete(tok) && IsSegmentEncoder(u, tok, enc) && Rendered(tok, m)
    requires PieceIds(m, enc, p).Ok?
    ensures B.DecodeIds(tok, PieceIds(m, enc, p).ids) == PieceText()(p)
  {
    match p
    case Gap(s) =>
      assert enc(s) == SegmentIds(u, tok, s);
      B.RoundTrip(u, tok, s);
    case Special(k) =>
      FlatMapOne(B.IdBytes(tok), m[k]);
  }

  // ---------------------------------------------------------------- the whole encoder

  /** The count that is returned must fit an int. */
  function Counted(r: Ids): Ids {
    if r.Ok? && |r.ids| > M.INT32_MAX then Failed else r
  }

  /** encode_alloc_impl for the two modes with special tokens. */
  method Encode(m: Specials, entries: seq<(Bytes, int)>, parseSpecial: bool, enc: Bytes -> Ids, t: Bytes) returns (r: Ids)
    requires forall i :: 0 <= i < |entries| ==> entries[i].0 in m && m[entries[i].0] == entries[i].1
    requires forall k :: k in m ==> exists i :: 0 <= i < |entries| && entries[i].0 == k
    ensures r == Counted(Encoded(if parseSpecial then m else map[], enc, t, 0))
    ensures r.Ok? <==> var all := Encoded(if parseSpecial then m else map[], enc, t, 0); all.Ok? && |all.ids| <= 0x7FFF_FFFF
  {
    r := EncodeWithSpecials(m, entries, parseSpecial, enc, t);
    if r.Ok? && |r.ids| > M.INT32_MAX {
      r := Failed;
    }
  }

  /** Byte-level, special tokens parsed: for every text that is accepted, the buffer that decoding fills
      holds the text, and the C string returned is the text exactly when it has no NUL byte. */
  lemma {:induction false} FullRoundTrip(u: P.Classes, tok: Tokenizer, m: Specials, enc: Bytes -> Ids, t: Bytes)
    requires P.NumbersApart(u) && B.Complete(tok) && IsSegmentEncoder(u, tok, enc) && Rendered(tok, m)
    requires Counted(Encoded(m, enc, t, 0)).Ok?
    ensures var out := B.DecodeIds(tok, Encoded(m, enc, t, 0).ids);
            out == t && (B.CStr(out) == t <==> forall k :: 0 <= k < |t| ==> t[k] != 0)
  {
    PiecesDecode(u, tok, m, enc, Pieces(m, t, 0));
    PiecesSpellText(m, t, 0);
    assert t[0..] == t;
  }

  // ---------------------------------------------------------------- SentencePiece

  /** encode_segment for a SentencePiece tokenizer. */
  function SpSegmentIds(tok: Tokenizer, s: Bytes): Ids {
    if 3 * |s| > B.UINT32_MAX / 3 then Failed else Ok(S.SpIds(tok, s))
  }

  ghost predicate IsSpSegmentEncoder(tok: Tokenizer, enc: Bytes -> Ids) {
    forall s: Bytes :: enc(s) == SpSegmentIds(tok, s)
  }

  /** Every special token comes out of the decoder's first pass as its own spelling. */
  ghost predicate SpRendered(tok: Tokenizer, m: Specials) {
    forall k :: k in m ==> S.SpIdBytes(tok, m[k]) == k
  }

  lemma SpPiece(tok: Tokenizer, m: Specials, enc: Bytes -> Ids, p: Piece)
    requires S.SpComplete(tok) && IsSpSegmentEncoder(tok, enc) && SpRendered(tok, m)
    requires PieceIds(m, enc, p).Ok? && S.NulFree(PieceText()(p))
    ensures S.PartlyMarked(FlatMap(S.SpIdFn(tok), PieceIds(m, enc, p).ids), PieceText()(p))
  {
    match p
    case Gap(s) =>
      assert enc(s) == SpSegmentIds(tok, s);
      S.MarkSpacesNulFree(s);
      S.RawRoundTrip(tok, S.MarkSpaces(s));
      S.AllMarked(s);
    case Special(k) =>
      FlatMapOne(S.SpIdFn(tok), m[k]);
      S.NoneMarked(k);
  }

  lemma {:induction false} SpPieces(tok: Tokenizer, m: Specials, enc: Bytes -> Ids, ps: seq<Piece>)
    requires S.SpComplete(tok) && IsSpSegmentEncoder(tok, enc) && SpRendered(tok, m)
    requires AllIds(m, enc, ps).Ok? && S.NulFree(FlatMap(PieceText(), ps))
    ensures S.PartlyMarked(FlatMap(S.SpIdFn(tok), AllIds(m, enc, ps).ids), FlatMap(PieceText(), ps))
  {
    if ps != [] {
      var x, rest := PieceText()(ps[0]), FlatMap(PieceText(), ps[1..]);
      FlatMapCons(PieceText(), ps);
      NulFreeParts(x, rest);
      SpPiece(tok, m, enc, ps[0]);
      SpPieces(tok, m, enc, ps[1..]);
      var a, b := PieceIds(m, enc, ps[0]).ids, AllIds(m, enc, ps[1..]).ids;
      FlatMapAppend(S.SpIdFn(tok), a, b);
      S.PartlyAppend(FlatMap(S.SpIdFn(tok), a), x, FlatMap(S.SpIdFn(tok), b), rest);
    }
  }

  lemma NulFreeParts(a: Bytes, b: Bytes)
    requires S.NulFree(a + b)
    ensures S.NulFree(a) && S.NulFree(b)
  {
    assert forall k :: 0 <= k < |a| ==> (a + b)[k] == a[k];
    assert forall k :: 0 <= k < |b| ==> (a + b)[|a| + k] == b[k];
  }

  /** SentencePiece, special tokens parsed: the C string returned is the text exactly when it has no NUL
      byte and no U+2581. */
  lemma {:induction false} SpFullRoundTrip(tok: Tokenizer, m: Specials, enc: Bytes -> Ids, t: Bytes)
    requires S.SpComplete(tok) && IsSpSegmentEncoder(tok, enc) && SpRendered(tok, m)
    requires Counted(Encoded(m, enc, t, 0)).Ok?
    ensures B.CStr(S.SpDecoded(tok, Encoded(m, enc, t, 0).ids, false)) == t <==> S.NulFree(t) && S.NoMark(t)
  {
    var raw := FlatMap(S.SpIdFn(tok), Encoded(m, enc, t, 0).ids);
    PiecesSpellText(m, t, 0);
    assert t[0..] == t;
    if S.NulFree(t) && S.NoMark(t) {
      SpPieces(tok, m, enc, Pieces(m, t, 0));
      S.UnmarkPartly(raw, t);
    } else {
      S.CStrNulFree(S.Unmark(raw));
      S.UnmarkLeavesNone(raw);
      S.PrefixNoMark(S.Unmark(raw), B.CStr(S.Unmark(raw)));
    }
  }
}
