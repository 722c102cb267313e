/** The loaded tokenizer (struct tokenizer) as far as encoding and decoding read it, and the
    mapping of one surviving symbol to vocabulary ids (bpe_emit_symbol). */
module Tokenizer {
  import opened Utf8
  import opened BpeNaive
  import opened SeqOps

  datatype Kind = ByteLevelBpe | WordPiece | SentencePieceBpe

  /** fallback[b] is byte_fallback_ids[b]; a negative number there or in unkId means "none".
      tokens is id_to_token, undefined where the C array holds NULL. */
  datatype Tokenizer = Tokenizer(
    kind: Kind,
    vocab: map<Bytes, nat>,
    merges: Ranks,
    tokens: map<int, Bytes>,
    fallback: Byte -> int,
    unkId: int)

  function EmitByte(tok: Tokenizer, b: Byte): (ids: seq<int>)
    ensures |ids| <= 1
  {
    if tok.fallback(b) >= 0 then [tok.fallback(b)]
    else if tok.unkId >= 0 then [tok.unkId]
    else []
  }

  function ByteIds(tok: Tokenizer): Byte -> seq<int> {
    (b: Byte) => EmitByte(tok, b)
  }

  function EmitSymbol(tok: Tokenizer, sym: Bytes): seq<int> {
    if sym in tok.vocab then [tok.vocab[sym]] else FlatMap(ByteIds(tok), sym)
  }

  function SymbolIds(tok: Tokenizer): Bytes -> seq<int> {
    (sym: Bytes) => EmitSymbol(tok, sym)
  }

  function EmitAll(tok: Tokenizer, syms: seq<Bytes>): seq<int> {
    FlatMap(SymbolIds(tok), syms)
  }

  /** A symbol gives no more ids than it has bytes. */
  lemma EmitSymbolBound(tok: Tokenizer, sym: Bytes)
    requires sym != []
    ensures |EmitSymbol(tok, sym)| <= |sym|
  {
    FlatMapBound(ByteIds(tok), sym, 1);
  }

  /** A symbol outside the vocabulary gives one id for each of its bytes, the fallback of that byte or
      else unk; with neither it gives nothing. */
  lemma {:induction false} UnknownSymbol(tok: Tokenizer, sym: Bytes)
    requires sym !in tok.vocab
    ensures tok.unkId >= 0 ==> |EmitSymbol(tok, sym)| == |sym| && forall k :: 0 <= k < |sym| ==>
              EmitSymbol(tok, sym)[k] == if tok.fallback(sym[k]) >= 0 then tok.fallback(sym[k]) else tok.unkId
    ensures tok.unkId < 0 && (forall b: Byte :: tok.fallback(b) < 0) ==> EmitSymbol(tok, sym) == []
  {
    UnknownBytes(tok, sym);
  }

  lemma {:induction false} UnknownBytes(tok: Tokenizer, s: Bytes)
    ensures var ids := FlatMap(ByteIds(tok), s);
            tok.unkId >= 0 ==> |ids| == |s| && forall k :: 0 <= k < |s| ==>
              ids[k] == if tok.fallback(s[k]) >= 0 then tok.fallback(s[k]) else tok.unkId
    ensures tok.unkId < 0 && (forall b: Byte :: tok.fallback(b) < 0) ==> FlatMap(ByteIds(tok), s) == []
  {
    if s != [] {
      UnknownBytes(tok, s[..|s| - 1]);
    }
  }

  /** What bpe_merge is for: the ids of the symbols the naive procedure ends with. */
  function BpeIds(tok: Tokenizer, text: Bytes): seq<int> {
    EmitAll(tok, Naive(tok.merges, CharsFrom(text, 0)))
  }

  /** No more ids than bytes, the bound every id buffer is reserved by. */
  lemma {:induction false} EmitAllBound(tok: Tokenizer, syms: seq<Bytes>)
    requires forall k :: 0 <= k < |syms| ==> |syms[k]| > 0
    ensures |EmitAll(tok, syms)| <= |Flatten(syms)|
  {
    if syms != [] {
      var init, last := syms[..|syms| - 1], syms[|syms| - 1];
      EmitAllBound(tok, init);
      EmitSymbolBound(tok, last);
      assert syms == init + [last];
      FlattenAppend(init, [last]);
      assert Flatten([last]) == last;
    }
  }

  /** The same bound for one word, from its bytes. */
  lemma BpeIdsBound(tok: Tokenizer, text: Bytes)
    ensures |BpeIds(tok, text)| <= |text|
  {
    var chars := CharsFrom(text, 0);
    var syms := Naive(tok.merges, chars);
    NaiveNonEmpty(tok.merges, chars);
    EmitAllBound(tok, syms);
    NaiveKeepsText(tok.merges, chars);
    FlattenChars(text, 0);
  }

  lemma {:induction false} NaiveNonEmpty(m: Ranks, s: seq<Bytes>)
    requires forall k :: 0 <= k < |s| ==> |s[k]| > 0
    ensures forall k :: 0 <= k < |Naive(m, s)| ==> |Naive(m, s)[k]| > 0
    decreases |s|
  {
    match Scan(m, s, 0)
    case NoPair =>
    case Pair(i) =>
      NaiveNonEmpty(m, MergeAt(s, i));
  }
}
