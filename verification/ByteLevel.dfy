/** Byte-level BPE: encode_byte_level, decode_byte_level, and the round trip between them. */
module ByteLevel {
  import opened Utf8
  import opened BpeNaive
  import opened Tokenizer
  import opened BpeMerge
  import opened SeqOps
  import P = Pretokenize

  const UINT32_MAX: nat := 0xFFFF_FFFF

  // ---------------------------------------------------------------- specification

  function Mapped(b: Byte): (r: Bytes)
    ensures 1 <= |r| <= 2
  {
    Encode(ByteToCp(b))
  }

  function MappedFn(): Byte -> Bytes {
    (b: Byte) => Mapped(b)
  }

  /** The bytes of a word, each spelled as its printable character. */
  function Expand(w: Bytes): Bytes {
    FlatMap(MappedFn(), w)
  }

  function WordFn(tok: Tokenizer): Bytes -> seq<int> {
    (w: Bytes) => BpeIds(tok, Expand(w))
  }

  /** The ids of a text that has been cut into words. */
  function WordsIds(tok: Tokenizer, words: seq<Bytes>): seq<int> {
    FlatMap(WordFn(tok), words)
  }

  /** The words of t: the successive matches of the pre-tokenizer expression. */
  ghost function Words(u: P.Classes, t: Bytes): (w: seq<Bytes>)
    requires P.NumbersApart(u)
    ensures Flatten(w) == t
  {
    P.SlicesCover(u, t, 0);
    assert t[0..] == t;
    P.Texts(t, P.Slices(u, t, 0))
  }

  /** A C string ends at its first NUL. */
  function CStr(s: Bytes): (r: Bytes)
    ensures r <= s
    ensures (forall k :: 0 <= k < |s| ==> s[k] != 0) <==> r == s
  {
    if s == [] || s[0] == 0 then [] else [s[0]] + CStr(s[1..])
  }

  /** One character of a token: the byte it stands for, or its own bytes. */
  function Unit(ch: Bytes): Bytes {
    var c := CodepointAt(ch, 0);
    if CpToByte(c.cp) >= 0 then [CpToByte(c.cp)] else ch
  }

  function UnitFn(): Bytes -> Bytes {
    (ch: Bytes) => Unit(ch)
  }

  function DecodeText(s: Bytes): Bytes {
    FlatMap(UnitFn(), CharsFrom(s, 0))
  }

  /** tokenizer_decode_token followed by the per-token loop; an unknown id contributes nothing. */
  function DecodeId(tok: Tokenizer, id: int): Bytes {
    if id >= 0 && id in tok.tokens then DecodeText(CStr(tok.tokens[id])) else []
  }

  function IdBytes(tok: Tokenizer): int -> Bytes {
    (id: int) => DecodeId(tok, id)
  }

  function DecodeIds(tok: Tokenizer, ids: seq<int>): Bytes {
    FlatMap(IdBytes(tok), ids)
  }

  // ---------------------------------------------------------------- the decoder

  /** decode_byte_level. */
  method Decode(tok: Tokenizer, ids: seq<int>) returns (out: Bytes)
    ensures out == DecodeIds(tok, ids)
  {
    out := [];
    for i := 0 to |ids|
      invariant out == DecodeIds(tok, ids[..i])
    {
      FlatMapSnoc(IdBytes(tok), ids, i);
      if ids[i] >= 0 && ids[i] in tok.tokens {
        var piece := DecodeToken(CStr(tok.tokens[ids[i]]));
        out := out + piece;
      }
    }
    assert ids[..|ids|] == ids;
  }

  method DecodeToken(text: Bytes) returns (out: Bytes)
    ensures out == DecodeText(text)
  {
    out := [];
    var j := 0;
    while j < |text|
      invariant 0 <= j <= |text| && out + DecodeFrom(text, j) == DecodeText(text)
      decreases |text| - j
    {
      var piece, len := DecodePiece(text, j);
      DecodeStep(text, j);
      Assoc(out, piece, DecodeFrom(text, j + len));
      out := out + piece;
      j := j + len;
    }
  }

  /** What the rest of a token, from position j on, decodes to. */
  function DecodeFrom(text: Bytes, j: nat): Bytes
    requires j <= |text|
  {
    FlatMap(UnitFn(), CharsFrom(text, j))
  }

  /** The byte a character stands for, or the character itself. */
  method DecodePiece(text: Bytes, j: nat) returns (piece: Bytes, len: nat)
    requires j < |text|
    ensures piece == Piece(text, j) && len == CodepointAt(text, j).len
  {
    var c := DecodeCodepoint(text, j);
    len := c.len;
    if c.cp < REV_SIZE && CpToByte(c.cp) >= 0 {
      piece := [CpToByte(c.cp)];
    } else {
      piece := text[j..j + c.len];
    }
  }

  function Piece(text: Bytes, j: nat): Bytes
    requires j < |text|
  {
    var c := CodepointAt(text, j);
    if CpToByte(c.cp) >= 0 then [CpToByte(c.cp)] else text[j..j + c.len]
  }

  lemma DecodeStep(text: Bytes, j: nat)
    requires j < |text|
    ensures DecodeFrom(text, j) == Piece(text, j) + DecodeFrom(text, j + CodepointAt(text, j).len)
  {
    CodepointAlone(text, j);
    var all := CharsFrom(text, j);
    CharsStep(text, j, all, 0);
    FlatMapCons(UnitFn(), all);
  }

  // ---------------------------------------------------------------- round trip

  /** The vocabulary has every byte character and every merge product, and ids map back. */
  ghost predicate Complete(tok: Tokenizer) {
    && (forall b: Byte :: Mapped(b) in tok.vocab)
    && (forall p :: p in tok.merges ==> p.0 + p.1 in tok.vocab)
    && (forall s :: s in tok.vocab ==> tok.vocab[s] in tok.tokens && tok.tokens[tok.vocab[s]] == s)
  }

  ghost function MappedChars(w: Bytes): (r: seq<Bytes>)
    ensures |r| == |w|
  {
    if w == [] then [] else [Mapped(w[0])] + MappedChars(w[1..])
  }

  /** The splitting loop of bpe_merge recovers exactly the byte characters. */
  lemma {:induction false} CharsOfExpand(pre: Bytes, w: Bytes)
    ensures CharsFrom(pre + Expand(w), |pre|) == MappedChars(w)
    decreases |w|
  {
    if w == [] {
      assert pre + Expand(w) == pre;
    } else {
      FlatMapCons(MappedFn(), w);
      FirstMapped(pre, w[0], Expand(w[1..]));
      CharsOfExpand(pre + Mapped(w[0]), w[1..]);
    }
  }

  lemma FirstMapped(pre: Bytes, b: Byte, rest: Bytes)
    ensures var t := pre + (Mapped(b) + rest);
            && t == (pre + Mapped(b)) + rest
            && CharsFrom(t, |pre|) == [Mapped(b)] + CharsFrom(t, |pre + Mapped(b)|)
  {
    var u := Mapped(b);
    DecodeEncode(ByteToCp(b), rest);
    assert CodepointAt(u + rest, 0).len == |u|;
    FirstChar(pre, u, rest);
  }

  /** A character that stands first after `pre` is the first character from there. */
  lemma FirstChar(pre: Bytes, u: Bytes, rest: Bytes)
    requires CodepointAt(u + rest, 0).len == |u| > 0
    ensures var t := pre + (u + rest);
            && t == (pre + u) + rest
            && CharsFrom(t, |pre|) == [u] + CharsFrom(t, |pre + u|)
  {
    CodepointSuffix(pre, u + rest, 0);
    UnfoldChar(pre + (u + rest), |pre|, |u|);
    SliceOf(pre, u, rest);
  }

  lemma UnfoldChar(t: Bytes, i: nat, n: nat)
    requires i < |t| && CodepointAt(t, i).len == n
    ensures CharsFrom(t, i) == [t[i..i + n]] + CharsFrom(t, i + n)
  {
  }

  lemma SliceOf(a: Bytes, b: Bytes, c: Bytes)
    ensures (a + (b + c))[|a|..|a| + |b|] == b && a + (b + c) == (a + b) + c
  {
  }

  lemma {:induction false} UnitsOfMapped(w: Bytes)
    ensures FlatMap(UnitFn(), MappedChars(w)) == w
  {
    if w != [] {
      UnitsOfMapped(w[1..]);
      var chars := MappedChars(w);
      FlatMapCons(UnitFn(), chars);
      assert chars[1..] == MappedChars(w[1..]);
      DecodeEncode(ByteToCp(w[0]), []);
      assert Mapped(w[0]) + [] == Mapped(w[0]);
      assert CpToByte(ByteToCp(w[0])) == w[0];
    }
  }

  lemma {:induction false} ExpandNonZero(w: Bytes)
    ensures forall k :: 0 <= k < |Expand(w)| ==> Expand(w)[k] != 0
  {
    if w != [] {
      ExpandNonZero(w[..|w| - 1]);
      var e := Mapped(w[|w| - 1]);
      assert e[0] != 0 && (|e| == 2 ==> e[1] != 0);
      assert Expand(w) == Expand(w[..|w| - 1]) + e;
    }
  }

  /** Decoding the spelling of a byte string gives it back, and the spelling has no NUL. */
  lemma DecodeExpand(w: Bytes)
    ensures DecodeText(Expand(w)) == w
    ensures CStr(Expand(w)) == Expand(w)
  {
    CharsOfExpand([], w);
    assert [] + Expand(w) == Expand(w);
    UnitsOfMapped(w);
    ExpandNonZero(w);
  }

  /** A symbol that spells some byte string. */
  ghost predicate Spells(s: Bytes) {
    exists w :: s == Expand(w)
  }

  lemma {:induction false} MappedCharsSpell(w: Bytes, k: nat)
    requires k < |w|
    ensures Spells(MappedChars(w)[k]) && MappedChars(w)[k] == Mapped(w[k])
  {
    FlatMapOne(MappedFn(), w[k]);
    assert MappedChars(w)[k] == Expand([w[k]]) || k > 0;
    if k > 0 {
      MappedCharsSpell(w[1..], k - 1);
    }
  }

  lemma {:induction false} NaiveSpells(m: Ranks, s: seq<Bytes>)
    requires forall k :: 0 <= k < |s| ==> Spells(s[k])
    ensures forall k :: 0 <= k < |Naive(m, s)| ==> Spells(Naive(m, s)[k])
    decreases |s|
  {
    match Scan(m, s, 0)
    case NoPair =>
    case Pair(i) =>
      var a :| s[i] == Expand(a);
      var b :| s[i + 1] == Expand(b);
      FlatMapAppend(MappedFn(), a, b);
      assert s[i] + s[i + 1] == Expand(a + b);
      NaiveSpells(m, MergeAt(s, i));
  }

  lemma SpelledLast(init: seq<Bytes>, last: Bytes, v: Bytes, x: Bytes)
    requires Flatten(init) == Expand(v) && last == Expand(x)
    ensures Flatten(init + [last]) == Expand(v + x)
  {
    FlattenAppend(init, [last]);
    assert Flatten([last]) == last;
    FlatMapAppend(MappedFn(), v, x);
  }

  lemma EmitLast(tok: Tokenizer, init: seq<Bytes>, last: Bytes)
    requires last in tok.vocab
    ensures EmitAll(tok, init + [last]) == EmitAll(tok, init) + [tok.vocab[last]]
  {
    FlatMapOne(SymbolIds(tok), last);
    FlatMapAppend(SymbolIds(tok), init, [last]);
  }

  lemma DecodeLast(tok: Tokenizer, ids: seq<int>, last: Bytes, x: Bytes)
    requires Complete(tok) && last in tok.vocab && last == Expand(x)
    ensures DecodeIds(tok, ids + [tok.vocab[last]]) == DecodeIds(tok, ids) + x
  {
    var id := tok.vocab[last];
    FlatMapAppend(IdBytes(tok), ids, [id]);
    FlatMapOne(IdBytes(tok), id);
    DecodeExpand(x);
  }

  /** Decoding spelled symbols, one by one, decodes what they spell together. */
  lemma {:induction false} DecodeSymbols(tok: Tokenizer, s: seq<Bytes>) returns (w: Bytes)
    requires Complete(tok)
    requires forall k :: 0 <= k < |s| ==> s[k] in tok.vocab && Spells(s[k])
    ensures Flatten(s) == Expand(w) && DecodeIds(tok, EmitAll(tok, s)) == w
  {
    if s == [] {
      w := [];
    } else {
      var init, last := s[..|s| - 1], s[|s| - 1];
      var v := DecodeSymbols(tok, init);
      var x :| last == Expand(x);
      assert s == init + [last];
      SpelledLast(init, last, v, x);
      w := v + x;
      EmitLast(tok, init, last);
      DecodeLast(tok, EmitAll(tok, init), last, x);
    }
  }

  lemma SymbolsInVocab(tok: Tokenizer, w: Bytes) returns (s: seq<Bytes>)
    requires Complete(tok)
    ensures s == Naive(tok.merges, MappedChars(w))
    ensures forall k :: 0 <= k < |s| ==> s[k] in tok.vocab && Spells(s[k])
  {
    var chars := MappedChars(w);
    s := Naive(tok.merges, chars);
    forall k | 0 <= k < |chars|
      ensures Spells(chars[k]) && chars[k] in tok.vocab
    {
      MappedCharsSpell(w, k);
    }
    NaiveSpells(tok.merges, chars);
    forall k | 0 <= k < |s|
      ensures s[k] in tok.vocab
    {
      NaiveSymbols(tok.merges, chars, s[k]);
    }
  }

  /** One word: decode(bpe(expand(w))) == w. */
  lemma WordRoundTrip(tok: Tokenizer, w: Bytes)
    requires Complete(tok)
    ensures DecodeIds(tok, BpeIds(tok, Expand(w))) == w
  {
    CharsOfExpand([], w);
    assert [] + Expand(w) == Expand(w);
    var s := SymbolsInVocab(tok, w);
    var v := DecodeSymbols(tok, s);
    NaiveKeepsText(tok.merges, MappedChars(w));
    FlattenChars(Expand(w), 0);
    assert Expand(w)[0..] == Expand(w);
    DecodeExpand(v);
    DecodeExpand(w);
  }

  /** Any cut into words survives. */
  lemma {:induction false} WordsRoundTrip(tok: Tokenizer, words: seq<Bytes>)
    requires Complete(tok)
    ensures DecodeIds(tok, WordsIds(tok, words)) == Flatten(words)
  {
    forall k | 0 <= k < |words|
      ensures FlatMap(IdBytes(tok), WordFn(tok)(words[k])) == Same()(words[k])
    {
      WordRoundTrip(tok, words[k]);
    }
    FlatMapCompose(WordFn(tok), IdBytes(tok), Same(), words);
    FlattenFlatMap(words);
  }

  /** decode(encode(t)) == t for every byte string, ill-formed UTF-8 included. */
  lemma {:induction false} RoundTrip(u: P.Classes, tok: Tokenizer, t: Bytes)
    requires P.NumbersApart(u) && Complete(tok)
    ensures DecodeIds(tok, WordsIds(tok, Words(u, t))) == t
  {
    WordsRoundTrip(tok, Words(u, t));
  }

  /** What a caller gets, who reads the decoded buffer as a C string: the text if and only if it has
      no NUL byte. */
  lemma {:induction false} ReturnedString(u: P.Classes, tok: Tokenizer, t: Bytes)
    requires P.NumbersApart(u) && Complete(tok)
    ensures CStr(DecodeIds(tok, WordsIds(tok, Words(u, t)))) == t <==> forall k :: 0 <= k < |t| ==> t[k] != 0
  {
    RoundTrip(u, tok, t);
  }

  /** The shortest text that is not returned as it was given: one NUL byte. */
  lemma {:induction false} NulIsCut(u: P.Classes, tok: Tokenizer)
    requires P.NumbersApart(u) && Complete(tok)
    ensures CStr(DecodeIds(tok, WordsIds(tok, Words(u, [0])))) == []
  {
    RoundTrip(u, tok, [0]);
  }

  /** A character of a token that stands for no byte is passed through, and so is a byte that is not
      part of well-formed UTF-8. */
  lemma {:induction false} OtherCharsPass(ch: Bytes)
    requires |ch| == CodepointAt(ch, 0).len > 0
    requires forall b: Byte :: ByteToCp(b) != CodepointAt(ch, 0).cp
    ensures DecodeText(ch) == ch
  {
    assert ch[0..|ch|] == ch;
    assert CharsFrom(ch, 0) == [ch] + CharsFrom(ch, |ch|) == [ch];
    FlatMapOne(UnitFn(), ch);
  }

  /** An id without a token is skipped. */
  lemma UnknownIdIsSkipped(tok: Tokenizer, a: seq<int>, id: int, b: seq<int>)
    requires id < 0 || id !in tok.tokens
    ensures DecodeIds(tok, a + [id] + b) == DecodeIds(tok, a + b)
  {
    FlatMapAppend(IdBytes(tok), a + [id], b);
    FlatMapAppend(IdBytes(tok), a, [id]);
    FlatMapAppend(IdBytes(tok), a, b);
    FlatMapOne(IdBytes(tok), id);
  }

  // ---------------------------------------------------------------- the encoder

  /** The buffers that encode_byte_level reserves besides those of bpe_merge. */
  class Buffers {
    const merge: Scratch
    const pretoks: array<P.Slice>
    const text: array<Byte>
    const out: array<int>

    constructor (len: nat)
      ensures fresh(merge) && fresh(merge.nodes) && fresh(merge.heap) && fresh(merge.heap.buf) && fresh(merge.ids)
      ensures fresh(pretoks) && fresh(text) && fresh(out) && merge.ids != out
      ensures merge.Reserved(len) && pretoks.Length == text.Length == out.Length == len
    {
      merge := new Scratch(len);
      pretoks := new P.Slice[len](_ => P.Slice(0, 0));
      text := new Byte[len](_ => 0);
      out := new int[len](_ => 0);
    }

    /** Spell one word into the text buffer. */
    method Spell(word: Bytes) returns (n: nat)
      requires 2 * |word| <= text.Length
      modifies text
      ensures n <= 2 * |word| && text[..n] == Expand(word)
    {
      n := 0;
      for b := 0 to |word|
        invariant n <= 2 * b && text[..n] == Expand(word[..b])
      {
        FlatMapSnoc(MappedFn(), word, b);
        var enc := Encode(ByteToCp(word[b]));
        assert enc == Mapped(word[b]);
        text[n] := enc[0];
        if |enc| == 2 {
          text[n + 1] := enc[1];
        }
        n := n + |enc|;
      }
      assert word[..|word|] == word;
    }

    /** memcpy(out + total, ids, n). */
    method Append(total: nat, n: nat)
      requires total + n <= out.Length && n <= merge.ids.Length && merge.ids != out
      modifies out
      ensures out[..total + n] == old(out[..total]) + merge.ids[..n]
      ensures merge.ids[..n] == old(merge.ids[..n])
    {
      for k := 0 to n
        invariant out[..total] == old(out[..total])
        invariant forall j :: 0 <= j < k ==> out[total + j] == merge.ids[j]
        invariant merge.ids[..n] == old(merge.ids[..n])
      {
        out[total + k] := merge.ids[k];
      }
    }

    /** Everything is sized for a text of len bytes, at twice its length. */
    ghost predicate Ready(len: nat) {
      && 2 * len <= INT32_MAX && 2 * len <= text.Length && 2 * len <= out.Length
      && merge.Reserved(2 * len) && merge.ids != out
    }

    /** One word: spell it, merge it, append its ids. */
    method EncodeWord(tok: Tokenizer, word: Bytes, total: nat, ghost len: nat) returns (next: nat)
      requires !tok.kind.WordPiece? && Ready(len) && total + 2 * |word| <= 2 * len
      modifies text, merge.nodes, merge.heap.buf, merge.heap`len, merge.heap`pushes, merge.ids, out
      ensures total <= next <= total + 2 * |word|
      ensures out[..next] == old(out[..total]) + BpeIds(tok, Expand(word))
    {
      var n := Spell(word);
      var count := merge.Merge(tok, text[..n]);
      BpeIdsBound(tok, Expand(word));
      Append(total, count);
      next := total + count;
    }

    /** One turn of the word loop. */
    method EncodeSlice(tok: Tokenizer, t: Bytes, slices: seq<P.Slice>, w: nat, total: nat, ghost done: seq<int>)
      returns (next: nat)
      requires !tok.kind.WordPiece? && Ready(|t|) && P.InText(t, slices) && P.Chained(slices, 0)
      requires w < |slices| && total <= 2 * P.EndBefore(slices, w, 0) && total <= out.Length
      requires out[..total] == done && WordsDone(tok, P.Texts(t, slices), w, done)
      modifies text, merge.nodes, merge.heap.buf, merge.heap`len, merge.heap`pushes, merge.ids, out
      ensures next <= 2 * P.EndBefore(slices, w + 1, 0) && next <= out.Length
      ensures WordsDone(tok, P.Texts(t, slices), w + 1, out[..next])
    {
      assert slices[w].off == P.EndBefore(slices, w, 0);
      ghost var all := P.Texts(t, slices);
      var word := t[slices[w].off..slices[w].off + slices[w].len];
      assert word == all[w];
      next := EncodeWord(tok, word, total, |t|);
      WordsStep(tok, all, w, done, out[..next]);
    }

    /** The word loop of encode_byte_level, over the slices that gpt2_pretokenize wrote. */
    method EncodeWords(tok: Tokenizer, t: Bytes, slices: seq<P.Slice>) returns (total: nat)
      requires !tok.kind.WordPiece? && Ready(|t|) && P.InText(t, slices) && P.Chained(slices, 0)
      modifies text, merge.nodes, merge.heap.buf, merge.heap`len, merge.heap`pushes, merge.ids, out
      ensures total <= out.Length && out[..total] == WordsIds(tok, P.Texts(t, slices))
    {
      total := 0;
      ghost var all := P.Texts(t, slices);
      WordsNone(tok, all, out[..0]);
      for w := 0 to |slices|
        invariant total <= 2 * P.EndBefore(slices, w, 0) && total <= out.Length
        invariant WordsDone(tok, all, w, out[..total])
      {
        total := EncodeSlice(tok, t, slices, w, total, out[..total]);
      }
      WordsAll(tok, all, out[..total]);
    }
  }

  /** ids is what the first w words give. */
  ghost predicate WordsDone(tok: Tokenizer, all: seq<Bytes>, w: nat, ids: seq<int>)
    requires w <= |all|
  {
    ids == WordsIds(tok, all[..w])
  }

  lemma WordsNone(tok: Tokenizer, all: seq<Bytes>, ids: seq<int>)
    requires ids == []
    ensures WordsDone(tok, all, 0, ids)
  {
  }

  lemma {:induction false} WordsAll(tok: Tokenizer, all: seq<Bytes>, ids: seq<int>)
    requires WordsDone(tok, all, |all|, ids)
    ensures ids == WordsIds(tok, all)
  {
    assert all[..|all|] == all;
  }

  lemma {:induction false} WordsStep(tok: Tokenizer, all: seq<Bytes>, w: nat, before: seq<int>, after: seq<int>)
    requires w < |all| && WordsDone(tok, all, w, before) && after == before + BpeIds(tok, Expand(all[w]))
    ensures WordsDone(tok, all, w + 1, after)
  {
    FlatMapSnoc(WordFn(tok), all, w);
  }

  /** encode_byte_level, with allocOk the outcome of the reservation's allocations.  The reserved
      2 * len suffices for every write, and the size limit is what keeps 3 * (2 * len) in 32 bits. */
  method EncodeByteLevel(u: P.Classes, tok: Tokenizer, t: Bytes, allocOk: bool) returns (count: int, out: array<int>)
    requires P.NumbersApart(u) && tok.kind.ByteLevelBpe?
    ensures count == -1 <==> 2 * |t| > 1431655765 || !allocOk
    ensures count != -1 ==> 0 <= count <= out.Length && out[..count] == WordsIds(tok, Words(u, t))
  {
    if |t| > INT32_MAX || 2 * |t| > UINT32_MAX / 3 || !allocOk {
      out := new int[0];
      return -1, out;
    }
    var s := new Buffers(2 * |t|);
    var words := P.Pretokenize(u, t, s.pretoks);
    P.SlicesWhole(u, t, 0);
    count := s.EncodeWords(tok, t, s.pretoks[..words]);
    out := s.out;
  }
}
