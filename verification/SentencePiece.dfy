/** SentencePiece BPE: encode_sentencepiece, decode_sentencepiece, and exactly which texts survive
    the round trip. */
module SentencePiece {
  import opened SeqOps
  import opened Utf8
  import opened BpeNaive
  import opened Tokenizer
  import opened BpeMerge
  import opened ByteLevel

  /** U+2581, the visible space. */
  const MARK: Bytes := [0xE2, 0x96, 0x81]

  // ---------------------------------------------------------------- encoder

  function Marked(b: Byte): Bytes {
    if b == 0x20 then MARK else [b]
  }

  function MarkedFn(): Byte -> Bytes {
    (b: Byte) => Marked(b)
  }

  /** The text with every space made visible. */
  function MarkSpaces(t: Bytes): Bytes {
    FlatMap(MarkedFn(), t)
  }

  function SpIds(tok: Tokenizer, t: Bytes): seq<int> {
    BpeIds(tok, MarkSpaces(t))
  }

  /** encode_sentencepiece.  The reserved 3 * len suffices for the expansion and its merge. */
  method EncodeSentencePiece(tok: Tokenizer, t: Bytes, allocOk: bool) returns (count: int, out: array<int>)
    requires tok.kind.SentencePieceBpe?
    ensures count == -1 <==> 3 * |t| > 1431655765 || !allocOk
    ensures count != -1 ==> 0 <= count <= out.Length && out[..count] == SpIds(tok, t)
  {
    if |t| > INT32_MAX || 3 * |t| > UINT32_MAX / 3 || !allocOk {
      out := new int[0];
      return -1, out;
    }
    var s := new Scratch(3 * |t|);
    var text := new Byte[3 * |t|](_ => 0);
    var n := SpellOut(t, text);
    count := s.Merge(tok, text[..n]);
    out := s.ids;
  }

  method SpellOut(t: Bytes, text: array<Byte>) returns (n: nat)
    requires text.Length == 3 * |t|
    modifies text
    ensures n <= text.Length && text[..n] == MarkSpaces(t)
  {
    n := 0;
    for i := 0 to |t|
      invariant n <= 3 * i && text[..n] == MarkSpaces(t[..i])
    {
      FlatMapSnoc(MarkedFn(), t, i);
      if t[i] == 0x20 {
        text[n], text[n + 1], text[n + 2] := 0xE2, 0x96, 0x81;
        n := n + 3;
      } else {
        text[n] := t[i];
        n := n + 1;
      }
    }
    assert t[..|t|] == t;
  }

  // ---------------------------------------------------------------- decoder

  function HexValue(c: Byte): int {
    if 0x30 <= c <= 0x39 then c - 0x30
    else if 0x41 <= c <= 0x46 then c - 0x41 + 10
    else if 0x61 <= c <= 0x66 then c - 0x61 + 10
    else -1
  }

  /** sp_byte_fallback: the value of a token of the shape <0xNN>, or -1. */
  function ByteToken(s: Bytes): (v: int)
    ensures -1 <= v < 256
  {
    if |s| != 6 || s[..3] != [0x3C, 0x30, 0x78] || s[5] != 0x3E || HexValue(s[3]) < 0 || HexValue(s[4]) < 0 then -1
    else HexValue(s[3]) * 16 + HexValue(s[4])
  }

  const HEX: string := "0123456789ABCDEF"
  const HEX_SMALL: string := "0123456789abcdef"

  predicate IsHex(c: Byte, v: nat) {
    v < 16 && (c == HEX[v] as int || c == HEX_SMALL[v] as int)
  }

  lemma HexValueIs(c: Byte)
    ensures HexValue(c) >= 0 ==> IsHex(c, HexValue(c))
    ensures forall v: nat :: IsHex(c, v) ==> HexValue(c) == v
  {
    forall v: nat | v < 16
      ensures HEX[v] as int == (if v < 10 then 0x30 + v else 0x37 + v)
      ensures HEX_SMALL[v] as int == (if v < 10 then 0x30 + v else 0x57 + v)
    {
      HexAt(v);
    }
  }

  lemma HexAt(v: nat)
    requires v < 16
    ensures HEX[v] as int == (if v < 10 then 0x30 + v else 0x37 + v)
    ensures HEX_SMALL[v] as int == (if v < 10 then 0x30 + v else 0x57 + v)
  {
  }

  /** Byte tokens are exactly the six characters <0xNN> with hexadecimal digits of either case; the
      value is the number NN. */
  lemma {:induction false} ByteTokenIs(s: Bytes)
    ensures ByteToken(s) >= 0 ==> Framed(s) && IsHex(s[3], ByteToken(s) / 16) && IsHex(s[4], ByteToken(s) % 16)
    ensures forall hi: nat, lo: nat :: Framed(s) && IsHex(s[3], hi) && IsHex(s[4], lo) ==> ByteToken(s) == 16 * hi + lo
  {
    if |s| == 6 {
      assert Ascii("<0x") == [0x3C, 0x30, 0x78];
      HexValueIs(s[3]);
      HexValueIs(s[4]);
    }
  }

  predicate Framed(s: Bytes) {
    |s| == 6 && s[..3] == Ascii("<0x") && s[5] == '>' as int
  }

  function HexDigit(v: nat): Byte
    requires v < 16
  {
    if v < 10 then 0x30 + v else 0x41 + (v - 10)
  }

  /** The name the loader looks up for byte b. */
  function HexName(b: Byte): Bytes {
    [0x3C, 0x30, 0x78, HexDigit(b / 16), HexDigit(b % 16), 0x3E]
  }

  function SpIdBytes(tok: Tokenizer, id: int): Bytes {
    if id >= 0 && id in tok.tokens then
      var token := CStr(tok.tokens[id]);
      if ByteToken(token) >= 0 then [ByteToken(token)] else token
    else []
  }

  function SpIdFn(tok: Tokenizer): int -> Bytes {
    (id: int) => SpIdBytes(tok, id)
  }

  /** The rewrite of U+2581 to a space, scanning from the left. */
  function Unmark(s: Bytes): (r: Bytes)
    ensures |r| <= |s|
  {
    if s == [] then []
    else if MARK <= s then [0x20] + Unmark(s[3..])
    else [s[0]] + Unmark(s[1..])
  }

  function Strip(strip: bool, s: Bytes): Bytes {
    if strip && s != [] && s[0] == 0x20 then s[1..] else s
  }

  /** An id without a token is skipped. */
  lemma UnknownIdIsSkipped(tok: Tokenizer, a: seq<int>, id: int, b: seq<int>, strip: bool)
    requires id < 0 || id !in tok.tokens
    ensures SpDecoded(tok, a + [id] + b, strip) == SpDecoded(tok, a + b, strip)
  {
    FlatMapAppend(SpIdFn(tok), a + [id], b);
    FlatMapAppend(SpIdFn(tok), a, [id]);
    FlatMapAppend(SpIdFn(tok), a, b);
    FlatMapOne(SpIdFn(tok), id);
    assert FlatMap(SpIdFn(tok), a) + [] == FlatMap(SpIdFn(tok), a);
  }

  /** The decoded buffer. */
  function SpDecoded(tok: Tokenizer, ids: seq<int>, strip: bool): Bytes {
    Strip(strip, Unmark(FlatMap(SpIdFn(tok), ids)))
  }

  /** The test of the rewrite loop at position r. */
  predicate MarkAt(s: Bytes, r: nat) {
    r + 2 < |s| && s[r] == 0xE2 && s[r + 1] == 0x96 && s[r + 2] == 0x81
  }

  lemma UnmarkStep(s: Bytes, r: nat, done: Bytes)
    requires r < |s|
    ensures done + Unmark(s[r..])
         == if MarkAt(s, r) then (done + [0x20]) + Unmark(s[r + 3..]) else (done + [s[r]]) + Unmark(s[r + 1..])
  {
    if r + 2 < |s| {
      assert s[r..][0] == s[r] && s[r..][1] == s[r + 1] && s[r..][2] == s[r + 2];
    }
    if MarkAt(s, r) {
      assert s[r..][..3] == MARK && s[r..][3..] == s[r + 3..];
      assert done + ([0x20] + Unmark(s[r + 3..])) == (done + [0x20]) + Unmark(s[r + 3..]);
    } else {
      assert !(MARK <= s[r..]) && s[r..][1..] == s[r + 1..];
      assert done + ([s[r]] + Unmark(s[r + 1..])) == (done + [s[r]]) + Unmark(s[r + 1..]);
    }
  }

  /** The in-place rewrite of decode_sentencepiece: w never overtakes r. */
  method UnmarkInPlace(buf: array<Byte>) returns (w: nat)
    modifies buf
    ensures w <= buf.Length && buf[..w] == Unmark(old(buf[..]))
  {
    w := 0;
    var r := 0;
    ghost var all, done: Bytes := buf[..], [];
    assert all[0..] == all;
    while r < buf.Length
      invariant 0 <= w <= r <= buf.Length && buf[..w] == done
      invariant forall k :: r <= k < buf.Length ==> buf[k] == all[k]
      invariant done + Unmark(all[r..]) == Unmark(all)
    {
      UnmarkStep(all, r, done);
      r := UnmarkOne(buf, w, r, all);
      done := done + [buf[w]];
      w := w + 1;
    }
    assert all[r..] == [];
  }

  method UnmarkOne(buf: array<Byte>, w: nat, r: nat, ghost all: Bytes) returns (next: nat)
    requires w <= r < buf.Length == |all| && forall k :: r <= k < buf.Length ==> buf[k] == all[k]
    modifies buf
    ensures next == (if MarkAt(all, r) then r + 3 else r + 1) && next <= buf.Length
    ensures buf[w] == (if MarkAt(all, r) then 0x20 else all[r]) && buf[..w] == old(buf[..w])
    ensures forall k :: next <= k < buf.Length ==> buf[k] == all[k]
  {
    if r + 2 < buf.Length && buf[r] == 0xE2 && buf[r + 1] == 0x96 && buf[r + 2] == 0x81 {
      buf[w] := 0x20;
      next := r + 3;
    } else {
      buf[w] := buf[r];
      next := r + 1;
    }
  }

  /** decode_sentencepiece. */
  method Decode(tok: Tokenizer, ids: seq<int>, strip: bool) returns (out: Bytes)
    ensures out == SpDecoded(tok, ids, strip)
  {
    var raw: Bytes := [];
    for i := 0 to |ids|
      invariant raw == FlatMap(SpIdFn(tok), ids[..i])
    {
      FlatMapSnoc(SpIdFn(tok), ids, i);
      if ids[i] >= 0 && ids[i] in tok.tokens {
        var token := CStr(tok.tokens[ids[i]]);
        var b := ByteToken(token);
        raw := raw + if b >= 0 then [b] else token;
      }
    }
    assert ids[..|ids|] == ids;
    var buf := new Byte[|raw|](i requires 0 <= i < |raw| => raw[i]);
    assert buf[..] == raw;
    var w := UnmarkInPlace(buf);
    out := buf[..w];
    if strip && w > 0 && buf[0] == 0x20 {
      out := out[1..];
    }
  }

  // ---------------------------------------------------------------- round trip

  /** Every <0xNN> token is there and is the byte's fallback, ids map back to their tokens, and no
      merge produces something that looks like a byte token. */
  ghost predicate SpComplete(tok: Tokenizer) {
    && (forall b: Byte :: HexName(b) in tok.vocab && tok.fallback(b) == tok.vocab[HexName(b)])
    && (forall s :: s in tok.vocab ==> tok.vocab[s] in tok.tokens && tok.tokens[tok.vocab[s]] == s)
    && (forall p :: p in tok.merges ==> ByteToken(p.0 + p.1) < 0)
  }

  lemma HexNameParses(b: Byte)
    ensures ByteToken(HexName(b)) == b
    ensures CStr(HexName(b)) == HexName(b)
  {
    assert HexName(b)[..3] == [0x3C, 0x30, 0x78];
    assert forall k :: 0 <= k < 6 ==> HexName(b)[k] != 0;
  }

  function OneFn(): Byte -> Bytes {
    (b: Byte) => [b]
  }

  lemma {:induction false} OneByOne(s: Bytes)
    ensures FlatMap(OneFn(), s) == s
  {
    if s != [] {
      OneByOne(s[..|s| - 1]);
    }
  }

  /** Whatever a surviving symbol is emitted as, it decodes to the symbol. */
  lemma {:induction false} SymbolDecodes(tok: Tokenizer, s: Bytes)
    requires SpComplete(tok) && ByteToken(s) < 0 && CStr(s) == s
    ensures FlatMap(SpIdFn(tok), EmitSymbol(tok, s)) == s
  {
    if s in tok.vocab {
      FlatMapOne(SpIdFn(tok), tok.vocab[s]);
    } else {
      forall k | 0 <= k < |s|
        ensures FlatMap(SpIdFn(tok), ByteIds(tok)(s[k])) == OneFn()(s[k])
      {
        HexNameParses(s[k]);
        FlatMapOne(SpIdFn(tok), tok.vocab[HexName(s[k])]);
      }
      FlatMapCompose(ByteIds(tok), SpIdFn(tok), OneFn(), s);
      OneByOne(s);
    }
  }

  ghost predicate NulFree(s: Bytes) {
    forall k :: 0 <= k < |s| ==> s[k] != 0
  }

  lemma {:induction false} PartsNulFree(ss: seq<Bytes>, k: nat)
    requires NulFree(Flatten(ss)) && k < |ss|
    ensures NulFree(ss[k])
  {
    var a, b := ss[0], Flatten(ss[1..]);
    forall j | 0 <= j < |a|
      ensures a[j] != 0
    {
      assert (a + b)[j] == a[j];
    }
    forall j | 0 <= j < |b|
      ensures b[j] != 0
    {
      assert (a + b)[|a| + j] == b[j];
    }
    if k > 0 {
      PartsNulFree(ss[1..], k - 1);
    }
  }

  lemma {:induction false} CharsShort(t: Bytes, i: nat, x: Bytes)
    requires i <= |t| && x in CharsFrom(t, i)
    ensures |x| <= 4
    decreases |t| - i
  {
    var n := CodepointAt(t, i).len;
    if x != t[i..i + n] {
      CharsShort(t, i + n, x);
    }
  }

  /** The decoder's buffer before the rewrite is the encoder's buffer after it. */
  lemma {:induction false} RawRoundTrip(tok: Tokenizer, x: Bytes)
    requires SpComplete(tok) && NulFree(x)
    ensures FlatMap(SpIdFn(tok), BpeIds(tok, x)) == x
  {
    var chars := CharsFrom(x, 0);
    var syms := Naive(tok.merges, chars);
    NaiveKeepsText(tok.merges, chars);
    FlattenChars(x, 0);
    assert x[0..] == x;
    forall k | 0 <= k < |syms|
      ensures FlatMap(SpIdFn(tok), SymbolIds(tok)(syms[k])) == Same()(syms[k])
    {
      PartsNulFree(syms, k);
      NaiveSymbols(tok.merges, chars, syms[k]);
      if syms[k] in chars {
        CharsShort(x, 0, syms[k]);
      }
      SymbolDecodes(tok, syms[k]);
    }
    FlatMapCompose(SymbolIds(tok), SpIdFn(tok), Same(), syms);
    FlattenFlatMap(syms);
  }

  /** U+2581 does not occur in s. */
  ghost predicate NoMark(s: Bytes) {
    forall k :: 0 <= k < |s| - 2 ==> !(s[k] == 0xE2 && s[k + 1] == 0x96 && s[k + 2] == 0x81)
  }

  lemma NoMarkTail(s: Bytes)
    requires s != [] && NoMark(s)
    ensures NoMark(s[1..])
  {
    forall k | 0 <= k < |s[1..]| - 2
      ensures !(s[1..][k] == 0xE2 && s[1..][k + 1] == 0x96 && s[1..][k + 2] == 0x81)
    {
      assert s[1..][k] == s[k + 1] && s[1..][k + 1] == s[k + 2] && s[1..][k + 2] == s[k + 3];
    }
  }

  lemma MarkSpacesCons(t: Bytes)
    requires t != []
    ensures MarkSpaces(t) == Marked(t[0]) + MarkSpaces(t[1..])
  {
    FlatMapCons(MarkedFn(), t);
  }

  /** A replaced space never completes a mark with the bytes around it. */
  lemma NoStraddling(t: Bytes)
    requires t != [] && NoMark(t) && t[0] != 0x20
    ensures !(MARK <= MarkSpaces(t))
  {
    MarkSpacesCons(t);
    var m := MarkSpaces(t);
    assert m[0] == t[0] && MARK[0] == 0xE2 && MARK[1] == 0x96 && MARK[2] == 0x81;
    if |t| > 1 {
      MarkSpacesCons(t[1..]);
      assert t[1..][0] == t[1] && t[1..][1..] == t[2..];
      assert m == [t[0]] + (Marked(t[1]) + MarkSpaces(t[2..]));
      assert t[1] == 0x20 ==> m[1] == 0xE2;
      if |t| > 2 && t[1] != 0x20 {
        MarkSpacesCons(t[2..]);
        assert t[2..][0] == t[2];
        assert m[1] == t[1] && m[2] == Marked(t[2])[0];
        assert !(t[0] == 0xE2 && t[1] == 0x96 && t[2] == 0x81);
      } else if |t| == 2 && t[1] != 0x20 {
        assert t[2..] == [] && |m| == 2;
      }
    }
  }

  lemma {:induction false} UnmarkMarked(t: Bytes)
    requires NoMark(t)
    ensures Unmark(MarkSpaces(t)) == t
  {
    if t != [] {
      var x := MarkSpaces(t[1..]);
      MarkSpacesCons(t);
      NoMarkTail(t);
      UnmarkMarked(t[1..]);
      if t[0] == 0x20 {
        assert (MARK + x)[3..] == x && MARK <= MARK + x;
      } else {
        NoStraddling(t);
        assert ([t[0]] + x)[1..] == x;
      }
    }
  }

  /** The rewrite leaves no U+2581 behind. */
  lemma {:induction false} UnmarkLeavesNone(s: Bytes)
    ensures NoMark(Unmark(s))
  {
    if s != [] {
      var tail := if MARK <= s then s[3..] else s[1..];
      UnmarkLeavesNone(tail);
      var u, r := Unmark(tail), Unmark(s);
      assert r[1..] == u;
      HeadNotMark(s);
      forall k | 0 <= k < |r| - 2
        ensures !(r[k] == 0xE2 && r[k + 1] == 0x96 && r[k + 2] == 0x81)
      {
        assert k > 0 ==> r[k] == u[k - 1] && r[k + 1] == u[k] && r[k + 2] == u[k + 1];
        assert k == 0 && r[0] == 0xE2 && r[1] == 0x96 && r[2] == 0x81 ==> MARK <= r;
      }
    }
  }

  lemma HeadNotMark(s: Bytes)
    requires s != []
    ensures !(MARK <= Unmark(s))
  {
    var r := Unmark(s);
    if |r| > 2 && r[0] == 0xE2 {
      HeadCopied(s, 0xE2);
      if r[1] == 0x96 {
        HeadCopied(s[1..], 0x96);
        if r[2] == 0x81 {
          HeadCopied(s[2..], 0x81);
        }
      }
    }
  }

  lemma HeadCopied(s: Bytes, b: Byte)
    requires s != [] && Unmark(s) != [] && Unmark(s)[0] == b && b != 0x20
    ensures s[0] == b && Unmark(s)[1..] == Unmark(s[1..])
  {
  }

  /** decode(encode(t)) == t exactly for the texts without NUL and without U+2581.  (The result is
      read as the C string that the decoder returns.) */
  lemma {:induction false} RoundTrip(tok: Tokenizer, t: Bytes)
    requires SpComplete(tok)
    ensures CStr(SpDecoded(tok, SpIds(tok, t), false)) == t <==> NulFree(t) && NoMark(t)
  {
    if NulFree(t) {
      MarkSpacesNulFree(t);
      RawRoundTrip(tok, MarkSpaces(t));
      if NoMark(t) {
        UnmarkMarked(t);
      } else {
        UnmarkLeavesNone(MarkSpaces(t));
        PrefixNoMark(Unmark(MarkSpaces(t)), CStr(Unmark(MarkSpaces(t))));
      }
    } else {
      CStrNulFree(SpDecoded(tok, SpIds(tok, t), false));
    }
  }

  /** Decoding with strip drops exactly the one space that a tokenizer puts before a text. */
  lemma {:induction false} DummyPrefix(tok: Tokenizer, t: Bytes)
    requires SpComplete(tok) && NulFree(t) && NoMark(t)
    ensures SpDecoded(tok, SpIds(tok, [0x20] + t), true) == t
    ensures SpDecoded(tok, SpIds(tok, t), true) == if t != [] && t[0] == 0x20 then t[1..] else t
  {
    var s := [0x20] + t;
    forall k | 0 <= k < |s| - 2
      ensures !(s[k] == 0xE2 && s[k + 1] == 0x96 && s[k + 2] == 0x81)
    {
      assert k > 0 ==> s[k] == t[k - 1] && s[k + 1] == t[k] && s[k + 2] == t[k + 1];
    }
    DecodesUnstripped(tok, s);
    DecodesUnstripped(tok, t);
  }

  lemma {:induction false} DecodesUnstripped(tok: Tokenizer, t: Bytes)
    requires SpComplete(tok) && NulFree(t) && NoMark(t)
    ensures SpDecoded(tok, SpIds(tok, t), false) == t
    ensures SpDecoded(tok, SpIds(tok, t), true) == Strip(true, t)
  {
    MarkSpacesNulFree(t);
    RawRoundTrip(tok, MarkSpaces(t));
    UnmarkMarked(t);
  }

  /** The text U+2581 itself comes back as a space. */
  lemma MarkComesBackAsSpace(tok: Tokenizer)
    requires SpComplete(tok)
    ensures CStr(SpDecoded(tok, SpIds(tok, MARK), false)) == [0x20]
  {
    var t: Bytes := [0xE2, 0x96, 0x81];
    assert t == MARK && NulFree(t);
    Unspaced(t);
    RawRoundTrip(tok, t);
    assert MARK <= t && t[3..] == [];
    assert Unmark(t) == [0x20];
  }

  lemma {:induction false} Unspaced(t: Bytes)
    requires forall k :: 0 <= k < |t| ==> t[k] != 0x20
    ensures MarkSpaces(t) == t
  {
    if t != [] {
      MarkSpacesCons(t);
      Unspaced(t[1..]);
    }
  }

  // ---------------------------------------------------------------- texts marked in part

  /** x is t with some of its spaces replaced. */
  ghost predicate PartlyMarked(x: Bytes, t: Bytes)
    decreases |t|
  {
    if t == [] then x == []
    else
      || (x != [] && x[0] == t[0] && PartlyMarked(x[1..], t[1..]))
      || (t[0] == 0x20 && MARK <= x && PartlyMarked(x[3..], t[1..]))
  }

  lemma {:induction false} PartlyAppend(x: Bytes, t: Bytes, y: Bytes, u: Bytes)
    requires PartlyMarked(x, t) && PartlyMarked(y, u)
    ensures PartlyMarked(x + y, t + u)
    decreases |t|
  {
    if t == [] {
      assert x + y == y && t + u == u;
    } else {
      assert (t + u)[1..] == t[1..] + u;
      if x != [] && x[0] == t[0] && PartlyMarked(x[1..], t[1..]) {
        PartlyAppend(x[1..], t[1..], y, u);
        assert (x + y)[1..] == x[1..] + y;
      } else {
        PartlyAppend(x[3..], t[1..], y, u);
        assert (x + y)[3..] == x[3..] + y && MARK <= x + y;
      }
    }
  }

  lemma {:induction false} NoneMarked(t: Bytes)
    ensures PartlyMarked(t, t)
  {
    if t != [] {
      NoneMarked(t[1..]);
    }
  }

  lemma {:induction false} AllMarked(t: Bytes)
    ensures PartlyMarked(MarkSpaces(t), t)
  {
    if t != [] {
      AllMarked(t[1..]);
      MarkSpacesCons(t);
      var x := MarkSpaces(t[1..]);
      if t[0] == 0x20 {
        assert (MARK + x)[3..] == x;
      } else {
        assert ([t[0]] + x)[1..] == x;
      }
    }
  }

  lemma PartlyHead(x: Bytes, t: Bytes, b: Byte)
    requires PartlyMarked(x, t) && x != [] && x[0] == b && b != 0xE2
    ensures t != [] && t[0] == b && PartlyMarked(x[1..], t[1..])
  {
  }

  /** A byte that is copied from a mark-free text does not begin a mark. */
  lemma CopiedIsNoMark(x: Bytes, t: Bytes)
    requires t != [] && NoMark(t) && x != [] && x[0] == t[0] && PartlyMarked(x[1..], t[1..])
    ensures !(MARK <= x)
  {
    if |x| > 2 && x[0] == 0xE2 && x[1] == 0x96 {
      PartlyHead(x[1..], t[1..], 0x96);
      assert x[1..][1..] == x[2..] && t[1..][1..] == t[2..];
    }
  }

  /** However the spaces were treated, the rewrite gives the text. */
  lemma {:induction false} UnmarkPartly(x: Bytes, t: Bytes)
    requires PartlyMarked(x, t) && NoMark(t)
    ensures Unmark(x) == t
    decreases |t|
  {
    if t != [] {
      NoMarkTail(t);
      if x[0] == t[0] && PartlyMarked(x[1..], t[1..]) {
        CopiedIsNoMark(x, t);
        UnmarkPartly(x[1..], t[1..]);
      } else {
        UnmarkPartly(x[3..], t[1..]);
      }
    }
  }

  lemma {:induction false} CStrNulFree(s: Bytes)
    ensures NulFree(CStr(s))
  {
    if s != [] && s[0] != 0 {
      CStrNulFree(s[1..]);
    }
  }

  lemma PrefixNoMark(s: Bytes, p: Bytes)
    requires p <= s && NoMark(s)
    ensures NoMark(p)
  {
  }

  lemma {:induction false} MarkSpacesNulFree(t: Bytes)
    requires NulFree(t)
    ensures NulFree(MarkSpaces(t))
  {
    if t != [] {
      MarkSpacesNulFree(t[..|t| - 1]);
      var e := Marked(t[|t| - 1]);
      assert NulFree(e);
    }
  }
}
