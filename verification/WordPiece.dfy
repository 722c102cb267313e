/** WordPiece: encode_wordpiece, decode_wordpiece, and the round trip between them. */
module WordPiece {
  import opened SeqOps
  import opened Utf8
  import opened BpeNaive
  import B = ByteLevel
  import M = BpeMerge

  /** The fields of the loaded tokenizer that the two WordPiece directions read. */
  datatype Wp = Wp(
    vocab: map<Bytes, nat>,
    prefix: Bytes,
    tokens: map<int, Bytes>,
    unkId: int,
    bosId: int,
    eosId: int,
    addedSpecial: set<Bytes>,
    cleanup: bool)

  // ---------------------------------------------------------------- words

  function Lower(b: Byte): Byte {
    if 0x41 <= b <= 0x5A then b + 32 else b
  }

  function LowerAll(t: Bytes): (r: Bytes)
    ensures |r| == |t| && forall k :: 0 <= k < |t| ==> r[k] == Lower(t[k])
  {
    seq(|t|, k requires 0 <= k < |t| => Lower(t[k]))
  }

  /** Lowering maps the ASCII capitals to their small letters, in order, and keeps every other byte. */
  lemma LowerIs(b: Byte)
    ensures forall i :: 0 <= i < 26 && CAPITALS[i] as int == b ==> Lower(b) == SMALL[i] as int
    ensures (forall i :: 0 <= i < 26 ==> CAPITALS[i] as int != b) ==> Lower(b) == b
  {
    forall i | 0 <= i < 26
      ensures CAPITALS[i] as int == 0x41 + i
    {
      CapitalAt(i);
    }
    if 0x41 <= b <= 0x5A {
      CapitalAt(b - 0x41);
    }
  }

  lemma CapitalAt(i: nat)
    requires i < 26
    ensures CAPITALS[i] as int == 0x41 + i && SMALL[i] as int == 0x61 + i
  {
  }

  const CAPITALS: string := "ABCDEFGHIJKLMNOPQRSTUVWXYZ"
  const SMALL: string := "abcdefghijklmnopqrstuvwxyz"
  const SYMBOLS: string := "!\"#$%&'()*+,-./:;<=>?@[\\]^_`{|}~"
  const BLANKS: string := " \t\n\r"

  predicate Space(b: Byte) {
    b == 0x20 || b == 0x09 || b == 0x0A || b == 0x0D
  }

  predicate Punct(b: Byte) {
    0x21 <= b <= 0x2F || 0x3A <= b <= 0x40 || 0x5B <= b <= 0x60 || 0x7B <= b <= 0x7E
  }

  predicate Plain(b: Byte) {
    !Space(b) && !Punct(b)
  }

  /** What separates words: the 32 ASCII symbols and four blanks. */
  lemma SeparatorsAre(b: Byte)
    ensures Punct(b) <==> exists i :: 0 <= i < 32 && SYMBOLS[i] as int == b
    ensures Space(b) <==> exists i :: 0 <= i < 4 && BLANKS[i] as int == b
  {
    if Punct(b) {
      var i := if b < 0x3A then b - 0x21 else if b < 0x5B then b - 0x3A + 15 else if b < 0x7B then b - 0x5B + 22 else b - 0x7B + 28;
      assert SYMBOLS[i] as int == b;
    }
    if Space(b) {
      var i := if b == 0x20 then 0 else if b == 0x09 then 1 else if b == 0x0A then 2 else 3;
      assert BLANKS[i] as int == b;
    }
  }

  /** Length of the longest run of plain bytes at the front. */
  function Run(t: Bytes): (n: nat)
    ensures n <= |t| && (forall k :: 0 <= k < n ==> Plain(t[k])) && (n < |t| ==> !Plain(t[n]))
  {
    if t == [] || !Plain(t[0]) then 0 else 1 + Run(t[1..])
  }

  /** Maximal runs of plain bytes, and every punctuation byte by itself. */
  function Words(t: Bytes): seq<Bytes>
    decreases |t|
  {
    if t == [] then []
    else if Space(t[0]) then Words(t[1..])
    else if Punct(t[0]) then [t[..1]] + Words(t[1..])
    else [t[..Run(t)]] + Words(t[Run(t)..])
  }

  ghost predicate Word(w: Bytes) {
    (|w| == 1 && Punct(w[0])) || (|w| > 0 && forall k :: 0 <= k < |w| ==> Plain(w[k]))
  }

  function NoSpaces(t: Bytes): Bytes {
    if t == [] then [] else (if Space(t[0]) then [] else [t[0]]) + NoSpaces(t[1..])
  }

  lemma {:induction false} NoSpacesPlain(a: Bytes, b: Bytes)
    requires forall k :: 0 <= k < |a| ==> !Space(a[k])
    ensures NoSpaces(a + b) == a + NoSpaces(b)
  {
    if a == [] {
      assert a + b == b;
    } else {
      assert (a + b)[1..] == a[1..] + b;
      NoSpacesPlain(a[1..], b);
      assert a + NoSpaces(b) == [a[0]] + (a[1..] + NoSpaces(b));
    }
  }

  lemma FlattenCons(w: Bytes, ws: seq<Bytes>)
    ensures Flatten([w] + ws) == w + Flatten(ws)
  {
    FlattenAppend([w], ws);
    assert [w][..0] == [];
    assert Flatten([w]) == w;
  }

  /** The words spell the text without its whitespace, and each is one punctuation byte or a run
      without punctuation. */
  lemma {:induction false} WordsSpell(t: Bytes)
    ensures Flatten(Words(t)) == NoSpaces(t)
    ensures forall k :: 0 <= k < |Words(t)| ==> Word(Words(t)[k])
    decreases |t|
  {
    if t != [] {
      if Space(t[0]) {
        WordsSpell(t[1..]);
      } else {
        var n := FirstWord(t);
        WordsSpell(t[n..]);
        FlattenCons(t[..n], Words(t[n..]));
      }
    }
  }

  lemma {:induction false} FirstWord(t: Bytes) returns (n: nat)
    requires t != [] && !Space(t[0])
    ensures 0 < n <= |t| && Word(t[..n]) && Words(t) == [t[..n]] + Words(t[n..])
    ensures NoSpaces(t) == t[..n] + NoSpaces(t[n..])
  {
    n := if Punct(t[0]) then 1 else Run(t);
    assert t == t[..n] + t[n..];
    NoSpacesPlain(t[..n], t[n..]);
  }

  /** Reaching a separator at i closes the run that began at 0. */
  lemma RunEnds(t: Bytes, i: nat)
    requires i <= |t| && (forall k :: 0 <= k < i ==> Plain(t[k])) && (i < |t| ==> !Plain(t[i]))
    ensures Words(t) == (if i > 0 then [t[..i]] else []) + Words(t[i..])
  {
    if i > 0 {
      assert Run(t) == i;
    } else {
      assert t[0..] == t;
    }
  }

  /** A run of plain bytes is one word up to its end; a symbol is one by itself and a blank is none.
      This decides the words of every text. */
  lemma {:induction false} WordsAt(w: Bytes, b: Byte, t: Bytes)
    requires w != [] && (forall k :: 0 <= k < |w| ==> Plain(w[k])) && !Plain(b)
    ensures Words(w) == [w]
    ensures Words(w + ([b] + t)) == [w] + Words([b] + t)
    ensures Words([b] + t) == (if Punct(b) then [[b]] else []) + Words(t)
  {
    assert w[|w|..] == [] && w[..|w|] == w;
    RunEnds(w, |w|);
    var s := w + ([b] + t);
    assert s[..|w|] == w && s[|w|..] == [b] + t;
    RunEnds(s, |w|);
    assert ([b] + t)[1..] == t && ([b] + t)[..1] == [b];
  }

  // ---------------------------------------------------------------- pieces of one word

  predicate Boundary(w: Bytes, end: nat)
    requires end <= |w|
  {
    end == |w| || !Tail(w[end])
  }

  function Lead(wp: Wp, pos: nat): Bytes {
    if pos > 0 then wp.prefix else []
  }

  function Key(wp: Wp, w: Bytes, pos: nat, end: nat): Bytes
    requires pos <= end <= |w|
  {
    Lead(wp, pos) + w[pos..end]
  }

  /** w[pos..end] may stand as a piece: it ends between characters and its key is in the vocabulary. */
  predicate IsPiece(wp: Wp, w: Bytes, pos: nat, end: nat) {
    pos < end <= |w| && Boundary(w, end) && Key(wp, w, pos, end) in wp.vocab
  }

  /** The longest piece from pos that ends by `end`; 0 when there is none. */
  function Longest(wp: Wp, w: Bytes, pos: nat, end: nat): (r: nat)
    requires pos <= end <= |w|
    ensures r == 0 <==> forall e :: pos < e <= end ==> !IsPiece(wp, w, pos, e)
    ensures r != 0 ==> r <= end && IsPiece(wp, w, pos, r) && forall e :: r < e <= end ==> !IsPiece(wp, w, pos, e)
  {
    if end == pos then 0
    else if IsPiece(wp, w, pos, end) then end
    else Longest(wp, w, pos, end - 1)
  }

  lemma LongestIs(wp: Wp, w: Bytes, pos: nat, end: nat)
    requires IsPiece(wp, w, pos, end) && forall e :: end < e <= |w| ==> !IsPiece(wp, w, pos, e)
    ensures Longest(wp, w, pos, |w|) == end
  {
    assert IsPiece(wp, w, pos, end);
  }

  datatype Pieces = Bad | Pieces(ids: seq<int>)

  /** Greedy longest match from pos on; Bad when it gets stuck. */
  function Greedy(wp: Wp, w: Bytes, pos: nat): (r: Pieces)
    requires pos <= |w|
    ensures r.Pieces? ==> |r.ids| <= |w| - pos
    decreases |w| - pos
  {
    if pos == |w| then Pieces([])
    else
      var end := Longest(wp, w, pos, |w|);
      if end == 0 then Bad
      else
        var rest := Greedy(wp, w, end);
        if rest.Bad? then Bad else Pieces([wp.vocab[Key(wp, w, pos, end)] as int] + rest.ids)
  }

  /** ends cuts w[pos..] into pieces, each of them the longest there is at its place. */
  ghost predicate Division(wp: Wp, w: Bytes, pos: nat, ends: seq<nat>)
    decreases |ends|
  {
    if ends == [] then pos == |w|
    else
      && IsPiece(wp, w, pos, ends[0]) && (forall e :: ends[0] < e <= |w| ==> !IsPiece(wp, w, pos, e))
      && Division(wp, w, ends[0], ends[1..])
  }

  ghost function DivisionIds(wp: Wp, w: Bytes, pos: nat, ends: seq<nat>): seq<int>
    requires Division(wp, w, pos, ends)
    decreases |ends|
  {
    if ends == [] then []
    else [wp.vocab[Key(wp, w, pos, ends[0])] as int] + DivisionIds(wp, w, ends[0], ends[1..])
  }

  /** A division into longest pieces, where there is one, is what greedy matching finds. */
  lemma {:induction false} DivisionIsGreedy(wp: Wp, w: Bytes, pos: nat, ends: seq<nat>)
    requires pos <= |w| && Division(wp, w, pos, ends)
    ensures Greedy(wp, w, pos) == Pieces(DivisionIds(wp, w, pos, ends))
    decreases |ends|
  {
    if ends != [] {
      LongestIs(wp, w, pos, ends[0]);
      DivisionIsGreedy(wp, w, ends[0], ends[1..]);
    }
  }

  /** Greedy matching succeeds only if there is one, so a word is bad exactly when there is none. */
  lemma {:induction false} GreedyIsDivision(wp: Wp, w: Bytes, pos: nat) returns (ends: seq<nat>)
    requires pos <= |w| && Greedy(wp, w, pos).Pieces?
    ensures Division(wp, w, pos, ends)
    decreases |w| - pos
  {
    if pos == |w| {
      ends := [];
    } else {
      var end := Longest(wp, w, pos, |w|);
      var rest := GreedyIsDivision(wp, w, end);
      ends := [end] + rest;
      assert ends[1..] == rest;
    }
  }

  /** The pieces up to pos gave `done`; the whole word gives that and what follows, or is bad. */
  predicate Continues(wp: Wp, w: Bytes, pos: nat, done: seq<int>)
    requires pos <= |w|
  {
    var rest := Greedy(wp, w, pos);
    Greedy(wp, w, 0) == if rest.Bad? then Bad else Pieces(done + rest.ids)
  }

  lemma ContinuesStep(wp: Wp, w: Bytes, pos: nat, end: nat, done: seq<int>)
    requires pos < |w| && end == Longest(wp, w, pos, |w|) && end != 0 && Continues(wp, w, pos, done)
    ensures Continues(wp, w, end, done + [wp.vocab[Key(wp, w, pos, end)] as int])
  {
    var rest := Greedy(wp, w, end);
    if rest.Pieces? {
      var id := [wp.vocab[Key(wp, w, pos, end)] as int];
      assert done + (id + rest.ids) == (done + id) + rest.ids;
    }
  }

  function Unk(wp: Wp): int {
    if wp.unkId >= 0 then wp.unkId else 0
  }

  /** A stuck word is one unk, whatever pieces came before. */
  function WordIds(wp: Wp, w: Bytes): (ids: seq<int>)
    requires w != []
    ensures |ids| <= |w|
  {
    var g := Greedy(wp, w, 0);
    if g.Bad? then [Unk(wp)] else g.ids
  }

  /** A word that cannot be divided into longest pieces is the one id unk, or 0 without one; any other
      gives the ids of that division. */
  lemma {:induction false} WordIdsAre(wp: Wp, w: Bytes)
    requires w != []
    ensures (forall ends :: !Division(wp, w, 0, ends)) ==>
              WordIds(wp, w) == if wp.unkId < 0 then [0] else [wp.unkId]
    ensures forall ends :: Division(wp, w, 0, ends) ==> WordIds(wp, w) == DivisionIds(wp, w, 0, ends)
  {
    if Greedy(wp, w, 0).Pieces? {
      var ends := GreedyIsDivision(wp, w, 0);
    }
    forall ends | Division(wp, w, 0, ends)
      ensures WordIds(wp, w) == DivisionIds(wp, w, 0, ends)
    {
      DivisionIsGreedy(wp, w, 0, ends);
    }
  }

  function WordFn(wp: Wp): Bytes -> seq<int> {
    (w: Bytes) => if w == [] then [] else WordIds(wp, w)
  }

  /** The ids of a text: lower its ASCII letters, cut it into words, match each. */
  function WpIds(wp: Wp, t: Bytes): seq<int> {
    FlatMap(WordFn(wp), Words(LowerAll(t)))
  }

  // ---------------------------------------------------------------- the encoder

  /** The ids still to come from position k of a lowered text. */
  function Rest(wp: Wp, low: Bytes, k: nat): seq<int>
    requires k <= |low|
  {
    FlatMap(WordFn(wp), Words(low[k..]))
  }

  lemma {:induction false} RestCons(wp: Wp, w: Bytes, ws: seq<Bytes>)
    requires w != []
    ensures FlatMap(WordFn(wp), [w] + ws) == WordIds(wp, w) + FlatMap(WordFn(wp), ws)
  {
    FlatMapCons(WordFn(wp), [w] + ws);
    assert ([w] + ws)[1..] == ws;
  }

  lemma {:induction false} RestRun(wp: Wp, low: Bytes, k: nat, i: nat)
    requires k < i <= |low| && (forall j :: k <= j < i ==> Plain(low[j])) && (i < |low| ==> !Plain(low[i]))
    ensures Rest(wp, low, k) == WordIds(wp, low[k..i]) + Rest(wp, low, i)
  {
    var s := low[k..];
    RunEnds(s, i - k);
    assert s[..i - k] == low[k..i] && s[i - k..] == low[i..];
    RestCons(wp, low[k..i], Words(low[i..]));
  }

  lemma {:induction false} RestSeparator(wp: Wp, low: Bytes, i: nat)
    requires i < |low| && !Plain(low[i])
    ensures Space(low[i]) ==> Rest(wp, low, i) == Rest(wp, low, i + 1)
    ensures Punct(low[i]) ==> Rest(wp, low, i) == WordIds(wp, low[i..i + 1]) + Rest(wp, low, i + 1)
  {
    var s := low[i..];
    assert s[1..] == low[i + 1..] && s[..1] == low[i..i + 1];
    if Punct(low[i]) {
      RestCons(wp, s[..1], Words(s[1..]));
    }
  }

  class Buffers {
    const text: array<Byte>
    const out: array<int>
    const cand: array<Byte>

    constructor (len: nat)
      ensures fresh(text) && fresh(out) && fresh(cand) && text != cand
      ensures text.Length == out.Length == len && cand.Length == len + 2
    {
      text := new Byte[len](_ => 0);
      out := new int[len](_ => 0);
      cand := new Byte[len + 2](_ => 0);
    }

    /** prefix + word[pos..] into the candidate buffer. */
    method BuildKey(wp: Wp, word: Bytes, pos: nat)
      requires pos <= |word| && |wp.prefix| + |word| <= cand.Length
      modifies cand
      ensures cand[..|wp.prefix| + |word| - pos] == wp.prefix + word[pos..]
    {
      Copy(0, wp.prefix);
      Copy(|wp.prefix|, word[pos..]);
    }

    /** memcpy(cand + at, s, |s|). */
    method Copy(at: nat, s: Bytes)
      requires at + |s| <= cand.Length
      modifies cand
      ensures cand[..at + |s|] == old(cand[..at]) + s
    {
      for k := 0 to |s|
        invariant cand[..at + k] == old(cand[..at]) + s[..k]
      {
        cand[at + k] := s[k];
      }
    }

    /** The inner probe loop; end == 0 stands for "not found". */
    method FindPiece(wp: Wp, word: Bytes, pos: nat) returns (end: nat)
      requires pos < |word| && |wp.prefix| + |word| <= cand.Length
      modifies cand
      ensures end == Longest(wp, word, pos, |word|)
    {
      var key := word;
      if pos > 0 {
        BuildKey(wp, word, pos);
        key := cand[..|wp.prefix| + |word| - pos];
      }
      assert key == Lead(wp, pos) + word[pos..];
      var plen := |Lead(wp, pos)|;
      end := |word|;
      while end > pos
        invariant pos <= end <= |word| && (end > pos ==> Boundary(word, end))
        invariant forall e :: end < e <= |word| ==> !IsPiece(wp, word, pos, e)
      {
        assert key[..end - pos + plen] == Key(wp, word, pos, end);
        if key[..end - pos + plen] in wp.vocab {
          LongestIs(wp, word, pos, end);
          return;
        }
        end := Shrink(wp, word, pos, end);
      }
      end := 0;
    }

    /** end--, then past continuation bytes. */
    method Shrink(wp: Wp, word: Bytes, pos: nat, from: nat) returns (end: nat)
      requires pos < from <= |word| && !IsPiece(wp, word, pos, from)
      ensures pos <= end < from && (end > pos ==> Boundary(word, end))
      ensures forall e :: end < e <= from ==> !IsPiece(wp, word, pos, e)
    {
      end := from - 1;
      while end > pos && word[end] / 64 == 2
        invariant pos <= end < from
        invariant forall e :: end < e <= from ==> !IsPiece(wp, word, pos, e)
      {
        assert !Boundary(word, end);
        end := end - 1;
      }
    }

    /** wp_emit_word.  A word never needs more places than it has bytes. */
    method EmitWord(wp: Wp, word: Bytes, total: nat) returns (next: nat)
      requires word != [] && total + |word| <= out.Length && |wp.prefix| + |word| <= cand.Length
      modifies out, cand
      ensures total <= next <= total + |word|
      ensures out[..next] == old(out[..total]) + WordIds(wp, word)
    {
      var pos := 0;
      next := total;
      while pos < |word|
        invariant 0 <= pos <= |word| && total <= next <= total + pos
        invariant out[..total] == old(out[..total])
        invariant Continues(wp, word, pos, out[total..next])
        decreases |word| - pos
      {
        var end := FindPiece(wp, word, pos);
        if end == 0 {
          out[total] := Unk(wp);
          next := total + 1;
          return;
        }
        ghost var before := out[total..next];
        var id := wp.vocab[Key(wp, word, pos, end)];
        out[next] := id;
        assert out[total..next + 1] == before + [id as int];
        ContinuesStep(wp, word, pos, end, before);
        next := next + 1;
        pos := end;
      }
      assert out[..next] == out[..total] + out[total..next];
    }

    method LowerText(t: Bytes)
      requires |t| <= text.Length
      modifies text
      ensures text[..|t|] == LowerAll(t)
    {
      for i := 0 to |t|
        invariant forall k :: 0 <= k < i ==> text[k] == Lower(t[k])
      {
        text[i] := if 0x41 <= t[i] <= 0x5A then t[i] + 32 else t[i];
      }
    }

    /** Room for every word of a text of len bytes. */
    ghost predicate Ready(wp: Wp, len: nat) {
      && text != cand && len <= text.Length && len <= out.Length && |wp.prefix| + len <= cand.Length
    }

    /** Emit the word that ends before position i, if there is one. */
    method CloseRun(wp: Wp, low: Bytes, start: nat, i: nat, total: nat) returns (next: nat)
      requires Ready(wp, |low|) && total <= start <= i <= |low|
      requires (forall k :: start <= k < i ==> Plain(low[k])) && (i < |low| ==> !Plain(low[i]))
      modifies out, cand
      ensures next <= i && out[..next] + Rest(wp, low, i) == old(out[..total]) + Rest(wp, low, start)
    {
      next := total;
      if i > start {
        next := EmitWord(wp, low[start..i], total);
        RestRun(wp, low, start, i);
        Assoc(old(out[..total]), WordIds(wp, low[start..i]), Rest(wp, low, i));
      }
    }

    /** The one-byte word at i. */
    method EmitPunct(wp: Wp, low: Bytes, i: nat, total: nat) returns (next: nat)
      requires Ready(wp, |low|) && total <= i < |low| && Punct(low[i])
      modifies out, cand
      ensures next <= i + 1 && out[..next] + Rest(wp, low, i + 1) == old(out[..total]) + Rest(wp, low, i)
    {
      next := EmitWord(wp, low[i..i + 1], total);
      RestSeparator(wp, low, i);
      Assoc(old(out[..total]), WordIds(wp, low[i..i + 1]), Rest(wp, low, i + 1));
    }

    /** One turn of the splitting loop. */
    method SplitStep(wp: Wp, low: Bytes, start: nat, i: nat, total: nat) returns (start': nat, total': nat)
      requires Ready(wp, |low|) && total <= start <= i < |low| && forall k :: start <= k < i ==> Plain(low[k])
      modifies out, cand
      ensures total' <= start' <= i + 1 && forall k :: start' <= k < i + 1 ==> Plain(low[k])
      ensures out[..total'] + Rest(wp, low, start') == old(out[..total]) + Rest(wp, low, start)
    {
      start', total' := start, total;
      if Space(low[i]) {
        total' := CloseRun(wp, low, start, i, total);
        RestSeparator(wp, low, i);
        start' := i + 1;
      } else if Punct(low[i]) {
        total' := CloseRun(wp, low, start, i, total);
        total' := EmitPunct(wp, low, i, total');
        start' := i + 1;
      }
    }

    /** The splitting loop over the lowered text. */
    method EncodeWords(wp: Wp, len: nat) returns (total: nat)
      requires Ready(wp, len)
      modifies out, cand
      ensures total <= len && out[..total] == Rest(wp, text[..len], 0)
    {
      var low := text[..len];
      total := 0;
      var start := 0;
      for i := 0 to len
        invariant total <= start <= i && forall k :: start <= k < i ==> Plain(low[k])
        invariant out[..total] + Rest(wp, low, start) == Rest(wp, low, 0)
      {
        start, total := SplitStep(wp, low, start, i, total);
      }
      total := CloseRun(wp, low, start, len, total);
      assert low[len..] == [];
      assert text[..len] == low;
    }
  }

  /** encode_wordpiece.  len + prefix suffices for the ids and for every probe key. */
  method EncodeWordPiece(wp: Wp, t: Bytes, allocOk: bool) returns (count: int, out: array<int>)
    ensures count == -1 <==> |t| + |wp.prefix| > 1431655765 || !allocOk
    ensures count != -1 ==> 0 <= count <= |t| <= out.Length && out[..count] == WpIds(wp, t)
  {
    if |t| > M.INT32_MAX || |t| + |wp.prefix| > B.UINT32_MAX / 3 || !allocOk {
      out := new int[0];
      return -1, out;
    }
    var s := new Buffers(|t| + |wp.prefix|);
    s.LowerText(t);
    count := s.EncodeWords(wp, |t|);
    assert LowerAll(t)[0..] == LowerAll(t);
    out := s.out;
  }

  // ---------------------------------------------------------------- the decoder

  /** . ? ! , n't 'm 's 've 're */
  predicate DropsSpace(s: Bytes) {
    || [0x2E] <= s || [0x3F] <= s || [0x21] <= s || [0x2C] <= s
    || [0x6E, 0x27, 0x74] <= s || [0x27, 0x6D] <= s || [0x27, 0x73] <= s
    || [0x27, 0x76, 0x65] <= s || [0x27, 0x72, 0x65] <= s
  }

  const GLUED: seq<string> := [".", "?", "!", ",", "n't", "'m", "'s", "'ve", "'re"]

  /** Cleanup drops the space before a token that begins with one of these, and no other: not before
      "'ll" or "'d". */
  lemma DropsSpaceIff(s: Bytes)
    ensures DropsSpace(s) <==> exists i :: 0 <= i < 9 && Ascii(GLUED[i]) <= s
  {
    assert Ascii(GLUED[0]) == [0x2E] && Ascii(GLUED[1]) == [0x3F] && Ascii(GLUED[2]) == [0x21];
    assert Ascii(GLUED[3]) == [0x2C] && Ascii(GLUED[4]) == [0x6E, 0x27, 0x74] && Ascii(GLUED[5]) == [0x27, 0x6D];
    assert Ascii(GLUED[6]) == [0x27, 0x73] && Ascii(GLUED[7]) == [0x27, 0x76, 0x65];
    assert Ascii(GLUED[8]) == [0x27, 0x72, 0x65];
  }

  function Gap(wp: Wp, out: Bytes, s: Bytes): Bytes {
    if out != [] && !(wp.cleanup && DropsSpace(s)) then [0x20] else []
  }

  /** One id of decode_wordpiece. */
  function Step(wp: Wp, out: Bytes, id: int): Bytes {
    if id < 0 || id !in wp.tokens || id == wp.bosId || id == wp.eosId then out
    else
      var token := B.CStr(wp.tokens[id]);
      if token in wp.addedSpecial then out
      else if wp.prefix != [] && wp.prefix <= token then out + token[|wp.prefix|..]
      else out + Gap(wp, out, token) + token
  }

  /** Every token after the first text comes behind one space unless it continues a word or, with
      cleanup, drops the space; ids without a token, the wrapping ids and added specials give nothing. */
  lemma {:induction false} StepIs(wp: Wp, out: Bytes, id: int)
    ensures var s := if id in wp.tokens then B.CStr(wp.tokens[id]) else [];
            var silent := id < 0 || id !in wp.tokens || id == wp.bosId || id == wp.eosId || s in wp.addedSpecial;
            var glued := wp.prefix != [] && wp.prefix <= s;
            var close := out == [] || (wp.cleanup && DropsSpace(s));
            && (silent ==> Step(wp, out, id) == out)
            && (!silent && glued ==> Step(wp, out, id) == out + s[|wp.prefix|..])
            && (!silent && !glued ==> Step(wp, out, id) == out + (if close then [] else [0x20]) + s)
  {
  }

  function Fold(wp: Wp, out: Bytes, ids: seq<int>): Bytes
    decreases |ids|
  {
    if ids == [] then out else Fold(wp, Step(wp, out, ids[0]), ids[1..])
  }

  method Decode(wp: Wp, ids: seq<int>) returns (out: Bytes)
    ensures out == Fold(wp, [], ids)
  {
    out := [];
    for i := 0 to |ids|
      invariant Fold(wp, out, ids[i..]) == Fold(wp, [], ids)
    {
      assert ids[i..][1..] == ids[i + 1..];
      out := DecodeOne(wp, out, ids[i]);
    }
  }

  method DecodeOne(wp: Wp, before: Bytes, id: int) returns (out: Bytes)
    ensures out == Step(wp, before, id)
  {
    out := before;
    if id < 0 || id !in wp.tokens || id == wp.bosId || id == wp.eosId {
      return;
    }
    var token := B.CStr(wp.tokens[id]);
    if token in wp.addedSpecial {
      return;
    }
    if |wp.prefix| > 0 && |token| >= |wp.prefix| && token[..|wp.prefix|] == wp.prefix {
      out := out + token[|wp.prefix|..];
    } else {
      if |out| > 0 && !(wp.cleanup && DropsSpace(token)) {
        out := out + [0x20];
      }
      out := out + token;
    }
  }

  lemma {:induction false} FoldAppend(wp: Wp, out: Bytes, a: seq<int>, b: seq<int>)
    ensures Fold(wp, out, a + b) == Fold(wp, Fold(wp, out, a), b)
    decreases |a|
  {
    if a == [] {
      assert a + b == b;
    } else {
      assert (a + b)[1..] == a[1..] + b;
      FoldAppend(wp, Step(wp, out, a[0]), a[1..], b);
    }
  }

  // ---------------------------------------------------------------- the round trip

  /** Keys the encoder can come to emit: of one byte, without punctuation or whitespace, or a
      continuation.  "[CLS]" and "[UNK]" are not among them. */
  ghost predicate Emittable(wp: Wp, k: Bytes) {
    |k| == 1 || wp.prefix <= k || forall i :: 0 <= i < |k| ==> Plain(k[i])
  }

  /** tokens inverts vocab on emittable keys, and the decoder drops none of them. */
  ghost predicate Complete(wp: Wp) {
    && wp.prefix != []
    && (forall k :: k in wp.vocab && Emittable(wp, k) ==>
         && wp.vocab[k] in wp.tokens && wp.tokens[wp.vocab[k]] == k && B.CStr(k) == k
         && wp.vocab[k] != wp.bosId && wp.vocab[k] != wp.eosId && k !in wp.addedSpecial)
  }

  lemma NextPiece(wp: Wp, w: Bytes, pos: nat, end: nat, out: Bytes)
    requires Complete(wp) && pos > 0 && IsPiece(wp, w, pos, end)
    ensures Step(wp, out, wp.vocab[Key(wp, w, pos, end)]) == out + w[pos..end]
  {
    var k := Key(wp, w, pos, end);
    assert Emittable(wp, k);
    assert k[|wp.prefix|..] == w[pos..end];
  }

  lemma GreedyHead(wp: Wp, w: Bytes, pos: nat) returns (end: nat, id: int, rest: seq<int>)
    requires pos < |w| && Greedy(wp, w, pos).Pieces?
    ensures IsPiece(wp, w, pos, end) && id == wp.vocab[Key(wp, w, pos, end)]
    ensures Greedy(wp, w, end) == Pieces(rest) && Greedy(wp, w, pos) == Pieces([id] + rest)
  {
    end := Longest(wp, w, pos, |w|);
    id, rest := wp.vocab[Key(wp, w, pos, end)], Greedy(wp, w, end).ids;
  }

  lemma FoldHead(wp: Wp, out: Bytes, id: int, rest: seq<int>)
    ensures Fold(wp, out, [id] + rest) == Fold(wp, Step(wp, out, id), rest)
  {
    assert ([id] + rest)[1..] == rest;
  }

  /** Pieces after the first glue on. */
  lemma {:induction false} ContinuationsGlue(wp: Wp, w: Bytes, pos: nat, out: Bytes)
    requires Complete(wp) && 0 < pos <= |w| && Greedy(wp, w, pos).Pieces?
    ensures Fold(wp, out, Greedy(wp, w, pos).ids) == out + w[pos..]
    decreases |w| - pos
  {
    if pos < |w| {
      var end := Longest(wp, w, pos, |w|);
      NextPiece(wp, w, pos, end, out);
      ContinuationsGlue(wp, w, end, out + w[pos..end]);
      Assoc(out, w[pos..end], w[end..]);
      SuffixJoin(w, pos, end);
      var ids := Greedy(wp, w, pos).ids;
      assert ids[1..] == Greedy(wp, w, end).ids;
    }
  }

  lemma DropsNeedPunct(s: Bytes)
    requires DropsSpace(s)
    ensures exists k :: 0 <= k < |s| && Punct(s[k])
  {
    assert Punct(s[0]) || Punct(s[1]);
  }

  /** A word's first piece asks for a space exactly when the word does. */
  lemma FirstPieceGap(w: Bytes, end: nat)
    requires Word(w) && 0 < end <= |w|
    ensures DropsSpace(w[..end]) <==> DropsSpace(w)
    ensures DropsSpace(w) <==> w == [0x2E] || w == [0x3F] || w == [0x21] || w == [0x2C]
  {
    if DropsSpace(w) {
      DropsNeedPunct(w);
    }
    if DropsSpace(w[..end]) {
      DropsNeedPunct(w[..end]);
    }
    if |w| == 1 {
      assert w[..end] == w;
    }
  }

  lemma WordJoin(lead: Bytes, w: Bytes, end: nat)
    requires end <= |w|
    ensures (lead + w[..end]) + w[end..] == lead + w
  {
  }

  lemma FirstPiece(wp: Wp, w: Bytes, end: nat, out: Bytes)
    requires Complete(wp) && Word(w) && IsPiece(wp, w, 0, end) && !(wp.prefix <= w)
    ensures Step(wp, out, wp.vocab[Key(wp, w, 0, end)]) == out + Gap(wp, out, w) + w[..end]
  {
    var k := Key(wp, w, 0, end);
    assert k == w[..end] && Emittable(wp, k);
    FirstPieceGap(w, end);
  }

  lemma {:induction false} WordDecodes(wp: Wp, w: Bytes, out: Bytes)
    requires Complete(wp) && Word(w) && Greedy(wp, w, 0).Pieces? && !(wp.prefix <= w)
    ensures Fold(wp, out, WordIds(wp, w)) == out + Gap(wp, out, w) + w
  {
    var end, id, rest := GreedyHead(wp, w, 0);
    FoldHead(wp, out, id, rest);
    var mid := Step(wp, out, id);
    ContinuationsGlue(wp, w, end, mid);
    FirstPiece(wp, w, end, out);
    WordJoin(out + Gap(wp, out, w), w, end);
  }

  /** Words joined by single spaces; with cleanup none before . ? ! and a comma. */
  function Joined(wp: Wp, out: Bytes, ws: seq<Bytes>): Bytes
    decreases |ws|
  {
    if ws == [] then out else Joined(wp, out + Gap(wp, out, ws[0]) + ws[0], ws[1..])
  }

  /** Every word is known and none starts with the continuation prefix. */
  ghost predicate Known(wp: Wp, ws: seq<Bytes>) {
    forall k :: 0 <= k < |ws| ==> Word(ws[k]) && Greedy(wp, ws[k], 0).Pieces? && !(wp.prefix <= ws[k])
  }

  lemma {:induction false} WordsDecode(wp: Wp, ws: seq<Bytes>, out: Bytes)
    requires Complete(wp) && Known(wp, ws)
    ensures Fold(wp, out, FlatMap(WordFn(wp), ws)) == Joined(wp, out, ws)
    decreases |ws|
  {
    if ws != [] {
      var w := ws[0];
      assert ws == [w] + ws[1..];
      RestCons(wp, w, ws[1..]);
      FoldAppend(wp, out, WordIds(wp, w), FlatMap(WordFn(wp), ws[1..]));
      WordDecodes(wp, w, out);
      WordsDecode(wp, ws[1..], out + Gap(wp, out, w) + w);
    }
  }

  /** encode_alloc_impl wraps the body in the bos and eos ids it has. */
  function Wrapped(wp: Wp, ids: seq<int>): seq<int> {
    (if wp.bosId >= 0 then [wp.bosId] else []) + ids + (if wp.eosId >= 0 then [wp.eosId] else [])
  }

  /** The WordPiece branch of encode_alloc_impl.  Its last test cannot fail: no more ids than bytes. */
  method EncodeAlloc(wp: Wp, t: Bytes, allocOk: bool) returns (count: int, ids: seq<int>)
    ensures count == -1 <==> |t| + |wp.prefix| > 1431655765 || !allocOk
    ensures count != -1 ==> count == |ids| && ids == Wrapped(wp, WpIds(wp, t))
    ensures count != -1 && wp.bosId >= 0 && wp.eosId >= 0 ==> ids == [wp.bosId] + WpIds(wp, t) + [wp.eosId]
    ensures count != -1 && wp.bosId < 0 && wp.eosId < 0 ==> ids == WpIds(wp, t)
    ensures count != -1 && wp.bosId >= 0 && wp.eosId < 0 ==> ids == [wp.bosId] + WpIds(wp, t)
    ensures count != -1 && wp.bosId < 0 && wp.eosId >= 0 ==> ids == WpIds(wp, t) + [wp.eosId]
  {
    var n, body := EncodeWordPiece(wp, t, allocOk);
    if n < 0 {
      return -1, [];
    }
    ids := [];
    if wp.bosId >= 0 {
      ids := ids + [wp.bosId];
    }
    ids := ids + body[..n];
    if wp.eosId >= 0 {
      ids := ids + [wp.eosId];
    }
    if |ids| > M.INT32_MAX {
      return -1, [];
    }
    count := |ids|;
  }

  lemma WrapDropped(wp: Wp, ids: seq<int>)
    ensures Fold(wp, [], Wrapped(wp, ids)) == Fold(wp, [], ids)
  {
    var a := if wp.bosId >= 0 then [wp.bosId] else [];
    var b := if wp.eosId >= 0 then [wp.eosId] else [];
    FoldAppend(wp, [], a + ids, b);
    FoldAppend(wp, [], a, ids);
  }

  /** Decoding what was encoded gives the lowered words with their spacing made canonical. */
  lemma RoundTrip(wp: Wp, t: Bytes)
    requires Complete(wp)
    requires forall k :: 0 <= k < |Words(LowerAll(t))| ==>
      Greedy(wp, Words(LowerAll(t))[k], 0).Pieces? && !(wp.prefix <= Words(LowerAll(t))[k])
    ensures Fold(wp, [], Wrapped(wp, WpIds(wp, t))) == Joined(wp, [], Words(LowerAll(t)))
  {
    WordsSpell(LowerAll(t));
    WrapDropped(wp, WpIds(wp, t));
    WordsDecode(wp, Words(LowerAll(t)), []);
  }

  /** No word starts with the default prefix "##": a word with punctuation is a single byte. */
  lemma DefaultPrefix(t: Bytes, k: nat)
    requires k < |Words(t)|
    ensures !([0x23, 0x23] <= Words(t)[k])
  {
    WordsSpell(t);
    var w := Words(t)[k];
    if |w| > 1 {
      assert Plain(w[0]);
    }
  }
}
