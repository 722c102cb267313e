/** The UTF-8 coder of tok_unicode.c, checked against the grammar of section 4 of RFC 3629.

    Bytes are integers below 256, so a mask test such as `(b & 0xC0) == 0x80` is written as the
    equivalent division `b / 64 == 2`, and `(cp << 6) | (b & 0x3F)` as `cp * 64 + b % 64`. */
module Utf8 {
  import opened SeqOps

  type Byte = b: int | 0 <= b < 256
  type Bytes = seq<Byte>

  /** The bytes of an ASCII string. */
  function Ascii(s: string): (r: Bytes)
    requires forall i :: 0 <= i < |s| ==> s[i] < 128 as char
    ensures |r| == |s|
  {
    seq(|s|, i requires 0 <= i < |s| => s[i] as Byte)
  }

  /** One decoded unit: the code point and the number of bytes it occupies. */
  datatype CpInfo = CpInfo(cp: nat, len: nat)

  const REPLACEMENT: nat := 0xFFFD

  // ---------------------------------------------------------------- RFC 3629, section 4

  predicate Tail(b: Byte) {
    0x80 <= b <= 0xBF
  }

  predicate Utf8Two(t: Bytes, i: nat) {
    i + 2 <= |t| && 0xC2 <= t[i] <= 0xDF && Tail(t[i + 1])
  }

  predicate Utf8Three(t: Bytes, i: nat) {
    && i + 3 <= |t| && Tail(t[i + 2])
    && (|| (t[i] == 0xE0 && 0xA0 <= t[i + 1] <= 0xBF)
        || (0xE1 <= t[i] <= 0xEC && Tail(t[i + 1]))
        || (t[i] == 0xED && 0x80 <= t[i + 1] <= 0x9F)
        || (0xEE <= t[i] <= 0xEF && Tail(t[i + 1])))
  }

  predicate Utf8Four(t: Bytes, i: nat) {
    && i + 4 <= |t| && Tail(t[i + 2]) && Tail(t[i + 3])
    && (|| (t[i] == 0xF0 && 0x90 <= t[i + 1] <= 0xBF)
        || (0xF1 <= t[i] <= 0xF3 && Tail(t[i + 1]))
        || (t[i] == 0xF4 && 0x80 <= t[i + 1] <= 0x8F))
  }

  /** Append the six payload bits of a continuation byte. */
  function Join(high: int, tail: Byte): int {
    high * 64 + (tail as int - 0x80)
  }

  /** The unit at position i: a sequence of the grammar, or one byte read as U+FFFD. */
  function CodepointAt(t: Bytes, i: nat): (r: CpInfo)
    ensures i < |t| ==> 1 <= r.len <= 4 && i + r.len <= |t|
    ensures i < |t| && r.len == 1 ==> r.cp == t[i] < 0x80 || (t[i] >= 0x80 && r.cp == 0xFFFD)
    ensures i < |t| && r.len > 1 ==> r.cp >= 0x80
  {
    if i >= |t| then CpInfo(0, 0)
    else if t[i] < 0x80 then CpInfo(t[i], 1)
    else if Utf8Two(t, i) then CpInfo(Join(t[i] - 0xC0, t[i + 1]), 2)
    else if Utf8Three(t, i) then
      CpInfo(Join(Join(t[i] - 0xE0, t[i + 1]), t[i + 2]), 3)
    else if Utf8Four(t, i) then
      CpInfo(Join(Join(Join(t[i] - 0xF0, t[i + 1]), t[i + 2]), t[i + 3]), 4)
    else CpInfo(REPLACEMENT, 1)
  }

  /** Whether a sequence of the grammar starts at i. */
  predicate WellFormedAt(t: Bytes, i: nat) {
    i < |t| && (t[i] < 0x80 || Utf8Two(t, i) || Utf8Three(t, i) || Utf8Four(t, i))
  }

  /** uc_decode_codepoint: the mask tests, the continuation loop and the overlong, surrogate and
      range rejections accept exactly the sequences of the grammar, and every other byte is
      rejected on its own. */
  method DecodeCodepoint(text: Bytes, pos: nat) returns (r: CpInfo)
    ensures r == CodepointAt(text, pos)
  {
    if pos >= |text| {
      return CpInfo(0, 0);
    }
    var lead := text[pos];
    var byteLen: nat;
    var cp: nat;
    if lead < 0x80 {
      return CpInfo(lead, 1);
    } else if lead / 32 == 6 {
      byteLen, cp := 2, lead % 32;
    } else if lead / 16 == 14 {
      byteLen, cp := 3, lead % 16;
    } else if lead / 8 == 30 {
      byteLen, cp := 4, lead % 8;
    } else {
      return CpInfo(REPLACEMENT, 1);
    }
    if byteLen > |text| - pos {
      return CpInfo(REPLACEMENT, 1);
    }
    ghost var head := cp;
    var i := 1;
    while i < byteLen
      invariant 1 <= i <= byteLen
      invariant forall k :: pos + 1 <= k < pos + i ==> Tail(text[k])
      invariant i == 1 ==> cp == head
      invariant i == 2 ==> cp == Join(head, text[pos + 1])
      invariant i == 3 ==> cp == Join(Join(head, text[pos + 1]), text[pos + 2])
      invariant i == 4 ==> cp == Join(Join(Join(head, text[pos + 1]), text[pos + 2]), text[pos + 3])
    {
      if text[pos + i] / 64 != 2 {
        assert !Tail(text[pos + i]);
        return CpInfo(REPLACEMENT, 1);
      }
      cp := cp * 64 + text[pos + i] % 64;
      i := i + 1;
    }
    assert Tail(text[pos + 1]) && (byteLen > 2 ==> Tail(text[pos + 2])) && (byteLen > 3 ==> Tail(text[pos + 3]));
    var minCp := if byteLen == 2 then 0x80 else if byteLen == 3 then 0x800 else 0x10000;
    if cp < minCp || 0xD800 <= cp <= 0xDFFF || cp > 0x10FFFF {
      return CpInfo(REPLACEMENT, 1);
    }
    return CpInfo(cp, byteLen);
  }

  // ---------------------------------------------------------------- encoder

  predicate Scalar(cp: nat) {
    cp <= 0x10FFFF && !(0xD800 <= cp <= 0xDFFF)
  }

  /** uc_encode_codepoint; the empty result is the source's return value 0. */
  function Encode(cp: nat): (r: Bytes)
    ensures |r| <= 4
    ensures r == [] <==> !Scalar(cp)
  {
    if cp < 0x80 then [cp]
    else if cp < 0x800 then [0xC0 + cp / 64, 0x80 + cp % 64]
    else if cp < 0x10000 then
      if 0xD800 <= cp <= 0xDFFF then []
      else [0xE0 + cp / 4096, 0x80 + cp / 64 % 64, 0x80 + cp % 64]
    else if cp <= 0x10FFFF then
      [0xF0 + cp / 262144, 0x80 + cp / 4096 % 64, 0x80 + cp / 64 % 64, 0x80 + cp % 64]
    else []
  }

  /** Decoding an encoded scalar value, with anything after it, gives it back. */
  lemma {:induction false} DecodeEncode(cp: nat, rest: Bytes)
    requires Scalar(cp)
    ensures CodepointAt(Encode(cp) + rest, 0) == CpInfo(cp, |Encode(cp)|)
    ensures WellFormedAt(Encode(cp) + rest, 0)
  {
    if cp < 0x80 {
    } else if cp < 0x800 {
      JoinSplit(cp);
    } else if cp < 0x10000 {
      DecodeEncodeThree(cp, rest);
    } else {
      DecodeEncodeFour(cp, rest);
    }
  }

  lemma JoinSplit(n: nat)
    ensures Join(n / 64, 0x80 + n % 64) == n
  {
  }

  lemma DecodeEncodeThree(cp: nat, rest: Bytes)
    requires Scalar(cp) && 0x800 <= cp < 0x10000
    ensures CodepointAt(Encode(cp) + rest, 0) == CpInfo(cp, 3)
    ensures WellFormedAt(Encode(cp) + rest, 0)
  {
    var a, b, c := 0xE0 + cp / 4096, 0x80 + cp / 64 % 64, 0x80 + cp % 64;
    assert Encode(cp) == [a, b, c];
    var t := [a, b, c] + rest;
    assert t[0] == a && t[1] == b && t[2] == c;
    assert cp / 4096 == cp / 64 / 64;
    assert Utf8Three(t, 0);
    JoinSplit(cp / 64);
    JoinSplit(cp);
  }

  lemma DecodeEncodeFour(cp: nat, rest: Bytes)
    requires 0x10000 <= cp <= 0x10FFFF
    ensures CodepointAt(Encode(cp) + rest, 0) == CpInfo(cp, 4)
    ensures WellFormedAt(Encode(cp) + rest, 0)
  {
    var a, b, c, d := 0xF0 + cp / 262144, 0x80 + cp / 4096 % 64, 0x80 + cp / 64 % 64, 0x80 + cp % 64;
    assert Encode(cp) == [a, b, c, d];
    var t := [a, b, c, d] + rest;
    assert t[0] == a && t[1] == b && t[2] == c && t[3] == d;
    assert cp / 4096 == cp / 64 / 64 && cp / 262144 == cp / 4096 / 64;
    assert Utf8Four(t, 0);
    JoinSplit(cp / 4096);
    JoinSplit(cp / 64);
    JoinSplit(cp);
  }

  /** Encoding what was decoded from a well-formed unit gives its bytes back, so the decoder is
      injective on well-formed input: no code point has two accepted spellings. */
  lemma {:induction false} EncodeDecode(t: Bytes, i: nat)
    requires WellFormedAt(t, i)
    ensures Scalar(CodepointAt(t, i).cp)
    ensures Encode(CodepointAt(t, i).cp) == t[i..i + CodepointAt(t, i).len]
  {
    if t[i] < 0x80 {
    } else if Utf8Two(t, i) {
      JoinDigits(t[i] - 0xC0, t[i + 1]);
    } else if Utf8Three(t, i) {
      EncodeDecodeThree(t[i], t[i + 1], t[i + 2]);
    } else {
      EncodeDecodeFour(t[i], t[i + 1], t[i + 2], t[i + 3]);
    }
  }

  lemma JoinDigits(high: int, tail: Byte)
    requires Tail(tail) && 0 <= high
    ensures Join(high, tail) / 64 == high && Join(high, tail) % 64 == tail - 0x80
  {
  }

  lemma EncodeDecodeThree(a: Byte, b: Byte, c: Byte)
    requires Utf8Three([a, b, c], 0)
    ensures var n := Join(Join(a - 0xE0, b), c); 0 <= n && Scalar(n) && Encode(n) == [a, b, c]
  {
    var m := Join(a - 0xE0, b);
    var n := Join(m, c);
    JoinDigits(a - 0xE0, b);
    JoinDigits(m, c);
    assert n / 4096 == m / 64;
  }

  lemma {:induction false} EncodeDecodeFour(a: Byte, b: Byte, c: Byte, d: Byte)
    requires Utf8Four([a, b, c, d], 0)
    ensures var n := Join(Join(Join(a - 0xF0, b), c), d); 0 <= n && Scalar(n) && Encode(n) == [a, b, c, d]
  {
    var l := Join(a - 0xF0, b);
    var m := Join(l, c);
    var n := Join(m, d);
    JoinDigits(a - 0xF0, b);
    JoinDigits(l, c);
    JoinDigits(m, d);
    assert n / 4096 == m / 64;
    assert n / 262144 == l / 64;
  }

  // ---------------------------------------------------------------- splitting text into units

  /** A unit depends only on the bytes from its position on. */
  lemma CodepointSuffix(a: Bytes, b: Bytes, i: nat)
    ensures CodepointAt(a + b, |a| + i) == CodepointAt(b, i)
    ensures WellFormedAt(a + b, |a| + i) == WellFormedAt(b, i)
  {
    var t := a + b;
    assert forall k :: 0 <= k < |b| ==> t[|a| + k] == b[k];
    if i < |b| {
      assert t[|a| + i] == b[i];
      assert i + 1 < |b| ==> t[|a| + i + 1] == b[i + 1];
      assert i + 2 < |b| ==> t[|a| + i + 2] == b[i + 2];
      assert i + 3 < |b| ==> t[|a| + i + 3] == b[i + 3];
    }
  }

  /** A unit cut out of its text decodes the same. */
  lemma CodepointAlone(t: Bytes, i: nat)
    requires i < |t|
    ensures CodepointAt(t[i..i + CodepointAt(t, i).len], 0) == CodepointAt(t, i)
  {
    var c := CodepointAt(t, i);
    var u := t[i..i + c.len];
    assert forall k :: 0 <= k < c.len ==> u[k] == t[i + k];
    assert u[0] == t[i];
    if c.len > 1 {
      assert u[1] == t[i + 1] && (c.len > 2 ==> u[2] == t[i + 2]) && (c.len > 3 ==> u[3] == t[i + 3]);
    }
  }

  /** The units of t from position i on. */
  function CharsFrom(t: Bytes, i: nat): (r: seq<Bytes>)
    requires i <= |t|
    ensures i < |t| ==> |r| > 0
    ensures |r| <= |t| - i
    ensures forall k :: 0 <= k < |r| ==> |r[k]| > 0
    decreases |t| - i
  {
    if i == |t| then []
    else
      var n := CodepointAt(t, i).len;
      [t[i..i + n]] + CharsFrom(t, i + n)
  }

  /** One step along the units that are still ahead. */
  lemma CharsStep(t: Bytes, i: nat, all: seq<Bytes>, n: nat)
    requires i < |t| && n <= |all| && all[n..] == CharsFrom(t, i)
    ensures n < |all| && all[n] == t[i..i + CodepointAt(t, i).len]
    ensures all[n + 1..] == CharsFrom(t, i + CodepointAt(t, i).len)
  {
    assert all[n] == all[n..][0];
    assert all[n + 1..] == all[n..][1..];
  }

  function Flatten(ss: seq<Bytes>): Bytes {
    if ss == [] then [] else ss[0] + Flatten(ss[1..])
  }

  lemma {:induction false} FlattenAppend(a: seq<Bytes>, b: seq<Bytes>)
    ensures Flatten(a + b) == Flatten(a) + Flatten(b)
  {
    if a == [] {
      assert a + b == b;
    } else {
      FlattenAppend(a[1..], b);
      assert (a + b)[1..] == a[1..] + b;
      var x, y, z := a[0], Flatten(a[1..]), Flatten(b);
      assert Flatten(a + b) == x + (y + z);
      assert x + (y + z) == (x + y) + z;
    }
  }

  function Same(): Bytes -> Bytes {
    (s: Bytes) => s
  }

  lemma {:induction false} FlattenFlatMap(ss: seq<Bytes>)
    ensures Flatten(ss) == FlatMap(Same(), ss)
  {
    if ss != [] {
      FlattenFlatMap(ss[1..]);
      FlatMapCons(Same(), ss);
    }
  }

  /** Splitting loses nothing. */
  lemma {:induction false} FlattenChars(t: Bytes, i: nat)
    requires i <= |t|
    ensures Flatten(CharsFrom(t, i)) == t[i..]
    decreases |t| - i
  {
    if i < |t| {
      var n := CodepointAt(t, i).len;
      FlattenChars(t, i + n);
      assert t[i..] == t[i..i + n] + t[i + n..];
      assert CharsFrom(t, i) == [t[i..i + n]] + CharsFrom(t, i + n);
      assert CharsFrom(t, i)[1..] == CharsFrom(t, i + n);
    }
  }

  // ---------------------------------------------------------------- byte-to-unicode table

  const REV_SIZE: nat := 324
  const UNMAPPED: nat := 0xFFFF

  predicate Printable(b: int) {
    0x21 <= b <= 0x7E || 0xA1 <= b <= 0xAC || 0xAE <= b <= 0xFF
  }

  /** Closed form of the GPT-2 table: printable bytes stand for themselves, the k-th of the other
      68 bytes for code point 256 + k. */
  function ByteToCp(b: Byte): (cp: nat)
    ensures cp < REV_SIZE
    ensures Printable(b) <==> cp == b
    ensures !Printable(b) <==> cp >= 256
  {
    if Printable(b) then b
    else if b <= 0x20 then 256 + b
    else if b <= 0xA0 then 289 + (b - 0x7F)
    else 323
  }

  /** Its inverse; -1 for a code point that stands for no byte. */
  function CpToByte(cp: nat): (b: int)
    ensures -1 <= b < 256
    ensures b >= 0 ==> ByteToCp(b) == cp
    ensures forall c: Byte :: ByteToCp(c) == cp ==> c == b
  {
    if Printable(cp) then cp
    else if 256 <= cp <= 288 then cp - 256
    else if 289 <= cp <= 322 then cp - 289 + 0x7F
    else if cp == 323 then 0xAD
    else -1
  }

  /** uc_build_bytes_to_unicode: the counting loop fills the closed form, and the reverse table
      inverts it and is unmapped everywhere else. */
  method BuildBytesToUnicode(byteToCp: array<nat>, cpToByte: array<nat>)
    requires byteToCp != cpToByte
    requires byteToCp.Length == 256 && cpToByte.Length == REV_SIZE
    modifies byteToCp, cpToByte
    ensures forall b: Byte :: byteToCp[b] == ByteToCp(b)
    ensures forall c :: 0 <= c < REV_SIZE ==> cpToByte[c] == if CpToByte(c) >= 0 then CpToByte(c) else UNMAPPED
  {
    for k := 0 to REV_SIZE
      invariant forall c :: 0 <= c < k ==> cpToByte[c] == UNMAPPED
    {
      cpToByte[k] := UNMAPPED;
    }
    var n := 256;
    for b := 0 to 256
      invariant n == 256 + NonPrintableBelow(b)
      invariant forall d: Byte :: d < b ==> byteToCp[d] == ByteToCp(d)
      invariant forall c :: 0 <= c < REV_SIZE ==>
                  cpToByte[c] == if 0 <= CpToByte(c) < b then CpToByte(c) else UNMAPPED
    {
      if Printable(b) {
        byteToCp[b] := b;
      } else {
        byteToCp[b] := n;
        n := n + 1;
      }
      cpToByte[byteToCp[b]] := b;
    }
  }

  /** The k-th byte that is not printable stands for U+0100 + k: the space for U+0120, the newline for
      U+010A, the soft hyphen for the last, U+0143. */
  lemma TableIs(b: Byte)
    ensures Printable(b) || ByteToCp(b) == 256 + NonPrintableBelow(b)
    ensures ByteToCp(0x20) == 0x120 && ByteToCp(0x0A) == 0x10A && ByteToCp(0xAD) == 0x143 && NonPrintableBelow(256) == 68
    ensures CpToByte(0x120) == 0x20 && CpToByte(0x10A) == 0x0A && CpToByte(0x143) == 0xAD && CpToByte(0x144) < 0
  {
  }

  /** How many of the bytes below b are not printable. */
  function NonPrintableBelow(b: nat): (n: nat)
    requires b <= 256
    ensures b <= 0x21 ==> n == b
    ensures 0x21 <= b <= 0x7F ==> n == 0x21
    ensures 0x7F <= b <= 0xA1 ==> n == 0x21 + (b - 0x7F)
    ensures 0xA1 <= b <= 0xAD ==> n == 67
    ensures 0xAE <= b ==> n == 68
  {
    if b == 0 then 0 else NonPrintableBelow(b - 1) + if Printable(b - 1) then 0 else 1
  }

  // ---------------------------------------------------------------- range tables

  datatype Range = Range(lo: nat, hi: nat)

  ghost predicate SortedDisjoint(r: seq<Range>) {
    && (forall i :: 0 <= i < |r| ==> r[i].lo <= r[i].hi)
    && (forall i, j :: 0 <= i < j < |r| ==> r[i].hi < r[j].lo)
  }

  /** in_ranges: the binary search decides membership in the union of the ranges. */
  method InRanges(cp: nat, r: seq<Range>) returns (found: bool)
    requires SortedDisjoint(r)
    ensures found <==> exists i :: 0 <= i < |r| && r[i].lo <= cp <= r[i].hi
  {
    var lo, hi := 0, |r|;
    while lo < hi
      invariant 0 <= lo <= hi <= |r|
      invariant forall i :: 0 <= i < lo ==> r[i].hi < cp
      invariant forall i :: hi <= i < |r| ==> cp < r[i].lo
    {
      var mid := lo + (hi - lo) / 2;
      if cp < r[mid].lo {
        hi := mid;
      } else if cp > r[mid].hi {
        lo := mid + 1;
      } else {
        return true;
      }
    }
    return false;
  }
}
