/** gpt2_pretokenize and its match_* cursor loops, proved to take at every position exactly the
    match a backtracking engine finds for the seven-branch GPT-2 expression. */
module Pretokenize {
  import opened Utf8
  import opened Regex

  /** The generated Unicode tables, as predicates.  The only fact used about them is that no number
      is a letter or a mark. */
  datatype Classes = Classes(letter: nat -> bool, mark: nat -> bool, number: nat -> bool)

  ghost predicate NumbersApart(u: Classes) {
    forall c: nat :: u.number(c) ==> !u.letter(c) && !u.mark(c)
  }

  // ---------------------------------------------------------------- classes

  /** uc_is_whitespace_cp. */
  predicate White(cp: nat) {
    || cp == 0x20 || 0x09 <= cp <= 0x0D || cp == 0x85 || cp == 0xA0
    || cp == 0x1680 || 0x2000 <= cp <= 0x200A || cp == 0x2028 || cp == 0x2029
    || cp == 0x202F || cp == 0x205F || cp == 0x3000
  }

  /** The property White_Space of Unicode. */
  const WHITE: seq<nat> := [
    0x09, 0x0A, 0x0B, 0x0C, 0x0D, 0x20, 0x85, 0xA0, 0x1680,
    0x2000, 0x2001, 0x2002, 0x2003, 0x2004, 0x2005, 0x2006, 0x2007, 0x2008, 0x2009, 0x200A,
    0x2028, 0x2029, 0x202F, 0x205F, 0x3000]

  /** The test has exactly its 25 code points. */
  lemma WhiteIs(cp: nat)
    ensures White(cp) <==> exists i :: 0 <= i < 25 && WHITE[i] == cp
  {
    if White(cp) {
      var i := if cp <= 0x0D then cp - 0x09 else if cp == 0x20 then 5 else if cp == 0x85 then 6 else if cp == 0xA0 then 7
               else if cp == 0x1680 then 8 else if cp <= 0x200A then cp - 0x2000 + 9 else if cp == 0x2028 then 20
               else if cp == 0x2029 then 21 else if cp == 0x202F then 22 else if cp == 0x205F then 23 else 24;
      assert WHITE[i] == cp;
    }
  }

  predicate Newline(cp: nat) {
    cp == 0x0D || cp == 0x0A
  }

  function WhiteClass(): nat -> bool { (c: nat) => White(c) }
  function NonWhite(): nat -> bool { (c: nat) => !White(c) }
  function NewlineClass(): nat -> bool { (c: nat) => Newline(c) }
  function Space(): nat -> bool { (c: nat) => c == 0x20 }
  function LetterMark(u: Classes): nat -> bool { (c: nat) => u.letter(c) || u.mark(c) }
  function Lead(u: Classes): nat -> bool { (c: nat) => !Newline(c) && !u.letter(c) && !u.number(c) }
  function Symbol(u: Classes): nat -> bool { (c: nat) => !White(c) && !u.letter(c) && !u.mark(c) && !u.number(c) }

  /** An ASCII letter in either case, given in lower case. */
  function Fold(lower: nat): nat -> bool { (c: nat) => c == lower || c + 0x20 == lower }
  function Quote(): nat -> bool { (c: nat) => c == 0x27 }

  // ---------------------------------------------------------------- the expression

  function Suffix1(a: nat): Re { Then(Cls(Quote()), Cls(Fold(a))) }
  function Suffix2(a: nat, b: nat): Re { Then(Cls(Quote()), Then(Cls(Fold(a)), Cls(Fold(b)))) }

  /** (?i:'s|'t|'re|'ve|'m|'ll|'d) */
  function Contraction(): Re {
    Or(Suffix1(0x73), Or(Suffix1(0x74), Or(Suffix2(0x72, 0x65), Or(Suffix2(0x76, 0x65),
      Or(Suffix1(0x6D), Or(Suffix2(0x6C, 0x6C), Suffix1(0x64)))))))
  }

  /** [^\r\n\p{L}\p{N}]?[\p{L}\p{M}]+ */
  function Letters(u: Classes): Re { Then(Opt(Cls(Lead(u))), Plus(Cls(LetterMark(u)))) }

  /** \p{N} */
  function Number(u: Classes): Re { Cls(u.number) }

  /**  ?[^\s\p{L}\p{M}\p{N}]+[\r\n]* */
  function Symbols(u: Classes): Re {
    Then(Opt(Cls(Space())), Then(Plus(Cls(Symbol(u))), Star(Cls(NewlineClass()))))
  }

  /** \s*[\r\n]+ */
  function Lines(): Re { Then(Star(Cls(WhiteClass())), Plus(Cls(NewlineClass()))) }

  /** \s+(?!\S) */
  function Trailing(): Re { Then(Plus(Cls(WhiteClass())), NotAhead(Cls(NonWhite()))) }

  /** \s+ */
  function Blank(): Re { Plus(Cls(WhiteClass())) }

  function Gpt2(u: Classes): Re {
    Or(Contraction(), Or(Letters(u), Or(Number(u), Or(Symbols(u), Or(Lines(), Or(Trailing(), Blank()))))))
  }

  /** What a matcher that returns i for "no match" has to return. */
  predicate Matches(r: Re, t: Bytes, i: nat, end: nat)
    requires i <= |t|
  {
    if Ends(r, t, i) == [] then end == i else end == Ends(r, t, i)[0] && end > i
  }

  lemma OrFirst(a: Re, b: Re, t: Bytes, i: nat, e: nat, f: nat)
    requires i <= |t| && Matches(a, t, i, e) && (e == i ==> Matches(b, t, i, f))
    ensures Matches(Or(a, b), t, i, if e == i then f else e)
  {
  }

  // ---------------------------------------------------------------- branch 1

  function End1(a: nat, t: Bytes, i: nat): nat {
    if Is(Quote(), t, i) && Is(Fold(a), t, i + 1) then i + 2 else i
  }

  function End2(a: nat, b: nat, t: Bytes, i: nat): nat {
    if Is(Quote(), t, i) && Is(Fold(a), t, i + 1) && Is(Fold(b), t, i + 2) then i + 3 else i
  }

  lemma Suffix1First(a: nat, t: Bytes, i: nat)
    requires i <= |t| && 0x60 < a < 0x80
    ensures Matches(Suffix1(a), t, i, End1(a, t, i))
  {
    ThenOfClass(Quote(), Cls(Fold(a)), t, i);
  }

  lemma Suffix2First(a: nat, b: nat, t: Bytes, i: nat)
    requires i <= |t| && 0x60 < a < 0x80 && 0x60 < b < 0x80
    ensures Matches(Suffix2(a, b), t, i, End2(a, b, t, i))
  {
    var r := Then(Cls(Fold(a)), Cls(Fold(b)));
    ThenOfClass(Quote(), r, t, i);
    if Is(Quote(), t, i) {
      ThenOfClass(Fold(a), Cls(Fold(b)), t, i + 1);
      assert Ends(r, t, i + 1) == if Is(Fold(a), t, i + 1) && Is(Fold(b), t, i + 2) then [i + 3] else [];
    }
  }

  /** `text[i] | 0x20`, which maps an ASCII upper case letter to lower case. */
  function Lower(b: Byte): nat {
    if b / 32 % 2 == 0 then b + 0x20 else b
  }

  lemma LowerIsFold(t: Bytes, i: nat, a: nat)
    requires 0x60 < a < 0x80
    ensures Is(Fold(a), t, i) <==> i < |t| && Lower(t[i]) == a
  {
  }

  /** match_contraction. */
  function ContractionEnd(t: Bytes, i: nat): nat
    requires i < |t|
  {
    if t[i] != 0x27 || i + 1 >= |t| then i
    else
      var next := Lower(t[i + 1]);
      if next == 0x73 || next == 0x74 || next == 0x6D || next == 0x64 then i + 2
      else if i + 2 < |t| then
        var next2 := Lower(t[i + 2]);
        if (next == 0x72 && next2 == 0x65) || (next == 0x76 && next2 == 0x65) || (next == 0x6C && next2 == 0x6C)
        then i + 3 else i
      else i
  }

  lemma ContractionFirst(t: Bytes, i: nat)
    requires i < |t|
    ensures Matches(Contraction(), t, i, ContractionEnd(t, i))
  {
    Suffix1First(0x73, t, i);
    Suffix1First(0x74, t, i);
    Suffix1First(0x6D, t, i);
    Suffix1First(0x64, t, i);
    Suffix2First(0x72, 0x65, t, i);
    Suffix2First(0x76, 0x65, t, i);
    Suffix2First(0x6C, 0x6C, t, i);
    var e7 := End1(0x64, t, i);
    var e6 := Choose(i, End2(0x6C, 0x6C, t, i), e7);
    var e5 := Choose(i, End1(0x6D, t, i), e6);
    var e4 := Choose(i, End2(0x76, 0x65, t, i), e5);
    var e3 := Choose(i, End2(0x72, 0x65, t, i), e4);
    var e2 := Choose(i, End1(0x74, t, i), e3);
    var r7 := Suffix1(0x64);
    var r6 := Or(Suffix2(0x6C, 0x6C), r7);
    var r5 := Or(Suffix1(0x6D), r6);
    var r4 := Or(Suffix2(0x76, 0x65), r5);
    var r3 := Or(Suffix2(0x72, 0x65), r4);
    var r2 := Or(Suffix1(0x74), r3);
    OrFirst(Suffix2(0x6C, 0x6C), r7, t, i, End2(0x6C, 0x6C, t, i), e7);
    OrFirst(Suffix1(0x6D), r6, t, i, End1(0x6D, t, i), e6);
    OrFirst(Suffix2(0x76, 0x65), r5, t, i, End2(0x76, 0x65, t, i), e5);
    OrFirst(Suffix2(0x72, 0x65), r4, t, i, End2(0x72, 0x65, t, i), e4);
    OrFirst(Suffix1(0x74), r3, t, i, End1(0x74, t, i), e3);
    OrFirst(Suffix1(0x73), r2, t, i, End1(0x73, t, i), e2);
    ContractionEnds(t, i);
  }

  function Choose(i: nat, e: nat, f: nat): nat {
    if e == i then f else e
  }

  /** The byte tests of match_contraction are the same ordered choice. */
  lemma ContractionEnds(t: Bytes, i: nat)
    requires i < |t|
    ensures ContractionEnd(t, i)
         == Choose(i, End1(0x73, t, i), Choose(i, End1(0x74, t, i), Choose(i, End2(0x72, 0x65, t, i),
            Choose(i, End2(0x76, 0x65, t, i), Choose(i, End1(0x6D, t, i), Choose(i, End2(0x6C, 0x6C, t, i),
            End1(0x64, t, i)))))))
  {
    LowerIsFold(t, i + 1, 0x73);
    LowerIsFold(t, i + 1, 0x74);
    LowerIsFold(t, i + 1, 0x6D);
    LowerIsFold(t, i + 1, 0x64);
    LowerIsFold(t, i + 1, 0x72);
    LowerIsFold(t, i + 1, 0x76);
    LowerIsFold(t, i + 1, 0x6C);
    LowerIsFold(t, i + 2, 0x65);
    LowerIsFold(t, i + 2, 0x6C);
  }

  // ---------------------------------------------------------------- branches 2 and 4

  /** scan_letter_mark_run, and the run loops of the other matchers. */
  method ScanRun(p: nat -> bool, t: Bytes, i: nat) returns (end: nat)
    requires i <= |t|
    ensures end == RunEnd(p, t, i)
  {
    end := i;
    while end < |t|
      invariant i <= end <= |t| && RunEnd(p, t, end) == RunEnd(p, t, i)
      decreases |t| - end
    {
      var c := DecodeCodepoint(t, end);
      if !p(c.cp) {
        break;
      }
      end := end + c.len;
    }
  }

  /** match_letters_run; the caller has ruled out that the code point at i is a number. */
  method MatchLetters(u: Classes, t: Bytes, i: nat, first: CpInfo) returns (end: nat)
    requires i < |t| && first == CodepointAt(t, i) && !u.number(first.cp)
    ensures end == LettersEnd(u, t, i)
  {
    if u.letter(first.cp) || u.mark(first.cp) {
      end := ScanRun(LetterMark(u), t, i + first.len);
      return;
    }
    if !Newline(first.cp) {
      var afterOpt := i + first.len;
      end := ScanRun(LetterMark(u), t, afterOpt);
      if end > afterOpt {
        return;
      }
    }
    end := i;
  }

  function LettersEnd(u: Classes, t: Bytes, i: nat): nat
    requires i < |t|
  {
    var lm := LetterMark(u);
    if Is(lm, t, i) then RunEnd(lm, t, i)
    else if Is(Lead(u), t, i) && Is(lm, t, Next(t, i)) then RunEnd(lm, t, Next(t, i))
    else i
  }

  /** A mark may serve as the optional first code point or start the run itself; the end is the
      same. */
  lemma LettersFirst(u: Classes, t: Bytes, i: nat)
    requires i < |t|
    ensures Matches(Letters(u), t, i, LettersEnd(u, t, i))
  {
    var lm := LetterMark(u);
    OptThen(Lead(u), Plus(Cls(lm)), t, i);
    PlusFirst(lm, t, i);
    PlusFirst(lm, t, Next(t, i));
  }

  /** match_space_punct. */
  method MatchSymbols(u: Classes, t: Bytes, i: nat) returns (end: nat)
    requires i < |t|
    ensures end == SymbolsEnd(u, t, i)
  {
    var p := i;
    if t[p] == 0x20 {
      p := p + 1;
    }
    end := ScanRun(Symbol(u), t, p);
    if end == p {
      return i;
    }
    end := NewlineTail(t, end);
  }

  /** The byte loop over `\r` and `\n`. */
  method NewlineTail(t: Bytes, i: nat) returns (end: nat)
    requires i <= |t|
    ensures end == RunEnd(NewlineClass(), t, i)
  {
    end := i;
    while end < |t| && (t[end] == 0x0D || t[end] == 0x0A)
      invariant i <= end <= |t| && RunEnd(NewlineClass(), t, end) == RunEnd(NewlineClass(), t, i)
    {
      end := end + 1;
    }
  }

  function SymbolsEnd(u: Classes, t: Bytes, i: nat): nat
    requires i < |t|
  {
    var p := if t[i] == 0x20 then i + 1 else i;
    if Is(Symbol(u), t, p) then RunEnd(NewlineClass(), t, RunEnd(Symbol(u), t, p)) else i
  }

  lemma SymbolsFirst(u: Classes, t: Bytes, i: nat)
    requires i < |t|
    ensures Matches(Symbols(u), t, i, SymbolsEnd(u, t, i))
  {
    var tail := Then(Plus(Cls(Symbol(u))), Star(Cls(NewlineClass())));
    OptThen(Space(), tail, t, i);
    PlusStarFirst(Symbol(u), NewlineClass(), t, i);
    if t[i] == 0x20 {
      assert Is(Space(), t, i) && Next(t, i) == i + 1 && !Is(Symbol(u), t, i);
      PlusStarFirst(Symbol(u), NewlineClass(), t, i + 1);
      assert Ends(Symbols(u), t, i) == Ends(tail, t, i + 1);
    } else {
      assert !Is(Space(), t, i);
      assert Ends(Symbols(u), t, i) == Ends(tail, t, i);
    }
  }

  // ---------------------------------------------------------------- branches 5, 6 and 7

  /** One past the last newline of the white-space run at i, or 0. */
  function LastNewline(t: Bytes, i: nat): (e: nat)
    requires i <= |t|
    ensures e == 0 || i < e <= |t|
    ensures Is(NewlineClass(), t, i) ==> e != 0
    decreases |t| - i
  {
    if !Is(WhiteClass(), t, i) then 0
    else
      var later := LastNewline(t, Next(t, i));
      if later != 0 then later else if Is(NewlineClass(), t, i) then Next(t, i) else 0
  }

  /** The start of the last code point of the white-space run at i. */
  function LastStart(t: Bytes, i: nat): (e: nat)
    requires i <= |t|
    ensures i <= e <= |t|
    decreases |t| - i
  {
    if Is(WhiteClass(), t, i) && Is(WhiteClass(), t, Next(t, i)) then LastStart(t, Next(t, i)) else i
  }

  /** `\s*[\r\n]+` ends one past the last newline of the run, wherever earlier newlines are. */
  lemma {:induction false} LinesFirst(t: Bytes, i: nat)
    requires i <= |t|
    ensures Matches(Lines(), t, i, if LastNewline(t, i) != 0 then LastNewline(t, i) else i)
    decreases |t| - i
  {
    StarThen(WhiteClass(), Plus(Cls(NewlineClass())), t, i);
    PlusFirst(NewlineClass(), t, i);
    if Is(WhiteClass(), t, i) {
      LinesFirst(t, Next(t, i));
    }
  }

  /** `\s*(?!\S)`: the whole run at the end of input, else all but its last code point. */
  lemma {:induction false} LookaheadFirst(t: Bytes, i: nat)
    requires i <= |t|
    ensures var e := Ends(Then(Star(Cls(WhiteClass())), NotAhead(Cls(NonWhite()))), t, i);
            if RunEnd(WhiteClass(), t, i) == |t| then e != [] && e[0] == |t|
            else if Is(WhiteClass(), t, i) then e != [] && e[0] == LastStart(t, i)
            else e == []
    decreases |t| - i
  {
    StarThen(WhiteClass(), NotAhead(Cls(NonWhite())), t, i);
    if Is(WhiteClass(), t, i) {
      LookaheadFirst(t, Next(t, i));
    }
  }

  lemma TrailingFirst(t: Bytes, i: nat)
    requires i <= |t|
    ensures var w := WhiteClass();
            Matches(Trailing(), t, i,
                    if !Is(w, t, i) then i
                    else if RunEnd(w, t, i) == |t| then |t|
                    else LastStart(t, i))
  {
    var w, l := WhiteClass(), NotAhead(Cls(NonWhite()));
    ThenOfClass(w, Star(Cls(w)), t, i);
    if Is(w, t, i) {
      LookaheadFirst(t, Next(t, i));
      assert Ends(Trailing(), t, i) == EndsFrom(l, t, Ends(Star(Cls(w)), t, Next(t, i)));
    }
  }

  /** Where the scan of match_ws_run ends up when it stands at end: the end of the run, the end of its
      last newline, the start of its last character. */
  function WhiteGoal(t: Bytes, end: nat, lastCp: nat, nlEnd: nat): (nat, nat, nat)
    requires end <= |t|
  {
    (RunEnd(WhiteClass(), t, end),
     if LastNewline(t, end) != 0 then LastNewline(t, end) else nlEnd,
     if Is(WhiteClass(), t, end) then LastStart(t, end) else lastCp)
  }

  lemma WhiteStep(t: Bytes, end: nat, lastCp: nat, nlEnd: nat)
    requires end < |t| && White(CodepointAt(t, end).cp)
    ensures var c := CodepointAt(t, end);
            WhiteGoal(t, end, lastCp, nlEnd)
            == WhiteGoal(t, end + c.len, end, if Newline(c.cp) then end + c.len else nlEnd)
  {
    var next := Next(t, end);
    assert Is(WhiteClass(), t, end);
    assert RunEnd(WhiteClass(), t, end) == RunEnd(WhiteClass(), t, next);
    assert LastStart(t, end) == if Is(WhiteClass(), t, next) then LastStart(t, next) else end;
  }

  lemma WhiteDone(t: Bytes, end: nat, lastCp: nat, nlEnd: nat)
    requires end <= |t| && !Is(WhiteClass(), t, end)
    ensures WhiteGoal(t, end, lastCp, nlEnd) == (end, nlEnd, lastCp)
  {
  }

  /** The scan of match_ws_run. */
  method ScanWhite(t: Bytes, i: nat) returns (end: nat, lastCp: nat, nlEnd: nat)
    requires i < |t|
    ensures end == RunEnd(WhiteClass(), t, i) && nlEnd == LastNewline(t, i)
    ensures end > i ==> lastCp == LastStart(t, i)
  {
    end, lastCp, nlEnd := i, i, 0;
    var go := true;
    while go && end < |t|
      invariant i <= end <= |t| && WhiteGoal(t, end, lastCp, nlEnd) == WhiteGoal(t, i, i, 0)
      invariant !go ==> WhiteGoal(t, end, lastCp, nlEnd) == (end, nlEnd, lastCp)
      decreases |t| - end, go
    {
      go, end, lastCp, nlEnd := WhiteTurn(t, end, lastCp, nlEnd);
    }
    if go {
      WhiteDone(t, end, lastCp, nlEnd);
    }
  }

  /** One turn of the scan; go is false where the loop breaks. */
  method WhiteTurn(t: Bytes, from: nat, last: nat, nl: nat) returns (go: bool, end: nat, lastCp: nat, nlEnd: nat)
    requires from < |t|
    ensures if go then from < end <= |t| else end == from
    ensures WhiteGoal(t, end, lastCp, nlEnd) == WhiteGoal(t, from, last, nl)
    ensures !go ==> WhiteGoal(t, end, lastCp, nlEnd) == (end, nlEnd, lastCp)
  {
    var c := DecodeCodepoint(t, from);
    if !White(c.cp) {
      WhiteDone(t, from, last, nl);
      return false, from, last, nl;
    }
    WhiteStep(t, from, last, nl);
    go, end, lastCp, nlEnd := true, from + c.len, from, nl;
    if Newline(c.cp) {
      nlEnd := end;
    }
  }

  /** match_ws_run: one scan decides the last three branches. */
  method MatchWhite(t: Bytes, i: nat) returns (end: nat)
    requires i < |t|
    ensures end == WhiteEnd(t, i)
  {
    var lastCp, nlEnd;
    end, lastCp, nlEnd := ScanWhite(t, i);
    if end == i {
      return i;
    }
    if nlEnd != 0 {
      return nlEnd;
    }
    if end == |t| {
      return end;
    }
    if lastCp > i {
      return lastCp;
    }
  }

  function WhiteEnd(t: Bytes, i: nat): nat
    requires i < |t|
  {
    var w, nl := WhiteClass(), LastNewline(t, i);
    if !Is(w, t, i) then i
    else if nl != 0 then nl
    else if RunEnd(w, t, i) == |t| then |t|
    else if LastStart(t, i) > i then LastStart(t, i)
    else RunEnd(w, t, i)
  }

  lemma WhiteFirst(t: Bytes, i: nat)
    requires i < |t|
    ensures Matches(Or(Lines(), Or(Trailing(), Blank())), t, i, WhiteEnd(t, i))
  {
    var w, nl := WhiteClass(), LastNewline(t, i);
    LinesFirst(t, i);
    TrailingFirst(t, i);
    PlusFirst(w, t, i);
    var blank := RunEnd(w, t, i);
    var trailing := if !Is(w, t, i) then i else if blank == |t| then |t| else LastStart(t, i);
    OrFirst(Trailing(), Blank(), t, i, trailing, blank);
    OrFirst(Lines(), Or(Trailing(), Blank()), t, i, if nl != 0 then nl else i, Choose(i, trailing, blank));
  }

  // ---------------------------------------------------------------- the tokenizer

  /** What the matchers compute together. */
  function StepEnd(u: Classes, t: Bytes, i: nat): nat
    requires i < |t|
  {
    Choose(i, ContractionEnd(t, i),
      if u.number(CodepointAt(t, i).cp) then Next(t, i)
      else Choose(i, LettersEnd(u, t, i), Choose(i, SymbolsEnd(u, t, i), WhiteEnd(t, i))))
  }

  /** The first branch that matches decides; a number never starts branch 2, so testing branch 3
      first is the same choice. */
  lemma {:induction false} StepIsMatch(u: Classes, t: Bytes, i: nat)
    requires i < |t| && NumbersApart(u)
    ensures Matches(Gpt2(u), t, i, StepEnd(u, t, i))
  {
    var e1, e2, e4, e5 := ContractionEnd(t, i), LettersEnd(u, t, i), SymbolsEnd(u, t, i), WhiteEnd(t, i);
    var e3 := if u.number(CodepointAt(t, i).cp) then Next(t, i) else i;
    ContractionFirst(t, i);
    LettersFirst(u, t, i);
    SymbolsFirst(u, t, i);
    WhiteFirst(t, i);
    assert Matches(Number(u), t, i, e3);
    var r5 := Or(Lines(), Or(Trailing(), Blank()));
    var r4, f4 := Or(Symbols(u), r5), Choose(i, e4, e5);
    var r3, f3 := Or(Number(u), r4), Choose(i, e3, f4);
    OrFirst(Symbols(u), r5, t, i, e4, e5);
    OrFirst(Number(u), r4, t, i, e3, f4);
    OrFirst(Letters(u), r3, t, i, e2, f3);
    OrFirst(Contraction(), Or(Letters(u), r3), t, i, e1, Choose(i, e2, f3));
    assert e3 != i ==> e2 == i;
  }

  // ---------------------------------------------------------------- case folding

  /** s in every case: the one letter of the contractions that a code point beyond ASCII, U+017F,
      folds to. */
  function FoldS(): nat -> bool { (c: nat) => c == 0x73 || c == 0x53 || c == 0x17F }

  /** The rest of branch 1 after 's. */
  function OtherContractions(): Re {
    Or(Suffix1(0x74), Or(Suffix2(0x72, 0x65), Or(Suffix2(0x76, 0x65),
      Or(Suffix1(0x6D), Or(Suffix2(0x6C, 0x6C), Suffix1(0x64))))))
  }

  function OtherBranches(u: Classes): Re {
    Or(Letters(u), Or(Number(u), Or(Symbols(u), Or(Lines(), Or(Trailing(), Blank())))))
  }

  /** The expression with (?i:) read as Unicode case folding. */
  function Gpt2Folded(u: Classes): Re {
    Or(Or(Then(Cls(Quote()), Cls(FoldS())), OtherContractions()), OtherBranches(u))
  }

  /** The apostrophe is punctuation and U+017F is a letter. */
  ghost predicate Ordinary(u: Classes) {
    && NumbersApart(u)
    && !u.letter(0x27) && !u.mark(0x27) && !u.number(0x27) && u.letter(0x17F)
  }

  /** An apostrophe at i with U+017F after it. */
  predicate LongS(t: Bytes, i: nat) {
    Is(Quote(), t, i) && i + 1 < |t| && CodepointAt(t, i + 1).cp == 0x17F
  }

  lemma SameWithoutLongS(u: Classes, t: Bytes, i: nat)
    requires i <= |t| && !LongS(t, i)
    ensures Ends(Gpt2Folded(u), t, i) == Ends(Gpt2(u), t, i)
  {
    SuffixSame(t, i);
    var a, b, c := Then(Cls(Quote()), Cls(FoldS())), Suffix1(0x73), OtherContractions();
    OrSame(a, b, c, t, i);
    OrSame(Or(a, c), Or(b, c), OtherBranches(u), t, i);
  }

  lemma OrSame(a: Re, b: Re, c: Re, t: Bytes, i: nat)
    requires i <= |t| && Ends(a, t, i) == Ends(b, t, i)
    ensures Ends(Or(a, c), t, i) == Ends(Or(b, c), t, i)
  {
  }

  lemma SuffixSame(t: Bytes, i: nat)
    requires i <= |t| && !LongS(t, i)
    ensures Ends(Then(Cls(Quote()), Cls(FoldS())), t, i) == Ends(Suffix1(0x73), t, i)
  {
    ThenOfClass(Quote(), Cls(FoldS()), t, i);
    ThenOfClass(Quote(), Cls(Fold(0x73)), t, i);
    if Is(Quote(), t, i) {
      assert Is(FoldS(), t, i + 1) <==> Is(Fold(0x73), t, i + 1);
    }
  }

  /** At an apostrophe and U+017F the folded expression takes these three bytes; the code takes the
      letter run that begins with U+017F. */
  lemma LongSEnds(u: Classes, t: Bytes, i: nat)
    requires Ordinary(u) && LongS(t, i)
    ensures i + 3 <= |t| && Matches(Gpt2Folded(u), t, i, i + 3)
    ensures StepEnd(u, t, i) == RunEnd(LetterMark(u), t, i + 3)
  {
    var e := i + 1 + CodepointAt(t, i + 1).len;
    LongSLength(t, i + 1);
    ThenOfClass(Quote(), Cls(FoldS()), t, i);
    assert Is(FoldS(), t, i + 1);
    var s := Then(Cls(Quote()), Cls(FoldS()));
    assert Ends(s, t, i) == [e];
    OrFirst(s, OtherContractions(), t, i, e, i);
    OrFirst(Or(s, OtherContractions()), OtherBranches(u), t, i, e, i);
    assert ContractionEnd(t, i) == i;
    assert Is(LetterMark(u), t, i + 1) && !Is(LetterMark(u), t, i) && Is(Lead(u), t, i);
  }

  /** U+017F is C5 BF. */
  lemma LongSLength(t: Bytes, j: nat)
    requires j < |t| && CodepointAt(t, j).cp == 0x17F
    ensures CodepointAt(t, j).len == 2 && t[j] == 0xC5
  {
  }

  /** The exact condition: a step of the code is the first match of the folded expression unless an
      apostrophe, U+017F and another letter or mark stand there. */
  lemma FoldedMatchIff(u: Classes, t: Bytes, i: nat)
    requires i < |t| && Ordinary(u)
    ensures Matches(Gpt2Folded(u), t, i, StepEnd(u, t, i))
       <==> !(LongS(t, i) && Is(LetterMark(u), t, i + 3))
  {
    if LongS(t, i) {
      LongSEnds(u, t, i);
    } else {
      SameWithoutLongS(u, t, i);
      StepIsMatch(u, t, i);
    }
  }

  /** Such a text: an apostrophe, U+017F, "a". */
  lemma {:induction false} FoldingDiffers(u: Classes)
    requires Ordinary(u) && u.letter(0x61)
    ensures var t: Bytes := [0x27, 0xC5, 0xBF, 0x61];
            StepEnd(u, t, 0) == 4 && Matches(Gpt2Folded(u), t, 0, 3)
  {
    var t: Bytes := [0x27, 0xC5, 0xBF, 0x61];
    assert CodepointAt(t, 0) == CpInfo(0x27, 1) && CodepointAt(t, 1) == CpInfo(0x17F, 2) && CodepointAt(t, 3) == CpInfo(0x61, 1);
    LongSEnds(u, t, 0);
    assert Is(LetterMark(u), t, 3) && Next(t, 3) == 4;
    assert RunEnd(LetterMark(u), t, 4) == 4;
  }

  // ---------------------------------------------------------------- the slices

  /** Every code point is a letter or mark, a number, white space, or a symbol, so some branch
      matches: the fallback after the last branch is unreachable. */
  lemma StepAdvances(u: Classes, t: Bytes, i: nat)
    requires i < |t|
    ensures i < StepEnd(u, t, i) <= |t|
  {
    assert Is(LetterMark(u), t, i) || Is(u.number, t, i) || Is(WhiteClass(), t, i) || Is(Symbol(u), t, i);
  }

  /** The first match of the expression at i. */
  ghost function MatchEnd(u: Classes, t: Bytes, i: nat): (e: nat)
    requires i < |t| && NumbersApart(u)
    ensures i < e <= |t|
  {
    StepIsMatch(u, t, i);
    StepAdvances(u, t, i);
    Ends(Gpt2(u), t, i)[0]
  }

  datatype Slice = Slice(off: nat, len: nat)

  /** The text cut into the successive matches of the expression. */
  ghost function Slices(u: Classes, t: Bytes, i: nat): (s: seq<Slice>)
    requires i <= |t| && NumbersApart(u)
    ensures |s| <= |t| - i
    decreases |t| - i
  {
    if i == |t| then [] else [Slice(i, MatchEnd(u, t, i) - i)] + Slices(u, t, MatchEnd(u, t, i))
  }

  ghost predicate InText(t: Bytes, s: seq<Slice>) {
    forall k :: 0 <= k < |s| ==> s[k].off + s[k].len <= |t|
  }

  ghost function Texts(t: Bytes, s: seq<Slice>): (r: seq<Bytes>)
    requires InText(t, s)
    ensures |r| == |s| && forall k :: 0 <= k < |s| ==> r[k] == t[s[k].off..s[k].off + s[k].len]
  {
    seq(|s|, k requires 0 <= k < |s| => t[s[k].off..s[k].off + s[k].len])
  }

  /** Where slice k has to start, in a list of slices that starts at i. */
  ghost function EndBefore(s: seq<Slice>, k: nat, i: nat): nat
    requires k <= |s|
  {
    if k == 0 then i else s[k - 1].off + s[k - 1].len
  }

  ghost predicate Chained(s: seq<Slice>, i: nat) {
    forall k {:trigger EndBefore(s, k, i)} :: 0 <= k < |s| ==> s[k].off == EndBefore(s, k, i)
  }

  /** The slices are non-empty, follow one another, and begin and end between code points. */
  lemma {:induction false} SlicesWhole(u: Classes, t: Bytes, i: nat)
    requires i <= |t| && NumbersApart(u)
    ensures var s := Slices(u, t, i);
            && InText(t, s) && Chained(s, i)
            && forall k :: 0 <= k < |s| ==> 0 < s[k].len && Reaches(t, s[k].off, s[k].off + s[k].len)
    decreases |t| - i
  {
    if i < |t| {
      var e := MatchEnd(u, t, i);
      SlicesWhole(u, t, e);
      MatchEndReaches(u, t, i);
      ChainCons(Slices(u, t, e), i, e);
    }
  }

  lemma ChainCons(rest: seq<Slice>, i: nat, e: nat)
    requires i <= e && Chained(rest, e)
    ensures Chained([Slice(i, e - i)] + rest, i)
  {
    var s := [Slice(i, e - i)] + rest;
    forall k: nat | k < |s|
      ensures s[k].off == EndBefore(s, k, i)
    {
      assert k > 0 ==> s[k] == rest[k - 1] && rest[k - 1].off == EndBefore(rest, k - 1, e);
    }
  }

  lemma MatchEndReaches(u: Classes, t: Bytes, i: nat)
    requires i < |t| && NumbersApart(u)
    ensures Reaches(t, i, MatchEnd(u, t, i))
  {
    StepIsMatch(u, t, i);
    StepAdvances(u, t, i);
    assert Ends(Gpt2(u), t, i)[0] in Ends(Gpt2(u), t, i);
    EndsReach(Gpt2(u), t, i, MatchEnd(u, t, i));
  }

  /** Together they spell the text. */
  lemma {:induction false} SlicesCover(u: Classes, t: Bytes, i: nat)
    requires i <= |t| && NumbersApart(u)
    ensures InText(t, Slices(u, t, i))
    ensures Flatten(Texts(t, Slices(u, t, i))) == t[i..]
    decreases |t| - i
  {
    SlicesWhole(u, t, i);
    if i < |t| {
      var e := MatchEnd(u, t, i);
      SlicesCover(u, t, e);
      CoverStep(t, i, e, Slices(u, t, e));
    }
  }

  lemma CoverStep(t: Bytes, i: nat, e: nat, rest: seq<Slice>)
    requires i <= e <= |t| && InText(t, rest) && Flatten(Texts(t, rest)) == t[e..]
    ensures InText(t, [Slice(i, e - i)] + rest)
    ensures Flatten(Texts(t, [Slice(i, e - i)] + rest)) == t[i..]
  {
    var s := [Slice(i, e - i)] + rest;
    assert Texts(t, s)[1..] == Texts(t, rest);
    assert t[i..] == t[i..e] + t[e..];
  }

  /** gpt2_pretokenize.  The result is -1 exactly when the length is not representable or the
      buffer has fewer entries than there are slices. */
  method Pretokenize(u: Classes, t: Bytes, pretoks: array<Slice>) returns (count: int)
    requires NumbersApart(u)
    modifies pretoks
    ensures count == -1 <==> |t| > 0x7FFF_FFFF || |Slices(u, t, 0)| > pretoks.Length
    ensures count != -1 ==> 0 <= count <= pretoks.Length && pretoks[..count] == Slices(u, t, 0)
  {
    if |t| > 0x7FFF_FFFF {
      return -1;
    }
    var i := 0;
    count := 0;
    ghost var all := Slices(u, t, 0);
    while i < |t|
      invariant 0 <= i <= |t| && 0 <= count <= pretoks.Length && count <= |all|
      invariant all[count..] == Slices(u, t, i)
      invariant forall k :: 0 <= k < count ==> pretoks[k] == all[k]
      decreases |t| - i
    {
      var end := MatchAt(u, t, i);
      SliceStep(u, t, i, count, all);
      if count >= pretoks.Length {
        return -1;
      }
      pretoks[count] := Slice(i, end - i);
      count := count + 1;
      i := end;
    }
  }

  lemma SliceStep(u: Classes, t: Bytes, i: nat, count: nat, all: seq<Slice>)
    requires i < |t| && NumbersApart(u) && count <= |all| && all[count..] == Slices(u, t, i)
    ensures count < |all| && all[count] == Slice(i, MatchEnd(u, t, i) - i)
    ensures all[count + 1..] == Slices(u, t, MatchEnd(u, t, i))
  {
    assert all[count] == all[count..][0];
    assert all[count + 1..] == all[count..][1..];
  }

  /** One turn of the main loop. */
  method MatchAt(u: Classes, t: Bytes, i: nat) returns (end: nat)
    requires i < |t| && NumbersApart(u)
    ensures end == MatchEnd(u, t, i)
  {
    StepIsMatch(u, t, i);
    StepAdvances(u, t, i);
    var first := DecodeCodepoint(t, i);
    end := ContractionEnd(t, i);
    if end == i {
      if u.number(first.cp) {
        end := i + first.len;
      } else {
        end := MatchLetters(u, t, i, first);
      }
    }
    if end == i {
      end := MatchSymbols(u, t, i);
    }
    if end == i {
      end := MatchWhite(t, i);
    }
    assert end > i;
  }
}
