/** Regular expressions over code points with the semantics of a backtracking matcher: a match is
    the first end position in the order in which such a matcher would try them. */
module Regex {
  import opened SeqOps
  import opened Utf8

  datatype Re =
    | Cls(has: nat -> bool)   // one code point of a class
    | Then(a: Re, b: Re)
    | Or(a: Re, b: Re)        // ordered choice
    | Opt(a: Re)              // greedy
    | Star(a: Re)             // greedy
    | NotAhead(a: Re)         // negative lookahead

  function Plus(a: Re): Re {
    Then(a, Star(a))
  }

  /** The end of the unit at i. */
  function Next(t: Bytes, i: nat): (e: nat)
    requires i < |t|
    ensures i < e <= |t|
  {
    i + CodepointAt(t, i).len
  }

  predicate Is(p: nat -> bool, t: Bytes, i: nat) {
    i < |t| && p(CodepointAt(t, i).cp)
  }

  /** All ends of matches of r that start at i, in backtracking order. */
  function Ends(r: Re, t: Bytes, i: nat): (e: seq<nat>)
    requires i <= |t|
    ensures forall k :: 0 <= k < |e| ==> e[k] <= |t|
    decreases r, |t| - i, 1
  {
    match r
    case Cls(p) => if Is(p, t, i) then [Next(t, i)] else []
    case Then(a, b) => EndsFrom(b, t, Ends(a, t, i))
    case Or(a, b) => Ends(a, t, i) + Ends(b, t, i)
    case Opt(a) => Ends(a, t, i) + [i]
    case Star(a) => StarFrom(a, t, Ends(a, t, i), i) + [i]
    case NotAhead(a) => if Ends(a, t, i) == [] then [i] else []
  }

  /** Continue with b from each position of js in turn. */
  function EndsFrom(b: Re, t: Bytes, js: seq<nat>): (e: seq<nat>)
    requires forall k :: 0 <= k < |js| ==> js[k] <= |t|
    ensures forall k :: 0 <= k < |e| ==> e[k] <= |t|
    decreases b, |t| + 1, 0, |js|
  {
    if js == [] then [] else Ends(b, t, js[0]) + EndsFrom(b, t, js[1..])
  }

  /** Another round of a star from each position that made progress. */
  function StarFrom(a: Re, t: Bytes, js: seq<nat>, i: nat): (e: seq<nat>)
    requires i <= |t|
    requires forall k :: 0 <= k < |js| ==> js[k] <= |t|
    ensures forall k :: 0 <= k < |e| ==> e[k] <= |t|
    decreases Star(a), |t| - i, 0, |js|
  {
    if js == [] then []
    else (if js[0] > i then Ends(Star(a), t, js[0]) else []) + StarFrom(a, t, js[1..], i)
  }

  // ---------------------------------------------------------------- code points are never split

  /** e is reached from i by whole units. */
  ghost predicate Reaches(t: Bytes, i: nat, e: nat)
    decreases |t| - i
  {
    i == e || (i < |t| && Next(t, i) <= e && Reaches(t, Next(t, i), e))
  }

  lemma {:induction false} ReachesTrans(t: Bytes, i: nat, j: nat, e: nat)
    requires Reaches(t, i, j) && Reaches(t, j, e) && j <= e
    ensures Reaches(t, i, e)
    decreases |t| - i
  {
    if i != j {
      ReachesTrans(t, Next(t, i), j, e);
    }
  }

  /** No expression over code point classes can end a match inside a unit. */
  lemma {:induction false} EndsReach(r: Re, t: Bytes, i: nat, e: nat)
    requires i <= |t| && e in Ends(r, t, i)
    ensures i <= e && Reaches(t, i, e)
    decreases r, |t| - i, 1
  {
    match r
    case Cls(p) =>
    case Then(a, b) =>
      var j := EndsFromReach(b, t, Ends(a, t, i), e);
      EndsReach(a, t, i, j);
      ReachesTrans(t, i, j, e);
    case Or(a, b) =>
      if e in Ends(a, t, i) {
        EndsReach(a, t, i, e);
      } else {
        EndsReach(b, t, i, e);
      }
    case Opt(a) =>
      if e != i {
        EndsReach(a, t, i, e);
      }
    case Star(a) =>
      if e != i {
        var j := StarFromReach(a, t, Ends(a, t, i), i, e);
        EndsReach(a, t, i, j);
        ReachesTrans(t, i, j, e);
      }
    case NotAhead(a) =>
  }

  lemma {:induction false} EndsFromReach(b: Re, t: Bytes, js: seq<nat>, e: nat) returns (j: nat)
    requires forall k :: 0 <= k < |js| ==> js[k] <= |t|
    requires e in EndsFrom(b, t, js)
    ensures j in js && j <= e && Reaches(t, j, e)
    decreases b, |t| + 1, 0, |js|
  {
    if e in Ends(b, t, js[0]) {
      j := js[0];
      EndsReach(b, t, j, e);
    } else {
      j := EndsFromReach(b, t, js[1..], e);
    }
  }

  lemma {:induction false} StarFromReach(a: Re, t: Bytes, js: seq<nat>, i: nat, e: nat) returns (j: nat)
    requires i <= |t| && forall k :: 0 <= k < |js| ==> js[k] <= |t|
    requires e in StarFrom(a, t, js, i)
    ensures j in js && j <= e && Reaches(t, j, e)
    decreases Star(a), |t| - i, 0, |js|
  {
    if js[0] > i && e in Ends(Star(a), t, js[0]) {
      j := js[0];
      EndsReach(Star(a), t, j, e);
    } else {
      j := StarFromReach(a, t, js[1..], i, e);
    }
  }

  // ---------------------------------------------------------------- single-class repetition

  /** Where the longest run of class p from i ends. */
  function RunEnd(p: nat -> bool, t: Bytes, i: nat): (e: nat)
    requires i <= |t|
    ensures i <= e <= |t| && !Is(p, t, e)
    ensures Is(p, t, i) <==> i < e
    decreases |t| - i
  {
    if Is(p, t, i) then RunEnd(p, t, Next(t, i)) else i
  }

  lemma StarOfClass(p: nat -> bool, t: Bytes, i: nat)
    requires i <= |t|
    ensures Ends(Star(Cls(p)), t, i) == (if Is(p, t, i) then Ends(Star(Cls(p)), t, Next(t, i)) else []) + [i]
  {
    var js := Ends(Cls(p), t, i);
    if Is(p, t, i) {
      assert js == [Next(t, i)] && js[1..] == [];
      assert StarFrom(Cls(p), t, js, i) == Ends(Star(Cls(p)), t, Next(t, i)) + [];
    }
  }

  /** A greedy star over a class first tries the whole run. */
  lemma {:induction false} StarFirst(p: nat -> bool, t: Bytes, i: nat)
    requires i <= |t|
    ensures Ends(Star(Cls(p)), t, i) != [] && Ends(Star(Cls(p)), t, i)[0] == RunEnd(p, t, i)
    decreases |t| - i
  {
    StarOfClass(p, t, i);
    if Is(p, t, i) {
      StarFirst(p, t, Next(t, i));
    }
  }

  lemma ThenOfClass(p: nat -> bool, b: Re, t: Bytes, i: nat)
    requires i <= |t|
    ensures Ends(Then(Cls(p), b), t, i) == if Is(p, t, i) then Ends(b, t, Next(t, i)) else []
  {
    var js := Ends(Cls(p), t, i);
    if Is(p, t, i) {
      assert js == [Next(t, i)] && js[1..] == [];
      assert EndsFrom(b, t, js) == Ends(b, t, Next(t, i)) + [];
    }
  }

  lemma PlusFirst(p: nat -> bool, t: Bytes, i: nat)
    requires i <= |t|
    ensures Ends(Plus(Cls(p)), t, i) != [] <==> Is(p, t, i)
    ensures Is(p, t, i) ==> Ends(Plus(Cls(p)), t, i)[0] == RunEnd(p, t, i)
  {
    ThenOfClass(p, Star(Cls(p)), t, i);
    if Is(p, t, i) {
      StarFirst(p, t, Next(t, i));
    }
  }

  lemma {:induction false} EndsFromAppend(b: Re, t: Bytes, js: seq<nat>, ks: seq<nat>)
    requires forall k :: 0 <= k < |js| ==> js[k] <= |t|
    requires forall k :: 0 <= k < |ks| ==> ks[k] <= |t|
    ensures EndsFrom(b, t, js + ks) == EndsFrom(b, t, js) + EndsFrom(b, t, ks)
  {
    if js == [] {
      assert js + ks == ks;
    } else {
      assert (js + ks)[0] == js[0] && (js + ks)[1..] == js[1..] + ks;
      EndsFromAppend(b, t, js[1..], ks);
      Assoc(Ends(b, t, js[0]), EndsFrom(b, t, js[1..]), EndsFrom(b, t, ks));
    }
  }

  lemma EndsFromOne(b: Re, t: Bytes, j: nat)
    requires j <= |t|
    ensures EndsFrom(b, t, [j]) == Ends(b, t, j)
  {
    assert [j][1..] == [];
    assert EndsFrom(b, t, [j]) == Ends(b, t, j) + [];
  }

  /** Backtracking out of a class star: first everything that follows a longer prefix of the run,
      then what follows the empty one. */
  lemma StarThen(p: nat -> bool, b: Re, t: Bytes, i: nat)
    requires i <= |t|
    ensures Ends(Then(Star(Cls(p)), b), t, i)
         == (if Is(p, t, i) then Ends(Then(Star(Cls(p)), b), t, Next(t, i)) else []) + Ends(b, t, i)
  {
    StarOfClass(p, t, i);
    EndsFromOne(b, t, i);
    if Is(p, t, i) {
      EndsFromAppend(b, t, Ends(Star(Cls(p)), t, Next(t, i)), [i]);
    } else {
      assert [] + [i] == [i];
    }
  }

  /** A greedy option over a class. */
  lemma OptThen(p: nat -> bool, b: Re, t: Bytes, i: nat)
    requires i <= |t|
    ensures Ends(Then(Opt(Cls(p)), b), t, i)
         == (if Is(p, t, i) then Ends(b, t, Next(t, i)) else []) + Ends(b, t, i)
  {
    EndsFromOne(b, t, i);
    if Is(p, t, i) {
      assert Ends(Opt(Cls(p)), t, i) == [Next(t, i)] + [i];
      EndsFromAppend(b, t, [Next(t, i)], [i]);
      EndsFromOne(b, t, Next(t, i));
    } else {
      assert Ends(Opt(Cls(p)), t, i) == [] + [i] == [i];
    }
  }

  /** `[p]+[q]*` never backtracks. */
  lemma PlusStarFirst(p: nat -> bool, q: nat -> bool, t: Bytes, i: nat)
    requires i <= |t|
    ensures Ends(Then(Plus(Cls(p)), Star(Cls(q))), t, i) != [] <==> Is(p, t, i)
    ensures Is(p, t, i) ==> Ends(Then(Plus(Cls(p)), Star(Cls(q))), t, i)[0] == RunEnd(q, t, RunEnd(p, t, i))
  {
    PlusFirst(p, t, i);
    var js := Ends(Plus(Cls(p)), t, i);
    if Is(p, t, i) {
      StarFirst(q, t, js[0]);
      assert EndsFrom(Star(Cls(q)), t, js) == Ends(Star(Cls(q)), t, js[0]) + EndsFrom(Star(Cls(q)), t, js[1..]);
    }
  }
}
