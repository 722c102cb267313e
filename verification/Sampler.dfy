/** The three logit filters of the sampler and their composition, over exact reals. */
module Sampler {
  /** A logit or a cutoff. Filters write -inf into masked places; +inf appears only while a cutoff
      is being computed. */
  datatype Logit = NegInf | Fin(v: real) | PosInf

  predicate Ge(a: Logit, b: Logit) {
    a.PosInf? || b.NegInf? || (a.Fin? && b.Fin? && a.v >= b.v)
  }

  predicate Gt(a: Logit, b: Logit) {
    !Ge(b, a)
  }

  /** What the model produces: at least one finite logit and no +inf. */
  ghost predicate Logits(xs: seq<Logit>) {
    (forall i :: 0 <= i < |xs| ==> !xs[i].PosInf?) && exists i :: 0 <= i < |xs| && xs[i].Fin?
  }

  function MaxOf(xs: seq<Logit>): (m: Logit)
    requires |xs| > 0
    ensures m in xs && forall i :: 0 <= i < |xs| ==> Ge(m, xs[i])
  {
    if |xs| == 1 then xs[0]
    else
      var rest := MaxOf(xs[1..]);
      if Ge(xs[0], rest) then xs[0] else rest
  }

  function MinOf(xs: seq<Logit>): (m: Logit)
    requires |xs| > 0
    ensures m in xs && forall i :: 0 <= i < |xs| ==> Ge(xs[i], m)
  {
    if |xs| == 1 then xs[0]
    else
      var rest := MinOf(xs[1..]);
      if Ge(xs[0], rest) then rest else xs[0]
  }

  /** where(logits >= cutoff, logits, -inf). */
  function MaskBelow(xs: seq<Logit>, c: Logit): (r: seq<Logit>)
    ensures |r| == |xs|
  {
    seq(|xs|, i requires 0 <= i < |xs| => if Ge(xs[i], c) then xs[i] else NegInf)
  }

  // ---------------------------------------------------------------- sums

  ghost function Sum(f: Logit -> real, xs: seq<Logit>): real {
    if xs == [] then 0.0 else f(xs[0]) + Sum(f, xs[1..])
  }

  lemma {:induction false} SumConcat(f: Logit -> real, xs: seq<Logit>, ys: seq<Logit>)
    ensures Sum(f, xs + ys) == Sum(f, xs) + Sum(f, ys)
  {
    if xs == [] {
      assert xs + ys == ys;
    } else {
      assert (xs + ys)[1..] == xs[1..] + ys;
      SumConcat(f, xs[1..], ys);
    }
  }

  lemma WithoutOne(xs: seq<Logit>, x: Logit, a: seq<Logit>, b: seq<Logit>)
    requires multiset([x] + xs) == multiset(a + ([x] + b))
    ensures multiset(xs) == multiset(a + b)
  {
    assert multiset([x] + xs) == multiset{x} + multiset(xs);
    assert multiset(a + ([x] + b)) == multiset(a) + (multiset{x} + multiset(b));
    assert multiset(xs) == (multiset{x} + multiset(xs)) - multiset{x};
    assert multiset(a) + multiset(b) == (multiset(a) + (multiset{x} + multiset(b))) - multiset{x};
  }

  lemma SumAround(f: Logit -> real, x: Logit, a: seq<Logit>, b: seq<Logit>)
    ensures Sum(f, a + ([x] + b)) == f(x) + Sum(f, a + b)
  {
    SumConcat(f, a, [x] + b);
    SumConcat(f, a, b);
    assert ([x] + b)[1..] == b;
  }

  /** A sum does not depend on the order of its terms. */
  lemma {:induction false} SumPermuted(f: Logit -> real, xs: seq<Logit>, ys: seq<Logit>)
    requires multiset(xs) == multiset(ys)
    ensures Sum(f, xs) == Sum(f, ys)
  {
    assert |xs| == |multiset(xs)| == |multiset(ys)| == |ys|;
    if xs != [] {
      var x := xs[0];
      assert x in multiset(ys);
      var i :| 0 <= i < |ys| && ys[i] == x;
      var a, b := ys[..i], ys[i + 1..];
      assert ys == a + ([x] + b);
      assert xs == [x] + xs[1..];
      WithoutOne(xs[1..], x, a, b);
      SumPermuted(f, xs[1..], a + b);
      SumAround(f, x, a, b);
    }
  }

  lemma {:induction false} SumLe(f: Logit -> real, g: Logit -> real, xs: seq<Logit>)
    requires forall i :: 0 <= i < |xs| ==> f(xs[i]) <= g(xs[i])
    ensures Sum(f, xs) <= Sum(g, xs)
  {
    if xs != [] {
      SumLe(f, g, xs[1..]);
    }
  }

  lemma SumEq(f: Logit -> real, g: Logit -> real, xs: seq<Logit>)
    requires forall i :: 0 <= i < |xs| ==> f(xs[i]) == g(xs[i])
    ensures Sum(f, xs) == Sum(g, xs)
  {
    SumLe(f, g, xs);
    SumLe(g, f, xs);
  }

  function Zero(): Logit -> real {
    (l: Logit) => 0.0
  }

  lemma {:induction false} SumZero(xs: seq<Logit>)
    ensures Sum(Zero(), xs) == 0.0
  {
    if xs != [] {
      SumZero(xs[1..]);
    }
  }

  // ---------------------------------------------------------------- weights and probabilities

  predicate Times(e: real -> real, a: real, b: real) {
    e(a + b) == e(a) * e(b)
  }

  /** The laws of exp the filters rely on. */
  ghost predicate IsExp(e: real -> real) {
    && (forall a :: e(a) > 0.0)
    && (forall a, b :: a < b ==> e(a) < e(b))
    && (forall a, b {:trigger Times(e, a, b)} :: Times(e, a, b))
  }

  function Weight(e: real -> real, l: Logit): real {
    if l.Fin? then e(l.v) else 0.0
  }

  /** mp times as likely as m, or likelier. */
  predicate LikelyEnough(e: real -> real, mp: real, m: Logit, l: Logit) {
    Weight(e, l) >= Part(mp, Weight(e, m))
  }

  /** The part p of the mass w. */
  function Part(p: real, w: real): real {
    p * w
  }

  function Weights(e: real -> real): Logit -> real {
    (l: Logit) => Weight(e, l)
  }

  /** softmax's denominator. */
  ghost function Mass(e: real -> real, xs: seq<Logit>): real {
    Sum(Weights(e), xs)
  }

  /** The weight of a logit if it is at least (or above) a cutoff, else 0. */
  function WeightsFrom(e: real -> real, c: Logit): Logit -> real {
    (l: Logit) => if Ge(l, c) then Weight(e, l) else 0.0
  }

  function WeightsAbove(e: real -> real, c: Logit): Logit -> real {
    (l: Logit) => if Gt(l, c) then Weight(e, l) else 0.0
  }

  function Prob(e: real -> real, total: real): Logit -> real
    requires total != 0.0
  {
    (l: Logit) => Weight(e, l) / total
  }

  lemma {:induction false} SumProb(e: real -> real, total: real, xs: seq<Logit>)
    requires total > 0.0
    ensures Sum(Prob(e, total), xs) * total == Mass(e, xs)
  {
    if xs != [] {
      SumProb(e, total, xs[1..]);
      var q, r := Weight(e, xs[0]) / total, Sum(Prob(e, total), xs[1..]);
      assert (q + r) * total == q * total + r * total;
      assert q * total == Weight(e, xs[0]);
    }
  }

  lemma MassPositive(e: real -> real, xs: seq<Logit>)
    requires IsExp(e) && Logits(xs)
    ensures Mass(e, xs) > 0.0
  {
    var i :| 0 <= i < |xs| && xs[i].Fin?;
    assert xs == xs[..i] + ([xs[i]] + xs[i + 1..]);
    SumConcat(Weights(e), xs[..i], [xs[i]] + xs[i + 1..]);
    assert ([xs[i]] + xs[i + 1..])[1..] == xs[i + 1..];
    MassNonneg(e, xs[..i]);
    MassNonneg(e, xs[i + 1..]);
  }

  lemma MassNonneg(e: real -> real, xs: seq<Logit>)
    requires IsExp(e)
    ensures Mass(e, xs) >= 0.0
  {
    SumZero(xs);
    SumLe(Zero(), Weights(e), xs);
  }

  /** The mass a mask leaves is the mass of the logits at or above the cutoff. */
  lemma {:induction false} MaskedMass(e: real -> real, xs: seq<Logit>, c: Logit)
    ensures Mass(e, MaskBelow(xs, c)) == Sum(WeightsFrom(e, c), xs)
  {
    if xs != [] {
      assert MaskBelow(xs, c)[1..] == MaskBelow(xs[1..], c);
      MaskedMass(e, xs[1..], c);
    }
  }

  // ---------------------------------------------------------------- top-p

  ghost predicate IsSort(s: seq<Logit>, xs: seq<Logit>) {
    multiset(s) == multiset(xs) && forall i, j :: 0 <= i < j < |s| ==> Ge(s[j], s[i])
  }

  /** cumsum(softmax(sorted)) at i, inclusive. */
  ghost function CumProb(e: real -> real, s: seq<Logit>, i: nat): real
    requires i < |s| && Mass(e, s) != 0.0
  {
    Sum(Prob(e, Mass(e, s)), s[..i + 1])
  }

  /** where(cumsum > 1 - p, sorted, +inf). */
  ghost function NucleusLogits(e: real -> real, s: seq<Logit>, p: real): (r: seq<Logit>)
    requires Mass(e, s) != 0.0
    ensures |r| == |s|
  {
    seq(|s|, i requires 0 <= i < |s| => if CumProb(e, s, i) > 1.0 - p then s[i] else PosInf)
  }

  /** The cutoff sampler_apply_top_p clamps to max(logits), for 0 < p < 1. */
  ghost function NucleusCutoff(e: real -> real, xs: seq<Logit>, s: seq<Logit>, p: real): Logit
    requires |xs| > 0 && |s| > 0 && Mass(e, s) != 0.0
  {
    MinOf([MinOf(NucleusLogits(e, s, p)), MaxOf(xs)])
  }

  ghost function TopP(e: real -> real, xs: seq<Logit>, s: seq<Logit>, p: real): (r: seq<Logit>)
    requires |xs| > 0 && |s| > 0 && Mass(e, s) != 0.0
  {
    if p >= 1.0 then xs
    else if p <= 0.0 then MaskBelow(xs, MaxOf(xs))
    else MaskBelow(xs, NucleusCutoff(e, xs, s, p))
  }

  lemma SortFacts(e: real -> real, xs: seq<Logit>, s: seq<Logit>)
    requires IsExp(e) && Logits(xs) && IsSort(s, xs)
    ensures |s| == |xs| > 0 && Logits(s) && Mass(e, s) == Mass(e, xs) > 0.0
  {
    assert |s| == |multiset(s)| && |xs| == |multiset(xs)|;
    forall i | 0 <= i < |s|
      ensures !s[i].PosInf?
    {
      assert s[i] in multiset(xs);
    }
    var k :| 0 <= k < |xs| && xs[k].Fin?;
    assert xs[k] in multiset(s);
    SumPermuted(Weights(e), s, xs);
    MassPositive(e, xs);
  }

  lemma PartOf(p: real, w: real)
    requires w > 0.0
    ensures w - Part(1.0 - p, w) == Part(p, w)
    ensures p < 1.0 ==> Part(1.0 - p, w) >= 0.0
    ensures p > 0.0 ==> Part(1.0 - p, w) < w
  {
    var q := 1.0 - p;
    assert (q + p) * w == q * w + p * w;
    assert p > 0.0 ==> p * w > 0.0;
  }

  lemma Scale(x: real, y: real, t: real)
    requires t > 0.0
    ensures x > y <==> x * t > y * t
  {
  }

  /** In the nucleus: the mass of the tail up to and including i exceeds (1 - p) of the whole. */
  lemma InNucleus(e: real -> real, s: seq<Logit>, p: real, i: nat)
    requires i < |s| && Mass(e, s) > 0.0
    ensures CumProb(e, s, i) > 1.0 - p <==> Mass(e, s[..i + 1]) > Part(1.0 - p, Mass(e, s))
  {
    SumProb(e, Mass(e, s), s[..i + 1]);
    Scale(CumProb(e, s, i), 1.0 - p, Mass(e, s));
  }

  /** The first position whose inclusive tail mass exceeds (1 - p) of the whole. */
  lemma {:induction false} FirstIn(e: real -> real, s: seq<Logit>, bound: real, n: nat) returns (t: nat)
    requires n <= |s| && Mass(e, s[..n]) > bound >= 0.0
    ensures t < n && Mass(e, s[..t + 1]) > bound
    ensures Mass(e, s[..t]) <= bound
  {
    if Mass(e, s[..n - 1]) > bound {
      t := FirstIn(e, s, bound, n - 1);
    } else {
      t := n - 1;
    }
  }

  lemma PrefixMassGrows(e: real -> real, s: seq<Logit>, i: nat, j: nat)
    requires IsExp(e) && i <= j <= |s|
    ensures Mass(e, s[..i]) <= Mass(e, s[..j])
  {
    assert s[..j] == s[..i] + s[i..j];
    SumConcat(Weights(e), s[..i], s[i..j]);
    MassNonneg(e, s[i..j]);
  }

  lemma GeAntisym(a: Logit, b: Logit)
    requires Ge(a, b) && Ge(b, a)
    ensures a == b
  {
  }

  /** The cutoff is the sorted logit at the first position inside the nucleus. */
  lemma {:induction false} CutoffIs(e: real -> real, xs: seq<Logit>, s: seq<Logit>, p: real) returns (t: nat)
    requires IsExp(e) && Logits(xs) && IsSort(s, xs) && 0.0 < p < 1.0
    ensures t < |s| && |xs| > 0 && Mass(e, s) > 0.0
    ensures NucleusCutoff(e, xs, s, p) == s[t]
    ensures Mass(e, s[..t]) <= Part(1.0 - p, Mass(e, s)) < Mass(e, s[..t + 1])
  {
    SortFacts(e, xs, s);
    var bound := Part(1.0 - p, Mass(e, s));
    assert s[..|s|] == s;
    PartOf(p, Mass(e, s));
    t := FirstIn(e, s, bound, |s|);
    MinIsFirst(e, s, p, t);
    assert s[t] in multiset(xs);
    GeMax(xs, s[t]);
  }

  lemma GeMax(xs: seq<Logit>, l: Logit)
    requires l in xs
    ensures MinOf([l, MaxOf(xs)]) == l
  {
    assert Ge(MaxOf(xs), l);
    var two := [l, MaxOf(xs)];
    assert two[1] == MaxOf(xs) && two[0] == l;
    var m := MinOf(two);
    assert Ge(two[0], m) && Ge(two[1], m);
    if m == MaxOf(xs) {
      GeAntisym(l, m);
    }
  }

  lemma MinIsFirst(e: real -> real, s: seq<Logit>, p: real, t: nat)
    requires IsExp(e) && Mass(e, s) > 0.0 && t < |s| && Logits(s)
    requires forall i, j :: 0 <= i < j < |s| ==> Ge(s[j], s[i])
    requires Mass(e, s[..t]) <= Part(1.0 - p, Mass(e, s)) < Mass(e, s[..t + 1])
    ensures MinOf(NucleusLogits(e, s, p)) == s[t]
  {
    var r := NucleusLogits(e, s, p);
    InNucleus(e, s, p, t);
    assert r[t] == s[t];
    forall i | 0 <= i < |s|
      ensures Ge(r[i], s[t])
    {
      if i < t {
        PrefixMassGrows(e, s, i + 1, t);
        InNucleus(e, s, p, i);
      }
    }
    var m := MinOf(r);
    assert Ge(r[t], m);
    GeAntisym(s[t], m);
  }

  /** For 0 < p < 1 the kept logits hold at least p of the probability mass, and those strictly
      above the cutoff hold less than p: the nucleus is as small as cutoffs allow. */
  lemma {:induction false} NucleusMass(e: real -> real, xs: seq<Logit>, s: seq<Logit>, p: real)
    requires IsExp(e) && Logits(xs) && IsSort(s, xs) && 0.0 < p < 1.0
    ensures |s| == |xs| > 0 && Mass(e, s) > 0.0
    ensures Mass(e, TopP(e, xs, s, p)) >= Part(p, Mass(e, xs))
    ensures Sum(WeightsAbove(e, NucleusCutoff(e, xs, s, p)), xs) < Part(p, Mass(e, xs))
  {
    SortFacts(e, xs, s);
    var t := CutoffIs(e, xs, s, p);
    NucleusBounds(e, xs, s, t);
    var w, lo, hi := Mass(e, s), Mass(e, s[..t]), Mass(e, s[..t + 1]);
    PartBounds(p, w, lo, hi, Mass(e, MaskBelow(xs, s[t])), Sum(WeightsAbove(e, s[t]), xs));
  }

  lemma PartBounds(p: real, w: real, lo: real, hi: real, kept: real, above: real)
    requires w > 0.0 && lo <= Part(1.0 - p, w) < hi && kept >= w - lo && above <= w - hi
    ensures kept >= Part(p, w) && above < Part(p, w)
  {
    PartOf(p, w);
  }

  lemma NucleusBounds(e: real -> real, xs: seq<Logit>, s: seq<Logit>, t: nat)
    requires IsExp(e) && IsSort(s, xs) && t < |s|
    ensures Mass(e, MaskBelow(xs, s[t])) >= Mass(e, s) - Mass(e, s[..t])
    ensures Sum(WeightsAbove(e, s[t]), xs) <= Mass(e, s) - Mass(e, s[..t + 1])
  {
    var c := s[t];
    MaskedMass(e, xs, c);
    SumPermuted(WeightsFrom(e, c), xs, s);
    SumPermuted(WeightsAbove(e, c), xs, s);
    KeptFrom(e, s, t);
    AboveAfter(e, s, t);
  }

  lemma KeptFrom(e: real -> real, s: seq<Logit>, t: nat)
    requires IsExp(e) && t < |s| && forall i, j :: 0 <= i < j < |s| ==> Ge(s[j], s[i])
    ensures Sum(WeightsFrom(e, s[t]), s) >= Mass(e, s) - Mass(e, s[..t])
  {
    var f := WeightsFrom(e, s[t]);
    var lo, hi := s[..t], s[t..];
    assert s == lo + hi;
    SumConcat(f, lo, hi);
    SumConcat(Weights(e), lo, hi);
    SumEq(f, Weights(e), hi);
    SumZero(lo);
    SumLe(Zero(), f, lo);
  }

  lemma AboveAfter(e: real -> real, s: seq<Logit>, t: nat)
    requires IsExp(e) && t < |s| && forall i, j :: 0 <= i < j < |s| ==> Ge(s[j], s[i])
    ensures Sum(WeightsAbove(e, s[t]), s) <= Mass(e, s) - Mass(e, s[..t + 1])
  {
    var f := WeightsAbove(e, s[t]);
    var lo, hi := s[..t + 1], s[t + 1..];
    assert s == lo + hi;
    SumConcat(f, lo, hi);
    SumConcat(Weights(e), lo, hi);
    SumLe(f, Weights(e), hi);
    SumEq(f, Zero(), lo);
    SumZero(lo);
  }

  // ---------------------------------------------------------------- top-k

  /** What mlx_topk returns: k of the values, none below one it left out. */
  ghost predicate IsTopK(top: seq<Logit>, rest: seq<Logit>, xs: seq<Logit>) {
    && multiset(top + rest) == multiset(xs)
    && (forall i, j :: 0 <= i < |top| && 0 <= j < |rest| ==> Ge(top[i], rest[j]))
  }

  function TopK(xs: seq<Logit>, k: int, top: seq<Logit>): (r: seq<Logit>)
    requires 0 < k < |xs| ==> |top| == k
    ensures |r| == |xs|
  {
    if k <= 0 || k >= |xs| then xs else MaskBelow(xs, MinOf(top))
  }

  function CountFrom(c: Logit): Logit -> real {
    (l: Logit) => if Ge(l, c) then 1.0 else 0.0
  }

  function CountAbove(c: Logit): Logit -> real {
    (l: Logit) => if Gt(l, c) then 1.0 else 0.0
  }

  function One(): Logit -> real {
    (l: Logit) => 1.0
  }

  lemma {:induction false} SumOne(xs: seq<Logit>)
    ensures Sum(One(), xs) == |xs| as real
  {
    if xs != [] {
      SumOne(xs[1..]);
    }
  }

  /** At least k logits reach the cutoff and fewer than k lie above it. */
  lemma TopKCount(xs: seq<Logit>, top: seq<Logit>, rest: seq<Logit>, k: int)
    requires 0 < k < |xs| && |top| == k && IsTopK(top, rest, xs)
    ensures Sum(CountFrom(MinOf(top)), xs) >= k as real
    ensures Sum(CountAbove(MinOf(top)), xs) < k as real
  {
    var c := MinOf(top);
    SumPermuted(CountFrom(c), top + rest, xs);
    SumPermuted(CountAbove(c), top + rest, xs);
    SumConcat(CountFrom(c), top, rest);
    SumConcat(CountAbove(c), top, rest);
    SumOne(top);
    SumEq(CountFrom(c), One(), top);
    SumZero(rest);
    SumLe(Zero(), CountFrom(c), rest);
    SumEq(CountAbove(c), Zero(), rest);
    var i :| 0 <= i < |top| && top[i] == c;
    NotAllAbove(top, c, i);
  }

  lemma NotAllAbove(xs: seq<Logit>, c: Logit, i: nat)
    requires i < |xs| && xs[i] == c
    ensures Sum(CountAbove(c), xs) <= |xs| as real - 1.0
  {
    var a, b := xs[..i], xs[i + 1..];
    assert xs == a + ([c] + b) && ([c] + b)[1..] == b;
    SumConcat(CountAbove(c), a, [c] + b);
    SumLe(CountAbove(c), One(), a);
    SumLe(CountAbove(c), One(), b);
    SumOne(a);
    SumOne(b);
  }

  // ---------------------------------------------------------------- min-p

  /** max(logits) + log(min_p). */
  function Shift(m: Logit, lm: real): Logit {
    if m.Fin? then Fin(m.v + lm) else m
  }

  /** lm is log(mp); it is looked at only when mp > 0. */
  function MinP(xs: seq<Logit>, mp: real, lm: real): (r: seq<Logit>)
    requires |xs| > 0
    ensures |r| == |xs|
  {
    if mp <= 0.0 then xs else MaskBelow(xs, Shift(MaxOf(xs), lm))
  }

  lemma MaxFinite(xs: seq<Logit>)
    requires Logits(xs)
    ensures |xs| > 0 && MaxOf(xs).Fin?
  {
    var i :| 0 <= i < |xs| && xs[i].Fin?;
    assert Ge(MaxOf(xs), xs[i]);
  }

  lemma Ordered(e: real -> real, a: real, b: real)
    requires IsExp(e)
    ensures a >= b <==> e(a) >= e(b)
  {
    if a < b {
      assert e(a) < e(b);
    } else if b < a {
      assert e(b) < e(a);
    }
  }

  lemma ShiftedWeight(e: real -> real, m: real, mp: real, lm: real)
    requires IsExp(e) && mp > 0.0 && e(lm) == mp
    ensures e(m + lm) == Part(mp, Weight(e, Fin(m))) > 0.0
  {
    assert Times(e, m, lm);
  }

  lemma ThresholdPoint(e: real -> real, l: Logit, m: real, mp: real, lm: real)
    requires IsExp(e) && mp > 0.0 && e(lm) == mp && !l.PosInf?
    ensures Ge(l, Fin(m + lm)) <==> LikelyEnough(e, mp, Fin(m), l)
  {
    ShiftedWeight(e, m, mp, lm);
    if l.Fin? {
      Ordered(e, l.v, m + lm);
    }
  }

  /** The threshold in logit space keeps exactly the tokens at least min_p times as likely as the
      likeliest one. */
  lemma {:induction false} MinPExact(e: real -> real, xs: seq<Logit>, mp: real, lm: real, i: nat)
    requires IsExp(e) && Logits(xs) && mp > 0.0 && e(lm) == mp && i < |xs|
    ensures MinP(xs, mp, lm)[i] == (if LikelyEnough(e, mp, MaxOf(xs), xs[i]) then xs[i] else NegInf)
  {
    MaxFinite(xs);
    var m := MaxOf(xs).v;
    ThresholdPoint(e, xs[i], m, mp, lm);
  }

  // ---------------------------------------------------------------- composition

  datatype Params = Params(topK: int, topP: real, minP: real)

  /** The library's answers along the way: the k largest values, and the sorted result of top-k. */
  datatype Oracle = Oracle(top: seq<Logit>, rest: seq<Logit>, sorted: seq<Logit>, logMinP: real)

  ghost predicate Answers(e: real -> real, xs: seq<Logit>, ps: Params, o: Oracle) {
    && (0 < ps.topK < |xs| ==> |o.top| == ps.topK && IsTopK(o.top, o.rest, xs))
    && IsSort(o.sorted, TopK(xs, ps.topK, o.top))
    && (ps.minP > 0.0 ==> e(o.logMinP) == ps.minP)
  }

  /** sampler_sample_lazy: top-k, then top-p, then min-p. */
  ghost function Filtered(e: real -> real, xs: seq<Logit>, ps: Params, o: Oracle): (r: seq<Logit>)
    requires IsExp(e) && Logits(xs) && Answers(e, xs, ps, o)
    ensures |r| == |xs|
  {
    var a := TopK(xs, ps.topK, o.top);
    TopKIsMask(xs, ps, o);
    SortFacts(e, a, o.sorted);
    var b := TopP(e, a, o.sorted, ps.topP);
    MinP(b, ps.minP, o.logMinP)
  }

  /** Masking at or below the maximum keeps the maximum, wherever it stands. */
  lemma {:induction false} MaskKeepsMax(xs: seq<Logit>, c: Logit)
    requires Logits(xs)
    ensures |xs| > 0
    ensures Ge(MaxOf(xs), c) ==> Logits(MaskBelow(xs, c)) && MaxOf(MaskBelow(xs, c)) == MaxOf(xs)
    ensures Gt(c, MaxOf(xs)) ==> forall i :: 0 <= i < |xs| ==> MaskBelow(xs, c)[i] == NegInf
  {
    MaxFinite(xs);
    var m, r := MaxOf(xs), MaskBelow(xs, c);
    if Ge(m, c) {
      var k :| 0 <= k < |xs| && xs[k] == m;
      assert r[k] == m;
      assert Ge(MaxOf(r), r[k]);
      var j :| 0 <= j < |r| && r[j] == MaxOf(r);
      assert Ge(m, r[j]);
      GeAntisym(m, MaxOf(r));
    } else {
      forall i | 0 <= i < |xs|
        ensures r[i] == NegInf
      {
        assert Ge(m, xs[i]);
      }
    }
  }

  /** Two masks in a row are one mask at the higher cutoff. */
  lemma MaskMask(xs: seq<Logit>, c: Logit, d: Logit)
    ensures MaskBelow(MaskBelow(xs, c), d) == MaskBelow(xs, if Ge(c, d) then c else d)
  {
  }

  lemma MaskNothing(xs: seq<Logit>)
    ensures MaskBelow(xs, NegInf) == xs
  {
  }

  function TopKCut(xs: seq<Logit>, ps: Params, o: Oracle): Logit {
    if 0 < ps.topK < |xs| && |o.top| > 0 then MinOf(o.top) else NegInf
  }

  lemma {:induction false} TopKIsMask(xs: seq<Logit>, ps: Params, o: Oracle)
    requires Logits(xs)
    requires 0 < ps.topK < |xs| ==> |o.top| == ps.topK && IsTopK(o.top, o.rest, xs)
    ensures Ge(MaxOf(xs), TopKCut(xs, ps, o))
    ensures TopK(xs, ps.topK, o.top) == MaskBelow(xs, TopKCut(xs, ps, o))
    ensures Logits(TopK(xs, ps.topK, o.top))
  {
    MaxFinite(xs);
    MaskNothing(xs);
    if 0 < ps.topK < |xs| {
      var c := MinOf(o.top);
      assert c in o.top + o.rest && c in multiset(xs);
      MaskKeepsMax(xs, c);
    }
  }

  ghost function TopPCut(e: real -> real, xs: seq<Logit>, s: seq<Logit>, p: real): Logit
    requires |xs| > 0 && |s| > 0 && Mass(e, s) != 0.0
  {
    if p >= 1.0 then NegInf else if p <= 0.0 then MaxOf(xs) else NucleusCutoff(e, xs, s, p)
  }

  lemma TopPIsMask(e: real -> real, xs: seq<Logit>, s: seq<Logit>, p: real)
    requires IsExp(e) && Logits(xs) && IsSort(s, xs)
    ensures |xs| > 0 && |s| > 0 && Mass(e, s) != 0.0
    ensures Ge(MaxOf(xs), TopPCut(e, xs, s, p))
    ensures TopP(e, xs, s, p) == MaskBelow(xs, TopPCut(e, xs, s, p))
  {
    SortFacts(e, xs, s);
    MaskNothing(xs);
    MaxFinite(xs);
    if 0.0 < p < 1.0 {
      var t := CutoffIs(e, xs, s, p);
      assert s[t] in multiset(xs);
    }
  }

  lemma OwnSquare(x: real, square: real)
    requires x > 0.0 && square == x * x && square == x
    ensures x == 1.0
  {
    assert x * (x - 1.0) == 0.0;
  }

  lemma ExpZero(e: real -> real, z: real)
    requires IsExp(e) && z == 0.0
    ensures e(z) == 1.0
  {
    var y := z + z;
    assert Times(e, z, z);
    assert y == z;
    OwnSquare(e(z), e(y));
  }

  lemma LogSign(e: real -> real, mp: real, lm: real)
    requires IsExp(e) && mp > 0.0 && e(lm) == mp
    ensures mp <= 1.0 <==> lm <= 0.0
  {
    ExpZero(e, 0.0);
    Ordered(e, 0.0, lm);
  }

  /** For every parameter setting the maximum survives all three filters, at every place it stands,
      if and only if min_p <= 1; otherwise nothing survives. */
  lemma {:induction false} MaxSurvives(e: real -> real, xs: seq<Logit>, ps: Params, o: Oracle, k: nat)
    requires IsExp(e) && Logits(xs) && Answers(e, xs, ps, o)
    requires k < |xs| && xs[k] == MaxOf(xs)
    ensures ps.minP <= 1.0 <==> Filtered(e, xs, ps, o)[k] == xs[k]
    ensures ps.minP > 1.0 ==> forall i :: 0 <= i < |xs| ==> Filtered(e, xs, ps, o)[i] == NegInf
  {
    MaxFinite(xs);
    TopKIsMask(xs, ps, o);
    MaskKeepsMax(xs, TopKCut(xs, ps, o));
    var a := TopK(xs, ps.topK, o.top);
    TopPIsMask(e, a, o.sorted, ps.topP);
    MaskKeepsMax(a, TopPCut(e, a, o.sorted, ps.topP));
    var b := TopP(e, a, o.sorted, ps.topP);
    assert MaxOf(b) == MaxOf(xs) && b[k] == xs[k];
    if ps.minP > 0.0 {
      LogSign(e, ps.minP, o.logMinP);
      MaskKeepsMax(b, Shift(MaxOf(b), o.logMinP));
    }
  }

  // ---------------------------------------------------------------- what survives

  lemma {:induction false} SumMasked(f: Logit -> real, g: Logit -> real, xs: seq<Logit>, c: Logit)
    requires forall i :: 0 <= i < |xs| ==> f(if Ge(xs[i], c) then xs[i] else NegInf) == g(xs[i])
    ensures Sum(f, MaskBelow(xs, c)) == Sum(g, xs)
  {
    if xs != [] {
      assert MaskBelow(xs, c)[1..] == MaskBelow(xs[1..], c);
      assert g(xs[0]) == f(MaskBelow(xs, c)[0]);
      SumMasked(f, g, xs[1..], c);
    }
  }

  /** c is the k-th largest of the logits; no cutoff at all when k asks for none or for all. */
  ghost predicate KthLargest(xs: seq<Logit>, k: int, c: Logit) {
    if 0 < k < |xs| then
      c in xs && Sum(CountAbove(c), xs) < k as real <= Sum(CountFrom(c), xs)
    else c == NegInf
  }

  /** d is the least logit of the smallest nucleus of mass p among the logits from c on: with it
      they hold the part p of the mass, without it and its equals they do not. */
  ghost predicate NucleusLeast(e: real -> real, xs: seq<Logit>, c: Logit, p: real, d: Logit) {
    if p >= 1.0 then d == NegInf
    else if p <= 0.0 then d in xs && forall l :: l in xs ==> Ge(d, l)
    else
      && d in xs && Ge(d, c)
      && Sum(WeightsAbove(e, d), xs) < Part(p, Sum(WeightsFrom(e, c), xs)) <= Sum(WeightsFrom(e, d), xs)
  }

  /** mp times as likely as every logit, or likelier. */
  ghost predicate LikelyAmong(e: real -> real, xs: seq<Logit>, mp: real, l: Logit) {
    forall m :: m in xs ==> LikelyEnough(e, mp, m, l)
  }

  lemma {:induction false} KthLargestUnique(xs: seq<Logit>, k: int, c: Logit, d: Logit)
    requires KthLargest(xs, k, c) && KthLargest(xs, k, d)
    ensures c == d
  {
    if Gt(c, d) {
      SumLe(CountFrom(c), CountAbove(d), xs);
    } else if Gt(d, c) {
      SumLe(CountFrom(d), CountAbove(c), xs);
    }
  }

  lemma {:induction false} NucleusLeastUnique(e: real -> real, xs: seq<Logit>, c: Logit, p: real, d: Logit, d': Logit)
    requires IsExp(e) && NucleusLeast(e, xs, c, p, d) && NucleusLeast(e, xs, c, p, d')
    ensures d == d'
  {
    if Gt(d, d') {
      SumLe(WeightsFrom(e, d), WeightsAbove(e, d'), xs);
    } else if Gt(d', d) {
      SumLe(WeightsFrom(e, d'), WeightsAbove(e, d), xs);
    }
  }

  lemma LikelyIffMost(e: real -> real, xs: seq<Logit>, mp: real, l: Logit)
    requires IsExp(e) && Logits(xs) && mp > 0.0
    ensures |xs| > 0
    ensures LikelyAmong(e, xs, mp, l) <==> LikelyEnough(e, mp, MaxOf(xs), l)
  {
    MaxFinite(xs);
    var m := MaxOf(xs);
    if LikelyEnough(e, mp, m, l) {
      forall x | x in xs
        ensures LikelyEnough(e, mp, x, l)
      {
        assert Ge(m, x);
        LikelyPasses(e, mp, m, x, l);
      }
    }
  }

  lemma LikelyPasses(e: real -> real, mp: real, m: Logit, x: Logit, l: Logit)
    requires IsExp(e) && mp > 0.0 && m.Fin? && Ge(m, x) && LikelyEnough(e, mp, m, l)
    ensures LikelyEnough(e, mp, x, l)
  {
    WeightOrder(e, m, x);
    Scaled(mp, Weight(e, x), Weight(e, m));
  }

  lemma WeightOrder(e: real -> real, a: Logit, b: Logit)
    requires IsExp(e) && Ge(a, b) && a.Fin?
    ensures Weight(e, a) >= Weight(e, b)
  {
    if b.Fin? {
      Ordered(e, a.v, b.v);
    }
  }

  lemma Scaled(mp: real, x: real, y: real)
    requires mp > 0.0 && x <= y
    ensures Part(mp, x) <= Part(mp, y)
  {
    assert mp * (y - x) >= 0.0;
  }

  lemma {:induction false} TopKCutIs(xs: seq<Logit>, ps: Params, o: Oracle)
    requires Logits(xs)
    requires 0 < ps.topK < |xs| ==> |o.top| == ps.topK && IsTopK(o.top, o.rest, xs)
    ensures KthLargest(xs, ps.topK, TopKCut(xs, ps, o))
  {
    if 0 < ps.topK < |xs| {
      TopKCount(xs, o.top, o.rest, ps.topK);
      assert MinOf(o.top) in o.top + o.rest && MinOf(o.top) in multiset(xs);
    }
  }

  /** The mass in and strictly above the nucleus, seen from the logits before top-k. */
  lemma {:induction false} MassThroughMask(e: real -> real, xs: seq<Logit>, c: Logit, d: Logit)
    requires Ge(d, c) && d.Fin?
    ensures Sum(WeightsFrom(e, d), MaskBelow(xs, c)) == Sum(WeightsFrom(e, d), xs)
    ensures Sum(WeightsAbove(e, d), MaskBelow(xs, c)) == Sum(WeightsAbove(e, d), xs)
  {
    SumMasked(WeightsFrom(e, d), WeightsFrom(e, d), xs, c);
    SumMasked(WeightsAbove(e, d), WeightsAbove(e, d), xs, c);
  }

  lemma {:induction false} NucleusCutIs(e: real -> real, xs: seq<Logit>, c: Logit, s: seq<Logit>, p: real)
    requires IsExp(e) && Logits(xs) && 0.0 < p < 1.0
    requires Logits(MaskBelow(xs, c)) && IsSort(s, MaskBelow(xs, c))
    ensures |xs| > 0 && |s| > 0 && Mass(e, s) != 0.0
    ensures NucleusLeast(e, xs, c, p, NucleusCutoff(e, MaskBelow(xs, c), s, p))
  {
    var a := MaskBelow(xs, c);
    NucleusMass(e, a, s, p);
    var t := CutoffIs(e, a, s, p);
    var d := s[t];
    LastWeight(e, s, t);
    assert d in multiset(a);
    MaskedMass(e, a, d);
    MaskedMass(e, xs, c);
    MassThroughMask(e, xs, c, d);
  }

  lemma LastWeight(e: real -> real, s: seq<Logit>, t: nat)
    requires t < |s| && Mass(e, s[..t]) < Mass(e, s[..t + 1])
    ensures s[t].Fin?
  {
    assert s[..t + 1] == s[..t] + [s[t]];
    SumConcat(Weights(e), s[..t], [s[t]]);
    assert [s[t]][1..] == [];
  }

  lemma {:induction false} TopPCutIs(e: real -> real, xs: seq<Logit>, c: Logit, s: seq<Logit>, p: real)
    requires IsExp(e) && Logits(xs) && |xs| > 0 && Ge(MaxOf(xs), c)
    requires Logits(MaskBelow(xs, c)) && IsSort(s, MaskBelow(xs, c))
    ensures |s| > 0 && Mass(e, s) != 0.0
    ensures NucleusLeast(e, xs, c, p, TopPCut(e, MaskBelow(xs, c), s, p))
  {
    SortFacts(e, MaskBelow(xs, c), s);
    if p <= 0.0 {
      MaskKeepsMax(xs, c);
    } else if p < 1.0 {
      NucleusCutIs(e, xs, c, s, p);
    }
  }

  /** For every setting of the three filters there are the k-th largest logit c and the least logit d
      of the nucleus within what top-k leaves, and a token survives, unchanged, if and only if it
      reaches c and d and is min_p times as likely as every other; min_p = 0 asks nothing. */
  lemma {:induction false} FilteredExactly(e: real -> real, xs: seq<Logit>, ps: Params, o: Oracle)
      returns (c: Logit, d: Logit)
    requires IsExp(e) && Logits(xs) && Answers(e, xs, ps, o)
    ensures KthLargest(xs, ps.topK, c) && NucleusLeast(e, xs, c, ps.topP, d)
    ensures forall i :: 0 <= i < |xs| ==>
      (var kept := Ge(xs[i], c) && Ge(xs[i], d) && (ps.minP > 0.0 ==> LikelyAmong(e, xs, ps.minP, xs[i]));
      Filtered(e, xs, ps, o)[i] == if kept then xs[i] else NegInf)
  {
    MaxFinite(xs);
    TopKIsMask(xs, ps, o);
    TopKCutIs(xs, ps, o);
    c := TopKCut(xs, ps, o);
    var a := TopK(xs, ps.topK, o.top);
    TopPCutIs(e, xs, c, o.sorted, ps.topP);
    TopPIsMask(e, a, o.sorted, ps.topP);
    d := TopPCut(e, a, o.sorted, ps.topP);
    MaskKeepsMax(xs, c);
    MaskKeepsMax(a, d);
    MinPAfter(e, xs, MaskBelow(a, d), ps.minP, o.logMinP);
  }

  /** Min-p on what the other two leave asks the same as on everything. */
  lemma MinPAfter(e: real -> real, xs: seq<Logit>, b: seq<Logit>, mp: real, lm: real)
    requires IsExp(e) && Logits(xs) && Logits(b) && (mp > 0.0 ==> e(lm) == mp)
    requires |b| == |xs| > 0 && MaxOf(b) == MaxOf(xs)
    requires forall i :: 0 <= i < |xs| ==> b[i] == xs[i] || b[i] == NegInf
    ensures forall i :: 0 <= i < |xs| ==>
      (var kept := mp > 0.0 ==> LikelyAmong(e, xs, mp, xs[i]);
      MinP(b, mp, lm)[i] == if kept then b[i] else NegInf)
  {
    if mp > 0.0 {
      forall i | 0 <= i < |xs|
        ensures MinP(b, mp, lm)[i] == (if LikelyAmong(e, xs, mp, xs[i]) then b[i] else NegInf)
      {
        MinPExact(e, b, mp, lm, i);
        LikelyIffMost(e, xs, mp, xs[i]);
      }
    }
  }

  /** The result depends on the logits and the parameters only: neither on which of several equal
      logits the library picks, nor on how it sorts them. */
  lemma {:induction false} FilteredIsDetermined(e: real -> real, xs: seq<Logit>, ps: Params, o: Oracle, o': Oracle)
    requires IsExp(e) && Logits(xs) && Answers(e, xs, ps, o) && Answers(e, xs, ps, o')
    ensures Filtered(e, xs, ps, o) == Filtered(e, xs, ps, o')
  {
    var c, d := FilteredExactly(e, xs, ps, o);
    var c', d' := FilteredExactly(e, xs, ps, o');
    KthLargestUnique(xs, ps.topK, c, c');
    NucleusLeastUnique(e, xs, c, ps.topP, d, d');
  }

  /** With top-k on, fewer than k survivors lie above the least survivor. */
  lemma {:induction false} FewSurviveAbove(e: real -> real, xs: seq<Logit>, ps: Params, o: Oracle, i: nat)
    requires IsExp(e) && Logits(xs) && Answers(e, xs, ps, o) && 0 < ps.topK < |xs|
    requires i < |xs| && Filtered(e, xs, ps, o)[i].Fin?
    ensures Sum(CountAbove(Filtered(e, xs, ps, o)[i]), Filtered(e, xs, ps, o)) < ps.topK as real
  {
    var r := Filtered(e, xs, ps, o);
    var c, d := FilteredExactly(e, xs, ps, o);
    SumPointwise(CountAbove(r[i]), r, CountAbove(c), xs);
  }

  lemma {:induction false} SumPointwise(f: Logit -> real, xs: seq<Logit>, g: Logit -> real, ys: seq<Logit>)
    requires |xs| == |ys| && forall i :: 0 <= i < |xs| ==> f(xs[i]) <= g(ys[i])
    ensures Sum(f, xs) <= Sum(g, ys)
  {
    if xs != [] {
      SumPointwise(f, xs[1..], g, ys[1..]);
    }
  }

  /** Without min-p the survivors hold at least the part top_p of what top-k leaves; with any setting
      those above the nucleus' least logit hold less. */
  lemma {:induction false} SurvivingMass(e: real -> real, xs: seq<Logit>, ps: Params, o: Oracle)
      returns (c: Logit, d: Logit)
    requires IsExp(e) && Logits(xs) && Answers(e, xs, ps, o) && 0.0 < ps.topP < 1.0
    ensures KthLargest(xs, ps.topK, c)
    ensures ps.minP <= 0.0 ==> Mass(e, Filtered(e, xs, ps, o)) >= Part(ps.topP, Sum(WeightsFrom(e, c), xs))
    ensures Sum(WeightsAbove(e, d), Filtered(e, xs, ps, o)) < Part(ps.topP, Sum(WeightsFrom(e, c), xs))
    ensures forall i :: 0 <= i < |xs| && Filtered(e, xs, ps, o)[i].Fin? ==> Ge(Filtered(e, xs, ps, o)[i], d)
  {
    c, d := FilteredExactly(e, xs, ps, o);
    var r := Filtered(e, xs, ps, o);
    SumPointwise(WeightsAbove(e, d), r, WeightsAbove(e, d), xs);
    if ps.minP <= 0.0 {
      SumPointwise(WeightsFrom(e, d), xs, Weights(e), r);
    }
  }

  /** The composed filters are a single cutoff: whatever survives is unchanged, and every logit at
      least as large as a survivor survives. */
  lemma FilteredIsOneCutoff(e: real -> real, xs: seq<Logit>, ps: Params, o: Oracle)
    requires IsExp(e) && Logits(xs) && Answers(e, xs, ps, o)
    ensures exists c :: Filtered(e, xs, ps, o) == MaskBelow(xs, c)
  {
    TopKIsMask(xs, ps, o);
    var c1 := TopKCut(xs, ps, o);
    var a := TopK(xs, ps.topK, o.top);
    TopPIsMask(e, a, o.sorted, ps.topP);
    var c2 := TopPCut(e, a, o.sorted, ps.topP);
    MaskMask(xs, c1, c2);
    var c := if Ge(c1, c2) then c1 else c2;
    var b := TopP(e, a, o.sorted, ps.topP);
    assert b == MaskBelow(xs, c);
    if ps.minP > 0.0 {
      MaskMask(xs, c, Shift(MaxOf(b), o.logMinP));
    }
  }
}
