/** Bits of natural numbers, for the shifts and ors of the original. */
module Bits {
  function Pow2(n: nat): (p: nat)
    ensures p > 0
  {
    if n == 0 then 1 else 2 * Pow2(n - 1)
  }

  function Bit(x: nat, i: nat): bool {
    if i == 0 then x % 2 == 1 else Bit(x / 2, i - 1)
  }

  /** a | b */
  function Or(a: nat, b: nat): nat
    decreases a + b
  {
    if a == 0 && b == 0 then 0
    else 2 * Or(a / 2, b / 2) + if a % 2 == 1 || b % 2 == 1 then 1 else 0
  }

  /** a & b */
  function And(a: nat, b: nat): nat
    decreases a + b
  {
    if a == 0 && b == 0 then 0
    else 2 * And(a / 2, b / 2) + if a % 2 == 1 && b % 2 == 1 then 1 else 0
  }

  /** x >> s */
  function Shr(x: nat, s: nat): nat {
    if s == 0 then x else Shr(x / 2, s - 1)
  }

  /** The number of bits up to the highest one. */
  function Len(x: nat): nat {
    if x == 0 then 0 else 1 + Len(x / 2)
  }

  lemma {:induction false} OrBit(a: nat, b: nat, i: nat)
    ensures Bit(Or(a, b), i) <==> Bit(a, i) || Bit(b, i)
    decreases i
  {
    if a == 0 && b == 0 {
      ZeroBit(i);
    } else if i > 0 {
      OrBit(a / 2, b / 2, i - 1);
    }
  }

  lemma {:induction false} ZeroBit(i: nat)
    ensures !Bit(0, i)
  {
    if i > 0 {
      ZeroBit(i - 1);
    }
  }

  lemma {:induction false} ShrBit(x: nat, s: nat, i: nat)
    ensures Bit(Shr(x, s), i) <==> Bit(x, i + s)
    decreases s
  {
    if s > 0 {
      ShrBit(x / 2, s - 1, i);
    }
  }

  /** No bit from n on, and the t highest below n are set. */
  ghost predicate Filled(x: nat, n: nat, t: nat) {
    forall i: nat :: (i >= n ==> !Bit(x, i)) && (i < n <= i + t ==> Bit(x, i))
  }

  /** x | (x >> t) doubles the run of ones at the top. */
  lemma Fill(x: nat, n: nat, t: nat)
    requires Filled(x, n, t)
    ensures Filled(Or(x, Shr(x, t)), n, 2 * t)
  {
    forall i: nat
      ensures i >= n ==> !Bit(Or(x, Shr(x, t)), i)
      ensures i < n <= i + 2 * t ==> Bit(Or(x, Shr(x, t)), i)
    {
      OrBit(x, Shr(x, t), i);
      ShrBit(x, t, i);
    }
  }

  /** All bits below n and no other make 2^n - 1. */
  lemma {:induction false} AllOnes(x: nat, n: nat)
    requires Filled(x, n, n)
    ensures x == Pow2(n) - 1
    decreases x
  {
    assert n > 0 ==> Bit(x, 0);
    if x == 0 {
    } else {
      HighestBit(x);
      assert n > 0;
      forall i: nat
        ensures i >= n - 1 ==> !Bit(x / 2, i)
        ensures i < n - 1 ==> Bit(x / 2, i)
      {
        assert Bit(x, i + 1) == Bit(x / 2, i);
      }
      AllOnes(x / 2, n - 1);
    }
  }

  lemma {:induction false} HighestBit(x: nat)
    requires x > 0
    ensures Bit(x, Len(x) - 1) && forall i: nat :: i >= Len(x) ==> !Bit(x, i)
  {
    if x == 1 {
      forall i: nat | i >= 1
        ensures !Bit(x, i)
      {
        ZeroBit(i - 1);
      }
    } else {
      HighestBit(x / 2);
      assert Bit(x, Len(x) - 1) == Bit(x / 2, Len(x / 2) - 1);
      forall i: nat | i >= Len(x)
        ensures !Bit(x, i)
      {
        assert Bit(x, i) == Bit(x / 2, i - 1);
      }
    }
  }

  lemma {:induction false} LenRange(x: nat)
    requires x > 0
    ensures Pow2(Len(x) - 1) <= x < Pow2(Len(x))
  {
    if x > 1 {
      LenRange(x / 2);
    }
  }

  lemma {:induction false} LenAtMost(x: nat, k: nat)
    requires x < Pow2(k)
    ensures Len(x) <= k
    decreases k
  {
    if x > 0 {
      LenAtMost(x / 2, k - 1);
    }
  }

  lemma {:induction false} LenMore(x: nat, k: nat)
    requires x >= Pow2(k)
    ensures Len(x) > k
    decreases k
  {
    if k > 0 {
      LenMore(x / 2, k - 1);
    }
  }

  lemma {:induction false} Pow2Grows(a: nat, b: nat)
    requires a <= b
    ensures Pow2(a) <= Pow2(b)
  {
    if a < b {
      Pow2Grows(a, b - 1);
    }
  }

  /** Masking with 2^n - 1 is the remainder. */
  lemma {:induction false} MaskIsMod(h: nat, n: nat)
    ensures And(h, Pow2(n) - 1) == h % Pow2(n)
    decreases n
  {
    if n == 0 {
      AndZero(h);
    } else {
      MaskIsMod(h / 2, n - 1);
      var p := Pow2(n - 1);
      assert (2 * p - 1) / 2 == p - 1 && (2 * p - 1) % 2 == 1;
      HalfMod(h, p);
    }
  }

  lemma {:induction false} AndZero(h: nat)
    ensures And(h, 0) == 0
    decreases h
  {
    if h > 0 {
      AndZero(h / 2);
    }
  }

  lemma {:induction false} HalfMod(h: nat, p: nat)
    requires p > 0
    ensures h % (2 * p) == 2 * (h / 2 % p) + h % 2
  {
    var q, r := h / 2 / p, h / 2 % p;
    assert h / 2 == q * p + r;
    assert h == q * (2 * p) + (2 * r + h % 2) by {
      assert q * (2 * p) == 2 * (q * p);
    }
    Quotient(h, 2 * p, q, 2 * r + h % 2);
  }

  lemma {:induction false} Quotient(h: nat, d: nat, q: nat, r: nat)
    requires d > 0 && h == q * d + r && r < d
    ensures h % d == r
  {
    var k, s := h / d, h % d;
    assert h == k * d + s;
    if k < q {
      assert (q - k) * d >= d by {
        Times(q - k, d);
      }
    } else if q < k {
      Times(k - q, d);
    }
    assert (k - q) * d == r - s;
  }

  lemma Times(a: nat, d: nat)
    requires a > 0
    ensures a * d >= d
  {
  }
}
