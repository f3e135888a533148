// Bits of natural numbers: shifts, or, exclusive or.

module Bits {

  function Pow2(k: nat): (p: nat)
    ensures p >= 1
  {
    if k == 0 then 1 else 2 * Pow2(k - 1)
  }

  predicate Bit(x: nat, i: nat)
    decreases i
  {
    if i == 0 then x % 2 == 1 else Bit(x / 2, i - 1)
  }

  function Or(a: nat, b: nat): (c: nat) {
    if a == 0 then b else 2 * Or(a / 2, b / 2) + (if a % 2 == 1 || b % 2 == 1 then 1 else 0)
  }

  function Xor(a: nat, b: nat): (c: nat) {
    if a == 0 then b else 2 * Xor(a / 2, b / 2) + (if a % 2 == b % 2 then 0 else 1)
  }

  // x >> s
  function Shr(x: nat, s: nat): (y: nat) {
    if s == 0 then x else Shr(x / 2, s - 1)
  }

  lemma {:induction false} ShrBound(x: nat, s: nat, k: nat)
    requires x < Pow2(k + s)
    ensures Shr(x, s) < Pow2(k)
    decreases s
  {
    if s > 0 { ShrBound(x / 2, s - 1, k); }
  }

  lemma {:induction false} PowAdd(i: nat, j: nat)
    ensures Pow2(i + j) == Pow2(i) * Pow2(j)
    decreases i
  {
    if i > 0 {
      PowAdd(i - 1, j);
      assert 2 * (Pow2(i - 1) * Pow2(j)) == (2 * Pow2(i - 1)) * Pow2(j);
    }
  }

  lemma {:induction false} PowMonotone(i: nat, j: nat)
    requires i <= j
    ensures Pow2(i) <= Pow2(j)
    decreases j
  {
    if i < j { PowMonotone(i, j - 1); }
  }

  // Dropping the lowest bit shifts every other bit down.
  lemma BitHalf(x: nat, i: nat)
    requires i > 0
    ensures Bit(x, i) == Bit(x / 2, i - 1)
  {
  }

  lemma BitZero(x: nat)
    ensures Bit(x, 0) == (x % 2 == 1)
  {
  }

  lemma MulAssociates(a: int, b: int, c: int)
    ensures a * (b * c) == (a * b) * c
  {
  }

  lemma DivModUnique(x: int, m: nat, q: int, r: int)
    requires m > 0 && x == m * q + r && 0 <= r < m
    ensures x / m == q && x % m == r
  {
    var d := x / m - q;
    assert x == m * (x / m) + x % m;
    assert m * (x / m) == m * q + m * d;
    assert m * d == r - x % m;
    Multiple(m, d);
  }

  lemma Multiple(m: int, d: int)
    requires m > 0
    ensures d >= 1 ==> m * d >= m
    ensures d <= -1 ==> m * d <= -m
  {
    if d >= 1 {
      assert m * d == m * (d - 1) + m;
    } else if d <= -1 {
      assert m * d == m * (d + 1) - m;
    }
  }

  lemma {:induction false} BitOr(a: nat, b: nat, i: nat)
    ensures Bit(Or(a, b), i) == (Bit(a, i) || Bit(b, i))
    decreases i
  {
    if a == 0 {
      ZeroHasNoBits(i);
    } else if i == 0 {
      assert Or(a, b) % 2 == (if a % 2 == 1 || b % 2 == 1 then 1 else 0);
    } else {
      assert Or(a, b) / 2 == Or(a / 2, b / 2);
      BitHalf(Or(a, b), i);
      BitHalf(a, i);
      BitHalf(b, i);
      BitOr(a / 2, b / 2, i - 1);
    }
  }

  lemma {:induction false} ZeroHasNoBits(i: nat)
    ensures !Bit(0, i)
    decreases i
  {
    if i > 0 { ZeroHasNoBits(i - 1); }
  }

  lemma {:induction false} BitShift(x: nat, s: nat, i: nat)
    ensures Bit(Shr(x, s), i) == Bit(x, i + s)
    decreases s
  {
    if s > 0 { BitShift(x / 2, s - 1, i); }
  }

  // Bits at and above k are clear exactly below 2^k.
  lemma {:induction false} BitsAbove(x: nat, k: nat, i: nat)
    requires x < Pow2(k) && i >= k
    ensures !Bit(x, i)
    decreases k
  {
    if k == 0 { ZeroHasNoBits(i); } else { BitsAbove(x / 2, k - 1, i - 1); }
  }

  lemma {:induction false} TopBit(x: nat)
    ensures x > 0 ==> exists l: nat :: Pow2(l) <= x < Pow2(l + 1) && Bit(x, l)
    decreases x
  {
    if x == 1 {
      assert Pow2(0) == 1 && Pow2(1) == 2 && Bit(1, 0);
    } else if x > 1 {
      TopBit(x / 2);
      var l: nat :| Pow2(l) <= x / 2 < Pow2(l + 1) && Bit(x / 2, l);
      BitHalf(x, l + 1);
      assert Pow2(l + 1) <= x < Pow2(l + 2);
    }
  }

  // A number is determined by its bits.
  lemma {:induction false} BitsDetermine(a: nat, b: nat)
    requires forall i: nat :: Bit(a, i) == Bit(b, i)
    ensures a == b
    decreases a + b
  {
    BitZero(a);
    BitZero(b);
    assert Bit(a, 0) == Bit(b, 0);
    if a + b > 0 {
      forall i: nat ensures Bit(a / 2, i) == Bit(b / 2, i) {
        BitHalf(a, i + 1);
        BitHalf(b, i + 1);
      }
      BitsDetermine(a / 2, b / 2);
    }
  }

  lemma {:induction false} BitsOfOnes(k: nat, i: nat)
    ensures Bit(Pow2(k) - 1, i) == (i < k)
    decreases k
  {
    if k == 0 {
      ZeroHasNoBits(i);
    } else if i == 0 {
      BitZero(Pow2(k) - 1);
    } else {
      assert (Pow2(k) - 1) / 2 == Pow2(k - 1) - 1;
      BitHalf(Pow2(k) - 1, i);
      BitsOfOnes(k - 1, i - 1);
    }
  }

  // ---------------------------------------------------------------- exclusive or

  lemma {:induction false} XorInvolution(a: nat, b: nat)
    ensures Xor(Xor(a, b), b) == a
    decreases a + b
  {
    if a == 0 {
      XorSelf(b);
    } else {
      var c := Xor(a, b);
      assert c / 2 == Xor(a / 2, b / 2) && c % 2 == (if a % 2 == b % 2 then 0 else 1);
      XorInvolution(a / 2, b / 2);
      if c == 0 {
        XorZero(a, b);
      }
    }
  }

  lemma {:induction false} XorSelf(b: nat)
    ensures Xor(b, b) == 0
    decreases b
  {
    if b > 0 { XorSelf(b / 2); }
  }

  lemma {:induction false} XorZero(a: nat, b: nat)
    requires Xor(a, b) == 0
    ensures a == b
    decreases a
  {
    if a > 0 { XorZero(a / 2, b / 2); }
  }

  lemma {:induction false} XorBound(a: nat, b: nat, k: nat)
    requires a < Pow2(k) && b < Pow2(k)
    ensures Xor(a, b) < Pow2(k)
    decreases k
  {
    if k > 0 && a > 0 { XorBound(a / 2, b / 2, k - 1); }
  }

  lemma {:induction false} XorCancel(a: nat, x: nat, y: nat)
    requires Xor(a, x) == Xor(a, y)
    ensures x == y
    decreases a
  {
    if a > 0 {
      var c, d := Xor(a, x), Xor(a, y);
      assert c / 2 == Xor(a / 2, x / 2) && c % 2 == if a % 2 == x % 2 then 0 else 1;
      assert d / 2 == Xor(a / 2, y / 2) && d % 2 == if a % 2 == y % 2 then 0 else 1;
      XorCancel(a / 2, x / 2, y / 2);
    }
  }

  lemma {:induction false} XorNothing(a: nat)
    ensures Xor(a, 0) == a
    decreases a
  {
    if a > 0 { XorNothing(a / 2); }
  }

  lemma {:induction false} ShrIsDiv(x: nat, s: nat)
    ensures Shr(x, s) == x / Pow2(s)
    decreases s
  {
    if s > 0 {
      ShrIsDiv(x / 2, s - 1);
      HalfThenDiv(x, Pow2(s - 1));
      assert Pow2(s) == 2 * Pow2(s - 1);
    }
  }

  lemma HalfThenDiv(x: nat, m: nat)
    requires m > 0
    ensures x / 2 / m == x / (2 * m)
  {
    var y := x / 2;
    var q, r := y / m, y % m;
    assert y == m * q + r;
    assert x == 2 * y + x % 2 == 2 * (m * q) + 2 * r + x % 2;
    assert 2 * (m * q) == (2 * m) * q;
    DivModUnique(x, 2 * m, q, 2 * r + x % 2);
  }
}
