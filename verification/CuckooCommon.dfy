// Bucket counts, fingerprints and bucket indices shared by the two cuckoo filters
// (cuckoo_filter/common.c and the index computations in cf_new, cf_add and
// bucket_insert).

module CuckooCommon {
  import opened Bits
  import opened Common

  const BUCKET_SIZE := 4
  const MAX_KICKS := 512
  const U32 := 0x1_0000_0000

  type byte = x: nat | x < 256
  type u64 = x: nat | x < U64

  // ---------------------------------------------------------------- powers of two

  // After the or-shift steps with a total reach of m, bit i of y is set exactly when one
  // of the bits i .. i + m - 1 of x is.
  ghost predicate Smeared(x: nat, y: nat, m: nat) {
    forall i: nat :: Bit(y, i) <==> AnyBit(x, i, m)
  }

  ghost predicate AnyBit(x: nat, i: nat, m: nat) {
    exists j: nat :: i <= j < i + m && Bit(x, j)
  }

  lemma SmearStep(x: nat, y: nat, m: nat)
    requires Smeared(x, y, m)
    ensures Smeared(x, Or(y, Shr(y, m)), 2 * m)
  {
    hide Bit, Or, Shr;
    forall i: nat ensures Bit(Or(y, Shr(y, m)), i) <==> AnyBit(x, i, 2 * m) {
      BitOr(y, Shr(y, m), i);
      BitShift(y, m, i);
      assert AnyBit(x, i, m) <==> Bit(y, i);
      assert AnyBit(x, i + m, m) <==> Bit(y, i + m);
    }
  }

  // A number below 2^32 smeared all the way is a block of ones.
  lemma SmearedAll(x: nat, y: nat)
    requires x < U32 && Smeared(x, y, 32)
    ensures x == 0 ==> y == 0
    ensures x > 0 ==> exists l: nat :: l < 32 && Pow2(l) <= x < Pow2(l + 1) && y == Pow2(l + 1) - 1
  {
    hide Bit, Pow2;
    PowersOfTwo();
    if x == 0 {
      forall i: nat ensures Bit(y, i) == Bit(0, i) {
        if Bit(y, i) {
          var j: nat :| i <= j < i + 32 && Bit(x, j);
          ZeroHasNoBits(j);
        }
        ZeroHasNoBits(i);
      }
      BitsDetermine(y, 0);
    } else {
      TopBit(x);
      var l: nat :| Pow2(l) <= x < Pow2(l + 1) && Bit(x, l);
      if l >= 32 { PowMonotone(32, l); }
      forall i: nat ensures Bit(y, i) == Bit(Pow2(l + 1) - 1, i) {
        BitsOfOnes(l + 1, i);
        if i <= l {
          assert i <= l < i + 32 && Bit(x, l);
        } else if Bit(y, i) {
          var j: nat :| i <= j < i + 32 && Bit(x, j);
          BitsAbove(x, l + 1, j);
        }
      }
      BitsDetermine(y, Pow2(l + 1) - 1);
    }
  }

  lemma PowersOfTwo()
    ensures Pow2(0) == 1 && Pow2(1) == 2 && Pow2(2) == 4 && Pow2(4) == 16 && Pow2(8) == 256 && Pow2(16) == 0x1_0000
    ensures Pow2(24) == 0x100_0000 && Pow2(28) == 0x1000_0000 && Pow2(30) == 0x4000_0000
    ensures Pow2(31) == 0x8000_0000 && Pow2(32) == U32 && Pow2(64) == U64
  {
    assert Pow2(2) == 4;
    assert Pow2(4) == 16 by { PowAdd(2, 2); }
    assert Pow2(8) == 256 by { PowAdd(4, 4); }
    assert Pow2(16) == 0x1_0000 by { PowAdd(8, 8); }
    PowAdd(16, 8);
    PowAdd(24, 4);
    PowAdd(28, 2);
    PowAdd(30, 1);
    PowAdd(16, 16);
    PowAdd(32, 32);
  }

  // clp2 in 32-bit arithmetic: the least power of two not below x; zero and arguments
  // above 2^31 wrap around to zero.
  method Clp2(x0: nat) returns (r: nat)
    requires x0 < U32
    ensures x0 == 0 || x0 > 0x8000_0000 ==> r == 0
    ensures 1 <= x0 <= 0x8000_0000 ==> exists k: nat :: k < 32 && r == Pow2(k) && IsLeastPower(x0, k)
  {
    hide Bit, Pow2, Or, Shr;
    PowersOfTwo();
    var x := (x0 - 1) % U32;
    ghost var y := x;
    forall i: nat ensures Bit(x, i) <==> AnyBit(x, i, 1) {
      assert Bit(x, i) ==> i <= i < i + 1 && Bit(x, i);
    }
    SmearStep(y, x, 1);
    x := Or(x, Shr(x, 1));
    SmearStep(y, x, 2);
    x := Or(x, Shr(x, 2));
    SmearStep(y, x, 4);
    x := Or(x, Shr(x, 4));
    SmearStep(y, x, 8);
    x := Or(x, Shr(x, 8));
    SmearStep(y, x, 16);
    x := Or(x, Shr(x, 16));
    SmearedAll(y, x);
    r := (x + 1) % U32;
    SmearedIsLeastPower(x0, y, x, r);
  }

  lemma SmearedIsLeastPower(x0: nat, y: nat, x: nat, r: nat)
    requires x0 < U32 && y == (x0 - 1) % U32 && r == (x + 1) % U32
    requires y == 0 ==> x == 0
    requires y > 0 ==> exists l: nat :: l < 32 && Pow2(l) <= y < Pow2(l + 1) && x == Pow2(l + 1) - 1
    ensures x0 == 0 || x0 > 0x8000_0000 ==> r == 0
    ensures 1 <= x0 <= 0x8000_0000 ==> exists k: nat :: k < 32 && r == Pow2(k) && IsLeastPower(x0, k)
  {
    hide Pow2;
    PowersOfTwo();
    if y == 0 {
      assert IsLeastPower(x0, 0);
    } else {
      var l: nat :| l < 32 && Pow2(l) <= y < Pow2(l + 1) && x == Pow2(l + 1) - 1;
      PowMonotone(l + 1, 32);
      if 1 <= x0 <= 0x8000_0000 {
        assert l != 31;
        PowMonotone(l + 1, 31);
        assert IsLeastPower(x0, l + 1);
      } else {
        if l < 31 { PowMonotone(l + 1, 31); }
      }
    }
  }

  // 2^k is not below x, and half of it is.
  ghost predicate IsLeastPower(x: nat, k: nat) {
    x <= Pow2(k) && (k > 0 ==> Pow2(k - 1) < x)
  }

  lemma {:induction false} LeastPowerIsLeast(x: nat, k: nat, j: nat)
    requires IsLeastPower(x, k) && x <= Pow2(j)
    ensures Pow2(k) <= Pow2(j)
  {
    if j < k { PowMonotone(j, k - 1); } else { PowMonotone(k, j); }
  }

  // One step of nlz: when the top t bits, those from d up, are clear, shift them out.
  method NlzStep(ghost x0: nat, n0: nat, x1: nat, t: nat, m: nat, d: nat) returns (n: nat, x: nat)
    requires n0 >= 1 && IsShift(x0, n0 - 1, x1) && m == Pow2(t) && d * m == U32 && x1 < U32 && x1 * m >= d
    ensures n >= 1 && IsShift(x0, n - 1, x) && d <= x < U32
    ensures n == n0 + (if x1 < d then t else 0)
  {
    hide Pow2, IsShift;
    n, x := n0, x1;
    if x / d == 0 {
      ShiftMore(x0, n - 1, x, t, m, d);
      n, x := n + t, x * m % U32;
    }
  }

  // nlz in 32-bit arithmetic: the number of leading zero bits.
  method Nlz(x0: nat) returns (r: nat)
    requires x0 < U32
    ensures x0 == 0 ==> r == 32
    ensures x0 > 0 ==> r < 32 && Pow2(31 - r) <= x0 < Pow2(32 - r)
  {
    hide Pow2, IsShift;
    PowersOfTwo();
    var x := x0;
    if x == 0 { return 32; }
    var n := 1;
    ShiftByNone(x0);
    n, x := NlzStep(x0, n, x, 16, 0x1_0000, 0x1_0000);
    n, x := NlzStep(x0, n, x, 8, 0x100, 0x100_0000);
    n, x := NlzStep(x0, n, x, 4, 0x10, 0x1000_0000);
    n, x := NlzStep(x0, n, x, 2, 4, 0x4000_0000);
    LeadingBit(x0, n - 1, x);
    n := n - x / 0x8000_0000;
    r := n;
  }

  ghost predicate IsShift(x0: nat, s: nat, x: nat) {
    x0 * Pow2(s) == x
  }

  lemma ShiftByNone(x0: nat)
    ensures IsShift(x0, 0, x0)
  {
  }

  // x1 fits below d, so multiplying by m does not lose a bit.
  lemma ShiftMore(x0: nat, s: nat, x1: nat, t: nat, m: nat, d: nat)
    requires IsShift(x0, s, x1) && m == Pow2(t) && d * m == U32 && x1 < d
    ensures IsShift(x0, s + t, x1 * m % U32) && x1 * m % U32 == x1 * m
  {
    hide Pow2;
    PowAdd(s, t);
    MulAssociates(x0, Pow2(s), m);
    Multiple(m, d - x1);
    assert m * (d - x1) == d * m - x1 * m;
  }

  lemma LeadingBit(x0: nat, s: nat, x: nat)
    requires IsShift(x0, s, x) && Pow2(30) <= x < Pow2(32) && s < 31
    ensures x >= Pow2(31) ==> Pow2(31 - s) <= x0 < Pow2(32 - s)
    ensures x < Pow2(31) ==> Pow2(30 - s) <= x0 < Pow2(31 - s)
  {
    PowAdd(30 - s, s);
    PowAdd(31 - s, s);
    PowAdd(32 - s, s);
    if x >= Pow2(31) {
      ScaleLess(x0, Pow2(32 - s), Pow2(s));
      ScaleAtMost(Pow2(31 - s), x0, Pow2(s));
    } else {
      ScaleLess(x0, Pow2(31 - s), Pow2(s));
      ScaleAtMost(Pow2(30 - s), x0, Pow2(s));
    }
  }

  lemma ScaleLess(a: nat, b: nat, m: nat)
    requires a * m < b * m
    ensures a < b
  {
  }

  lemma ScaleAtMost(a: nat, b: nat, m: nat)
    requires m > 0 && a * m <= b * m
    ensures a <= b
  {
    Multiple(m, b - a);
    assert m * (b - a) == b * m - a * m;
  }

  // ---------------------------------------------------------------- classes and buckets

  // A fingerprint together with the two buckets that can hold it.
  datatype Class = Class(fp: nat, pair: set<nat>)

  // The shifted hash of the fingerprint is the distance between its two buckets.
  function OtherBucket(b: nat, fingerprintHash: u64, shift: nat): nat {
    Xor(b, Shr(fingerprintHash, shift))
  }

  // With 2^k buckets the hash is shifted by 64 - k, so the other bucket exists, and its
  // other bucket is the one we came from.
  lemma {:induction false} OtherBucketIsInvolution(k: nat, b: nat, h: u64)
    requires k <= 64 && b < Pow2(k)
    ensures OtherBucket(b, h, 64 - k) < Pow2(k)
    ensures OtherBucket(OtherBucket(b, h, 64 - k), h, 64 - k) == b
  {
    hide Pow2, Shr, Xor;
    PowersOfTwo();
    assert h < Pow2(k + (64 - k));
    ShrBound(h, 64 - k, k);
    XorBound(b, Shr(h, 64 - k), k);
    XorInvolution(b, Shr(h, 64 - k));
  }

  // The distance is the hash cut to its top k bits: two fingerprints lead from a bucket to
  // the same one exactly when their hashes agree there, and to where they came from exactly
  // when those bits are zero.
  lemma {:induction false} OtherBucketTells(k: nat, b: nat, g: u64, h: u64)
    requires k <= 64
    ensures OtherBucket(b, g, 64 - k) == OtherBucket(b, h, 64 - k) <==> g / Pow2(64 - k) == h / Pow2(64 - k)
    ensures OtherBucket(b, h, 64 - k) == b <==> h / Pow2(64 - k) == 0
  {
    hide Pow2, Shr, Xor;
    ShrIsDiv(g, 64 - k);
    ShrIsDiv(h, 64 - k);
    XorNothing(b);
    if OtherBucket(b, g, 64 - k) == OtherBucket(b, h, 64 - k) {
      XorCancel(b, Shr(g, 64 - k), Shr(h, 64 - k));
    }
    if OtherBucket(b, h, 64 - k) == b { XorCancel(b, Shr(h, 64 - k), 0); }
  }

  // What cf_new derives from the requested number of items: 2^k buckets and the shift
  // count nlz + 32.
  ghost predicate Sized(items: nat, k: nat, nlz: nat) {
    k <= 30 && IsLeastPower(items / BUCKET_SIZE, k) && nlz == 32 - k
  }

  // The shift count stays below the width of the hash exactly for 8 items and more; for 5
  // to 7 items there is one bucket and the count is 64, which C leaves undefined.
  lemma {:induction false} ShiftIsDefined(items: nat, k: nat, nlz: nat)
    requires items > 4 && Sized(items, k, nlz)
    ensures nlz + 32 < 64 <==> items >= 8
  {
    assert k > 0 ==> Pow2(k - 1) >= 1;
    assert Pow2(0) == 1;
  }

  // Rounding happens before the power of two is taken, so the capacity falls short of the
  // request exactly when items is not a multiple of the bucket size but its quotient is a
  // power of two.
  lemma {:induction false} CapacityCovers(items: nat, k: nat, nlz: nat)
    requires items > 4 && Sized(items, k, nlz)
    ensures Pow2(k) * BUCKET_SIZE >= items <==>
            items % BUCKET_SIZE == 0 || !exists j: nat :: items / BUCKET_SIZE == Pow2(j)
  {
    hide Pow2;
    if j: nat :| items / BUCKET_SIZE == Pow2(j) {
      LeastPowerIsLeast(items / BUCKET_SIZE, k, j);
      assert items / BUCKET_SIZE == Pow2(k);
    } else {
      assert items / BUCKET_SIZE != Pow2(k);
    }
  }

  // Concrete requests for the two cases.
  lemma SingleBucketRequest()
    ensures Sized(5, 0, 32) && 32 + 32 == 64
    ensures Sized(1027, 8, 24) && Pow2(8) * BUCKET_SIZE < 1027
  {
    PowersOfTwo();
    assert Pow2(7) == 128;
  }

  // A map that is one-to-one onto s has as many keys as s has elements.
  lemma {:induction false} SameSize<K, V>(m: map<K, V>, s: set<V>)
    requires forall x | x in m :: m[x] in s
    requires forall v | v in s :: exists x | x in m :: m[x] == v
    requires forall x, y | x in m && y in m && m[x] == m[y] :: x == y
    ensures |m| == |s|
    decreases |s|
  {
    if s == {} {
      assert m == map[];
    } else {
      var v :| v in s;
      var x :| x in m && m[x] == v;
      var m', s' := m - {x}, s - {v};
      forall w | w in s' ensures exists y | y in m' :: m'[y] == w {
        var y :| y in m && m[y] == w;
        assert y in m';
      }
      SameSize(m', s');
    }
  }

  // ---------------------------------------------------------------- full buckets

  // As many classes share a bucket with c as the buckets of c have slots.
  ghost predicate Crowded(s: set<Class>, c: Class) {
    |Neighbours(s, c)| >= BUCKET_SIZE * |c.pair|
  }

  ghost function Neighbours(s: set<Class>, c: Class): set<Class> {
    set d | d in s && d.pair * c.pair != {}
  }

  function SlotsOf(b: nat): (slots: set<(nat, nat)>)
    ensures forall x | x in slots :: x.0 == b && x.1 < BUCKET_SIZE
    ensures |slots| == BUCKET_SIZE
  {
    var two: set<(nat, nat)> := {(b, 0), (b, 1)};
    assert |two| == 2;
    two + {(b, 2)} + {(b, 3)}
  }

  lemma SlotsOfPair(b1: nat, b2: nat)
    ensures |SlotsOf(b1) + SlotsOf(b2)| == BUCKET_SIZE * |{b1, b2}|
  {
    hide SlotsOf;
    if b1 == b2 {
      assert SlotsOf(b1) + SlotsOf(b2) == SlotsOf(b1) && {b1, b2} == {b1};
    } else {
      assert SlotsOf(b1) !! SlotsOf(b2);
    }
  }

  // When every slot of the two buckets holds a class of its own, the buckets are crowded.
  lemma FullIsCrowded(at: map<(nat, nat), Class>, s: set<Class>, c: Class, b1: nat, b2: nat)
    requires c.pair == {b1, b2}
    requires forall b, i | b in c.pair && 0 <= i < BUCKET_SIZE ::
               (b, i) in at && at[(b, i)] in s && b in at[(b, i)].pair
    requires forall x, y | x in at && y in at && at[x] == at[y] :: x == y
    ensures Crowded(s, c)
  {
    hide SlotsOf, Neighbours;
    var slots := SlotsOf(b1) + SlotsOf(b2);
    SlotsOfPair(b1, b2);
    forall x | x in slots ensures x in at && at[x] in Neighbours(s, c) {
      assert x == (x.0, x.1) && x.0 in c.pair;
      IsNeighbour(s, c, at[x], x.0);
    }
    Injected(slots, at, Neighbours(s, c));
  }

  lemma IsNeighbour(s: set<Class>, c: Class, d: Class, b: nat)
    requires d in s && b in d.pair && b in c.pair
    ensures d in Neighbours(s, c)
  {
    assert b in d.pair * c.pair;
  }

  // A map that is one-to-one on a set does not make it smaller.
  lemma {:induction false} Injected<K(!new), V(!new)>(keys: set<K>, at: map<K, V>, s: set<V>)
    requires forall x | x in keys :: x in at && at[x] in s
    requires forall x, y | x in at && y in at && at[x] == at[y] :: x == y
    ensures |keys| <= |s|
    decreases keys
  {
    if keys != {} {
      var x :| x in keys;
      Injected(keys - {x}, at, s - {at[x]});
    }
  }

  lemma KeysCount<K, V>(m: map<K, V>)
    ensures |m| == |m.Keys|
  {
  }

  lemma SmallExponent(items: nat, l: nat)
    requires 8 <= items < 0x8000_0000 && l < 32 && IsLeastPower(items / BUCKET_SIZE, l)
    ensures 1 <= l <= 30
  {
    PowersOfTwo();
  }

  // The leading zeros of 2^l.
  lemma ExponentOfNlz(l: nat, z: nat)
    requires l < 32 && z < 32 && Pow2(31 - z) <= Pow2(l) < Pow2(32 - z)
    ensures z == 31 - l
  {
    if l < 31 - z {
      PowMonotone(l + 1, 31 - z);
    } else if l > 31 - z {
      PowMonotone(32 - z, l);
    }
  }
}
