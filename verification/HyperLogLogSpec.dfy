// HyperLogLog with 6-bit registers packed into bytes (hyperloglog/hyperloglog.c,
// redis_hyperloglog.c and redis_hyperloglog.h).

module HyperLogLogSpec {
  import opened Bits

  type byte = bv8
  type Key = seq<byte>

  const REGISTERS := 16384
  const REGISTERS_SIZE := 12289

  // ---------------------------------------------------------------- packing

  // The four registers in three bytes, as hllDenseSum unrolls them.
  function Unpack(a: byte, b: byte, c: byte, k: nat): (v: byte)
    requires k < 4
  {
    match k
    case 0 => a & 63
    case 1 => ((a >> 6) | (b << 2)) & 63
    case 2 => ((b >> 4) | (c << 4)) & 63
    case 3 => (c >> 2) & 63
  }

  // HLL_DENSE_GET_REGISTER on the two bytes it reads; 16 bits hold all the intermediate
  // values.
  function ReadBits(b0: byte, b1: byte, fb: nat): (v: byte)
    requires fb < 8
  {
    ((((b0 as bv16) >> fb) | ((b1 as bv16) << (8 - fb))) & 63) as byte
  }

  // HLL_DENSE_SET_REGISTER on the first byte: the mask is computed in int and cut to 8 bits.
  function WriteLow(b0: byte, fb: nat, v: byte): byte
    requires fb < 8
  {
    ((((b0 as bv16) & !((63 as bv16) << fb)) | ((v as bv16) << fb)) & 255) as byte
  }

  // ... and on the second one.
  function WriteHigh(b1: byte, fb: nat, v: byte): byte
    requires fb < 8
  {
    (b1 & !((63 as byte) >> (8 - fb))) | (v >> (8 - fb))
  }

  // The first bit of register k of a group of four, and the byte it is in.
  function FirstBit(k: nat): (n: nat)
    requires k < 4
    ensures n < 8
  {
    match k case 0 => 0 case 1 => 6 case 2 => 4 case 3 => 2
  }

  function FirstByte(k: nat): (n: nat)
    requires k < 4
    ensures n <= 2
  {
    match k case 0 => 0 case 1 => 0 case 2 => 1 case 3 => 2
  }

  lemma Layout(r: nat)
    ensures r * 6 / 8 == 3 * (r / 4) + FirstByte(r % 4) && r * 6 % 8 == FirstBit(r % 4)
  {
  }

  lemma ReadGroup(a: byte, b: byte, c: byte, d: byte)
    ensures ReadBits(a, b, 0) == Unpack(a, b, c, 0)
    ensures ReadBits(a, b, 6) == Unpack(a, b, c, 1)
    ensures ReadBits(b, c, 4) == Unpack(a, b, c, 2)
    ensures ReadBits(c, d, 2) == Unpack(a, b, c, 3)
  {
  }

  lemma WriteFirst(a: byte, b: byte, c: byte, v: byte)
    requires v < 64
    ensures var a', b' := WriteLow(a, 0, v), WriteHigh(b, 0, v);
            && b' == b && Unpack(a', b, c, 0) == v
            && Unpack(a', b, c, 1) == Unpack(a, b, c, 1)
            && Unpack(a', b, c, 2) == Unpack(a, b, c, 2) && Unpack(a', b, c, 3) == Unpack(a, b, c, 3)
  {
  }

  lemma WriteSecond(a: byte, b: byte, c: byte, v: byte)
    requires v < 64
    ensures var a', b' := WriteLow(a, 6, v), WriteHigh(b, 6, v);
            && Unpack(a', b', c, 1) == v && Unpack(a', b', c, 0) == Unpack(a, b, c, 0)
            && Unpack(a', b', c, 2) == Unpack(a, b, c, 2) && Unpack(a', b', c, 3) == Unpack(a, b, c, 3)
  {
  }

  lemma WriteThird(a: byte, b: byte, c: byte, v: byte)
    requires v < 64
    ensures var b', c' := WriteLow(b, 4, v), WriteHigh(c, 4, v);
            && Unpack(a, b', c', 2) == v && Unpack(a, b', c', 1) == Unpack(a, b, c, 1)
            && Unpack(a, b', c', 3) == Unpack(a, b, c, 3) && Unpack(a, b', c', 0) == Unpack(a, b, c, 0)
  {
    WriteThirdLow(b, v);
    WriteThirdHigh(c, v);
    hide WriteLow, WriteHigh;
  }

  lemma WriteThirdLow(b: byte, v: byte)
    requires v < 64
    ensures WriteLow(b, 4, v) == (b & 15) | (v << 4)
  {
  }

  lemma WriteThirdHigh(c: byte, v: byte)
    requires v < 64
    ensures WriteHigh(c, 4, v) == (c & 252) | (v >> 4)
  {
  }

  lemma WriteFourth(a: byte, b: byte, c: byte, d: byte, v: byte)
    requires v < 64
    ensures var c', d' := WriteLow(c, 2, v), WriteHigh(d, 2, v);
            && d' == d && Unpack(a, b, c', 3) == v && Unpack(a, b, c', 2) == Unpack(a, b, c, 2)
            && Unpack(a, b, c', 0) == Unpack(a, b, c, 0) && Unpack(a, b, c', 1) == Unpack(a, b, c, 1)
  {
  }

  // A group after its register k was set.
  ghost predicate GroupSet(a: byte, b: byte, c: byte, a': byte, b': byte, c': byte, k: nat, v: byte)
    requires k < 4
  {
    && Unpack(a', b', c', 0) == (if k == 0 then v else Unpack(a, b, c, 0))
    && Unpack(a', b', c', 1) == (if k == 1 then v else Unpack(a, b, c, 1))
    && Unpack(a', b', c', 2) == (if k == 2 then v else Unpack(a, b, c, 2))
    && Unpack(a', b', c', 3) == (if k == 3 then v else Unpack(a, b, c, 3))
  }

  // What the two writes for register k make of byte i of a group of four, with old value x.
  function Wrote(x: byte, i: nat, k: nat, v: byte): byte
    requires k < 4
  {
    if i == FirstByte(k) then WriteLow(x, FirstBit(k), v)
    else if i == FirstByte(k) + 1 then WriteHigh(x, FirstBit(k), v)
    else x
  }

  // The last of the four bytes belongs to the next group.
  lemma WriteGroup(a: byte, b: byte, c: byte, d: byte, k: nat, v: byte)
    requires k < 4 && v < 64
    ensures GroupSet(a, b, c, Wrote(a, 0, k, v), Wrote(b, 1, k, v), Wrote(c, 2, k, v), k, v)
    ensures Wrote(d, 3, k, v) == d
  {
    hide WriteLow, WriteHigh, Unpack;
    if k == 0 {
      WriteFirst(a, b, c, v);
    } else if k == 1 {
      WriteSecond(a, b, c, v);
    } else if k == 2 {
      WriteThird(a, b, c, v);
    } else {
      WriteFourth(a, b, c, d, v);
    }
  }

  lemma ReadIsSmall(b0: byte, b1: byte, fb: nat)
    requires fb < 8
    ensures ReadBits(b0, b1, fb) < 64
  {
  }

  // ---------------------------------------------------------------- ranks

  // x << n, one place at a time.
  function Shl(x: bv64, n: nat): bv64
    decreases n
  {
    if n == 0 then x else Shl(x << 1, n - 1)
  }

  lemma {:induction false} ShlAdd(x: bv64, m: nat, n: nat)
    ensures Shl(x, m + n) == Shl(Shl(x, m), n)
    decreases m
  {
    if m > 0 { ShlAdd(x << 1, m - 1, n); }
  }

  function PowBit(j: nat): bv64 {
    Shl(1, j)
  }

  lemma NextBit(j: nat)
    ensures PowBit(j + 1) == Twice(PowBit(j))
  {
    ShlAdd(1, j, 1);
  }

  lemma Shl2(x: bv64)
    ensures Shl(x, 2) == x << 2
  {
    assert Shl(x, 2) == (x << 1) << 1;
  }

  lemma Doubled(x: bv64)
    ensures (x << 2) << 2 == x << 4 && (x << 4) << 4 == x << 8 && (x << 8) << 8 == x << 16
  {
  }

  lemma Shl4(x: bv64)
    ensures Shl(x, 4) == x << 4
  {
    ShlAdd(x, 2, 2);
    Doubled(x);
    Shl2(x);
    Shl2(x << 2);
  }

  lemma Shl8(x: bv64)
    ensures Shl(x, 8) == x << 8
  {
    ShlAdd(x, 4, 4);
    Doubled(x);
    Shl4(x);
    Shl4(x << 4);
  }

  lemma Shl16(x: bv64)
    ensures Shl(x, 16) == x << 16
  {
    ShlAdd(x, 8, 8);
    Doubled(x);
    Shl8(x);
    Shl8(x << 8);
  }

  const TOP: bv64 := 0x8000_0000_0000_0000

  // HLL_REGISTERS is bit 14, and bit 63 is the last one.
  lemma KnownBits()
    ensures PowBit(14) == 16384 && PowBit(63) == TOP
  {
    hide Shl;
    ShlAdd(1, 8, 6);
    ShlAdd(1 << 8, 4, 2);
    Shl8(1);
    Shl4(1 << 8);
    Shl2(1 << 12);
    ShlAdd(1 << 14, 16, 33);
    Shl16(1 << 14);
    ShlAdd(1 << 30, 16, 17);
    Shl16(1 << 30);
    ShlAdd(1 << 46, 16, 1);
    Shl16(1 << 46);
    LastShift();
    ShlAdd(1, 14, 49);
  }

  lemma LastShift()
    ensures Shl(0x4000_0000_0000_0000, 1) == TOP
  {
  }

  // The register of a hash, from its lowest 14 bits.
  function IndexOf(h: bv64): (r: nat)
    ensures r < REGISTERS
  {
    Last14(h) as nat
  }

  function Last14(h: bv64): (l: bv64)
    ensures l < 16384
  {
    h & 16383
  }

  // Whether the hash, with its last bit set, has the given bit.
  predicate HasBit(h: bv64, bit: bv64) {
    (h | TOP) & bit != 0
  }

  function Twice(x: bv64): bv64 { x << 1 }

  // One more than the number of clear bits from bit j on, bit 63 counting as set.
  function RankFrom(h: bv64, j: nat): (n: nat)
    requires j <= 63
    ensures 1 <= n <= 64 - j
    decreases 63 - j
  {
    if HasBit(h, PowBit(j)) || j == 63 then 1 else 1 + RankFrom(h, j + 1)
  }

  function RankOf(h: bv64): (n: nat)
    ensures 1 <= n <= 50
  {
    RankFrom(h, 14)
  }

  // The rank is the length of the pattern 00..01 above the index bits.
  lemma {:induction false} RankIsPattern(h: bv64, j: nat, i: nat)
    requires j <= i < 63
    ensures (forall k: nat | j <= k <= i :: !HasBit(h, PowBit(k))) <==> RankFrom(h, j) > i - j + 1
    decreases i - j
  {
    hide PowBit;
    if !HasBit(h, PowBit(j)) && j < i {
      RankIsPattern(h, j + 1, i);
    }
  }

  predicate SameLast14(h: bv64, h': bv64) {
    h << 50 == h' << 50
  }

  // Two hashes have the same register exactly when their last 14 bits agree.
  lemma IndexIff(h: bv64, h': bv64)
    ensures IndexOf(h) == IndexOf(h') <==> SameLast14(h, h')
  {
    hide SameLast14, Last14;
    Last14Iff(h, h');
    IndexIsNat(Last14(h), Last14(h'));
  }

  lemma Last14Iff(h: bv64, h': bv64)
    ensures Last14(h) == Last14(h') <==> SameLast14(h, h')
  {
  }

  lemma IndexIsNat(x: bv64, y: bv64)
    ensures x as nat == y as nat <==> x == y
  {
    hide FromNat;
    FromNatIs(x);
    FromNatIs(y);
  }

  function FromNat(n: nat): bv64
    requires n < 0x1_0000_0000_0000_0000
  {
    n as bv64
  }

  lemma FromNatIs(x: bv64)
    ensures FromNat(x as nat) == x
  {
  }

  predicate Meets(x: bv64, y: bv64) {
    x & y != 0
  }

  // Bit k of a hash.
  predicate IsSet(h: bv64, k: nat) {
    Meets(h, PowBit(k))
  }

  // The rank is the place of the lowest bit set from bit 14 on, the last bit counting as set.
  lemma RankIs(h: bv64, n: nat)
    requires 1 <= n <= 50
    ensures RankOf(h) == n <==> (forall k: nat | 14 <= k < 13 + n :: !IsSet(h, k)) && (n == 50 || IsSet(h, 13 + n))
  {
    hide RankOf, IsSet;
    RankAbove(h, n - 1);
    if n < 50 { RankAbove(h, n); }
  }

  lemma RankAbove(h: bv64, n: nat)
    requires n < 50
    ensures RankOf(h) > n <==> forall k: nat | 14 <= k < 14 + n :: !IsSet(h, k)
  {
    hide PowBit, HasBit, IsSet;
    forall k: nat | k < 63 ensures HasBit(h, PowBit(k)) == IsSet(h, k) { BelowLast(h, k); }
    if n > 0 { RankIsPattern(h, 14, 13 + n); }
  }

  lemma BelowLast(h: bv64, k: nat)
    requires k < 63
    ensures HasBit(h, PowBit(k)) == IsSet(h, k)
  {
    hide PowBit, HasBit, Meets;
    KnownBits();
    BitsAreApart(63, k);
    HasIff(h, PowBit(k));
  }

  lemma HasIff(h: bv64, bit: bv64)
    requires !Meets(TOP, bit)
    ensures HasBit(h, bit) <==> Meets(h, bit)
  {
    OrMasked(h, TOP, bit);
  }

  lemma OrMasked(x: bv64, y: bv64, z: bv64)
    requires y & z == 0
    ensures (x | y) & z == x & z
  {
  }

  lemma {:induction false} BitsAreApart(j: nat, k: nat)
    requires k < j
    ensures !Meets(PowBit(j), PowBit(k))
    decreases k
  {
    hide PowBit, Meets, Twice;
    NextBit(j - 1);
    if k > 0 {
      NextBit(k - 1);
      BitsAreApart(j - 1, k - 1);
      BothTwice(PowBit(j - 1), PowBit(k - 1));
    } else {
      FirstBitIsOne();
      EvenAndOne(PowBit(j - 1));
    }
  }

  lemma FirstBitIsOne()
    ensures PowBit(0) == 1
  {
  }

  lemma BothTwice(x: bv64, y: bv64)
    requires !Meets(x, y)
    ensures !Meets(Twice(x), Twice(y))
  {
  }

  lemma EvenAndOne(x: bv64)
    ensures !Meets(Twice(x), 1)
  {
  }

  // ---------------------------------------------------------------- registers of a set

  // Register r holds the largest rank of the elements that belong to it, 0 without any.
  ghost predicate IsBest(hash: Key -> bv64, elements: set<Key>, r: nat, v: nat) {
    && (forall e | e in elements && IndexOf(hash(e)) == r :: RankOf(hash(e)) <= v)
    && (v == 0 || exists e | e in elements :: IndexOf(hash(e)) == r && RankOf(hash(e)) == v)
  }

  ghost predicate Describes(hash: Key -> bv64, elements: set<Key>, regs: seq<byte>) {
    |regs| == REGISTERS && forall r: nat | r < REGISTERS :: IsBest(hash, elements, r, regs[r] as nat)
  }

  lemma BestIsUnique(hash: Key -> bv64, elements: set<Key>, r: nat, v: nat, w: nat)
    requires IsBest(hash, elements, r, v) && IsBest(hash, elements, r, w)
    ensures v == w
  {
  }

  // The registers are a function of the set: order and repetition do not matter.
  lemma RegistersAreDetermined(hash: Key -> bv64, elements: set<Key>, regs: seq<byte>, regs': seq<byte>)
    requires Describes(hash, elements, regs) && Describes(hash, elements, regs')
    ensures regs == regs'
  {
    forall r: nat | r < REGISTERS ensures regs[r] == regs'[r] {
      BestIsUnique(hash, elements, r, regs[r] as nat, regs'[r] as nat);
      assert (regs[r] as nat) as byte == regs[r];
    }
  }

  lemma BestOfUnion(hash: Key -> bv64, a: set<Key>, b: set<Key>, r: nat, v: nat, w: nat)
    requires IsBest(hash, a, r, v) && IsBest(hash, b, r, w)
    ensures IsBest(hash, a + b, r, if w > v then w else v)
  {
  }

  lemma BestOfAdded(hash: Key -> bv64, a: set<Key>, e: Key, r: nat, v: nat)
    requires IsBest(hash, a, r, v)
    ensures var n := RankOf(hash(e));
            IsBest(hash, a + {e}, r, if IndexOf(hash(e)) == r && n > v then n else v)
  {
    var n := RankOf(hash(e));
    if IndexOf(hash(e)) == r && n > v {
      assert e in a + {e};
    } else if v > 0 {
      var x :| x in a && IndexOf(hash(x)) == r && RankOf(hash(x)) == v;
      assert x in a + {e};
    }
  }

  // ---------------------------------------------------------------- sums

  // PE[v] == 2^-v
  function PE(v: byte): real {
    Inverse(v as nat)
  }

  function Inverse(n: nat): real {
    if n == 0 then 1.0 else Inverse(n - 1) / 2.0
  }

  lemma {:induction false} InverseIsPower(n: nat)
    ensures Inverse(n) * Pow2(n) as real == 1.0
  {
    if n > 0 {
      InverseIsPower(n - 1);
      assert Pow2(n) as real == 2.0 * Pow2(n - 1) as real;
      HalfOfDouble(Inverse(n - 1), Pow2(n - 1) as real);
    }
  }

  lemma HalfOfDouble(x: real, y: real)
    ensures x / 2.0 * (2.0 * y) == x * y
  {
  }

  function Zeros(regs: seq<byte>, n: nat): (z: nat)
    requires n <= |regs|
  {
    if n == 0 then 0 else Zeros(regs, n - 1) + (if regs[n - 1] == 0 then 1 else 0)
  }

  // The sum of 2^-reg over the first n registers.
  function Sum(regs: seq<byte>, n: nat): (s: real)
    requires n <= |regs|
  {
    if n == 0 then 0.0 else Sum(regs, n - 1) + PE(regs[n - 1])
  }

  // The same sum with the zero registers left out.
  function SumOfNonzero(regs: seq<byte>, n: nat): (s: real)
    requires n <= |regs|
  {
    if n == 0 then 0.0 else SumOfNonzero(regs, n - 1) + (if regs[n - 1] == 0 then 0.0 else PE(regs[n - 1]))
  }

  // Counting the zero registers first and adding one for each at the end is the same.
  lemma {:induction false} ZerosAddOne(regs: seq<byte>, n: nat)
    requires n <= |regs|
    ensures Sum(regs, n) == SumOfNonzero(regs, n) + Zeros(regs, n) as real
    decreases n
  {
    if n > 0 {
      ZerosAddOne(regs, n - 1);
      if regs[n - 1] == 0 { assert PE(regs[n - 1]) == 1.0; }
    }
  }

  lemma FourMore(regs: seq<byte>, n: nat)
    requires n + 4 <= |regs|
    ensures Sum(regs, n + 4) == Sum(regs, n) + PE(regs[n]) + PE(regs[n + 1]) + PE(regs[n + 2]) + PE(regs[n + 3])
    ensures Zeros(regs, n + 4) == Zeros(regs, n) + IsZero(regs[n]) + IsZero(regs[n + 1]) +
                                  IsZero(regs[n + 2]) + IsZero(regs[n + 3])
    ensures SumOfNonzero(regs, n + 4) == SumOfNonzero(regs, n) + NonzeroPE(regs[n]) + NonzeroPE(regs[n + 1]) +
                                         NonzeroPE(regs[n + 2]) + NonzeroPE(regs[n + 3])
  {
    hide PE;
    assert Sum(regs, n + 2) == Sum(regs, n) + PE(regs[n]) + PE(regs[n + 1]);
    assert Zeros(regs, n + 2) == Zeros(regs, n) + IsZero(regs[n]) + IsZero(regs[n + 1]);
    assert SumOfNonzero(regs, n + 2) == SumOfNonzero(regs, n) + NonzeroPE(regs[n]) + NonzeroPE(regs[n + 1]);
  }

  function IsZero(v: byte): nat { if v == 0 then 1 else 0 }

  function NonzeroPE(v: byte): real { if v == 0 then 0.0 else PE(v) }

  // ---------------------------------------------------------------- the cached count

  const INVALID: byte := 128

  // card, little endian.
  function CardValue(c: seq<byte>): bv64
    requires |c| == 8
  {
    c[0] as bv64 | ((c[1] as bv64) << 8) | ((c[2] as bv64) << 16) | ((c[3] as bv64) << 24) |
    ((c[4] as bv64) << 32) | ((c[5] as bv64) << 40) | ((c[6] as bv64) << 48) | ((c[7] as bv64) << 56)
  }

  // The bytes of card & 0xff, (card >> 8) & 0xff, ...
  function CardBytes(x: bv64): (c: seq<byte>)
    ensures |c| == 8
  {
    [(x & 255) as byte, ((x >> 8) & 255) as byte, ((x >> 16) & 255) as byte, ((x >> 24) & 255) as byte,
     ((x >> 32) & 255) as byte, ((x >> 40) & 255) as byte, ((x >> 48) & 255) as byte, ((x >> 56) & 255) as byte]
  }

  lemma CardRoundTrip(x: bv64)
    ensures CardValue(CardBytes(x)) == x
  {
  }

  function Max(v: byte, w: byte): byte { if w > v then w else v }

  function MaxAll(a: seq<byte>, b: seq<byte>): (c: seq<byte>)
    requires |a| == |b|
    ensures |c| == |a| && forall r: nat | r < |c| :: c[r] == Max(a[r], b[r])
  {
    seq(|a|, r requires 0 <= r < |a| => Max(a[r], b[r]))
  }

  // The registers of two sets, merged, are the registers of their union.
  lemma UnionOfDescribed(hash: Key -> bv64, a: set<Key>, b: set<Key>, x: seq<byte>, y: seq<byte>)
    requires Describes(hash, a, x) && Describes(hash, b, y)
    ensures Describes(hash, a + b, MaxAll(x, y))
  {
    forall r: nat | r < REGISTERS ensures IsBest(hash, a + b, r, MaxAll(x, y)[r] as nat) {
      BestOfUnion(hash, a, b, r, x[r] as nat, y[r] as nat);
      Larger(x[r], y[r]);
    }
  }

  lemma Larger(v: byte, w: byte)
    ensures Max(v, w) as nat == if w as nat > v as nat then w as nat else v as nat
  {
  }

  lemma TopIsSet(h: bv64)
    ensures HasBit(h, PowBit(63))
  {
    KnownBits();
    hide PowBit;
    assert (h | TOP) & TOP == TOP;
  }

  lemma RankStep(h: bv64, j: nat)
    requires j <= 63
    ensures if !HasBit(h, PowBit(j)) then j < 63 && RankFrom(h, j) == 1 + RankFrom(h, j + 1) else RankFrom(h, j) == 1
  {
    hide PowBit;
    TopIsSet(h);
  }

  lemma SetsTopBit(b: byte)
    ensures (b | INVALID) & INVALID != 0
  {
  }

  lemma SmallBytes(count: nat, v: byte)
    requires count <= 50
    ensures (count as byte) as nat == count && (count as byte) < 64
    ensures count as byte > v <==> count > v as nat
  {
  }

  lemma AddedToDescribed(hash: Key -> bv64, a: set<Key>, e: Key, x: seq<byte>, y: seq<byte>)
    requires Describes(hash, a, x) && |y| == REGISTERS
    requires var i, n := IndexOf(hash(e)), RankOf(hash(e));
             && (forall r: nat | r < REGISTERS && r != i :: y[r] == x[r])
             && y[i] as nat == if n > x[i] as nat then n else x[i] as nat
    ensures Describes(hash, a + {e}, y)
  {
    hide IsBest;
    forall r: nat | r < REGISTERS ensures IsBest(hash, a + {e}, r, y[r] as nat) {
      BestOfAdded(hash, a, e, r, x[r] as nat);
    }
  }

  lemma SelfMerge(x: seq<byte>, a: set<Key>)
    ensures a + a == a && MaxAll(x, x) == x
  {
  }

  // ---------------------------------------------------------------- counting several objects

  // HLL_HDR_SIZE: the macro for the register size is not in parentheses, so its + 1 is
  // added to the header size instead of being subtracted from it.
  const SIZEOF: nat := 4 + 1 + 3 + 8 + REGISTERS_SIZE
  const HDR_SIZE: nat := SIZEOF - 1 * ((REGISTERS * 6 + 7) / 8) + 1
  const REGISTERS_OFFSET: nat := 4 + 1 + 3 + 8

  type Registers = s: seq<byte> | |s| == REGISTERS witness seq(REGISTERS, i => 0 as byte)

  function Blank(): Registers {
    seq(REGISTERS, i => 0 as byte)
  }

  function Merged(rs: seq<Registers>): (m: Registers) {
    if rs == [] then Blank() else MaxAll(Merged(rs[..|rs| - 1]), rs[|rs| - 1])
  }

  // What hllCount sees of merged registers m: they start two bytes further on than it
  // expects.
  function Shifted(m: Registers): Registers {
    [0, 0] + m[..REGISTERS - 2]
  }

  lemma {:induction false} SumOfTail(x: seq<byte>, y: seq<byte>, n: nat)
    requires |x| == n + 2 && |y| >= n && x[..2] == [0, 0] && x[2..] == y[..n]
    ensures Sum(x, n + 2) == 2.0 + Sum(y, n) && Zeros(x, n + 2) == 2 + Zeros(y, n)
    decreases n
  {
    if n == 0 {
      assert x[0] == x[..2][0] == 0 && x[1] == x[..2][1] == 0;
      assert PE(0) == 1.0;
      TwoMore(x, 0);
    } else {
      var x' := x[..n + 1];
      assert x'[..2] == [0, 0] && x'[2..] == y[..n - 1] by {
        assert x'[2..] == x[2..][..n - 1] && y[..n][..n - 1] == y[..n - 1];
      }
      SumOfTail(x', y, n - 1);
      SumOfPrefix(x, x', n + 1);
      assert x[n + 1] == x[2..][n - 1] == y[n - 1];
    }
  }

  lemma {:induction false} SumOfPrefix(x: seq<byte>, x': seq<byte>, n: nat)
    requires n <= |x| && n <= |x'| && x[..n] == x'[..n]
    ensures Sum(x, n) == Sum(x', n) && Zeros(x, n) == Zeros(x', n)
    decreases n
  {
    if n > 0 {
      assert x[..n][..n - 1] == x[..n - 1] && x'[..n][..n - 1] == x'[..n - 1];
      assert x[n - 1] == x[..n][n - 1] == x'[n - 1];
      SumOfPrefix(x, x', n - 1);
    }
  }

  lemma TwoMore(s: seq<byte>, n: nat)
    requires n + 2 <= |s|
    ensures Sum(s, n + 2) == Sum(s, n) + PE(s[n]) + PE(s[n + 1])
    ensures Zeros(s, n + 2) == Zeros(s, n) + IsZero(s[n]) + IsZero(s[n + 1])
  {
    hide PE;
    assert Sum(s, n + 1) == Sum(s, n) + PE(s[n]);
  }

  lemma {:induction false} InverseBelowOne(n: nat)
    ensures 0.0 < Inverse(n) <= 1.0 && (Inverse(n) == 1.0 <==> n == 0)
  {
    if n > 0 { InverseBelowOne(n - 1); }
  }

  // Counting several objects uses the sum and the zero count of their union exactly when
  // the last two registers of the union are zero.
  lemma MultiCountIffLastZero(m: Registers)
    ensures Sum(Shifted(m), REGISTERS) == Sum(m, REGISTERS) && Zeros(Shifted(m), REGISTERS) == Zeros(m, REGISTERS) <==>
            m[REGISTERS - 2] == 0 && m[REGISTERS - 1] == 0
  {
    hide Inverse;
    var n := REGISTERS - 2;
    assert Shifted(m)[..2] == [0, 0] && Shifted(m)[2..] == m[..n];
    SumOfTail(Shifted(m), m, n);
    InverseBelowOne(m[n] as nat);
    InverseBelowOne(m[n + 1] as nat);
    TwoMore(m, n);
    assert m[n] as nat == 0 ==> m[n] == 0;
    assert m[n + 1] as nat == 0 ==> m[n + 1] == 0;
  }

  // An element in the last register alone is missed altogether: what is counted are the
  // registers of the empty set.
  lemma MultiCountMissesLast(m: Registers, v: byte)
    requires m == Blank()[REGISTERS - 1 := v] && v != 0
    ensures Shifted(m) == Blank() && Zeros(Shifted(m), REGISTERS) == REGISTERS && Zeros(m, REGISTERS) == REGISTERS - 1
  {
    AllZeros(Blank(), REGISTERS);
    AllZeros(m, REGISTERS - 1);
    assert Zeros(m, REGISTERS) == Zeros(m, REGISTERS - 1);
  }

  lemma {:induction false} AllZeros(s: seq<byte>, n: nat)
    requires n <= |s| && forall i | 0 <= i < n :: s[i] == 0
    ensures Zeros(s, n) == n
  {
    if n > 0 { AllZeros(s, n - 1); }
  }

  // The registers of a single element.
  lemma OneElement(hash: Key -> bv64, e: Key, regs: seq<byte>)
    requires Describes(hash, {e}, regs)
    ensures var r := IndexOf(hash(e)); regs[r] != 0 && regs == Blank()[r := regs[r]]
  {
    hide IndexOf, RankOf;
    var r := IndexOf(hash(e));
    forall q: nat | q < REGISTERS ensures (q == r <==> regs[q] != 0) {
      assert IsBest(hash, {e}, q, regs[q] as nat);
      assert regs[q] as nat == 0 <==> regs[q] == 0 by { NatOfByte(regs[q]); }
    }
  }

  lemma NoElements(hash: Key -> bv64, regs: seq<byte>)
    requires Describes(hash, {}, regs)
    ensures regs == Blank()
  {
    forall q: nat | q < REGISTERS ensures regs[q] == 0 {
      assert IsBest(hash, {}, q, regs[q] as nat);
      NatOfByte(regs[q]);
    }
  }

  lemma NatOfByte(b: byte)
    ensures b as nat == 0 <==> b == 0
  {
  }
}
