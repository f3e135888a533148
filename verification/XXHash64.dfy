// XXH64, in one shot and incrementally (common/xxhash.c).

module XXHash64 {
  import opened Common
  import opened XXHashBlocks

  const PRIME4: bv64 := 9650029242287828579

  // Multiplication by the other primes.
  function Times1(x: bv64): bv64 { x * 11400714785074694791 }
  function Times2(x: bv64): bv64 { x * 14029467366897019727 }
  function Times3(x: bv64): bv64 { x * 1609587929392839161 }
  function Times5(x: bv64): bv64 { x * 2870177450012600261 }

  const BLOCK: nat := 32

  datatype Lanes = Lanes(v1: bv64, v2: bv64, v3: bv64, v4: bv64)

  function Fold29(x: bv64): bv64 { x ^ (x >> 29) }
  function Fold32(x: bv64): bv64 { x ^ (x >> 32) }
  function Fold33(x: bv64): bv64 { x ^ (x >> 33) }

  function Plus(x: bv64, y: bv64): bv64 { x + y }
  function Xor(x: bv64, y: bv64): bv64 { x ^ y }

  function Rotl(x: bv64, r: nat): bv64
    requires 0 < r < 64
  {
    (x << r) | (x >> (64 - r))
  }

  function Round(acc: bv64, input: bv64): bv64 {
    Times1(Rotl(Plus(acc, Times2(input)), 31))
  }

  function MergeRound(acc: bv64, val: bv64): bv64 {
    Plus(Times1(Xor(acc, Round(0, val))), PRIME4)
  }

  function FirstLanes(seed: bv64): Lanes {
    Lanes(seed + Times1(1) + Times2(1), seed + Times2(1), seed, seed - Times1(1))
  }

  // One block of 32 bytes through the four lanes.
  function Stripe(v: Lanes, block: seq<byte>): Lanes {
    Lanes(Round(v.v1, Read64(block, 0)), Round(v.v2, Read64(block, 8)),
          Round(v.v3, Read64(block, 16)), Round(v.v4, Read64(block, 24)))
  }

  function Merge(v: Lanes): bv64 {
    var h := Plus(Plus(Plus(Rotl(v.v1, 1), Rotl(v.v2, 7)), Rotl(v.v3, 12)), Rotl(v.v4, 18));
    MergeRound(MergeRound(MergeRound(MergeRound(h, v.v1), v.v2), v.v3), v.v4)
  }

  // (U64)len
  function Length64(len: nat): bv64 {
    (len % U64) as bv64
  }

  function WithLength(h: bv64, len: nat): bv64 {
    Plus(h, Length64(len))
  }

  function MixLong(h: bv64, w: bv64): bv64 {
    Plus(Times1(Rotl(Xor(h, Round(0, w)), 27)), PRIME4)
  }

  function MixWord(h: bv64, w: bv32): bv64 {
    Plus(Times2(Rotl(Xor(h, Times1(w as bv64)), 23)), Times3(1))
  }

  function MixByte(h: bv64, b: byte): bv64 {
    Times1(Rotl(Xor(h, Times5(b as bv64)), 11))
  }

  function Avalanche(h: bv64): bv64 {
    Fold32(Times3(Fold29(Times2(Fold33(h)))))
  }

  function Bytes(h: bv64, s: seq<byte>): bv64
    decreases |s|
  {
    if s == [] then h else Bytes(MixByte(h, s[0]), s[1..])
  }

  // The bytes behind the last full block.
  function Tail(h: bv64, s: seq<byte>): bv64
    decreases |s|
  {
    if |s| >= 8 then Tail(MixLong(h, Read64(s, 0)), s[8..])
    else if |s| >= 4 then Avalanche(Bytes(MixWord(h, Read32(s, 0)), s[4..]))
    else Avalanche(Bytes(h, s))
  }

  function Start(seed: bv64): bv64 {
    Plus(seed, Times5(1))
  }

  // The XXH64 hash of a message: the lanes take its full blocks, the tail the rest.
  ghost function Hash(seed: bv64, m: seq<byte>): bv64 {
    var k := Whole(|m|, BLOCK);
    var v := Consume(Stripe, BLOCK, FirstLanes(seed), m[..k]);
    Tail(WithLength(if |m| >= BLOCK then Merge(v) else Start(seed), |m|), m[k..])
  }

  // ---- Messages that differ in one place behind the blocks have different hashes ----

  // Every step can be undone: multiplication by an odd number, rotation, fold, sum,
  // exclusive or.
  function Over1(z: bv64): bv64 { z * 614540362697595703 }
  function Over2(z: bv64): bv64 { z * 839798700976720815 }
  function Over3(z: bv64): bv64 { z * 16855272203555305545 }
  function Over5(z: bv64): bv64 { z * 14236653164957433613 }

  function Unfold29(z: bv64): bv64 { z ^ (z >> 29) ^ (z >> 58) }
  function Unfold32(z: bv64): bv64 { z ^ (z >> 32) }
  function Unfold33(z: bv64): bv64 { z ^ (z >> 33) }
  function Minus(z: bv64, a: bv64): bv64 { z - a }

  lemma Cancel(x: bv64)
    ensures Over1(x * 11400714785074694791) == x
    ensures Over2(x * 14029467366897019727) == x
    ensures Over3(x * 1609587929392839161) == x
    ensures Over5(x * 2870177450012600261) == x
  {
  }

  lemma TimesApart(x: bv64, y: bv64)
    requires x != y
    ensures Times1(x) != Times1(y) && Times2(x) != Times2(y) && Times3(x) != Times3(y) && Times5(x) != Times5(y)
  {
    hide *;
    TimesIsUndone(x);
    TimesIsUndone(y);
  }

  lemma TimesIsUndone(x: bv64)
    ensures Over1(Times1(x)) == x && Over2(Times2(x)) == x && Over3(Times3(x)) == x && Over5(Times5(x)) == x
  {
    hide Over1, Over2, Over3, Over5;
    Cancel(x);
  }

  lemma RotlApart(x: bv64, y: bv64)
    requires x != y
    ensures Rotl(x, 11) != Rotl(y, 11) && Rotl(x, 23) != Rotl(y, 23)
    ensures Rotl(x, 27) != Rotl(y, 27) && Rotl(x, 31) != Rotl(y, 31)
  {
  }

  lemma PlusApart(x: bv64, y: bv64, a: bv64)
    requires x != y
    ensures Plus(x, a) != Plus(y, a) && Plus(a, x) != Plus(a, y)
  {
    hide Plus, Minus;
    SumIsUndone(x, a);
    SumIsUndone(y, a);
  }

  lemma SumIsUndone(x: bv64, a: bv64)
    ensures Minus(Plus(x, a), a) == x && Minus(Plus(a, x), a) == x
  {
  }

  lemma XorApart(x: bv64, y: bv64, a: bv64)
    requires x != y
    ensures Xor(x, a) != Xor(y, a) && Xor(a, x) != Xor(a, y)
  {
    hide Xor;
    XorIsUndone(x, a);
    XorIsUndone(y, a);
  }

  lemma XorIsUndone(x: bv64, a: bv64)
    ensures Xor(Xor(x, a), a) == x && Xor(Xor(a, x), a) == x
  {
  }

  lemma CancelFold(x: bv64)
    ensures Unfold29(x ^ (x >> 29)) == x && Unfold32(x ^ (x >> 32)) == x && Unfold33(x ^ (x >> 33)) == x
  {
  }

  lemma FoldIsUndone(x: bv64)
    ensures Unfold29(Fold29(x)) == x && Unfold32(Fold32(x)) == x && Unfold33(Fold33(x)) == x
  {
    hide Unfold29, Unfold32, Unfold33;
    CancelFold(x);
  }

  lemma FoldApart(x: bv64, y: bv64)
    requires x != y
    ensures Fold29(x) != Fold29(y) && Fold32(x) != Fold32(y) && Fold33(x) != Fold33(y)
  {
    hide *;
    FoldIsUndone(x);
    FoldIsUndone(y);
  }

  lemma RoundTellsApart(w: bv64, w': bv64)
    requires w != w'
    ensures Round(0, w) != Round(0, w')
  {
    hide Times1, Times2, Rotl, Plus;
    TimesApart(w, w');
    PlusApart(Times2(w), Times2(w'), 0);
    var x, y := Plus(0, Times2(w)), Plus(0, Times2(w'));
    RotlApart(x, y);
    TimesApart(Rotl(x, 31), Rotl(y, 31));
  }

  lemma MixLongApart(h: bv64, h': bv64, w: bv64)
    requires h != h'
    ensures MixLong(h, w) != MixLong(h', w)
  {
    hide Times1, Times2, Times3, Times5, Rotl, Xor, Plus, Round;
    var a := Round(0, w);
    XorApart(h, h', a);
    var x, y := Xor(h, a), Xor(h', a);
    RotlApart(x, y);
    TimesApart(Rotl(x, 27), Rotl(y, 27));
    PlusApart(Times1(Rotl(x, 27)), Times1(Rotl(y, 27)), PRIME4);
  }

  lemma MixLongTellsApart(h: bv64, w: bv64, w': bv64)
    requires w != w'
    ensures MixLong(h, w) != MixLong(h, w')
  {
    hide Times1, Times2, Times3, Times5, Rotl, Xor, Plus, Round;
    RoundTellsApart(w, w');
    var a, a' := Round(0, w), Round(0, w');
    XorApart(a, a', h);
    var x, y := Xor(h, a), Xor(h, a');
    RotlApart(x, y);
    TimesApart(Rotl(x, 27), Rotl(y, 27));
    PlusApart(Times1(Rotl(x, 27)), Times1(Rotl(y, 27)), PRIME4);
  }

  lemma MixWordApart(h: bv64, h': bv64, w: bv32)
    requires h != h'
    ensures MixWord(h, w) != MixWord(h', w)
  {
    hide Times1, Times2, Times3, Times5, Rotl, Xor, Plus, Round;
    var a := Times1(w as bv64);
    XorApart(h, h', a);
    var x, y := Xor(h, a), Xor(h', a);
    RotlApart(x, y);
    TimesApart(Rotl(x, 23), Rotl(y, 23));
    PlusApart(Times2(Rotl(x, 23)), Times2(Rotl(y, 23)), Times3(1));
  }

  lemma MixWordTellsApart(h: bv64, w: bv32, w': bv32)
    requires w != w'
    ensures MixWord(h, w) != MixWord(h, w')
  {
    hide Times1, Times2, Times3, Times5, Rotl, Xor, Plus, Round;
    TimesApart(w as bv64, w' as bv64);
    var a, a' := Times1(w as bv64), Times1(w' as bv64);
    XorApart(a, a', h);
    var x, y := Xor(h, a), Xor(h, a');
    RotlApart(x, y);
    TimesApart(Rotl(x, 23), Rotl(y, 23));
    PlusApart(Times2(Rotl(x, 23)), Times2(Rotl(y, 23)), Times3(1));
  }

  lemma MixByteApart(h: bv64, h': bv64, b: byte)
    requires h != h'
    ensures MixByte(h, b) != MixByte(h', b)
  {
    hide Times1, Times2, Times3, Times5, Rotl, Xor, Plus, Round;
    var a := Times5(b as bv64);
    XorApart(h, h', a);
    var x, y := Xor(h, a), Xor(h', a);
    RotlApart(x, y);
    TimesApart(Rotl(x, 11), Rotl(y, 11));
  }

  lemma MixByteTellsApart(h: bv64, b: byte, b': byte)
    requires b != b'
    ensures MixByte(h, b) != MixByte(h, b')
  {
    hide Times1, Times2, Times3, Times5, Rotl, Xor, Plus, Round;
    TimesApart(b as bv64, b' as bv64);
    var a, a' := Times5(b as bv64), Times5(b' as bv64);
    XorApart(a, a', h);
    var x, y := Xor(h, a), Xor(h, a');
    RotlApart(x, y);
    TimesApart(Rotl(x, 11), Rotl(y, 11));
  }

  lemma AvalancheApart(h: bv64, h': bv64)
    requires h != h'
    ensures Avalanche(h) != Avalanche(h')
  {
    hide Times2, Times3, Fold29, Fold32, Fold33;
    FoldApart(h, h');
    TimesApart(Fold33(h), Fold33(h'));
    var a, a' := Times2(Fold33(h)), Times2(Fold33(h'));
    FoldApart(a, a');
    TimesApart(Fold29(a), Fold29(a'));
    FoldApart(Times3(Fold29(a)), Times3(Fold29(a')));
  }

  lemma {:induction false} BytesApart(h: bv64, h': bv64, s: seq<byte>)
    requires h != h'
    ensures Bytes(h, s) != Bytes(h', s)
    decreases |s|
  {
    hide MixByte;
    if s != [] {
      MixByteApart(h, h', s[0]);
      BytesApart(MixByte(h, s[0]), MixByte(h', s[0]), s[1..]);
    }
  }

  lemma {:induction false} TailApart(h: bv64, h': bv64, s: seq<byte>)
    requires h != h'
    ensures Tail(h, s) != Tail(h', s)
    decreases |s|
  {
    hide MixLong, MixWord, Bytes, Avalanche, Read32, Read64;
    if |s| >= 8 {
      var w := Read64(s, 0);
      MixLongApart(h, h', w);
      TailApart(MixLong(h, w), MixLong(h', w), s[8..]);
    } else if |s| >= 4 {
      var w := Read32(s, 0);
      MixWordApart(h, h', w);
      EndApart(MixWord(h, w), MixWord(h', w), s[4..]);
    } else {
      EndApart(h, h', s);
    }
  }

  lemma EndApart(h: bv64, h': bv64, s: seq<byte>)
    requires h != h'
    ensures Avalanche(Bytes(h, s)) != Avalanche(Bytes(h', s))
  {
    hide Bytes, Avalanche;
    BytesApart(h, h', s);
    AvalancheApart(Bytes(h, s), Bytes(h', s));
  }

  lemma {:induction false} BytesTellApart(h: bv64, s: seq<byte>, t: seq<byte>, i: nat)
    requires DifferAt(s, t, i, 1)
    ensures Avalanche(Bytes(h, s)) != Avalanche(Bytes(h, t))
    decreases |s|
  {
    hide MixByte, Avalanche;
    if i == 0 {
      assert s[0] != t[0] && s[1..] == t[1..];
      MixByteTellsApart(h, s[0], t[0]);
      EndApart(MixByte(h, s[0]), MixByte(h, t[0]), s[1..]);
    } else {
      BehindFirst(s, t, i, 1, 1);
      BytesTellApart(MixByte(h, s[0]), s[1..], t[1..], i - 1);
    }
  }

  // Where the bytes behind the last word of eight and of four begin.
  function Longs(len: nat): nat { len - len % 8 }
  function Words(len: nat): nat { if len % 8 >= 4 then Longs(len) + 4 else Longs(len) }

  // The places where one word or byte behind the blocks decides.
  predicate IsUnit(len: nat, i: nat, n: nat) {
    (n == 8 && i % 8 == 0 && i + 8 <= len) || (n == 4 && i == Longs(len) && i + 4 <= len) ||
    (n == 1 && Words(len) <= i < len)
  }

  lemma EndTellsApart(h: bv64, s: seq<byte>, t: seq<byte>, i: nat, n: nat)
    requires |s| < 8 && DifferAt(s, t, i, n) && IsUnit(|s|, i, n)
    ensures Tail(h, s) != Tail(h, t)
  {
    hide MixLong, MixWord, Bytes, Avalanche, Read32, Read64;
    if |s| < 4 {
      BytesTellApart(h, s, t, i);
    } else if i == 0 {
      FirstWordDiffers(s, t);
      MixWordTellsApart(h, Read32(s, 0), Read32(t, 0));
      EndApart(MixWord(h, Read32(s, 0)), MixWord(h, Read32(t, 0)), s[4..]);
    } else {
      BehindFirst(s, t, i, n, 4);
      SameWord(s, t, 0);
      BytesTellApart(MixWord(h, Read32(s, 0)), s[4..], t[4..], i - 4);
    }
  }

  // What follows a place behind the first eight bytes.
  lemma UnitBehindLong(len: nat, i: nat, n: nat)
    requires len >= 8 && IsUnit(len, i, n)
    ensures if i == 0 then n == 8 else i >= 8 && IsUnit(len - 8, i - 8, n)
  {
  }

  lemma {:induction false} TailTellsApart(h: bv64, s: seq<byte>, t: seq<byte>, i: nat, n: nat)
    requires DifferAt(s, t, i, n) && IsUnit(|s|, i, n)
    ensures Tail(h, s) != Tail(h, t)
    decreases |s|
  {
    hide MixLong, MixWord, Bytes, Avalanche, Read32, Read64, IsUnit, DifferAt;
    SameLength(s, t, i, n);
    if |s| < 8 {
      EndTellsApart(h, s, t, i, n);
    } else if i == 0 {
      UnitBehindLong(|s|, i, n);
      FirstLongDiffers(s, t);
      MixLongTellsApart(h, Read64(s, 0), Read64(t, 0));
      TailApart(MixLong(h, Read64(s, 0)), MixLong(h, Read64(t, 0)), s[8..]);
    } else {
      UnitBehindLong(|s|, i, n);
      BehindFirst(s, t, i, n, 8);
      SameLong(s, t);
      TailTellsApart(MixLong(h, Read64(s, 0)), s[8..], t[8..], i - 8, n);
    }
  }

  // Two messages of the same length that differ in one word or byte behind the last full
  // block have different hashes.
  lemma WordMatters(seed: bv64, a: seq<byte>, b: seq<byte>, i: nat, n: nat)
    requires DifferAt(a, b, i, n) && Whole(|a|, BLOCK) <= i && IsUnit(|a| % BLOCK, i - Whole(|a|, BLOCK), n)
    ensures Hash(seed, a) != Hash(seed, b)
  {
    hide Tail, WithLength, Merge, Start, Stripe, FirstLanes, Consume, DifferAt, IsUnit;
    var k := Whole(|a|, BLOCK);
    SameLength(a, b, i, n);
    BehindFirst(a, b, i, n, k);
    var v := Consume(Stripe, BLOCK, FirstLanes(seed), a[..k]);
    TailTellsApart(WithLength(if |a| >= BLOCK then Merge(v) else Start(seed), |a|), a[k..], b[k..], i - k, n);
  }

  // Changing one byte behind the last full block changes the hash of a message.
  lemma ByteMatters(seed: bv64, m: seq<byte>, i: nat, b: byte)
    requires Whole(|m|, BLOCK) <= i < |m| && b != m[i]
    ensures Hash(seed, m[i := b]) != Hash(seed, m)
  {
    hide Hash;
    var k, len := Whole(|m|, BLOCK), |m| % BLOCK;
    var j, n := UnitOf(len, i - k);
    WordMatters(seed, m[i := b], m, k + j, n);
  }

  // Every place is in a unit.
  lemma UnitOf(len: nat, i: nat) returns (j: nat, n: nat)
    requires i < len
    ensures IsUnit(len, j, n) && j <= i < j + n <= len
  {
    if i < Longs(len) {
      j, n := i - i % 8, 8;
    } else if i < Words(len) {
      j, n := Longs(len), 4;
    } else {
      j, n := i, 1;
    }
  }

  // A message shorter than a block has a hash of its own for every seed.
  lemma SeedMatters(seed: bv64, seed': bv64, m: seq<byte>)
    requires |m| < BLOCK && seed != seed'
    ensures Hash(seed, m) != Hash(seed', m)
  {
    hide Tail, Merge, Stripe, FirstLanes, Consume, Plus, Times5, Length64;
    PlusApart(seed, seed', Times5(1));
    PlusApart(Start(seed), Start(seed'), Length64(|m|));
    TailApart(WithLength(Start(seed), |m|), WithLength(Start(seed'), |m|), m);
  }

  // The values of "foobar" with the seeds 0 and 1, of "foobar" twice, and of a block.
  const FOOBAR: seq<byte> := [102, 111, 111, 98, 97, 114]
  const TWICE: seq<byte> := FOOBAR + FOOBAR
  const BLOCK32: seq<byte> := [48, 49, 50, 51, 52, 53, 54, 55, 56, 57, 97, 98, 99, 100, 101, 102,
                               103, 104, 105, 106, 107, 108, 109, 110, 111, 112, 113, 114, 115, 116, 117, 118]

  lemma LengthFits(len: nat)
    requires len < U64
    ensures Length64(len) == len as bv64
  {
    assert len % U64 == len;
  }

  lemma KnownStarts()
    ensures WithLength(Start(0), 6) == 0x27d4eb2f165667cb && WithLength(Start(1), 6) == 0x27d4eb2f165667cc
    ensures WithLength(Start(0), 12) == 0x27d4eb2f165667d1
    ensures WithLength(0x40644c6b29be28, 32) == 0x40644c6b29be48
  {
    hide Length64;
    LengthFits(6);
    LengthFits(12);
    LengthFits(32);
  }

  lemma KnownWords()
    ensures Read32(FOOBAR, 0) == 0x626f6f66
    ensures Read32(TWICE, 0) == 0x626f6f66 && Read32(TWICE, 4) == 0x6f667261
    ensures Read32(TWICE[8..], 0) == 0x7261626f
  {
  }

  lemma KnownLongs()
    ensures Read64(BLOCK32, 0) == 0x3736353433323130 && Read64(BLOCK32, 8) == 0x6665646362613938
    ensures Read64(BLOCK32, 16) == 0x6e6d6c6b6a696867 && Read64(BLOCK32, 24) == 0x767574737271706f
    ensures Read64(TWICE, 0) == 0x6f667261626f6f66
  {
    hide Read32;
    KnownWords();
    KnownFirstHalf();
    KnownSecondHalf();
  }

  lemma KnownFirstHalf()
    ensures Read32(BLOCK32, 0) == 0x33323130 && Read32(BLOCK32, 4) == 0x37363534
    ensures Read32(BLOCK32, 8) == 0x62613938 && Read32(BLOCK32, 12) == 0x66656463
  {
    hide Word32;
    KnownQuads();
  }

  lemma KnownSecondHalf()
    ensures Read32(BLOCK32, 16) == 0x6a696867 && Read32(BLOCK32, 20) == 0x6e6d6c6b
    ensures Read32(BLOCK32, 24) == 0x7271706f && Read32(BLOCK32, 28) == 0x76757473
  {
    hide Word32;
    KnownQuads();
  }

  lemma KnownQuads()
    ensures Word32(48, 49, 50, 51) == 0x33323130
    ensures Word32(52, 53, 54, 55) == 0x37363534
    ensures Word32(56, 57, 97, 98) == 0x62613938
    ensures Word32(99, 100, 101, 102) == 0x66656463
    ensures Word32(103, 104, 105, 106) == 0x6a696867
    ensures Word32(107, 108, 109, 110) == 0x6e6d6c6b
    ensures Word32(111, 112, 113, 114) == 0x7271706f
    ensures Word32(115, 116, 117, 118) == 0x76757473
  {
  }

  lemma KnownMixWords()
    ensures MixWord(0x27d4eb2f165667cb, 0x626f6f66) == 0x27b053bae71d9f69
    ensures MixWord(0x27d4eb2f165667cc, 0x626f6f66) == 0xc093e8072c9d9f69
    ensures MixLong(0x27d4eb2f165667d1, 0x6f667261626f6f66) == 0x560fc0c9c18b18e
    ensures MixWord(0x560fc0c9c18b18e, 0x7261626f) == 0x33a73f1e0aeb8144
  {
  }

  lemma KnownMixBytes()
    ensures MixByte(0x27b053bae71d9f69, 97) == 0x52fcde4ad1dc6a80
    ensures MixByte(0x52fcde4ad1dc6a80, 114) == 0xb911ef067f7ac697
    ensures MixByte(0xc093e8072c9d9f69, 97) == 0x586dd44b3e51258f
    ensures MixByte(0x586dd44b3e51258f, 114) == 0x35b281cb008d8e83
  {
  }

  lemma KnownAvalanches()
    ensures Avalanche(0xb911ef067f7ac697) == 11721187498075204345
    ensures Avalanche(0x35b281cb008d8e83) == 17884410770440888334
    ensures Avalanche(0x33a73f1e0aeb8144) == 17030751310829501862 && Avalanche(0x40644c6b29be48) == 13798076798106715874
  {
  }

  lemma KnownLanes()
    ensures FirstLanes(0) == Lanes(0x60ea27eeadc0b5d6, 0xc2b2ae3d27d4eb4f, 0, 0x61c8864e7a143579)
  {
  }

  lemma KnownRounds()
    ensures Round(0x60ea27eeadc0b5d6, 0x3736353433323130) == 0x634717eca7971f5c
    ensures Round(0xc2b2ae3d27d4eb4f, 0x6665646362613938) == 0x8a12910ae1517043
    ensures Round(0, 0x6e6d6c6b6a696867) == 0xb755f9317341e5f8
    ensures Round(0x61c8864e7a143579, 0x767574737271706f) == 0x8674092b5299acc0
  {
  }

  lemma KnownMerge()
    ensures Merge(Lanes(0x634717eca7971f5c, 0x8a12910ae1517043, 0xb755f9317341e5f8, 0x8674092b5299acc0)) ==
            0x40644c6b29be28
  {
    hide Rotl, MergeRound;
    KnownRotations();
    KnownMergeRounds();
  }

  lemma KnownRotations()
    ensures Rotl(0x634717eca7971f5c, 1) == 0xc68e2fd94f2e3eb8 && Rotl(0x8a12910ae1517043, 7) == 0x9488570a8b821c5
    ensures Rotl(0xb755f9317341e5f8, 12) == 0x5f9317341e5f8b75 && Rotl(0x8674092b5299acc0, 18) == 0x24ad4a66b30219d0
  {
  }

  lemma KnownMergeRounds()
    ensures MergeRound(0x541716e4c94805c2, 0x634717eca7971f5c) == 0x4301d057112a8acd
    ensures MergeRound(0x4301d057112a8acd, 0x8a12910ae1517043) == 0x9e5400a598b57651
    ensures MergeRound(0x9e5400a598b57651, 0xb755f9317341e5f8) == 0x92948b61fb21d31d
    ensures MergeRound(0x92948b61fb21d31d, 0x8674092b5299acc0) == 0x40644c6b29be28
  {
  }

  lemma KnownTail(h: bv64, w: bv64, x: bv64, y: bv64)
    requires MixWord(h, 0x626f6f66) == w && MixByte(w, 97) == x && MixByte(x, 114) == y
    ensures Tail(h, FOOBAR) == Avalanche(y)
  {
    hide Read32, Read64, MixByte, MixWord, MixLong, Avalanche;
    KnownWords();
    assert FOOBAR[4..] == [97, 114] && [97 as byte, 114][1..] == [114];
    assert Bytes(w, [97, 114]) == Bytes(x, [114]) == y;
  }

  lemma KnownTwice()
    ensures Hash(0, TWICE) == 17030751310829501862
  {
    hide Merge, Start, FirstLanes, Round, MixWord, MixLong, MixByte, Avalanche, Read32, Read64, Consume, WithLength;
    KnownStarts();
    KnownWords();
    KnownLongs();
    KnownMixWords();
    KnownAvalanches();
    assert TWICE[0..] == TWICE && TWICE[8..][4..] == [];
    assert Tail(0x27d4eb2f165667d1, TWICE) == Tail(0x560fc0c9c18b18e, TWICE[8..]) ==
           Avalanche(Bytes(0x33a73f1e0aeb8144, []));
  }

  lemma KnownBlock()
    ensures Hash(0, BLOCK32) == 13798076798106715874
  {
    hide WithLength, Merge, FirstLanes, Round, Avalanche, Read64, Consume;
    KnownStarts();
    KnownLongs();
    KnownLanes();
    KnownRounds();
    KnownMerge();
    KnownAvalanches();
    var v := FirstLanes(0);
    NothingConsumed(v);
    ConsumeBlock(Stripe, BLOCK, v, [], BLOCK32);
    assert [] + BLOCK32 == BLOCK32 && BLOCK32[..32] == BLOCK32 && BLOCK32[32..] == [];
    assert Tail(0x40644c6b29be48, []) == Avalanche(Bytes(0x40644c6b29be48, [])) == 13798076798106715874;
  }

  lemma KnownHashes()
    ensures Hash(0, FOOBAR) == 11721187498075204345 && Hash(1, FOOBAR) == 17884410770440888334
    ensures Hash(0, TWICE) == 17030751310829501862 && Hash(0, BLOCK32) == 13798076798106715874
  {
    hide Tail, WithLength, Merge, Start, FirstLanes, Round, MixWord, MixByte, Avalanche, Read32, Read64, Consume;
    KnownStarts();
    KnownMixWords();
    KnownMixBytes();
    KnownAvalanches();
    KnownTail(0x27d4eb2f165667cb, 0x27b053bae71d9f69, 0x52fcde4ad1dc6a80, 0xb911ef067f7ac697);
    KnownTail(0x27d4eb2f165667cc, 0xc093e8072c9d9f69, 0x586dd44b3e51258f, 0x35b281cb008d8e83);
    assert FOOBAR[0..] == FOOBAR;
    KnownTwice();
    KnownBlock();
  }

  lemma StripeAt(v: Lanes, s: seq<byte>, p: nat)
    requires p + BLOCK <= |s|
    ensures Stripe(v, s[p..p + BLOCK]) ==
            Lanes(Round(v.v1, Read64(s, p)), Round(v.v2, Read64(s, p + 8)),
                  Round(v.v3, Read64(s, p + 16)), Round(v.v4, Read64(s, p + 24)))
  {
    hide Read64, Round;
    ReadLongSlice(s, p, BLOCK, 0);
    ReadLongSlice(s, p, BLOCK, 8);
    ReadLongSlice(s, p, BLOCK, 16);
    ReadLongSlice(s, p, BLOCK, 24);
  }

  lemma HashOfCut(seed: bv64, done: seq<byte>, rest: seq<byte>, v: Lanes)
    requires |done| % BLOCK == 0 && |rest| < BLOCK
    requires v == Consume(Stripe, BLOCK, FirstLanes(seed), done)
    ensures Hash(seed, done + rest) ==
            Tail(WithLength(if |done + rest| >= BLOCK then Merge(v) else Start(seed), |done + rest|), rest)
  {
    hide Tail, WithLength, Merge, Start, Stripe, FirstLanes, Consume;
    OnlyCut(done, rest, BLOCK);
  }

  // The two loops and the final mix that end XXH64_endian_align and XXH64_digest_endian.
  method Finish(h: bv64, s: seq<byte>) returns (h64: bv64)
    ensures h64 == Tail(h, s)
  {
    hide Avalanche, MixLong, MixWord, MixByte, Read32, Read64;
    h64 := h;
    var p := 0;
    while p + 8 <= |s|
      invariant p <= |s|
      invariant Tail(h64, s[p..]) == Tail(h, s)
    {
      ReadLongSlice(s, p, |s| - p, 0);
      assert s[p..|s|] == s[p..] && s[p..][8..] == s[p + 8..];
      h64 := MixLong(h64, Read64(s, p));
      p := p + 8;
    }
    if p + 4 <= |s| {
      ReadSlice(s, p, |s| - p, 0);
      assert s[p..|s|] == s[p..] && s[p..][4..] == s[p + 4..];
      h64 := MixWord(h64, Read32(s, p));
      p := p + 4;
    }
    h64 := FinishBytes(h64, s[p..]);
  }

  method FinishBytes(h: bv64, s: seq<byte>) returns (h64: bv64)
    ensures h64 == Avalanche(Bytes(h, s))
  {
    hide Avalanche, MixByte;
    h64 := h;
    var p := 0;
    while p < |s|
      invariant p <= |s|
      invariant Bytes(h64, s[p..]) == Bytes(h, s)
    {
      assert s[p..][0] == s[p] && s[p..][1..] == s[p + 1..];
      h64 := MixByte(h64, s[p]);
      p := p + 1;
    }
    h64 := Avalanche(h64);
  }

  // The block loop over input from p on; done is the part of the message that the lanes
  // have taken before.
  method Blocks(v0: Lanes, input: seq<byte>, p0: nat, ghost init: Lanes, ghost done: seq<byte>)
    returns (v: Lanes, p: nat)
    requires p0 <= |input| && |done| % BLOCK == 0 && v0 == Consume(Stripe, BLOCK, init, done)
    ensures p0 <= p <= |input| < p + BLOCK && |done + input[p0..p]| % BLOCK == 0
    ensures v == Consume(Stripe, BLOCK, init, done + input[p0..p])
  {
    hide Consume, Stripe, Round, Read64;
    var v1, v2, v3, v4 := v0.v1, v0.v2, v0.v3, v0.v4;
    p := p0;
    assert done + input[p0..p0] == done;
    while p + BLOCK <= |input|
      invariant p0 <= p <= |input| && |done + input[p0..p]| % BLOCK == 0
      invariant Lanes(v1, v2, v3, v4) == Consume(Stripe, BLOCK, init, done + input[p0..p])
    {
      StripeAt(Lanes(v1, v2, v3, v4), input, p);
      ConsumeBlock(Stripe, BLOCK, init, done + input[p0..p], input[p..p + BLOCK]);
      assert done + input[p0..p] + input[p..p + BLOCK] == done + input[p0..p + BLOCK];
      v1 := Round(v1, Read64(input, p)); p := p + 8;
      v2 := Round(v2, Read64(input, p)); p := p + 8;
      v3 := Round(v3, Read64(input, p)); p := p + 8;
      v4 := Round(v4, Read64(input, p)); p := p + 8;
    }
    v := Lanes(v1, v2, v3, v4);
  }

  // XXH64_endian_align
  method OneShot(input: seq<byte>, seed: bv64) returns (h64: bv64)
    ensures h64 == Hash(seed, input)
  {
    hide Consume, Stripe, Merge, Start, Tail, WithLength, Hash;
    var v := FirstLanes(seed);
    var p := 0;
    var h;
    assert Consume(Stripe, BLOCK, v, []) == v by { NothingConsumed(v); }
    if |input| >= BLOCK {
      v, p := Blocks(v, input, 0, v, []);
      h := Merge(v);
    } else {
      h := Start(seed);
    }
    h := WithLength(h, |input|);
    assert [] + input[0..p] == input[..p] && input[..p] + input[p..] == input;
    HashOfCut(seed, input[..p], input[p..], v);
    h64 := Finish(h, input[p..]);
  }

  lemma NothingConsumed(v: Lanes)
    ensures Consume(Stripe, BLOCK, v, []) == v
  {
  }

  // XXH64_state_t.  done is the part of the message the lanes have taken.
  class State {
    var totalLen: nat
    var seed: bv64
    var v: Lanes
    const mem: array<byte>
    var memsize: nat
    ghost var done: seq<byte>

    ghost predicate Valid()
      reads this, mem
    {
      mem.Length == BLOCK && memsize < BLOCK && Lined() && totalLen == |Message()| % U64
    }

    // The lanes have taken the whole blocks of done.
    ghost predicate Lined()
      reads this`seed, this`v, this`done
    {
      mem.Length == BLOCK && |done| % BLOCK == 0 && v == Consume(Stripe, BLOCK, FirstLanes(seed), done)
    }

    // Everything passed to update since the last reset.
    ghost function Message(): seq<byte>
      requires memsize <= mem.Length
      reads this, mem
    {
      done + mem[..memsize]
    }

    // XXH64_createState and XXH64_reset
    constructor (s: bv64)
      ensures Valid() && Message() == [] && seed == s && fresh(mem)
    {
      mem := new byte[BLOCK](i => 0);
      totalLen, seed, v, memsize, done := 0, s, FirstLanes(s), 0, [];
    }

    // XXH64_reset
    method Reset(s: bv64)
      requires mem.Length == BLOCK
      modifies this, mem
      ensures Valid() && Message() == [] && seed == s
    {
      forall i | 0 <= i < mem.Length { mem[i] := 0; }
      totalLen, seed, v, memsize, done := 0, s, FirstLanes(s), 0, [];
    }

    // memcpy of bytes into the buffer from position at on.
    method Fill(at: nat, bytes: seq<byte>)
      requires at + |bytes| <= mem.Length
      modifies mem
      ensures mem[..at + |bytes|] == old(mem[..at]) + bytes
    {
      forall i | 0 <= i < |bytes| { mem[at + i] := bytes[i]; }
    }

    lemma BufferSize()
      requires Lined()
      ensures mem.Length == BLOCK
    {
    }

    // Append to the bytes in the buffer.
    method Buffer(bytes: seq<byte>)
      requires Lined() && memsize + |bytes| < BLOCK
      modifies `memsize, mem
      ensures memsize == old(memsize) + |bytes| && Message() == old(Message()) + bytes
    {
      hide State.Lined;
      BufferSize();
      Fill(memsize, bytes);
      memsize := memsize + |bytes|;
      assert mem[..memsize] == old(mem[..memsize]) + bytes;
    }

    // Complete the block in the buffer and pass it to the lanes.
    method FinishBlock(bytes: seq<byte>)
      requires Lined() && memsize + |bytes| == BLOCK
      modifies `v, `memsize, `done, mem
      ensures Lined() && memsize == 0 && done == old(Message()) + bytes
    {
      hide Consume, FirstLanes, Stripe, Round, Read64;
      Fill(memsize, bytes);
      StripeOfBuffer(v, mem[..]);
      ConsumeBlock(Stripe, BLOCK, FirstLanes(seed), done, mem[..]);
      v := Lanes(Round(v.v1, Read64(mem[..], 0)), Round(v.v2, Read64(mem[..], 8)),
                 Round(v.v3, Read64(mem[..], 16)), Round(v.v4, Read64(mem[..], 24)));
      done := done + mem[..];
      memsize := 0;
    }

    // XXH64_update_endian
    method Update(input: seq<byte>)
      requires Valid()
      modifies this, mem
      ensures Valid() && seed == old(seed)
      ensures Message() == old(Message()) + input
    {
      hide Consume, Stripe, FirstLanes, State.Lined;
      LengthWraps(|Message()|, |input|);
      totalLen := (totalLen + |input|) % U64;
      if memsize + |input| < BLOCK {
        Buffer(input);
      } else {
        TakeInput(input);
      }
    }

    // Enough input to complete a block.
    method TakeInput(input: seq<byte>)
      requires Lined() && memsize < BLOCK <= memsize + |input|
      modifies `v, `memsize, `done, mem
      ensures Lined() && memsize < BLOCK && Message() == old(Message()) + input
    {
      hide Consume, Stripe, FirstLanes;
      var p := 0;
      if memsize > 0 {
        p := BLOCK - memsize;
        FinishBlock(input[..p]);
      } else {
        assert Message() == done + input[..p];
      }
      TakeBlocks(input, p);
      assert input == input[..p] + input[p..];
    }

    // The rest of the input, with an empty buffer.
    method TakeBlocks(input: seq<byte>, p0: nat)
      requires Lined() && memsize == 0 && p0 <= |input|
      modifies `v, `memsize, `done, mem
      ensures Lined() && memsize < BLOCK && Message() == old(done) + input[p0..]
    {
      hide Consume, FirstLanes, Stripe;
      var p;
      v, p := Blocks(v, input, p0, FirstLanes(seed), done);
      done := done + input[p0..p];
      assert input[p0..] == input[p0..p] + input[p..];
      if p < |input| {
        Buffer(input[p..]);
      }
    }

    // XXH64_digest_endian: the hash of the whole message, as long as its length has not
    // wrapped around.
    method Digest() returns (h64: bv64)
      requires Valid()
      ensures |Message()| < U64 ==> h64 == Hash(seed, Message())
    {
      hide Consume, Stripe, Merge, Start, Tail, WithLength, Hash, FirstLanes;
      var h := if totalLen >= BLOCK then Merge(v) else Start(seed);
      h := WithLength(h, totalLen);
      HashOfCut(seed, done, mem[..memsize], v);
      h64 := Finish(h, mem[..memsize]);
    }
  }

  lemma StripeOfBuffer(v: Lanes, s: seq<byte>)
    requires |s| == BLOCK
    ensures Stripe(v, s) == Lanes(Round(v.v1, Read64(s, 0)), Round(v.v2, Read64(s, 8)),
                                  Round(v.v3, Read64(s, 16)), Round(v.v4, Read64(s, 24)))
  {
    hide Round, Read64;
  }

  // However a message is divided into updates, empty ones included, the digest is the
  // one-shot hash of the whole.
  method Stream(seed: bv64, parts: seq<seq<byte>>) returns (streamed: bv64, oneShot: bv64)
    ensures |Flatten(parts)| < U64 ==> streamed == oneShot == Hash(seed, Flatten(parts))
  {
    hide Hash;
    var state := new State(seed);
    for i := 0 to |parts|
      invariant state.Valid() && fresh(state) && fresh(state.mem) && state.seed == seed
      invariant state.Message() == Flatten(parts[..i])
    {
      assert parts[..i + 1][..i] == parts[..i];
      state.Update(parts[i]);
    }
    assert parts[..|parts|] == parts;
    streamed := state.Digest();
    oneShot := OneShot(Flatten(parts), seed);
  }
}
