// XXH32, in one shot and incrementally (common/xxhash.c).

module XXHash32 {
  import opened Common
  import opened XXHashBlocks

  // Multiplication by the five primes.
  function Times1(x: bv32): bv32 { x * 2654435761 }
  function Times2(x: bv32): bv32 { x * 2246822519 }
  function Times3(x: bv32): bv32 { x * 3266489917 }
  function Times4(x: bv32): bv32 { x * 668265263 }
  function Times5(x: bv32): bv32 { x * 374761393 }

  const BLOCK: nat := 16

  datatype Lanes = Lanes(v1: bv32, v2: bv32, v3: bv32, v4: bv32)

  function Fold13(x: bv32): bv32 { x ^ (x >> 13) }
  function Fold15(x: bv32): bv32 { x ^ (x >> 15) }
  function Fold16(x: bv32): bv32 { x ^ (x >> 16) }

  function Plus(x: bv32, y: bv32): bv32 { x + y }

  function Rotl(x: bv32, r: nat): bv32
    requires 0 < r < 32
  {
    (x << r) | (x >> (32 - r))
  }

  function Round(acc: bv32, input: bv32): bv32 {
    Times1(Rotl(Plus(acc, Times2(input)), 13))
  }

  function FirstLanes(seed: bv32): Lanes {
    Lanes(seed + Times1(1) + Times2(1), seed + Times2(1), seed, seed - Times1(1))
  }

  // One block of 16 bytes through the four lanes.
  function Stripe(v: Lanes, block: seq<byte>): Lanes {
    Lanes(Round(v.v1, Read32(block, 0)), Round(v.v2, Read32(block, 4)),
          Round(v.v3, Read32(block, 8)), Round(v.v4, Read32(block, 12)))
  }

  function Merge(v: Lanes): bv32 {
    Plus(Plus(Plus(Rotl(v.v1, 1), Rotl(v.v2, 7)), Rotl(v.v3, 12)), Rotl(v.v4, 18))
  }

  // (U32)len
  function Length32(len: nat): bv32 {
    (len % 0x1_0000_0000) as bv32
  }

  function WithLength(h: bv32, len: nat): bv32 {
    Plus(h, Length32(len))
  }

  function MixWord(h: bv32, w: bv32): bv32 {
    Times4(Rotl(Plus(h, Times3(w)), 17))
  }

  function MixByte(h: bv32, b: byte): bv32 {
    Times1(Rotl(Plus(h, Times5(b as bv32)), 11))
  }

  function Avalanche(h: bv32): bv32 {
    Fold16(Times3(Fold13(Times2(Fold15(h)))))
  }

  function Bytes(h: bv32, s: seq<byte>): bv32
    decreases |s|
  {
    if s == [] then h else Bytes(MixByte(h, s[0]), s[1..])
  }

  // The bytes behind the last full block.
  function Tail(h: bv32, s: seq<byte>): bv32
    decreases |s|
  {
    if |s| >= 4 then Tail(MixWord(h, Read32(s, 0)), s[4..]) else Avalanche(Bytes(h, s))
  }

  function Start(seed: bv32): bv32 {
    Plus(seed, Times5(1))
  }

  // The XXH32 hash of a message: the lanes take its full blocks, the tail the rest.
  ghost function Hash(seed: bv32, m: seq<byte>): bv32 {
    var k := Whole(|m|, BLOCK);
    var v := Consume(Stripe, BLOCK, FirstLanes(seed), m[..k]);
    Tail(WithLength(if |m| >= BLOCK then Merge(v) else Start(seed), |m|), m[k..])
  }

  // ---- Messages that differ in one place have different hashes ----

  // Every step can be undone: multiplication by an odd number, rotation, fold, sum.
  function Over1(z: bv32): bv32 { z * 244002641 }
  function Over2(z: bv32): bv32 { z * 3066638151 }
  function Over3(z: bv32): bv32 { z * 2828982549 }
  function Over4(z: bv32): bv32 { z * 2701016015 }
  function Over5(z: bv32): bv32 { z * 2923004241 }

  lemma Cancel(x: bv32)
    ensures Over1(x * 2654435761) == x
    ensures Over2(x * 2246822519) == x
    ensures Over3(x * 3266489917) == x
    ensures Over4(x * 668265263) == x
    ensures Over5(x * 374761393) == x
  {
  }

  lemma TimesIsUndone(x: bv32)
    ensures Over1(Times1(x)) == x && Over2(Times2(x)) == x && Over3(Times3(x)) == x
    ensures Over4(Times4(x)) == x && Over5(Times5(x)) == x
  {
    hide Over1, Over2, Over3, Over4, Over5;
    Cancel(x);
  }

  lemma TimesApart(x: bv32, y: bv32)
    requires x != y
    ensures Times1(x) != Times1(y) && Times2(x) != Times2(y) && Times3(x) != Times3(y)
    ensures Times4(x) != Times4(y) && Times5(x) != Times5(y)
  {
    hide *;
    TimesIsUndone(x);
    TimesIsUndone(y);
  }

  lemma RotlApart(x: bv32, y: bv32)
    requires x != y
    ensures Rotl(x, 1) != Rotl(y, 1) && Rotl(x, 7) != Rotl(y, 7) && Rotl(x, 11) != Rotl(y, 11)
    ensures Rotl(x, 12) != Rotl(y, 12) && Rotl(x, 13) != Rotl(y, 13) && Rotl(x, 17) != Rotl(y, 17)
    ensures Rotl(x, 18) != Rotl(y, 18)
  {
  }

  function Minus(z: bv32, a: bv32): bv32 { z - a }

  lemma SumIsUndone(x: bv32, a: bv32)
    ensures Minus(Plus(x, a), a) == x && Minus(Plus(a, x), a) == x
  {
  }

  lemma RoundApart(acc: bv32, acc': bv32, w: bv32)
    requires acc != acc'
    ensures Round(acc, w) != Round(acc', w)
  {
    hide Times1, Times2, Rotl, Plus, Minus;
    var a := Times2(w);
    SumIsUndone(acc, a);
    SumIsUndone(acc', a);
    RotlApart(Plus(acc, a), Plus(acc', a));
    TimesApart(Rotl(Plus(acc, a), 13), Rotl(Plus(acc', a), 13));
  }

  lemma RoundTellsApart(acc: bv32, w: bv32, w': bv32)
    requires w != w'
    ensures Round(acc, w) != Round(acc, w')
  {
    hide Times1, Times2, Rotl, Plus, Minus;
    TimesApart(w, w');
    var a, a' := Times2(w), Times2(w');
    SumIsUndone(a, acc);
    SumIsUndone(a', acc);
    RotlApart(Plus(acc, a), Plus(acc, a'));
    TimesApart(Rotl(Plus(acc, a), 13), Rotl(Plus(acc, a'), 13));
  }

  lemma MixWordApart(h: bv32, h': bv32, w: bv32)
    requires h != h'
    ensures MixWord(h, w) != MixWord(h', w)
  {
    hide Times4, Times3, Rotl, Plus, Minus;
    var a := Times3(w);
    SumIsUndone(h, a);
    SumIsUndone(h', a);
    RotlApart(Plus(h, a), Plus(h', a));
    TimesApart(Rotl(Plus(h, a), 17), Rotl(Plus(h', a), 17));
  }

  lemma MixWordTellsApart(h: bv32, w: bv32, w': bv32)
    requires w != w'
    ensures MixWord(h, w) != MixWord(h, w')
  {
    hide Times4, Times3, Rotl, Plus, Minus;
    TimesApart(w, w');
    var a, a' := Times3(w), Times3(w');
    SumIsUndone(a, h);
    SumIsUndone(a', h);
    RotlApart(Plus(h, a), Plus(h, a'));
    TimesApart(Rotl(Plus(h, a), 17), Rotl(Plus(h, a'), 17));
  }

  lemma MixByteApart(h: bv32, h': bv32, b: byte)
    requires h != h'
    ensures MixByte(h, b) != MixByte(h', b)
  {
    hide Times1, Times5, Rotl, Plus, Minus;
    var a := Times5(b as bv32);
    SumIsUndone(h, a);
    SumIsUndone(h', a);
    RotlApart(Plus(h, a), Plus(h', a));
    TimesApart(Rotl(Plus(h, a), 11), Rotl(Plus(h', a), 11));
  }

  lemma MixByteTellsApart(h: bv32, b: byte, b': byte)
    requires b != b'
    ensures MixByte(h, b) != MixByte(h, b')
  {
    hide Times1, Times5, Rotl, Plus, Minus;
    TimesApart(b as bv32, b' as bv32);
    var a, a' := Times5(b as bv32), Times5(b' as bv32);
    SumIsUndone(a, h);
    SumIsUndone(a', h);
    RotlApart(Plus(h, a), Plus(h, a'));
    TimesApart(Rotl(Plus(h, a), 11), Rotl(Plus(h, a'), 11));
  }

  function Unfold15(z: bv32): bv32 { z ^ (z >> 15) ^ (z >> 30) }
  function Unfold13(z: bv32): bv32 { z ^ (z >> 13) ^ (z >> 26) }
  function Unfold16(z: bv32): bv32 { z ^ (z >> 16) }

  lemma CancelFold(x: bv32)
    ensures Unfold15(x ^ (x >> 15)) == x && Unfold13(x ^ (x >> 13)) == x && Unfold16(x ^ (x >> 16)) == x
  {
  }

  lemma FoldIsUndone(x: bv32)
    ensures Unfold15(Fold15(x)) == x && Unfold13(Fold13(x)) == x && Unfold16(Fold16(x)) == x
  {
    hide Unfold13, Unfold15, Unfold16;
    CancelFold(x);
  }

  lemma FoldApart(x: bv32, y: bv32)
    requires x != y
    ensures Fold15(x) != Fold15(y) && Fold13(x) != Fold13(y) && Fold16(x) != Fold16(y)
  {
    hide *;
    FoldIsUndone(x);
    FoldIsUndone(y);
  }

  lemma AvalancheApart(h: bv32, h': bv32)
    requires h != h'
    ensures Avalanche(h) != Avalanche(h')
  {
    hide Times2, Times3, Fold13, Fold15, Fold16;
    FoldApart(h, h');
    TimesApart(Fold15(h), Fold15(h'));
    var a, a' := Times2(Fold15(h)), Times2(Fold15(h'));
    FoldApart(a, a');
    TimesApart(Fold13(a), Fold13(a'));
    FoldApart(Times3(Fold13(a)), Times3(Fold13(a')));
  }

  lemma {:induction false} BytesApart(h: bv32, h': bv32, s: seq<byte>)
    requires h != h'
    ensures Bytes(h, s) != Bytes(h', s)
    decreases |s|
  {
    hide MixByte;
    if s != [] {
      MixByteApart(h, h', s[0]);
      BytesApart(MixByte(h, s[0]), MixByte(h', s[0]), s[1..]);
    }
  }

  lemma {:induction false} TailApart(h: bv32, h': bv32, s: seq<byte>)
    requires h != h'
    ensures Tail(h, s) != Tail(h', s)
    decreases |s|
  {
    hide MixWord, Bytes, Avalanche, Read32;
    if |s| >= 4 {
      var w := Read32(s, 0);
      MixWordApart(h, h', w);
      TailApart(MixWord(h, w), MixWord(h', w), s[4..]);
    } else {
      BytesApart(h, h', s);
      AvalancheApart(Bytes(h, s), Bytes(h', s));
    }
  }

  lemma {:induction false} BytesTellApart(h: bv32, s: seq<byte>, t: seq<byte>, i: nat)
    requires DifferAt(s, t, i, 1)
    ensures Bytes(h, s) != Bytes(h, t)
    decreases |s|
  {
    hide MixByte;
    if i == 0 {
      assert s[0] != t[0] && s[1..] == t[1..];
      MixByteTellsApart(h, s[0], t[0]);
      BytesApart(MixByte(h, s[0]), MixByte(h, t[0]), s[1..]);
    } else {
      BehindFirst(s, t, i, 1, 1);
      BytesTellApart(MixByte(h, s[0]), s[1..], t[1..], i - 1);
    }
  }

  // The places where one word or byte decides: four bytes at a multiple of four, or one of
  // the bytes behind the last word.
  predicate IsUnit(len: nat, i: nat, n: nat) {
    (n == 4 && i % 4 == 0 && i + 4 <= len) || (n == 1 && len - len % 4 <= i < len)
  }

  lemma {:induction false} TailTellsApart(h: bv32, s: seq<byte>, t: seq<byte>, i: nat, n: nat)
    requires DifferAt(s, t, i, n) && IsUnit(|s|, i, n)
    ensures Tail(h, s) != Tail(h, t)
    decreases |s|
  {
    hide MixWord, Bytes, Avalanche, Read32;
    if |s| < 4 {
      BytesTellApart(h, s, t, i);
      AvalancheApart(Bytes(h, s), Bytes(h, t));
    } else if i == 0 {
      FirstWordDiffers(s, t);
      MixWordTellsApart(h, Read32(s, 0), Read32(t, 0));
      TailApart(MixWord(h, Read32(s, 0)), MixWord(h, Read32(t, 0)), s[4..]);
    } else {
      BehindFirst(s, t, i, n, 4);
      SameWord(s, t, 0);
      TailTellsApart(MixWord(h, Read32(s, 0)), s[4..], t[4..], i - 4, n);
    }
  }

  // Exactly one lane differs.
  predicate OneApart(v: Lanes, v': Lanes) {
    var d1, d2, d3, d4 := v.v1 != v'.v1, v.v2 != v'.v2, v.v3 != v'.v3, v.v4 != v'.v4;
    (d1 || d2 || d3 || d4) && !(d1 && d2) && !(d1 && d3) && !(d1 && d4) && !(d2 && d3) && !(d2 && d4) && !(d3 && d4)
  }

  lemma StripeKeepsApart(v: Lanes, v': Lanes, block: seq<byte>)
    requires OneApart(v, v')
    ensures OneApart(Stripe(v, block), Stripe(v', block))
  {
    hide Round, Read32;
    if v.v1 != v'.v1 { RoundApart(v.v1, v'.v1, Read32(block, 0)); }
    if v.v2 != v'.v2 { RoundApart(v.v2, v'.v2, Read32(block, 4)); }
    if v.v3 != v'.v3 { RoundApart(v.v3, v'.v3, Read32(block, 8)); }
    if v.v4 != v'.v4 { RoundApart(v.v4, v'.v4, Read32(block, 12)); }
  }

  lemma StripeTellsApart(v: Lanes, b: seq<byte>, b': seq<byte>, i: nat)
    requires |b| == BLOCK && DifferAt(b, b', i, 4) && i % 4 == 0
    ensures OneApart(Stripe(v, b), Stripe(v, b'))
  {
    hide Round, Read32;
    WordsOfDiffering(b, b', i, 0);
    WordsOfDiffering(b, b', i, 4);
    WordsOfDiffering(b, b', i, 8);
    WordsOfDiffering(b, b', i, 12);
    var lane := if i == 0 then v.v1 else if i == 4 then v.v2 else if i == 8 then v.v3 else v.v4;
    RoundTellsApart(lane, Read32(b, i), Read32(b', i));
  }

  lemma MergeApart(v: Lanes, v': Lanes)
    requires OneApart(v, v')
    ensures Merge(v) != Merge(v')
  {
    hide Rotl, Plus, Minus;
    if v.v1 != v'.v1 { RotlApart(v.v1, v'.v1); }
    if v.v2 != v'.v2 { RotlApart(v.v2, v'.v2); }
    if v.v3 != v'.v3 { RotlApart(v.v3, v'.v3); }
    if v.v4 != v'.v4 { RotlApart(v.v4, v'.v4); }
    var a, b, c, d := Rotl(v.v1, 1), Rotl(v.v2, 7), Rotl(v.v3, 12), Rotl(v.v4, 18);
    var a', b', c', d' := Rotl(v'.v1, 1), Rotl(v'.v2, 7), Rotl(v'.v3, 12), Rotl(v'.v4, 18);
    PlusApart(a, b, a', b');
    PlusApart(Plus(a, b), c, Plus(a', b'), c');
    PlusApart(Plus(Plus(a, b), c), d, Plus(Plus(a', b'), c'), d');
  }

  lemma PlusApart(x: bv32, a: bv32, y: bv32, b: bv32)
    ensures x == y && a != b ==> Plus(x, a) != Plus(y, b)
    ensures x != y && a == b ==> Plus(x, a) != Plus(y, b)
  {
    hide Plus, Minus;
    SumIsUndone(x, a);
    SumIsUndone(y, a);
    SumIsUndone(a, x);
    SumIsUndone(b, x);
  }

  lemma {:induction false} ConsumeKeepsApart(v: Lanes, v': Lanes, s: seq<byte>)
    requires OneApart(v, v')
    ensures OneApart(Consume(Stripe, BLOCK, v, s), Consume(Stripe, BLOCK, v', s))
    decreases |s|
  {
    hide Stripe, OneApart;
    if |s| >= BLOCK {
      StripeKeepsApart(v, v', s[..BLOCK]);
      ConsumeKeepsApart(Stripe(v, s[..BLOCK]), Stripe(v', s[..BLOCK]), s[BLOCK..]);
    }
  }

  lemma {:induction false} ConsumeTellsApart(v: Lanes, s: seq<byte>, t: seq<byte>, i: nat)
    requires |s| % BLOCK == 0 && DifferAt(s, t, i, 4) && i % 4 == 0
    ensures OneApart(Consume(Stripe, BLOCK, v, s), Consume(Stripe, BLOCK, v, t))
    decreases |s|
  {
    hide Stripe, OneApart;
    if i < BLOCK {
      InFirst(s, t, i, 4, BLOCK);
      StripeTellsApart(v, s[..BLOCK], t[..BLOCK], i);
      ConsumeKeepsApart(Stripe(v, s[..BLOCK]), Stripe(v, t[..BLOCK]), s[BLOCK..]);
    } else {
      BehindFirst(s, t, i, 4, BLOCK);
      ConsumeTellsApart(Stripe(v, s[..BLOCK]), s[BLOCK..], t[BLOCK..], i - BLOCK);
    }
  }

  lemma BlocksMatter(seed: bv32, a: seq<byte>, b: seq<byte>, i: nat, k: nat)
    requires k == Whole(|a|, BLOCK) == Whole(|b|, BLOCK) && k % BLOCK == 0 && |a| == |b|
    requires DifferAt(a[..k], b[..k], i, 4) && i % 4 == 0 && a[k..] == b[k..]
    ensures Hash(seed, a) != Hash(seed, b)
  {
    hide Tail, WithLength, Merge, Start, Stripe, FirstLanes, Consume, OneApart;
    var v, v' := Consume(Stripe, BLOCK, FirstLanes(seed), a[..k]), Consume(Stripe, BLOCK, FirstLanes(seed), b[..k]);
    ConsumeTellsApart(FirstLanes(seed), a[..k], b[..k], i);
    MergeApart(v, v');
    WithLengthApart(Merge(v), Merge(v'), |a|);
    TailApart(WithLength(Merge(v), |a|), WithLength(Merge(v'), |a|), a[k..]);
  }

  lemma RestMatters(seed: bv32, a: seq<byte>, b: seq<byte>, i: nat, n: nat, k: nat)
    requires k == Whole(|a|, BLOCK) && |a| == |b| && a[..k] == b[..k]
    requires DifferAt(a[k..], b[k..], i, n) && IsUnit(|a| - k, i, n)
    ensures Hash(seed, a) != Hash(seed, b)
  {
    hide Tail, WithLength, Merge, Start, Stripe, FirstLanes, Consume, DifferAt, IsUnit;
    var v := Consume(Stripe, BLOCK, FirstLanes(seed), a[..k]);
    TailTellsApart(WithLength(if |a| >= BLOCK then Merge(v) else Start(seed), |a|), a[k..], b[k..], i, n);
  }

  lemma BlocksAreWords(len: nat, i: nat, n: nat, k: nat)
    requires IsUnit(len, i, n) && k == Whole(len, BLOCK)
    ensures k % BLOCK == 0
    ensures if i < k then n == 4 && i % 4 == 0 && i + 4 <= k else IsUnit(len - k, i - k, n)
  {
    MultipleOfFour(len, BLOCK, k);
    if i % 4 == 0 && i < k { MultiplesAreSpaced(i, k); }
    BehindMultiple(len, k);
    if i >= k { BehindMultiple(i, k); }
  }

  // Two messages of the same length that differ in one word, or in one byte behind the
  // last word, have different hashes.
  lemma WordMatters(seed: bv32, a: seq<byte>, b: seq<byte>, i: nat, n: nat)
    requires DifferAt(a, b, i, n) && IsUnit(|a|, i, n)
    ensures Hash(seed, a) != Hash(seed, b)
  {
    hide Hash, IsUnit, DifferAt, Whole;
    var k := Whole(|a|, BLOCK);
    SameLength(a, b, i, n);
    BlocksAreWords(|a|, i, n, k);
    if i < k {
      InFirst(a, b, i, n, k);
      BlocksMatter(seed, a, b, i, k);
    } else {
      BehindFirst(a, b, i, n, k);
      RestMatters(seed, a, b, i - k, n, k);
    }
  }

  // Changing one byte of a message changes its hash.
  lemma ByteMatters(seed: bv32, m: seq<byte>, i: nat, b: byte)
    requires i < |m| && b != m[i]
    ensures Hash(seed, m[i := b]) != Hash(seed, m)
  {
    hide Hash;
    if i < |m| - |m| % 4 {
      WordMatters(seed, m[i := b], m, i - i % 4, 4);
    } else {
      WordMatters(seed, m[i := b], m, i, 1);
    }
  }

  lemma WithLengthApart(h: bv32, h': bv32, len: nat)
    requires h != h'
    ensures WithLength(h, len) != WithLength(h', len)
  {
    hide Plus, Length32;
    PlusApart(h, Length32(len), h', Length32(len));
  }

  // A message shorter than a block has a hash of its own for every seed.
  lemma SeedMatters(seed: bv32, seed': bv32, m: seq<byte>)
    requires |m| < BLOCK && seed != seed'
    ensures Hash(seed, m) != Hash(seed', m)
  {
    hide Tail, WithLength, Merge, Stripe, FirstLanes, Consume, Plus, Times5;
    PlusApart(seed, Times5(1), seed', Times5(1));
    WithLengthApart(Start(seed), Start(seed'), |m|);
    TailApart(WithLength(Start(seed), |m|), WithLength(Start(seed'), |m|), m);
  }

  // The values of "foobar" with the seeds 0 and 1, and of a message of one block.
  const FOOBAR: seq<byte> := [102, 111, 111, 98, 97, 114]
  const SIXTEEN: seq<byte> := [48, 49, 50, 51, 52, 53, 54, 55, 56, 57, 97, 98, 99, 100, 101, 102]

  lemma ShortLengths()
    ensures Length32(6) == 6 && Length32(16) == 16
  {
    hide Length32;
    LengthFits(6);
    LengthFits(16);
  }

  lemma LengthFits(len: nat)
    requires len < 0x1_0000_0000
    ensures Length32(len) == len as bv32
  {
    assert len % 0x1_0000_0000 == len;
  }

  lemma KnownStarts()
    ensures WithLength(Start(0), 6) == 0x165667b7 && WithLength(Start(1), 6) == 0x165667b8
    ensures WithLength(0x16eeaa98, 16) == 0x16eeaaa8
  {
    hide Length32;
    ShortLengths();
  }

  lemma KnownWords()
    ensures Read32(FOOBAR, 0) == 0x626f6f66
    ensures Read32(SIXTEEN, 0) == 0x33323130 && Read32(SIXTEEN, 4) == 0x37363534
    ensures Read32(SIXTEEN, 8) == 0x62613938 && Read32(SIXTEEN, 12) == 0x66656463
  {
  }

  lemma KnownMixWords()
    ensures MixWord(0x165667b7, 0x626f6f66) == 0x3cef5992 && MixWord(0x165667b8, 0x626f6f66) == 0x134d5992
  {
  }

  lemma KnownMixBytes()
    ensures MixByte(0x3cef5992, 97) == 0xeedbae8d && MixByte(0xeedbae8d, 114) == 0x5f1c0fea
    ensures MixByte(0x134d5992, 97) == 0x10b26350 && MixByte(0x10b26350, 114) == 0x6136f249
  {
  }

  lemma KnownAvalanches()
    ensures Avalanche(0x5f1c0fea) == 3986901679 && Avalanche(0x6136f249) == 366339015
    ensures Avalanche(0x16eeaaa8) == 3267648361
  {
  }

  lemma KnownLanes()
    ensures FirstLanes(0) == Lanes(0x24234428, 0x85ebca77, 0, 0x61c8864f)
  {
  }

  lemma KnownRounds()
    ensures Round(0x24234428, 0x33323130) == 0x07417adb && Round(0x85ebca77, 0x37363534) == 0x7314b5fa
    ensures Round(0, 0x62613938) == 0x7ec050e7 && Round(0x61c8864f, 0x66656463) == 0x8fef5e40
  {
  }

  lemma KnownMerge()
    ensures Merge(Lanes(0x07417adb, 0x7314b5fa, 0x7ec050e7, 0x8fef5e40)) == 0x16eeaa98
  {
    hide Rotl;
    KnownRotations();
  }

  lemma KnownRotations()
    ensures Rotl(0x07417adb, 1) == 0xe82f5b6 && Rotl(0x7314b5fa, 7) == 0x8a5afd39
    ensures Rotl(0x7ec050e7, 12) == 0x50e77ec && Rotl(0x8fef5e40, 18) == 0x79023fbd
  {
  }

  lemma KnownTail(h: bv32, w: bv32, x: bv32, y: bv32)
    requires MixWord(h, 0x626f6f66) == w && MixByte(w, 97) == x && MixByte(x, 114) == y
    ensures Tail(h, FOOBAR) == Avalanche(y)
  {
    hide Read32, MixByte, MixWord, Avalanche;
    KnownWords();
    assert FOOBAR[4..] == [97, 114] && [97 as byte, 114][1..] == [114];
    assert Bytes(w, [97, 114]) == Bytes(x, [114]) == y;
  }

  lemma KnownHashes()
    ensures Hash(0, FOOBAR) == 3986901679 && Hash(1, FOOBAR) == 366339015 && Hash(0, SIXTEEN) == 3267648361
  {
    hide Tail, WithLength, Merge, Start, FirstLanes, Round, MixWord, MixByte, Avalanche, Read32, Consume;
    KnownStarts();
    KnownMixWords();
    KnownMixBytes();
    KnownAvalanches();
    KnownTail(0x165667b7, 0x3cef5992, 0xeedbae8d, 0x5f1c0fea);
    KnownTail(0x165667b8, 0x134d5992, 0x10b26350, 0x6136f249);
    assert FOOBAR[0..] == FOOBAR;
    KnownBlock();
  }

  lemma KnownBlock()
    requires WithLength(0x16eeaa98, 16) == 0x16eeaaa8 && Avalanche(0x16eeaaa8) == 3267648361
    ensures Hash(0, SIXTEEN) == 3267648361
  {
    hide WithLength, Merge, FirstLanes, Round, Avalanche, Read32, Consume;
    KnownWords();
    KnownLanes();
    KnownRounds();
    KnownMerge();
    var v := FirstLanes(0);
    NothingConsumed(v);
    ConsumeBlock(Stripe, BLOCK, v, [], SIXTEEN);
    assert [] + SIXTEEN == SIXTEEN && SIXTEEN[..16] == SIXTEEN && SIXTEEN[16..] == [];
    assert Tail(0x16eeaaa8, []) == Avalanche(Bytes(0x16eeaaa8, [])) == 3267648361;
  }

  lemma StripeAt(v: Lanes, s: seq<byte>, p: nat)
    requires p + BLOCK <= |s|
    ensures Stripe(v, s[p..p + BLOCK]) ==
            Lanes(Round(v.v1, Read32(s, p)), Round(v.v2, Read32(s, p + 4)),
                  Round(v.v3, Read32(s, p + 8)), Round(v.v4, Read32(s, p + 12)))
  {
    hide Read32, Round;
    ReadSlice(s, p, BLOCK, 0);
    ReadSlice(s, p, BLOCK, 4);
    ReadSlice(s, p, BLOCK, 8);
    ReadSlice(s, p, BLOCK, 12);
  }

  lemma HashOfCut(seed: bv32, done: seq<byte>, rest: seq<byte>, v: Lanes)
    requires |done| % BLOCK == 0 && |rest| < BLOCK
    requires v == Consume(Stripe, BLOCK, FirstLanes(seed), done)
    ensures Hash(seed, done + rest) ==
            Tail(WithLength(if |done + rest| >= BLOCK then Merge(v) else Start(seed), |done + rest|), rest)
  {
    hide Tail, WithLength, Merge, Start, Stripe, FirstLanes, Consume;
    OnlyCut(done, rest, BLOCK);
  }

  // The two loops and the final mix that end XXH32_endian_align and XXH32_digest_endian.
  method Finish(h: bv32, s: seq<byte>) returns (h32: bv32)
    ensures h32 == Tail(h, s)
  {
    hide Avalanche, MixWord, MixByte, Read32;
    h32 := h;
    var p := 0;
    while p + 4 <= |s|
      invariant p <= |s|
      invariant Tail(h32, s[p..]) == Tail(h, s)
    {
      ReadSlice(s, p, |s| - p, 0);
      assert s[p..|s|] == s[p..] && s[p..][4..] == s[p + 4..];
      h32 := MixWord(h32, Read32(s, p));
      p := p + 4;
    }
    assert Tail(h, s) == Avalanche(Bytes(h32, s[p..]));
    while p < |s|
      invariant p <= |s|
      invariant Tail(h, s) == Avalanche(Bytes(h32, s[p..]))
    {
      assert s[p..][0] == s[p] && s[p..][1..] == s[p + 1..];
      h32 := MixByte(h32, s[p]);
      p := p + 1;
    }
    h32 := Avalanche(h32);
  }

  // The block loop over input from p on; done is the part of the message that the lanes
  // have taken before.
  method Blocks(v0: Lanes, input: seq<byte>, p0: nat, ghost init: Lanes, ghost done: seq<byte>)
    returns (v: Lanes, p: nat)
    requires p0 <= |input| && |done| % BLOCK == 0 && v0 == Consume(Stripe, BLOCK, init, done)
    ensures p0 <= p <= |input| < p + BLOCK && |done + input[p0..p]| % BLOCK == 0
    ensures v == Consume(Stripe, BLOCK, init, done + input[p0..p])
  {
    hide Consume, Stripe, Round, Read32;
    var v1, v2, v3, v4 := v0.v1, v0.v2, v0.v3, v0.v4;
    p := p0;
    assert done + input[p0..p0] == done;
    while p + BLOCK <= |input|
      invariant p0 <= p <= |input| && |done + input[p0..p]| % BLOCK == 0
      invariant Lanes(v1, v2, v3, v4) == Consume(Stripe, BLOCK, init, done + input[p0..p])
    {
      StripeAt(Lanes(v1, v2, v3, v4), input, p);
      ConsumeBlock(Stripe, BLOCK, init, done + input[p0..p], input[p..p + BLOCK]);
      assert done + input[p0..p] + input[p..p + BLOCK] == done + input[p0..p + BLOCK];
      v1 := Round(v1, Read32(input, p)); p := p + 4;
      v2 := Round(v2, Read32(input, p)); p := p + 4;
      v3 := Round(v3, Read32(input, p)); p := p + 4;
      v4 := Round(v4, Read32(input, p)); p := p + 4;
    }
    v := Lanes(v1, v2, v3, v4);
  }

  // XXH32_endian_align
  method OneShot(input: seq<byte>, seed: bv32) returns (h32: bv32)
    ensures h32 == Hash(seed, input)
  {
    hide Consume, Stripe, Merge, Start, Tail, WithLength, Hash;
    var v := FirstLanes(seed);
    var p := 0;
    var h;
    assert Consume(Stripe, BLOCK, v, []) == v by { NothingConsumed(v); }
    if |input| >= BLOCK {
      v, p := Blocks(v, input, 0, v, []);
      h := Merge(v);
    } else {
      h := Start(seed);
    }
    h := WithLength(h, |input|);
    assert [] + input[0..p] == input[..p] && input[..p] + input[p..] == input;
    HashOfCut(seed, input[..p], input[p..], v);
    h32 := Finish(h, input[p..]);
  }

  lemma NothingConsumed(v: Lanes)
    ensures Consume(Stripe, BLOCK, v, []) == v
  {
  }

  // XXH32_state_t.  done is the part of the message the lanes have taken.
  class State {
    var totalLen: nat
    var seed: bv32
    var v: Lanes
    const mem: array<byte>
    var memsize: nat
    ghost var done: seq<byte>

    ghost predicate Valid()
      reads this, mem
    {
      mem.Length == BLOCK && memsize < BLOCK && Lined() && totalLen == |Message()| % U64
    }

    // The lanes have taken the whole blocks of done.
    ghost predicate Lined()
      reads this`seed, this`v, this`done
    {
      mem.Length == BLOCK && |done| % BLOCK == 0 && v == Consume(Stripe, BLOCK, FirstLanes(seed), done)
    }

    // Everything passed to update since the last reset.
    ghost function Message(): seq<byte>
      requires memsize <= mem.Length
      reads this, mem
    {
      done + mem[..memsize]
    }

    // XXH32_createState and XXH32_reset
    constructor (s: bv32)
      ensures Valid() && Message() == [] && seed == s && fresh(mem)
    {
      mem := new byte[BLOCK](i => 0);
      totalLen, seed, v, memsize, done := 0, s, FirstLanes(s), 0, [];
    }

    // XXH32_reset
    method Reset(s: bv32)
      requires mem.Length == BLOCK
      modifies this, mem
      ensures Valid() && Message() == [] && seed == s
    {
      forall i | 0 <= i < mem.Length { mem[i] := 0; }
      totalLen, seed, v, memsize, done := 0, s, FirstLanes(s), 0, [];
    }

    // memcpy of bytes into the buffer from position at on.
    method Fill(at: nat, bytes: seq<byte>)
      requires at + |bytes| <= mem.Length
      modifies mem
      ensures mem[..at + |bytes|] == old(mem[..at]) + bytes
    {
      forall i | 0 <= i < |bytes| { mem[at + i] := bytes[i]; }
    }

    lemma BufferSize()
      requires Lined()
      ensures mem.Length == BLOCK
    {
    }

    // Append to the bytes in the buffer.
    method Buffer(bytes: seq<byte>)
      requires Lined() && memsize + |bytes| < BLOCK
      modifies `memsize, mem
      ensures memsize == old(memsize) + |bytes| && Message() == old(Message()) + bytes
    {
      hide State.Lined;
      BufferSize();
      Fill(memsize, bytes);
      memsize := memsize + |bytes|;
      assert mem[..memsize] == old(mem[..memsize]) + bytes;
    }

    // Complete the block in the buffer and pass it to the lanes.
    method FinishBlock(bytes: seq<byte>)
      requires Lined() && memsize + |bytes| == BLOCK
      modifies `v, `memsize, `done, mem
      ensures Lined() && memsize == 0 && done == old(Message()) + bytes
    {
      hide Consume, FirstLanes, Stripe, Round, Read32;
      Fill(memsize, bytes);
      StripeOfBuffer(v, mem[..]);
      ConsumeBlock(Stripe, BLOCK, FirstLanes(seed), done, mem[..]);
      v := Lanes(Round(v.v1, Read32(mem[..], 0)), Round(v.v2, Read32(mem[..], 4)),
                 Round(v.v3, Read32(mem[..], 8)), Round(v.v4, Read32(mem[..], 12)));
      done := done + mem[..];
      memsize := 0;
    }

    // XXH32_update_endian
    method Update(input: seq<byte>)
      requires Valid()
      modifies this, mem
      ensures Valid() && seed == old(seed)
      ensures Message() == old(Message()) + input
    {
      hide Consume, Stripe, FirstLanes, State.Lined;
      LengthWraps(|Message()|, |input|);
      totalLen := (totalLen + |input|) % U64;
      if memsize + |input| < BLOCK {
        Buffer(input);
      } else {
        TakeInput(input);
      }
    }

    // Enough input to complete a block.
    method TakeInput(input: seq<byte>)
      requires Lined() && memsize < BLOCK <= memsize + |input|
      modifies `v, `memsize, `done, mem
      ensures Lined() && memsize < BLOCK && Message() == old(Message()) + input
    {
      hide Consume, Stripe, FirstLanes;
      var p := 0;
      if memsize > 0 {
        p := BLOCK - memsize;
        FinishBlock(input[..p]);
      } else {
        assert Message() == done + input[..p];
      }
      TakeBlocks(input, p);
      assert input == input[..p] + input[p..];
    }

    // The rest of the input, with an empty buffer.
    method TakeBlocks(input: seq<byte>, p0: nat)
      requires Lined() && memsize == 0 && p0 <= |input|
      modifies `v, `memsize, `done, mem
      ensures Lined() && memsize < BLOCK && Message() == old(done) + input[p0..]
    {
      hide Consume, FirstLanes, Stripe;
      var p;
      v, p := Blocks(v, input, p0, FirstLanes(seed), done);
      done := done + input[p0..p];
      assert input[p0..] == input[p0..p] + input[p..];
      if p < |input| {
        Buffer(input[p..]);
      }
    }

    // XXH32_digest_endian: the hash of the whole message, as long as its length has not
    // wrapped around.
    method Digest() returns (h32: bv32)
      requires Valid()
      ensures |Message()| < U64 ==> h32 == Hash(seed, Message())
    {
      hide Consume, Stripe, Merge, Start, Tail, WithLength, Hash, FirstLanes;
      var h := if totalLen >= BLOCK then Merge(v) else Start(seed);
      h := WithLength(h, totalLen);
      HashOfCut(seed, done, mem[..memsize], v);
      h32 := Finish(h, mem[..memsize]);
    }
  }

  lemma StripeOfBuffer(v: Lanes, s: seq<byte>)
    requires |s| == BLOCK
    ensures Stripe(v, s) == Lanes(Round(v.v1, Read32(s, 0)), Round(v.v2, Read32(s, 4)),
                                  Round(v.v3, Read32(s, 8)), Round(v.v4, Read32(s, 12)))
  {
    hide Round, Read32;
  }

  // However a message is divided into updates, empty ones included, the digest is the
  // one-shot hash of the whole.
  method Stream(seed: bv32, parts: seq<seq<byte>>) returns (streamed: bv32, oneShot: bv32)
    ensures |Flatten(parts)| < U64 ==> streamed == oneShot == Hash(seed, Flatten(parts))
  {
    hide Hash;
    var state := new State(seed);
    for i := 0 to |parts|
      invariant state.Valid() && fresh(state) && fresh(state.mem) && state.seed == seed
      invariant state.Message() == Flatten(parts[..i])
    {
      assert parts[..i + 1][..i] == parts[..i];
      state.Update(parts[i]);
    }
    assert parts[..|parts|] == parts;
    streamed := state.Digest();
    oneShot := OneShot(Flatten(parts), seed);
  }
}
