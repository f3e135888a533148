// The HyperLogLog object: registers updated in place, and the cached count.

module HyperLogLogs {
  import opened HyperLogLogSpec

  class HyperLogLog {
    const hash: Key -> bv64
    // What hllCount makes of the sum of 2^-reg and the number of zero registers.
    const estimate: (real, nat) -> bv64
    const registers: array<byte>
    const card: array<byte>
    // The registers as a sequence, and the elements added.
    ghost var regs: seq<byte>
    ghost var elements: set<Key>

    ghost predicate Shape() {
      registers.Length == REGISTERS_SIZE && card.Length == 8 && registers != card
    }

    ghost predicate Packed()
      reads this`regs, registers
    {
      && registers.Length == REGISTERS_SIZE && |regs| == REGISTERS
      && forall r: nat | r < REGISTERS :: InGroup(r) == regs[r]
    }

    ghost function InGroup(r: nat): byte
      requires registers.Length == REGISTERS_SIZE && r < REGISTERS
      reads registers
    {
      Unpack(registers[3 * (r / 4)], registers[3 * (r / 4) + 1], registers[3 * (r / 4) + 2], r % 4)
    }

    // A count that is marked as usable is the count of the registers.
    ghost predicate Cached()
      reads this`regs, card
    {
      card.Length == 8 && |regs| == REGISTERS &&
      (card[7] & INVALID == 0 ==> CardValue(card[..]) == estimate(Sum(regs, REGISTERS), Zeros(regs, REGISTERS)))
    }

    ghost predicate Valid()
      reads this, registers, card
    {
      Shape() && Packed() && Cached() && Describes(hash, elements, regs)
    }

    // ------------------------------------------------------------ registers

    // HLL_DENSE_GET_REGISTER
    method GetRegister(r: nat) returns (v: byte)
      requires Packed() && r < REGISTERS
      ensures v == regs[r] && v < 64
    {
      hide ReadBits, Unpack;
      var b := r * 6 / 8;
      var fb := r * 6 % 8;
      v := ReadBits(registers[b], registers[b + 1], fb);
      Layout(r);
      ReadsGroup(r);
      ReadIsSmall(registers[b], registers[b + 1], fb);
    }

    lemma ReadsGroup(r: nat)
      requires Packed() && r < REGISTERS
      ensures var b := 3 * (r / 4) + FirstByte(r % 4);
              ReadBits(registers[b], registers[b + 1], FirstBit(r % 4)) == InGroup(r)
    {
      hide ReadBits, Unpack;
      var g := 3 * (r / 4);
      ReadGroup(registers[g], registers[g + 1], registers[g + 2], registers[g + 3]);
    }

    // HLL_DENSE_SET_REGISTER: the register takes the value, every other one keeps its own.
    method SetRegister(r: nat, v: byte)
      requires Packed() && r < REGISTERS && v < 64
      modifies registers, this`regs
      ensures Packed() && regs == old(regs)[r := v]
    {
      hide ReadBits, Unpack, Wrote, GroupSet;
      ghost var was, before := registers[..], regs;
      WriteBytes(r, v);
      regs := regs[r := v];
      GroupWritten(was, before, r, v);
    }

    method WriteBytes(r: nat, v: byte)
      requires registers.Length == REGISTERS_SIZE && r < REGISTERS
      modifies registers
      ensures var g := 3 * (r / 4);
              && (forall i | 0 <= i < REGISTERS_SIZE && !(g <= i < g + 4) :: registers[i] == old(registers[i]))
              && registers[g] == Wrote(old(registers[g]), 0, r % 4, v)
              && registers[g + 1] == Wrote(old(registers[g + 1]), 1, r % 4, v)
              && registers[g + 2] == Wrote(old(registers[g + 2]), 2, r % 4, v)
              && registers[g + 3] == Wrote(old(registers[g + 3]), 3, r % 4, v)
    {
      hide WriteLow, WriteHigh, FirstByte, FirstBit;
      var b := r * 6 / 8;
      var fb := r * 6 % 8;
      Layout(r);
      registers[b] := WriteLow(registers[b], fb, v);
      registers[b + 1] := WriteHigh(registers[b + 1], fb, v);
    }

    // Only one group has changed, and it has changed in one register.
    lemma GroupWritten(was: seq<byte>, before: seq<byte>, r: nat, v: byte)
      requires registers.Length == |was| == REGISTERS_SIZE && |before| == REGISTERS && r < REGISTERS && v < 64
      requires regs == before[r := v]
      requires forall q: nat | q < REGISTERS ::
                 Unpack(was[3 * (q / 4)], was[3 * (q / 4) + 1], was[3 * (q / 4) + 2], q % 4) == before[q]
      requires var g := 3 * (r / 4);
               && (forall i | 0 <= i < REGISTERS_SIZE && !(g <= i < g + 4) :: registers[i] == was[i])
               && registers[g] == Wrote(was[g], 0, r % 4, v) && registers[g + 1] == Wrote(was[g + 1], 1, r % 4, v)
               && registers[g + 2] == Wrote(was[g + 2], 2, r % 4, v)
               && registers[g + 3] == Wrote(was[g + 3], 3, r % 4, v)
      ensures Packed()
    {
      hide Unpack, Wrote, ReadBits;
      var g := 3 * (r / 4);
      WriteGroup(was[g], was[g + 1], was[g + 2], was[g + 3], r % 4, v);
      forall q: nat | q < REGISTERS ensures InGroup(q) == regs[q] {
        assert Unpack(was[3 * (q / 4)], was[3 * (q / 4) + 1], was[3 * (q / 4) + 2], q % 4) == before[q];
      }
    }

    // ------------------------------------------------------------ adding and merging

    // hllPatLen
    method PatLen(ele: Key) returns (count: nat, reg: nat)
      ensures reg == IndexOf(hash(ele)) && count == RankOf(hash(ele))
    {
      hide RankFrom;
      var h := hash(ele);
      reg := IndexOf(h);
      count := Pattern(h);
    }

    // The loop of hllPatLen.
    method Pattern(h: bv64) returns (count: nat)
      ensures count == RankFrom(h, 14)
    {
      hide PowBit, RankFrom, HasBit, Twice;
      var bit: bv64 := 16384;
      KnownBits();
      count := 1;
      ghost var j := 14;
      RankStep(h, j);
      while !HasBit(h, bit)
        invariant 14 <= j <= 63 && bit == PowBit(j) && count == j - 13
        invariant RankFrom(h, 14) == count - 1 + RankFrom(h, j)
        invariant if !HasBit(h, bit) then j < 63 && RankFrom(h, j) == 1 + RankFrom(h, j + 1) else RankFrom(h, j) == 1
        decreases 63 - j
      {
        count := count + 1;
        NextBit(j);
        bit := Twice(bit);
        j := j + 1;
        RankStep(h, j);
      }
    }

    // hllDenseAdd and hll_add: the answer is whether a register has changed.
    method Add(ele: Key) returns (altered: bool)
      requires Valid()
      modifies registers, card, this`regs, this`elements
      ensures Valid() && elements == old(elements) + {ele}
      ensures altered <==> regs != old(regs)
      ensures !altered ==> card[..] == old(card[..])
    {
      hide Unpack, IsBest, Sum, Zeros, CardValue, IndexOf, RankOf;
      var count, index := PatLen(ele);
      var oldcount := GetRegister(index);
      ghost var was := regs;
      altered := false;
      if count as byte > oldcount {
        SmallBytes(count, oldcount);
        SetRegister(index, count as byte);
        Invalidate();
        altered := true;
      } else {
        SmallBytes(count, oldcount);
      }
      AddedToDescribed(hash, elements, ele, was, regs);
      elements := elements + {ele};
    }

    // HLL_INVALIDATE_CACHE
    method Invalidate()
      requires card.Length == 8 && |regs| == REGISTERS
      modifies card
      ensures Cached() && card[7] & INVALID != 0
    {
      SetsTopBit(card[7]);
      card[7] := card[7] | INVALID;
    }

    // hll_merge: afterwards this object holds the union.
    method Merge(src: HyperLogLog)
      requires Valid() && src.Valid() && src.hash == hash
      requires src != this ==> {registers, card} !! {src.registers, src.card}
      modifies registers, card, this`regs, this`elements
      ensures Valid() && elements == old(elements) + old(src.elements)
      ensures regs == MaxAll(old(regs), old(src.regs))
      ensures src != this ==> src.Valid() && src.regs == old(src.regs)
    {
      hide Unpack, IsBest, Sum, Zeros, CardValue, HyperLogLog.InGroup, MaxAll;
      if src == this {
        SelfMerge(regs, elements);
        return;
      }
      UnionOfDescribed(hash, elements, src.elements, regs, src.regs);
      MergeRegisters(src);
      Invalidate();
      elements := elements + src.elements;
    }

    // The loop of hll_merge.
    method MergeRegisters(src: HyperLogLog)
      requires Packed() && src.Packed() && src != this && registers != src.registers
      modifies registers, this`regs
      ensures Packed() && regs == MaxAll(old(regs), src.regs)
    {
      hide Unpack, HyperLogLog.InGroup;
      ghost var was := regs;
      for i := 0 to REGISTERS
        invariant Packed() && src.Packed()
        invariant forall r: nat | r < REGISTERS :: regs[r] == if r < i then Max(was[r], src.regs[r]) else was[r]
      {
        var dval := GetRegister(i);
        var sval := src.GetRegister(i);
        if sval > dval {
          SetRegister(i, sval);
        }
      }
    }

    // ------------------------------------------------------------ counting

    lemma FourRegisters(g: nat)
      requires Packed() && g < 4096
      ensures var a, b, c := registers[3 * g], registers[3 * g + 1], registers[3 * g + 2];
              && a & 63 == regs[4 * g] && ((a >> 6) | (b << 2)) & 63 == regs[4 * g + 1]
              && ((b >> 4) | (c << 4)) & 63 == regs[4 * g + 2] && (c >> 2) & 63 == regs[4 * g + 3]
    {
      assert InGroup(4 * g) == regs[4 * g] && InGroup(4 * g + 1) == regs[4 * g + 1];
      assert InGroup(4 * g + 2) == regs[4 * g + 2] && InGroup(4 * g + 3) == regs[4 * g + 3];
    }

    method ReadFour(r: nat, ghost g: nat) returns (r0: byte, r1: byte, r2: byte, r3: byte)
      requires Packed() && g < 4096 && r == 3 * g
      ensures r0 == regs[4 * g] && r1 == regs[4 * g + 1] && r2 == regs[4 * g + 2] && r3 == regs[4 * g + 3]
    {
      hide HyperLogLog.InGroup;
      FourRegisters(g);
      r0 := registers[r] & 63;
      r1 := ((registers[r] >> 6) | (registers[r + 1] << 2)) & 63;
      r2 := ((registers[r + 1] >> 4) | (registers[r + 2] << 4)) & 63;
      r3 := (registers[r + 2] >> 2) & 63;
    }

    // Four registers of the unrolled loop of hllDenseSum, from byte r on.
    method SumFour(r: nat, ghost g: nat, e0: real, ez0: nat) returns (e: real, ez: nat)
      requires Packed() && g < 4096 && r == 3 * g
      requires e0 == Sum(regs, 4 * g) && ez0 == Zeros(regs, 4 * g)
      ensures e == Sum(regs, 4 * g + 4) && ez == Zeros(regs, 4 * g + 4)
    {
      hide PE, Sum, Zeros, IsZero, HyperLogLog.InGroup;
      var r0, r1, r2, r3 := ReadFour(r, g);
      FourMore(regs, 4 * g);
      ez := ez0 + IsZero(r0) + IsZero(r1) + IsZero(r2) + IsZero(r3);
      e := e0 + ((PE(r0) + PE(r1)) + (PE(r2) + PE(r3)));
    }

    // hllDenseSum, unrolled: sixteen registers in every round.
    method DenseSum() returns (e: real, ez: nat)
      requires Packed()
      ensures e == Sum(regs, REGISTERS) && ez == Zeros(regs, REGISTERS)
    {
      hide PE, HyperLogLog.Packed;
      SizeOfRegisters();
      e, ez := 0.0, 0;
      var r := 0;
      for j := 0 to 1024
        invariant Packed() && r == 12 * j && e == Sum(regs, 16 * j) && ez == Zeros(regs, 16 * j)
      {
        e, ez := SumFour(r, 4 * j, e, ez);
        e, ez := SumFour(r + 3, 4 * j + 1, e, ez);
        e, ez := SumFour(r + 6, 4 * j + 2, e, ez);
        e, ez := SumFour(r + 9, 4 * j + 3, e, ez);
        r := r + 12;
      }
    }

    lemma SizeOfRegisters()
      requires Packed()
      ensures |regs| == REGISTERS && registers.Length == REGISTERS_SIZE
    {
    }

    // The other branch of hllDenseSum, register by register.
    method GenericSum() returns (e: real, ez: nat)
      requires Packed()
      ensures e == Sum(regs, REGISTERS) && ez == Zeros(regs, REGISTERS)
    {
      hide PE, HyperLogLog.InGroup;
      e, ez := 0.0, 0;
      for j := 0 to REGISTERS
        invariant e == SumOfNonzero(regs, j) && ez == Zeros(regs, j)
      {
        var reg := GetRegister(j);
        if reg == 0 {
          ez := ez + 1;
        } else {
          e := e + PE(reg);
        }
      }
      ZerosAddOne(regs, REGISTERS);
      e := e + ez as real;
    }

    // hll_count: whether cached or not, the count is the one the registers give.
    method Count() returns (c: bv64)
      requires Valid()
      modifies card
      ensures Valid() && c == estimate(Sum(regs, REGISTERS), Zeros(regs, REGISTERS))
    {
      hide Sum, Zeros, Unpack, IsBest, CardBytes, CardValue;
      if card[7] & INVALID == 0 {
        c := CardValue(card[..]);
      } else {
        var e, ez := DenseSum();
        c := estimate(e, ez);
        StoreCard(c);
      }
    }

    method StoreCard(c: bv64)
      requires card.Length == 8
      modifies card
      ensures CardValue(card[..]) == c
    {
      var bytes := CardBytes(c);
      CardRoundTrip(c);
      hide CardBytes, CardValue;
      forall i | 0 <= i < 8 { card[i] := bytes[i]; }
      assert card[..] == bytes;
    }

    // hll_new
    constructor (h: Key -> bv64, f: (real, nat) -> bv64)
      ensures Valid() && elements == {} && hash == h && estimate == f
      ensures fresh(registers) && fresh(card)
    {
      hash, estimate := h, f;
      registers := new byte[REGISTERS_SIZE](i => 0);
      card := new byte[8](i => 0);
      regs, elements := seq(REGISTERS, i => 0 as byte), {};
      new;
      NothingPacked();
      Invalidate();
    }

    lemma NothingPacked()
      requires registers.Length == REGISTERS_SIZE && |regs| == REGISTERS
      requires forall i | 0 <= i < REGISTERS_SIZE :: registers[i] == 0
      requires forall r: nat | r < REGISTERS :: regs[r] == 0
      ensures Packed() && Describes(hash, {}, regs)
    {
    }

    // hll_clear
    method Clear()
      requires Shape()
      modifies registers, card, this`regs, this`elements
      ensures Valid() && elements == {}
    {
      Wipe();
      regs, elements := seq(REGISTERS, i => 0 as byte), {};
      NothingPacked();
      Invalidate();
    }

    method Wipe()
      modifies registers
      ensures forall i | 0 <= i < registers.Length :: registers[i] == 0
    {
      forall i | 0 <= i < registers.Length { registers[i] := 0; }
    }
  }

  // Objects that have taken in the same elements, by adding and merging in whatever way,
  // have the same registers, and so the same count.
  lemma SameElements(a: HyperLogLog, b: HyperLogLog)
    requires a.Valid() && b.Valid() && a.hash == b.hash && a.elements == b.elements
    ensures a.regs == b.regs
  {
    RegistersAreDetermined(a.hash, a.elements, a.regs, b.regs);
  }

  // Adding a list of keys, and adding it in two parts that are then merged.
  method AddAll(h: HyperLogLog, keys: seq<Key>)
    requires h.Valid()
    modifies h.registers, h.card, h`regs, h`elements
    ensures h.Valid() && h.elements == old(h.elements) + (set k | k in keys)
  {
    hide HyperLogLog.Packed, HyperLogLog.Cached, Describes;
    for i := 0 to |keys|
      invariant h.Valid() && h.elements == old(h.elements) + (set k | k in keys[..i])
    {
      assert keys[..i + 1] == keys[..i] + [keys[i]];
      var altered := h.Add(keys[i]);
    }
    assert keys[..|keys|] == keys;
  }

  // The count that the registers of a set of elements give.
  ghost predicate IsCountOf(hash: Key -> bv64, f: (real, nat) -> bv64, elements: set<Key>, c: bv64) {
    exists regs :: Describes(hash, elements, regs) && c == f(Sum(regs, REGISTERS), Zeros(regs, REGISTERS))
  }

  method SplitAndMerge(hash: Key -> bv64, f: (real, nat) -> bv64, xs: seq<Key>, ys: seq<Key>)
    returns (c: bv64, d: bv64)
    ensures c == d && IsCountOf(hash, f, (set k | k in xs + ys), c)
  {
    hide HyperLogLog.Valid, Sum, Zeros, IsCountOf;
    var whole := Filled(hash, f, xs + ys);
    var part := Filled(hash, f, ys);
    var other := Filled(hash, f, xs);
    part.Merge(other);
    SameElements(whole, part);
    c := whole.Count();
    d := part.Count();
    CountOfElements(whole);
    assert whole.elements == (set k | k in xs + ys);
  }

  // A new object with some keys added.
  method Filled(hash: Key -> bv64, f: (real, nat) -> bv64, keys: seq<Key>) returns (h: HyperLogLog)
    ensures fresh(h) && fresh(h.registers) && fresh(h.card) && h.Valid() && h.hash == hash && h.estimate == f
    ensures h.elements == set k | k in keys
  {
    hide HyperLogLog.Valid;
    h := new HyperLogLog(hash, f);
    AddAll(h, keys);
  }

  lemma CountOfElements(h: HyperLogLog)
    requires h.Valid()
    ensures |h.regs| == REGISTERS
    ensures IsCountOf(h.hash, h.estimate, h.elements, h.estimate(Sum(h.regs, REGISTERS), Zeros(h.regs, REGISTERS)))
  {
    hide HyperLogLog.Packed, HyperLogLog.Cached, Sum, Zeros;
  }

  // hllRawSum: a byte for every register; words of eight zero bytes are counted at once.
  method RawSum(raw: array<byte>, off: nat) returns (e: real, ez: nat)
    requires off + REGISTERS <= raw.Length
    ensures var s := raw[off..off + REGISTERS]; e == Sum(s, REGISTERS) && ez == Zeros(s, REGISTERS)
  {
    hide PE;
    ghost var s := raw[off..off + REGISTERS];
    e, ez := 0.0, 0;
    for j := 0 to REGISTERS / 8
      invariant e == SumOfNonzero(s, 8 * j) && ez == Zeros(s, 8 * j)
    {
      e, ez := RawWord(raw, off, 8 * j, e, ez);
    }
    ZerosAddOne(s, REGISTERS);
    e := e + ez as real;
  }

  // One word of hllRawSum, with its eight tests written as a loop.
  method RawWord(raw: array<byte>, off: nat, n: nat, e0: real, ez0: nat) returns (e: real, ez: nat)
    requires off + REGISTERS <= raw.Length && n + 8 <= REGISTERS
    requires var s := raw[off..off + REGISTERS]; e0 == SumOfNonzero(s, n) && ez0 == Zeros(s, n)
    ensures var s := raw[off..off + REGISTERS]; e == SumOfNonzero(s, n + 8) && ez == Zeros(s, n + 8)
  {
    hide PE, SumOfNonzero, Zeros;
    ghost var s := raw[off..off + REGISTERS];
    e, ez := e0, ez0;
    var p := off + n;
    if raw[p] == raw[p + 1] == raw[p + 2] == raw[p + 3] == raw[p + 4] == raw[p + 5] == raw[p + 6] == raw[p + 7] == 0 {
      ZeroWord(s, n);
      ez := ez + 8;
    } else {
      for k := 0 to 8
        invariant e == SumOfNonzero(s, n + k) && ez == Zeros(s, n + k)
      {
        OneMore(s, n + k);
        if raw[p + k] != 0 {
          e := e + PE(raw[p + k]);
        } else {
          ez := ez + 1;
        }
      }
    }
  }

  lemma ZeroWord(s: seq<byte>, n: nat)
    requires n + 8 <= |s| && s[n] == s[n + 1] == s[n + 2] == s[n + 3] == 0
    requires s[n + 4] == s[n + 5] == s[n + 6] == s[n + 7] == 0
    ensures Zeros(s, n + 8) == Zeros(s, n) + 8 && SumOfNonzero(s, n + 8) == SumOfNonzero(s, n)
  {
    hide Zeros, SumOfNonzero, PE;
    FourMore(s, n);
    FourMore(s, n + 4);
  }

  lemma OneMore(s: seq<byte>, n: nat)
    requires n < |s|
    ensures Zeros(s, n + 1) == Zeros(s, n) + IsZero(s[n])
    ensures SumOfNonzero(s, n + 1) == SumOfNonzero(s, n) + NonzeroPE(s[n])
  {
  }

  ghost function RegistersOf(hs: seq<HyperLogLog>): (rs: seq<Registers>)
    requires forall i | 0 <= i < |hs| :: |hs[i].regs| == REGISTERS
    reads set i | 0 <= i < |hs| :: hs[i]
    ensures |rs| == |hs| && forall i | 0 <= i < |hs| :: rs[i] == hs[i].regs
  {
    if hs == [] then [] else RegistersOf(hs[..|hs| - 1]) + [hs[|hs| - 1].regs]
  }

  // hll_set_count: merge into a raw object and count that.  The merged registers are
  // written behind HLL_HDR_SIZE, but counted from where the structure has them.
  method SetCount(hs: seq<HyperLogLog>, estimate: (real, nat) -> bv64) returns (c: bv64)
    requires |hs| > 1 && forall i | 0 <= i < |hs| :: |hs[i].regs| == REGISTERS && hs[i].Packed()
    ensures var m := Shifted(Merged(RegistersOf(hs))); c == estimate(Sum(m, REGISTERS), Zeros(m, REGISTERS))
  {
    hide Sum, Zeros, Shifted, HyperLogLog.Packed, Merged, RegistersOf;
    var max := FillRaw(hs);
    var e, ez := RawSum(max, REGISTERS_OFFSET);
    ShiftedView(max, Merged(RegistersOf(hs)));
    c := estimate(e, ez);
  }

  lemma ShiftedView(max: array<byte>, m: Registers)
    requires max.Length == HDR_SIZE + REGISTERS && max[HDR_SIZE..] == m && max[16] == max[17] == 0
    ensures max[REGISTERS_OFFSET..REGISTERS_OFFSET + REGISTERS] == Shifted(m)
  {
    assert max[REGISTERS_OFFSET..REGISTERS_OFFSET + REGISTERS] == [max[16], max[17]] + max[HDR_SIZE..][..REGISTERS - 2];
  }

  lemma MergedNone(rs: seq<Registers>)
    ensures Merged(rs[..0]) == Blank()
  {
  }

  lemma MergedNext(rs: seq<Registers>, i: nat)
    requires i < |rs|
    ensures Merged(rs[..i + 1]) == MaxAll(Merged(rs[..i]), rs[i])
  {
    assert rs[..i + 1][..i] == rs[..i];
  }

  method FillRaw(hs: seq<HyperLogLog>) returns (max: array<byte>)
    requires forall i | 0 <= i < |hs| :: |hs[i].regs| == REGISTERS && hs[i].Packed()
    ensures fresh(max) && max.Length == HDR_SIZE + REGISTERS && max[16] == max[17] == 0
    ensures max[HDR_SIZE..] == Merged(RegistersOf(hs))
  {
    hide HyperLogLog.Packed, RegistersOf, Merged, MaxAll;
    max := new byte[HDR_SIZE + REGISTERS](i => 0);
    max[4] := 255;
    ghost var rs := RegistersOf(hs);
    MergedNone(rs);
    for idx := 0 to |hs|
      invariant forall i | 0 <= i < |hs| :: hs[i].Packed()
      invariant max[HDR_SIZE..] == Merged(rs[..idx]) && max[16] == max[17] == 0
    {
      MergedNext(rs, idx);
      MaxInto(max, hs[idx]);
    }
    assert rs[..|hs|] == rs;
  }

  // The inner loop of hll_set_count.
  method MaxInto(max: array<byte>, h: HyperLogLog)
    requires max.Length == HDR_SIZE + REGISTERS && h.Packed() && max != h.registers
    modifies max
    ensures max[HDR_SIZE..] == MaxAll(old(max[HDR_SIZE..]), h.regs)
    ensures forall i | 0 <= i < HDR_SIZE :: max[i] == old(max[i])
  {
    hide Unpack, HyperLogLog.InGroup, HyperLogLog.Packed;
    h.SizeOfRegisters();
    for i := 0 to REGISTERS
      invariant h.Packed()
      invariant forall k | 0 <= k < max.Length ::
                  max[k] == if HDR_SIZE <= k < HDR_SIZE + i then Max(old(max[k]), h.regs[k - HDR_SIZE]) else old(max[k])
    {
      var val := h.GetRegister(i);
      if val > max[HDR_SIZE + i] { max[HDR_SIZE + i] := val; }
    }
  }

  // An object h with one key whose hash belongs to the last register, and an empty object e:
  // h has 16383 empty registers, but counting h and e together is counting nothing.
  method LastRegisterIsLost(f: (real, nat) -> bv64)
    returns (h: HyperLogLog, e: HyperLogLog, alone: bv64, together: bv64, none: bv64)
    ensures h.Valid() && h.elements == {[0]} && e.Valid() && e.elements == {}
    ensures alone == f(Sum(h.regs, REGISTERS), REGISTERS - 1)
    ensures together == none == f(Sum(Blank(), REGISTERS), REGISTERS)
  {
    hide HyperLogLog.Valid, HyperLogLog.Packed, Sum, Zeros, Blank, Shifted, Merged, RegistersOf;
    e := new HyperLogLog(k => 16383, f);
    h := new HyperLogLog(k => 16383, f);
    var altered := h.Add([0]);
    assert h.elements == {[0]};
    OneKey(h);
    NoKey(e);
    alone := h.Count();
    OneKey(h);
    NoKey(e);
    NothingShifted();
    together := CountWithEmpty(h, e, f);
    none := CountWithEmpty(e, e, f);
  }

  method CountWithEmpty(h: HyperLogLog, e: HyperLogLog, f: (real, nat) -> bv64) returns (c: bv64)
    requires |h.regs| == REGISTERS && h.Packed() && e.regs == Blank() && e.Packed()
    ensures c == f(Sum(Shifted(h.regs), REGISTERS), Zeros(Shifted(h.regs), REGISTERS))
  {
    hide HyperLogLog.Packed, Sum, Zeros, Blank, Shifted, Merged, RegistersOf;
    RegistersOfTwo(h, e);
    MergedTwo(h.regs);
    c := SetCount([h, e], f);
  }

  lemma OneKey(h: HyperLogLog)
    requires h.Valid() && h.elements == {[0]} && h.hash([0]) == 16383
    ensures |h.regs| == REGISTERS && h.Packed() && Shifted(h.regs) == Blank()
            && Zeros(h.regs, REGISTERS) == REGISTERS - 1
  {
    hide HyperLogLog.Packed, HyperLogLog.Cached, Zeros, Shifted, IndexOf, Describes, Blank;
    LastIndex();
    OneElement(h.hash, [0], h.regs);
    DescribedSize(h.hash, h.elements, h.regs);
    MultiCountMissesLast(h.regs, h.regs[REGISTERS - 1]);
  }

  lemma DescribedSize(hash: Key -> bv64, elements: set<Key>, regs: seq<byte>)
    requires Describes(hash, elements, regs)
    ensures |regs| == REGISTERS
  {
  }

  lemma NoKey(e: HyperLogLog)
    requires e.Valid() && e.elements == {}
    ensures e.Packed() && e.regs == Blank()
  {
    hide HyperLogLog.Packed, HyperLogLog.Cached, Describes, Blank;
    NoElements(e.hash, e.regs);
  }

  lemma LastIndex()
    ensures IndexOf(16383) == REGISTERS - 1
  {
  }

  lemma RegistersOfTwo(h: HyperLogLog, e: HyperLogLog)
    requires |h.regs| == |e.regs| == REGISTERS
    ensures RegistersOf([h, e]) == [h.regs, e.regs]
  {
  }

  lemma MergedTwo(r: Registers)
    ensures Merged([r, Blank()]) == r
  {
    hide Blank, Merged;
    var rs := [r, Blank()];
    MergedNone(rs);
    MergedNext(rs, 0);
    MergedNext(rs, 1);
    assert rs[..2] == rs;
    MaxWithBlank(r);
  }

  lemma MaxWithBlank(r: Registers)
    ensures MaxAll(Blank(), r) == r && MaxAll(r, Blank()) == r
  {
    var a, b := MaxAll(Blank(), r), MaxAll(r, Blank());
    forall i: nat | i < REGISTERS ensures a[i] == r[i] && b[i] == r[i] {
      assert a[i] == Max(0, r[i]) && b[i] == Max(r[i], 0);
    }
  }

  lemma NothingShifted()
    ensures Shifted(Blank()) == Blank() && Zeros(Blank(), REGISTERS) == REGISTERS
  {
    AllZeros(Blank(), REGISTERS);
  }
}
