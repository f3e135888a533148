// What XXH32 and XXH64 share: reading bytes and consuming a message block by block
// (common/xxhash.c).

module XXHashBlocks {
  import opened Bits
  import opened Common

  type byte = bv8

  // A little-endian word, whatever the byte order of the machine.
  function Word32(b0: byte, b1: byte, b2: byte, b3: byte): bv32 {
    b0 as bv32 | ((b1 as bv32) << 8) | ((b2 as bv32) << 16) | ((b3 as bv32) << 24)
  }

  function Word64(low: bv32, high: bv32): bv64 {
    low as bv64 | ((high as bv64) << 32)
  }

  function Read32(s: seq<byte>, i: nat): bv32 {
    if i + 4 <= |s| then Word32(s[i], s[i + 1], s[i + 2], s[i + 3]) else 0
  }

  function Read64(s: seq<byte>, i: nat): bv64 {
    Word64(Read32(s, i), Read32(s, i + 4))
  }

  lemma ReadSlice(s: seq<byte>, p: nat, n: nat, i: nat)
    requires p + n <= |s| && i + 4 <= n
    ensures Read32(s[p..p + n], i) == Read32(s, p + i)
  {
    hide Word32;
    var t := s[p..p + n];
    assert t[i] == s[p + i] && t[i + 1] == s[p + i + 1] && t[i + 2] == s[p + i + 2] && t[i + 3] == s[p + i + 3];
  }

  lemma ReadLongSlice(s: seq<byte>, p: nat, n: nat, i: nat)
    requires p + n <= |s| && i + 8 <= n
    ensures Read64(s[p..p + n], i) == Read64(s, p + i)
  {
    hide Word32, Word64;
    ReadSlice(s, p, n, i);
    ReadSlice(s, p, n, i + 4);
  }

  // Two messages of the same length that differ, and only in the n bytes from i on.
  predicate DifferAt(s: seq<byte>, t: seq<byte>, i: nat, n: nat) {
    |s| == |t| && i + n <= |s| && s != t && s[..i] == t[..i] && s[i + n..] == t[i + n..]
  }

  lemma SameLength(s: seq<byte>, t: seq<byte>, i: nat, n: nat)
    requires DifferAt(s, t, i, n)
    ensures |s| == |t|
  {
  }

  lemma BehindFirst(s: seq<byte>, t: seq<byte>, i: nat, n: nat, k: nat)
    requires DifferAt(s, t, i, n) && k <= i
    ensures s[..k] == t[..k] && DifferAt(s[k..], t[k..], i - k, n)
  {
    assert s[..k] == s[..i][..k] && t[..k] == t[..i][..k];
    assert s == s[..k] + s[k..] && t == t[..k] + t[k..];
    assert s[k..][..i - k] == s[..i][k..] && t[k..][..i - k] == t[..i][k..];
    assert s[k..][i - k + n..] == s[i + n..] && t[k..][i - k + n..] == t[i + n..];
  }

  lemma ReadBehind(s: seq<byte>, p: nat)
    requires p + 4 <= |s|
    ensures Read32(s[p..], 0) == Read32(s, p)
  {
    hide Word32;
    var t := s[p..];
    assert t[0] == s[p] && t[1] == s[p + 1] && t[2] == s[p + 2] && t[3] == s[p + 3];
  }

  lemma SameWord(s: seq<byte>, t: seq<byte>, i: nat)
    requires i + 4 <= |s| == |t| && s[..i + 4] == t[..i + 4]
    ensures Read32(s, i) == Read32(t, i)
  {
    hide Word32;
    forall k | 0 <= k < i + 4 ensures s[k] == t[k] { assert s[..i + 4][k] == t[..i + 4][k]; }
  }

  lemma WordsApart(b0: byte, b1: byte, b2: byte, b3: byte, c0: byte, c1: byte, c2: byte, c3: byte)
    requires b0 != c0 || b1 != c1 || b2 != c2 || b3 != c3
    ensures Word32(b0, b1, b2, b3) != Word32(c0, c1, c2, c3)
  {
  }

  // Where the first k bytes hold the difference.
  lemma InFirst(s: seq<byte>, t: seq<byte>, i: nat, n: nat, k: nat)
    requires DifferAt(s, t, i, n) && i + n <= k <= |s|
    ensures DifferAt(s[..k], t[..k], i, n) && s[k..] == t[k..]
  {
    assert s[k..] == s[i + n..][k - i - n..] && t[k..] == t[i + n..][k - i - n..];
    assert s == s[..k] + s[k..] && t == t[..k] + t[k..];
    assert s[..k][..i] == s[..i] && t[..k][..i] == t[..i];
    assert s[..k][i + n..] == s[i + n..][..k - i - n] && t[..k][i + n..] == t[i + n..][..k - i - n];
  }

  // Of the aligned words exactly the one with the difference differs.
  lemma WordsOfDiffering(s: seq<byte>, t: seq<byte>, i: nat, j: nat)
    requires DifferAt(s, t, i, 4) && i % 4 == 0 && j % 4 == 0 && j + 4 <= |s|
    ensures Read32(s, j) != Read32(t, j) <==> j == i
  {
    hide Read32;
    if j < i {
      assert s[..j + 4] == s[..i][..j + 4] && t[..j + 4] == t[..i][..j + 4];
      SameWord(s, t, j);
    } else if j == i {
      BehindFirst(s, t, i, 4, i);
      FirstWordDiffers(s[i..], t[i..]);
      ReadBehind(s, i);
      ReadBehind(t, i);
    } else {
      assert s[j..j + 4] == s[i + 4..][j - i - 4..j - i] && t[j..j + 4] == t[i + 4..][j - i - 4..j - i];
      ReadSlice(s, j, 4, 0);
      ReadSlice(t, j, 4, 0);
    }
  }

  lemma FirstWordDiffers(s: seq<byte>, t: seq<byte>)
    requires DifferAt(s, t, 0, 4)
    ensures Read32(s, 0) != Read32(t, 0) && s[4..] == t[4..]
  {
    hide Word32;
    assert s == s[..4] + s[4..] && t == t[..4] + t[4..];
    if s[0] == t[0] && s[1] == t[1] && s[2] == t[2] {
      assert s[..4] == [s[0], s[1], s[2], s[3]] && t[..4] == [t[0], t[1], t[2], t[3]];
    }
    WordsApart(s[0], s[1], s[2], s[3], t[0], t[1], t[2], t[3]);
  }

  lemma HalvesAreKept(low: bv32, high: bv32)
    ensures Word64(low, high) & 0xffff_ffff == low as bv64 && Word64(low, high) >> 32 == high as bv64
  {
  }

  lemma WideningKeepsApart(x: bv32, y: bv32)
    requires x != y
    ensures x as bv64 != y as bv64
  {
  }

  lemma LongsApart(low: bv32, high: bv32, low': bv32, high': bv32)
    requires low != low' || high != high'
    ensures Word64(low, high) != Word64(low', high')
  {
    hide Word64;
    HalvesAreKept(low, high);
    HalvesAreKept(low', high');
    if low != low' { WideningKeepsApart(low, low'); } else { WideningKeepsApart(high, high'); }
  }

  lemma SameLong(s: seq<byte>, t: seq<byte>)
    requires 8 <= |s| == |t| && s[..8] == t[..8]
    ensures Read64(s, 0) == Read64(t, 0)
  {
    hide Read32, Word64;
    assert s[..4] == s[..8][..4] && t[..4] == t[..8][..4];
    SameWord(s, t, 0);
    SameWord(s, t, 4);
  }

  lemma ReadFront(s: seq<byte>)
    requires |s| >= 4
    ensures Read32(s[..4], 0) == Read32(s, 0)
  {
    hide Word32;
  }

  lemma SkipTwice(s: seq<byte>)
    requires |s| >= 8
    ensures s[4..][4..] == s[8..]
  {
  }

  lemma FirstLongDiffers(s: seq<byte>, t: seq<byte>)
    requires DifferAt(s, t, 0, 8)
    ensures Read64(s, 0) != Read64(t, 0) && s[8..] == t[8..]
  {
    hide Read32, Word64;
    var low, low', high, high' := Read32(s, 0), Read32(t, 0), Read32(s, 4), Read32(t, 4);
    assert s == s[..4] + s[4..] && t == t[..4] + t[4..];
    if s[..4] != t[..4] {
      FirstWordDiffers(s[..4], t[..4]);
      ReadFront(s);
      ReadFront(t);
    } else {
      SkipTwice(s);
      SkipTwice(t);
      FirstWordDiffers(s[4..], t[4..]);
      ReadBehind(s, 4);
      ReadBehind(t, 4);
    }
    LongsApart(low, high, low', high');
  }

  // The lanes after the blocks of b bytes of data have gone through step.
  ghost function Consume<L>(step: (L, seq<byte>) -> L, b: nat, lanes: L, data: seq<byte>): (l: L)
    requires b > 0
    decreases |data|
  {
    if |data| < b then lanes else Consume(step, b, step(lanes, data[..b]), data[b..])
  }

  lemma {:induction false} ConsumeAppend<L>(step: (L, seq<byte>) -> L, b: nat, lanes: L, x: seq<byte>, y: seq<byte>)
    requires b > 0 && |x| % b == 0
    ensures Consume(step, b, lanes, x + y) == Consume(step, b, Consume(step, b, lanes, x), y)
    decreases |x|
  {
    if |x| < b {
      ShortMultiple(|x|, b);
      assert x + y == y;
    } else {
      OneLess(|x|, b);
      assert (x + y)[..b] == x[..b] && (x + y)[b..] == x[b..] + y;
      ConsumeAppend(step, b, step(lanes, x[..b]), x[b..], y);
    }
  }

  lemma ConsumeBlock<L>(step: (L, seq<byte>) -> L, b: nat, lanes: L, x: seq<byte>, block: seq<byte>)
    requires b > 0 && |x| % b == 0 && |block| == b
    ensures Consume(step, b, lanes, x + block) == step(Consume(step, b, lanes, x), block)
    ensures |x + block| % b == 0
  {
    ConsumeAppend(step, b, lanes, x, block);
    OneMore(|x|, b);
    var l := Consume(step, b, lanes, x);
    assert block[..b] == block && block[b..] == [];
    assert Consume(step, b, step(l, block), []) == step(l, block);
  }

  lemma ShortMultiple(n: nat, b: nat)
    requires 0 <= n < b && n % b == 0
    ensures n == 0
  {
  }

  lemma OneLess(n: nat, b: nat)
    requires n >= b > 0 && n % b == 0
    ensures (n - b) % b == 0
  {
    assert b * (n / b - 1) == b * (n / b) - b;
    DivModUnique(n - b, b, n / b - 1, 0);
  }

  lemma OneMore(n: nat, b: nat)
    requires b > 0 && n % b == 0
    ensures (n + b) % b == 0
  {
    assert b * (n / b + 1) == b * (n / b) + b;
    DivModUnique(n + b, b, n / b + 1, 0);
  }

  // Full blocks, and what is left over.
  function Whole(n: nat, b: nat): (k: nat)
    requires b > 0
    ensures k <= n
  {
    n - n % b
  }

  lemma MultipleOfFour(len: nat, b: nat, k: nat)
    requires b > 0 && b % 4 == 0 && k == Whole(len, b)
    ensures k % b == 0 && k % 4 == 0 && len - k < b
  {
    var q := len / b;
    assert len == b * q + len % b;
    DivModUnique(k, b, q, 0);
    assert k == 4 * (b / 4 * q) by { assert b == 4 * (b / 4); }
    DivModUnique(k, 4, b / 4 * q, 0);
  }

  lemma BehindMultiple(n: nat, k: nat)
    requires k <= n && k % 4 == 0
    ensures (n - k) % 4 == n % 4
  {
    DivModUnique(n - k, 4, n / 4 - k / 4, n % 4);
  }

  lemma MultiplesAreSpaced(i: nat, k: nat)
    requires k % 4 == 0 && i % 4 == 0 && i < k
    ensures i + 4 <= k
  {
  }

  // A message cut into full blocks and a rest shorter than a block is cut in the only
  // possible place.
  lemma OnlyCut(done: seq<byte>, rest: seq<byte>, b: nat)
    requires b > 0 && |done| % b == 0 && |rest| < b
    ensures var m := done + rest; Whole(|m|, b) == |done| && m[..|done|] == done && m[|done|..] == rest
  {
    assert |done| == b * (|done| / b);
    DivModUnique(|done| + |rest|, b, |done| / b, |rest|);
  }

  lemma LengthWraps(n: nat, k: nat)
    ensures (n % U64 + k) % U64 == (n + k) % U64
  {
  }
}
