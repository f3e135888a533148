// Circular 8-bit intervals and what they stand for: the pure part of the expiring cuckoo
// filter (cuckoo_filter/cuckoo_filter_expire.c, index_r2v, index_v2r, the range test of
// prune_range and the time handling of cf_add).

module CuckooExpireSpec {
  import opened Bits
  import opened Common
  import opened CuckooCommon

  const MAX_INTERVALS := 256

  // The interval byte stored with every class.
  type Table = m: map<Class, nat> | forall c | c in m :: m[c] < MAX_INTERVALS

  // index_r2v: the age rank of a stored byte when cur is the current one; 255 is newest.
  function IndexR2V(cur: nat, idx: nat): (v: nat)
    requires cur < MAX_INTERVALS && idx < MAX_INTERVALS
    ensures v < MAX_INTERVALS
  {
    var i := idx - (cur + 1) % MAX_INTERVALS;
    if i < 0 then i + MAX_INTERVALS else i
  }

  // index_v2r
  function IndexV2R(cur: nat, idx: nat): (r: nat)
    requires cur < MAX_INTERVALS && idx < MAX_INTERVALS
    ensures r < MAX_INTERVALS
  {
    (idx + (cur + 1) % MAX_INTERVALS) % MAX_INTERVALS
  }

  // The remainder of a number that is at most one round off.
  lemma Reduced(x: int)
    requires -MAX_INTERVALS <= x < 2 * MAX_INTERVALS
    ensures x % MAX_INTERVALS ==
            if x < 0 then x + MAX_INTERVALS else if x < MAX_INTERVALS then x else x - MAX_INTERVALS
  {
    var q := if x < 0 then -1 else if x < MAX_INTERVALS then 0 else 1;
    DivModUnique(x, MAX_INTERVALS, q, x - MAX_INTERVALS * q);
  }

  // Both maps without remainders.
  lemma Ranks(cur: nat, idx: nat)
    requires cur < MAX_INTERVALS && idx < MAX_INTERVALS
    ensures IndexR2V(cur, idx) == if idx > cur then idx - cur - 1 else idx - cur - 1 + MAX_INTERVALS
    ensures IndexV2R(cur, idx) ==
            if idx + cur + 1 < MAX_INTERVALS then idx + cur + 1 else idx + cur + 1 - MAX_INTERVALS
  {
    Reduced(cur + 1);
    Reduced(idx + (cur + 1) % MAX_INTERVALS);
  }

  lemma RankRoundTrip(cur: nat, idx: nat)
    requires cur < MAX_INTERVALS && idx < MAX_INTERVALS
    ensures IndexV2R(cur, IndexR2V(cur, idx)) == idx
    ensures IndexR2V(cur, IndexV2R(cur, idx)) == idx
    ensures IndexR2V(cur, cur) == MAX_INTERVALS - 1
  {
    hide IndexR2V, IndexV2R;
    Ranks(cur, idx);
    Ranks(cur, cur);
    Ranks(cur, IndexR2V(cur, idx));
    Ranks(cur, IndexV2R(cur, idx));
  }

  // The absolute interval a byte stands for when t is the current absolute interval: the
  // only number congruent to it among the last 256.
  function Decode(t: int, b: nat): (a: int)
    ensures t - MAX_INTERVALS < a <= t && a % MAX_INTERVALS == b % MAX_INTERVALS
  {
    t - (t - b) % MAX_INTERVALS
  }

  lemma DecodeIsUnique(t: int, b: nat, a: int)
    requires t - MAX_INTERVALS < a <= t && a % MAX_INTERVALS == b % MAX_INTERVALS
    ensures Decode(t, b) == a
  {
  }

  // The rank of a byte is its distance from the far end of the window.
  lemma RankOfDecoded(t: nat, b: nat)
    requires b < MAX_INTERVALS
    ensures IndexR2V(t % MAX_INTERVALS, b) == Decode(t, b) - (t - (MAX_INTERVALS - 1))
  {
    hide IndexR2V;
    var q, c := t / MAX_INTERVALS, t % MAX_INTERVALS;
    assert t == MAX_INTERVALS * q + c;
    Ranks(c, b);
    if c >= b {
      DivModUnique(t - b, MAX_INTERVALS, q, c - b);
    } else {
      DivModUnique(t - b, MAX_INTERVALS, q - 1, c - b + MAX_INTERVALS);
    }
  }

  // ---------------------------------------------------------------- pruning

  predicate InRange(b: nat, start: nat, end: nat) {
    (end >= start && start <= b <= end) || (end < start && (b >= start || b <= end))
  }

  function Prune(m: Table, start: nat, end: nat): (r: Table)
  {
    map c | c in m && !InRange(m[c], start, end) :: m[c]
  }

  // Only the jump modulo 256 is expired.
  lemma PruneRangeInGeneral(t: nat, u: nat, b: nat)
    requires t < u && t % MAX_INTERVALS != u % MAX_INTERVALS && b < MAX_INTERVALS
    ensures InRange(b, (t + 1) % MAX_INTERVALS, u % MAX_INTERVALS) <==>
            Decode(t, b) <= t - MAX_INTERVALS + (u - t) % MAX_INTERVALS
  {
    hide InRange, Decode, IndexR2V;
    var c, e := t % MAX_INTERVALS, u % MAX_INTERVALS;
    RankOfDecoded(t, b);
    RangeInRanks(c, e, b);
    Differences(t, u);
  }

  lemma Differences(t: nat, u: nat)
    ensures var c, e := t % MAX_INTERVALS, u % MAX_INTERVALS;
            && (t + 1) % MAX_INTERVALS == (if c == MAX_INTERVALS - 1 then 0 else c + 1)
            && (u - t) % MAX_INTERVALS == (if e >= c then e - c else e - c + MAX_INTERVALS)
  {
    var q, c, p, e := t / MAX_INTERVALS, t % MAX_INTERVALS, u / MAX_INTERVALS, u % MAX_INTERVALS;
    assert t == MAX_INTERVALS * q + c && u == MAX_INTERVALS * p + e;
    if c == MAX_INTERVALS - 1 {
      DivModUnique(t + 1, MAX_INTERVALS, q + 1, 0);
    } else {
      DivModUnique(t + 1, MAX_INTERVALS, q, c + 1);
    }
    if e >= c {
      DivModUnique(u - t, MAX_INTERVALS, p - q, e - c);
    } else {
      DivModUnique(u - t, MAX_INTERVALS, p - q - 1, e - c + MAX_INTERVALS);
    }
  }

  // The bytes in the range are those of the lowest ranks.
  lemma RangeInRanks(c: nat, e: nat, b: nat)
    requires c < MAX_INTERVALS && e < MAX_INTERVALS && b < MAX_INTERVALS && c != e
    ensures InRange(b, if c == MAX_INTERVALS - 1 then 0 else c + 1, e) <==>
            IndexR2V(c, b) < (if e > c then e - c else e - c + MAX_INTERVALS)
  {
  }

  // When the clock moves forward by less than 256 intervals, the bytes in the pruned
  // range are exactly those whose interval leaves the window, and the others keep their
  // meaning.
  lemma PruneRangeIsExpiry(t: nat, u: nat, b: nat)
    requires t < u < t + MAX_INTERVALS && b < MAX_INTERVALS
    ensures InRange(b, (t + 1) % MAX_INTERVALS, u % MAX_INTERVALS) <==> Decode(t, b) <= u - MAX_INTERVALS
    ensures Decode(t, b) > u - MAX_INTERVALS ==> Decode(u, b) == Decode(t, b)
  {
    hide InRange, Decode;
    assert t % MAX_INTERVALS != u % MAX_INTERVALS && (u - t) % MAX_INTERVALS == u - t;
    PruneRangeInGeneral(t, u, b);
    if Decode(t, b) > u - MAX_INTERVALS { DecodeIsUnique(u, b, Decode(t, b)); }
  }

  // ---------------------------------------------------------------- the oldest interval

  // The smallest rank in a table, 255 when there is none below.
  ghost predicate IsOldestRank(m: Table, cur: nat, v: nat)
    requires cur < MAX_INTERVALS
  {
    && v < MAX_INTERVALS
    && (forall c | c in m :: v <= IndexR2V(cur, m[c]))
    && (v < MAX_INTERVALS - 1 ==> exists c | c in m :: IndexR2V(cur, m[c]) == v)
  }

  ghost predicate HasRank(m: Table, cur: nat, v: nat)
    requires cur < MAX_INTERVALS
  {
    exists c | c in m :: IndexR2V(cur, m[c]) == v
  }

  ghost function OldestRank(m: Table, cur: nat, from: nat): (v: nat)
    requires cur < MAX_INTERVALS && from < MAX_INTERVALS
    ensures v < MAX_INTERVALS
    decreases MAX_INTERVALS - from
  {
    if from == MAX_INTERVALS - 1 || HasRank(m, cur, from) then from else OldestRank(m, cur, from + 1)
  }

  // The byte prune_range returns: that of the oldest interval in the table it sweeps.
  ghost function OldestByte(m: Table, cur: nat): (b: nat)
    requires cur < MAX_INTERVALS
    ensures b < MAX_INTERVALS
  {
    IndexV2R(cur, OldestRank(m, cur, 0))
  }

  lemma {:induction false} OldestRankIs(m: Table, cur: nat, v: nat, from: nat)
    requires cur < MAX_INTERVALS && IsOldestRank(m, cur, v) && from <= v
    ensures OldestRank(m, cur, from) == v
    decreases v - from
  {
    hide IndexR2V;
    if HasRank(m, cur, from) {
      assert from == v;
    } else if from < MAX_INTERVALS - 1 {
      assert HasRank(m, cur, v) || v == MAX_INTERVALS - 1;
      OldestRankIs(m, cur, v, from + 1);
    }
  }

  lemma {:induction false} OldestRankIsOldest(m: Table, cur: nat, from: nat)
    requires cur < MAX_INTERVALS && from < MAX_INTERVALS
    requires forall c | c in m :: from <= IndexR2V(cur, m[c])
    ensures IsOldestRank(m, cur, OldestRank(m, cur, from))
    decreases MAX_INTERVALS - from
  {
    hide IndexR2V;
    if from < MAX_INTERVALS - 1 && !HasRank(m, cur, from) {
      OldestRankIsOldest(m, cur, from + 1);
    }
  }

  // In absolute intervals: no class is older, and in a table with classes one is as old.
  lemma OldestByteIsOldest(t: nat, m: Table)
    ensures var b := OldestByte(m, t % MAX_INTERVALS);
            && (forall c | c in m :: Decode(t, b) <= Decode(t, m[c]))
            && (m != map[] ==> exists c | c in m :: m[c] == b)
  {
    hide IndexR2V, IndexV2R, Decode, OldestRank;
    var cur := t % MAX_INTERVALS;
    var v := OldestRank(m, cur, 0);
    var b := OldestByte(m, cur);
    OldestRankIsOldest(m, cur, 0);
    RankRoundTrip(cur, v);
    RankOfDecoded(t, b);
    forall c | c in m
      ensures Decode(t, b) <= Decode(t, m[c]) && (IndexR2V(cur, m[c]) == v ==> m[c] == b)
    {
      RankOfDecoded(t, m[c]);
      RankRoundTrip(cur, m[c]);
    }
    if m != map[] {
      var c :| c in m;
      RankBound(cur, m[c]);
    }
  }

  lemma RankBound(cur: nat, b: nat)
    requires cur < MAX_INTERVALS && b < MAX_INTERVALS
    ensures IndexR2V(cur, b) <= MAX_INTERVALS - 1
  {
  }

  // ---------------------------------------------------------------- the filter on bytes

  // lru_interval: the oldest interval known, -1 when none is.
  type Lru = x: int | -1 <= x < MAX_INTERVALS witness -1

  datatype State = State(now: nat, table: Table, lru: Lru)

  // The expiry due to time of an add in interval a.
  ghost function AfterTime(s: State, a: nat): State {
    State(Clock(s.now, a), Timed(s.now, s.table, a),
          if Advances(s.now, a) && s.table != map[] then OldestByte(s.table, s.now % MAX_INTERVALS) else s.lru)
  }

  // The expiry due to capacity: at four fifths the oldest interval known goes, the one next
  // to come round when none is known, and the oldest found is remembered.
  ghost function AfterRoom(s: State, items: nat): State {
    if 10 * |s.table| < 8 * items then s
    else
      var cur := s.now % MAX_INTERVALS;
      var p := if s.lru == -1 then (cur + 1) % MAX_INTERVALS else s.lru;
      State(s.now, Prune(s.table, p, p), OldestByte(s.table, cur))
  }

  // Making room takes one interval out: the oldest one there can be when none is remembered,
  // and otherwise the one remembered.
  lemma RoomTakesOneInterval(s: State, items: nat, c: Class)
    requires 10 * |s.table| >= 8 * items && c in s.table
    ensures var r := AfterRoom(s, items);
            var gone := if s.lru == -1 then s.now - (MAX_INTERVALS - 1) else Decode(s.now, s.lru);
            && (c in r.table <==> Decode(s.now, s.table[c]) != gone)
            && (c in r.table ==> r.table[c] == s.table[c])
  {
    hide Decode, OldestByte;
    var cur := s.now % MAX_INTERVALS;
    var p := if s.lru == -1 then (cur + 1) % MAX_INTERVALS else s.lru;
    if s.lru == -1 {
      NextByte(s.now);
      DecodeIsUnique(s.now, p, s.now - (MAX_INTERVALS - 1));
    }
    DecodeTells(s.now, s.table[c], p);
  }

  lemma NextByte(t: nat)
    ensures (t % MAX_INTERVALS + 1) % MAX_INTERVALS % MAX_INTERVALS == (t - (MAX_INTERVALS - 1)) % MAX_INTERVALS
  {
    var q, r := t / MAX_INTERVALS, t % MAX_INTERVALS;
    assert t == MAX_INTERVALS * q + r;
    Reduced(r + 1);
    if r + 1 == MAX_INTERVALS {
      DivModUnique(t - (MAX_INTERVALS - 1), MAX_INTERVALS, q, 0);
    } else {
      DivModUnique(t - (MAX_INTERVALS - 1), MAX_INTERVALS, q - 1, r + 1);
    }
  }

  // Different bytes stand for different intervals.
  lemma DecodeTells(t: int, b: nat, d: nat)
    requires b < MAX_INTERVALS && d < MAX_INTERVALS
    ensures Decode(t, b) == Decode(t, d) <==> b == d
  {
    hide Decode;
    Reduced(b);
    Reduced(d);
    assert Decode(t, b) % MAX_INTERVALS == b % MAX_INTERVALS;
    assert Decode(t, d) % MAX_INTERVALS == d % MAX_INTERVALS;
  }

  // ---------------------------------------------------------------- the reference clock

  // A filter as the documentation describes it: the current absolute interval and, for
  // every class, the interval it was last added in.
  datatype Window = Window(now: nat, latest: map<Class, int>)

  function Meaning(t: nat, m: Table): (w: Window) {
    Window(t, map c | c in m :: Decode(t, m[c]))
  }

  function Later(x: int, y: int): int { if x > y then x else y }

  function Expire(latest: map<Class, int>, now: nat): map<Class, int> {
    map c | c in latest && latest[c] > now - MAX_INTERVALS :: latest[c]
  }

  // Adding class c in absolute interval a.
  function AddAt(w: Window, c: Class, a: int): Window {
    if a <= w.now - MAX_INTERVALS then w
    else
      var now := if a > w.now then a else w.now;
      var kept := Expire(w.latest, now);
      Window(now, kept[c := if c in kept then Later(kept[c], a) else a])
  }

  // ---------------------------------------------------------------- one add, on bytes

  // The clock of cf_add: it moves only to a later interval with a different byte.
  predicate Advances(t: nat, a: nat) {
    a > t && a % MAX_INTERVALS != t % MAX_INTERVALS
  }

  function Clock(t: nat, a: nat): nat {
    if Advances(t, a) then a else t
  }

  // What is left after the expiry due to time.
  function Timed(t: nat, m: Table, a: nat): Table {
    if Advances(t, a) then Prune(m, (t + 1) % MAX_INTERVALS, a % MAX_INTERVALS) else m
  }

  // The byte kept when a class is added again.
  function Newer(t: nat, b: nat, a: nat): (r: nat)
    requires b < MAX_INTERVALS
    ensures r < MAX_INTERVALS
  {
    if IndexR2V(t % MAX_INTERVALS, a % MAX_INTERVALS) > IndexR2V(t % MAX_INTERVALS, b)
    then a % MAX_INTERVALS else b
  }

  function Inserted(t: nat, m: Table, c: Class, a: nat): Table {
    m[c := if c in m then Newer(t, m[c], a) else a % MAX_INTERVALS]
  }

  // Expiry due to time is exact for jumps below 256 intervals.
  lemma TimedIsExpiry(t: nat, m: Table, a: nat)
    requires t - MAX_INTERVALS < a < t + MAX_INTERVALS
    ensures Meaning(Clock(t, a), Timed(t, m, a)) == Window(Clock(t, a), Expire(Meaning(t, m).latest, Clock(t, a)))
    ensures Clock(t, a) == (if a > t then a else t)
  {
    var u, r := Clock(t, a), Timed(t, m, a);
    assert a > t ==> a % MAX_INTERVALS != t % MAX_INTERVALS;
    forall c | c in m
      ensures c in r <==> Decode(t, m[c]) > u - MAX_INTERVALS
      ensures c in r ==> Decode(u, r[c]) == Decode(t, m[c])
    {
      if a > t { PruneRangeIsExpiry(t, a, m[c]); }
    }
    assert Meaning(u, r).latest == Expire(Meaning(t, m).latest, u);
  }

  // An add that neither jumps 256 intervals ahead nor meets a full filter does what the
  // reference does: expired classes go, the later of two adds counts, and every byte
  // decodes to its absolute interval.
  lemma AddIsExact(t: nat, m: Table, c: Class, a: nat)
    requires t - MAX_INTERVALS < a < t + MAX_INTERVALS
    ensures var r := Timed(t, m, a);
            Meaning(Clock(t, a), Inserted(Clock(t, a), r, c, a)) == AddAt(Meaning(t, m), c, a)
  {
    hide Timed, Clock, Newer, Decode, Expire, Meaning;
    var u: nat, r: Table := Clock(t, a), Timed(t, m, a);
    TimedIsExpiry(t, m, a);
    if c in r {
      NewerIsLater(u, r[c], a);
      MeaningUpdate(u, r, c, Newer(u, r[c], a));
    } else {
      DecodeIsUnique(u, a % MAX_INTERVALS, a);
      MeaningUpdate(u, r, c, a % MAX_INTERVALS);
    }
    MeaningAt(u, r, c);
    MeaningAt(t, m, c);
  }

  lemma MeaningAt(t: nat, m: Table, c: Class)
    ensures Meaning(t, m).now == t && (c in Meaning(t, m).latest <==> c in m)
    ensures c in m ==> Meaning(t, m).latest[c] == Decode(t, m[c])
  {
  }

  lemma MeaningUpdate(t: nat, m: Table, c: Class, b: nat)
    requires b < MAX_INTERVALS
    ensures Meaning(t, m[c := b]) == Window(t, Meaning(t, m).latest[c := Decode(t, b)])
  {
  }

  lemma NewerIsLater(t: nat, b: nat, a: nat)
    requires b < MAX_INTERVALS && t - MAX_INTERVALS < a <= t
    ensures Decode(t, Newer(t, b, a)) == Later(Decode(t, b), a)
  {
    DecodeIsUnique(t, a % MAX_INTERVALS, a);
    DeltaIsDistance(t, b, a);
  }

  // The reported distance of a duplicate is the distance between the two intervals.
  lemma DeltaIsDistance(t: nat, b: nat, a: nat)
    requires b < MAX_INTERVALS && t - MAX_INTERVALS < a <= t
    ensures IndexR2V(t % MAX_INTERVALS, a % MAX_INTERVALS) - IndexR2V(t % MAX_INTERVALS, b) == a - Decode(t, b)
  {
    DecodeIsUnique(t, a % MAX_INTERVALS, a);
    RankOfDecoded(t, b);
    RankOfDecoded(t, a % MAX_INTERVALS);
  }

  // The expiry due to time leaves exactly the classes of the last 256 intervals.
  ghost predicate IsExactExpiry(t: nat, m: Table, a: nat) {
    forall x | x in m :: x in Timed(t, m, a) <==> Decode(t, m[x]) > a - MAX_INTERVALS
  }

  // What is left of a class by a jump to a: nothing expires when the byte does not change,
  // otherwise the lowest (a - t) % 256 ranks do.
  lemma TimedInGeneral(t: nat, m: Table, a: nat, x: Class)
    requires t < a && x in m
    ensures x in Timed(t, m, a) <==>
            (a - t) % MAX_INTERVALS == 0 || Decode(t, m[x]) > t - MAX_INTERVALS + (a - t) % MAX_INTERVALS
  {
    hide InRange, Decode;
    SameByte(t, a);
    if Advances(t, a) { PruneRangeInGeneral(t, a, m[x]); }
  }

  lemma SameByte(t: nat, a: nat)
    requires t <= a
    ensures (a - t) % MAX_INTERVALS == 0 <==> a % MAX_INTERVALS == t % MAX_INTERVALS
  {
  }

  // When the clock moves forward, the expiry due to time is exact for a jump of fewer than
  // 256 intervals; for a longer one exactly when every class is old enough to be in the
  // range that the jump prunes, which is the jump modulo 256.
  lemma {:induction false} ExpiryIsExactIff(t: nat, m: Table, a: nat)
    requires t < a
    ensures IsExactExpiry(t, m, a) <==>
            a < t + MAX_INTERVALS ||
            forall x | x in m ::
              (a - t) % MAX_INTERVALS != 0 && Decode(t, m[x]) <= t - MAX_INTERVALS + (a - t) % MAX_INTERVALS
  {
    hide InRange, Decode, Timed;
    forall x | x in m
      ensures x in Timed(t, m, a) <==>
              (a - t) % MAX_INTERVALS == 0 || Decode(t, m[x]) > t - MAX_INTERVALS + (a - t) % MAX_INTERVALS
    {
      TimedInGeneral(t, m, a, x);
    }
    if a < t + MAX_INTERVALS {
      assert (a - t) % MAX_INTERVALS == a - t;
    } else {
      assert forall x | x in m :: Decode(t, m[x]) <= t <= a - MAX_INTERVALS;
    }
  }

  // As soon as some class is in the current interval, only jumps of fewer than 256
  // intervals are exact.
  lemma {:induction false} ExpiryIsExactForCurrent(t: nat, m: Table, a: nat, c: Class)
    requires t < a && c in m && Decode(t, m[c]) == t
    ensures IsExactExpiry(t, m, a) <==> a < t + MAX_INTERVALS
  {
    hide IsExactExpiry, Decode;
    ExpiryIsExactIff(t, m, a);
  }

  // A concrete run past the window: added in interval 1000, still there in interval 1257.
  lemma StaleAfterLongJump(c: Class)
    ensures var m := map[c := 1000 % MAX_INTERVALS];
            c in Timed(1000, m, 1257) && 1000 <= 1257 - MAX_INTERVALS
  {
    PruneRangeInGeneral(1000, 1257, 1000 % MAX_INTERVALS);
  }

  // ---------------------------------------------------------------- whole runs

  datatype Op = AddOp(c: Class, a: int) | QueryOp(c: Class) | DeleteOp(c: Class) | ClearOp

  const START: nat := MAX_INTERVALS - 1

  function After(w: Window, op: Op): Window {
    match op
    case AddOp(c, a) => AddAt(w, c, a)
    case QueryOp(c) => w
    case DeleteOp(c) => w.(latest := w.latest - {c})
    case ClearOp => Window(START, map[])
  }

  function Run(ops: seq<Op>): (w: Window) {
    if ops == [] then Window(START, map[])
    else After(Run(ops[..|ops| - 1]), ops[|ops| - 1])
  }

  // The latest interval class c was accepted in since it was last deleted or cleared.
  function LatestAdd(ops: seq<Op>, c: Class): (r: Option<int>) {
    if ops == [] then None
    else
      var before, op := ops[..|ops| - 1], ops[|ops| - 1];
      match op
      case ClearOp => None
      case QueryOp(x) => LatestAdd(before, c)
      case DeleteOp(x) => if x == c then None else LatestAdd(before, c)
      case AddOp(x, a) =>
        var r := LatestAdd(before, c);
        if x != c || a <= Run(before).now - MAX_INTERVALS then r
        else Some(if r.Some? && r.value > a then r.value else a)
  }

  // At every point of every run the reference holds exactly the undeleted classes whose
  // latest accepted add lies in the last 256 intervals, each with that interval.
  lemma {:induction false} HoldsTheLast256(ops: seq<Op>, c: Class)
    ensures var w, r := Run(ops), LatestAdd(ops, c);
            && (c in w.latest <==> r.Some? && r.value > w.now - MAX_INTERVALS)
            && (c in w.latest ==> w.latest[c] == r.value)
            && (r.Some? ==> r.value <= w.now)
    decreases |ops|
  {
    if ops != [] {
      var before := ops[..|ops| - 1];
      HoldsTheLast256(before, c);
    }
  }
}
