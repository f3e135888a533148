// The expiring cuckoo filter (cuckoo_filter/cuckoo_filter_expire.c): the table of the
// plain filter with a circular interval byte beside every fingerprint.

module CuckooExpire {
  import opened Bits
  import opened Common
  import opened CTime
  import opened CuckooCommon
  import opened CuckooExpireSpec

  // A fingerprint, 0 when the slot is empty, and its interval.
  datatype Slot = Slot(fp: nat, interval: nat)

  datatype Outcome = Rejected | Added | Duplicate(delta: nat) | Full

  // fingerprint32: the top 32 bits of the hash, never the empty marker 0.
  function Fingerprint32(h: u64): (fp: nat)
    ensures 0 < fp < U32
  {
    var t := h / U32;
    if t != 0 then t else 1
  }

  // Fingerprints tell hashes apart by their top 32 bits, except that 0 counts as 1.
  lemma Fingerprint32Iff(g: u64, h: u64)
    ensures var p, q := g / U32, h / U32;
            Fingerprint32(g) == Fingerprint32(h) <==> p == q || (p <= 1 && q <= 1)
  {
  }

  class ExpiringFilter {
    const hash: seq<byte> -> u64
    const fpHash: nat -> u64
    const items: nat
    const numBuckets: nat
    const nlz: nat
    const intervalSize: nat
    const buckets: array2<Slot>
    var cnt: nat
    var timet: nat
    var interval: nat
    var lruInterval: Lru
    ghost const k: nat
    // The slot of every class in the filter.
    ghost var where: map<Class, (nat, nat)>
    // The interval byte of every class in the filter.
    ghost var stored: Table
    // The current absolute interval.
    ghost var now: nat

    // ------------------------------------------------------------ the abstract view

    ghost predicate Shape() {
      && 1 <= k <= 30 && numBuckets == Pow2(k) && nlz == 32 - k && items == numBuckets * BUCKET_SIZE
      && buckets.Length0 == numBuckets && buckets.Length1 == BUCKET_SIZE && intervalSize > 0
    }

    ghost predicate InTable(s: (nat, nat)) {
      s.0 < buckets.Length0 && s.1 < buckets.Length1
    }

    // The other bucket a fingerprint can live in.
    function Alt(b: nat, fp: nat): nat {
      OtherBucket(b, fpHash(fp), nlz + 32)
    }

    ghost function ClassOf(b: nat, fp: nat): Class {
      Class(fp, {b, Alt(b, fp)})
    }

    ghost function KeyClass(key: seq<byte>): Class
      requires numBuckets > 0
    {
      ClassOf(hash(key) % numBuckets, Fingerprint32(hash(key)))
    }

    ghost predicate Placed()
      reads this`where, this`stored, buckets
    {
      stored.Keys == where.Keys && InSlots()
    }

    // Every occupied slot holds its own class, and every class in the filter has a slot,
    // with its interval beside it.
    ghost predicate InSlots()
      reads this`where, this`stored, buckets
    {
      SlotsHold() && ClassesAreHeld()
    }

    ghost predicate SlotsHold()
      reads this`where, buckets
    {
      forall b, i | 0 <= b < buckets.Length0 && 0 <= i < buckets.Length1 ::
        && buckets[b, i].fp < U32 && buckets[b, i].interval < MAX_INTERVALS
        && (buckets[b, i].fp != 0 ==>
              ClassOf(b, buckets[b, i].fp) in where && where[ClassOf(b, buckets[b, i].fp)] == (b, i))
    }

    ghost predicate ClassesAreHeld()
      reads this`where, this`stored, buckets
    {
      forall c | c in where ::
        && InTable(where[c]) && buckets[where[c].0, where[c].1].fp != 0
        && ClassOf(where[c].0, buckets[where[c].0, where[c].1].fp) == c
        && c in stored && stored[c] == buckets[where[c].0, where[c].1].interval
    }

    ghost predicate Valid()
      reads this, buckets
    {
      && Shape() && Placed() && cnt == |where|
      && now >= MAX_INTERVALS - 1 && timet == now * intervalSize && interval == now % MAX_INTERVALS
    }

    ghost function Machine(): State
      reads this
    {
      State(now, stored, lruInterval)
    }

    // The filter in absolute intervals.
    ghost function View(): Window
      reads this, buckets
    {
      Meaning(now, stored)
    }

    lemma AltBucket(b: nat, fp: nat)
      requires Shape() && b < numBuckets && fp < U32
      ensures var a := Alt(b, fp);
              a < numBuckets && Alt(a, fp) == b && ClassOf(a, fp) == ClassOf(b, fp)
    {
      OtherBucketIsInvolution(k, b, fpHash(fp));
    }

    lemma InFilter(i1: nat, i2: nat, fp: nat)
      requires Shape() && Placed() && 0 < fp < U32
      requires i1 < numBuckets && i2 == Alt(i1, fp)
      ensures i2 < numBuckets
      ensures ClassOf(i1, fp) in where <==>
              exists i | 0 <= i < BUCKET_SIZE :: buckets[i1, i].fp == fp || buckets[i2, i].fp == fp
    {
      AltBucket(i1, fp);
      var c := ClassOf(i1, fp);
      if c in where {
        var (b, i) := where[c];
        assert b in c.pair;
        assert buckets[b, i].fp == fp;
      }
    }

    // Two keys are one class exactly when their fingerprints are equal and the first bucket
    // of one is the first or the other bucket of the other.
    lemma SameClassIff(a: seq<byte>, b: seq<byte>)
      requires Shape()
      ensures KeyClass(a) == KeyClass(b) <==>
                var p, q := hash(a) % numBuckets, hash(b) % numBuckets;
                Fingerprint32(hash(a)) == Fingerprint32(hash(b)) && (p == q || p == Alt(q, Fingerprint32(hash(b))))
    {
      hide ExpiringFilter.Alt, Fingerprint32, Pow2;
      var p, q, fp := hash(a) % numBuckets, hash(b) % numBuckets, Fingerprint32(hash(b));
      AltBucket(p, fp);
      AltBucket(q, fp);
      assert p in KeyClass(a).pair && KeyClass(b).pair == {q, Alt(q, fp)};
      assert p == Alt(q, fp) ==> {p, Alt(p, fp)} == {q, Alt(q, fp)};
    }

    // An empty filter is never full.
    lemma NoneCrowded(key: seq<byte>)
      requires numBuckets > 0
      ensures !Crowded({}, KeyClass(key))
    {
      assert Neighbours({}, KeyClass(key)) == {};
      assert hash(key) % numBuckets in KeyClass(key).pair;
    }

    ghost predicate IsFullBucket(b: nat)
      reads buckets
    {
      b < buckets.Length0 && BUCKET_SIZE <= buckets.Length1 && forall i | 0 <= i < BUCKET_SIZE :: buckets[b, i].fp != 0
    }

    // Two full buckets hold as many classes as they have slots.
    lemma FullBuckets(i1: nat, i2: nat, fp: nat)
      requires Shape() && Placed() && i2 == Alt(i1, fp) && IsFullBucket(i1) && IsFullBucket(i2)
      ensures Crowded(stored.Keys, ClassOf(i1, fp))
    {
      var at := map b, i | 0 <= b < buckets.Length0 && 0 <= i < buckets.Length1 && buckets[b, i].fp != 0 ::
                  (b, i) := ClassOf(b, buckets[b, i].fp);
      forall x, y | x in at && y in at && at[x] == at[y] ensures x == y {
        assert where[at[x]] == x && where[at[y]] == y;
      }
      FullIsCrowded(at, stored.Keys, ClassOf(i1, fp), i1, i2);
    }

    // ------------------------------------------------------------ one bucket

    method BucketLookup(b: nat, fp: nat) returns (found: bool, iv: nat)
      requires Shape() && Placed() && b < numBuckets && 0 < fp < U32
      ensures found <==> exists i | 0 <= i < BUCKET_SIZE :: buckets[b, i].fp == fp
      ensures found ==> ClassOf(b, fp) in where && iv == stored[ClassOf(b, fp)]
    {
      for i := 0 to BUCKET_SIZE
        invariant forall j | 0 <= j < i :: buckets[b, j].fp != fp
      {
        if buckets[b, i].fp == fp { return true, buckets[b, i].interval; }
      }
      return false, 0;
    }

    // Give the class in a slot another interval.
    method Restamp(b: nat, i: nat, iv: nat)
      requires Shape() && Placed() && b < numBuckets && i < BUCKET_SIZE && buckets[b, i].fp != 0 && iv < MAX_INTERVALS
      modifies this`stored, buckets
      ensures Placed()
      ensures stored == old(stored)[old(ClassOf(b, buckets[b, i].fp)) := iv]
      ensures forall b', j | 0 <= b' < numBuckets && 0 <= j < BUCKET_SIZE ::
                buckets[b', j].fp == old(buckets[b', j].fp)
    {
      hide ExpiringFilter.Alt, ExpiringFilter.ClassOf, Pow2;
      stored := stored[ClassOf(b, buckets[b, i].fp) := iv];
      buckets[b, i] := buckets[b, i].(interval := iv);
    }

    lemma SlotHolds(b: nat, i: nat)
      requires Shape() && Placed() && b < numBuckets && i < BUCKET_SIZE && buckets[b, i].fp != 0
      ensures var c := ClassOf(b, buckets[b, i].fp);
              c in where && c in stored && stored[c] == buckets[b, i].interval < MAX_INTERVALS
    {
    }

    // bucket_insert_lookup: a class that is already there keeps the later interval.
    method BucketInsertLookup(b: nat, fp: nat, iv: nat) returns (found: bool, delta: nat)
      requires Shape() && Placed() && b < numBuckets && 0 < fp < U32 && iv < MAX_INTERVALS && interval < MAX_INTERVALS
      modifies this`stored, buckets
      ensures Placed()
      ensures found <==> exists i | 0 <= i < BUCKET_SIZE :: buckets[b, i].fp == fp
      ensures forall b', i | 0 <= b' < numBuckets && 0 <= i < BUCKET_SIZE ::
                buckets[b', i].fp == old(buckets[b', i].fp)
      ensures !found ==> stored == old(stored)
      ensures found ==>
                var c, m := ClassOf(b, fp), old(stored);
                && c in where
                && stored == m[c := if IndexR2V(interval, iv) > IndexR2V(interval, m[c]) then iv else m[c]]
                && (delta == IndexR2V(interval, iv) - IndexR2V(interval, m[c]) ||
                    delta == IndexR2V(interval, m[c]) - IndexR2V(interval, iv))
    {
      hide ExpiringFilter.InSlots, ExpiringFilter.ClassOf, Pow2, IndexR2V;
      for i := 0 to BUCKET_SIZE
        invariant forall j | 0 <= j < i :: buckets[b, j].fp != fp
        invariant Placed() && stored == old(stored)
        invariant forall b', j | 0 <= b' < numBuckets && 0 <= j < BUCKET_SIZE ::
                    buckets[b', j].fp == old(buckets[b', j].fp)
      {
        if buckets[b, i].fp == fp {
          SlotHolds(b, i);
          var cidx, pidx := IndexR2V(interval, iv), IndexR2V(interval, buckets[b, i].interval);
          if cidx > pidx {
            Restamp(b, i, iv);
            delta := cidx - pidx;
          } else {
            delta := pidx - cidx;
          }
          return true, delta;
        }
      }
      return false, 0;
    }

    // bucket_delete, with its class leaving the view.
    method Vacate(b: nat, fp: nat) returns (deleted: bool)
      requires Shape() && Placed() && b < numBuckets && 0 < fp < U32
      modifies this`where, this`stored, buckets
      ensures Placed()
      ensures deleted <==> exists i | 0 <= i < BUCKET_SIZE :: old(buckets[b, i].fp) == fp
      ensures deleted ==> ClassOf(b, fp) in old(where) && where == old(where) - {ClassOf(b, fp)}
      ensures deleted ==> stored == old(stored) - {ClassOf(b, fp)}
      ensures !deleted ==> where == old(where) && stored == old(stored)
      ensures !deleted ==> forall b', i | 0 <= b' < numBuckets && 0 <= i < BUCKET_SIZE ::
                             buckets[b', i].fp == old(buckets[b', i].fp)
    {
      hide ExpiringFilter.InSlots, ExpiringFilter.ClassOf, Pow2;
      for i := 0 to BUCKET_SIZE
        invariant forall j | 0 <= j < i :: buckets[b, j].fp != fp
        invariant Placed() && where == old(where) && stored == old(stored)
        invariant forall b', j | 0 <= b' < numBuckets && 0 <= j < BUCKET_SIZE ::
                    buckets[b', j].fp == old(buckets[b', j].fp)
      {
        if buckets[b, i].fp == fp {
          ClearSlot(b, i);
          return true;
        }
      }
      return false;
    }

    // Empty one occupied slot.
    method ClearSlot(b: nat, i: nat)
      requires Shape() && Placed() && b < numBuckets && i < BUCKET_SIZE && buckets[b, i].fp != 0
      modifies this`where, this`stored, buckets
      ensures Placed()
      ensures var c := old(ClassOf(b, buckets[b, i].fp));
              && c in old(where) && where == old(where) - {c} && stored == old(stored) - {c}
              && |where| == old(|where|) - 1
      ensures forall b', j | 0 <= b' < numBuckets && 0 <= j < BUCKET_SIZE && (b', j) != (b, i) ::
                buckets[b', j].fp == old(buckets[b', j].fp) && buckets[b', j].interval == old(buckets[b', j].interval)
      ensures buckets[b, i].fp == 0
    {
      hide ExpiringFilter.Alt, ExpiringFilter.ClassOf, Pow2;
      ghost var c := ClassOf(b, buckets[b, i].fp);
      buckets[b, i] := Slot(0, 0);
      where, stored := where - {c}, stored - {c};
    }

    // bucket_add, with the class entering the view.
    method Settle(b: nat, fp: nat, iv: nat) returns (added: bool)
      requires Shape() && Placed() && b < numBuckets && 0 < fp < U32 && iv < MAX_INTERVALS
      requires ClassOf(b, fp) !in where
      modifies this`where, this`stored, buckets
      ensures Placed()
      ensures !added ==> where == old(where) && stored == old(stored)
      ensures !added ==> IsFullBucket(b)
      ensures !added ==> forall b', i | 0 <= b' < numBuckets && 0 <= i < BUCKET_SIZE ::
                           buckets[b', i].fp == old(buckets[b', i].fp)
      ensures added ==> stored == old(stored)[ClassOf(b, fp) := iv]
    {
      hide ExpiringFilter.InSlots, ExpiringFilter.ClassOf, Pow2;
      for i := 0 to BUCKET_SIZE
        invariant forall j | 0 <= j < i :: buckets[b, j].fp != 0
        invariant Placed() && where == old(where) && stored == old(stored)
        invariant forall b', j | 0 <= b' < numBuckets && 0 <= j < BUCKET_SIZE ::
                    buckets[b', j].fp == old(buckets[b', j].fp)
      {
        if buckets[b, i].fp == 0 {
          Write(b, i, fp, iv);
          return true;
        }
      }
      return false;
    }

    // Fill an empty slot with a class that is not in the filter.
    method Write(b: nat, i: nat, fp: nat, iv: nat)
      requires Shape() && Placed() && b < numBuckets && i < BUCKET_SIZE && 0 < fp < U32 && iv < MAX_INTERVALS
      requires ClassOf(b, fp) !in where && buckets[b, i].fp == 0
      modifies this`where, this`stored, buckets
      ensures Placed()
      ensures stored == old(stored)[ClassOf(b, fp) := iv]
      ensures forall b', j | 0 <= b' < numBuckets && 0 <= j < BUCKET_SIZE && (b', j) != (b, i) ::
                buckets[b', j].fp == old(buckets[b', j].fp)
      ensures buckets[b, i].fp != 0
    {
      hide ExpiringFilter.Alt, ExpiringFilter.ClassOf, Pow2;
      ghost var c := ClassOf(b, fp);
      where, stored := where[c := (b, i)], stored[c := iv];
      buckets[b, i] := Slot(fp, iv);
    }

    // Exchange the class in hand for the one in an occupied slot.
    method Evict(b: nat, i: nat, fp: nat, iv: nat) returns (victim: nat, victimInterval: nat)
      requires Shape() && Placed() && b < numBuckets && i < BUCKET_SIZE && 0 < fp < U32 && iv < MAX_INTERVALS
      requires ClassOf(b, fp) !in where && buckets[b, i].fp != 0
      modifies this`where, this`stored, buckets
      ensures Placed() && 0 < victim < U32 && victimInterval < MAX_INTERVALS
      ensures var v := ClassOf(b, victim);
              && v in old(where) && v !in where && victimInterval == old(stored)[v]
              && stored == (old(stored) - {v})[ClassOf(b, fp) := iv]
    {
      victim, victimInterval := buckets[b, i].fp, buckets[b, i].interval;
      ClearSlot(b, i);
      Write(b, i, fp, iv);
    }

    lemma NotStored(b: nat, fp: nat)
      requires Shape() && Placed() && b < numBuckets && 0 < fp < U32
      requires ClassOf(b, fp) !in where
      ensures forall i | 0 <= i < BUCKET_SIZE :: buckets[b, i].fp != fp
    {
    }

    // ------------------------------------------------------------ insertion

    // The kick loop of bucket_insert.  Class and interval travel together; the lookup that
    // would find a duplicate never does.
    method Relocate(start: nat, fp0: nat, iv0: nat, rnd: nat -> nat) returns (full: bool, ghost lost: Class)
      requires Shape() && Placed() && start < numBuckets && 0 < fp0 < U32 && iv0 < MAX_INTERVALS
      requires ClassOf(start, fp0) !in where && interval < MAX_INTERVALS
      requires forall j | 0 <= j < BUCKET_SIZE :: buckets[start, j].fp != 0
      modifies this`where, this`stored, buckets
      ensures Placed()
      ensures var after := old(stored)[ClassOf(start, fp0) := iv0];
              && (!full ==> stored == after)
              && (full ==> lost in after && stored == after - {lost})
    {
      hide ExpiringFilter.InSlots, ExpiringFilter.ClassOf, ExpiringFilter.Alt, Pow2, IndexR2V;
      var fp: nat, iv: nat, ri: nat := fp0, iv0, start;
      ghost var after := stored[ClassOf(ri, fp) := iv];
      lost := ClassOf(ri, fp);
      for i := 0 to MAX_KICKS
        invariant Placed() && ri < numBuckets && 0 < fp < U32 && iv < MAX_INTERVALS
        invariant forall j | 0 <= j < BUCKET_SIZE :: buckets[ri, j].fp != 0
        invariant lost == ClassOf(ri, fp) && lost !in where
        invariant stored[lost := iv] == after
      {
        var added;
        fp, iv, ri, added := Kick(ri, fp, iv, rnd(i + 1) % BUCKET_SIZE, after);
        lost := ClassOf(ri, fp);
        if added { return false, lost; }
      }
      assert after - {lost} == stored;
      return true, lost;
    }

    // One turn of the kick loop: the class in hand goes into a slot of bucket ri, and the
    // one found there into its other bucket if that has room.
    method Kick(ri: nat, fp: nat, iv: nat, entry: nat, ghost after: Table)
      returns (fp': nat, iv': nat, ri': nat, added: bool)
      requires Shape() && Placed() && ri < numBuckets && 0 < fp < U32 && iv < MAX_INTERVALS && entry < BUCKET_SIZE
      requires IsFullBucket(ri) && ClassOf(ri, fp) !in where && interval < MAX_INTERVALS
      requires stored[ClassOf(ri, fp) := iv] == after
      modifies this`where, this`stored, buckets
      ensures Placed() && ri' < numBuckets && 0 < fp' < U32 && iv' < MAX_INTERVALS
      ensures added ==> stored == after
      ensures !added ==> IsFullBucket(ri') && ClassOf(ri', fp') !in where && stored[ClassOf(ri', fp') := iv'] == after
    {
      hide ExpiringFilter.InSlots, ExpiringFilter.ClassOf, ExpiringFilter.Alt, Pow2, IndexR2V;
      ghost var m, hand := stored, ClassOf(ri, fp);
      fp', iv' := Evict(ri, entry, fp, iv);
      Exchange(m, hand, iv, ClassOf(ri, fp'), after);
      AltBucket(ri, fp');
      ri' := Alt(ri, fp');
      NotStored(ri', fp');
      var found, delta := BucketInsertLookup(ri', fp', iv');
      if found { assert false; }
      added := Settle(ri', fp', iv');
    }

    method BucketInsert(i1: nat, i2: nat, fp: nat, iv: nat, rnd: nat -> nat)
      returns (res: Outcome, ghost lost: Class)
      requires Shape() && Placed() && i1 < numBuckets && 0 < fp < U32 && iv < MAX_INTERVALS
      requires interval < MAX_INTERVALS && i2 == Alt(i1, fp)
      modifies this`where, this`stored, buckets
      ensures Placed() && res != Rejected
      ensures InsertedInto(old(stored), stored, interval, ClassOf(i1, fp), iv, res, lost)
    {
      hide ExpiringFilter.InSlots, ExpiringFilter.ClassOf, ExpiringFilter.Alt, IndexR2V, Crowded;
      lost := ClassOf(i1, fp);
      InFilter(i1, i2, fp);
      AltBucket(i1, fp);
      var found, delta := BucketInsertLookup(i1, fp, iv);
      if found { return Duplicate(delta), lost; }
      found, delta := BucketInsertLookup(i2, fp, iv);
      if found { return Duplicate(delta), lost; }
      var added := Settle(i1, fp, iv);
      if added { return Added, lost; }
      added := Settle(i2, fp, iv);
      if added { return Added, lost; }
      FullBuckets(i1, i2, fp);
      var full;
      full, lost := Relocate(if rnd(0) % 2 == 1 then i1 else i2, fp, iv, rnd);
      res := if full then Full else Added;
    }

    // ------------------------------------------------------------ pruning

    // One slot of the sweep: slots maps the classes of the original table m to their slots.
    method PruneSlot(i: nat, j: nat, start: nat, end: nat, rank: nat, ghost m: Table, ghost slots: Slots)
      returns (rank': nat)
      requires Valid() && i < numBuckets && j < BUCKET_SIZE && rank < MAX_INTERVALS
      requires Swept(m, slots, where, stored, start, end, i, j) && Ranked(m, slots, interval, rank, i, j)
      modifies this`where, this`stored, this`cnt, buckets
      ensures Valid() && rank' < MAX_INTERVALS
      ensures Swept(m, slots, where, stored, start, end, i, j + 1) && Ranked(m, slots, interval, rank', i, j + 1)
    {
      hide IndexR2V, InRange, ExpiringFilter.Alt, Pow2, Swept, Ranked, ExpiringFilter.InSlots;
      rank' := rank;
      if buckets[i, j].fp != 0 {
        ghost var c := AtSlot(i, j);
        SlotNotSwept(m, slots, where, stored, start, end, i, j, c);
        SweptNext(m, slots, where, stored, start, end, i, j, c);
        RankedNext(m, slots, interval, rank, i, j, c);
        var iv := buckets[i, j].interval;
        if InRange(iv, start, end) {
          assert |where| > 0;
          ClearSlot(i, j);
          cnt := cnt - 1;
        }
        var vidx := IndexR2V(interval, iv);
        if vidx < rank { rank' := vidx; }
      } else {
        NothingAt(i, j);
        SweptSkip(m, slots, where, stored, interval, start, end, rank, i, j);
      }
    }

    lemma AtSlot(i: nat, j: nat) returns (c: Class)
      requires Shape() && Placed() && i < numBuckets && j < BUCKET_SIZE && buckets[i, j].fp != 0
      ensures buckets[i, j].fp < U32 && c == ClassOf(i, buckets[i, j].fp)
      ensures c in where && where[c] == (i, j) && stored[c] == buckets[i, j].interval < MAX_INTERVALS
    {
      c := ClassOf(i, buckets[i, j].fp);
    }

    lemma NothingAt(i: nat, j: nat)
      requires Shape() && Placed() && i < numBuckets && j < BUCKET_SIZE && buckets[i, j].fp == 0
      ensures forall c | c in where :: where[c] != (i, j)
    {
    }

    method PruneBucket(i: nat, start: nat, end: nat, rank: nat, ghost m: Table, ghost slots: Slots)
      returns (rank': nat)
      requires Valid() && i < numBuckets && rank < MAX_INTERVALS
      requires Swept(m, slots, where, stored, start, end, i, 0) && Ranked(m, slots, interval, rank, i, 0)
      modifies this`where, this`stored, this`cnt, buckets
      ensures Valid() && rank' < MAX_INTERVALS
      ensures Swept(m, slots, where, stored, start, end, i + 1, 0) && Ranked(m, slots, interval, rank', i + 1, 0)
    {
      hide ExpiringFilter.Valid, Swept, Ranked;
      rank' := rank;
      for j := 0 to BUCKET_SIZE
        invariant Valid() && rank' < MAX_INTERVALS
        invariant Swept(m, slots, where, stored, start, end, i, j) && Ranked(m, slots, interval, rank', i, j)
      {
        rank' := PruneSlot(i, j, start, end, rank', m, slots);
      }
      SweepRow(m, slots, where, stored, interval, start, end, rank', i);
    }

    // prune_range: the classes in the range leave; the result is the oldest interval the
    // table held before.
    method PruneRange(start: nat, end: nat) returns (lru: nat)
      requires Valid() && start < MAX_INTERVALS && end < MAX_INTERVALS
      modifies this`where, this`stored, this`cnt, buckets
      ensures Valid() && stored == Prune(old(stored), start, end)
      ensures lru == OldestByte(old(stored), interval)
    {
      hide ExpiringFilter.InSlots, Swept, Ranked, IndexR2V, IndexV2R, Prune, IsOldestRank, OneEach, Pow2, OldestRank;
      ghost var m, slots := stored, where;
      SlotsInTable();
      SweepStart(m, slots, interval, start, end);
      var lruVidx := Sweep(start, end, m, slots);
      SweepEnd(m, slots, where, stored, interval, start, end, lruVidx, numBuckets);
      OldestRankIs(m, interval, lruVidx, 0);
      lru := IndexV2R(interval, lruVidx);
    }

    // The loop of prune_range.
    method Sweep(start: nat, end: nat, ghost m: Table, ghost slots: Slots) returns (lruVidx: nat)
      requires Valid()
      requires Swept(m, slots, where, stored, start, end, 0, 0) && Ranked(m, slots, interval, MAX_INTERVALS - 1, 0, 0)
      modifies this`where, this`stored, this`cnt, buckets
      ensures Valid() && lruVidx < MAX_INTERVALS
      ensures Swept(m, slots, where, stored, start, end, numBuckets, 0)
              && Ranked(m, slots, interval, lruVidx, numBuckets, 0)
    {
      hide ExpiringFilter.Valid, Swept, Ranked;
      lruVidx := MAX_INTERVALS - 1;
      for i := 0 to numBuckets
        invariant Valid() && lruVidx < MAX_INTERVALS
        invariant Swept(m, slots, where, stored, start, end, i, 0) && Ranked(m, slots, interval, lruVidx, i, 0)
      {
        lruVidx := PruneBucket(i, start, end, lruVidx, m, slots);
      }
    }

    lemma SlotsInTable()
      requires Shape() && Placed()
      ensures forall c | c in where :: where[c].0 < numBuckets && where[c].1 < BUCKET_SIZE
      ensures OneEach(where)
    {
    }

    // ------------------------------------------------------------ operations

    method Wipe()
      modifies buckets
      ensures forall b, i | 0 <= b < buckets.Length0 && 0 <= i < buckets.Length1 :: buckets[b, i] == Slot(0, 0)
    {
      forall b, i | 0 <= b < buckets.Length0 && 0 <= i < buckets.Length1 {
        buckets[b, i] := Slot(0, 0);
      }
    }

    // clear
    method Clear()
      requires Shape() && Placed()
      modifies this`cnt, this`timet, this`interval, this`lruInterval, this`where, this`stored, this`now, buckets
      ensures Valid() && Machine() == CLEARED
    {
      hide ExpiringFilter.InSlots, Pow2;
      interval := MAX_INTERVALS - 1;
      lruInterval := -1;
      cnt := 0;
      timet := (MAX_INTERVALS - 1) * intervalSize;
      Wipe();
      where, stored, now := map[], map[], MAX_INTERVALS - 1;
      NothingPlaced();
    }

    lemma NothingPlaced()
      requires where == map[] && stored == map[]
      requires forall b, i | 0 <= b < buckets.Length0 && 0 <= i < buckets.Length1 :: buckets[b, i] == Slot(0, 0)
      ensures Placed()
    {
    }

    // cf_new
    constructor (requested: nat, mins: nat, h: seq<byte> -> u64, g: nat -> u64)
      requires MAX_INTERVALS < requested < 0x8000_0000 && 0 < mins <= 1440
      ensures Valid() && Machine() == CLEARED && hash == h && fpHash == g && intervalSize == 60 * mins
      ensures Sized(requested, k, nlz) && fresh(buckets)
    {
      hide Pow2, IsLeastPower;
      PowersOfTwo();
      var n := Clp2(requested / BUCKET_SIZE);
      ghost var l: nat :| l < 32 && n == Pow2(l) && IsLeastPower(requested / BUCKET_SIZE, l);
      SmallExponent(requested, l);
      PowMonotone(l, 31);
      var z := Nlz(n);
      ExponentOfNlz(l, z);
      hash, fpHash, numBuckets, items, nlz := h, g, n, n * BUCKET_SIZE, z + 1;
      intervalSize := 60 * mins;
      buckets := new Slot[n, BUCKET_SIZE]((i, j) => Slot(0, 0));
      k, where, stored := l, map[], map[];
      timet, interval, cnt, lruInterval, now := 0, 0, 0, 0, 0;
      new;
      Clear();
    }

    // The expiry due to time at the head of cf_add.
    method MoveClock(t: nat, iv: nat, ghost a: nat)
      requires Valid() && Advances(now, a) && t == a * intervalSize && iv == a % MAX_INTERVALS
      modifies this`cnt, this`timet, this`interval, this`lruInterval, this`where, this`stored, this`now, buckets
      ensures Valid() && Machine() == AfterTime(old(Machine()), a)
    {
      hide ExpiringFilter.Placed, IndexR2V, InRange, Prune, Pow2, Timed, OldestByte;
      var oldest := (interval + 1) % MAX_INTERVALS;
      ExpiryOfJump(now, a);
      StoredIsCounted();
      if cnt > 0 {
        lruInterval := PruneRange(oldest, iv);
      } else {
        NothingTimed(now, a);
      }
      interval := iv;
      timet := t;
      now := a;
    }

    lemma ExpiryOfJump(t: nat, a: nat)
      requires Advances(t, a)
      ensures (t % MAX_INTERVALS + 1) % MAX_INTERVALS == (t + 1) % MAX_INTERVALS
      ensures forall m: Table :: Timed(t, m, a) == Prune(m, (t + 1) % MAX_INTERVALS, a % MAX_INTERVALS)
    {
      hide Prune;
    }

    lemma StoredIsCounted()
      requires Valid()
      ensures cnt == |stored| && (cnt > 0 <==> stored != map[])
    {
      KeysCount(stored);
      KeysCount(where);
    }

    lemma NothingTimed(t: nat, a: nat)
      ensures Timed(t, map[], a) == map[]
    {
    }

    // The head of cf_add: refuse times before the window, move the clock for later ones.
    method Admit(ns: real) returns (ok: bool, iv: nat)
      requires Valid()
      modifies this`cnt, this`timet, this`interval, this`lruInterval, this`where, this`stored, this`now, buckets
      ensures Valid()
      ensures var a := Interval(ns, intervalSize);
              && (ok <==> a > old(now) - MAX_INTERVALS)
              && (!ok ==> Machine() == old(Machine()) && cnt == old(cnt))
              && (ok ==> a >= 0 && iv == a % MAX_INTERVALS && Machine() == AfterTime(old(Machine()), a))
    {
      hide ExpiringFilter.InSlots, Pow2, Prune, InRange, CDiv, CMod, Seconds, Interval, OldestByte;
      ghost var a := Interval(ns, intervalSize);
      var t := Seconds(ns);
      StartOfInterval(t, intervalSize);
      IntervalIs(ns, intervalSize);
      t := t - CMod(t, intervalSize);
      TimeOrder(t, timet, a, now, intervalSize);
      if t < timet - intervalSize * (MAX_INTERVALS - 1) {
        return false, 0;
      }
      IntervalByte(a);
      iv := CMod(CDiv(t, intervalSize), MAX_INTERVALS);
      if interval != iv && t > timet {
        MoveClock(t, iv, a);
      }
      ok := true;
    }

    // The expiry due to capacity: at 80% the oldest known interval goes.
    method MakeRoom()
      requires Valid()
      modifies this`cnt, this`lruInterval, this`where, this`stored, buckets
      ensures Valid() && Machine() == AfterRoom(old(Machine()), items)
    {
      hide ExpiringFilter.Placed, Pow2, Prune, InRange, OldestByte, IndexR2V;
      StoredIsCounted();
      if 10 * cnt >= 8 * items {
        if lruInterval == -1 {
          lruInterval := (interval + 1) % MAX_INTERVALS;
        }
        lruInterval := PruneRange(lruInterval, lruInterval);
      }
    }

    // cf_add.  Clock, table and oldest interval are those after the expiry due to time and
    // due to capacity; the class then goes into that table.
    method Add(key: seq<byte>, ns: real, rnd: nat -> nat) returns (res: Outcome, ghost lost: Class)
      requires Valid()
      modifies this`cnt, this`timet, this`interval, this`lruInterval, this`where, this`stored, this`now, buckets
      ensures Valid()
      ensures IsAdd(old(Machine()), KeyClass(key), Interval(ns, intervalSize), items, res, lost, Machine())
    {
      hide ExpiringFilter.InSlots, ExpiringFilter.Alt, Pow2, IndexR2V, InsertedInto, AfterTime, AfterRoom, Interval;
      lost := KeyClass(key);
      var ok, iv := Admit(ns);
      if !ok { return Rejected, lost; }
      MakeRoom();
      SameClock(old(Machine()), Interval(ns, intervalSize), items);
      res, lost := Enter(key, iv, rnd);
    }

    // The second half of cf_add.
    method Enter(key: seq<byte>, iv: nat, rnd: nat -> nat) returns (res: Outcome, ghost lost: Class)
      requires Valid() && iv < MAX_INTERVALS
      modifies this`cnt, this`where, this`stored, buckets
      ensures Valid() && res != Rejected
      ensures InsertedInto(old(stored), stored, interval, KeyClass(key), iv, res, lost)
    {
      hide ExpiringFilter.InSlots, ExpiringFilter.Alt, Pow2, IndexR2V, InsertedInto, Fingerprint32;
      ghost var m := stored;
      var h := hash(key);
      var fp := Fingerprint32(h);
      var i1 := h % numBuckets;
      var i2 := Alt(i1, fp);
      res, lost := BucketInsert(i1, i2, fp, iv, rnd);
      SizeAfterInsert(m, stored, interval, KeyClass(key), iv, res, lost);
      if res == Added { cnt := cnt + 1; }
    }

    // cf_query: the class is there, with its interval byte, or it is not.
    method Query(key: seq<byte>) returns (found: bool, iv: nat)
      requires Valid()
      ensures found <==> KeyClass(key) in stored
      ensures found <==> KeyClass(key) in View().latest
      ensures found ==> iv == stored[KeyClass(key)] && Decode(now, iv) == View().latest[KeyClass(key)]
    {
      hide ExpiringFilter.Alt, Pow2;
      var h := hash(key);
      var fp := Fingerprint32(h);
      var i1 := h % numBuckets;
      InFilter(i1, Alt(i1, fp), fp);
      AltBucket(i1, fp);
      found, iv := BucketLookup(i1, fp);
      if !found {
        found, iv := BucketLookup(Alt(i1, fp), fp);
      }
    }

    // Take a class out of the filter.
    method Remove(i1: nat, i2: nat, fp: nat) returns (deleted: bool)
      requires Shape() && Placed() && i1 < numBuckets && 0 < fp < U32
      requires i2 == Alt(i1, fp)
      modifies this`where, this`stored, buckets
      ensures Placed()
      ensures deleted <==> ClassOf(i1, fp) in old(where)
      ensures stored == old(stored) - {ClassOf(i1, fp)}
      ensures |where| == old(|where|) - (if deleted then 1 else 0)
    {
      hide ExpiringFilter.InSlots, ExpiringFilter.ClassOf, ExpiringFilter.Alt, Pow2;
      InFilter(i1, i2, fp);
      AltBucket(i1, fp);
      deleted := Vacate(i1, fp);
      if !deleted {
        deleted := Vacate(i2, fp);
      }
    }

    // cf_delete
    method Delete(key: seq<byte>) returns (deleted: bool)
      requires Valid()
      modifies this`cnt, this`where, this`stored, buckets
      ensures Valid()
      ensures deleted <==> KeyClass(key) in old(stored)
      ensures stored == old(stored) - {KeyClass(key)}
      ensures cnt == old(cnt) - (if deleted then 1 else 0)
    {
      hide ExpiringFilter.InSlots, ExpiringFilter.ClassOf, ExpiringFilter.Alt, Pow2;
      var h := hash(key);
      var fp := Fingerprint32(h);
      var i1 := h % numBuckets;
      deleted := Remove(i1, Alt(i1, fp), fp);
      if deleted { cnt := cnt - 1; }
    }
  }

  // ---------------------------------------------------------------- sweeping, on values

  predicate Before(s: (nat, nat), i: nat, j: nat) {
    s.0 < i || (s.0 == i && s.1 < j)
  }

  type Slots = map<Class, (nat, nat)>

  // The slots before (i, j) have been swept: of table m, kept in slots, the classes in the
  // range are gone; where and stored are what is left.
  ghost predicate Swept(m: Table, slots: Slots, where: Slots, stored: Table, start: nat, end: nat, i: nat, j: nat) {
    && m.Keys == slots.Keys && where.Keys == stored.Keys <= m.Keys && OneEach(slots)
    && forall c | c in m ::
         && slots[c].1 < BUCKET_SIZE
         && (c in where <==> !(Before(slots[c], i, j) && InRange(m[c], start, end)))
         && (c in where ==> where[c] == slots[c] && stored[c] == m[c])
  }

  // rank is the smallest rank seen in the slots before (i, j).
  ghost predicate Ranked(m: Table, slots: Slots, cur: nat, rank: nat, i: nat, j: nat) {
    && m.Keys == slots.Keys && cur < MAX_INTERVALS
    && (forall c | c in m && Before(slots[c], i, j) :: rank <= IndexR2V(cur, m[c]))
    && (rank < MAX_INTERVALS - 1 ==> exists c | c in m :: IndexR2V(cur, m[c]) == rank)
  }

  // Slots are occupied by one class each.
  ghost predicate OneEach(slots: Slots) {
    forall c, d | c in slots && d in slots && slots[c] == slots[d] :: c == d
  }

  lemma SweepStart(m: Table, slots: Slots, cur: nat, start: nat, end: nat)
    requires m.Keys == slots.Keys && OneEach(slots) && cur < MAX_INTERVALS
    requires forall c | c in slots :: slots[c].1 < BUCKET_SIZE
    ensures Swept(m, slots, slots, m, start, end, 0, 0)
    ensures Ranked(m, slots, cur, MAX_INTERVALS - 1, 0, 0)
  {
  }

  lemma SlotNotSwept(m: Table, slots: Slots, where: Slots, stored: Table, start: nat, end: nat, i: nat, j: nat,
                     c: Class)
    requires Swept(m, slots, where, stored, start, end, i, j) && c in where && where[c] == (i, j)
    ensures c in m && slots[c] == (i, j) && m[c] == stored[c] && OneEach(slots)
  {
  }

  lemma SweptNext(m: Table, slots: Slots, where: Slots, stored: Table, start: nat, end: nat, i: nat, j: nat, c: Class)
    requires Swept(m, slots, where, stored, start, end, i, j) && c in where && where[c] == (i, j)
    ensures InRange(stored[c], start, end) ==> Swept(m, slots, where - {c}, stored - {c}, start, end, i, j + 1)
    ensures !InRange(stored[c], start, end) ==> Swept(m, slots, where, stored, start, end, i, j + 1)
  {
    hide InRange;
    assert forall x | x in m && x != c :: Before(slots[x], i, j + 1) <==> Before(slots[x], i, j);
  }

  lemma RankedNext(m: Table, slots: Slots, cur: nat, rank: nat, i: nat, j: nat, c: Class)
    requires Ranked(m, slots, cur, rank, i, j) && OneEach(slots) && c in m && slots[c] == (i, j) && rank < MAX_INTERVALS
    ensures Ranked(m, slots, cur, if IndexR2V(cur, m[c]) < rank then IndexR2V(cur, m[c]) else rank, i, j + 1)
  {
    hide IndexR2V;
    assert forall x | x in m && x != c :: Before(slots[x], i, j + 1) <==> Before(slots[x], i, j);
  }

  lemma SweptSkip(m: Table, slots: Slots, where: Slots, stored: Table, cur: nat, start: nat, end: nat, rank: nat,
                  i: nat, j: nat)
    requires Swept(m, slots, where, stored, start, end, i, j) && Ranked(m, slots, cur, rank, i, j)
    requires forall c | c in where :: where[c] != (i, j)
    ensures Swept(m, slots, where, stored, start, end, i, j + 1) && Ranked(m, slots, cur, rank, i, j + 1)
  {
    hide InRange, IndexR2V;
    forall x | x in m ensures Before(slots[x], i, j + 1) <==> Before(slots[x], i, j) {
      if slots[x] == (i, j) { assert x in where; }
    }
  }

  lemma SweepRow(m: Table, slots: Slots, where: Slots, stored: Table, cur: nat, start: nat, end: nat, rank: nat, i: nat)
    requires Swept(m, slots, where, stored, start, end, i, BUCKET_SIZE) && Ranked(m, slots, cur, rank, i, BUCKET_SIZE)
    ensures Swept(m, slots, where, stored, start, end, i + 1, 0) && Ranked(m, slots, cur, rank, i + 1, 0)
  {
    hide InRange, IndexR2V;
    assert forall c | c in m :: Before(slots[c], i, BUCKET_SIZE) <==> Before(slots[c], i + 1, 0);
  }

  lemma SweepEnd(m: Table, slots: Slots, where: Slots, stored: Table, cur: nat, start: nat, end: nat, rank: nat, n: nat)
    requires Swept(m, slots, where, stored, start, end, n, 0) && Ranked(m, slots, cur, rank, n, 0)
    requires rank < MAX_INTERVALS && forall c | c in m :: slots[c].0 < n
    ensures stored == Prune(m, start, end) && IsOldestRank(m, cur, rank)
  {
    hide InRange, IndexR2V;
    assert forall c | c in m :: Before(slots[c], n, 0);
  }

  lemma IntervalIs(ns: real, size: nat)
    requires size > 0
    ensures Interval(ns, size) == CDiv(Seconds(ns), size)
  {
  }

  lemma IntervalByte(a: int)
    requires a >= 0
    ensures CMod(a, MAX_INTERVALS) == a % MAX_INTERVALS
  {
  }

  // Comparing cut-down times is comparing intervals.
  lemma TimeOrder(t: int, timet: nat, a: int, now: nat, size: nat)
    requires size > 0 && t == a * size && timet == now * size
    ensures t < timet - size * (MAX_INTERVALS - 1) <==> a < now - (MAX_INTERVALS - 1)
    ensures t > timet <==> a > now
    ensures a >= 0 ==> t >= 0
  {
    Scaled(a, now, size);
    Scaled(a, now - (MAX_INTERVALS - 1), size);
    Scaled(a, 0, size);
    assert (now - (MAX_INTERVALS - 1)) * size == now * size - (MAX_INTERVALS - 1) * size;
  }

  lemma Scaled(x: int, y: int, size: nat)
    requires size > 0
    ensures x * size < y * size <==> x < y
    ensures x * size > y * size <==> x > y
  {
    Multiple(size, x - y);
    assert size * (x - y) == x * size - y * size;
  }

  // A class more when it was added, otherwise as many as before.
  lemma SizeAfterInsert(m: Table, m': Table, cur: nat, c: Class, iv: nat, res: Outcome, lost: Class)
    requires cur < MAX_INTERVALS && iv < MAX_INTERVALS && res != Rejected
    requires InsertedInto(m, m', cur, c, iv, res, lost)
    ensures |m'| == |m| + (if res == Added then 1 else 0)
  {
    hide IndexR2V, Crowded;
    SizeAfterUpdate(m, c, iv);
    if c in m {
      SizeAfterUpdate(m, c, m'[c]);
    } else if res == Full {
      SizeAfterRemoval(m[c := iv], lost);
    }
  }

  lemma SizeAfterUpdate<K, V>(m: map<K, V>, c: K, v: V)
    ensures |m[c := v]| == |m| + if c in m then 0 else 1
  {
    assert m[c := v].Keys == m.Keys + {c};
    KeysCount(m);
    KeysCount(m[c := v]);
  }

  lemma SizeAfterRemoval<K, V>(m: map<K, V>, c: K)
    requires c in m
    ensures |m - {c}| == |m| - 1
  {
    assert (m - {c}).Keys == m.Keys - {c};
    KeysCount(m);
    KeysCount(m - {c});
  }

  // Swapping the class in hand with a stored one leaves their union as it was.
  lemma Exchange(m: Table, c: Class, iv: nat, v: Class, after: Table)
    requires v in m && c !in m && m[c := iv] == after
    ensures v !in (m - {v})[c := iv] && (m - {v})[c := iv][v := m[v]] == after
  {
  }

  // bucket_insert as a whole: c goes into table m with byte iv when the current byte is
  // cur; m' is the table afterwards.  It is only full when the buckets of c have no slot.
  ghost predicate InsertedInto(m: Table, m': Table, cur: nat, c: Class, iv: nat, res: Outcome, lost: Class)
    requires cur < MAX_INTERVALS && iv < MAX_INTERVALS
  {
    && (res.Duplicate? <==> c in m)
    && (res.Duplicate? ==>
          && m' == m[c := if IndexR2V(cur, iv) > IndexR2V(cur, m[c]) then iv else m[c]]
          && (res.delta == IndexR2V(cur, iv) - IndexR2V(cur, m[c]) ||
              res.delta == IndexR2V(cur, m[c]) - IndexR2V(cur, iv)))
    && (res == Added ==> m' == m[c := iv])
    && (res == Full ==> lost in m[c := iv] && m' == m[c := iv] - {lost} && Crowded(m.Keys, c))
  }

  // cf_add on bytes: an add in interval a is refused when it is too old.
  ghost predicate IsAdd(s: State, c: Class, a: int, items: nat, res: Outcome, lost: Class, s': State) {
    if a <= s.now - MAX_INTERVALS then res == Rejected && s' == s
    else
      && a >= 0 && res != Rejected
      && var r := AfterRoom(AfterTime(s, a), items);
         && s'.now == r.now && s'.lru == r.lru
         && InsertedInto(r.table, s'.table, r.now % MAX_INTERVALS, c, a % MAX_INTERVALS, res, lost)
  }

  lemma SameClock(s: State, a: int, items: nat)
    ensures forall r: State :: AfterRoom(r, items).now == r.now
  {
  }

  // Into an empty filter goes one key, not too old: of the keys with the same first bucket
  // exactly those are found that agree with it in the top 32 bits, 0 and 1 counting as the
  // same.
  method TellsApart(f: ExpiringFilter, a: seq<byte>, b: seq<byte>, ns: real, rnd: nat -> nat)
    returns (found: bool, iv: nat)
    requires f.Valid() && f.stored == map[] && f.hash(a) % f.numBuckets == f.hash(b) % f.numBuckets
    requires Interval(ns, f.intervalSize) > f.now - MAX_INTERVALS
    modifies f, f.buckets
    ensures var p, q := f.hash(a) / U32, f.hash(b) / U32; found <==> p == q || (p <= 1 && q <= 1)
    ensures found ==> iv == Interval(ns, f.intervalSize) % MAX_INTERVALS
  {
    hide ExpiringFilter.Placed, ExpiringFilter.KeyClass, ExpiringFilter.Alt, Fingerprint32, Pow2, Crowded, Interval;
    f.SameClassIff(b, a);
    Fingerprint32Iff(f.hash(b), f.hash(a));
    f.NoneCrowded(a);
    NothingToExpire(f.Machine(), Interval(ns, f.intervalSize), f.items);
    var res;
    ghost var c;
    res, c := f.Add(a, ns, rnd);
    found, iv := f.Query(b);
  }

  lemma NothingToExpire(s: State, a: int, items: nat)
    requires s.table == map[]
    ensures a >= 0 ==> AfterRoom(AfterTime(s, a), items).table == map[]
  {
  }

  // ---------------------------------------------------------------- whole runs

  const CLEARED: State := State(START, map[], -1)

  datatype Call = AddCall(key: seq<byte>, ns: real) | QueryCall(key: seq<byte>) | DeleteCall(key: seq<byte>) | ClearCall

  // The abstract operation behind a call.
  ghost function OpOf(f: ExpiringFilter, call: Call): Op
    requires f.Shape()
  {
    match call
    case AddCall(key, ns) => AddOp(f.KeyClass(key), Interval(ns, f.intervalSize))
    case QueryCall(key) => QueryOp(f.KeyClass(key))
    case DeleteCall(key) => DeleteOp(f.KeyClass(key))
    case ClearCall => ClearOp
  }

  ghost function OpsOf(f: ExpiringFilter, calls: seq<Call>): (ops: seq<Op>)
    requires f.Shape()
    ensures |ops| == |calls|
  {
    seq(|calls|, i requires 0 <= i < |calls| => OpOf(f, calls[i]))
  }

  // One add, seen in absolute intervals.
  lemma AddRefines(now: nat, m: Table, m': Table, c: Class, a: nat, res: Outcome, lost: Class)
    requires now - MAX_INTERVALS < a < now + MAX_INTERVALS && res != Full && res != Rejected
    requires InsertedInto(Timed(now, m, a), m', Clock(now, a) % MAX_INTERVALS, c, a % MAX_INTERVALS, res, lost)
    ensures Meaning(Clock(now, a), m') == AddAt(Meaning(now, m), c, a)
  {
    hide Timed, Meaning, Clock, AddAt, IndexR2V;
    AddIsExact(now, m, c, a);
    assert m' == Inserted(Clock(now, a), Timed(now, m, a), c, a);
  }

  // The same add, with its answer: refused when too old, the distance in intervals when
  // the class is there, otherwise added.
  lemma AddAnswers(now: nat, m: Table, m': Table, c: Class, a: nat, res: Outcome, lost: Class)
    requires now - MAX_INTERVALS < a < now + MAX_INTERVALS && res != Full && res != Rejected
    requires InsertedInto(Timed(now, m, a), m', Clock(now, a) % MAX_INTERVALS, c, a % MAX_INTERVALS, res, lost)
    ensures Answers(Meaning(now, m), AddOp(c, a), AddReply(res))
  {
    hide Timed, Meaning, Clock, IndexR2V, Decode, Expire;
    var u: nat, r: Table := Clock(now, a), Timed(now, m, a);
    TimedIsExpiry(now, m, a);
    MeaningAt(u, r, c);
    MeaningAt(now, m, c);
    if c in r { DeltaIsDistance(u, r[c], a); }
  }

  lemma SameCount(t: nat, m: Table)
    ensures |Meaning(t, m).latest| == |m|
  {
    assert Meaning(t, m).latest.Keys == m.Keys;
    KeysCount(m);
    KeysCount(Meaning(t, m).latest);
  }

  // What is left of the reference when an add in interval a has moved the clock.
  function Kept(w: Window, a: int): map<Class, int> {
    Expire(w.latest, if a > w.now then a else w.now)
  }

  // An add within 256 intervals, with the filter not four fifths full afterwards, unless
  // it is too old to count.
  predicate IsBenign(w: Window, op: Op, items: nat) {
    op.AddOp? ==>
      op.a < w.now + MAX_INTERVALS && (op.a <= w.now - MAX_INTERVALS || 10 * |Kept(w, op.a)| < 8 * items)
  }

  datatype Reply = AddReply(res: Outcome) | QueryReply(iv: Option<nat>) | DeleteReply(deleted: bool) | ClearReply

  // The answer the reference gives.
  predicate Answers(w: Window, op: Op, reply: Reply) {
    match op
    case AddOp(c, a) =>
      reply == AddReply(
        if a <= w.now - MAX_INTERVALS then Rejected
        else if c in Kept(w, a) then Duplicate(Distance(a, Kept(w, a)[c]))
        else Added)
    case QueryOp(c) => reply == QueryReply(if c in w.latest then Some(ByteOf(w.latest[c])) else None)
    case DeleteOp(c) => reply == DeleteReply(c in w.latest)
    case ClearOp => reply == ClearReply
  }

  function ByteOf(a: int): nat { a % MAX_INTERVALS }

  function Distance(x: int, y: int): nat { if x > y then x - y else y - x }

  // The classes left of the reference fill the buckets of the class to be added.
  ghost predicate IsCrowded(w: Window, op: Op) {
    op.AddOp? && Crowded(Kept(w, op.a).Keys, op.c)
  }

  // One call on bytes; lost only matters for an add that finds the filter full.
  ghost predicate IsStep(s: State, op: Op, items: nat, reply: Reply, lost: Class, s': State) {
    match op
    case AddOp(c, a) => reply.AddReply? && IsAdd(s, c, a, items, reply.res, lost, s')
    case QueryOp(c) => s' == s && reply == QueryReply(if c in s.table then Some(s.table[c]) else None)
    case DeleteOp(c) => s' == s.(table := s.table - {c}) && reply == DeleteReply(c in s.table)
    case ClearOp => s' == CLEARED && reply == ClearReply
  }

  function MeaningOf(s: State): Window {
    Meaning(s.now, s.table)
  }

  method Perform(f: ExpiringFilter, call: Call, rnd: nat -> nat) returns (reply: Reply, ghost lost: Class)
    requires f.Valid()
    modifies f, f.buckets
    ensures f.Valid()
    ensures IsStep(old(f.Machine()), OpOf(f, call), f.items, reply, lost, f.Machine())
  {
    hide ExpiringFilter.Placed, Pow2, IsAdd, Interval, Meaning, Decode;
    lost := Class(0, {});
    match call {
      case AddCall(key, ns) =>
        var res;
        res, lost := f.Add(key, ns, rnd);
        reply := AddReply(res);
      case QueryCall(key) =>
        var found, iv := f.Query(key);
        reply := QueryReply(if found then Some(iv) else None);
      case DeleteCall(key) =>
        var deleted := f.Delete(key);
        reply := DeleteReply(deleted);
      case ClearCall =>
        f.Clear();
        reply := ClearReply;
    }
  }

  // An add that is benign and does not find its buckets full does and answers what the
  // reference does; so does every other call.
  lemma StepRefines(s: State, op: Op, items: nat, reply: Reply, lost: Class, s': State)
    requires IsStep(s, op, items, reply, lost, s')
    requires IsBenign(MeaningOf(s), op, items) && !(reply == AddReply(Full) && IsCrowded(MeaningOf(s), op))
    ensures MeaningOf(s') == After(MeaningOf(s), op) && Answers(MeaningOf(s), op, reply)
  {
    hide IsAdd, IsCrowded, Meaning, AddAt, IsBenign;
    match op
    case AddOp(c, a) => AddCase(s, c, a, items, reply.res, lost, s');
    case QueryOp(c) => QueryRefines(s.now, s.table, c);
    case DeleteOp(c) => DeleteRefines(s.now, s.table, c);
    case ClearOp => ClearRefines(MeaningOf(s));
  }

  lemma QueryRefines(now: nat, m: Table, c: Class)
    ensures Answers(Meaning(now, m), QueryOp(c), QueryReply(if c in m then Some(m[c]) else None))
  {
    hide Decode;
    MeaningAt(now, m, c);
    if c in m { assert Decode(now, m[c]) % MAX_INTERVALS == m[c] % MAX_INTERVALS == m[c]; }
  }

  // Only full buckets make the filter full.
  lemma FullMeansCrowded(now: nat, m: Table, m': Table, c: Class, a: nat, res: Outcome, lost: Class)
    requires now - MAX_INTERVALS < a < now + MAX_INTERVALS && res != Rejected
    requires InsertedInto(Timed(now, m, a), m', Clock(now, a) % MAX_INTERVALS, c, a % MAX_INTERVALS, res, lost)
    ensures res == Full ==> IsCrowded(Meaning(now, m), AddOp(c, a))
  {
    hide Timed, Clock, IndexR2V, Decode, Expire, Crowded;
    TimedIsExpiry(now, m, a);
    assert Meaning(Clock(now, a), Timed(now, m, a)).latest.Keys == Timed(now, m, a).Keys;
  }

  // An add on bytes, read in absolute intervals.
  lemma AddCase(s: State, c: Class, a: int, items: nat, res: Outcome, lost: Class, s': State)
    requires IsAdd(s, c, a, items, res, lost, s')
    requires IsBenign(MeaningOf(s), AddOp(c, a), items) && !(res == Full && IsCrowded(MeaningOf(s), AddOp(c, a)))
    ensures MeaningOf(s') == After(MeaningOf(s), AddOp(c, a))
    ensures Answers(MeaningOf(s), AddOp(c, a), AddReply(res))
  {
    hide InsertedInto, Timed, Clock, Expire, IsCrowded, OldestByte, Prune;
    if res == Rejected {
      RejectRefines(s.now, s.table, c, a);
    } else {
      TimedIsExpiry(s.now, s.table, a);
      SameCount(Clock(s.now, a), Timed(s.now, s.table, a));
      FullMeansCrowded(s.now, s.table, s'.table, c, a, res, lost);
      AddRefines(s.now, s.table, s'.table, c, a, res, lost);
      AddAnswers(s.now, s.table, s'.table, c, a, res, lost);
    }
  }

  lemma DeleteRefines(now: nat, m: Table, c: Class)
    ensures Meaning(now, m - {c}) == After(Meaning(now, m), DeleteOp(c))
    ensures Answers(Meaning(now, m), DeleteOp(c), DeleteReply(c in m))
  {
  }

  lemma RejectRefines(now: nat, m: Table, c: Class, a: int)
    requires a <= now - MAX_INTERVALS
    ensures AddAt(Meaning(now, m), c, a) == Meaning(now, m)
  {
  }

  lemma ClearRefines(w: Window)
    ensures Meaning(START, map[]) == After(w, ClearOp) && Answers(w, ClearOp, ClearReply)
  {
  }

  // Every add of a run was benign and none found its buckets full.
  ghost predicate AllBenign(ops: seq<Op>, replies: seq<Reply>, items: nat)
    requires |ops| == |replies|
  {
    ops == [] ||
    var n := |ops| - 1;
    && AllBenign(ops[..n], replies[..n], items) && IsBenign(Run(ops[..n]), ops[n], items)
    && !(replies[n] == AddReply(Full) && IsCrowded(Run(ops[..n]), ops[n]))
  }

  // Every answer of a run is that of the reference.
  ghost predicate AllAnswered(ops: seq<Op>, replies: seq<Reply>)
    requires |ops| == |replies|
  {
    ops == [] ||
    var n := |ops| - 1;
    AllAnswered(ops[..n], replies[..n]) && Answers(Run(ops[..n]), ops[n], replies[n])
  }

  // The state a run leaves, every step and answer on the way being that of the filter on
  // bytes.
  ghost predicate IsRun(ops: seq<Op>, items: nat, replies: seq<Reply>, lost: seq<Class>, s: State)
    requires |ops| == |replies| == |lost|
    decreases |ops|
  {
    if ops == [] then s == CLEARED
    else
      var n := |ops| - 1;
      exists before ::
        && IsRun(ops[..n], items, replies[..n], lost[..n], before)
        && IsStep(before, ops[n], items, replies[n], lost[n], s)
  }

  // While every add is benign, the filter on bytes is the reference and answers like it, and
  // so holds exactly the classes whose latest accepted add lies in the last 256 intervals.
  lemma {:induction false} RunRefines(ops: seq<Op>, items: nat, replies: seq<Reply>, lost: seq<Class>, s: State)
    requires |ops| == |replies| == |lost| && IsRun(ops, items, replies, lost, s) && AllBenign(ops, replies, items)
    ensures MeaningOf(s) == Run(ops) && AllAnswered(ops, replies)
    decreases |ops|
  {
    hide IsStep, IsBenign, IsCrowded, Answers, After;
    if ops == [] {
      assert MeaningOf(CLEARED).latest == map[];
    } else {
      var n := |ops| - 1;
      var before :| IsRun(ops[..n], items, replies[..n], lost[..n], before)
                    && IsStep(before, ops[n], items, replies[n], lost[n], s);
      RunRefines(ops[..n], items, replies[..n], lost[..n], before);
      StepRefines(before, ops[n], items, replies[n], lost[n], s);
    }
  }

  // Any sequence of calls with any random numbers runs as the filter on bytes does, jumps,
  // prunings and full buckets included; while every add is benign it is the reference.
  method Session(requested: nat, mins: nat, h: seq<byte> -> u64, g: nat -> u64, calls: seq<Call>, rnds: seq<nat -> nat>)
    returns (f: ExpiringFilter, replies: seq<Reply>, ghost lost: seq<Class>)
    requires MAX_INTERVALS < requested < 0x8000_0000 && 0 < mins <= 1440 && |rnds| == |calls|
    ensures f.Valid() && |replies| == |lost| == |calls|
    ensures IsRun(OpsOf(f, calls), f.items, replies, lost, f.Machine())
    ensures AllBenign(OpsOf(f, calls), replies, f.items) ==>
              f.View() == Run(OpsOf(f, calls)) && AllAnswered(OpsOf(f, calls), replies)
  {
    hide ExpiringFilter.Placed, OpsOf, OpOf, IsStep, IsRun, AllBenign, AllAnswered;
    f := new ExpiringFilter(requested, mins, h, g);
    replies, lost := [], [];
    NoCalls(f, calls);
    for i := 0 to |calls|
      invariant f.Valid() && fresh(f) && fresh(f.buckets) && |replies| == |lost| == i
      invariant IsRun(OpsOf(f, calls[..i]), f.items, replies, lost, f.Machine())
    {
      ghost var before := f.Machine();
      NextCall(f, calls, i);
      var reply;
      ghost var gone;
      reply, gone := Perform(f, calls[i], rnds[i]);
      RunNext(OpsOf(f, calls[..i]), OpOf(f, calls[i]), f.items, replies, reply, lost, gone, before, f.Machine());
      replies, lost := replies + [reply], lost + [gone];
    }
    assert calls[..|calls|] == calls;
    if AllBenign(OpsOf(f, calls), replies, f.items) {
      RunRefines(OpsOf(f, calls), f.items, replies, lost, f.Machine());
    }
  }

  lemma NoCalls(f: ExpiringFilter, calls: seq<Call>)
    requires f.Shape()
    ensures OpsOf(f, calls[..0]) == [] && IsRun([], f.items, [], [], CLEARED)
  {
  }

  lemma NextCall(f: ExpiringFilter, calls: seq<Call>, i: nat)
    requires f.Shape() && i < |calls|
    ensures OpsOf(f, calls[..i + 1]) == OpsOf(f, calls[..i]) + [OpOf(f, calls[i])]
  {
    hide OpOf;
  }

  lemma RunNext(ops: seq<Op>, op: Op, items: nat, replies: seq<Reply>, reply: Reply, lost: seq<Class>, gone: Class,
                before: State, s: State)
    requires |ops| == |replies| == |lost| && IsRun(ops, items, replies, lost, before)
    requires IsStep(before, op, items, reply, gone, s)
    ensures IsRun(ops + [op], items, replies + [reply], lost + [gone], s)
  {
    hide IsStep;
    var n := |ops|;
    assert (ops + [op])[..n] == ops && (replies + [reply])[..n] == replies && (lost + [gone])[..n] == lost;
  }
}
