// The cuckoo filter as a set of classes (cuckoo_filter/cuckoo_filter.c).
//
// A key is only ever seen through its fingerprint and its pair of buckets, so what the
// filter can represent is a set of classes: a fingerprint together with the two buckets
// that can hold it.

module Cuckoo {
  import opened Bits
  import opened CuckooCommon

  datatype AddResult = Added | Duplicate | Full

  // fingerprint16: the top 16 bits of the hash, never the empty marker 0.
  function Fingerprint16(h: u64): (fp: nat)
    ensures 0 < fp < 0x1_0000
  {
    PowersOfTwo();
    var t := h / 0x1_0000_0000_0000;
    if t != 0 then t else 1
  }

  // Fingerprints tell hashes apart by their top 16 bits, except that 0 counts as 1.
  lemma Fingerprint16Iff(g: u64, h: u64)
    ensures var p, q := g / 0x1_0000_0000_0000, h / 0x1_0000_0000_0000;
            Fingerprint16(g) == Fingerprint16(h) <==> p == q || (p <= 1 && q <= 1)
  {
  }

  class CuckooFilter {
    const hash: seq<byte> -> u64
    const fpHash: nat -> u64
    const items: nat
    const numBuckets: nat
    const nlz: nat
    const entries: array2<nat>
    var cnt: nat
    ghost const k: nat
    // The slot of every class in the filter.
    ghost var where: map<Class, (nat, nat)>

    // ------------------------------------------------------------ the abstract view

    ghost predicate Shape() {
      && 1 <= k <= 30 && numBuckets == Pow2(k) && nlz == 32 - k && items == numBuckets * BUCKET_SIZE
      && entries.Length0 == numBuckets && entries.Length1 == BUCKET_SIZE
    }

    ghost predicate InTable(s: (nat, nat)) {
      s.0 < entries.Length0 && s.1 < entries.Length1
    }

    // The other bucket a fingerprint can live in.
    function Alt(b: nat, fp: nat): nat {
      OtherBucket(b, fpHash(fp), nlz + 32)
    }

    ghost function ClassOf(b: nat, fp: nat): Class {
      Class(fp, {b, Alt(b, fp)})
    }

    // The class of a key, from its hash.
    ghost function KeyClass(key: seq<byte>): Class
      requires numBuckets > 0
    {
      ClassOf(hash(key) % numBuckets, Fingerprint16(hash(key)))
    }

    // Every occupied slot holds its own class, and every class in the filter has a slot.
    ghost predicate Placed()
      reads this`where, entries
    {
      && (forall b, i | 0 <= b < entries.Length0 && 0 <= i < entries.Length1 ::
            && entries[b, i] < 0x1_0000
            && (entries[b, i] != 0 ==>
                  ClassOf(b, entries[b, i]) in where && where[ClassOf(b, entries[b, i])] == (b, i)))
      && (forall c | c in where ::
            && InTable(where[c]) && entries[where[c].0, where[c].1] != 0
            && ClassOf(where[c].0, entries[where[c].0, where[c].1]) == c)
    }

    ghost predicate Valid()
      reads this, entries
    {
      Shape() && Placed() && cnt == |where|
    }

    ghost function Contents(): set<Class>
      reads this
    {
      where.Keys
    }

    lemma AltBucket(b: nat, fp: nat)
      requires Shape() && b < numBuckets && fp < 0x1_0000
      ensures var a := Alt(b, fp);
              a < numBuckets && Alt(a, fp) == b && ClassOf(a, fp) == ClassOf(b, fp)
    {
      OtherBucketIsInvolution(k, b, fpHash(fp));
    }

    // A class is in the filter exactly when its fingerprint is in one of its two buckets.
    lemma InFilter(i1: nat, i2: nat, fp: nat)
      requires Shape() && Placed() && 0 < fp < 0x1_0000
      requires i1 < numBuckets && i2 == Alt(i1, fp)
      ensures i2 < numBuckets
      ensures ClassOf(i1, fp) in where <==>
              exists i | 0 <= i < BUCKET_SIZE :: entries[i1, i] == fp || entries[i2, i] == fp
    {
      AltBucket(i1, fp);
      var c := ClassOf(i1, fp);
      if c in where {
        var (b, i) := where[c];
        assert b in c.pair;
        assert entries[b, i] == fp;
      }
    }

    // Two keys are one class exactly when their fingerprints are equal and the first bucket
    // of one is the first or the other bucket of the other.
    lemma SameClassIff(a: seq<byte>, b: seq<byte>)
      requires Shape()
      ensures KeyClass(a) == KeyClass(b) <==>
                var p, q := hash(a) % numBuckets, hash(b) % numBuckets;
                Fingerprint16(hash(a)) == Fingerprint16(hash(b)) && (p == q || p == Alt(q, Fingerprint16(hash(b))))
    {
      hide CuckooFilter.Alt, Fingerprint16, Pow2;
      var p, q, fp := hash(a) % numBuckets, hash(b) % numBuckets, Fingerprint16(hash(b));
      AltBucket(p, fp);
      AltBucket(q, fp);
      assert p in KeyClass(a).pair && KeyClass(b).pair == {q, Alt(q, fp)};
      assert p == Alt(q, fp) ==> {p, Alt(p, fp)} == {q, Alt(q, fp)};
    }

    // An empty filter is never full.
    lemma NoneCrowded(key: seq<byte>)
      requires numBuckets > 0
      ensures !Crowded({}, KeyClass(key))
    {
      assert Neighbours({}, KeyClass(key)) == {};
      assert hash(key) % numBuckets in KeyClass(key).pair;
    }

    ghost predicate IsFullBucket(b: nat)
      reads entries
    {
      b < entries.Length0 && BUCKET_SIZE <= entries.Length1 && forall i | 0 <= i < BUCKET_SIZE :: entries[b, i] != 0
    }

    // Two full buckets hold as many classes as they have slots.
    lemma FullBuckets(i1: nat, i2: nat, fp: nat)
      requires Shape() && Placed() && i2 == Alt(i1, fp) && IsFullBucket(i1) && IsFullBucket(i2)
      ensures Crowded(where.Keys, ClassOf(i1, fp))
    {
      var at := map b, i | 0 <= b < entries.Length0 && 0 <= i < entries.Length1 && entries[b, i] != 0 ::
                  (b, i) := ClassOf(b, entries[b, i]);
      forall x, y | x in at && y in at && at[x] == at[y] ensures x == y {
        assert where[at[x]] == x && where[at[y]] == y;
      }
      FullIsCrowded(at, where.Keys, ClassOf(i1, fp), i1, i2);
    }

    // ------------------------------------------------------------ one bucket

    method BucketLookup(b: nat, fp: nat) returns (found: bool)
      requires Shape() && b < numBuckets
      ensures found <==> exists i | 0 <= i < BUCKET_SIZE :: entries[b, i] == fp
    {
      for i := 0 to BUCKET_SIZE
        invariant forall j | 0 <= j < i :: entries[b, j] != fp
      {
        if entries[b, i] == fp { return true; }
      }
      return false;
    }

    method BucketDelete(b: nat, fp: nat) returns (deleted: bool, ghost slot: nat)
      requires Shape() && b < numBuckets
      modifies entries
      ensures deleted <==> exists i | 0 <= i < BUCKET_SIZE :: old(entries[b, i]) == fp
      ensures deleted ==> slot < BUCKET_SIZE && old(entries[b, slot]) == fp
      ensures forall b', i | 0 <= b' < entries.Length0 && 0 <= i < entries.Length1 ::
                entries[b', i] == if deleted && b' == b && i == slot then 0 else old(entries[b', i])
    {
      slot := 0;
      for i := 0 to BUCKET_SIZE
        invariant forall b', j | 0 <= b' < entries.Length0 && 0 <= j < entries.Length1 ::
                    entries[b', j] == old(entries[b', j])
        invariant forall j | 0 <= j < i :: entries[b, j] != fp
      {
        if entries[b, i] == fp {
          entries[b, i] := 0;
          return true, i;
        }
      }
      return false, slot;
    }

    method BucketAdd(b: nat, fp: nat) returns (added: bool, ghost slot: nat)
      requires Shape() && b < numBuckets
      modifies entries
      ensures added <==> exists i | 0 <= i < BUCKET_SIZE :: old(entries[b, i]) == 0
      ensures added ==> slot < BUCKET_SIZE && old(entries[b, slot]) == 0
      ensures forall b', i | 0 <= b' < entries.Length0 && 0 <= i < entries.Length1 ::
                entries[b', i] == if added && b' == b && i == slot then fp else old(entries[b', i])
    {
      slot := 0;
      for i := 0 to BUCKET_SIZE
        invariant forall b', j | 0 <= b' < entries.Length0 && 0 <= j < entries.Length1 ::
                    entries[b', j] == old(entries[b', j])
        invariant forall j | 0 <= j < i :: entries[b, j] != 0
      {
        if entries[b, i] == 0 {
          entries[b, i] := fp;
          return true, i;
        }
      }
      return false, slot;
    }

    // Put a class that is not in the filter into a free slot of one of its buckets.
    method Settle(b: nat, fp: nat) returns (added: bool)
      requires Shape() && Placed() && b < numBuckets && 0 < fp < 0x1_0000
      requires ClassOf(b, fp) !in where
      modifies this`where, entries
      ensures Placed()
      ensures !added ==> where == old(where) && IsFullBucket(b)
      ensures !added ==> forall b', i | 0 <= b' < entries.Length0 && 0 <= i < entries.Length1 ::
                           entries[b', i] == old(entries[b', i])
      ensures added ==> where.Keys == old(where.Keys) + {ClassOf(b, fp)} && |where| == old(|where|) + 1
    {
      ghost var slot;
      added, slot := BucketAdd(b, fp);
      if added {
        where := where[ClassOf(b, fp) := (b, slot)];
      }
    }

    // Take a class out of one of its buckets.
    method Vacate(b: nat, fp: nat) returns (deleted: bool)
      requires Shape() && Placed() && b < numBuckets && 0 < fp < 0x1_0000
      modifies this`where, entries
      ensures Placed()
      ensures deleted <==> exists i | 0 <= i < BUCKET_SIZE :: old(entries[b, i]) == fp
      ensures deleted ==> ClassOf(b, fp) in old(where) && where == old(where) - {ClassOf(b, fp)}
      ensures !deleted ==> where == old(where)
      ensures !deleted ==> forall b', i | 0 <= b' < entries.Length0 && 0 <= i < entries.Length1 ::
                             entries[b', i] == old(entries[b', i])
    {
      ghost var slot;
      deleted, slot := BucketDelete(b, fp);
      if deleted {
        where := where - {ClassOf(b, fp)};
      }
    }

    // Take a class out of the filter.
    method Remove(i1: nat, i2: nat, fp: nat) returns (deleted: bool)
      requires Shape() && Placed() && i1 < numBuckets && 0 < fp < 0x1_0000
      requires i2 == Alt(i1, fp)
      modifies this`where, entries
      ensures Placed()
      ensures deleted <==> ClassOf(i1, fp) in old(where)
      ensures where.Keys == old(where.Keys) - {ClassOf(i1, fp)}
      ensures |where| == old(|where|) - (if deleted then 1 else 0)
    {
      hide CuckooFilter.Placed, CuckooFilter.ClassOf, CuckooFilter.Alt;
      InFilter(i1, i2, fp);
      AltBucket(i1, fp);
      deleted := Vacate(i1, fp);
      if !deleted {
        deleted := Vacate(i2, fp);
      }
    }

    // Put a class that is not in the filter in the place of another one.
    method Evict(b: nat, i: nat, fp: nat) returns (victim: nat)
      requires Shape() && Placed() && b < numBuckets && i < BUCKET_SIZE && 0 < fp < 0x1_0000
      requires ClassOf(b, fp) !in where && entries[b, i] != 0
      modifies this`where, entries
      ensures Placed() && 0 < victim < 0x1_0000
      ensures ClassOf(b, victim) in old(where) && ClassOf(b, victim) !in where
      ensures where.Keys == old(where.Keys) - {ClassOf(b, victim)} + {ClassOf(b, fp)}
      ensures |where| == old(|where|)
    {
      victim := entries[b, i];
      entries[b, i] := fp;
      where := (where - {ClassOf(b, victim)})[ClassOf(b, fp) := (b, i)];
    }

    // ------------------------------------------------------------ insertion

    // bucket_insert: rnd holds the successive results of rand().  When the filter is full,
    // lost is the class left in hand.
    method BucketInsert(i1: nat, i2: nat, fp0: nat, rnd: nat -> nat)
      returns (res: AddResult, ghost lost: Class)
      requires Shape() && Placed() && i1 < numBuckets && 0 < fp0 < 0x1_0000
      requires i2 == Alt(i1, fp0)
      modifies this`where, entries
      ensures Placed()
      ensures var c := ClassOf(i1, fp0);
              && (res == Duplicate <==> c in old(where.Keys))
              && (res == Duplicate ==> where.Keys == old(where.Keys) && |where| == old(|where|))
              && (res == Added ==> where.Keys == old(where.Keys) + {c} && |where| == old(|where|) + 1)
              && (res == Full ==>
                    && lost in old(where.Keys) + {c} && |where| == old(|where|)
                    && where.Keys == old(where.Keys) + {c} - {lost}
                    && old(IsFullBucket(i1)) && old(IsFullBucket(i2)) && Crowded(old(where.Keys), c))
    {
      hide CuckooFilter.Placed, CuckooFilter.ClassOf, CuckooFilter.Alt, Crowded;
      ghost var c := ClassOf(i1, fp0);
      lost := c;
      InFilter(i1, i2, fp0);
      AltBucket(i1, fp0);
      var found := BucketLookup(i1, fp0);
      if found { return Duplicate, lost; }
      found := BucketLookup(i2, fp0);
      if found { return Duplicate, lost; }
      var added := Settle(i1, fp0);
      if added { return Added, lost; }
      added := Settle(i2, fp0);
      if added { return Added, lost; }
      FullBuckets(i1, i2, fp0);
      res, lost := Relocate(if rnd(0) % 2 == 1 then i1 else i2, fp0, rnd);
    }

    // The kick loop: place the fingerprint in hand into a random slot of a full bucket and
    // carry on with the one found there.  No class is ever stored twice on the way, so the
    // duplicate exit of the loop is never taken.
    method Relocate(start: nat, fp0: nat, rnd: nat -> nat) returns (res: AddResult, ghost lost: Class)
      requires Shape() && Placed() && start < numBuckets && 0 < fp0 < 0x1_0000
      requires ClassOf(start, fp0) !in where
      requires forall j | 0 <= j < BUCKET_SIZE :: entries[start, j] != 0
      modifies this`where, entries
      ensures Placed() && res != Duplicate
      ensures var c := ClassOf(start, fp0);
              && (res == Added ==> where.Keys == old(where.Keys) + {c} && |where| == old(|where|) + 1)
              && (res == Full ==>
                    && lost in old(where.Keys) + {c} && |where| == old(|where|)
                    && where.Keys == old(where.Keys) + {c} - {lost})
    {
      hide CuckooFilter.Placed, CuckooFilter.ClassOf, CuckooFilter.Alt;
      var fp: nat, ri: nat := fp0, start;
      lost := ClassOf(ri, fp);
      ghost var all := where.Keys + {lost};
      for i := 0 to MAX_KICKS
        invariant Placed() && ri < numBuckets && 0 < fp < 0x1_0000
        invariant forall j | 0 <= j < BUCKET_SIZE :: entries[ri, j] != 0
        invariant lost == ClassOf(ri, fp) && lost !in where
        invariant where.Keys + {lost} == all && |where| == old(|where|)
      {
        var entry := rnd(i + 1) % BUCKET_SIZE;
        ghost var keys, hand := where.Keys, lost;
        var victim := Evict(ri, entry, fp);
        lost := ClassOf(ri, victim);
        Exchange(keys, hand, lost);
        AltBucket(ri, victim);
        fp, ri := victim, Alt(ri, victim);
        NotStored(ri, fp);
        var found := BucketLookup(ri, fp);
        if found { assert false; }
        var added := Settle(ri, fp);
        if added { return Added, lost; }
      }
      return Full, lost;
    }

    // Swapping the class in hand with a stored one leaves their union as it was.
    lemma Exchange(keys: set<Class>, c: Class, v: Class)
      requires v in keys && c !in keys
      ensures keys + {c} == keys - {v} + {c} + {v}
      ensures v !in keys - {v} + {c}
    {
    }

    // The class in hand is in no slot, so the lookup inside the kick loop never succeeds.
    lemma NotStored(b: nat, fp: nat)
      requires Shape() && Placed() && b < numBuckets && 0 < fp < 0x1_0000
      requires ClassOf(b, fp) !in where
      ensures forall i | 0 <= i < BUCKET_SIZE :: entries[b, i] != fp
    {
    }

    // ------------------------------------------------------------ operations

    // cf_new
    constructor (requested: nat, h: seq<byte> -> u64, g: nat -> u64)
      requires 8 <= requested < 0x8000_0000
      ensures Valid() && Contents() == {} && hash == h && fpHash == g && Sized(requested, k, nlz)
      ensures fresh(entries)
    {
      hide Pow2, IsLeastPower;
      PowersOfTwo();
      var n := Clp2(requested / BUCKET_SIZE);
      ghost var l: nat :| l < 32 && n == Pow2(l) && IsLeastPower(requested / BUCKET_SIZE, l);
      SmallExponent(requested, l);
      PowMonotone(l, 31);
      var z := Nlz(n);
      ExponentOfNlz(l, z);
      hash, fpHash, numBuckets, items, nlz, cnt := h, g, n, n * BUCKET_SIZE, z + 1, 0;
      k, where := l, map[];
      entries := new nat[n, BUCKET_SIZE]((i, j) => 0);
    }

    // cf_add: membership before the call decides the result; the filter is only full when
    // neither bucket of the class has a free slot, and then it has lost exactly one class,
    // the old ones and the new one considered, and its count stands.
    method Add(key: seq<byte>, rnd: nat -> nat) returns (res: AddResult, ghost lost: Class)
      requires Valid()
      modifies this`cnt, this`where, entries
      ensures Valid()
      ensures res == Duplicate <==> KeyClass(key) in old(Contents())
      ensures res == Duplicate ==> Contents() == old(Contents()) && cnt == old(cnt)
      ensures res == Added ==> Contents() == old(Contents()) + {KeyClass(key)} && cnt == old(cnt) + 1
      ensures res == Full ==>
                && lost in old(Contents()) + {KeyClass(key)} && cnt == old(cnt)
                && Contents() == old(Contents()) + {KeyClass(key)} - {lost}
                && Crowded(old(Contents()), KeyClass(key))
      ensures res == Full ==> forall b | b in KeyClass(key).pair :: old(IsFullBucket(b))
    {
      hide CuckooFilter.Placed, CuckooFilter.Alt, CuckooFilter.IsFullBucket, Crowded, Fingerprint16, Pow2;
      var h := hash(key);
      var fp := Fingerprint16(h);
      var i1 := h % numBuckets;
      var i2 := Alt(i1, fp);
      res, lost := BucketInsert(i1, i2, fp, rnd);
      if res == Added { cnt := cnt + 1; }
    }

    // cf_query
    method Query(key: seq<byte>) returns (found: bool)
      requires Valid()
      ensures found <==> KeyClass(key) in Contents()
    {
      var h := hash(key);
      var fp := Fingerprint16(h);
      var i1 := h % numBuckets;
      InFilter(i1, Alt(i1, fp), fp);
      found := BucketLookup(i1, fp);
      if !found {
        found := BucketLookup(Alt(i1, fp), fp);
      }
    }

    // cf_delete
    method Delete(key: seq<byte>) returns (deleted: bool)
      requires Valid()
      modifies this`cnt, this`where, entries
      ensures Valid()
      ensures deleted <==> KeyClass(key) in old(Contents())
      ensures Contents() == old(Contents()) - {KeyClass(key)}
      ensures cnt == old(cnt) - (if deleted then 1 else 0)
    {
      hide CuckooFilter.Placed, CuckooFilter.ClassOf, CuckooFilter.Alt, Fingerprint16, Pow2;
      var h := hash(key);
      var fp := Fingerprint16(h);
      var i1 := h % numBuckets;
      var i2 := Alt(i1, fp);
      deleted := Remove(i1, i2, fp);
      if deleted { cnt := cnt - 1; }
    }

    // cf_clear
    method Clear()
      requires Valid()
      modifies this`cnt, this`where, entries
      ensures Valid() && Contents() == {} && cnt == 0
    {
      forall b, i | 0 <= b < entries.Length0 && 0 <= i < entries.Length1 {
        entries[b, i] := 0;
      }
      cnt, where := 0, map[];
    }

    // cf_count is the number of classes and also the number of occupied slots.
    ghost function Occupied(): set<(nat, nat)>
      reads this, entries
    {
      set b, i | 0 <= b < entries.Length0 && 0 <= i < entries.Length1 && entries[b, i] != 0 :: (b, i)
    }

    lemma CountIsSize()
      requires Valid()
      ensures cnt == |Contents()|
    {
    }

    lemma CountIsOccupancy()
      requires Valid()
      ensures cnt == |Occupied()| == |Contents()|
    {
      SameSize(where, Occupied());
    }
  }

  // Into an empty filter goes one key: of the keys with the same first bucket exactly those
  // are found, and refused as duplicates, that agree with it in the top 16 bits, 0 and 1
  // counting as the same.
  method TellsApart(f: CuckooFilter, a: seq<byte>, b: seq<byte>, rnd: nat -> nat) returns (found: bool, res: AddResult)
    requires f.Valid() && f.Contents() == {} && f.hash(a) % f.numBuckets == f.hash(b) % f.numBuckets
    modifies f, f.entries
    ensures var p, q := f.hash(a) / 0x1_0000_0000_0000, f.hash(b) / 0x1_0000_0000_0000;
            && (found <==> p == q || (p <= 1 && q <= 1))
            && (res == Duplicate <==> found)
  {
    hide CuckooFilter.Placed, CuckooFilter.KeyClass, CuckooFilter.Alt, CuckooFilter.IsFullBucket, Fingerprint16, Pow2,
         Crowded;
    f.SameClassIff(b, a);
    Fingerprint16Iff(f.hash(b), f.hash(a));
    f.NoneCrowded(a);
    ghost var c;
    res, c := f.Add(a, rnd);
    found := f.Query(b);
    res, c := f.Add(b, rnd);
  }

  // ---------------------------------------------------------------- whole runs

  datatype Call = AddCall(key: seq<byte>) | QueryCall(key: seq<byte>) | DeleteCall(key: seq<byte>) | ClearCall

  // What a call returns; a full filter raises an error and has lost a class.
  datatype Reply = AddReply(res: AddResult) | QueryReply(found: bool) | DeleteReply(deleted: bool) | ClearReply

  // The set after a call, and whether the call's answer is that of a set.  lost only
  // matters for an add that finds the filter full: then it is the one class missing.
  ghost function SetAfter(f: CuckooFilter, s: set<Class>, call: Call, reply: Reply, lost: Class): set<Class>
    requires f.Shape()
  {
    match call
    case AddCall(key) => if reply == AddReply(Full) then s + {f.KeyClass(key)} - {lost} else s + {f.KeyClass(key)}
    case QueryCall(key) => s
    case DeleteCall(key) => s - {f.KeyClass(key)}
    case ClearCall => {}
  }

  ghost predicate IsAnswer(f: CuckooFilter, s: set<Class>, call: Call, reply: Reply, lost: Class)
    requires f.Shape()
  {
    match call
    case AddCall(key) =>
      var c := f.KeyClass(key);
      if c in s then reply == AddReply(Duplicate)
      else reply == AddReply(Added) || (reply == AddReply(Full) && Crowded(s, c) && lost in s + {c})
    case QueryCall(key) => reply == QueryReply(f.KeyClass(key) in s)
    case DeleteCall(key) => reply == DeleteReply(f.KeyClass(key) in s)
    case ClearCall => reply == ClearReply
  }

  // The set a run leaves, and that every answer on the way was right.
  ghost predicate IsRun(f: CuckooFilter, calls: seq<Call>, replies: seq<Reply>, lost: seq<Class>, s: set<Class>)
    requires f.Shape() && |calls| == |replies| == |lost|
    decreases calls
  {
    if calls == [] then s == {}
    else
      var n := |calls| - 1;
      exists before ::
        && IsRun(f, calls[..n], replies[..n], lost[..n], before)
        && IsAnswer(f, before, calls[n], replies[n], lost[n])
        && s == SetAfter(f, before, calls[n], replies[n], lost[n])
  }

  method Perform(f: CuckooFilter, call: Call, rnd: nat -> nat) returns (reply: Reply, ghost lost: Class)
    requires f.Valid()
    modifies f, f.entries
    ensures f.Valid()
    ensures IsAnswer(f, old(f.Contents()), call, reply, lost)
    ensures f.Contents() == SetAfter(f, old(f.Contents()), call, reply, lost)
  {
    hide CuckooFilter.Placed, CuckooFilter.ClassOf, CuckooFilter.Alt;
    lost := Class(0, {});
    match call {
      case AddCall(key) =>
        var res;
        res, lost := f.Add(key, rnd);
        reply := AddReply(res);
      case QueryCall(key) =>
        var found := f.Query(key);
        reply := QueryReply(found);
      case DeleteCall(key) =>
        var deleted := f.Delete(key);
        reply := DeleteReply(deleted);
      case ClearCall =>
        f.Clear();
        reply := ClearReply;
    }
  }

  // Any sequence of calls with any random numbers answers like a set of classes, and the
  // count is the size of the set.
  method Session(requested: nat, h: seq<byte> -> u64, g: nat -> u64, calls: seq<Call>, rnds: seq<nat -> nat>)
    returns (f: CuckooFilter, replies: seq<Reply>, ghost lost: seq<Class>)
    requires 8 <= requested < 0x8000_0000 && |rnds| == |calls|
    ensures f.Valid() && |replies| == |lost| == |calls|
    ensures IsRun(f, calls, replies, lost, f.Contents()) && f.cnt == |f.Contents()|
  {
    hide CuckooFilter.Placed, CuckooFilter.Shape, IsAnswer, SetAfter;
    f := new CuckooFilter(requested, h, g);
    replies, lost := [], [];
    for i := 0 to |calls|
      invariant f.Valid() && fresh(f) && fresh(f.entries) && |replies| == |lost| == i
      invariant IsRun(f, calls[..i], replies, lost, f.Contents())
    {
      var reply;
      ghost var gone;
      reply, gone := Perform(f, calls[i], rnds[i]);
      assert calls[..i + 1][..i] == calls[..i];
      assert (replies + [reply])[..i] == replies && (lost + [gone])[..i] == lost;
      replies, lost := replies + [reply], lost + [gone];
    }
    assert calls[..|calls|] == calls;
    f.CountIsSize();
  }
}
