// What a Lua table says and what a stored record says, compared without the conversion that
// leads from one to the other (dissect_field and add_value in parquet.cpp).

module ParquetMeaning {
  import opened Bits
  import opened Common
  import opened ParquetSchema
  import opened ParquetRecord

  // ---------------------------------------------------------------- single values

  // A stored value as a Lua program would read it.
  function AsLua(v: Value): (l: Lua) {
    match v
    case VBool(b) => Bool(b)
    case VInt32(i) => Num(i as real)
    case VInt64(i) => Num(i as real)
    case VInt96(s) => Str(s)
    case VFloat(x) => Num(x)
    case VDouble(x) => Num(x)
    case VBytes(s) => Str(s)
    case VFixed(s) => Str(s)
  }

  // i is x without its fraction.
  predicate IsWholePart(x: real, i: int) {
    var r := i as real;
    if x >= 0.0 then r <= x && x < r + 1.0 else r - 1.0 < x && x <= r
  }

  predicate IsWhole(x: real, half: int) {
    x == x.Floor as real && -half <= x.Floor < half
  }

  // i is the number of the given range that whole is kept as: whole itself when it fits, and
  // otherwise the one with the same low bits.
  predicate IsKeptAs(whole: int, i: int, half: int)
    requires half > 0
  {
    -half <= i < half && (whole - i) % (2 * half) == 0
  }

  const HALF32 := 0x8000_0000
  const HALF64 := 0x8000_0000_0000_0000

  // The column keeps what was given.  Integer columns drop the fraction.
  ghost predicate Keeps(pt: PhysicalType, l: Lua, v: Value) {
    && TypeOk(pt, v)
    && match l
       case Str(s) => AsLua(v) == l
       case Bool(b) => AsLua(v) == l
       case Num(x) =>
         if pt == Int32 then exists i :: IsWholePart(x, i) && KeptTwice(i, v.i)
         else if pt == Int64 then exists i :: IsWholePart(x, i) && IsKeptAs(i, v.i, HALF64)
         else AsLua(v) == l
       case _ => false
  }

  // A number goes through 64 bits into 32.
  ghost predicate KeptTwice(whole: int, i: int) {
    exists j :: IsKeptAs(whole, j, HALF64) && IsKeptAs(j, i, HALF32)
  }

  lemma WholePartIsUnique(x: real, i: int, j: int)
    requires IsWholePart(x, i) && IsWholePart(x, j)
    ensures i == j
  {
    var r, s := i as real, j as real;
    assert r - s < 1.0 && s - r < 1.0;
    assert r - s == (i - j) as real;
  }

  lemma TruncateIsWholePart(x: real)
    ensures IsWholePart(x, Truncate(x))
  {
  }

  lemma WrapIsKept(whole: int, half: int)
    requires half > 0
    ensures IsKeptAs(whole, Wrap(whole, half), half)
  {
    var q := (whole + half) / (2 * half);
    assert whole + half == (2 * half) * q + (whole + half) % (2 * half);
    DivModUnique(whole - Wrap(whole, half), 2 * half, q, 0);
  }

  lemma KeptIsUnique(whole: int, i: int, j: int, half: int)
    requires half > 0 && IsKeptAs(whole, i, half) && IsKeptAs(whole, j, half)
    ensures i == j
  {
    var m := 2 * half;
    var p, q := (whole - i) / m, (whole - j) / m;
    assert whole - i == m * p && whole - j == m * q;
    assert m * (p - q) == m * p - m * q;
    Multiple(m, p - q);
  }

  lemma KeptWhenItFits(whole: int, half: int)
    requires -half <= whole < half
    ensures IsKeptAs(whole, whole, half)
  {
    DivModUnique(0, 2 * half, 0, 0);
  }

  // Conversion succeeds exactly when some value of the column's type keeps what was given,
  // and gives that value.
  lemma ConvertIffKeeps(pt: PhysicalType, l: Lua, v: Value)
    ensures Convert(pt, l) == Some(v) <==> Keeps(pt, l, v)
  {
    hide Truncate, Wrap, IsKeptAs, IsWholePart;
    match l
    case Num(x) =>
      if pt == Int32 && v.VInt32? {
        Keeps32(x, v.i);
      } else if pt == Int64 && v.VInt64? {
        Keeps64(x, v.i);
      }
    case _ =>
  }

  lemma Keeps64(x: real, i: int)
    ensures i == Wrap(Truncate(x), HALF64) <==> exists w :: IsWholePart(x, w) && IsKeptAs(w, i, HALF64)
  {
    hide Truncate, Wrap, IsKeptAs, IsWholePart;
    var t := Truncate(x);
    TruncateIsWholePart(x);
    WrapIsKept(t, HALF64);
    if w :| IsWholePart(x, w) && IsKeptAs(w, i, HALF64) {
      WholePartIsUnique(x, w, t);
      KeptIsUnique(t, i, Wrap(t, HALF64), HALF64);
    }
  }

  lemma Keeps32(x: real, i: int)
    ensures i == Wrap(Wrap(Truncate(x), HALF64), HALF32) <==> exists w :: IsWholePart(x, w) && KeptTwice(w, i)
  {
    hide Truncate, Wrap, IsKeptAs, IsWholePart;
    var t := Truncate(x);
    var u := Wrap(t, HALF64);
    TruncateIsWholePart(x);
    WrapIsKept(t, HALF64);
    WrapIsKept(u, HALF32);
    if w :| IsWholePart(x, w) && KeptTwice(w, i) {
      WholePartIsUnique(x, w, t);
      var j :| IsKeptAs(w, j, HALF64) && IsKeptAs(j, i, HALF32);
      KeptIsUnique(t, j, u, HALF64);
      KeptIsUnique(u, i, Wrap(u, HALF32), HALF32);
    }
  }

  // A string, a boolean, a number in a column of floating point type, and a whole number that
  // fits an integer column are read back as they were given.
  lemma ReadsBack(pt: PhysicalType, l: Lua)
    requires Convert(pt, l).Some?
    requires l.Num? && pt == Int32 ==> IsWhole(l.x, HALF32)
    requires l.Num? && pt == Int64 ==> IsWhole(l.x, HALF64)
    ensures AsLua(Convert(pt, l).value) == l
  {
    hide Convert, Truncate, IsKeptAs;
    var v := Convert(pt, l).value;
    ConvertIffKeeps(pt, l, v);
    if l.Num? && pt == Int64 {
      var i := l.x.Floor;
      var w :| IsWholePart(l.x, w) && IsKeptAs(w, v.i, HALF64);
      WholePartIsUnique(l.x, i, w);
      KeptWhenItFits(i, HALF64);
      KeptIsUnique(i, i, v.i, HALF64);
    } else if l.Num? && pt == Int32 {
      var i := l.x.Floor;
      var w :| IsWholePart(l.x, w) && KeptTwice(w, v.i);
      WholePartIsUnique(l.x, i, w);
      var j :| IsKeptAs(w, j, HALF64) && IsKeptAs(j, v.i, HALF32);
      KeptWhenItFits(i, HALF64);
      KeptIsUnique(i, i, j, HALF64);
      KeptWhenItFits(i, HALF32);
      KeptIsUnique(i, i, v.i, HALF32);
    }
  }

  // ---------------------------------------------------------------- tables

  // What a table holds under a key, the first such entry if there were several, or nil.
  ghost predicate IsUnder(hash: seq<Pair>, key: Lua, v: Lua) {
    || (exists i :: 0 <= i < |hash| && IsFirst(hash, key, i) && hash[i].val == v)
    || (v == Nil && forall i :: 0 <= i < |hash| ==> hash[i].key != key)
  }

  ghost predicate IsFirst(hash: seq<Pair>, key: Lua, i: nat)
    requires i < |hash|
  {
    hash[i].key == key && forall j :: 0 <= j < i ==> hash[j].key != key
  }

  lemma FirstIsUnique(hash: seq<Pair>, key: Lua, v: Lua, w: Lua)
    requires IsUnder(hash, key, v) && IsUnder(hash, key, w)
    ensures v == w
  {
  }

  lemma UnderTail(hash: seq<Pair>, key: Lua, v: Lua)
    requires hash != [] && hash[0].key != key && IsUnder(hash[1..], key, v)
    ensures IsUnder(hash, key, v)
  {
    if i :| 0 <= i < |hash[1..]| && IsFirst(hash[1..], key, i) && hash[1..][i].val == v {
      forall j | 0 <= j < i + 1 ensures hash[j].key != key {
        assert j > 0 ==> hash[j] == hash[1..][j - 1];
      }
      assert IsFirst(hash, key, i + 1);
    } else {
      forall j | 0 <= j < |hash| ensures hash[j].key != key {
        assert j > 0 ==> hash[j] == hash[1..][j - 1];
      }
    }
  }

  lemma {:induction false} GetFieldIsUnder(hash: seq<Pair>, name: string)
    ensures IsUnder(hash, Str(name), GetField(hash, name))
    decreases |hash|
  {
    if hash != [] {
      if hash[0].key == Str(name) {
        assert IsFirst(hash, Str(name), 0);
      } else {
        GetFieldIsUnder(hash[1..], name);
        UnderTail(hash, Str(name), GetField(hash[1..], name));
      }
    }
  }

  lemma {:induction false} GetNumberIsUnder(hash: seq<Pair>, x: real)
    ensures IsUnder(hash, Num(x), GetNumber(hash, x))
    decreases |hash|
  {
    if hash != [] {
      if hash[0].key == Num(x) {
        assert IsFirst(hash, Num(x), 0);
      } else {
        GetNumberIsUnder(hash[1..], x);
        UnderTail(hash, Num(x), GetNumber(hash[1..], x));
      }
    }
  }

  // What a table holds at a position, counted from one.
  ghost predicate IsAt(t: Lua, i: nat, v: Lua)
    requires t.Table? && i >= 1
  {
    if i <= |t.arr| then v == t.arr[i - 1] else IsUnder(t.hash, Num(i as real), v)
  }

  lemma RawGetIIsAt(t: Lua, i: nat)
    requires t.Table? && i >= 1
    ensures IsAt(t, i, RawGetI(t, i))
  {
    if i > |t.arr| { GetNumberIsUnder(t.hash, i as real); }
  }

  // Walking through a table meets every entry that is not nil, as often as it is there, and
  // in order: the array part first.
  lemma {:induction false} PresentIsAll(ps: seq<Pair>, p: Pair)
    ensures multiset(Present(ps))[p] == if p.val == Nil then 0 else multiset(ps)[p]
    decreases |ps|
  {
    if ps != [] {
      assert ps == [ps[0]] + ps[1..];
      PresentIsAll(ps[1..], p);
    }
  }

  lemma {:induction false} PresentFirst(ps: seq<Pair>)
    requires ps != []
    ensures Present(ps) == (if ps[0].val == Nil then [] else [ps[0]]) + Present(ps[1..])
  {
  }

  lemma {:induction false} PresentAppend(ps: seq<Pair>, qs: seq<Pair>)
    ensures Present(ps + qs) == Present(ps) + Present(qs)
    decreases |ps|
  {
    if ps == [] {
      assert ps + qs == qs;
    } else {
      hide Present;
      var first := if ps[0].val == Nil then [] else [ps[0]];
      assert (ps + qs)[1..] == ps[1..] + qs && (ps + qs)[0] == ps[0];
      PresentFirst(ps);
      PresentFirst(ps + qs);
      PresentAppend(ps[1..], qs);
      assert first + (Present(ps[1..]) + Present(qs)) == first + Present(ps[1..]) + Present(qs);
    }
  }

  function Positions(arr: seq<Lua>): (ps: seq<Pair>) {
    seq(|arr|, i requires 0 <= i < |arr| => Pair(Num((i + 1) as real), arr[i]))
  }

  lemma EntriesAreAll(t: Lua, p: Pair)
    requires t.Table?
    ensures Entries(t) == Present(Positions(t.arr)) + Present(t.hash)
    ensures multiset(Entries(t))[p] ==
            if p.val == Nil then 0 else multiset(Positions(t.arr))[p] + multiset(t.hash)[p]
  {
    hide Present;
    assert Entries(t) == Present(Positions(t.arr) + t.hash);
    PresentAppend(Positions(t.arr), t.hash);
    PresentIsAll(Positions(t.arr), p);
    PresentIsAll(t.hash, p);
  }

  // ---------------------------------------------------------------- fields and records

  // The stored occurrences of a field say what v says.
  ghost predicate Says(n: Node, inst: Inst, v: Lua)
    requires WellShaped(n)
    decreases n, 2
  {
    match v
    case Nil => SaysNothing(n, inst)
    case Null => SaysNothing(n, inst)
    case Table(arr, hash) =>
      if n.Column? then n.rt == Repeated && inst.Vals? && KeepsAll(n.pt, arr, inst.vs)
      else
        && inst.Groups?
        && (if n.rt == Repeated && |arr| > 0 then SaysGroups(n, inst.gs, arr)
            else |inst.gs| == 1 && SaysGroup(n, inst.gs[0], v))
    case _ => n.Column? && inst.Vals? && |inst.vs| == 1 && Keeps(n.pt, v, inst.vs[0])
  }

  // Nothing is given: the field does not occur, or it occurs with nothing in it when it has
  // to and something above it does not.
  ghost predicate SaysNothing(n: Node, inst: Inst)
    decreases n, 0
  {
    if n.Column? then n.rt != Required && inst == Vals([])
    else
      && n.dl > 0 && inst.Groups?
      && (if n.rt != Required then inst.gs == []
          else
            && |inst.gs| == 1 && |inst.gs[0]| == |n.fields|
            && forall i :: 0 <= i < |n.fields| ==> SaysNothing(n.fields[i], inst.gs[0][i]))
  }

  ghost predicate KeepsAll(pt: PhysicalType, arr: seq<Lua>, vs: seq<Value>) {
    |vs| == |arr| && forall i :: 0 <= i < |arr| ==> Keeps(pt, arr[i], vs[i])
  }

  // An array of tables, one for every instance.
  ghost predicate SaysGroups(n: Node, gs: seq<Record>, arr: seq<Lua>)
    requires WellShaped(n) && n.Group?
    decreases n, 1
  {
    |gs| == |arr| && forall i :: 0 <= i < |arr| ==> arr[i].Table? && SaysRecord(n.fields, gs[i], arr[i])
  }

  ghost predicate SaysGroup(n: Node, rec: Record, t: Lua)
    requires WellShaped(n) && n.Group? && t.Table?
    decreases n, 1
  {
    assert AllWellShaped(n.fields);
    match n.lt
    case MapGroup => |rec| == 1 && rec[0].Groups? && SaysMap(n.fields[0], rec[0].gs, Entries(t))
    case ListGroup => |rec| == 1 && rec[0].Groups? && SaysList(n.fields[0], rec[0].gs, t.arr)
    case TupleGroup => SaysTuple(n.fields, rec, t)
    case PlainGroup => SaysRecord(n.fields, rec, t)
  }

  // Under its name every field says what the table holds there.
  ghost predicate SaysRecord(fs: seq<Node>, rec: Record, t: Lua)
    requires AllWellShaped(fs) && t.Table?
    decreases fs
  {
    |rec| == |fs| && forall i :: 0 <= i < |fs| ==> SaysUnder(fs[i], rec[i], t.hash, Str(fs[i].name))
  }

  ghost predicate SaysUnder(n: Node, inst: Inst, hash: seq<Pair>, key: Lua)
    requires WellShaped(n)
    decreases n, 3
  {
    exists v :: IsUnder(hash, key, v) && Says(n, inst, v)
  }

  ghost predicate SaysTuple(fs: seq<Node>, rec: Record, t: Lua)
    requires AllWellShaped(fs) && t.Table?
    decreases fs
  {
    |rec| == |fs| && forall i :: 0 <= i < |fs| ==> SaysAt(fs[i], rec[i], t, i + 1)
  }

  ghost predicate SaysAt(n: Node, inst: Inst, t: Lua, i: nat)
    requires WellShaped(n) && t.Table? && i >= 1
    decreases n, 3
  {
    exists v :: IsAt(t, i, v) && Says(n, inst, v)
  }

  // One instance for every entry, key and value each in their field.
  ghost predicate SaysMap(kv: Node, gs: seq<Record>, ps: seq<Pair>)
    requires WellShaped(kv) && IsKeyValue(kv)
    decreases kv, 1
  {
    |gs| == |ps| && forall i :: 0 <= i < |ps| ==> SaysPair(kv, gs[i], ps[i])
  }

  ghost predicate SaysPair(kv: Node, rec: Record, p: Pair)
    requires WellShaped(kv) && IsKeyValue(kv)
    decreases kv, 0
  {
    assert AllWellShaped(kv.fields);
    && |rec| == 2 && rec[0].Vals? && |rec[0].vs| == 1
    && Keeps(kv.fields[0].pt, p.key, rec[0].vs[0]) && Says(kv.fields[1], rec[1], p.val)
  }

  ghost predicate SaysList(body: Node, gs: seq<Record>, arr: seq<Lua>)
    requires WellShaped(body) && IsListBody(body)
    decreases body, 1
  {
    assert AllWellShaped(body.fields);
    |gs| == |arr| && forall i :: 0 <= i < |arr| ==> |gs[i]| == 1 && Says(body.fields[0], gs[i][0], arr[i])
  }

  // ---------------------------------------------------------------- parsing keeps the meaning

  lemma {:induction false} MissingIff(n: Node, inst: Inst)
    ensures Missing(n) == Some(inst) <==> SaysNothing(n, inst)
    decreases n, 0
  {
    if n.Group? && n.rt == Required && inst.Groups? && |inst.gs| == 1 {
      var rec := inst.gs[0];
      assert inst.gs == [rec];
      forall i | 0 <= i < |n.fields| && i < |rec|
        ensures Missing(n.fields[i]) == Some(rec[i]) <==> SaysNothing(n.fields[i], rec[i])
      {
        MissingIff(n.fields[i], rec[i]);
      }
      if SaysNothing(n, inst) { assert MissingAll(n.fields).value == rec; }
    }
  }

  // A value is accepted for a field exactly when some stored occurrences say what it says,
  // and these are the ones it is taken for.
  lemma {:induction false} FieldIff(n: Node, inst: Inst, v: Lua)
    requires WellShaped(n)
    ensures ParseField(n, v) == Some(inst) <==> Says(n, inst, v)
    decreases n, 2
  {
    match v
    case Nil => MissingIff(n, inst);
    case Null => MissingIff(n, inst);
    case Table(arr, hash) =>
      if n.Column? {
        if inst.Vals? { ValuesIff(n.pt, inst.vs, arr); }
      } else if inst.Groups? {
        if n.rt == Repeated && |arr| > 0 {
          InstancesIff(n, inst.gs, arr);
        } else if |inst.gs| == 1 {
          assert inst.gs == [inst.gs[0]];
          GroupIff(n, inst.gs[0], v);
        }
      }
    case _ =>
      if n.Column? && inst.Vals? && |inst.vs| == 1 {
        assert inst.vs == [inst.vs[0]];
        ConvertIffKeeps(n.pt, v, inst.vs[0]);
      }
  }

  lemma ValuesIff(pt: PhysicalType, vs: seq<Value>, arr: seq<Lua>)
    ensures ParseValues(pt, arr) == Some(vs) <==> KeepsAll(pt, arr, vs)
  {
    hide Convert, Keeps;
    forall i | 0 <= i < |arr| && i < |vs| ensures Convert(pt, arr[i]) == Some(vs[i]) <==> Keeps(pt, arr[i], vs[i]) {
      ConvertIffKeeps(pt, arr[i], vs[i]);
    }
    if KeepsAll(pt, arr, vs) { assert ParseValues(pt, arr).value == vs; }
  }

  lemma {:induction false} InstancesIff(n: Node, gs: seq<Record>, arr: seq<Lua>)
    requires WellShaped(n) && n.Group?
    ensures ParseInstances(n, arr) == Some(gs) <==> SaysGroups(n, gs, arr)
    decreases n, 1
  {
    hide ParseRecord, SaysRecord;
    forall i | 0 <= i < |arr| && i < |gs|
      ensures arr[i].Table? ==>
                (ParseRecord(n.fields, arr[i]) == Some(gs[i]) <==> SaysRecord(n.fields, gs[i], arr[i]))
    {
      if arr[i].Table? { RecordIff(n.fields, gs[i], arr[i]); }
    }
    if SaysGroups(n, gs, arr) {
      assert ParseInstances(n, arr).value == gs;
    } else if ParseInstances(n, arr) == Some(gs) {
      forall i | 0 <= i < |arr| ensures arr[i].Table? && ParseRecord(n.fields, arr[i]) == Some(gs[i]) {
        InstanceAt(n, arr, i);
      }
    }
  }

  lemma {:induction false} GroupIff(n: Node, rec: Record, t: Lua)
    requires WellShaped(n) && n.Group? && t.Table?
    ensures ParseGroup(n, t) == Some(rec) <==> SaysGroup(n, rec, t)
    decreases n, 1
  {
    assert AllWellShaped(n.fields);
    match n.lt
    case MapGroup =>
      if |rec| == 1 && rec[0].Groups? {
        assert rec == [rec[0]];
        MapIff(n.fields[0], rec[0].gs, Entries(t));
      }
    case ListGroup =>
      if |rec| == 1 && rec[0].Groups? {
        assert rec == [rec[0]];
        ListIff(n.fields[0], rec[0].gs, t.arr);
      }
    case TupleGroup => TupleIff(n.fields, rec, t);
    case PlainGroup => RecordIff(n.fields, rec, t);
  }

  lemma {:induction false} UnderIff(n: Node, inst: Inst, hash: seq<Pair>, name: string)
    requires WellShaped(n)
    ensures ParseField(n, GetField(hash, name)) == Some(inst) <==> SaysUnder(n, inst, hash, Str(name))
    decreases n, 3
  {
    hide ParseField, Says, IsUnder;
    var v := GetField(hash, name);
    GetFieldIsUnder(hash, name);
    FieldIff(n, inst, v);
    if w :| IsUnder(hash, Str(name), w) && Says(n, inst, w) { FirstIsUnique(hash, Str(name), v, w); }
  }

  lemma {:induction false} AtIff(n: Node, inst: Inst, t: Lua, i: nat)
    requires WellShaped(n) && t.Table? && i >= 1
    ensures ParseField(n, RawGetI(t, i)) == Some(inst) <==> SaysAt(n, inst, t, i)
    decreases n, 3
  {
    hide ParseField, Says, IsUnder;
    var v := RawGetI(t, i);
    RawGetIIsAt(t, i);
    FieldIff(n, inst, v);
    if w :| IsAt(t, i, w) && Says(n, inst, w) {
      if i > |t.arr| { FirstIsUnique(t.hash, Num(i as real), v, w); }
    }
  }

  lemma {:induction false} RecordIff(fs: seq<Node>, rec: Record, t: Lua)
    requires AllWellShaped(fs) && t.Table?
    ensures ParseRecord(fs, t) == Some(rec) <==> SaysRecord(fs, rec, t)
    decreases fs
  {
    hide ParseField, SaysUnder;
    forall i | 0 <= i < |fs| && i < |rec|
      ensures ParseField(fs[i], GetField(t.hash, fs[i].name)) == Some(rec[i]) <==>
              SaysUnder(fs[i], rec[i], t.hash, Str(fs[i].name))
    {
      UnderIff(fs[i], rec[i], t.hash, fs[i].name);
    }
    if SaysRecord(fs, rec, t) {
      assert ParseRecord(fs, t).value == rec;
    } else if ParseRecord(fs, t) == Some(rec) {
      forall i | 0 <= i < |fs| ensures ParseField(fs[i], GetField(t.hash, fs[i].name)) == Some(rec[i]) {
        RecordAt(fs, t, i);
      }
    }
  }

  lemma {:induction false} TupleIff(fs: seq<Node>, rec: Record, t: Lua)
    requires AllWellShaped(fs) && t.Table?
    ensures ParseTuple(fs, t) == Some(rec) <==> SaysTuple(fs, rec, t)
    decreases fs
  {
    hide ParseField, SaysAt, RawGetI;
    forall i | 0 <= i < |fs| && i < |rec|
      ensures ParseField(fs[i], RawGetI(t, i + 1)) == Some(rec[i]) <==> SaysAt(fs[i], rec[i], t, i + 1)
    {
      AtIff(fs[i], rec[i], t, i + 1);
    }
    if SaysTuple(fs, rec, t) {
      assert ParseTuple(fs, t).value == rec;
    } else if ParseTuple(fs, t) == Some(rec) {
      forall i | 0 <= i < |fs| ensures ParseField(fs[i], RawGetI(t, i + 1)) == Some(rec[i]) {
        TupleAt(fs, t, i);
      }
    }
  }

  lemma {:induction false} MapIff(kv: Node, gs: seq<Record>, ps: seq<Pair>)
    requires WellShaped(kv) && IsKeyValue(kv)
    ensures ParseMap(kv, ps) == Some(Groups(gs)) <==> SaysMap(kv, gs, ps)
    decreases kv, 1
  {
    hide ParsePair, SaysPair;
    forall i | 0 <= i < |ps| && i < |gs| ensures ParsePair(kv, ps[i]) == Some(gs[i]) <==> SaysPair(kv, gs[i], ps[i]) {
      PairIff(kv, gs[i], ps[i]);
    }
    if SaysMap(kv, gs, ps) { assert ParseMap(kv, ps).value.gs == gs; }
  }

  lemma {:induction false} PairIff(kv: Node, rec: Record, p: Pair)
    requires WellShaped(kv) && IsKeyValue(kv)
    ensures ParsePair(kv, p) == Some(rec) <==> SaysPair(kv, rec, p)
    decreases kv, 0
  {
    hide Convert, Keeps, ParseField, Says;
    assert AllWellShaped(kv.fields);
    if |rec| == 2 {
      FieldIff(kv.fields[1], rec[1], p.val);
      assert rec == [rec[0], rec[1]];
      if rec[0].Vals? && |rec[0].vs| == 1 {
        assert rec[0].vs == [rec[0].vs[0]];
        ConvertIffKeeps(kv.fields[0].pt, p.key, rec[0].vs[0]);
      }
    }
  }

  lemma {:induction false} ListIff(body: Node, gs: seq<Record>, arr: seq<Lua>)
    requires WellShaped(body) && IsListBody(body)
    ensures ParseList(body, arr) == Some(Groups(gs)) <==> SaysList(body, gs, arr)
    decreases body, 1
  {
    hide ParseField, Says;
    assert AllWellShaped(body.fields);
    forall i | 0 <= i < |arr| && i < |gs|
      ensures ParseElement(body, arr[i]) == Some(gs[i]) <==>
              |gs[i]| == 1 && Says(body.fields[0], gs[i][0], arr[i])
    {
      if |gs[i]| == 1 {
        assert gs[i] == [gs[i][0]];
        FieldIff(body.fields[0], gs[i][0], arr[i]);
      }
    }
    if SaysList(body, gs, arr) { assert ParseList(body, arr).value.gs == gs; }
  }

  // A string, a boolean, a number in a floating point column and a whole number that fits an
  // integer column, given under the name of a column, is what is read back under that name.
  lemma NamedFieldReadsBack(fs: seq<Node>, rec: Record, t: Lua, i: nat, v: Lua)
    requires AllWellShaped(fs) && t.Table? && SaysRecord(fs, rec, t)
    requires i < |fs| && fs[i].Column? && IsUnder(t.hash, Str(fs[i].name), v) && (v.Str? || v.Bool? || v.Num?)
    requires v.Num? && fs[i].pt == Int32 ==> IsWhole(v.x, HALF32)
    requires v.Num? && fs[i].pt == Int64 ==> IsWhole(v.x, HALF64)
    ensures rec[i].Vals? && |rec[i].vs| == 1 && AsLua(rec[i].vs[0]) == v
  {
    hide Keeps, Convert, IsUnder;
    assert SaysUnder(fs[i], rec[i], t.hash, Str(fs[i].name));
    var w :| IsUnder(t.hash, Str(fs[i].name), w) && Says(fs[i], rec[i], w);
    FirstIsUnique(t.hash, Str(fs[i].name), v, w);
    ConvertIffKeeps(fs[i].pt, v, rec[i].vs[0]);
    ReadsBack(fs[i].pt, v);
  }
}
