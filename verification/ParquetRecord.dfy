// Lua input values, the canonical records they stand for, and which inputs a schema
// accepts (the acceptance side of dissect_field, dissect_record, dissect_map,
// dissect_list, dissect_tuple, dissect_null and the add_ functions in parquet.cpp).

module ParquetRecord {
  import opened Common
  import opened ParquetSchema

  // A byte string; one char stands for one byte.
  type Bytes = string

  // A Lua value.  A table is its array part (positions 1..objlen) and its remaining
  // key/value pairs in the order lua_next visits them.  Null is the light userdata
  // parquet.null.
  datatype Lua =
    | Nil
    | Null
    | Str(s: Bytes)
    | Num(x: real)
    | Bool(b: bool)
    | Table(arr: seq<Lua>, hash: seq<Pair>)
    | Other(typeName: string)

  datatype Pair = Pair(key: Lua, val: Lua)

  // A stored column value.
  datatype Value =
    | VBool(b: bool)
    | VInt32(i: int)
    | VInt64(i: int)
    | VInt96(s: Bytes)
    | VFloat(x: real)
    | VDouble(x: real)
    | VBytes(s: Bytes)
    | VFixed(s: Bytes)

  // The content of one field inside one instance of its parent: the occurrences of
  // the field.  A required field has exactly one, an optional one at most one.
  datatype Inst =
    | Vals(vs: seq<Value>)
    | Groups(gs: seq<seq<Inst>>)

  // The contents of all fields of a group, in schema order.
  type Record = seq<Inst>

  // ---------------------------------------------------------------- conforming records

  predicate TypeOk(pt: PhysicalType, v: Value) {
    match pt
    case Boolean => v.VBool?
    case Int32 => v.VInt32?
    case Int64 => v.VInt64?
    case Int96 => v.VInt96? && |v.s| == 12
    case Float => v.VFloat?
    case Double => v.VDouble?
    case ByteArray => v.VBytes?
    case FixedLenByteArray(len) => v.VFixed? && |v.s| == len
  }

  predicate CountOk(rt: Repetition, k: nat) {
    match rt
    case Required => k == 1
    case Optional => k <= 1
    case Repeated => true
  }

  ghost predicate Conforms(n: Node, inst: Inst)
    decreases n, 0
  {
    match n
    case Column(_, rt, _, _, pt, _) =>
      inst.Vals? && CountOk(rt, |inst.vs|) && forall v :: v in inst.vs ==> TypeOk(pt, v)
    case Group(_, rt, _, _, _, fields) =>
      && inst.Groups? && CountOk(rt, |inst.gs|)
      && forall k :: 0 <= k < |inst.gs| ==> ConformsAll(fields, inst.gs[k])
  }

  ghost predicate ConformsAll(fs: seq<Node>, rec: Record)
    decreases fs
  {
    |fs| == |rec| && forall i :: 0 <= i < |fs| ==> Conforms(fs[i], rec[i])
  }

  // ---------------------------------------------------------------- Lua table access

  // lua_getfield: the value stored under a string key.
  function GetField(hash: seq<Pair>, name: string): (v: Lua) {
    if hash == [] then Nil
    else if hash[0].key == Str(name) then hash[0].val
    else GetField(hash[1..], name)
  }

  function GetNumber(hash: seq<Pair>, x: real): (v: Lua) {
    if hash == [] then Nil
    else if hash[0].key == Num(x) then hash[0].val
    else GetNumber(hash[1..], x)
  }

  // lua_rawgeti with a 1-based index.
  function RawGetI(t: Lua, i: nat): (v: Lua)
    requires t.Table? && i >= 1
  {
    if i <= |t.arr| then t.arr[i - 1] else GetNumber(t.hash, i as real)
  }

  // lua_next: the array part under its numeric keys, then the hash part; a nil value
  // is an absent entry.
  function Entries(t: Lua): (ps: seq<Pair>)
    requires t.Table?
    ensures forall p :: p in ps ==> p.val != Nil
  {
    Present(seq(|t.arr|, i requires 0 <= i < |t.arr| => Pair(Num((i + 1) as real), t.arr[i])) + t.hash)
  }

  function Present(ps: seq<Pair>): (qs: seq<Pair>)
    ensures forall p :: p in qs ==> p.val != Nil
  {
    if ps == [] then []
    else (if ps[0].val == Nil then [] else [ps[0]]) + Present(ps[1..])
  }

  // ---------------------------------------------------------------- value conversion

  // Keeping the low bits of a two's complement integer.
  function Wrap(i: int, half: int): (r: int)
    requires half > 0
    ensures -half <= r < half
  {
    (i + half) % (2 * half) - half
  }

  // add_value with add_string, add_boolean, add_integer and add_number.
  function Convert(pt: PhysicalType, v: Lua): (r: Option<Value>)
    ensures r.Some? ==> TypeOk(pt, r.value)
  {
    match v
    case Str(s) =>
      (match pt
       case ByteArray => Some(VBytes(s))
       case FixedLenByteArray(len) => if |s| == len then Some(VFixed(s)) else None
       case Int96 => if |s| == 12 then Some(VInt96(s)) else None
       case _ => None)
    case Num(x) =>
      (match pt
       case Double => Some(VDouble(x))
       case Float => Some(VFloat(x))
       case Int32 => Some(VInt32(Wrap(Wrap(Truncate(x), 0x8000_0000_0000_0000), 0x8000_0000)))
       case Int64 => Some(VInt64(Wrap(Truncate(x), 0x8000_0000_0000_0000)))
       case _ => None)
    case Bool(b) => if pt == Boolean then Some(VBool(b)) else None
    case _ => None
  }

  // ---------------------------------------------------------------- the meaning of an input

  // All results, or None when one of them is missing.
  function Collect<T>(os: seq<Option<T>>): (r: Option<seq<T>>)
    ensures r.Some? <==> forall i :: 0 <= i < |os| ==> os[i].Some?
    ensures r.Some? ==> |r.value| == |os| && forall i :: 0 <= i < |os| ==> os[i] == Some(r.value[i])
  {
    if forall i :: 0 <= i < |os| ==> os[i].Some?
    then Some(seq(|os|, i requires 0 <= i < |os| && os[i].Some? => os[i].value))
    else None
  }

  function OneGroup(g: Option<Record>): (r: Option<Inst>) {
    if g.Some? then Some(Groups([g.value])) else None
  }

  function OneField(f: Option<Inst>): (r: Option<Record>) {
    if f.Some? then Some([f.value]) else None
  }

  function TwoFields(f: Option<Inst>, g: Option<Inst>): (r: Option<Record>) {
    if f.Some? && g.Some? then Some([f.value, g.value]) else None
  }

  function AsGroups(gs: Option<seq<Record>>): (r: Option<Inst>) {
    if gs.Some? then Some(Groups(gs.value)) else None
  }

  function AsVals(vs: Option<seq<Value>>): (r: Option<Inst>) {
    if vs.Some? then Some(Vals(vs.value)) else None
  }

  function OneValue(v: Option<Value>): (r: Option<Inst>) {
    if v.Some? then Some(Vals([v.value])) else None
  }

  // A missing field.  A missing required group is accepted below an optional or
  // repeated ancestor as a present group whose fields are all missing.
  function Missing(n: Node): (r: Option<Inst>)
    decreases n, 0
  {
    match n
    case Column(_, rt, _, _, _, _) => if rt == Required then None else Some(Vals([]))
    case Group(_, rt, _, dl, _, fields) =>
      if dl == 0 then None
      else if rt == Required then OneGroup(MissingAll(fields))
      else Some(Groups([]))
  }

  function MissingAll(fs: seq<Node>): (r: Option<Record>)
    decreases fs
  {
    Collect(seq(|fs|, i requires 0 <= i < |fs| => Missing(fs[i])))
  }

  // What value v given for field n means, or None when the input is refused.
  function ParseField(n: Node, v: Lua): (r: Option<Inst>)
    requires WellShaped(n)
    decreases n, 2
  {
    match v
    case Table(arr, hash) =>
      (match n
       case Column(_, rt, _, _, pt, _) =>
         if rt != Repeated then None else AsVals(ParseValues(pt, arr))
       case Group(_, rt, _, _, lt, fields) =>
         if rt == Repeated && |arr| > 0 then AsGroups(ParseInstances(n, arr))
         else OneGroup(ParseGroup(n, v)))
    case Nil => Missing(n)
    case Null => Missing(n)
    case _ => if n.Column? then OneValue(Convert(n.pt, v)) else None
  }

  // An array of plain values.
  function ParseValues(pt: PhysicalType, arr: seq<Lua>): (r: Option<seq<Value>>) {
    Collect(seq(|arr|, i requires 0 <= i < |arr| => Convert(pt, arr[i])))
  }

  // An array of groups, each dissected by field name.
  function ParseInstances(n: Node, arr: seq<Lua>): (r: Option<seq<Record>>)
    requires WellShaped(n) && n.Group?
    decreases n, 1
  {
    Collect(seq(|arr|, i requires 0 <= i < |arr| =>
      if arr[i].Table? then ParseRecord(n.fields, arr[i]) else None))
  }

  // One table as one instance of a group.
  function ParseGroup(n: Node, t: Lua): (r: Option<Record>)
    requires WellShaped(n) && n.Group? && t.Table?
    decreases n, 1
  {
    assert AllWellShaped(n.fields);
    match n.lt
    case MapGroup => OneField(ParseMap(n.fields[0], Entries(t)))
    case ListGroup => OneField(ParseList(n.fields[0], t.arr))
    case TupleGroup => ParseTuple(n.fields, t)
    case PlainGroup => ParseRecord(n.fields, t)
  }

  // Fields by name.
  function ParseRecord(fs: seq<Node>, t: Lua): (r: Option<Record>)
    requires AllWellShaped(fs) && t.Table?
    decreases fs
  {
    Collect(seq(|fs|, i requires 0 <= i < |fs| => ParseField(fs[i], GetField(t.hash, fs[i].name))))
  }

  // Fields by position.
  function ParseTuple(fs: seq<Node>, t: Lua): (r: Option<Record>)
    requires AllWellShaped(fs) && t.Table?
    decreases fs
  {
    Collect(seq(|fs|, i requires 0 <= i < |fs| => ParseField(fs[i], RawGetI(t, i + 1))))
  }

  // The key_value group of a map: one occurrence per entry.
  function ParseMap(kv: Node, ps: seq<Pair>): (r: Option<Inst>)
    requires WellShaped(kv) && IsKeyValue(kv)
    decreases kv, 1
  {
    AsGroups(Collect(seq(|ps|, i requires 0 <= i < |ps| => ParsePair(kv, ps[i]))))
  }

  function ParsePair(kv: Node, p: Pair): (r: Option<Record>)
    requires WellShaped(kv) && IsKeyValue(kv)
    decreases kv, 0
  {
    assert AllWellShaped(kv.fields);
    TwoFields(OneValue(Convert(kv.fields[0].pt, p.key)), ParseField(kv.fields[1], p.val))
  }

  // The list group of a list: one occurrence per element.
  function ParseList(body: Node, arr: seq<Lua>): (r: Option<Inst>)
    requires WellShaped(body) && IsListBody(body)
    decreases body, 1
  {
    AsGroups(Collect(seq(|arr|, i requires 0 <= i < |arr| => ParseElement(body, arr[i]))))
  }

  function ParseElement(body: Node, v: Lua): (r: Option<Record>)
    requires WellShaped(body) && IsListBody(body)
    decreases body, 0
  {
    assert AllWellShaped(body.fields);
    OneField(ParseField(body.fields[0], v))
  }

  // The part of a finalized schema's shape that parsing needs.
  ghost predicate WellShaped(n: Node)
    decreases n, 0
  {
    n.Group? ==> n.fields != [] && IsCollection(n) && AllWellShaped(n.fields)
  }

  ghost predicate AllWellShaped(fs: seq<Node>)
    decreases fs
  {
    forall i :: 0 <= i < |fs| ==> WellShaped(fs[i])
  }

  lemma {:induction false} FitsWellShaped(n: Node, r: nat, d: nat, lo: nat)
    requires Fits(n, r, d, lo)
    ensures WellShaped(n)
    decreases n, 0
  {
    if n.Group? { FitsAllWellShaped(n.fields, n.rl, n.dl, lo); }
  }

  lemma {:induction false} FitsAllWellShaped(fs: seq<Node>, r: nat, d: nat, lo: nat)
    requires FitsAll(fs, r, d, lo)
    ensures AllWellShaped(fs)
    decreases fs
  {
    if fs != [] {
      FitsWellShaped(fs[0], r, d, lo);
      FitsAllWellShaped(fs[1..], r, d, lo + LeafCount(fs[0]));
      assert forall i :: 1 <= i < |fs| ==> fs[i] == fs[1..][i - 1];
    }
  }

  // ---------------------------------------------------------------- element by element

  // An accepted list of inputs means the list of what its elements mean.

  lemma ValueAt(pt: PhysicalType, arr: seq<Lua>, i: nat)
    requires i < |arr| && ParseValues(pt, arr).Some?
    ensures Convert(pt, arr[i]) == Some(ParseValues(pt, arr).value[i])
  {
  }

  lemma InstanceAt(n: Node, arr: seq<Lua>, i: nat)
    requires WellShaped(n) && n.Group? && i < |arr| && ParseInstances(n, arr).Some?
    ensures arr[i].Table? && ParseRecord(n.fields, arr[i]) == Some(ParseInstances(n, arr).value[i])
  {
    assert (if arr[i].Table? then ParseRecord(n.fields, arr[i]) else None)
        == Some(ParseInstances(n, arr).value[i]);
  }

  lemma RecordAt(fs: seq<Node>, t: Lua, i: nat)
    requires AllWellShaped(fs) && t.Table? && i < |fs| && ParseRecord(fs, t).Some?
    ensures ParseField(fs[i], GetField(t.hash, fs[i].name)) == Some(ParseRecord(fs, t).value[i])
  {
  }

  lemma TupleAt(fs: seq<Node>, t: Lua, i: nat)
    requires AllWellShaped(fs) && t.Table? && i < |fs| && ParseTuple(fs, t).Some?
    ensures ParseField(fs[i], RawGetI(t, i + 1)) == Some(ParseTuple(fs, t).value[i])
  {
  }

  lemma PairAt(kv: Node, ps: seq<Pair>, i: nat)
    requires WellShaped(kv) && IsKeyValue(kv) && i < |ps| && ParseMap(kv, ps).Some?
    ensures ParsePair(kv, ps[i]) == Some(ParseMap(kv, ps).value.gs[i])
  {
  }

  lemma ElementAt(body: Node, arr: seq<Lua>, i: nat)
    requires WellShaped(body) && IsListBody(body) && i < |arr| && ParseList(body, arr).Some?
    ensures ParseElement(body, arr[i]) == Some(ParseList(body, arr).value.gs[i])
  {
  }

  // ---------------------------------------------------------------- parsing yields conforming records

  lemma {:induction false} MissingConforms(n: Node)
    requires Missing(n).Some?
    ensures Conforms(n, Missing(n).value)
    decreases n
  {
    if n.Group? && n.rt == Required {
      forall i | 0 <= i < |n.fields| ensures Conforms(n.fields[i], MissingAll(n.fields).value[i]) {
        assert Missing(n.fields[i]) == Some(MissingAll(n.fields).value[i]);
        MissingConforms(n.fields[i]);
      }
    }
  }

  lemma {:induction false} ParseConforms(n: Node, v: Lua)
    requires WellShaped(n) && ParseField(n, v).Some?
    ensures Conforms(n, ParseField(n, v).value)
    decreases n, 2
  {
    match v
    case Table(arr, hash) =>
      if n.Group? {
        if n.rt == Repeated && |arr| > 0 {
          forall i | 0 <= i < |arr| ensures ConformsAll(n.fields, ParseInstances(n, arr).value[i]) {
            InstanceAt(n, arr, i);
            RecordConforms(n.fields, arr[i]);
          }
        } else {
          GroupConforms(n, v);
        }
      }
    case Nil => MissingConforms(n);
    case Null => MissingConforms(n);
    case _ =>
  }

  lemma {:induction false} GroupConforms(n: Node, t: Lua)
    requires WellShaped(n) && n.Group? && t.Table? && ParseGroup(n, t).Some?
    ensures ConformsAll(n.fields, ParseGroup(n, t).value)
    decreases n, 1
  {
    match n.lt
    case MapGroup => MapConforms(n.fields[0], Entries(t));
    case ListGroup => ListConforms(n.fields[0], t.arr);
    case TupleGroup =>
      forall i | 0 <= i < |n.fields| ensures Conforms(n.fields[i], ParseTuple(n.fields, t).value[i]) {
        TupleAt(n.fields, t, i);
        ParseConforms(n.fields[i], RawGetI(t, i + 1));
      }
    case PlainGroup => RecordConforms(n.fields, t);
  }

  lemma {:induction false} RecordConforms(fs: seq<Node>, t: Lua)
    requires AllWellShaped(fs) && t.Table? && ParseRecord(fs, t).Some?
    ensures ConformsAll(fs, ParseRecord(fs, t).value)
    decreases fs
  {
    forall i | 0 <= i < |fs| ensures Conforms(fs[i], ParseRecord(fs, t).value[i]) {
      RecordAt(fs, t, i);
      ParseConforms(fs[i], GetField(t.hash, fs[i].name));
    }
  }

  lemma {:induction false} MapConforms(kv: Node, ps: seq<Pair>)
    requires WellShaped(kv) && IsKeyValue(kv) && ParseMap(kv, ps).Some?
    ensures Conforms(kv, ParseMap(kv, ps).value)
    decreases kv
  {
    forall i | 0 <= i < |ps| ensures ConformsAll(kv.fields, ParseMap(kv, ps).value.gs[i]) {
      assert AllWellShaped(kv.fields);
      PairAt(kv, ps, i);
      ParseConforms(kv.fields[1], ps[i].val);
    }
  }

  lemma {:induction false} ListConforms(body: Node, arr: seq<Lua>)
    requires WellShaped(body) && IsListBody(body) && ParseList(body, arr).Some?
    ensures Conforms(body, ParseList(body, arr).value)
    decreases body
  {
    forall i | 0 <= i < |arr| ensures ConformsAll(body.fields, ParseList(body, arr).value.gs[i]) {
      assert AllWellShaped(body.fields);
      ElementAt(body, arr, i);
      ParseConforms(body.fields[0], arr[i]);
    }
  }
}
