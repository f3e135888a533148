// Schema trees and their finalization (parquet.cpp, build_nested and add_columns).

module ParquetSchema {

  datatype Repetition = Required | Optional | Repeated

  // The logical types that the dissection treats specially; all others behave alike.
  datatype LogicalType = PlainGroup | MapGroup | ListGroup | TupleGroup

  datatype PhysicalType =
    | Boolean | Int32 | Int64 | Int96 | Float | Double | ByteArray
    | FixedLenByteArray(typeLength: nat)

  // What add_group and add_column collect.
  datatype Raw =
    | RawColumn(name: string, rt: Repetition, pt: PhysicalType)
    | RawGroup(name: string, rt: Repetition, lt: LogicalType, fields: seq<Raw>)

  // A finalized node: rl and dl are the maximum repetition and definition levels.
  datatype Node =
    | Column(name: string, rt: Repetition, rl: nat, dl: nat, pt: PhysicalType, id: nat)
    | Group(name: string, rt: Repetition, rl: nat, dl: nat, lt: LogicalType, fields: seq<Node>)

  datatype Result<T> = Ok(value: T) | Err(message: string)

  // ---------------------------------------------------------------- leaf columns

  function LeafCount(n: Node): (k: nat)
    decreases n, 0
  {
    match n
    case Column(_, _, _, _, _, _) => 1
    case Group(_, _, _, _, _, fields) => LeafCounts(fields)
  }

  function LeafCounts(fs: seq<Node>): (k: nat)
    decreases fs
  {
    if fs == [] then 0 else LeafCount(fs[0]) + LeafCounts(fs[1..])
  }

  function Leaves(n: Node): (ls: seq<Node>)
    ensures |ls| == LeafCount(n)
    ensures forall i :: 0 <= i < |ls| ==> ls[i].Column?
    decreases n, 0
  {
    match n
    case Column(_, _, _, _, _, _) => [n]
    case Group(_, _, _, _, _, fields) => LeavesOf(fields)
  }

  function LeavesOf(fs: seq<Node>): (ls: seq<Node>)
    ensures |ls| == LeafCounts(fs)
    ensures forall i :: 0 <= i < |ls| ==> ls[i].Column?
    decreases fs
  {
    if fs == [] then [] else Leaves(fs[0]) + LeavesOf(fs[1..])
  }

  // ---------------------------------------------------------------- finalized schemas

  // The level rule: a repeated field adds one to both levels of its parent, an
  // optional field adds one to the definition level only; column ids count leaves
  // in document order starting at lo; no group is empty; maps and lists have the
  // two- and one-field shape the dissection relies on.
  ghost predicate Fits(n: Node, r: nat, d: nat, lo: nat)
    decreases n, 0
  {
    && n.rl == r + (if n.rt == Repeated then 1 else 0)
    && n.dl == d + (if n.rt == Required then 0 else 1)
    && match n
       case Column(_, _, _, _, _, id) => id == lo
       case Group(_, _, _, _, lt, fields) =>
         && fields != []
         && FitsAll(fields, n.rl, n.dl, lo)
         && IsCollection(n)
  }

  ghost predicate FitsAll(fs: seq<Node>, r: nat, d: nat, lo: nat)
    decreases fs
  {
    fs == [] || (Fits(fs[0], r, d, lo) && FitsAll(fs[1..], r, d, lo + LeafCount(fs[0])))
  }

  // The checks build_nested makes on a group declared as a map or a list.
  predicate IsCollection(n: Node)
    requires n.Group?
  {
    && (n.lt == MapGroup || n.lt == ListGroup ==> n.rt != Repeated && |n.fields| == 1)
    && (n.lt == MapGroup ==> IsKeyValue(n.fields[0]))
    && (n.lt == ListGroup ==> IsListBody(n.fields[0]))
  }

  predicate IsKeyValue(n: Node) {
    && n.Group? && n.rt == Repeated && n.name == "key_value" && |n.fields| == 2
    && n.fields[0].Column? && n.fields[0].rt == Required && n.fields[0].name == "key"
    && n.fields[1].rt != Repeated && n.fields[1].name == "value"
  }

  predicate IsListBody(n: Node) {
    && n.Group? && n.rt == Repeated && n.name == "list" && |n.fields| == 1
    && n.fields[0].rt != Repeated && n.fields[0].name == "element"
  }

  // A whole schema: the root is a required group at level zero.
  ghost predicate IsSchema(root: Node) {
    root.Group? && root.rt == Required && root.lt == PlainGroup && Fits(root, 0, 0, 0)
  }

  // Forgetting levels and ids gives back what the user declared.
  function Erase(n: Node): Raw
    decreases n, 0
  {
    match n
    case Column(name, rt, _, _, pt, _) => RawColumn(name, rt, pt)
    case Group(name, rt, _, _, lt, fields) => RawGroup(name, rt, lt, EraseAll(fields))
  }

  function EraseAll(fs: seq<Node>): (rs: seq<Raw>)
    ensures |rs| == |fs|
    decreases fs
  {
    if fs == [] then [] else [Erase(fs[0])] + EraseAll(fs[1..])
  }

  // ---------------------------------------------------------------- which schemas are accepted

  predicate Accepted(n: Raw)
    decreases n, 0
  {
    n.RawGroup? ==> n.fields != [] && AllAccepted(n.fields) && RawIsCollection(n)
  }

  predicate AllAccepted(fs: seq<Raw>)
    decreases fs
  {
    fs == [] || (Accepted(fs[0]) && AllAccepted(fs[1..]))
  }

  predicate RawIsCollection(n: Raw)
    requires n.RawGroup?
  {
    && (n.lt == MapGroup || n.lt == ListGroup ==> n.rt != Repeated && |n.fields| == 1)
    && (n.lt == MapGroup ==> RawIsKeyValue(n.fields[0]))
    && (n.lt == ListGroup ==> RawIsListBody(n.fields[0]))
  }

  predicate RawIsKeyValue(n: Raw) {
    && n.RawGroup? && n.rt == Repeated && n.name == "key_value" && |n.fields| == 2
    && n.fields[0].RawColumn? && n.fields[0].rt == Required && n.fields[0].name == "key"
    && n.fields[1].rt != Repeated && n.fields[1].name == "value"
  }

  predicate RawIsListBody(n: Raw) {
    && n.RawGroup? && n.rt == Repeated && n.name == "list" && |n.fields| == 1
    && n.fields[0].rt != Repeated && n.fields[0].name == "element"
  }

  // ---------------------------------------------------------------- sequence lemmas

  lemma {:induction false} FitsAllSnoc(fs: seq<Node>, n: Node, r: nat, d: nat, lo: nat)
    requires FitsAll(fs, r, d, lo) && Fits(n, r, d, lo + LeafCounts(fs))
    ensures FitsAll(fs + [n], r, d, lo)
    ensures LeafCounts(fs + [n]) == LeafCounts(fs) + LeafCount(n)
    decreases fs
  {
    if fs == [] {
      assert fs + [n] == [n];
      assert LeafCounts([n]) == LeafCount(n) + LeafCounts([]);
    } else {
      assert (fs + [n])[1..] == fs[1..] + [n];
      FitsAllSnoc(fs[1..], n, r, d, lo + LeafCount(fs[0]));
    }
  }

  lemma {:induction false} EraseAllSnoc(fs: seq<Node>, n: Node)
    ensures EraseAll(fs + [n]) == EraseAll(fs) + [Erase(n)]
    decreases fs
  {
    if fs == [] {
      assert fs + [n] == [n];
    } else {
      assert (fs + [n])[1..] == fs[1..] + [n];
      EraseAllSnoc(fs[1..], n);
    }
  }

  lemma {:induction false} LeavesOfSnoc(fs: seq<Node>, n: Node)
    ensures LeavesOf(fs + [n]) == LeavesOf(fs) + Leaves(n)
    decreases fs
  {
    if fs == [] {
      assert fs + [n] == [n];
    } else {
      assert (fs + [n])[1..] == fs[1..] + [n];
      LeavesOfSnoc(fs[1..], n);
    }
  }

  lemma {:induction false} AllAcceptedAt(fs: seq<Raw>)
    ensures AllAccepted(fs) <==> forall i :: 0 <= i < |fs| ==> Accepted(fs[i])
    decreases fs
  {
    if fs != [] {
      AllAcceptedAt(fs[1..]);
      assert forall i :: 0 <= i < |fs[1..]| ==> fs[1..][i] == fs[i + 1];
      if forall i :: 0 <= i < |fs| ==> Accepted(fs[i]) {
        forall i | 0 <= i < |fs[1..]| ensures Accepted(fs[1..][i]) { assert Accepted(fs[i + 1]); }
      }
      if AllAccepted(fs) {
        forall i | 0 <= i < |fs| ensures Accepted(fs[i]) {
          if i > 0 { assert fs[i] == fs[1..][i - 1]; }
        }
      }
    }
  }

  lemma {:induction false} EraseAllAt(fs: seq<Node>, i: nat)
    requires i < |fs|
    ensures EraseAll(fs)[i] == Erase(fs[i])
    decreases fs
  {
    if i > 0 { EraseAllAt(fs[1..], i - 1); }
  }

  lemma ShapeOfErasure(n: Node)
    requires n.Group?
    ensures IsCollection(n) <==> RawIsCollection(Erase(n))
  {
    if n.fields != [] {
      var body := n.fields[0];
      EraseAllAt(n.fields, 0);
      if body.Group? {
        if |body.fields| >= 1 { EraseAllAt(body.fields, 0); }
        if |body.fields| >= 2 { EraseAllAt(body.fields, 1); }
      }
    }
  }

  // ---------------------------------------------------------------- building

  // build_nested: annotates the fields of group n one by one, threading the next
  // column id, and refuses malformed groups.  n is the declared group; its own levels
  // r and d have been chosen by the caller.
  method BuildNested(n: Raw, r: nat, d: nat, cid: nat) returns (res: Result<Node>, next: nat)
    requires n.RawGroup?
    ensures res.Ok? <==> n.fields != [] && AllAccepted(n.fields)
    ensures res.Ok? ==>
              && res.value.Group? && Erase(res.value) == n
              && res.value.rl == r && res.value.dl == d && res.value.fields != []
              && FitsAll(res.value.fields, r, d, cid)
              && next == cid + LeafCount(res.value)
    decreases n, 0
  {
    hide Fits, Accepted, Erase;
    AllAcceptedAt(n.fields);
    next := cid;
    if |n.fields| == 0 {
      return Err("group is empty"), next;
    }
    var fields: seq<Node> := [];
    for i := 0 to |n.fields|
      invariant |fields| == i && EraseAll(fields) == n.fields[..i]
      invariant FitsAll(fields, r, d, cid) && next == cid + LeafCounts(fields)
      invariant forall j :: 0 <= j < i ==> Accepted(n.fields[j])
    {
      var built;
      built, next := BuildField(n.fields[i], r, d, next);
      if built.Err? { return built, next; }
      FitsAllSnoc(fields, built.value, r, d, cid);
      EraseAllSnoc(fields, built.value);
      fields := fields + [built.value];
    }
    assert n.fields[..|n.fields|] == n.fields;
    res := Ok(Group(n.name, n.rt, r, d, n.lt, fields));
    ErasedGroup(n, res.value);
  }

  lemma ErasedGroup(n: Raw, g: Node)
    requires n.RawGroup? && g.Group? && EraseAll(g.fields) == n.fields
    requires g.name == n.name && g.rt == n.rt && g.lt == n.lt
    ensures Erase(g) == n
  {
  }

  // The loop body of build_nested: the levels of one field, and its own fields.
  method BuildField(cn: Raw, r: nat, d: nat, cid: nat) returns (res: Result<Node>, next: nat)
    ensures res.Ok? <==> Accepted(cn)
    ensures res.Ok? ==>
              Erase(res.value) == cn && Fits(res.value, r, d, cid) && next == cid + LeafCount(res.value)
    decreases cn, 1
  {
    var cr, cd := r, d;
    if cn.rt == Repeated {
      cr, cd := r + 1, d + 1;
    } else if cn.rt == Optional {
      cd := d + 1;
    }
    if cn.RawGroup? {
      res, next := BuildNested(cn, cr, cd, cid);
      if res.Err? { return; }
      ShapeOfErasure(res.value);
      if !IsCollection(res.value) { return Err("malformed map or list group"), next; }
    } else {
      res, next := Ok(Column(cn.name, cn.rt, cr, cd, cn.pt, cid)), cid + 1;
    }
  }

  // pq_schema_finalize on a fresh schema.
  method Finalize(schema: Raw) returns (res: Result<Node>)
    requires schema.RawGroup? && schema.rt == Required && schema.lt == PlainGroup
    ensures res.Ok? <==> Accepted(schema)
    ensures res.Ok? ==> IsSchema(res.value) && Erase(res.value) == schema
  {
    var next;
    res, next := BuildNested(schema, 0, 0, 0);
  }

  // add_columns: the leaves in document order.
  method AddColumns(n: Node) returns (columns: seq<Node>)
    requires n.Group?
    ensures columns == Leaves(n)
    decreases n
  {
    columns := [];
    for i := 0 to |n.fields|
      invariant columns == LeavesOf(n.fields[..i])
    {
      var cn := n.fields[i];
      LeavesOfSnoc(n.fields[..i], cn);
      assert n.fields[..i] + [cn] == n.fields[..i + 1];
      if cn.Group? {
        var cs := AddColumns(cn);
        columns := columns + cs;
      } else {
        columns := columns + [cn];
      }
    }
    assert n.fields[..|n.fields|] == n.fields;
  }

  // ---------------------------------------------------------------- what finalization guarantees

  // The id stored in a leaf is its position among the columns of the writer.
  lemma {:induction false} LeafIds(n: Node, r: nat, d: nat, lo: nat)
    requires Fits(n, r, d, lo)
    ensures forall i :: 0 <= i < LeafCount(n) ==> Leaves(n)[i].id == lo + i
    decreases n, 0
  {
    if n.Group? { LeafIdsAll(n.fields, n.rl, n.dl, lo); }
  }

  lemma {:induction false} LeafIdsAll(fs: seq<Node>, r: nat, d: nat, lo: nat)
    requires FitsAll(fs, r, d, lo)
    ensures forall i :: 0 <= i < LeafCounts(fs) ==> LeavesOf(fs)[i].id == lo + i
    decreases fs
  {
    if fs != [] {
      LeafIds(fs[0], r, d, lo);
      LeafIdsAll(fs[1..], r, d, lo + LeafCount(fs[0]));
    }
  }

  lemma {:induction false} IdsArePositions(root: Node, i: nat)
    requires IsSchema(root) && i < LeafCount(root)
    ensures Leaves(root)[i].id == i
  {
    LeafIds(root, 0, 0, 0);
  }

  // A group always has a leaf, so no record component is invisible in the columns.
  lemma {:induction false} LeafCountPositive(n: Node, r: nat, d: nat, lo: nat)
    requires Fits(n, r, d, lo)
    ensures LeafCount(n) >= 1
    decreases n
  {
    if n.Group? { LeafCountPositive(n.fields[0], n.rl, n.dl, lo); }
  }

  // The levels of a leaf are at least those of every ancestor, and a leaf that can
  // repeat can also be undefined.
  lemma {:induction false} LeafLevels(n: Node, r: nat, d: nat, lo: nat)
    requires Fits(n, r, d, lo)
    ensures forall i :: 0 <= i < LeafCount(n) ==>
                          && Leaves(n)[i].rl >= n.rl && Leaves(n)[i].dl >= n.dl
                          && Leaves(n)[i].rl - r <= Leaves(n)[i].dl - d
    decreases n, 0
  {
    if n.Group? { LeafLevelsAll(n.fields, n.rl, n.dl, lo); }
  }

  lemma {:induction false} LeafLevelsAll(fs: seq<Node>, r: nat, d: nat, lo: nat)
    requires FitsAll(fs, r, d, lo)
    ensures forall i :: 0 <= i < LeafCounts(fs) ==>
                          && LeavesOf(fs)[i].rl >= r && LeavesOf(fs)[i].dl >= d
                          && LeavesOf(fs)[i].rl - r <= LeavesOf(fs)[i].dl - d
    decreases fs
  {
    if fs != [] {
      LeafLevels(fs[0], r, d, lo);
      LeafLevelsAll(fs[1..], r, d, lo + LeafCount(fs[0]));
    }
  }
}
