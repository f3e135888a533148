// One column of a writer: the level vectors, the typed value store and the rollback
// counters (parquet.cpp, pq_column, update_levels, add_*, reset_record and the body of
// the loop in rollback_record).

module ParquetColumn {
  import opened Common
  import opened ParquetSchema
  import opened ParquetRecord
  import opened ParquetShred

  // An element of the typed value vector.  Byte arrays live in a shared byte vector and
  // are remembered by offset.
  datatype Cell =
    | CInt32(i: int)
    | CInt64(i: int)
    | CInt96(s: Bytes)
    | CFloat(x: real)
    | CDouble(x: real)
    | CByteArray(len: nat, pos: nat)
    | CFixed(pos: nat)

  // What the file writer is handed for a column.
  datatype ColumnView = ColumnView(numValues: nat, rlevels: seq<nat>, dlevels: seq<nat>, values: seq<Value>)

  function Reps(es: Stream): (rs: seq<nat>)
    ensures |rs| == |es|
  {
    seq(|es|, i requires 0 <= i < |es| => es[i].rep)
  }

  function Defs(es: Stream): (ds: seq<nat>)
    ensures |ds| == |es|
  {
    seq(|es|, i requires 0 <= i < |es| => es[i].def)
  }

  // The view of a column that has received the entries es.
  function ViewOf(n: Node, es: Stream): (v: ColumnView)
    requires n.Column?
  {
    ColumnView(|es|, if n.rl > 0 then Reps(es) else [], if n.dl > 0 then Defs(es) else [], Defined(es))
  }

  // Levels within the node's maxima; a value exactly at the maximum definition level.
  ghost predicate EntryOk(n: Node, e: Entry)
    requires n.Column?
  {
    && e.rep <= n.rl && e.def <= n.dl
    && (e.val.Some? <==> e.def == n.dl)
    && (e.val.Some? ==> TypeOk(n.pt, e.val.value))
  }

  ghost predicate EntriesOk(n: Node, es: Stream)
    requires n.Column?
  {
    forall i :: 0 <= i < |es| ==> EntryOk(n, es[i])
  }

  // ---------------------------------------------------------------- reading a view back

  // The entries a reader recovers: absent level vectors stand for zeros, and a value is
  // taken from the value vector at each maximum definition level.
  function ReadFrom(n: Node, v: ColumnView, i: nat, k: nat): (es: Stream)
    requires n.Column?
    decreases v.numValues - i
  {
    if i >= v.numValues then []
    else
      var r := if i < |v.rlevels| then v.rlevels[i] else 0;
      var d := if i < |v.dlevels| then v.dlevels[i] else 0;
      if d == n.dl && k < |v.values| then [Entry(r, d, Some(v.values[k]))] + ReadFrom(n, v, i + 1, k + 1)
      else [Entry(r, d, None)] + ReadFrom(n, v, i + 1, k)
  }

  function ReadBack(n: Node, v: ColumnView): (es: Stream)
    requires n.Column?
  {
    ReadFrom(n, v, 0, 0)
  }

  lemma {:induction false} DefinedFirst(es: Stream)
    requires es != []
    ensures Defined(es) == (if es[0].val.Some? then [es[0].val.value] else []) + Defined(es[1..])
  {
  }

  lemma {:induction false} DefinedAppend(a: Stream, b: Stream)
    ensures Defined(a + b) == Defined(a) + Defined(b)
    decreases a
  {
    if a == [] {
      assert a + b == b;
    } else {
      hide Defined;
      var first := if a[0].val.Some? then [a[0].val.value] else [];
      assert (a + b)[1..] == a[1..] + b && (a + b)[0] == a[0];
      DefinedFirst(a);
      DefinedFirst(a + b);
      DefinedAppend(a[1..], b);
      assert first + (Defined(a[1..]) + Defined(b)) == first + Defined(a[1..]) + Defined(b);
    }
  }

  // The value of an entry is found behind the values of the entries before it.
  lemma DefinedAt(es: Stream, i: nat)
    requires i < |es|
    ensures var k := |Defined(es[..i])|;
            && |Defined(es[..i + 1])| == k + (if es[i].val.Some? then 1 else 0)
            && (es[i].val.Some? ==> k < |Defined(es)| && Defined(es)[k] == es[i].val.value)
  {
    assert es[..i + 1] == es[..i] + [es[i]] && es == es[..i + 1] + es[i + 1..];
    DefinedAppend(es[..i], [es[i]]);
    DefinedAppend(es[..i + 1], es[i + 1..]);
  }

  lemma {:induction false} ReadFromSuffix(n: Node, es: Stream, i: nat)
    requires n.Column? && EntriesOk(n, es) && i <= |es|
    ensures ReadFrom(n, ViewOf(n, es), i, |Defined(es[..i])|) == es[i..]
    decreases |es| - i
  {
    hide Defined, TypeOk;
    if i < |es| {
      assert EntryOk(n, es[i]);
      DefinedAt(es, i);
      ReadFromSuffix(n, es, i + 1);
      assert es[i..] == [es[i]] + es[i + 1..];
    }
  }

  // No information is lost between the entries of a column and the vectors that are
  // written to the file.
  lemma {:induction false} ReadBackOfView(n: Node, es: Stream)
    requires n.Column? && EntriesOk(n, es)
    ensures ReadBack(n, ViewOf(n, es)) == es
  {
    ReadFromSuffix(n, es, 0);
    assert es[0..] == es && es[..0] == [];
  }

  // ---------------------------------------------------------------- decoding the value store

  predicate CellOk(pt: PhysicalType, c: Cell, size: nat) {
    match pt
    case Boolean => false
    case Int32 => c.CInt32?
    case Int64 => c.CInt64?
    case Int96 => c.CInt96?
    case Float => c.CFloat?
    case Double => c.CDouble?
    case ByteArray => c.CByteArray? && c.pos + c.len <= size
    case FixedLenByteArray(len) => c.CFixed? && c.pos + len <= size
  }

  function Decode(pt: PhysicalType, c: Cell, bytes: Bytes): (v: Value)
    requires CellOk(pt, c, |bytes|)
  {
    match c
    case CInt32(i) => VInt32(i)
    case CInt64(i) => VInt64(i)
    case CInt96(s) => VInt96(s)
    case CFloat(x) => VFloat(x)
    case CDouble(x) => VDouble(x)
    case CByteArray(len, pos) => VBytes(bytes[pos..pos + len])
    case CFixed(pos) => VFixed(bytes[pos..pos + pt.typeLength])
  }

  function BoolByte(b: bool): char { if b then 1 as char else 0 as char }

  // The values in the store.  Booleans are kept in the byte vector itself.
  function Decoded(pt: PhysicalType, cells: seq<Cell>, bytes: Bytes): (vs: seq<Value>)
    requires pt != Boolean ==> forall i :: 0 <= i < |cells| ==> CellOk(pt, cells[i], |bytes|)
    ensures |vs| == if pt == Boolean then |bytes| else |cells|
  {
    if pt == Boolean then seq(|bytes|, i requires 0 <= i < |bytes| => VBool(bytes[i] != 0 as char))
    else seq(|cells|, i requires 0 <= i < |cells| && CellOk(pt, cells[i], |bytes|) => Decode(pt, cells[i], bytes))
  }

  // Growing the byte vector never disturbs an offset handed out earlier.
  lemma DecodedGrows(pt: PhysicalType, cells: seq<Cell>, bytes: Bytes, c: Cell, extra: Bytes)
    requires pt != Boolean && forall i :: 0 <= i < |cells| ==> CellOk(pt, cells[i], |bytes|)
    requires CellOk(pt, c, |bytes + extra|)
    ensures forall i :: 0 <= i < |cells + [c]| ==> CellOk(pt, (cells + [c])[i], |bytes + extra|)
    ensures Decoded(pt, cells + [c], bytes + extra) ==
            Decoded(pt, cells, bytes) + [Decode(pt, c, bytes + extra)]
  {
    forall i | 0 <= i < |cells| ensures Decode(pt, cells[i], bytes + extra) == Decode(pt, cells[i], bytes) {
      match cells[i]
      case CByteArray(len, pos) => assert (bytes + extra)[pos..pos + len] == bytes[pos..pos + len];
      case CFixed(pos) => assert (bytes + extra)[pos..pos + pt.typeLength] == bytes[pos..pos + pt.typeLength];
      case _ =>
    }
  }

  lemma DecodedPrefix(pt: PhysicalType, cells: seq<Cell>, bytes: Bytes, k: nat)
    requires pt != Boolean && (forall i :: 0 <= i < |cells| ==> CellOk(pt, cells[i], |bytes|)) && k <= |cells|
    ensures Decoded(pt, cells[..k], bytes) == Decoded(pt, cells, bytes)[..k]
  {
  }

  class ColumnBuffer {
    const node: Node
    var numValues: nat
    var rlevels: seq<nat>
    var dlevels: seq<nat>
    var bytes: Bytes
    var cells: seq<Cell>
    var recNum: nat
    var recRItems: nat
    var recDItems: nat
    var recVItems: nat
    // The entries received since the last row group, and how many of them belong to
    // records that were completely dissected.
    ghost var log: Stream
    ghost var base: nat

    ghost predicate Valid()
      reads `log, `numValues, `rlevels, `dlevels, `bytes, `cells, `recRItems, `recDItems
    {
      && node.Column? && EntriesOk(node, log)
      && (node.dl == 0 ==> node.rl == 0 && recDItems == 0)
      && (node.rl == 0 ==> recRItems == 0)
      && (node.pt != Boolean ==> forall i :: 0 <= i < |cells| ==> CellOk(node.pt, cells[i], |bytes|))
      && (node.pt == Boolean ==> cells == [])
      && View() == ViewOf(node, log)
    }

    function View(): (v: ColumnView)
      requires node.Column?
      requires node.pt != Boolean ==> forall i :: 0 <= i < |cells| ==> CellOk(node.pt, cells[i], |bytes|)
      reads `numValues, `rlevels, `dlevels, `bytes, `cells
    {
      ColumnView(numValues, rlevels, dlevels, Decoded(node.pt, cells, bytes))
    }

    // The rollback counters describe exactly the entries after base.
    ghost predicate Counted()
      requires node.Column?
      reads this
    {
      && base <= |log|
      && recRItems == (if node.rl > 0 then |log| - base else 0)
      && recDItems == (if node.dl > 0 then |log| - base else 0)
      && recVItems == |Defined(log[base..])|
    }

    ghost predicate Clean()
      reads this
    {
      |log| == base
    }

    // The column as the writer sees it while record number num is being dissected: the
    // entries es, the first b of which are committed, and whether the current record has
    // touched the column.
    ghost predicate Tracks(es: Stream, b: nat, touched: bool, num: nat)
      reads this
    {
      && Valid() && log == es && base == b && recNum <= num
      && (if recNum == num then Counted() else Clean())
      && (if touched then recNum == num else Clean())
    }

    ghost predicate Cleared()
      reads this
    {
      Valid() && Counted() && log == [] && base == 0 && recNum == 0
    }

    constructor (n: Node)
      requires n.Column? && (n.dl == 0 ==> n.rl == 0)
      ensures node == n && log == [] && base == 0 && recNum == 0
      ensures Valid() && Counted()
    {
      node := n;
      numValues, rlevels, dlevels, bytes, cells := 0, [], [], [], [];
      recNum, recRItems, recDItems, recVItems := 0, 0, 0, 0;
      log, base := [], 0;
    }

    method UpdateLevels(r: nat, d: nat)
      requires node.Column?
      modifies `numValues, `rlevels, `dlevels, `recRItems, `recDItems
      ensures numValues == old(numValues) + 1
      ensures rlevels == old(rlevels) + (if node.rl > 0 then [r] else [])
      ensures dlevels == old(dlevels) + (if node.dl > 0 then [d] else [])
      ensures recRItems == old(recRItems) + (if node.rl > 0 then 1 else 0)
      ensures recDItems == old(recDItems) + (if node.dl > 0 then 1 else 0)
    {
      numValues := numValues + 1;
      if node.rl > 0 {
        rlevels := rlevels + [r];
        recRItems := recRItems + 1;
      }
      if node.dl > 0 {
        dlevels := dlevels + [d];
        recDItems := recDItems + 1;
      }
    }

    // The log has grown by one entry, or nothing has changed.
    twostate predicate Received(ok: bool, e: Entry)
      reads this
    {
      && base == old(base) && recNum == old(recNum)
      && log == if ok then old(log) + [e] else old(log)
    }

    // The common end of the add_ methods for values kept in the typed vector.
    method Store(c: Cell, extra: Bytes, r: nat, d: nat, ghost v: Value)
      requires Valid() && Counted() && r <= node.rl && d == node.dl && node.pt != Boolean
      requires CellOk(node.pt, c, |bytes + extra|)
      requires TypeOk(node.pt, v) && Decode(node.pt, c, bytes + extra) == v
      modifies this
      ensures Valid() && Counted() && Received(true, Entry(r, d, Some(v)))
    {
      hide Reps, Defs, Defined, Decoded, CellOk, TypeOk;
      DecodedGrows(node.pt, cells, bytes, c, extra);
      bytes := bytes + extra;
      cells := cells + [c];
      UpdateLevels(r, d);
      recVItems := recVItems + 1;
      Append(log, base, Entry(r, d, Some(v)));
      log := log + [Entry(r, d, Some(v))];
    }

    method AddString(s: Bytes, r: nat, d: nat) returns (ok: bool)
      requires Valid() && Counted() && r <= node.rl && d == node.dl
      modifies this
      ensures Valid() && Counted()
      ensures ok == Convert(node.pt, Str(s)).Some?
      ensures Received(ok, Entry(r, d, Convert(node.pt, Str(s))))
    {
      var pos := |bytes|;
      assert (bytes + s)[pos..pos + |s|] == s;
      match node.pt {
        case ByteArray =>
          Store(CByteArray(|s|, pos), s, r, d, VBytes(s));
        case FixedLenByteArray(fixedLen) =>
          if |s| != fixedLen { return false; }
          Store(CFixed(pos), s, r, d, VFixed(s));
        case Int96 =>
          if |s| != 12 { return false; }
          Store(CInt96(s), [], r, d, VInt96(s));
        case _ => return false;
      }
      ok := true;
    }

    method AddBoolean(b: bool, r: nat, d: nat) returns (ok: bool)
      requires Valid() && Counted() && r <= node.rl && d == node.dl
      modifies this
      ensures Valid() && Counted()
      ensures ok == Convert(node.pt, Bool(b)).Some?
      ensures Received(ok, Entry(r, d, Convert(node.pt, Bool(b))))
    {
      hide CellOk, Decode;
      if node.pt != Boolean { return false; }
      bytes := bytes + [BoolByte(b)];
      UpdateLevels(r, d);
      recVItems := recVItems + 1;
      ghost var e := Entry(r, d, Convert(node.pt, Bool(b)));
      Append(log, base, e);
      log := log + [e];
      ok := true;
    }

    method AddInteger(x: real, r: nat, d: nat) returns (ok: bool)
      requires Valid() && Counted() && r <= node.rl && d == node.dl
      requires node.pt != Double && node.pt != Float
      modifies this
      ensures Valid() && Counted()
      ensures ok == Convert(node.pt, Num(x)).Some?
      ensures Received(ok, Entry(r, d, Convert(node.pt, Num(x))))
    {
      var i := Wrap(Truncate(x), 0x8000_0000_0000_0000);
      match node.pt {
        case Int32 => Store(CInt32(Wrap(i, 0x8000_0000)), [], r, d, VInt32(Wrap(i, 0x8000_0000)));
        case Int64 => Store(CInt64(i), [], r, d, VInt64(i));
        case _ => return false;
      }
      ok := true;
    }

    method AddNumber(x: real, r: nat, d: nat) returns (ok: bool)
      requires Valid() && Counted() && r <= node.rl && d == node.dl
      modifies this
      requires node.pt == Double || node.pt == Float
      ensures Valid() && Counted()
      ensures ok == Convert(node.pt, Num(x)).Some?
      ensures Received(ok, Entry(r, d, Convert(node.pt, Num(x))))
    {
      if node.pt == Float {
        Store(CFloat(x), [], r, d, VFloat(x));
      } else {
        Store(CDouble(x), [], r, d, VDouble(x));
      }
      ok := true;
    }

    // A value is appended exactly when it converts to the column's type.
    method AddValue(v: Lua, r: nat, d: nat) returns (ok: bool)
      requires Valid() && Counted() && r <= node.rl && d == node.dl
      modifies this
      ensures Valid() && Counted()
      ensures ok == Convert(node.pt, v).Some?
      ensures Received(ok, Entry(r, d, Convert(node.pt, v)))
    {
      match v {
        case Str(s) => ok := AddString(s, r, d);
        case Num(x) =>
          if node.pt == Double || node.pt == Float {
            ok := AddNumber(x, r, d);
          } else {
            ok := AddInteger(x, r, d);
          }
        case Bool(b) => ok := AddBoolean(b, r, d);
        case _ => ok := false;
      }
    }

    // A null is refused when the column is required at this level.
    method AddNull(r: nat, d: nat) returns (ok: bool)
      requires Valid() && Counted() && r <= node.rl
      requires if node.rt == Required then d <= node.dl else d < node.dl
      modifies this
      ensures Valid() && Counted()
      ensures ok == (node.dl != 0 && !(node.dl == d && node.rt == Required))
      ensures Received(ok, Entry(r, d, None))
    {
      hide Reps, Defs, Defined, Decoded, CellOk, TypeOk;
      if node.dl == 0 || (node.dl == d && node.rt == Required) { return false; }
      UpdateLevels(r, d);
      ghost var e := Entry(r, d, None);
      Append(log, base, e);
      log := log + [e];
      ok := true;
    }

    static lemma Append(es: Stream, base: nat, e: Entry)
      requires base <= |es|
      ensures Reps(es + [e]) == Reps(es) + [e.rep] && Defs(es + [e]) == Defs(es) + [e.def]
      ensures Defined(es + [e]) == Defined(es) + (if e.val.Some? then [e.val.value] else [])
      ensures |Defined((es + [e])[base..])| == |Defined(es[base..])| + (if e.val.Some? then 1 else 0)
    {
      DefinedAppend(es, [e]);
      assert (es + [e])[base..] == es[base..] + [e];
      DefinedAppend(es[base..], [e]);
      assert Defined([e]) == (if e.val.Some? then [e.val.value] else []);
    }

    // reset_record: start counting for the record numbered num.
    method ResetRecord(num: nat)
      requires Valid() && (if recNum == num then Counted() else Clean())
      modifies this
      ensures Valid() && Counted() && recNum == num
      ensures View() == old(View()) && log == old(log) && base == old(base)
    {
      if recNum != num {
        recNum := num;
        recRItems, recDItems, recVItems := 0, 0, 0;
      }
    }

    // The body of the loop in rollback_record: every vector is cut back to the state it
    // had at the start of the record; the bytes of discarded strings stay behind.
    method Rollback()
      requires Valid() && Counted()
      modifies this
      ensures Valid() && Counted() && Clean()
      ensures log == old(log)[..old(base)] && base == old(base) && recNum == old(recNum)
    {
      hide EntryOk, CellOk, Decode;
      ghost var kept := log[..base];
      Truncation(log, base);
      var nv := TruncateLevels();
      numValues := numValues - nv;
      assert numValues == base;
      TruncateValues();
      log := kept;
      assert log[base..] == [];
    }

    // Undo the levels of the record; nv is the number of entries it has added.
    method TruncateLevels() returns (nv: nat)
      requires recRItems <= |rlevels| && recDItems <= |dlevels|
      modifies `rlevels, `dlevels, `recRItems, `recDItems
      ensures recRItems == 0 && recDItems == 0
      ensures rlevels == old(rlevels[..|rlevels| - recRItems]) && dlevels == old(dlevels[..|dlevels| - recDItems])
      ensures nv == old(if recDItems > 0 then recDItems else if recRItems > 0 then recRItems else recVItems)
    {
      nv := recVItems;
      if recRItems > 0 {
        nv := recRItems;
        rlevels := rlevels[..|rlevels| - recRItems];
        recRItems := 0;
      }
      if recDItems > 0 {
        nv := recDItems;
        dlevels := dlevels[..|dlevels| - recDItems];
        recDItems := 0;
      }
    }

    method TruncateValues()
      requires node.Column?
      requires node.pt != Boolean ==> forall i :: 0 <= i < |cells| ==> CellOk(node.pt, cells[i], |bytes|)
      requires recVItems <= |View().values|
      modifies `bytes, `cells, `recVItems
      ensures recVItems == 0
      ensures node.pt != Boolean ==> forall i :: 0 <= i < |cells| ==> CellOk(node.pt, cells[i], |bytes|)
      ensures node.pt == Boolean ==> cells == old(cells)
      ensures View().values == old(View().values[..|View().values| - recVItems])
    {
      if recVItems > 0 {
        if node.pt == Boolean {
          bytes := bytes[..|bytes| - recVItems];
        } else {
          DecodedPrefix(node.pt, cells, bytes, |cells| - recVItems);
          cells := cells[..|cells| - recVItems];
        }
        recVItems := 0;
      }
    }

    // Cutting the entries back to base cuts every vector by its own count.
    lemma Truncation(es: Stream, b: nat)
      requires node.Column? && EntriesOk(node, es) && b <= |es|
      ensures Reps(es[..b]) == Reps(es)[..b] && Defs(es[..b]) == Defs(es)[..b]
      ensures |Defined(es[b..])| <= |Defined(es)|
      ensures Defined(es[..b]) == Defined(es)[..|Defined(es)| - |Defined(es[b..])|]
      ensures node.dl == 0 ==> |Defined(es[b..])| == |es| - b
    {
      DefinedAppend(es[..b], es[b..]);
      assert es == es[..b] + es[b..];
      AllDefined(es, b);
    }

    // Without a definition vector every entry carries a value.
    lemma {:induction false} AllDefined(es: Stream, b: nat)
      requires node.Column? && EntriesOk(node, es) && b <= |es|
      ensures node.dl == 0 ==> |Defined(es[b..])| == |es| - b
      decreases |es| - b
    {
      if b < |es| {
        AllDefined(es, b + 1);
        assert EntryOk(node, es[b]);
        assert es[b..][1..] == es[b + 1..];
      }
    }

    // What write_columns and clear_columns do to a column once its data is handed over.
    method Clear()
      requires Valid()
      modifies this
      ensures Cleared()
    {
      hide ColumnBuffer.Valid, ColumnBuffer.Counted, ColumnBuffer.Cleared;
      NoLevels();
      bytes, cells := [], [];
      numValues, recNum, recVItems := 0, 0, 0;
      log, base := [], 0;
      if node.rl > 0 {
        rlevels := [];
        recRItems := 0;
      }
      if node.dl > 0 {
        dlevels := [];
        recDItems := 0;
      }
      EmptyIsCleared();
    }

    lemma NoLevels()
      requires Valid()
      ensures node.Column? && (node.dl == 0 ==> node.rl == 0)
      ensures node.rl == 0 ==> rlevels == [] && recRItems == 0
      ensures node.dl == 0 ==> dlevels == [] && recDItems == 0
    {
      hide CellOk, Decoded, EntryOk, Reps, Defs, Defined;
    }

    lemma EmptyIsCleared()
      requires node.Column? && (node.dl == 0 ==> node.rl == 0)
      requires bytes == [] && cells == [] && rlevels == [] && dlevels == [] && log == []
      requires numValues == 0 && recNum == 0 && recVItems == 0 && recRItems == 0 && recDItems == 0 && base == 0
      ensures Cleared()
    {
      hide CellOk, Decoded, EntryOk, Reps, Defs, Defined;
      NothingReceived(node.pt);
      assert log[base..] == [];
    }

    static lemma NothingReceived(pt: PhysicalType)
      ensures Decoded(pt, [], []) == [] && Reps([]) == [] && Defs([]) == [] && Defined([]) == []
    {
    }

    // The loop body of write_columns.
    method HandOver() returns (v: ColumnView)
      requires Valid()
      modifies this
      ensures v == ViewOf(node, old(log)) && Cleared()
    {
      v := View();
      Clear();
    }
  }
}
