// The writer: dissecting Lua records into the columns, undoing a failed record, and
// handing a row group to the file (parquet.cpp, dissect_*, rollback_record,
// write_rowgroup and clear_columns).

module ParquetWriter {
  import opened Common
  import opened ParquetSchema
  import opened ParquetRecord
  import opened ParquetShred
  import opened ParquetColumn
  import opened ParquetMeaning

  // ---------------------------------------------------------------- column logs

  // Append cols to the logs of the columns lo, lo+1, ...
  ghost function Extend(logs: seq<Stream>, lo: nat, cols: seq<Stream>): (r: seq<Stream>)
    requires lo + |cols| <= |logs|
    ensures |r| == |logs|
    ensures forall i :: 0 <= i < |logs| ==>
                          r[i] == if lo <= i < lo + |cols| then logs[i] + cols[i - lo] else logs[i]
  {
    seq(|logs|, i requires 0 <= i < |logs| => if lo <= i < lo + |cols| then logs[i] + cols[i - lo] else logs[i])
  }

  lemma ExtendNext(logs: seq<Stream>, lo: nat, a: seq<Stream>, b: seq<Stream>)
    requires lo + |a| + |b| <= |logs|
    ensures Extend(Extend(logs, lo, a), lo + |a|, b) == Extend(logs, lo, a + b)
  {
  }

  lemma ExtendAgain(logs: seq<Stream>, lo: nat, a: seq<Stream>, b: seq<Stream>)
    requires |a| == |b| && lo + |a| <= |logs|
    ensures Extend(Extend(logs, lo, a), lo, b) == Extend(logs, lo, Zip(a, b))
  {
    hide Extend, Zip;
    forall i | 0 <= i < |logs|
      ensures Extend(Extend(logs, lo, a), lo, b)[i] == Extend(logs, lo, Zip(a, b))[i]
    {
      if lo <= i < lo + |a| {
        assert (logs[i] + a[i - lo]) + b[i - lo] == logs[i] + (a[i - lo] + b[i - lo]);
      }
    }
  }

  lemma ExtendNone(logs: seq<Stream>, lo: nat, k: nat)
    requires lo + k <= |logs|
    ensures Extend(logs, lo, NoEntries(k)) == logs
    ensures Extend(logs, lo, []) == logs
  {
    assert forall i :: 0 <= i < |logs| ==> logs[i] + [] == logs[i];
  }

  // Disjoint ranges may be filled in either order.
  lemma ExtendFront(logs: seq<Stream>, lo: nat, a: seq<Stream>, b: seq<Stream>)
    requires lo + |a| + |b| <= |logs|
    ensures Extend(Extend(logs, lo + |a|, b), lo, a) == Extend(logs, lo, a + b)
  {
  }

  // ---------------------------------------------------------------- shredding, appended at the end

  lemma {:induction false} ShredFieldsSnoc(fs: seq<Node>, rec: Record, n: Node, inst: Inst, r: nat, d: nat)
    requires |fs| == |rec|
    ensures ShredFields(fs + [n], rec + [inst], r, d) == ShredFields(fs, rec, r, d) + ShredField(n, inst, r, d)
    decreases fs
  {
    if fs == [] {
      assert fs + [n] == [n] && rec + [inst] == [inst];
    } else {
      assert (fs + [n])[1..] == fs[1..] + [n] && (rec + [inst])[1..] == rec[1..] + [inst];
      ShredFieldsSnoc(fs[1..], rec[1..], n, inst, r, d);
    }
  }

  lemma {:induction false} ShredValuesSnoc(vs: seq<Value>, v: Value, r: nat, rl: nat, dl: nat)
    ensures ShredValues(vs + [v], r, rl, dl) ==
            ShredValues(vs, r, rl, dl) + [Entry(if vs == [] then r else rl, dl, Some(v))]
    decreases vs
  {
    if vs == [] {
      assert vs + [v] == [v];
    } else {
      assert (vs + [v])[0] == vs[0] && (vs + [v])[1..] == vs[1..] + [v];
      ShredValuesSnoc(vs[1..], v, rl, rl, dl);
    }
  }

  lemma {:induction false} LeafCountsSnoc(fs: seq<Node>, n: Node)
    ensures LeafCounts(fs + [n]) == LeafCounts(fs) + LeafCount(n)
    decreases fs
  {
    if fs == [] {
      assert fs + [n] == [n];
    } else {
      assert (fs + [n])[1..] == fs[1..] + [n];
      LeafCountsSnoc(fs[1..], n);
    }
  }

  // ---------------------------------------------------------------- the i-th field of a group

  ghost function Offset(fs: seq<Node>, i: nat): nat
    requires i <= |fs|
  {
    LeafCounts(fs[..i])
  }

  lemma {:induction false} FieldAt(fs: seq<Node>, r: nat, d: nat, lo: nat, i: nat)
    requires FitsAll(fs, r, d, lo) && i < |fs|
    ensures Fits(fs[i], r, d, lo + Offset(fs, i))
    ensures Offset(fs, i + 1) == Offset(fs, i) + LeafCount(fs[i]) <= LeafCounts(fs)
    ensures LeavesOf(fs)[Offset(fs, i)..Offset(fs, i + 1)] == Leaves(fs[i])
    decreases i
  {
    hide Fits, Leaves, LeafCount;
    assert fs[..i + 1] == fs[..i] + [fs[i]];
    LeafCountsSnoc(fs[..i], fs[i]);
    if i == 0 {
      assert fs[..0] == [];
    } else {
      var tail := fs[1..];
      FieldAt(tail, r, d, lo + LeafCount(fs[0]), i - 1);
      assert fs[..i][1..] == tail[..i - 1] && fs[..i + 1][1..] == tail[..i];
      assert Offset(fs, i) == LeafCount(fs[0]) + Offset(tail, i - 1);
      assert Offset(fs, i + 1) == LeafCount(fs[0]) + Offset(tail, i);
    }
  }

  // The level rule at one node.
  lemma FitsHere(n: Node, r: nat, d: nat, lo: nat)
    requires Fits(n, r, d, lo)
    ensures n.rl == r + (if n.rt == Repeated then 1 else 0)
    ensures n.dl == d + (if n.rt == Required then 0 else 1)
    ensures n.Column? ==> n.id == lo
    ensures n.Group? ==> FitsAll(n.fields, n.rl, n.dl, lo)
  {
  }

  // The leaves below n are the leaves of the schema from position lo on.
  ghost predicate Placed(root: Node, n: Node, lo: nat) {
    lo + LeafCount(n) <= LeafCount(root) && Leaves(root)[lo..lo + LeafCount(n)] == Leaves(n)
  }

  ghost predicate PlacedAll(root: Node, fs: seq<Node>, lo: nat) {
    lo + LeafCounts(fs) <= LeafCount(root) && Leaves(root)[lo..lo + LeafCounts(fs)] == LeavesOf(fs)
  }

  lemma GroupLayout(root: Node, n: Node, lo: nat)
    requires n.Group? && Placed(root, n, lo)
    ensures PlacedAll(root, n.fields, lo)
  {
  }

  lemma PlacedAt(root: Node, fs: seq<Node>, r: nat, d: nat, lo: nat, i: nat)
    requires FitsAll(fs, r, d, lo) && PlacedAll(root, fs, lo) && i < |fs|
    ensures Placed(root, fs[i], lo + Offset(fs, i))
  {
    hide Fits, FitsAll, Leaves, LeavesOf, LeafCount, LeafCounts;
    FieldAt(fs, r, d, lo, i);
    SliceOfSlice(Leaves(root), lo, LeafCounts(fs), Offset(fs, i), Offset(fs, i + 1));
  }

  lemma SliceOfSlice<T>(s: seq<T>, lo: nat, k: nat, a: nat, b: nat)
    requires lo + k <= |s| && a <= b <= k
    ensures s[lo..lo + k][a..b] == s[lo + a..lo + b]
  {
    assert s[lo..lo + k] == s[lo..][..k] && s[lo + a..lo + b] == s[lo..][a..b];
  }

  // ---------------------------------------------------------------- nulls

  // dissect_null accepts n at level d: no leaf below it is required there.
  predicate NullOk(n: Node, d: nat)
    decreases n
  {
    n.dl != 0 &&
    match n
    case Column(_, rt, _, dl, _, _) => !(dl == d && rt == Required)
    case Group(_, _, _, _, _, fields) => forall i :: 0 <= i < |fields| ==> NullOk(fields[i], d)
  }

  lemma {:induction false} NullOkBelow(n: Node, r: nat, d: nat, lo: nat, e: nat)
    requires Fits(n, r, d, lo) && e < n.dl
    ensures NullOk(n, e)
    decreases n
  {
    if n.Group? {
      forall i | 0 <= i < |n.fields| ensures NullOk(n.fields[i], e) {
        FieldAt(n.fields, n.rl, n.dl, lo, i);
        NullOkBelow(n.fields[i], n.rl, n.dl, lo + Offset(n.fields, i), e);
      }
    }
  }

  // A missing field is accepted exactly when dissect_null accepts it, and means a
  // single null entry in every column below.
  lemma {:induction false} MissingIsNull(n: Node, pr: nat, d: nat, lo: nat, r: nat)
    requires Fits(n, pr, d, lo)
    ensures Missing(n).Some? <==> NullOk(n, d)
    ensures Missing(n).Some? ==>
              ShredField(n, Missing(n).value, r, d) == NullEntries(LeafCount(n), r, d)
    decreases n
  {
    if n.Group? {
      if n.rt != Required {
        NullOkBelow(n, pr, d, lo, d);
      } else if n.dl != 0 {
        forall i | 0 <= i < |n.fields|
          ensures Missing(n.fields[i]).Some? <==> NullOk(n.fields[i], d)
          ensures Missing(n.fields[i]).Some? ==>
                    ShredField(n.fields[i], Missing(n.fields[i]).value, r, d) ==
                      NullEntries(LeafCount(n.fields[i]), r, d)
        {
          FieldAt(n.fields, n.rl, n.dl, lo, i);
          MissingIsNull(n.fields[i], n.rl, n.dl, lo + Offset(n.fields, i), r);
        }
        RequiredGroupMissing(n, r, d);
      }
    }
  }

  lemma RequiredGroupMissing(n: Node, r: nat, d: nat)
    requires n.Group? && n.rt == Required && n.dl == d != 0
    requires forall i :: 0 <= i < |n.fields| ==>
               && (Missing(n.fields[i]).Some? <==> NullOk(n.fields[i], d))
               && (Missing(n.fields[i]).Some? ==>
                     ShredField(n.fields[i], Missing(n.fields[i]).value, r, d) ==
                       NullEntries(LeafCount(n.fields[i]), r, d))
    ensures Missing(n).Some? <==> NullOk(n, d)
    ensures Missing(n).Some? ==> ShredField(n, Missing(n).value, r, d) == NullEntries(LeafCount(n), r, d)
  {
    if Missing(n).Some? {
      var rec := MissingAll(n.fields).value;
      forall i | 0 <= i < |n.fields|
        ensures ShredField(n.fields[i], rec[i], r, d) == NullEntries(LeafCount(n.fields[i]), r, d)
      {
        assert Missing(n.fields[i]) == Some(rec[i]);
      }
      AllNull(n.fields, rec, r, d);
      ZipNone(ShredFields(n.fields, rec, r, d));
      assert Missing(n).value == Groups([rec]);
      assert ShredInstances(n, [rec][1..], n.rl) == NoEntries(LeafCount(n));
    } else {
      assert MissingAll(n.fields).None?;
      assert exists i :: 0 <= i < |n.fields| && Missing(n.fields[i]).None?;
    }
  }

  lemma {:induction false} AllNull(fs: seq<Node>, rec: Record, r: nat, d: nat)
    requires |fs| == |rec|
    requires forall i :: 0 <= i < |fs| ==> ShredField(fs[i], rec[i], r, d) == NullEntries(LeafCount(fs[i]), r, d)
    ensures ShredFields(fs, rec, r, d) == NullEntries(LeafCounts(fs), r, d)
    decreases fs
  {
    if fs != [] {
      assert forall i :: 0 <= i < |fs[1..]| ==> fs[1..][i] == fs[i + 1] && rec[1..][i] == rec[i + 1];
      AllNull(fs[1..], rec[1..], r, d);
    }
  }

  // How far the dissection of a record has come: the columns before t have been
  // touched; logs are all entries received and bases the committed part of each.
  datatype Progress = Progress(t: nat, logs: seq<Stream>, bases: seq<nat>)

  // What one dissection step may do: entries are only appended, nothing committed
  // changes, and a step that succeeds adds exactly cols to the columns from lo on.
  ghost predicate Step(p: Progress, q: Progress, ok: bool, lo: nat, cols: seq<Stream>) {
    && q.bases == p.bases && |q.logs| == |p.logs| && p.t <= q.t
    && (forall i :: 0 <= i < |p.logs| ==> p.logs[i] <= q.logs[i])
    && (ok ==> lo + |cols| <= |p.logs| && q.logs == Extend(p.logs, lo, cols))
  }

  lemma StepNext(p: Progress, q: Progress, s: Progress, lo: nat, a: seq<Stream>, ok: bool, b: seq<Stream>)
    requires Step(p, q, true, lo, a) && Step(q, s, ok, lo + |a|, b)
    ensures Step(p, s, ok, lo, a + b)
  {
    if ok { ExtendNext(p.logs, lo, a, b); }
  }

  lemma StepAgain(p: Progress, q: Progress, s: Progress, lo: nat, a: seq<Stream>, ok: bool, b: seq<Stream>)
    requires Step(p, q, true, lo, a) && Step(q, s, ok, lo, b) && |a| == |b|
    ensures Step(p, s, ok, lo, Zip(a, b))
  {
    if ok { ExtendAgain(p.logs, lo, a, b); }
  }

  lemma StepFront(p: Progress, q: Progress, s: Progress, lo: nat, a: seq<Stream>, ok: bool, b: seq<Stream>)
    requires Step(p, q, true, lo + |a|, b) && Step(q, s, ok, lo, a)
    ensures Step(p, s, ok, lo, a + b)
  {
    if ok { ExtendFront(p.logs, lo, a, b); }
  }

  lemma StepNone(p: Progress, q: Progress, lo: nat, k: nat)
    requires lo + k <= |p.logs| && p.logs == q.logs && p.bases == q.bases && p.t <= q.t
    ensures Step(p, q, true, lo, NoEntries(k)) && Step(p, q, true, lo, [])
  {
    ExtendNone(p.logs, lo, k);
  }

  lemma StepNothing(p: Progress, lo: nat)
    ensures Step(p, p, false, lo, [])
  {
  }

  lemma StepExtend(p: Progress, lo: nat, cols: seq<Stream>)
    requires lo + |cols| <= |p.logs|
    ensures Step(p, p.(logs := Extend(p.logs, lo, cols)), true, lo, cols)
  {
  }

  lemma StepStops(p: Progress, q: Progress, ok: bool, lo: nat, cols: seq<Stream>, lo': nat, cols': seq<Stream>)
    requires Step(p, q, ok, lo, cols)
    ensures Step(p, q, false, lo', cols')
  {
  }

  // Failing after some progress is failing.
  lemma StepFails(p: Progress, q0: Progress, q: Progress, lo: nat, a: seq<Stream>,
                  lo': nat, b: seq<Stream>, lo'': nat, c: seq<Stream>)
    requires Step(p, q0, true, lo, a) && Step(q0, q, false, lo', b)
    ensures Step(p, q, false, lo'', c)
  {
  }

  // ---------------------------------------------------------------- between records

  function Lengths(logs: seq<Stream>): (ks: seq<nat>)
    ensures |ks| == |logs| && forall i :: 0 <= i < |logs| ==> ks[i] == |logs[i]|
  {
    seq(|logs|, i requires 0 <= i < |logs| => |logs[i]|)
  }

  // No column touched, everything committed.
  ghost function Start(logs: seq<Stream>): Progress {
    Progress(0, logs, Lengths(logs))
  }

  function Cut(logs: seq<Stream>, bases: seq<nat>): (r: seq<Stream>)
    requires |bases| == |logs| && forall i :: 0 <= i < |logs| ==> bases[i] <= |logs[i]|
    ensures |r| == |logs| && forall i :: 0 <= i < |logs| ==> r[i] == logs[i][..bases[i]]
  {
    seq(|logs|, i requires 0 <= i < |logs| && bases[i] <= |logs[i]| => logs[i][..bases[i]])
  }

  // The record a Lua table stands for, or None when dissect_record refuses it.
  ghost function Meaning(root: Node, v: Lua): (r: Option<Record>)
    requires IsSchema(root)
  {
    FitsWellShaped(root, 0, 0, 0);
    if v.Table? then ParseRecord(root.fields, v) else None
  }

  lemma CutBack(p: Progress, q: Progress, cols: seq<Stream>)
    requires Step(p, q, false, 0, cols) && p == Start(p.logs)
    ensures forall i :: 0 <= i < |q.logs| ==> q.bases[i] <= |q.logs[i]|
    ensures Progress(0, Cut(q.logs, q.bases), q.bases) == p
  {
    forall i | 0 <= i < |p.logs| ensures q.bases[i] <= |q.logs[i]| && q.logs[i][..q.bases[i]] == p.logs[i] {
      assert p.logs[i] <= q.logs[i];
    }
  }

  lemma SchemaFacts(root: Node)
    requires IsSchema(root)
    ensures root.Group? && root.rl == 0 && root.dl == 0 && FitsAll(root.fields, 0, 0, 0)
    ensures AllWellShaped(root.fields) && PlacedAll(root, root.fields, 0)
    ensures forall v :: Meaning(root, v).Some? ==> ConformsAll(root.fields, Meaning(root, v).value)
  {
    FitsWellShaped(root, 0, 0, 0);
    assert Leaves(root)[0..0 + LeafCounts(root.fields)] == LeavesOf(root.fields);
    forall v | Meaning(root, v).Some? ensures ConformsAll(root.fields, Meaning(root, v).value) {
      RecordConforms(root.fields, v);
    }
  }

  // ---------------------------------------------------------------- the columns of one input

  function FieldColumns(n: Node, inst: Option<Inst>, r: nat, d: nat): (c: seq<Stream>) {
    if inst.Some? then ShredField(n, inst.value, r, d) else []
  }

  function RecordColumns(fs: seq<Node>, rec: Option<Record>, r: nat, d: nat): (c: seq<Stream>) {
    if rec.Some? then ShredFields(fs, rec.value, r, d) else []
  }

  lemma OneInstance(n: Node, g: Record, r: nat)
    requires n.Group?
    ensures ShredInstances(n, [g], r) == ShredFields(n.fields, g, r, n.dl)
  {
    ZipNone(ShredFields(n.fields, g, r, n.dl));
    assert ShredInstances(n, [g][1..], n.rl) == NoEntries(LeafCount(n));
  }

  lemma GroupsColumns(n: Node, gs: seq<Record>, r: nat, d: nat)
    requires n.Group?
    ensures ShredField(n, Groups(gs), r, d) ==
            if gs == [] then NullEntries(LeafCount(n), r, d) else ShredInstances(n, gs, r)
  {
  }

  lemma ScalarColumn(n: Node, v: Value, r: nat, d: nat)
    requires n.Column?
    ensures ShredField(n, Vals([v]), r, d) == [[Entry(r, n.dl, Some(v))]]
  {
    assert ShredValues([v], r, n.rl, n.dl) == [Entry(r, n.dl, Some(v))];
  }

  lemma SoleField(fs: seq<Node>, inst: Inst, r: nat, d: nat)
    requires |fs| == 1
    ensures ShredFields(fs, [inst], r, d) == ShredField(fs[0], inst, r, d)
  {
    assert ShredFields(fs[1..], [inst][1..], r, d) == [];
  }

  lemma KeyValueLayout(root: Node, kv: Node, pr: nat, d: nat, lo: nat)
    requires Fits(kv, pr, d, lo) && WellShaped(kv) && IsKeyValue(kv) && Placed(root, kv, lo)
    ensures Placed(root, kv.fields[0], lo) && Placed(root, kv.fields[1], lo + 1)
    ensures LeafCount(kv) == 1 + LeafCount(kv.fields[1])
    ensures Leaves(kv) == [kv.fields[0]] + Leaves(kv.fields[1])
    ensures kv.fields[0].id == lo && kv.fields[0].dl == kv.dl && kv.fields[0].rl == kv.rl
    ensures Fits(kv.fields[1], kv.rl, kv.dl, lo + 1) && WellShaped(kv.fields[1])
  {
    hide Fits, FitsAll, Placed, Leaves, LeafCount, LeavesOf, LeafCounts;
    var fs := kv.fields;
    FitsHere(kv, pr, d, lo);
    GroupLayout(root, kv, lo);
    KeyValueLeaves(kv);
    KeyValueLevels(kv, lo);
    KeyOffset(fs);
    PlacedAt(root, fs, kv.rl, kv.dl, lo, 0);
    PlacedAt(root, fs, kv.rl, kv.dl, lo, 1);
  }

  lemma KeyOffset(fs: seq<Node>)
    requires |fs| == 2 && fs[0].Column?
    ensures LeafCounts(fs[..0]) == 0 && LeafCounts(fs[..1]) == 1
  {
    assert fs[..0] == [] && fs[..1] == [fs[0]] && LeafCounts([fs[0]]) == 1;
  }

  // The columns of a group of two.
  lemma KeyValueLeaves(kv: Node)
    requires kv.Group? && |kv.fields| == 2 && kv.fields[0].Column?
    ensures LeafCount(kv) == 1 + LeafCount(kv.fields[1])
    ensures Leaves(kv) == [kv.fields[0]] + Leaves(kv.fields[1])
  {
    var fs := kv.fields;
    assert fs[1..] == [fs[1]] && LeavesOf([fs[1]]) == Leaves(fs[1]) + LeavesOf([]) == Leaves(fs[1]);
    assert LeavesOf(fs) == Leaves(fs[0]) + LeavesOf(fs[1..]);
  }

  // The levels of its fields.
  lemma KeyValueLevels(kv: Node, lo: nat)
    requires WellShaped(kv) && IsKeyValue(kv) && FitsAll(kv.fields, kv.rl, kv.dl, lo)
    ensures kv.fields[0].id == lo && kv.fields[0].dl == kv.dl && kv.fields[0].rl == kv.rl
    ensures Fits(kv.fields[1], kv.rl, kv.dl, lo + 1) && WellShaped(kv.fields[1])
  {
    hide Fits, FitsAll, Leaves, LeafCount, LeafCounts;
    var fs := kv.fields;
    assert AllWellShaped(fs);
    KeyOffset(fs);
    FieldAt(fs, kv.rl, kv.dl, lo, 0);
    FieldAt(fs, kv.rl, kv.dl, lo, 1);
    FitsHere(fs[0], kv.rl, kv.dl, lo);
  }

  lemma SoleLayout(root: Node, n: Node, pr: nat, d: nat, lo: nat)
    requires Fits(n, pr, d, lo) && WellShaped(n) && n.Group? && |n.fields| == 1 && Placed(root, n, lo)
    ensures LeafCount(n) == LeafCount(n.fields[0])
    ensures Fits(n.fields[0], n.rl, n.dl, lo) && WellShaped(n.fields[0]) && Placed(root, n.fields[0], lo)
  {
    var fs := n.fields;
    assert AllWellShaped(fs);
    FieldAt(fs, n.rl, n.dl, lo, 0);
    assert fs[..0] == [] && fs[1..] == [];
    PlacedAt(root, fs, n.rl, n.dl, lo, 0);
  }

  lemma PairColumns(kv: Node, key: Value, val: Inst, r: nat, d: nat)
    requires IsKeyValue(kv)
    ensures ShredFields(kv.fields, [Vals([key]), val], r, d) ==
            [[Entry(r, kv.fields[0].dl, Some(key))]] + ShredField(kv.fields[1], val, r, d)
  {
    var fs, g := kv.fields, [Vals([key]), val];
    assert g[1..] == [val] && fs[1..] == [fs[1]];
    SoleField(fs[1..], val, r, d);
    assert ShredValues([key], r, fs[0].rl, fs[0].dl) == [Entry(r, fs[0].dl, Some(key))];
  }

  lemma NextInstance(p: Progress, q0: Progress, q: Progress, n: Node, done: seq<Record>, g: Record, r: nat, lo: nat)
    requires n.Group?
    requires Step(p, q0, true, lo, ShredInstances(n, done, r))
    requires Step(q0, q, true, lo, ShredFields(n.fields, g, if done == [] then r else n.rl, n.dl))
    ensures Step(p, q, true, lo, ShredInstances(n, done + [g], r))
  {
    hide ShredFields;
    InstancesSnoc(n, done, g, r);
    StepAgain(p, q0, q, lo, ShredInstances(n, done, r), true,
              ShredFields(n.fields, g, if done == [] then r else n.rl, n.dl));
  }

  lemma NextValue(p: Progress, q0: Progress, q: Progress, n: Node, done: seq<Value>, v: Value, r: nat, lo: nat)
    requires n.Column?
    requires Step(p, q0, true, lo, [ShredValues(done, r, n.rl, n.dl)])
    requires Step(q0, q, true, lo, [[Entry(if done == [] then r else n.rl, n.dl, Some(v))]])
    ensures Step(p, q, true, lo, [ShredValues(done + [v], r, n.rl, n.dl)])
  {
    var a, e := ShredValues(done, r, n.rl, n.dl), [Entry(if done == [] then r else n.rl, n.dl, Some(v))];
    StepAgain(p, q0, q, lo, [a], true, [e]);
    ShredValuesSnoc(done, v, r, n.rl, n.dl);
    assert Zip([a], [e]) == [a + e];
  }

  lemma NextField(p: Progress, q0: Progress, q: Progress, fs: seq<Node>, i: nat, done: Record, inst: Inst,
                  r: nat, d: nat, lo: nat)
    requires i < |fs| && |done| == i
    requires Step(p, q0, true, lo, ShredFields(fs[..i], done, r, d))
    requires Step(q0, q, true, lo + Offset(fs, i), ShredField(fs[i], inst, r, d))
    ensures Step(p, q, true, lo, ShredFields(fs[..i + 1], done + [inst], r, d))
  {
    hide Step, ShredField, ShredFields, Extend;
    assert fs[..i + 1] == fs[..i] + [fs[i]];
    ShredFieldsSnoc(fs[..i], done, fs[i], inst, r, d);
    StepNext(p, q0, q, lo, ShredFields(fs[..i], done, r, d), true, ShredField(fs[i], inst, r, d));
  }

  class Writer {
    const root: Node
    const columns: seq<ColumnBuffer>
    var numRecords: nat
    var open: bool
    // The records accepted since the last row group.
    ghost var records: seq<Record>

    ghost predicate Shape() {
      && IsSchema(root) && |columns| == LeafCount(root)
      && (forall i :: 0 <= i < |columns| ==> columns[i].node == Leaves(root)[i])
      && (forall i, j :: 0 <= i < j < |columns| ==> columns[i] != columns[j])
    }

    // The state of all columns in the middle of a dissection.
    ghost predicate At(p: Progress)
      reads this, columns
    {
      && Sized(p) && Tracked(p)
    }

    ghost predicate Sized(p: Progress) {
      |p.logs| == |p.bases| == |columns| == LeafCount(root) && p.t <= |columns|
    }

    ghost predicate Tracked(p: Progress)
      requires Sized(p)
      reads this, columns
    {
      forall i :: 0 <= i < |columns| ==> columns[i].Tracks(p.logs[i], p.bases[i], i < p.t, numRecords)
    }

    lemma ColumnAt(n: Node, lo: nat)
      requires Shape() && n.Column? && Placed(root, n, lo)
      ensures lo < |columns| && columns[lo].node == n
    {
      assert Leaves(root)[lo..lo + 1][0] == n;
    }

    // ------------------------------------------------------------ single columns

    method Touch(i: nat, ghost p: Progress) returns (ghost q: Progress)
      requires Shape() && At(p) && i <= p.t && i < |columns|
      modifies columns
      ensures At(q) && q == p.(t := if i < p.t then p.t else p.t + 1)
    {
      columns[i].ResetRecord(numRecords);
      q := p.(t := if i < p.t then p.t else p.t + 1);
      assert columns[i].Tracks(p.logs[i], p.bases[i], true, numRecords);
    }

    method PutNull(i: nat, r: nat, d: nat, ghost p: Progress) returns (ok: bool, ghost q: Progress)
      requires Shape() && At(p) && i < p.t && r <= columns[i].node.rl
      requires var n := columns[i].node; if n.rt == Required then d <= n.dl else d < n.dl
      modifies columns
      ensures ok == NullOk(columns[i].node, d)
      ensures At(q) && q == if ok then p.(logs := Extend(p.logs, i, NullEntries(1, r, d))) else p
    {
      hide Leaves, IsSchema, LeafCount, EntriesOk, ColumnBuffer.View;
      ok := columns[i].AddNull(r, d);
      q := if ok then p.(logs := Extend(p.logs, i, NullEntries(1, r, d))) else p;
      assert columns[i].Tracks(q.logs[i], q.bases[i], true, numRecords);
      assert forall j :: 0 <= j < |columns| && j != i ==>
               q.logs[j] == p.logs[j] && columns[j].Tracks(p.logs[j], p.bases[j], j < p.t, numRecords);
    }

    method PutValue(i: nat, v: Lua, r: nat, ghost p: Progress) returns (ok: bool, ghost q: Progress)
      requires Shape() && At(p) && i < p.t && r <= columns[i].node.rl
      modifies columns
      ensures var c := Convert(columns[i].node.pt, v);
              && ok == c.Some? && At(q)
              && q == if ok then p.(logs := Extend(p.logs, i, [[Entry(r, columns[i].node.dl, c)]])) else p
    {
      hide Leaves, Convert, IsSchema, LeafCount, EntriesOk, ColumnBuffer.View;
      ok := columns[i].AddValue(v, r, columns[i].node.dl);
      ghost var e := Entry(r, columns[i].node.dl, Convert(columns[i].node.pt, v));
      q := if ok then p.(logs := Extend(p.logs, i, [[e]])) else p;
      assert columns[i].Tracks(q.logs[i], q.bases[i], true, numRecords);
      assert forall j :: 0 <= j < |columns| && j != i ==>
               q.logs[j] == p.logs[j] && columns[j].Tracks(p.logs[j], p.bases[j], j < p.t, numRecords);
    }

    // ------------------------------------------------------------ dissection

    method DissectNull(n: Node, r: nat, d: nat, ghost pr: nat, ghost pd: nat, ghost lo: nat, ghost p: Progress)
      returns (ok: bool, ghost q: Progress)
      requires Shape() && At(p) && lo <= p.t
      requires n.Group? && Fits(n, pr, pd, lo) && Placed(root, n, lo) && r <= pr && d <= pd
      modifies columns
      ensures ok == NullOk(n, d)
      ensures At(q) && Step(p, q, ok, lo, NullEntries(LeafCount(n), r, d))
      ensures ok ==> lo + LeafCount(n) <= q.t
      decreases n, 1
    {
      hide Writer.Tracked, Writer.Shape, Step, Extend, Leaves, LeavesOf, FitsAll, Fits, Placed;
      q := p;
      StepNone(p, q, lo, 0);
      StepStops(p, q, true, lo, [], lo, NullEntries(LeafCount(n), r, d));
      FitsHere(n, pr, pd, lo);
      if n.dl == 0 { return false, q; }
      for i := 0 to |n.fields|
        invariant At(q) && Step(p, q, true, lo, NullEntries(Offset(n.fields, i), r, d))
        invariant lo + Offset(n.fields, i) <= q.t
        invariant forall j :: 0 <= j < i ==> NullOk(n.fields[j], d)
      {
        var cn := n.fields[i];
        ghost var off, q0 := Offset(n.fields, i), q;
        ok, q := NullChild(n, i, r, d, pr, pd, lo, q);
        if !ok {
          StepFails(p, q0, q, lo, NullEntries(off, r, d), lo + off, NullEntries(LeafCount(cn), r, d),
                    lo, NullEntries(LeafCount(n), r, d));
          return;
        }
        StepNext(p, q0, q, lo, NullEntries(off, r, d), ok, NullEntries(LeafCount(cn), r, d));
        FieldAt(n.fields, n.rl, n.dl, lo, i);
        assert NullEntries(off, r, d) + NullEntries(LeafCount(cn), r, d) == NullEntries(Offset(n.fields, i + 1), r, d);
      }
      assert n.fields[..|n.fields|] == n.fields;
      ok := true;
    }

    method NullChild(n: Node, i: nat, r: nat, d: nat, ghost pr: nat, ghost pd: nat, ghost lo: nat, ghost p: Progress)
      returns (ok: bool, ghost q: Progress)
      requires n.Group? && i < |n.fields| && Shape() && At(p) && lo + Offset(n.fields, i) <= p.t
      requires Fits(n, pr, pd, lo) && Placed(root, n, lo) && r <= pr && d <= pd
      modifies columns
      ensures ok == NullOk(n.fields[i], d)
      ensures At(q) && Step(p, q, ok, lo + Offset(n.fields, i), NullEntries(LeafCount(n.fields[i]), r, d))
      ensures ok ==> lo + Offset(n.fields, i + 1) <= q.t
      decreases n, 0
    {
      hide Writer.Tracked, Writer.Shape, Step, Extend, Leaves, LeavesOf, Fits, FitsAll;
      var cn := n.fields[i];
      FitsHere(n, pr, pd, lo);
      FieldAt(n.fields, n.rl, n.dl, lo, i);
      GroupLayout(root, n, lo);
      PlacedAt(root, n.fields, n.rl, n.dl, lo, i);
      if cn.Column? {
        ok, q := NullColumn(cn, r, d, n.rl, n.dl, lo + Offset(n.fields, i), p);
      } else {
        ok, q := DissectNull(cn, r, d, n.rl, n.dl, lo + Offset(n.fields, i), p);
      }
    }

    method NullColumn(n: Node, r: nat, d: nat, ghost pr: nat, ghost pd: nat, ghost lo: nat, ghost p: Progress)
      returns (ok: bool, ghost q: Progress)
      requires Shape() && At(p) && lo <= p.t
      requires n.Column? && Fits(n, pr, pd, lo) && Placed(root, n, lo) && r <= pr && d <= pd
      modifies columns
      ensures ok == NullOk(n, d)
      ensures At(q) && Step(p, q, ok, lo, NullEntries(1, r, d)) && lo < q.t
    {
      hide Writer.Tracked, Leaves;
      ColumnAt(n, lo);
      q := Touch(n.id, p);
      ok, q := PutNull(n.id, r, d, q);
    }

    method DissectField(n: Node, v: Lua, r: nat, d: nat, ghost pr: nat, ghost lo: nat, ghost p: Progress)
      returns (ok: bool, ghost q: Progress)
      requires Shape() && At(p) && lo <= p.t
      requires Fits(n, pr, d, lo) && WellShaped(n) && Placed(root, n, lo) && r <= pr
      modifies columns
      ensures ok == ParseField(n, v).Some?
      ensures At(q) && Step(p, q, ok, lo, FieldColumns(n, ParseField(n, v), r, d))
      ensures ok ==> lo + LeafCount(n) <= q.t
      decreases n, 4
    {
      hide Writer.Tracked, Writer.Shape, Step, Extend, Leaves, LeavesOf, Fits, FitsAll, ShredFields;
      if n.Column? {
        ok, q := DissectLeaf(n, v, r, d, pr, lo, p);
        return;
      }
      FitsHere(n, pr, d, lo);
      match v {
        case Table(arr, hash) =>
          if n.rt == Repeated && |arr| > 0 {
            ok, q := DissectArray(n, arr, r, d, pr, lo, p);
          } else {
            ok, q := DissectGroup(n, v, r, pr, d, lo, p);
            if ok { OneInstance(n, ParseGroup(n, v).value, r); }
          }
        case Nil =>
          MissingIsNull(n, pr, d, lo, r);
          ok, q := DissectNull(n, r, d, pr, d, lo, p);
          if !ok { StepStops(p, q, ok, lo, NullEntries(LeafCount(n), r, d), lo, []); }
        case Null =>
          MissingIsNull(n, pr, d, lo, r);
          ok, q := DissectNull(n, r, d, pr, d, lo, p);
          if !ok { StepStops(p, q, ok, lo, NullEntries(LeafCount(n), r, d), lo, []); }
        case _ =>
          StepNothing(p, lo);
          ok, q := false, p;
      }
    }

    // The same for a primitive column: an array of values, a null, or one value.
    method DissectLeaf(n: Node, v: Lua, r: nat, d: nat, ghost pr: nat, ghost lo: nat, ghost p: Progress)
      returns (ok: bool, ghost q: Progress)
      requires Shape() && At(p) && lo <= p.t
      requires n.Column? && Fits(n, pr, d, lo) && Placed(root, n, lo) && r <= pr
      modifies columns
      ensures ok == ParseField(n, v).Some?
      ensures At(q) && Step(p, q, ok, lo, FieldColumns(n, ParseField(n, v), r, d)) && lo < q.t
    {
      hide Writer.Tracked, Writer.Shape, Leaves, Extend, Convert, Collect, IsSchema, FitsAll, LeavesOf;
      ColumnAt(n, lo);
      q := Touch(n.id, p);
      ghost var p1 := q;
      match v {
        case Table(arr, hash) =>
          if n.rt != Repeated {
            ok := false;
          } else if |arr| == 0 {
            ok, q := PutNull(n.id, r, d, q);
          } else {
            ok, q := AddValues(n, arr, r, d, pr, lo, q);
          }
        case Nil => ok, q := PutNull(n.id, r, d, q);
        case Null => ok, q := PutNull(n.id, r, d, q);
        case _ =>
          ok, q := PutValue(n.id, v, r, q);
          if ok { ScalarColumn(n, Convert(n.pt, v).value, r, d); }
      }
      assert Step(p1, q, ok, lo, FieldColumns(n, ParseField(n, v), r, d));
    }

    // An array of plain values for a repeated column.
    method AddValues(n: Node, arr: seq<Lua>, r: nat, d: nat, ghost pr: nat, ghost lo: nat, ghost p: Progress)
      returns (ok: bool, ghost q: Progress)
      requires Shape() && At(p) && lo < p.t && arr != []
      requires n.Column? && n.rt == Repeated && Fits(n, pr, d, lo) && Placed(root, n, lo) && r <= pr
      modifies columns
      ensures ok == ParseValues(n.pt, arr).Some?
      ensures At(q) && Step(p, q, ok, lo, FieldColumns(n, AsVals(ParseValues(n.pt, arr)), r, d))
      ensures q.t == p.t
    {
      hide Writer.Tracked, Writer.Shape, Leaves, Convert, Fits, Extend, Step;
      ColumnAt(n, lo);
      FitsHere(n, pr, d, lo);
      q := p;
      var cr := r;
      ghost var done: seq<Value> := [];
      assert ShredValues(done, r, n.rl, n.dl) == [];
      StepNone(p, q, lo, 1);
      assert NoEntries(1) == [[]];
      for j := 0 to |arr|
        invariant At(q) && q.t == p.t && Step(p, q, true, lo, [ShredValues(done, r, n.rl, n.dl)])
        invariant |done| == j && cr == (if j == 0 then r else n.rl)
        invariant forall k :: 0 <= k < j ==> Convert(n.pt, arr[k]) == Some(done[k])
      {
        ghost var q0, c := q, Convert(n.pt, arr[j]);
        ghost var e := Entry(cr, n.dl, c);
        ok, q := PutValue(n.id, arr[j], cr, q);
        if !ok {
          if ParseValues(n.pt, arr).Some? { ValueAt(n.pt, arr, j); }
          StepStops(p, q, true, lo, [ShredValues(done, r, n.rl, n.dl)], lo, []);
          return;
        }
        StepExtend(q0, lo, [[e]]);
        NextValue(p, q0, q, n, done, c.value, r, lo);
        done := done + [c.value];
        cr := n.rl;
      }
      ok := true;
      assert ParseValues(n.pt, arr).value == done;
    }

    // An array of groups.
    method DissectArray(n: Node, arr: seq<Lua>, r: nat, d: nat, ghost pr: nat, ghost lo: nat, ghost p: Progress)
      returns (ok: bool, ghost q: Progress)
      requires Shape() && At(p) && lo <= p.t && arr != []
      requires n.Group? && n.rt == Repeated && Fits(n, pr, d, lo) && WellShaped(n) && Placed(root, n, lo) && r <= pr
      modifies columns
      ensures ok == ParseInstances(n, arr).Some?
      ensures At(q) && Step(p, q, ok, lo, FieldColumns(n, AsGroups(ParseInstances(n, arr)), r, d))
      ensures ok ==> lo + LeafCount(n) <= q.t
      decreases n, 2
    {
      hide Writer.Tracked, Writer.Shape, Leaves, LeavesOf, Fits, FitsAll, Extend, Step, ShredFields, ShredField;
      FitsHere(n, pr, d, lo);
      GroupLayout(root, n, lo);
      q := p;
      var cr := r;
      ghost var done: seq<Record> := [];
      StepNone(p, q, lo, LeafCount(n));
      for j := 0 to |arr|
        invariant At(q) && Step(p, q, true, lo, ShredInstances(n, done, r))
        invariant |done| == j && cr == (if j == 0 then r else n.rl)
        invariant lo <= q.t && (j > 0 ==> lo + LeafCount(n) <= q.t)
        invariant forall k :: 0 <= k < j ==> arr[k].Table? && ParseRecord(n.fields, arr[k]) == Some(done[k])
      {
        if ParseInstances(n, arr).Some? { InstanceAt(n, arr, j); }
        if !arr[j].Table? {
          StepStops(p, q, true, lo, ShredInstances(n, done, r), lo, []);
          return false, q;
        }
        ghost var q0, g := q, ParseRecord(n.fields, arr[j]);
        ok, q := DissectRecord(n, arr[j], cr, lo, q);
        if !ok {
          StepFails(p, q0, q, lo, ShredInstances(n, done, r), lo, [], lo, []);
          return;
        }
        NextInstance(p, q0, q, n, done, g.value, r, lo);
        done := done + [g.value];
        cr := n.rl;
      }
      ok := true;
      assert ParseInstances(n, arr).value == done;
      GroupsColumns(n, done, r, d);
    }

    // One table as one instance of group n.
    method DissectGroup(n: Node, t: Lua, r: nat, ghost pr: nat, ghost d: nat, ghost lo: nat, ghost p: Progress)
      returns (ok: bool, ghost q: Progress)
      requires Shape() && At(p) && lo <= p.t && t.Table?
      requires n.Group? && Fits(n, pr, d, lo) && WellShaped(n) && Placed(root, n, lo) && r <= n.rl
      modifies columns
      ensures ok == ParseGroup(n, t).Some?
      ensures At(q) && Step(p, q, ok, lo, RecordColumns(n.fields, ParseGroup(n, t), r, n.dl))
      ensures ok ==> lo + LeafCount(n) <= q.t
      decreases n, 2
    {
      match n.lt {
        case MapGroup =>
          SoleLayout(root, n, pr, d, lo);
          ok, q := DissectMap(n.fields[0], t, r, n.dl, n.rl, lo, p);
          if ok { SoleField(n.fields, ParseMap(n.fields[0], Entries(t)).value, r, n.dl); }
        case ListGroup =>
          SoleLayout(root, n, pr, d, lo);
          ok, q := DissectList(n.fields[0], t, r, n.dl, n.rl, lo, p);
          if ok { SoleField(n.fields, ParseList(n.fields[0], t.arr).value, r, n.dl); }
        case TupleGroup =>
          ok, q := DissectTuple(n, t, r, lo, p);
        case PlainGroup =>
          ok, q := DissectRecord(n, t, r, lo, p);
      }
    }

    method DissectMap(kv: Node, t: Lua, r: nat, d: nat, ghost pr: nat, ghost lo: nat, ghost p: Progress)
      returns (ok: bool, ghost q: Progress)
      requires Shape() && At(p) && lo <= p.t && t.Table?
      requires Fits(kv, pr, d, lo) && WellShaped(kv) && IsKeyValue(kv) && Placed(root, kv, lo) && r <= pr
      modifies columns
      ensures ok == ParseMap(kv, Entries(t)).Some?
      ensures At(q) && Step(p, q, ok, lo, FieldColumns(kv, ParseMap(kv, Entries(t)), r, d))
      ensures ok ==> lo + LeafCount(kv) <= q.t
      decreases kv, 3
    {
      hide Writer.Tracked, Writer.Shape, Step, Leaves, LeavesOf, Fits, FitsAll, Extend, ShredFields, ShredField,
           WellShaped;
      FitsHere(kv, pr, d, lo);
      NullOkBelow(kv, pr, d, lo, d);
      var kn := kv.fields[0];
      KeyValueLayout(root, kv, pr, d, lo);
      ColumnAt(kn, lo);
      q := Touch(kn.id, p);
      var ps := Entries(t);
      var cr, found := r, false;
      ghost var done: seq<Record> := [];
      StepNone(p, q, lo, LeafCount(kv));
      for i := 0 to |ps|
        invariant At(q) && lo < q.t && Step(p, q, true, lo, ShredInstances(kv, done, r))
        invariant |done| == i && cr == (if i == 0 then r else kv.rl) && found == (i > 0)
        invariant i > 0 ==> lo + LeafCount(kv) <= q.t
        invariant forall k :: 0 <= k < i ==> ParsePair(kv, ps[k]) == Some(done[k])
      {
        ghost var q0, g := q, ParsePair(kv, ps[i]);
        ok, q := DissectPair(kv, ps[i], cr, pr, d, lo, q);
        if !ok {
          if ParseMap(kv, ps).Some? { PairAt(kv, ps, i); }
          StepFails(p, q0, q, lo, ShredInstances(kv, done, r), lo, [], lo, []);
          return;
        }
        NextInstance(p, q0, q, kv, done, g.value, r, lo);
        done := done + [g.value];
        cr, found := kv.rl, true;
      }
      assert ParseMap(kv, ps).value.gs == done;
      GroupsColumns(kv, done, r, d);
      ok := true;
      if !found {
        ghost var q0 := q;
        ok, q := DissectNull(kv, r, d, pr, d, lo, q);
        StepAgain(p, q0, q, lo, NoEntries(LeafCount(kv)), ok, NullEntries(LeafCount(kv), r, d));
        ZipNone(NullEntries(LeafCount(kv), r, d));
      }
    }

    // One entry of a map: the value is dissected before the key is added.
    method DissectPair(kv: Node, pair: Pair, r: nat, ghost pr: nat, ghost d: nat, ghost lo: nat, ghost p: Progress)
      returns (ok: bool, ghost q: Progress)
      requires Shape() && At(p) && lo < p.t
      requires Fits(kv, pr, d, lo) && WellShaped(kv) && IsKeyValue(kv) && Placed(root, kv, lo) && r <= kv.rl
      modifies columns
      ensures ok == ParsePair(kv, pair).Some?
      ensures At(q) && Step(p, q, ok, lo, RecordColumns(kv.fields, ParsePair(kv, pair), r, kv.dl)) && p.t <= q.t
      ensures ok ==> lo + LeafCount(kv) <= q.t
      decreases kv, 2
    {
      hide Writer.Tracked, Writer.Shape, Leaves, LeavesOf, Fits, FitsAll, Extend, ShredFields, WellShaped;
      var kn, vn := kv.fields[0], kv.fields[1];
      KeyValueLayout(root, kv, pr, d, lo);
      ColumnAt(kn, lo);
      ghost var key, val := Convert(kn.pt, pair.key), ParseField(vn, pair.val);
      ok, q := DissectField(vn, pair.val, r, kv.dl, kv.rl, lo + 1, p);
      ghost var q1 := q;
      if ok {
        ok, q := PutValue(kn.id, pair.key, r, q);
      }
      if ok {
        StepExtend(q1, lo, [[Entry(r, kn.dl, key)]]);
        StepFront(p, q1, q, lo, [[Entry(r, kn.dl, key)]], ok, ShredField(vn, val.value, r, kv.dl));
        PairColumns(kv, key.value, val.value, r, kv.dl);
      }
    }

    method DissectList(body: Node, t: Lua, r: nat, d: nat, ghost pr: nat, ghost lo: nat, ghost p: Progress)
      returns (ok: bool, ghost q: Progress)
      requires Shape() && At(p) && lo <= p.t && t.Table?
      requires Fits(body, pr, d, lo) && WellShaped(body) && IsListBody(body) && Placed(root, body, lo) && r <= pr
      modifies columns
      ensures ok == ParseList(body, t.arr).Some?
      ensures At(q) && Step(p, q, ok, lo, FieldColumns(body, ParseList(body, t.arr), r, d))
      ensures ok ==> lo + LeafCount(body) <= q.t
      decreases body, 2
    {
      hide Writer.Tracked, Writer.Shape, Step, Leaves, LeavesOf, Fits, FitsAll, Extend, ShredFields, ShredField,
           WellShaped;
      FitsHere(body, pr, d, lo);
      var vn := body.fields[0];
      var arr := t.arr;
      if |arr| == 0 {
        NullOkBelow(body, pr, d, lo, d);
        GroupsColumns(body, [], r, d);
        assert ParseList(body, arr) == Some(Groups([]));
        ok, q := DissectNull(body, r, d, pr, d, lo, p);
        return;
      }
      SoleLayout(root, body, pr, d, lo);
      q := p;
      var cr := r;
      ghost var done: seq<Record> := [];
      StepNone(p, q, lo, LeafCount(body));
      for i := 0 to |arr|
        invariant At(q) && Step(p, q, true, lo, ShredInstances(body, done, r))
        invariant |done| == i && cr == (if i == 0 then r else body.rl)
        invariant lo <= q.t && (i > 0 ==> lo + LeafCount(body) <= q.t)
        invariant forall k :: 0 <= k < i ==> ParseElement(body, arr[k]) == Some(done[k])
      {
        ghost var q0, val := q, ParseField(vn, arr[i]);
        if ParseList(body, arr).Some? { ElementAt(body, arr, i); }
        ok, q := DissectField(vn, arr[i], cr, body.dl, body.rl, lo, q);
        if !ok {
          StepFails(p, q0, q, lo, ShredInstances(body, done, r), lo, [], lo, []);
          return;
        }
        SoleField(body.fields, val.value, cr, body.dl);
        NextInstance(p, q0, q, body, done, [val.value], r, lo);
        done := done + [[val.value]];
        cr := body.rl;
      }
      ok := true;
      assert ParseList(body, arr).value.gs == done;
      GroupsColumns(body, done, r, d);
    }

    // The i-th field of a group, given its value.
    method DissectChild(n: Node, i: nat, v: Lua, r: nat, ghost lo: nat, ghost p: Progress)
      returns (ok: bool, ghost q: Progress)
      requires n.Group? && i < |n.fields| && Shape() && At(p) && lo + Offset(n.fields, i) <= p.t
      requires n.Group? && FitsAll(n.fields, n.rl, n.dl, lo) && AllWellShaped(n.fields)
      requires PlacedAll(root, n.fields, lo) && r <= n.rl
      modifies columns
      ensures ok == ParseField(n.fields[i], v).Some?
      ensures At(q) && Step(p, q, ok, lo + Offset(n.fields, i),
                            FieldColumns(n.fields[i], ParseField(n.fields[i], v), r, n.dl))
      ensures ok ==> lo + Offset(n.fields, i + 1) <= q.t
      decreases n, 0
    {
      hide Writer.Tracked, Writer.Shape, Step, Extend, Leaves, LeavesOf, FitsAll, ShredField, ParseField;
      FieldAt(n.fields, n.rl, n.dl, lo, i);
      PlacedAt(root, n.fields, n.rl, n.dl, lo, i);
      ok, q := DissectField(n.fields[i], v, r, n.dl, n.rl, lo + Offset(n.fields, i), p);
    }

    method DissectTuple(n: Node, t: Lua, r: nat, ghost lo: nat, ghost p: Progress)
      returns (ok: bool, ghost q: Progress)
      requires Shape() && At(p) && lo <= p.t && t.Table?
      requires n.Group? && FitsAll(n.fields, n.rl, n.dl, lo) && AllWellShaped(n.fields)
      requires PlacedAll(root, n.fields, lo) && r <= n.rl
      modifies columns
      ensures ok == ParseTuple(n.fields, t).Some?
      ensures At(q) && Step(p, q, ok, lo, RecordColumns(n.fields, ParseTuple(n.fields, t), r, n.dl))
      ensures ok ==> lo + LeafCount(n) <= q.t
      decreases n, 1
    {
      hide Writer.Tracked, Writer.Shape, Step, Extend, Leaves, LeavesOf, ShredField, ShredFields, Fits, FitsAll,
           WellShaped;
      q := p;
      ghost var done: Record := [];
      StepNone(p, q, lo, 0);
      for i := 0 to |n.fields|
        invariant At(q) && |done| == i && Step(p, q, true, lo, ShredFields(n.fields[..i], done, r, n.dl))
        invariant lo + Offset(n.fields, i) <= q.t
        invariant forall k :: 0 <= k < i ==> ParseField(n.fields[k], RawGetI(t, k + 1)) == Some(done[k])
      {
        ghost var q0, inst := q, ParseField(n.fields[i], RawGetI(t, i + 1));
        ok, q := DissectChild(n, i, RawGetI(t, i + 1), r, lo, q);
        if !ok {
          if ParseTuple(n.fields, t).Some? { TupleAt(n.fields, t, i); }
          StepFails(p, q0, q, lo, ShredFields(n.fields[..i], done, r, n.dl), lo + Offset(n.fields, i), [], lo, []);
          return;
        }
        NextField(p, q0, q, n.fields, i, done, inst.value, r, n.dl, lo);
        done := done + [inst.value];
      }
      assert n.fields[..|n.fields|] == n.fields;
      ok := true;
      assert ParseTuple(n.fields, t).value == done;
    }

    method DissectRecord(n: Node, t: Lua, r: nat, ghost lo: nat, ghost p: Progress)
      returns (ok: bool, ghost q: Progress)
      requires Shape() && At(p) && lo <= p.t && t.Table?
      requires n.Group? && FitsAll(n.fields, n.rl, n.dl, lo) && AllWellShaped(n.fields)
      requires PlacedAll(root, n.fields, lo) && r <= n.rl
      modifies columns
      ensures ok == ParseRecord(n.fields, t).Some?
      ensures At(q) && Step(p, q, ok, lo, RecordColumns(n.fields, ParseRecord(n.fields, t), r, n.dl))
      ensures ok ==> lo + LeafCount(n) <= q.t
      decreases n, 1
    {
      hide Writer.Tracked, Writer.Shape, Step, Extend, Leaves, LeavesOf, ShredField, ShredFields, Fits, FitsAll,
           WellShaped;
      q := p;
      ghost var done: Record := [];
      StepNone(p, q, lo, 0);
      for i := 0 to |n.fields|
        invariant At(q) && |done| == i && Step(p, q, true, lo, ShredFields(n.fields[..i], done, r, n.dl))
        invariant lo + Offset(n.fields, i) <= q.t
        invariant forall k :: 0 <= k < i ==>
                  ParseField(n.fields[k], GetField(t.hash, n.fields[k].name)) == Some(done[k])
      {
        var v := GetField(t.hash, n.fields[i].name);
        ghost var q0, inst := q, ParseField(n.fields[i], v);
        ok, q := DissectChild(n, i, v, r, lo, q);
        if !ok {
          if ParseRecord(n.fields, t).Some? { RecordAt(n.fields, t, i); }
          StepFails(p, q0, q, lo, ShredFields(n.fields[..i], done, r, n.dl), lo + Offset(n.fields, i), [], lo, []);
          return;
        }
        NextField(p, q0, q, n.fields, i, done, inst.value, r, n.dl, lo);
        done := done + [inst.value];
      }
      assert n.fields[..|n.fields|] == n.fields;
      ok := true;
      assert ParseRecord(n.fields, t).value == done;
    }

    // ------------------------------------------------------------ whole records

    // The columns hold exactly the accepted records and nothing else.
    ghost predicate Valid()
      reads this, columns
    {
      && Shape() && numRecords == |records|
      && (forall k :: 0 <= k < |records| ==> ConformsAll(root.fields, records[k]))
      && At(Start(ShredRecords(root, records)))
    }

    lemma RecordsConform()
      requires Valid()
      ensures forall k :: 0 <= k < |records| ==> ConformsAll(root.fields, records[k])
    {
    }

    // A writer for a finalized schema (pq_new_writer).
    constructor (schema: Node)
      requires IsSchema(schema)
      ensures Valid() && root == schema && records == [] && open
      ensures fresh(columns)
    {
      var leaves := AddColumns(schema);
      LeafLevels(schema, 0, 0, 0);
      var cs: seq<ColumnBuffer> := [];
      for i := 0 to |leaves|
        invariant |cs| == i && fresh(cs)
        invariant forall j :: 0 <= j < i ==> cs[j].node == leaves[j] && cs[j].Tracks([], 0, false, 0)
        invariant forall j, k :: 0 <= j < k < i ==> cs[j] != cs[k]
      {
        var c := new ColumnBuffer(leaves[i]);
        cs := cs + [c];
      }
      root, columns, numRecords, open, records := schema, cs, 0, true, [];
    }

    // rollback_record.  It stops at the first column the record has not touched, which
    // is sound because the touched columns are a prefix.
    method RollbackRecord(ghost p: Progress)
      requires Shape() && At(p)
      requires forall i :: 0 <= i < |columns| ==> p.bases[i] <= |p.logs[i]|
      modifies columns
      ensures At(Progress(0, Cut(p.logs, p.bases), p.bases))
    {
      hide ColumnBuffer.Valid, ColumnBuffer.Counted, Leaves, IsSchema, LeafCount;
      for i := 0 to |columns|
        invariant forall j :: 0 <= j < i ==>
                    columns[j].Tracks(p.logs[j][..p.bases[j]], p.bases[j], false, numRecords)
        invariant forall j :: i <= j < |columns| ==>
                    columns[j].Tracks(p.logs[j], p.bases[j], j < p.t, numRecords)
      {
        if columns[i].recNum != numRecords {
          forall j | i <= j < |columns|
            ensures columns[j].Tracks(p.logs[j][..p.bases[j]], p.bases[j], false, numRecords)
          {
            assert p.t <= i && columns[j].Clean();
            assert p.logs[j][..p.bases[j]] == p.logs[j];
          }
          return;
        }
        columns[i].Rollback();
      }
    }

    // The entries received so far become part of the committed logs: from the next record
    // on they are out of reach of a rollback.
    ghost method Commit(p: Progress)
      requires Shape() && At(p)
      modifies columns
      ensures forall i :: 0 <= i < |columns| ==>
                            columns[i].Tracks(p.logs[i], |p.logs[i]|, false, numRecords + 1)
    {
      hide ColumnBuffer.Valid, ColumnBuffer.Counted;
      forall i | 0 <= i < |columns| {
        columns[i].base := |columns[i].log|;
      }
    }

    lemma Accepted(rec: Record, p: Progress, q: Progress)
      requires Shape() && p == Start(ShredRecords(root, records))
      requires Step(p, q, true, 0, ShredFields(root.fields, rec, 0, 0))
      ensures q.logs == ShredRecords(root, records + [rec])
    {
      var recs := records + [rec];
      assert recs[..|recs| - 1] == records;
      assert q.logs == Zip(p.logs, ShredFields(root.fields, rec, 0, 0));
    }

    // pq_writer_dissect: a record is either taken completely or leaves no trace.
    method Dissect(v: Lua) returns (ok: bool)
      requires Valid()
      modifies this`numRecords, this`records, columns
      ensures Valid()
      ensures ok == (open && Meaning(root, v).Some?)
      ensures records == if ok then old(records) + [Meaning(root, v).value] else old(records)
      ensures !ok ==> forall i :: 0 <= i < |columns| ==> columns[i].View() == old(columns[i].View())
    {
      hide Writer.Tracked, Step, Leaves, LeavesOf, Fits, FitsAll, ShredFields, ShredField, ParseField,
           ColumnBuffer.Valid, ColumnBuffer.Tracks;
      SchemaFacts(root);
      ViewsAreShredded();
      ghost var p := Start(ShredRecords(root, records));
      ghost var meaning := Meaning(root, v);
      if !v.Table? || !open { return false; }
      ghost var q;
      ok, q := DissectRecord(root, v, 0, 0, p);
      if ok {
        Accepted(meaning.value, p, q);
        Commit(q);
        numRecords := numRecords + 1;
        records := records + [meaning.value];
        Renumbered(q);
      } else {
        CutBack(p, q, RecordColumns(root.fields, meaning, 0, 0));
        RollbackRecord(q);
        ViewsAreShredded();
      }
    }

    lemma Renumbered(q: Progress)
      requires Shape() && Sized(q)
      requires forall i :: 0 <= i < |columns| ==> columns[i].Tracks(q.logs[i], |q.logs[i]|, false, numRecords)
      ensures At(Start(q.logs))
    {
    }

    // What a reader of the columns sees is a function of the accepted records alone.
    lemma ViewsAreShredded()
      requires Valid()
      ensures forall i :: 0 <= i < |columns| ==>
                            && columns[i].Valid()
                            && columns[i].View() == ViewOf(Leaves(root)[i], ShredRecords(root, records)[i])
    {
    }

    // pq_writer_rowgroup: a closed writer is an error.
    method WriteRowgroup(fault: Option<nat>) returns (res: WriteResult)
      requires Valid()
      modifies this`numRecords, this`records, columns
      ensures Valid() && res == if open then GroupWritten(root, true, old(records), fault) else Closed
      ensures records == (if res.Nothing? || res.Closed? then old(records) else [])
    {
      if !open { return Closed; }
      res := Flush(fault);
    }

    // write_columns and write_rowgroup: hand every column to the file and empty it.  The
    // file writer may fail at any column, or (fault past the last column) while closing
    // the group; then clear_columns drops the data.
    method Flush(fault: Option<nat>) returns (res: WriteResult)
      requires Valid()
      modifies this`numRecords, this`records, columns
      ensures Valid() && res == GroupWritten(root, open, old(records), fault)
      ensures records == (if res.Nothing? then old(records) else [])
    {
      hide ColumnBuffer.Valid, ColumnBuffer.Counted, ViewOf, Leaves, Fits, LeafCount;
      if !open || numRecords == 0 { return Nothing; }
      var views: seq<ColumnView> := [];
      ghost var logs := ShredRecords(root, records);
      assert logs == Start(logs).logs;
      for i := 0 to |columns|
        invariant |views| == i && records == old(records) && numRecords == old(numRecords)
        invariant forall j :: 0 <= j < i ==> views[j] == ViewOf(Leaves(root)[j], logs[j]) && columns[j].Cleared()
        invariant forall j :: i <= j < |columns| ==> columns[j].Tracks(logs[j], |logs[j]|, false, numRecords)
      {
        if fault == Some(i) {
          ClearColumns();
          return Failed;
        }
        var view := columns[i].HandOver();
        views := views + [view];
      }
      if fault.Some? {
        ClearColumns();
        return Failed;
      }
      res := Written(RowGroup(numRecords, views));
      assert forall j :: 0 <= j < |views| ==> views[j] == GroupViews(root, records)[j];
      assert views == GroupViews(root, records);
      numRecords := 0;
      records := [];
      NothingLogged();
    }

    method ClearColumns()
      requires Shape() && forall i :: 0 <= i < |columns| ==> columns[i].Valid()
      modifies this`numRecords, this`records, columns
      ensures Valid() && records == []
    {
      hide ColumnBuffer.Valid, ColumnBuffer.Counted, Leaves, IsSchema;
      for i := 0 to |columns|
        invariant forall j :: 0 <= j < i ==> columns[j].Cleared()
        invariant forall j :: i <= j < |columns| ==> columns[j].Valid()
      {
        columns[i].Clear();
      }
      numRecords := 0;
      records := [];
      NothingLogged();
    }

    lemma NothingLogged()
      requires Shape() && numRecords == 0 && records == []
      requires forall i :: 0 <= i < |columns| ==> columns[i].Cleared()
      ensures Valid()
    {
    }

    // pq_writer_close: what is pending is written first.  The writer stays open when the
    // file writer itself fails to close; any failure is an error.
    method Close(fault: Option<nat>, closeFails: bool) returns (res: WriteResult, ok: bool)
      requires Valid()
      modifies this, columns
      ensures Valid() && open == (old(open) && closeFails)
      ensures res == GroupWritten(root, old(open), old(records), fault)
      ensures records == (if res.Nothing? then old(records) else [])
      ensures ok <==> res != Failed && !open
    {
      res := Flush(fault);
      ok := res != Failed;
      if open {
        if closeFails { return res, false; }
        open := false;
      }
    }
  }

  // ---------------------------------------------------------------- row groups

  datatype RowGroup = RowGroup(numRecords: nat, columns: seq<ColumnView>)

  datatype WriteResult = Closed | Nothing | Failed | Written(group: RowGroup)

  function GroupViews(root: Node, recs: seq<Record>): (vs: seq<ColumnView>)
    requires root.Group?
    ensures |vs| == LeafCount(root)
    ensures forall i :: 0 <= i < |vs| ==> vs[i] == ViewOf(Leaves(root)[i], ShredRecords(root, recs)[i])
  {
    seq(LeafCount(root), i requires 0 <= i < LeafCount(root) => ViewOf(Leaves(root)[i], ShredRecords(root, recs)[i]))
  }

  // The outcome of a write: nothing when closed or empty, a failure when the file writer
  // fails at a column or at the end of the group, and otherwise the shredded records.
  function GroupWritten(root: Node, open: bool, recs: seq<Record>, fault: Option<nat>): (res: WriteResult)
    requires root.Group?
  {
    if !open || recs == [] then Nothing
    else if fault.Some? then Failed
    else Written(RowGroup(|recs|, GroupViews(root, recs)))
  }

  // A reader's way back: levels and values to entries, entries to records.
  function ReadGroup(root: Node, g: RowGroup): (recs: seq<Record>)
    requires root.Group? && |g.columns| == LeafCount(root)
  {
    AssembleRecords(root,
      seq(LeafCount(root), i requires 0 <= i < LeafCount(root) => ReadBack(Leaves(root)[i], g.columns[i])))
  }

  // What was written is exactly what was dissected.
  lemma {:induction false} GroupReadsBack(root: Node, recs: seq<Record>)
    requires IsSchema(root)
    requires forall k :: 0 <= k < |recs| ==> ConformsAll(root.fields, recs[k])
    ensures ReadGroup(root, RowGroup(|recs|, GroupViews(root, recs))) == recs
  {
    var logs, views := ShredRecords(root, recs), GroupViews(root, recs);
    forall i | 0 <= i < LeafCount(root) ensures ReadBack(Leaves(root)[i], views[i]) == logs[i] {
      RecordsEntriesOk(root, recs, i);
      ReadBackOfView(Leaves(root)[i], logs[i]);
    }
    assert seq(LeafCount(root), i requires 0 <= i < LeafCount(root) => ReadBack(Leaves(root)[i], views[i])) == logs;
    ShreddingIsLossless(root, recs);
  }

  // ---------------------------------------------------------------- column well-formedness

  // Levels stay within the maxima of the leaf, and exactly the entries at the maximum
  // definition level carry a value of the column's type.
  ghost predicate StreamsOk(ls: seq<Node>, cols: seq<Stream>) {
    |ls| == |cols| && forall i :: 0 <= i < |ls| ==> ls[i].Column? && EntriesOk(ls[i], cols[i])
  }

  lemma {:induction false} FieldEntriesOk(n: Node, inst: Inst, r: nat, pr: nat, d: nat, lo: nat)
    requires Fits(n, pr, d, lo) && Conforms(n, inst) && r <= pr
    ensures StreamsOk(Leaves(n), ShredField(n, inst, r, d))
    decreases n, 2
  {
    LeafLevels(n, pr, d, lo);
    if n.Column? {
      if inst.vs != [] { ValuesEntriesOk(n, inst.vs, r); }
    } else if inst.gs != [] {
      InstancesEntriesOk(n, inst.gs, r, pr, d, lo);
    } else {
      NullsBelow(n, pr, d, lo);
    }
  }

  lemma {:induction false} ValuesEntriesOk(n: Node, vs: seq<Value>, r: nat)
    requires n.Column? && r <= n.rl && forall v :: v in vs ==> TypeOk(n.pt, v)
    ensures EntriesOk(n, ShredValues(vs, r, n.rl, n.dl))
    decreases vs
  {
    if vs != [] { ValuesEntriesOk(n, vs[1..], n.rl); }
  }

  lemma {:induction false} InstancesEntriesOk(n: Node, gs: seq<Record>, r: nat, pr: nat, d: nat, lo: nat)
    requires n.Group? && Fits(n, pr, d, lo) && r <= n.rl
    requires forall k :: 0 <= k < |gs| ==> ConformsAll(n.fields, gs[k])
    ensures StreamsOk(Leaves(n), ShredInstances(n, gs, r))
    decreases n, 1, |gs|
  {
    if gs != [] {
      FieldsEntriesOk(n.fields, gs[0], r, n.rl, n.dl, lo);
      InstancesEntriesOk(n, gs[1..], n.rl, pr, d, lo);
    }
  }

  lemma {:induction false} FieldsEntriesOk(fs: seq<Node>, rec: Record, r: nat, pr: nat, d: nat, lo: nat)
    requires FitsAll(fs, pr, d, lo) && ConformsAll(fs, rec) && r <= pr
    ensures StreamsOk(LeavesOf(fs), ShredFields(fs, rec, r, d))
    decreases fs
  {
    if fs != [] {
      FieldEntriesOk(fs[0], rec[0], r, pr, d, lo);
      FieldsEntriesOk(fs[1..], rec[1..], r, pr, d, lo + LeafCount(fs[0]));
    }
  }

  // Below an optional or repeated field every leaf can be null at the parent's level.
  lemma NullsBelow(n: Node, pr: nat, d: nat, lo: nat)
    requires Fits(n, pr, d, lo) && n.dl > d
    ensures forall i :: 0 <= i < LeafCount(n) ==> Leaves(n)[i].dl > d && Leaves(n)[i].rl >= pr
  {
    LeafLevels(n, pr, d, lo);
  }

  lemma {:induction false} RecordsEntriesOk(root: Node, recs: seq<Record>, i: nat)
    requires IsSchema(root) && i < LeafCount(root)
    requires forall k :: 0 <= k < |recs| ==> ConformsAll(root.fields, recs[k])
    ensures EntriesOk(Leaves(root)[i], ShredRecords(root, recs)[i])
  {
    RecordsAreInstances(root, recs);
    InstancesEntriesOk(root, recs, 0, 0, 0, 0);
  }

  // The number of entries that open a record.
  function Openings(es: Stream): (k: nat) {
    if es == [] then 0
    else Openings(es[..|es| - 1]) + (if es[|es| - 1].rep == 0 then 1 else 0)
  }

  lemma {:induction false} OpeningsOfChunk(es: Stream, c: Stream)
    requires Chunk(c, 0, 0)
    ensures Openings(es + c) == Openings(es) + 1
    decreases |c|
  {
    var k := |c| - 1;
    assert (es + c)[..|es| + k] == es + c[..k];
    if k == 0 {
      assert es + c[..k] == es;
    } else {
      assert Chunk(c[..k], 0, 0);
      OpeningsOfChunk(es, c[..k]);
    }
  }

  // Every column of a group opens exactly one entry per record.
  lemma {:induction false} RowsPerColumn(root: Node, recs: seq<Record>, i: nat)
    requires IsSchema(root) && i < LeafCount(root)
    requires forall k :: 0 <= k < |recs| ==> ConformsAll(root.fields, recs[k])
    ensures Openings(ShredRecords(root, recs)[i]) == |recs|
    decreases |recs|
  {
    if recs != [] {
      var last := |recs| - 1;
      RowsPerColumn(root, recs[..last], i);
      FieldsChunks(root.fields, recs[last], 0, 0, 0, 0);
      OpeningsOfChunk(ShredRecords(root, recs[..last])[i], ShredFields(root.fields, recs[last], 0, 0)[i]);
    }
  }

  // ---------------------------------------------------------------- sessions

  datatype Op = DissectOp(v: Lua) | WriteOp(fault: Option<nat>) | CloseOp(fault: Option<nat>, closeFails: bool)

  // The groups written so far, what is still pending, and whether the file is still open.
  datatype History<T> = History(groups: seq<seq<T>>, pending: seq<T>, open: bool)

  function Flushed<T(==)>(h: History<T>, fault: Option<nat>): History<T> {
    if !h.open || h.pending == [] then h
    else h.(groups := if fault.Some? then h.groups else h.groups + [h.pending], pending := [])
  }

  ghost function After(root: Node, h: History<Record>, op: Op): (h': History<Record>)
    requires IsSchema(root)
  {
    match op
    case DissectOp(v) =>
      var m := Meaning(root, v);
      if h.open && m.Some? then h.(pending := h.pending + [m.value]) else h
    case WriteOp(fault) => Flushed(h, fault)
    case CloseOp(fault, closeFails) => Flushed(h, fault).(open := h.open && closeFails)
  }

  ghost function Replay(root: Node, ops: seq<Op>): (h: History<Record>)
    requires IsSchema(root)
  {
    if ops == [] then History([], [], true)
    else After(root, Replay(root, ops[..|ops| - 1]), ops[|ops| - 1])
  }

  // The same run with the tables the program passed in: one is accepted when some record
  // says what it says.
  ghost predicate IsAccepted(root: Node, v: Lua)
    requires IsSchema(root)
  {
    FitsWellShaped(root, 0, 0, 0);
    v.Table? && exists rec :: SaysRecord(root.fields, rec, v)
  }

  ghost function Tables(root: Node, ops: seq<Op>): (h: History<Lua>)
    requires IsSchema(root)
  {
    if ops == [] then History([], [], true)
    else
      var h := Tables(root, ops[..|ops| - 1]);
      match ops[|ops| - 1]
      case DissectOp(v) => if h.open && IsAccepted(root, v) then h.(pending := h.pending + [v]) else h
      case WriteOp(fault) => Flushed(h, fault)
      case CloseOp(fault, closeFails) => Flushed(h, fault).(open := h.open && closeFails)
  }

  // Every record says what its table says.
  ghost predicate SayAll(root: Node, recs: seq<Record>, tables: seq<Lua>)
    requires IsSchema(root)
  {
    FitsWellShaped(root, 0, 0, 0);
    && |recs| == |tables|
    && forall j :: 0 <= j < |recs| ==> tables[j].Table? && SaysRecord(root.fields, recs[j], tables[j])
  }

  ghost predicate SayAllGroups(root: Node, groups: seq<seq<Record>>, tables: seq<seq<Lua>>)
    requires IsSchema(root)
  {
    |groups| == |tables| && forall k :: 0 <= k < |groups| ==> SayAll(root, groups[k], tables[k])
  }

  // A table is accepted exactly when it stands for a record, and that says what it says.
  lemma MeaningSays(root: Node, v: Lua)
    requires IsSchema(root)
    ensures Meaning(root, v).Some? <==> IsAccepted(root, v)
    ensures Meaning(root, v).Some? ==> SayAll(root, [Meaning(root, v).value], [v])
  {
    hide SaysRecord, ParseRecord;
    FitsWellShaped(root, 0, 0, 0);
    if v.Table? {
      if rec :| SaysRecord(root.fields, rec, v) { RecordIff(root.fields, rec, v); }
      if Meaning(root, v).Some? { RecordIff(root.fields, Meaning(root, v).value, v); }
    }
  }

  lemma SayAllAppend(root: Node, recs: seq<Record>, tables: seq<Lua>, rec: Record, v: Lua)
    requires IsSchema(root) && SayAll(root, recs, tables) && SayAll(root, [rec], [v])
    ensures SayAll(root, recs + [rec], tables + [v])
  {
    hide SaysRecord, Fits;
    FitsWellShaped(root, 0, 0, 0);
    forall j | 0 <= j < |recs| + 1
      ensures (tables + [v])[j].Table? && SaysRecord(root.fields, (recs + [rec])[j], (tables + [v])[j])
    {
      assert j == |recs| ==> (recs + [rec])[j] == [rec][0] && (tables + [v])[j] == [v][0];
    }
  }

  lemma {:induction false} ReplaySays(root: Node, ops: seq<Op>)
    requires IsSchema(root)
    ensures var h, t := Replay(root, ops), Tables(root, ops);
            h.open == t.open && SayAll(root, h.pending, t.pending) && SayAllGroups(root, h.groups, t.groups)
    decreases |ops|
  {
    hide Meaning, IsAccepted, SayAll;
    NothingSaid(root);
    if ops != [] {
      var init, op := ops[..|ops| - 1], ops[|ops| - 1];
      ReplaySays(root, init);
      var h, t := Replay(root, init), Tables(root, init);
      SizesAgree(root, h.pending, t.pending);
      if op.DissectOp? {
        MeaningSays(root, op.v);
        if h.open && Meaning(root, op.v).Some? {
          SayAllAppend(root, h.pending, t.pending, Meaning(root, op.v).value, op.v);
        }
      }
    }
  }

  lemma NothingSaid(root: Node)
    requires IsSchema(root)
    ensures SayAll(root, [], [])
  {
  }

  lemma SizesAgree(root: Node, recs: seq<Record>, tables: seq<Lua>)
    requires IsSchema(root) && SayAll(root, recs, tables)
    ensures |recs| == |tables|
  {
  }

  // The file holds the accepted records of the reference.
  ghost predicate HoldsGroups(root: Node, groups: seq<RowGroup>, accepted: seq<seq<Record>>)
    requires IsSchema(root)
  {
    && |groups| == |accepted|
    && forall k :: 0 <= k < |groups| ==>
         && groups[k].numRecords == |accepted[k]| && |groups[k].columns| == LeafCount(root)
         && ReadGroup(root, groups[k]) == accepted[k]
  }

  lemma OneMoreGroup(root: Node, groups: seq<RowGroup>, accepted: seq<seq<Record>>, recs: seq<Record>)
    requires IsSchema(root) && HoldsGroups(root, groups, accepted)
    requires forall k :: 0 <= k < |recs| ==> ConformsAll(root.fields, recs[k])
    ensures HoldsGroups(root, groups + [RowGroup(|recs|, GroupViews(root, recs))], accepted + [recs])
  {
    hide LeafCount, ReadGroup, GroupViews;
    GroupReadsBack(root, recs);
  }

  // What is read back of the groups in a file.
  ghost predicate ReadsAsTables(root: Node, groups: seq<RowGroup>, tables: seq<seq<Lua>>)
    requires IsSchema(root)
  {
    && |groups| == |tables|
    && forall k :: 0 <= k < |groups| ==>
         |groups[k].columns| == LeafCount(root) && SayAll(root, ReadGroup(root, groups[k]), tables[k])
  }

  lemma GroupsReadAsTables(root: Node, groups: seq<RowGroup>, accepted: seq<seq<Record>>, tables: seq<seq<Lua>>)
    requires IsSchema(root) && HoldsGroups(root, groups, accepted) && SayAllGroups(root, accepted, tables)
    ensures ReadsAsTables(root, groups, tables)
  {
    hide SayAll, ReadGroup, LeafCount;
  }

  // Any sequence of dissections, good or bad, and writes and closings, successful or not:
  // the groups in the file read back as exactly the records that were accepted, in order,
  // and these say what the tables said that the program passed in.
  method Session(root: Node, ops: seq<Op>) returns (groups: seq<RowGroup>)
    requires IsSchema(root)
    ensures HoldsGroups(root, groups, Replay(root, ops).groups)
    ensures ReadsAsTables(root, groups, Tables(root, ops).groups)
  {
    hide Writer.Valid, Meaning, HoldsGroups, After, SayAllGroups, ReadsAsTables, Tables;
    var w := new Writer(root);
    groups := [];
    NoGroups(root);
    for i := 0 to |ops|
      invariant w.Valid() && w.root == root && fresh(w) && fresh(w.columns)
      invariant w.records == Replay(root, ops[..i]).pending && w.open == Replay(root, ops[..i]).open
      invariant HoldsGroups(root, groups, Replay(root, ops[..i]).groups)
    {
      assert ops[..i + 1][..i] == ops[..i] && ops[..i + 1][i] == ops[i];
      groups := Perform(w, root, ops[i], groups, Replay(root, ops[..i]));
    }
    assert ops[..|ops|] == ops;
    ReplaySays(root, ops);
    GroupsReadAsTables(root, groups, Replay(root, ops).groups, Tables(root, ops).groups);
  }

  method Perform(w: Writer, root: Node, op: Op, before: seq<RowGroup>, ghost h: History<Record>)
    returns (groups: seq<RowGroup>)
    requires IsSchema(root) && w.Valid() && w.root == root && w.records == h.pending && w.open == h.open
    requires HoldsGroups(root, before, h.groups)
    modifies w, w.columns
    ensures w.Valid() && var h' := After(root, h, op);
            w.records == h'.pending && w.open == h'.open && HoldsGroups(root, groups, h'.groups)
  {
    hide Writer.Valid, Meaning, LeafCount, GroupViews, HoldsGroups;
    w.RecordsConform();
    OneMoreGroup(root, before, h.groups, w.records);
    groups := before;
    match op {
      case DissectOp(v) =>
        var ok := w.Dissect(v);
      case WriteOp(fault) =>
        var res := w.WriteRowgroup(fault);
        if res.Written? { groups := groups + [res.group]; }
      case CloseOp(fault, closeFails) =>
        var res, ok := w.Close(fault, closeFails);
        if res.Written? { groups := groups + [res.group]; }
    }
  }

  lemma NoGroups(root: Node)
    requires IsSchema(root)
    ensures HoldsGroups(root, [], [])
  {
  }
}
