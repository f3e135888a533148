// Record shredding as a function from canonical records to per-column entries, and
// its inverse.  ShredFields is what the dissect_ functions of parquet.cpp leave in the
// columns; AssembleRecords rebuilds the records from the columns alone.

module ParquetShred {
  import opened Common
  import opened ParquetSchema
  import opened ParquetRecord

  // One entry of a column: its repetition level, its definition level and, when the
  // definition level is the column's maximum, its value.
  datatype Entry = Entry(rep: nat, def: nat, val: Option<Value>)

  type Stream = seq<Entry>

  // ---------------------------------------------------------------- column-wise append

  function Zip(a: seq<Stream>, b: seq<Stream>): (c: seq<Stream>)
    requires |a| == |b|
    ensures |c| == |a|
    ensures forall j :: 0 <= j < |c| ==> c[j] == a[j] + b[j]
  {
    seq(|a|, j requires 0 <= j < |a| => a[j] + b[j])
  }

  lemma ZipAssociates(a: seq<Stream>, b: seq<Stream>, c: seq<Stream>)
    requires |a| == |b| == |c|
    ensures Zip(Zip(a, b), c) == Zip(a, Zip(b, c))
  {
    forall j | 0 <= j < |a| ensures Zip(Zip(a, b), c)[j] == Zip(a, Zip(b, c))[j] {
      assert (a[j] + b[j]) + c[j] == a[j] + (b[j] + c[j]);
    }
  }

  lemma ZipNone(a: seq<Stream>)
    ensures Zip(a, NoEntries(|a|)) == a == Zip(NoEntries(|a|), a)
  {
    assert forall j :: 0 <= j < |a| ==> a[j] + [] == a[j] == [] + a[j];
  }

  function NoEntries(k: nat): (c: seq<Stream>)
    ensures |c| == k && forall j :: 0 <= j < k ==> c[j] == []
  {
    seq(k, j => [])
  }

  function NullEntries(k: nat, r: nat, d: nat): (c: seq<Stream>)
    ensures |c| == k && forall j :: 0 <= j < k ==> c[j] == [Entry(r, d, None)]
  {
    seq(k, j => [Entry(r, d, None)])
  }

  // ---------------------------------------------------------------- shredding

  // The entries of field n in one instance of its parent: r is the repetition level of
  // the first entry, d the parent's definition level.
  function ShredField(n: Node, inst: Inst, r: nat, d: nat): (c: seq<Stream>)
    ensures |c| == LeafCount(n)
    decreases n, 2
  {
    match n
    case Column(_, _, rl, dl, _, _) =>
      if inst.Vals? && inst.vs != [] then [ShredValues(inst.vs, r, rl, dl)]
      else NullEntries(1, r, d)
    case Group(_, _, rl, dl, _, fields) =>
      if inst.Groups? && inst.gs != [] then ShredInstances(n, inst.gs, r)
      else NullEntries(LeafCount(n), r, d)
  }

  function ShredValues(vs: seq<Value>, r: nat, rl: nat, dl: nat): (c: Stream)
    ensures |c| == |vs|
  {
    if vs == [] then [] else [Entry(r, dl, Some(vs[0]))] + ShredValues(vs[1..], rl, rl, dl)
  }

  // Instances of a group: the first starts at r, the others at the group's own level.
  function ShredInstances(n: Node, gs: seq<Record>, r: nat): (c: seq<Stream>)
    requires n.Group?
    ensures |c| == LeafCount(n)
    decreases n, 1, |gs|
  {
    if gs == [] then NoEntries(LeafCount(n))
    else Zip(ShredFields(n.fields, gs[0], r, n.dl), ShredInstances(n, gs[1..], n.rl))
  }

  function ShredFields(fs: seq<Node>, rec: Record, r: nat, d: nat): (c: seq<Stream>)
    ensures |c| == LeafCounts(fs)
    decreases fs
  {
    if fs == [] then []
    else if rec == [] then NoEntries(LeafCounts(fs))
    else ShredField(fs[0], rec[0], r, d) + ShredFields(fs[1..], rec[1..], r, d)
  }

  // A list of records: each starts at repetition level zero.
  function ShredRecords(root: Node, recs: seq<Record>): (c: seq<Stream>)
    requires root.Group?
    ensures |c| == LeafCount(root)
  {
    if recs == [] then NoEntries(LeafCount(root))
    else
      var last := |recs| - 1;
      Zip(ShredRecords(root, recs[..last]), ShredFields(root.fields, recs[last], 0, 0))
  }

  // ---------------------------------------------------------------- assembly

  // The number of leading entries that continue the current occurrence at level rl.
  function Run(es: Stream, rl: nat): (k: nat)
    ensures k <= |es|
  {
    if es == [] || es[0].rep <= rl then 0 else 1 + Run(es[1..], rl)
  }

  // Cut a stream before every entry whose repetition level is at most rl.
  function Split(es: Stream, rl: nat): (cs: seq<Stream>)
  {
    if es == [] then []
    else
      var k := 1 + Run(es[1..], rl);
      [es[..k]] + Split(es[k..], rl)
  }

  // The k-th occurrence in every column.
  function Occurrence(cols: seq<Stream>, rl: nat, k: nat): (c: seq<Stream>)
    ensures |c| == |cols|
  {
    seq(|cols|, j requires 0 <= j < |cols| =>
      var cs := Split(cols[j], rl); if k < |cs| then cs[k] else [])
  }

  function Occurrences(cols: seq<Stream>, rl: nat): (os: seq<seq<Stream>>)
    ensures forall k :: 0 <= k < |os| ==> |os[k]| == |cols|
  {
    if cols == [] then []
    else seq(|Split(cols[0], rl)|, k requires 0 <= k => Occurrence(cols, rl, k))
  }

  function Defined(es: Stream): (vs: seq<Value>) {
    if es == [] then []
    else (if es[0].val.Some? then [es[0].val.value] else []) + Defined(es[1..])
  }

  function AssembleField(n: Node, cols: seq<Stream>): (inst: Inst)
    requires |cols| == LeafCount(n)
    decreases n, 2
  {
    match n
    case Column(_, _, _, _, _, _) => Vals(Defined(cols[0]))
    case Group(_, _, rl, dl, _, fields) =>
      if cols == [] || cols[0] == [] || cols[0][0].def < dl then Groups([])
      else Groups(AssembleInstances(n, Occurrences(cols, rl)))
  }

  function AssembleInstances(n: Node, os: seq<seq<Stream>>): (gs: seq<Record>)
    requires n.Group? && forall k :: 0 <= k < |os| ==> |os[k]| == LeafCount(n)
    decreases n, 1, |os|
  {
    if os == [] then []
    else
      assert LeafCount(n) == LeafCounts(n.fields);
      [AssembleFields(n.fields, os[0])] + AssembleInstances(n, os[1..])
  }

  function AssembleFields(fs: seq<Node>, cols: seq<Stream>): (rec: Record)
    requires |cols| == LeafCounts(fs)
    decreases fs
  {
    if fs == [] then []
    else
      var k := LeafCount(fs[0]);
      [AssembleField(fs[0], cols[..k])] + AssembleFields(fs[1..], cols[k..])
  }

  function AssembleRecords(root: Node, cols: seq<Stream>): (recs: seq<Record>)
    requires root.Group? && |cols| == LeafCount(root)
  {
    AssembleInstances(root, Occurrences(cols, 0))
  }

  // ---------------------------------------------------------------- the shape of shredded columns

  // One occurrence at level rl: it opens at r and every later entry is deeper than rl.
  ghost predicate Chunk(es: Stream, r: nat, rl: nat) {
    && es != [] && es[0].rep == r
    && forall i :: 1 <= i < |es| ==> es[i].rep > rl
  }

  ghost predicate Chunks(cols: seq<Stream>, r: nat, rl: nat) {
    forall j :: 0 <= j < |cols| ==> Chunk(cols[j], r, rl)
  }

  ghost predicate FirstDefAtLeast(cols: seq<Stream>, d: nat) {
    forall j :: 0 <= j < |cols| ==> cols[j] != [] && cols[j][0].def >= d
  }

  ghost predicate OpensAtMost(cols: seq<Stream>, rl: nat) {
    forall j :: 0 <= j < |cols| ==> cols[j] == [] || cols[j][0].rep <= rl
  }

  lemma {:induction false} FieldChunks(n: Node, inst: Inst, r: nat, pr: nat, d: nat, lo: nat)
    requires Fits(n, pr, d, lo) && Conforms(n, inst)
    ensures Chunks(ShredField(n, inst, r, d), r, pr)
    ensures FirstDefAtLeast(ShredField(n, inst, r, d), d)
    ensures inst.Groups? && inst.gs != [] ==> FirstDefAtLeast(ShredField(n, inst, r, d), n.dl)
    decreases n, 2
  {
    if n.Column? {
      if inst.vs != [] { ValuesChunk(inst.vs, r, n.rl, n.dl); }
    } else if inst.gs != [] {
      InstancesChunks(n, inst.gs, r, pr, d, lo);
    }
  }

  lemma {:induction false} ValuesChunk(vs: seq<Value>, r: nat, rl: nat, dl: nat)
    requires vs != []
    ensures var c := ShredValues(vs, r, rl, dl);
            c[0] == Entry(r, dl, Some(vs[0])) && forall i :: 1 <= i < |c| ==> c[i].rep == rl
    decreases vs
  {
    if |vs| > 1 { ValuesChunk(vs[1..], rl, rl, dl); }
  }

  lemma {:induction false} InstancesChunks(n: Node, gs: seq<Record>, r: nat, pr: nat, d: nat, lo: nat)
    requires n.Group? && Fits(n, pr, d, lo) && gs != []
    requires forall k :: 0 <= k < |gs| ==> ConformsAll(n.fields, gs[k])
    requires |gs| > 1 ==> n.rl > pr
    ensures Chunks(ShredInstances(n, gs, r), r, pr)
    ensures FirstDefAtLeast(ShredInstances(n, gs, r), n.dl)
    decreases n, 1, |gs|
  {
    FieldsChunks(n.fields, gs[0], r, n.rl, n.dl, lo);
    if |gs| > 1 {
      InstancesChunks(n, gs[1..], n.rl, pr, d, lo);
    }
  }

  lemma {:induction false} FieldsChunks(fs: seq<Node>, rec: Record, r: nat, pr: nat, d: nat, lo: nat)
    requires FitsAll(fs, pr, d, lo) && ConformsAll(fs, rec)
    ensures Chunks(ShredFields(fs, rec, r, d), r, pr)
    ensures FirstDefAtLeast(ShredFields(fs, rec, r, d), d)
    decreases fs
  {
    if fs != [] {
      FieldChunks(fs[0], rec[0], r, pr, d, lo);
      FieldsChunks(fs[1..], rec[1..], r, pr, d, lo + LeafCount(fs[0]));
    }
  }

  // ---------------------------------------------------------------- splitting undoes appending

  lemma {:induction false} RunOfChunk(es: Stream, rest: Stream, rl: nat)
    requires forall i :: 0 <= i < |es| ==> es[i].rep > rl
    requires rest == [] || rest[0].rep <= rl
    ensures Run(es + rest, rl) == |es|
    decreases es
  {
    if es == [] {
      assert es + rest == rest;
    } else {
      assert (es + rest)[1..] == es[1..] + rest;
      RunOfChunk(es[1..], rest, rl);
    }
  }

  lemma {:induction false} SplitChunk(c: Stream, r: nat, rest: Stream, rl: nat)
    requires Chunk(c, r, rl) && (rest == [] || rest[0].rep <= rl)
    ensures Split(c + rest, rl) == [c] + Split(rest, rl)
  {
    var es := c + rest;
    assert es[1..] == c[1..] + rest;
    RunOfChunk(c[1..], rest, rl);
    assert es[..|c|] == c && es[|c|..] == rest;
  }

  // Occurrences of appended chunks: the first block of chunks, then the others.
  lemma {:induction false} OccurrencesChunks(a: seq<Stream>, r: nat, b: seq<Stream>, rl: nat)
    requires |a| == |b| >= 1 && Chunks(a, r, rl)
    requires OpensAtMost(b, rl)
    ensures Occurrences(Zip(a, b), rl) == [a] + Occurrences(b, rl)
  {
    hide Split, Zip;
    var z := Zip(a, b);
    forall j | 0 <= j < |a| ensures Split(z[j], rl) == [a[j]] + Split(b[j], rl) {
      SplitChunk(a[j], r, b[j], rl);
    }
    FirstOccurrence(a, b, z, rl);
    var os, ob := Occurrences(z, rl), Occurrences(b, rl);
    forall k | 0 <= k < |ob| ensures os[k + 1] == ob[k] {
      LaterOccurrence(a, b, z, rl, k);
    }
    assert os == [a] + ob;
  }

  lemma FirstOccurrence(a: seq<Stream>, b: seq<Stream>, z: seq<Stream>, rl: nat)
    requires |a| == |b| == |z| >= 1
    requires forall j :: 0 <= j < |a| ==> Split(z[j], rl) == [a[j]] + Split(b[j], rl)
    ensures |Occurrences(z, rl)| == 1 + |Occurrences(b, rl)| && Occurrences(z, rl)[0] == a
  {
    hide Split;
    assert Occurrence(z, rl, 0) == a;
  }

  lemma LaterOccurrence(a: seq<Stream>, b: seq<Stream>, z: seq<Stream>, rl: nat, k: nat)
    requires |a| == |b| == |z| >= 1
    requires forall j :: 0 <= j < |a| ==> Split(z[j], rl) == [a[j]] + Split(b[j], rl)
    requires k < |Occurrences(b, rl)| && |Occurrences(z, rl)| == 1 + |Occurrences(b, rl)|
    ensures Occurrences(z, rl)[k + 1] == Occurrences(b, rl)[k]
  {
    hide Split;
    assert Occurrence(z, rl, k + 1) == Occurrence(b, rl, k);
  }

  lemma {:induction false} OccurrencesNone(k: nat, rl: nat)
    requires k >= 1
    ensures Occurrences(NoEntries(k), rl) == []
  {
  }

  // ---------------------------------------------------------------- shredding is lossless

  lemma {:induction false} DefinedValues(vs: seq<Value>, r: nat, rl: nat, dl: nat)
    ensures Defined(ShredValues(vs, r, rl, dl)) == vs
    decreases vs
  {
    if vs != [] { DefinedValues(vs[1..], rl, rl, dl); }
  }

  lemma {:induction false} FieldRoundTrip(n: Node, inst: Inst, r: nat, pr: nat, d: nat, lo: nat)
    requires Fits(n, pr, d, lo) && Conforms(n, inst) && r <= pr
    ensures AssembleField(n, ShredField(n, inst, r, d)) == inst
    decreases n, 2
  {
    var c: seq<Stream> := ShredField(n, inst, r, d);
    LeafCountPositive(n, pr, d, lo);
    if n.Column? {
      if inst.vs != [] {
        DefinedValues(inst.vs, r, n.rl, n.dl);
      } else {
        assert c[0] == [Entry(r, d, None)] && Defined(c[0]) == [];
      }
    } else {
      FieldChunks(n, inst, r, pr, d, lo);
      if inst.gs != [] {
        assert c[0][0].def >= n.dl;
        InstancesRoundTrip(n, inst.gs, r, pr, d, lo);
      }
    }
  }

  lemma {:induction false} InstancesRoundTrip(n: Node, gs: seq<Record>, r: nat, pr: nat, d: nat, lo: nat)
    requires n.Group? && Fits(n, pr, d, lo) && r <= n.rl
    requires forall k :: 0 <= k < |gs| ==> ConformsAll(n.fields, gs[k])
    ensures AssembleInstances(n, Occurrences(ShredInstances(n, gs, r), n.rl)) == gs
    decreases n, 1, |gs|
  {
    LeafCountPositive(n, pr, d, lo);
    if gs == [] {
      OccurrencesNone(LeafCount(n), n.rl);
    } else {
      var a: seq<Stream>, b: seq<Stream> := ShredFields(n.fields, gs[0], r, n.dl), ShredInstances(n, gs[1..], n.rl);
      FieldsChunks(n.fields, gs[0], r, n.rl, n.dl, lo);
      InstancesOpenAt(n, gs[1..], n.rl, lo);
      OccurrencesChunks(a, r, b, n.rl);
      FieldsRoundTrip(n.fields, gs[0], r, n.rl, n.dl, lo);
      InstancesRoundTrip(n, gs[1..], n.rl, pr, d, lo);
    }
  }

  lemma {:induction false} InstancesOpenAt(n: Node, gs: seq<Record>, r: nat, lo: nat)
    requires n.Group? && FitsAll(n.fields, n.rl, n.dl, lo)
    requires forall k :: 0 <= k < |gs| ==> ConformsAll(n.fields, gs[k])
    ensures OpensAtMost(ShredInstances(n, gs, r), r)
  {
    if gs != [] { FieldsChunks(n.fields, gs[0], r, n.rl, n.dl, lo); }
  }

  lemma {:induction false} FieldsRoundTrip(fs: seq<Node>, rec: Record, r: nat, pr: nat, d: nat, lo: nat)
    requires FitsAll(fs, pr, d, lo) && ConformsAll(fs, rec) && r <= pr
    ensures AssembleFields(fs, ShredFields(fs, rec, r, d)) == rec
    decreases fs
  {
    if fs != [] {
      var k := LeafCount(fs[0]);
      var head, tail := ShredField(fs[0], rec[0], r, d), ShredFields(fs[1..], rec[1..], r, d);
      assert (head + tail)[..k] == head && (head + tail)[k..] == tail;
      FieldRoundTrip(fs[0], rec[0], r, pr, d, lo);
      FieldsRoundTrip(fs[1..], rec[1..], r, pr, d, lo + k);
    }
  }

  // ShredRecords appends at the end; peeled from the front it is the instances of the
  // root, which lets the field lemmas apply.
  lemma {:induction false} RecordsAreInstances(root: Node, recs: seq<Record>)
    requires IsSchema(root)
    ensures ShredRecords(root, recs) == ShredInstances(root, recs, 0)
    decreases |recs|
  {
    if recs != [] {
      var last := |recs| - 1;
      RecordsAreInstances(root, recs[..last]);
      assert recs == recs[..last] + [recs[last]];
      InstancesSnoc(root, recs[..last], recs[last], 0);
    }
  }

  lemma {:induction false} InstancesSnoc(n: Node, gs: seq<Record>, g: Record, r: nat)
    requires n.Group?
    ensures ShredInstances(n, gs + [g], r) ==
            Zip(ShredInstances(n, gs, r), ShredFields(n.fields, g, if gs == [] then r else n.rl, n.dl))
    decreases |gs|
  {
    if gs == [] {
      assert gs + [g] == [g];
      assert ShredInstances(n, [g][1..], n.rl) == NoEntries(LeafCount(n));
      ZipNone(ShredFields(n.fields, g, r, n.dl));
    } else {
      assert (gs + [g])[0] == gs[0] && (gs + [g])[1..] == gs[1..] + [g];
      InstancesSnoc(n, gs[1..], g, n.rl);
      ZipAssociates(ShredFields(n.fields, gs[0], r, n.dl), ShredInstances(n, gs[1..], n.rl),
                    ShredFields(n.fields, g, n.rl, n.dl));
    }
  }

  // The columns determine the records.
  lemma {:induction false} ShreddingIsLossless(root: Node, recs: seq<Record>)
    requires IsSchema(root)
    requires forall k :: 0 <= k < |recs| ==> ConformsAll(root.fields, recs[k])
    ensures AssembleRecords(root, ShredRecords(root, recs)) == recs
  {
    RecordsAreInstances(root, recs);
    InstancesRoundTrip(root, recs, 0, 0, 0, 0);
  }
}
