// What a cell of a circular buffer holds, said of the numbers given to it and without the
// operations that put them there (cb_add and cb_set in circular_buffer/circular_buffer.c).

module CircularMeaning {
  import opened CTime
  import opened CircularSpec
  import opened CircularBuffers
  import opened CircularWindow

  // A number given to a cell by add or by set.
  datatype Put = Put(kind: Kind, x: real)

  // The newest interval any call has named.
  function Clock(rows: nat, spr: nat, ops: seq<Op>): int
    requires spr > 0
  {
    if ops == [] then rows - 1
    else
      var before, op := Clock(rows, spr, ops[..|ops| - 1]), ops[|ops| - 1];
      if op.Write? && Interval(op.ns, spr) > before then Interval(op.ns, spr) else before
  }

  // The numbers given to column c of interval iv, in order, by calls that did not come too
  // late for it.
  function Puts(rows: nat, spr: nat, columns: nat, ops: seq<Op>, iv: int, c: nat): (ps: seq<Put>)
    requires spr > 0
  {
    if ops == [] then []
    else
      var before, op := Puts(rows, spr, columns, ops[..|ops| - 1], iv, c), ops[|ops| - 1];
      if op.Write? && op.column == c + 1 <= columns && Interval(op.ns, spr) == iv
         && iv > Clock(rows, spr, ops) - rows && op.value.Num?
      then before + [Put(op.kind, op.value.v)]
      else before
  }

  predicate AreAll(ps: seq<Put>, kind: Kind) {
    forall i | 0 <= i < |ps| :: ps[i].kind == kind
  }

  predicate IsLeast(x: real, ps: seq<Put>) {
    (exists i | 0 <= i < |ps| :: ps[i].x == x) && forall i | 0 <= i < |ps| :: x <= ps[i].x
  }

  predicate IsGreatest(x: real, ps: seq<Put>) {
    (exists i | 0 <= i < |ps| :: ps[i].x == x) && forall i | 0 <= i < |ps| :: ps[i].x <= x
  }

  function Total(ps: seq<Put>): real {
    if ps == [] then 0.0 else Total(ps[..|ps| - 1]) + ps[|ps| - 1].x
  }

  // x is the number set last, the k-th, with everything added since.
  predicate IsNet(x: real, ps: seq<Put>, k: nat) {
    && k <= |ps| && AreAll(ps[k..], Adding) && (k > 0 ==> ps[k - 1].kind == Setting)
    && x == Base(ps, k) + Total(ps[k..])
  }

  function Base(ps: seq<Put>, k: nat): real
    requires k <= |ps|
  {
    if k == 0 then 0.0 else ps[k - 1].x
  }

  // What is expected of a value in a column of a type.
  ghost predicate IsWorth(agg: Aggregation, ps: seq<Put>, v: Cell) {
    if ps == [] then v == NaN
    else
      && v.Num? && (AreAll(ps, Adding) ==> v.v == Total(ps))
      && (AreAll(ps, Setting) ==> IsSet(agg, ps, v.v))
      && (agg == Sum || agg == Plain ==> exists k: nat :: IsNet(v.v, ps, k))
  }

  ghost predicate IsSet(agg: Aggregation, ps: seq<Put>, x: real)
    requires ps != []
  {
    match agg
    case Min => IsLeast(x, ps)
    case Max => IsGreatest(x, ps)
    case Sum => x == ps[|ps| - 1].x
    case Plain => x == ps[|ps| - 1].x
  }

  // ---------------------------------------------------------------- one call

  lemma {:induction false} TotalNext(ps: seq<Put>, p: Put)
    ensures Total(ps + [p]) == Total(ps) + p.x
  {
    assert (ps + [p])[..|ps|] == ps;
  }

  lemma AddedNext(ps: seq<Put>, p: Put, x: real, k: nat)
    requires IsNet(x, ps, k) && p.kind == Adding
    ensures IsNet(x + p.x, ps + [p], k)
  {
    hide Total, AreAll;
    assert (ps + [p])[k..] == ps[k..] + [p];
    TotalNext(ps[k..], p);
    KindsNext(ps[k..], p, Adding);
  }

  lemma SetAnew(ps: seq<Put>, p: Put)
    requires p.kind == Setting
    ensures IsNet(p.x, ps + [p], |ps| + 1)
  {
    hide Total, AreAll;
    assert (ps + [p])[|ps| + 1..] == [];
    NothingTotal();
  }

  lemma NothingNet()
    ensures IsNet(0.0, [], 0)
  {
  }

  lemma LeastNext(ps: seq<Put>, p: Put, x: real)
    ensures ps == [] ==> IsLeast(p.x, ps + [p]) && IsGreatest(p.x, ps + [p])
    ensures ps != [] && IsLeast(x, ps) ==> IsLeast(if p.x < x then p.x else x, ps + [p])
    ensures ps != [] && IsGreatest(x, ps) ==> IsGreatest(if p.x > x then p.x else x, ps + [p])
  {
    var qs := ps + [p];
    assert qs[|ps|] == p;
    if ps != [] && IsLeast(x, ps) {
      var i :| 0 <= i < |ps| && ps[i].x == x;
      assert qs[i].x == x;
    }
    if ps != [] && IsGreatest(x, ps) {
      var i :| 0 <= i < |ps| && ps[i].x == x;
      assert qs[i].x == x;
    }
  }

  lemma {:induction false} KindsNext(ps: seq<Put>, p: Put, kind: Kind)
    ensures AreAll(ps + [p], kind) <==> AreAll(ps, kind) && p.kind == kind
  {
    assert (ps + [p])[|ps|] == p;
    assert forall i | 0 <= i < |ps| :: (ps + [p])[i] == ps[i];
  }

  // One more number.
  lemma WorthNext(agg: Aggregation, ps: seq<Put>, v: Cell, d: Cell, p: Put)
    requires IsWorth(agg, ps, v)
    ensures var u := Combine(p.kind, agg, v, d, Num(p.x)); u.Stored? && IsWorth(agg, ps + [p], u.value)
  {
    hide IsNet, AreAll, Total, IsSet, Combine;
    var u := Combine(p.kind, agg, v, d, Num(p.x));
    CombineNumber(agg, v, d, p);
    KindsNext(ps, p, Adding);
    KindsNext(ps, p, Setting);
    TotalNext(ps, p);
    NothingTotal();
    if p.kind == Setting && AreAll(ps, Setting) { SetNext(agg, ps, v, d, p); }
    if agg == Sum || agg == Plain {
      var x := if v.Num? then v.v else 0.0;
      NothingNet();
      var k: nat :| IsNet(x, ps, k);
      if p.kind == Adding { AddedNext(ps, p, x, k); } else { SetAnew(ps, p); }
    }
  }

  lemma CombineNumber(agg: Aggregation, v: Cell, d: Cell, p: Put)
    ensures var u := Combine(p.kind, agg, v, d, Num(p.x));
            && u.Stored? && u.value.Num?
            && (p.kind == Adding ==> u.value.v == (if v.Num? then v.v else 0.0) + p.x)
            && (p.kind == Setting && (agg == Sum || agg == Plain) ==> u.value.v == p.x)
  {
  }

  lemma SetNext(agg: Aggregation, ps: seq<Put>, v: Cell, d: Cell, p: Put)
    requires p.kind == Setting && (if ps == [] then v == NaN else v.Num? && IsSet(agg, ps, v.v))
    ensures var u := Combine(Setting, agg, v, d, Num(p.x));
            u.Stored? && u.value.Num? && IsSet(agg, ps + [p], u.value.v)
  {
    hide IsLeast, IsGreatest;
    LeastNext(ps, p, if v.Num? then v.v else 0.0);
  }

  lemma NothingTotal()
    ensures Total([]) == 0.0 && forall kind :: AreAll([], kind)
  {
  }

  // Nothing is given to an interval that is still to come.
  lemma {:induction false} NothingYet(rows: nat, spr: nat, columns: nat, ops: seq<Op>, iv: int, c: nat)
    requires spr > 0 && iv > Clock(rows, spr, ops)
    ensures Puts(rows, spr, columns, ops, iv, c) == []
    decreases |ops|
  {
    hide Interval;
    if ops != [] { NothingYet(rows, spr, columns, ops[..|ops| - 1], iv, c); }
  }

  // NaN given to a cell changes nothing.
  lemma NaNIsNothing(agg: Aggregation, v: Cell, d: Cell, kind: Kind)
    ensures var u := Combine(kind, agg, v, d, NaN); u.Stored? ==> u.value == v
  {
  }

  // ---------------------------------------------------------------- every run

  lemma ReferenceNext(rows: nat, spr: nat, types: seq<Aggregation>, ops: seq<Op>)
    requires spr > 0 && ops != []
    ensures Reference(rows, spr, types, ops) ==
            AfterOp(Reference(rows, spr, types, ops[..|ops| - 1]), rows, spr, types, ops[|ops| - 1])
  {
  }

  lemma {:induction false} ClockIsNow(rows: nat, spr: nat, types: seq<Aggregation>, ops: seq<Op>)
    requires spr > 0
    ensures Reference(rows, spr, types, ops).now == Clock(rows, spr, ops)
    decreases |ops|
  {
    hide Interval, Change;
    if ops != [] { ClockIsNow(rows, spr, types, ops[..|ops| - 1]); }
  }

  // After every sequence of adds, sets and outputs: a cell nothing was given to is NaN; one
  // that was only added to holds the sum; one that was only set holds the least number set
  // in a min column, the greatest in a max column and the last one otherwise; and in sum and
  // plain columns it is the last number set and all added since.
  lemma {:induction false} CellsAreWorth(rows: nat, spr: nat, types: seq<Aggregation>, ops: seq<Op>, iv: int, c: nat)
    requires spr > 0 && c < |types|
    ensures IsWorth(types[c], Puts(rows, spr, |types|, ops, iv, c),
                    Look(Reference(rows, spr, types, ops).hist, iv, 2 * c))
    decreases |ops|
  {
    hide IsWorth, Interval, Combine, Look, Reference;
    if ops == [] {
      NothingWorth(rows, spr, types, iv, c);
    } else {
      var init, op := ops[..|ops| - 1], ops[|ops| - 1];
      CellsAreWorth(rows, spr, types, init, iv, c);
      ReferenceNext(rows, spr, types, ops);
      ClockIsNow(rows, spr, types, init);
      ClockIsNow(rows, spr, types, ops);
      var s := Reference(rows, spr, types, init);
      match op
      case Output => LookSettled(s.hist, s.now - rows + 1, s.now, iv, 2 * c);
      case Write(kind, ns, column, value) =>
        if 1 <= column <= |types| {
          var jv, k := Interval(ns, spr), column - 1;
          var u := Change(s, jv, k, kind, types[k], value);
          LookWritten(s.hist, jv, k, u, iv, 2 * c);
          if jv == iv && k == c {
            var v, d := Look(s.hist, iv, 2 * c), Look(s.hist, iv, 2 * c + 1);
            if value.Num? {
              WorthNext(types[c], Puts(rows, spr, |types|, init, iv, c), v, d, Put(kind, value.v));
            } else {
              NaNIsNothing(types[c], v, d, kind);
            }
          }
        }
    }
  }

  lemma NothingWorth(rows: nat, spr: nat, types: seq<Aggregation>, iv: int, c: nat)
    requires spr > 0 && c < |types|
    ensures IsWorth(types[c], [], Look(Reference(rows, spr, types, []).hist, iv, 2 * c))
  {
  }

  // ---------------------------------------------------------------- deltas

  // The value at the last output.
  function AtOutput(rows: nat, spr: nat, types: seq<Aggregation>, ops: seq<Op>, iv: int, c: nat): Cell
    requires spr > 0
    decreases |ops|
  {
    if ops == [] then NaN
    else if ops[|ops| - 1].Output? then Look(Reference(rows, spr, types, ops).hist, iv, 2 * c)
    else AtOutput(rows, spr, types, ops[..|ops| - 1], iv, c)
  }

  // A pending delta is the change since the last output in a sum column, the value itself in
  // a min or max column, and there is none in a plain one.
  predicate IsPending(agg: Aggregation, v: Cell, d: Cell, published: Cell) {
    match agg
    case Sum => Owes(v, d, published)
    case Min => d == NaN || d == v
    case Max => d == NaN || d == v
    case Plain => d == NaN
  }

  lemma PendingNext(agg: Aggregation, v: Cell, d: Cell, published: Cell, kind: Kind, x: Cell)
    requires IsPending(agg, v, d, published) && (v == NaN ==> d == NaN)
    ensures var u := Combine(kind, agg, v, d, x);
            u.Stored? ==> IsPending(agg, u.value, u.delta, published) && (u.value == NaN ==> u.delta == NaN)
  {
  }

  lemma {:induction false} DeltasArePending(rows: nat, spr: nat, types: seq<Aggregation>, ops: seq<Op>, iv: int, c: nat)
    requires spr > 0 && c < |types| && iv > Clock(rows, spr, ops) - rows
    ensures var h := Reference(rows, spr, types, ops).hist;
            var v, d := Look(h, iv, 2 * c), Look(h, iv, 2 * c + 1);
            IsPending(types[c], v, d, AtOutput(rows, spr, types, ops, iv, c)) && (v == NaN ==> d == NaN)
    decreases |ops|
  {
    hide IsPending, IsWorth, Interval, Combine, Look, Reference, Puts;
    if ops == [] {
      NothingPending(rows, spr, types, iv, c);
    } else {
      var init, op := ops[..|ops| - 1], ops[|ops| - 1];
      DeltasArePending(rows, spr, types, init, iv, c);
      ReferenceNext(rows, spr, types, ops);
      ClockIsNow(rows, spr, types, init);
      ClockIsNow(rows, spr, types, ops);
      var s := Reference(rows, spr, types, init);
      var v, d := Look(s.hist, iv, 2 * c), Look(s.hist, iv, 2 * c + 1);
      match op
      case Output =>
        LookSettled(s.hist, s.now - rows + 1, s.now, iv, 2 * c);
        LookSettled(s.hist, s.now - rows + 1, s.now, iv, 2 * c + 1);
        Settles(types[c], v);
        if iv > s.now {
          NothingYet(rows, spr, |types|, init, iv, c);
          CellsAreWorth(rows, spr, types, init, iv, c);
          NoneIsNaN(types[c], v);
        }
      case Write(kind, ns, column, value) =>
        if 1 <= column <= |types| {
          var jv, k := Interval(ns, spr), column - 1;
          var u := Change(s, jv, k, kind, types[k], value);
          LookWritten(s.hist, jv, k, u, iv, 2 * c);
          LookWritten(s.hist, jv, k, u, iv, 2 * c + 1);
          if jv == iv && k == c {
            PendingNext(types[c], v, d, AtOutput(rows, spr, types, init, iv, c), kind, value);
          }
        }
    }
  }

  lemma NothingPending(rows: nat, spr: nat, types: seq<Aggregation>, iv: int, c: nat)
    requires spr > 0 && c < |types|
    ensures var h := Reference(rows, spr, types, []).hist;
            Look(h, iv, 2 * c) == Look(h, iv, 2 * c + 1) == NaN && IsPending(types[c], NaN, NaN, NaN)
  {
  }

  lemma NoneIsNaN(agg: Aggregation, v: Cell)
    requires IsWorth(agg, [], v)
    ensures v == NaN
  {
  }

  lemma Settles(agg: Aggregation, v: Cell)
    ensures IsPending(agg, v, NaN, v)
  {
  }
}
