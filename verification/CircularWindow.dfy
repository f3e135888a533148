// A circular buffer refines an unbounded history seen through a window.

module CircularWindow {
  import opened CTime
  import opened CircularSpec
  import opened CircularBuffers

  datatype Op = Write(kind: Kind, ns: real, column: int, value: Cell) | Output

  // The reference: a clock and a map from every interval there ever was to its cells.  It
  // never forgets; only the window decides what can still be written or read.
  function AfterOp(s: State, rows: nat, spr: nat, types: seq<Aggregation>, op: Op): (s': State)
    requires spr > 0
  {
    match op
    case Write(kind, ns, column, value) =>
      var iv := Interval(ns, spr);
      if 1 <= column <= |types| then Applied(s, rows, iv, column - 1, kind, types[column - 1], value) else Moved(s, iv)
    case Output => s.(hist := Settled(s.hist, s.now - rows + 1, s.now))
  }

  function Reference(rows: nat, spr: nat, types: seq<Aggregation>, ops: seq<Op>): (s: State)
    requires spr > 0
  {
    if ops == [] then State(rows - 1, map[])
    else AfterOp(Reference(rows, spr, types, ops[..|ops| - 1]), rows, spr, types, ops[|ops| - 1])
  }

  // What a reader sees of the reference: the last rows intervals.
  function Seen(s: State, rows: nat, columns: nat, iv: int, column: int, offset: nat): (reply: Reply) {
    if !(1 <= column <= columns) then Error
    else if !InWindow(s.now, rows, iv) then Nil
    else Pushed(Look(s.hist, iv, 2 * (column - 1) + offset))
  }

  // After any sequence of adds, sets and outputs, a read anywhere gives what the
  // reference shows there.
  method Run(rows: nat, columns: nat, spr: nat, types: seq<Aggregation>, ops: seq<Op>, ns: real, column: int,
             offset: nat)
    returns (reply: Reply)
    requires 1 < rows && 0 < columns <= 256 && 0 < spr && |types| == columns && offset < 2
    ensures reply == Seen(Reference(rows, spr, types, ops), rows, columns, Interval(ns, spr), column, offset)
  {
    hide CircularBuffer.Shows, CircularBuffer.Clocked, Bounded, Interval, Applied, Change, Settled;
    var b := new CircularBuffer(rows, columns, spr);
    SetTypes(b, types);
    for k := 0 to |ops|
      invariant b.Valid() && fresh(b) && fresh(b.values) && b.aggregation == types
      invariant b.rows == rows && b.columns == columns && b.secondsPerRow == spr
      invariant b.Abs() == Reference(rows, spr, types, ops[..k])
    {
      assert ops[..k + 1][..k] == ops[..k];
      match ops[k] {
        case Write(kind, t, c, value) => var r := b.Update(kind, t, c, value);
        case Output => var lines := b.OutputCbufd();
      }
    }
    assert ops[..|ops|] == ops;
    reply := b.Get(ns, column, offset);
  }

  // cb_set_header for every column.
  method SetTypes(b: CircularBuffer, types: seq<Aggregation>)
    requires b.Valid() && |types| == b.columns
    modifies b`aggregation
    ensures b.Valid() && b.aggregation == types
  {
    for c := 0 to |types|
      invariant b.Valid() && forall j | 0 <= j < c :: b.aggregation[j] == types[j]
    {
      var reply := b.SetHeader(c + 1, types[c]);
    }
  }

  // Advancing exposes nothing but NaN, and leaves every other cell of the window alone.
  lemma AdvancingExposesNaN(s: State, rows: nat, columns: nat, iv: int, jv: int, i: nat)
    requires Bounded(s.hist, s.now, columns) && InWindow(Moved(s, iv).now, rows, jv)
    ensures jv > s.now ==> Look(Moved(s, iv).hist, jv, i) == NaN
    ensures jv <= s.now ==> InWindow(s.now, rows, jv) && Look(Moved(s, iv).hist, jv, i) == Look(s.hist, jv, i)
  {
    if jv > s.now { LookAhead(s.hist, s.now, columns, jv, i); }
  }
}
