// Cells, time intervals and the unbounded history that a circular buffer shows a window
// of (circular_buffer/circular_buffer.c).

module CircularSpec {
  import opened Bits
  import opened CTime

  // A double in exact arithmetic; infinities are not modelled.
  datatype Cell = NaN | Num(v: real)

  datatype Aggregation = Sum | Min | Max | Plain

  // ---------------------------------------------------------------- rows and intervals

  // The interval shown by row r while the newest one is now.
  function RowInterval(now: int, rows: nat, r: int): int
    requires rows > 0
  {
    now - (now - r) % rows
  }

  predicate InWindow(now: int, rows: nat, iv: int) {
    now - rows < iv <= now
  }

  lemma IntervalOfRow(now: int, rows: nat, r: int)
    requires 0 <= r < rows
    ensures InWindow(now, rows, RowInterval(now, rows, r)) && RowInterval(now, rows, r) % rows == r
  {
    var q, m := (now - r) / rows, (now - r) % rows;
    assert now - r == rows * q + m;
    DivModUnique(RowInterval(now, rows, r), rows, q, r);
  }

  lemma RowOfInterval(now: int, rows: nat, iv: int)
    requires rows > 0 && InWindow(now, rows, iv)
    ensures 0 <= iv % rows < rows && RowInterval(now, rows, iv % rows) == iv
  {
    var q, r := iv / rows, iv % rows;
    assert iv == rows * q + r;
    DivModUnique(now - r, rows, q, now - iv);
  }

  // The rows clear_rows visits: the n rows after cr, with wrap-around.
  predicate IsCleared(cr: nat, rows: nat, n: int, r: nat) {
    (if r > cr then r - cr - 1 else r - cr - 1 + rows) < n
  }

  // Moving on by n intervals, the rows cleared are those that show an interval past the
  // old end of the window, and every other row keeps its interval.
  lemma Advanced(now: int, rows: nat, n: nat, r: nat)
    requires 0 < r + 1 <= rows && n > 0
    ensures IsCleared(now % rows, rows, n, r) ==> RowInterval(now + n, rows, r) > now
    ensures !IsCleared(now % rows, rows, n, r) ==> RowInterval(now + n, rows, r) == RowInterval(now, rows, r)
  {
    hide RowInterval;
    var cr, q := now % rows, now / rows;
    assert now == rows * q + cr;
    var d := if r > cr then r - cr - 1 else r - cr - 1 + rows;
    var iv := now + 1 + d - rows;
    assert rows * (q - 1) == rows * q - rows;
    DivModUnique(iv, rows, if r > cr then q - 1 else q, r);
    RowOfInterval(now, rows, iv);
    var iv' := RowInterval(now + n, rows, r);
    IntervalOfRow(now + n, rows, r);
    if d < n {
      if InWindow(now, rows, iv') { RowOfInterval(now, rows, iv'); }
    } else {
      RowOfInterval(now + n, rows, iv);
    }
  }

  lemma NextRow(iv: int, rows: nat)
    requires rows > 0
    ensures (iv + 1) % rows == if iv % rows + 1 == rows then 0 else iv % rows + 1
  {
    var q, r := iv / rows, iv % rows;
    assert iv == rows * q + r;
    assert rows * (q + 1) == rows * q + rows;
    if r + 1 == rows { DivModUnique(iv + 1, rows, q + 1, 0); } else { DivModUnique(iv + 1, rows, q, r + 1); }
  }

  // check_row without advancing: the row of a time, or -1 when it is outside the window.
  // The remainder is taken of an unsigned number; only a clock restored from a text can
  // have intervals before zero in its window.
  function FindRow(currentTime: int, rows: nat, spr: nat, ns: real): (row: int)
    requires rows > 0 && spr > 0
    ensures -1 <= row < rows
  {
    var t := Seconds(ns) - CMod(Seconds(ns), spr);
    var current := CDiv(currentTime, spr);
    var requested := CDiv(t, spr);
    var delta := requested - current;
    if requested > current || delta >= rows || -delta >= rows then -1
    else if requested < 0 then (requested + 0x1_0000_0000) % rows
    else requested % rows
  }

  lemma FindRowInWindow(now: int, rows: nat, spr: nat, ns: real)
    requires rows > 0 && spr > 0 && now >= rows - 1
    ensures FindRow(now * spr, rows, spr, ns) ==
            if InWindow(now, rows, Interval(ns, spr)) then Interval(ns, spr) % rows else -1
  {
    hide CDiv, CMod;
    StartOfInterval(Seconds(ns), spr);
    WholeInterval(now, spr);
  }

  lemma WholeInterval(iv: int, spr: nat)
    requires spr > 0 && iv >= 0
    ensures CDiv(iv * spr, spr) == iv && iv * spr >= 0
  {
    DivModUnique(iv * spr, spr, iv, 0);
  }

  // ---------------------------------------------------------------- the history

  // All cells ever written, by interval and position in the row: column c has its value
  // at 2c and its delta at 2c + 1.
  type History = map<(int, nat), Cell>

  function Look(h: History, iv: int, i: nat): Cell {
    if (iv, i) in h then h[(iv, i)] else NaN
  }

  // Nothing is written after now, nor outside the columns.
  ghost predicate Bounded(h: History, now: int, columns: nat) {
    forall k | k in h :: k.0 <= now && k.1 < 2 * columns
  }

  lemma LookAhead(h: History, now: int, columns: nat, iv: int, i: nat)
    requires Bounded(h, now, columns) && iv > now
    ensures Look(h, iv, i) == NaN
  {
  }

  // What an operation makes of a value and its delta; Refused is a Lua error.
  datatype Update = Refused | Stored(value: Cell, delta: Cell)

  function Plus(a: Cell, x: Cell): Cell {
    if a.Num? && x.Num? then Num(a.v + x.v) else NaN
  }

  function Accumulate(d: Cell, x: Cell): Cell {
    if d == NaN then x else Plus(d, x)
  }

  function AddCell(agg: Aggregation, v: Cell, d: Cell, x: Cell): (u: Update) {
    if v.Num? && x == NaN then Refused
    else
      var v' := Accumulate(v, x);
      if v.Num? && v == v' then Stored(v', d)
      else
        match agg
        case Sum => Stored(v', Accumulate(d, x))
        case Min => Stored(v', v')
        case Max => Stored(v', v')
        case Plain => Stored(v', d)
  }

  function SetCell(agg: Aggregation, v: Cell, d: Cell, x: Cell): (u: Update) {
    if v.Num? && x == NaN then Refused
    else
      match agg
      case Sum =>
        if v == NaN then Stored(x, Accumulate(d, x))
        else if x.v - v.v == 0.0 then Stored(x, d)
        else Stored(x, Accumulate(d, Num(x.v - v.v)))
      case Min => if v == NaN || x.v < v.v then Stored(x, x) else Stored(v, d)
      case Max => if v == NaN || x.v > v.v then Stored(x, x) else Stored(v, d)
      case Plain => Stored(x, d)
  }

  // ---------------------------------------------------------------- operations on the history

  // The newest interval and everything written so far.
  datatype State = State(now: int, hist: History)

  function Written(h: History, iv: int, c: nat, u: Update): (h': History) {
    match u
    case Refused => h
    case Stored(v, d) => h[(iv, 2 * c) := v][(iv, 2 * c + 1) := d]
  }

  lemma LookWritten(h: History, iv: int, c: nat, u: Update, jv: int, i: nat)
    ensures Look(Written(h, iv, c, u), jv, i) ==
            if u.Stored? && jv == iv && i == 2 * c then u.value
            else if u.Stored? && jv == iv && i == 2 * c + 1 then u.delta
            else Look(h, jv, i)
  {
  }

  function Moved(s: State, iv: int): State {
    if iv > s.now then s.(now := iv) else s
  }

  datatype Kind = Adding | Setting

  function Combine(kind: Kind, agg: Aggregation, v: Cell, d: Cell, x: Cell): Update {
    match kind
    case Adding => AddCell(agg, v, d, x)
    case Setting => SetCell(agg, v, d, x)
  }

  // What add or set does in column c of interval iv.
  function Change(s: State, iv: int, c: nat, kind: Kind, agg: Aggregation, x: Cell): Update {
    Combine(kind, agg, Look(s.hist, iv, 2 * c), Look(s.hist, iv, 2 * c + 1), x)
  }

  function Applied(s: State, rows: nat, iv: int, c: nat, kind: Kind, agg: Aggregation, x: Cell): (s': State) {
    var m := Moved(s, iv);
    if iv <= m.now - rows then m else m.(hist := Written(s.hist, iv, c, Change(s, iv, c, kind, agg, x)))
  }

  // ---------------------------------------------------------------- output of deltas

  datatype Line = Line(time: int, deltas: seq<Cell>)

  function Deltas(h: History, iv: int, columns: nat): (ds: seq<Cell>)
    ensures |ds| == columns && forall c | 0 <= c < columns :: ds[c] == Look(h, iv, 2 * c + 1)
  {
    seq(columns, c requires 0 <= c => Look(h, iv, 2 * c + 1))
  }

  predicate IsDirty(h: History, iv: int, columns: nat) {
    exists c | 0 <= c < columns :: Look(h, iv, 2 * c + 1) != NaN
  }

  // The lines for the n intervals from lo on, in chronological order, clean ones left out.
  function Outputs(h: History, lo: int, n: nat, columns: nat, spr: nat): (out: seq<Line>) {
    if n == 0 then []
    else
      var iv := lo + n - 1;
      Outputs(h, lo, n - 1, columns, spr) +
      (if IsDirty(h, iv, columns) then [Line(iv * spr, Deltas(h, iv, columns))] else [])
  }

  // The history after the deltas of the intervals lo .. hi have been handed out.
  function Settled(h: History, lo: int, hi: int): (h': History) {
    map k | k in h :: if lo <= k.0 <= hi && k.1 % 2 == 1 then NaN else h[k]
  }

  lemma LookSettled(h: History, lo: int, hi: int, iv: int, i: nat)
    ensures Look(Settled(h, lo, hi), iv, i) == if lo <= iv <= hi && i % 2 == 1 then NaN else Look(h, iv, i)
  {
  }

  lemma SettledNext(h: History, lo: int, hi: int)
    requires lo <= hi + 1
    ensures Settled(Settled(h, lo, hi), hi + 1, hi + 1) == Settled(h, lo, hi + 1)
  {
  }

  lemma SettledNothing(h: History, lo: int)
    ensures Settled(h, lo, lo - 1) == h
  {
  }

  // Intervals past hi are as they were.
  lemma NotYetSettled(h: History, lo: int, hi: int, iv: int, columns: nat)
    requires iv > hi
    ensures Deltas(Settled(h, lo, hi), iv, columns) == Deltas(h, iv, columns)
    ensures IsDirty(Settled(h, lo, hi), iv, columns) == IsDirty(h, iv, columns)
  {
    hide Look;
    forall i: nat ensures Look(Settled(h, lo, hi), iv, i) == Look(h, iv, i) {
      LookSettled(h, lo, hi, iv, i);
    }
  }

  // A row has no deltas to settle unless it is dirty.
  lemma SettledClean(h: History, lo: int, iv: int, now: int, columns: nat)
    requires lo <= iv && !IsDirty(h, iv, columns)
    requires Bounded(h, now, columns)
    ensures Settled(h, lo, iv) == Settled(h, lo, iv - 1)
  {
    forall k | k in h && k.0 == iv && k.1 % 2 == 1 ensures h[k] == NaN {
      var c := k.1 / 2;
      assert Look(h, iv, 2 * c + 1) == h[k];
    }
  }

  // ---------------------------------------------------------------- saved text

  function LineTokens(l: Line): (ts: seq<Cell>) {
    [Num(l.time as real)] + l.deltas
  }

  function LinesTokens(ls: seq<Line>): (ts: seq<Cell>) {
    if ls == [] then [] else LinesTokens(ls[..|ls| - 1]) + LineTokens(ls[|ls| - 1])
  }

  // The position of a value in the saved text.
  function Position(columns: nat, r: nat, c: nat): nat {
    r * columns + c
  }

  lemma PositionOrder(columns: nat, r: nat, c: nat, r': nat, c': nat)
    requires c < columns && (r < r' || (r == r' && c < c'))
    ensures Position(columns, r, c) < Position(columns, r', c')
  {
    if r < r' {
      assert (r' - r) * columns == r' * columns - r * columns;
      Multiple(columns, r' - r);
      assert columns * (r' - r) == (r' - r) * columns;
    }
  }

  lemma NewLine(columns: nat, r: nat)
    ensures Position(columns, 0, 0) == 0 && Position(columns, r, columns) == Position(columns, r + 1, 0)
  {
  }

  lemma NextPosition(columns: nat, r: nat, c: nat)
    ensures Position(columns, r, c + 1) == Position(columns, r, c) + 1
  {
  }

  // The values of the window, row by row as they lie in the array.
  ghost predicate AreValues(tokens: seq<Cell>, h: History, now: int, rows: nat, columns: nat)
    requires rows > 0
  {
    && |tokens| == Position(columns, rows, 0)
    && forall r: nat, c: nat | r < rows && c < columns ::
         Position(columns, r, c) < |tokens| &&
         tokens[Position(columns, r, c)] == Look(h, RowInterval(now, rows, r), 2 * c)
  }

  // The state of the loop of cbufd_fromstring and the deltas it has stored, by row and
  // column.
  datatype Reader = Reader(pos: nat, row: int, cells: map<(int, nat), Cell>)

  const FRESH_READER := Reader(0, -1, map[])

  function TokenRow(time: int, rows: nat, spr: nat, token: Cell): int
    requires rows > 0 && spr > 0
  {
    if token.Num? then FindRow(time, rows, spr, token.v * NS_PER_SECOND) else -1
  }

  function ReadToken(time: int, rows: nat, columns: nat, spr: nat, st: Reader, token: Cell): (st': Reader)
    requires rows > 0 && spr > 0
  {
    var next := if st.pos == columns then 0 else st.pos + 1;
    if st.pos == 0 then Reader(next, TokenRow(time, rows, spr, token), st.cells)
    else if st.row != -1 then Reader(next, st.row, st.cells[(st.row, st.pos - 1) := token])
    else st.(pos := next)
  }

  function ReadTokens(time: int, rows: nat, columns: nat, spr: nat, st: Reader, tokens: seq<Cell>): (st': Reader)
    requires rows > 0 && spr > 0
    ensures |tokens| == 0 ==> st' == st
  {
    if tokens == [] then st
    else
      var n := |tokens| - 1;
      ReadToken(time, rows, columns, spr, ReadTokens(time, rows, columns, spr, st, tokens[..n]), tokens[n])
  }

  // ---------------------------------------------------------------- deltas of sum columns

  function Amount(c: Cell): real { if c.Num? then c.v else 0.0 }

  // A pending delta is exactly what separates the value from the value r of a replica.
  predicate Owes(v: Cell, d: Cell, r: Cell) {
    if d == NaN then v == r else v.Num? && v.v == Amount(r) + d.v
  }

  // Neither operation on a sum column changes what has been published: value and delta
  // move by the same amount.
  lemma OwesAfterAdd(v: Cell, d: Cell, r: Cell, x: Cell)
    requires Owes(v, d, r)
    ensures AddCell(Sum, v, d, x).Stored? ==> Owes(AddCell(Sum, v, d, x).value, AddCell(Sum, v, d, x).delta, r)
  {
  }

  lemma OwesAfterSet(v: Cell, d: Cell, r: Cell, x: Cell)
    requires Owes(v, d, r)
    ensures SetCell(Sum, v, d, x).Stored? ==> Owes(SetCell(Sum, v, d, x).value, SetCell(Sum, v, d, x).delta, r)
  {
  }

  // Publishing the delta and adding it to the replica settles the difference.
  lemma SettledByDelta(v: Cell, d: Cell, r: Cell, rd: Cell)
    requires Owes(v, d, r) && d.Num?
    ensures AddCell(Sum, r, rd, d).Stored? && AddCell(Sum, r, rd, d).value == v
  {
  }
}
