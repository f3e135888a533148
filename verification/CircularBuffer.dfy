// The circular buffer of circular_buffer/circular_buffer.c: a wrapped array of rows that
// shows the last intervals of an unbounded history.

module CircularBuffers {
  import opened Bits
  import opened Common
  import opened CTime
  import opened CircularSpec

  // What a call leaves on the Lua stack.
  datatype Reply = Error | Nil | Pushed(c: Cell)

  class CircularBuffer {
    const rows: nat
    const columns: nat
    const secondsPerRow: nat
    const values: array2<Cell>
    var currentTime: int
    var currentRow: nat
    var aggregation: seq<Aggregation>
    // The interval of currentTime and all cells written so far.
    ghost var now: int
    ghost var hist: History

    // ------------------------------------------------------------ the abstract view

    ghost predicate Shape()
      reads this`aggregation
    {
      && rows > 1 && 0 < columns <= 256 && secondsPerRow > 0 && |aggregation| == columns
      && values.Length0 == rows && values.Length1 == 2 * columns
    }

    ghost predicate Clocked()
      reads this`currentTime, this`currentRow, this`now
    {
      now >= rows - 1 && currentTime == now * secondsPerRow && rows > 0 && currentRow == now % rows
    }

    // Every row shows its interval of the history.
    ghost predicate Shows()
      reads this`now, this`hist, values
    {
      forall r, i | 0 <= r < values.Length0 && 0 <= i < values.Length1 ::
        values[r, i] == Look(hist, RowInterval(now, values.Length0, r), i)
    }

    ghost predicate Valid()
      reads this, values
    {
      Shape() && Clocked() && Bounded(hist, now, columns) && Shows()
    }

    ghost function Abs(): State
      reads this`now, this`hist
    {
      State(now, hist)
    }

    // What add and set do to the history, and what they return.  The clock moves even when
    // the call then fails.
    ghost predicate IsEffect(s: State, iv: int, column: int, kind: Kind, x: Cell, reply: Reply)
      reads this`now, this`hist, this`aggregation
    {
      if !(1 <= column <= columns && |aggregation| == columns) then reply == Error && Abs() == Moved(s, iv)
      else
        && Abs() == Applied(s, rows, iv, column - 1, kind, aggregation[column - 1], x)
        && reply == (if iv <= now - rows then Nil
                     else
                       var u := Change(s, iv, column - 1, kind, aggregation[column - 1], x);
                       if u.Stored? then Pushed(u.value) else Error)
    }

    lemma ClockIsSane()
      requires Valid()
      ensures now >= rows - 1 && currentTime == now * secondsPerRow && currentRow == now % rows
    {
    }

    lemma RowShows(iv: int, i: nat)
      requires Shape() && Shows() && InWindow(now, rows, iv) && i < 2 * columns
      ensures 0 <= iv % rows < rows && values[iv % rows, i] == Look(hist, iv, i)
    {
      RowOfInterval(now, rows, iv);
    }

    // ------------------------------------------------------------ clearing rows

    // memcpy of n rows; the two regions must not overlap.
    method CopyRows(dst: nat, src: nat, n: nat)
      requires src + n <= dst && dst + n <= values.Length0
      modifies values
      ensures forall r, i | 0 <= r < values.Length0 && 0 <= i < values.Length1 ::
                values[r, i] == if dst <= r < dst + n then old(values[r - dst + src, i]) else old(values[r, i])
    {
      forall r, i | dst <= r < dst + n && 0 <= i < values.Length1 {
        values[r, i] := values[r - dst + src, i];
      }
    }

    // copy_cleared_row: spread a cleared row over the count rows behind it, doubling the
    // cleared stretch with every copy.
    method CopyClearedRow(first: nat, count: nat)
      requires first + count < values.Length0
      requires forall i | 0 <= i < values.Length1 :: values[first, i] == NaN
      modifies values
      ensures forall r, i | 0 <= r < values.Length0 && 0 <= i < values.Length1 ::
                values[r, i] == if first <= r <= first + count then NaN else old(values[r, i])
    {
      var pool, left := 1, count;
      while left > 0
        invariant pool >= 1 && pool + left == count + 1
        invariant forall r, i | 0 <= r < values.Length0 && 0 <= i < values.Length1 ::
                    values[r, i] == if first <= r < first + pool then NaN else old(values[r, i])
      {
        var ask := if left >= pool then pool else left;
        CopyRows(first + pool, first, ask);
        left := left - ask;
        pool := pool + ask;
      }
    }

    method ClearRow(row: nat)
      requires row < values.Length0
      modifies values
      ensures forall r, i | 0 <= r < values.Length0 && 0 <= i < values.Length1 ::
                values[r, i] == if r == row then NaN else old(values[r, i])
    {
      forall i | 0 <= i < values.Length1 {
        values[row, i] := NaN;
      }
    }

    // clear_rows
    method ClearRows(numRows0: nat)
      requires rows > 0 && values.Length0 == rows && currentRow < rows && numRows0 > 0
      modifies values
      ensures forall r, i | 0 <= r < rows && 0 <= i < values.Length1 ::
                values[r, i] == if IsCleared(currentRow, rows, numRows0, r) then NaN else old(values[r, i])
    {
      var numRows := if numRows0 >= rows then rows else numRows0;
      var row := currentRow + 1;
      if row >= rows { row := 0; }
      ClearRow(row);
      if row + numRows - 1 >= rows {
        CopyClearedRow(row, rows - row - 1);
        ClearRow(0);
        CopyClearedRow(0, row + numRows - 1 - rows);
      } else {
        CopyClearedRow(row, numRows - 1);
      }
    }

    // check_row with advance: move the window forward if necessary and give the row of
    // the time, or -1 when it is too old.
    method AdvanceRow(ns: real) returns (row: int)
      requires Valid()
      modifies this`currentTime, this`currentRow, this`now, values
      ensures Valid()
      ensures var iv := Interval(ns, secondsPerRow);
              && now == Moved(old(Abs()), iv).now
              && row == (if InWindow(now, rows, iv) then iv % rows else -1)
    {
      hide CDiv, CMod, Seconds, RowInterval, Interval;
      ghost var iv := Interval(ns, secondsPerRow);
      StartOfInterval(Seconds(ns), secondsPerRow);
      WholeInterval(now, secondsPerRow);
      IntervalIs(ns);
      var t := Seconds(ns);
      t := t - CMod(t, secondsPerRow);
      var current := CDiv(currentTime, secondsPerRow);
      var requested := CDiv(t, secondsPerRow);
      var delta := requested - current;
      row := requested % rows;
      if delta > 0 {
        ClearRows(delta);
        Advances(iv);
        currentTime, currentRow, now := t, row, iv;
      } else if requested > current || -delta >= rows {
        return -1;
      }
    }

    lemma IntervalIs(ns: real)
      requires secondsPerRow > 0
      ensures Interval(ns, secondsPerRow) == CDiv(Seconds(ns), secondsPerRow)
    {
    }

    // With the rows in between cleared, the array shows the window that ends at iv.
    twostate lemma Advances(iv: int)
      requires old(Shape()) && old(Clocked()) && Bounded(hist, now, columns) && old(Shows()) && iv > now
      requires now == old(now) && hist == old(hist) && currentRow == old(currentRow)
      requires forall r, i | 0 <= r < rows && 0 <= i < values.Length1 ::
                 values[r, i] == if IsCleared(currentRow, rows, iv - now, r) then NaN else old(values[r, i])
      ensures forall r, i | 0 <= r < rows && 0 <= i < values.Length1 ::
                values[r, i] == Look(hist, RowInterval(iv, rows, r), i)
    {
      hide RowInterval, IsCleared;
      forall r, i | 0 <= r < rows && 0 <= i < values.Length1
        ensures values[r, i] == Look(hist, RowInterval(iv, rows, r), i)
      {
        Advanced(now, rows, iv - now, r);
      }
    }

    // cb_new: a buffer of nothing but NaN.
    constructor (rows0: nat, columns0: nat, spr: nat)
      requires 1 < rows0 && 0 < columns0 <= 256 && 0 < spr
      ensures Valid() && rows == rows0 && columns == columns0 && secondsPerRow == spr
      ensures fresh(values) && Abs() == State(rows0 - 1, map[])
      ensures forall c | 0 <= c < columns :: aggregation[c] == Sum
    {
      rows, columns, secondsPerRow := rows0, columns0, spr;
      currentTime := (rows0 - 1) * spr;
      currentRow := rows0 - 1;
      values := new Cell[rows0, 2 * columns0];
      aggregation := seq(columns0, c => Sum);
      now, hist := rows0 - 1, map[];
      new;
      ClearRows(rows);
      DivModUnique(now, rows, 0, now);
    }

    // ------------------------------------------------------------ add, set and get

    // The history takes over what was written into column c of a row.
    ghost method Record(row: nat, c: nat, iv: int)
      requires Shape() && row < rows && c < columns && RowInterval(now, rows, row) == iv
      requires forall r, i | 0 <= r < rows && 0 <= i < 2 * columns && !(r == row && (i == 2 * c || i == 2 * c + 1)) ::
                 values[r, i] == Look(hist, RowInterval(now, rows, r), i)
      modifies this`hist
      ensures Shows()
      ensures hist == Written(old(hist), iv, c, Stored(values[row, 2 * c], values[row, 2 * c + 1]))
    {
      hide RowInterval;
      hist := Written(hist, iv, c, Stored(values[row, 2 * c], values[row, 2 * c + 1]));
      forall r, i | 0 <= r < rows && 0 <= i < 2 * columns
        ensures values[r, i] == Look(hist, RowInterval(now, rows, r), i)
      {
        IntervalOfRow(now, rows, r);
        IntervalOfRow(now, rows, row);
      }
    }

    // Column c of a row has taken the given update; nothing else has changed.
    twostate predicate Took(row: nat, c: nat, u: Update)
      requires row < values.Length0 && 2 * c + 1 < values.Length1
      reads values
    {
      && (forall r, i | 0 <= r < values.Length0 && 0 <= i < values.Length1 &&
                        (u.Refused? || r != row || (i != 2 * c && i != 2 * c + 1)) :: values[r, i] == old(values[r, i]))
      && (u.Stored? ==> values[row, 2 * c] == u.value && values[row, 2 * c + 1] == u.delta)
    }

    // The inner part of cb_add.
    method AddAt(row: nat, c: nat, value: Cell) returns (ok: bool)
      requires Shape() && row < rows && c < columns
      modifies values
      ensures var u := AddCell(aggregation[c], old(values[row, 2 * c]), old(values[row, 2 * c + 1]), value);
              ok == u.Stored? && Took(row, c, u)
    {
      var before := values[row, 2 * c];
      if before == NaN {
        values[row, 2 * c] := value;
      } else {
        if value == NaN { return false; }
        values[row, 2 * c] := Plus(before, value);
      }
      if before.Num? && before == values[row, 2 * c] { return true; }
      match aggregation[c] {
        case Sum =>
          if values[row, 2 * c + 1] == NaN {
            values[row, 2 * c + 1] := value;
          } else {
            values[row, 2 * c + 1] := Plus(values[row, 2 * c + 1], value);
          }
        case Min => values[row, 2 * c + 1] := values[row, 2 * c];
        case Max => values[row, 2 * c + 1] := values[row, 2 * c];
        case Plain =>
      }
      ok := true;
    }

    // The inner part of cb_set.
    method SetAt(row: nat, c: nat, value: Cell) returns (ok: bool)
      requires Shape() && row < rows && c < columns
      modifies values
      ensures var u := SetCell(aggregation[c], old(values[row, 2 * c]), old(values[row, 2 * c + 1]), value);
              ok == u.Stored? && Took(row, c, u)
    {
      var before := values[row, 2 * c];
      if value == NaN && before.Num? { return false; }
      match aggregation[c] {
        case Sum =>
          values[row, 2 * c] := value;
          var change := value;
          if before.Num? {
            change := Num(value.v - before.v);
            if change.v == 0.0 { return true; }
          }
          if values[row, 2 * c + 1] == NaN {
            values[row, 2 * c + 1] := change;
          } else {
            values[row, 2 * c + 1] := Plus(values[row, 2 * c + 1], change);
          }
        case Min =>
          if before == NaN || value.v < before.v {
            values[row, 2 * c] := value;
            values[row, 2 * c + 1] := value;
          }
        case Max =>
          if before == NaN || value.v > before.v {
            values[row, 2 * c] := value;
            values[row, 2 * c + 1] := value;
          }
        case Plain => values[row, 2 * c] := value;
      }
      ok := true;
    }

    // cb_add and cb_set differ in the inner part only.
    method Update(kind: Kind, ns: real, column: int, value: Cell) returns (reply: Reply)
      requires Valid()
      modifies this`currentTime, this`currentRow, this`now, this`hist, values
      ensures Valid()
      ensures IsEffect(old(Abs()), Interval(ns, secondsPerRow), column, kind, value, reply)
    {
      hide RowInterval, Interval, AddCell, SetCell, CircularBuffer.Clocked;
      ghost var iv := Interval(ns, secondsPerRow);
      var row := AdvanceRow(ns);
      if !(1 <= column <= columns) { return Error; }
      if row == -1 { return Nil; }
      var c := column - 1;
      RowOfInterval(now, rows, iv);
      RowShows(iv, 2 * c);
      RowShows(iv, 2 * c + 1);
      var ok;
      match kind {
        case Adding => ok := AddAt(row, c, value);
        case Setting => ok := SetAt(row, c, value);
      }
      if !ok { return Error; }
      reply := Pushed(values[row, 2 * c]);
      Record(row, c, iv);
    }

    // cb_set_header, as far as it matters for the values.
    method SetHeader(column: int, agg: Aggregation) returns (reply: Reply)
      requires Valid()
      modifies this`aggregation
      ensures Valid()
      ensures aggregation == if 1 <= column <= columns then old(aggregation)[column - 1 := agg] else old(aggregation)
      ensures reply == if 1 <= column <= columns then Pushed(Num(column as real)) else Error
    {
      if !(1 <= column <= columns) { return Error; }
      aggregation := aggregation[column - 1 := agg];
      reply := Pushed(Num(column as real));
    }

    // cb_get for values (offset 0) and deltas (offset 1): the history, seen through the
    // window.
    method Get(ns: real, column: int, offset: nat) returns (reply: Reply)
      requires Valid() && offset < 2
      ensures var iv := Interval(ns, secondsPerRow);
              reply == if !(1 <= column <= columns) then Error
                       else if !InWindow(now, rows, iv) then Nil
                       else Pushed(Look(hist, iv, 2 * (column - 1) + offset))
    {
      hide RowInterval, Interval, FindRow;
      FindRowInWindow(now, rows, secondsPerRow, ns);
      var row := FindRow(currentTime, rows, secondsPerRow, ns);
      if !(1 <= column <= columns) { return Error; }
      if row == -1 { return Nil; }
      RowShows(Interval(ns, secondsPerRow), 2 * (column - 1) + offset);
      reply := Pushed(values[row, 2 * (column - 1) + offset]);
    }

    // get_start_time
    function StartTime(): int
      reads this`currentTime
    {
      currentTime - secondsPerRow * (rows - 1)
    }

    // cb_get_range: consecutive intervals, in order, from the one of start to the one of
    // end; None stands for nil.
    method GetRange(column: int, offset: nat, start: Option<real>, end: Option<real>)
      returns (error: bool, range: Option<seq<Cell>>)
      requires Valid() && offset < 2
      ensures var first := if start.Some? then Interval(start.value, secondsPerRow) else now - rows + 1;
              var last := if end.Some? then Interval(end.value, secondsPerRow) else now;
              && (error <==> !(1 <= column <= columns) ||
                             (if end.Some? then end.value else currentTime as real * NS_PER_SECOND) <
                             (if start.Some? then start.value else StartTime() as real * NS_PER_SECOND))
              && (!error ==>
                    && first <= last
                    && (range.Some? <==> InWindow(now, rows, first) && InWindow(now, rows, last))
                    && (range.Some? ==>
                          && |range.value| == last - first + 1
                          && forall k | 0 <= k < |range.value| ::
                               range.value[k] == Look(hist, first + k, 2 * (column - 1) + offset)))
    {
      hide RowInterval, Interval, FindRow;
      range := None;
      if !(1 <= column <= columns) { return true, range; }
      var startNs := if start.Some? then start.value else StartTime() as real * NS_PER_SECOND;
      var endNs := if end.Some? then end.value else currentTime as real * NS_PER_SECOND;
      if endNs < startNs { return true, range; }
      error := false;
      ghost var first, last := Interval(startNs, secondsPerRow), Interval(endNs, secondsPerRow);
      DefaultRange();
      IntervalMonotone(startNs, endNs, secondsPerRow);
      FindRowInWindow(now, rows, secondsPerRow, startNs);
      FindRowInWindow(now, rows, secondsPerRow, endNs);
      var startRow := FindRow(currentTime, rows, secondsPerRow, startNs);
      var endRow := FindRow(currentTime, rows, secondsPerRow, endNs);
      if startRow == -1 || endRow == -1 { return; }
      var cells := Collect(startRow, endRow, 2 * (column - 1) + offset, first, last);
      range := Some(cells);
    }

    lemma DefaultRange()
      requires Shape() && Clocked()
      ensures Interval(StartTime() as real * NS_PER_SECOND, secondsPerRow) == now - rows + 1
      ensures Interval(currentTime as real * NS_PER_SECOND, secondsPerRow) == now
    {
      hide Interval;
      assert now * secondsPerRow - secondsPerRow * (rows - 1) == (now - rows + 1) * secondsPerRow;
      IntervalOfStart(now - rows + 1, secondsPerRow);
      IntervalOfStart(now, secondsPerRow);
    }

    // The loop of cb_get_range.
    method Collect(startRow: int, endRow: int, i: nat, ghost first: int, ghost last: int) returns (cells: seq<Cell>)
      requires Valid() && i < 2 * columns && first <= last
      requires InWindow(now, rows, first) && InWindow(now, rows, last)
      requires startRow == first % rows && endRow == last % rows
      ensures |cells| == last - first + 1
      ensures forall k | 0 <= k < |cells| :: cells[k] == Look(hist, first + k, i)
    {
      hide RowInterval;
      ghost var iv := first;
      var row := startRow;
      cells := [];
      while true
        invariant first <= iv <= last && |cells| == iv - first
        invariant row == iv % rows || (row == rows && iv % rows == 0)
        invariant forall k | 0 <= k < |cells| :: cells[k] == Look(hist, first + k, i)
        decreases last - iv
      {
        if row == rows { row := 0; }
        RowShows(iv, i);
        cells := cells + [values[row, i]];
        RowOfInterval(now, rows, iv);
        RowOfInterval(now, rows, last);
        NextRow(iv, rows);
        if row == endRow { break; }
        row, iv := row + 1, iv + 1;
      }
    }

    // ------------------------------------------------------------ output

    // is_row_dirty
    method IsRowDirty(row: nat) returns (dirty: bool)
      requires Shape() && row < rows
      ensures dirty <==> exists c | 0 <= c < columns :: values[row, 2 * c + 1] != NaN
    {
      for col := 0 to columns
        invariant forall c | 0 <= c < col :: values[row, 2 * c + 1] == NaN
      {
        if values[row, 2 * col + 1] != NaN { return true; }
      }
      dirty := false;
    }

    // Hand out the deltas of a row and clear them.
    method DrainRow(row: nat, ghost iv: int) returns (deltas: seq<Cell>)
      requires Valid() && row < rows && RowInterval(now, rows, row) == iv
      modifies this`hist, values
      ensures Valid()
      ensures deltas == Deltas(old(hist), iv, columns) && hist == Settled(old(hist), iv, iv)
    {
      hide RowInterval, Look, CircularBuffer.Clocked;
      deltas := [];
      for col := 0 to columns
        invariant hist == old(hist) && |deltas| == col
        invariant forall c | 0 <= c < col :: deltas[c] == Look(hist, iv, 2 * c + 1)
        invariant forall r, i | 0 <= r < rows && 0 <= i < 2 * columns ::
                    values[r, i] == if r == row && i % 2 == 1 && i < 2 * col then NaN
                                    else Look(hist, RowInterval(now, rows, r), i)
      {
        deltas := deltas + [values[row, 2 * col + 1]];
        values[row, 2 * col + 1] := NaN;
      }
      hist := Settled(hist, iv, iv);
      forall r, i | 0 <= r < rows && 0 <= i < 2 * columns
        ensures values[r, i] == Look(hist, RowInterval(now, rows, r), i)
      {
        LookSettled(old(hist), iv, iv, RowInterval(now, rows, r), i);
        IntervalOfRow(now, rows, r);
        IntervalOfRow(now, rows, row);
      }
    }

    // The loop body of output_cbufd for the row of interval iv.
    method OutputRow(row: nat, t: int, ghost h: History, ghost lo: int, ghost iv: int) returns (line: seq<Line>)
      requires Valid() && lo <= iv && InWindow(now, rows, iv) && row == iv % rows && t == iv * secondsPerRow
      requires hist == Settled(h, lo, iv - 1) && Bounded(h, now, columns)
      modifies this`hist, values
      ensures Valid() && hist == Settled(h, lo, iv)
      ensures line == if IsDirty(h, iv, columns) then [Line(iv * secondsPerRow, Deltas(h, iv, columns))] else []
    {
      hide RowInterval, Look, Deltas, Settled, CircularBuffer.Clocked;
      RowOfInterval(now, rows, iv);
      NotYetSettled(h, lo, iv - 1, iv, columns);
      var dirty := IsRowDirty(row);
      assert dirty <==> IsDirty(hist, iv, columns) by {
        forall c | 0 <= c < columns ensures values[row, 2 * c + 1] == Look(hist, iv, 2 * c + 1) {
          RowShows(iv, 2 * c + 1);
        }
      }
      line := [];
      if dirty {
        var deltas := DrainRow(row, iv);
        line := [Line(t, deltas)];
        SettledNext(h, lo, iv - 1);
      } else {
        SettledClean(h, lo, iv, now, columns);
      }
    }

    // output_cbufd: the dirty rows of the window in chronological order; their deltas are
    // cleared.
    method OutputCbufd() returns (out: seq<Line>)
      requires Valid()
      modifies this`hist, values
      ensures Valid()
      ensures out == Outputs(old(hist), now - rows + 1, rows, columns, secondsPerRow)
      ensures hist == Settled(old(hist), now - rows + 1, now)
    {
      hide RowInterval, Look, Settled;
      ghost var lo, h := now - rows + 1, hist;
      SettledNothing(h, lo);
      FirstRow();
      var t := StartTime();
      var row := currentRow + 1;
      out := [];
      for i := 0 to rows
        invariant Valid() && hist == Settled(h, lo, lo + i - 1)
        invariant out == Outputs(h, lo, i, columns, secondsPerRow)
        invariant t == (lo + i) * secondsPerRow && 1 <= row <= rows
        invariant (lo + i) % rows == if row == rows then 0 else row
      {
        if row >= rows { row := 0; }
        NextRow(lo + i, rows);
        var line := OutputRow(row, t, h, lo, lo + i);
        out := out + line;
        t := t + secondsPerRow;
        row := row + 1;
      }
    }

    lemma FirstRow()
      requires Shape() && Clocked()
      ensures StartTime() == (now - rows + 1) * secondsPerRow
      ensures (now - rows + 1) % rows == if currentRow + 1 == rows then 0 else currentRow + 1
    {
      var q := now / rows;
      assert now == rows * q + currentRow;
      assert rows * (q - 1) == rows * q - rows;
      NextRow(now, rows);
      if currentRow + 1 == rows {
        DivModUnique(now - rows + 1, rows, q, 0);
      } else {
        DivModUnique(now - rows + 1, rows, q - 1, currentRow + 1);
      }
      assert now * secondsPerRow - secondsPerRow * (rows - 1) == (now - rows + 1) * secondsPerRow;
    }

    // ------------------------------------------------------------ save and restore

    // cb_serialize, as numbers: the clock, all values row by row, then the pending deltas,
    // which the buffer forgets.
    method Serialize() returns (time: int, row: nat, tokens: seq<Cell>, ghost saved: seq<Cell>)
      requires Valid()
      modifies this`hist, values
      ensures Valid() && time == currentTime && row == currentRow
      ensures hist == Settled(old(hist), now - rows + 1, now)
      ensures AreValues(saved, old(hist), now, rows, columns)
      ensures tokens == saved + LinesTokens(Outputs(old(hist), now - rows + 1, rows, columns, secondsPerRow))
    {
      hide RowInterval, Look, Outputs, Settled, AreValues;
      time, row := currentTime, currentRow;
      tokens := WriteValues();
      saved := tokens;
      var lines := OutputCbufd();
      tokens := tokens + LinesTokens(lines);
    }

    method WriteValues() returns (tokens: seq<Cell>)
      requires Valid()
      ensures AreValues(tokens, hist, now, rows, columns)
    {
      hide RowInterval, Look, Position;
      tokens := [];
      NewLine(columns, 0);
      for r := 0 to rows
        invariant |tokens| == Position(columns, r, 0)
        invariant forall r': nat, c: nat | r' < r && c < columns ::
                    Position(columns, r', c) < |tokens| &&
                    tokens[Position(columns, r', c)] == Look(hist, RowInterval(now, rows, r'), 2 * c)
      {
        tokens := WriteRow(r, tokens);
        NewLine(columns, r);
      }
    }

    method WriteRow(r: nat, before: seq<Cell>) returns (tokens: seq<Cell>)
      requires Valid() && r < rows && |before| == Position(columns, r, 0)
      ensures before <= tokens && |tokens| == Position(columns, r, columns)
      ensures forall c: nat | c < columns ::
                Position(columns, r, c) < |tokens| &&
                tokens[Position(columns, r, c)] == Look(hist, RowInterval(now, rows, r), 2 * c)
    {
      hide RowInterval, Look;
      tokens := before;
      for c := 0 to columns
        invariant before <= tokens && |tokens| == Position(columns, r, c)
        invariant forall c': nat | c' < c ::
                    Position(columns, r, c') < |tokens| &&
                    tokens[Position(columns, r, c')] == Look(hist, RowInterval(now, rows, r), 2 * c')
      {
        tokens := tokens + [values[r, 2 * c]];
      }
    }

    // The deltas stored by the reader, everything else as before.
    twostate predicate TookDeltas(cells: map<(int, nat), Cell>)
      reads values
    {
      forall r: nat, i: nat | r < values.Length0 && i < values.Length1 ::
        values[r, i] == if i % 2 == 1 && (r, i / 2) in cells then cells[(r, i / 2)] else old(values[r, i])
    }

    // cbufd_fromstring
    method ReadDeltas(tokens: seq<Cell>) returns (ok: bool)
      requires Shape()
      modifies values
      ensures var st := ReadTokens(currentTime, rows, columns, secondsPerRow, FRESH_READER, tokens);
              ok == (st.pos == 0) && TookDeltas(st.cells)
    {
      hide FindRow;
      var pos, row := 0, -1;
      ghost var st := FRESH_READER;
      for k := 0 to |tokens|
        invariant st == ReadTokens(currentTime, rows, columns, secondsPerRow, FRESH_READER, tokens[..k])
        invariant pos == st.pos <= columns && row == st.row && -1 <= row < rows
        invariant TookDeltas(st.cells)
      {
        assert tokens[..k + 1][..k] == tokens[..k];
        if pos == 0 {
          row := TokenRow(currentTime, rows, secondsPerRow, tokens[k]);
        } else if row != -1 {
          values[row, 2 * (pos - 1) + 1] := tokens[k];
        }
        pos := if pos == columns then 0 else pos + 1;
        st := ReadToken(currentTime, rows, columns, secondsPerRow, st, tokens[k]);
      }
      assert tokens[..|tokens|] == tokens;
      ok := pos == 0;
    }

    // The value loop of cb_fromstring.
    method ReadValues(tokens: seq<Cell>) returns (enough: bool)
      requires Shape()
      modifies values
      ensures enough <==> |tokens| >= Position(columns, rows, 0)
      ensures enough ==>
                forall r: nat, i: nat | r < rows && i < 2 * columns && i % 2 == 0 ::
                  Position(columns, r, i / 2) < |tokens| && values[r, i] == tokens[Position(columns, r, i / 2)]
      ensures forall r: nat, i: nat | r < rows && i < 2 * columns && i % 2 == 1 :: values[r, i] == old(values[r, i])
    {
      hide Position;
      var pos, r, c := 0, 0, 0;
      NewLine(columns, 0);
      while r < rows && pos < |tokens|
        invariant r <= rows && c < columns && (r == rows ==> c == 0)
        invariant pos == Position(columns, r, c) <= |tokens|
        invariant forall r': nat, i: nat | r' < rows && i < 2 * columns && i % 2 == 0 &&
                                                     (r' < r || (r' == r && i < 2 * c)) ::
                    Position(columns, r', i / 2) < |tokens| && values[r', i] == tokens[Position(columns, r', i / 2)]
        invariant forall r': nat, i: nat | r' < rows && i < 2 * columns && i % 2 == 1 ::
                    values[r', i] == old(values[r', i])
        decreases rows - r, columns - c
      {
        values[r, 2 * c] := tokens[pos];
        NewLine(columns, r);
        NextPosition(columns, r, c);
        pos, c := pos + 1, c + 1;
        if c == columns { r, c := r + 1, 0; }
      }
      enough := r == rows;
      if !enough { PositionOrder(columns, r, c, rows, 0); }
    }

    // All cells after the saved text has been read.
    twostate predicate Restored(tokens: seq<Cell>, cells: map<(int, nat), Cell>)
      reads values
    {
      forall r: nat, i: nat | r < values.Length0 && i < values.Length1 ::
        && Position(columns, r, i / 2) < |tokens|
        && values[r, i] == if i % 2 == 0 then tokens[Position(columns, r, i / 2)]
                           else if (r, i / 2) in cells then cells[(r, i / 2)]
                           else old(values[r, i])
    }

    method ReadText(tokens: seq<Cell>) returns (ok: bool)
      requires Shape()
      modifies values
      ensures ok <==> |tokens| >= Position(columns, rows, 0) && ReadRest(currentTime, tokens).pos == 0
      ensures ok ==> Restored(tokens, ReadRest(currentTime, tokens).cells)
    {
      hide Position, ReadTokens;
      ok := ReadValues(tokens);
      if ok {
        ok := ReadDeltas(tokens[Position(columns, rows, 0)..]);
        forall r: nat, c: nat | r < rows && c < columns ensures Position(columns, r, c) < |tokens| {
          assert (2 * c) % 2 == 0 && (2 * c) / 2 == c;
        }
      }
    }

    ghost function ReadRest(time: int, tokens: seq<Cell>): Reader
      requires rows > 0 && secondsPerRow > 0 && |tokens| >= Position(columns, rows, 0)
    {
      ReadTokens(time, rows, columns, secondsPerRow, FRESH_READER, tokens[Position(columns, rows, 0)..])
    }

    // cb_fromstring
    method FromString(time: int, row: nat, tokens: seq<Cell>) returns (ok: bool)
      requires Shape()
      modifies this`currentTime, this`currentRow, this`now, this`hist, values
      ensures currentTime == time && currentRow == row
      ensures ok <==> |tokens| >= Position(columns, rows, 0) && ReadRest(time, tokens).pos == 0
      ensures ok ==> Restored(tokens, ReadRest(time, tokens).cells)
      ensures now == time / secondsPerRow
      ensures now >= rows - 1 && time == now * secondsPerRow && row == now % rows ==> Valid()
    {
      hide RowInterval, Look, CircularBuffer.ReadRest, Position;
      currentTime, currentRow := time, row;
      ok := ReadText(tokens);
      now := time / secondsPerRow;
      Adopt();
    }

    // A history that explains what the array shows.
    ghost method Adopt()
      requires Shape()
      modifies this`hist
      ensures Shows() && Bounded(hist, now, columns)
    {
      hist := map iv: int, i: nat | now - rows < iv <= now && i < 2 * columns :: (iv, i) := values[iv % rows, i];
      hide RowInterval;
      forall r: nat, i: nat | r < rows && i < 2 * columns
        ensures values[r, i] == Look(hist, RowInterval(now, rows, r), i)
      {
        IntervalOfRow(now, rows, r);
      }
    }
  }
}
