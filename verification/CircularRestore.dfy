// Saving a circular buffer and reading it back into a fresh one of the same shape.

module CircularRestore {
  import opened Common
  import opened CTime
  import opened CircularSpec
  import opened CircularBuffers
  import opened CircularWindow

  function CellAt(cells: map<(int, nat), Cell>, r: int, c: nat): Option<Cell> {
    if (r, c) in cells then Some(cells[(r, c)]) else None
  }

  lemma {:induction false} ReadAppend(time: int, rows: nat, columns: nat, spr: nat, st: Reader, a: seq<Cell>,
                                      b: seq<Cell>)
    requires rows > 0 && spr > 0
    ensures ReadTokens(time, rows, columns, spr, st, a + b) ==
            ReadTokens(time, rows, columns, spr, ReadTokens(time, rows, columns, spr, st, a), b)
    decreases b
  {
    if b == [] {
      assert a + b == a;
    } else {
      var n := |b| - 1;
      assert (a + b)[..|a + b| - 1] == a + b[..n] && (a + b)[|a + b| - 1] == b[n];
      ReadAppend(time, rows, columns, spr, st, a, b[..n]);
    }
  }

  // The first k deltas of a line go to the first k columns of its row.
  lemma {:induction false} ReadSomeDeltas(time: int, rows: nat, columns: nat, spr: nat, st: Reader, ds: seq<Cell>,
                                          k: nat)
    requires rows > 0 && spr > 0 && k <= |ds| == columns && columns > 0
    requires st.pos == 1 && st.row >= 0
    ensures var st' := ReadTokens(time, rows, columns, spr, st, ds[..k]);
            && st'.row == st.row && st'.pos == (if k == columns then 0 else k + 1)
            && forall r: int, c: nat ::
                 CellAt(st'.cells, r, c) == if r == st.row && c < k then Some(ds[c]) else CellAt(st.cells, r, c)
    decreases k
  {
    if k == 0 {
      assert ds[..0] == [];
    } else {
      assert ds[..k][..k - 1] == ds[..k - 1] && ds[..k][k - 1] == ds[k - 1];
      ReadSomeDeltas(time, rows, columns, spr, st, ds, k - 1);
      var before := ReadTokens(time, rows, columns, spr, st, ds[..k - 1]);
      assert ReadTokens(time, rows, columns, spr, st, ds[..k]) ==
             ReadToken(time, rows, columns, spr, before, ds[k - 1]);
      var cells := before.cells[(st.row, k - 1) := ds[k - 1]];
      forall r: int, c: nat
        ensures CellAt(cells, r, c) == if r == st.row && c < k then Some(ds[c]) else CellAt(st.cells, r, c)
      {
        assert CellAt(before.cells, r, c) == if r == st.row && c < k - 1 then Some(ds[c]) else CellAt(st.cells, r, c);
      }
    }
  }

  lemma ReadLine(now: int, rows: nat, columns: nat, spr: nat, st: Reader, iv: int, ds: seq<Cell>)
    requires rows > 0 && spr > 0 && |ds| == columns > 0 && now >= rows - 1
    requires st.pos == 0 && InWindow(now, rows, iv)
    ensures var st' := ReadTokens(now * spr, rows, columns, spr, st, LineTokens(Line(iv * spr, ds)));
            && st'.pos == 0
            && forall r: int, c: nat ::
                 CellAt(st'.cells, r, c) ==
                 if r == iv % rows && c < columns then Some(ds[c]) else CellAt(st.cells, r, c)
  {
    hide FindRow, Interval;
    var head := [Num((iv * spr) as real)];
    assert head[..0] == [] && head[0] == Num((iv * spr) as real);
    IntervalOfStart(iv, spr);
    FindRowInWindow(now, rows, spr, (iv * spr) as real * NS_PER_SECOND);
    RowOfInterval(now, rows, iv);
    ReadAppend(now * spr, rows, columns, spr, st, head, ds);
    var st1 := ReadTokens(now * spr, rows, columns, spr, st, head);
    assert st1 == ReadToken(now * spr, rows, columns, spr, st, head[0]);
    ReadSomeDeltas(now * spr, rows, columns, spr, st1, ds, columns);
    assert ds[..columns] == ds;
  }

  // The deltas of the first n intervals of the window, and no others, have been read.
  ghost predicate HasRead(h: History, now: int, rows: nat, columns: nat, n: nat, st: Reader) {
    && st.pos == 0 && rows > 0
    && forall r: int, c: nat | 0 <= r < rows && c < columns ::
         CellAt(st.cells, r, c) ==
         var iv := RowInterval(now, rows, r);
         if iv < now - rows + 1 + n && IsDirty(h, iv, columns) then Some(Look(h, iv, 2 * c + 1)) else None
  }

  lemma HasReadNext(h: History, now: int, rows: nat, columns: nat, n: nat, st: Reader, st': Reader)
    requires n < rows && HasRead(h, now, rows, columns, n, st) && st'.pos == 0
    requires var iv := now - rows + 1 + n;
             forall r: int, c: nat ::
               CellAt(st'.cells, r, c) ==
               if IsDirty(h, iv, columns) && r == iv % rows && c < columns then Some(Look(h, iv, 2 * c + 1))
               else CellAt(st.cells, r, c)
    ensures HasRead(h, now, rows, columns, n + 1, st')
  {
    hide RowInterval, IsDirty, CellAt, Look;
    var iv := now - rows + 1 + n;
    RowOfInterval(now, rows, iv);
    forall r: int, c: nat | 0 <= r < rows && c < columns
      ensures CellAt(st'.cells, r, c) ==
              if RowInterval(now, rows, r) < iv + 1 && IsDirty(h, RowInterval(now, rows, r), columns)
              then Some(Look(h, RowInterval(now, rows, r), 2 * c + 1)) else None
    {
      IntervalOfRow(now, rows, r);
    }
  }

  // Reading the lines for the first n intervals of the window back in gives exactly the
  // deltas of the dirty ones.
  lemma {:induction false} ReadOutputs(h: History, now: int, rows: nat, columns: nat, spr: nat, n: nat)
    requires rows > 0 && spr > 0 && columns > 0 && now >= rows - 1 && n <= rows
    ensures HasRead(h, now, rows, columns, n,
                    ReadTokens(now * spr, rows, columns, spr, FRESH_READER,
                               LinesTokens(Outputs(h, now - rows + 1, n, columns, spr))))
    decreases n
  {
    hide RowInterval, IsDirty, HasRead, ReadTokens, Look, CellAt;
    if n == 0 {
      NothingRead(h, now, rows, columns, now * spr, spr);
    } else {
      var iv := now - rows + n;
      var before := Outputs(h, now - rows + 1, n - 1, columns, spr);
      var st := ReadTokens(now * spr, rows, columns, spr, FRESH_READER, LinesTokens(before));
      ReadOutputs(h, now, rows, columns, spr, n - 1);
      ReadBetweenLines(h, now, rows, columns, n - 1, st);
      if IsDirty(h, iv, columns) {
        var line := Line(iv * spr, Deltas(h, iv, columns));
        assert (before + [line])[..|before|] == before;
        ReadAppend(now * spr, rows, columns, spr, FRESH_READER, LinesTokens(before), LineTokens(line));
        ReadLine(now, rows, columns, spr, st, iv, Deltas(h, iv, columns));
        HasReadNext(h, now, rows, columns, n - 1, st,
                    ReadTokens(now * spr, rows, columns, spr, st, LineTokens(line)));
      } else {
        assert before + [] == before;
        HasReadNext(h, now, rows, columns, n - 1, st, st);
      }
    }
  }

  lemma NothingRead(h: History, now: int, rows: nat, columns: nat, time: int, spr: nat)
    requires rows > 0 && spr > 0
    ensures HasRead(h, now, rows, columns, 0, ReadTokens(time, rows, columns, spr, FRESH_READER, LinesTokens([])))
  {
    hide RowInterval;
    forall r | 0 <= r < rows ensures RowInterval(now, rows, r) > now - rows {
      IntervalOfRow(now, rows, r);
    }
  }

  lemma ReadBetweenLines(h: History, now: int, rows: nat, columns: nat, n: nat, st: Reader)
    requires HasRead(h, now, rows, columns, n, st)
    ensures st.pos == 0
  {
  }

  lemma TextComesBack(h: History, now: int, rows: nat, columns: nat, spr: nat, saved: seq<Cell>, rest: seq<Cell>)
    requires rows > 0 && spr > 0 && columns > 0 && now >= rows - 1
    requires AreValues(saved, h, now, rows, columns)
             && rest == LinesTokens(Outputs(h, now - rows + 1, rows, columns, spr))
    ensures |saved + rest| >= Position(columns, rows, 0) && (saved + rest)[Position(columns, rows, 0)..] == rest
    ensures var st := ReadTokens(now * spr, rows, columns, spr, FRESH_READER, rest);
            HasRead(h, now, rows, columns, rows, st) && st.pos == 0
  {
    hide HasRead, Position, ReadTokens;
    ReadOutputs(h, now, rows, columns, spr, rows);
    ReadBetweenLines(h, now, rows, columns, rows, ReadTokens(now * spr, rows, columns, spr, FRESH_READER, rest));
  }

  // A cell of the restored buffer shows the history of the saved one.
  lemma CellComesBack(h: History, now: int, rows: nat, columns: nat, tokens: seq<Cell>, saved: seq<Cell>, st: Reader,
                      r: nat, i: nat)
    requires r < rows && i < 2 * columns
    requires AreValues(saved, h, now, rows, columns) && saved <= tokens
    requires HasRead(h, now, rows, columns, rows, st)
    ensures Position(columns, r, i / 2) < |tokens|
    ensures Look(h, RowInterval(now, rows, r), i) ==
            if i % 2 == 0 then tokens[Position(columns, r, i / 2)]
            else if (r, i / 2) in st.cells then st.cells[(r, i / 2)] else NaN
  {
    hide RowInterval, Look, Position;
    IntervalOfRow(now, rows, r);
    var c, iv := i / 2, RowInterval(now, rows, r);
    if i % 2 == 0 {
      assert tokens[Position(columns, r, c)] == saved[Position(columns, r, c)];
      assert i == 2 * c;
    } else {
      assert i == 2 * c + 1;
      assert CellAt(st.cells, r, c) == if IsDirty(h, iv, columns) then Some(Look(h, iv, i)) else None;
    }
  }

  // The whole round trip: the fresh buffer has the clock, the column types, the values
  // and the pending deltas that the old one had before it was saved; the old one has
  // only lost its deltas.
  method SaveAndRestore(src: CircularBuffer) returns (dst: CircularBuffer, ok: bool)
    requires src.Valid()
    modifies src`hist, src.values
    ensures ok && fresh(dst) && fresh(dst.values) && dst.Valid()
    ensures dst.rows == src.rows && dst.columns == src.columns && dst.secondsPerRow == src.secondsPerRow
    ensures dst.currentTime == src.currentTime && dst.currentRow == src.currentRow && dst.now == src.now
    ensures dst.aggregation == src.aggregation
    ensures forall r, i | 0 <= r < src.rows && 0 <= i < 2 * src.columns :: dst.values[r, i] == old(src.values[r, i])
    ensures src.Valid() && src.hist == Settled(old(src.hist), src.now - src.rows + 1, src.now)
  {
    hide RowInterval, Look, Settled, Outputs, LinesTokens, AreValues, Bounded, CircularBuffer.Clocked;
    ghost var h := src.hist;
    src.ClockIsSane();
    var time, row, tokens;
    ghost var saved;
    time, row, tokens, saved := src.Serialize();
    dst := NewLike(src);
    ok := ReadInto(dst, time, row, tokens, h, src.now, saved);
  }

  // Saved text read into a blank buffer shows the history it was made from.
  method ReadInto(dst: CircularBuffer, time: int, row: nat, tokens: seq<Cell>, ghost h: History, ghost now: int,
                  ghost saved: seq<Cell>) returns (ok: bool)
    requires dst.Shape() && now >= dst.rows - 1 && time == now * dst.secondsPerRow && row == now % dst.rows
    requires forall r, i | 0 <= r < dst.rows && 0 <= i < 2 * dst.columns :: dst.values[r, i] == NaN
    requires AreValues(saved, h, now, dst.rows, dst.columns)
    requires tokens == saved + LinesTokens(Outputs(h, now - dst.rows + 1, dst.rows, dst.columns, dst.secondsPerRow))
    modifies dst`currentTime, dst`currentRow, dst`now, dst`hist, dst.values
    ensures ok && dst.Valid() && dst.currentTime == time && dst.currentRow == row && dst.now == now
    ensures forall r, i | 0 <= r < dst.rows && 0 <= i < 2 * dst.columns ::
              dst.values[r, i] == Look(h, RowInterval(now, dst.rows, r), i)
  {
    hide RowInterval, Look, Outputs, ReadTokens, LinesTokens, AreValues, Position, HasRead, Bounded;
    TextComesBack(h, now, dst.rows, dst.columns, dst.secondsPerRow, saved,
                  LinesTokens(Outputs(h, now - dst.rows + 1, dst.rows, dst.columns, dst.secondsPerRow)));
    TimeIsWhole(now, dst.secondsPerRow);
    ok := dst.FromString(time, row, tokens);
    forall r: nat, i: nat | r < dst.rows && i < 2 * dst.columns
      ensures dst.values[r, i] == Look(h, RowInterval(now, dst.rows, r), i)
    {
      CellComesBack(h, now, dst.rows, dst.columns, tokens, saved, dst.ReadRest(time, tokens), r, i);
    }
  }

  lemma TimeIsWhole(now: int, spr: nat)
    requires spr > 0 && now >= 0
    ensures now * spr >= 0 && (now * spr) / spr == now
  {
    WholeInterval(now, spr);
  }

  // The lines of the saved text before the values: new and set_header.
  method NewLike(src: CircularBuffer) returns (dst: CircularBuffer)
    requires src.Valid()
    ensures fresh(dst) && fresh(dst.values) && dst.Valid()
    ensures dst.rows == src.rows && dst.columns == src.columns && dst.secondsPerRow == src.secondsPerRow
    ensures dst.aggregation == src.aggregation
    ensures forall r, i | 0 <= r < dst.rows && 0 <= i < 2 * dst.columns :: dst.values[r, i] == NaN
  {
    hide RowInterval;
    dst := new CircularBuffer(src.rows, src.columns, src.secondsPerRow);
    SetTypes(dst, src.aggregation);
  }
}
