// A second buffer that adds every delta the first one outputs.

module CircularReplica {
  import opened CTime
  import opened CircularSpec
  import opened CircularBuffers
  import opened CircularWindow

  // ---------------------------------------------------------------- feeding, on histories

  // The first k deltas of a line added to a buffer of sum columns.
  function Fed(s: State, rows: nat, iv: int, ds: seq<Cell>, k: nat): (s': State)
    requires k <= |ds|
    decreases k
  {
    if k == 0 then s
    else
      var before := Fed(s, rows, iv, ds, k - 1);
      if ds[k - 1] == NaN then before else Applied(before, rows, iv, k - 1, Adding, Sum, ds[k - 1])
  }

  function LineInterval(l: Line, spr: nat): int
    requires spr > 0
  {
    Interval(l.time as real * NS_PER_SECOND, spr)
  }

  function FedLines(s: State, rows: nat, spr: nat, lines: seq<Line>): (s': State)
    requires spr > 0
  {
    if lines == [] then s
    else
      var l := lines[|lines| - 1];
      Fed(FedLines(s, rows, spr, lines[..|lines| - 1]), rows, LineInterval(l, spr), l.deltas, |l.deltas|)
  }

  lemma {:induction false} FedValues(s: State, rows: nat, iv: int, ds: seq<Cell>, k: nat)
    requires k <= |ds| && rows > 0 && iv > s.now - rows
    ensures var s' := Fed(s, rows, iv, ds, k);
            && s.now <= s'.now <= Moved(s, iv).now
            && forall jv: int, c: nat ::
                 Look(s'.hist, jv, 2 * c) ==
                 if jv == iv && c < k && ds[c].Num? then Accumulate(Look(s.hist, jv, 2 * c), ds[c])
                 else Look(s.hist, jv, 2 * c)
    decreases k
  {
    hide Look, Written;
    if k > 0 {
      FedValues(s, rows, iv, ds, k - 1);
      var before := Fed(s, rows, iv, ds, k - 1);
      if ds[k - 1].Num? {
        var u := Change(before, iv, k - 1, Adding, Sum, ds[k - 1]);
        assert u.Stored? && u.value == Accumulate(Look(before.hist, iv, 2 * (k - 1)), ds[k - 1]);
        forall jv: int, c: nat
          ensures Look(Written(before.hist, iv, k - 1, u), jv, 2 * c) ==
                  if jv == iv && c == k - 1 then u.value else Look(before.hist, jv, 2 * c)
        {
          LookWritten(before.hist, iv, k - 1, u, jv, 2 * c);
        }
      }
    }
  }

  // s' is s after the deltas h holds for the first n intervals of the source window.
  ghost predicate HasReceived(s: State, h: History, now: int, rows: nat, columns: nat, n: nat, s': State) {
    && s.now <= s'.now <= now
    && forall iv: int, c: nat ::
         Look(s'.hist, iv, 2 * c) ==
         if 0 <= iv - (now - rows + 1) < n && c < columns && Look(h, iv, 2 * c + 1).Num?
         then Accumulate(Look(s.hist, iv, 2 * c), Look(h, iv, 2 * c + 1))
         else Look(s.hist, iv, 2 * c)
  }

  lemma HasReceivedNext(s: State, h: History, now: int, rows: nat, columns: nat, n: nat, b: State)
    requires HasReceived(s, h, now, rows, columns, n, b) && n < rows
    ensures IsDirty(h, now - rows + 1 + n, columns) ==>
              HasReceived(s, h, now, rows, columns, n + 1,
                          Fed(b, rows, now - rows + 1 + n, Deltas(h, now - rows + 1 + n, columns), columns))
    ensures !IsDirty(h, now - rows + 1 + n, columns) ==> HasReceived(s, h, now, rows, columns, n + 1, b)
  {
    hide Look, Fed, Accumulate;
    var iv := now - rows + 1 + n;
    FedValues(b, rows, iv, Deltas(h, iv, columns), columns);
  }

  // What the lines for the first n intervals of the source window do to a replica that is
  // not ahead of the source.
  lemma {:induction false} FedOutputs(s: State, h: History, now: int, rows: nat, columns: nat, spr: nat, n: nat)
    requires rows > 0 && spr > 0 && n <= rows && s.now <= now && now >= rows - 1
    ensures HasReceived(s, h, now, rows, columns, n,
                        FedLines(s, rows, spr, Outputs(h, now - rows + 1, n, columns, spr)))
    decreases n
  {
    hide HasReceived, FedLines, Outputs;
    if n == 0 {
      NoOutput(s, h, now, rows, columns, spr);
    } else {
      FedOutputs(s, h, now, rows, columns, spr, n - 1);
      NextOutput(s, h, now, rows, columns, spr, n - 1);
    }
  }

  lemma NoOutput(s: State, h: History, now: int, rows: nat, columns: nat, spr: nat)
    requires spr > 0 && s.now <= now
    ensures HasReceived(s, h, now, rows, columns, 0,
                        FedLines(s, rows, spr, Outputs(h, now - rows + 1, 0, columns, spr)))
  {
    hide Look, Accumulate;
  }

  // The line of one more interval, if it has one.
  lemma NextOutput(s: State, h: History, now: int, rows: nat, columns: nat, spr: nat, n: nat)
    requires spr > 0 && n < rows && now >= rows - 1
    requires HasReceived(s, h, now, rows, columns, n,
                         FedLines(s, rows, spr, Outputs(h, now - rows + 1, n, columns, spr)))
    ensures HasReceived(s, h, now, rows, columns, n + 1,
                        FedLines(s, rows, spr, Outputs(h, now - rows + 1, n + 1, columns, spr)))
  {
    hide Look, Fed, Interval, Accumulate, IsDirty, HasReceived, FedLines;
    var lo, iv := now - rows + 1, now - rows + 1 + n;
    var before := Outputs(h, lo, n, columns, spr);
    HasReceivedNext(s, h, now, rows, columns, n, FedLines(s, rows, spr, before));
    if IsDirty(h, iv, columns) {
      FedNext(s, rows, spr, before, Line(iv * spr, Deltas(h, iv, columns)));
      IntervalOfStart(iv, spr);
    } else {
      assert before + [] == before;
    }
  }

  lemma FedNext(s: State, rows: nat, spr: nat, lines: seq<Line>, l: Line)
    requires spr > 0
    ensures FedLines(s, rows, spr, lines + [l]) ==
            Fed(FedLines(s, rows, spr, lines), rows, LineInterval(l, spr), l.deltas, |l.deltas|)
  {
    assert (lines + [l])[..|lines|] == lines;
  }

  // ---------------------------------------------------------------- the invariant

  // In column c the pending deltas of the source are exactly what the replica lacks.
  ghost predicate Synced(src: State, rep: State, rows: nat, c: nat) {
    && rep.now <= src.now
    && forall iv | InWindow(src.now, rows, iv) ::
         Owes(Look(src.hist, iv, 2 * c), Look(src.hist, iv, 2 * c + 1), Look(rep.hist, iv, 2 * c))
  }

  // The replica shows the values of the source, nil read as NaN.
  ghost predicate Agree(src: State, rep: State, rows: nat, c: nat) {
    forall iv | InWindow(src.now, rows, iv) ::
      Look(src.hist, iv, 2 * c) == if InWindow(rep.now, rows, iv) then Look(rep.hist, iv, 2 * c) else NaN
  }

  lemma SyncedAfterMove(src: State, rep: State, rows: nat, columns: nat, c: nat, iv: int)
    requires Synced(src, rep, rows, c) && Bounded(src.hist, src.now, columns) && Bounded(rep.hist, rep.now, columns)
    ensures Synced(Moved(src, iv), rep, rows, c)
  {
    hide Look;
    forall jv | jv > src.now
      ensures Look(src.hist, jv, 2 * c) == Look(src.hist, jv, 2 * c + 1) == Look(rep.hist, jv, 2 * c) == NaN
    {
      LookAhead(src.hist, src.now, columns, jv, 2 * c);
      LookAhead(src.hist, src.now, columns, jv, 2 * c + 1);
      LookAhead(rep.hist, rep.now, columns, jv, 2 * c);
    }
  }

  // Any add or set on the source, in whatever column and interval, keeps the invariant.
  lemma SyncedAfterUpdate(src: State, rep: State, rows: nat, columns: nat, c: nat,
                          iv: int, col: nat, kind: Kind, agg: Aggregation, x: Cell)
    requires Synced(src, rep, rows, c) && Bounded(src.hist, src.now, columns) && Bounded(rep.hist, rep.now, columns)
    requires col == c ==> agg == Sum
    ensures Synced(Applied(src, rows, iv, col, kind, agg, x), rep, rows, c)
  {
    hide Look, Owes, AddCell, SetCell, Written;
    SyncedAfterMove(src, rep, rows, columns, c, iv);
    var u, after := Change(src, iv, col, kind, agg, x), Applied(src, rows, iv, col, kind, agg, x);
    if iv > after.now - rows {
      forall jv | InWindow(after.now, rows, jv)
        ensures Owes(Look(after.hist, jv, 2 * c), Look(after.hist, jv, 2 * c + 1), Look(rep.hist, jv, 2 * c))
      {
        LookWritten(src.hist, iv, col, u, jv, 2 * c);
        LookWritten(src.hist, iv, col, u, jv, 2 * c + 1);
        if col == c && jv == iv {
          OwesAfterAdd(Look(src.hist, iv, 2 * c), Look(src.hist, iv, 2 * c + 1), Look(rep.hist, iv, 2 * c), x);
          OwesAfterSet(Look(src.hist, iv, 2 * c), Look(src.hist, iv, 2 * c + 1), Look(rep.hist, iv, 2 * c), x);
        }
      }
    }
  }

  // An output that reaches the replica settles everything.
  lemma SettledByOutput(src: State, rep: State, rows: nat, columns: nat, spr: nat, c: nat)
    requires Synced(src, rep, rows, c) && rows > 0 && spr > 0 && c < columns && src.now >= rows - 1
    requires Bounded(FedLines(rep, rows, spr, Outputs(src.hist, src.now - rows + 1, rows, columns, spr)).hist,
                     FedLines(rep, rows, spr, Outputs(src.hist, src.now - rows + 1, rows, columns, spr)).now, columns)
    ensures var src' := src.(hist := Settled(src.hist, src.now - rows + 1, src.now));
            var rep' := FedLines(rep, rows, spr, Outputs(src.hist, src.now - rows + 1, rows, columns, spr));
            Synced(src', rep', rows, c) && Agree(src', rep', rows, c)
  {
    hide Look, FedLines, Outputs, Settled, Bounded;
    var lo := src.now - rows + 1;
    var h := Settled(src.hist, lo, src.now);
    var rep' := FedLines(rep, rows, spr, Outputs(src.hist, lo, rows, columns, spr));
    FedOutputs(rep, src.hist, src.now, rows, columns, spr, rows);
    forall iv | InWindow(src.now, rows, iv)
      ensures Look(h, iv, 2 * c) == Look(rep'.hist, iv, 2 * c) && Look(h, iv, 2 * c + 1) == NaN
      ensures !InWindow(rep'.now, rows, iv) ==> Look(rep'.hist, iv, 2 * c) == NaN
    {
      LookSettled(src.hist, lo, src.now, iv, 2 * c);
      LookSettled(src.hist, lo, src.now, iv, 2 * c + 1);
      if iv > rep'.now { LookAhead(rep'.hist, rep'.now, columns, iv, 2 * c); }
      assert Look(rep'.hist, iv, 2 * c) ==
             if Look(src.hist, iv, 2 * c + 1).Num?
             then Accumulate(Look(rep.hist, iv, 2 * c), Look(src.hist, iv, 2 * c + 1))
             else Look(rep.hist, iv, 2 * c);
    }
  }

  // ---------------------------------------------------------------- the two buffers

  ghost predicate AllSum(b: CircularBuffer)
    reads b`aggregation
  {
    forall c | 0 <= c < |b.aggregation| :: b.aggregation[c] == Sum
  }

  // Add the deltas of one line to the replica, except those that are NaN.
  method FeedLine(dst: CircularBuffer, line: Line)
    requires dst.Valid() && AllSum(dst) && |line.deltas| == dst.columns
    modifies dst`currentTime, dst`currentRow, dst`now, dst`hist, dst.values
    ensures dst.Valid() && AllSum(dst)
    ensures dst.Abs() == Fed(old(dst.Abs()), dst.rows, LineInterval(line, dst.secondsPerRow), line.deltas, dst.columns)
  {
    hide CircularBuffer.Shows, CircularBuffer.Clocked, Bounded, Interval, Applied, Change;
    for c := 0 to dst.columns
      invariant dst.Valid() && AllSum(dst)
      invariant dst.Abs() == Fed(old(dst.Abs()), dst.rows, LineInterval(line, dst.secondsPerRow), line.deltas, c)
    {
      if line.deltas[c] != NaN {
        var reply := dst.Update(Adding, line.time as real * NS_PER_SECOND, c + 1, line.deltas[c]);
      }
    }
  }

  // Output the deltas of src and feed them to dst, in output order.
  method Publish(src: CircularBuffer, dst: CircularBuffer)
    requires src.Valid() && dst.Valid() && AllSum(dst) && src != dst && src.values != dst.values
    requires src.rows == dst.rows && src.columns == dst.columns && src.secondsPerRow == dst.secondsPerRow
    modifies src`hist, src.values, dst`currentTime, dst`currentRow, dst`now, dst`hist, dst.values
    ensures src.Valid() && dst.Valid() && AllSum(dst)
    ensures var lo := src.now - src.rows + 1;
            && src.Abs() == old(src.Abs()).(hist := Settled(old(src.hist), lo, src.now))
            && dst.Abs() == FedLines(old(dst.Abs()), dst.rows, dst.secondsPerRow,
                                     Outputs(old(src.hist), lo, src.rows, src.columns, src.secondsPerRow))
  {
    hide CircularBuffer.Shows, CircularBuffer.Clocked, Bounded, Fed, Settled, Outputs;
    var lines := src.OutputCbufd();
    OutputWidths(old(src.hist), src.now - src.rows + 1, src.rows, src.columns, src.secondsPerRow);
    for k := 0 to |lines|
      invariant src.Valid() && dst.Valid() && AllSum(dst)
      invariant src.Abs() == old(src.Abs()).(hist := Settled(old(src.hist), src.now - src.rows + 1, src.now))
      invariant dst.Abs() == FedLines(old(dst.Abs()), dst.rows, dst.secondsPerRow, lines[..k])
    {
      assert lines[..k + 1][..k] == lines[..k];
      FeedLine(dst, lines[k]);
    }
    assert lines[..|lines|] == lines;
  }

  lemma {:induction false} OutputWidths(h: History, lo: int, n: nat, columns: nat, spr: nat)
    ensures forall k | 0 <= k < |Outputs(h, lo, n, columns, spr)| ::
            |Outputs(h, lo, n, columns, spr)[k].deltas| == columns
    decreases n
  {
    if n > 0 { OutputWidths(h, lo, n - 1, columns, spr); }
  }

  // One call.  The columns of the source may be of any type; sum columns stay synchronised.
  method Perform(src: CircularBuffer, dst: CircularBuffer, call: Op, ghost c: nat)
    requires src.Valid() && dst.Valid() && AllSum(dst) && src != dst && src.values != dst.values
    requires src.rows == dst.rows && src.columns == dst.columns && src.secondsPerRow == dst.secondsPerRow
    requires c < src.columns && src.aggregation[c] == Sum
    requires Synced(src.Abs(), dst.Abs(), src.rows, c)
    modifies src`currentTime, src`currentRow, src`now, src`hist, src.values
    modifies dst`currentTime, dst`currentRow, dst`now, dst`hist, dst.values
    ensures src.Valid() && dst.Valid() && AllSum(dst)
    ensures src.Abs() == AfterOp(old(src.Abs()), src.rows, src.secondsPerRow, src.aggregation, call)
    ensures Synced(src.Abs(), dst.Abs(), src.rows, c)
    ensures call.Output? ==> Agree(src.Abs(), dst.Abs(), src.rows, c)
  {
    hide CircularBuffer.Shows, Synced, Agree, Bounded, FedLines, Settled, Outputs, Interval, Applied, Change;
    ghost var s, r := src.Abs(), dst.Abs();
    match call {
      case Write(kind, ns, column, value) =>
        ghost var iv := Interval(ns, src.secondsPerRow);
        var reply := src.Update(kind, ns, column, value);
        SyncedAfterMove(s, r, src.rows, src.columns, c, iv);
        if 1 <= column <= src.columns {
          SyncedAfterUpdate(s, r, src.rows, src.columns, c, iv, column - 1, kind, src.aggregation[column - 1], value);
        }
      case Output =>
        Publish(src, dst);
        SettledByOutput(s, r, src.rows, src.columns, src.secondsPerRow, c);
    }
  }

  // Any interleaving of adds, sets, advances and outputs: after every output the replica
  // agrees with the source in every sum column at every time in the source's window.
  method Session(rows: nat, columns: nat, spr: nat, types: seq<Aggregation>, calls: seq<Op>, ghost c: nat)
    returns (src: CircularBuffer, dst: CircularBuffer)
    requires 1 < rows && 0 < columns <= 256 && 0 < spr && |types| == columns
    requires c < columns && types[c] == Sum
    ensures src.Valid() && dst.Valid() && src.aggregation == types
    ensures src.Abs() == Reference(rows, spr, types, calls)
    ensures Synced(src.Abs(), dst.Abs(), rows, c)
    ensures calls != [] && calls[|calls| - 1].Output? ==> Agree(src.Abs(), dst.Abs(), rows, c)
  {
    hide CircularBuffer.Shows, Synced, Agree, Bounded;
    src := new CircularBuffer(rows, columns, spr);
    SetTypes(src, types);
    dst := new CircularBuffer(rows, columns, spr);
    BlankIsSynced(rows, c);
    for k := 0 to |calls|
      invariant src.Valid() && dst.Valid() && AllSum(dst) && src.aggregation == types
      invariant fresh(src) && fresh(dst) && fresh(src.values) && fresh(dst.values)
      invariant src.rows == rows && src.columns == columns && src.secondsPerRow == spr
      invariant src.Abs() == Reference(rows, spr, types, calls[..k])
      invariant Synced(src.Abs(), dst.Abs(), rows, c)
      invariant k > 0 && calls[k - 1].Output? ==> Agree(src.Abs(), dst.Abs(), rows, c)
    {
      assert calls[..k + 1][..k] == calls[..k];
      Perform(src, dst, calls[k], c);
    }
    assert calls[..|calls|] == calls;
  }

  lemma BlankIsSynced(rows: nat, c: nat)
    ensures Synced(State(rows - 1, map[]), State(rows - 1, map[]), rows, c)
  {
  }
}
