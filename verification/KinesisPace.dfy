// When a Kinesis consumer asks for what: shards in the order of their names, each left alone
// for a while after a request, the list of shards once an hour (aws/kinesis.cpp).

module KinesisPace {
  import opened Common
  import opened KinesisSpec
  import opened KinesisModel
  import opened KinesisInvariant
  import opened KinesisRun
  import Kinesis

  // ---------------------------------------------------------------- the order of names

  // a is the start of b, or the first character in which they differ is smaller in a.
  ghost predicate IsBefore(a: string, b: string) {
    exists k: nat :: DifferAt(a, b, k)
  }

  predicate DifferAt(a: string, b: string, k: nat) {
    k <= |a| && k < |b| && a[..k] == b[..k] && (k == |a| || a[k] < b[k])
  }

  lemma {:induction false} LessIff(a: string, b: string)
    ensures Less(a, b) <==> IsBefore(a, b)
    decreases |a|
  {
    if b == "" || a == "" || a[0] < b[0] {
      assert b != "" ==> DifferAt(a, b, 0);
    } else {
      var c, d := a[1..], b[1..];
      LessIff(c, d);
      if a[0] == b[0] && IsBefore(c, d) {
        var k: nat :| DifferAt(c, d, k);
        assert a[..k + 1] == [a[0]] + c[..k] && b[..k + 1] == [b[0]] + d[..k];
        assert DifferAt(a, b, k + 1);
      }
      if IsBefore(a, b) {
        var k: nat :| DifferAt(a, b, k);
        assert k > 0 ==> a[..k][0] == b[..k][0];
        assert k > 0 ==> c[..k - 1] == a[..k][1..] && d[..k - 1] == b[..k][1..];
        assert k > 0 ==> DifferAt(c, d, k - 1);
      }
    }
  }

  lemma {:induction false} LessTransitive(a: string, b: string, c: string)
    requires Less(a, b) && Less(b, c)
    ensures Less(a, c)
    decreases |a|
  {
    if a != "" && a[0] == b[0] && b[0] == c[0] { LessTransitive(a[1..], b[1..], c[1..]); }
  }

  lemma {:induction false} LessTotal(a: string, b: string)
    ensures Less(a, b) || Less(b, a) || a == b
    decreases |a|
  {
    if a != "" && b != "" && a[0] == b[0] {
      LessTotal(a[1..], b[1..]);
      assert a == [a[0]] + a[1..] && b == [b[0]] + b[1..];
    }
  }

  ghost predicate IsSorted(order: seq<string>) {
    forall i, j | 0 <= i < j < |order| :: Less(order[i], order[j])
  }

  ghost predicate IsBelow(id: string, order: seq<string>) {
    forall i | 0 <= i < |order| :: Less(id, order[i])
  }

  lemma SortedCons(id: string, rest: seq<string>)
    ensures IsSorted([id] + rest) <==> IsBelow(id, rest) && IsSorted(rest)
  {
    hide Less;
    var all := [id] + rest;
    assert forall i | 0 <= i < |rest| :: all[i + 1] == rest[i];
    if IsSorted(all) {
      forall i | 0 <= i < |rest| ensures Less(id, rest[i]) { assert Less(all[0], all[i + 1]); }
      forall i, j | 0 <= i < j < |rest| ensures Less(rest[i], rest[j]) { assert Less(all[i + 1], all[j + 1]); }
    }
  }

  lemma BelowAll(id: string, first: string, rest: seq<string>)
    requires Less(id, first) && IsBelow(first, rest)
    ensures IsBelow(id, [first] + rest)
  {
    hide Less;
    forall i | 0 <= i < |rest| ensures Less(id, rest[i]) { LessTransitive(id, first, rest[i]); }
  }

  lemma BelowInserted(id: string, order: seq<string>, x: string)
    requires IsBelow(id, order) && Less(id, x)
    ensures IsBelow(id, Inserted(order, x))
  {
    hide Less, Inserted;
    var r := Inserted(order, x);
    forall i | 0 <= i < |r| ensures Less(id, r[i]) {
      assert r[i] in multiset(r);
      assert r[i] == x || r[i] in order;
    }
  }

  lemma {:induction false} InsertedIsSorted(order: seq<string>, id: string)
    requires IsSorted(order) && id !in order
    ensures IsSorted(Inserted(order, id))
    decreases |order|
  {
    if order != [] {
      hide Less, IsSorted, IsBelow;
      var first, rest := order[0], order[1..];
      assert order == [first] + rest;
      SortedCons(first, rest);
      LessTotal(id, first);
      if Less(id, first) {
        BelowAll(id, first, rest);
        SortedCons(id, order);
      } else {
        InsertedIsSorted(rest, id);
        BelowInserted(first, rest, id);
        SortedCons(first, Inserted(rest, id));
      }
    }
  }

  lemma {:induction false} JoinedIsSorted(order: seq<string>, listed: seq<string>)
    requires IsSorted(order)
    ensures IsSorted(Joined(order, listed))
    decreases |listed|
  {
    hide IsSorted, Inserted;
    if listed != [] {
      if listed[0] !in order { InsertedIsSorted(order, listed[0]); }
      JoinedIsSorted(if listed[0] in order then order else Inserted(order, listed[0]), listed[1..]);
    }
  }

  lemma {:induction false} KeptIsSorted(order: seq<string>, listed: seq<string>)
    requires IsSorted(order)
    ensures IsSorted(Kept(order, listed))
    decreases |order|
  {
    if order != [] {
      hide IsSorted, Less;
      var first, rest := order[0], order[1..];
      assert order == [first] + rest;
      SortedCons(first, rest);
      KeptIsSorted(rest, listed);
      var kept := Kept(rest, listed);
      BelowKept(first, rest, listed);
      SortedCons(first, kept);
      assert [] + kept == kept;
    }
  }

  lemma BelowKept(id: string, order: seq<string>, listed: seq<string>)
    requires IsBelow(id, order)
    ensures IsBelow(id, Kept(order, listed))
  {
    hide Less;
    var kept := Kept(order, listed);
    forall i | 0 <= i < |kept| ensures Less(id, kept[i]) { assert kept[i] in kept; }
  }

  lemma {:induction false} EnteredIsSorted(text: string, order: seq<string>)
    requires IsSorted(order)
    ensures IsSorted(Entered(text, order))
    decreases |text|
  {
    hide IsSorted, Inserted, IsLine, LineId, More;
    if IsLine(text) {
      LineIsShorter(text);
      if LineId(text) !in order { InsertedIsSorted(order, LineId(text)); }
      EnteredIsSorted(More(text), if LineId(text) in order then order else Inserted(order, LineId(text)));
    }
  }

  lemma LineIsShorter(text: string)
    requires IsLine(text)
    ensures |More(text)| < |text|
  {
  }

  lemma LookIsSorted(ty: IteratorType, s: Stream, st: State, sc: Script, retries: nat)
    requires IsSorted(st.order)
    ensures IsSorted(Look(ty, s, st, sc, retries).state.order)
  {
    hide IsSorted;
    JoinedIsSorted(st.order, s.listed);
    KeptIsSorted(Joined(st.order, s.listed), s.listed);
  }

  lemma ReceiveIsSorted(ty: IteratorType, s: Stream, st: State, time: int, sc: Script)
    requires IsSorted(st.order)
    ensures IsSorted(KinesisModel.Receive(ty, s, st, time, sc).state.order)
  {
    hide IsSorted, Look, Round;
    LookIsSorted(ty, s, st, sc, 0);
  }

  // The shards are gone through, and written to a checkpoint, in the order of their names.
  lemma {:induction false} ShardsAreSorted(ty: IteratorType, events: seq<Event>)
    ensures var r := RunOf(ty, events); r.state.Some? ==> IsSorted(r.state.value.order)
    decreases |events|
  {
    if events != [] {
      hide IsSorted, After, KinesisModel.Receive, Look, Parse, Entered, Collected;
      var init, e := events[..|events| - 1], events[|events| - 1];
      ShardsAreSorted(ty, init);
      var r := RunOf(ty, init);
      var s := After(r.stream, e);
      match e
      case Call(time, sc) =>
        if r.state.Some? { ReceiveIsSorted(ty, s, r.state.value, time, sc); }
      case Restart(time, sc) => OpenedIsSorted(ty, s, r.saved, time, sc);
      case _ =>
    }
  }

  lemma OpenedIsSorted(ty: IteratorType, s: Stream, text: string, time: int, sc: Script)
    ensures var st := Opened(ty, s, text, time, sc); st.Some? ==> IsSorted(st.value.order)
  {
    hide IsSorted, Look, Parse, Entered;
    NothingIsSorted();
    EnteredIsSorted(text, []);
    if Parse(text).Some? {
      LookIsSorted(ty, s, State(Unread(Parse(text).value), Entered(text, []), None, time), sc, 10);
    }
  }

  lemma NothingIsSorted()
    ensures IsSorted([])
  {
  }

  // ---------------------------------------------------------------- time

  // ---------------------------------------------------------------- an erased cursor

  // The first of a list that is in another.
  ghost predicate IsFirstIn(ids: seq<string>, listed: seq<string>, id: string) {
    exists j | 0 <= j < |ids| :: ids[j] == id && id in listed && forall i | 0 <= i < j :: ids[i] !in listed
  }

  lemma {:induction false} FirstKept(ids: seq<string>, listed: seq<string>, id: string)
    ensures Kept(ids, listed) != [] && Kept(ids, listed)[0] == id <==> IsFirstIn(ids, listed, id)
    decreases |ids|
  {
    if ids != [] {
      FirstKept(ids[1..], listed, id);
      if ids[0] !in listed {
        forall j | 0 <= j < |ids| && ids[j] == id && id in listed && forall i | 0 <= i < j :: ids[i] !in listed
          ensures IsFirstIn(ids[1..], listed, id) {
          assert ids[1..][j - 1] == id;
          forall i | 0 <= i < j - 1 ensures ids[1..][i] !in listed { assert ids[1..][i] == ids[i + 1]; }
        }
        forall j | 0 <= j < |ids| - 1 && ids[1..][j] == id && id in listed &&
                   forall i | 0 <= i < j :: ids[1..][i] !in listed
          ensures IsFirstIn(ids, listed, id) {
          assert ids[j + 1] == id;
          forall i | 0 <= i < j + 1 ensures ids[i] !in listed { if i > 0 { assert ids[1..][i - 1] == ids[i]; } }
        }
      } else if ids[0] == id {
        assert IsFirstIn(ids, listed, id);
      }
    }
  }

  // A cursor whose shard is still listed stays, and one whose shard is not goes to the next
  // shard behind it that is, or to none.
  lemma CursorMovesOn(before: seq<string>, at: string, behind: seq<string>, listed: seq<string>, id: string)
    requires IsDistinct(before + [at] + behind)
    ensures KeptCursor(before + [at] + behind, Some(at), listed) == Some(id) <==>
            if at in listed then id == at else IsFirstIn(behind, listed, id)
  {
    hide PlaceOf, Kept;
    var order := before + [at] + behind;
    Kinesis.PlaceOfDistinct(order, |before|);
    assert order[|before|] == at && order[|before| + 1..] == behind;
    FirstKept(behind, listed, id);
  }

  // The pause grows with the amount of data: a second for every two megabytes begun, five at
  // most.
  lemma PauseIs(recs: Log)
    ensures var k, mb := Pause(recs), 1048576;
            && 1 <= k <= 5 && 2 * mb * (k - 1) <= Volume(recs)
            && (k < 5 ==> Volume(recs) < 2 * mb * k)
  {
    assert Volume([]) == 0;
  }

  lemma {:induction false} VolumeIs(a: Log, b: Log)
    ensures Volume(a + b) == Volume(a) + Volume(b)
    decreases |a|
  {
    if a == [] {
      assert a + b == b;
    } else {
      assert (a + b)[1..] == a[1..] + b && (a + b)[0] == a[0];
      VolumeIs(a[1..], b);
    }
  }

  // Records are asked for only when the time for the shard has come, give or take a
  // millisecond, and afterwards the shard is left alone for one to five seconds.
  lemma ReadsArePaced(ty: IteratorType, s: Stream, st: State, time: int, sc: Script)
    requires IsOrdered(st)
    ensures var l, c := Refreshed(ty, s, st, time, sc), KinesisModel.Receive(ty, s, st, time, sc);
            l.code != 1 && Round(ty, s, l.state, sc).chosen == Some(c.from) ==>
              && c.from in l.state.shards && c.from in c.state.shards
              && sc.clock(c.from) >= l.state.shards[c.from].nextRequest - 1
              && sc.later(c.from) + 1000 <= c.state.shards[c.from].nextRequest <= sc.later(c.from) + 5000
  {
    hide Visited, Refreshed, Round, IsOrdered, Answered;
    var l := Refreshed(ty, s, st, time, sc);
    if l.code != 1 {
      RelistIsOrderedToo(ty, s, st, time, sc);
      RoundKeys(ty, s, l.state, sc);
      var p := Round(ty, s, l.state, sc);
      if p.chosen.Some? {
        ChosenIsDue(ty, s, l.state, sc);
        ReadLater(s, AfterRound(l.state, p), p.chosen.value, sc);
      }
    }
  }

  lemma ChosenIsDue(ty: IteratorType, s: Stream, st: State, sc: Script)
    requires IsOrdered(st)
    ensures var p := Round(ty, s, st, sc);
            p.chosen.Some? ==>
              p.chosen.value in st.shards && sc.clock(p.chosen.value) >= st.shards[p.chosen.value].nextRequest - 1
  {
    hide Visited, Rotation, IsOrdered, FirstReady;
    var queue := Rotation(st.order, st.cursor);
    RotationFacts(st);
    var n := RoundIsFair(ty, s, st.shards, queue, sc);
  }

  lemma ReadLater(s: Stream, st: State, id: string, sc: Script)
    requires id in st.shards && st.shards[id].it.Some?
    ensures var r := Answered(s, st, id, sc);
            id in r.state.shards
            && sc.later(id) + 1000 <= r.state.shards[id].nextRequest <= sc.later(id) + 5000
  {
    hide GetRecords, Text, Pause;
  }

  lemma RelistIsOrderedToo(ty: IteratorType, s: Stream, st: State, time: int, sc: Script)
    requires IsOrdered(st)
    ensures IsOrdered(Refreshed(ty, s, st, time, sc).state)
  {
    hide Relist;
    RelistIsOrdered(ty, s, st, sc);
  }

  // The list of shards is looked at when the last look was more than an hour ago, or the
  // clock went back, or a shard has ended since.
  lemma LooksHourly(ty: IteratorType, s: Stream, st: State, time: int, sc: Script)
    ensures st.refresh <= time <= st.refresh + 3600 ==> Refreshed(ty, s, st, time, sc) == Looked(st, 0)
    ensures var l := Refreshed(ty, s, st, time, sc);
            time > st.refresh + 3600 && l.code == 0 ==> l.state.refresh == time
  {
    hide Look;
  }

  // ---------------------------------------------------------------- answers

  // An iterator that has expired is not used again, and one that was refused for another
  // reason is; a call fails only when records are refused for good for such a reason; and a
  // shard is closed exactly when its last record was read.
  lemma AnswersAreTaken(s: Stream, st: State, id: string, sc: Script)
    requires IsStream(s) && id in s.log && id in st.shards && st.shards[id].it.Some?
    requires st.shards[id].it.value.shard == id && st.shards[id].it.value.pos <= |s.log[id]|
    ensures var was, a, r := st.shards[id], sc.batch, Answered(s, st, id, sc);
            var now, p := r.state.shards[id], st.shards[id].it.value.pos;
            && (a.Refuse? ==> now.it == if a.kind == Expired then None else was.it)
            && (r.reply == Thrown <==> a.Refuse? && a.kind == Other && !a.shouldRetry)
            && (a.Grant? ==>
                  var n := if p + a.size < |s.log[id]| then p + a.size else |s.log[id]|;
                  && r.reply.data == s.log[id][p..n]
                  && (now.it == None <==> id in s.closed && n == |s.log[id]|)
                  && (now.it.Some? ==> now.it.value == Iterator(id, n)))
  {
    hide IsStream, Text, Pause;
  }
}
