// Where a Kinesis consumer starts to read a shard: at the place the service grants for the
// iterator type it was made with (aws/kinesis.cpp).

module KinesisStart {
  import opened Common
  import opened KinesisSpec
  import opened KinesisModel
  import opened KinesisInvariant
  import opened KinesisRun

  // The place an iterator type stands for in a log of a length; a time is a place the
  // service chooses.
  function PlaceFor(ty: IteratorType, length: nat, a: Answer): nat
    requires a.Grant?
  {
    match ty
    case TrimHorizon => 0
    case Latest => length
    case AtTimestamp(time) => if a.size < length then a.size else length
    case AfterSequenceNumber(n) => 0
  }

  type Starts = map<string, nat>

  // Between two states a shard of which nothing is known has got an iterator: when it was
  // taken up, or later in a round.
  predicate HasStarted(before: Shards, after: Shards, id: string) {
    && id in after && after[id].it.Some? && after[id].sequenceId == ""
    && (id in before ==> before[id].it == None)
  }

  function AnswerFor(before: Shards, id: string, sc: Script): Answer {
    if id !in before && sc.listed(id).Grant? then sc.listed(id) else sc.renewed(id)
  }

  function LengthOf(s: Stream, id: string): nat {
    if id in s.log then |s.log[id]| else 0
  }

  // The places shards are read from, after some have started.
  function Started(ty: IteratorType, s: Stream, before: Shards, after: Shards, sc: Script,
      start: Starts): (start': Starts)
    ensures forall id ::
              if HasStarted(before, after, id) && AnswerFor(before, id, sc).Grant?
              then id in start' && start'[id] == PlaceFor(ty, LengthOf(s, id), AnswerFor(before, id, sc))
              else (id in start' <==> id in start) && (id in start ==> start'[id] == start[id])
  {
    map id | id in start.Keys + after.Keys
             && (id in start || (HasStarted(before, after, id) && AnswerFor(before, id, sc).Grant?)) ::
      if HasStarted(before, after, id) && AnswerFor(before, id, sc).Grant?
      then PlaceFor(ty, LengthOf(s, id), AnswerFor(before, id, sc))
      else start[id]
  }

  // The shards of a call when its round is over and nothing has been read yet.
  ghost function AtRead(ty: IteratorType, s: Stream, st: State, time: int, sc: Script): Shards {
    var l := Refreshed(ty, s, st, time, sc);
    if l.code == 1 then l.state.shards else Round(ty, s, l.state, sc).shards
  }

  // The places now, and those that go with the last checkpoint.
  datatype Begun = Begun(start: Starts, saved: Starts)

  ghost function StartOf(ty: IteratorType, events: seq<Event>): (b: Begun) {
    if events == [] then Begun(map[], map[])
    else NextStart(ty, RunOf(ty, events[..|events| - 1]), StartOf(ty, events[..|events| - 1]), events[|events| - 1])
  }

  ghost function NextStart(ty: IteratorType, r: Run, b: Begun, e: Event): Begun {
    var s := After(r.stream, e);
    match e
    case Call(time, sc) =>
      if r.state == None then b
      else
        var st := r.state.value;
        var start := Started(ty, s, st.shards, AtRead(ty, s, st, time, sc), sc, b.start);
        Begun(start, if DataIn(KinesisModel.Receive(ty, s, st, time, sc).reply) == [] then b.saved else start)
    case Restart(time, sc) =>
      var st := Opened(ty, s, r.saved, time, sc);
      Begun(if st == None || Parse(r.saved) == None then b.saved
            else Started(ty, s, Unread(Parse(r.saved).value), st.value.shards, sc, b.saved), b.saved)
    case _ => b
  }

  // ---------------------------------------------------------------- one shard

  // d is what follows the start in the log.
  predicate IsFromStart(d: Log, l: Log, id: string, start: Starts) {
    d != [] ==> id in start && start[id] + |d| <= |l| && d == l[start[id]..start[id] + |d|]
  }

  // An iterator stands behind what was returned, or at the start when nothing was.
  predicate IsFrom(sh: Shard, d: Log, l: Log, id: string, start: Starts) {
    && IsFromStart(d, l, id, start)
    && (sh.it.Some? && sh.sequenceId != CLOSED ==> id in start && sh.it.value.pos == start[id] + |d|)
  }

  lemma EndIsUnique(l: Log, d: Log, end: nat, p: nat)
    requires IsLog(l) && d != [] && |d| <= end <= |l| && p + |d| <= |l|
    requires d == l[end - |d|..end] && d == l[p..p + |d|]
    ensures end == p + |d|
  {
    assert d[0] == l[end - |d|] && d[0] == l[p];
  }

  lemma FineIsAtStart(sh: Shard, id: string, d: Log, l: Log, closed: bool, horizon: bool, end: nat, start: Starts)
    requires IsLog(l) && IsFineAt(sh, id, d, l, closed, horizon, end) && IsFromStart(d, l, id, start) && d != []
    ensures id in start && end == start[id] + |d|
  {
    EndIsUnique(l, d, end, start[id]);
  }

  // A renewal goes to the place the type stands for when nothing is known of the shard, and
  // otherwise right behind what was returned.
  lemma VisitedIsFrom(ty: IteratorType, s: Stream, id: string, sh: Shard, sc: Script, d: Log, start: Starts,
      start': Starts)
    requires IsStream(s) && id in s.log && !ty.AfterSequenceNumber?
    requires IsFine(sh, id, d, s.log[id], id in s.closed, ty == TrimHorizon) && IsFrom(sh, d, s.log[id], id, start)
    requires var sh' := Visited(ty, s, id, sh, sc);
             if sh.it == None && sh'.it.Some? && sh'.sequenceId == "" && sc.renewed(id).Grant?
             then id in start' && start'[id] == PlaceFor(ty, |s.log[id]|, sc.renewed(id))
             else (id in start' <==> id in start) && (id in start ==> start'[id] == start[id])
    ensures var lost := sh.sequenceId != "" && Visited(ty, s, id, sh, sc).sequenceId == "";
            IsFrom(Visited(ty, s, id, sh, sc), if lost then [] else d, s.log[id], id, start')
  {
    hide IsStream, IsLog, StandsAt, IndexOf;
    var l, closed, horizon := s.log[id], id in s.closed, ty == TrimHorizon;
    LogOf(s, id);
    var end: nat :| IsFineAt(sh, id, d, l, closed, horizon, end);
    if IsAsked(id, sh, sc) {
      NoIdNothing(d, l, sh.sequenceId, closed, horizon, end);
      ResumedPlace(ty, s, id, sh.sequenceId, sc.renewed(id), d, end);
      if d != [] { FineIsAtStart(sh, id, d, l, closed, horizon, end, start); }
    }
  }

  lemma NoIdNothing(d: Log, l: Log, id: string, closed: bool, horizon: bool, end: nat)
    requires StandsAt(d, l, id, closed, horizon, end) && id != CLOSED
    ensures id == "" <==> d == []
  {
  }

  lemma NewHasIterator(ty: IteratorType, s: Stream, id: string, sc: Script)
    requires id in s.log && !ty.AfterSequenceNumber?
    ensures var sh := NewShard(ty, s, id, sc);
            && sh.sequenceId == "" && (sh.it.Some? <==> sc.listed(id).Grant?)
            && (sh.it.Some? ==> sh.it.value.pos == PlaceFor(ty, |s.log[id]|, sc.listed(id)))
  {
  }

  // A batch continues from the start.
  lemma BatchIsFrom(s: Stream, id: string, sh: Shard, a: Answer, behind: nat, later: int, d: Log, start: Starts)
    requires id in s.log && sh.it.Some? && sh.it.value.shard == id && sh.sequenceId != CLOSED
    requires IsFrom(sh, d, s.log[id], id, start) && sh.it.value.pos <= |s.log[id]|
    ensures var o := GetRecords(s, sh.it.value, a, behind);
            IsFrom(ShardAfter(sh, o, later), if o.Success? then d + o.result.records else d, s.log[id], id, start)
  {
    hide GetRecords, SequenceAfter, Pause;
    BatchFacts(s, sh.it.value, a, behind);
    var o := GetRecords(s, sh.it.value, a, behind);
    if o.Success? {
      var l, p, b := s.log[id], start[id], o.result;
      assert d == l[p..p + |d|];
      assert d + b.records == l[p..p + |d + b.records|];
    }
  }

  lemma FromWhenGrown(sh: Shard, d: Log, l: Log, l': Log, id: string, start: Starts)
    requires IsFrom(sh, d, l, id, start) && l <= l'
    ensures IsFrom(sh, d, l', id, start)
  {
    if d != [] { assert l'[..|l|] == l; }
  }

  // ---------------------------------------------------------------- all shards

  ghost predicate SinceFrom(s: Stream, since: Sent, start: Starts) {
    forall id | id in s.log :: IsFromStart(SentOf(since, id), s.log[id], id, start)
  }

  ghost predicate AllFrom(shards: Shards, s: Stream, since: Sent, start: Starts) {
    && (forall id | id in shards :: id in s.log && IsFrom(shards[id], SentOf(since, id), s.log[id], id, start))
    && SinceFrom(s, since, start)
  }

  lemma SinceFromWhenGrown(s: Stream, t: Stream, since: Sent, start: Starts)
    requires Grown(s, t) && SinceFrom(s, since, start) && OnlyExisting(s, since)
    ensures SinceFrom(t, since, start)
  {
    hide IsStream;
    forall id | id in t.log ensures IsFromStart(SentOf(since, id), t.log[id], id, start) {
      if id in s.log && SentOf(since, id) != [] {
        assert t.log[id][..|s.log[id]|] == s.log[id];
      }
    }
  }

  lemma AllFromWhenGrown(shards: Shards, s: Stream, t: Stream, since: Sent, start: Starts)
    requires Grown(s, t) && AllFrom(shards, s, since, start) && OnlyExisting(s, since)
    ensures AllFrom(shards, t, since, start)
  {
    hide IsStream, IsFrom, SinceFrom;
    SinceFromWhenGrown(s, t, since, start);
    forall id | id in shards
      ensures id in t.log && IsFrom(shards[id], SentOf(since, id), t.log[id], id, start)
    {
      FromWhenGrown(shards[id], SentOf(since, id), s.log[id], t.log[id], id, start);
    }
  }

  // One shard x of the shards after a look at the list, and what a round makes of it.
  lemma ShardIsFrom(ty: IteratorType, s: Stream, before: Shards, id: string, x: Shard, y: Shard, sc: Script,
                    d: Log, start: Starts, start': Starts)
    requires IsStream(s) && id in s.log && !ty.AfterSequenceNumber?
    requires if id in before
             then x.it == before[id].it && x.sequenceId == before[id].sequenceId
                  && IsFrom(before[id], d, s.log[id], id, start)
             else x == NewShard(ty, s, id, sc) && d == []
    requires IsFine(x, id, d, s.log[id], id in s.closed, ty == TrimHorizon)
    requires y == x || y == Visited(ty, s, id, x, sc)
    requires var started := y.it.Some? && y.sequenceId == "" && (id in before ==> before[id].it == None);
             if started && AnswerFor(before, id, sc).Grant?
             then id in start' && start'[id] == PlaceFor(ty, |s.log[id]|, AnswerFor(before, id, sc))
             else (id in start' <==> id in start) && (id in start ==> start'[id] == start[id])
    ensures var lost := x.sequenceId != "" && y.sequenceId == "";
            IsFrom(y, if lost then [] else d, s.log[id], id, start')
  {
    hide IsStream, IsFine, Visited, NewShard;
    if id !in before { NewHasIterator(ty, s, id, sc); }
    WithIterator(ty, s, id, x, sc);
    RenewedByGrant(ty, s, id, x, sc);
    if y != x || x.it == None {
      if y == Visited(ty, s, id, x, sc) {
        VisitedIsFrom(ty, s, id, x, sc, d, start, start');
      }
    }
  }

  // A shard with an iterator is left alone by a round.
  lemma WithIterator(ty: IteratorType, s: Stream, id: string, sh: Shard, sc: Script)
    ensures sh.it.Some? ==> Visited(ty, s, id, sh, sc) == sh
  {
  }

  lemma RenewedByGrant(ty: IteratorType, s: Stream, id: string, sh: Shard, sc: Script)
    ensures sh.it == None && Visited(ty, s, id, sh, sc).it.Some? ==> sc.renewed(id).Grant?
  {
  }

  // ---------------------------------------------------------------- a call

  lemma RelistedShard(ty: IteratorType, s: Stream, st: State, sc: Script, retries: nat, id: string)
    requires id in Look(ty, s, st, sc, retries).state.shards
    ensures var x := Look(ty, s, st, sc, retries).state.shards[id];
            if id in st.shards then x.it == st.shards[id].it && x.sequenceId == st.shards[id].sequenceId
            else id in s.listed && x == NewShard(ty, s, id, sc)
  {
    hide ListCode, NewShard;
  }

  lemma RefreshedShard(ty: IteratorType, s: Stream, st: State, time: int, sc: Script, id: string)
    requires id in Refreshed(ty, s, st, time, sc).state.shards
    ensures var x := Refreshed(ty, s, st, time, sc).state.shards[id];
            if id in st.shards then x.it == st.shards[id].it && x.sequenceId == st.shards[id].sequenceId
            else id in s.listed && x == NewShard(ty, s, id, sc)
  {
    hide Look, NewShard;
    if IsDue(st.refresh, time) { RelistedShard(ty, s, st, sc, 0, id); }
  }

  lemma RoundShard(ty: IteratorType, s: Stream, st: State, sc: Script, id: string)
    requires IsOrdered(st) && id in st.shards
    ensures var p := Round(ty, s, st, sc);
            p.shards.Keys == st.shards.Keys
            && (p.shards[id] == st.shards[id] || p.shards[id] == Visited(ty, s, id, st.shards[id], sc))
  {
    hide Visited, IsReady, FirstReady, Rotation, IsOrdered;
    var queue := Rotation(st.order, st.cursor);
    RotationFacts(st);
    var n := RoundIsFair(ty, s, st.shards, queue, sc);
    if id in queue[..n] {
      var i :| 0 <= i < n && queue[i] == id;
    }
  }

  lemma NotTakenUp(shards: Shards, s: Stream, since: Sent, horizon: bool, id: string)
    requires IsGood(shards, s, since, horizon) && id !in shards && id in s.listed && id in s.log
    ensures SentOf(since, id) == []
  {
  }

  lemma ReadShardIsFrom(ty: IteratorType, s: Stream, st: State, time: int, sc: Script, since: Sent, start: Starts,
      id: string)
    requires IsKept(ty, s, st, since) && AllFrom(st.shards, s, since, start) && id in AtRead(ty, s, st, time, sc)
    ensures id in s.log
    ensures var y := AtRead(ty, s, st, time, sc)[id];
            var d := SentOf(Dropped(since, KinesisModel.Receive(ty, s, st, time, sc).lost), id);
            IsFrom(y, d, s.log[id], id, Started(ty, s, st.shards, AtRead(ty, s, st, time, sc), sc, start))
  {
    hide IsStream, IsGood, IsOrdered, IsFine, IsFrom, Refreshed, Round, Visited, NewShard, Answered, Started,
         SinceFrom, AnswerFor;
    var l := Refreshed(ty, s, st, time, sc);
    var start' := Started(ty, s, st.shards, AtRead(ty, s, st, time, sc), sc, start);
    RefreshedIsKept(ty, s, st, time, sc, since);
    if l.code != 1 {
      assert id in Round(ty, s, l.state, sc).shards;
      RoundKeysAre(ty, s, l.state, sc);
      RoundShard(ty, s, l.state, sc, id);
    }
    RefreshedShard(ty, s, st, time, sc, id);
    GoodShard(l.state.shards, id, s, since, ty == TrimHorizon);
    if id !in st.shards { NotTakenUp(st.shards, s, since, ty == TrimHorizon, id); }
    var x, y := l.state.shards[id], AtRead(ty, s, st, time, sc)[id];
    ShardIsFrom(ty, s, st.shards, id, x, y, sc, SentOf(since, id), start, start');
  }

  lemma RoundKeysAre(ty: IteratorType, s: Stream, st: State, sc: Script)
    ensures Round(ty, s, st, sc).shards.Keys == st.shards.Keys
  {
  }

  // Before anything is read every shard is read from where it started.
  lemma AtReadIsFrom(ty: IteratorType, s: Stream, st: State, time: int, sc: Script, since: Sent, start: Starts)
    requires IsKept(ty, s, st, since) && AllFrom(st.shards, s, since, start)
    ensures var now := Dropped(since, KinesisModel.Receive(ty, s, st, time, sc).lost);
            var shards := AtRead(ty, s, st, time, sc);
            AllFrom(shards, s, now, Started(ty, s, st.shards, shards, sc, start))
  {
    hide IsKept, IsFrom, KinesisModel.Receive, AtRead, Started, HasStarted, AnswerFor;
    var shards := AtRead(ty, s, st, time, sc);
    var now := Dropped(since, KinesisModel.Receive(ty, s, st, time, sc).lost);
    var start' := Started(ty, s, st.shards, shards, sc, start);
    forall id | id in shards ensures id in s.log && IsFrom(shards[id], SentOf(now, id), s.log[id], id, start') {
      ReadShardIsFrom(ty, s, st, time, sc, since, start, id);
    }
    forall id | id in s.log ensures IsFromStart(SentOf(now, id), s.log[id], id, start') {
      if id in shards {
        FromIsFromStart(shards[id], SentOf(now, id), s.log[id], id, start');
      } else {
        NotStarted(st.shards, shards, id);
      }
    }
  }

  lemma FromIsFromStart(sh: Shard, d: Log, l: Log, id: string, start: Starts)
    requires IsFrom(sh, d, l, id, start)
    ensures IsFromStart(d, l, id, start)
  {
  }

  lemma NotStarted(before: Shards, after: Shards, id: string)
    requires id !in after
    ensures !HasStarted(before, after, id)
  {
  }

  // What a call returns follows what was returned since the shard was started.
  lemma ReceiveIsFrom(ty: IteratorType, s: Stream, st: State, time: int, sc: Script, since: Sent, start: Starts)
    requires IsKept(ty, s, st, since) && AllFrom(st.shards, s, since, start)
    ensures var c := KinesisModel.Receive(ty, s, st, time, sc);
            var now := Delivered(Dropped(since, c.lost), c.from, DataIn(c.reply));
            AllFrom(c.state.shards, s, now, Started(ty, s, st.shards, AtRead(ty, s, st, time, sc), sc, start))
  {
    hide IsStream, IsGood, IsFine, IsFrom, Refreshed, Round, GetRecords, ShardAfter, Text, Started, AllFrom, IsOrdered;
    var l := Refreshed(ty, s, st, time, sc);
    var start' := Started(ty, s, st.shards, AtRead(ty, s, st, time, sc), sc, start);
    AtReadIsFrom(ty, s, st, time, sc, since, start);
    if l.code != 1 {
      var p := Round(ty, s, l.state, sc);
      RefreshedIsKept(ty, s, st, time, sc, since);
      RoundIsGood(ty, s, l.state, sc, since);
      RoundKeys(ty, s, l.state, sc);
      if p.chosen.Some? {
        var id, now := p.chosen.value, Dropped(since, GivenUp(l.state.shards, p.shards));
        var sh := p.shards[id];
        GoodShard(p.shards, id, s, now, ty == TrimHorizon);
        OwnIterator(sh, id, SentOf(now, id), s.log[id], id in s.closed, ty == TrimHorizon);
        AllFromShard(p.shards, s, now, start', id);
        BatchIsFrom(s, id, sh, sc.batch, sc.behind, sc.later(id), SentOf(now, id), start');
        var o := GetRecords(s, sh.it.value, sc.batch, sc.behind);
        var recs := if o.Success? then o.result.records else [];
        assert SentOf(now, id) + [] == SentOf(now, id);
        OneShardFrom(p.shards, s, now, start', id, ShardAfter(sh, o, sc.later(id)), recs);
      }
    }
  }

  lemma OwnIterator(sh: Shard, id: string, d: Log, l: Log, closed: bool, horizon: bool)
    requires IsFine(sh, id, d, l, closed, horizon) && sh.it.Some?
    ensures sh.it.value.shard == id && sh.it.value.pos <= |l|
  {
  }

  lemma AllFromShard(shards: Shards, s: Stream, since: Sent, start: Starts, id: string)
    requires AllFrom(shards, s, since, start) && id in shards
    ensures id in s.log && IsFrom(shards[id], SentOf(since, id), s.log[id], id, start)
  {
  }

  lemma OneShardFrom(shards: Shards, s: Stream, since: Sent, start: Starts, id: string, sh: Shard, recs: Log)
    requires AllFrom(shards, s, since, start) && id in shards && id in s.log
    requires IsFrom(sh, SentOf(since, id) + recs, s.log[id], id, start)
    ensures AllFrom(shards[id := sh], s, Delivered(since, id, recs), start)
  {
    hide IsFromStart;
    FromIsFromStart(sh, SentOf(since, id) + recs, s.log[id], id, start);
  }

  // A consumer that is opened starts the shards its checkpoint does not have.
  lemma OpenedIsFrom(ty: IteratorType, s: Stream, text: string, time: int, sc: Script, since: Sent, start: Starts)
    requires IsStream(s) && !ty.AfterSequenceNumber? && OnlyExisting(s, since)
    requires IsCheckpoint(text, s, since, ty == TrimHorizon) && SinceFrom(s, since, start)
    requires Opened(ty, s, text, time, sc).Some?
    ensures var shards := Opened(ty, s, text, time, sc).value.shards;
            AllFrom(shards, s, since, Started(ty, s, Unread(Parse(text).value), shards, sc, start))
  {
    hide IsStream, IsGood, IsFine, IsFrom, Agrees, Parse, Look, Entered, NewShard, Started, Unread, AnswerFor;
    var m := Parse(text).value;
    var st := State(Unread(m), Entered(text, []), None, time);
    var shards := Opened(ty, s, text, time, sc).value.shards;
    var start' := Started(ty, s, st.shards, shards, sc, start);
    UnreadIsGood(m, s, since, ty == TrimHorizon);
    OpenedIsKept(ty, s, text, time, sc, since);
    forall id | id in shards ensures id in s.log && IsFrom(shards[id], SentOf(since, id), s.log[id], id, start') {
      RelistedShard(ty, s, st, sc, 10, id);
      GoodShard(shards, id, s, since, ty == TrimHorizon);
      if id in st.shards {
        UnreadIsFrom(m, id, SentOf(since, id), s.log[id], start);
      } else {
        NotTakenUp(st.shards, s, since, ty == TrimHorizon, id);
      }
      ShardIsFrom(ty, s, st.shards, id, shards[id], shards[id], sc, SentOf(since, id), start, start');
    }
    forall id | id in s.log ensures IsFromStart(SentOf(since, id), s.log[id], id, start') {
      if id in shards {
        FromIsFromStart(shards[id], SentOf(since, id), s.log[id], id, start');
      } else {
        NotStarted(st.shards, shards, id);
      }
    }
  }

  lemma UnreadIsFrom(m: map<string, string>, id: string, d: Log, l: Log, start: Starts)
    requires id in Unread(m) && IsFromStart(d, l, id, start)
    ensures IsFrom(Unread(m)[id], d, l, id, start)
  {
  }

  // ---------------------------------------------------------------- whole runs

  ghost predicate IsBegun(r: Run, b: Begun) {
    && (r.state.Some? ==> AllFrom(r.state.value.shards, r.stream, r.since, b.start))
    && SinceFrom(r.stream, r.since, b.start) && SinceFrom(r.stream, r.savedSince, b.saved)
  }

  lemma BegunWhenGrown(ty: IteratorType, r: Run, b: Begun, t: Stream)
    requires IsReachable(ty, r) && IsBegun(r, b) && Grown(r.stream, t)
    ensures IsBegun(r.(stream := t), b)
  {
    hide IsStream, AllFrom, SinceFrom, AreParts, IsCheckpoint, IsKept, Collected, Grown;
    SinceFromWhenGrown(r.stream, t, r.since, b.start);
    SinceFromWhenGrown(r.stream, t, r.savedSince, b.saved);
    if r.state.Some? { AllFromWhenGrown(r.state.value.shards, r.stream, t, r.since, b.start); }
  }

  lemma CallIsBegun(ty: IteratorType, r: Run, b: Begun, time: int, sc: Script)
    requires IsReachable(ty, r) && IsBegun(r, b) && r.state.Some?
    ensures var st := r.state.value;
            var c := KinesisModel.Receive(ty, r.stream, st, time, sc);
            var start := Started(ty, r.stream, st.shards, AtRead(ty, r.stream, st, time, sc), sc, b.start);
            && IsBegun(Called(r, c), Begun(start, if DataIn(c.reply) == [] then b.saved else start))
            && IsFromStart(SentOf(Called(r, c).since, c.from), LogIn(r.stream, c.from), c.from, start)
  {
    hide IsStream, AllFrom, SinceFrom, AreParts, IsCheckpoint, IsKept, Collected, KinesisModel.Receive, AtRead, Started;
    var st := r.state.value;
    var c := KinesisModel.Receive(ty, r.stream, st, time, sc);
    var start := Started(ty, r.stream, st.shards, AtRead(ty, r.stream, st, time, sc), sc, b.start);
    ReceiveIsFrom(ty, r.stream, st, time, sc, r.since, b.start);
    ReceiveIsKept(ty, r.stream, st, time, sc, r.since);
    var now := Delivered(Dropped(r.since, c.lost), c.from, DataIn(c.reply));
    AllFromSince(c.state.shards, r.stream, now, start);
    SinceFromOne(r.stream, now, start, c.from);
    KeptExists(ty, r.stream, c.state, now);
  }

  lemma AllFromSince(shards: Shards, s: Stream, since: Sent, start: Starts)
    requires AllFrom(shards, s, since, start)
    ensures SinceFrom(s, since, start)
  {
  }

  lemma KeptExists(ty: IteratorType, s: Stream, st: State, since: Sent)
    requires IsKept(ty, s, st, since)
    ensures OnlyExisting(s, since)
  {
  }

  lemma SinceFromOne(s: Stream, since: Sent, start: Starts, id: string)
    requires SinceFrom(s, since, start)
    ensures OnlyExisting(s, since) ==> IsFromStart(SentOf(since, id), LogIn(s, id), id, start)
  {
  }

  lemma RestartIsBegun(ty: IteratorType, r: Run, b: Begun, time: int, sc: Script)
    requires IsReachable(ty, r) && IsBegun(r, b)
    ensures var st := Opened(ty, r.stream, r.saved, time, sc);
            var start := if st == None || Parse(r.saved) == None then b.saved
                         else Started(ty, r.stream, Unread(Parse(r.saved).value), st.value.shards, sc, b.saved);
            IsBegun(r.(state := st, since := r.savedSince, lost := r.savedLost), Begun(start, b.saved))
  {
    hide IsStream, AllFrom, SinceFrom, AreParts, IsCheckpoint, IsKept, Collected, Opened, Started, Unread, Parse;
    var st := Opened(ty, r.stream, r.saved, time, sc);
    if st.Some? {
      OpenedParses(ty, r.stream, r.saved, time, sc);
      OpenedIsFrom(ty, r.stream, r.saved, time, sc, r.savedSince, b.saved);
      var start := Started(ty, r.stream, Unread(Parse(r.saved).value), st.value.shards, sc, b.saved);
      AllFromSince(st.value.shards, r.stream, r.savedSince, start);
    }
  }

  lemma OpenedParses(ty: IteratorType, s: Stream, text: string, time: int, sc: Script)
    requires Opened(ty, s, text, time, sc).Some?
    ensures Parse(text).Some?
  {
  }

  lemma NextIsBegun(ty: IteratorType, r: Run, b: Begun, e: Event)
    requires IsReachable(ty, r) && IsBegun(r, b)
    ensures IsBegun(Next(ty, r, e), NextStart(ty, r, b, e))
  {
    hide IsReachable, IsBegun, After, Called, Opened, KinesisModel.Receive, AtRead, Started;
    ReachableStream(ty, r);
    StreamGrows(r.stream, e);
    var s := After(r.stream, e);
    ReachableWhenGrown(ty, r, s);
    BegunWhenGrown(ty, r, b, s);
    match e
    case Call(time, sc) =>
      if r.state.Some? { CallIsBegun(ty, r.(stream := s), b, time, sc); }
    case Restart(time, sc) => RestartIsBegun(ty, r.(stream := s), b, time, sc);
    case _ =>
  }

  lemma {:induction false} RunsAreBegun(ty: IteratorType, events: seq<Event>)
    requires !ty.AfterSequenceNumber?
    ensures IsBegun(RunOf(ty, events), StartOf(ty, events))
    decreases |events|
  {
    if events != [] {
      var init := events[..|events| - 1];
      RunsAreReachable(ty, init);
      RunsAreBegun(ty, init);
      NextIsBegun(ty, RunOf(ty, init), StartOf(ty, init), events[|events| - 1]);
    }
  }

  // In every run, what was returned from a shard since its place was last given up begins at
  // the place the service granted for the iterator type of the consumer.
  lemma StartsWhereGranted(ty: IteratorType, events: seq<Event>, id: string)
    requires !ty.AfterSequenceNumber? && id in RunOf(ty, events).stream.log
    ensures var r := RunOf(ty, events);
            IsFromStart(SentOf(r.since, id), r.stream.log[id], id, StartOf(ty, events).start)
  {
    hide RunOf, StartOf;
    RunsAreBegun(ty, events);
  }

  // So does everything returned from a shard that was never refused for good.
  lemma WholeStartsWhereGranted(ty: IteratorType, events: seq<Event>, id: string)
    requires !ty.AfterSequenceNumber? && id in RunOf(ty, events).stream.log && IsNeverRefused(events, id)
    ensures var r := RunOf(ty, events);
            IsFromStart(SentOf(Collected(r.deliveries), id), r.stream.log[id], id, StartOf(ty, events).start)
  {
    hide RunOf, StartOf, Collected;
    StartsWhereGranted(ty, events, id);
    WholeWhenNeverRefused(ty, events, id);
  }

  // ---------------------------------------------------------------- the newest records only

  // No place is before the end of the log old, and no record of old was returned.
  ghost predicate IsPast(r: Run, b: Begun, id: string, past: Log) {
    && (id in b.start ==> b.start[id] >= |past|) && (id in b.saved ==> b.saved[id] >= |past|)
    && forall rec | rec in SentOf(Collected(r.deliveries), id) :: rec !in past
  }

  lemma NotInOld(l: Log, past: Log, d: Log, p: nat)
    requires IsLog(l) && past <= l && |past| <= p && p + |d| <= |l| && d == l[p..p + |d|]
    ensures forall rec | rec in d :: rec !in past
  {
    forall rec | rec in d ensures rec !in past {
      var i :| 0 <= i < |d| && d[i] == rec;
      assert l[p + i] == rec;
      assert forall j | 0 <= j < |past| :: past[j] == l[j] && l[j].number != l[p + i].number;
    }
  }

  lemma StartedIsPast(s: Stream, before: Shards, after: Shards, sc: Script, start: Starts, id: string, n: nat)
    requires id in start ==> start[id] >= n
    requires LengthOf(s, id) >= n
    ensures var start' := Started(Latest, s, before, after, sc, start); id in start' ==> start'[id] >= n
  {
    hide HasStarted, AnswerFor;
  }

  lemma CallIsPast(r: Run, b: Begun, time: int, sc: Script, id: string, past: Log)
    requires IsReachable(Latest, r) && IsBegun(r, b) && r.state.Some?
    requires IsPast(r, b, id, past) && past <= LogIn(r.stream, id)
    ensures var st := r.state.value;
            var c := KinesisModel.Receive(Latest, r.stream, st, time, sc);
            var start := Started(Latest, r.stream, st.shards, AtRead(Latest, r.stream, st, time, sc), sc, b.start);
            IsPast(Called(r, c), Begun(start, if DataIn(c.reply) == [] then b.saved else start), id, past)
  {
    hide AreParts, IsCheckpoint, IsKept, IsBegun, Collected, KinesisModel.Receive, AtRead, Started, IsLog, Dropped,
         Delivered;
    var st := r.state.value;
    var c := KinesisModel.Receive(Latest, r.stream, st, time, sc);
    var start := Started(Latest, r.stream, st.shards, AtRead(Latest, r.stream, st, time, sc), sc, b.start);
    CallIsBegun(Latest, r, b, time, sc);
    StartedIsPast(r.stream, st.shards, AtRead(Latest, r.stream, st, time, sc), sc, b.start, id, |past|);
    var data := DataIn(c.reply);
    if data != [] {
      CollectedNext(r.deliveries, c.from, data);
      if c.from == id {
        var now := SentOf(Called(r, c).since, id);
        DataIsIn(Dropped(r.since, c.lost), id, data);
        ReceiveIsKept(Latest, r.stream, st, time, sc, r.since);
        NotInOld(r.stream.log[id], past, now, start[id]);
        var all := SentOf(Collected(r.deliveries), id);
        forall rec | rec in all + data ensures rec !in past {
          assert rec in all || rec in now;
        }
      }
    }
  }

  lemma DataIsIn(since: Sent, id: string, data: Log)
    ensures forall rec | rec in data :: rec in SentOf(Delivered(since, id, data), id)
  {
  }

  lemma RestartIsPast(r: Run, b: Begun, time: int, sc: Script, id: string, past: Log)
    requires IsPast(r, b, id, past) && past <= LogIn(r.stream, id)
    ensures var st := Opened(Latest, r.stream, r.saved, time, sc);
            var start := if st == None || Parse(r.saved) == None then b.saved
                         else Started(Latest, r.stream, Unread(Parse(r.saved).value), st.value.shards, sc, b.saved);
            IsPast(r.(state := st, since := r.savedSince, lost := r.savedLost), Begun(start, b.saved), id, past)
  {
    hide Collected, Opened, Started, Unread, Parse;
    var st := Opened(Latest, r.stream, r.saved, time, sc);
    if st != None && Parse(r.saved) != None {
      StartedIsPast(r.stream, Unread(Parse(r.saved).value), st.value.shards, sc, b.saved, id, |past|);
    }
  }

  lemma NextIsPast(r: Run, b: Begun, e: Event, id: string, past: Log)
    requires IsReachable(Latest, r) && IsBegun(r, b) && IsPast(r, b, id, past) && past <= LogIn(r.stream, id)
    ensures IsPast(Next(Latest, r, e), NextStart(Latest, r, b, e), id, past)
    ensures past <= LogIn(Next(Latest, r, e).stream, id)
  {
    hide IsReachable, IsBegun, IsPast, After, Called, Opened, KinesisModel.Receive, AtRead, Started;
    ReachableStream(Latest, r);
    StreamGrows(r.stream, e);
    var s := After(r.stream, e);
    ReachableWhenGrown(Latest, r, s);
    BegunWhenGrown(Latest, r, b, s);
    GrownLogs(r.stream, s, id);
    PastWhenGrown(r, b, id, past, s);
    match e
    case Call(time, sc) =>
      if r.state.Some? {
        CallIsPast(r.(stream := s), b, time, sc, id, past);
        CalledStream(r.(stream := s), KinesisModel.Receive(Latest, s, r.state.value, time, sc));
      }
    case Restart(time, sc) => RestartIsPast(r.(stream := s), b, time, sc, id, past);
    case _ =>
  }

  lemma PastWhenGrown(r: Run, b: Begun, id: string, past: Log, t: Stream)
    requires IsPast(r, b, id, past)
    ensures IsPast(r.(stream := t), b, id, past)
  {
    hide Collected;
  }

  lemma GrownLogs(s: Stream, t: Stream, id: string)
    requires Grown(s, t)
    ensures LogIn(s, id) <= LogIn(t, id)
  {
    hide IsStream;
  }

  // While no iterator was granted for a shard nothing was returned from it.
  ghost predicate NotYetStarted(ty: IteratorType, events: seq<Event>, i: nat, id: string) {
    i <= |events| && forall k | 0 <= k <= i :: id !in StartOf(ty, events[..k]).start
  }

  lemma StartNext(ty: IteratorType, events: seq<Event>, k: nat)
    requires k < |events|
    ensures StartOf(ty, events[..k + 1]) ==
            NextStart(ty, RunOf(ty, events[..k]), StartOf(ty, events[..k]), events[k])
  {
    hide NextStart, RunOf;
    assert events[..k + 1][..k] == events[..k];
  }

  lemma {:induction false} NothingReturned(ty: IteratorType, events: seq<Event>, i: nat, id: string)
    requires !ty.AfterSequenceNumber? && NotYetStarted(ty, events, i, id)
    ensures SentOf(Collected(RunOf(ty, events[..i]).deliveries), id) == [] && id !in StartOf(ty, events[..i]).saved
    decreases i
  {
    hide RunOf, StartOf, IsReachable, IsBegun, Next, NextStart, Collected;
    if i == 0 {
      NothingBegun(ty, events);
    } else {
      NothingReturned(ty, events, i - 1, id);
      RunNext(ty, events, i - 1);
      StartNext(ty, events, i - 1);
      RunsAreReachable(ty, events[..i - 1]);
      RunsAreBegun(ty, events[..i - 1]);
      assert id !in StartOf(ty, events[..i]).start;
      NextReturnsNothing(ty, RunOf(ty, events[..i - 1]), StartOf(ty, events[..i - 1]), events[i - 1], id);
    }
  }

  lemma NextReturnsNothing(ty: IteratorType, r: Run, b: Begun, e: Event, id: string)
    requires IsReachable(ty, r) && IsBegun(r, b)
    requires id !in NextStart(ty, r, b, e).start && id !in b.saved
    ensures SentOf(Collected(Next(ty, r, e).deliveries), id) == SentOf(Collected(r.deliveries), id)
    ensures id !in NextStart(ty, r, b, e).saved
  {
    hide IsReachable, IsBegun, After, Called, Opened, KinesisModel.Receive, AtRead, Started, Collected;
    ReachableStream(ty, r);
    StreamGrows(r.stream, e);
    var s := After(r.stream, e);
    ReachableWhenGrown(ty, r, s);
    BegunWhenGrown(ty, r, b, s);
    if e.Call? && r.state.Some? {
      CallReturnsNothing(ty, r.(stream := s), b, e.time, e.script, id);
    }
  }

  lemma NothingBegun(ty: IteratorType, events: seq<Event>)
    ensures RunOf(ty, events[..0]) == START && StartOf(ty, events[..0]) == Begun(map[], map[])
    ensures forall id :: SentOf(Collected(START.deliveries), id) == []
  {
  }

  lemma CallReturnsNothing(ty: IteratorType, r: Run, b: Begun, time: int, sc: Script, id: string)
    requires IsReachable(ty, r) && IsBegun(r, b) && r.state.Some?
    requires id !in Started(ty, r.stream, r.state.value.shards,
                            AtRead(ty, r.stream, r.state.value, time, sc), sc, b.start)
    ensures var c := KinesisModel.Receive(ty, r.stream, r.state.value, time, sc);
            SentOf(Collected(Called(r, c).deliveries), id) == SentOf(Collected(r.deliveries), id)
  {
    hide AreParts, IsCheckpoint, IsKept, IsBegun, Collected, KinesisModel.Receive, AtRead, Started, IsReachable,
         Dropped, Delivered;
    var c := KinesisModel.Receive(ty, r.stream, r.state.value, time, sc);
    CallIsBegun(ty, r, b, time, sc);
    if DataIn(c.reply) != [] {
      CollectedNext(r.deliveries, c.from, DataIn(c.reply));
      DataIsIn(Dropped(r.since, c.lost), c.from, DataIn(c.reply));
      assert DataIn(c.reply)[0] in DataIn(c.reply);
    }
  }

  // A consumer of the newest records never returns a record that was in a shard before the
  // service first granted it an iterator for the shard.
  lemma {:induction false} LatestSkipsTheRest(events: seq<Event>, i: nat, n: nat, id: string)
    requires NotYetStarted(Latest, events, i, id) && i <= n <= |events|
    ensures var past := LogIn(RunOf(Latest, events[..i]).stream, id);
            && IsPast(RunOf(Latest, events[..n]), StartOf(Latest, events[..n]), id, past)
            && past <= LogIn(RunOf(Latest, events[..n]).stream, id)
    decreases n - i
  {
    hide RunOf, StartOf, IsReachable, IsBegun, IsPast, Next, NextStart;
    if n == i {
      NothingReturned(Latest, events, i, id);
      NothingIsPast(RunOf(Latest, events[..i]), StartOf(Latest, events[..i]), id);
    } else {
      LatestSkipsTheRest(events, i, n - 1, id);
      RunNext(Latest, events, n - 1);
      StartNext(Latest, events, n - 1);
      RunsAreReachable(Latest, events[..n - 1]);
      RunsAreBegun(Latest, events[..n - 1]);
      NextIsPast(RunOf(Latest, events[..n - 1]), StartOf(Latest, events[..n - 1]), events[n - 1], id,
                 LogIn(RunOf(Latest, events[..i]).stream, id));
    }
  }

  lemma NothingIsPast(r: Run, b: Begun, id: string)
    requires SentOf(Collected(r.deliveries), id) == [] && id !in b.start && id !in b.saved
    ensures forall past :: IsPast(r, b, id, past)
  {
    hide Collected;
  }
}
