// Whole runs of a Kinesis consumer: records arrive, shards come and go, the service may
// refuse anything, and the program restarts from the last checkpoint it was given.

module KinesisRun {
  import opened Common
  import opened KinesisSpec
  import opened KinesisModel
  import opened KinesisInvariant
  import opened Kinesis

  // ---------------------------------------------------------------- events

  datatype Event =
    | Create(id: string)
    | Arrive(id: string, rec: Record)
    | Close(id: string)
    | Unlist(id: string)
    | Call(time: int, script: Script)
    | Restart(time: int, script: Script)

  // What happens to the stream; impossible events are left out.
  function After(s: Stream, e: Event): Stream {
    match e
    case Create(id) =>
      if id != "" && '\t' !in id && id !in s.log then s.(log := s.log[id := []], listed := s.listed + [id]) else s
    case Arrive(id, rec) =>
      if id in s.log && id !in s.closed && IsNumber(rec.number) && Fresh(s.log[id], rec.number)
      then s.(log := s.log[id := s.log[id] + [rec]]) else s
    case Close(id) => if id in s.log then s.(closed := s.closed + {id}) else s
    case Unlist(id) => s.(listed := Erased(s.listed, id))
    case Call(time, sc) => s
    case Restart(time, sc) => s
  }

  predicate Fresh(l: Log, number: string) {
    forall i | 0 <= i < |l| :: l[i].number != number
  }

  lemma CreateGrows(s: Stream, id: string)
    requires IsStream(s)
    ensures Grown(s, After(s, Create(id)))
  {
    var t := After(s, Create(id));
    if id !in s.log {
      forall i, j | 0 <= i < j < |t.listed| ensures t.listed[i] != t.listed[j] {
        assert t.listed[i] in s.log;
      }
    }
  }

  lemma ArriveGrows(s: Stream, id: string, rec: Record)
    requires IsStream(s)
    ensures Grown(s, After(s, Arrive(id, rec)))
  {
  }

  lemma UnlistGrows(s: Stream, id: string)
    requires IsStream(s)
    ensures Grown(s, After(s, Unlist(id)))
  {
    var l := Erased(s.listed, id);
    if id in s.listed {
      var i := PlaceOf(s.listed, id);
      assert l == s.listed[..i] + s.listed[i + 1..];
    }
    assert forall x | x in l :: x in s.listed;
    forall i | 0 <= i < |l| ensures l[i] in s.log { assert l[i] in l; }
  }

  lemma StreamGrows(s: Stream, e: Event)
    requires IsStream(s)
    ensures Grown(s, After(s, e))
  {
    match e
    case Create(id) => CreateGrows(s, id);
    case Arrive(id, rec) => ArriveGrows(s, id, rec);
    case Unlist(id) => UnlistGrows(s, id);
    case _ =>
  }

  // ---------------------------------------------------------------- runs

  // A call of receive that returned records, and the shard they came from.
  datatype Delivery = Delivery(id: string, data: Log)

  // What a run has returned from every shard, in the order of the calls.
  function Collected(run: seq<Delivery>): (sent: Sent) {
    if run == [] then map[]
    else
      var d := run[|run| - 1];
      Delivered(Collected(run[..|run| - 1]), d.id, d.data)
  }

  function DataOf(run: seq<Delivery>): (data: seq<Log>)
    ensures |data| == |run| && forall i | 0 <= i < |run| :: data[i] == run[i].data
  {
    seq(|run|, i requires 0 <= i < |run| => run[i].data)
  }

  // The stream, the consumer while there is one, everything returned so far, what was
  // returned from every shard since its place was last given up, and the last checkpoint
  // with what it stands for.  lost are the shards whose place the consumer has given up,
  // savedLost those it had when the checkpoint was written, and again those that returned
  // records to a consumer that had given up their place.
  datatype Run = Run(stream: Stream, state: Option<State>, deliveries: seq<Delivery>, since: Sent,
                     saved: string, savedSince: Sent, lost: set<string>, savedLost: set<string>, again: set<string>)

  const START: Run := Run(Stream(map[], {}, []), None, [], map[], "", map[], {}, {}, {})

  ghost function Next(ty: IteratorType, r: Run, e: Event): Run {
    var s := After(r.stream, e);
    match e
    case Call(time, sc) =>
      if r.state == None then r.(stream := s)
      else Called(r.(stream := s), KinesisModel.Receive(ty, s, r.state.value, time, sc))
    case Restart(time, sc) =>
      r.(stream := s, state := Opened(ty, s, r.saved, time, sc), since := r.savedSince, lost := r.savedLost)
    case _ => r.(stream := s)
  }

  ghost function Called(r: Run, c: Received): Run {
    var data, since, lost := DataIn(c.reply), Dropped(r.since, c.lost), r.lost + c.lost;
    if data == [] then r.(state := Some(c.state), since := since, lost := lost)
    else
      var now := Delivered(since, c.from, data);
      Run(r.stream, Some(c.state), r.deliveries + [Delivery(c.from, data)], now,
          if c.reply.checkpoints.Some? then c.reply.checkpoints.value else r.saved, now,
          lost, lost, if c.from in lost then r.again + {c.from} else r.again)
  }

  ghost function RunOf(ty: IteratorType, events: seq<Event>): Run {
    if events == [] then START
    else Next(ty, RunOf(ty, events[..|events| - 1]), events[|events| - 1])
  }

  ghost predicate IsReachable(ty: IteratorType, r: Run) {
    && !ty.AfterSequenceNumber? && IsStream(r.stream)
    && OnlyExisting(r.stream, r.since) && OnlyExisting(r.stream, r.savedSince)
    && OnlyExisting(r.stream, Collected(r.deliveries))
    && AreParts(r.stream, r.since, ty == TrimHorizon)
    && IsCheckpoint(r.saved, r.stream, r.savedSince, ty == TrimHorizon)
    && (r.state.Some? ==> IsKept(ty, r.stream, r.state.value, r.since))
  }

  // Every shard's records are an unbroken part of its log.
  ghost predicate AreParts(s: Stream, sent: Sent, horizon: bool) {
    forall id | id in s.log :: IsPart(SentOf(sent, id), s.log[id], horizon)
  }

  lemma PartsWhenGrown(s: Stream, t: Stream, sent: Sent, horizon: bool)
    requires Grown(s, t) && AreParts(s, sent, horizon) && OnlyExisting(s, sent)
    ensures AreParts(t, sent, horizon)
  {
    hide IsPart, IsStream;
    forall id | id in t.log ensures IsPart(SentOf(sent, id), t.log[id], horizon) {
      if id in s.log {
        PartWhenGrown(SentOf(sent, id), s.log[id], t.log[id], horizon);
      } else {
        NothingIsPart(t.log[id], horizon);
      }
    }
  }

  lemma CheckpointWhenGrown(text: string, s: Stream, t: Stream, since: Sent, horizon: bool)
    requires IsCheckpoint(text, s, since, horizon) && Grown(s, t) && OnlyExisting(s, since)
    ensures IsCheckpoint(text, t, since, horizon)
  {
    hide Agrees, Parse;
    AgreesWhenGrown(Parse(text).value, s, t, since, horizon);
  }

  lemma ReachableWhenGrown(ty: IteratorType, r: Run, t: Stream)
    requires IsReachable(ty, r) && Grown(r.stream, t)
    ensures IsReachable(ty, r.(stream := t))
  {
    hide AreParts, IsCheckpoint, IsKept, Collected, IsStream;
    GrownFacts(r.stream, t);
    PartsWhenGrown(r.stream, t, r.since, ty == TrimHorizon);
    CheckpointWhenGrown(r.saved, r.stream, t, r.savedSince, ty == TrimHorizon);
    if r.state.Some? { KeptWhenGrown(ty, r.stream, t, r.state.value, r.since); }
  }

  lemma GrownFacts(s: Stream, t: Stream)
    requires Grown(s, t)
    ensures IsStream(t) && forall id | id in s.log :: id in t.log
  {
  }

  lemma KeptAreParts(ty: IteratorType, s: Stream, st: State, since: Sent)
    requires IsKept(ty, s, st, since)
    ensures AreParts(s, since, ty == TrimHorizon) && OnlyExisting(s, since)
  {
    hide IsPart;
    GoodAgrees(st.shards, s, since, ty == TrimHorizon);
  }

  lemma SavedAreParts(text: string, s: Stream, since: Sent, horizon: bool)
    requires IsCheckpoint(text, s, since, horizon)
    ensures AreParts(s, since, horizon)
  {
    hide IsPart, Stands, Parse;
  }

  lemma CollectedNext(run: seq<Delivery>, id: string, data: Log)
    ensures Collected(run + [Delivery(id, data)]) == Delivered(Collected(run), id, data)
  {
    assert (run + [Delivery(id, data)])[..|run|] == run;
  }

  lemma CallIsReachable(ty: IteratorType, r: Run, time: int, sc: Script)
    requires IsReachable(ty, r) && r.state.Some?
    ensures IsReachable(ty, Called(r, KinesisModel.Receive(ty, r.stream, r.state.value, time, sc)))
  {
    hide AreParts, IsCheckpoint, IsKept, Collected, IsStream, KinesisModel.Receive;
    var c := KinesisModel.Receive(ty, r.stream, r.state.value, time, sc);
    ReceiveIsKept(ty, r.stream, r.state.value, time, sc, r.since);
    KeptAreParts(ty, r.stream, c.state, Delivered(Dropped(r.since, c.lost), c.from, DataIn(c.reply)));
    CollectedNext(r.deliveries, c.from, DataIn(c.reply));
  }

  lemma RestartIsReachable(ty: IteratorType, r: Run, time: int, sc: Script)
    requires IsReachable(ty, r)
    ensures var st := Opened(ty, r.stream, r.saved, time, sc);
            IsReachable(ty, r.(state := st, since := r.savedSince, lost := r.savedLost))
  {
    hide AreParts, IsCheckpoint, IsKept, Collected, IsStream, Opened;
    OpenedIsKept(ty, r.stream, r.saved, time, sc, r.savedSince);
    SavedAreParts(r.saved, r.stream, r.savedSince, ty == TrimHorizon);
  }

  lemma NextIsReachable(ty: IteratorType, r: Run, e: Event)
    requires IsReachable(ty, r)
    ensures IsReachable(ty, Next(ty, r, e))
  {
    hide IsReachable, After, Called, Opened, KinesisModel.Receive;
    ReachableStream(ty, r);
    StreamGrows(r.stream, e);
    var s := After(r.stream, e);
    ReachableWhenGrown(ty, r, s);
    match e
    case Call(time, sc) =>
      if r.state.Some? { CallIsReachable(ty, r.(stream := s), time, sc); }
    case Restart(time, sc) => RestartIsReachable(ty, r.(stream := s), time, sc);
    case _ =>
  }

  lemma ReachableStream(ty: IteratorType, r: Run)
    requires IsReachable(ty, r)
    ensures IsStream(r.stream) && AreParts(r.stream, r.since, ty == TrimHorizon)
  {
  }

  lemma {:induction false} RunsAreReachable(ty: IteratorType, events: seq<Event>)
    requires !ty.AfterSequenceNumber?
    ensures IsReachable(ty, RunOf(ty, events))
    decreases |events|
  {
    if events != [] {
      RunsAreReachable(ty, events[..|events| - 1]);
      NextIsReachable(ty, RunOf(ty, events[..|events| - 1]), events[|events| - 1]);
    }
  }

  // In every run, whatever the service answers, and across restarts from the last
  // checkpoint, the records returned from a shard since its place was last given up are an
  // unbroken part of the shard.
  lemma UnbrokenSinceGivenUp(ty: IteratorType, events: seq<Event>)
    requires !ty.AfterSequenceNumber?
    ensures var r := RunOf(ty, events); AreParts(r.stream, r.since, ty == TrimHorizon)
  {
    RunsAreReachable(ty, events);
    ReachableStream(ty, RunOf(ty, events));
  }

  // ---------------------------------------------------------------- shards never refused

  // The service never refuses for good to continue behind a sequence id of the shard.
  ghost predicate IsNeverRefused(events: seq<Event>, id: string) {
    forall i | 0 <= i < |events| && events[i].Call? ::
      var a := events[i].script.renewed(id); a.Refuse? ==> a.shouldRetry
  }

  // Nothing of the shard has been given up.
  ghost predicate IsWhole(r: Run, id: string) {
    var all := SentOf(Collected(r.deliveries), id);
    && SentOf(r.since, id) == all && SentOf(r.savedSince, id) == all
    && id !in r.lost && id !in r.savedLost && id !in r.again
  }

  lemma CallIsWhole(ty: IteratorType, r: Run, time: int, sc: Script, id: string)
    requires IsReachable(ty, r) && r.state.Some? && IsWhole(r, id)
    requires sc.renewed(id).Refuse? ==> sc.renewed(id).shouldRetry
    ensures IsWhole(Called(r, KinesisModel.Receive(ty, r.stream, r.state.value, time, sc)), id)
  {
    hide IsKept, Collected, KinesisModel.Receive, Dropped, Delivered, Refreshed, AreRefused;
    var c := KinesisModel.Receive(ty, r.stream, r.state.value, time, sc);
    GivenUpIffRefused(ty, r.stream, r.state.value, time, sc, r.since);
    CollectedNext(r.deliveries, c.from, DataIn(c.reply));
  }

  lemma {:induction false} WholeWhenNeverRefused(ty: IteratorType, events: seq<Event>, id: string)
    requires !ty.AfterSequenceNumber? && IsNeverRefused(events, id)
    ensures IsWhole(RunOf(ty, events), id)
    decreases |events|
  {
    if events != [] {
      hide IsReachable, After, Called, Opened, KinesisModel.Receive, Collected;
      var before, e := events[..|events| - 1], events[|events| - 1];
      WholeWhenNeverRefused(ty, before, id);
      var r := RunOf(ty, before);
      RunsAreReachable(ty, before);
      ReachableStream(ty, r);
      StreamGrows(r.stream, e);
      ReachableWhenGrown(ty, r, After(r.stream, e));
      if e.Call? && r.state.Some? {
        CallIsWhole(ty, r.(stream := After(r.stream, e)), e.time, e.script, id);
      }
    }
  }

  // Everything returned from a shard that was never refused is an unbroken part of it; for
  // a consumer that starts at the beginning it is a prefix: in order, without a gap or a
  // repetition, across throttling, expired iterators, closing shards and restarts.
  lemma UnbrokenWhenNeverRefused(ty: IteratorType, events: seq<Event>, id: string)
    requires !ty.AfterSequenceNumber? && IsNeverRefused(events, id)
    requires id in RunOf(ty, events).stream.log
    ensures var r := RunOf(ty, events);
            var all, log := SentOf(Collected(r.deliveries), id), r.stream.log[id];
            IsPart(all, log, ty == TrimHorizon) && (ty == TrimHorizon ==> all <= log)
  {
    hide RunOf, Collected;
    UnbrokenSinceGivenUp(ty, events);
    WholeWhenNeverRefused(ty, events, id);
  }

  // ---------------------------------------------------------------- shards read again

  ghost predicate HasTwice(d: Log) {
    exists i, j :: 0 <= i < j < |d| && d[i] == d[j]
  }

  function LogIn(s: Stream, id: string): Log {
    if id in s.log then s.log[id] else []
  }

  // Of the records all returned from a shard, d were returned since its place was last
  // given up: all of them, or none of some.
  predicate IsHeld(all: Log, d: Log, lost: bool) {
    if lost then all != [] && d == [] else d == all
  }

  // While a shard has not been read again after its place was given up, a consumer that
  // starts at the beginning has returned a prefix of it.
  ghost predicate IsExact(r: Run, id: string) {
    var all := SentOf(Collected(r.deliveries), id);
    if id in r.again then HasTwice(all)
    else
      && all <= LogIn(r.stream, id)
      && IsHeld(all, SentOf(r.since, id), id in r.lost)
      && IsHeld(all, SentOf(r.savedSince, id), id in r.savedLost)
  }

  lemma TwiceStays(d: Log, e: Log)
    requires HasTwice(d)
    ensures HasTwice(d + e)
  {
    var i, j :| 0 <= i < j < |d| && d[i] == d[j];
    assert (d + e)[i] == (d + e)[j];
  }

  lemma ReadAgain(d: Log, e: Log, l: Log)
    requires d != [] && e != [] && d <= l && e <= l
    ensures HasTwice(d + e)
  {
    assert (d + e)[0] == (d + e)[|d|];
  }

  lemma PrefixHasNoneTwice(d: Log, l: Log)
    requires IsLog(l) && d <= l
    ensures !HasTwice(d)
  {
    assert forall i | 0 <= i < |d| :: d[i] == l[i];
  }

  lemma SinceIsPrefix(s: Stream, since: Sent, id: string)
    requires AreParts(s, since, true) && OnlyExisting(s, since)
    ensures SentOf(since, id) <= LogIn(s, id)
  {
  }

  // A place is only given up behind records.
  lemma LostHadRecords(ty: IteratorType, s: Stream, st: State, time: int, sc: Script, since: Sent, id: string)
    requires IsKept(ty, s, st, since) && id in KinesisModel.Receive(ty, s, st, time, sc).lost
    ensures SentOf(since, id) != []
  {
    hide IsStream, IsGood, IsOrdered, Refreshed, Round, Answered;
    var l := Refreshed(ty, s, st, time, sc);
    var queue := Rotation(l.state.order, l.state.cursor);
    RefreshedIsKept(ty, s, st, time, sc, since);
    RoundIsGood(ty, s, l.state, sc, since);
    RefusedInRound(ty, s, l.state.shards, queue, sc, GivenUp(l.state.shards, Round(ty, s, l.state, sc).shards), id);
    GoodShard(l.state.shards, id, s, since, ty == TrimHorizon);
    RefusedHasRecords(l.state.shards[id], id, sc, SentOf(since, id), s.log[id], id in s.closed, ty == TrimHorizon);
  }

  lemma RefusedInRound(ty: IteratorType, s: Stream, shards: Shards, queue: seq<string>, sc: Script,
                       lost: set<string>, id: string)
    requires AreRefused(ty, s, shards, queue, sc, lost) && id in lost
    ensures id in shards && IsRefused(id, shards[id], sc)
  {
    hide Visited, IsReady, FirstReady;
  }

  lemma RefusedHasRecords(sh: Shard, id: string, sc: Script, d: Log, l: Log, closed: bool, horizon: bool)
    requires IsFine(sh, id, d, l, closed, horizon) && IsRefused(id, sh, sc)
    ensures d != []
  {
  }

  lemma CallIsExact(r: Run, c: Received, id: string)
    requires IsExact(r, id) && (id in c.lost ==> SentOf(r.since, id) != [])
    requires AreParts(r.stream, Called(r, c).since, true) && OnlyExisting(r.stream, Called(r, c).since)
    ensures IsExact(Called(r, c), id)
  {
    hide AreParts, OnlyExisting, Collected, HasTwice, Dropped, Delivered, LogIn;
    var data, since := DataIn(c.reply), Dropped(r.since, c.lost);
    var all, d := SentOf(Collected(r.deliveries), id), SentOf(since, id);
    if data != [] && c.from == id {
      CollectedNext(r.deliveries, id, data);
      SinceIsPrefix(r.stream, Delivered(since, id, data), id);
      if id in r.again {
        TwiceStays(all, data);
      } else if id in r.lost + c.lost {
        assert d + data == data;
        ReadAgain(all, data, LogIn(r.stream, id));
      }
    } else if data != [] {
      CollectedNext(r.deliveries, c.from, data);
    }
  }

  lemma ExactWhenGrown(r: Run, t: Stream, id: string)
    requires IsExact(r, id) && Grown(r.stream, t)
    ensures IsExact(r.(stream := t), id)
  {
    hide Collected, HasTwice, IsStream;
  }

  lemma NextIsExact(r: Run, e: Event, id: string)
    requires IsReachable(TrimHorizon, r) && IsExact(r, id)
    ensures IsExact(Next(TrimHorizon, r, e), id)
  {
    hide IsReachable, IsExact, After, Opened, Called, KinesisModel.Receive;
    ReachableStream(TrimHorizon, r);
    StreamGrows(r.stream, e);
    ExactWhenGrown(r, After(r.stream, e), id);
    var now := r.(stream := After(r.stream, e));
    NextIsReachable(TrimHorizon, r, e);
    ReachableSince(TrimHorizon, Next(TrimHorizon, r, e));
    match e
    case Call(time, sc) =>
      if r.state.Some? {
        var c := KinesisModel.Receive(TrimHorizon, now.stream, r.state.value, time, sc);
        CalledStream(now, c);
        ReachableState(TrimHorizon, r, now.stream);
        if id in c.lost { LostHadRecords(TrimHorizon, now.stream, r.state.value, time, sc, r.since, id); }
        CallIsExact(now, c, id);
      }
    case Restart(time, sc) => RestartIsExact(now, Opened(TrimHorizon, now.stream, r.saved, time, sc), id);
    case _ =>
  }

  lemma CalledStream(r: Run, c: Received)
    ensures Called(r, c).stream == r.stream
  {
  }

  lemma ReachableState(ty: IteratorType, r: Run, t: Stream)
    requires IsReachable(ty, r) && r.state.Some? && Grown(r.stream, t)
    ensures IsKept(ty, t, r.state.value, r.since)
  {
    hide IsKept;
    KeptWhenGrown(ty, r.stream, t, r.state.value, r.since);
  }

  lemma RestartIsExact(r: Run, st: Option<State>, id: string)
    requires IsExact(r, id)
    ensures IsExact(r.(state := st, since := r.savedSince, lost := r.savedLost), id)
  {
  }

  lemma ReachableSince(ty: IteratorType, r: Run)
    requires IsReachable(ty, r)
    ensures AreParts(r.stream, r.since, ty == TrimHorizon) && OnlyExisting(r.stream, r.since)
  {
  }

  lemma {:induction false} RunsAreExact(events: seq<Event>, id: string)
    ensures IsExact(RunOf(TrimHorizon, events), id)
    decreases |events|
  {
    if events != [] {
      RunsAreExact(events[..|events| - 1], id);
      RunsAreReachable(TrimHorizon, events[..|events| - 1]);
      NextIsExact(RunOf(TrimHorizon, events[..|events| - 1]), events[|events| - 1], id);
    }
  }

  // For a consumer that starts at the beginning: what was returned from a shard is a prefix
  // of it exactly when no records were returned from the shard after a refusal for good had
  // made the consumer give up its place, a refusal being undone only by starting again with
  // a checkpoint from before it.
  lemma PrefixIffNotReadAgain(events: seq<Event>, id: string)
    requires id in RunOf(TrimHorizon, events).stream.log
    ensures var r := RunOf(TrimHorizon, events);
            SentOf(Collected(r.deliveries), id) <= r.stream.log[id] <==> id !in r.again
  {
    hide RunOf, Collected, HasTwice, IsLog;
    var r := RunOf(TrimHorizon, events);
    RunsAreExact(events, id);
    RunsAreReachable(TrimHorizon, events);
    if SentOf(Collected(r.deliveries), id) <= r.stream.log[id] {
      PrefixHasNoneTwice(SentOf(Collected(r.deliveries), id), r.stream.log[id]);
    }
  }

  // The shards whose place a call gives up are those whose turn comes in its round and which
  // the service refuses for good to continue.
  lemma LostWhenRefused(ty: IteratorType, events: seq<Event>, time: int, sc: Script)
    requires !ty.AfterSequenceNumber? && RunOf(ty, events).state.Some?
    ensures var r, now := RunOf(ty, events), RunOf(ty, events + [Call(time, sc)]);
            var l := Refreshed(ty, r.stream, r.state.value, time, sc);
            if l.code == 1 then now.lost == r.lost
            else
              exists refused ::
                && AreRefused(ty, r.stream, l.state.shards, Rotation(l.state.order, l.state.cursor), sc, refused)
                && now.lost == r.lost + refused
  {
    hide KinesisModel.Receive, AreRefused, Refreshed, IsKept;
    assert (events + [Call(time, sc)])[..|events|] == events;
    var r := RunOf(ty, events);
    RunsAreReachable(ty, events);
    GivenUpIffRefused(ty, r.stream, r.state.value, time, sc, r.since);
    assert RunOf(ty, events + [Call(time, sc)]).lost ==
           r.lost + KinesisModel.Receive(ty, r.stream, r.state.value, time, sc).lost;
  }

  // ---------------------------------------------------------------- a run that repeats

  function Answers(k: int, renewed: Answer, batch: Answer): Script {
    Script(n => Grant(0), n => true, id => Grant(0), id => renewed, batch, 0, id => 10000 * k, id => 10000 * k + 1)
  }

  const ONE: Record := Record("1", "x")

  // One record is read, the iterator expires, the service refuses to continue behind the
  // record, and then grants an iterator at the beginning.
  const REFUSED: seq<Event> := [
    Create("a"), Arrive("a", ONE), Restart(0, Answers(0, Grant(0), Grant(0))),
    Call(0, Answers(1, Grant(0), Grant(1))), Call(0, Answers(2, Grant(0), Refuse(Expired, true))),
    Call(0, Answers(3, Refuse(Other, false), Grant(1))), Call(0, Answers(4, Grant(0), Grant(1)))]

  const STREAM: Stream := Stream(map["a" := [ONE]], {}, ["a"])

  function Solo(sh: Shard, cursor: Option<string>): State {
    State(map["a" := sh], ["a"], cursor, 0)
  }

  lemma SoloCall(sh: Shard, cursor: Option<string>, sc: Script)
    requires cursor == None || cursor == Some("a")
    ensures var c := KinesisModel.Receive(TrimHorizon, STREAM, Solo(sh, cursor), 0, sc);
            var sh' := Visited(TrimHorizon, STREAM, "a", sh, sc);
            var lost := if sh.sequenceId != "" && sh'.sequenceId == "" then {"a"} else {};
            if IsReady(TrimHorizon, STREAM, "a", sh, sc)
            then var a := Answered(STREAM, Solo(sh', Some("a")), "a", sc); c == Received(a.state, a.reply, "a", lost)
            else c == Received(Solo(sh', Some("a")), Records([], None), "", lost)
  {
    hide Visited, IsReady, Answered;
    var st := Solo(sh, cursor);
    assert Rotation(st.order, st.cursor) == ["a"] by {
      if cursor != None { assert ["a"][1..] + ["a"][..1] == ["a"]; }
    }
    var sh' := Visited(TrimHorizon, STREAM, "a", sh, sc);
    assert ["a"][1..] == [] && st.shards["a" := sh'] == map["a" := sh'];
    assert FirstReady(TrimHorizon, STREAM, map["a" := sh'], [], sc) == Pick(map["a" := sh'], None, None);
    var p := Round(TrimHorizon, STREAM, st, sc);
    assert p.shards == map["a" := sh'] && p.last == Some("a");
    assert GivenUp(st.shards, p.shards) == if sh.sequenceId != "" && sh'.sequenceId == "" then {"a"} else {};
  }

  lemma SoloOpen(sc: Script)
    requires sc == Answers(0, Grant(0), Grant(0))
    ensures Opened(TrimHorizon, STREAM, "", 0, sc) == Some(Solo(Shard(Some(Iterator("a", 0)), "", 0, 0, true), None))
  {
    var sh := Shard(Some(Iterator("a", 0)), "", 0, 0, true);
    assert ListCode(STREAM, sc, 0, 0, 10, false) == 0;
    assert NewShard(TrimHorizon, STREAM, "a", sc) == sh;
    assert Relisted(TrimHorizon, STREAM, map[], sc) == map["a" := sh];
    assert Joined([], ["a"]) == ["a"] by { assert ["a"][1..] == []; }
    assert Kept(["a"], ["a"]) == ["a"] by { assert ["a"][1..] == []; }
    assert Parse("") == Some(map[]) && Unread(map[]) == map[];
  }

  // A batch with the record, read by a shard that stands in front of it.
  lemma SoloReads(sh: Shard, cursor: Option<string>, k: int)
    requires cursor == None || cursor == Some("a")
    requires sh.sequenceId == "" && sh.nextRequest <= 10000 * k
    requires sh.it == None || sh.it == Some(Iterator("a", 0))
    ensures var c := KinesisModel.Receive(TrimHorizon, STREAM, Solo(sh, cursor), 0, Answers(k, Grant(0), Grant(1)));
            var sh' := sh.(it := Some(Iterator("a", 1)), sequenceId := "1",
                           nextRequest := 10000 * k + 1001, behind := 0);
            && c.state == Solo(sh', Some("a"))
            && c.reply.Records? && c.reply.data == [ONE] && c.from == "a" && c.lost == {}
  {
    hide KinesisModel.Receive, Pause, Text;
    var sc := Answers(k, Grant(0), Grant(1));
    SoloCall(sh, cursor, sc);
    var sh' := Visited(TrimHorizon, STREAM, "a", sh, sc);
    assert sh' == sh.(it := Some(Iterator("a", 0)));
    OnePause();
    assert STREAM.log["a"][0..1] == [ONE];
    var a := Answered(STREAM, Solo(sh', Some("a")), "a", sc);
    assert GetRecords(STREAM, sh'.it.value, Grant(1), 0) == Success(Batch([ONE], Some(Iterator("a", 1)), 0));
    assert a.state.shards ==
           map["a" := ShardAfter(sh', Success(Batch([ONE], Some(Iterator("a", 1)), 0)), 10000 * k + 1)];
  }

  lemma OnePause()
    ensures Pause([ONE]) == 1
  {
    assert [ONE][1..] == [];
    assert Volume([ONE]) == 1 + Volume([]);
  }

  lemma SoloExpires(sh: Shard, k: int)
    requires sh.sequenceId == "1" && sh.nextRequest <= 10000 * k && sh.it == Some(Iterator("a", 1))
    ensures var c := KinesisModel.Receive(TrimHorizon, STREAM, Solo(sh, Some("a")), 0,
                                          Answers(k, Grant(0), Refuse(Expired, true)));
            c == Received(Solo(sh.(it := None, nextRequest := 10000 * k + 1001), Some("a")), Records([], None), "a", {})
  {
    hide KinesisModel.Receive;
    var sc := Answers(k, Grant(0), Refuse(Expired, true));
    SoloCall(sh, Some("a"), sc);
    var a := Answered(STREAM, Solo(sh, Some("a")), "a", sc);
    assert a.state.shards == map["a" := sh.(it := None, nextRequest := 10000 * k + 1001)];
  }

  lemma SoloGivesUp(sh: Shard, k: int)
    requires sh.sequenceId == "1" && sh.nextRequest <= 10000 * k && sh.it == None
    ensures var c := KinesisModel.Receive(TrimHorizon, STREAM, Solo(sh, Some("a")), 0,
                                          Answers(k, Refuse(Other, false), Grant(1)));
            var sh' := sh.(sequenceId := "", nextRequest := 10000 * k + 1001);
            c == Received(Solo(sh', Some("a")), Records([], None), "", {"a"})
  {
    hide KinesisModel.Receive;
    SoloCall(sh, Some("a"), Answers(k, Refuse(Other, false), Grant(1)));
  }

  lemma RunNext(ty: IteratorType, events: seq<Event>, k: nat)
    requires k < |events|
    ensures RunOf(ty, events[..k + 1]) == Next(ty, RunOf(ty, events[..k]), events[k])
  {
    assert events[..k + 1][..k] == events[..k];
  }

  ghost function At(k: nat): Run
    requires k <= |REFUSED|
  {
    RunOf(TrimHorizon, REFUSED[..k])
  }

  lemma FirstReading()
    ensures At(2) == START.(stream := STREAM)
    ensures At(4).stream == STREAM && At(4).deliveries == [Delivery("a", [ONE])] && SentOf(At(4).since, "a") == [ONE]
    ensures At(4).state == Some(Solo(Shard(Some(Iterator("a", 1)), "1", 11001, 0, true), Some("a")))
  {
    hide RunOf, KinesisModel.Receive, Opened;
    assert At(0) == START by { StartOfRun(); }
    RunNext(TrimHorizon, REFUSED, 0);
    RunNext(TrimHorizon, REFUSED, 1);
    RunNext(TrimHorizon, REFUSED, 2);
    RunNext(TrimHorizon, REFUSED, 3);
    TwoEvents();
    SoloOpen(Answers(0, Grant(0), Grant(0)));
    SoloReads(Shard(Some(Iterator("a", 0)), "", 0, 0, true), None, 1);
  }

  lemma StartOfRun()
    ensures At(0) == START
  {
  }

  lemma TwoEvents()
    ensures After(After(START.stream, Create("a")), Arrive("a", ONE)) == STREAM
  {
    var s := After(START.stream, Create("a"));
    assert s == Stream(map["a" := []], {}, ["a"]);
    assert IsNumber("1") && Fresh([], "1") && [] + [ONE] == [ONE];
    assert After(s, Arrive("a", ONE)).log == map["a" := [ONE]];
  }

  lemma ExpiredRun()
    ensures At(5).stream == STREAM && At(5).deliveries == [Delivery("a", [ONE])] && SentOf(At(5).since, "a") == [ONE]
    ensures At(5).state == Some(Solo(Shard(None, "1", 21001, 0, true), Some("a")))
  {
    hide RunOf, KinesisModel.Receive, Opened;
    FirstReading();
    RunNext(TrimHorizon, REFUSED, 4);
    SoloExpires(Shard(Some(Iterator("a", 1)), "1", 11001, 0, true), 2);
  }

  lemma RefusedRun()
    ensures At(6).stream == STREAM && At(6).deliveries == [Delivery("a", [ONE])] && SentOf(At(6).since, "a") == []
    ensures At(6).state == Some(Solo(Shard(None, "", 31001, 0, true), Some("a")))
  {
    hide RunOf, KinesisModel.Receive, Opened;
    ExpiredRun();
    RunNext(TrimHorizon, REFUSED, 5);
    SoloGivesUp(Shard(None, "1", 21001, 0, true), 3);
  }

  // A refused shard is read again from the start: the program is given the record twice.
  lemma RefusedShardIsReadAgain()
    ensures var r := RunOf(TrimHorizon, REFUSED);
            && r.stream == STREAM && r.deliveries == [Delivery("a", [ONE]), Delivery("a", [ONE])]
            && SentOf(Collected(r.deliveries), "a") == [ONE, ONE] && !([ONE, ONE] <= STREAM.log["a"])
  {
    hide RunOf, KinesisModel.Receive, Opened;
    RefusedRun();
    RunNext(TrimHorizon, REFUSED, 6);
    assert REFUSED[..7] == REFUSED;
    SoloReads(Shard(None, "", 31001, 0, true), Some("a"), 4);
    TwoReadings();
  }

  lemma TwoReadings()
    ensures SentOf(Collected([Delivery("a", [ONE]), Delivery("a", [ONE])]), "a") == [ONE, ONE]
  {
    var one := [Delivery("a", [ONE])];
    assert [] + one == one && one + one == [Delivery("a", [ONE]), Delivery("a", [ONE])];
    CollectedNext([], "a", [ONE]);
    CollectedNext(one, "a", [ONE]);
    assert SentOf(Collected([]), "a") == [];
  }

  // ---------------------------------------------------------------- the program

  // A program that calls receive, keeps the last checkpoint, and starts again with it.  It
  // gets the records of the run; those of a shard that was never refused are an unbroken
  // part of the shard, and all of it up to there when it starts at the beginning.
  method Session(ty: IteratorType, events: seq<Event>) returns (batches: seq<Log>)
    requires !ty.AfterSequenceNumber?
    ensures var r := RunOf(ty, events);
            && batches == DataOf(r.deliveries)
            && forall id | id in r.stream.log && IsNeverRefused(events, id) ::
                 IsPart(SentOf(Collected(r.deliveries), id), r.stream.log[id], ty == TrimHorizon)
  {
    hide RunOf, Opened, KinesisModel.Receive, After, Collected, IsPart, IsNeverRefused, IsOrdered;
    var stream, saved := Stream(map[], {}, []), "";
    var c := new Consumer(ty, 0);
    var running := false;
    batches := [];
    RunStarts(ty, events);
    for i := 0 to |events|
      invariant fresh(c) && c.itType == ty
      invariant var r := RunOf(ty, events[..i]);
                && stream == r.stream && batches == DataOf(r.deliveries) && saved == r.saved
                && (running <==> r.state.Some?) && (running ==> c.Valid() && r.state == Some(c.Abs()))
    {
      RunNext(ty, events, i);
      stream := After(stream, events[i]);
      match events[i] {
        case Call(time, sc) =>
          if running {
            var reply := c.Receive(stream, time, sc);
            if reply.Records? && reply.data != [] {
              batches := batches + [reply.data];
              if reply.checkpoints.Some? { saved := reply.checkpoints.value; }
            }
          }
        case Restart(time, sc) =>
          c := new Consumer(ty, time);
          running := c.Open(stream, saved, sc);
        case _ =>
      }
    }
    assert events[..|events|] == events;
    forall id | id in stream.log && IsNeverRefused(events, id)
      ensures IsPart(SentOf(Collected(RunOf(ty, events).deliveries), id), stream.log[id], ty == TrimHorizon)
    {
      UnbrokenWhenNeverRefused(ty, events, id);
    }
  }

  lemma RunStarts(ty: IteratorType, events: seq<Event>)
    ensures RunOf(ty, events[..0]) == START
  {
  }
}
