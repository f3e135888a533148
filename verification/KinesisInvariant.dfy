// What every call of a Kinesis consumer keeps: its iterators and sequence ids stand right
// behind the records it has returned (aws/kinesis.cpp).

module KinesisInvariant {
  import opened Common
  import opened KinesisSpec
  import opened KinesisModel

  // ---------------------------------------------------------------- one shard

  // An iterator of a shard nothing was returned from may be anywhere, unless the consumer
  // starts at the beginning.
  ghost predicate IsFineAt(sh: Shard, id: string, d: Log, l: Log, closed: bool, horizon: bool, end: nat) {
    && StandsAt(d, l, sh.sequenceId, closed, horizon, end)
    && (sh.it.Some? ==>
          && sh.it.value.shard == id && sh.it.value.pos <= |l|
          && (horizon || d != [] ==> sh.it.value.pos == end))
  }

  ghost predicate IsFine(sh: Shard, id: string, d: Log, l: Log, closed: bool, horizon: bool) {
    exists end: nat :: IsFineAt(sh, id, d, l, closed, horizon, end)
  }

  lemma FineStands(sh: Shard, id: string, d: Log, l: Log, closed: bool, horizon: bool)
    requires IsFine(sh, id, d, l, closed, horizon)
    ensures Stands(d, l, sh.sequenceId, closed, horizon) && IsPart(d, l, horizon)
  {
    var end: nat :| IsFineAt(sh, id, d, l, closed, horizon, end);
    assert StandsAt(d, l, sh.sequenceId, closed, horizon, end);
    assert IsPartTo(d, l, horizon, end);
  }

  lemma StandingIsFine(sh: Shard, id: string, d: Log, l: Log, closed: bool, horizon: bool)
    requires Stands(d, l, sh.sequenceId, closed, horizon) && sh.it == None
    ensures IsFine(sh, id, d, l, closed, horizon)
  {
    var end: nat :| StandsAt(d, l, sh.sequenceId, closed, horizon, end);
    assert IsFineAt(sh, id, d, l, closed, horizon, end);
  }

  // Flags and timers do not matter, and dropping an iterator does no harm.
  lemma FineWithout(sh: Shard, sh': Shard, id: string, d: Log, l: Log, closed: bool, horizon: bool)
    requires IsFine(sh, id, d, l, closed, horizon)
    requires sh'.sequenceId == sh.sequenceId && (sh'.it == sh.it || sh'.it == None)
    ensures IsFine(sh', id, d, l, closed, horizon)
  {
    var end: nat :| IsFineAt(sh, id, d, l, closed, horizon, end);
    assert IsFineAt(sh', id, d, l, closed, horizon, end);
  }

  lemma FineWhenGrown(sh: Shard, id: string, d: Log, l: Log, l': Log, closed: bool, closed': bool, horizon: bool)
    requires IsFine(sh, id, d, l, closed, horizon)
    requires l <= l' && (closed ==> closed' && l' == l)
    ensures IsFine(sh, id, d, l', closed', horizon)
  {
    var end: nat :| IsFineAt(sh, id, d, l, closed, horizon, end);
    StandsWhenGrown(d, l, l', sh.sequenceId, closed, closed', horizon, end);
    assert IsFineAt(sh, id, d, l', closed', horizon, end);
  }

  lemma NewIsFine(sh: Shard, id: string, l: Log, closed: bool, horizon: bool)
    requires sh.sequenceId == ""
    requires sh.it.Some? ==> sh.it.value.shard == id && sh.it.value.pos <= |l| && (horizon ==> sh.it.value.pos == 0)
    ensures IsFine(sh, id, [], l, closed, horizon)
  {
    assert IsFineAt(sh, id, [], l, closed, horizon, 0);
  }

  // ---------------------------------------------------------------- asking for an iterator

  predicate IsAsked(id: string, sh: Shard, sc: Script) {
    sh.sequenceId != CLOSED && sh.it == None && sc.clock(id) >= sh.nextRequest
  }

  // The service refuses, for good, to continue behind a known sequence id.
  predicate IsRefused(id: string, sh: Shard, sc: Script) {
    IsAsked(id, sh, sc) && sh.sequenceId != "" && sc.renewed(id).Refuse? && !sc.renewed(id).shouldRetry
  }

  lemma NumberIsThere(l: Log, end: nat)
    requires IsLog(l) && 0 < end <= |l|
    ensures IndexOf(l, l[end - 1].number) == end - 1
  {
  }

  // Asking for an iterator behind a known sequence id gives the place it stands for.
  lemma ResumedPlace(ty: IteratorType, s: Stream, id: string, seqId: string, a: Answer, d: Log, end: nat)
    requires IsStream(s) && id in s.log && !ty.AfterSequenceNumber? && seqId != CLOSED
    requires StandsAt(d, s.log[id], seqId, id in s.closed, ty == TrimHorizon, end)
    ensures var o := GetShardIterator(s, id, Resume(ty, seqId), a);
            && (seqId != "" ==> (o.Success? <==> a.Grant?))
            && (o.Failure? && a.Refuse? ==> o.shouldRetry == a.shouldRetry)
            && (o.Success? && (ty == TrimHorizon || d != []) ==> o.result.pos == end)
  {
    if seqId != "" { NumberIsThere(s.log[id], end); }
  }

  // The iterator of a renewal points right behind what has been returned; the place is
  // given up exactly when the service refuses for good.
  lemma VisitedIsFine(ty: IteratorType, s: Stream, id: string, sh: Shard, sc: Script, d: Log)
    requires IsStream(s) && id in s.log && !ty.AfterSequenceNumber?
    requires IsFine(sh, id, d, s.log[id], id in s.closed, ty == TrimHorizon)
    ensures var sh' := Visited(ty, s, id, sh, sc);
            && sh'.sequenceId == (if IsRefused(id, sh, sc) then "" else sh.sequenceId)
            && IsFine(sh', id, if IsRefused(id, sh, sc) then [] else d, s.log[id], id in s.closed, ty == TrimHorizon)
  {
    hide IsStream, GetShardIterator, StandsAt;
    var l, closed, horizon := s.log[id], id in s.closed, ty == TrimHorizon;
    var sh' := Visited(ty, s, id, sh, sc);
    var end: nat :| IsFineAt(sh, id, d, l, closed, horizon, end);
    if IsAsked(id, sh, sc) {
      ResumedPlace(ty, s, id, sh.sequenceId, sc.renewed(id), d, end);
    }
    if IsRefused(id, sh, sc) {
      NewIsFine(sh', id, l, closed, horizon);
    } else {
      assert IsFineAt(sh', id, d, l, closed, horizon, end);
    }
  }

  // ---------------------------------------------------------------- a batch

  // A batch continues what was returned from the shard before, and the new sequence id and
  // iterator stand right behind it.
  lemma BatchIsFine(s: Stream, id: string, sh: Shard, a: Answer, behind: nat, later: int, d: Log, horizon: bool)
    requires IsStream(s) && id in s.log && sh.it.Some? && sh.sequenceId != CLOSED
    requires IsFine(sh, id, d, s.log[id], id in s.closed, horizon)
    ensures var o := GetRecords(s, sh.it.value, a, behind);
            && (o.Success? <==> a.Grant?)
            && IsFine(ShardAfter(sh, o, later), id, if o.Success? then d + o.result.records else d,
                      s.log[id], id in s.closed, horizon)
  {
    hide IsStream, StandsAt, GetRecords, SequenceAfter, Pause, IsLog, IsPartTo;
    var l, closed := s.log[id], id in s.closed;
    var end: nat :| IsFineAt(sh, id, d, l, closed, horizon, end);
    var o := GetRecords(s, sh.it.value, a, behind);
    var sh' := ShardAfter(sh, o, later);
    BatchFacts(s, sh.it.value, a, behind);
    if o.Failure? {
      assert IsFineAt(sh', id, d, l, closed, horizon, end);
    } else {
      LogOf(s, id);
      var b, p := o.result, sh.it.value.pos;
      if b.records == [] && b.next.Some? {
        NothingRead(l, closed, end, d, b, sh.sequenceId, horizon);
        assert IsFineAt(sh', id, d + b.records, l, closed, horizon, end);
      } else {
        StandingPart(d, l, sh.sequenceId, closed, horizon, end);
        PartContinues(l, p, end, d, b.records, horizon);
        BatchStands(l, closed, p, p + |b.records|, d, b, sh.sequenceId, horizon);
        assert IsFineAt(sh', id, d + b.records, l, closed, horizon, p + |b.records|);
      }
    }
  }

  lemma LogOf(s: Stream, id: string)
    requires IsStream(s) && id in s.log
    ensures IsLog(s.log[id])
  {
  }

  lemma BatchFacts(s: Stream, it: Iterator, a: Answer, behind: nat)
    requires it.shard in s.log && it.pos <= |s.log[it.shard]|
    ensures var l, o := s.log[it.shard], GetRecords(s, it, a, behind);
            && (o.Success? <==> a.Grant?)
            && (o.Success? ==>
                  var b, n := o.result, it.pos + |o.result.records|;
                  && n <= |l| && b.records == l[it.pos..n]
                  && (if b.next.Some? then b.next.value == Iterator(it.shard, n) else it.shard in s.closed && n == |l|))
  {
  }

  lemma NothingRead(l: Log, closed: bool, end: nat, d: Log, b: Batch, was: string, horizon: bool)
    requires StandsAt(d, l, was, closed, horizon, end) && b.records == [] && b.next.Some?
    ensures StandsAt(d + b.records, l, SequenceAfter(b, was), closed, horizon, end)
  {
    assert d + b.records == d;
  }

  lemma BatchStands(l: Log, closed: bool, p: nat, n: nat, d: Log, b: Batch, was: string, horizon: bool)
    requires IsLog(l) && p <= n <= |l| && b.records == l[p..n] && IsPartTo(d + b.records, l, horizon, n)
    requires if b.next == None then closed && n == |l| else p < n
    ensures StandsAt(d + b.records, l, SequenceAfter(b, was), closed, horizon, n)
  {
    hide IsLog, StandsAt, SequenceAfter, IsPartTo;
    if b.next == None {
      AtTheEnd(d + b.records, l, b, was, closed, horizon);
    } else {
      LastNumber(l, p, b.records);
      BehindLast(d + b.records, l, b, was, closed, horizon, n);
    }
  }

  lemma StandingPart(d: Log, l: Log, id: string, closed: bool, horizon: bool, end: nat)
    requires StandsAt(d, l, id, closed, horizon, end)
    ensures IsPartTo(d, l, horizon, end)
  {
  }

  lemma AtTheEnd(d: Log, l: Log, b: Batch, was: string, closed: bool, horizon: bool)
    requires b.next == None && closed && IsPartTo(d, l, horizon, |l|)
    ensures StandsAt(d, l, SequenceAfter(b, was), closed, horizon, |l|)
  {
  }

  lemma BehindLast(d: Log, l: Log, b: Batch, was: string, closed: bool, horizon: bool, n: nat)
    requires b.next.Some? && b.records != [] && IsPartTo(d, l, horizon, n) && d != [] && n > 0
    requires var id := b.records[|b.records| - 1].number; id == l[n - 1].number && id != "" && id != CLOSED
    ensures StandsAt(d, l, SequenceAfter(b, was), closed, horizon, n)
  {
  }

  lemma PartContinues(l: Log, p: nat, end: nat, d: Log, recs: Log, horizon: bool)
    requires IsPartTo(d, l, horizon, end) && (horizon || d != [] ==> p == end)
    requires p + |recs| <= |l| && recs == l[p..p + |recs|]
    ensures IsPartTo(d + recs, l, horizon, p + |recs|)
  {
    if d != [] {
      assert d + recs == l[end - |d|..p + |recs|];
    } else {
      assert d + recs == recs;
    }
  }

  lemma LastNumber(l: Log, p: nat, recs: Log)
    requires IsLog(l) && recs != [] && p + |recs| <= |l| && recs == l[p..p + |recs|]
    ensures recs[|recs| - 1].number == l[p + |recs| - 1].number
    ensures recs[|recs| - 1].number != "" && recs[|recs| - 1].number != CLOSED
  {
    assert recs[|recs| - 1] == l[p + |recs| - 1];
    assert IsNumber(l[p + |recs| - 1].number);
  }

  // ---------------------------------------------------------------- all shards

  // since is what was returned from every shard since its place was last given up.
  ghost predicate IsGood(shards: Shards, s: Stream, since: Sent, horizon: bool) {
    && (forall id | id in shards ::
          id in s.log && IsFine(shards[id], id, SentOf(since, id), s.log[id], id in s.closed, horizon))
    && (forall id | id in s.log && id !in shards ::
          IsPart(SentOf(since, id), s.log[id], horizon) && (id !in s.listed || SentOf(since, id) == []))
    && OnlyExisting(s, since)
  }

  lemma GoodAgrees(shards: Shards, s: Stream, since: Sent, horizon: bool)
    requires IsGood(shards, s, since, horizon)
    ensures Agrees(IdsOf(shards), s, since, horizon)
  {
    hide IsFine, Stands, IsPart;
    forall id | id in s.log
      ensures IsPart(SentOf(since, id), s.log[id], horizon)
      ensures id in shards ==> Stands(SentOf(since, id), s.log[id], shards[id].sequenceId, id in s.closed, horizon)
    {
      if id in shards { FineStands(shards[id], id, SentOf(since, id), s.log[id], id in s.closed, horizon); }
    }
  }

  lemma GoodWhenGrown(shards: Shards, s: Stream, t: Stream, since: Sent, horizon: bool)
    requires IsGood(shards, s, since, horizon) && Grown(s, t)
    ensures IsGood(shards, t, since, horizon)
  {
    hide IsFine, IsPart, IsStream;
    forall id | id in shards
      ensures id in t.log && IsFine(shards[id], id, SentOf(since, id), t.log[id], id in t.closed, horizon)
    {
      FineWhenGrown(shards[id], id, SentOf(since, id), s.log[id], t.log[id], id in s.closed, id in t.closed, horizon);
    }
    forall id | id in t.log && id !in shards
      ensures IsPart(SentOf(since, id), t.log[id], horizon) && (id !in t.listed || SentOf(since, id) == [])
    {
      if id in s.log {
        PartWhenGrown(SentOf(since, id), s.log[id], t.log[id], horizon);
      } else {
        NothingIsPart(t.log[id], horizon);
      }
    }
  }

  // ---------------------------------------------------------------- a round

  // After n shards of a round: those have been visited, all others are as they were, none
  // but the last of them was ready, and the round ends at a ready shard or once around.
  ghost predicate IsRound(ty: IteratorType, s: Stream, shards: Shards, queue: seq<string>, sc: Script, p: Pick,
                          n: nat) {
    && n <= |queue|
    && p.shards.Keys == shards.Keys
    && (forall i | 0 <= i < n ::
          queue[i] in shards && p.shards[queue[i]] == Visited(ty, s, queue[i], shards[queue[i]], sc))
    && (forall id | id in shards && id !in queue[..n] :: p.shards[id] == shards[id])
    && (forall i | 0 <= i < n - 1 :: !IsReady(ty, s, queue[i], shards[queue[i]], sc))
    && p.last == (if n == 0 then None else Some(queue[n - 1]))
    && (if p.chosen == None
        then n == |queue| && (n > 0 ==> !IsReady(ty, s, queue[n - 1], shards[queue[n - 1]], sc))
        else n > 0 && p.chosen == p.last && IsReady(ty, s, queue[n - 1], shards[queue[n - 1]], sc))
  }

  // Every shard is considered in its turn, from behind the cursor, until one is ready.
  lemma {:induction false} RoundIsFair(ty: IteratorType, s: Stream, shards: Shards, queue: seq<string>, sc: Script)
    returns (n: nat)
    requires forall i | 0 <= i < |queue| :: queue[i] in shards
    requires forall i, j | 0 <= i < j < |queue| :: queue[i] != queue[j]
    ensures IsRound(ty, s, shards, queue, sc, FirstReady(ty, s, shards, queue, sc), n)
    decreases |queue|
  {
    hide Visited, IsReady, FirstReady, IsRound;
    n := 0;
    if queue == [] {
      NoRound(ty, s, shards, sc);
    } else if IsReady(ty, s, queue[0], shards[queue[0]], sc) {
      n := 1;
      RoundEnds(ty, s, shards, queue, sc);
    } else {
      var id, rest := queue[0], queue[1..];
      var shards' := shards[id := Visited(ty, s, id, shards[id], sc)];
      assert shards'.Keys == shards.Keys;
      var m := RoundIsFair(ty, s, shards', rest, sc);
      n := m + 1;
      RoundStep(ty, s, shards, queue, sc, FirstReady(ty, s, shards', rest, sc), m);
      FirstReadyStep(ty, s, shards, queue, sc);
    }
  }

  lemma NoRound(ty: IteratorType, s: Stream, shards: Shards, sc: Script)
    ensures IsRound(ty, s, shards, [], sc, FirstReady(ty, s, shards, [], sc), 0)
  {
  }

  lemma RoundEnds(ty: IteratorType, s: Stream, shards: Shards, queue: seq<string>, sc: Script)
    requires queue != [] && queue[0] in shards && IsReady(ty, s, queue[0], shards[queue[0]], sc)
    ensures IsRound(ty, s, shards, queue, sc, FirstReady(ty, s, shards, queue, sc), 1)
  {
    hide Visited, IsReady;
    assert queue[..1] == [queue[0]];
    assert shards[queue[0] := Visited(ty, s, queue[0], shards[queue[0]], sc)].Keys == shards.Keys;
  }

  lemma FirstReadyStep(ty: IteratorType, s: Stream, shards: Shards, queue: seq<string>, sc: Script)
    requires queue != [] && queue[0] in shards && !IsReady(ty, s, queue[0], shards[queue[0]], sc)
    ensures var id := queue[0];
            var p := FirstReady(ty, s, shards[id := Visited(ty, s, id, shards[id], sc)], queue[1..], sc);
            FirstReady(ty, s, shards, queue, sc) == if p.last == None then p.(last := Some(id)) else p
  {
  }

  lemma RoundStep(ty: IteratorType, s: Stream, shards: Shards, queue: seq<string>, sc: Script, p: Pick, m: nat)
    requires queue != [] && queue[0] in shards && queue[0] !in queue[1..]
    requires !IsReady(ty, s, queue[0], shards[queue[0]], sc)
    requires IsRound(ty, s, shards[queue[0] := Visited(ty, s, queue[0], shards[queue[0]], sc)], queue[1..], sc, p, m)
    ensures IsRound(ty, s, shards, queue, sc, if p.last == None then p.(last := Some(queue[0])) else p, m + 1)
  {
    hide Visited, IsReady;
    var id, rest := queue[0], queue[1..];
    var shards' := shards[id := Visited(ty, s, id, shards[id], sc)];
    assert shards'.Keys == shards.Keys;
    assert queue[..m + 1] == [id] + rest[..m];
    assert id !in rest[..m];
    forall i | 0 <= i < m + 1
      ensures queue[i] in shards && p.shards[queue[i]] == Visited(ty, s, queue[i], shards[queue[i]], sc)
      ensures i < m ==> !IsReady(ty, s, queue[i], shards[queue[i]], sc)
    {
      if i > 0 {
        assert queue[i] == rest[i - 1] && rest[i - 1] in rest;
      }
    }
  }

  // What is left of the records since the last giving up.
  function Dropped(since: Sent, lost: set<string>): (r: Sent)
    ensures forall id :: SentOf(r, id) == if id in lost then [] else SentOf(since, id)
  {
    map id | id in since && id !in lost :: since[id]
  }

  function Delivered(sent: Sent, id: string, recs: Log): (r: Sent)
    ensures forall x :: SentOf(r, x) == if x == id then SentOf(sent, id) + recs else SentOf(sent, x)
  {
    if recs == [] then sent else sent[id := SentOf(sent, id) + recs]
  }

  // The shards of which a round gives up the place: those asked about before the round
  // ends that the service refuses for good.
  ghost predicate AreRefused(ty: IteratorType, s: Stream, shards: Shards, queue: seq<string>, sc: Script,
                             lost: set<string>) {
    exists n: nat ::
      && IsRound(ty, s, shards, queue, sc, FirstReady(ty, s, shards, queue, sc), n)
      && forall id :: id in lost <==> id in queue[..n] && IsRefused(id, shards[id], sc)
  }

  lemma RotationFacts(st: State)
    requires IsOrdered(st)
    ensures var queue := Rotation(st.order, st.cursor);
            && |queue| == |st.order|
            && (forall i | 0 <= i < |queue| :: queue[i] in st.shards)
            && forall i, j | 0 <= i < j < |queue| :: queue[i] != queue[j]
  {
    var queue := Rotation(st.order, st.cursor);
    OrderFacts(queue, st.shards.Keys);
    assert |multiset(queue)| == |multiset(st.order)|;
    assert forall i | 0 <= i < |queue| :: queue[i] in queue;
  }

  lemma RoundIsGood(ty: IteratorType, s: Stream, st: State, sc: Script, since: Sent)
    requires IsStream(s) && IsOrdered(st) && !ty.AfterSequenceNumber?
    requires IsGood(st.shards, s, since, ty == TrimHorizon)
    ensures var p := Round(ty, s, st, sc);
            var lost := GivenUp(st.shards, p.shards);
            && IsGood(p.shards, s, Dropped(since, lost), ty == TrimHorizon)
            && AreRefused(ty, s, st.shards, Rotation(st.order, st.cursor), sc, lost)
            && IsOrdered(AfterRound(st, p))
            && (p.chosen.Some? ==> p.shards[p.chosen.value].sequenceId != CLOSED)
  {
    hide IsFine, IsPart, IsStream, Visited, IsReady, FirstReady, IsRefused, IsRound, Rotation, IsOrdered;
    var queue := Rotation(st.order, st.cursor);
    var p, horizon := Round(ty, s, st, sc), ty == TrimHorizon;
    var lost := GivenUp(st.shards, p.shards);
    RotationFacts(st);
    var n := RoundIsFair(ty, s, st.shards, queue, sc);
    RoundFacts(ty, s, st.shards, queue, sc, p, n);
    forall id | id in st.shards
      ensures id in lost <==> id in queue[..n] && IsRefused(id, st.shards[id], sc)
      ensures IsFine(p.shards[id], id, if id in lost then [] else SentOf(since, id), s.log[id], id in s.closed, horizon)
    {
      AfterRoundIsFine(ty, s, st.shards, queue, sc, p, n, id, SentOf(since, id));
    }
    DropIsGood(st.shards, p.shards, s, since, lost, horizon);
    assert forall id :: id in lost <==> id in queue[..n] && IsRefused(id, st.shards[id], sc);
    CursorMoves(st, p);
  }

  lemma CursorMoves(st: State, p: Pick)
    requires IsOrdered(st) && p.shards.Keys == st.shards.Keys
    requires p.last.Some? ==> p.last.value in Rotation(st.order, st.cursor)
    ensures IsOrdered(AfterRound(st, p))
  {
    if p.last.Some? { assert p.last.value in multiset(Rotation(st.order, st.cursor)); }
  }

  lemma RoundFacts(ty: IteratorType, s: Stream, shards: Shards, queue: seq<string>, sc: Script, p: Pick, n: nat)
    requires IsRound(ty, s, shards, queue, sc, p, n)
    ensures n <= |queue| && p.shards.Keys == shards.Keys
    ensures forall id | id in queue[..n] :: id in shards
    ensures p.chosen.Some? ==> p.chosen.value in shards && p.shards[p.chosen.value].sequenceId != CLOSED
  {
  }

  lemma AfterRoundIsFine(ty: IteratorType, s: Stream, shards: Shards, queue: seq<string>, sc: Script, p: Pick, n: nat,
                         id: string, d: Log)
    requires IsRound(ty, s, shards, queue, sc, p, n) && id in shards
    requires IsStream(s) && id in s.log && !ty.AfterSequenceNumber?
    requires IsFine(shards[id], id, d, s.log[id], id in s.closed, ty == TrimHorizon)
    ensures var lost := shards[id].sequenceId != "" && p.shards[id].sequenceId == "";
            && (lost <==> id in queue[..n] && IsRefused(id, shards[id], sc))
            && IsFine(p.shards[id], id, if lost then [] else d, s.log[id], id in s.closed, ty == TrimHorizon)
  {
    hide IsFine, IsStream, Visited, IsReady, IsAsked;
    if id in queue[..n] {
      VisitedIsFine(ty, s, id, shards[id], sc, d);
    }
  }

  lemma DropIsGood(shards: Shards, shards': Shards, s: Stream, since: Sent, lost: set<string>, horizon: bool)
    requires IsGood(shards, s, since, horizon) && shards'.Keys == shards.Keys && lost <= shards.Keys
    requires forall id | id in shards ::
               IsFine(shards'[id], id, if id in lost then [] else SentOf(since, id), s.log[id], id in s.closed, horizon)
    ensures IsGood(shards', s, Dropped(since, lost), horizon)
  {
    hide IsFine, IsPart;
  }

  // ---------------------------------------------------------------- the list of shards

  lemma NewShardIsFine(ty: IteratorType, s: Stream, id: string, sc: Script)
    requires id in s.log && !ty.AfterSequenceNumber?
    ensures IsFine(NewShard(ty, s, id, sc), id, [], s.log[id], id in s.closed, ty == TrimHorizon)
  {
    NewIsFine(NewShard(ty, s, id, sc), id, s.log[id], id in s.closed, ty == TrimHorizon);
  }

  lemma RelistedIsGood(ty: IteratorType, s: Stream, shards: Shards, sc: Script, since: Sent)
    requires IsStream(s) && !ty.AfterSequenceNumber? && IsGood(shards, s, since, ty == TrimHorizon)
    ensures IsGood(Relisted(ty, s, shards, sc), s, since, ty == TrimHorizon)
  {
    hide IsFine, IsPart;
    var horizon, shards' := ty == TrimHorizon, Relisted(ty, s, shards, sc);
    forall id | id in s.log
      ensures id in shards' ==> IsFine(shards'[id], id, SentOf(since, id), s.log[id], id in s.closed, horizon)
      ensures id !in shards' ==> IsPart(SentOf(since, id), s.log[id], horizon)
    {
      if id in shards {
        FineStands(shards[id], id, SentOf(since, id), s.log[id], id in s.closed, horizon);
        FineWithout(shards[id], shards[id].(active := true), id, SentOf(since, id), s.log[id], id in s.closed, horizon);
      } else if id in s.listed {
        NewShardIsFine(ty, s, id, sc);
      }
    }
    assert forall i | 0 <= i < |s.listed| :: s.listed[i] in s.log;
  }

  lemma {:induction false} DistinctIsOrder(order: seq<string>, keys: set<string>)
    requires forall i, j | 0 <= i < j < |order| :: order[i] != order[j]
    requires forall id :: id in order <==> id in keys
    ensures IsOrder(order, keys)
    decreases |order|
  {
    if order == [] {
      assert keys == {};
    } else {
      var id, rest := order[0], order[1..];
      assert order == [id] + rest;
      DistinctIsOrder(rest, keys - {id});
      assert multiset(keys) == multiset(keys - {id}) + multiset{id};
    }
  }

  lemma {:induction false} JoinedFacts(order: seq<string>, listed: seq<string>, keys: set<string>)
    requires IsOrder(order, keys)
    ensures IsOrder(Joined(order, listed), keys + set id | id in listed)
    decreases |listed|
  {
    if listed == [] {
      assert keys + (set id | id in listed) == keys;
    } else {
      var id, rest := listed[0], listed[1..];
      OrderFacts(order, keys);
      assert listed == [id] + rest;
      assert keys + (set x | x in listed) == keys + {id} + set x | x in rest;
      if id in order {
        assert keys + {id} == keys;
        JoinedFacts(order, rest, keys);
      } else {
        assert IsOrder(Inserted(order, id), keys + {id});
        JoinedFacts(Inserted(order, id), rest, keys + {id});
      }
    }
  }

  ghost predicate IsDistinct(order: seq<string>) {
    forall i, j | 0 <= i < j < |order| :: order[i] != order[j]
  }

  lemma DistinctCons(id: string, rest: seq<string>)
    requires IsDistinct(rest) && id !in rest
    ensures IsDistinct([id] + rest)
  {
  }

  lemma {:induction false} KeptDistinct(order: seq<string>, listed: seq<string>)
    requires IsDistinct(order)
    ensures IsDistinct(Kept(order, listed))
    decreases |order|
  {
    if order != [] {
      var id, rest := order[0], order[1..];
      KeptDistinct(rest, listed);
      assert id !in rest && id !in Kept(rest, listed);
      DistinctCons(id, Kept(rest, listed));
      assert [] + Kept(rest, listed) == Kept(rest, listed);
    }
  }

  lemma RelistIsOrdered(ty: IteratorType, s: Stream, st: State, sc: Script)
    requires IsOrdered(st)
    ensures IsOrdered(Relist(ty, s, st, sc))
  {
    hide Joined, Kept, KeptCursor;
    var order, listed := Joined(st.order, s.listed), set id | id in s.listed;
    JoinedFacts(st.order, s.listed, st.shards.Keys);
    OrderFacts(st.order, st.shards.Keys);
    OrderFacts(order, st.shards.Keys + listed);
    KeptDistinct(order, s.listed);
    assert Relisted(ty, s, st.shards, sc).Keys == listed;
    forall id ensures id in Kept(order, s.listed) <==> id in listed {
      assert id in Kept(order, s.listed) <==> id in order && id in s.listed;
    }
    DistinctIsOrder(Kept(order, s.listed), listed);
    CursorStays(order, st.cursor, s.listed);
  }

  lemma CursorStays(order: seq<string>, cursor: Option<string>, listed: seq<string>)
    requires cursor.Some? ==> cursor.value in order
    ensures var c := KeptCursor(order, cursor, listed); c.Some? ==> c.value in Kept(order, listed)
  {
    if cursor.Some? && cursor.value !in listed {
      var rest := order[PlaceOf(order, cursor.value) + 1..];
      assert forall id | id in rest :: id in order;
    }
  }

  // What is kept between calls.
  ghost predicate IsKept(ty: IteratorType, s: Stream, st: State, since: Sent) {
    IsStream(s) && !ty.AfterSequenceNumber? && IsOrdered(st) && IsGood(st.shards, s, since, ty == TrimHorizon)
  }

  lemma KeptWhenGrown(ty: IteratorType, s: Stream, t: Stream, st: State, since: Sent)
    requires IsKept(ty, s, st, since) && Grown(s, t)
    ensures IsKept(ty, t, st, since)
  {
    GoodWhenGrown(st.shards, s, t, since, ty == TrimHorizon);
  }

  lemma LookIsKept(ty: IteratorType, s: Stream, st: State, sc: Script, retries: nat, since: Sent)
    requires IsKept(ty, s, st, since)
    ensures IsKept(ty, s, Look(ty, s, st, sc, retries).state, since)
    ensures var l := Look(ty, s, st, sc, retries);
            l.code == 0 ==> l.state.shards.Keys == (set id | id in s.listed) && s.listed != []
  {
    hide IsStream, IsGood, IsOrdered;
    RelistIsOrdered(ty, s, st, sc);
    RelistedIsGood(ty, s, st.shards, sc, since);
    var shards := Relisted(ty, s, st.shards, sc);
    if s.listed == [] { assert shards == map[]; }
  }

  lemma RefreshedIsKept(ty: IteratorType, s: Stream, st: State, time: int, sc: Script, since: Sent)
    requires IsKept(ty, s, st, since)
    ensures IsKept(ty, s, Refreshed(ty, s, st, time, sc).state, since)
  {
    hide IsStream, IsGood, Look;
    LookIsKept(ty, s, st, sc, 0, since);
  }

  // ---------------------------------------------------------------- a call

  lemma OneShard(shards: Shards, id: string, sh: Shard, s: Stream, since: Sent, recs: Log, horizon: bool)
    requires IsGood(shards, s, since, horizon) && id in shards
    requires IsFine(sh, id, SentOf(since, id) + recs, s.log[id], id in s.closed, horizon)
    ensures IsGood(shards[id := sh], s, Delivered(since, id, recs), horizon)
  {
    hide IsFine, IsPart;
  }

  // The text that comes with records says where to go on behind them.
  ghost predicate IsCheckpoint(text: string, s: Stream, since: Sent, horizon: bool) {
    Parse(text).Some? && Agrees(Parse(text).value, s, since, horizon)
    && forall id | id in Parse(text).value :: id in s.log
  }

  lemma CheckpointAgrees(ty: IteratorType, s: Stream, st: State, since: Sent)
    requires IsKept(ty, s, st, since)
    ensures IsCheckpoint(Text(st.order, IdsOf(st.shards)), s, since, ty == TrimHorizon)
  {
    hide Agrees, IsGood, Parse, Text, IsStream, IsOrder;
    var ids, horizon := IdsOf(st.shards), ty == TrimHorizon;
    assert ids.Keys == st.shards.Keys;
    OrderFacts(st.order, ids.Keys);
    forall i | 0 <= i < |st.order| ensures st.order[i] in ids { assert st.order[i] in st.order; }
    GoodAgrees(st.shards, s, since, horizon);
    IdTexts(st.shards, s, since, horizon);
    ParseText(st.order, ids);
    KnownAgrees(st.order, ids, s, since, horizon);
  }

  lemma IdTexts(shards: Shards, s: Stream, since: Sent, horizon: bool)
    requires IsStream(s) && IsGood(shards, s, since, horizon)
    ensures forall id | id in IdsOf(shards) ::
              id in s.log && id != "" && '\t' !in id && '\n' !in IdsOf(shards)[id]
  {
    hide IsFine, IsPart, IsLog;
    forall id | id in shards ensures '\n' !in shards[id].sequenceId {
      IdText(shards[id], id, SentOf(since, id), s.log[id], id in s.closed, horizon);
    }
  }

  lemma IdText(sh: Shard, id: string, d: Log, l: Log, closed: bool, horizon: bool)
    requires IsLog(l) && IsFine(sh, id, d, l, closed, horizon)
    ensures '\n' !in sh.sequenceId
  {
    var end: nat :| IsFineAt(sh, id, d, l, closed, horizon, end);
    if sh.sequenceId != "" && sh.sequenceId != CLOSED { assert IsNumber(l[end - 1].number); }
  }

  // What the answer to a request for records leads to: the records continue the shard, and
  // with records there is a checkpoint.
  lemma AnsweredIsKept(ty: IteratorType, s: Stream, st: State, id: string, sc: Script, since: Sent)
    requires IsKept(ty, s, st, since) && id in st.shards
    requires st.shards[id].it.Some? && st.shards[id].sequenceId != CLOSED
    ensures var r := Answered(s, st, id, sc);
            var data := DataIn(r.reply);
            var since' := Delivered(since, id, data);
            && IsKept(ty, s, r.state, since')
            && (data != [] ==> r.reply.checkpoints.Some?)
            && (r.reply.Records? && r.reply.checkpoints.Some? ==>
                  data != [] && IsCheckpoint(r.reply.checkpoints.value, s, since', ty == TrimHorizon))
  {
    hide IsStream, IsGood, IsFine, IsCheckpoint, GetRecords, Text, IsOrder;
    var sh, horizon := st.shards[id], ty == TrimHorizon;
    var o := GetRecords(s, sh.it.value, sc.batch, sc.behind);
    var recs := if o.Success? then o.result.records else [];
    GoodShard(st.shards, id, s, since, horizon);
    BatchIsFine(s, id, sh, sc.batch, sc.behind, sc.later(id), SentOf(since, id), horizon);
    assert SentOf(since, id) + [] == SentOf(since, id);
    OneShard(st.shards, id, ShardAfter(sh, o, sc.later(id)), s, since, recs, horizon);
    var r := Answered(s, st, id, sc);
    assert r.state.shards.Keys == st.shards.Keys;
    CheckpointAgrees(ty, s, r.state, Delivered(since, id, recs));
  }

  lemma GoodShard(shards: Shards, id: string, s: Stream, since: Sent, horizon: bool)
    requires IsGood(shards, s, since, horizon) && id in shards
    ensures id in s.log && IsFine(shards[id], id, SentOf(since, id), s.log[id], id in s.closed, horizon)
  {
  }

  function DataIn(reply: Reply): Log {
    if reply.Records? then reply.data else []
  }

  lemma ReceiveIsKept(ty: IteratorType, s: Stream, st: State, time: int, sc: Script, since: Sent)
    requires IsKept(ty, s, st, since)
    ensures var r := Receive(ty, s, st, time, sc);
            var since' := Delivered(Dropped(since, r.lost), r.from, DataIn(r.reply));
            && IsKept(ty, s, r.state, since')
            && (DataIn(r.reply) != [] ==> r.from in s.log && r.reply.checkpoints.Some?)
            && (r.reply.Records? && r.reply.checkpoints.Some? ==>
                  DataIn(r.reply) != [] && IsCheckpoint(r.reply.checkpoints.value, s, since', ty == TrimHorizon))
  {
    hide IsStream, IsGood, IsOrdered, IsCheckpoint, Refreshed, Round, Answered, AreRefused, IsOrdered;
    RefreshedIsKept(ty, s, st, time, sc, since);
    var l := Refreshed(ty, s, st, time, sc);
    if l.code == 1 {
      NothingDropped(l.state.shards, s, since, ty == TrimHorizon);
    } else {
      var p := Round(ty, s, l.state, sc);
      RoundIsGood(ty, s, l.state, sc, since);
      RoundKeys(ty, s, l.state, sc);
      if p.chosen.Some? {
        var since1 := Dropped(since, GivenUp(l.state.shards, p.shards));
        GoodShard(p.shards, p.chosen.value, s, since1, ty == TrimHorizon);
        AnsweredIsKept(ty, s, AfterRound(l.state, p), p.chosen.value, sc, since1);
      }
    }
  }

  lemma NothingDropped(shards: Shards, s: Stream, since: Sent, horizon: bool)
    requires IsGood(shards, s, since, horizon)
    ensures IsGood(shards, s, Dropped(since, {}), horizon)
  {
    assert Dropped(since, {}) == since;
  }

  lemma RoundKeys(ty: IteratorType, s: Stream, st: State, sc: Script)
    ensures var p := Round(ty, s, st, sc);
            p.chosen.Some? ==> p.chosen.value in p.shards && p.shards[p.chosen.value].it.Some?
  {
  }

  // The places a call gives up are those whose sequence id the service refuses for good
  // in the round of the call.
  lemma GivenUpIffRefused(ty: IteratorType, s: Stream, st: State, time: int, sc: Script, since: Sent)
    requires IsKept(ty, s, st, since)
    ensures var r, l := Receive(ty, s, st, time, sc), Refreshed(ty, s, st, time, sc);
            && (l.code == 1 ==> r.lost == {})
            && (l.code != 1 ==>
                  AreRefused(ty, s, l.state.shards, Rotation(l.state.order, l.state.cursor), sc, r.lost))
    ensures forall id | id in Receive(ty, s, st, time, sc).lost :: sc.renewed(id).Refuse? && !sc.renewed(id).shouldRetry
  {
    hide IsStream, IsGood, IsOrdered, Refreshed, Round, Answered;
    var l := Refreshed(ty, s, st, time, sc);
    RefreshedIsKept(ty, s, st, time, sc, since);
    if l.code != 1 {
      RoundIsGood(ty, s, l.state, sc, since);
      var queue := Rotation(l.state.order, l.state.cursor);
      AreRefusedFacts(ty, s, l.state.shards, queue, sc, Receive(ty, s, st, time, sc).lost);
    }
  }

  lemma AreRefusedFacts(ty: IteratorType, s: Stream, shards: Shards, queue: seq<string>, sc: Script, lost: set<string>)
    requires AreRefused(ty, s, shards, queue, sc, lost)
    ensures forall id | id in lost :: sc.renewed(id).Refuse? && !sc.renewed(id).shouldRetry
  {
    hide IsRound;
  }

  // ---------------------------------------------------------------- starting

  lemma KeyAdded(order: seq<string>, keys: set<string>, id: string)
    requires IsOrder(order, keys)
    ensures id in order <==> id in keys
    ensures IsOrder(if id in keys then order else Inserted(order, id), keys + {id})
  {
    OrderFacts(order, keys);
    if id in keys { assert keys + {id} == keys; }
  }

  lemma NoLine()
    ensures !IsLine("")
  {
  }

  lemma ParseKeys(text: string)
    requires Parse(text).Some?
    ensures text == "" ==> Parse(text).value == map[] && forall order :: Entered(text, order) == order
    ensures text != "" ==>
              && IsLine(text) && Parse(More(text)).Some?
              && Parse(text).value.Keys == {LineId(text)} + Parse(More(text)).value.Keys
  {
    hide More, LineId, LineSeq, IsLine;
    NoLine();
    if text != "" { ParseStep(text); }
  }

  lemma {:induction false} EnteredIsOrder(text: string, order: seq<string>, keys: set<string>)
    requires Parse(text).Some? && IsOrder(order, keys)
    ensures IsOrder(Entered(text, order), keys + Parse(text).value.Keys)
    decreases |text|
  {
    hide Parse, Entered, More, LineId, IsLine, Inserted, IsOrder;
    ParseKeys(text);
    if text == "" {
      assert keys + Parse(text).value.Keys == keys;
    } else {
      var id, more := LineId(text), More(text);
      EnteredStep(text, order);
      KeyAdded(order, keys, id);
      EnteredIsOrder(more, if id in keys then order else Inserted(order, id), keys + {id});
      assert keys + {id} + Parse(more).value.Keys == keys + Parse(text).value.Keys;
    }
  }

  lemma UnreadIsGood(ids: map<string, string>, s: Stream, since: Sent, horizon: bool)
    requires Agrees(ids, s, since, horizon) && OnlyExisting(s, since) && forall id | id in ids :: id in s.log
    ensures IsGood(Unread(ids), s, since, horizon)
  {
    hide IsFine, IsPart, Stands;
    forall id | id in ids
      ensures IsFine(Unread(ids)[id], id, SentOf(since, id), s.log[id], id in s.closed, horizon)
    {
      StandingIsFine(Unread(ids)[id], id, SentOf(since, id), s.log[id], id in s.closed, horizon);
    }
  }

  // A consumer that starts with a checkpoint goes on where the checkpoint says.
  lemma OpenedIsKept(ty: IteratorType, s: Stream, text: string, time: int, sc: Script, since: Sent)
    requires IsStream(s) && !ty.AfterSequenceNumber? && OnlyExisting(s, since)
    requires IsCheckpoint(text, s, since, ty == TrimHorizon)
    ensures var st := Opened(ty, s, text, time, sc);
            st.Some? ==> IsKept(ty, s, st.value, since) && st.value.shards.Keys == set id | id in s.listed
  {
    hide IsStream, IsGood, Agrees, Parse, Look, Entered;
    var m := Parse(text).value;
    var st := State(Unread(m), Entered(text, []), None, time);
    UnreadIsGood(m, s, since, ty == TrimHorizon);
    EnteredIsOrder(text, [], {});
    assert {} + m.Keys == st.shards.Keys;
    LookIsKept(ty, s, st, sc, 10, since);
  }
}
