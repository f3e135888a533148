// What a Kinesis consumer does, as functions of its fields and of the answers of the
// service (aws/kinesis.cpp).

module KinesisModel {
  import opened Common
  import opened KinesisSpec

  // ---------------------------------------------------------------- the service

  datatype Iterator = Iterator(shard: string, pos: nat)

  datatype IteratorType = TrimHorizon | Latest | AtTimestamp(time: int) | AfterSequenceNumber(number: string)

  datatype ErrorKind = Throttled | Expired | Other

  datatype Outcome<T> = Success(result: T) | Failure(kind: ErrorKind, shouldRetry: bool)

  datatype Batch = Batch(records: Log, next: Option<Iterator>, behind: nat)

  datatype Page = Page(ids: seq<string>, more: bool, ready: bool)

  // How the service answers a request: with an error, or with as much as it likes.
  datatype Answer = Refuse(kind: ErrorKind, shouldRetry: bool) | Grant(size: nat)

  // All answers during one call, and the clock as it is read: the pages of the shard list
  // by number, the iterators asked for when a shard is first listed and when one has been
  // lost, the batch of records, and the time before and after a request.
  datatype Script = Script(page: nat -> Answer, ready: nat -> bool, listed: string -> Answer, renewed: string -> Answer,
                           batch: Answer, behind: nat, clock: string -> int, later: string -> int)

  function IndexOf(l: Log, number: string): (k: nat)
    ensures k <= |l| && (k < |l| ==> l[k].number == number) && forall i | 0 <= i < k :: l[i].number != number
  {
    if l == [] || l[0].number == number then 0 else 1 + IndexOf(l[1..], number)
  }

  // The place an iterator type stands for; a number that is not in the log is refused.
  function GetShardIterator(s: Stream, id: string, t: IteratorType, a: Answer): (o: Outcome<Iterator>)
    ensures o.Success? ==> id in s.log && o.result.shard == id && o.result.pos <= |s.log[id]|
  {
    if a.Refuse? then Failure(a.kind, a.shouldRetry)
    else if id !in s.log then Failure(Other, false)
    else
      var l := s.log[id];
      match t
      case TrimHorizon => Success(Iterator(id, 0))
      case Latest => Success(Iterator(id, |l|))
      case AtTimestamp(time) => Success(Iterator(id, if a.size <= |l| then a.size else |l|))
      case AfterSequenceNumber(n) =>
        var k := IndexOf(l, n);
        if k < |l| then Success(Iterator(id, k + 1)) else Failure(Other, false)
  }

  // A batch continues at the iterator; there is no next iterator exactly behind the last
  // record of a closed shard.
  function GetRecords(s: Stream, it: Iterator, a: Answer, behind: nat): (o: Outcome<Batch>) {
    if a.Refuse? then Failure(a.kind, a.shouldRetry)
    else if it.shard !in s.log || it.pos > |s.log[it.shard]| then Failure(Other, false)
    else
      var l := s.log[it.shard];
      var n := if it.pos + a.size <= |l| then it.pos + a.size else |l|;
      var next := if it.shard in s.closed && n == |l| then None else Some(Iterator(it.shard, n));
      Success(Batch(l[it.pos..n], next, behind))
  }

  // One page of the list of shards, from position n on; a page that is not the last one is
  // not empty.
  function DescribeStream(s: Stream, n: nat, a: Answer, ready: bool): (o: Outcome<Page>)
    requires n <= |s.listed|
    ensures o.Success? ==>
              var m := n + |o.result.ids|;
              && m <= |s.listed| && o.result.ids == s.listed[n..m]
              && o.result.more == (m < |s.listed|) && (o.result.more ==> m > n)
  {
    if a.Refuse? then Failure(a.kind, a.shouldRetry)
    else
      var m := if n + a.size + 1 <= |s.listed| then n + a.size + 1 else |s.listed|;
      Success(Page(s.listed[n..m], m < |s.listed|, ready))
  }

  // ---------------------------------------------------------------- the consumer's fields

  // An empty string for no iterator is None here; times are in milliseconds.
  datatype Shard = Shard(it: Option<Iterator>, sequenceId: string, nextRequest: int, behind: nat, active: bool)

  type Shards = map<string, Shard>

  // The shards, their keys in map order, the position in it, and the time of the last look
  // at the shard list.
  datatype State = State(shards: Shards, order: seq<string>, cursor: Option<string>, refresh: int)

  datatype Reply = Thrown | Records(data: Log, checkpoints: Option<string>)

  ghost predicate IsOrdered(st: State) {
    IsOrder(st.order, st.shards.Keys) && (st.cursor.Some? ==> st.cursor.value in st.order)
  }

  function IdsOf(shards: Shards): (ids: map<string, string>) {
    map id | id in shards :: shards[id].sequenceId
  }

  // The order of the keys of a std::map.
  predicate Less(a: string, b: string) {
    b != "" && (a == "" || a[0] < b[0] || (a[0] == b[0] && Less(a[1..], b[1..])))
  }

  function Inserted(order: seq<string>, id: string): (r: seq<string>)
    ensures multiset(r) == multiset(order) + multiset{id} && |r| == |order| + 1
  {
    if order == [] then [id]
    else if Less(id, order[0]) then [id] + order
    else
      assert order == [order[0]] + order[1..];
      [order[0]] + Inserted(order[1..], id)
  }

  // ---------------------------------------------------------------- iterators

  // The iterator to ask for; a known closed shard is not asked for, but would be at its end.
  function Resume(ty: IteratorType, seqId: string): IteratorType {
    if seqId == "" then ty else if seqId == CLOSED then Latest else AfterSequenceNumber(seqId)
  }

  // A request for an iterator: when the service refuses for good, the place is given up.
  function Renewed(ty: IteratorType, s: Stream, id: string, sh: Shard, sc: Script): (sh': Shard) {
    var o := GetShardIterator(s, id, Resume(ty, sh.sequenceId), sc.renewed(id));
    if o.Success? then sh.(it := Some(o.result))
    else sh.(it := None, sequenceId := if o.shouldRetry then sh.sequenceId else "", nextRequest := sc.later(id) + 1000)
  }

  // One shard in the round: it is passed over when closed, without an iterator or not yet
  // due.
  function Visited(ty: IteratorType, s: Stream, id: string, sh: Shard, sc: Script): (sh': Shard) {
    if sh.sequenceId != CLOSED && sh.it == None && sc.clock(id) >= sh.nextRequest
    then Renewed(ty, s, id, sh, sc)
    else sh
  }

  predicate IsReady(ty: IteratorType, s: Stream, id: string, sh: Shard, sc: Script) {
    sh.sequenceId != CLOSED && Visited(ty, s, id, sh, sc).it.Some? && sc.clock(id) - sh.nextRequest >= -1
  }

  // The order of a round: from behind the cursor once around.
  function Rotation(order: seq<string>, cursor: Option<string>): (r: seq<string>)
    ensures multiset(r) == multiset(order)
  {
    if cursor == None then order
    else
      var i := PlaceOf(order, cursor.value);
      if i == |order| then order
      else
        assert order == order[..i + 1] + order[i + 1..];
        order[i + 1..] + order[..i + 1]
  }

  function PlaceOf(order: seq<string>, id: string): (i: nat)
    ensures i <= |order| && (i < |order| ==> order[i] == id) && (id in order ==> i < |order|)
  {
    if order == [] || order[0] == id then 0 else 1 + PlaceOf(order[1..], id)
  }

  datatype Pick = Pick(shards: Shards, last: Option<string>, chosen: Option<string>)

  // The first ready shard of a round, with all shards before it visited.
  ghost function FirstReady(ty: IteratorType, s: Stream, shards: Shards, queue: seq<string>, sc: Script): (p: Pick)
    ensures p.shards.Keys == shards.Keys
    ensures p.chosen.Some? ==> p.chosen.value in p.shards && p.shards[p.chosen.value].it.Some?
    ensures p.last.Some? ==> p.last.value in queue
    decreases |queue|
  {
    if queue == [] || queue[0] !in shards then Pick(shards, None, None)
    else
      var id := queue[0];
      var shards' := shards[id := Visited(ty, s, id, shards[id], sc)];
      assert shards'.Keys == shards.Keys;
      if IsReady(ty, s, id, shards[id], sc) then Pick(shards', Some(id), Some(id))
      else
        var p := FirstReady(ty, s, shards', queue[1..], sc);
        if p.last == None then p.(last := Some(id)) else p
  }

  // ---------------------------------------------------------------- the list of shards

  // What fetching the list comes to: 0 for all of it, 1 for an error, 2 for giving up for
  // now.  page is the number of the next request and n the number of shards listed so far.
  ghost function ListCode(s: Stream, sc: Script, page: nat, n: nat, left: nat, known: bool): (code: nat)
    requires n <= |s.listed|
    ensures code <= 2
    decreases left + |s.listed| - n
  {
    var o := DescribeStream(s, n, sc.page(page), sc.ready(page));
    if o.Failure? then
      if o.kind != Throttled && !o.shouldRetry then 1
      else if left == 0 then (if known then 2 else 1)
      else ListCode(s, sc, page + 1, n, left - 1, known)
    else if !o.result.ready then 1
    else if o.result.more then ListCode(s, sc, page + 1, n + |o.result.ids|, left, known)
    else 0
  }

  function NewShard(ty: IteratorType, s: Stream, id: string, sc: Script): Shard {
    var o := GetShardIterator(s, id, ty, sc.listed(id));
    Shard(if o.Success? then Some(o.result) else None, "", 0, 0, true)
  }

  // The shards afterwards are the listed ones, known ones with everything they had.
  function Relisted(ty: IteratorType, s: Stream, shards: Shards, sc: Script): Shards {
    map id | id in s.listed :: if id in shards then shards[id].(active := true) else NewShard(ty, s, id, sc)
  }

  function Joined(order: seq<string>, listed: seq<string>): seq<string>
    decreases |listed|
  {
    if listed == [] then order
    else Joined(if listed[0] in order then order else Inserted(order, listed[0]), listed[1..])
  }

  function Kept(order: seq<string>, listed: seq<string>): (r: seq<string>)
    ensures forall id :: id in r <==> id in order && id in listed
  {
    if order == [] then [] else (if order[0] in listed then [order[0]] else []) + Kept(order[1..], listed)
  }

  // An erased cursor moves on to the next shard that stays.
  function KeptCursor(order: seq<string>, cursor: Option<string>, listed: seq<string>): (c: Option<string>)
    ensures c.Some? ==> c.value in listed
  {
    if cursor == None then None
    else if cursor.value in listed then cursor
    else
      var i := PlaceOf(order, cursor.value);
      if i == |order| then None
      else
        var rest := Kept(order[i + 1..], listed);
        if rest == [] then None else (assert rest[0] in rest; Some(rest[0]))
  }

  ghost function Relist(ty: IteratorType, s: Stream, st: State, sc: Script): State {
    var order := Joined(st.order, s.listed);
    State(Relisted(ty, s, st.shards, sc), Kept(order, s.listed), KeptCursor(order, st.cursor, s.listed), st.refresh)
  }

  datatype Looked = Looked(state: State, code: nat)

  // get_shards
  ghost function Look(ty: IteratorType, s: Stream, st: State, sc: Script, retries: nat): Looked {
    var code := ListCode(s, sc, 0, 0, retries, st.shards != map[]);
    if code != 0 then Looked(st, code)
    else
      var st' := Relist(ty, s, st, sc);
      Looked(st', if st'.shards == map[] then 1 else 0)
  }

  // ---------------------------------------------------------------- receiving

  // The sequence id after a batch; a shard that has ended is marked as closed.
  function SequenceAfter(b: Batch, was: string): string {
    if b.next == None then CLOSED
    else if b.records == [] then was
    else b.records[|b.records| - 1].number
  }

  // The seconds to wait, by the amount of data read.
  function Pause(recs: Log): (n: nat)
    ensures 1 <= n <= 5
  {
    if recs == [] then 1
    else
      var units := Volume(recs) / (1024 * 1024 * 2) + 1;
      if units > 5 then 5 else units
  }

  function Volume(recs: Log): nat {
    if recs == [] then 0 else |recs[0].data| + Volume(recs[1..])
  }

  function ShardAfter(sh: Shard, o: Outcome<Batch>, later: int): Shard {
    if o.Failure? then sh.(it := if o.kind == Expired then None else sh.it, nextRequest := later + 1000)
    else
      var b := o.result;
      sh.(it := b.next, behind := if b.next == None then 0 else b.behind,
          sequenceId := SequenceAfter(b, sh.sequenceId), nextRequest := later + 1000 * Pause(b.records))
  }

  datatype Result = Result(state: State, reply: Reply)

  // What simple_receive makes of the answer to its request for records.
  function Answered(s: Stream, st: State, id: string, sc: Script): (r: Result)
    requires id in st.shards && st.shards[id].it.Some?
  {
    var sh := st.shards[id];
    var o := GetRecords(s, sh.it.value, sc.batch, sc.behind);
    var shards := st.shards[id := ShardAfter(sh, o, sc.later(id))];
    var st' := st.(shards := shards, refresh := if o.Success? && o.result.next == None then 0 else st.refresh);
    if o.Failure? then Result(st', if o.kind == Other && !o.shouldRetry then Thrown else Records([], None))
    else if o.result.records == [] then Result(st', Records([], None))
    else Result(st', Records(o.result.records, Some(Text(st.order, IdsOf(shards)))))
  }

  predicate IsDue(refresh: int, time: int) {
    time < refresh || refresh + 3600 < time
  }

  // The look at the shard list that simple_receive takes when it is due.
  ghost function Refreshed(ty: IteratorType, s: Stream, st: State, time: int, sc: Script): Looked {
    if !IsDue(st.refresh, time) then Looked(st, 0)
    else
      var l := Look(ty, s, st, sc, 0);
      l.(state := l.state.(refresh := if l.code == 0 then time else st.refresh + 1))
  }

  ghost function Round(ty: IteratorType, s: Stream, st: State, sc: Script): (p: Pick) {
    FirstReady(ty, s, st.shards, Rotation(st.order, st.cursor), sc)
  }

  function AfterRound(st: State, p: Pick): State {
    st.(shards := p.shards, cursor := if p.last == None then st.cursor else p.last)
  }

  // The shards whose place was given up between two states.
  function GivenUp(before: Shards, after: Shards): (ids: set<string>) {
    set id | id in before && id in after && before[id].sequenceId != "" && after[id].sequenceId == ""
  }

  // simple_receive: the state, the reply, the shard the records are from, and the shards
  // whose place was given up on the way.
  datatype Received = Received(state: State, reply: Reply, from: string, lost: set<string>)

  ghost function Receive(ty: IteratorType, s: Stream, st: State, time: int, sc: Script): (r: Received) {
    var l := Refreshed(ty, s, st, time, sc);
    if l.code == 1 then Received(l.state, Thrown, "", {})
    else
      var p := Round(ty, s, l.state, sc);
      var lost := GivenUp(l.state.shards, p.shards);
      var st' := AfterRound(l.state, p);
      if p.chosen == None then Received(st', Records([], None), "", lost)
      else
        var r := Answered(s, st', p.chosen.value, sc);
        Received(r.state, r.reply, p.chosen.value, lost)
  }

  function Unread(ids: map<string, string>): (shards: Shards) {
    map id | id in ids :: Shard(None, ids[id], 0, 0, false)
  }

  // The keys of a checkpoint in map order, entered line by line.
  function Entered(text: string, order: seq<string>): (r: seq<string>)
    decreases |text|
  {
    if !IsLine(text) then order
    else
      var id := LineId(text);
      Entered(More(text), if id in order then order else Inserted(order, id))
  }

  lemma {:induction false} EnteredStep(text: string, order: seq<string>)
    requires IsLine(text)
    ensures var id := LineId(text);
            Entered(text, order) == Entered(More(text), if id in order then order else Inserted(order, id))
  {
    hide IsLine, LineId, More, Inserted;
  }

  // simple_consumer_new: the shards of a checkpoint, then the first look at the list.
  ghost function Opened(ty: IteratorType, s: Stream, text: string, time: int, sc: Script): (st: Option<State>) {
    var m := Parse(text);
    if m == None then None
    else
      var l := Look(ty, s, State(Unread(m.value), Entered(text, []), None, time), sc, 10);
      if l.code == 0 then Some(l.state) else None
  }
}
