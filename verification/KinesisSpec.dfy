// Shards, sequence numbers and checkpoints: what a Kinesis consumer may rely on, and what
// it must have delivered (aws/kinesis.cpp).

module KinesisSpec {
  import opened Common

  datatype Record = Record(number: string, data: string)

  type Log = seq<Record>

  // All shards the stream ever had with everything written to them, those that take no
  // more records, and those that are listed.
  datatype Stream = Stream(log: map<string, Log>, closed: set<string>, listed: seq<string>)

  const CLOSED: string := "*"

  predicate IsNumber(n: string) {
    n != "" && n != CLOSED && '\n' !in n && '\t' !in n
  }

  ghost predicate IsLog(l: Log) {
    && (forall i | 0 <= i < |l| :: IsNumber(l[i].number))
    && (forall i, j | 0 <= i < j < |l| :: l[i].number != l[j].number)
  }

  ghost predicate IsStream(s: Stream) {
    && (forall id | id in s.log :: id != "" && '\t' !in id && IsLog(s.log[id]))
    && (forall i | 0 <= i < |s.listed| :: s.listed[i] in s.log)
    && forall i, j | 0 <= i < j < |s.listed| :: s.listed[i] != s.listed[j]
  }

  // A stream may gain shards and records, close shards, and drop them from the list; a
  // closed shard does not grow and a dropped one does not come back.
  ghost predicate Grown(s: Stream, t: Stream) {
    && IsStream(s) && IsStream(t) && s.closed <= t.closed
    && forall id | id in s.log ::
         && id in t.log && s.log[id] <= t.log[id]
         && (id in s.closed ==> t.log[id] == s.log[id])
         && (id !in s.listed ==> id !in t.listed)
  }

  // ---------------------------------------------------------------- positions

  type Sent = map<string, Log>

  function SentOf(sent: Sent, id: string): Log {
    if id in sent then sent[id] else []
  }

  // The records d are the part of the log l that ends at end; a consumer that started at
  // the beginning has all of it up to there.
  predicate IsPartTo(d: Log, l: Log, horizon: bool, end: nat) {
    |d| <= end <= |l| && d == l[end - |d|..end] && (horizon ==> end == |d|)
  }

  ghost predicate IsPart(d: Log, l: Log, horizon: bool) {
    exists end: nat :: IsPartTo(d, l, horizon, end)
  }

  // A sequence id stands for a place in a log, given the records d received up to it.
  ghost predicate StandsAt(d: Log, l: Log, id: string, closed: bool, horizon: bool, end: nat) {
    && IsPartTo(d, l, horizon, end)
    && (if id == "" then d == []
        else if id == CLOSED then end == |l| && closed
        else d != [] && l[end - 1].number == id)
  }

  ghost predicate Stands(d: Log, l: Log, id: string, closed: bool, horizon: bool) {
    exists end: nat :: StandsAt(d, l, id, closed, horizon, end)
  }

  // The sequence ids of a consumer agree with what it has returned: for every shard the
  // records returned are an unbroken part of it, and the id says where that part ends.
  // An unknown shard is one nothing was returned from, or one that is gone.
  ghost predicate Agrees(ids: map<string, string>, s: Stream, sent: Sent, horizon: bool) {
    forall id | id in s.log ::
      && IsPart(SentOf(sent, id), s.log[id], horizon)
      && (if id in ids then Stands(SentOf(sent, id), s.log[id], ids[id], id in s.closed, horizon)
          else id !in s.listed || SentOf(sent, id) == [])
  }

  // Nothing is returned from a shard that does not exist.
  ghost predicate OnlyExisting(s: Stream, sent: Sent) {
    forall id | id in sent :: id in s.log
  }

  lemma StandsWhenGrown(d: Log, l: Log, l': Log, id: string, closed: bool, closed': bool, horizon: bool, end: nat)
    requires StandsAt(d, l, id, closed, horizon, end)
    requires l <= l' && (closed ==> closed' && l' == l)
    ensures StandsAt(d, l', id, closed', horizon, end)
  {
    assert l'[..|l|] == l;
    assert l'[end - |d|..end] == l[end - |d|..end];
  }

  lemma PartWhenGrown(d: Log, l: Log, l': Log, horizon: bool)
    requires IsPart(d, l, horizon) && l <= l'
    ensures IsPart(d, l', horizon)
  {
    var end: nat :| IsPartTo(d, l, horizon, end);
    assert l'[..|l|] == l;
    assert IsPartTo(d, l', horizon, end) by {
      assert l'[end - |d|..end] == l[end - |d|..end];
    }
  }

  lemma NothingIsPart(l: Log, horizon: bool)
    ensures IsPart([], l, horizon)
  {
    assert IsPartTo([], l, horizon, 0);
  }

  lemma AgreesWhenGrown(ids: map<string, string>, s: Stream, t: Stream, sent: Sent, horizon: bool)
    requires Grown(s, t) && Agrees(ids, s, sent, horizon) && OnlyExisting(s, sent)
    requires forall id | id in ids :: id in s.log
    ensures Agrees(ids, t, sent, horizon) && OnlyExisting(t, sent)
  {
    hide IsPart, Stands;
    forall id | id in t.log
      ensures IsPart(SentOf(sent, id), t.log[id], horizon)
      ensures if id in ids then Stands(SentOf(sent, id), t.log[id], ids[id], id in t.closed, horizon)
              else id !in t.listed || SentOf(sent, id) == []
    {
      if id in s.log {
        PartWhenGrown(SentOf(sent, id), s.log[id], t.log[id], horizon);
        if id in ids {
          StandsGrown(SentOf(sent, id), s.log[id], t.log[id], ids[id], id in s.closed, id in t.closed, horizon);
        }
      } else {
        NothingIsPart(t.log[id], horizon);
      }
    }
  }

  lemma StandsGrown(d: Log, l: Log, l': Log, id: string, closed: bool, closed': bool, horizon: bool)
    requires Stands(d, l, id, closed, horizon) && l <= l' && (closed ==> closed' && l' == l)
    ensures Stands(d, l', id, closed', horizon)
  {
    var end: nat :| StandsAt(d, l, id, closed, horizon, end);
    StandsWhenGrown(d, l, l', id, closed, closed', horizon, end);
  }

  // ---------------------------------------------------------------- checkpoints

  function Line(id: string, seqId: string): string {
    id + "\t" + seqId + "\n"
  }

  // push_checkpoints: the shards in map order, those without a sequence id left out.
  function Text(order: seq<string>, ids: map<string, string>): (t: string) {
    if order == [] then "" else Entry(order[0], ids) + Text(order[1..], ids)
  }

  function Entry(id: string, ids: map<string, string>): string {
    if id in ids && ids[id] != "" then Line(id, ids[id]) else ""
  }

  lemma {:induction false} TextStep(order: seq<string>, ids: map<string, string>, i: nat)
    requires i < |order|
    ensures Text(order[i..], ids) == Entry(order[i], ids) + Text(order[i + 1..], ids)
  {
    assert order[i..][0] == order[i] && order[i..][1..] == order[i + 1..];
  }

  // The position of a character, or the length of the text when there is none.
  function Find(t: string, c: char): (i: nat)
    ensures i <= |t| && (i < |t| ==> t[i] == c) && forall j | 0 <= j < i :: t[j] != c
  {
    if t == "" then 0 else if t[0] == c then 0 else 1 + Find(t[1..], c)
  }

  lemma FindAfter(a: string, c: char, b: string)
    requires c !in a
    ensures Find(a + [c] + b, c) == |a|
  {
    var t := a + [c] + b;
    assert t[|a|] == c;
    forall j | 0 <= j < |a| ensures t[j] != c { assert t[j] == a[j]; assert a[j] in a; }
  }

  // parse_checkpoints: tab and newline end the two parts of a line, both of which must
  // not be empty; the first line for a shard counts.
  function Parse(t: string): (m: Option<map<string, string>>)
    decreases |t|
  {
    if t == "" then Some(map[])
    else
      var tab := Find(t, '\t');
      if tab == |t| || tab == 0 then None
      else
        var rest := t[tab + 1..];
        var nl := Find(rest, '\n');
        if nl == |rest| || nl == 0 then None
        else
          var m := Parse(rest[nl + 1..]);
          if m.None? then None else Some(m.value[t[..tab] := rest[..nl]])
  }

  // The first line of a checkpoint, and what follows it.
  function LineId(t: string): string {
    t[..Find(t, '\t')]
  }

  function AfterId(t: string): (rest: string)
    ensures t != "" ==> |rest| < |t|
  {
    var tab := Find(t, '\t');
    if tab == |t| then "" else t[tab + 1..]
  }

  function LineSeq(t: string): string {
    AfterId(t)[..Find(AfterId(t), '\n')]
  }

  function More(t: string): (more: string)
    ensures t != "" ==> |more| < |t|
  {
    var rest := AfterId(t);
    var nl := Find(rest, '\n');
    if nl == |rest| then "" else rest[nl + 1..]
  }

  predicate IsLine(t: string) {
    0 < Find(t, '\t') < |t| && 0 < Find(AfterId(t), '\n') < |AfterId(t)|
  }

  lemma {:induction false} ParseStep(t: string)
    requires t != ""
    ensures Parse(t).Some? ==> IsLine(t)
    ensures IsLine(t) ==>
              Parse(t) == if Parse(More(t)).None? then None else Some(Parse(More(t)).value[LineId(t) := LineSeq(t)])
  {
  }

  // Every key once.
  ghost predicate IsOrder(order: seq<string>, keys: set<string>) {
    multiset(order) == multiset(keys)
  }

  lemma OrderFacts(order: seq<string>, keys: set<string>)
    requires IsOrder(order, keys)
    ensures forall id :: id in order <==> id in keys
    ensures forall i, j | 0 <= i < j < |order| :: order[i] != order[j]
  {
    forall id ensures id in order <==> id in keys {
      assert id in order <==> id in multiset(order);
    }
    forall i, j | 0 <= i < j < |order| ensures order[i] != order[j] {
      assert order == order[..j] + [order[j]] + order[j + 1..];
      assert order[i] == order[..j][i];
      assert multiset(order) == multiset(order[..j]) + multiset{order[j]} + multiset(order[j + 1..]);
      assert order[..j][i] in multiset(order[..j]);
      assert multiset(keys)[order[j]] <= 1;
    }
  }

  function Known(order: seq<string>, ids: map<string, string>): (m: map<string, string>) {
    map id | id in ids && id in order && ids[id] != "" :: ids[id]
  }

  lemma FirstPart(id: string, rest: string)
    requires '\t' !in id
    ensures LineId(id + ['\t'] + rest) == id && AfterId(id + ['\t'] + rest) == rest
    ensures Find(id + ['\t'] + rest, '\t') == |id|
  {
    FindAfter(id, '\t', rest);
  }

  lemma LineParts(id: string, seqId: string, rest: string)
    requires id != "" && '\t' !in id && seqId != "" && '\n' !in seqId
    ensures var t := Line(id, seqId) + rest;
            t != "" && IsLine(t) && LineId(t) == id && LineSeq(t) == seqId && More(t) == rest
  {
    hide Find, LineId, AfterId;
    var more := seqId + ['\n'] + rest;
    assert Line(id, seqId) + rest == id + ['\t'] + more;
    FirstPart(id, more);
    FindAfter(seqId, '\n', rest);
  }

  lemma ParseLine(id: string, seqId: string, rest: string)
    requires id != "" && '\t' !in id && seqId != "" && '\n' !in seqId
    ensures Parse(Line(id, seqId) + rest) ==
            if Parse(rest).None? then None else Some(Parse(rest).value[id := seqId])
  {
    hide Parse, Line, LineId, LineSeq, More, IsLine;
    LineParts(id, seqId, rest);
    ParseStep(Line(id, seqId) + rest);
  }

  lemma KnownNext(order: seq<string>, ids: map<string, string>)
    requires order != [] && order[0] in ids
    requires forall i, j | 0 <= i < j < |order| :: order[i] != order[j]
    ensures Known(order, ids) ==
            if ids[order[0]] == "" then Known(order[1..], ids) else Known(order[1..], ids)[order[0] := ids[order[0]]]
  {
    var id, rest := order[0], order[1..];
    forall x ensures x in order <==> x == id || x in rest {
      assert order == [id] + rest;
    }
  }

  // A shard with a sequence id has a line of its own, one without has none.
  lemma {:induction false} ParseFirstLine(order: seq<string>, ids: map<string, string>)
    requires order != [] && order[0] in ids && ids[order[0]] != "" && order[0] != ""
    requires '\t' !in order[0] && '\n' !in ids[order[0]] && Parse(Text(order[1..], ids)).Some?
    ensures Parse(Text(order, ids)) == Some(Parse(Text(order[1..], ids)).value[order[0] := ids[order[0]]])
  {
    hide Parse, Line;
    ParseLine(order[0], ids[order[0]], Text(order[1..], ids));
  }

  lemma {:induction false} NoFirstLine(order: seq<string>, ids: map<string, string>)
    requires order != [] && order[0] in ids && ids[order[0]] == ""
    ensures Text(order, ids) == Text(order[1..], ids)
  {
  }

  // What parse reads from what push wrote.
  lemma {:induction false} ParseText(order: seq<string>, ids: map<string, string>)
    requires forall i | 0 <= i < |order| :: order[i] in ids
    requires forall i, j | 0 <= i < j < |order| :: order[i] != order[j]
    requires forall id | id in ids :: id != "" && '\t' !in id && '\n' !in ids[id]
    ensures Parse(Text(order, ids)) == Some(Known(order, ids))
    decreases |order|
  {
    if order == [] {
      assert Known(order, ids) == map[];
    } else {
      hide Parse, Known, Text;
      ParseText(order[1..], ids);
      KnownNext(order, ids);
      if ids[order[0]] != "" {
        ParseFirstLine(order, ids);
      } else {
        NoFirstLine(order, ids);
      }
    }
  }

  // Leaving out the shards without a sequence id loses nothing.
  lemma KnownAgrees(order: seq<string>, ids: map<string, string>, s: Stream, sent: Sent, horizon: bool)
    requires IsOrder(order, ids.Keys) && Agrees(ids, s, sent, horizon)
    ensures Agrees(Known(order, ids), s, sent, horizon)
  {
    OrderFacts(order, ids.Keys);
  }
}
