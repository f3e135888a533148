// The consumer of aws/kinesis.cpp, step by step: every method does to its fields what the
// function of the same name says.

module Kinesis {
  import opened Common
  import opened KinesisSpec
  import opened KinesisModel
  import KinesisInvariant

  // ++it, with None for end().
  function Next(order: seq<string>, id: string): (n: Option<string>) {
    var i := PlaceOf(order, id);
    if i + 1 < |order| then Some(order[i + 1]) else None
  }

  function Erased(order: seq<string>, id: string): (r: seq<string>) {
    var i := PlaceOf(order, id);
    if i == |order| then order else order[..i] + order[i + 1..]
  }

  lemma {:induction false} PlaceOfDistinct(order: seq<string>, i: nat)
    requires i < |order| && KinesisInvariant.IsDistinct(order)
    ensures PlaceOf(order, order[i]) == i
    decreases |order|
  {
    if order[0] != order[i] { PlaceOfDistinct(order[1..], i - 1); }
  }

  function Wrapped(i: nat, n: nat): nat {
    if i < n then i else if i < 2 * n then i - n else 0
  }

  lemma RotationAt(order: seq<string>, cursor: Option<string>, k: nat)
    requires k < |order| && (cursor.Some? ==> cursor.value in order)
    ensures |Rotation(order, cursor)| == |order|
    ensures var first := if cursor == None then 0 else PlaceOf(order, cursor.value) + 1;
            Rotation(order, cursor)[k] == order[Wrapped(first + k, |order|)]
  {
    hide PlaceOf;
  }

  // Stepping from where a round stands is going through its queue.
  lemma RotationStep(order: seq<string>, cursor: Option<string>, k: nat)
    requires KinesisInvariant.IsDistinct(order) && k < |order|
    requires cursor.Some? ==> cursor.value in order
    ensures |Rotation(order, cursor)| == |order|
    ensures var queue := Rotation(order, cursor);
            var at := if k == 0 then cursor else Some(queue[k - 1]);
            var next := if at == None then None else Next(order, at.value);
            queue[k] == if next == None then order[0] else next.value
  {
    hide Rotation, PlaceOf;
    var n := |order|;
    var first := if cursor == None then 0 else PlaceOf(order, cursor.value) + 1;
    RotationAt(order, cursor, k);
    if k > 0 {
      RotationAt(order, cursor, k - 1);
      PlaceOfDistinct(order, Wrapped(first + k - 1, n));
    }
  }

  // The shards while they are being flagged, and while unflagged ones are being erased.
  function Marked(ty: IteratorType, s: Stream, shards: Shards, sc: Script, done: seq<string>): (m: Shards)
    ensures m.Keys == shards.Keys + set x | x in done
  {
    map id | id in shards.Keys + (set x | x in done) :: MarkedAs(ty, s, shards, sc, id, id in done)
  }

  function MarkedAs(ty: IteratorType, s: Stream, shards: Shards, sc: Script, id: string, flag: bool): Shard {
    if id in shards then shards[id].(active := flag) else NewShard(ty, s, id, sc)
  }

  function Left(shards: Shards, todo: seq<string>): Shards {
    map id | id in shards && (shards[id].active || id in todo) :: shards[id]
  }

  lemma MarkedStep(ty: IteratorType, s: Stream, shards: Shards, sc: Script, done: seq<string>, id: string)
    ensures var m := Marked(ty, s, shards, sc, done);
            Marked(ty, s, shards, sc, done + [id]) ==
            m[id := if id in m then m[id].(active := true) else NewShard(ty, s, id, sc)]
  {
    hide Marked, MarkedAs, NewShard;
    NewIsActive(ty, s, id, sc);
    MarkedAt(ty, s, shards, sc, done, id);
    MarkedAt(ty, s, shards, sc, done + [id], id);
    MarkedOthers(ty, s, shards, sc, done, id);
    MarkedTwice(ty, s, shards, sc, id);
    var m, m' := Marked(ty, s, shards, sc, done), Marked(ty, s, shards, sc, done + [id]);
    assert m' == m[id := MarkedAs(ty, s, shards, sc, id, true)];
  }

  lemma MarkedTwice(ty: IteratorType, s: Stream, shards: Shards, sc: Script, id: string)
    ensures forall flag ::
            MarkedAs(ty, s, shards, sc, id, flag).(active := true) == MarkedAs(ty, s, shards, sc, id, true)
    ensures id !in shards ==> MarkedAs(ty, s, shards, sc, id, true) == NewShard(ty, s, id, sc)
  {
  }

  lemma MarkedOthers(ty: IteratorType, s: Stream, shards: Shards, sc: Script, done: seq<string>, id: string)
    ensures var m, m' := Marked(ty, s, shards, sc, done), Marked(ty, s, shards, sc, done + [id]);
            m'.Keys == m.Keys + {id} && forall x | x in m && x != id :: m'[x] == m[x]
  {
    hide MarkedAs, NewShard;
    assert forall x :: x in done + [id] <==> x in done || x == id;
  }

  lemma MarkedAt(ty: IteratorType, s: Stream, shards: Shards, sc: Script, done: seq<string>, id: string)
    ensures var m := Marked(ty, s, shards, sc, done); id in m ==> m[id] == MarkedAs(ty, s, shards, sc, id, id in done)
  {
  }

  lemma NewIsActive(ty: IteratorType, s: Stream, id: string, sc: Script)
    ensures NewShard(ty, s, id, sc).active
  {
  }

  lemma MarkedAll(ty: IteratorType, s: Stream, shards: Shards, sc: Script)
    ensures var m := Marked(ty, s, shards, sc, s.listed);
            && Left(m, []) == Relisted(ty, s, shards, sc)
            && (forall id | id in m :: m[id].active <==> id in s.listed)
  {
    hide NewShard;
    var m := Marked(ty, s, shards, sc, s.listed);
    forall id | id in m ensures m[id].active <==> id in s.listed { NewIsActive(ty, s, id, sc); }
    assert forall id | id in s.listed :: id in m;
    assert Left(m, []).Keys == Relisted(ty, s, shards, sc).Keys;
  }

  lemma {:induction false} PlaceOfAfter(a: seq<string>, id: string, b: seq<string>)
    requires id !in a
    ensures PlaceOf(a + [id] + b, id) == |a|
    decreases |a|
  {
    if a != [] {
      assert (a + [id] + b)[1..] == a[1..] + [id] + b;
      PlaceOfAfter(a[1..], id, b);
    }
  }

  lemma {:induction false} KeptAppend(order: seq<string>, id: string, listed: seq<string>)
    ensures Kept(order + [id], listed) == Kept(order, listed) + if id in listed then [id] else []
    decreases |order|
  {
    if order != [] {
      assert (order + [id])[1..] == order[1..] + [id];
      KeptAppend(order[1..], id, listed);
    } else {
      assert (order + [id])[1..] == [];
    }
  }

  // The keys when the first i of them have been looked at.
  function Pruned(all: seq<string>, i: nat, listed: seq<string>): seq<string>
    requires i <= |all|
  {
    Kept(all[..i], listed) + all[i..]
  }

  lemma PruneStep(all: seq<string>, i: nat, listed: seq<string>)
    requires i < |all| && KinesisInvariant.IsDistinct(all)
    ensures all[i] in listed ==> Pruned(all, i + 1, listed) == Pruned(all, i, listed)
    ensures all[i] !in listed ==>
              && Erased(Pruned(all, i, listed), all[i]) == Pruned(all, i + 1, listed)
              && Next(Pruned(all, i, listed), all[i]) == if i + 1 < |all| then Some(all[i + 1]) else None
  {
    hide Kept, PlaceOf;
    var id, kept := all[i], Kept(all[..i], listed);
    assert all[..i + 1] == all[..i] + [id];
    KeptAppend(all[..i], id, listed);
    assert all[i..] == [id] + all[i + 1..];
    assert Pruned(all, i, listed) == kept + [id] + all[i + 1..];
    assert id !in kept;
    PlaceOfAfter(kept, id, all[i + 1..]);
  }

  lemma CursorStep(all: seq<string>, i: nat, listed: seq<string>)
    requires i < |all| && KinesisInvariant.IsDistinct(all) && all[i] !in listed
    ensures KeptCursor(all, Some(all[i]), listed) ==
            KeptCursor(all, if i + 1 < |all| then Some(all[i + 1]) else None, listed)
  {
    hide PlaceOf;
    PlaceOfDistinct(all, i);
    if i + 1 < |all| {
      PlaceOfDistinct(all, i + 1);
      assert all[i + 1..] == [all[i + 1]] + all[i + 2..];
    }
  }

  lemma PruneStarts(shards: Shards, all: seq<string>, listed: seq<string>)
    requires IsOrder(all, shards.Keys)
    ensures Left(shards, all[0..]) == shards && Pruned(all, 0, listed) == all
  {
    OrderFacts(all, shards.Keys);
    assert all[..0] == [] && all[0..] == all;
  }

  lemma PruneEnds(shards: Shards, all: seq<string>, listed: seq<string>)
    ensures Left(shards, all[|all|..]) == Left(shards, []) && Pruned(all, |all|, listed) == Kept(all, listed)
  {
    assert all[..|all|] == all;
  }

  lemma LeftStep(shards: Shards, all: seq<string>, i: nat)
    requires i < |all| && all[i] in shards && KinesisInvariant.IsDistinct(all)
    ensures var m, m' := Left(shards, all[i..]), Left(shards, all[i + 1..]);
            all[i] in m && m[all[i]] == shards[all[i]] && m' == if shards[all[i]].active then m else m - {all[i]}
  {
    assert all[i..] == [all[i]] + all[i + 1..];
    assert all[i] !in all[i + 1..];
  }

  lemma CursorKept(all: seq<string>, cursor: Option<string>, listed: seq<string>)
    requires cursor.Some? ==> cursor.value in listed
    ensures KeptCursor(all, cursor, listed) == cursor
  {
  }

  lemma JoinedStep(order: seq<string>, listed: seq<string>, k: nat)
    requires k < |listed|
    ensures Joined(order, listed[k..]) ==
            Joined(if listed[k] in order then order else Inserted(order, listed[k]), listed[k + 1..])
  {
    assert listed[k..][0] == listed[k] && listed[k..][1..] == listed[k + 1..];
  }

  lemma {:induction false} JoinedKeeps(order: seq<string>, listed: seq<string>)
    ensures forall id | id in order :: id in Joined(order, listed)
    decreases |listed|
  {
    if listed != [] {
      var order' := if listed[0] in order then order else Inserted(order, listed[0]);
      forall id | id in order ensures id in order' {
        assert id in multiset(order) ==> id in multiset(order');
      }
      JoinedKeeps(order', listed[1..]);
    }
  }

  lemma JoinedAll(order: seq<string>, listed: seq<string>)
    ensures Joined(order, listed[|listed|..]) == order
  {
  }

  lemma EmptyText(order: seq<string>, ids: map<string, string>)
    ensures Text(order[|order|..], ids) == ""
  {
  }

  // ---------------------------------------------------------------- reading a checkpoint

  function WithEarlier(m: Option<map<string, string>>, earlier: map<string, string>): Option<map<string, string>> {
    if m.None? then None else Some(m.value + earlier)
  }

  function WithLine(t: string, ids: map<string, string>): map<string, string> {
    if LineId(t) in ids then ids else ids[LineId(t) := LineSeq(t)]
  }

  lemma NothingEarlier(m: Option<map<string, string>>)
    ensures WithEarlier(m, map[]) == m
  {
    assert m.Some? ==> m.value + map[] == m.value;
  }

  lemma LineStep(t: string, ids: map<string, string>)
    ensures t != "" && !IsLine(t) ==> WithEarlier(Parse(t), ids) == None
    ensures IsLine(t) ==> WithEarlier(Parse(t), ids) == WithEarlier(Parse(More(t)), WithLine(t, ids))
  {
    hide Parse, More, LineId, LineSeq;
    if t != "" { ParseStep(t); }
    if IsLine(t) && Parse(More(t)).Some? {
      var m := Parse(More(t)).value;
      assert m[LineId(t) := LineSeq(t)] + ids == m + WithLine(t, ids);
    }
  }

  lemma NothingLeft(text: string, p: nat, ids: map<string, string>, order: seq<string>)
    requires p == |text|
    ensures WithEarlier(Parse(text[p..]), ids) == Some(ids) && Entered(text[p..], order) == order
  {
    assert text[p..] == "" && Parse("") == Some(map[]);
    assert map[] + ids == ids;
  }

  lemma KeysOnceEach(text: string)
    requires Parse(text).Some?
    ensures IsOrdered(State(Unread(Parse(text).value), Entered(text, []), None, 0))
  {
    hide Parse, Entered;
    KinesisInvariant.EnteredIsOrder(text, [], {});
    assert {} + Parse(text).value.Keys == Unread(Parse(text).value).Keys;
  }

  // A round of which the first n shards have been passed over.
  ghost function Behind(p: Pick, queue: seq<string>, n: nat): Pick
    requires n <= |queue|
  {
    if p.last == None && n > 0 then p.(last := Some(queue[n - 1])) else p
  }

  ghost predicate IsOnTheWay(ty: IteratorType, s: Stream, st: State, sc: Script, shards: Shards, n: nat) {
    var queue := Rotation(st.order, st.cursor);
    n <= |queue| && Round(ty, s, st, sc) == Behind(FirstReady(ty, s, shards, queue[n..], sc), queue, n)
  }

  lemma RoundStarts(ty: IteratorType, s: Stream, st: State, sc: Script)
    ensures IsOnTheWay(ty, s, st, sc, st.shards, 0)
  {
    hide FirstReady, Rotation;
    assert Rotation(st.order, st.cursor)[0..] == Rotation(st.order, st.cursor);
  }

  lemma OnTheWay(ty: IteratorType, s: Stream, st: State, sc: Script, shards: Shards, n: nat)
    requires n < |Rotation(st.order, st.cursor)| && Rotation(st.order, st.cursor)[n] in shards
    requires IsOnTheWay(ty, s, st, sc, shards, n)
    ensures var id := Rotation(st.order, st.cursor)[n];
            var shards' := shards[id := Visited(ty, s, id, shards[id], sc)];
            if IsReady(ty, s, id, shards[id], sc) then Round(ty, s, st, sc) == Pick(shards', Some(id), Some(id))
            else IsOnTheWay(ty, s, st, sc, shards', n + 1)
  {
    hide Visited, IsReady, Rotation, Round;
    var queue := Rotation(st.order, st.cursor);
    assert queue[n..][0] == queue[n] && queue[n..][1..] == queue[n + 1..];
  }

  lemma OnceAround(ty: IteratorType, s: Stream, st: State, sc: Script, shards: Shards)
    requires IsOnTheWay(ty, s, st, sc, shards, |Rotation(st.order, st.cursor)|)
    ensures var queue := Rotation(st.order, st.cursor);
            Round(ty, s, st, sc) == Pick(shards, if queue == [] then None else Some(queue[|queue| - 1]), None)
  {
    hide Rotation, Round;
  }

  class Consumer {
    var shards: Shards
    // The keys of shards in map order, and the position in it.
    var order: seq<string>
    var cursor: Option<string>
    var refresh: int
    const itType: IteratorType

    ghost function Abs(): State
      reads this
    {
      State(shards, order, cursor, refresh)
    }

    ghost predicate Valid()
      reads this
    {
      IsOrdered(Abs())
    }

    // ------------------------------------------------------------ iterators

    // get_shard_iterator.  When the service refuses for good the sequence id is cleared.
    method ShardIterator(s: Stream, id: string, sequenceId: string, a: Answer)
      returns (it: Option<Iterator>, sequenceId': string)
      ensures var o := GetShardIterator(s, id, Resume(itType, sequenceId), a);
              && it == (if o.Success? then Some(o.result) else None)
              && sequenceId' == if o.Failure? && !o.shouldRetry then "" else sequenceId
    {
      sequenceId' := sequenceId;
      var t := itType;
      if sequenceId != "" {
        t := if sequenceId != CLOSED then AfterSequenceNumber(sequenceId) else Latest;
      }
      var outcome := GetShardIterator(s, id, t, a);
      if outcome.Failure? {
        if !outcome.shouldRetry { sequenceId' := ""; }
        it := None;
      } else {
        it := Some(outcome.result);
      }
    }

    // The part of get_next_shard that asks for a new iterator; a shard without one is left
    // alone for a second.
    method Renew(s: Stream, id: string, sc: Script) returns (ok: bool)
      requires id in shards
      modifies this`shards
      ensures shards == old(shards)[id := Renewed(itType, s, id, old(shards)[id], sc)]
      ensures ok == shards[id].it.Some?
    {
      var sh := shards[id];
      var it, seqId := ShardIterator(s, id, sh.sequenceId, sc.renewed(id));
      sh := sh.(it := it, sequenceId := seqId);
      if it == None { sh := sh.(nextRequest := sc.later(id) + 1000); }
      shards := shards[id := sh];
      ok := it.Some?;
    }

    // *it == end || ++*it == end
    method Step()
      requires order != []
      modifies this`cursor
      ensures var next := if old(cursor) == None then None else Next(order, old(cursor).value);
              cursor == Some(if next == None then order[0] else next.value)
    {
      if cursor.Some? { cursor := Next(order, cursor.value); }
      if cursor == None { cursor := Some(order[0]); }
    }

    // One turn of get_next_shard.
    method Visit(s: Stream, id: string, sc: Script) returns (ok: bool)
      requires id in shards
      modifies this`shards
      ensures shards == old(shards)[id := Visited(itType, s, id, old(shards)[id], sc)]
      ensures ok == IsReady(itType, s, id, old(shards)[id], sc)
    {
      hide Renewed;
      ok := false;
      if shards[id].sequenceId != CLOSED {
        var delta := sc.clock(id) - shards[id].nextRequest;
        var ready := shards[id].it.Some?;
        if !ready && delta >= 0 {
          ready := Renew(s, id, sc);
        }
        ok := ready && delta >= -1;
      }
    }

    // get_next_shard: round robin over the shards, at most once around.
    method NextShard(s: Stream, sc: Script) returns (id: Option<string>)
      requires Valid()
      modifies this`shards, this`cursor
      ensures Valid()
      ensures var p := Round(itType, s, old(Abs()), sc); Abs() == AfterRound(old(Abs()), p) && id == p.chosen
      ensures id.Some? ==> id.value in shards && shards[id.value].it.Some?
    {
      hide Visited, IsReady, FirstReady, Rotation, IsOrdered, Next, Round, IsOnTheWay;
      var items, cnt := |order|, 0;
      ghost var st := Abs();
      ghost var queue := Rotation(order, cursor);
      RoundOrder();
      RoundStarts(itType, s, st, sc);
      id := None;
      while cnt < items && id == None
        invariant cnt <= items == |queue| == |order| && shards.Keys == st.shards.Keys
        invariant cursor == if cnt == 0 then st.cursor else Some(queue[cnt - 1])
        invariant if id == None then IsOnTheWay(itType, s, st, sc, shards, cnt)
                  else Round(itType, s, st, sc) == Pick(shards, cursor, id)
        decreases items - cnt, id == None
      {
        RotationStep(order, st.cursor, cnt);
        cnt := cnt + 1;
        Step();
        var at := cursor.value;
        ghost var before := shards;
        var ok := Visit(s, at, sc);
        OnTheWay(itType, s, st, sc, before, cnt - 1);
        assert shards.Keys == st.shards.Keys;
        if ok { id := Some(at); }
      }
      if id == None { OnceAround(itType, s, st, sc, shards); }
      RoundIsOrdered(itType, s, st, sc);
      KinesisInvariant.RoundKeys(itType, s, st, sc);
    }

    lemma RefreshIsFree()
      ensures forall time: int :: IsOrdered(State(shards, order, cursor, time)) == IsOrdered(Abs())
    {
    }

    lemma RoundIsOrdered(ty: IteratorType, s: Stream, st: State, sc: Script)
      requires IsOrdered(st)
      ensures IsOrdered(AfterRound(st, Round(ty, s, st, sc)))
    {
      KinesisInvariant.CursorMoves(st, Round(ty, s, st, sc));
    }

    lemma RoundOrder()
      requires Valid()
      ensures KinesisInvariant.IsDistinct(order) && (cursor.Some? ==> cursor.value in order)
      ensures |Rotation(order, cursor)| == |order|
      ensures forall i | 0 <= i < |order| :: Rotation(order, cursor)[i] in shards
    {
      var queue := Rotation(order, cursor);
      OrderFacts(order, shards.Keys);
      assert |multiset(queue)| == |multiset(order)|;
      forall i | 0 <= i < |order| ensures queue[i] in shards {
        assert queue[i] in multiset(queue);
        assert queue[i] in order;
      }
    }

    // ------------------------------------------------------------ the list of shards

    // The first loop of get_shards: all pages of the list, or an error code.
    method ListShards(s: Stream, sc: Script, numRetries: nat) returns (code: nat, listed: seq<string>)
      ensures code == ListCode(s, sc, 0, 0, numRetries, shards != map[])
      ensures code == 0 ==> listed == s.listed
    {
      listed := [];
      var page, retries := 0, 0;
      while true
        invariant retries <= numRetries && |listed| <= |s.listed| && listed == s.listed[..|listed|]
        invariant ListCode(s, sc, 0, 0, numRetries, shards != map[]) ==
                  ListCode(s, sc, page, |listed|, numRetries - retries, shards != map[])
        decreases numRetries - retries + |s.listed| - |listed|
      {
        var outcome := DescribeStream(s, |listed|, sc.page(page), sc.ready(page));
        page := page + 1;
        if outcome.Failure? {
          if outcome.kind != Throttled && !outcome.shouldRetry { return 1, []; }
          retries := retries + 1;
          if retries > numRetries {
            return if shards == map[] then 1 else 2, [];
          }
        } else {
          if !outcome.result.ready { return 1, []; }
          listed := listed + outcome.result.ids;
          if !(outcome.result.more && |listed| > 0) { break; }
        }
      }
      code := 0;
    }

    method Deactivate(s: Stream, sc: Script)
      modifies this`shards
      ensures shards == Marked(itType, s, old(shards), sc, [])
    {
      shards := map id | id in shards :: shards[id].(active := false);
    }

    // The second loop of get_shards: flag the listed shards, and take up new ones.
    method Flag(s: Stream, listed: seq<string>, sc: Script, ghost before: Shards)
      requires IsOrder(order, shards.Keys) && shards == Marked(itType, s, before, sc, [])
      modifies this`shards, this`order
      ensures shards == Marked(itType, s, before, sc, listed)
      ensures order == Joined(old(order), listed) && IsOrder(order, shards.Keys)
    {
      hide Marked, Joined, Inserted;
      assert listed[0..] == listed && listed[..0] == [];
      for k := 0 to |listed|
        invariant shards == Marked(itType, s, before, sc, listed[..k]) && IsOrder(order, shards.Keys)
        invariant Joined(order, listed[k..]) == Joined(old(order), listed)
      {
        MarkedStep(itType, s, before, sc, listed[..k], listed[k]);
        assert listed[..k + 1] == listed[..k] + [listed[k]];
        JoinedStep(order, listed, k);
        FlagOne(s, listed[k], sc);
      }
      assert listed[..|listed|] == listed;
      JoinedAll(order, listed);
    }

    method FlagOne(s: Stream, id: string, sc: Script)
      requires IsOrder(order, shards.Keys)
      modifies this`shards, this`order
      ensures IsOrder(order, shards.Keys)
      ensures shards == old(shards)[id :=
                if id in old(shards) then old(shards)[id].(active := true) else NewShard(itType, s, id, sc)]
      ensures order == if id in old(order) then old(order) else Inserted(old(order), id)
    {
      hide Inserted, IsOrder, GetShardIterator;
      KinesisInvariant.KeyAdded(order, shards.Keys, id);
      ghost var keys := shards.Keys;
      if id !in shards {
        var it, seqId := ShardIterator(s, id, "", sc.listed(id));
        order := Inserted(order, id);
        shards := shards[id := Shard(it, "", 0, 0, true)];
      } else {
        shards := shards[id := shards[id].(active := true)];
      }
      assert shards.Keys == keys + {id};
    }

    // The last loop of get_shards: erase what is not listed; an erased cursor moves on.
    method Prune(ghost listed: seq<string>)
      requires Valid() && forall id | id in shards :: shards[id].active <==> id in listed
      modifies this`shards, this`order, this`cursor
      ensures shards == Left(old(shards), []) && order == Kept(old(order), listed)
      ensures cursor == KeptCursor(old(order), old(cursor), listed)
    {
      hide Kept, KeptCursor, Next, Erased, Pruned, Left, IsOrder;
      var all := order;
      ghost var before, at := shards, cursor;
      OrderFacts(order, shards.Keys);
      PruneStarts(before, all, listed);
      for i := 0 to |all|
        invariant shards == Left(before, all[i..]) && order == Pruned(all, i, listed)
        invariant KeptCursor(all, cursor, listed) == KeptCursor(all, at, listed)
        invariant cursor.Some? ==> cursor.value in all[i..] || cursor.value in listed
      {
        PruneStep(all, i, listed);
        LeftStep(before, all, i);
        assert all[i..] == [all[i]] + all[i + 1..];
        if !shards[all[i]].active {
          CursorStep(all, i, listed);
          Erase(all[i]);
        }
      }
      PruneEnds(before, all, listed);
      CursorKept(all, cursor, listed);
    }

    method Erase(id: string)
      modifies this`shards, this`order, this`cursor
      ensures shards == old(shards) - {id} && order == Erased(old(order), id)
      ensures cursor == if old(cursor) == Some(id) then Next(old(order), id) else old(cursor)
    {
      if cursor == Some(id) { cursor := Next(order, id); }
      order := Erased(order, id);
      shards := shards - {id};
    }

    // get_shards
    method GetShards(s: Stream, sc: Script, numRetries: nat) returns (code: nat)
      requires Valid()
      modifies this`shards, this`order, this`cursor
      ensures Valid() && Looked(Abs(), code) == Look(itType, s, old(Abs()), sc, numRetries)
    {
      hide Marked, Left, Joined, Kept, KeptCursor, Relisted, ListCode, IsOrder;
      ghost var st := Abs();
      var listed;
      code, listed := ListShards(s, sc, numRetries);
      if code != 0 { return; }
      KinesisInvariant.RelistIsOrdered(itType, s, st, sc);
      MarkedAll(itType, s, shards, sc);
      JoinedKeeps(order, listed);
      Deactivate(s, sc);
      assert shards.Keys == st.shards.Keys;
      Flag(s, listed, sc, st.shards);
      Prune(listed);
      code := if shards == map[] then 1 else 0;
    }

    // ------------------------------------------------------------ checkpoints

    // push_checkpoints
    method PushCheckpoints() returns (text: string)
      requires Valid()
      ensures text == Text(order, IdsOf(shards))
    {
      hide Text, Line;
      ghost var ids := IdsOf(shards);
      OrderFacts(order, shards.Keys);
      text := "";
      assert order[0..] == order;
      for i := 0 to |order|
        invariant text + Text(order[i..], ids) == Text(order, ids)
      {
        assert order[i] in order;
        var sh := shards[order[i]];
        TextStep(order, ids, i);
        if sh.sequenceId != "" {
          ghost var head, rest := Line(order[i], sh.sequenceId), Text(order[i + 1..], ids);
          assert text + (head + rest) == (text + head) + rest;
          text := text + Line(order[i], sh.sequenceId);
        }
      }
      EmptyText(order, ids);
    }

    // parse_checkpoints into an empty consumer.
    method ParseCheckpoints(text: string) returns (ok: bool)
      requires shards == map[] && order == []
      modifies this`shards, this`order
      ensures ok == Parse(text).Some?
      ensures ok ==> shards == Unread(Parse(text).value) && order == Entered(text, [])
    {
      hide Parse, WithEarlier, Entered, WithLine, More, IsLine;
      var p := 0;
      ghost var ids: map<string, string> := map[];
      assert text[0..] == text;
      NothingEarlier(Parse(text));
      ok := true;
      while p < |text| && ok
        invariant p <= |text| && shards == Unread(ids) && IsOrder(order, ids.Keys)
        invariant ok ==> Parse(text) == WithEarlier(Parse(text[p..]), ids)
        invariant ok ==> Entered(text, []) == Entered(text[p..], order)
        invariant !ok ==> Parse(text) == None
        decreases |text| - p, ok
      {
        ghost var more := text[p..];
        LineStep(more, ids);
        ghost var at := order;
        var used;
        ok, used := ParseOne(text[p..], ids);
        if ok {
          EnteredStep(more, at);
          assert more[used..] == text[p + used..];
          p, ids := p + used, WithLine(more, ids);
        }
      }
      if ok { NothingLeft(text, p, ids, order); }
    }

    // One line of a checkpoint; a shard that is there already stays.
    method ParseOne(t: string, ghost ids: map<string, string>) returns (ok: bool, used: nat)
      requires shards == Unread(ids) && IsOrder(order, ids.Keys)
      modifies this`shards, this`order
      ensures ok == IsLine(t)
      ensures ok ==> 0 < used <= |t| && t[used..] == More(t)
      ensures var ids' := if ok then WithLine(t, ids) else ids; shards == Unread(ids') && IsOrder(order, ids'.Keys)
      ensures order == if !ok || LineId(t) in old(order) then old(order) else Inserted(old(order), LineId(t))
    {
      hide Unread, Inserted, WithLine, IsOrder;
      used := 0;
      var tab := Find(t, '\t');
      if tab == |t| || tab == 0 { return false, 0; }
      var shardId, rest := t[..tab], t[tab + 1..];
      var nl := Find(rest, '\n');
      if nl == |rest| || nl == 0 { return false, 0; }
      ok, used := true, tab + 1 + nl + 1;
      assert t[used..] == rest[nl + 1..];
      Insert(t, shardId, rest[..nl], ids);
    }

    // shards->insert
    method Insert(ghost t: string, id: string, seqId: string, ghost ids: map<string, string>)
      requires shards == Unread(ids) && IsOrder(order, ids.Keys) && id == LineId(t) && seqId == LineSeq(t)
      modifies this`shards, this`order
      ensures shards == Unread(WithLine(t, ids)) && IsOrder(order, WithLine(t, ids).Keys)
      ensures order == if id in old(order) then old(order) else Inserted(old(order), id)
    {
      hide Inserted, IsOrder, LineId, LineSeq;
      KinesisInvariant.KeyAdded(order, ids.Keys, id);
      if id !in shards {
        order := Inserted(order, id);
        shards := shards[id := Shard(None, seqId, 0, 0, false)];
      }
      assert WithLine(t, ids).Keys == ids.Keys + {id};
    }

    // ------------------------------------------------------------ the Lua calls

    constructor (ty: IteratorType, time: int)
      ensures shards == map[] && order == [] && cursor == None && itType == ty && refresh == time
    {
      shards, order, cursor, itType, refresh := map[], [], None, ty, time;
    }

    // The rest of simple_consumer_new: take over a checkpoint and find the shards.
    method Open(s: Stream, text: string, sc: Script) returns (ok: bool)
      requires shards == map[] && order == [] && cursor == None
      modifies this`shards, this`order, this`cursor
      ensures ok == Opened(itType, s, text, old(refresh), sc).Some?
      ensures ok ==> Valid() && Opened(itType, s, text, old(refresh), sc) == Some(Abs())
    {
      hide Parse, Look, Unread, Entered, IsOrder;
      ok := ParseCheckpoints(text);
      if ok {
        KeysOnceEach(text);
        var code := GetShards(s, sc, 10);
        ok := code == 0;
      }
    }

    // The second half of simple_receive.
    method ReadShard(s: Stream, id: string, sc: Script) returns (reply: Reply)
      requires Valid() && id in shards && shards[id].it.Some?
      modifies this`shards, this`refresh
      ensures Valid() && Result(Abs(), reply) == Answered(s, old(Abs()), id, sc)
    {
      hide GetRecords, Text, Pause, IsOrder;
      var sh, outcome := shards[id], GetRecords(s, shards[id].it.value, sc.batch, sc.behind);
      ghost var keys := shards.Keys;
      if outcome.Failure? {
        if outcome.kind == Expired { sh := sh.(it := None); }
        shards := shards[id := sh.(nextRequest := sc.later(id) + 1000)];
        assert shards.Keys == keys;
        return if outcome.kind == Other && !outcome.shouldRetry then Thrown else Records([], None);
      }
      var b := outcome.result;
      sh := sh.(behind := b.behind, it := b.next);
      if b.next == None {
        sh := sh.(sequenceId := CLOSED, behind := 0);
        refresh := 0;
      }
      if b.records == [] {
        NoPause();
        shards := shards[id := sh.(nextRequest := sc.later(id) + 1000)];
        assert shards.Keys == keys;
        return Records([], None);
      }
      if b.next.Some? { sh := sh.(sequenceId := b.records[|b.records| - 1].number); }
      shards := shards[id := sh.(nextRequest := sc.later(id) + 1000 * Pause(b.records))];
      assert shards.Keys == keys;
      var text := PushCheckpoints();
      reply := Records(b.records, Some(text));
    }

    lemma NoPause()
      ensures Pause([]) == 1
    {
    }

    // simple_receive
    method Receive(s: Stream, time: int, sc: Script) returns (reply: Reply)
      requires Valid()
      modifies this`shards, this`order, this`cursor, this`refresh
      ensures Valid()
      ensures var r := KinesisModel.Receive(itType, s, old(Abs()), time, sc); Abs() == r.state && reply == r.reply
    {
      hide Round, Look, Answered, IsOrdered;
      if IsDue(refresh, time) {
        var code := GetShards(s, sc, 0);
        refresh := if code == 0 then time else refresh + 1;
        RefreshIsFree();
        if code == 1 { return Thrown; }
      }
      var next := NextShard(s, sc);
      if next == None { return Records([], None); }
      reply := ReadShard(s, next.value, sc);
    }
  }
}
