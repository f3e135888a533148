// The monitor of irc/irc.c, step by step.

module Irc {
  import opened IrcSpec
  import opened IrcMeaning

  // What has come of the first p characters of the buffer of a connection that was l.
  ghost predicate IsRead(me: Me, accepts: nat -> bool, l: Link, now: Link, text: string, p: nat, time: int)
    requires p <= |text|
  {
    var t := TalkOf(me, l.status, l.timer, Frames(text[..p]), time);
    && Rest(text[..p]) == "" && now.parsed == l.parsed + Frames(text[..p])
    && now.status == t.status && now.timer == t.timer
    && now.written == l.written + t.said && AllTaken(accepts, |l.written|, |t.said|)
  }

  // One of the answers to the lines of the buffer was refused.
  ghost predicate IsRefused(me: Me, accepts: nat -> bool, l: Link, now: Link, text: string, time: int) {
    var said := TalkOf(me, l.status, l.timer, Frames(text), time).said;
    now.written == l.written + Tried(accepts, |l.written|, said) && !AllTaken(accepts, |l.written|, |said|)
  }

  lemma RefusedIs(me: Me, accepts: nat -> bool, l: Link, now: Link, text: string, time: int)
    requires IsRefused(me, accepts, l, now, text, time)
    ensures var said := TalkOf(me, l.status, l.timer, Frames(text), time).said;
            now.written == l.written + Tried(accepts, |l.written|, said) && !AllTaken(accepts, |l.written|, |said|)
  {
  }

  lemma NothingRead(me: Me, accepts: nat -> bool, l: Link, text: string, time: int)
    ensures IsRead(me, accepts, l, l, text, 0, time)
  {
    NoText();
    assert text[..0] == "";
  }

  // The line between p1 and p0 has been answered, or its answer was refused.
  lemma LineRead(me: Me, accepts: nat -> bool, l: Link, before: Link, now: Link, text: string, p1: nat, p0: nat,
                 time: int, ok: bool)
    requires p1 <= p0 < |text| && '\n' !in text[p1..p0] && text[p0] == '\n'
    requires IsRead(me, accepts, l, before, text, p1, time)
    requires var line := Clean(text[p1..p0]);
             && now.parsed == before.parsed + [line]
             && now.written == before.written + AnswerTo(me, before.status, line)
             && (ok <==> AllTaken(accepts, |before.written|, |AnswerTo(me, before.status, line)|))
             && (ok ==> now.status == StatusAfter(me, before.status, line) &&
                        now.timer == TimerAfter(me, before.status, before.timer, line, time))
    ensures ok ==> IsRead(me, accepts, l, now, text, p0 + 1, time)
    ensures !ok ==> IsRefused(me, accepts, l, now, text, time)
  {
    hide Frames, Rest, Clean, TalkOf, AnswerTo, StatusAfter, TimerAfter, Tried, AllTaken;
    var line, t := Clean(text[p1..p0]), TalkOf(me, l.status, l.timer, Frames(text[..p1]), time);
    LineOf(text, p1, p0);
    TalkNext(me, l.status, l.timer, Frames(text[..p1]), line, time);
    var answer := AnswerTo(me, t.status, line);
    TriedBoth(accepts, |l.written|, t.said, answer);
    assert l.written + t.said + answer == l.written + (t.said + answer);
    if !ok {
      AnswersSoFar(me, l.status, l.timer, text, p0 + 1, time);
      RefusedHere(me, l, text, time, accepts, t.said, answer);
    }
  }

  lemma AllRead(me: Me, accepts: nat -> bool, l: Link, now: Link, text: string, p1: nat, time: int)
    requires p1 <= |text| && IsRead(me, accepts, l, now, text, p1, time) && '\n' !in text[p1..]
    ensures var t := TalkOf(me, l.status, l.timer, Frames(text), time);
            && Rest(text) == text[p1..] && now.parsed == l.parsed + Frames(text)
            && now.status == t.status && now.timer == t.timer
            && now.written == l.written + t.said && AllTaken(accepts, |l.written|, |t.said|)
  {
    RestOf(text, p1);
  }

  class Connection {
    const me: Me
    // Whether the server takes the k-th text written to it.
    const accepts: nat -> bool
    const inbuf: array<char>
    var inbufLen: nat
    var status: Status
    var rejoinTimer: int
    // The queue of messages for the channel.
    var chanqueue: seq<string>
    // All texts written so far; everything read since the connection was made, and the
    // lines passed to the parser.
    var written: seq<string>
    ghost var stream: string
    ghost var parsed: seq<string>

    ghost function Abs(): Link
      reads this
    {
      Link(status, rejoinTimer, chanqueue, stream, parsed, written)
    }

    ghost predicate Buffered()
      reads this, inbuf
    {
      inbuf.Length == INBUF && inbufLen <= INBUF && inbuf[..inbufLen] == Rest(stream)
    }

    ghost predicate Valid()
      reads this, inbuf
    {
      Buffered() && IsLink(Abs())
    }

    constructor (name: Me, server: nat -> bool)
      ensures Valid() && Abs() == Link(Down, 0, [], "", [], []) && me == name && accepts == server && fresh(inbuf)
    {
      me, accepts := name, server;
      inbuf := new char[INBUF](i => '\0');
      inbufLen, status, rejoinTimer, chanqueue, written := 0, Down, 0, [], [];
      stream, parsed := "", [];
      new;
      NoText();
    }

    // irclib_bio_write: it may fail for good.
    method Write(text: string) returns (ok: bool)
      modifies this`written
      ensures written == old(written) + [text] && ok == accepts(|old(written)|)
    {
      ok := accepts(|written|);
      written := written + [text];
    }

    // The connection is gone; what was read of an incomplete line is dropped.
    method Drop()
      requires inbuf.Length == INBUF
      modifies this`inbufLen, this`status, this`rejoinTimer, this`stream, this`parsed
      ensures Buffered() && Abs() == Dropped(old(Abs()))
    {
      inbufLen, status, rejoinTimer := 0, Down, 0;
      stream, parsed := "", [];
      NoText();
    }

    // irclib_tryconn: an attempt to connect throws the queue away.
    method TryConn(connects: bool) returns (ok: bool)
      requires inbuf.Length == INBUF
      modifies this`inbufLen, this`chanqueue, this`stream, this`parsed, this`written
      ensures Buffered() && chanqueue == [] && stream == "" && parsed == []
      ensures ok == (connects && accepts(|old(written)|))
      ensures written == old(written) + if connects then [HelloText(me)] else []
    {
      inbufLen, chanqueue := 0, [];
      stream, parsed := "", [];
      NoText();
      if !connects { return false; }
      ok := Write(HelloText(me));
    }

    // irclib_parse: a PING is answered in any state; otherwise these, and nothing else,
    // are the transitions of the connection.
    method Parse(line: string, time: int) returns (ok: bool)
      modifies this`status, this`rejoinTimer, this`written
      ensures written == old(written) + AnswerTo(me, old(status), line)
      ensures ok <==> AllTaken(accepts, |old(written)|, |AnswerTo(me, old(status), line)|)
      ensures ok ==> status == StatusAfter(me, old(status), line)
      ensures ok ==> rejoinTimer == TimerAfter(me, old(status), old(rejoinTimer), line, time)
      ensures ok && old(status) == Connecting ==> (status == Verified <==> IsWelcome(Words(line)))
      ensures ok && old(status) == Verified ==> (status == IrcSpec.Joined <==> IsOwnJoin(me, Words(line)))
      ensures ok && old(status) == IrcSpec.Joined ==> (status == Verified <==> IsKicked(me, Words(line)))
    {
      var a := Words(line);
      if |a| < 2 { return true; }
      if a[0] == "PING" {
        ok := Write(PongText(a[1]));
        return;
      }
      match status {
        case Connecting =>
          if a[1] == "001" {
            status := Verified;
            ok := Write(JoinText(me, OUTBUF));
            if !ok { return; }
            rejoinTimer := time + 30;
          }
        case Verified =>
          if a[1] == "JOIN" && Fit(":" + me.nick + "!", 511) <= a[0] {
            rejoinTimer, status := 0, Joined;
          }
        case Joined =>
          if a[1] == "KICK" && |a| >= 4 && a[3] == me.nick {
            status, rejoinTimer := Verified, time + 30;
          }
        case Down =>
      }
      ok := true;
    }

    // The characters from p1 up to the newline at p0, cut at the first carriage return or
    // NUL, as strncpy leaves them in the line buffer.
    method TakeLine(p1: nat, p0: nat) returns (line: string)
      requires p1 <= p0 < inbuf.Length
      modifies inbuf
      ensures line == Clean(old(inbuf[p1..p0]))
      ensures forall q | p0 < q < inbuf.Length :: inbuf[q] == old(inbuf[q])
    {
      ghost var text := inbuf[p1..p0];
      inbuf[p0] := '\0';
      var p2 := p1;
      ghost var e := End(text);
      while inbuf[p2] != '\0'
        invariant p1 <= p2 <= p0 && inbuf[p0] == '\0'
        invariant forall q | p0 < q < inbuf.Length :: inbuf[q] == old(inbuf[q])
        invariant forall i | p1 <= i < p0 :: inbuf[i] == if i < p2 && text[i - p1] == '\r' then '\0' else text[i - p1]
        decreases p0 - p2
      {
        if inbuf[p2] == '\r' { inbuf[p2] := '\0'; }
        p2 := p2 + 1;
      }
      var k := 0;
      line := "";
      while k < LINEBUF - 1 && inbuf[p1 + k] != '\0'
        invariant k <= LINEBUF - 1 && k <= e && p1 + k <= p0 && inbuf[p0] == '\0'
        invariant line == text[..k]
        invariant forall i | p1 <= i < p0 :: inbuf[i] == if i < p2 && text[i - p1] == '\r' then '\0' else text[i - p1]
        decreases LINEBUF - k
      {
        line := line + [inbuf[p1 + k]];
        k := k + 1;
      }
    }

    // The text between p1 and the newline at p0, the first unread part of text, goes to
    // the parser.
    method OneLine(p1: nat, p0: nat, time: int, ghost text: string) returns (ok: bool)
      requires inbuf.Length == INBUF && |text| <= INBUF && p1 <= p0 < |text|
      requires inbuf[p1..|text|] == text[p1..]
      modifies inbuf, this`status, this`rejoinTimer, this`parsed, this`written
      ensures inbuf[p0 + 1..|text|] == text[p0 + 1..]
      ensures var line := Clean(text[p1..p0]);
              && parsed == old(parsed) + [line]
              && written == old(written) + AnswerTo(me, old(status), line)
              && (ok <==> AllTaken(accepts, |old(written)|, |AnswerTo(me, old(status), line)|))
              && (ok ==> status == StatusAfter(me, old(status), line) &&
                         rejoinTimer == TimerAfter(me, old(status), old(rejoinTimer), line, time))
    {
      hide Clean, AnswerTo, StatusAfter, TimerAfter, AllTaken, Words;
      ghost var unread := inbuf[p1..|text|];
      forall q | p1 <= q < |text| ensures inbuf[q] == text[q] {
        assert inbuf[q] == unread[q - p1] && text[p1..][q - p1] == text[q];
      }
      assert inbuf[p1..p0] == text[p1..p0];
      var line := TakeLine(p1, p0);
      parsed := parsed + [line];
      ok := Parse(line, time);
    }

    // The line loop of irclib_monitor: every complete line goes to the parser, the rest is
    // moved to the front.
    method TakeLines(time: int) returns (ok: bool)
      requires inbuf.Length == INBUF && inbufLen <= INBUF
      modifies inbuf, this`inbufLen, this`status, this`rejoinTimer, this`parsed, this`written
      ensures var text, l := old(inbuf[..inbufLen]), old(Abs());
              var t := TalkOf(me, l.status, l.timer, Frames(text), time);
              if ok then
                && inbufLen <= INBUF && inbuf[..inbufLen] == Rest(text) && parsed == l.parsed + Frames(text)
                && status == t.status && rejoinTimer == t.timer
                && written == l.written + t.said && AllTaken(accepts, |l.written|, |t.said|)
              else IsRefused(me, accepts, l, Abs(), text, time)
    {
      hide Frames, Rest, Clean, IsRead, IsRefused, TalkOf;
      ghost var text, l := inbuf[..inbufLen], Abs();
      var p0, p1 := 0, 0;
      var left, avail := inbufLen, inbufLen;
      NothingRead(me, accepts, l, text, time);
      while avail > 0
        invariant p1 <= p0 && p0 + avail == p1 + left == inbufLen == |text|
        invariant inbuf[p1..inbufLen] == text[p1..] && '\n' !in text[p1..p0]
        invariant IsRead(me, accepts, l, Abs(), text, p1, time)
        decreases avail
      {
        assert inbuf[p0] == inbuf[p1..inbufLen][p0 - p1] == text[p0];
        if inbuf[p0] == '\n' {
          ghost var before := Abs();
          ok := OneLine(p1, p0, time, text);
          LineRead(me, accepts, l, before, Abs(), text, p1, p0, time, ok);
          if !ok { return; }
          p0 := p0 + 1;
          left := left - (p0 - p1);
          p1 := p0;
          avail := avail - 1;
        } else {
          assert text[p1..p0 + 1] == text[p1..p0] + [text[p0]];
          p0 := p0 + 1;
          avail := avail - 1;
        }
      }
      AllRead(me, accepts, l, Abs(), text, p1, time);
      MoveBack(p1, left);
      inbufLen := left;
      ok := true;
    }

    // memmove to the front of the buffer.
    method MoveBack(p1: nat, left: nat)
      requires p1 + left <= inbuf.Length
      modifies inbuf
      ensures inbuf[..left] == old(inbuf[p1..p1 + left])
    {
      forall i | 0 <= i < left { inbuf[i] := inbuf[p1 + i]; }
    }

    // One pass of irclib_monitor.
    method Pass(t: Turn)
      requires Valid() && t.time > 0
      modifies this`inbufLen, this`status, this`rejoinTimer, this`chanqueue, this`stream, this`parsed, this`written,
               inbuf
      ensures Valid() && Abs() == Passed(me, old(Abs()), t, accepts)
    {
      hide IsLink, IrcSpec.Read, Frames, Rest;
      ghost var l := Abs();
      PassIsLink(me, l, t, accepts);
      if status == Down {
        var up := TryConn(t.connects);
        if !up { return; }
        status := Connecting;
      }
      Receive(t);
    }

    // The part of a pass after the connection is there.
    method Receive(t: Turn)
      requires Buffered()
      modifies this`inbufLen, this`status, this`rejoinTimer, this`chanqueue, this`stream, this`parsed, this`written,
               inbuf
      ensures Buffered() && Abs() == IrcSpec.Read(me, old(Abs()), t, accepts)
    {
      hide Frames, Rest, TalkOf, LastText, Tried, AllTaken;
      ghost var l := Abs();
      var ok := true;
      match t.input {
        case Again => return;
        case NotReady => ok := Work("", t.time);
        case Got(data) =>
          ok := INBUF - inbufLen >= |data|;
          if ok { ok := Work(data, t.time); }
        case _ => ok := false;
      }
      if !ok { Drop(); }
    }

    // Take in the data and finish the pass.
    method Work(data: string, time: int) returns (ok: bool)
      requires Buffered() && inbufLen + |data| <= INBUF
      modifies this`inbufLen, this`status, this`rejoinTimer, this`chanqueue, this`stream, this`parsed, this`written,
               inbuf
      ensures var l, lines := old(Abs()), Frames(Rest(old(stream)) + data);
              var talk := TalkOf(me, l.status, l.timer, lines, time);
              var last := LastText(me, talk.status, talk.timer, l.queue, time);
              && (ok <==> AllTaken(accepts, |l.written|, |talk.said + last|))
              && written == l.written + Tried(accepts, |l.written|, talk.said + last)
              && (ok ==>
                    && Buffered()
                    && Abs() == Link(talk.status,
                                     if last != [] && talk.status == Verified then time + 30 else talk.timer,
                                     if last != [] && talk.status == IrcSpec.Joined then l.queue[1..] else l.queue,
                                     l.stream + data, l.parsed + lines, written))
              && (!ok ==> inbuf.Length == INBUF && chanqueue == l.queue)
    {
      hide Frames, Rest, TalkOf, LastText, Tried, AllTaken, IsRefused;
      ghost var l, text := Abs(), Rest(stream) + data;
      forall i | 0 <= i < |data| { inbuf[inbufLen + i] := data[i]; }
      inbufLen := inbufLen + |data|;
      assert inbuf[..inbufLen] == text;
      FramesAppend(stream, data);
      stream := stream + data;
      ghost var talk := TalkOf(me, l.status, l.timer, Frames(text), time);
      ghost var last := LastText(me, talk.status, talk.timer, l.queue, time);
      TriedBoth(accepts, |l.written|, talk.said, last);
      ghost var l1 := Abs();
      ok := TakeLines(time);
      if !ok {
        RefusedIs(me, accepts, l1, Abs(), text, time);
        return;
      }
      assert l.written + talk.said + Tried(accepts, |l.written| + |talk.said|, last)
          == l.written + (talk.said + Tried(accepts, |l.written| + |talk.said|, last));
      ok := Finish(time);
    }

    // The end of a pass: try to join again, or send the first message of the queue.
    method Finish(time: int) returns (ok: bool)
      modifies this`rejoinTimer, this`chanqueue, this`written
      ensures var last := LastText(me, status, old(rejoinTimer), old(chanqueue), time);
              && (ok <==> AllTaken(accepts, |old(written)|, |last|))
              && written == old(written) + Tried(accepts, |old(written)|, last)
              && rejoinTimer == (if ok && last != [] && status == Verified then time + 30 else old(rejoinTimer))
              && chanqueue == if ok && last != [] && status == Joined then old(chanqueue)[1..] else old(chanqueue)
    {
      ok := true;
      if status == Verified {
        if rejoinTimer != 0 && rejoinTimer < time {
          ok := Write(JoinText(me, LINEBUF));
          if !ok { return; }
          rejoinTimer := time + 30;
        }
      } else if status == Joined {
        if |chanqueue| > 0 {
          ok := Write(MessageText(me, chanqueue[0]));
          if !ok { return; }
          chanqueue := chanqueue[1..];
        }
      }
    }

    // irclib_writechan
    method WriteChan(text: string)
      requires Valid()
      modifies this`chanqueue
      ensures Valid() && Abs() == Queued(old(Abs()), text)
    {
      hide Frames, Rest;
      if |chanqueue| == CHANQUEUE_LENGTH { return; }
      chanqueue := chanqueue + [Fit(text, 400)];
    }
  }

  // An answer that is refused is the last text written.
  lemma RefusedHere(me: Me, l: Link, text: string, time: int, accepts: nat -> bool, before: seq<string>,
                    answer: seq<string>)
    requires |answer| <= 1 && AllTaken(accepts, |l.written|, |before|)
             && !AllTaken(accepts, |l.written| + |before|, |answer|)
    requires before + answer <= TalkOf(me, l.status, l.timer, Frames(text), time).said
    ensures var said := TalkOf(me, l.status, l.timer, Frames(text), time).said;
            Tried(accepts, |l.written|, said) == before + answer && !AllTaken(accepts, |l.written|, |said|)
  {
    hide TalkOf, Frames;
    var said := TalkOf(me, l.status, l.timer, Frames(text), time).said;
    TriedUntil(accepts, |l.written|, said, |before|);
    assert said[..|before| + 1] == before + answer;
  }

  // A whole run; the connection is up after every pass exactly when no pass breaks it, and
  // then, however the server's bytes are divided into reads, the lines that reach the
  // parser are the lines of the whole stream, and messages go out in order, each once.
  method Run(c: Connection, events: seq<Event>) returns (dropped: bool)
    requires c.Valid() && IsTimed(events)
    modifies c, c.inbuf
    ensures c.Valid() && c.Abs() == RunOf(c.me, old(c.Abs()), events, c.accepts)
    ensures dropped <==> exists i | 0 <= i < |events| :: IsBroken(c.me, old(c.Abs()), events, c.accepts, i)
    ensures !dropped ==> c.parsed == Frames(old(c.stream) + Received(events))
    ensures !dropped && old(c.status) != Down ==>
              && old(c.written) <= c.written
              && Messages(c.written[|old(c.written)|..]) + AllOnTheWire(c.me, c.chanqueue)
              == AllOnTheWire(c.me, old(c.chanqueue))
               + AllOnTheWire(c.me, Accepted(c.me, old(c.Abs()), events, c.accepts, |events|))
  {
    hide Frames, Rest, RunOf, IsBroken, IsLink, Passed, Messages, AllOnTheWire, Accepted;
    dropped := false;
    ghost var l := c.Abs();
    NothingRun(c.me, l, events, c.accepts);
    for i := 0 to |events|
      invariant c.Valid() && c.Abs() == RunOf(c.me, l, events[..i], c.accepts)
      invariant dropped <==> exists k | 0 < k <= i :: !IsUpAfter(c.me, l, events, c.accepts, k)
    {
      RunNext(c.me, l, events, c.accepts, i);
      match events[i] {
        case Pass(turn) => c.Pass(turn);
        case Say(text) => c.WriteChan(text);
      }
      dropped := dropped || c.status == Down;
      assert IsUpAfter(c.me, l, events, c.accepts, i + 1) <==> c.status != Down;
    }
    assert events[..|events|] == events;
    UpIffUnbroken(c.me, l, events, c.accepts, |events|);
    if !dropped {
      RunIsFramed(c.me, l, events, c.accepts, |events|);
      if l.status != Down { MessagesInOrder(c.me, l, events, c.accepts, |events|); }
    }
  }
}
