// The monitor of irc/irc.c: lines of a byte stream, and what one pass and a whole run do to
// the connection, given what the server and the network do.

module IrcSpec {
  import opened Common

  const INBUF := 10240
  const LINEBUF := 4096
  const OUTBUF := 512
  const CHANQUEUE_LENGTH := 32

  datatype Status = Down | Connecting | Verified | Joined

  // What select and BIO_read report in one pass.
  datatype Input = SelectFailed | NotReady | Again | Lost | Got(data: string)

  // ---------------------------------------------------------------- lines of a stream

  // A line as irclib_parse gets it: up to a carriage return or a NUL, and no longer than
  // the line buffer.
  function Clean(line: string): (c: string) {
    var k := End(line);
    if k < LINEBUF then line[..k] else line[..LINEBUF - 1]
  }

  function End(line: string): (k: nat)
    ensures k <= |line| && forall i | 0 <= i < k :: line[i] != '\r' && line[i] != '\0'
    ensures k < |line| ==> line[k] == '\r' || line[k] == '\0'
  {
    if line == "" || line[0] == '\r' || line[0] == '\0' then 0 else 1 + End(line[1..])
  }

  // The length of the first line, or of all of it when there is no newline.
  function LineEnd(s: string): (k: nat)
    ensures k <= |s| && (k < |s| ==> s[k] == '\n') && forall i | 0 <= i < k :: s[i] != '\n'
  {
    if s == "" || s[0] == '\n' then 0 else 1 + LineEnd(s[1..])
  }

  // The complete lines of a stream, and what is left behind them.
  function Frames(s: string): (lines: seq<string>)
    decreases |s|
  {
    var k := LineEnd(s);
    if k == |s| then [] else [Clean(s[..k])] + Frames(s[k + 1..])
  }

  function Rest(s: string): (r: string)
    decreases |s|
  {
    var k := LineEnd(s);
    if k == |s| then s else Rest(s[k + 1..])
  }

  lemma {:induction false} LineEndIs(s: string, k: nat)
    requires k <= |s| && '\n' !in s[..k] && (k < |s| ==> s[k] == '\n')
    ensures LineEnd(s) == k
  {
    var e := LineEnd(s);
    assert forall i | 0 <= i < k :: s[i] == s[..k][i] && s[i] in s[..k];
  }

  lemma {:induction false} RestHasNoNewline(s: string)
    ensures '\n' !in Rest(s)
    decreases |s|
  {
    var k := LineEnd(s);
    if k < |s| { RestHasNoNewline(s[k + 1..]); }
  }

  lemma {:induction false} FirstLine(s: string)
    ensures var k := LineEnd(s);
            if k == |s| then Frames(s) == [] && Rest(s) == s
            else Frames(s) == [Clean(s[..k])] + Frames(s[k + 1..]) && Rest(s) == Rest(s[k + 1..])
  {
    hide LineEnd, Clean;
  }

  // Splitting a stream into lines does not depend on how it is cut into reads.
  lemma {:induction false} FramesAppend(a: string, b: string)
    ensures Frames(a + b) == Frames(a) + Frames(Rest(a) + b)
    ensures Rest(a + b) == Rest(Rest(a) + b)
    decreases |a|
  {
    hide Frames, Rest, Clean;
    var k := LineEnd(a);
    FirstLine(a);
    if k == |a| {
      assert [] + Frames(a + b) == Frames(a + b);
    } else {
      var more := a[k + 1..];
      assert (a + b)[..k] == a[..k] && (a + b)[k] == '\n' && (a + b)[k + 1..] == more + b;
      LineEndIs(a + b, k);
      FirstLine(a + b);
      FramesAppend(more, b);
      assert [Clean(a[..k])] + (Frames(more) + Frames(Rest(more) + b))
          == [Clean(a[..k])] + Frames(more) + Frames(Rest(more) + b);
    }
  }

  // One more complete line.
  lemma {:induction false} FramesOfLine(done: string, line: string)
    requires Rest(done) == "" && '\n' !in line
    ensures Frames(done + line + "\n") == Frames(done) + [Clean(line)]
    ensures Rest(done + line + "\n") == ""
    ensures Rest(done + line) == line
  {
    var l := line + "\n";
    assert l[..|line|] == line && l[|line| + 1..] == "";
    LineEndIs(l, |line|);
    LineEndIs("", 0);
    assert done + line + "\n" == done + l && "" + l == l && "" + line == line;
    FramesAppend(done, l);
    assert line[..|line|] == line;
    LineEndIs(line, |line|);
    FramesAppend(done, line);
  }

  // The words of a line, empty ones included.
  function Words(line: string): (ws: seq<string>)
    ensures |ws| >= 1
    decreases |line|
  {
    var k := WordEnd(line);
    if k == |line| then [line] else [line[..k]] + Words(line[k + 1..])
  }

  function WordEnd(line: string): (k: nat)
    ensures k <= |line|
  {
    if line == "" || line[0] == ' ' then 0 else 1 + WordEnd(line[1..])
  }

  // ---------------------------------------------------------------- what a line does

  datatype Me = Me(nick: string, chan: string, key: string)

  // snprintf into a buffer of n bytes.
  function Fit(text: string, n: nat): (t: string)
    requires n > 0
  {
    if |text| < n then text else text[..n - 1]
  }

  function HelloText(me: Me): string {
    Fit("NICK " + me.nick + "\r\nUSER " + me.nick + " @ " + me.nick + " :" + me.nick + "\r\n", 1024)
  }

  function JoinText(me: Me, size: nat): string
    requires size > 0
  {
    Fit("JOIN " + me.chan + " " + me.key + "\r\n", size)
  }

  function PongText(token: string): string {
    Fit("PONG " + token + "\r\n", OUTBUF)
  }

  function MessageText(me: Me, text: string): string {
    Fit("PRIVMSG " + me.chan + " :" + text + "\r\n", LINEBUF)
  }

  predicate IsPing(a: seq<string>) {
    |a| >= 2 && a[0] == "PING"
  }

  // A PING is never anything else.
  predicate IsWelcome(a: seq<string>) {
    |a| >= 2 && !IsPing(a) && a[1] == "001"
  }

  predicate IsOwnJoin(me: Me, a: seq<string>) {
    |a| >= 2 && !IsPing(a) && a[1] == "JOIN" && Fit(":" + me.nick + "!", 511) <= a[0]
  }

  predicate IsKicked(me: Me, a: seq<string>) {
    |a| >= 4 && !IsPing(a) && a[1] == "KICK" && a[3] == me.nick
  }

  function StatusAfter(me: Me, status: Status, line: string): Status {
    var a := Words(line);
    match status
    case Connecting => if IsWelcome(a) then Verified else Connecting
    case Verified => if IsOwnJoin(me, a) then Joined else Verified
    case Joined => if IsKicked(me, a) then Verified else Joined
    case Down => Down
  }

  // Entering the verified state schedules an attempt to join, leaving it cancels it.
  function TimerAfter(me: Me, status: Status, timer: int, line: string, time: int): int {
    var next := StatusAfter(me, status, line);
    if next == status then timer else if next == Verified then time + 30 else 0
  }

  function AnswerTo(me: Me, status: Status, line: string): (out: seq<string>)
    ensures |out| <= 1
  {
    var a := Words(line);
    if IsPing(a) then [PongText(a[1])]
    else if status == Connecting && IsWelcome(a) then [JoinText(me, OUTBUF)]
    else []
  }

  // ---------------------------------------------------------------- the lines of a read

  datatype Talk = Talk(status: Status, timer: int, said: seq<string>)

  function TalkOf(me: Me, status: Status, timer: int, lines: seq<string>, time: int): (t: Talk) {
    if lines == [] then Talk(status, timer, [])
    else
      var t, line := TalkOf(me, status, timer, lines[..|lines| - 1], time), lines[|lines| - 1];
      Talk(StatusAfter(me, t.status, line), TimerAfter(me, t.status, t.timer, line, time),
           t.said + AnswerTo(me, t.status, line))
  }

  lemma TalkNext(me: Me, status: Status, timer: int, lines: seq<string>, line: string, time: int)
    ensures var t := TalkOf(me, status, timer, lines, time);
            TalkOf(me, status, timer, lines + [line], time) ==
            Talk(StatusAfter(me, t.status, line), TimerAfter(me, t.status, t.timer, line, time),
                 t.said + AnswerTo(me, t.status, line))
  {
    assert (lines + [line])[..|lines|] == lines;
  }

  lemma {:induction false} SaidGrows(me: Me, status: Status, timer: int, lines: seq<string>, more: seq<string>,
                                     time: int)
    ensures TalkOf(me, status, timer, lines, time).said <= TalkOf(me, status, timer, lines + more, time).said
    decreases |more|
  {
    if more == [] {
      assert lines + more == lines;
    } else {
      var init := more[..|more| - 1];
      SaidGrows(me, status, timer, lines, init, time);
      TalkNext(me, status, timer, lines + init, more[|more| - 1], time);
      assert lines + init + [more[|more| - 1]] == lines + more;
    }
  }

  // ---------------------------------------------------------------- texts that are refused

  // The server takes the k-th text written to it or refuses it for good; after a refusal
  // nothing more is written in the pass.
  ghost predicate AllTaken(accepts: nat -> bool, n: nat, count: nat) {
    forall k | n <= k < n + count :: accepts(k)
  }

  function Tried(accepts: nat -> bool, n: nat, texts: seq<string>): seq<string>
    decreases |texts|
  {
    if texts == [] then []
    else if !accepts(n) then [texts[0]]
    else [texts[0]] + Tried(accepts, n + 1, texts[1..])
  }

  lemma {:induction false} TriedAll(accepts: nat -> bool, n: nat, texts: seq<string>)
    requires AllTaken(accepts, n, |texts|)
    ensures Tried(accepts, n, texts) == texts
    decreases |texts|
  {
    if texts != [] { TriedAll(accepts, n + 1, texts[1..]); }
  }

  lemma {:induction false} TriedUntil(accepts: nat -> bool, n: nat, texts: seq<string>, k: nat)
    requires k < |texts| && AllTaken(accepts, n, k) && !accepts(n + k)
    ensures Tried(accepts, n, texts) == texts[..k + 1] && !AllTaken(accepts, n, |texts|)
    decreases k
  {
    if k > 0 {
      TriedUntil(accepts, n + 1, texts[1..], k - 1);
      assert texts[1..][..k] == texts[1..k + 1];
    }
  }

  lemma {:induction false} TriedStep(accepts: nat -> bool, n: nat, texts: seq<string>)
    requires texts != []
    ensures Tried(accepts, n, texts) == [texts[0]] + if accepts(n) then Tried(accepts, n + 1, texts[1..]) else []
    ensures AllTaken(accepts, n, |texts|) <==> accepts(n) && AllTaken(accepts, n + 1, |texts| - 1)
  {
  }

  lemma TriedNone(accepts: nat -> bool, n: nat)
    ensures Tried(accepts, n, []) == [] && AllTaken(accepts, n, 0)
  {
  }

  lemma {:induction false} TriedBoth(accepts: nat -> bool, n: nat, a: seq<string>, b: seq<string>)
    ensures AllTaken(accepts, n, |a + b|) <==> AllTaken(accepts, n, |a|) && AllTaken(accepts, n + |a|, |b|)
    ensures Tried(accepts, n, a + b) ==
            if AllTaken(accepts, n, |a|) then a + Tried(accepts, n + |a|, b) else Tried(accepts, n, a)
    decreases |a|
  {
    hide Tried, AllTaken;
    if a == [] {
      TriedNone(accepts, n);
      assert a + b == b && [] + Tried(accepts, n, b) == Tried(accepts, n, b);
    } else {
      var more := a[1..];
      assert (a + b)[1..] == more + b && |more| == |a| - 1 && |more + b| == |a + b| - 1;
      TriedStep(accepts, n, a);
      TriedStep(accepts, n, a + b);
      if accepts(n) {
        TriedBoth(accepts, n + 1, more, b);
        TriedCons(a, Tried(accepts, n + |a|, b));
      }
    }
  }

  lemma TriedCons(a: seq<string>, rest: seq<string>)
    requires a != []
    ensures [a[0]] + (a[1..] + rest) == a + rest
  {
  }

  // ---------------------------------------------------------------- one pass

  // The connection as it is between two passes: everything read since it was made, the
  // lines that went to the parser, the queue, and all texts ever written.
  datatype Link = Link(status: Status, timer: int, queue: seq<string>, stream: string, parsed: seq<string>,
                       written: seq<string>)

  // Everything one pass depends on.
  datatype Turn = Turn(input: Input, time: int, connects: bool)

  function DataIn(input: Input): string {
    if input.Got? then input.data else ""
  }

  function Dropped(l: Link): Link {
    l.(status := Down, timer := 0, stream := "", parsed := [])
  }

  // A rejoin is due, or a message can go out.
  function LastText(me: Me, status: Status, timer: int, queue: seq<string>, time: int): (out: seq<string>)
    ensures |out| <= 1
  {
    if status == Verified && timer != 0 && timer < time then [JoinText(me, LINEBUF)]
    else if status == Joined && queue != [] then [MessageText(me, queue[0])]
    else []
  }

  // The texts a pass writes once connected, as long as none is refused.
  function Wanted(me: Me, l: Link, t: Turn): (texts: seq<string>) {
    var talk := TalkOf(me, l.status, l.timer, Frames(Rest(l.stream) + DataIn(t.input)), t.time);
    talk.said + LastText(me, talk.status, talk.timer, l.queue, t.time)
  }

  predicate Overflows(l: Link, t: Turn) {
    |Rest(l.stream)| + |DataIn(t.input)| > INBUF
  }

  // What ends a connection: the network, a full buffer, or a refused text.
  ghost predicate Breaks(me: Me, l: Link, t: Turn, accepts: nat -> bool) {
    && t.input != Again
    && (t.input == SelectFailed || t.input == Lost || Overflows(l, t)
        || !AllTaken(accepts, |l.written|, |Wanted(me, l, t)|))
  }

  // An attempt to connect, which empties the queue and the buffer.
  function Connected(me: Me, l: Link, t: Turn, accepts: nat -> bool): Link {
    Link(if t.connects && accepts(|l.written|) then Connecting else Down, l.timer, [], "", [],
         l.written + if t.connects then [HelloText(me)] else [])
  }

  ghost function Read(me: Me, l: Link, t: Turn, accepts: nat -> bool): Link {
    if t.input == Again then l
    else if t.input == SelectFailed || t.input == Lost || Overflows(l, t) then Dropped(l)
    else
      var texts := l.written + Tried(accepts, |l.written|, Wanted(me, l, t));
      if !AllTaken(accepts, |l.written|, |Wanted(me, l, t)|) then Dropped(l.(written := texts))
      else
        var data := DataIn(t.input);
        var lines := Frames(Rest(l.stream) + data);
        var talk := TalkOf(me, l.status, l.timer, lines, t.time);
        var last := LastText(me, talk.status, talk.timer, l.queue, t.time) != [];
        Link(talk.status, if last && talk.status == Verified then t.time + 30 else talk.timer,
             if last && talk.status == Joined then l.queue[1..] else l.queue,
             l.stream + data, l.parsed + lines, texts)
  }

  // One pass of irclib_monitor.
  ghost function Passed(me: Me, l: Link, t: Turn, accepts: nat -> bool): Link {
    var up := if l.status == Down then Connected(me, l, t, accepts) else l;
    if up.status == Down then up else Read(me, up, t, accepts)
  }

  // Between passes the lines that went to the parser are those of the stream, and a rejoin
  // is scheduled exactly while the connection is verified but not joined.
  ghost predicate IsLink(l: Link) {
    && l.parsed == Frames(l.stream) && |Rest(l.stream)| <= INBUF && |l.queue| <= CHANQUEUE_LENGTH
    && (l.timer != 0 <==> l.status == Verified)
    && (l.status == Down ==> l.stream == "")
  }

  lemma {:induction false} TalkIsScheduled(me: Me, status: Status, timer: int, lines: seq<string>, time: int)
    requires (timer != 0 <==> status == Verified) && time > 0
    ensures var t := TalkOf(me, status, timer, lines, time);
            (t.timer != 0 <==> t.status == Verified) && (t.status == Down <==> status == Down)
    decreases |lines|
  {
    if lines != [] {
      hide Words, IsWelcome, IsOwnJoin, IsKicked;
      TalkIsScheduled(me, status, timer, lines[..|lines| - 1], time);
    }
  }

  lemma RestIsShorter(s: string)
    ensures |Rest(s)| <= |s|
    decreases |s|
  {
    var k := LineEnd(s);
    if k < |s| { RestIsShorter(s[k + 1..]); }
  }

  lemma NoText()
    ensures Frames("") == [] && Rest("") == ""
  {
  }

  lemma ReadIsLink(me: Me, l: Link, t: Turn, accepts: nat -> bool)
    requires IsLink(l) && l.status != Down && t.time > 0
    ensures var r := Read(me, l, t, accepts);
            && IsLink(r)
            && (r.status == Down <==> Breaks(me, l, t, accepts))
            && (r.status != Down ==> r.stream == l.stream + DataIn(t.input))
  {
    hide Frames, Rest, TalkOf, LastText, Tried, AllTaken;
    var data := DataIn(t.input);
    FramesAppend(l.stream, data);
    RestIsShorter(Rest(l.stream) + data);
    TalkIsScheduled(me, l.status, l.timer, Frames(Rest(l.stream) + data), t.time);
    LastTextIs(me, l, t);
    NoText();
    assert l.stream + "" == l.stream;
  }

  lemma LastTextIs(me: Me, l: Link, t: Turn)
    ensures forall status, timer ::
              LastText(me, status, timer, l.queue, t.time) != [] ==>
                (status == Verified && timer != 0) || (status == Joined && l.queue != [])
  {
  }

  // A pass ends with the connection down exactly when the attempt to make it failed, or
  // something broke it; otherwise everything read has been framed.
  lemma PassIsLink(me: Me, l: Link, t: Turn, accepts: nat -> bool)
    requires IsLink(l) && t.time > 0
    ensures var r, up := Passed(me, l, t, accepts), Connected(me, l, t, accepts);
            && IsLink(r)
            && (l.status == Down ==>
                  (r.status == Down <==> !t.connects || !accepts(|l.written|) || Breaks(me, up, t, accepts)))
            && (l.status != Down ==> (r.status == Down <==> Breaks(me, l, t, accepts)))
            && (r.status != Down ==> r.stream == l.stream + DataIn(t.input))
  {
    hide Frames, Rest, Read, Breaks;
    NoText();
    if l.status != Down {
      ReadIsLink(me, l, t, accepts);
    } else {
      var up := Connected(me, l, t, accepts);
      if up.status != Down { ReadIsLink(me, up, t, accepts); }
    }
  }

  // ---------------------------------------------------------------- whole runs

  // irclib_writechan: a full queue drops the message.
  function Queued(l: Link, text: string): Link {
    if |l.queue| == CHANQUEUE_LENGTH then l else l.(queue := l.queue + [Fit(text, 400)])
  }

  datatype Event = Pass(turn: Turn) | Say(text: string)

  ghost function RunOf(me: Me, l: Link, events: seq<Event>, accepts: nat -> bool): (r: Link) {
    if events == [] then l
    else
      var r := RunOf(me, l, events[..|events| - 1], accepts);
      match events[|events| - 1]
      case Pass(turn) => Passed(me, r, turn, accepts)
      case Say(text) => Queued(r, text)
  }

  // Everything the server sent.
  function Received(events: seq<Event>): string {
    Flatten(seq(|events|, i requires 0 <= i < |events| => if events[i].Pass? then DataIn(events[i].turn.input) else ""))
  }

  predicate IsTimed(events: seq<Event>) {
    forall i | 0 <= i < |events| && events[i].Pass? :: events[i].turn.time > 0
  }

  ghost predicate IsUpAfter(me: Me, l: Link, events: seq<Event>, accepts: nat -> bool, n: nat) {
    n <= |events| && RunOf(me, l, events[..n], accepts).status != Down
  }

  // Event i leaves the connection down: it was down and is not made, the network fails,
  // the incomplete line before the data and the data do not fit into the buffer, or the
  // server refuses one of the texts of the pass.
  ghost predicate IsBroken(me: Me, l: Link, events: seq<Event>, accepts: nat -> bool, i: nat)
    requires i < |events|
  {
    var r := RunOf(me, l, events[..i], accepts);
    if events[i].Say? then r.status == Down
    else
      var t := events[i].turn;
      var up := if r.status == Down then Connected(me, r, t, accepts) else r;
      || (r.status == Down && !(t.connects && accepts(|r.written|)))
      || (t.input != Again
          && (t.input == SelectFailed || t.input == Lost
              || |Rest(l.stream + Received(events[..i]))| + |DataIn(t.input)| > INBUF
              || !AllTaken(accepts, |up.written|, |Wanted(me, up, t)|)))
  }

  lemma RunNext(me: Me, l: Link, events: seq<Event>, accepts: nat -> bool, i: nat)
    requires i < |events|
    ensures var r := RunOf(me, l, events[..i], accepts);
            RunOf(me, l, events[..i + 1], accepts) ==
            if events[i].Pass? then Passed(me, r, events[i].turn, accepts) else Queued(r, events[i].text)
  {
    assert events[..i + 1][..i] == events[..i];
  }

  lemma ReceivedNext(events: seq<Event>, i: nat)
    requires i < |events|
    ensures Received(events[..i + 1]) ==
            Received(events[..i]) + if events[i].Pass? then DataIn(events[i].turn.input) else ""
  {
    var parts := seq(i + 1, k requires 0 <= k < i + 1 => if events[k].Pass? then DataIn(events[k].turn.input) else "");
    var init := seq(i, k requires 0 <= k < i => if events[k].Pass? then DataIn(events[k].turn.input) else "");
    assert parts[..i] == init;
    assert events[..i + 1][..i] == events[..i];
    Same(events[..i + 1], parts);
    Same(events[..i], init);
  }

  lemma Same(events: seq<Event>, parts: seq<string>)
    requires |parts| == |events|
    requires forall i | 0 <= i < |events| :: parts[i] == if events[i].Pass? then DataIn(events[i].turn.input) else ""
    ensures Received(events) == Flatten(parts)
  {
    assert seq(|events|, i requires 0 <= i < |events| =>
                 if events[i].Pass? then DataIn(events[i].turn.input) else "") == parts;
  }

  lemma NothingRun(me: Me, l: Link, events: seq<Event>, accepts: nat -> bool)
    ensures RunOf(me, l, events[..0], accepts) == l && Received(events[..0]) == ""
  {
  }

  lemma QueuedIsLink(l: Link)
    ensures forall text :: IsLink(l) ==> IsLink(Queued(l, text))
  {
    hide Frames, Rest, Fit;
  }

  lemma LinkIsFramed(l: Link)
    requires IsLink(l)
    ensures l.parsed == Frames(l.stream)
  {
  }

  lemma {:induction false} RunIsLink(me: Me, l: Link, events: seq<Event>, accepts: nat -> bool, n: nat)
    requires IsLink(l) && IsTimed(events) && n <= |events|
    ensures IsLink(RunOf(me, l, events[..n], accepts))
    decreases n
  {
    hide IsLink, Passed, Queued, RunOf;
    NothingRun(me, l, events, accepts);
    if n > 0 {
      RunIsLink(me, l, events, accepts, n - 1);
      RunNext(me, l, events, accepts, n - 1);
      QueuedIsLink(RunOf(me, l, events[..n - 1], accepts));
      if events[n - 1].Pass? {
        PassIsLink(me, RunOf(me, l, events[..n - 1], accepts), events[n - 1].turn, accepts);
      }
    }
  }

  // While the connection stays up, the lines that went to the parser are the lines of
  // everything the server sent, however it was divided into reads.
  lemma {:induction false} RunIsFramed(me: Me, l: Link, events: seq<Event>, accepts: nat -> bool, n: nat)
    requires IsLink(l) && IsTimed(events) && n <= |events|
    requires forall k | 0 < k <= n :: IsUpAfter(me, l, events, accepts, k)
    ensures var r := RunOf(me, l, events[..n], accepts);
            r.stream == l.stream + Received(events[..n]) && r.parsed == Frames(l.stream + Received(events[..n]))
    decreases n
  {
    hide Frames, Rest, Passed, IsUpAfter, IsLink, RunOf, Received;
    RunIsLink(me, l, events, accepts, n);
    LinkIsFramed(RunOf(me, l, events[..n], accepts));
    NothingRun(me, l, events, accepts);
    assert l.stream + "" == l.stream;
    if n > 0 {
      RunIsFramed(me, l, events, accepts, n - 1);
      assert IsUpAfter(me, l, events, accepts, n);
      UpIs(me, l, events, accepts, n);
      StreamNext(me, l, events, accepts, n - 1);
    }
  }

  lemma StreamNext(me: Me, l: Link, events: seq<Event>, accepts: nat -> bool, i: nat)
    requires IsLink(l) && IsTimed(events) && i < |events|
    requires RunOf(me, l, events[..i], accepts).stream == l.stream + Received(events[..i])
    requires RunOf(me, l, events[..i + 1], accepts).status != Down
    ensures RunOf(me, l, events[..i + 1], accepts).stream == l.stream + Received(events[..i + 1])
  {
    hide Frames, Rest, Passed, IsLink, RunOf, Received;
    var r := RunOf(me, l, events[..i], accepts);
    RunNext(me, l, events, accepts, i);
    ReceivedNext(events, i);
    RunIsLink(me, l, events, accepts, i);
    if events[i].Pass? {
      PassIsLink(me, r, events[i].turn, accepts);
      assert l.stream + Received(events[..i]) + DataIn(events[i].turn.input)
          == l.stream + (Received(events[..i]) + DataIn(events[i].turn.input));
    } else {
      assert Received(events[..i]) + "" == Received(events[..i]);
    }
  }

  lemma UpIs(me: Me, l: Link, events: seq<Event>, accepts: nat -> bool, n: nat)
    requires IsUpAfter(me, l, events, accepts, n)
    ensures RunOf(me, l, events[..n], accepts).status != Down
  {
  }

  // A connection stays up exactly as long as no pass breaks it.
  lemma {:induction false} UpIffUnbroken(me: Me, l: Link, events: seq<Event>, accepts: nat -> bool, n: nat)
    requires IsLink(l) && IsTimed(events) && n <= |events|
    ensures (forall k | 0 < k <= n :: IsUpAfter(me, l, events, accepts, k))
            <==> forall i | 0 <= i < n :: !IsBroken(me, l, events, accepts, i)
    decreases n
  {
    hide Frames, Rest, Passed, Wanted, AllTaken, IsUpAfter, IsBroken;
    if n > 0 {
      UpIffUnbroken(me, l, events, accepts, n - 1);
      if forall k | 0 < k <= n - 1 :: IsUpAfter(me, l, events, accepts, k) {
        StepUp(me, l, events, accepts, n - 1);
      }
    }
  }

  lemma StepUp(me: Me, l: Link, events: seq<Event>, accepts: nat -> bool, i: nat)
    requires IsLink(l) && IsTimed(events) && i < |events|
    requires forall k | 0 < k <= i :: IsUpAfter(me, l, events, accepts, k)
    ensures IsUpAfter(me, l, events, accepts, i + 1) <==> !IsBroken(me, l, events, accepts, i)
  {
    hide Frames, Rest, Passed, Wanted, AllTaken;
    RunIsFramed(me, l, events, accepts, i);
    RunIsLink(me, l, events, accepts, i);
    RunNext(me, l, events, accepts, i);
    var r := RunOf(me, l, events[..i], accepts);
    if i > 0 { assert IsUpAfter(me, l, events, accepts, i); }
    if events[i].Pass? { PassIsLink(me, r, events[i].turn, accepts); }
  }

  // ---------------------------------------------------------------- the lines in a buffer

  lemma LineOf(text: string, p1: nat, p0: nat)
    requires p1 <= p0 < |text| && Rest(text[..p1]) == "" && '\n' !in text[p1..p0] && text[p0] == '\n'
    ensures Frames(text[..p0 + 1]) == Frames(text[..p1]) + [Clean(text[p1..p0])] && Rest(text[..p0 + 1]) == ""
  {
    assert text[..p0 + 1] == text[..p1] + text[p1..p0] + "\n";
    FramesOfLine(text[..p1], text[p1..p0]);
  }

  lemma RestOf(text: string, p1: nat)
    requires p1 <= |text| && Rest(text[..p1]) == "" && '\n' !in text[p1..]
    ensures Frames(text) == Frames(text[..p1]) && Rest(text) == text[p1..]
  {
    var done, line := text[..p1], text[p1..];
    assert text == done + line && "" + line == line && line[..|line|] == line;
    LineEndIs(line, |line|);
    FramesAppend(done, line);
  }

  // The answers so far begin the answers to the whole buffer.
  lemma AnswersSoFar(me: Me, status: Status, timer: int, text: string, p: nat, time: int)
    requires p <= |text|
    ensures TalkOf(me, status, timer, Frames(text[..p]), time).said <=
            TalkOf(me, status, timer, Frames(text), time).said
  {
    hide TalkOf, Frames, Rest;
    assert text == text[..p] + text[p..];
    FramesAppend(text[..p], text[p..]);
    SaidGrows(me, status, timer, Frames(text[..p]), Frames(Rest(text[..p]) + text[p..]), time);
  }
}
