// What the monitor of irc/irc.c is for, said of the texts it reads and writes: lines arrive
// as they were sent, a PING is answered, and messages go out in order, each once.

module IrcMeaning {
  import opened Common
  import opened IrcSpec

  // ---------------------------------------------------------------- messages

  predicate IsMessage(text: string) {
    "PRIVMSG " <= text
  }

  // The messages among the texts written to the server.
  function Messages(texts: seq<string>): (ms: seq<string>) {
    if texts == [] then []
    else
      var last := texts[|texts| - 1];
      Messages(texts[..|texts| - 1]) + if IsMessage(last) then [last] else []
  }

  // What is to arrive for a message.
  function OnTheWire(me: Me, m: string): string {
    var text := "PRIVMSG " + me.chan + " :" + m + "\r\n";
    if |text| < 4096 then text else text[..4095]
  }

  function AllOnTheWire(me: Me, ms: seq<string>): (texts: seq<string>)
    ensures |texts| == |ms|
  {
    if ms == [] then [] else AllOnTheWire(me, ms[..|ms| - 1]) + [OnTheWire(me, ms[|ms| - 1])]
  }

  // What is kept of a message.
  function Kept(text: string): string {
    if |text| < 400 then text else text[..399]
  }

  // The messages said while fewer than 32 were queued.
  ghost function Accepted(me: Me, l: Link, events: seq<Event>, accepts: nat -> bool, n: nat): (ms: seq<string>)
    requires n <= |events|
  {
    if n == 0 then []
    else
      var before, e := Accepted(me, l, events, accepts, n - 1), events[n - 1];
      if e.Say? && |RunOf(me, l, events[..n - 1], accepts).queue| < 32 then before + [Kept(e.text)] else before
  }

  lemma MessagesNext(texts: seq<string>, text: string)
    ensures Messages(texts + [text]) == Messages(texts) + if IsMessage(text) then [text] else []
  {
    assert (texts + [text])[..|texts|] == texts;
  }

  lemma {:induction false} MessagesAppend(a: seq<string>, b: seq<string>)
    ensures Messages(a + b) == Messages(a) + Messages(b)
    decreases |b|
  {
    if b == [] {
      assert a + b == a;
    } else {
      hide Messages;
      var init, last := b[..|b| - 1], b[|b| - 1];
      assert b == init + [last] && a + b == (a + init) + [last];
      MessagesAppend(a, init);
      MessagesNext(init, last);
      MessagesNext(a + init, last);
    }
  }

  lemma NotMessages(me: Me, token: string, size: nat)
    requires size > 8
    ensures !IsMessage(JoinText(me, size)) && !IsMessage(PongText(token)) && !IsMessage(HelloText(me))
  {
    FitStarts("JOIN " + me.chan + " " + me.key + "\r\n", size);
    FitStarts("PONG " + token + "\r\n", OUTBUF);
    FitStarts("NICK " + me.nick + "\r\nUSER " + me.nick + " @ " + me.nick + " :" + me.nick + "\r\n", 1024);
  }

  lemma FitStarts(text: string, n: nat)
    requires n > 8 && |text| > 0
    ensures |Fit(text, n)| > 0 && Fit(text, n)[0] == text[0]
    ensures |text| > 1 ==> |Fit(text, n)| > 1 && Fit(text, n)[1] == text[1]
  {
  }

  // Answers to the server are not messages.
  lemma {:induction false} SaidHasNoMessages(me: Me, status: Status, timer: int, lines: seq<string>, time: int)
    ensures Messages(TalkOf(me, status, timer, lines, time).said) == []
    decreases |lines|
  {
    if lines != [] {
      var t, line := TalkOf(me, status, timer, lines[..|lines| - 1], time), lines[|lines| - 1];
      SaidHasNoMessages(me, status, timer, lines[..|lines| - 1], time);
      MessagesAppend(t.said, AnswerTo(me, t.status, line));
      AnswerIsNoMessage(me, t.status, line);
    }
  }

  lemma AnswerIsNoMessage(me: Me, status: Status, line: string)
    ensures Messages(AnswerTo(me, status, line)) == []
  {
    hide JoinText, PongText, HelloText, IsMessage;
    var a := Words(line);
    NotMessages(me, if |a| >= 2 then a[1] else "", OUTBUF);
    assert Messages([]) == [];
    MessagesNext([], JoinText(me, OUTBUF));
    if |a| >= 2 { MessagesNext([], PongText(a[1])); }
    assert forall x: string :: [] + [x] == [x];
  }

  lemma WireNext(me: Me, ms: seq<string>, m: string)
    ensures AllOnTheWire(me, ms + [m]) == AllOnTheWire(me, ms) + [OnTheWire(me, m)]
  {
    assert (ms + [m])[..|ms|] == ms;
  }

  lemma {:induction false} WireFirst(me: Me, ms: seq<string>)
    requires ms != []
    ensures AllOnTheWire(me, ms) == [OnTheWire(me, ms[0])] + AllOnTheWire(me, ms[1..])
    decreases |ms|
  {
    var init, last := ms[..|ms| - 1], ms[|ms| - 1];
    if init != [] {
      WireFirst(me, init);
      assert ms[1..] == init[1..] + [last];
      WireNext(me, init[1..], last);
    }
  }

  // The last text of a pass: no message, or the first of the queue.
  lemma LastIsFirst(me: Me, status: Status, timer: int, queue: seq<string>, time: int)
    ensures var last := LastText(me, status, timer, queue, time);
            && (status == Joined && queue != [] ==> last != [] && Messages(last) == [OnTheWire(me, queue[0])])
            && (!(status == Joined && queue != []) ==> Messages(last) == [])
            && (status == Joined && queue == [] ==> last == [])
  {
    NotMessages(me, "", LINEBUF);
    MessagesNext([], JoinText(me, LINEBUF));
    assert Messages([]) == [] && [] + [JoinText(me, LINEBUF)] == [JoinText(me, LINEBUF)];
    if queue != [] {
      var text := MessageText(me, queue[0]);
      assert text == OnTheWire(me, queue[0]) && IsMessage(text);
      MessagesNext([], text);
      assert [] + [text] == [text];
    }
  }

  // What a run has written since it began.
  function Since(l: Link, r: Link): seq<string>
    requires l.written <= r.written
  {
    r.written[|l.written|..]
  }

  // A pass that the connection survives.
  lemma ReadSends(me: Me, l: Link, t: Turn, accepts: nat -> bool)
    requires IsLink(l) && l.status != Down && t.time > 0 && Read(me, l, t, accepts).status != Down
    ensures var r := Read(me, l, t, accepts);
            && l.written <= r.written
            && Messages(Since(l, r)) + AllOnTheWire(me, r.queue) == AllOnTheWire(me, l.queue)
  {
    hide TalkOf, LastText, Frames, Rest, Tried, AllTaken, Messages, AllOnTheWire, OnTheWire;
    var r := Read(me, l, t, accepts);
    ReadIsLink(me, l, t, accepts);
    NoMessages();
    if t.input == Again {
      assert Since(l, r) == [] && [] + AllOnTheWire(me, l.queue) == AllOnTheWire(me, l.queue);
    } else {
      var talk := TalkOf(me, l.status, l.timer, Frames(Rest(l.stream) + DataIn(t.input)), t.time);
      var last := LastText(me, talk.status, talk.timer, l.queue, t.time);
      TriedAll(accepts, |l.written|, Wanted(me, l, t));
      assert Since(l, r) == talk.said + last;
      MessagesAppend(talk.said, last);
      SaidHasNoMessages(me, l.status, l.timer, Frames(Rest(l.stream) + DataIn(t.input)), t.time);
      LastIsFirst(me, talk.status, talk.timer, l.queue, t.time);
      assert [] + Messages(last) == Messages(last);
      assert [] + AllOnTheWire(me, l.queue) == AllOnTheWire(me, l.queue);
      if l.queue != [] { WireFirst(me, l.queue); }
    }
  }

  lemma NoMessages()
    ensures Messages([]) == [] && forall me :: AllOnTheWire(me, []) == []
  {
  }

  // While the connection stays up, the messages sent since the start, in order, and then the
  // queue are the queue of the start and then the messages accepted.
  lemma {:induction false} MessagesInOrder(me: Me, l: Link, events: seq<Event>, accepts: nat -> bool, n: nat)
    requires IsLink(l) && l.status != Down && IsTimed(events) && n <= |events|
    requires forall k | 0 < k <= n :: IsUpAfter(me, l, events, accepts, k)
    ensures var r := RunOf(me, l, events[..n], accepts);
            && l.written <= r.written
            && Messages(Since(l, r)) + AllOnTheWire(me, r.queue)
            == AllOnTheWire(me, l.queue) + AllOnTheWire(me, Accepted(me, l, events, accepts, n))
    decreases n
  {
    hide RunOf, IsLink, Passed, IsUpAfter, Messages, AllOnTheWire, Queued;
    NothingRun(me, l, events, accepts);
    NoMessages();
    if n == 0 {
      assert Since(l, l) == [];
    } else {
      MessagesInOrder(me, l, events, accepts, n - 1);
      if n > 1 { UpIs(me, l, events, accepts, n - 1); }
      UpIs(me, l, events, accepts, n);
      RunIsLink(me, l, events, accepts, n - 1);
      RunNext(me, l, events, accepts, n - 1);
      var before := RunOf(me, l, events[..n - 1], accepts);
      if events[n - 1].Pass? {
        PassSends(me, l, before, events[n - 1].turn, accepts);
      } else {
        var accepted := Accepted(me, l, events, accepts, n - 1);
        QueueFits(before);
        SaySends(me, before, events[n - 1].text, accepted);
        var sent, queue := Messages(Since(l, before)), AllOnTheWire(me, before.queue);
        var m := OnTheWire(me, Kept(events[n - 1].text));
        assert sent + (queue + [m]) == sent + queue + [m];
        assert AllOnTheWire(me, l.queue) + AllOnTheWire(me, accepted) + [m]
            == AllOnTheWire(me, l.queue) + (AllOnTheWire(me, accepted) + [m]);
      }
    }
  }

  lemma QueueFits(l: Link)
    requires IsLink(l)
    ensures |l.queue| <= CHANQUEUE_LENGTH
  {
  }

  lemma PassSends(me: Me, l: Link, before: Link, t: Turn, accepts: nat -> bool)
    requires l.written <= before.written && IsLink(before) && before.status != Down && t.time > 0
    requires Passed(me, before, t, accepts).status != Down
    ensures var r := Passed(me, before, t, accepts);
            && l.written <= r.written
            && Messages(Since(l, r)) + AllOnTheWire(me, r.queue)
            == Messages(Since(l, before)) + AllOnTheWire(me, before.queue)
  {
    hide IsLink, Read, Messages, AllOnTheWire;
    var r := Passed(me, before, t, accepts);
    ReadSends(me, before, t, accepts);
    assert Since(l, r) == Since(l, before) + Since(before, r);
    MessagesAppend(Since(l, before), Since(before, r));
  }

  lemma SaySends(me: Me, before: Link, text: string, accepted: seq<string>)
    requires |before.queue| <= CHANQUEUE_LENGTH
    ensures var r := Queued(before, text);
            && r.written == before.written
            && (if |before.queue| < 32
                then
                  && AllOnTheWire(me, r.queue) == AllOnTheWire(me, before.queue) + [OnTheWire(me, Kept(text))]
                  && AllOnTheWire(me, accepted + [Kept(text)])
                  == AllOnTheWire(me, accepted) + [OnTheWire(me, Kept(text))]
                else r.queue == before.queue)
  {
    hide AllOnTheWire, OnTheWire;
    WireNext(me, before.queue, Kept(text));
    WireNext(me, accepted, Kept(text));
  }

  // ---------------------------------------------------------------- lines

  function Sent(lines: seq<string>): (stream: string) {
    if lines == [] then "" else Sent(lines[..|lines| - 1]) + lines[|lines| - 1] + "\r\n"
  }

  predicate IsLine(line: string) {
    |line| < 4096 && '\r' !in line && '\n' !in line && '\0' !in line
  }

  lemma {:induction false} CleanOfLine(line: string)
    requires IsLine(line)
    ensures Clean(line + "\r") == line
  {
    var text := line + "\r";
    EndIs(text, |line|);
    assert text[..|line|] == line;
  }

  lemma {:induction false} EndIs(text: string, k: nat)
    requires k < |text| && text[k] == '\r' && '\r' !in text[..k] && '\0' !in text[..k]
    ensures End(text) == k
  {
    var e := End(text);
    assert forall i | 0 <= i < k :: text[i] == text[..k][i] && text[i] in text[..k];
  }

  // The lines a server sends are the lines the parser gets.
  lemma {:induction false} SentLinesArrive(lines: seq<string>)
    requires forall i | 0 <= i < |lines| :: IsLine(lines[i])
    ensures Frames(Sent(lines)) == lines && Rest(Sent(lines)) == ""
    decreases |lines|
  {
    hide Frames, Rest, Clean;
    if lines == [] {
      NoText();
    } else {
      var init, line := lines[..|lines| - 1], lines[|lines| - 1];
      SentLinesArrive(init);
      FramesOfLine(Sent(init), line + "\r");
      CleanOfLine(line);
      assert Sent(init) + (line + "\r") + "\n" == Sent(init) + line + "\r\n";
      assert lines == init + [line];
    }
  }

  function WithBlanks(ws: seq<string>): (line: string) {
    if ws == [] then "" else if |ws| == 1 then ws[0] else ws[0] + " " + WithBlanks(ws[1..])
  }

  lemma {:induction false} FirstWord(line: string)
    ensures var k := WordEnd(line);
            Words(line) == if k == |line| then [line] else [line[..k]] + Words(line[k + 1..])
  {
  }

  lemma {:induction false} BlankBetween(w: string, ws: seq<string>)
    requires ws != []
    ensures WithBlanks([w] + ws) == w + " " + WithBlanks(ws)
  {
    assert ([w] + ws)[1..] == ws;
  }

  // The words of a line are what is between its blanks.
  lemma {:induction false} WordsAreJoined(line: string)
    ensures WithBlanks(Words(line)) == line && forall w | w in Words(line) :: ' ' !in w
    decreases |line|
  {
    hide Words, WithBlanks;
    var k := WordEnd(line);
    WordEndIsBlank(line);
    FirstWord(line);
    if k < |line| {
      WordsAreJoined(line[k + 1..]);
      BlankBetween(line[..k], Words(line[k + 1..]));
      assert line == line[..k] + " " + line[k + 1..];
    } else {
      assert line[..k] == line;
      OneWord(line);
    }
  }

  lemma OneWord(w: string)
    ensures WithBlanks([w]) == w
  {
  }

  lemma {:induction false} WordEndIsBlank(line: string)
    ensures var k := WordEnd(line); ' ' !in line[..k] && (k < |line| ==> line[k] == ' ')
    decreases |line|
  {
    if line != "" && line[0] != ' ' {
      WordEndIsBlank(line[1..]);
      var k := WordEnd(line[1..]);
      assert line[..k + 1] == [line[0]] + line[1..][..k];
    }
  }

  lemma {:induction false} WordsOf(w: string, rest: string)
    requires ' ' !in w
    ensures Words(w) == [w] && Words(w + " " + rest) == [w] + Words(rest)
  {
    WordEndIs(w, |w|);
    var line := w + " " + rest;
    assert line[..|w|] == w && line[|w|] == ' ' && line[|w| + 1..] == rest;
    WordEndIs(line, |w|);
  }

  lemma {:induction false} WordEndIs(line: string, k: nat)
    requires k <= |line| && ' ' !in line[..k] && (k < |line| ==> line[k] == ' ')
    ensures WordEnd(line) == k
    decreases k
  {
    if k > 0 {
      assert line[0] in line[..k] && line[1..][..k - 1] == line[..k][1..];
      WordEndIs(line[1..], k - 1);
    }
  }

  // A PING is answered with its token, in every state, and changes nothing else.
  lemma PingIsAnswered(me: Me, status: Status, timer: int, token: string, time: int)
    requires ' ' !in token && |token| < 500
    ensures AnswerTo(me, status, "PING " + token) == ["PONG " + token + "\r\n"]
    ensures StatusAfter(me, status, "PING " + token) == status
    ensures TimerAfter(me, status, timer, "PING " + token, time) == timer
  {
    WordsOf("PING", token);
    WordsOf(token, "");
    assert "PING" + " " + token == "PING " + token;
    assert Words("PING " + token) == ["PING", token];
  }

  // The way into the channel, out of it and back: the server's welcome makes the monitor ask
  // to join, its own name joining puts it in the channel, and being kicked takes it out, both
  // times with another attempt due half a minute later.
  lemma Conversation(me: Me, server: string, host: string, oper: string, rest: string, time: int)
    requires ' ' !in server && ' ' !in me.nick && ' ' !in me.chan && ' ' !in host && ' ' !in oper
    requires server != "PING" && oper != "PING" && |me.nick| + |me.chan| + |me.key| < 500
    ensures var line := server + " 001 " + rest;
            && StatusAfter(me, Connecting, line) == Verified
            && TimerAfter(me, Connecting, 0, line, time) == time + 30
            && AnswerTo(me, Connecting, line) == ["JOIN " + me.chan + " " + me.key + "\r\n"]
    ensures var line := ":" + me.nick + "!" + host + " JOIN " + rest;
            StatusAfter(me, Verified, line) == Joined && TimerAfter(me, Verified, time, line, time) == 0
    ensures var line := oper + " KICK " + me.chan + " " + me.nick + " " + rest;
            && StatusAfter(me, Joined, line) == Verified
            && TimerAfter(me, Joined, 0, line, time) == time + 30
  {
    Welcomed(me, server, rest, time);
    Entered(me, host, rest, time);
    Kicked(me, oper, rest, time);
  }

  lemma Welcomed(me: Me, server: string, rest: string, time: int)
    requires ' ' !in server && server != "PING" && |me.nick| + |me.chan| + |me.key| < 500
    ensures var line := server + " 001 " + rest;
            && StatusAfter(me, Connecting, line) == Verified
            && TimerAfter(me, Connecting, 0, line, time) == time + 30
            && AnswerTo(me, Connecting, line) == ["JOIN " + me.chan + " " + me.key + "\r\n"]
  {
    hide Words;
    var line := server + " 001 " + rest;
    assert line == server + " " + ("001" + " " + rest);
    WordsOf(server, "001" + " " + rest);
    WordsOf("001", rest);
    assert Words(line)[0] == server && Words(line)[1] == "001";
  }

  lemma Entered(me: Me, host: string, rest: string, time: int)
    requires ' ' !in me.nick && ' ' !in host && |me.nick| < 500
    ensures var line := ":" + me.nick + "!" + host + " JOIN " + rest;
            StatusAfter(me, Verified, line) == Joined && TimerAfter(me, Verified, time, line, time) == 0
  {
    hide Words;
    var line, who := ":" + me.nick + "!" + host + " JOIN " + rest, ":" + me.nick + "!" + host;
    assert line == who + " " + ("JOIN" + " " + rest);
    WordsOf(who, "JOIN" + " " + rest);
    WordsOf("JOIN", rest);
    assert Words(line)[0] == who && Words(line)[1] == "JOIN";
    assert who[0] == ':' && ":" + me.nick + "!" <= who;
  }

  lemma Kicked(me: Me, oper: string, rest: string, time: int)
    requires ' ' !in oper && oper != "PING" && ' ' !in me.nick && ' ' !in me.chan
    ensures var line := oper + " KICK " + me.chan + " " + me.nick + " " + rest;
            && StatusAfter(me, Joined, line) == Verified
            && TimerAfter(me, Joined, 0, line, time) == time + 30
  {
    hide Words;
    var line := oper + " KICK " + me.chan + " " + me.nick + " " + rest;
    var third := me.nick + " " + rest;
    var second := me.chan + " " + third;
    assert line == oper + " " + ("KICK" + " " + second);
    WordsOf(oper, "KICK" + " " + second);
    WordsOf("KICK", second);
    WordsOf(me.chan, third);
    WordsOf(me.nick, rest);
    assert Words(line)[0] == oper && Words(line)[1] == "KICK" && Words(line)[3] == me.nick;
  }

  // ---------------------------------------------------------------- which lines do something

  // A word opens a text, and a blank or nothing follows it.
  predicate Opens(w: string, text: string) {
    ' ' !in w && w <= text && (|text| == |w| || text[|w|] == ' ')
  }

  lemma FirstIs(w: string, text: string)
    ensures Words(text)[0] == w <==> Opens(w, text)
  {
    hide Words;
    var k := WordEnd(text);
    WordEndIsBlank(text);
    FirstWord(text);
    assert Words(text)[0] == text[..k];
    if Opens(w, text) {
      assert text[..|w|] == w;
      WordEndIs(text, |w|);
    }
  }

  // The first word, and the text behind its blank.
  lemma Peel(text: string) returns (w: string, rest: string)
    requires |Words(text)| >= 2
    ensures ' ' !in w && text == w + " " + rest && Words(text) == [w] + Words(rest)
  {
    hide Words;
    var k := WordEnd(text);
    WordEndIsBlank(text);
    FirstWord(text);
    w, rest := text[..k], text[k + 1..];
    assert text == text[..k] + [text[k]] + text[k + 1..];
  }

  predicate IsCommand(line: string, who: string, command: string, rest: string) {
    ' ' !in who && line == who + " " + rest && Opens(command, rest)
  }

  lemma CommandIff(line: string, command: string)
    ensures |Words(line)| >= 2 && Words(line)[1] == command <==> exists who, rest :: IsCommand(line, who, command, rest)
  {
    hide Words, Opens;
    if |Words(line)| >= 2 && Words(line)[1] == command {
      var who, rest := Peel(line);
      FirstIs(command, rest);
      assert Words(line)[1] == Words(rest)[0];
      assert IsCommand(line, who, command, rest);
    }
    if who, rest :| IsCommand(line, who, command, rest) {
      WordsOf(who, rest);
      FirstIs(command, rest);
      assert Words(line)[1] == Words(rest)[0];
    }
  }

  lemma PingIff(line: string)
    ensures IsPing(Words(line)) <==> "PING " <= line
  {
    hide Words;
    if IsPing(Words(line)) {
      var w, rest := Peel(line);
      assert w == Words(line)[0];
    }
    if "PING " <= line {
      WordsOf("PING", line[5..]);
      assert line == "PING" + " " + line[5..];
    }
  }

  lemma PrefixIff(p: string, line: string)
    ensures p <= Words(line)[0] <==> ' ' !in p && p <= line
  {
    hide Words;
    var k := WordEnd(line);
    WordEndIsBlank(line);
    FirstWord(line);
    assert Words(line)[0] == line[..k];
    if p <= line[..k] {
      forall i | 0 <= i < |p| ensures p[i] != ' ' { assert line[..k][i] == p[i]; }
    }
    if p <= line && k < |p| {
      assert p[k] == line[k] && p[k] in p;
    }
  }

  // The server's welcome, and nothing else, ends the greeting.
  lemma WelcomeIff(me: Me, line: string)
    ensures StatusAfter(me, Connecting, line) == Verified <==>
            !("PING " <= line) && exists who, rest :: IsCommand(line, who, "001", rest)
  {
    hide Words, IsCommand;
    PingIff(line);
    CommandIff(line, "001");
  }

  // The monitor is in the channel once the server says that its own name has joined.
  lemma EntryIff(me: Me, line: string)
    ensures var p := Fit(":" + me.nick + "!", 511);
            StatusAfter(me, Verified, line) == Joined <==>
            !("PING " <= line) && ' ' !in p && p <= line && exists who, rest :: IsCommand(line, who, "JOIN", rest)
  {
    hide Words, IsCommand, Fit;
    PingIff(line);
    PrefixIff(Fit(":" + me.nick + "!", 511), line);
    CommandIff(line, "JOIN");
  }

  predicate IsKick(line: string, oper: string, chan: string, nick: string, rest: string) {
    ' ' !in oper && ' ' !in chan && line == oper + " " + ("KICK" + " " + (chan + " " + rest)) && Opens(nick, rest)
  }

  // It is out of the channel once somebody kicks it by name.
  lemma KickIff(me: Me, line: string)
    ensures StatusAfter(me, Joined, line) == Verified <==>
            !("PING " <= line) && exists oper, chan, rest :: IsKick(line, oper, chan, me.nick, rest)
  {
    hide Words, Opens;
    PingIff(line);
    var a := Words(line);
    if |a| >= 4 && a[1] == "KICK" && a[3] == me.nick {
      var oper, x := Peel(line);
      var kick, y := Peel(x);
      var chan, rest := Peel(y);
      FirstIs(me.nick, rest);
      assert a == [oper] + ([kick] + ([chan] + Words(rest)));
      assert IsKick(line, oper, chan, me.nick, rest);
    }
    if oper, chan, rest :| IsKick(line, oper, chan, me.nick, rest) {
      WordsOf(oper, "KICK" + " " + (chan + " " + rest));
      WordsOf("KICK", chan + " " + rest);
      WordsOf(chan, rest);
      FirstIs(me.nick, rest);
      assert a == [oper] + (["KICK"] + ([chan] + Words(rest)));
    }
  }

  // A pass without data: while verified it asks to join again when that is due, and not
  // before another half minute has gone; in the channel it sends the first message waiting.
  lemma IdlePass(me: Me, l: Link, t: Turn, accepts: nat -> bool)
    requires IsLink(l) && l.status != Down && t.input == NotReady && t.time > 0
    requires accepts(|l.written|) && |me.chan| + |me.key| < 4000
    ensures var r := Read(me, l, t, accepts);
            && r.status == l.status && r.stream == l.stream && r.parsed == l.parsed
            && (l.status == Connecting ==> r == l)
            && (l.status == Verified ==>
                  if l.timer < t.time
                  then r == l.(timer := t.time + 30, written := l.written + ["JOIN " + me.chan + " " + me.key + "\r\n"])
                  else r == l)
            && (l.status == Joined ==>
                  if l.queue == [] then r == l
                  else r == l.(queue := l.queue[1..], written := l.written + [OnTheWire(me, l.queue[0])]))
  {
    hide Frames, Rest;
    RestHasNoNewline(l.stream);
    var rest := Rest(l.stream);
    assert rest + "" == rest && rest[..|rest|] == rest;
    LineEndIs(rest, |rest|);
    FirstLine(rest);
    var last := LastText(me, l.status, l.timer, l.queue, t.time);
    assert TalkOf(me, l.status, l.timer, [], t.time) == Talk(l.status, l.timer, []);
    assert Wanted(me, l, t) == last by { assert [] + last == last; }
    TriedAll(accepts, |l.written|, last);
    assert l.stream + "" == l.stream && l.parsed + [] == l.parsed && l.written + [] == l.written;
  }
}
