/** What the packets of one client do to its session: command lines and messages are found across packet boundaries. */
module SmtpPackets {
  import opened Wrappers
  import opened Text
  import opened SmtpSession
  import opened SmtpCommands

  const TERMINATOR := "\r\n.\r\n"

  datatype Session = Session(core: Core, dataBuffer: string, lineBuffer: string)

  const NEW_SESSION := Session(NEW_CORE, "", "")

  /** fate is how the delivery of a message goes that this packet completes. */
  datatype Packet = Packet(data: string, fate: Fate)

  datatype Ran = Ran(core: Core, replies: seq<Reply>, renew: bool, quit: bool)

  /** Several lines, one after the other. */
  function RunLines(c: Core, lines: seq<string>): Ran {
    if lines == [] then Ran(c, [], false, false)
    else
      var before := RunLines(c, lines[..|lines| - 1]);
      var e := Dispatch(before.core, lines[|lines| - 1]);
      Ran(e.core, before.replies + [e.reply], before.renew || e.renew, before.quit || e.quit)
  }

  function LineEvents(lines: seq<string>): seq<Event> {
    seq(|lines|, i requires 0 <= i < |lines| => Line(lines[i]))
  }

  datatype Outcome = Outcome(session: Session, events: seq<Event>, replies: seq<Reply>, quit: bool)

  /** A packet that comes while the session reads data.  What follows the terminator is dropped. */
  function TakeData(s: Session, users: Accounts, p: Packet): Outcome {
    var full := s.dataBuffer + p.data;
    FindFirst(full, TERMINATOR);
    var i := Find(full, TERMINATOR);
    if i < 0 then Outcome(s.(dataBuffer := full), [], [], false)
    else
      var d := Deliver(s.core, users, p.fate);
      Outcome(Session(d.core, "", ""), [Block(full[..i], p.fate)], [d.reply], false)
  }

  /** Any other packet: every complete line is dispatched.  The loop holds on to the buffer it began with, so if a line
      replaces the buffer, the session is left with the new, empty one, and the incomplete line is lost. */
  function TakeCommands(s: Session, data: string): Outcome {
    var all := s.lineBuffer + data;
    var lines := CompleteLines(all);
    var ran := RunLines(s.core, lines);
    Outcome(if ran.renew then Session(ran.core, "", "") else Session(ran.core, s.dataBuffer, Rest(all)),
            LineEvents(lines), ran.replies, ran.quit)
  }

  function Take(s: Session, users: Accounts, p: Packet): Outcome {
    if s.core.state.ReadingDataStream? then TakeData(s, users, p) else TakeCommands(s, p.data)
  }

  /** What a client has had from the server: session is None before its first packet, and after a QUIT. */
  datatype Conversation = Conversation(session: Option<Session>, events: seq<Event>, replies: seq<Reply>)

  /** A packet from a client.  The first one, and the first one after a QUIT, opens a new session with a greeting. */
  function Serve(s: Option<Session>, users: Accounts, p: Packet): Conversation {
    var o := Take(if s.Some? then s.value else NEW_SESSION, users, p);
    Conversation(if o.quit then None else Some(o.session),
                 (if s.None? then [Greeting] else []) + o.events, (if s.None? then [Welcome] else []) + o.replies)
  }

  /** Several packets, one after the other. */
  function ServeAll(s: Option<Session>, users: Accounts, packets: seq<Packet>): Conversation {
    if packets == [] then Conversation(s, [], [])
    else
      var before := ServeAll(s, users, packets[..|packets| - 1]);
      var next := Serve(before.session, users, packets[|packets| - 1]);
      Conversation(next.session, before.events + next.events, before.replies + next.replies)
  }

  function Bytes(packets: seq<Packet>): string {
    if packets == [] then "" else Bytes(packets[..|packets| - 1]) + packets[|packets| - 1].data
  }

  // ---------------------------------------------------------------- packets make events

  function Then(first: Ran, second: Ran): Ran {
    Ran(second.core, first.replies + second.replies, first.renew || second.renew, first.quit || second.quit)
  }

  lemma {:induction false} RunLinesConcat(c: Core, a: seq<string>, b: seq<string>)
    ensures var first := RunLines(c, a);
            var second := RunLines(first.core, b);
            RunLines(c, a + b) == Then(first, second)
    decreases |b|
  {
    if b == [] {
      assert a + b == a;
    } else {
      var k := |b| - 1;
      RunLinesConcat(c, a, b[..k]);
      hide Dispatch;
      assert (a + b)[..|a + b| - 1] == a + b[..k] && (a + b)[|a + b| - 1] == b[k];
    }
  }

  /** The replies to some events that follow others. */
  function RepliesAfter(users: Accounts, events: seq<Event>, more: seq<Event>): seq<Reply> {
    seq(|more|, i requires 0 <= i < |more| => ReplyTo(CoreAfter(users, events + more[..i]), users, more[i]))
  }

  lemma Snoc(users: Accounts, events: seq<Event>, e: Event)
    ensures CoreAfter(users, events + [e]) == After(CoreAfter(users, events), users, e)
    ensures Legal(users, events + [e])
       <==> Legal(users, events) && (e.Block? ==> CoreAfter(users, events).state.ReadingDataStream?)
  {
    assert (events + [e])[..|events|] == events;
  }

  lemma {:induction false} LinesAreEvents(users: Accounts, events: seq<Event>, lines: seq<string>)
    requires Legal(users, events)
    ensures var ran := RunLines(CoreAfter(users, events), lines);
            && CoreAfter(users, events + LineEvents(lines)) == ran.core && Legal(users, events + LineEvents(lines))
            && ran.replies == RepliesAfter(users, events, LineEvents(lines))
    decreases |lines|
  {
    hide CoreAfter, Legal, Dispatch, ReplyTo;
    if lines == [] {
      assert events + LineEvents(lines) == events;
    } else {
      var k := |lines| - 1;
      LinesAreEvents(users, events, lines[..k]);
      var before := LineEvents(lines[..k]);
      OneMoreLine(users, events, before, lines[k]);
      hide RepliesAfter;
      assert LineEvents(lines) == before + [Line(lines[k])];
      assert RunLines(CoreAfter(users, events), lines).core
          == Dispatch(RunLines(CoreAfter(users, events), lines[..k]).core, lines[k]).core;
    }
  }

  lemma OneMoreLine(users: Accounts, events: seq<Event>, before: seq<Event>, line: string)
    requires Legal(users, events + before)
    ensures CoreAfter(users, events + (before + [Line(line)])) == Dispatch(CoreAfter(users, events + before), line).core
    ensures Legal(users, events + (before + [Line(line)]))
    ensures RepliesAfter(users, events, before + [Line(line)])
         == RepliesAfter(users, events, before) + [Dispatch(CoreAfter(users, events + before), line).reply]
  {
    hide CoreAfter, Legal, RepliesAfter, Dispatch;
    Snoc(users, events + before, Line(line));
    RepliesSnoc(users, events, before, Line(line));
    assert (events + before) + [Line(line)] == events + (before + [Line(line)]);
  }

  lemma RepliesSnoc(users: Accounts, events: seq<Event>, more: seq<Event>, e: Event)
    ensures RepliesAfter(users, events, more + [e])
         == RepliesAfter(users, events, more) + [ReplyTo(CoreAfter(users, events + more), users, e)]
  {
    hide CoreAfter;
    assert (more + [e])[..|more|] == more;
    forall i | 0 <= i < |more|
      ensures RepliesAfter(users, events, more + [e])[i] == RepliesAfter(users, events, more)[i]
    {
      assert (more + [e])[..i] == more[..i];
    }
  }

  lemma RepliesConcat(users: Accounts, events: seq<Event>, a: seq<Event>, b: seq<Event>)
    ensures RepliesAfter(users, events, a + b) == RepliesAfter(users, events, a) + RepliesAfter(users, events + a, b)
  {
    hide CoreAfter;
    forall i | 0 <= i < |a| ensures RepliesAfter(users, events, a + b)[i] == RepliesAfter(users, events, a)[i] {
      assert (a + b)[..i] == a[..i];
    }
    forall i | 0 <= i < |b|
      ensures RepliesAfter(users, events, a + b)[|a| + i] == RepliesAfter(users, events + a, b)[i]
    {
      assert events + (a + b)[..|a| + i] == (events + a) + b[..i];
    }
  }

  lemma TakeIsEvents(users: Accounts, events: seq<Event>, s: Session, p: Packet)
    requires Legal(users, events) && s.core == CoreAfter(users, events)
    ensures var o := Take(s, users, p);
            && o.session.core == CoreAfter(users, events + o.events) && Legal(users, events + o.events)
            && o.replies == RepliesAfter(users, events, o.events)
  {
    var o := Take(s, users, p);
    if !s.core.state.ReadingDataStream? {
      LinesAreEvents(users, events, CompleteLines(s.lineBuffer + p.data));
    } else if o.events == [] {
      assert events + [] == events;
    } else {
      Snoc(users, events, o.events[0]);
      assert events + [] == events;
      RepliesSnoc(users, events, [], o.events[0]);
    }
  }

  lemma RepliesNone(users: Accounts, events: seq<Event>)
    ensures RepliesAfter(users, events, []) == []
  {
  }

  lemma ServeIsEvents(users: Accounts, events: seq<Event>, s: Option<Session>, p: Packet)
    requires Legal(users, events) && (s.Some? ==> s.value.core == CoreAfter(users, events))
    ensures var c := Serve(s, users, p);
            && Legal(users, events + c.events) && c.replies == RepliesAfter(users, events, c.events)
            && (c.session.Some? ==> c.session.value.core == CoreAfter(users, events + c.events))
  {
    hide Take, Legal, CoreAfter, RepliesAfter;
    if s.Some? {
      TakeIsEvents(users, events, s.value, p);
      var o := Take(s.value, users, p);
      assert [] + o.events == o.events && [] + o.replies == o.replies;
    } else {
      GreetingIsEvent(users, events);
      TakeIsEvents(users, events + [Greeting], NEW_SESSION, p);
      var o := Take(NEW_SESSION, users, p);
      RepliesConcat(users, events, [Greeting], o.events);
      assert events + ([Greeting] + o.events) == (events + [Greeting]) + o.events;
    }
  }

  lemma GreetingIsEvent(users: Accounts, events: seq<Event>)
    requires Legal(users, events)
    ensures Legal(users, events + [Greeting]) && CoreAfter(users, events + [Greeting]) == NEW_CORE
    ensures RepliesAfter(users, events, [Greeting]) == [Welcome]
  {
    Snoc(users, events, Greeting);
    RepliesNone(users, events);
    hide CoreAfter, Legal, RepliesAfter;
    RepliesSnoc(users, events, [], Greeting);
    assert [] + [Greeting] == [Greeting] && events + [] == events;
  }

  lemma {:induction false} HistoryOf(users: Accounts, packets: seq<Packet>)
    ensures var c := ServeAll(None, users, packets);
            && Legal(users, c.events) && c.replies == RepliesAfter(users, [], c.events)
            && (c.session.Some? ==> c.session.value.core == CoreAfter(users, c.events))
  {
    hide Serve, Legal, CoreAfter;
    if packets != [] {
      var k := |packets| - 1;
      HistoryOf(users, packets[..k]);
      hide RepliesAfter;
      var before := ServeAll(None, users, packets[..k]);
      ServeIsEvents(users, before.events, before.session, packets[k]);
      assert [] + before.events == before.events;
      RepliesConcat(users, [], before.events, Serve(before.session, users, packets[k]).events);
    } else {
      NothingHappened(users);
    }
  }

  lemma NothingHappened(users: Accounts)
    ensures Legal(users, []) && RepliesAfter(users, [], []) == []
  {
  }

  /** Over any packets of a client, through any number of sessions: messages come up only while a session reads data,
      each session is the one its events lead to, and there is one reply for each session opened, complete line and
      completed message, in order. */
  lemma OneReplyEach(users: Accounts, packets: seq<Packet>)
    ensures var c := ServeAll(None, users, packets);
            && Legal(users, c.events) && (c.session.Some? ==> c.session.value.core == CoreAfter(users, c.events))
            && |c.replies| == |c.events|
            && forall i :: 0 <= i < |c.events| ==> c.replies[i] == ReplyAt(users, c.events, i)
  {
    hide Serve, Legal, CoreAfter;
    HistoryOf(users, packets);
    var c := ServeAll(None, users, packets);
    forall i | 0 <= i < |c.events| ensures c.replies[i] == ReplyAt(users, c.events, i) {
      assert [] + c.events[..i] == c.events[..i];
    }
  }

  /** A session is opened by the first packet and by the first one after each that left no session. */
  lemma GreetedWhen(users: Accounts, packets: seq<Packet>)
    requires packets != []
    ensures var k := |packets| - 1;
            var before := ServeAll(None, users, packets[..k]);
            var c := ServeAll(None, users, packets);
            && before.events <= c.events
            && (before.session.None? ==> c.events[|before.events|..][..1] == [Greeting])
            && (before.session.Some? ==> Greeting !in c.events[|before.events|..])
  {
    hide TakeData, TakeCommands;
    var k := |packets| - 1;
    var before := ServeAll(None, users, packets[..k]);
    var next := Serve(before.session, users, packets[k]);
    assert (before.events + next.events)[|before.events|..] == next.events;
    if before.session.Some? {
      NoGreeting(before.session.value, users, packets[k]);
    }
  }

  lemma NoGreeting(s: Session, users: Accounts, p: Packet)
    ensures Greeting !in Take(s, users, p).events
  {
    hide Find, CompleteLines, RunLines, Deliver;
  }

  // ---------------------------------------------------------------- a command stream may be cut anywhere

  /** Each packet finds and leaves a session, and none finds it reading data. */
  ghost predicate Commands(s: Session, users: Accounts, packets: seq<Packet>) {
    packets == []
    || var k := |packets| - 1;
       var before := ServeAll(Some(s), users, packets[..k]).session;
       && Commands(s, users, packets[..k]) && before.Some? && !before.value.core.state.ReadingDataStream?
       && ServeAll(Some(s), users, packets).session.Some?
  }

  /** DATA and RSET, where they replace the buffers, do so in packets that end with CRLF. */
  ghost predicate WellCut(s: Session, users: Accounts, packets: seq<Packet>)
    requires Commands(s, users, packets)
  {
    packets == []
    || var k := |packets| - 1;
       var before := ServeAll(Some(s), users, packets[..k]).session.value;
       var all := before.lineBuffer + packets[k].data;
       && WellCut(s, users, packets[..k])
       && (RunLines(before.core, CompleteLines(all)).renew ==> Rest(all) == "")
  }

  /** All of the stream was dispatched line by line, and the line buffer holds what follows its last CRLF. */
  ghost predicate IsStream(core: Core, all: string, c: Conversation) {
    var ran := RunLines(core, CompleteLines(all));
    && c.events == LineEvents(CompleteLines(all)) && c.replies == ran.replies
    && c.session.Some? && c.session.value.lineBuffer == Rest(all) && c.session.value.core == ran.core
  }

  /** However a command stream is cut into packets, even through a CRLF, the lines dispatched are those of the whole
      stream, with the effect they have in one go, and the buffer holds its tail, if and only if each packet in which
      DATA or RSET replaces the buffers ends with CRLF. */
  lemma CutsDoNotMatterIff(s: Session, users: Accounts, packets: seq<Packet>)
    requires Commands(s, users, packets) && Find(s.lineBuffer, CRLF) < 0
    ensures IsStream(s.core, s.lineBuffer + Bytes(packets), ServeAll(Some(s), users, packets))
       <==> WellCut(s, users, packets)
  {
    hide Commands, WellCut, Find;
    var all, c := s.lineBuffer + Bytes(packets), ServeAll(Some(s), users, packets);
    if WellCut(s, users, packets) {
      WellCutIsStream(s, users, packets);
    } else {
      NothingIsInvented(s, users, packets);
      if IsStream(s.core, all, c) {
        StreamIsSpent(s.core, all, c);
      }
    }
  }

  lemma {:induction false} WellCutIsStream(s: Session, users: Accounts, packets: seq<Packet>)
    requires Commands(s, users, packets) && WellCut(s, users, packets) && Find(s.lineBuffer, CRLF) < 0
    ensures IsStream(s.core, s.lineBuffer + Bytes(packets), ServeAll(Some(s), users, packets))
    decreases |packets|
  {
    hide IsStream, CompleteLines, Rest, Find, RunLines, Serve, LineEvents;
    if packets == [] {
      NoPacket(s, users);
    } else {
      WellCutIsStream(s, users, packets[..|packets| - 1]);
      LastPacket(s, users, packets);
    }
  }

  lemma LastPacket(s: Session, users: Accounts, packets: seq<Packet>)
    requires packets != [] && Commands(s, users, packets) && WellCut(s, users, packets)
    requires var k := |packets| - 1;
             IsStream(s.core, s.lineBuffer + Bytes(packets[..k]), ServeAll(Some(s), users, packets[..k]))
    ensures IsStream(s.core, s.lineBuffer + Bytes(packets), ServeAll(Some(s), users, packets))
  {
    hide IsStream, CompleteLines, Rest, Find, RunLines, Serve, LineEvents;
    var k := |packets| - 1;
    OneMorePacket(s.core, users, s.lineBuffer + Bytes(packets[..k]), ServeAll(Some(s), users, packets[..k]),
                  packets[k]);
    assert s.lineBuffer + Bytes(packets) == s.lineBuffer + Bytes(packets[..k]) + packets[k].data;
  }

  lemma NoPacket(s: Session, users: Accounts)
    requires Find(s.lineBuffer, CRLF) < 0
    ensures IsStream(s.core, s.lineBuffer + Bytes([]), ServeAll(Some(s), users, []))
  {
    hide Find, CompleteLines, Rest;
    assert s.lineBuffer + "" == s.lineBuffer;
    FirstLine(s.lineBuffer);
  }

  lemma OneMorePacket(core: Core, users: Accounts, all: string, before: Conversation, p: Packet)
    requires IsStream(core, all, before) && !before.session.value.core.state.ReadingDataStream?
    requires Serve(before.session, users, p).session.Some?
    requires var again := before.session.value.lineBuffer + p.data;
             RunLines(before.session.value.core, CompleteLines(again)).renew ==> Rest(again) == ""
    ensures var next := Serve(before.session, users, p);
            IsStream(core, all + p.data,
                     Conversation(next.session, before.events + next.events, before.replies + next.replies))
  {
    hide CompleteLines, Rest, Find, RunLines, Dispatch;
    var more := CompleteLines(Rest(all) + p.data);
    LinesOfConcat(all, p.data);
    RunLinesConcat(core, CompleteLines(all), more);
    assert LineEvents(CompleteLines(all) + more) == LineEvents(CompleteLines(all)) + LineEvents(more);
    var o := Take(before.session.value, users, p);
    assert [] + o.events == o.events && [] + o.replies == o.replies;
  }

  // ---------------------------------------------------------------- and only so

  /** The bytes of the lines among some events, with their line ends. */
  function Spent(events: seq<Event>): nat {
    if events == [] then 0 else (if events[0].Line? then |events[0].text| + 2 else 0) + Spent(events[1..])
  }

  lemma {:induction false} SpentConcat(a: seq<Event>, b: seq<Event>)
    ensures Spent(a + b) == Spent(a) + Spent(b)
    decreases |a|
  {
    if a == [] {
      assert a + b == b;
    } else {
      assert (a + b)[0] == a[0] && (a + b)[1..] == a[1..] + b;
      SpentConcat(a[1..], b);
    }
  }

  lemma {:induction false} SpentLines(lines: seq<string>)
    ensures Spent(LineEvents(lines)) == |Unlines(lines)|
    decreases |lines|
  {
    if lines != [] {
      assert LineEvents(lines)[1..] == LineEvents(lines[1..]);
      SpentLines(lines[1..]);
    }
  }

  /** The complete lines of a text and its rest account for all of its bytes. */
  lemma LinesSpent(all: string)
    ensures Spent(LineEvents(CompleteLines(all))) + |Rest(all)| == |all|
  {
    LinesRejoin(all);
    hide CompleteLines, Rest, LineEvents, Spent;
    SpentLines(CompleteLines(all));
  }

  lemma StreamIsSpent(core: Core, all: string, c: Conversation)
    requires IsStream(core, all, c)
    ensures Spent(c.events) + |c.session.value.lineBuffer| == |all|
  {
    hide CompleteLines, Rest, RunLines, LineEvents, Spent;
    LinesSpent(all);
  }

  /** The lines dispatched and the buffer hold no more bytes than came in, and fewer once any were lost. */
  lemma {:induction false} NothingIsInvented(s: Session, users: Accounts, packets: seq<Packet>)
    requires Commands(s, users, packets)
    ensures var c := ServeAll(Some(s), users, packets);
            var held, came := Spent(c.events) + |c.session.value.lineBuffer|, |s.lineBuffer + Bytes(packets)|;
            && c.session.Some? && held <= came && (held == came ==> WellCut(s, users, packets))
    decreases |packets|
  {
    hide CompleteLines, Rest, RunLines, Serve;
    if packets != [] {
      var k := |packets| - 1;
      NothingIsInvented(s, users, packets[..k]);
      hide Spent;
      var before := ServeAll(Some(s), users, packets[..k]);
      var next := Serve(before.session, users, packets[k]);
      SpentConcat(before.events, next.events);
      PacketSpent(before.session.value, users, packets[k]);
    }
  }

  lemma PacketSpent(s: Session, users: Accounts, p: Packet)
    requires !s.core.state.ReadingDataStream? && Serve(Some(s), users, p).session.Some?
    ensures var next := Serve(Some(s), users, p);
            var all := s.lineBuffer + p.data;
            var lost := if RunLines(s.core, CompleteLines(all)).renew then |Rest(all)| else 0;
            Spent(next.events) + |next.session.value.lineBuffer| + lost == |all|
  {
    hide CompleteLines, Rest, RunLines, Spent;
    LinesSpent(s.lineBuffer + p.data);
    var o := Take(s, users, p);
    assert [] + o.events == o.events;
  }

  // ---------------------------------------------------------------- a cut that loses a command

  /** Whatever follows RSET in the same packet, up to the next CRLF, is gone. */
  lemma TailLost(s: Session, tail: string)
    requires s.lineBuffer == "" && Find(tail, CRLF) < 0
    ensures Rest("RSET\r\n" + tail) == tail
    ensures RunLines(s.core, CompleteLines("RSET\r\n" + tail)).renew
    ensures TakeCommands(s, "RSET\r\n" + tail) == Outcome(NEW_SESSION, [Line("RSET")], [Ok], false)
  {
    hide Parse, Find, CompleteLines, Rest;
    NoBreak("RSET");
    OneLine("RSET");
    LinesOfConcat("RSET" + CRLF, tail);
    FirstLine(tail);
    ResetLine();
    assert "RSET" + CRLF == "RSET\r\n" && "" + tail == tail && ["RSET"] + [] == ["RSET"];
    assert "" + ("RSET\r\n" + tail) == "RSET\r\n" + tail;
    RunOne(s.core, "RSET");
  }

  lemma RunOne(c: Core, line: string)
    ensures var e := Dispatch(c, line); RunLines(c, [line]) == Ran(e.core, [e.reply], e.renew, e.quit)
  {
    hide Dispatch;
    assert [line][..0] == [];
  }

  /** A session that takes in one line. */
  lemma TakeOneLine(s: Session, line: string)
    requires Find(line, CRLF) < 0 && s.lineBuffer == ""
    ensures var e := Dispatch(s.core, line);
            var o := TakeCommands(s, line + CRLF);
            && o.replies == [e.reply] && o.quit == e.quit && o.events == [Line(line)]
            && o.session == Session(e.core, if e.renew then "" else s.dataBuffer, "")
  {
    hide CompleteLines, Rest, Find, Dispatch;
    OneLine(line);
    assert "" + (line + CRLF) == line + CRLF;
    RunOne(s.core, line);
  }

  lemma TwoPackets(s: Option<Session>, users: Accounts, p: Packet, q: Packet)
    ensures ServeAll(s, users, [p]) == Serve(s, users, p) && Bytes([p]) == p.data && Bytes([p, q]) == p.data + q.data
    ensures var first := Serve(s, users, p);
            var second := Serve(first.session, users, q);
            ServeAll(s, users, [p, q])
            == Conversation(second.session, first.events + second.events, first.replies + second.replies)
  {
    hide Take;
    assert [p][..0] == [] && [p, q][..1] == [p];
    var first := Serve(s, users, p);
    assert [] + first.events == first.events && [] + first.replies == first.replies;
    assert "" + p.data == p.data;
  }

  lemma WholeStream()
    ensures CompleteLines("RSET\r\nNOOP" + "\r\n") == ["RSET", "NOOP"]
    ensures RunLines(NEW_CORE, ["RSET", "NOOP"]).replies == [Ok, Ok]
  {
    hide Find, CompleteLines, Rest, Parse, RunLines;
    NoBreak("RSET");
    NoBreak("NOOP");
    OneLine("RSET");
    OneLine("NOOP");
    LinesOfConcat("RSET" + CRLF, "NOOP" + CRLF);
    assert "RSET\r\nNOOP" + "\r\n" == ("RSET" + CRLF) + ("NOOP" + CRLF) && "" + ("NOOP" + CRLF) == "NOOP" + CRLF;
    RepliesToBoth();
    assert ["RSET"] + ["NOOP"] == ["RSET", "NOOP"];
  }

  lemma RepliesToBoth()
    ensures RunLines(NEW_CORE, ["RSET"] + ["NOOP"]).replies == [Ok, Ok]
  {
    hide Parse, RunLines;
    ResetLine();
    WordLines();
    RunLinesConcat(NEW_CORE, ["RSET"], ["NOOP"]);
    RunOne(NEW_CORE, "RSET");
    RunOne(NEW_CORE, "NOOP");
    assert [Ok] + [Ok] == [Ok, Ok];
  }

  /** RSET and NOOP are both answered with 250; cut between NOOP and its line end, NOOP is lost, and what is left of it
      is answered with 500. */
  lemma LosingCut(users: Accounts, fate: Fate)
    ensures var cut := [Packet("RSET\r\nNOOP", fate), Packet("\r\n", fate)];
            && Commands(NEW_SESSION, users, cut) && !WellCut(NEW_SESSION, users, cut)
            && ServeAll(Some(NEW_SESSION), users, cut).replies == [Ok, SyntaxError]
            && RunLines(NEW_CORE, CompleteLines(Bytes(cut))).replies == [Ok, Ok]
  {
    hide Parse, Find, CompleteLines, Rest, RunLines, TakeCommands, Dispatch;
    var first, second := Packet("RSET\r\nNOOP", fate), Packet("\r\n", fate);
    var cut := [first, second];
    FirstPacketLost(users, fate);
    EmptyLine(users, fate);
    WholeStream();
    TwoPackets(Some(NEW_SESSION), users, first, second);
    assert cut[..1] == [first] && cut[..0] == [] && [first][..0] == [];
    assert ServeAll(Some(NEW_SESSION), users, [first]).session == Some(NEW_SESSION);
    assert Commands(NEW_SESSION, users, [first]);
    assert ServeAll(Some(NEW_SESSION), users, cut).session.Some?;
    assert [Ok] + [SyntaxError] == [Ok, SyntaxError];
    assert "" + "RSET\r\nNOOP" == "RSET\r\nNOOP";
  }

  lemma FirstPacketLost(users: Accounts, fate: Fate)
    ensures Serve(Some(NEW_SESSION), users, Packet("RSET\r\nNOOP", fate))
         == Conversation(Some(NEW_SESSION), [Line("RSET")], [Ok])
    ensures RunLines(NEW_CORE, CompleteLines("RSET\r\nNOOP")).renew && Rest("RSET\r\nNOOP") != ""
  {
    hide Parse, Find, CompleteLines, Rest, RunLines, Dispatch;
    NoBreak("NOOP");
    assert "RSET\r\nNOOP" == "RSET\r\n" + "NOOP" && "" + "RSET\r\nNOOP" == "RSET\r\nNOOP";
    TailLost(NEW_SESSION, "NOOP");
    assert [] + [Line("RSET")] == [Line("RSET")] && [] + [Ok] == [Ok];
  }

  lemma EmptyLine(users: Accounts, fate: Fate)
    ensures Serve(Some(NEW_SESSION), users, Packet("\r\n", fate))
            == Conversation(Some(NEW_SESSION), [Line("")], [SyntaxError])
  {
    hide Parse, TakeCommands;
    NoBreak("");
    TakeOneLine(NEW_SESSION, "");
    ResetLine();
    assert "" + CRLF == "\r\n";
    assert [] + [Line("")] == [Line("")] && [] + [SyntaxError] == [SyntaxError];
  }
}
