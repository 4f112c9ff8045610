/** The server as one SMTP client sees it, over links on which a reply may be lost, but nothing is repeated or
    reordered. */
module SmtpFarEnd {
  import opened Wrappers
  import opened Sequences
  import opened Text
  import opened SmtpSession
  import opened SmtpCommands
  import opened SmtpPackets
  import opened SmtpFraming
  import TextLaws

  /** A message that was stored, and for whom. */
  type Mail = (string, string)

  /** The messages stored while a session takes in some events. */
  function Stored(s: Option<Session>, users: Accounts, events: seq<Event>): seq<Mail> {
    if s.Some? && |events| == 1 && events[0].Block? && Deliver(s.value.core, users, events[0].fate).saved.Some?
    then [(Deliver(s.value.core, users, events[0].fate).saved.value, events[0].message)]
    else []
  }

  // ---------------------------------------------------------------- replies on the wire

  /** The code of a reply, compared as text; None where int() would fail. */
  function CodeOf(wire: string): Option<string> {
    var reply := Strip(wire);
    if |reply| >= 3 && forall i :: 0 <= i < 3 ==> '0' <= reply[i] <= '9' then Some(reply[..3]) else None
  }

  /** A code is read if and only if a reply, white space aside, begins with three digits. */
  lemma CodeIff(reply: string)
    requires TextLaws.Tight(reply)
    ensures CodeOf(reply) == if |reply| >= 3 && IsDigit(reply[0]) && IsDigit(reply[1]) && IsDigit(reply[2])
                             then Some([reply[0], reply[1], reply[2]]) else None
  {
    TextLaws.StripLaw("", reply, "");
    assert "" + reply + "" == reply;
    hide Strip, IsDigit;
    forall i | 0 <= i < |reply| ensures '0' <= reply[i] <= '9' <==> IsDigit(reply[i]) {
      DigitIff(reply[i]);
    }
    if |reply| >= 3 {
      assert reply[..3] == [reply[0], reply[1], reply[2]];
    }
  }

  lemma DigitIff(c: char)
    ensures '0' <= c <= '9' <==> IsDigit(c)
  {
    var digits := "0123456789";
    if '0' <= c <= '9' {
      assert digits[c as int - '0' as int] == c;
    }
  }

  predicate IsDigit(c: char) {
    c in "0123456789"
  }

  function Wire(r: Reply): string {
    r.Text() + CRLF
  }

  lemma StripLine(text: string)
    requires text != "" && !IsSpace(text[0]) && !IsSpace(text[|text| - 1])
    ensures Strip(text + CRLF) == text
  {
    var line := text + CRLF;
    assert StripLeft(line) == line;
    assert line[..|line| - 1] == text + "\r" && (text + "\r")[..|text|] == text;
    assert StripRight(text) == text;
    assert StripRight(text + "\r") == text;
  }

  /** Every reply begins with three digits and ends in a visible character. */
  lemma TextShape(r: Reply)
    ensures |r.Code()| == 3 && forall i :: 0 <= i < 3 ==> '0' <= r.Code()[i] <= '5'
    ensures r.Words() != "" && !IsSpace(r.Words()[|r.Words()| - 1])
  {
  }

  /** The client reads off the wire the code that the reply has. */
  lemma CodeArrives(r: Reply)
    ensures CodeOf(Wire(r)) == Some(r.Code())
  {
    TextShape(r);
    hide Strip;
    hide Reply.Code, Reply.Words;
    StripLine(r.Text());
    assert r.Text()[..3] == r.Code();
  }

  // ---------------------------------------------------------------- the far end

  /** The server's session for this client, the messages stored on its behalf, and the replies on their way. */
  datatype End = End(session: Option<Session>, stored: seq<Mail>, inbox: seq<string>)

  function Wires(replies: seq<Reply>): seq<string> {
    seq(|replies|, i requires 0 <= i < |replies| => Wire(replies[i]))
  }

  /** The accounts, and whether everything beyond the control of client and server goes well: no packet or reply is
      lost, and each message parses and is stored. */
  datatype World = World(users: Accounts, perfect: bool)

  /** A packet is served.  Any of the replies may be lost. */
  ghost predicate Served(w: World, e: End, data: string, fate: Fate, arrived: seq<Reply>, e': End) {
    var c := Serve(e.session, w.users, Packet(data, fate));
    && e' == End(c.session, e.stored + Stored(e.session, w.users, c.events), e.inbox + Wires(arrived))
    && Subsequence(arrived, c.replies)
    && (w.perfect ==> fate.Saved? && arrived == c.replies)
  }

  ghost predicate CanServe(w: World, e: End, data: string, e': End) {
    exists fate, arrived :: Served(w, e, data, fate, arrived, e')
  }

  lemma CanServeIf(w: World, e: End, data: string, fate: Fate, arrived: seq<Reply>, e': End)
    requires Served(w, e, data, fate, arrived, e')
    ensures CanServe(w, e, data, e')
  {
  }

  class ServerEnd {
    const world: World
    var value: End

    constructor (world: World)
      ensures this.world == world && value == End(None, [], [])
    {
      this.world := world;
      value := End(None, [], []);
    }

    /** How a delivery goes is up to the parts that are not modelled. */
    method Receive(data: string)
      modifies this
      ensures CanServe(world, old(value), data, value)
    {
      var some: Fate := *;
      var fate := if world.perfect then Saved else some;
      var c := Serve(value.session, world.users, Packet(data, fate));
      var kept := c.replies;
      if world.perfect {
        AllOfThem(kept);
      } else {
        kept := Lose(kept);
      }
      value := End(c.session, value.stored + Stored(value.session, world.users, c.events), value.inbox + Wires(kept));
      CanServeIf(world, old(value), data, fate, kept, value);
    }
  }

  lemma {:induction false} AllOfThem(replies: seq<Reply>)
    ensures Subsequence(replies, replies)
  {
    if replies != [] {
      AllOfThem(replies[1..]);
    }
  }

  /** Any of the replies may be lost. */
  method Lose(replies: seq<Reply>) returns (kept: seq<Reply>)
    ensures Subsequence(kept, replies)
    decreases |replies|
  {
    kept := [];
    if replies != [] {
      var rest := Lose(replies[1..]);
      var lost: bool := *;
      kept := if lost then rest else [replies[0]] + rest;
      assert lost || kept[1..] == rest;
    }
  }

  // ---------------------------------------------------------------- one command

  /** Nothing is stored as long as the data so far hold no terminator. */
  ghost predicate Quiet(s: Option<Session>) {
    s.Some? && s.value.core.state.ReadingDataStream? ==> Find(s.value.dataBuffer, TERMINATOR) < 0
  }

  /** An open session with nothing in its buffers that waits for a command. */
  ghost predicate Idle(s: Option<Session>) {
    s.Some? && s.value.dataBuffer == "" && s.value.lineBuffer == "" && !s.value.core.state.ReadingDataStream?
  }

  lemma OnlyDataReads(c: Core, line: string)
    requires !c.state.ReadingDataStream?
    ensures var e := Dispatch(c, line);
            && (e.core.state.ReadingDataStream? ==> e.renew && e.reply.StartInput? && e.core.rcptTo == c.rcptTo)
            && (e.quit ==> e.reply.Bye?)
  {
    hide Parse, ParseAngleAddr, Strip, Upper;
  }

  lemma AtMostOne(arrived: seq<Reply>, r: Reply)
    requires Subsequence(arrived, [r])
    ensures arrived == [] || arrived == [r]
  {
    if arrived != [] {
      assert Subsequence(arrived[1..], []) || Subsequence(arrived, []);
    }
  }

  /** What one command line does to an idle session. */
  lemma CommandServed(w: World, e: End, line: string, e': End)
    requires Idle(e.session) && e.inbox == [] && Find(line, CRLF) < 0 && CanServe(w, e, line + CRLF, e')
    ensures var d := Dispatch(e.session.value.core, line);
            && e'.stored == e.stored && Quiet(e'.session)
            && e'.session == (if d.quit then None else Some(Session(d.core, "", "")))
            && (e'.inbox == [Wire(d.reply)] || (!w.perfect && e'.inbox == []))
  {
    hide Dispatch, Find, Serve, Wire;
    var fate, arrived :| Served(w, e, line + CRLF, fate, arrived, e');
    var d := Dispatch(e.session.value.core, line);
    ServeOneLine(e.session.value, w.users, line, fate);
    OnlyDataReads(e.session.value.core, line);
    FindFirst("", TERMINATOR);
    AtMostOne(arrived, d.reply);
    assert e.stored + [] == e.stored;
    assert e.inbox + Wires(arrived) == Wires(arrived);
  }

  lemma ServeOneLine(s: Session, users: Accounts, line: string, fate: Fate)
    requires Idle(Some(s)) && Find(line, CRLF) < 0
    ensures var d := Dispatch(s.core, line);
            Serve(Some(s), users, Packet(line + CRLF, fate))
            == Conversation(if d.quit then None else Some(Session(d.core, "", "")), [Line(line)], [d.reply])
  {
    hide Dispatch, TakeCommands, Find;
    TakeOneLine(s, line);
    var d := Dispatch(s.core, line);
    assert [] + [d.reply] == [d.reply] && [] + [Line(line)] == [Line(line)];
  }

  // ---------------------------------------------------------------- the message, and the end

  function Message(subject: string, body: string): string {
    "Subject: " + subject + "\r\n\r\n" + body
  }

  /** Both can be had back: the subject, if it keeps to its line, is the rest of the first line, the second line is
      empty, and the body is what follows. */
  lemma MessageParts(subject: string, body: string)
    requires !Contains(subject, CRLF)
    ensures var m, head := Message(subject, body), "Subject: " + subject;
            && m == head + "\r\n\r\n" + body
            && SplitLines(m) == [head, ""] + SplitLines(body)
            && Find(m, "\r\n\r\n") == |head| && m[|head| + 4..] == body
  {
    hide CompleteLines, Rest, Find, Contains;
    var head := "Subject: " + subject;
    HeadBreaksInSubject(subject);
    TwoLinesFirst(head, body);
    EndOfHead(head, body);
    assert Message(subject, body) == head + "\r\n\r\n" + body;
  }

  lemma TwoLinesFirst(head: string, body: string)
    requires Find(head, CRLF) < 0
    ensures SplitLines(head + "\r\n\r\n" + body) == [head, ""] + SplitLines(body)
  {
    hide CompleteLines, Rest, Find;
    OneMoreLineFirst(head, CRLF + body);
    NoBreak("");
    OneMoreLineFirst("", body);
    assert "" + CRLF + body == CRLF + body;
    assert head + "\r\n\r\n" + body == head + CRLF + (CRLF + body);
  }

  lemma OneMoreLineFirst(line: string, rest: string)
    requires Find(line, CRLF) < 0
    ensures SplitLines(line + CRLF + rest) == [line] + SplitLines(rest)
  {
    hide CompleteLines, Rest, Find;
    OneLine(line);
    LinesOfConcat(line + CRLF, rest);
    assert "" + rest == rest;
  }

  lemma HeadBreaksInSubject(subject: string)
    ensures Find("Subject: " + subject, CRLF) < 0 || Contains(subject, CRLF)
  {
    var head := "Subject: " + subject;
    FindFirst(head, CRLF);
    var i := Find(head, CRLF);
    if i >= 0 {
      LineBreakAt(head, i);
      assert subject[i - 9..i - 7] == head[i..i + 2];
      assert OccursAt(subject, CRLF, i - 9);
    }
  }

  lemma BreakInHead(head: string, body: string, j: nat)
    requires j < |head| && OccursAt(head + "\r\n\r\n" + body, "\r\n\r\n", j)
    ensures OccursAt(head, CRLF, j)
  {
    var m, p := head + "\r\n\r\n" + body, "\r\n\r\n";
    assert m[j] == p[0] == '\r' && m[j + 1] == p[1] == '\n' by {
      assert m[j..j + 4][0] == p[0] && m[j..j + 4][1] == p[1];
    }
    assert m[|head|] == '\r';
    assert j + 2 <= |head|;
    assert head[j..j + 2] == [m[j], m[j + 1]];
  }

  lemma EndOfHead(head: string, body: string)
    requires Find(head, CRLF) < 0
    ensures Find(head + "\r\n\r\n" + body, "\r\n\r\n") == |head|
  {
    var m, p := head + "\r\n\r\n" + body, "\r\n\r\n";
    assert m[|head|..|head| + 4] == p;
    FindFirst(head, CRLF);
    forall j | 0 <= j < |head| ensures !OccursAt(m, p, j) {
      if OccursAt(m, p, j) {
        BreakInHead(head, body, j);
      }
    }
    hide Find;
    FindIs(m, p, |head|);
  }

  /** A chunk with which the terminator is not complete yet. */
  lemma ChunkServed(w: World, e: End, chunk: string, e': End)
    requires e.session.Some? && e.session.value.core.state.ReadingDataStream?
    requires Find(e.session.value.dataBuffer + chunk, TERMINATOR) < 0 && CanServe(w, e, chunk, e')
    ensures e' == e.(session := Some(e.session.value.(dataBuffer := e.session.value.dataBuffer + chunk)))
  {
    var fate, arrived :| Served(w, e, chunk, fate, arrived, e');
    hide Find;
    assert arrived == [];
    assert e.stored + [] == e.stored && e.inbox + Wires([]) == e.inbox;
  }

  /** After the last chunk the message is stored or not; the reply, if it arrives, is positive only if it is. */
  ghost predicate Completed(w: World, s: Option<Session>, before: seq<Mail>, mail: Mail, after: seq<Mail>,
      inbox: seq<string>)
  {
    && Idle(s) && (after == before || after == before + [mail]) && |inbox| <= 1
    && (inbox != [] && CodeOf(inbox[0]) == Some("250") ==> after == before + [mail])
    && (w.perfect ==> inbox != [] && CodeOf(inbox[0]).Some? && (CodeOf(inbox[0]) == Some("250") <==> mail.0 in w.users))
  }

  /** The chunk that completes the first terminator. */
  lemma LastChunkServed(w: World, e: End, chunk: string, i: nat, e': End)
    requires e.session.Some? && e.session.value.core.state.ReadingDataStream? && e.session.value.core.rcptTo != []
    requires e.inbox == [] && CanServe(w, e, chunk, e')
    requires var full := e.session.value.dataBuffer + chunk; Find(full, TERMINATOR) == i <= |full|
    ensures var mail := (UserOf(e.session.value.core.rcptTo[0]), (e.session.value.dataBuffer + chunk)[..i]);
            Completed(w, e'.session, e.stored, mail, e'.stored, e'.inbox)
  {
    var fate, arrived :| Served(w, e, chunk, fate, arrived, e');
    var s := e.session.value;
    var d := Deliver(s.core, w.users, fate);
    LastTaken(s, w.users, chunk, i, fate);
    PositiveIff(s.core, w.users, fate);
    CodeArrives(d.reply);
    hide Find, UserOf, CodeOf, Wire, Take, Deliver;
    hide Reply.Code;
    assert [] + [d.reply] == [d.reply]
           && [] + Take(s, w.users, Packet(chunk, fate)).events == Take(s, w.users, Packet(chunk, fate)).events;
    AtMostOne(arrived, d.reply);
    assert e.inbox + Wires(arrived) == Wires(arrived);
    assert e.stored + [] == e.stored;
  }

  lemma LastTaken(s: Session, users: Accounts, chunk: string, i: nat, fate: Fate)
    requires s.core.state.ReadingDataStream? && Find(s.dataBuffer + chunk, TERMINATOR) == i <= |s.dataBuffer + chunk|
    ensures var d, m := Deliver(s.core, users, fate), (s.dataBuffer + chunk)[..i];
            Take(s, users, Packet(chunk, fate)) == Outcome(Session(d.core, "", ""), [Block(m, fate)], [d.reply], false)
  {
    hide Find, Deliver;
  }

  lemma PositiveIff(c: Core, users: Accounts, fate: Fate)
    requires c.rcptTo != []
    ensures var d := Deliver(c, users, fate);
            && (d.reply.Code() == "250" <==> d.saved.Some?) && !d.core.state.ReadingDataStream?
            && (d.saved.Some? ==> d.saved.value == UserOf(c.rcptTo[0]))
            && (fate.Saved? ==> (d.saved.Some? <==> UserOf(c.rcptTo[0]) in users))
  {
    hide UserOf;
  }

  lemma QuitIsNoTerminator(buffer: string)
    requires Find(buffer, TERMINATOR) < 0
    ensures Find(buffer + "QUIT\r\n", TERMINATOR) < 0
  {
    var all := buffer + "QUIT\r\n";
    FindFirst(all, TERMINATOR);
    FindFirst(buffer, TERMINATOR);
    var i := Find(all, TERMINATOR);
    hide Find;
    if 0 <= i && i + 5 <= |buffer| {
      OccursInPrefix(buffer, "QUIT\r\n", TERMINATOR, i);
    } else if 0 <= i {
      assert all[|buffer|] == 'Q' && all[|buffer| + 1] == 'U';
      TerminatorAt(all, i);
    }
  }

  /** QUIT stores nothing, whatever state the session is in. */
  lemma QuitServed(w: World, e: End, e': End)
    requires Quiet(e.session) && CanServe(w, e, "QUIT\r\n", e')
    ensures e'.stored == e.stored
  {
    var fate, arrived :| Served(w, e, "QUIT\r\n", fate, arrived, e');
    if e.session.Some? && e.session.value.core.state.ReadingDataStream? {
      QuitIsNoTerminator(e.session.value.dataBuffer);
    }
    hide Find, CompleteLines, Rest, RunLines;
    assert e.stored + [] == e.stored;
  }

  lemma NoopTaken()
    ensures TakeCommands(NEW_SESSION, "NOOP" + CRLF) == Outcome(NEW_SESSION, [Line("NOOP")], [Ok], false)
  {
    hide Parse, TakeCommands;
    NoBreak("NOOP");
    TakeOneLine(NEW_SESSION, "NOOP");
    WordLines();
  }

  /** The first packet of a session: two replies, of which the client needs the greeting. */
  lemma Greeted(w: World, e: End, e': End)
    requires e.session.None? && e.inbox == [] && CanServe(w, e, "NOOP" + CRLF, e')
    ensures e'.session == Some(NEW_SESSION) && e'.stored == e.stored
    ensures e'.inbox == [] || e'.inbox == [Wire(Ok)] || e'.inbox == [Wire(Welcome)]
            || e'.inbox == [Wire(Welcome), Wire(Ok)]
    ensures w.perfect ==> e'.inbox == [Wire(Welcome), Wire(Ok)]
  {
    var fate, arrived :| Served(w, e, "NOOP" + CRLF, fate, arrived, e');
    NoopTaken();
    hide TakeCommands;
    assert [Greeting] + [Line("NOOP")] == [Greeting, Line("NOOP")];
    assert e.stored + [] == e.stored;
    assert [Welcome] + [Ok] == [Welcome, Ok];
    AtMostTwo(arrived, Welcome, Ok);
    assert e.inbox + Wires(arrived) == Wires(arrived);
  }

  lemma AtMostTwo(arrived: seq<Reply>, q: Reply, r: Reply)
    requires Subsequence(arrived, [q, r])
    ensures arrived == [] || arrived == [q] || arrived == [r] || arrived == [q, r]
  {
    assert [q, r][1..] == [r];
    if arrived != [] {
      if Subsequence(arrived, [r]) {
        AtMostOne(arrived, r);
      } else {
        AtMostOne(arrived[1..], r);
        assert arrived == [q] + arrived[1..];
      }
    }
  }
}
