/** smtp_client.py: one conversation with the server.  A send may fail, with or without effect. */
module SmtpClient {
  import opened Wrappers
  import opened Text
  import opened SmtpSession
  import opened SmtpCommands
  import opened SmtpPackets
  import opened SmtpFraming
  import opened SmtpFarEnd

  datatype Outcome = Returned(sent: bool) | Waiting

  /** What there is nothing wrong with. */
  ghost predicate Acceptable(w: World, sender: string, recipient: string, message: string) {
    GoodAddress(sender) && GoodAddress(recipient) && IsAscii(message) && UserOf(Strip(recipient)) in w.users
  }

  /** An idle session in this state with these recipients, and no reply left over. */
  ghost predicate Stands(e: End, state: State, rcptTo: seq<string>) {
    && Idle(e.session) && e.inbox == []
    && e.session.value.core.state == state && e.session.value.core.rcptTo == rcptTo
  }

  /** A session in which a command can be given, and no reply left over. */
  ghost predicate Settled(e: End) {
    Idle(e.session) && e.inbox == []
  }

  /** Both addresses are taken by the server, but the message cannot be encoded, which shows only after DATA. */
  predicate BreaksOff(sender: string, recipient: string, message: string) {
    GoodAddress(sender) && GoodAddress(recipient) && !IsAscii(message)
  }

  /** The server takes whatever comes for part of a message. */
  ghost predicate InMessage(e: End) {
    e.session.Some? && e.session.value.core.state.ReadingDataStream? && Find(e.session.value.dataBuffer, TERMINATOR) < 0
  }

  /** A session that reads data for this recipient and has none yet. */
  ghost predicate Reads(e: End, to: string) {
    && e.session.Some? && e.inbox == [] && e.session.value.core.state.ReadingDataStream?
    && e.session.value.core.rcptTo == [to] && e.session.value.dataBuffer == ""
  }

  /** At most this one message was stored. */
  ghost predicate AtMost(before: seq<Mail>, mail: Mail, after: seq<Mail>) {
    after == before || after == before + [mail]
  }

  /** No part of the message goes out in a chunk of its own once its first terminator is complete; so a message that
      fits one chunk is in one go, and every framed one. */
  predicate InOneGo(m: string, chunk: nat) {
    chunk > 0 && Find(m + TERMINATOR, TERMINATOR) + 5 > LastStart(|m| + 5, chunk)
  }

  /** Where the last chunk of so many bytes begins. */
  function LastStart(total: nat, chunk: nat): nat
    requires chunk > 0
  {
    if total <= chunk then 0 else chunk + LastStart(total - chunk, chunk)
  }

  /** n bytes make full chunks. */
  predicate FullChunks(n: nat, chunk: nat)
    requires chunk > 0
  {
    n == 0 || (n >= chunk && FullChunks(n - chunk, chunk))
  }

  lemma {:induction false} StartsBefore(n: nat, total: nat, chunk: nat)
    requires chunk > 0 && FullChunks(n, chunk) && n < total
    ensures n <= LastStart(total, chunk)
  {
    if n > 0 {
      StartsBefore(n - chunk, total - chunk, chunk);
    }
  }

  lemma {:induction false} LastStartBelow(total: nat, chunk: nat)
    requires chunk > 0 && total > 0
    ensures LastStart(total, chunk) < total && (total <= chunk ==> LastStart(total, chunk) == 0)
  {
    if total > chunk {
      LastStartBelow(total - chunk, chunk);
    }
  }

  lemma NextChunk(n: nat, chunk: nat)
    requires chunk > 0 && FullChunks(n, chunk)
    ensures FullChunks(0, chunk) && FullChunks(n + chunk, chunk)
  {
  }

  lemma WhichAreInOneGo(m: string, chunk: nat)
    requires chunk > 0
    ensures Framed(m) || |m| + 5 <= chunk ==> InOneGo(m, chunk)
  {
    hide Find, Framed, LastStart;
    FoundAtTheEndIff(m);
    AtTheEnd(m);
    FindFirst(m + TERMINATOR, TERMINATOR);
    LastStartBelow(|m| + 5, chunk);
  }

  /** Addresses that keep to their line, and a message sent in one go. */
  predicate Orderly(chunk: nat, sender: string, recipient: string, message: string) {
    Find(sender, CRLF) < 0 && Find(recipient, CRLF) < 0 && InOneGo(message, chunk)
  }

  /** One message was stored, for this user: if it is framed, that is "Subject: " and the subject, an empty line, and
      the body; and if the subject keeps to its line, both can be had back. */
  ghost predicate Keeps(before: seq<Mail>, after: seq<Mail>, user: string, subject: string, body: string) {
    && |after| == |before| + 1 && after[..|before|] == before && after[|before|].0 == user
    && var m, head := after[|before|].1, "Subject: " + subject;
       && (Framed(head + "\r\n\r\n" + body) ==> m == head + "\r\n\r\n" + body)
       && (Framed(head + "\r\n\r\n" + body) && !Contains(subject, CRLF) ==>
             && Find(m, "\r\n\r\n") == |head| && m[..|head|] == head && m[|head| + 4..] == body)
  }

  lemma WhatIsKept(before: seq<Mail>, to: string, subject: string, body: string)
    ensures forall local, domain :: IsAddress(to, local, domain) ==>
              Keeps(before, before + [(UserOf(to), Arriving(Message(subject, body)))], Lower(local), subject, body)
  {
    var m := Message(subject, body);
    ArrivesWholeIff(m);
    hide UserOf, Arriving, Lower, Framed, Find, Contains;
    if !Contains(subject, CRLF) {
      MessageParts(subject, body);
    }
    assert "Subject: " + subject + "\r\n\r\n" + body == m;
    hide Message;
    forall local, domain | IsAddress(to, local, domain) ensures UserOf(to) == Lower(local) {
      UserIsLocalPart(to, local, domain);
    }
  }

  class SmtpClient {
    const server: ServerEnd
    const maxPayload: nat
    var isConnected: bool

    constructor (server: ServerEnd, maxPayload: nat)
      ensures this.server == server && this.maxPayload == maxPayload && !isConnected
    {
      this.server, this.maxPayload := server, maxPayload;
      isConnected := false;
    }

    /** RDTSender.send: the payload has arrived if it returns, and may or may not have arrived if it raises. */
    method Send(data: string) returns (st: Status)
      modifies server
      ensures !st.Stuck? && (server.world.perfect ==> st.Done?)
      ensures st.Done? ==> CanServe(server.world, old(server.value), data, server.value)
      ensures server.value == old(server.value) || CanServe(server.world, old(server.value), data, server.value)
    {
      var lucky: bool, arrives: bool := *, *;
      var ok := server.world.perfect || lucky;
      if ok || arrives {
        server.Receive(data);
      }
      st := if ok then Done else Raised;
    }

    method SendCommand(command: string) returns (st: Status)
      modifies server
      ensures !st.Stuck? && (st.Done? ==> IsAscii(command)) && (server.world.perfect && IsAscii(command) ==> st.Done?)
      ensures !IsAscii(command) ==> server.value == old(server.value)
      ensures st.Done? ==> CanServe(server.world, old(server.value), command + CRLF, server.value)
      ensures server.value == old(server.value)
              || CanServe(server.world, old(server.value), command + CRLF, server.value)
    {
      if !IsAscii(command) {
        return Raised;
      }
      st := Send(command + CRLF);
    }

    /** The code of the next reply. */
    method GetReply() returns (st: Status, code: string)
      modifies server
      ensures server.value == old(server.value).(inbox := server.value.inbox)
      ensures old(server.value.inbox) == [] ==> st.Stuck? && server.value == old(server.value)
      ensures old(server.value.inbox) != [] ==>
                && server.value.inbox == old(server.value.inbox)[1..] && !st.Stuck?
                && (st.Done? <==> CodeOf(old(server.value.inbox)[0]).Some?)
                && (st.Done? ==> CodeOf(old(server.value.inbox)[0]) == Some(code))
    {
      code := "";
      if server.value.inbox == [] {
        return Stuck, code;
      }
      var read := CodeOf(server.value.inbox[0]);
      server.value := server.value.(inbox := server.value.inbox[1..]);
      match read {
        case None => st := Raised;
        case Some(c) => st, code := Done, c;
      }
    }

    /** A command and its reply. */
    method Exchange(command: string) returns (st: Status, code: string)
      modifies server
      ensures st.Done? ==> IsAscii(command)
      ensures !IsAscii(command) ==> server.value == old(server.value)
      ensures old(Idle(server.value.session) && server.value.inbox == []) && Find(command, CRLF) < 0 ==>
                && server.value.stored == old(server.value.stored) && Quiet(server.value.session)
                && (server.world.perfect ==> st == if IsAscii(command) then Done else Raised)
                && (st.Done? ==>
                      var d := Dispatch(old(server.value.session.value.core), command);
                      && server.value.inbox == [] && code == d.reply.Code()
                      && server.value.session == (if d.quit then None else Some(Session(d.core, "", ""))))
    {
      hide Find, CanServe, Dispatch, CodeOf, Wire;
      hide Reply.Code;
      ghost var before := server.value;
      code := "";
      st := SendCommand(command);
      if Idle(before.session) && before.inbox == [] && Find(command, CRLF) < 0
          && CanServe(server.world, before, command + CRLF, server.value) {
        CommandServed(server.world, before, command, server.value);
        CodeArrives(Dispatch(before.session.value.core, command).reply);
      }
      if st.Done? {
        st, code := GetReply();
      }
    }

    /** Gives NOOP to make the server open a session, and reads the greeting and the reply. */
    method Connect() returns (st: Status)
      requires server.value.session.None? && server.value.inbox == []
      modifies this`isConnected, server
      ensures server.value.stored == old(server.value.stored) && Quiet(server.value.session)
      ensures server.world.perfect ==> st.Done?
      ensures st.Done? ==> server.value.session == Some(NEW_SESSION) && server.value.inbox == [] && isConnected
    {
      hide Find, CanServe, CodeOf, Wire;
      ghost var before := server.value;
      st := SendCommand("NOOP");
      if CanServe(server.world, before, "NOOP" + CRLF, server.value) {
        Greeted(server.world, before, server.value);
      }
      if !st.Done? {
        return;
      }
      CodeArrives(Welcome);
      CodeArrives(Ok);
      var code;
      st, code := GetReply();
      if !st.Done? {
        return;
      }
      if code != "220" {
        return Raised;
      }
      st, code := GetReply();
      if st.Stuck? {
        return;
      }
      isConnected := true;
      st := Done;
    }

    method DoHandshake() returns (st: Status)
      requires server.value.session == Some(NEW_SESSION) && server.value.inbox == []
      modifies server
      ensures server.value.stored == old(server.value.stored) && Quiet(server.value.session)
      ensures server.world.perfect ==> st.Done?
      ensures st.Done? ==> Stands(server.value, WaitForMailFrom, [])
    {
      hide Find, Dispatch, Quiet;
      NoBreak("HELO localhost");
      HeloAnswered(server.value.session.value.core);
      var code;
      st, code := Exchange("HELO localhost");
      if st.Done? && code != "250" {
        st := Raised;
      }
    }

    method SendMailFrom(sender: string) returns (st: Status)
      modifies server
      ensures old(Stands(server.value, WaitForMailFrom, [])) && Find(sender, CRLF) < 0 ==>
                && server.value.stored == old(server.value.stored) && Quiet(server.value.session)
                && (server.world.perfect ==>
                      (st == if GoodAddress(sender) then Done else Raised) && Settled(server.value))
                && (st.Done? ==> Stands(server.value, WaitForRcptTo, []))
    {
      hide Find, Dispatch, IsAscii, Quiet;
      var command := "MAIL FROM:<" + sender + ">";
      AsciiParts("MAIL FROM:<", sender);
      assert command == "MAIL " + Path("FROM:", sender);
      ghost var ready := Stands(server.value, WaitForMailFrom, []) && Find(sender, CRLF) < 0;
      ghost var core := if ready then server.value.session.value.core else NEW_CORE;
      if ready {
        PathHasNoBreak("MAIL FROM:<", sender);
      }
      var code;
      st, code := Exchange(command);
      if st.Done? {
        MailAnswered(core, sender);
        OnlyDataReads(core, command);
        if code != "250" {
          st := Raised;
        }
      }
    }

    method SendRcptTo(recipient: string) returns (st: Status)
      modifies server
      ensures old(Stands(server.value, WaitForRcptTo, [])) && Find(recipient, CRLF) < 0 ==>
                && server.value.stored == old(server.value.stored) && Quiet(server.value.session)
                && (server.world.perfect ==>
                      (st == if GoodAddress(recipient) then Done else Raised) && Settled(server.value))
                && (st.Done? ==> Stands(server.value, WaitForDataCmd, [Strip(recipient)]))
    {
      hide Find, Dispatch, IsAscii, Quiet, Strip;
      var command := "RCPT TO:<" + recipient + ">";
      AsciiParts("RCPT TO:<", recipient);
      assert command == "RCPT " + Path("TO:", recipient);
      ghost var ready := Stands(server.value, WaitForRcptTo, []) && Find(recipient, CRLF) < 0;
      ghost var core := if ready then server.value.session.value.core else NEW_CORE;
      if ready {
        PathHasNoBreak("RCPT TO:<", recipient);
      }
      var code;
      st, code := Exchange(command);
      if st.Done? {
        RcptAnswered(core, recipient);
        OnlyDataReads(core, command);
        if code != "250" {
          st := Raised;
        }
      }
    }

    method StartData(ghost to: string) returns (st: Status)
      modifies server
      ensures old(Stands(server.value, WaitForDataCmd, [to])) ==>
                && server.value.stored == old(server.value.stored) && Quiet(server.value.session)
                && (server.world.perfect ==> st.Done?) && (st.Done? ==> Reads(server.value, to))
    {
      hide Find, Dispatch, Quiet;
      NoBreak("DATA");
      ghost var ready := Stands(server.value, WaitForDataCmd, [to]);
      ghost var core := if ready then server.value.session.value.core else NEW_CORE;
      var code;
      st, code := Exchange("DATA");
      DataAnswered(core);
      if st.Done? && code != "354" {
        st := Raised;
      }
    }

    /** The chunk loop. */
    method SendChunks(payload: string, ghost m: string, ghost to: string) returns (st: Status)
      requires maxPayload > 0 && payload == m + TERMINATOR
      modifies server
      ensures !st.Stuck?
      ensures old(Reads(server.value, to)) && InOneGo(m, maxPayload) ==>
                var mail := (UserOf(to), Arriving(m));
                && Quiet(server.value.session) && (server.world.perfect ==> st.Done?)
                && AtMost(old(server.value.stored), mail, server.value.stored)
                && (st.Done? ==> Completed(server.world, server.value.session, old(server.value.stored), mail,
                                           server.value.stored, server.value.inbox))
    {
      hide Find, CanServe, UserOf, InOneGo, Quiet, Completed, Underway, FullChunks, LastStart, Arriving;
      ghost var start := server.value;
      ghost var ready := Reads(start, to) && InOneGo(m, maxPayload);
      ghost var mail := (UserOf(to), Arriving(m));
      if ready {
        BeginsUnderway(start, to, payload);
      }
      NextChunk(0, maxPayload);
      var sent := 0;
      while sent < |payload|
        invariant sent <= |payload| && (sent < |payload| ==> FullChunks(sent, maxPayload))
        invariant ready ==> Progress(server.world, start, payload, sent, mail, server.value)
      {
        var end := if sent + maxPayload < |payload| then sent + maxPayload else |payload|;
        var chunk := payload[sent..end];
        ghost var before := server.value;
        StartsBefore(sent, |payload|, maxPayload);
        NextChunk(sent, maxPayload);
        if end < |payload| {
          StartsBefore(end, |payload|, maxPayload);
        }
        st := Send(chunk);
        if ready {
          AfterChunk(server.world, start, to, m, maxPayload, sent, end, before, server.value);
        }
        if !st.Done? {
          return;
        }
        sent := sent + |chunk|;
      }
      st := Done;
    }

    /** DATA, the message, and its reply. */
    method SendData(subject: string, body: string, ghost to: string) returns (st: Status)
      requires maxPayload > 0
      modifies server
      ensures old(Stands(server.value, WaitForDataCmd, [to])) && InOneGo(Message(subject, body), maxPayload) ==>
                var mail := (UserOf(to), Arriving(Message(subject, body)));
                && Quiet(server.value.session) && AtMost(old(server.value.stored), mail, server.value.stored)
                && (server.world.perfect ==>
                      st == if IsAscii(Message(subject, body)) && UserOf(to) in server.world.users then Done
                            else Raised)
                && (server.world.perfect ==>
                      if IsAscii(Message(subject, body)) then Settled(server.value) else InMessage(server.value))
                && (st.Done? ==>
                      && server.value.stored == old(server.value.stored) + [mail]
                      && Idle(server.value.session) && server.value.inbox == [])
    {
      hide InOneGo, Arriving, UserOf, IsAscii, CodeOf, Find;
      st := StartData(to);
      if !st.Done? {
        return;
      }
      var payload := Message(subject, body) + "\r\n.\r\n";
      AsciiAll(Message(subject, body));
      if !IsAscii(payload) {
        FindFirst("", TERMINATOR);
        return Raised;
      }
      st := SendChunks(payload, Message(subject, body), to);
      if !st.Done? {
        return;
      }
      var code;
      st, code := GetReply();
      if st.Done? && code != "250" {
        st := Raised;
      }
    }

    /** A reply that cannot be read is ignored. */
    method SendQuit() returns (st: Status)
      modifies server
      ensures old(Idle(server.value.session) && server.value.inbox == []) ==>
                && (server.world.perfect ==> st.Done? && server.value.session.None?)
                && server.value.stored == old(server.value.stored) && Quiet(server.value.session)
    {
      hide Find, CanServe, Dispatch;
      ghost var before := server.value;
      NoBreak("QUIT");
      QuitQuits();
      st := SendCommand("QUIT");
      if Idle(before.session) && before.inbox == [] && CanServe(server.world, before, "QUIT" + CRLF, server.value) {
        CommandServed(server.world, before, "QUIT", server.value);
      }
      if st.Done? {
        var code;
        st, code := GetReply();
        if st.Raised? {
          st := Done;
        }
      }
    }

    /** When nothing is lost and nothing fails: no session is left, or one that waits for a command, or one in the
        middle of a message. */
    ghost predicate LeftBy(st: Status, sender: string, recipient: string, message: string)
      reads server
    {
      if st.Done? then server.value.session.None?
      else if BreaksOff(sender, recipient, message) then InMessage(server.value)
      else Settled(server.value)
    }

    method Transaction(sender: string, recipient: string, subject: string, body: string) returns (st: Status)
      requires server.value.session.None? && server.value.inbox == [] && maxPayload > 0
      modifies this`isConnected, server
      ensures Orderly(maxPayload, sender, recipient, Message(subject, body)) ==>
                var mail := (UserOf(Strip(recipient)), Arriving(Message(subject, body)));
                && Quiet(server.value.session) && AtMost(old(server.value.stored), mail, server.value.stored)
                && (server.world.perfect ==>
                      st == if Acceptable(server.world, sender, recipient, Message(subject, body)) then Done
                            else Raised)
                && (server.world.perfect ==> isConnected && LeftBy(st, sender, recipient, Message(subject, body)))
                && (st.Done? ==> server.value.stored == old(server.value.stored) + [mail])
    {
      hide Quiet, Idle, UserOf, Strip, InOneGo, Arriving, Find, Message, InMessage;
      :- Connect();
      :- DoHandshake();
      :- SendMailFrom(sender);
      :- SendRcptTo(recipient);
      :- SendData(subject, body, Strip(recipient));
      :- SendQuit();
      return Done;
    }

    /** Sends one message in a new session, with addresses that keep to their line and a message that is sent in one go.
        If it returns True, the server has stored what arrives of this message for the recipient's user, exactly once;
        that is the whole message if and only if it is framed.  Whatever happens, nothing else is stored, and nothing
        twice.  When nothing is lost and nothing fails, it returns True for all that is acceptable, and only that, and
        leaves no session behind, unless it breaks off in the middle of a message. */
    method SendEmail(sender: string, recipient: string, subject: string, body: string) returns (o: Outcome)
      requires server.value.session.None? && server.value.inbox == [] && maxPayload > 0
      modifies this`isConnected, server
      ensures Orderly(maxPayload, sender, recipient, Message(subject, body)) ==>
                var m := Message(subject, body);
                var mail := (UserOf(Strip(recipient)), Arriving(m));
                && AtMost(old(server.value.stored), mail, server.value.stored)
                && (server.world.perfect ==> o == Returned(Acceptable(server.world, sender, recipient, m)))
                && (o == Returned(true) ==> server.value.stored == old(server.value.stored) + [mail])
                && Arriving(m) <= m && (Arriving(m) == m <==> Framed(m))
                && (server.world.perfect ==>
                      if BreaksOff(sender, recipient, m) then InMessage(server.value) else server.value.session.None?)
      ensures o == Returned(true) && Orderly(maxPayload, sender, recipient, Message(subject, body)) ==>
                forall local, domain :: IsAddress(Strip(recipient), local, domain) ==>
                  Keeps(old(server.value.stored), server.value.stored, Lower(local), subject, body)
    {
      hide InOneGo, Arriving, Framed, UserOf, Strip, CanServe, Quiet, Find, Message, Keeps, InMessage, Settled;
      ArrivesWholeIff(Message(subject, body));
      WhatIsKept(server.value.stored, Strip(recipient), subject, body);
      var st := Transaction(sender, recipient, subject, body);
      match st {
        case Done => return Returned(true);
        case Stuck => return Waiting;
        case Raised =>
          if isConnected {
            ghost var before := server.value;
            assert "QUIT" + CRLF == "QUIT\r\n";
            st := SendCommand("QUIT");
            if Quiet(before.session) && CanServe(server.world, before, "QUIT\r\n", server.value) {
              QuitServed(server.world, before, server.value);
              QuitEnds(server.world, before, server.value);
            }
          }
          return Returned(false);
      }
    }
  }

  lemma QuitQuits()
    ensures forall c :: Dispatch(c, "QUIT").quit
  {
    WordLines();
    hide Parse;
  }

  /** QUIT ends a session that waits for a command, and is taken for text by one in the middle of a message. */
  lemma QuitEnds(w: World, e: End, e': End)
    requires CanServe(w, e, "QUIT\r\n", e')
    ensures Settled(e) ==> e'.session.None?
    ensures InMessage(e) ==> InMessage(e')
  {
    hide CanServe, Dispatch, Find;
    assert "QUIT" + CRLF == "QUIT\r\n";
    if Settled(e) {
      NoBreak("QUIT");
      QuitQuits();
      CommandServed(w, e, "QUIT", e');
    }
    if InMessage(e) {
      QuitIsNoTerminator(e.session.value.dataBuffer);
      ChunkServed(w, e, "QUIT\r\n", e');
    }
  }

  // ---------------------------------------------------------------- chunk after chunk

  /** So much of the payload has come in, and nothing else has happened. */
  ghost predicate Underway(start: End, seen: string, e: End) {
    start.session.Some? && e == start.(session := Some(start.session.value.(dataBuffer := seen)))
  }

  /** The state of the chunk loop. */
  ghost predicate Progress(w: World, start: End, payload: string, sent: nat, mail: Mail, e: End)
    requires sent <= |payload|
  {
    if sent < |payload| then Underway(start, payload[..sent], e)
    else
      && Completed(w, e.session, start.stored, mail, e.stored, e.inbox) && Quiet(e.session)
      && AtMost(start.stored, mail, e.stored)
  }

  lemma BeginsUnderway(start: End, to: string, payload: string)
    requires Reads(start, to)
    ensures Underway(start, payload[..0], start)
  {
  }

  lemma AfterChunk(w: World, start: End, to: string, m: string, chunk: nat, sent: nat, end: nat, e: End, e': End)
    requires Reads(start, to) && InOneGo(m, chunk) && sent < end <= |m + TERMINATOR|
    requires Underway(start, (m + TERMINATOR)[..sent], e) && sent <= LastStart(|m| + 5, chunk)
    requires end < |m + TERMINATOR| ==> end <= LastStart(|m| + 5, chunk)
    requires e' == e || CanServe(w, e, (m + TERMINATOR)[sent..end], e')
    ensures var mail := (UserOf(to), Arriving(m));
            && Quiet(e'.session) && AtMost(start.stored, mail, e'.stored)
            && (CanServe(w, e, (m + TERMINATOR)[sent..end], e') ==> Progress(w, start, m + TERMINATOR, end, mail, e'))
  {
    hide CanServe, UserOf, LastStart;
    var payload := m + TERMINATOR;
    AtTheEnd(m);
    FindFirst(payload, TERMINATOR);
    hide Find;
    NotYet(payload, payload[..sent]);
    assert payload[..sent] + payload[sent..end] == payload[..end];
    if CanServe(w, e, payload[sent..end], e') {
      if end < |payload| {
        NotYet(payload, payload[..end]);
        ChunkServed(w, e, payload[sent..end], e');
      } else {
        assert payload[..end] == payload;
        LastChunkServed(w, e, payload[sent..end], Find(payload, TERMINATOR), e');
      }
    }
  }

  lemma AsciiParts(head: string, address: string)
    requires forall i :: 0 <= i < |head| ==> head[i] as int < 0x80
    ensures IsAscii(head + address + ">") <==> IsAscii(address)
  {
    var line := head + address + ">";
    assert forall i :: 0 <= i < |address| ==> address[i] == line[|head| + i];
  }

  lemma AsciiAll(m: string)
    ensures IsAscii(m + TERMINATOR) <==> IsAscii(m)
  {
    assert forall i :: 0 <= i < |m| ==> m[i] == (m + TERMINATOR)[i];
  }
}
