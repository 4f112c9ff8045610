/** smtp_server.py: sessions with their byte buffers, and the handlers that change them in place. */
module SmtpServer {
  import opened Wrappers
  import opened Text
  import opened Mailbox
  import opened FileSystem
  import opened SmtpSession
  import opened SmtpPackets
  import Storage = StorageManager
  import MailboxWriter
  import opened Outbox
  import RdtReceiver

  /** After these replies to a client. */
  function Posts(p: Posted<Reply>, addr: Addr, replies: seq<Reply>): Posted<Reply> {
    PostAll(p, addr, replies, (r: Reply) => r.Bye?)
  }

  lemma PostsOne(p: Posted<Reply>, addr: Addr, r: Reply)
    ensures Posts(p, addr, [r]) == Post(p, addr, r, r.Bye?)
  {
    PostOne(p, addr, r, (r: Reply) => r.Bye?);
  }

  lemma PostsConcat(p: Posted<Reply>, addr: Addr, a: seq<Reply>, b: seq<Reply>)
    ensures Posts(p, addr, a + b) == Posts(Posts(p, addr, a), addr, b)
  {
    PostConcat(p, addr, a, b, (r: Reply) => r.Bye?);
  }

  lemma PostsNone(p: Posted<Reply>, addr: Addr)
    ensures Posts(p, addr, []) == p
  {
  }

  /** A bytearray. */
  class Buffer {
    var bytes: string

    constructor ()
      ensures bytes == ""
    {
      bytes := "";
    }
  }

  /** One entry of the sessions dictionary. */
  class Session {
    var state: State
    var mailFrom: Option<string>
    var rcptTo: seq<string>
    var dataBuffer: Buffer
    var lineBuffer: Buffer

    constructor ()
      ensures Core() == NEW_CORE && EmptyBuffers() && fresh(dataBuffer) && fresh(lineBuffer)
    {
      state, mailFrom, rcptTo := WaitForHelo, None, [];
      dataBuffer := new Buffer();
      lineBuffer := new Buffer();
    }

    ghost function Core(): Core
      reads this
    {
      SmtpSession.Core(state, mailFrom, rcptTo)
    }

    ghost function Value(): SmtpPackets.Session
      reads this, dataBuffer, lineBuffer
    {
      SmtpPackets.Session(Core(), dataBuffer.bytes, lineBuffer.bytes)
    }

    ghost predicate EmptyBuffers()
      reads this, dataBuffer, lineBuffer
    {
      dataBuffer != lineBuffer && dataBuffer.bytes == "" && lineBuffer.bytes == ""
    }

    method RenewBuffers()
      modifies this`dataBuffer, this`lineBuffer
      ensures EmptyBuffers() && fresh(dataBuffer) && fresh(lineBuffer)
    {
      dataBuffer := new Buffer();
      lineBuffer := new Buffer();
    }
  }

  /** Either both buffers were replaced by new empty ones, or they are the ones given. */
  ghost predicate Renewed(session: Session, renew: bool, data: Buffer, line: Buffer)
    reads session, session.dataBuffer, session.lineBuffer
  {
    if renew then session.EmptyBuffers() && {session.dataBuffer, session.lineBuffer} !! {data, line}
    else session.dataBuffer == data && session.lineBuffer == line
  }

  /** Either nothing was stored in any mailbox, or just this text in this user's, entered at the end of the metadata;
      unless the disk is reliable, entering it may fail unnoticed, or drop the entries before it. */
  ghost predicate StoredAs(before: Disk, after: Disk, saved: Option<string>, text: Option<string>, uid: string,
                           name: string, reliable: bool)
  {
    match saved
    case None =>
      forall u :: BoxOf(after, u).files == BoxOf(before, u).files && BoxOf(after, u).meta == BoxOf(before, u).meta
    case Some(user) =>
      && text.Some? && BoxOf(after, user).files == BoxOf(before, user).files[name := text.value]
      && (forall u :: u != user ==> BoxOf(after, u) == BoxOf(before, u))
      && (|| MailboxWriter.Entered(MetaOf(BoxOf(before, user)), BoxOf(after, user).meta, uid, name, text.value,
                                   reliable)
          || (!reliable && BoxOf(after, user).meta == BoxOf(before, user).meta)
          || (!reliable && MailboxWriter.Entered([], BoxOf(after, user).meta, uid, name, text.value, false)))
  }

  lemma SameDisk(disk: Disk, text: Option<string>, uid: string, name: string, reliable: bool)
    ensures StoredAs(disk, disk, None, text, uid, name, reliable)
  {
  }

  class SmtpServer {
    const storage: Storage.StorageManager
    const users: Accounts
    /** The e-mail library: whether message bytes parse, whether their headers can be read, and the text they are
        rendered as, None where that fails. */
    const parses: string -> bool
    const headersRead: string -> bool
    const render: string -> Option<string>
    const receiver: RdtReceiver.RdtReceiver
    var sessions: map<Addr, Session>
    /** Every reply handed to a sender, in order, and the clients a sender is kept for. */
    var sent: seq<(Addr, Reply)>
    var senders: set<Addr>

    ghost function Out(): Posted<Reply>
      reads this`sent, this`senders, receiver`expectedSeqs
    {
      Posted(sent, senders, receiver.expectedSeqs)
    }

    ghost predicate Valid()
      reads this`sessions, storage, storage.locks.Values, storage.fs
      reads sessions.Values`dataBuffer, sessions.Values`lineBuffer
    {
      storage.Valid() && BuffersApart()
    }

    /** No buffer is used twice. */
    ghost predicate BuffersApart()
      reads this`sessions, sessions.Values`dataBuffer, sessions.Values`lineBuffer
    {
      && (forall a :: a in sessions ==> sessions[a].dataBuffer != sessions[a].lineBuffer)
      && forall a, b :: a in sessions && b in sessions && a != b ==>
           && sessions[a] != sessions[b]
           && {sessions[a].dataBuffer, sessions[a].lineBuffer} !! {sessions[b].dataBuffer, sessions[b].lineBuffer}
    }

    constructor (receiver: RdtReceiver.RdtReceiver, storage: Storage.StorageManager, users: Accounts,
        parses: string -> bool, headersRead: string -> bool, render: string -> Option<string>)
      requires storage.Valid()
      ensures Valid() && this.storage == storage && this.users == users && sessions == map[]
      ensures this.receiver == receiver && sent == [] && senders == {} && this.parses == parses
              && this.headersRead == headersRead && this.render == render
    {
      this.receiver, this.storage, this.users := receiver, storage, users;
      this.parses, this.headersRead, this.render := parses, headersRead, render;
      sessions, sent, senders := map[], [], {};
    }

    method SendReply(addr: Addr, r: Reply)
      requires !r.Bye?
      modifies this`sent, this`senders
      ensures Out() == Posts(old(Out()), addr, [r])
    {
      PostsOne(Out(), addr, r);
      hide Posts;
      senders := senders + {addr};
      sent := sent + [(addr, r)];
    }

    /** What a packet for a session that reads data does to the mailboxes: if the packet completes a message, that
        message is stored as its delivery says. */
    ghost predicate Kept(s: SmtpPackets.Session, data: string, fate: Fate, before: Disk, after: Disk, uid: string,
                         name: string) {
      var events := TakeData(s, users, Packet(data, fate)).events;
      if events == [] then before == after
      else
        && CanBe(events[0].message, fate)
        && StoredAs(before, after, Deliver(s.core, users, fate).saved, render(events[0].message), uid, name,
                    storage.fs.reliable)
    }

    /** How the delivery of a message can go: a reliable disk stores whatever can be rendered. */
    ghost predicate CanBe(message: string, fate: Fate) {
      && (fate.Unparsable? <==> !parses(message))
      && (fate.HeadersFail? <==> parses(message) && !headersRead(message))
      && (fate.NotSaved? && storage.fs.reliable ==> render(message).None?)
    }

    // -------------------------------------------------------------- command handlers

    method CmdMAIL(addr: Addr, session: Session, arg: string)
      modifies this`sent, this`senders, session`state, session`mailFrom
      ensures var e := MailFrom(old(session.Core()), arg);
              && session.Core() == e.core
              && Out() == Posts(old(Out()), addr, [e.reply])
    {
      if session.state != WaitForMailFrom && session.state != WaitForRcptTo {
        SendReply(addr, BadSequence);
        return;
      }
      if "FROM:" <= Upper(arg) {
        var parsed := ParseAngleAddr(Strip(arg[5..]));
        if parsed.Some? {
          session.mailFrom := parsed;
          session.state := WaitForRcptTo;
          SendReply(addr, Ok);
          return;
        }
      }
      SendReply(addr, MailSyntax);
    }

    method CmdRCPT(addr: Addr, session: Session, arg: string)
      modifies this`sent, this`senders, session`state, session`rcptTo
      ensures var e := RcptTo(old(session.Core()), arg);
              && session.Core() == e.core
              && Out() == Posts(old(Out()), addr, [e.reply])
    {
      if session.state != WaitForRcptTo {
        SendReply(addr, BadSequence);
        return;
      }
      if "TO:" <= Upper(arg) {
        var parsed := ParseAngleAddr(Strip(arg[3..]));
        if parsed.Some? {
          session.rcptTo := session.rcptTo + [parsed.value];
          session.state := WaitForDataCmd;
          SendReply(addr, Ok);
          return;
        }
      }
      SendReply(addr, RcptSyntax);
    }

    method CmdDATA(addr: Addr, session: Session)
      modifies this`sent, this`senders, session`state, session`dataBuffer, session`lineBuffer
      ensures var e := StartData(old(session.Core()));
              && session.Core() == e.core
              && Out() == Posts(old(Out()), addr, [e.reply])
      ensures Renewed(session, StartData(old(session.Core())).renew, old(session.dataBuffer), old(session.lineBuffer))
      ensures fresh({session.dataBuffer, session.lineBuffer} - {old(session.dataBuffer), old(session.lineBuffer)})
    {
      if session.state != WaitForDataCmd || session.rcptTo == [] {
        SendReply(addr, BadSequence);
        return;
      }
      session.state := ReadingDataStream;
      session.RenewBuffers();
      SendReply(addr, StartInput);
    }

    method CmdRSET(addr: Addr, session: Session)
      modifies this`sent, this`senders, session
      ensures session.Core() == NEW_CORE && Out() == Posts(old(Out()), addr, [Ok])
      ensures session.EmptyBuffers() && fresh(session.dataBuffer) && fresh(session.lineBuffer)
    {
      session.state, session.mailFrom, session.rcptTo := WaitForHelo, None, [];
      session.RenewBuffers();
      SendReply(addr, Ok);
    }

    /** The session and the sender are dropped, and the receiver expects the client to start over at 0. */
    method CmdQUIT(addr: Addr)
      modifies this`sent, this`senders, receiver`expectedSeqs, this`sessions
      ensures sessions == old(sessions) - {addr} && Out() == Posts(old(Out()), addr, [Bye])
    {
      PostsOne(Out(), addr, Bye);
      hide Posts;
      senders := senders + {addr};
      sent := sent + [(addr, Bye)];
      senders := senders - {addr};
      sessions := sessions - {addr};
      receiver.ResetState(addr);
    }

    method HandleLine(addr: Addr, session: Session, line: string)
      modifies this`sent, this`senders, receiver`expectedSeqs, this`sessions, session
      ensures var e := Dispatch(old(session.Core()), line);
              && session.Core() == e.core && Out() == Posts(old(Out()), addr, [e.reply])
              && sessions == (if e.quit then old(sessions) - {addr} else old(sessions))
              && Renewed(session, e.renew, old(session.dataBuffer), old(session.lineBuffer))
      ensures fresh({session.dataBuffer, session.lineBuffer} - {old(session.dataBuffer), old(session.lineBuffer)})
    {
      hide Parse, ParseAngleAddr, Strip, Upper;
      match Parse(line)
      case None => SendReply(addr, SyntaxError);
      case Some(command) =>
        match command.verb
        case Helo =>
          session.state := WaitForMailFrom;
          SendReply(addr, Hello);
        case Ehlo =>
          session.state := WaitForMailFrom;
          SendReply(addr, Hello);
        case Mail => CmdMAIL(addr, session, command.arg);
        case Rcpt => CmdRCPT(addr, session, command.arg);
        case Data => CmdDATA(addr, session);
        case Rset => CmdRSET(addr, session);
        case Noop => SendReply(addr, Ok);
        case Quit => CmdQUIT(addr);
        case Other => SendReply(addr, Unrecognized);
    }

    // -------------------------------------------------------------- packets

    /** Takes line after line off the buffer that the session had at the start, even after a line has given the
        session another one. */
    method HandleCommandStream(addr: Addr, session: Session, data: string)
      requires session.dataBuffer != session.lineBuffer
      modifies this`sent, this`senders, receiver`expectedSeqs, this`sessions, session, session.lineBuffer
      ensures var o := TakeCommands(old(session.Value()), data);
              && session.Value() == o.session && Out() == Posts(old(Out()), addr, o.replies)
              && sessions == (if o.quit then old(sessions) - {addr} else old(sessions))
      ensures session.dataBuffer != session.lineBuffer
      ensures fresh({session.dataBuffer, session.lineBuffer} - {old(session.dataBuffer), old(session.lineBuffer)})
    {
      hide CompleteLines, Rest, Find, RunLines, Dispatch, Posts;
      PostsNone(Out(), addr);
      var buf := session.lineBuffer;
      buf.bytes := buf.bytes + data;
      ghost var all, done := buf.bytes, [];
      ghost var core, dataBuffer := session.Core(), session.dataBuffer;
      ghost var ran := RunLines(core, done);
      NoLines(core);
      var idx := Find(buf.bytes, CRLF);
      while idx >= 0
        invariant idx == Find(buf.bytes, CRLF) && allocated(session.dataBuffer) && allocated(session.lineBuffer)
        invariant CompleteLines(all) == done + CompleteLines(buf.bytes) && Rest(all) == Rest(buf.bytes)
        invariant ran == RunLines(core, done) && session.Core() == ran.core
                  && Out() == Posts(old(Out()), addr, ran.replies)
        invariant sessions == if ran.quit then old(sessions) - {addr} else old(sessions)
        invariant Renewed(session, ran.renew, dataBuffer, buf) && dataBuffer.bytes == old(session.dataBuffer.bytes)
        invariant fresh({session.dataBuffer, session.lineBuffer} - {dataBuffer, buf})
        decreases |buf.bytes|
      {
        FirstLine(buf.bytes);
        var line := buf.bytes[..idx];
        buf.bytes := buf.bytes[idx + 2..];
        PostsConcat(old(Out()), addr, ran.replies, [Dispatch(ran.core, line).reply]);
        HandleLine(addr, session, line);
        OneMore(core, done, line);
        done := done + [line];
        ran := RunLines(core, done);
        idx := Find(buf.bytes, CRLF);
      }
      FirstLine(buf.bytes);
      assert done + [] == done;
    }

    /** Hands a message to the store.  uid stands for its Message-ID or a generated one. */
    method FinalizeMessage(addr: Addr, session: Session, message: string, uid: string, name: string)
      returns (ghost fate: Fate)
      requires Valid() && forall u :: (u, name) !in storage.fs.intended
      modifies this`sent, this`senders, session`rcptTo, storage`locks, storage.locks.Values, storage.fs
      ensures Valid() && fresh(storage.locks.Values - old(storage.locks.Values))
      ensures var d := Deliver(old(session.Core()).(state := WaitForMailFrom), users, fate);
              && session.Core().(state := WaitForMailFrom) == d.core && Out() == Posts(old(Out()), addr, [d.reply])
              && StoredAs(old(storage.fs.disk), storage.fs.disk, d.saved, render(message), uid, name,
                          storage.fs.reliable)
      ensures CanBe(message, fate)
      ensures forall local, domain ::
                old(session.rcptTo) != [] && IsAddress(old(session.rcptTo)[0], local, domain) ==>
                  Reaches(Lower(local), message, fate, old(Out()), addr, old(storage.fs.disk), uid, name)
    {
      hide SmtpServer.Valid;
      hide Posts, StoredAs, UserOf;
      var reply;
      ghost var out, disk, core := Out(), storage.fs.disk, session.Core().(state := WaitForMailFrom);
      reply, fate := Finalize(session, message, uid, name);
      SendReply(addr, reply);
      if reply.Accepted? {
        session.rcptTo := [];
      }
      forall local, domain | core.rcptTo != [] && IsAddress(core.rcptTo[0], local, domain)
        ensures Reaches(Lower(local), message, fate, out, addr, disk, uid, name)
      {
        UserIsLocalPart(core.rcptTo[0], local, domain);
        DeliversTo(core, Lower(local), message, fate, out, addr, disk, uid, name);
      }
    }

    /** A message for this user: without an account it is refused; with one it is accepted if nothing in the e-mail
        library or on the disk fails, and then it is a new file of the user's mailbox, which on a reliable disk is
        entered last, with its size; and otherwise no mailbox has changed. */
    ghost predicate Reaches(user: string, message: string, fate: Fate, out: Posted<Reply>, addr: Addr, before: Disk,
                            uid: string, name: string)
      reads this`sent, this`senders, receiver`expectedSeqs, storage.fs
    {
      var after := storage.fs.disk;
      if user in users && fate.Saved? then
        && Out() == Posts(out, addr, [Accepted]) && render(message).Some?
        && BoxOf(after, user).files == BoxOf(before, user).files[name := render(message).value]
        && (forall u :: u != user ==> BoxOf(after, u) == BoxOf(before, u))
        && (storage.fs.reliable ==>
              MetaOf(BoxOf(after, user))
              == MetaOf(BoxOf(before, user)) + [Entry(name, uid, Octets(render(message).value), false)])
      else
        && (Out() == Posts(out, addr, [Unprocessed]) || Out() == Posts(out, addr, [NoSuchUser])
            || Out() == Posts(out, addr, [NotStored]))
        && (parses(message) && user !in users ==> Out() == Posts(out, addr, [NoSuchUser]))
        && forall u :: BoxOf(after, u).files == BoxOf(before, u).files && BoxOf(after, u).meta == BoxOf(before, u).meta
    }

    lemma DeliversTo(c: Core, user: string, message: string, fate: Fate, out: Posted<Reply>, addr: Addr, before: Disk,
        uid: string, name: string)
      requires c.rcptTo != [] && UserOf(c.rcptTo[0]) == user && CanBe(message, fate)
      requires var d := Deliver(c, users, fate);
               && Out() == Posts(out, addr, [d.reply])
               && StoredAs(before, storage.fs.disk, d.saved, render(message), uid, name, storage.fs.reliable)
      ensures Reaches(user, message, fate, out, addr, before, uid, name)
    {
      hide UserOf, Posts, BoxOf, Octets;
    }

    method Finalize(session: Session, message: string, uid: string, name: string)
      returns (reply: Reply, ghost fate: Fate)
      requires Valid() && forall u :: (u, name) !in storage.fs.intended
      modifies storage`locks, storage.locks.Values, storage.fs
      ensures Valid() && fresh(storage.locks.Values - old(storage.locks.Values))
      ensures var d := Deliver(session.Core().(state := WaitForMailFrom), users, fate);
              && reply == d.reply
              && StoredAs(old(storage.fs.disk), storage.fs.disk, d.saved, render(message), uid, name,
                          storage.fs.reliable)
      ensures CanBe(message, fate)
    {
      hide SmtpServer.Valid;
      hide UserOf, StoredAs;
      SameDisk(storage.fs.disk, render(message), uid, name, storage.fs.reliable);
      fate := if !parses(message) then Unparsable else if !headersRead(message) then HeadersFail else Saved;
      if !parses(message) {
        return Unprocessed, fate;
      }
      if session.rcptTo == [] {
        return NoRecipients, fate;
      }
      var user := UserOf(session.rcptTo[0]);
      if user !in users {
        return NoSuchUser, fate;
      }
      if !headersRead(message) {
        return Unprocessed, fate;
      }
      var saved := Save(user, message, uid, name);
      if saved {
        return Accepted, fate;
      }
      return NotStored, NotSaved;
    }

    method Save(user: string, message: string, uid: string, name: string) returns (saved: bool)
      requires Valid() && forall u :: (u, name) !in storage.fs.intended
      modifies storage`locks, storage.locks.Values, storage.fs
      ensures Valid() && fresh(storage.locks.Values - old(storage.locks.Values))
      ensures storage.fs.reliable && render(message).Some? ==> saved
      ensures StoredAs(old(storage.fs.disk), storage.fs.disk,
                       if saved then Some(user) else None, render(message), uid, name, storage.fs.reliable)
    {
      hide OnlyMeta, BoxOf, MailboxWriter.Entered;
      var result;
      saved, result := storage.SaveEmail(user, render(message), uid, name);
    }

    method EndOfData(session: Session)
      requires Valid()
      modifies session`state, session`dataBuffer, session`lineBuffer
      ensures Valid() && session.EmptyBuffers() && fresh(session.dataBuffer) && fresh(session.lineBuffer)
      ensures session.Core() == old(session.Core()).(state := WaitForMailFrom)
    {
      session.RenewBuffers();
      session.state := WaitForMailFrom;
    }

    method HandleDataStream(addr: Addr, session: Session, data: string, uid: string, name: string)
      returns (ghost fate: Fate)
      requires Valid() && session.dataBuffer != session.lineBuffer && forall u :: (u, name) !in storage.fs.intended
      modifies this`sent, this`senders, session, session.dataBuffer, storage`locks, storage.locks.Values, storage.fs
      ensures var o := TakeData(old(session.Value()), users, Packet(data, fate));
              && !o.quit && session.Value() == o.session && Out() == Posts(old(Out()), addr, o.replies)
              && Kept(old(session.Value()), data, fate, old(storage.fs.disk), storage.fs.disk, uid, name)
      ensures Valid() && session.dataBuffer != session.lineBuffer
              && fresh(storage.locks.Values - old(storage.locks.Values))
      ensures fresh({session.dataBuffer, session.lineBuffer} - {old(session.dataBuffer), old(session.lineBuffer)})
    {
      hide SmtpServer.Valid;
      hide Find, Deliver, StoredAs, Posts;
      AnyStateDelivers(session.Core(), users);
      PostsNone(Out(), addr);
      fate := Saved;
      session.dataBuffer.bytes := session.dataBuffer.bytes + data;
      var full := session.dataBuffer.bytes;
      var idx := Find(full, TERMINATOR);
      if idx < 0 {
        return;
      }
      FindFirst(full, TERMINATOR);
      var message := full[..idx];
      EndOfData(session);
      fate := FinalizeMessage(addr, session, message, uid, name);
    }

    method Open(addr: Addr) returns (session: Session, ghost greeting: seq<Reply>)
      requires Valid()
      modifies this`sent, this`senders, this`sessions
      ensures Valid() && addr in sessions && sessions[addr] == session
      ensures Out() == Posts(old(Out()), addr, greeting)
              && greeting == (if addr in old(sessions) then [] else [Welcome])
      ensures SameBut(old(sessions), sessions, addr) && (addr in old(sessions) ==> session == old(sessions[addr]))
      ensures addr !in old(sessions) ==>
                && fresh(session) && fresh(session.dataBuffer) && fresh(session.lineBuffer)
                && session.Value() == SmtpPackets.NEW_SESSION
    {
      PostsNone(Out(), addr);
      greeting := [];
      if addr !in sessions {
        greeting := [Welcome];
        session := new Session();
        sessions := sessions[addr := session];
        SendReply(addr, Welcome);
      }
      session := sessions[addr];
    }

    ghost predicate Has(addr: Addr, session: Option<Session>)
      reads this`sessions
    {
      session == if addr in sessions then Some(sessions[addr]) else None
    }

    /** A packet had its effect on a session, on what is sent, and on the sessions kept. */
    ghost predicate Took(addr: Addr, session: Session, before: SmtpPackets.Session, posted: Posted<Reply>,
        kept: map<Addr, Session>, p: Packet)
      reads this`sent, this`senders, this`sessions, receiver`expectedSeqs
      reads session, session.dataBuffer, session.lineBuffer
    {
      var o := Take(before, users, p);
      && session.Value() == o.session && Out() == Posts(posted, addr, o.replies)
      && SameBut(kept, sessions, addr) && Has(addr, if o.quit then None else Some(session))
    }

    /** The client's session, if it has one. */
    ghost function Current(addr: Addr): Option<SmtpPackets.Session>
      reads this`sessions
      reads if addr in sessions then {sessions[addr], sessions[addr].dataBuffer, sessions[addr].lineBuffer} else {}
    {
      if addr in sessions then Some(sessions[addr].Value()) else None
    }

    /** What a packet does to the mailboxes, by the session that takes it in. */
    ghost predicate Leaves(s: Option<SmtpPackets.Session>, data: string, fate: Fate, before: Disk, after: Disk,
        uid: string, name: string)
    {
      if s.Some? && s.value.core.state.ReadingDataStream? then Kept(s.value, data, fate, before, after, uid, name)
      else after == before
    }

    lemma BuffersDiffer(addr: Addr)
      requires Valid() && addr in sessions
      ensures sessions[addr].dataBuffer != sessions[addr].lineBuffer
    {
    }

    method ProcessPacket(addr: Addr, session: Session, data: string, uid: string, name: string)
      returns (ghost fate: Fate)
      requires Valid() && addr in sessions && sessions[addr] == session && forall u :: (u, name) !in storage.fs.intended
      modifies this`sent, this`senders, receiver`expectedSeqs, this`sessions
      modifies session, session.dataBuffer, session.lineBuffer
      modifies storage`locks, storage.locks.Values, storage.fs
      ensures Valid() && fresh(storage.locks.Values - old(storage.locks.Values))
      ensures Took(addr, session, old(session.Value()), old(Out()), old(sessions), Packet(data, fate))
      ensures Leaves(Some(old(session.Value())), data, fate, old(storage.fs.disk), storage.fs.disk, uid, name)
    {
      BuffersDiffer(addr);
      hide SmtpServer.Valid, SmtpServer.Leaves, SmtpServer.Took, SmtpServer.Out;
      hide Session.Value;
      fate := Saved;
      if session.state == ReadingDataStream {
        fate := HandleData(addr, session, data, uid, name);
      } else {
        HandleCommands(addr, session, data, fate, uid, name);
      }
    }

    method HandleData(addr: Addr, session: Session, data: string, uid: string, name: string) returns (ghost fate: Fate)
      requires Valid() && addr in sessions && sessions[addr] == session && forall u :: (u, name) !in storage.fs.intended
      requires session.state == ReadingDataStream && session.dataBuffer != session.lineBuffer
      modifies this`sent, this`senders, session, session.dataBuffer, storage`locks, storage.locks.Values, storage.fs
      ensures Valid() && fresh(storage.locks.Values - old(storage.locks.Values))
      ensures Took(addr, session, old(session.Value()), old(Out()), old(sessions), Packet(data, fate))
      ensures Leaves(Some(old(session.Value())), data, fate, old(storage.fs.disk), storage.fs.disk, uid, name)
    {
      hide SmtpServer.Valid, SmtpServer.Kept;
      hide TakeData, Posts;
      fate := HandleDataStream(addr, session, data, uid, name);
    }

    method HandleCommands(addr: Addr, session: Session, data: string, ghost fate: Fate, ghost uid: string,
                          ghost name: string)
      requires Valid() && addr in sessions && sessions[addr] == session
      requires session.state != ReadingDataStream && session.dataBuffer != session.lineBuffer
      modifies this`sent, this`senders, receiver`expectedSeqs, this`sessions, session, session.lineBuffer
      ensures Valid()
      ensures Took(addr, session, old(session.Value()), old(Out()), old(sessions), Packet(data, fate))
      ensures Leaves(Some(old(session.Value())), data, fate, storage.fs.disk, storage.fs.disk, uid, name)
    {
      CommandsLeave(session.Value(), data, fate, storage.fs.disk, uid, name);
      hide SmtpServer.BuffersApart, SmtpServer.Took, SmtpServer.Out, SmtpServer.Leaves;
      TakeLines(addr, session, data, fate);
    }

    /** Command lines leave the mailboxes alone. */
    lemma CommandsLeave(s: SmtpPackets.Session, data: string, fate: Fate, disk: Disk, uid: string, name: string)
      requires s.core.state != ReadingDataStream
      ensures Leaves(Some(s), data, fate, disk, disk, uid, name)
    {
    }

    method TakeLines(addr: Addr, session: Session, data: string, ghost fate: Fate)
      requires BuffersApart() && addr in sessions && sessions[addr] == session
      requires session.state != ReadingDataStream && session.dataBuffer != session.lineBuffer
      modifies this`sent, this`senders, receiver`expectedSeqs, this`sessions, session, session.lineBuffer
      ensures BuffersApart()
      ensures Took(addr, session, old(session.Value()), old(Out()), old(sessions), Packet(data, fate))
    {
      hide SmtpServer.Took, SmtpServer.Out, Session.Value;
      RunCommands(addr, session, data, fate);
    }

    method RunCommands(addr: Addr, session: Session, data: string, ghost fate: Fate)
      requires addr in sessions && sessions[addr] == session
      requires session.state != ReadingDataStream && session.dataBuffer != session.lineBuffer
      modifies this`sent, this`senders, receiver`expectedSeqs, this`sessions, session, session.lineBuffer
      ensures Took(addr, session, old(session.Value()), old(Out()), old(sessions), Packet(data, fate))
      ensures sessions == old(sessions) || sessions == old(sessions) - {addr}
      ensures session.dataBuffer != session.lineBuffer
      ensures fresh({session.dataBuffer, session.lineBuffer} - {old(session.dataBuffer), old(session.lineBuffer)})
    {
      hide TakeCommands, Posts;
      HandleCommandStream(addr, session, data);
    }

    /** One round of the serving loop, packets of one client coming one at a time: the client gets a greeting if it has
        no session, and then its replies.  Nobody else's session or buffers change, and only a packet that completes a
        message touches the mailboxes. */
    method ServePacket(addr: Addr, data: string, uid: string, name: string) returns (ghost fate: Fate)
      requires Valid() && forall u :: (u, name) !in storage.fs.intended
      modifies this`sent, this`senders, receiver`expectedSeqs, this`sessions,
               if addr in sessions then {sessions[addr]} else {}
      modifies if addr in sessions then {sessions[addr].dataBuffer, sessions[addr].lineBuffer} else {}
      modifies storage`locks, storage.locks.Values, storage.fs
      ensures Valid() && fresh(storage.locks.Values - old(storage.locks.Values))
      ensures var c := Serve(old(Current(addr)), users, Packet(data, fate));
              && SameBut(old(sessions), sessions, addr) && Current(addr) == c.session
              && Out() == Posts(old(Out()), addr, c.replies)
      ensures Leaves(old(Current(addr)), data, fate, old(storage.fs.disk), storage.fs.disk, uid, name)
    {
      hide SmtpServer.Valid, SmtpServer.Kept;
      hide Take, Posts, SameBut;
      ghost var greeting;
      var session;
      session, greeting := Open(addr);
      ghost var start, between := session.Value(), sessions;
      fate := ProcessPacket(addr, session, data, uid, name);
      SameButTwice(old(sessions), between, sessions, addr);
      PostsConcat(old(Out()), addr, greeting, Take(start, users, Packet(data, fate)).replies);
    }
  }

  lemma AnyStateDelivers(c: Core, users: Accounts)
    ensures forall fate :: Deliver(c.(state := WaitForMailFrom), users, fate) == Deliver(c, users, fate)
  {
    hide UserOf;
  }

  lemma NoLines(c: Core)
    ensures RunLines(c, []) == Ran(c, [], false, false)
  {
  }

  lemma OneMore(c: Core, lines: seq<string>, line: string)
    ensures var ran := RunLines(c, lines);
            var e := Dispatch(ran.core, line);
            RunLines(c, lines + [line])
              == Ran(e.core, ran.replies + [e.reply], ran.renew || e.renew, ran.quit || e.quit)
  {
    assert (lines + [line])[..|lines|] == lines;
  }
}
