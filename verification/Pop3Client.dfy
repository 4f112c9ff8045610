/** pop3_client.py: one user draining the mailbox. */
module Pop3Client {
  import opened Wrappers
  import opened Text
  import opened Mailbox
  import opened MailboxReader
  import opened Pop3Session
  import opened Pop3Runs
  import opened Pop3Server
  import opened Pop3FarEnd

  datatype Outcome = Returned(emails: seq<string>) | Waiting

  /** Each email is the stored text of one message, stripped. */
  ghost predicate AreTexts(emails: seq<string>, items: seq<Item>, files: Texts) {
    && |emails| == |items|
    && forall i :: 0 <= i < |items| ==> items[i].name in files && emails[i] == Strip(files[items[i].name])
  }

  function TextOf(files: Texts, item: Item): string {
    if item.name in files then files[item.name] else ""
  }

  /** How many messages come before the first that RETR cannot carry. */
  function GoodOnes(files: Texts, items: seq<Item>): (n: nat)
    ensures n <= |items| && forall i :: 0 <= i < n ==> Good(TextOf(files, items[i]))
    ensures n < |items| ==> !Good(TextOf(files, items[n]))
  {
    if items == [] || !Good(TextOf(files, items[0])) then 0
    else
      assert forall i :: 0 < i < |items| ==> items[i] == items[1..][i - 1];
      1 + GoodOnes(files, items[1..])
  }

  function Join(lines: seq<string>, separator: string): string {
    if lines == [] then ""
    else if |lines| == 1 then lines[0]
    else lines[0] + separator + Join(lines[1..], separator)
  }

  /** Each line but the first is preceded by the separator. */
  lemma {:induction false} JoinLaw(lines: seq<string>, separator: string, line: string)
    ensures Join([], separator) == "" && Join([line], separator) == line
    ensures lines != [] ==> Join(lines + [line], separator) == Join(lines, separator) + separator + line
    decreases |lines|
  {
    if |lines| > 1 {
      assert (lines + [line])[1..] == lines[1..] + [line];
      JoinLaw(lines[1..], separator, line);
    } else if |lines| == 1 {
      assert (lines + [line])[1..] == [line];
    }
  }

  /** The numbers and sizes of the messages not marked, as LIST gives them. */
  function Numbered(items: seq<Item>, marked: set<int>, first: int): seq<(int, nat)> {
    if items == [] then []
    else (if first in marked then [] else [(first, items[0].size)]) + Numbered(items[1..], marked, first + 1)
  }

  /** What RETR would read: None if the number is refused or nothing can be read. */
  function Content(s: Pop3Session.Session, seen: Seen, n: int): Option<string> {
    if s.state.Transaction? && Pop3Session.Valid(n, seen.items, s.marked) then
      seen.texts(seen.items[n - 1].name)
    else None
  }

  /** How RETR ends for the client: refused; waiting for a dot that never comes; or with a text, and with the dot left
      over if the text itself was taken for it. */
  ghost predicate Retrieves(content: Option<string>, st: Status, text: string, inbox: seq<Reply>) {
    if content.None? || content.value == "" then st.Raised? && inbox == []
    else if !IsAscii(content.value) then st.Stuck?
    else if Strip(content.value) == "." then st.Done? && text == "" && inbox == [Dot]
    else st.Done? && text == Strip(content.value) && inbox == []
  }

  lemma AlwaysAnswers(s: Pop3Session.Session, users: Users, seen: Seen, c: Command)
    ensures Replies(s, users, seen.items, seen.texts, c) != []
  {
  }

  lemma RetrReplies(s: Pop3Session.Session, users: Users, seen: Seen, n: int)
    ensures var replies := Replies(s, users, seen.items, seen.texts, Retr(Number(n)));
            if Content(s, seen, n).Some? then replies == Retrieved(Content(s, seen, n))
            else |replies| == 1 && !replies[0].IsPositive()
  {
    assert Retrieved(None) == [Err("could not retrieve message")];
    hide Retrieved;
  }

  class Pop3Client {
    const server: ServerEnd
    var isConnected: bool

    constructor (server: ServerEnd)
      ensures this.server == server && !isConnected
    {
      this.server := server;
      isConnected := false;
    }

    /** The next reply. */
    method GetReply() returns (st: Status, r: Reply)
      modifies server`inbox
      ensures st == if old(server.inbox) == [] then Stuck else Done
      ensures old(server.inbox) == [] ==> server.inbox == []
      ensures old(server.inbox) != [] ==> r == old(server.inbox)[0] && server.inbox == old(server.inbox)[1..]
    {
      if server.inbox == [] {
        return Stuck, Dot;
      }
      st, r := Done, server.inbox[0];
      server.inbox := server.inbox[1..];
    }

    /** A command and the next reply, which is there. */
    method Ask(c: Command) returns (r: Reply, ghost seen: Seen)
      requires server.Valid() && server.run.mode.Open? && !server.dead
      modifies server`run, server`files, server`inbox
      ensures server.Valid() && server.run.mode.Open? && server.Finds(seen)
      ensures Grown(old(server.run), old(server.files), server.run, server.files)
      ensures server.run.session == After(old(server.run.session), server.users, seen.items, c)
      ensures var replies := Replies(old(server.run.session), server.users, seen.items, seen.texts, c);
              && replies != []
              && (old(server.inbox) == [] ==> r == replies[0] && server.inbox == replies[1..])
              && (old(server.inbox) != []
                  ==> r == old(server.inbox)[0] && server.inbox == old(server.inbox)[1..] + replies)
    {
      hide ServerEnd.Valid, ServerEnd.Finds;
      hide After, Replies, Grown;
      ghost var s := server.run.session;
      seen := server.Serve(c);
      AlwaysAnswers(s, server.users, seen, c);
      var st;
      st, r := GetReply();
    }

    method Connect() returns (st: Status)
      requires server.Valid() && !server.run.mode.Closing? && server.inbox == []
      modifies this, server`run, server`inbox, server`prior
      ensures st.Done? ==> server.prior == old(server.Ever())
      ensures server.Valid() && server.inbox == [] && server.run.meta == old(server.run.meta)
      ensures st == if server.dead then Stuck else Done
      ensures st.Stuck? ==> server.run == old(server.run) && server.prior == old(server.prior)
      ensures st.Done? ==> Opened(server.run) && isConnected
    {
      if server.dead {
        return Stuck;
      }
      server.Greet();
      var reply;
      st, reply := GetReply();
      isConnected := true;
    }

    /** USER and PASS: only right credentials open the mailbox, and wrong ones leave the session without a user. */
    method Authenticate(user: string, password: string) returns (st: Status)
      requires server.Valid() && server.run.mode.Open? && !server.dead && server.inbox == []
      modifies server`run, server`files, server`inbox
      ensures server.Valid() && server.run.mode.Open? && server.inbox == []
      ensures Grown(old(server.run), old(server.files), server.run, server.files)
      ensures var s, s' := old(server.run.session), server.run.session;
              && s'.marked == s.marked && !st.Stuck?
              && (st.Done? <==> s.state.Authorization? && user != "" && Lower(user) in server.users
                                && server.users[Lower(user)] == password)
              && (st.Done? ==> s'.state.Transaction? && s'.user == Some(user))
              && (st.Raised? ==> s'.state == s.state && (HasOwner(s') ==> HasOwner(s) && s' == s))
    {
      hide ServerEnd.Valid, ServerEnd.Finds;
      hide Lower;
      ghost var seen;
      var reply;
      reply, seen := Ask(User(Some(user)));
      if !reply.IsPositive() {
        return Raised;
      }
      reply, seen := Ask(Pass(Some(password)));
      st := if reply.IsPositive() then Done else Raised;
    }

    method Stat() returns (st: Status, count: nat, total: nat, ghost items: seq<Item>)
      requires server.Valid() && server.run.mode.Open? && !server.dead && server.inbox == []
      modifies server`run, server`files, server`inbox
      ensures server.Valid() && server.run.mode.Open? && server.inbox == []
      ensures Grown(old(server.run), old(server.files), server.run, server.files)
      ensures server.run.session == old(server.run.session)
      ensures items == Seq(server.run) || (!server.reliable && items == [])
      ensures st == if server.run.session.state.Transaction? then Done else Raised
      ensures var kept := Kept(items, server.run.session.marked, 1);
              st.Done? ==> count == |kept| && total == Total(kept)
    {
      hide ServerEnd.Valid;
      hide Total, Kept;
      var reply;
      ghost var seen;
      reply, seen := Ask(Command.Stat);
      items, count, total := seen.items, 0, 0;
      match reply {
        case OkStat(n, size) => st, count, total := Done, n, size;
        case _ => st := Raised;
      }
    }

    method List() returns (st: Status, messages: seq<(int, nat)>, ghost items: seq<Item>)
      requires server.Valid() && server.run.mode.Open? && !server.dead && server.inbox == []
      modifies server`run, server`files, server`inbox
      ensures server.Valid() && server.run.mode.Open? && server.inbox == []
      ensures Grown(old(server.run), old(server.files), server.run, server.files)
      ensures server.run.session == old(server.run.session)
      ensures items == Seq(server.run) || (!server.reliable && items == [])
      ensures st == if server.run.session.state.Transaction? then Done else Raised
      ensures st.Done? ==> messages == Numbered(items, server.run.session.marked, 1)
    {
      hide ServerEnd.Valid;
      hide Scans, Numbered;
      var reply;
      ghost var seen;
      reply, seen := Ask(Command.List(NoArg));
      items, messages := seen.items, [];
      if !reply.IsPositive() {
        return Raised, messages, items;
      }
      messages := ReadScanListing(items, server.run.session.marked);
      st := Done;
    }

    method ReadScanListing(ghost items: seq<Item>, ghost marked: set<int>) returns (messages: seq<(int, nat)>)
      requires server.inbox == Scans(items, marked, 1) + [Dot]
      modifies server`inbox
      ensures server.inbox == [] && messages == Numbered(items, marked, 1)
    {
      messages := [];
      ghost var left := Scans(items, marked, 1);
      ScansNumber(items, marked, 1);
      while true
        invariant server.inbox == left + [Dot] && Numbers(Scans(items, marked, 1)) == messages + Numbers(left)
        invariant forall r :: r in left ==> r.Scan?
        decreases |left|
      {
        var st, line := GetReply();
        match line {
          case Dot => break;
          case Scan(n, size) =>
            messages := messages + [(n, size)];
            left := left[1..];
        }
      }
      assert left == [];
    }

    /** The text of message n. */
    method Retr(n: int) returns (st: Status, text: string, ghost seen: Seen)
      requires server.Valid() && server.run.mode.Open? && !server.dead && server.inbox == []
      modifies server`run, server`files, server`inbox
      ensures server.Valid() && server.run.mode.Open? && server.Finds(seen)
      ensures Grown(old(server.run), old(server.files), server.run, server.files)
      ensures server.run.session == old(server.run.session)
      ensures Retrieves(Content(server.run.session, seen, n), st, text, server.inbox)
    {
      hide ServerEnd.Valid, ServerEnd.Finds;
      hide Replies, Content, IsAscii, Strip;
      var reply;
      reply, seen := Ask(Command.Retr(Number(n)));
      RetrReplies(server.run.session, server.users, seen, n);
      text := "";
      if !reply.IsPositive() {
        return Raised, text, seen;
      }
      st, text := ReadBody(Content(server.run.session, seen, n).value);
    }

    method ReadBody(ghost content: string) returns (st: Status, joined: string)
      requires content != "" && server.inbox == Retrieved(Some(content))[1..]
      modifies server`inbox
      ensures Retrieves(Some(content), st, joined, server.inbox)
    {
      hide IsAscii, Strip;
      var lines := [];
      joined := "";
      while true
        invariant if !IsAscii(content) then server.inbox == (if lines == [] then [INVALID] else [])
                  else if Strip(content) == "." then lines == [] && server.inbox == [Body(content), Dot]
                  else if lines == [] then server.inbox == [Body(content), Dot]
                  else lines == [Strip(content)] && server.inbox == [Dot]
        decreases |server.inbox|
      {
        var line;
        st, line := GetReply();
        if st.Stuck? {
          return;
        }
        if line == Dot || (line.Body? && Strip(line.text) == ".") {
          break;
        }
        lines := lines + [LineOf(line)];
      }
      joined := Join(lines, "\n");
    }

    /** The number is marked if DELE is answered so; the reply read is the next one, whatever it answers. */
    method Dele(n: int) returns (st: Status, ghost seen: Seen)
      requires server.Valid() && server.run.mode.Open? && !server.dead
      modifies server`run, server`files, server`inbox
      ensures server.Valid() && server.run.mode.Open? && server.Finds(seen)
      ensures Grown(old(server.run), old(server.files), server.run, server.files)
      ensures var c := Command.Dele(Number(n));
              var replies := Replies(old(server.run.session), server.users, seen.items, seen.texts, c);
              && server.run.session == After(old(server.run.session), server.users, seen.items, c)
              && st == (if (old(server.inbox) + replies)[0].IsPositive() then Done else Raised)
              && server.inbox == (old(server.inbox) + replies)[1..]
    {
      hide ServerEnd.Valid, ServerEnd.Finds;
      hide Replies, After;
      var reply;
      reply, seen := Ask(Command.Dele(Number(n)));
      st := if reply.IsPositive() then Done else Raised;
    }

    /** The reply to QUIT is read, whatever it is. */
    method Quit() returns (st: Status)
      requires server.Valid() && (isConnected ==> server.run.mode.Open? && !server.dead)
      modifies this, server`run, server`files, server`inbox, server`dead
      ensures server.Valid() && Grown(old(server.run), old(server.files), server.run, server.files)
      ensures server.run.session == old(server.run.session) && !st.Raised?
      ensures if !old(isConnected) then st.Done? && server.run == old(server.run) && server.dead == old(server.dead)
              else if server.dead then !HasOwner(server.run.session) && server.run.mode.Open?
              else HasOwner(server.run.session) && server.run.mode.Closed? && st.Done? && !isConnected
      ensures old(isConnected) && server.dead && old(server.inbox) == [] ==> st.Stuck?
    {
      hide ServerEnd.Valid, Inv;
      st := Done;
      if isConnected {
        server.SignOff();
        var reply;
        st, reply := GetReply();
        if st.Done? {
          isConnected := false;
        }
      }
    }

    /** One round of the loop of get_all_messages: fetch a message and mark it. */
    method FetchOne(n: int, ghost i: nat) returns (st: Status, text: string)
      requires server.Valid() && server.run.mode.Open? && !server.dead && server.inbox == []
      requires server.run.session.state.Transaction? && server.run.session.marked == UpTo(i)
      requires n == i + 1 <= |Seq(server.run)|
      modifies server`run, server`files, server`inbox
      ensures server.Valid() && server.run.mode.Open?
      ensures Grown(old(server.run), old(server.files), server.run, server.files)
      ensures exists k: nat ::
                && server.run.session == old(server.run.session).(marked := UpTo(k))
                && Round(server, i, k, st, text)
    {
      hide ServerEnd.Valid, IsAscii, Strip, Lower, Retrieved;
      ghost var seen;
      st, text, seen := Retr(n);
      ghost var run1, files1, item := server.run, server.files, Seq(server.run)[i];
      ghost var content := Content(run1.session, seen, n);
      ReadsTheText(server, i, seen);
      if st.Done? {
        st, seen := Dele(n);
        SameItem(run1, files1, server.run, server.files, i);
        Marks(server, run1.session, i, seen);
      }
    }

    /** The loop of get_all_messages: message after message is fetched and marked, until an error reply. */
    method FetchAll(messages: seq<(int, nat)>, ghost items: seq<Item>)
        returns (st: Status, emails: seq<string>, ghost k: nat)
      requires server.Valid() && server.run.mode.Open? && !server.dead && server.inbox == []
      requires server.run.session.state.Transaction? && server.run.session.marked == {}
      requires items <= Seq(server.run) && messages == Numbered(items, {}, 1)
      modifies server`run, server`files, server`inbox
      ensures server.Valid() && server.run.mode.Open? && k <= |items|
      ensures Grown(old(server.run), old(server.files), server.run, server.files)
      ensures server.run.session == old(server.run.session).(marked := UpTo(k))
      ensures st.Done? ==> k == |items| && AreTexts(emails, Seq(server.run)[..k], server.files) && server.inbox == []
      ensures server.reliable ==> EndsAt(server.files, items, st, k)
    {
      hide ServerEnd.Valid, IsAscii, Strip, Good, GoodOnes, EndsAt, Numbered;
      NumberedPlain(items, 1);
      emails, st, k := [], Done, 0;
      ghost var s := server.run.session;
      for i := 0 to |messages|
        invariant server.Valid() && server.run.mode.Open? && server.inbox == [] && k == i && st.Done?
        invariant Grown(old(server.run), old(server.files), server.run, server.files)
        invariant server.run.session == s.(marked := UpTo(i))
        invariant items <= Seq(server.run) && AreTexts(emails, Seq(server.run)[..i], server.files)
        invariant server.reliable ==> AllGood(server.files, items, i)
      {
        ghost var run, files := server.run, server.files;
        var text;
        st, text := FetchOne(messages[i].0, i);
        k :| server.run.session == run.session.(marked := UpTo(k)) && Round(server, i, k, st, text);
        AfterRound(server, run, files, items, emails, i, k, st, text);
        if !st.Done? {
          return;
        }
        emails := emails + [text];
      }
      if server.reliable {
        AllFetched(server.files, items);
      }
    }

    /** STAT, LIST and the loop; listed is the listing that the outcome goes by. */
    method Collect() returns (st: Status, emails: seq<string>, ghost k: nat, ghost listed: seq<Item>)
      requires server.Valid() && server.run.mode.Open? && !server.dead && server.inbox == []
      requires server.run.session.state.Transaction? && server.run.session.marked == {}
      modifies server`run, server`files, server`inbox
      ensures server.Valid() && server.run.mode.Open? && k <= |Seq(server.run)|
      ensures Grown(old(server.run), old(server.files), server.run, server.files)
      ensures server.run.session == old(server.run.session).(marked := UpTo(k))
      ensures st.Done? ==> AreTexts(emails, Seq(server.run)[..k], server.files) && server.inbox == []
      ensures server.reliable ==>
                && Seq(old(server.run)) <= listed <= Seq(server.run) && Decided(server.files, listed, st, k)
                && forall i :: 0 <= i < |listed| ==> listed[i].name in server.files
    {
      hide ServerEnd.Valid, Total, Kept, AreTexts, EndsAt, Decided, Listing;
      ghost var start := server.run;
      var count, total;
      st, count, total, listed := Stat();
      emails, k := [], 0;
      KeptAfter(listed, 0, 1);
      if server.reliable {
        PrefixOfSeq(start, server.run);
      }
      if total == 0 {
        AllHaveText(server);
        NoTexts(server.files);
        assert Seq(server.run)[..0] == [];
        if server.reliable {
          NothingOfSize(server, listed);
        }
        return;
      }
      var messages;
      st, messages, listed := List();
      ghost var run := server.run;
      st, emails, k := FetchAll(messages, listed);
      PrefixOfSeq(start, run);
      PrefixOfSeq(run, server.run);
      AllHaveText(server);
      if server.reliable {
        DecidedAt(server.files, listed, st, k);
      }
    }

    /** The try block of get_all_messages, on a server that is alive. */
    method TryAll(user: string, password: string)
      returns (st: Status, emails: seq<string>, ghost k: nat, ghost listed: seq<Item>)
      requires server.Valid() && !server.run.mode.Closing? && server.inbox == [] && !server.dead
      modifies this, server`run, server`files, server`inbox, server`prior
      ensures server.Valid() && server.run.mode.Open? && server.prior == old(server.Ever()) && isConnected
      ensures server.run.base == Listing(old(server.run.meta)) && k <= |Seq(server.run)|
      ensures Grows(old(server.files), server.files) && (k > 0 ==> HasOwner(server.run.session))
      ensures server.run.session.marked == UpTo(k)
      ensures st.Done? ==> AreTexts(emails, Seq(server.run)[..k], server.files)
      ensures if !Login(server.users, user, password)
              then st.Raised? && server.inbox == [] && !HasOwner(server.run.session) && k == 0
              else HasOwner(server.run.session)
      ensures Login(server.users, user, password) && server.reliable ==>
                && Listing(old(server.run.meta)) <= listed <= Seq(server.run) && Decided(server.files, listed, st, k)
                && forall i :: 0 <= i < |listed| ==> listed[i].name in server.files
    {
      hide ServerEnd.Valid, Inv, Lower, Decided, Strip;
      emails, k, listed := [], 0, [];
      st := Connect();
      ghost var start := server.run;
      st := Authenticate(user, password);
      PrefixOfSeq(start, server.run);
      if st.Done? {
        st, emails, k, listed := Collect();
      }
    }

    /** Fetches, marks and deletes whatever is listed.  QUIT hides the first k messages, counting from the oldest, and
        all others stay listed; what is returned is exactly these k, in order, or nothing.  On a reliable disk and with
        right credentials the texts listed decide which, and what is returned is what is hidden if and only if the
        listing is harmless.  With wrong credentials the client never returns, and the server stops. */
    method GetAllMessages(user: string, password: string) returns (r: Outcome, ghost k: nat, ghost listed: seq<Item>)
      requires server.Valid() && !server.run.mode.Closing? && server.inbox == [] && !isConnected
      modifies this, server
      ensures server.Valid() && !server.run.mode.Closing? && (r.Returned? ==> !server.dead)
      ensures old(server.dead) ==> r.Waiting? && server.run == old(server.run) && server.prior == old(server.prior)
      ensures !old(server.dead) ==> server.prior == old(server.Ever())
      ensures !old(server.dead) ==> StaysBehind(server, Listing(old(server.run.meta)), r, k)
      ensures Grows(old(server.files), server.files)
      ensures !old(server.dead) && !Login(server.users, user, password) ==> r.Waiting? && server.dead
      ensures !old(server.dead) && Login(server.users, user, password) && server.reliable ==>
                && Listing(old(server.run.meta)) <= listed <= Seq(server.run)
                && Drained(server.files, listed, r, k)
                && (forall i :: 0 <= i < |listed| ==> listed[i].name in server.files)
                && (ReturnsWhatItHides(server, r, k) <==> Harmless(server.files, listed))
    {
      hide ServerEnd.Valid, Inv, Decided, Good, Strip, Login, Listing, Drained, Harmless, UpTo;
      k, listed := 0, [];
      if server.dead {
        var st := Connect();
        return Waiting, k, listed;
      }
      var found, emails;
      found, emails, k, listed := TryAll(user, password);
      ghost var run, files := server.run, server.files;
      if found.Stuck? {
        StillListed(server);
        if server.reliable && Login(server.users, user, password) {
          DrainedIf(server.files, listed, found, k, Waiting);
        }
        return Waiting, 0, listed;
      }
      if found.Raised? {
        emails := [];
      }
      var ended := Quit();
      if ended.Stuck? {
        StillListed(server);
        return Waiting, 0, listed;
      }
      r := Returned(emails);
      AfterQuit(server, k);
      if found.Done? {
        TextsGrow(emails, k, run, files, server.run, server.files);
      }
      if server.reliable && Login(server.users, user, password) {
        DecidedGrow(server, files, listed, found, k);
        DrainedIf(server.files, listed, found, k, r);
      }
    }
  }

  ghost predicate Grows(files: Texts, files': Texts) {
    forall name :: name in files ==> name in files' && files'[name] == files[name]
  }

  /** The server knows the user by this password. */
  predicate Login(users: Users, user: string, password: string) {
    user != "" && Lower(user) in users && users[Lower(user)] == password
  }

  /** What is left of a mailbox after a drain: without the first k messages if the client returned, and whole if it did
      not. */
  ghost predicate StaysBehind(server: ServerEnd, before: seq<Item>, r: Outcome, k: nat)
    reads server
  {
    var run := server.run;
    && run.base == before && k <= |Seq(run)| && Listing(run.meta) == Seq(run)[k..] && (r.Waiting? ==> k == 0)
    && (r.Returned? && r.emails != [] ==> AreTexts(r.emails, Seq(run)[..k], server.files))
  }

  ghost predicate ReturnsWhatItHides(server: ServerEnd, r: Outcome, k: nat)
    requires k <= |Seq(server.run)|
    reads server
  {
    r.Returned? && AreTexts(r.emails, Seq(server.run)[..k], server.files)
  }

  /** The texts listed decide what a drain does: all of them are fetched; or it gives up at an empty one, which stays
      listed with all after it; or it never returns, because of one that is not ASCII; or it gives up after marking one
      that it takes for the closing dot. */
  ghost predicate Drained(files: Texts, listed: seq<Item>, r: Outcome, k: nat) {
    var j := GoodOnes(files, listed);
    if j == |listed| then r.Returned? && k == j && |r.emails| == k
    else if TextOf(files, listed[j]) == "" then r == Returned([]) && k == j
    else if !IsAscii(TextOf(files, listed[j])) then r.Waiting?
    else r == Returned([]) && k == j + 1
  }

  /** All texts listed can be carried, or the first of all is empty. */
  ghost predicate Harmless(files: Texts, listed: seq<Item>) {
    GoodOnes(files, listed) == |listed| || TextOf(files, listed[0]) == ""
  }

  /** How fetching a listing ends, allowing for one of which no text has any size. */
  ghost predicate Decided(files: Texts, listed: seq<Item>, st: Status, k: nat) {
    EndsAt(files, listed, st, k) || (st.Done? && k == 0 && (listed == [] || TextOf(files, listed[0]) == ""))
  }

  // ---------------------------------------------------------------- a drain that loses a message

  /** Of two messages the second is empty: whatever arrives meanwhile, the drain returns nothing and hides the first. */
  lemma EmptySecond(files: Texts, listed: seq<Item>, r: Outcome, k: nat)
    requires |listed| >= 2 && Good(TextOf(files, listed[0])) && TextOf(files, listed[1]) == ""
    requires Drained(files, listed, r, k)
    ensures r == Returned([]) && k == 1 && !Harmless(files, listed)
  {
    assert !Good(TextOf(files, listed[1]));
    hide Good;
    assert GoodOnes(files, listed) == 1;
  }

  method TwoMessages(user: string, password: string) returns (server: ServerEnd)
    ensures fresh(server) && server.Valid() && server.run.mode.Closed? && server.inbox == [] && !server.dead
    ensures server.reliable && server.users == map[Lower(user) := password]
    ensures Listing(server.run.meta) == [Item("1", 1, "1"), Item("2", 0, "2")]
    ensures server.files == map["1" := "a", "2" := ""]
  {
    hide ServerEnd.Valid, Listing;
    server := new ServerEnd(map[Lower(user) := password], true);
    var first, second := Entry("1", "1", 1, false), Entry("2", "2", 0, false);
    server.Arrive(first, "a");
    server.Arrive(second, "");
    TwoListed(server.run.meta, first, second);
  }

  /** Such a drain: of a message with text "a" and an empty one, the first is hidden, and nothing is returned. */
  method LosesTheFirst(user: string, password: string) returns (r: Outcome, server: ServerEnd)
    requires user != ""
    ensures r == Returned([]) && server.Valid()
    ensures |Seq(server.run)| >= 2 && Seq(server.run)[0] == Item("1", 1, "1") && "1" in server.files
    ensures server.files["1"] == "a" && Listing(server.run.meta) == Seq(server.run)[1..]
  {
    hide ServerEnd.Valid, Good, GoodOnes, Drained, Harmless, IsAscii, Strip, Listing, Lower;
    server := TwoMessages(user, password);
    CanCarryA();
    var client := new Pop3Client(server);
    ghost var before := Listing(server.run.meta);
    ghost var k, listed;
    r, k, listed := client.GetAllMessages(user, password);
    assert listed[0] == before[0] && listed[1] == before[1];
    EmptySecond(server.files, listed, r, k);
  }

  lemma TwoListed(m: Meta, first: Entry, second: Entry)
    requires m == [first, second] && !first.deleted && !second.deleted
    ensures Listing(m) == [ItemOf(first), ItemOf(second)]
  {
    assert m == [first] + [second] && [first][1..] == [] && [second][1..] == [];
    ListingConcat([first], [second]);
    assert Listing([first]) == [ItemOf(first)] && Listing([second]) == [ItemOf(second)];
  }

  lemma CanCarryA()
    ensures Good("a")
  {
    assert Strip("a") == "a";
  }

  // ---------------------------------------------------------------- drain after drain

  /** What one drain returned, and how many messages it hid. */
  datatype Drain = Drain(emails: seq<string>, hidden: nat)

  predicate Wasteful(d: Drain) {
    d.hidden > 0 && d.emails == []
  }

  predicate NoneWasteful(drains: seq<Drain>) {
    forall i :: 0 <= i < |drains| ==> !Wasteful(drains[i])
  }

  /** The emails of all drains together. */
  function EmailsOf(drains: seq<Drain>): seq<string> {
    if drains == [] then [] else EmailsOf(drains[..|drains| - 1]) + drains[|drains| - 1].emails
  }

  function HiddenBy(drains: seq<Drain>): nat {
    if drains == [] then 0 else HiddenBy(drains[..|drains| - 1]) + drains[|drains| - 1].hidden
  }

  lemma TextsConcat(a: seq<string>, b: seq<string>, xs: seq<Item>, ys: seq<Item>, files: Texts, files': Texts)
    requires AreTexts(a, xs, files) && AreTexts(b, ys, files')
    requires Grows(files, files')
    ensures AreTexts(a + b, xs + ys, files')
  {
  }

  /** One drain more: all is what was listed at first followed by all mail since, of which the drains so far hid the
      first total, and of what is listed now this one hid the first k. */
  lemma OneMoreDrain(all: seq<Item>, total: nat, before: seq<Item>, more: seq<Item>, k: nat)
    requires total <= |all| && before == all[total..] && k <= |before + more|
    ensures total + k <= |all + more| && (before + more)[k..] == (all + more)[total + k..]
    ensures (all + more)[..total + k] == all[..total] + (before + more)[..k]
  {
    assert all + more == all[..total] + (before + more);
  }

  /** The mailbox as one drain leaves it: all is what was listed at first, followed by what came since. */
  ghost predicate DrainedOnce(all: seq<Item>, after: seq<Item>, emails: seq<string>, k: nat, files: Texts) {
    k <= |all| && after == all[k..] && (emails == [] || AreTexts(emails, all[..k], files))
  }

  /** A client that drains the mailbox, some time after the one before it. */
  method DrainOnce(server: ServerEnd, user: string, password: string)
      returns (r: Outcome, ghost d: Drain, ghost more: seq<Item>)
    requires server.Valid() && !server.run.mode.Closing?
    modifies server
    ensures server.Valid() && !server.run.mode.Closing? && server.Ever() == old(server.Ever()) + more
    ensures Grows(old(server.files), server.files) && d.emails == (if r.Returned? then r.emails else [])
    ensures r.Returned? ==> !server.dead
    ensures DrainedOnce(Listing(old(server.run.meta)) + more, Listing(server.run.meta), d.emails, d.hidden,
                        server.files)
    ensures !old(server.dead) && Carries(server, user, password) ==> r.Returned? && !Wasteful(d)
  {
    hide ServerEnd.Valid, DrainedOnce, CarriesAll;
    ghost var listed, arrived := Listing(server.run.meta), server.run.arrived;
    server.Meanwhile();
    ghost var between := server.run.arrived[|arrived|..];
    assert server.run.arrived == arrived + between;
    r, d, more := DrainNow(server, user, password);
    assert (listed + between) + more == listed + (between + more);
    more := between + more;
  }

  method DrainNow(server: ServerEnd, user: string, password: string)
      returns (r: Outcome, ghost d: Drain, ghost more: seq<Item>)
    requires server.Valid() && !server.run.mode.Closing?
    modifies server
    ensures server.Valid() && !server.run.mode.Closing? && server.Ever() == old(server.Ever()) + more
    ensures Grows(old(server.files), server.files) && d.emails == (if r.Returned? then r.emails else [])
    ensures r.Returned? ==> !server.dead
    ensures DrainedOnce(Listing(old(server.run.meta)) + more, Listing(server.run.meta), d.emails, d.hidden,
                        server.files)
    ensures !old(server.dead) && Carries(server, user, password) ==> r.Returned? && !Wasteful(d)
  {
    hide ServerEnd.Valid, Good, Login, StaysBehind, Drained, Harmless, ReturnsWhatItHides, DrainedOnce, Grows;
    ghost var dead, listed := server.dead, Listing(server.run.meta);
    server.inbox := [];
    var client := new Pop3Client(server);
    ghost var k, found;
    r, k, found := client.GetAllMessages(user, password);
    d := Drain(if r.Returned? then r.emails else [], if dead then 0 else k);
    if dead {
      more := [];
      assert listed + [] == listed;
      NothingOnce(listed, server.files);
    } else {
      more := server.run.arrived;
      Behind(server, listed, r, k);
      if Carries(server, user, password) {
        AllListedGood(server, found, r, k);
      }
    }
  }

  lemma NothingOnce(all: seq<Item>, files: Texts)
    ensures DrainedOnce(all, all, [], 0, files)
  {
    assert all[0..] == all;
  }

  lemma Behind(server: ServerEnd, listed: seq<Item>, r: Outcome, k: nat)
    requires StaysBehind(server, listed, r, k)
    ensures DrainedOnce(listed + server.run.arrived, Listing(server.run.meta), if r.Returned? then r.emails else [], k,
                        server.files)
    ensures r.Waiting? ==> k == 0
  {
    hide Listing;
    assert listed + server.run.arrived == Seq(server.run);
  }

  lemma AllListedGood(server: ServerEnd, listed: seq<Item>, r: Outcome, k: nat)
    requires server.Valid() && listed <= Seq(server.run) && Drained(server.files, listed, r, k)
    requires forall name :: name in server.files ==> Good(server.files[name])
    requires forall i :: 0 <= i < |listed| ==> listed[i].name in server.files
    ensures r.Returned? && |r.emails| == k
  {
    hide Good;
    assert GoodOnes(server.files, listed) == |listed|;
  }

  /** The disk is reliable, the credentials are right, and every text ever stored can be carried. */
  ghost predicate Carries(server: ServerEnd, user: string, password: string)
    reads server
  {
    CarriesAll(server.reliable, server.users, server.files, user, password)
  }

  ghost predicate CarriesAll(reliable: bool, users: Users, files: Texts, user: string, password: string) {
    reliable && Login(users, user, password) && forall name :: name in files ==> Good(files[name])
  }

  lemma CarriedBefore(server: ServerEnd, files: Texts, user: string, password: string)
    requires Grows(files, server.files)
    ensures Carries(server, user, password) ==> CarriesAll(server.reliable, server.users, files, user, password)
  {
    hide Good, Login;
  }

  /** One consumer drains the mailbox again and again, while mail arrives during and between the drains.  The first
      total messages, counting from what was listed at first and going on with all mail since, are hidden, and exactly
      the others are listed; the emails of all drains together are the texts of the hidden ones, in order, none lost
      and none repeated, if and only if no drain hid messages and returned nothing.  On a reliable disk none does while
      all texts can be carried. */
  method DrainRepeatedly(server: ServerEnd, user: string, password: string, times: nat)
      returns (emails: seq<string>, returned: bool, ghost total: nat, ghost drains: seq<Drain>)
    requires server.Valid() && !server.run.mode.Closing?
    modifies server
    ensures server.Valid() && old(server.Ever()) <= server.Ever()
    ensures |drains| <= times && (returned ==> |drains| == times)
    ensures emails == EmailsOf(drains) && total == HiddenBy(drains)
    ensures var all := Listing(old(server.run.meta)) + server.Ever()[|old(server.Ever())|..];
            && total <= |all| && Listing(server.run.meta) == all[total..]
            && (AreTexts(emails, all[..total], server.files) <==> NoneWasteful(drains))
    ensures !old(server.dead) && Carries(server, user, password) ==> returned && NoneWasteful(drains)
  {
    hide ServerEnd.Valid, ServerEnd.Ever, AreTexts, DrainedSoFar, DrainedOnce, CarriesAll, NoneWasteful, EmailsOf;
    hide HiddenBy, Wasteful, Listing, Grows;
    emails, returned, total, drains := [], true, 0, [];
    ghost var all, came := Listing(server.run.meta), [];
    NothingDrained(all, server.files);
    var i := 0;
    while i < times && returned
      invariant i == |drains| <= times && server.Valid() && !server.run.mode.Closing?
      invariant server.Ever() == old(server.Ever()) + came && all == Listing(old(server.run.meta)) + came
      invariant DrainedSoFar(all, Listing(server.run.meta), emails, total, drains, server.files)
      invariant !old(server.dead) && Carries(server, user, password)
                ==> returned && NoneWasteful(drains) && !server.dead
      decreases times - i
    {
      ghost var listed, files := Listing(server.run.meta), server.files;
      ghost var d, more;
      var r;
      r, d, more := DrainOnce(server, user, password);
      CarriedBefore(server, files, user, password);
      DrainedMore(all, listed, emails, total, drains, files, Listing(server.run.meta), d, more, server.files);
      assert (all + more) == Listing(old(server.run.meta)) + (came + more);
      all, came, total, drains := all + more, came + more, total + d.hidden, drains + [d];
      match r {
        case Waiting =>
          assert emails + [] == emails;
          returned := false;
        case Returned(es) => emails := emails + es;
      }
      i := i + 1;
    }
    AllOrWasted(all, Listing(server.run.meta), emails, total, drains, server.files);
    assert server.Ever()[|old(server.Ever())|..] == came;
  }

  lemma AllOrWasted(all: seq<Item>, after: seq<Item>, emails: seq<string>, total: nat, drains: seq<Drain>, files: Texts)
    requires DrainedSoFar(all, after, emails, total, drains, files)
    ensures total <= |all| && after == all[total..] && emails == EmailsOf(drains) && total == HiddenBy(drains)
    ensures AreTexts(emails, all[..total], files) <==> NoneWasteful(drains)
  {
    hide NoneWasteful, EmailsOf, HiddenBy;
  }

  /** The drains so far: they hid the first total of all messages, and returned as many exactly if none was wasteful. */
  ghost predicate DrainedSoFar(all: seq<Item>, after: seq<Item>, emails: seq<string>, total: nat, drains: seq<Drain>,
                               files: Texts) {
    && total <= |all| && after == all[total..] && |emails| <= total
    && emails == EmailsOf(drains) && total == HiddenBy(drains)
    && (|emails| == total <==> NoneWasteful(drains))
    && (NoneWasteful(drains) ==> AreTexts(emails, all[..total], files))
  }

  lemma NothingDrained(all: seq<Item>, files: Texts)
    ensures DrainedSoFar(all, all, [], 0, [], files) && NoneWasteful([])
  {
    assert all[0..] == all;
  }

  lemma DrainedMore(all: seq<Item>, listed: seq<Item>, emails: seq<string>, total: nat, drains: seq<Drain>,
      files: Texts, after: seq<Item>, d: Drain, more: seq<Item>, files': Texts)
    requires DrainedSoFar(all, listed, emails, total, drains, files)
    requires DrainedOnce(listed + more, after, d.emails, d.hidden, files')
    requires Grows(files, files')
    ensures DrainedSoFar(all + more, after, emails + d.emails, total + d.hidden, drains + [d], files')
    ensures NoneWasteful(drains + [d]) <==> NoneWasteful(drains) && !Wasteful(d)
  {
    OneMoreDrain(all, total, listed, more, d.hidden);
    OneMoreLogged(drains, d);
    if NoneWasteful(drains) && !Wasteful(d) {
      TextsConcat(emails, d.emails, all[..total], (listed + more)[..d.hidden], files, files');
    }
  }

  lemma OneMoreLogged(drains: seq<Drain>, d: Drain)
    ensures EmailsOf(drains + [d]) == EmailsOf(drains) + d.emails
    ensures HiddenBy(drains + [d]) == HiddenBy(drains) + d.hidden
    ensures NoneWasteful(drains + [d]) <==> NoneWasteful(drains) && !Wasteful(d)
  {
    hide Wasteful;
    assert (drains + [d])[..|drains|] == drains && (drains + [d])[|drains|] == d;
  }

  /** How one round ends: with the message fetched and marked, and otherwise with the message marked or not; on a
      reliable disk the text decides. */
  ghost predicate Round(server: ServerEnd, i: nat, k: nat, st: Status, text: string)
    reads server
    requires i < |Seq(server.run)|
  {
    var item := Seq(server.run)[i];
    && item.name in server.files && (k == i || k == i + 1)
    && (st.Done? ==> k == i + 1 && text == Strip(server.files[item.name]) && server.inbox == [])
    && (server.reliable ==> Decides(server.files[item.name], i, k, st))
  }

  ghost predicate Decides(text: string, i: nat, k: nat, st: Status) {
    if Good(text) then st.Done?
    else if text == "" then st.Raised? && k == i
    else if !IsAscii(text) then st.Stuck? && k == i
    else st.Raised? && k == i + 1
  }

  /** Where fetching a listing ends, from its texts: after all of them, or at the first one RETR cannot carry. */
  ghost predicate EndsAt(files: Texts, items: seq<Item>, st: Status, k: nat) {
    var j := GoodOnes(files, items);
    if j == |items| then st.Done? && k == j else Decides(TextOf(files, items[j]), j, k, st)
  }

  /** A line of a text as the client keeps it. */
  function LineOf(r: Reply): string {
    match r
    case Body(text) => Strip(text)
    case Err(why) => "-ERR " + why
    case _ => ""
  }

  /** The numbers and sizes in the lines of LIST. */
  function Numbers(scans: seq<Reply>): seq<(int, nat)> {
    if scans == [] then [] else (if scans[0].Scan? then [(scans[0].n, scans[0].size)] else []) + Numbers(scans[1..])
  }

  lemma {:induction false} ScansNumber(items: seq<Item>, marked: set<int>, first: int)
    ensures Numbers(Scans(items, marked, first)) == Numbered(items, marked, first)
    ensures forall r :: r in Scans(items, marked, first) ==> r.Scan?
    decreases |items|
  {
    if items != [] {
      ScansNumber(items[1..], marked, first + 1);
      var rest := Scans(items[1..], marked, first + 1);
      if first !in marked {
        assert ([Scan(first, items[0].size)] + rest)[1..] == rest;
      } else {
        assert Scans(items, marked, first) == rest;
      }
    }
  }

  lemma {:induction false} NumberedPlain(items: seq<Item>, first: int)
    ensures |Numbered(items, {}, first)| == |items|
    ensures forall i :: 0 <= i < |items| ==> Numbered(items, {}, first)[i].0 == first + i
    decreases |items|
  {
    if items != [] {
      NumberedPlain(items[1..], first + 1);
    }
  }

  lemma HasText(server: ServerEnd, i: nat)
    requires server.Valid() && server.run.mode.Open? && i < |Seq(server.run)|
    ensures Seq(server.run)[i].name in server.files
    ensures server.reliable ==> (Seq(server.run)[i].size == 0 <==> server.files[Seq(server.run)[i].name] == "")
  {
    var item := Seq(server.run)[i];
    ListingNames(server.run.meta, item);
    var e :| e in server.run.meta && !e.deleted && ItemOf(e) == item;
  }

  lemma AllHaveText(server: ServerEnd)
    requires server.Valid() && server.run.mode.Open?
    ensures forall i :: 0 <= i < |Seq(server.run)| ==> Seq(server.run)[i].name in server.files
  {
    forall i | 0 <= i < |Seq(server.run)| ensures Seq(server.run)[i].name in server.files {
      HasText(server, i);
    }
  }

  /** What RETR reads of the next message not marked. */
  lemma ReadsTheText(server: ServerEnd, i: nat, seen: Seen)
    requires server.Valid() && server.run.mode.Open? && i < |Seq(server.run)| && server.Finds(seen)
    requires server.run.session.state.Transaction? && server.run.session.marked == UpTo(i)
    ensures var name := Seq(server.run)[i].name;
            && name in server.files
            && (|| Content(server.run.session, seen, i + 1) == Some(server.files[name])
                || (!server.reliable && Content(server.run.session, seen, i + 1) == None))
  {
    HasText(server, i);
  }

  lemma SameItem(before: Run, files: Texts, after: Run, files': Texts, i: nat)
    requires Grown(before, files, after, files') && i < |Seq(before)| && Seq(before)[i].name in files
    ensures i < |Seq(after)| && Seq(after)[i] == Seq(before)[i]
    ensures Seq(before)[i].name in files' && files'[Seq(before)[i].name] == files[Seq(before)[i].name]
  {
  }

  /** DELE of the next message not marked. */
  lemma Marks(server: ServerEnd, s: Pop3Session.Session, i: nat, seen: Seen)
    requires server.run.mode.Open? && i < |Seq(server.run)| && server.Finds(seen)
    requires s.state.Transaction? && s.marked == UpTo(i)
    ensures var c := Command.Dele(Number(i + 1));
            var replies := Replies(s, server.users, seen.items, seen.texts, c);
            && |replies| == 1
            && (replies[0].IsPositive() <==> After(s, server.users, seen.items, c) == s.(marked := UpTo(i + 1)))
            && (!replies[0].IsPositive() ==> !server.reliable && After(s, server.users, seen.items, c) == s)
  {
    assert i + 1 !in UpTo(i) && i + 1 in UpTo(i + 1);
  }

  lemma TextsGrow(emails: seq<string>, k: nat, before: Run, files: Texts, after: Run, files': Texts)
    requires k <= |Seq(before)| && AreTexts(emails, Seq(before)[..k], files) && Grown(before, files, after, files')
    ensures k <= |Seq(after)| && Seq(after)[..k] == Seq(before)[..k] && AreTexts(emails, Seq(after)[..k], files')
  {
    assert Seq(before) <= Seq(after);
  }

  ghost predicate AllGood(files: Texts, items: seq<Item>, n: nat) {
    n <= |items| && forall i :: 0 <= i < n ==> items[i].name in files && Good(files[items[i].name])
  }

  lemma AllGoodGrow(files: Texts, files': Texts, items: seq<Item>, n: nat)
    requires Grows(files, files')
    ensures AllGood(files, items, n) ==> AllGood(files', items, n)
  {
  }

  lemma GoodOnesAre(files: Texts, items: seq<Item>, n: nat)
    requires AllGood(files, items, n) && (n < |items| ==> !Good(TextOf(files, items[n])))
    ensures GoodOnes(files, items) == n
  {
  }

  lemma AllFetched(files: Texts, items: seq<Item>)
    requires AllGood(files, items, |items|)
    ensures EndsAt(files, items, Done, |items|)
  {
    GoodOnesAre(files, items, |items|);
  }

  /** From one round to the next, or to the end. */
  lemma AfterRound(server: ServerEnd, run: Run, files: Texts, items: seq<Item>, emails: seq<string>, i: nat, k: nat,
      st: Status, text: string)
    requires i < |items| && items <= Seq(run) && Grown(run, files, server.run, server.files)
    requires AreTexts(emails, Seq(run)[..i], files) && (server.reliable ==> AllGood(files, items, i))
    requires i < |Seq(server.run)| && Round(server, i, k, st, text)
    ensures items <= Seq(server.run)
    ensures st.Done?
            ==> AreTexts(emails + [text], Seq(server.run)[..i + 1], server.files) && server.inbox == [] && k == i + 1
    ensures st.Done? && server.reliable ==> AllGood(server.files, items, i + 1)
    ensures !st.Done? && server.reliable ==> EndsAt(server.files, items, st, k)
  {
    hide Good, GoodOnes, Strip;
    TextsGrow(emails, i, run, files, server.run, server.files);
    AllGoodGrow(files, server.files, items, i);
    assert Seq(run) <= Seq(server.run);
    assert items[i] == Seq(server.run)[i];
    assert Seq(server.run)[..i + 1] == Seq(server.run)[..i] + [Seq(server.run)[i]];
    if server.reliable && !st.Done? {
      GoodOnesAre(server.files, items, i);
    }
  }

  lemma NoTexts(files: Texts)
    ensures AreTexts([], [], files)
  {
  }

  lemma DecidedAt(files: Texts, listed: seq<Item>, st: Status, k: nat)
    requires EndsAt(files, listed, st, k)
    ensures Decided(files, listed, st, k)
  {
  }

  lemma PrefixOfSeq(before: Run, after: Run)
    requires after.base == before.base && before.arrived <= after.arrived
    ensures Seq(before) <= Seq(after)
  {
  }

  lemma {:induction false} NoSizes(items: seq<Item>)
    requires Total(items) == 0
    ensures forall i :: 0 <= i < |items| ==> items[i].size == 0
  {
    if items != [] {
      NoSizes(items[1..]);
      assert forall i :: 0 < i < |items| ==> items[i] == items[1..][i - 1];
    }
  }

  lemma NothingOfSize(server: ServerEnd, listed: seq<Item>)
    requires server.Valid() && server.run.mode.Open? && listed == Seq(server.run) && Total(listed) == 0
             && server.reliable
    ensures Decided(server.files, listed, Done, 0)
  {
    NoSizes(listed);
    if listed != [] {
      HasText(server, 0);
    }
  }

  /** The outcome for the caller, from how fetching ended. */
  lemma DrainedIf(files: Texts, listed: seq<Item>, st: Status, k: nat, r: Outcome)
    requires Decided(files, listed, st, k)
    requires match st
             case Done => r.Returned? && |r.emails| == k
             case Raised => r == Returned([])
             case Stuck => r.Waiting?
    ensures Drained(files, listed, r, k) && (r.Returned? && |r.emails| == k <==> Harmless(files, listed))
    ensures r.Waiting? ==> Drained(files, listed, r, 0)
  {
    hide IsAscii, Strip;
    assert listed != [] && TextOf(files, listed[0]) == "" ==> !Good(TextOf(files, listed[0]));
  }

  lemma DecidedGrow(server: ServerEnd, files: Texts, listed: seq<Item>, st: Status, k: nat)
    requires Decided(files, listed, st, k) && forall i :: 0 <= i < |listed| ==> listed[i].name in files
    requires Grows(files, server.files)
    ensures Decided(server.files, listed, st, k)
  {
    GoodOnesSame(files, server.files, listed);
    hide Good, IsAscii, GoodOnes;
  }

  lemma {:induction false} GoodOnesSame(files: Texts, files': Texts, items: seq<Item>)
    requires forall i :: 0 <= i < |items| ==> items[i].name in files
    requires Grows(files, files')
    ensures GoodOnes(files', items) == GoodOnes(files, items)
    ensures forall i :: 0 <= i < |items| ==> TextOf(files', items[i]) == TextOf(files, items[i])
  {
    hide Good;
    if items != [] {
      assert forall i :: 0 <= i < |items[1..]| ==> items[1..][i] == items[i + 1];
      GoodOnesSame(files, files', items[1..]);
    }
  }

  lemma StillListed(server: ServerEnd)
    requires server.Valid() && server.run.mode.Open?
    ensures Listing(server.run.meta) == Seq(server.run)[0..]
  {
  }

  /** After QUIT with the numbers up to k marked, the rest is listed. */
  lemma AfterQuit(server: ServerEnd, k: nat)
    requires server.Valid() && server.run.mode.Closed? && server.run.session.marked == UpTo(k)
    ensures k <= |Seq(server.run)| && Listing(server.run.meta) == Seq(server.run)[k..]
  {
    var r := server.run;
    assert k > 0 ==> k in r.session.marked;
    KeptAfter(r.mode.listing, k, 1);
  }
}
