/** pop3_server.py: sessions by client address, and the command handlers over the mailbox store. */
module Pop3Server {
  import opened Wrappers
  import opened Sequences
  import opened Text
  import opened Mailbox
  import opened MailboxReader
  import opened FileSystem
  import opened Pop3Session
  import opened Pop3Runs
  import Storage = StorageManager
  import opened Outbox
  import RdtReceiver

  /** What the handlers of one command were given by the disk: a listing, and the texts it would read. */
  datatype Seen = Seen(items: seq<Item>, texts: string -> Option<string>)

  /** The texts of a mailbox, read in text mode. */
  function TextsOf(box: Box): string -> Option<string> {
    (name: string) => if name in box.files then Some(Newlines(box.files[name])) else None
  }

  function Holding(file: string, text: Option<string>, others: string -> Option<string>): string -> Option<string> {
    (name: string) => if name == file then text else others(name)
  }

  /** What a session finds on the disk if no read fails. */
  function View(s: Pop3Session.Session, disk: Disk): Seen {
    var box := if s.user.Some? then BoxOf(disk, Lower(s.user.value)) else EMPTY_BOX;
    Seen(Listing(MetaOf(box)), TextsOf(box))
  }

  /** What it may find: unless the disk is reliable, a failed read of the metadata shows an empty mailbox, and a failed
      read of a message no text. */
  ghost predicate Saw(s: Pop3Session.Session, disk: Disk, seen: Seen, reliable: bool) {
    && (seen.items == View(s, disk).items || (!reliable && seen.items == []))
    && forall name :: seen.texts(name) == View(s, disk).texts(name) || (!reliable && seen.texts(name) == None)
  }

  datatype Request = Nothing | SignOff | Other(c: Command)

  function ArgOf(args: seq<string>, intOf: string -> Option<int>): Arg {
    if args == [] then NoArg
    else
      match intOf(args[0])
      case None => NotANumber
      case Some(n) => Number(n)
  }

  /** The command in a line and its first argument; others are ignored. */
  function Parse(line: string, intOf: string -> Option<int>): Request {
    var parts := Words(line);
    if parts == [] then Nothing
    else
      var command, args := Upper(parts[0]), parts[1..];
      var first := if args == [] then None else Some(args[0]);
      if command == "USER" then Other(User(first))
      else if command == "PASS" then Other(Pass(first))
      else if command == "STAT" then Other(Stat)
      else if command == "LIST" then Other(List(ArgOf(args, intOf)))
      else if command == "RETR" then Other(Retr(ArgOf(args, intOf)))
      else if command == "DELE" then Other(Dele(ArgOf(args, intOf)))
      else if command == "QUIT" then SignOff
      else Other(Unknown)
  }

  function AfterRequest(s: Pop3Session.Session, users: Users, seen: Seen, r: Request): Pop3Session.Session {
    if r.Other? then After(s, users, seen.items, r.c) else s
  }

  function RequestReplies(s: Pop3Session.Session, users: Users, seen: Seen, r: Request): seq<Reply> {
    match r
    case Nothing => []
    case SignOff => [OkBye]
    case Other(c) => Replies(s, users, seen.items, seen.texts, c)
  }

  /** The session after several lines, of which line i found seen[i] on the disk. */
  function AfterLines(s: Pop3Session.Session, users: Users, seen: seq<Seen>, lines: seq<Request>): Pop3Session.Session
    requires |seen| == |lines|
    decreases |lines|
  {
    if lines == [] then s
    else
      var k := |lines| - 1;
      AfterRequest(AfterLines(s, users, seen[..k], lines[..k]), users, seen[k], lines[k])
  }

  function LineReplies(s: Pop3Session.Session, users: Users, seen: seq<Seen>, lines: seq<Request>): seq<Reply>
    requires |seen| == |lines|
    decreases |lines|
  {
    if lines == [] then []
    else
      var k := |lines| - 1;
      LineReplies(s, users, seen[..k], lines[..k])
      + RequestReplies(AfterLines(s, users, seen[..k], lines[..k]), users, seen[k], lines[k])
  }

  ghost predicate AllInRange(s: Pop3Session.Session, disk: Disk) {
    forall n :: n in s.marked ==> n <= |View(s, disk).items|
  }

  /** What became of the marked messages: those numbered by hidden are gone from the listing, and all of them if
      everything went well; no file and no other mailbox was touched. */
  ghost predicate Deleted(s: Pop3Session.Session, before: Disk, after: Disk, fine: bool, hidden: seq<int>)
  {
    s.user.Some? &&
    var owner := Lower(s.user.value);
    var was := Listing(MetaOf(BoxOf(before, owner)));
    var now := Listing(MetaOf(BoxOf(after, owner)));
    && BoxOf(after, owner).files == BoxOf(before, owner).files
    && (forall u :: u != owner ==> BoxOf(after, u) == BoxOf(before, u))
    && (forall n :: n in hidden ==> n in s.marked)
    && now == Without(was, Names(was, hidden))
    && (fine ==> now == Kept(was, s.marked, 1))
  }

  /** What QUIT does to the mailboxes.  The server stops, with nothing deleted, before USER, and when a marked number
      lies outside the listing; otherwise, in a transaction, the marked messages are deleted. */
  ghost predicate QuitLeaves(s: Pop3Session.Session, before: Disk, after: Disk, crashed: bool, reliable: bool) {
    && (!HasOwner(s) ==> crashed)
    && (crashed || !s.state.Transaction? ==> after == before)
    && (reliable && HasOwner(s) ==> (crashed <==> s.state.Transaction? && !AllInRange(s, before)))
    && (!crashed && s.state.Transaction? ==>
          exists fine, hidden :: Deleted(s, before, after, fine, hidden) && (reliable ==> fine))
  }

  /** Only QUIT touches the mailboxes. */
  ghost predicate Leaves(s: Pop3Session.Session, r: Request, before: Disk, after: Disk, crashed: bool, reliable: bool) {
    if r.SignOff? then QuitLeaves(s, before, after, crashed, reliable) else !crashed && after == before
  }

  /** Line i found seen[i] on disks[i] and left disks[i + 1]. */
  ghost predicate Passes(s: Pop3Session.Session, users: Users, seen: seq<Seen>, lines: seq<Request>, disks: seq<Disk>,
      reliable: bool)
    requires |seen| == |lines| == |disks| - 1
    decreases |lines|
  {
    lines == []
    || var k := |lines| - 1;
       var now := AfterLines(s, users, seen[..k], lines[..k]);
       && Passes(s, users, seen[..k], lines[..k], disks[..k + 1], reliable)
       && Saw(now, disks[k], seen[k], reliable)
       && Leaves(now, lines[k], disks[k], disks[k + 1], false, reliable)
  }

  function ParseAll(lines: seq<string>, intOf: string -> Option<int>): (requests: seq<Request>)
    ensures |requests| == |lines|
  {
    seq(|lines|, i requires 0 <= i < |lines| => Parse(lines[i], intOf))
  }

  /** What a packet leads to: the session afterwards, and the replies to its lines. */
  datatype Turn = Turn(session: Pop3Session.Session, replies: seq<Reply>)

  function TurnOf(s: Pop3Session.Session, users: Users, seen: seq<Seen>, data: string,
                  intOf: string -> Option<int>): Turn
    requires |seen| == |SplitLines(DecodeIgnoring(data))|
  {
    var requests := ParseAll(SplitLines(DecodeIgnoring(data)), intOf);
    Turn(AfterLines(s, users, seen, requests), LineReplies(s, users, seen, requests))
  }

  /** After these replies to a client. */
  function Posts(p: Posted<Reply>, addr: Addr, replies: seq<Reply>): Posted<Reply> {
    PostAll(p, addr, replies, (r: Reply) => r.OkBye?)
  }

  lemma PostsNone(p: Posted<Reply>, addr: Addr)
    ensures Posts(p, addr, []) == p
  {
  }

  lemma PostsOne(p: Posted<Reply>, addr: Addr, r: Reply)
    ensures Posts(p, addr, [r]) == Post(p, addr, r, r.OkBye?)
  {
    PostOne(p, addr, r, (r: Reply) => r.OkBye?);
  }

  lemma PostsConcat(p: Posted<Reply>, addr: Addr, a: seq<Reply>, b: seq<Reply>)
    ensures Posts(p, addr, a + b) == Posts(Posts(p, addr, a), addr, b)
  {
    PostConcat(p, addr, a, b, (r: Reply) => r.OkBye?);
  }

  lemma {:induction false} ScansSnoc(items: seq<Item>, marked: set<int>, first: int, x: Item)
    ensures Scans(items + [x], marked, first)
         == Scans(items, marked, first) + if first + |items| in marked then [] else [Scan(first + |items|, x.size)]
    decreases |items|
  {
    if items == [] {
      assert items + [x] == [x];
    } else {
      assert (items + [x])[1..] == items[1..] + [x];
      ScansSnoc(items[1..], marked, first + 1, x);
    }
  }

  /** Holds of every session: numbers are counted from 1, and an open mailbox has an owner. */
  ghost predicate SessionOk(s: Pop3Session.Session) {
    && (forall n :: n in s.marked ==> n >= 1)
    && (s.state.Transaction? ==> s.user.Some?)
  }

  lemma SawAll(s: Pop3Session.Session, disk: Disk, reliable: bool)
    ensures Saw(s, disk, View(s, disk), reliable)
  {
  }

  lemma SawListing(s: Pop3Session.Session, disk: Disk, items: seq<Item>, reliable: bool)
    requires items == View(s, disk).items || (!reliable && items == [])
    ensures Saw(s, disk, View(s, disk).(items := items), reliable)
  {
  }

  /** Commands that change nothing in the session. */
  lemma OnlyThese(s: Pop3Session.Session, users: Users, seen: Seen)
    ensures Replies(s, users, seen.items, seen.texts, Unknown) == [Err("Unknown command")]
    ensures forall items, c: Command :: c.Stat? || c.List? || c.Retr? || c.Unknown? ==> After(s, users, items, c) == s
  {
  }

  /** On a reliable disk the replies are those over what is on it. */
  lemma ReliableReplies(s: Pop3Session.Session, users: Users, disk: Disk, seen: Seen, c: Command)
    requires Saw(s, disk, seen, true)
    ensures var x := View(s, disk);
            && Replies(s, users, seen.items, seen.texts, c) == Replies(s, users, x.items, x.texts, c)
            && After(s, users, seen.items, c) == After(s, users, x.items, c)
  {
    hide View, Scans, Kept, Total, Retrieved, Lower;
  }

  /** QUIT on a reliable disk: the server stops before USER, and in a transaction when a marked number lies outside the
      listing, with nothing changed; otherwise the marked messages, and nothing else, drop out of the listing. */
  lemma ReliableQuit(s: Pop3Session.Session, before: Disk, after: Disk, crashed: bool)
    requires QuitLeaves(s, before, after, crashed, true)
    ensures crashed <==> !HasOwner(s) || (s.state.Transaction? && !AllInRange(s, before))
    ensures crashed || !s.state.Transaction? ==> after == before
    ensures !crashed && s.state.Transaction? ==>
              var owner := Lower(s.user.value);
              && Listing(MetaOf(BoxOf(after, owner))) == Kept(Listing(MetaOf(BoxOf(before, owner))), s.marked, 1)
              && BoxOf(after, owner).files == BoxOf(before, owner).files
              && forall u :: u != owner ==> BoxOf(after, u) == BoxOf(before, u)
  {
    hide AllInRange, Lower, BoxOf, MetaOf, Listing, Kept, Without, Names;
    if !crashed && s.state.Transaction? {
      var fine, hidden :| Deleted(s, before, after, fine, hidden) && fine;
    }
  }

  lemma HoldingIt(file: string, text: Option<string>, others: string -> Option<string>)
    ensures Holding(file, text, others)(file) == text
  {
  }

  lemma SawText(s: Pop3Session.Session, disk: Disk, seen: Seen, file: string, text: Option<string>, reliable: bool)
    requires Saw(s, disk, seen, reliable) && (text == View(s, disk).texts(file) || (!reliable && text == None))
    ensures Saw(s, disk, seen.(texts := Holding(file, text, seen.texts)), reliable)
  {
  }

  lemma NoLines(s: Pop3Session.Session, users: Users)
    ensures AfterLines(s, users, [], []) == s && LineReplies(s, users, [], []) == []
    ensures forall reliable, d :: Passes(s, users, [], [], [d], reliable)
  {
  }

  lemma OneMoreLine(s: Pop3Session.Session, users: Users, seen: seq<Seen>, lines: seq<Request>, disks: seq<Disk>,
      x: Seen, r: Request, d: Disk, reliable: bool)
    requires |seen| == |lines| == |disks| - 1
    ensures AfterLines(s, users, seen + [x], lines + [r])
            == AfterRequest(AfterLines(s, users, seen, lines), users, x, r)
    ensures LineReplies(s, users, seen + [x], lines + [r])
         == LineReplies(s, users, seen, lines) + RequestReplies(AfterLines(s, users, seen, lines), users, x, r)
    ensures var now := AfterLines(s, users, seen, lines);
            Passes(s, users, seen + [x], lines + [r], disks + [d], reliable)
            <==> Passes(s, users, seen, lines, disks, reliable)
                 && Saw(now, disks[|lines|], x, reliable) && Leaves(now, r, disks[|lines|], d, false, reliable)
  {
    assert (seen + [x])[..|lines|] == seen && (lines + [r])[..|lines|] == lines
           && (disks + [d])[..|lines| + 1] == disks;
  }

  // ---------------------------------------------------------------- deleting by number

  lemma NothingHidden(messages: seq<Item>)
    ensures Without(messages, Names(messages, [])) == messages
  {
    WithoutNone(messages, Names(messages, []));
  }

  lemma AllThere(m: Meta)
    ensures forall k :: 0 <= k < |Listing(m)| ==> Has(m, Listing(m)[k].name)
  {
    forall k | 0 <= k < |Listing(m)| ensures Has(m, Listing(m)[k].name) {
      ListedAreThere(m, k);
    }
  }

  lemma OneMoreHidden(m: Meta, messages: seq<Item>, hidden: seq<int>, n: int)
    requires 1 <= n <= |messages| && Listing(m) == Without(messages, Names(messages, hidden))
    ensures Listing(MarkDeleted(m, messages[n - 1].name)) == Without(messages, Names(messages, hidden + [n]))
  {
    assert Without(messages, Names(messages, hidden)) + [] == Without(messages, Names(messages, hidden));
    DeletedListing(m, messages, hidden, n, []);
    assert Without(messages, Names(messages, hidden + [n])) + [] == Without(messages, Names(messages, hidden + [n]));
  }

  lemma AllHidden(m: Meta, order: seq<int>, marked: set<int>)
    requires Distinct(m) && Descending(order, marked) && forall n :: n in order ==> 1 <= n <= |Listing(m)|
    ensures Without(Listing(m), Names(Listing(m), order)) == Kept(Listing(m), marked, 1)
  {
    ListingDistinct(m);
    MarkedByName(Listing(m), order, marked);
  }

  /** Whether all marked numbers are in range is seen from the highest. */
  lemma InListing(s: Pop3Session.Session, disk: Disk, order: seq<int>)
    requires Descending(order, s.marked) && SessionOk(s)
    ensures AllInRange(s, disk) <==> order == [] || order[0] <= |View(s, disk).items|
    ensures forall n :: n in order ==> n >= 1 && n <= order[0]
  {
    hide View;
    if order != [] {
      assert order[0] in order;
    }
  }

  lemma ListedIsView(s: Pop3Session.Session, disk: Disk)
    requires s.user.Some?
    ensures Listing(MetaOf(BoxOf(disk, Lower(s.user.value)))) == View(s, disk).items
  {
  }

  lemma NothingMarked(s: Pop3Session.Session, disk: Disk, intended: Intended)
    requires s.user.Some? && Descending([], s.marked) && DiskOk(disk, intended)
    ensures Deleted(s, disk, disk, true, [])
  {
    hide DiskOk, Lower, BoxOf, Descending, Without, Names, Kept, Listing, Distinct;
    var m := MetaOf(BoxOf(disk, Lower(s.user.value)));
    DictionaryOk(disk, intended, Lower(s.user.value));
    AllHidden(m, [], s.marked);
    NothingHidden(Listing(m));
  }

  lemma MarkedDeleted(s: Pop3Session.Session, before: Disk, after: Disk, intended: Intended, order: seq<int>,
                      fine: bool, hidden: seq<int>)
    requires s.user.Some? && Descending(order, s.marked) && DiskOk(before, intended)
    requires forall n :: n in order ==> 1 <= n <= |View(s, before).items|
    requires var owner, was := Lower(s.user.value), View(s, before).items;
             && BoxOf(after, owner).files == BoxOf(before, owner).files
             && (forall u :: u != owner ==> BoxOf(after, u) == BoxOf(before, u))
             && (forall n :: n in hidden ==> n in order) && (fine ==> hidden == order)
             && Listing(MetaOf(BoxOf(after, owner))) == Without(was, Names(was, hidden))
    ensures Deleted(s, before, after, fine, hidden)
  {
    ListedIsView(s, before);
    OrderIsMarked(order, s.marked);
    hide DiskOk, View, Lower, BoxOf, Descending, Without, Names, Kept, Listing, Distinct;
    DictionaryOk(before, intended, Lower(s.user.value));
    AllHidden(MetaOf(BoxOf(before, Lower(s.user.value))), order, s.marked);
  }

  lemma OrderIsMarked(order: seq<int>, marked: set<int>)
    requires Descending(order, marked)
    ensures forall n :: n in order ==> n in marked
  {
  }

  lemma DictionaryOk(disk: Disk, intended: Intended, user: string)
    requires DiskOk(disk, intended)
    ensures Distinct(MetaOf(BoxOf(disk, user)))
  {
  }

  /** One entry of the sessions dictionary. */
  class Session {
    var state: State
    var user: Option<string>
    var marked: set<int>

    constructor ()
      ensures Value() == NEW_SESSION
    {
      state, user, marked := Authorization, None, {};
    }

    ghost function Value(): Pop3Session.Session
      reads this
    {
      Pop3Session.Session(state, user, marked)
    }
  }

  /** sorted(list(marked), reverse=True). */
  method SortedDown(marked: set<int>) returns (order: seq<int>)
    ensures Descending(order, marked)
  {
    order := [];
    var left := marked;
    while left != {}
      invariant left <= marked
      invariant forall n :: n in order <==> n in marked && n !in left
      invariant forall i, j :: 0 <= i < j < |order| ==> order[i] > order[j]
      invariant forall i, n :: 0 <= i < |order| && n in left ==> order[i] > n
    {
      var top := Greatest(left);
      order := order + [top];
      left := left - {top};
    }
  }

  method Pick<T>(s: set<T>) returns (x: T)
    requires s != {}
    ensures x in s
  {
    x :| x in s;
  }

  method Greatest(numbers: set<int>) returns (top: int)
    requires numbers != {}
    ensures top in numbers && forall n :: n in numbers ==> n <= top
  {
    top := Pick(numbers);
    var left := numbers - {top};
    while left != {}
      invariant left <= numbers && top in numbers
      invariant forall n :: n in numbers && n !in left ==> n <= top
    {
      var n := Pick(left);
      if n > top {
        top := n;
      }
      left := left - {n};
    }
  }

  class Pop3Server {
    const storage: Storage.StorageManager
    const users: Users
    /** int() of a word. */
    const intOf: string -> Option<int>
    const receiver: RdtReceiver.RdtReceiver
    var sessions: map<Addr, Session>
    /** Every reply handed to a sender, in order, and the clients a sender is kept for. */
    var sent: seq<(Addr, Reply)>
    var senders: set<Addr>

    ghost function Out(): Posted<Reply>
      reads this`sent, this`senders, receiver`expectedSeqs
    {
      Posted(sent, senders, receiver.expectedSeqs)
    }

    ghost predicate Valid()
      reads this`sessions, storage, storage.locks.Values, storage.fs, sessions.Values
    {
      && storage.Valid()
      && (forall a, b :: a in sessions && b in sessions && a != b ==> sessions[a] != sessions[b])
      && forall a :: a in sessions ==> SessionOk(sessions[a].Value())
    }

    constructor (receiver: RdtReceiver.RdtReceiver, storage: Storage.StorageManager, users: Users,
        intOf: string -> Option<int>)
      requires storage.Valid()
      ensures Valid() && this.receiver == receiver && this.storage == storage && this.users == users
      ensures sessions == map[] && sent == [] && senders == {}
    {
      this.receiver, this.storage, this.users, this.intOf := receiver, storage, users, intOf;
      sessions, sent, senders := map[], [], {};
    }

    method SendReply(addr: Addr, r: Reply)
      requires !r.OkBye?
      modifies this`sent, this`senders
      ensures Out() == Posts(old(Out()), addr, [r])
    {
      PostsOne(Out(), addr, r);
      hide Posts;
      senders := senders + {addr};
      sent := sent + [(addr, r)];
    }

    /** The listing of a session's mailbox. */
    method Messages(session: Session) returns (items: seq<Item>, readOk: bool)
      requires Valid() && session.user.Some?
      modifies storage`locks, storage.locks.Values
      ensures Valid() && fresh(storage.locks.Values - old(storage.locks.Values))
      ensures items == (if readOk then View(session.Value(), storage.fs.disk).items else [])
      ensures storage.fs.reliable ==> readOk
    {
      items, readOk := storage.ListMessages(Lower(session.user.value));
    }

    /** The listing, as part of what the session finds on the disk. */
    method Look(session: Session) returns (messages: seq<Item>, ghost seen: Seen)
      requires Valid() && session.user.Some?
      modifies storage`locks, storage.locks.Values
      ensures Valid() && fresh(storage.locks.Values - old(storage.locks.Values))
      ensures Saw(session.Value(), storage.fs.disk, seen, storage.fs.reliable) && seen.items == messages
    {
      hide Pop3Server.Valid;
      var readOk;
      messages, readOk := Messages(session);
      SawListing(session.Value(), storage.fs.disk, messages, storage.fs.reliable);
      seen := View(session.Value(), storage.fs.disk).(items := messages);
    }

    method Content(session: Session, file: string) returns (text: Option<string>)
      requires Valid() && session.user.Some?
      modifies storage`locks, storage.locks.Values
      ensures Valid() && fresh(storage.locks.Values - old(storage.locks.Values))
      ensures var there := View(session.Value(), storage.fs.disk).texts(file);
              text == there || (!storage.fs.reliable && text == None)
    {
      text := storage.GetMessageContent(Lower(session.user.value), file);
    }

    method Delete(owner: string, file: string) returns (ghost done: bool)
      requires Valid()
      modifies storage`locks, storage.locks.Values, storage.fs`disk, storage.fs`trace
      ensures Valid() && fresh(storage.locks.Values - old(storage.locks.Values))
      ensures BoxOf(storage.fs.disk, owner).files == BoxOf(old(storage.fs.disk), owner).files
      ensures forall u :: u != owner ==> BoxOf(storage.fs.disk, u) == BoxOf(old(storage.fs.disk), u)
      ensures var before, after := MetaOf(BoxOf(old(storage.fs.disk), owner)), MetaOf(BoxOf(storage.fs.disk, owner));
              && after == (if done then MarkDeleted(before, file) else before)
              && (storage.fs.reliable && Has(before, file) ==> done)
    {
      var found, metaOk := storage.DeleteEmail(owner, file);
      done := found && metaOk;
    }

    /** The loop of QUIT; hidden are the numbers whose deletion was stored. */
    method DeleteMarked(owner: string, messages: seq<Item>, marked: seq<int>)
      returns (ghost fine: bool, ghost hidden: seq<int>)
      requires Valid() && Listing(MetaOf(BoxOf(storage.fs.disk, owner))) == messages
      requires forall n :: n in marked ==> 1 <= n <= |messages|
      modifies storage`locks, storage.locks.Values, storage.fs`disk, storage.fs`trace
      ensures Valid() && fresh(storage.locks.Values - old(storage.locks.Values))
      ensures BoxOf(storage.fs.disk, owner).files == BoxOf(old(storage.fs.disk), owner).files
      ensures forall u :: u != owner ==> BoxOf(storage.fs.disk, u) == BoxOf(old(storage.fs.disk), u)
      ensures forall n :: n in hidden ==> n in marked
      ensures Listing(MetaOf(BoxOf(storage.fs.disk, owner))) == Without(messages, Names(messages, hidden))
      ensures (fine ==> hidden == marked) && (storage.fs.reliable ==> fine)
    {
      hide Pop3Server.Valid;
      hide Listing, Without, Names, BoxOf, MetaOf, MarkDeleted;
      fine, hidden := true, [];
      NothingHidden(messages);
      AllThere(MetaOf(BoxOf(storage.fs.disk, owner)));
      hide Has;
      for i := 0 to |marked|
        invariant Valid() && fresh(storage.locks.Values - old(storage.locks.Values))
        invariant BoxOf(storage.fs.disk, owner).files == BoxOf(old(storage.fs.disk), owner).files
        invariant forall u :: u != owner ==> BoxOf(storage.fs.disk, u) == BoxOf(old(storage.fs.disk), u)
        invariant forall n :: n in hidden ==> n in marked
        invariant Listing(MetaOf(BoxOf(storage.fs.disk, owner))) == Without(messages, Names(messages, hidden))
        invariant (fine ==> hidden == marked[..i]) && (storage.fs.reliable ==> fine)
        invariant forall k :: 0 <= k < |messages| ==> Has(MetaOf(BoxOf(storage.fs.disk, owner)), messages[k].name)
      {
        ghost var meta := MetaOf(BoxOf(storage.fs.disk, owner));
        var n := marked[i];
        assert n in marked;
        MarkedKeeps(meta, messages[n - 1].name);
        ghost var done := Delete(owner, messages[n - 1].name);
        fine := fine && done;
        if done {
          OneMoreHidden(meta, messages, hidden, n);
          hidden := hidden + [n];
        }
      }
    }

    method CmdUSER(addr: Addr, session: Session, name: Option<string>, ghost seen: Seen)
      requires Valid() && SessionOk(session.Value())
      modifies this`sent, this`senders, session
      ensures Valid() && SessionOk(session.Value())
      ensures session.Value() == After(old(session.Value()), users, seen.items, User(name))
      ensures Out() == Posts(old(Out()), addr, Replies(old(session.Value()), users, seen.items, seen.texts, User(name)))
    {
      hide Posts;
      if session.state != Authorization {
        SendReply(addr, NOT_ALLOWED);
      } else if name.None? {
        SendReply(addr, MISSING);
      } else if Lower(name.value) in users {
        session.user := name;
        SendReply(addr, OkUser(name.value));
      } else {
        SendReply(addr, Err("No such user"));
      }
    }

    method CmdPASS(addr: Addr, session: Session, password: Option<string>, ghost seen: Seen)
      requires Valid() && SessionOk(session.Value())
      modifies this`sent, this`senders, session
      ensures Valid() && SessionOk(session.Value())
      ensures session.Value() == After(old(session.Value()), users, seen.items, Pass(password))
      ensures Out()
              == Posts(old(Out()), addr, Replies(old(session.Value()), users, seen.items, seen.texts, Pass(password)))
    {
      hide Posts;
      if session.state != Authorization || session.user.None? || session.user.value == "" {
        SendReply(addr, NOT_ALLOWED);
        return;
      }
      if password.None? {
        SendReply(addr, Err("Missing password"));
        return;
      }
      var username := Lower(session.user.value);
      if username in users && users[username] == password.value {
        session.state := Transaction;
        SendReply(addr, OkOpen);
      } else {
        session.user := None;
        SendReply(addr, Err("Invalid credentials"));
      }
    }

    method CmdSTAT(addr: Addr, session: Session) returns (ghost seen: Seen)
      requires Valid() && SessionOk(session.Value())
      modifies this`sent, this`senders, storage`locks, storage.locks.Values
      ensures Valid() && fresh(storage.locks.Values - old(storage.locks.Values))
      ensures Saw(session.Value(), storage.fs.disk, seen, storage.fs.reliable)
      ensures Out() == Posts(old(Out()), addr, Replies(session.Value(), users, seen.items, seen.texts, Stat))
    {
      hide Pop3Server.Valid;
      hide Posts, Kept, Scans, Total, Lower;
      seen := View(session.Value(), storage.fs.disk);
      SawAll(session.Value(), storage.fs.disk, storage.fs.reliable);
      hide Saw, View;
      if session.state != Transaction {
        SendReply(addr, NOT_ALLOWED);
        return;
      }
      var messages;
      messages, seen := Look(session);
      var undeleted := Kept(messages, session.marked, 1);
      SendReply(addr, OkStat(|undeleted|, Total(undeleted)));
    }

    method CmdLIST(addr: Addr, session: Session, arg: Arg) returns (ghost seen: Seen)
      requires Valid() && SessionOk(session.Value())
      modifies this`sent, this`senders, storage`locks, storage.locks.Values
      ensures Valid() && fresh(storage.locks.Values - old(storage.locks.Values))
      ensures Saw(session.Value(), storage.fs.disk, seen, storage.fs.reliable)
      ensures Out() == Posts(old(Out()), addr, Replies(session.Value(), users, seen.items, seen.texts, List(arg)))
    {
      seen := View(session.Value(), storage.fs.disk);
      SawAll(session.Value(), storage.fs.disk, storage.fs.reliable);
      hide Pop3Server.Valid;
      hide Posts, Saw, View, Scans;
      if session.state != Transaction {
        SendReply(addr, NOT_ALLOWED);
      } else {
        seen := ListMessages(addr, session, arg);
      }
    }

    method ListMessages(addr: Addr, session: Session, arg: Arg) returns (ghost seen: Seen)
      requires Valid() && session.state == Transaction && session.user.Some?
      modifies this`sent, this`senders, storage`locks, storage.locks.Values
      ensures Valid() && fresh(storage.locks.Values - old(storage.locks.Values))
      ensures Saw(session.Value(), storage.fs.disk, seen, storage.fs.reliable)
      ensures Out() == Posts(old(Out()), addr, Replies(session.Value(), users, seen.items, seen.texts, List(arg)))
    {
      hide Pop3Server.Valid;
      hide Posts, Saw, View, Scans;
      var messages;
      messages, seen := Look(session);
      match arg {
        case NoArg => SendScanListing(addr, session, messages);
        case NotANumber => SendReply(addr, INVALID);
        case Number(n) =>
          var valid := Pop3Session.Valid(n, messages, session.marked);
          SendReply(addr, if valid then OkScan(n, messages[n - 1].size) else NO_SUCH);
      }
    }

    method SendScanListing(addr: Addr, session: Session, messages: seq<Item>)
      modifies this`sent, this`senders
      ensures Out() == Posts(old(Out()), addr, [OkList(|messages|)] + Scans(messages, session.marked, 1) + [Dot])
    {
      hide Posts;
      ghost var out, head := Out(), [OkList(|messages|)];
      SendReply(addr, OkList(|messages|));
      assert head + Scans([], session.marked, 1) == head;
      for i := 0 to |messages|
        invariant Out() == Posts(out, addr, head + Scans(messages[..i], session.marked, 1))
      {
        assert messages[..i + 1] == messages[..i] + [messages[i]];
        ScansSnoc(messages[..i], session.marked, 1, messages[i]);
        ghost var before := Scans(messages[..i], session.marked, 1);
        if i + 1 !in session.marked {
          SendReply(addr, Scan(i + 1, messages[i].size));
          PostsConcat(out, addr, head + before, [Scan(1 + i, messages[i].size)]);
          assert head + (before + [Scan(1 + i, messages[i].size)]) == (head + before) + [Scan(1 + i, messages[i].size)];
        } else {
          assert before + [] == before;
        }
      }
      assert messages[..|messages|] == messages;
      SendReply(addr, Dot);
      PostsConcat(out, addr, head + Scans(messages, session.marked, 1), [Dot]);
    }

    method SendMessage(addr: Addr, content: Option<string>)
      modifies this`sent, this`senders
      ensures Out() == Posts(old(Out()), addr, Retrieved(content))
    {
      hide IsAscii, Posts;
      ghost var out := Out();
      if content.Some? && content.value != "" {
        ghost var first := [OkOctets(|content.value|)];
        SendReply(addr, OkOctets(|content.value|));
        if IsAscii(content.value) {
          SendReply(addr, Body(content.value));
          PostsConcat(out, addr, first, [Body(content.value)]);
          SendReply(addr, Dot);
          PostsConcat(out, addr, first + [Body(content.value)], [Dot]);
          assert first + [Body(content.value)] + [Dot] == Retrieved(content);
        } else {
          SendReply(addr, INVALID);
          PostsConcat(out, addr, first, [INVALID]);
          assert first + [INVALID] == Retrieved(content);
        }
      } else {
        SendReply(addr, Err("could not retrieve message"));
      }
    }

    method Retrieve(addr: Addr, session: Session, n: int) returns (ghost seen: Seen)
      requires Valid() && session.state == Transaction && session.user.Some?
      modifies this`sent, this`senders, storage`locks, storage.locks.Values
      ensures Valid() && fresh(storage.locks.Values - old(storage.locks.Values))
      ensures Saw(session.Value(), storage.fs.disk, seen, storage.fs.reliable)
      ensures Out() == Posts(old(Out()), addr, Replies(session.Value(), users, seen.items, seen.texts, Retr(Number(n))))
    {
      hide Pop3Server.Valid;
      hide Posts, Retrieved, Kept, Scans, Total, Listing, OnlyMeta, DiskOk, Newlines, IsAscii, Lower, BoxOf;
      hide Saw, View;
      var messages;
      messages, seen := Look(session);
      if Pop3Session.Valid(n, messages, session.marked) {
        var content := Content(session, messages[n - 1].name);
        SawText(session.Value(), storage.fs.disk, seen, messages[n - 1].name, content, storage.fs.reliable);
        HoldingIt(messages[n - 1].name, content, seen.texts);
        seen := seen.(texts := Holding(messages[n - 1].name, content, seen.texts));
        hide Holding;
        SendMessage(addr, content);
      } else {
        SendReply(addr, NO_SUCH);
      }
    }

    method CmdRETR(addr: Addr, session: Session, arg: Arg) returns (ghost seen: Seen)
      requires Valid() && SessionOk(session.Value())
      modifies this`sent, this`senders, storage`locks, storage.locks.Values
      ensures Valid() && fresh(storage.locks.Values - old(storage.locks.Values))
      ensures Saw(session.Value(), storage.fs.disk, seen, storage.fs.reliable)
      ensures Out() == Posts(old(Out()), addr, Replies(session.Value(), users, seen.items, seen.texts, Retr(arg)))
    {
      seen := View(session.Value(), storage.fs.disk);
      SawAll(session.Value(), storage.fs.disk, storage.fs.reliable);
      hide Pop3Server.Valid;
      hide Posts, Saw, View, Retrieved;
      if session.state != Transaction {
        SendReply(addr, NOT_ALLOWED);
        return;
      }
      match arg {
        case NoArg => SendReply(addr, MISSING);
        case NotANumber => SendReply(addr, INVALID);
        case Number(n) => seen := Retrieve(addr, session, n);
      }
    }

    method Mark(session: Session, n: int, messages: seq<Item>, ghost texts: string -> Option<string>)
      returns (reply: Reply)
      requires Valid() && SessionOk(session.Value()) && session.state == Transaction
      modifies session`marked
      ensures Valid() && SessionOk(session.Value()) && !reply.OkBye?
      ensures session.Value() == After(old(session.Value()), users, messages, Dele(Number(n)))
      ensures [reply] == Replies(old(session.Value()), users, messages, texts, Dele(Number(n)))
    {
      if Pop3Session.Valid(n, messages, session.marked) {
        session.marked := session.marked + {n};
        return OkDeleted(n);
      }
      return Err("Message already deleted or does not exist");
    }

    method CmdDELE(addr: Addr, session: Session, arg: Arg) returns (ghost seen: Seen)
      requires Valid() && SessionOk(session.Value())
      modifies this`sent, this`senders, session`marked, storage`locks, storage.locks.Values
      ensures Valid() && SessionOk(session.Value()) && fresh(storage.locks.Values - old(storage.locks.Values))
      ensures Saw(old(session.Value()), storage.fs.disk, seen, storage.fs.reliable)
      ensures session.Value() == After(old(session.Value()), users, seen.items, Dele(arg))
      ensures Out() == Posts(old(Out()), addr, Replies(old(session.Value()), users, seen.items, seen.texts, Dele(arg)))
    {
      seen := View(session.Value(), storage.fs.disk);
      SawAll(session.Value(), storage.fs.disk, storage.fs.reliable);
      hide Pop3Server.Valid;
      hide Posts, Saw, View;
      if session.state != Transaction {
        SendReply(addr, NOT_ALLOWED);
      } else if !arg.Number? {
        SendReply(addr, INVALID);
      } else {
        seen := MarkNumber(addr, session, arg.n);
      }
    }

    method MarkNumber(addr: Addr, session: Session, n: int) returns (ghost seen: Seen)
      requires Valid() && SessionOk(session.Value()) && session.state == Transaction
      modifies this`sent, this`senders, session`marked, storage`locks, storage.locks.Values
      ensures Valid() && SessionOk(session.Value()) && fresh(storage.locks.Values - old(storage.locks.Values))
      ensures Saw(old(session.Value()), storage.fs.disk, seen, storage.fs.reliable)
      ensures session.Value() == After(old(session.Value()), users, seen.items, Dele(Number(n)))
      ensures Out()
              == Posts(old(Out()), addr, Replies(old(session.Value()), users, seen.items, seen.texts, Dele(Number(n))))
    {
      hide Pop3Server.Valid;
      hide Posts, Saw, View;
      hide After, Replies;
      var messages;
      messages, seen := Look(session);
      var reply := Mark(session, n, messages, seen.texts);
      SendReply(addr, reply);
    }

    /** The deletions of QUIT, by name in a listing made once.  Should a number lie outside that listing, the server
        stops with nothing deleted.  A deletion fails silently when the metadata cannot be read or stored; if nothing
        fails the mailbox lists what it listed before without exactly the marked messages. */
    method CommitDeletions(session: Session) returns (crashed: bool, ghost fine: bool, ghost hidden: seq<int>)
      requires Valid() && SessionOk(session.Value()) && session.user.Some?
      modifies storage`locks, storage.locks.Values, storage.fs`disk, storage.fs`trace
      ensures Valid() && fresh(storage.locks.Values - old(storage.locks.Values))
      ensures crashed ==> storage.fs.disk == old(storage.fs.disk)
      ensures storage.fs.reliable ==> (crashed <==> !AllInRange(session.Value(), old(storage.fs.disk))) && fine
      ensures !crashed ==> Deleted(session.Value(), old(storage.fs.disk), storage.fs.disk, fine, hidden)
    {
      hide Pop3Server.Valid;
      hide Deleted, AllInRange, View, Descending, SessionOk;
      crashed, fine, hidden := false, true, [];
      ghost var s, disk := session.Value(), storage.fs.disk;
      StorageOk();
      var messages, readOk := Messages(session);
      var marked := SortedDown(session.marked);
      InListing(s, disk, marked);
      if marked == [] {
        NothingMarked(s, disk, storage.fs.intended);
      } else if marked[0] > |messages| {
        crashed := true;
      } else {
        assert marked[0] in marked;
        assert readOk;
        ListedIsView(s, disk);
        ghost var intended := storage.fs.intended;
        fine, hidden := DeleteMarked(Lower(session.user.value), messages, marked);
        MarkedDeleted(s, disk, storage.fs.disk, intended, marked, fine, hidden);
      }
    }

    lemma StorageOk()
      requires Valid()
      ensures DiskOk(storage.fs.disk, storage.fs.intended)
    {
    }

    /** The sender is dropped, and the receiver expects the client to start over at 0; the session entry stays. */
    method CmdQUIT(addr: Addr, session: Session) returns (crashed: bool)
      requires Valid() && SessionOk(session.Value())
      modifies this`sent, this`senders, receiver`expectedSeqs
      modifies storage`locks, storage.locks.Values, storage.fs`disk, storage.fs`trace
      ensures Valid() && fresh(storage.locks.Values - old(storage.locks.Values))
      ensures QuitLeaves(session.Value(), old(storage.fs.disk), storage.fs.disk, crashed, storage.fs.reliable)
      ensures Out() == if crashed then old(Out()) else Posts(old(Out()), addr, [OkBye])
    {
      hide Pop3Server.Valid;
      hide Deleted, AllInRange, Posts;
      crashed := session.user.None? || session.user.value == "";
      if crashed {
        return;
      }
      if session.state == Transaction {
        ghost var fine, hidden;
        crashed, fine, hidden := CommitDeletions(session);
        assert crashed || Deleted(session.Value(), old(storage.fs.disk), storage.fs.disk, fine, hidden);
      }
      if !crashed {
        SignOff(addr);
      }
    }

    method SignOff(addr: Addr)
      modifies this`sent, this`senders, receiver`expectedSeqs
      ensures Out() == Posts(old(Out()), addr, [OkBye])
    {
      PostsOne(Out(), addr, OkBye);
      hide Posts;
      senders := senders + {addr};
      sent := sent + [(addr, OkBye)];
      senders := senders - {addr};
      receiver.ResetState(addr);
    }

    method Handle(addr: Addr, session: Session, c: Command) returns (ghost seen: Seen)
      requires Valid() && SessionOk(session.Value())
      modifies this`sent, this`senders, session, storage`locks, storage.locks.Values
      ensures Valid() && SessionOk(session.Value()) && fresh(storage.locks.Values - old(storage.locks.Values))
      ensures Saw(old(session.Value()), storage.fs.disk, seen, storage.fs.reliable)
      ensures session.Value() == After(old(session.Value()), users, seen.items, c)
      ensures Out() == Posts(old(Out()), addr, Replies(old(session.Value()), users, seen.items, seen.texts, c))
    {
      seen := View(session.Value(), storage.fs.disk);
      SawAll(session.Value(), storage.fs.disk, storage.fs.reliable);
      OnlyThese(session.Value(), users, seen);
      hide Pop3Server.Valid;
      hide After, Replies, Saw, View, Posts, SessionOk;
      match c
      case User(name) => CmdUSER(addr, session, name, seen);
      case Pass(password) => CmdPASS(addr, session, password, seen);
      case Stat => seen := CmdSTAT(addr, session);
      case List(arg) => seen := CmdLIST(addr, session, arg);
      case Retr(arg) => seen := CmdRETR(addr, session, arg);
      case Dele(arg) => seen := CmdDELE(addr, session, arg);
      case Unknown => SendReply(addr, Err("Unknown command"));
    }

    method HandleCommand(addr: Addr, session: Session, line: string) returns (crashed: bool, ghost seen: Seen)
      requires Valid() && SessionOk(session.Value())
      modifies this`sent, this`senders, receiver`expectedSeqs, session
      modifies storage`locks, storage.locks.Values, storage.fs`disk, storage.fs`trace
      ensures Valid() && SessionOk(session.Value()) && fresh(storage.locks.Values - old(storage.locks.Values))
      ensures Leaves(old(session.Value()), Parse(line, intOf), old(storage.fs.disk), storage.fs.disk, crashed,
                     storage.fs.reliable)
      ensures Saw(old(session.Value()), old(storage.fs.disk), seen, storage.fs.reliable)
      ensures session.Value() == AfterRequest(old(session.Value()), users, seen, Parse(line, intOf))
      ensures Out()
           == if crashed then old(Out())
              else Posts(old(Out()), addr, RequestReplies(old(session.Value()), users, seen, Parse(line, intOf)))
    {
      seen := View(session.Value(), storage.fs.disk);
      SawAll(session.Value(), storage.fs.disk, storage.fs.reliable);
      PostsNone(Out(), addr);
      hide Pop3Server.Valid;
      hide After, Replies, Saw, View, QuitLeaves, Posts, Words, SessionOk;
      crashed := false;
      match Parse(line, intOf)
      case Nothing =>
      case SignOff => crashed := CmdQUIT(addr, session);
      case Other(c) => seen := Handle(addr, session, c);
    }

    method HandleLines(addr: Addr, session: Session, lines: seq<string>)
        returns (crashed: bool, ghost seen: seq<Seen>, ghost disks: seq<Disk>)
      requires Valid() && SessionOk(session.Value())
      modifies this`sent, this`senders, receiver`expectedSeqs, session
      modifies storage`locks, storage.locks.Values, storage.fs`disk, storage.fs`trace
      ensures Valid() && SessionOk(session.Value()) && fresh(storage.locks.Values - old(storage.locks.Values))
      ensures crashed ==> exists i :: 0 <= i < |lines| && Parse(lines[i], intOf).SignOff?
      ensures !crashed ==>
                var start, requests := old(session.Value()), ParseAll(lines, intOf);
                && |seen| == |lines| == |disks| - 1 && Passes(start, users, seen, requests, disks, storage.fs.reliable)
                && disks[0] == old(storage.fs.disk) && disks[|lines|] == storage.fs.disk
                && session.Value() == AfterLines(start, users, seen, requests)
                && Out() == Posts(old(Out()), addr, LineReplies(start, users, seen, requests))
    {
      hide Pop3Server.Valid;
      hide AfterLines, LineReplies, Passes, Saw, QuitLeaves, AfterRequest, RequestReplies, Parse, SessionOk, Posts;
      PostsNone(Out(), addr);
      ghost var out := Out();
      NoLines(session.Value(), users);
      crashed, seen, disks := false, [], [storage.fs.disk];
      assert ParseAll(lines[..0], intOf) == [];
      ghost var start := session.Value();
      for i := 0 to |lines|
        invariant Valid() && SessionOk(session.Value()) && fresh(storage.locks.Values - old(storage.locks.Values))
        invariant |seen| == |disks| - 1 == i && disks[0] == old(storage.fs.disk) && disks[i] == storage.fs.disk
        invariant Passes(start, users, seen, ParseAll(lines[..i], intOf), disks, storage.fs.reliable)
        invariant session.Value() == AfterLines(start, users, seen, ParseAll(lines[..i], intOf))
        invariant Out() == Posts(out, addr, LineReplies(start, users, seen, ParseAll(lines[..i], intOf)))
      {
        ghost var x;
        ghost var requests := ParseAll(lines[..i], intOf);
        assert ParseAll(lines[..i + 1], intOf) == requests + [Parse(lines[i], intOf)];
        crashed, x := HandleCommand(addr, session, lines[i]);
        if crashed {
          assert Parse(lines[i], intOf).SignOff?;
          return;
        }
        PostsConcat(out, addr, LineReplies(start, users, seen, requests),
                    RequestReplies(AfterLines(start, users, seen, requests), users, x, Parse(lines[i], intOf)));
        OneMoreLine(start, users, seen, requests, disks, x, Parse(lines[i], intOf), storage.fs.disk,
                    storage.fs.reliable);
        seen, disks := seen + [x], disks + [storage.fs.disk];
      }
      assert lines[..|lines|] == lines;
    }

    method Open(addr: Addr) returns (session: Session, ghost greeting: seq<Reply>)
      requires Valid()
      modifies this`sent, this`senders, this`sessions
      ensures Valid() && addr in sessions && sessions[addr] == session && SessionOk(session.Value())
      ensures Out() == Posts(old(Out()), addr, greeting)
              && greeting == (if addr in old(sessions) then [] else [OkReady])
      ensures SameBut(old(sessions), sessions, addr) && (addr in old(sessions) ==> session == old(sessions[addr]))
      ensures addr !in old(sessions) ==> fresh(session) && session.Value() == NEW_SESSION
    {
      PostsNone(Out(), addr);
      hide Posts;
      greeting := [];
      if addr !in sessions {
        greeting := [OkReady];
        session := new Session();
        sessions := sessions[addr := session];
        SendReply(addr, OkReady);
      }
      session := sessions[addr];
    }

    /** One round of the serving loop: nobody else's session changes; the client gets a greeting with its first packet,
        and then the replies to its lines in order. */
    method ServePacket(addr: Addr, data: string) returns (crashed: bool, ghost seen: seq<Seen>, ghost disks: seq<Disk>)
      requires Valid()
      modifies this`sent, this`senders, this`sessions, receiver`expectedSeqs
      modifies if addr in sessions then {sessions[addr]} else {}
      modifies storage`locks, storage.locks.Values, storage.fs`disk, storage.fs`trace
      ensures Valid() && addr in sessions && SameBut(old(sessions), sessions, addr)
      ensures crashed ==> exists i :: 0 <= i < |SplitLines(DecodeIgnoring(data))|
                                   && Parse(SplitLines(DecodeIgnoring(data))[i], intOf).SignOff?
      ensures !crashed ==>
                var start := old(if addr in sessions then sessions[addr].Value() else NEW_SESSION);
                var greeting := if addr in old(sessions) then [] else [OkReady];
                var requests := ParseAll(SplitLines(DecodeIgnoring(data)), intOf);
                && |seen| == |requests| == |disks| - 1
                && Passes(start, users, seen, requests, disks, storage.fs.reliable)
                && disks[0] == old(storage.fs.disk) && disks[|requests|] == storage.fs.disk
                && var turn := TurnOf(start, users, seen, data, intOf);
                   && sessions[addr].Value() == turn.session
                   && Out() == Posts(old(Out()), addr, greeting + turn.replies)
    {
      hide Pop3Server.Valid;
      hide AfterLines, LineReplies, Passes, SessionOk, ParseAll, Posts, SameBut;
      ghost var greeting;
      var session;
      session, greeting := Open(addr);
      ghost var start := session.Value();
      var lines := SplitLines(DecodeIgnoring(data));
      crashed, seen, disks := HandleLines(addr, session, lines);
      if !crashed {
        PostsConcat(old(Out()), addr, greeting, LineReplies(start, users, seen, ParseAll(lines, intOf)));
      }
    }
  }
}
