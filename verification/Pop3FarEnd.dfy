/** The server as one POP3 client sees it, over a link that loses nothing. */
module Pop3FarEnd {
  import opened Wrappers
  import opened Text
  import opened Mailbox
  import opened MailboxReader
  import opened Pop3Session
  import opened Pop3Runs
  import opened Pop3Server
  import FileSystem
  import MailboxWriter
  import Utf8
  import TextLaws

  type Texts = map<string, string>

  /** A stored text that RETR can carry: it is not refused, can be encoded, and is not taken for the closing dot. */
  predicate Good(text: string) {
    text != "" && IsAscii(text) && Strip(text) != "."
  }

  /** Nothing but new arrivals happened to the mailbox and to the stored texts. */
  ghost predicate Grown(before: Run, files: Texts, after: Run, files': Texts) {
    && after.base == before.base && before.arrived <= after.arrived
    && forall name :: name in files ==> name in files' && files'[name] == files[name]
  }

  /** Grown, and nothing happened to the session; the listing grew by what arrived. */
  ghost predicate OnlyMail(before: Run, files: Texts, after: Run, files': Texts) {
    && Grown(before, files, after, files') && after.session == before.session && SamePhase(before.mode, after.mode)
    && Listing(after.meta) == Listing(before.meta) + after.arrived[|before.arrived|..]
  }

  lemma OnlyMailNone(r: Run, files: Texts)
    ensures OnlyMail(r, files, r, files)
  {
  }

  lemma OnlyMailTwice(r: Run, files: Texts, r': Run, files': Texts, r'': Run, files'': Texts)
    requires OnlyMail(r, files, r', files') && OnlyMail(r', files', r'', files'')
    ensures OnlyMail(r, files, r'', files'')
  {
    hide Listing;
    assert r''.arrived[|r.arrived|..] == r'.arrived[|r.arrived|..] + r''.arrived[|r'.arrived|..];
  }

  lemma Arrived(r: Run, users: Users, files: Texts, e: Entry, text: string, reliable: bool)
    requires Inv(r) && !Has(r.meta, e.name) && !e.deleted && e.name !in files
    requires EntryOk(e, files[e.name := text], reliable)
    requires forall i :: 0 <= i < |r.meta| ==> EntryOk(r.meta[i], files, reliable)
    ensures var r' := Next(r, users, Deliver(e));
            && Inv(r') && OnlyMail(r, files, r', files[e.name := text]) && r'.meta == r.meta + [e]
            && forall i :: 0 <= i < |r'.meta| ==> EntryOk(r'.meta[i], files[e.name := text], reliable)
  {
    hide Inv, Listing, Put, Has, EntryOk;
    ArrivedAtRun(r, users, e);
    TextsGrown(r.meta, files, e, text, reliable);
  }

  lemma ArrivedAtRun(r: Run, users: Users, e: Entry)
    requires Inv(r) && !Has(r.meta, e.name) && !e.deleted
    ensures var r' := Next(r, users, Deliver(e));
            && Inv(r') && r'.meta == r.meta + [e] && r'.base == r.base && r'.arrived == r.arrived + [ItemOf(e)]
            && r'.session == r.session && SamePhase(r.mode, r'.mode)
            && Listing(r'.meta) == Listing(r.meta) + [ItemOf(e)]
  {
    assert Distinct(r.meta);
    hide Inv, Listing, Put, Has;
    StepInv(r, users, Deliver(e));
    PutFresh(r.meta, e);
    DeliveredListing(r.meta, e);
  }

  lemma TextsGrown(m: Meta, files: Texts, e: Entry, text: string, reliable: bool)
    requires e.name !in files && EntryOk(e, files[e.name := text], reliable)
    requires forall i :: 0 <= i < |m| ==> EntryOk(m[i], files, reliable)
    ensures forall i :: 0 <= i < |m + [e]| ==> EntryOk((m + [e])[i], files[e.name := text], reliable)
  {
  }

  ghost predicate SamePhase(before: Mode, after: Mode) {
    match before
    case Open => after.Open?
    case Closing(listing, pending, _) => after.Closing? && after.listing == listing && after.pending == pending
    case Closed(listing, _) => after.Closed? && after.listing == listing
  }

  predicate EntryOk(e: Entry, files: Texts, reliable: bool) {
    e.name in files && (reliable ==> (e.size == 0 <==> files[e.name] == ""))
  }

  /** The texts of a mailbox, as they are read. */
  function TextsIn(box: FileSystem.Box): Texts {
    map name | name in box.files :: Newlines(box.files[name])
  }

  /** What the writer keeps on a reliable disk is what is taken for granted here: recorded sizes that are 0 exactly for
      empty texts. */
  lemma WrittenIsOk(box: FileSystem.Box)
    requires MailboxWriter.SizesExact(box)
    ensures forall i :: 0 <= i < |FileSystem.MetaOf(box)| ==> EntryOk(FileSystem.MetaOf(box)[i], TextsIn(box), true)
  {
    hide FileSystem.MetaOf, FileSystem.Octets;
    var m := FileSystem.MetaOf(box);
    forall i | 0 <= i < |m| ensures EntryOk(m[i], TextsIn(box), true) {
      Utf8.OctetsAsciiIff(box.files[m[i].name]);
      TextLaws.NewlinesEmptyIff(box.files[m[i].name]);
    }
  }

  /** Every message in the mailbox, in order of arrival, that this session did not delete before it began. */
  function Seq(r: Run): seq<Item> {
    r.base + r.arrived
  }

  /** The numbers 1 to k. */
  function UpTo(k: nat): (numbers: set<int>)
    ensures forall n :: n in numbers <==> 1 <= n <= k
  {
    if k == 0 then {} else UpTo(k - 1) + {k}
  }

  lemma {:induction false} KeptAfter(items: seq<Item>, k: nat, first: int)
    requires first >= 1
    ensures var skip := if k < first then 0 else if k - first + 1 > |items| then |items| else k - first + 1;
            Kept(items, UpTo(k), first) == items[skip..]
    decreases |items|
  {
    if items != [] {
      KeptAfter(items[1..], k, first + 1);
    }
  }

  /** The far end: the mailbox, one session on it, and the replies on their way.  Mail may arrive at any moment.  A
      read of the metadata or of a message may fail unless the disk is reliable; those of QUIT do not.  A dead server
      has stopped serving. */
  class ServerEnd {
    const users: Users
    const reliable: bool
    var run: Run
    var files: Texts
    var inbox: seq<Reply>
    var dead: bool
    /** The mail stored before this session, in order. */
    ghost var prior: seq<Item>

    /** All mail ever stored, in order. */
    ghost function Ever(): seq<Item>
      reads this`run, this`prior
    {
      prior + run.arrived
    }

    /** Each message has its text; on a reliable disk its recorded size is 0 only if the text is empty. */
    ghost predicate Valid()
      reads this`run, this`files
    {
      Inv(run) && forall i :: 0 <= i < |run.meta| ==> EntryOk(run.meta[i], files, reliable)
    }

    constructor (users: Users, reliable: bool)
      ensures this.users == users && this.reliable == reliable && files == map[] && run.meta == []
      ensures Valid() && inbox == [] && run.mode.Closed? && !dead && Ever() == []
    {
      this.users, this.reliable := users, reliable;
      run, files, inbox := Run([], NEW_SESSION, Closed([], []), [], []), map[], [];
      dead, prior := false, [];
    }

    /** Mail is stored. */
    method Meanwhile()
      requires Valid()
      modifies this`run, this`files
      ensures Valid() && OnlyMail(old(run), old(files), run, files)
    {
      hide ServerEnd.Valid, EntryOk, OnlyMail;
      OnlyMailNone(run, files);
      var k: nat :| true;
      for i := 0 to k
        invariant Valid() && OnlyMail(old(run), old(files), run, files)
      {
        var e: Entry := *;
        var text: string := *;
        if !Has(run.meta, e.name) && !e.deleted && e.name !in files && EntryOk(e, files[e.name := text], reliable) {
          ghost var run1, files1 := run, files;
          Arrive(e, text);
          OnlyMailTwice(old(run), old(files), run1, files1, run, files);
        }
      }
    }

    method Arrive(e: Entry, text: string)
      requires Valid() && !Has(run.meta, e.name) && !e.deleted && e.name !in files
      requires EntryOk(e, files[e.name := text], reliable)
      modifies this`run, this`files
      ensures Valid() && OnlyMail(old(run), old(files), run, files)
      ensures run.meta == old(run.meta) + [e] && files == old(files)[e.name := text]
    {
      Arrived(run, users, files, e, text, reliable);
      hide Inv, OnlyMail, EntryOk, Next;
      run, files := Next(run, users, Deliver(e)), files[e.name := text];
    }

    /** A client's first packet; an earlier client may have left its session open. */
    method Greet()
      requires Valid() && !run.mode.Closing? && !dead
      modifies this`run, this`inbox, this`prior
      ensures Valid() && Opened(run) && run.meta == old(run.meta) && inbox == [OkReady]
      ensures prior == old(Ever())
    {
      prior := prior + run.arrived;
      run := Run(run.meta, NEW_SESSION, Mode.Open, Listing(run.meta), []);
      OpenedInv(run);
      inbox := [OkReady];
    }

    /** What a command finds on the disk. */
    ghost predicate Finds(seen: Seen)
      reads this`run, this`files
    {
      && (seen.items == Seq(run) || (!reliable && seen.items == []))
      && forall name :: name in files ==>
           seen.texts(name) == Some(files[name]) || (!reliable && seen.texts(name) == None)
    }

    /** A command other than QUIT. */
    method Serve(c: Command) returns (ghost seen: Seen)
      requires Valid() && run.mode.Open? && !dead
      modifies this`run, this`files, this`inbox
      ensures Valid() && run.mode.Open? && Grown(old(run), old(files), run, files) && Finds(seen)
      ensures run.session == After(old(run.session), users, seen.items, c)
      ensures inbox == old(inbox) + Replies(old(run.session), users, seen.items, seen.texts, c)
    {
      Meanwhile();
      var listed: bool, readable: bool := *, *;
      var items := if listed || reliable then Listing(run.meta) else [];
      var stored := if readable || reliable then files else map[];
      var texts := (name: string) => if name in stored then Some(stored[name]) else None;
      seen := Seen(items, texts);
      inbox := inbox + Replies(run.session, users, items, texts, c);
      DoInv(run, users, c);
      run := run.(session := After(run.session, users, items, c));
    }

    method BeginQuit()
      requires Valid() && run.mode.Open?
      modifies this`run
      ensures Valid() && run.mode.Closing? && Grown(old(run), files, run, files) && run.session == old(run.session)
    {
      var order := SortedDown(run.session.marked);
      QuitInv(run, users, order);
      hide Inv, Descending;
      run := Next(run, users, Quit(order));
    }

    method DeleteOne()
      requires Valid() && run.mode.Closing? && run.mode.pending != []
      modifies this`run
      ensures Valid() && run.mode.Closing? && Grown(old(run), files, run, files) && run.session == old(run.session)
      ensures |run.mode.pending| < |old(run.mode.pending)|
    {
      DeleteInv(run, users);
      hide Inv;
      run := Next(run, users, DeleteNext);
    }

    method EndQuit()
      requires Valid() && run.mode.Closing? && run.mode.pending == []
      modifies this`run
      ensures Valid() && run.mode.Closed? && Grown(old(run), files, run, files) && run.session == old(run.session)
    {
      FinishInv(run, users);
      hide Inv;
      run := Next(run, users, Finish);
    }

    /** QUIT: mail may arrive between two of its deletions, too.  Without a user the server stops. */
    method SignOff()
      requires Valid() && run.mode.Open? && !dead
      modifies this`run, this`files, this`inbox, this`dead
      ensures Valid() && Grown(old(run), old(files), run, files) && run.session == old(run.session)
      ensures dead == !HasOwner(run.session)
      ensures if dead then run.mode.Open? && inbox == old(inbox) else run.mode.Closed? && inbox == old(inbox) + [OkBye]
    {
      hide ServerEnd.Valid;
      Meanwhile();
      if !HasOwner(run.session) {
        dead := true;
        return;
      }
      BeginQuit();
      while run.mode.pending != []
        invariant Valid() && run.mode.Closing? && Grown(old(run), old(files), run, files)
        invariant run.session == old(run.session) && inbox == old(inbox) && !dead
        decreases |run.mode.pending|
      {
        DeleteOne();
        Meanwhile();
      }
      EndQuit();
      inbox := inbox + [OkBye];
    }
  }
}
