/** What the lines a client writes do: commands as text, in any letter case. */
module Pop3Lines {
  import opened Wrappers
  import opened Text
  import opened TextLaws
  import opened Mailbox
  import opened MailboxReader
  import opened FileSystem
  import opened Pop3Session
  import opened Pop3Server

  const VERBS := ["USER", "PASS", "STAT", "LIST", "RETR", "DELE", "QUIT"]

  /** The verb is this one, in any letter case. */
  ghost predicate Spells(verb: string, name: string) {
    SameButCase(verb, name)
  }

  /** A word that can go over the wire. */
  predicate IsArgument(w: string) {
    IsWord(w) && IsAscii(w)
  }

  lemma VerbIsWord(verb: string, name: string)
    requires Upper(verb) == name && name != "" && forall i :: 0 <= i < |name| ==> 'A' <= name[i] <= 'Z'
    ensures IsArgument(verb)
  {
    forall i | 0 <= i < |verb| ensures !IsSpace(verb[i]) && verb[i] as int < 0x80 {
      assert Upper(verb)[i] == name[i];
    }
  }

  lemma Literals()
    ensures forall name :: name in VERBS ==> name != "" && Upper(name) == name
    ensures forall name, i :: name in VERBS && 0 <= i < |name| ==> 'A' <= name[i] <= 'Z'
  {
  }

  lemma Spelled(verb: string, name: string)
    requires name in VERBS
    ensures Spells(verb, name) <==> Upper(verb) == name
    ensures Spells(verb, name) ==> IsArgument(verb)
  {
    Literals();
    SameWordIff(verb, name);
    if Upper(verb) == name {
      VerbIsWord(verb, name);
    }
  }

  lemma AsciiConcat(a: string, b: string)
    ensures IsAscii(a + b) <==> IsAscii(a) && IsAscii(b)
  {
    assert IsAscii(a + b) ==> forall i :: 0 <= i < |a| ==> (a + b)[i] == a[i];
    assert IsAscii(a + b) ==> forall i :: 0 <= i < |b| ==> (a + b)[|a| + i] == b[i];
  }

  /** A word alone, or two words. */
  lemma OneWord(verb: string)
    requires IsArgument(verb)
    ensures Words(verb) == [verb] && !Contains(verb, CRLF)
  {
    WordsLaw("", verb, "");
    assert "" + verb + "" == verb;
    assert Words("") == [];
    NoBreakIn(verb);
  }

  lemma NoBreakIn(line: string)
    requires forall i :: 0 <= i < |line| ==> line[i] != '\n'
    ensures !Contains(line, CRLF)
  {
    if i :| OccursAt(line, CRLF, i) {
      LineBreakAt(line, i);
    }
  }

  lemma TwoWords(verb: string, word: string)
    requires IsArgument(verb) && IsArgument(word)
    ensures Words(verb + " " + word) == [verb, word] && IsAscii(verb + " " + word)
    ensures !Contains(verb + " " + word, CRLF)
  {
    var line := verb + " " + word;
    WordsLaw("", verb, " " + word);
    WordsLaw(" ", word, "");
    assert "" + verb + (" " + word) == line && " " + word + "" == " " + word;
    assert Words("") == [];
    AsciiConcat(verb, " ");
    AsciiConcat(verb + " ", word);
    hide Words;
    NoBreakIn(line);
  }

  // ---------------------------------------------------------------- one line to a packet

  /** A packet of one line with its end: the line is served, and nothing follows it. */
  lemma OneLineTurn(s: Pop3Session.Session, users: Users, seen: seq<Seen>, line: string, intOf: string -> Option<int>)
    requires IsAscii(line) && !Contains(line, CRLF) && |seen| == 2
    ensures SplitLines(DecodeIgnoring(line + "\r\n")) == [line, ""]
    ensures var r := Parse(line, intOf);
            TurnOf(s, users, seen, line + "\r\n", intOf)
            == Turn(AfterRequest(s, users, seen[0], r), RequestReplies(s, users, seen[0], r))
  {
    hide DecodeIgnoring, SplitLines, Contains, Parse, AfterRequest, RequestReplies, AfterLines, LineReplies;
    AsciiConcat(line, "\r\n");
    DecodeAscii(line + "\r\n");
    SplitOne(line);
    BlankLine(intOf);
    assert ParseAll([line, ""], intOf) == [Parse(line, intOf), Nothing];
    TwoRequests(s, users, seen, Parse(line, intOf));
  }

  lemma BlankLine(intOf: string -> Option<int>)
    ensures Parse("", intOf) == Nothing
  {
  }

  lemma OneRequest(s: Pop3Session.Session, users: Users, seen: Seen, r: Request)
    ensures AfterLines(s, users, [seen], [r]) == AfterRequest(s, users, seen, r)
    ensures LineReplies(s, users, [seen], [r]) == RequestReplies(s, users, seen, r)
  {
    hide AfterRequest, RequestReplies;
    assert [r][..0] == [] && [seen][..0] == [];
    assert [] + RequestReplies(s, users, seen, r) == RequestReplies(s, users, seen, r);
  }

  lemma TwoRequests(s: Pop3Session.Session, users: Users, seen: seq<Seen>, r: Request)
    requires |seen| == 2
    ensures AfterLines(s, users, seen, [r, Nothing]) == AfterRequest(s, users, seen[0], r)
    ensures LineReplies(s, users, seen, [r, Nothing]) == RequestReplies(s, users, seen[0], r)
  {
    NothingAsked(AfterRequest(s, users, seen[0], r), users, seen[1]);
    hide AfterRequest, RequestReplies;
    OneRequest(s, users, seen[0], r);
    assert [r, Nothing][..1] == [r] && seen[..1] == [seen[0]];
    assert RequestReplies(s, users, seen[0], r) + [] == RequestReplies(s, users, seen[0], r);
  }

  lemma NothingAsked(s: Pop3Session.Session, users: Users, seen: Seen)
    ensures AfterRequest(s, users, seen, Nothing) == s && RequestReplies(s, users, seen, Nothing) == []
  {
  }

  // ---------------------------------------------------------------- which command a line is

  function ArgIn(word: string, intOf: string -> Option<int>): Arg {
    match intOf(word)
    case Some(n) => Number(n)
    case None => NotANumber
  }

  /** The first word decides, whatever the case of its letters. */
  lemma ParseTwo(verb: string, word: string, intOf: string -> Option<int>)
    requires IsArgument(verb) && IsArgument(word)
    ensures var r, arg := Parse(verb + " " + word, intOf), ArgIn(word, intOf);
            && (Spells(verb, "USER") ==> r == Other(User(Some(word))))
            && (Spells(verb, "PASS") ==> r == Other(Pass(Some(word))))
            && (Spells(verb, "STAT") ==> r == Other(Stat))
            && (Spells(verb, "LIST") ==> r == Other(List(arg)))
            && (Spells(verb, "RETR") ==> r == Other(Retr(arg)))
            && (Spells(verb, "DELE") ==> r == Other(Dele(arg)))
            && (Spells(verb, "QUIT") ==> r == SignOff)
            && ((forall name :: name in VERBS ==> !Spells(verb, name)) ==> r == Other(Unknown))
  {
    hide Spells, IsArgument, Words, Upper, Contains, IsAscii;
    TwoWords(verb, word);
    Verbs(verb);
    assert [verb, word][1..] == [word];
  }

  lemma ParseOne(verb: string, intOf: string -> Option<int>)
    requires IsArgument(verb)
    ensures var r := Parse(verb, intOf);
            && (Spells(verb, "USER") ==> r == Other(User(None)))
            && (Spells(verb, "PASS") ==> r == Other(Pass(None)))
            && (Spells(verb, "STAT") ==> r == Other(Stat))
            && (Spells(verb, "LIST") ==> r == Other(List(NoArg)))
            && (Spells(verb, "RETR") ==> r == Other(Retr(NoArg)))
            && (Spells(verb, "DELE") ==> r == Other(Dele(NoArg)))
            && (Spells(verb, "QUIT") ==> r == SignOff)
            && ((forall name :: name in VERBS ==> !Spells(verb, name)) ==> r == Other(Unknown))
  {
    hide Spells, IsArgument, Words, Upper, Contains, IsAscii;
    OneWord(verb);
    Verbs(verb);
    assert [verb][1..] == [];
  }

  lemma Verbs(verb: string)
    ensures forall name :: name in VERBS ==> (Spells(verb, name) <==> Upper(verb) == name)
    ensures "USER" in VERBS && "PASS" in VERBS && "STAT" in VERBS && "LIST" in VERBS
    ensures "RETR" in VERBS && "DELE" in VERBS && "QUIT" in VERBS
  {
    hide Spells, Upper;
    forall name | name in VERBS ensures Spells(verb, name) <==> Upper(verb) == name {
      Spelled(verb, name);
    }
    assert VERBS[0] == "USER" && VERBS[1] == "PASS" && VERBS[2] == "STAT" && VERBS[3] == "LIST";
    assert VERBS[4] == "RETR" && VERBS[5] == "DELE" && VERBS[6] == "QUIT";
  }

  // ---------------------------------------------------------------- what each command does

  /** A packet of this line, whose command finds x on the disk, leads to this. */
  ghost predicate Leads(s: Pop3Session.Session, users: Users, x: Seen, intOf: string -> Option<int>, line: string,
                        session: Pop3Session.Session, replies: seq<Reply>)
  {
    && |SplitLines(DecodeIgnoring(line + "\r\n"))| == 2
    && forall y :: TurnOf(s, users, [x, y], line + "\r\n", intOf) == Turn(session, replies)
  }

  lemma LeadsTo(s: Pop3Session.Session, users: Users, x: Seen, intOf: string -> Option<int>, line: string)
    requires IsAscii(line) && !Contains(line, CRLF)
    ensures var r := Parse(line, intOf);
            Leads(s, users, x, intOf, line, AfterRequest(s, users, x, r), RequestReplies(s, users, x, r))
  {
    hide AfterRequest, RequestReplies, Parse, TurnOf, SplitLines, DecodeIgnoring, Contains;
    forall y: Seen
      ensures |SplitLines(DecodeIgnoring(line + "\r\n"))| == 2
      ensures var r := Parse(line, intOf);
              TurnOf(s, users, [x, y], line + "\r\n", intOf)
              == Turn(AfterRequest(s, users, x, r), RequestReplies(s, users, x, r))
    {
      OneLineTurn(s, users, [x, y], line, intOf);
    }
    OneLineTurn(s, users, [x, x], line, intOf);
  }

  lemma TwoLead(s: Pop3Session.Session, users: Users, x: Seen, intOf: string -> Option<int>, verb: string, word: string)
    requires IsArgument(verb) && IsArgument(word)
    ensures var r := Parse(verb + " " + word, intOf);
            Leads(s, users, x, intOf, verb + " " + word, AfterRequest(s, users, x, r), RequestReplies(s, users, x, r))
  {
    hide AfterRequest, RequestReplies, Parse, Leads;
    TwoWords(verb, word);
    LeadsTo(s, users, x, intOf, verb + " " + word);
  }

  lemma OneLeads(s: Pop3Session.Session, users: Users, x: Seen, intOf: string -> Option<int>, verb: string)
    requires IsArgument(verb)
    ensures var r := Parse(verb, intOf);
            Leads(s, users, x, intOf, verb, AfterRequest(s, users, x, r), RequestReplies(s, users, x, r))
  {
    hide AfterRequest, RequestReplies, Parse, Leads;
    OneWord(verb);
    LeadsTo(s, users, x, intOf, verb);
  }

  /** USER names a user that has an account, before the mailbox is open. */
  lemma UserLine(s: Pop3Session.Session, users: Users, x: Seen, intOf: string -> Option<int>, verb: string,
      word: string)
    requires Spells(verb, "USER") && IsArgument(word) && s.state.Authorization?
    ensures var known := Lower(word) in users;
            Leads(s, users, x, intOf, verb + " " + word, if known then s.(user := Some(word)) else s,
                  [if known then OkUser(word) else Err("No such user")])
  {
    Known(verb);
    hide Leads, Parse, Spells, IsArgument, Lower, IsAscii, Kept, Total, Scans;
    ParseTwo(verb, word, intOf);
    TwoLead(s, users, x, intOf, verb, word);
  }

  /** PASS opens the mailbox of the user named, with his password only, and forgets him otherwise. */
  lemma PassLine(s: Pop3Session.Session, users: Users, x: Seen, intOf: string -> Option<int>, verb: string,
      word: string)
    requires Spells(verb, "PASS") && IsArgument(word) && s.state.Authorization? && s.user.Some? && s.user.value != ""
    ensures var right := Lower(s.user.value) in users && users[Lower(s.user.value)] == word;
            Leads(s, users, x, intOf, verb + " " + word,
                  if right then s.(state := Transaction) else s.(user := None),
                  [if right then OkOpen else Err("Invalid credentials")])
  {
    Known(verb);
    hide Leads, Parse, Spells, IsArgument, Lower, IsAscii, Kept, Total, Scans;
    ParseTwo(verb, word, intOf);
    TwoLead(s, users, x, intOf, verb, word);
  }

  /** STAT counts the messages that are not marked and adds up their sizes. */
  lemma StatLine(s: Pop3Session.Session, users: Users, x: Seen, intOf: string -> Option<int>, verb: string)
    requires Spells(verb, "STAT") && s.state.Transaction?
    ensures var kept := Kept(x.items, s.marked, 1);
            Leads(s, users, x, intOf, verb, s, [OkStat(|kept|, Total(kept))])
  {
    Known(verb);
    hide Leads, Parse, Spells, IsArgument, Lower, IsAscii, Kept, Total, Scans;
    ParseOne(verb, intOf);
    OneLeads(s, users, x, intOf, verb);
  }

  /** LIST goes through all that are not marked; LIST n tells the size of message n, if it is there and not marked. */
  lemma ListLine(s: Pop3Session.Session, users: Users, x: Seen, intOf: string -> Option<int>, verb: string)
    requires Spells(verb, "LIST") && s.state.Transaction?
    ensures Leads(s, users, x, intOf, verb, s, [OkList(|x.items|)] + Scans(x.items, s.marked, 1) + [Dot])
  {
    Known(verb);
    hide Leads, Parse, Spells, IsArgument, Lower, IsAscii, Kept, Total, Scans;
    ParseOne(verb, intOf);
    OneLeads(s, users, x, intOf, verb);
  }

  lemma ListOneLine(s: Pop3Session.Session, users: Users, x: Seen, intOf: string -> Option<int>, verb: string,
      word: string, n: int)
    requires Spells(verb, "LIST") && IsArgument(word) && intOf(word) == Some(n) && s.state.Transaction?
    ensures Leads(s, users, x, intOf, verb + " " + word, s,
                  [if 1 <= n <= |x.items| && n !in s.marked then OkScan(n, x.items[n - 1].size)
                   else Err("No such message")])
  {
    Known(verb);
    hide Leads, Parse, Spells, IsArgument, Lower, IsAscii, Kept, Total, Scans;
    ParseTwo(verb, word, intOf);
    TwoLead(s, users, x, intOf, verb, word);
  }

  /** RETR n sends the text of message n between its length and a dot, if it is there, not marked, not empty and ASCII;
      and it marks nothing. */
  lemma RetrLine(s: Pop3Session.Session, users: Users, x: Seen, intOf: string -> Option<int>, verb: string,
      word: string, n: int)
    requires Spells(verb, "RETR") && IsArgument(word) && intOf(word) == Some(n) && s.state.Transaction?
    ensures Leads(s, users, x, intOf, verb + " " + word, s,
                  if !(1 <= n <= |x.items|) || n in s.marked then [Err("No such message")]
                  else
                    match x.texts(x.items[n - 1].name)
                    case None => [Err("could not retrieve message")]
                    case Some(text) =>
                      if text == "" then [Err("could not retrieve message")]
                      else if !IsAscii(text) then [OkOctets(|text|), Err("Invalid message number")]
                      else [OkOctets(|text|), Body(text), Dot])
  {
    Known(verb);
    hide Leads, Parse, Spells, IsArgument, Lower, IsAscii, Kept, Total, Scans;
    ParseTwo(verb, word, intOf);
    TwoLead(s, users, x, intOf, verb, word);
  }

  /** DELE n marks message n, if it is there and not marked, and sends no text. */
  lemma DeleLine(s: Pop3Session.Session, users: Users, x: Seen, intOf: string -> Option<int>, verb: string,
      word: string, n: int)
    requires Spells(verb, "DELE") && IsArgument(word) && intOf(word) == Some(n) && s.state.Transaction?
    ensures var there := 1 <= n <= |x.items| && n !in s.marked;
            Leads(s, users, x, intOf, verb + " " + word, if there then s.(marked := s.marked + {n}) else s,
                  [if there then OkDeleted(n) else Err("Message already deleted or does not exist")])
  {
    Known(verb);
    hide Leads, Parse, Spells, IsArgument, Lower, IsAscii, Kept, Total, Scans;
    ParseTwo(verb, word, intOf);
    TwoLead(s, users, x, intOf, verb, word);
  }

  /** A word that is no number. */
  lemma NotANumberLine(s: Pop3Session.Session, users: Users, x: Seen, intOf: string -> Option<int>, verb: string,
      word: string)
    requires Spells(verb, "LIST") || Spells(verb, "RETR") || Spells(verb, "DELE")
    requires IsArgument(word) && intOf(word) == None && s.state.Transaction?
    ensures Leads(s, users, x, intOf, verb + " " + word, s, [Err("Invalid message number")])
  {
    Known(verb);
    hide Leads, Parse, Spells, IsArgument, Lower, IsAscii, Kept, Total, Scans;
    ParseTwo(verb, word, intOf);
    TwoLead(s, users, x, intOf, verb, word);
  }

  /** No word at all where one is needed. */
  lemma NoArgumentLine(s: Pop3Session.Session, users: Users, x: Seen, intOf: string -> Option<int>, verb: string)
    requires (Spells(verb, "USER") && s.state.Authorization?) || (Spells(verb, "RETR") && s.state.Transaction?)
    ensures Leads(s, users, x, intOf, verb, s, [Err("Missing argument")])
  {
    Known(verb);
    hide Leads, Parse, Spells, IsArgument, Lower, IsAscii, Kept, Total, Scans;
    ParseOne(verb, intOf);
    OneLeads(s, users, x, intOf, verb);
  }

  /** USER and PASS are refused once the mailbox is open, and all others but QUIT before. */
  lemma RefusedLine(s: Pop3Session.Session, users: Users, x: Seen, intOf: string -> Option<int>, verb: string,
      word: string)
    requires IsArgument(word)
    requires if s.state.Transaction? then Spells(verb, "USER") || Spells(verb, "PASS")
             else Spells(verb, "STAT") || Spells(verb, "LIST") || Spells(verb, "RETR") || Spells(verb, "DELE")
    ensures Leads(s, users, x, intOf, verb + " " + word, s, [Err("Command not allowed here")])
  {
    Known(verb);
    hide Leads, Parse, Spells, IsArgument, Lower, IsAscii, Kept, Total, Scans;
    ParseTwo(verb, word, intOf);
    TwoLead(s, users, x, intOf, verb, word);
  }

  /** QUIT is answered and leaves the session as it is. */
  lemma QuitLine(s: Pop3Session.Session, users: Users, x: Seen, intOf: string -> Option<int>, verb: string)
    requires Spells(verb, "QUIT")
    ensures Leads(s, users, x, intOf, verb, s, [OkBye])
  {
    Known(verb);
    hide Leads, Parse, Spells, IsArgument;
    ParseOne(verb, intOf);
    OneLeads(s, users, x, intOf, verb);
  }

  /** It is the only command that changes a mailbox. */
  lemma OnlyQuitDeletes(s: Pop3Session.Session, intOf: string -> Option<int>, verb: string, word: string, before: Disk,
      after: Disk, reliable: bool)
    requires IsArgument(verb) && IsArgument(word) && !Spells(verb, "QUIT")
    requires Leaves(s, Parse(verb, intOf), before, after, false, reliable)
          || Leaves(s, Parse(verb + " " + word, intOf), before, after, false, reliable)
    ensures after == before
  {
    hide Parse, Spells, IsArgument, QuitLeaves;
    ParseOne(verb, intOf);
    ParseTwo(verb, word, intOf);
  }

  /** Any other first word. */
  lemma UnknownLine(s: Pop3Session.Session, users: Users, x: Seen, intOf: string -> Option<int>, verb: string,
      word: string)
    requires IsArgument(verb) && IsArgument(word) && forall name :: name in VERBS ==> !Spells(verb, name)
    ensures Leads(s, users, x, intOf, verb, s, [Err("Unknown command")])
    ensures Leads(s, users, x, intOf, verb + " " + word, s, [Err("Unknown command")])
  {
    hide Leads, Parse, Spells, IsArgument;
    ParseOne(verb, intOf);
    OneLeads(s, users, x, intOf, verb);
    ParseTwo(verb, word, intOf);
    TwoLead(s, users, x, intOf, verb, word);
  }

  lemma Known(verb: string)
    ensures forall name :: name in VERBS && Spells(verb, name) ==> IsArgument(verb)
    ensures "USER" in VERBS && "PASS" in VERBS && "STAT" in VERBS && "LIST" in VERBS
    ensures "RETR" in VERBS && "DELE" in VERBS && "QUIT" in VERBS
  {
    Verbs(verb);
    hide Spells, IsArgument;
    forall name | name in VERBS && Spells(verb, name) ensures IsArgument(verb) {
      Spelled(verb, name);
    }
  }
}
