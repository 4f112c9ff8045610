/** Whose mailbox a message reaches: that of the earliest recipient not yet cleared, which need not be the recipient
    named in the message's own transaction. */
module SmtpDelivery {
  import opened Wrappers
  import opened Text
  import opened SmtpSession
  import opened SmtpCommands
  import opened SmtpPackets

  /** The address of the last RCPT accepted: where a session waits for DATA or reads data, that of its transaction. */
  function OwnRecipient(users: Accounts, events: seq<Event>): seq<string> {
    if events == [] then []
    else if IsAcceptedRcpt(users, events) then RcptAddress(events[|events| - 1])
    else OwnRecipient(users, events[..|events| - 1])
  }

  predicate InTransaction(c: Core) {
    c.state.WaitForDataCmd? || c.state.ReadingDataStream?
  }

  /** One event: a transaction gets its recipient when RCPT is accepted, and keeps it. */
  lemma AfterTransaction(c: Core, users: Accounts, e: Event)
    requires InTransaction(After(c, users, e))
    ensures var accepts := IsVerb(e, Verb.Rcpt) && ReplyTo(c, users, e) == Ok;
            && (accepts ==> |RcptAddress(e)| == 1 && After(c, users, e).rcptTo == c.rcptTo + RcptAddress(e))
            && (!accepts ==> InTransaction(c) && After(c, users, e).rcptTo == c.rcptTo)
  {
    hide Parse, ParseAngleAddr, Strip, UserOf;
    match e
    case Greeting =>
    case Line(text) =>
    case Block(_, fate) =>
  }

  lemma {:induction false} OwnIsLast(users: Accounts, events: seq<Event>)
    requires InTransaction(CoreAfter(users, events))
    ensures var c := CoreAfter(users, events);
            c.rcptTo != [] && OwnRecipient(users, events) == [c.rcptTo[|c.rcptTo| - 1]]
  {
    hide After, ReplyTo, RcptAddress, IsVerb;
    if events != [] {
      var k := |events| - 1;
      AfterTransaction(CoreAfter(users, events[..k]), users, events[k]);
      if !IsAcceptedRcpt(users, events) {
        OwnIsLast(users, events[..k]);
      }
    }
  }

  /** A stored message reaches the user named in its own transaction if and only if the earliest recipient still kept is
      that same user; and so it does if nothing interrupted the transaction. */
  lemma ReachesItsOwnIff(users: Accounts, events: seq<Event>, fate: Fate)
    requires Legal(users, events) && CoreAfter(users, events).state.ReadingDataStream?
    requires Deliver(CoreAfter(users, events), users, fate).saved.Some?
    ensures |OwnRecipient(users, events)| == 1 && Recipients(users, events) != []
    ensures var reached := Deliver(CoreAfter(users, events), users, fate).saved.value;
            var own := OwnRecipient(users, events)[0];
            && (reached == UserOf(own) <==> UserOf(Recipients(users, events)[0]) == UserOf(own))
            && (!Interrupted(users, events) ==> reached == UserOf(own))
  {
    hide CoreAfter, Recipients, OwnRecipient, Interrupted, UserOf;
    OwnIsLast(users, events);
    RecipientsTracked(users, events);
    RecipientsWhen(users, events);
  }

  // ---------------------------------------------------------------- a message that does not

  /** HELO, MAIL and RCPT with these addresses. */
  function Transaction(from: string, to: string): seq<Event> {
    [Line("HELO localhost"), Line("MAIL " + Path("FROM:", from)), Line("RCPT " + Path("TO:", to))]
  }

  lemma OneMoreEvent(users: Accounts, events: seq<Event>, e: Event)
    requires Legal(users, events) && !e.Block?
    ensures Legal(users, events + [e]) && CoreAfter(users, events + [e]) == After(CoreAfter(users, events), users, e)
    ensures OwnRecipient(users, events + [e])
         == if IsVerb(e, Verb.Rcpt) && ReplyTo(CoreAfter(users, events), users, e) == Ok then RcptAddress(e)
            else OwnRecipient(users, events)
  {
    hide After, ReplyTo, RcptAddress, IsVerb;
    assert (events + [e])[..|events|] == events;
  }

  lemma RcptNames(to: string)
    requires GoodAddress(to)
    ensures var e := Line("RCPT " + Path("TO:", to)); IsVerb(e, Verb.Rcpt) && RcptAddress(e) == [Strip(to)]
  {
    hide Parse, Strip, ParseAngleAddr, IsAscii;
    ParseRcpt(to);
    AngleAddr(to);
    assert Path("TO:", to)[3..] == "<" + to + ">";
  }

  /** A session takes such a transaction wherever it stands, and adds the recipient to those it has. */
  lemma TakesTransaction(users: Accounts, events: seq<Event>, from: string, to: string)
    requires Legal(users, events) && GoodAddress(from) && GoodAddress(to)
    ensures var c, after := CoreAfter(users, events), events + Transaction(from, to);
            && Legal(users, after) && CoreAfter(users, after).state.WaitForDataCmd?
            && CoreAfter(users, after).rcptTo == c.rcptTo + [Strip(to)] && OwnRecipient(users, after) == [Strip(to)]
  {
    hide Strip, Path, RcptAddress, OwnRecipient, CoreAfter, Legal, Dispatch, IsVerb, GoodAddress;
    hide Reply.Code;
    var helo := Line("HELO localhost");
    var mail, rcpt := Line("MAIL " + Path("FROM:", from)), Line("RCPT " + Path("TO:", to));
    var c := CoreAfter(users, events);
    OneMoreEvent(users, events, helo);
    HeloAnswered(c);
    var c1 := Dispatch(c, helo.text).core;
    OneMoreEvent(users, events + [helo], mail);
    AsciiIfGood(from);
    AsciiIfGood(to);
    MailAnswered(c1, from);
    var c2 := Dispatch(c1, mail.text).core;
    OneMoreEvent(users, events + [helo] + [mail], rcpt);
    RcptAnswered(c2, to);
    RcptReplies(c2, to);
    RcptNames(to);
    assert events + [helo] + [mail] + [rcpt] == events + Transaction(from, to);
  }

  lemma AsciiIfGood(address: string)
    requires GoodAddress(address)
    ensures IsAscii(address)
  {
  }

  lemma RcptReplies(c: Core, to: string)
    requires GoodAddress(to) && c.state.WaitForRcptTo?
    ensures Dispatch(c, "RCPT " + Path("TO:", to)).reply == Ok
  {
    hide Parse, Strip, Path, RcptTo;
    ParseRcpt(to);
    RcptToPath(c, to);
  }

  /** A transaction that is broken off by HELO before its DATA, and a second one, up to DATA. */
  function GivenUp(from: string, first: string, second: string): seq<Event> {
    [Greeting] + Transaction(from, first) + Transaction(from, second) + [Line("DATA")]
  }

  /** Then the second message reaches the mailbox of the first recipient, whoever the two are. */
  lemma Misdelivered(users: Accounts, from: string, first: string, second: string, fate: Fate)
    requires GoodAddress(from) && GoodAddress(first) && GoodAddress(second) && UserOf(Strip(first)) in users
             && fate.Saved?
    ensures var events := GivenUp(from, first, second);
            && Legal(users, events) && CoreAfter(users, events).state.ReadingDataStream?
            && OwnRecipient(users, events) == [Strip(second)]
            && Deliver(CoreAfter(users, events), users, fate).saved == Some(UserOf(Strip(first)))
  {
    hide Dispatch, Strip, UserOf, GoodAddress, Transaction, RcptAddress, IsVerb, Legal;
    var before := [Greeting] + Transaction(from, first) + Transaction(from, second);
    assert [] + [Greeting] == [Greeting];
    NothingHappened(users);
    Snoc(users, [], Greeting);
    TakesTransaction(users, [Greeting], from, first);
    TakesTransaction(users, [Greeting] + Transaction(from, first), from, second);
    hide CoreAfter, OwnRecipient;
    OneMoreEvent(users, before, Line("DATA"));
    DataAnswered(CoreAfter(users, before));
    DataIsNoRcpt();
  }

  lemma DataIsNoRcpt()
    ensures !IsVerb(Line("DATA"), Verb.Rcpt)
  {
    hide Parse;
    WordLines();
  }

  // ---------------------------------------------------------------- a session stuck with an unknown recipient

  predicate StuckOn(c: Core, users: Accounts) {
    c.rcptTo != [] && UserOf(c.rcptTo[0]) !in users
  }

  lemma StaysStuck(c: Core, users: Accounts, e: Event)
    requires StuckOn(c, users) && !e.Greeting? && !IsVerb(e, Verb.Rset)
    ensures StuckOn(After(c, users, e), users) && ReplyTo(c, users, e) != Accepted
  {
    hide Parse, ParseAngleAddr, Strip, UserOf;
    match e
    case Line(text) =>
    case Block(_, fate) =>
  }

  /** Once the earliest recipient has no account, no message of the session is accepted any more, whoever it is for,
      until RSET. */
  lemma {:induction false} StuckUntilReset(users: Accounts, events: seq<Event>, more: seq<Event>, i: nat)
    requires StuckOn(CoreAfter(users, events), users) && i < |more|
    requires forall j :: 0 <= j <= i ==> !more[j].Greeting? && !IsVerb(more[j], Verb.Rset)
    ensures StuckOn(CoreAfter(users, events + more[..i + 1]), users)
    ensures ReplyTo(CoreAfter(users, events + more[..i]), users, more[i]) != Accepted
    decreases i
  {
    hide After, ReplyTo, StuckOn, IsVerb;
    if i == 0 {
      assert events + more[..0] == events;
    } else {
      StuckUntilReset(users, events, more, i - 1);
    }
    StaysStuck(CoreAfter(users, events + more[..i]), users, more[i]);
    assert events + more[..i + 1] == (events + more[..i]) + [more[i]];
    Snoc(users, events + more[..i], more[i]);
  }
}
