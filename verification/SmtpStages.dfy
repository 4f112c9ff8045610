/** The order in which commands are accepted, read off the transcript; and a whole conversation as text. */
module SmtpStages {
  import opened Wrappers
  import opened Text
  import opened TextLaws
  import opened SmtpSession
  import opened SmtpCommands
  import opened SmtpPackets
  import opened SmtpFraming
  import opened SmtpDelivery
  import Lines = SmtpLines

  /** Where a session stands, from what its client has said and been answered: after the greeting or RSET it must say
      hello; after hello or a message it may give a sender; after an accepted MAIL a recipient; after an accepted RCPT
      it may begin its message. */
  function Stage(users: Accounts, events: seq<Event>): State {
    if events == [] then WaitForHelo
    else
      var e, reply := events[|events| - 1], LastReply(users, events);
      if e.Greeting? || IsVerb(e, Verb.Rset) then WaitForHelo
      else if IsVerb(e, Verb.Helo) || IsVerb(e, Verb.Ehlo) || e.Block? then WaitForMailFrom
      else if IsVerb(e, Verb.Mail) && reply == Ok then WaitForRcptTo
      else if IsVerb(e, Verb.Rcpt) && reply == Ok then WaitForDataCmd
      else if IsVerb(e, Verb.Data) && reply == StartInput then ReadingDataStream
      else Stage(users, events[..|events| - 1])
  }

  lemma AfterStage(c: Core, users: Accounts, e: Event)
    ensures var reply, now := ReplyTo(c, users, e), After(c, users, e).state;
            now == (if e.Greeting? || IsVerb(e, Verb.Rset) then WaitForHelo
                    else if IsVerb(e, Verb.Helo) || IsVerb(e, Verb.Ehlo) || e.Block? then WaitForMailFrom
                    else if IsVerb(e, Verb.Mail) && reply == Ok then WaitForRcptTo
                    else if IsVerb(e, Verb.Rcpt) && reply == Ok then WaitForDataCmd
                    else if IsVerb(e, Verb.Data) && reply == StartInput then ReadingDataStream
                    else c.state)
  {
    hide Parse, ParseAngleAddr, Strip, Upper, UserOf;
    match e
    case Greeting =>
    case Line(text) =>
    case Block(_, fate) =>
  }

  lemma {:induction false} StageTracked(users: Accounts, events: seq<Event>)
    ensures CoreAfter(users, events).state == Stage(users, events)
  {
    hide After, ReplyTo, IsVerb;
    if events != [] {
      var k := |events| - 1;
      StageTracked(users, events[..k]);
      AfterStage(CoreAfter(users, events[..k]), users, events[k]);
    }
  }

  /** A command is answered with "503 Bad sequence" if and only if it is MAIL before hello or after an accepted RCPT,
      RCPT other than after an accepted MAIL, or DATA other than after an accepted RCPT. */
  lemma BadSequenceIff(users: Accounts, events: seq<Event>, line: string)
    ensures var e, stage := Line(line), Stage(users, events);
            && BadSequence.Text() == "503 Bad sequence"
            && (ReplyTo(CoreAfter(users, events), users, e) == BadSequence
                <==> || (IsVerb(e, Verb.Mail) && !stage.WaitForMailFrom? && !stage.WaitForRcptTo?)
                     || (IsVerb(e, Verb.Rcpt) && !stage.WaitForRcptTo?)
                     || (IsVerb(e, Verb.Data) && !stage.WaitForDataCmd?))
  {
    StageTracked(users, events);
    AlwaysOk(users, events);
    hide Stage, CoreAfter, Parse, ParseAngleAddr, Strip, Upper;
  }

  // ---------------------------------------------------------------- a whole conversation

  /** One message, from the greeting to QUIT. */
  function Talk(from: string, to: string, m: string): seq<Event> {
    [Greeting] + Transaction(from, to) + [Line("DATA"), Block(m, Saved), Line("QUIT")]
  }

  const ANSWERS := ["220 Welcome Simple SMTP Server", "250 Hello", "250 OK", "250 OK",
                    "354 Start mail input; end with <CRLF>.<CRLF>", "250 OK: Message accepted for delivery", "221 Bye"]

  lemma Onwards(users: Accounts, events: seq<Event>, k: nat)
    requires k < |events|
    ensures CoreAfter(users, events[..k + 1]) == After(CoreAfter(users, events[..k]), users, events[k])
    ensures Legal(users, events[..k + 1])
       <==> Legal(users, events[..k]) && (events[k].Block? ==> CoreAfter(users, events[..k]).state.ReadingDataStream?)
  {
    assert events[..k + 1][..k] == events[..k];
  }

  lemma MailReplies(c: Core, from: string)
    requires GoodAddress(from) && c.state.WaitForMailFrom?
    ensures var d := Dispatch(c, "MAIL " + Path("FROM:", from));
            d.reply == Ok && d.core.state.WaitForRcptTo? && d.core.rcptTo == c.rcptTo
  {
    hide Parse, Strip, Path, MailFrom;
    ParseMail(from);
    MailFromPath(c, from);
  }

  lemma RcptAdds(c: Core, to: string)
    requires GoodAddress(to) && c.state.WaitForRcptTo?
    ensures var d := Dispatch(c, "RCPT " + Path("TO:", to));
            d.reply == Ok && d.core.state.WaitForDataCmd? && d.core.rcptTo == c.rcptTo + [Strip(to)]
  {
    hide Parse, Strip, Path, RcptTo;
    ParseRcpt(to);
    RcptToPath(c, to);
  }

  lemma DataAndQuit(c: Core)
    ensures Dispatch(c, "QUIT").reply == Bye
    ensures c.state.WaitForDataCmd? && c.rcptTo != [] ==>
              Dispatch(c, "DATA").reply == StartInput && Dispatch(c, "DATA").core == c.(state := ReadingDataStream)
  {
    hide Parse;
    WordLines();
  }

  lemma Delivered(c: Core, users: Accounts, to: string, local: string, domain: string)
    requires c.rcptTo == [to] && IsAddress(to, local, domain) && Lower(local) in users
    ensures Deliver(c, users, Saved).reply == Accepted && Deliver(c, users, Saved).saved == Some(Lower(local))
  {
    hide UserOf, Lower;
    UserIsLocalPart(to, local, domain);
  }

  lemma GreetingText()
    ensures Welcome.Text() == "220 Welcome Simple SMTP Server"
  {
  }

  lemma OkTexts()
    ensures Hello.Text() == "250 Hello"
    ensures Ok.Text() == "250 OK"
  {
  }

  lemma InputWords()
    ensures StartInput.Code() == "354" && StartInput.Words() == "Start mail input; end with <CRLF>.<CRLF>"
  {
  }

  lemma InputText()
    ensures StartInput.Text() == "354 Start mail input; end with <CRLF>.<CRLF>"
  {
    hide Reply.Code, Reply.Words;
    InputWords();
  }

  lemma AcceptedText()
    ensures Accepted.Text() == "250 OK: Message accepted for delivery"
  {
  }

  lemma ShortTexts()
    ensures Bye.Text() == "221 Bye"
    ensures BadSequence.Text() == "503 Bad sequence"
    ensures SyntaxError.Text() == "500 Syntax error"
    ensures Unrecognized.Text() == "500 Command unrecognized"
  {
  }

  lemma SyntaxTexts()
    ensures MailSyntax.Text() == "500 Syntax error in MAIL FROM"
    ensures RcptSyntax.Text() == "500 Syntax error in RCPT TO"
  {
  }

  lemma RefusalTexts()
    ensures NoRecipients.Text() == "550 No recipients" && NoSuchUser.Text() == "550 No such user"
  {
  }

  lemma FailureTexts()
    ensures NotStored.Text() == "451 Local processing error"
    ensures Unprocessed.Text() == "451 Error processing message"
  {
  }

  lemma Texts()
    ensures Welcome.Text() == ANSWERS[0] && Hello.Text() == ANSWERS[1] && Ok.Text() == ANSWERS[2] == ANSWERS[3]
    ensures StartInput.Text() == ANSWERS[4] && Accepted.Text() == ANSWERS[5] && Bye.Text() == ANSWERS[6]
  {
    hide Reply.Text;
    GreetingText();
    OkTexts();
    InputText();
    AcceptedText();
    ShortTexts();
  }

  /** Every reply as it is sent, but for its line end. */
  lemma RepliesAsSent()
    ensures Welcome.Text() == "220 Welcome Simple SMTP Server" && Hello.Text() == "250 Hello" && Ok.Text() == "250 OK"
    ensures StartInput.Text() == "354 Start mail input; end with <CRLF>.<CRLF>"
    ensures Accepted.Text() == "250 OK: Message accepted for delivery" && Bye.Text() == "221 Bye"
    ensures BadSequence.Text() == "503 Bad sequence" && SyntaxError.Text() == "500 Syntax error"
    ensures Unrecognized.Text() == "500 Command unrecognized" && MailSyntax.Text() == "500 Syntax error in MAIL FROM"
    ensures RcptSyntax.Text() == "500 Syntax error in RCPT TO" && NoRecipients.Text() == "550 No recipients"
    ensures NoSuchUser.Text() == "550 No such user" && NotStored.Text() == "451 Local processing error"
    ensures Unprocessed.Text() == "451 Error processing message"
  {
    hide Reply.Text;
    GreetingText();
    OkTexts();
    InputText();
    AcceptedText();
    ShortTexts();
    SyntaxTexts();
    RefusalTexts();
    FailureTexts();
  }

  /** The conversation up to DATA. */
  lemma TalkBegins(users: Accounts, from: string, to: string, m: string)
    requires GoodAddress(from) && GoodAddress(to)
    ensures var t := Talk(from, to, m);
            && Legal(users, t[..5]) && ReplyAt(users, t, 0) == Welcome && ReplyAt(users, t, 1) == Hello
            && ReplyAt(users, t, 2) == Ok && ReplyAt(users, t, 3) == Ok && ReplyAt(users, t, 4) == StartInput
            && CoreAfter(users, t[..5]).state.ReadingDataStream? && CoreAfter(users, t[..5]).rcptTo == [Strip(to)]
  {
    var t := Talk(from, to, m);
    hide Dispatch, Path, Strip, GoodAddress, CoreAfter, Legal;
    TalkEvents(from, to, m);
    hide Talk;
    NothingYet(users, t);
    Onwards(users, t, 0);
    Onwards(users, t, 1);
    Onwards(users, t, 2);
    Onwards(users, t, 3);
    Onwards(users, t, 4);
    HeloAnswered(NEW_CORE);
    MailReplies(CoreAfter(users, t[..2]), from);
    RcptAdds(CoreAfter(users, t[..3]), to);
    DataAndQuit(CoreAfter(users, t[..4]));
    assert [] + [Strip(to)] == [Strip(to)];
  }

  lemma NothingYet(users: Accounts, t: seq<Event>)
    ensures CoreAfter(users, t[..0]) == NEW_CORE && Legal(users, t[..0])
  {
  }

  lemma TalkEvents(from: string, to: string, m: string)
    ensures var t := Talk(from, to, m);
            && |t| == 7 && t[0] == Greeting && t[1] == Line("HELO localhost")
            && t[2] == Line("MAIL " + Path("FROM:", from)) && t[3] == Line("RCPT " + Path("TO:", to))
            && t[4] == Line("DATA") && t[5] == Block(m, Saved) && t[6] == Line("QUIT")
  {
    hide Path;
  }

  /** One message to a user with an account, from anybody: what the server says, word for word, and whose it is then. */
  lemma Conversation(users: Accounts, from: string, to: string, m: string, local: string, domain: string)
    requires GoodAddress(from) && GoodAddress(to) && IsAddress(Strip(to), local, domain) && Lower(local) in users
    ensures var t := Talk(from, to, m);
            && Legal(users, t) && |t| == |ANSWERS| == 7
            && (forall i :: 0 <= i < 7 ==> ReplyAt(users, t, i).Text() == ANSWERS[i])
            && Deliver(CoreAfter(users, t[..5]), users, Saved).saved == Some(Lower(local))
  {
    var t := Talk(from, to, m);
    hide GoodAddress, IsAddress, Strip, Lower, CoreAfter, Legal, Dispatch, Deliver, Reply.Text, Path;
    TalkBegins(users, from, to, m);
    TalkEvents(from, to, m);
    hide Talk, ANSWERS;
    Onwards(users, t, 5);
    Onwards(users, t, 6);
    Delivered(CoreAfter(users, t[..5]), users, Strip(to), local, domain);
    DataAndQuit(CoreAfter(users, t[..6]));
    Texts();
    assert t[..7] == t;
  }
}
