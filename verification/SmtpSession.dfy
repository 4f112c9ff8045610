/** The sessions of smtp_server.py as functions of what they take in: command lines and finished messages. */
module SmtpSession {
  import opened Wrappers
  import opened Text
  import opened TextLaws

  datatype State = WaitForHelo | WaitForMailFrom | WaitForRcptTo | WaitForDataCmd | ReadingDataStream

  /** A session without its two buffers. */
  datatype Core = Core(state: State, mailFrom: Option<string>, rcptTo: seq<string>)

  const NEW_CORE := Core(WaitForHelo, None, [])

  datatype Reply =
    | Welcome | Hello | Ok | StartInput | Accepted | Bye
    | BadSequence | SyntaxError | Unrecognized | MailSyntax | RcptSyntax
    | NoRecipients | NoSuchUser | NotStored | Unprocessed
  {
    function Code(): string {
      match this
      case Welcome => "220"
      case Hello => "250"
      case Ok => "250"
      case StartInput => "354"
      case Accepted => "250"
      case Bye => "221"
      case BadSequence => "503"
      case SyntaxError => "500"
      case Unrecognized => "500"
      case MailSyntax => "500"
      case RcptSyntax => "500"
      case NoRecipients => "550"
      case NoSuchUser => "550"
      case NotStored => "451"
      case Unprocessed => "451"
    }

    function Words(): string {
      match this
      case Welcome => "Welcome Simple SMTP Server"
      case Hello => "Hello"
      case Ok => "OK"
      case StartInput => "Start mail input; end with <CRLF>.<CRLF>"
      case Accepted => "OK: Message accepted for delivery"
      case Bye => "Bye"
      case BadSequence => "Bad sequence"
      case SyntaxError => "Syntax error"
      case Unrecognized => "Command unrecognized"
      case MailSyntax => "Syntax error in MAIL FROM"
      case RcptSyntax => "Syntax error in RCPT TO"
      case NoRecipients => "No recipients"
      case NoSuchUser => "No such user"
      case NotStored => "Local processing error"
      case Unprocessed => "Error processing message"
    }

    /** What is sent: this and CRLF. */
    function Text(): string {
      Code() + " " + Words()
    }
  }

  // ---------------------------------------------------------------- reading a line

  function Letters(s: string): (word: string)
    ensures word <= s
  {
    if s == "" || !IsLetter(s[0]) then "" else [s[0]] + Letters(s[1..])
  }

  datatype Verb = Helo | Ehlo | Mail | Rcpt | Data | Rset | Noop | Quit | Other

  function VerbOf(word: string): Verb {
    if word == "HELO" then Helo
    else if word == "EHLO" then Ehlo
    else if word == "MAIL" then Verb.Mail
    else if word == "RCPT" then Verb.Rcpt
    else if word == "DATA" then Verb.Data
    else if word == "RSET" then Rset
    else if word == "NOOP" then Noop
    else if word == "QUIT" then Quit
    else Other
  }

  datatype Command = Command(verb: Verb, arg: string)

  /** The verb and argument that the pattern of commands finds in a line: letters, then nothing or white space and a
      text without line feed. */
  function Parse(line: string): Option<Command> {
    var command := Strip(DecodeIgnoring(line));
    var verb := Letters(command);
    var tail := command[|verb|..];
    if verb == "" then None
    else if tail == "" then Some(Command(VerbOf(Upper(verb)), ""))
    else if !IsSpace(tail[0]) || '\n' in StripLeft(tail) then None
    else Some(Command(VerbOf(Upper(verb)), StripLeft(tail)))
  }

  function ParseAngleAddr(arg: string): Option<string> {
    if arg == "" then None
    else
      var stripped := Strip(arg);
      var address := if "<" <= stripped && |stripped| >= 2 && stripped[|stripped| - 1] == '>'
                     then Strip(stripped[1..|stripped| - 1]) else stripped;
      if '@' in address then Some(address) else None
  }

  // ---------------------------------------------------------------- commands

  /** What a command line leads to: renew says that both buffers were replaced by new empty ones, quit that the
      session was removed. */
  datatype Effect = Effect(core: Core, reply: Reply, renew: bool, quit: bool)

  function Answer(c: Core, reply: Reply): Effect {
    Effect(c, reply, false, false)
  }

  function MailFrom(c: Core, arg: string): Effect {
    if !c.state.WaitForMailFrom? && !c.state.WaitForRcptTo? then Answer(c, BadSequence)
    else if "FROM:" <= Upper(arg) && ParseAngleAddr(Strip(arg[5..])).Some? then
      Answer(c.(mailFrom := ParseAngleAddr(Strip(arg[5..])), state := WaitForRcptTo), Ok)
    else Answer(c, MailSyntax)
  }

  function RcptTo(c: Core, arg: string): Effect {
    if !c.state.WaitForRcptTo? then Answer(c, BadSequence)
    else if "TO:" <= Upper(arg) && ParseAngleAddr(Strip(arg[3..])).Some? then
      Answer(c.(rcptTo := c.rcptTo + [ParseAngleAddr(Strip(arg[3..])).value], state := WaitForDataCmd), Ok)
    else Answer(c, RcptSyntax)
  }

  function StartData(c: Core): Effect {
    if !c.state.WaitForDataCmd? || c.rcptTo == [] then Answer(c, BadSequence)
    else Effect(c.(state := ReadingDataStream), StartInput, true, false)
  }

  /** One line of a command stream. */
  function Dispatch(c: Core, line: string): Effect {
    match Parse(line)
    case None => Answer(c, SyntaxError)
    case Some(command) =>
      match command.verb
      case Helo => Answer(c.(state := WaitForMailFrom), Hello)
      case Ehlo => Answer(c.(state := WaitForMailFrom), Hello)
      case Mail => MailFrom(c, command.arg)
      case Rcpt => RcptTo(c, command.arg)
      case Data => StartData(c)
      case Rset => Effect(NEW_CORE, Ok, true, false)
      case Noop => Answer(c, Ok)
      case Quit => Effect(c, Bye, false, true)
      case Other => Answer(c, Unrecognized)
  }

  // ---------------------------------------------------------------- finished messages

  /** How the steps of a delivery that are not modelled turn out, as far as they are reached. */
  datatype Fate = Unparsable | HeadersFail | NotSaved | Saved

  /** Accounts by lower-case user name. */
  type Accounts = set<string>

  function UserOf(address: string): string {
    Lower(Before(address, '@'))
  }

  /** local@domain. */
  ghost predicate IsAddress(address: string, local: string, domain: string) {
    '@' !in local && address == local + "@" + domain
  }

  /** The user is named by what precedes the first @, whatever the domain. */
  lemma UserIsLocalPart(address: string, local: string, domain: string)
    requires IsAddress(address, local, domain)
    ensures UserOf(address) == Lower(local)
  {
    hide Lower;
    BeforeLaw(local, '@', domain);
  }

  /** saved is the user whose mailbox now holds the message. */
  datatype Delivery = Delivery(core: Core, reply: Reply, saved: Option<string>)

  /** A message whose terminator was found. */
  function Deliver(c: Core, users: Accounts, fate: Fate): Delivery {
    var next := c.(state := WaitForMailFrom);
    if fate.Unparsable? then Delivery(next, Unprocessed, None)
    else if c.rcptTo == [] then Delivery(next, NoRecipients, None)
    else if UserOf(c.rcptTo[0]) !in users then Delivery(next, NoSuchUser, None)
    else if fate.HeadersFail? then Delivery(next, Unprocessed, None)
    else if fate.NotSaved? then Delivery(next, NotStored, None)
    else Delivery(next.(rcptTo := []), Accepted, Some(UserOf(c.rcptTo[0])))
  }

  // ---------------------------------------------------------------- the life of a session

  /** What a client's sessions take in, one session after another: a greeting begins a new one, and a block is a message
      found complete in the data stream. */
  datatype Event = Greeting | Line(text: string) | Block(message: string, fate: Fate)

  function After(c: Core, users: Accounts, e: Event): Core {
    match e
    case Greeting => NEW_CORE
    case Line(text) => Dispatch(c, text).core
    case Block(_, fate) => Deliver(c, users, fate).core
  }

  /** Each greeting, line and block is one reply. */
  function ReplyTo(c: Core, users: Accounts, e: Event): Reply {
    match e
    case Greeting => Welcome
    case Line(text) => Dispatch(c, text).reply
    case Block(_, fate) => Deliver(c, users, fate).reply
  }

  /** The session after some events. */
  function CoreAfter(users: Accounts, events: seq<Event>): Core {
    if events == [] then NEW_CORE
    else After(CoreAfter(users, events[..|events| - 1]), users, events[|events| - 1])
  }

  /** Blocks come only while the session reads data. */
  ghost predicate Legal(users: Accounts, events: seq<Event>) {
    events == []
    || var k := |events| - 1;
       && Legal(users, events[..k])
       && (events[k].Block? ==> CoreAfter(users, events[..k]).state.ReadingDataStream?)
  }

  /** The reply that event i was given. */
  function ReplyAt(users: Accounts, events: seq<Event>, i: int): Reply
    requires 0 <= i < |events|
  {
    ReplyTo(CoreAfter(users, events[..i]), users, events[i])
  }

  ghost predicate CoreOk(c: Core) {
    && (c.state.WaitForRcptTo? || c.state.WaitForDataCmd? || c.state.ReadingDataStream? ==> c.mailFrom.Some?)
    && (c.state.WaitForDataCmd? || c.state.ReadingDataStream? ==> c.rcptTo != [])
  }

  lemma {:induction false} AlwaysOk(users: Accounts, events: seq<Event>)
    ensures CoreOk(CoreAfter(users, events))
  {
    if events != [] {
      var k := |events| - 1;
      AlwaysOk(users, events[..k]);
      AfterOk(CoreAfter(users, events[..k]), users, events[k]);
    }
  }

  lemma AfterOk(c: Core, users: Accounts, e: Event)
    requires CoreOk(c)
    ensures CoreOk(After(c, users, e))
  {
    hide Parse, ParseAngleAddr, Upper, Strip, UserOf;
    match e
    case Greeting =>
    case Line(text) =>
    case Block(_, fate) =>
  }

  /** In every session waiting for DATA or reading data has a sender and a recipient; so no message is ever answered
      with "550 No recipients". */
  lemma RecipientsAreThere(users: Accounts, events: seq<Event>, i: nat)
    requires Legal(users, events) && i < |events| && events[i].Block?
    ensures CoreAfter(users, events[..i]).mailFrom.Some? && CoreAfter(users, events[..i]).rcptTo != []
    ensures ReplyAt(users, events, i) != NoRecipients
  {
    LegalPrefix(users, events, i + 1);
    assert events[..i + 1][..i] == events[..i];
    AlwaysOk(users, events[..i]);
  }

  lemma {:induction false} LegalPrefix(users: Accounts, events: seq<Event>, i: nat)
    requires Legal(users, events) && i <= |events|
    ensures Legal(users, events[..i])
    decreases |events|
  {
    if i == |events| {
      assert events[..i] == events;
    } else {
      LegalPrefix(users, events[..|events| - 1], i);
      assert events[..|events| - 1][..i] == events[..i];
    }
  }

  // ---------------------------------------------------------------- recipients, from the transcript

  predicate IsVerb(e: Event, verb: Verb) {
    e.Line? && Parse(e.text).Some? && Parse(e.text).value.verb == verb
  }

  /** The reply given to the last of some events. */
  function LastReply(users: Accounts, events: seq<Event>): Reply
    requires events != []
  {
    ReplyTo(CoreAfter(users, events[..|events| - 1]), users, events[|events| - 1])
  }

  /** The last event ended whatever was being collected: a new session, RSET, or a message that was stored. */
  predicate Clears(users: Accounts, events: seq<Event>)
    requires events != []
  {
    var e := events[|events| - 1];
    e.Greeting? || IsVerb(e, Verb.Rset) || (e.Block? && LastReply(users, events) == Accepted)
  }

  predicate IsAcceptedRcpt(users: Accounts, events: seq<Event>)
    requires events != []
  {
    IsVerb(events[|events| - 1], Verb.Rcpt) && LastReply(users, events) == Ok
  }

  /** The address a RCPT line names. */
  function RcptAddress(e: Event): seq<string> {
    if !IsVerb(e, Verb.Rcpt) then []
    else
      var arg := Parse(e.text).value.arg;
      if |arg| < 3 then []
      else
        match ParseAngleAddr(Strip(arg[3..]))
        case None => []
        case Some(address) => [address]
  }

  /** The addresses of the RCPT lines accepted since the session was created or reset or last stored a message. */
  function Recipients(users: Accounts, events: seq<Event>): seq<string> {
    if events == [] || Clears(users, events) then []
    else
      var k := |events| - 1;
      Recipients(users, events[..k]) + if IsAcceptedRcpt(users, events) then RcptAddress(events[k]) else []
  }

  /** In that time there was a HELO or EHLO, or a message that was not stored, with a recipient already given. */
  predicate Interrupted(users: Accounts, events: seq<Event>) {
    if events == [] || Clears(users, events) then false
    else
      var k := |events| - 1;
      || Interrupted(users, events[..k])
      || ((IsVerb(events[k], Verb.Helo) || IsVerb(events[k], Verb.Ehlo) || events[k].Block?)
          && Recipients(users, events[..k]) != [])
  }

  /** The recipients of a session are what its transcript shows. */
  lemma {:induction false} RecipientsTracked(users: Accounts, events: seq<Event>)
    ensures CoreAfter(users, events).rcptTo == Recipients(users, events)
  {
    hide After, ReplyTo, IsVerb, RcptAddress;
    if events != [] {
      var k := |events| - 1;
      RecipientsTracked(users, events[..k]);
      AfterRecipients(CoreAfter(users, events[..k]), users, events[k]);
    }
  }

  /** What one event does to the recipients, from the event and its reply. */
  lemma AfterRecipients(c: Core, users: Accounts, e: Event)
    ensures var reply := ReplyTo(c, users, e);
            var clears := e.Greeting? || IsVerb(e, Verb.Rset) || (e.Block? && reply == Accepted);
            var accepts := IsVerb(e, Verb.Rcpt) && reply == Ok;
            After(c, users, e).rcptTo == (if clears then [] else c.rcptTo + if accepts then RcptAddress(e) else [])
  {
    hide Parse, ParseAngleAddr, Strip, UserOf;
    match e
    case Greeting =>
    case Line(text) =>
    case Block(_, fate) =>
  }

  /** A message is stored exactly when it is answered so, for the user of the earliest recipient. */
  lemma MailGoesToTheFirst(users: Accounts, events: seq<Event>, message: string, fate: Fate)
    ensures var c := CoreAfter(users, events);
            var saved := Deliver(c, users, fate).saved;
            && (saved.Some? <==> ReplyTo(c, users, Block(message, fate)) == Accepted)
            && (saved.Some? ==> saved.value in users)
            && (saved.Some? ==> Recipients(users, events) != [] && saved.value == UserOf(Recipients(users, events)[0]))
  {
    RecipientsTracked(users, events);
  }

  ghost predicate When(c: Core, interrupted: bool) {
    if c.state.WaitForDataCmd? || c.state.ReadingDataStream? then c.rcptTo != [] && (|c.rcptTo| == 1 <==> !interrupted)
    else c.rcptTo == [] <==> !interrupted
  }

  lemma WhenLine(c: Core, line: string, interrupted: bool)
    requires When(c, interrupted)
    ensures var e := Line(line);
            var hello := IsVerb(e, Verb.Helo) || IsVerb(e, Verb.Ehlo);
            When(Dispatch(c, line).core, !IsVerb(e, Verb.Rset) && (interrupted || (hello && c.rcptTo != [])))
  {
    hide Parse, ParseAngleAddr, Strip, Upper;
  }

  lemma WhenBlock(c: Core, users: Accounts, fate: Fate, interrupted: bool)
    requires When(c, interrupted) && c.state.ReadingDataStream?
    ensures var d := Deliver(c, users, fate); When(d.core, !d.reply.Accepted?)
  {
    hide UserOf;
  }

  lemma {:induction false} RecipientsWhen(users: Accounts, events: seq<Event>)
    requires Legal(users, events)
    ensures When(CoreAfter(users, events), Interrupted(users, events))
  {
    if events != [] {
      var k := |events| - 1;
      var c := CoreAfter(users, events[..k]);
      RecipientsWhen(users, events[..k]);
      RecipientsTracked(users, events[..k]);
      match events[k]
      case Greeting =>
      case Line(text) =>
        WhenLine(c, text, Interrupted(users, events[..k]));
        hide When, Dispatch, Deliver, Parse, Recipients;
      case Block(_, fate) =>
        WhenBlock(c, users, fate, Interrupted(users, events[..k]));
        hide When, Dispatch, Deliver, Parse, Recipients;
    }
  }

  /** Where DATA is accepted there is exactly one recipient, exactly if nothing interrupted the transaction: after a
      HELO or EHLO in mid-transaction, or a rejected message, earlier recipients are still in front. */
  lemma OneRecipientAtData(users: Accounts, events: seq<Event>)
    requires Legal(users, events) && CoreAfter(users, events).state.WaitForDataCmd?
    ensures StartData(CoreAfter(users, events)).reply.StartInput?
    ensures |CoreAfter(users, events).rcptTo| == 1 <==> !Interrupted(users, events)
  {
    RecipientsWhen(users, events);
  }
}
