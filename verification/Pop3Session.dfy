/** The commands of pop3_server.py as functions: the session they leave and the replies they send. */
module Pop3Session {
  import opened Wrappers
  import opened Text
  import opened Mailbox
  import opened MailboxReader

  datatype State = Authorization | Transaction

  /** marked holds message numbers: places, counted from 1, in the listing made anew for every command. */
  datatype Session = Session(state: State, user: Option<string>, marked: set<int>)

  const NEW_SESSION := Session(Authorization, None, {})

  /** The first word after the command, if any, as int() reads it. */
  datatype Arg = NoArg | NotANumber | Number(n: int)

  datatype Command =
    | User(name: Option<string>) | Pass(password: Option<string>)
    | Stat | List(arg: Arg) | Retr(arg: Arg) | Dele(arg: Arg) | Unknown

  /** A reply; each is one payload on the wire.  All but Scan, Body, Dot and Err begin with +OK. */
  datatype Reply =
    | OkReady | OkUser(name: string) | OkOpen
    | OkStat(count: nat, total: nat) | OkList(count: nat) | Scan(n: int, size: nat) | OkScan(n: int, size: nat)
    | OkOctets(length: nat) | Body(text: string) | Dot | OkDeleted(n: int) | OkBye
    | Err(why: string)
  {
    predicate IsPositive() {
      !Scan? && !Body? && !Dot? && !Err?
    }
  }

  /** There is a user to make a mailbox of. */
  predicate HasOwner(s: Session) {
    s.user.Some? && s.user.value != ""
  }

  /** Passwords by lower-case user name. */
  type Users = map<string, string>

  predicate Valid(n: int, items: seq<Item>, marked: set<int>) {
    1 <= n <= |items| && n !in marked
  }

  /** The messages numbered from first on whose numbers are not marked. */
  function Kept(items: seq<Item>, marked: set<int>, first: int): seq<Item> {
    if items == [] then []
    else (if first in marked then [] else [items[0]]) + Kept(items[1..], marked, first + 1)
  }

  /** Their scan listing. */
  function Scans(items: seq<Item>, marked: set<int>, first: int): seq<Reply> {
    if items == [] then []
    else (if first in marked then [] else [Scan(first, items[0].size)]) + Scans(items[1..], marked, first + 1)
  }

  const NOT_ALLOWED := Err("Command not allowed here")
  const NO_SUCH := Err("No such message")
  const INVALID := Err("Invalid message number")
  const MISSING := Err("Missing argument")

  /** The session after a command other than QUIT, given the listing of the mailbox. */
  function After(s: Session, users: Users, items: seq<Item>, c: Command): Session {
    match c
    case User(Some(name)) =>
      if s.state.Authorization? && Lower(name) in users then s.(user := Some(name)) else s
    case Pass(Some(password)) =>
      if s.state.Authorization? && s.user.Some? && s.user.value != "" then
        if Lower(s.user.value) in users && users[Lower(s.user.value)] == password then s.(state := Transaction)
        else s.(user := None)
      else s
    case Dele(Number(n)) =>
      if s.state.Transaction? && Valid(n, items, s.marked) then s.(marked := s.marked + {n}) else s
    case _ => s
  }

  /** The replies to a command other than QUIT; content reads a stored message. */
  function Replies(s: Session, users: Users, items: seq<Item>, content: string -> Option<string>,
                   c: Command): seq<Reply> {
    match c
    case User(name) =>
      if !s.state.Authorization? then [NOT_ALLOWED]
      else if name.None? then [MISSING]
      else if Lower(name.value) in users then [OkUser(name.value)]
      else [Err("No such user")]
    case Pass(password) =>
      if !s.state.Authorization? || s.user.None? || s.user.value == "" then [NOT_ALLOWED]
      else if password.None? then [Err("Missing password")]
      else if Lower(s.user.value) in users && users[Lower(s.user.value)] == password.value then [OkOpen]
      else [Err("Invalid credentials")]
    case Stat =>
      if !s.state.Transaction? then [NOT_ALLOWED]
      else [OkStat(|Kept(items, s.marked, 1)|, Total(Kept(items, s.marked, 1)))]
    case List(arg) =>
      if !s.state.Transaction? then [NOT_ALLOWED]
      else
        (match arg
         case NoArg => [OkList(|items|)] + Scans(items, s.marked, 1) + [Dot]
         case NotANumber => [INVALID]
         case Number(n) => if Valid(n, items, s.marked) then [OkScan(n, items[n - 1].size)] else [NO_SUCH])
    case Retr(arg) =>
      if !s.state.Transaction? then [NOT_ALLOWED]
      else
        (match arg
         case NoArg => [MISSING]
         case NotANumber => [INVALID]
         case Number(n) => if Valid(n, items, s.marked) then Retrieved(content(items[n - 1].name)) else [NO_SUCH])
    case Dele(arg) =>
      if !s.state.Transaction? then [NOT_ALLOWED]
      else
        (match arg
         case Number(n) =>
           if Valid(n, items, s.marked) then [OkDeleted(n)] else [Err("Message already deleted or does not exist")]
         case _ => [INVALID])
    case Unknown => [Err("Unknown command")]
  }

  /** RETR of a valid number: a missing or empty text is refused; one that is not ASCII fails to encode after the
      first line of the reply has gone out. */
  function Retrieved(content: Option<string>): seq<Reply> {
    if content.None? || content.value == "" then [Err("could not retrieve message")]
    else if !IsAscii(content.value) then [OkOctets(|content.value|), INVALID]
    else [OkOctets(|content.value|), Body(content.value), Dot]
  }

  // ---------------------------------------------------------------- STAT, LIST, RETR and DELE agree

  /** What a client reads off a scan listing. */
  function ScanSizes(replies: seq<Reply>): seq<nat> {
    if replies == [] then [] else (if replies[0].Scan? then [replies[0].size] else []) + ScanSizes(replies[1..])
  }

  function Sum(ns: seq<nat>): nat {
    if ns == [] then 0 else ns[0] + Sum(ns[1..])
  }

  lemma {:induction false} ScanSizesConcat(a: seq<Reply>, b: seq<Reply>)
    ensures ScanSizes(a + b) == ScanSizes(a) + ScanSizes(b)
  {
    if a == [] {
      assert a + b == b;
    } else {
      assert (a + b)[0] == a[0] && (a + b)[1..] == a[1..] + b;
      var head := if a[0].Scan? then [a[0].size] else [];
      assert ScanSizes(a + b) == head + ScanSizes(a[1..] + b);
      ScanSizesConcat(a[1..], b);
    }
  }

  lemma {:induction false} SumConcat(a: seq<nat>, b: seq<nat>)
    ensures Sum(a + b) == Sum(a) + Sum(b)
  {
    if a == [] {
      assert a + b == b;
    } else {
      assert (a + b)[1..] == a[1..] + b;
      SumConcat(a[1..], b);
    }
  }

  lemma {:induction false} ScansMatchKept(items: seq<Item>, marked: set<int>, first: int)
    ensures |ScanSizes(Scans(items, marked, first))| == |Kept(items, marked, first)|
    ensures Sum(ScanSizes(Scans(items, marked, first))) == Total(Kept(items, marked, first))
    decreases |items|
  {
    if items != [] {
      ScansMatchKept(items[1..], marked, first + 1);
      if first !in marked {
        var rest := Scans(items[1..], marked, first + 1);
        assert ([Scan(first, items[0].size)] + rest)[1..] == rest;
        assert ([items[0].size] + ScanSizes(rest))[1..] == ScanSizes(rest);
        var kept := Kept(items[1..], marked, first + 1);
        assert ([items[0]] + kept)[1..] == kept;
      } else {
        assert Scans(items, marked, first) == Scans(items[1..], marked, first + 1);
        assert Kept(items, marked, first) == Kept(items[1..], marked, first + 1);
      }
    }
  }

  /** The count and total of STAT are the number and the size sum of the lines of LIST, on every mailbox and with any
      messages marked. */
  lemma StatAgreesWithList(s: Session, users: Users, items: seq<Item>, content: string -> Option<string>)
    requires s.state.Transaction?
    ensures var sizes := ScanSizes(Replies(s, users, items, content, List(NoArg)));
            Replies(s, users, items, content, Stat) == [OkStat(|sizes|, Sum(sizes))]
  {
    var scans := Scans(items, s.marked, 1);
    ScansMatchKept(items, s.marked, 1);
    ScanSizesConcat([OkList(|items|)] + scans, [Dot]);
    ScanSizesConcat([OkList(|items|)], scans);
    assert ScanSizes([OkList(|items|)]) == [] && ScanSizes([Dot]) == [];
    assert [] + ScanSizes(scans) + [] == ScanSizes(scans);
  }

  lemma {:induction false} ScansHold(items: seq<Item>, marked: set<int>, first: int, n: int, size: nat)
    ensures Scan(n, size) in Scans(items, marked, first) <==> IsScan(items, marked, first, n, size)
    decreases |items|
  {
    hide IsScan;
    if items != [] {
      ScansHold(items[1..], marked, first + 1, n, size);
      ScansCons(items, marked, first, Scan(n, size));
      hide Scans;
      IsScanCons(items, marked, first, n, size);
    } else {
      NoScan(marked, first, n, size);
    }
  }

  /** Message n, counting from first, is there, not marked, and has this size. */
  predicate IsScan(items: seq<Item>, marked: set<int>, first: int, n: int, size: nat) {
    first <= n < first + |items| && n !in marked && size == items[n - first].size
  }

  lemma NoScan(marked: set<int>, first: int, n: int, size: nat)
    ensures !IsScan([], marked, first, n, size)
  {
  }

  lemma IsScanCons(items: seq<Item>, marked: set<int>, first: int, n: int, size: nat)
    requires items != []
    ensures IsScan(items, marked, first, n, size)
       <==> (first !in marked && n == first && size == items[0].size) || IsScan(items[1..], marked, first + 1, n, size)
  {
    assert n > first && n - first < |items| ==> items[n - first] == items[1..][n - (first + 1)];
  }

  lemma ScansCons(items: seq<Item>, marked: set<int>, first: int, r: Reply)
    requires items != []
    ensures r in Scans(items, marked, first)
       <==> (first !in marked && r == Scan(first, items[0].size)) || r in Scans(items[1..], marked, first + 1)
  {
  }

  lemma AmongScans(items: seq<Item>, marked: set<int>, n: int)
    ensures forall k: nat :: Scan(n, k) in [OkList(|items|)] + Scans(items, marked, 1) + [Dot]
              <==> 1 <= n <= |items| && n !in marked && k == items[n - 1].size
  {
    hide Scans;
    forall k: nat
      ensures Scan(n, k) in [OkList(|items|)] + Scans(items, marked, 1) + [Dot]
         <==> 1 <= n <= |items| && n !in marked && k == items[n - 1].size
    {
      ScansHold(items, marked, 1, n, k);
    }
  }

  /** LIST with a number gives the line that LIST has for that number, and is refused if it has none. */
  lemma ListOneAgreesWithList(s: Session, users: Users, items: seq<Item>, content: string -> Option<string>, n: int,
      size: nat)
    requires s.state.Transaction?
    ensures var one, all := Replies(s, users, items, content, List(Number(n))),
                            Replies(s, users, items, content, List(NoArg));
            && (one == [OkScan(n, size)] <==> Scan(n, size) in all)
            && (one == [NO_SUCH] <==> forall k: nat :: Scan(n, k) !in all)
  {
    AmongScans(items, s.marked, n);
    var all := [OkList(|items|)] + Scans(items, s.marked, 1) + [Dot];
    assert all == Replies(s, users, items, content, List(NoArg));
    hide Scans;
    if Valid(n, items, s.marked) {
      assert Scan(n, items[n - 1].size) in all;
    }
  }

  lemma {:induction false} KeptCount(items: seq<Item>, marked: set<int>, first: int)
    ensures |Kept(items, marked, first)| <= |items|
    ensures |Kept(items, marked, first)| == |items| <==> forall n :: first <= n < first + |items| ==> n !in marked
    decreases |items|
  {
    if items != [] {
      KeptCount(items[1..], marked, first + 1);
      assert first in marked ==> exists n :: first <= n < first + |items| && n in marked;
      if first !in marked {
        assert (forall n :: first + 1 <= n < first + 1 + |items[1..]| ==> n !in marked)
          <==> (forall n :: first <= n < first + |items| ==> n !in marked);
      }
    }
  }

  /** The count in the first line of LIST covers marked messages too: it is the number of the lines that follow exactly
      when no message in the listing is marked. */
  lemma ListHeaderCountsMarked(s: Session, users: Users, items: seq<Item>, content: string -> Option<string>)
    requires s.state.Transaction?
    ensures var replies := Replies(s, users, items, content, List(NoArg));
            && replies[0] == OkList(|items|)
            && (|ScanSizes(replies)| == |items| <==> forall n :: 1 <= n <= |items| ==> n !in s.marked)
  {
    StatAgreesWithList(s, users, items, content);
    KeptCount(items, s.marked, 1);
  }

  /** When stored texts are non-empty ASCII, LIST n, RETR n and DELE n accept the same numbers. */
  lemma SameNumbersAccepted(s: Session, users: Users, items: seq<Item>, content: string -> Option<string>, n: int)
    requires s.state.Transaction?
    requires forall i :: 0 <= i < |items| ==>
               content(items[i].name).Some? && content(items[i].name).value != ""
                 && IsAscii(content(items[i].name).value)
    ensures var accepted := Valid(n, items, s.marked);
            && (Replies(s, users, items, content, List(Number(n)))[0].IsPositive() <==> accepted)
            && (Replies(s, users, items, content, Retr(Number(n)))[0].IsPositive() <==> accepted)
            && (Replies(s, users, items, content, Dele(Number(n)))[0].IsPositive() <==> accepted)
            && (After(s, users, items, Dele(Number(n))) != s <==> accepted)
  {
    hide IsAscii;
  }
}
