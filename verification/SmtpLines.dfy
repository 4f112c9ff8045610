/** What the lines a client writes do: commands as text, in any letter case and with any white space around the
    words. */
module SmtpLines {
  import opened Wrappers
  import opened Text
  import opened TextLaws
  import opened SmtpSession

  const VERBS := ["HELO", "EHLO", "MAIL", "RCPT", "DATA", "RSET", "NOOP", "QUIT"]

  predicate AllLetters(w: string) {
    w != "" && forall i :: 0 <= i < |w| ==> w[i] in CAPITALS || w[i] in SMALL
  }

  /** The ASCII part of the line is a word of letters and, after white space, an argument of one line. */
  ghost predicate IsLine(line: string, word: string, arg: string) {
    && AllLetters(word) && Tight(arg) && '\n' !in arg
    && exists lead, gap, trail :: Spaced(DecodeIgnoring(line), lead, word, gap, arg, trail)
  }

  ghost predicate Spaced(s: string, lead: string, word: string, gap: string, arg: string, trail: string) {
    && Blank(lead) && Blank(gap) && Blank(trail) && (arg != "" ==> gap != "")
    && s == lead + word + gap + arg + trail
  }

  lemma LetterIff(c: char)
    ensures IsLetter(c) <==> c in CAPITALS || c in SMALL
  {
    Alphabet();
    hide CAPITALS, SMALL;
    if 'A' <= c <= 'Z' {
      assert CAPITALS[c as int - 'A' as int] == c;
    } else if 'a' <= c <= 'z' {
      assert SMALL[c as int - 'a' as int] == c;
    }
  }

  lemma LettersAre(w: string)
    requires AllLetters(w)
    ensures w != "" && forall i :: 0 <= i < |w| ==> IsLetter(w[i]) && !IsSpace(w[i])
  {
    hide CAPITALS, SMALL;
    forall i | 0 <= i < |w| ensures IsLetter(w[i]) && !IsSpace(w[i]) {
      LetterIff(w[i]);
    }
  }

  lemma {:induction false} LettersEnd(w: string, tail: string)
    requires (forall i :: 0 <= i < |w| ==> IsLetter(w[i])) && (tail == "" || !IsLetter(tail[0]))
    ensures Letters(w + tail) == w
  {
    if w == "" {
      assert w + tail == tail;
    } else {
      assert (w + tail)[1..] == w[1..] + tail;
      LettersEnd(w[1..], tail);
    }
  }

  lemma Regroup(a: string, b: string, c: string, d: string, e: string)
    ensures a + b + c + d + e == a + (b + (c + d)) + e
    ensures a + b + c + "" + e == a + b + (c + e)
  {
  }

  lemma TightCommand(word: string, gap: string, arg: string)
    requires AllLetters(word) && Tight(arg)
    ensures Tight(word) && (arg != "" ==> Tight(word + (gap + arg)))
  {
    LettersAre(word);
    hide AllLetters;
    assert arg != "" ==> (word + (gap + arg))[0] == word[0];
  }

  lemma BlankConcat(a: string, b: string)
    requires Blank(a) && Blank(b)
    ensures Blank(a + b)
  {
  }

  lemma StripLine(s: string, lead: string, word: string, gap: string, arg: string, trail: string)
    requires Spaced(s, lead, word, gap, arg, trail) && AllLetters(word) && Tight(arg)
    ensures Strip(s) == word + if arg == "" then "" else gap + arg
  {
    hide AllLetters, Strip, Tight, Blank;
    Regroup(lead, word, gap, arg, trail);
    TightCommand(word, gap, arg);
    if arg == "" {
      BlankConcat(gap, trail);
      StripLaw(lead, word, gap + trail);
    } else {
      StripLaw(lead, word + (gap + arg), trail);
    }
  }

  /** Such a line is read as its word, in capitals, and its argument. */
  lemma ReadAs(line: string, word: string, arg: string)
    requires IsLine(line, word, arg)
    ensures Parse(line) == Some(Command(VerbOf(Upper(word)), arg))
  {
    hide DecodeIgnoring, Letters, VerbOf, Upper, AllLetters, Strip, StripLeft, Spaced;
    var lead, gap, trail :| Spaced(DecodeIgnoring(line), lead, word, gap, arg, trail);
    StripLine(DecodeIgnoring(line), lead, word, gap, arg, trail);
    var tail := if arg == "" then "" else gap + arg;
    TailAfter(DecodeIgnoring(line), lead, word, gap, arg, trail);
    assert (word + tail)[|word|..] == tail;
  }

  lemma TailAfter(s: string, lead: string, word: string, gap: string, arg: string, trail: string)
    requires Spaced(s, lead, word, gap, arg, trail) && AllLetters(word) && Tight(arg)
    ensures word != "" && Letters(word + if arg == "" then "" else gap + arg) == word
    ensures arg != "" ==> gap != "" && IsSpace(gap[0]) && StripLeft(gap + arg) == arg
  {
    LettersAre(word);
    hide AllLetters, StripLeft;
    var tail := if arg == "" then "" else gap + arg;
    LettersEnd(word, tail);
    if arg != "" {
      StripLeftBlank(gap, arg);
    }
  }

  lemma {:induction false} LettersOnly(s: string)
    ensures Letters(s) <= s && forall i :: 0 <= i < |Letters(s)| ==> IsLetter(Letters(s)[i])
  {
    if s != "" && IsLetter(s[0]) {
      LettersOnly(s[1..]);
    }
  }

  /** Only such a line is read at all; every other one is a syntax error. */
  lemma SyntaxIff(line: string)
    ensures Parse(line).Some? <==> exists word, arg :: IsLine(line, word, arg)
  {
    if Parse(line).Some? {
      var word, arg := WordAndArg(line);
    } else if word, arg :| IsLine(line, word, arg) {
      ReadAs(line, word, arg);
      assert false;
    }
  }

  lemma CommandParts(command: string) returns (gap: string, arg: string)
    requires Tight(command) && Letters(command) != ""
    ensures var tail := command[|Letters(command)|..];
            && command == Letters(command) + (gap + arg) && Blank(gap) && Tight(arg) && arg == StripLeft(tail)
            && (tail == "" || IsSpace(tail[0]) ==> (arg != "" ==> gap != ""))
            && (tail == "" ==> arg == "")
  {
    hide Letters, StripLeft, Blank;
    var tail := command[|Letters(command)|..];
    gap := tail[..Lead(tail)];
    arg := tail[|gap|..];
    assert tail == gap + arg;
    assert arg != "" ==> arg[|arg| - 1] == command[|command| - 1];
  }

  lemma WordAndArg(line: string) returns (word: string, arg: string)
    requires Parse(line).Some?
    ensures IsLine(line, word, arg)
  {
    hide DecodeIgnoring, Strip, VerbOf, Upper, StripLeft, Letters, Blank, Tight, AllLetters;
    var s := DecodeIgnoring(line);
    LettersOnly(Strip(s));
    word := Letters(Strip(s));
    LettersAll(word);
    var lead, trail := StripParts(s);
    var gap;
    gap, arg := CommandParts(Strip(s));
    Regroup(lead, word, gap, arg, trail);
    IsLineIf(line, lead, word, gap, arg, trail);
  }

  lemma IsLineIf(line: string, lead: string, word: string, gap: string, arg: string, trail: string)
    requires AllLetters(word) && Tight(arg) && '\n' !in arg && Spaced(DecodeIgnoring(line), lead, word, gap, arg, trail)
    ensures IsLine(line, word, arg)
  {
  }

  lemma LettersAll(word: string)
    requires word != "" && forall i :: 0 <= i < |word| ==> IsLetter(word[i])
    ensures AllLetters(word)
  {
    hide CAPITALS, SMALL;
    forall i | 0 <= i < |word| ensures word[i] in CAPITALS || word[i] in SMALL {
      LetterIff(word[i]);
    }
  }

  // ---------------------------------------------------------------- which address is meant

  predicate Bracketed(s: string) {
    |s| >= 2 && s[0] == '<' && s[|s| - 1] == '>'
  }

  /** The path is this address, in angle brackets or without; there is an @ in it, and no white space around it. */
  ghost predicate Names(path: string, address: string) {
    && Tight(address) && '@' in address
    && exists a, b :: Blank(a) && Blank(b) && Within(path, a, b, address)
  }

  ghost predicate Within(path: string, a: string, b: string, address: string) {
    || (path == a + address + b && !Bracketed(address))
    || exists i, j :: Blank(i) && Blank(j) && path == a + ("<" + (i + address + j) + ">") + b
  }

  lemma NamesParsed(path: string, address: string)
    requires Names(path, address)
    ensures ParseAngleAddr(Strip(path)) == Some(address)
  {
    hide Strip, Blank, Tight;
    var a, b :| Blank(a) && Blank(b) && Within(path, a, b, address);
    if path == a + address + b && !Bracketed(address) {
      StripLaw(a, address, b);
      StripTight(address);
    } else {
      var i, j :| Blank(i) && Blank(j) && path == a + ("<" + (i + address + j) + ">") + b;
      BracketsTight(i + address + j);
      StripLaw(a, "<" + (i + address + j) + ">", b);
      StripTight("<" + (i + address + j) + ">");
      StripLaw(i, address, j);
    }
  }

  lemma BracketsTight(s: string)
    ensures Tight("<" + s + ">") && ("<" + s + ">")[1..|s| + 1] == s && "<" <= "<" + s + ">"
  {
  }

  lemma StripTight(s: string)
    requires Tight(s)
    ensures Strip(s) == s
  {
    StripLaw("", s, "");
    assert "" + s + "" == s;
  }

  lemma ParsedNames(path: string)
    requires ParseAngleAddr(Strip(path)).Some?
    ensures Names(path, ParseAngleAddr(Strip(path)).value)
  {
    hide Strip, Blank, Tight;
    var m := Strip(path);
    var a, b := StripParts(path);
    StripTight(m);
    if "<" <= m && |m| >= 2 && m[|m| - 1] == '>' {
      var inner := m[1..|m| - 1];
      var i, j := StripParts(inner);
      assert m == "<" + inner + ">";
      assert Within(path, a, b, Strip(inner));
    } else {
      assert !Bracketed(m);
      assert Within(path, a, b, m);
    }
  }

  /** An address is found if and only if the path names one. */
  lemma AddressIff(path: string, address: string)
    ensures ParseAngleAddr(Strip(path)) == Some(address) <==> Names(path, address)
  {
    hide Names, ParseAngleAddr, Strip;
    if Names(path, address) {
      NamesParsed(path, address);
    }
    if ParseAngleAddr(Strip(path)) == Some(address) {
      ParsedNames(path);
    }
  }

  /** The argument is the keyword, in any letter case, and a path that names this address. */
  ghost predicate Says(arg: string, keyword: string, address: string) {
    |arg| >= |keyword| && SameButCase(arg[..|keyword|], keyword) && Names(arg[|keyword|..], address)
  }

  lemma KeywordIff(arg: string, keyword: string)
    requires Upper(keyword) == keyword
    ensures keyword <= Upper(arg) <==> |arg| >= |keyword| && SameButCase(arg[..|keyword|], keyword)
  {
    hide UpperChar, SameLetter;
    if |arg| >= |keyword| {
      SameWordIff(arg[..|keyword|], keyword);
      assert Upper(arg)[..|keyword|] == Upper(arg[..|keyword|]);
    }
  }

  lemma SaysIff(arg: string, keyword: string, address: string)
    requires Upper(keyword) == keyword
    ensures Says(arg, keyword, address)
       <==> keyword <= Upper(arg) && ParseAngleAddr(Strip(arg[|keyword|..])) == Some(address)
  {
    hide Upper, Names, SameButCase, Strip, ParseAngleAddr;
    KeywordIff(arg, keyword);
    if |arg| >= |keyword| {
      AddressIff(arg[|keyword|..], address);
    }
  }

  // ---------------------------------------------------------------- what each command does

  lemma Verbs(word: string)
    ensures forall name :: name in VERBS ==> (SameButCase(word, name) <==> Upper(word) == name)
    ensures "HELO" in VERBS && "EHLO" in VERBS && "MAIL" in VERBS && "RCPT" in VERBS
    ensures "DATA" in VERBS && "RSET" in VERBS && "NOOP" in VERBS && "QUIT" in VERBS
  {
    Literals();
    hide SameButCase, Upper;
    forall name | name in VERBS ensures SameButCase(word, name) <==> Upper(word) == name {
      SameWordIff(word, name);
    }
    assert VERBS[0] == "HELO" && VERBS[1] == "EHLO" && VERBS[2] == "MAIL" && VERBS[3] == "RCPT";
    assert VERBS[4] == "DATA" && VERBS[5] == "RSET" && VERBS[6] == "NOOP" && VERBS[7] == "QUIT";
  }

  lemma Literals()
    ensures forall name :: name in VERBS ==> Upper(name) == name
  {
  }

  /** HELO and EHLO are answered in every state, and leave sender and recipients as they are. */
  lemma HelloLine(c: Core, line: string, word: string, arg: string)
    requires IsLine(line, word, arg) && (SameButCase(word, "HELO") || SameButCase(word, "EHLO"))
    ensures Dispatch(c, line) == Effect(Core(WaitForMailFrom, c.mailFrom, c.rcptTo), Hello, false, false)
  {
    hide Parse, IsLine, SameButCase, Upper, ParseAngleAddr, Strip, Says;
    ReadAs(line, word, arg);
    Verbs(word);
  }

  /** MAIL is for sessions that have said hello and have no recipient in this transaction yet; it needs an address. */
  lemma MailLine(c: Core, line: string, word: string, arg: string, address: string)
    requires IsLine(line, word, arg) && SameButCase(word, "MAIL")
    ensures !c.state.WaitForMailFrom? && !c.state.WaitForRcptTo? ==>
              Dispatch(c, line) == Effect(c, BadSequence, false, false)
    ensures c.state.WaitForMailFrom? || c.state.WaitForRcptTo? ==>
              && (Says(arg, "FROM:", address) ==>
                    Dispatch(c, line) == Effect(Core(WaitForRcptTo, Some(address), c.rcptTo), Ok, false, false))
              && ((forall a :: !Says(arg, "FROM:", a)) ==> Dispatch(c, line) == Effect(c, MailSyntax, false, false))
  {
    hide Parse, IsLine, SameButCase, ParseAngleAddr, Strip, Says;
    assert Upper("FROM:") == "FROM:";
    hide Upper;
    SaysIff(arg, "FROM:", address);
    forall a ensures Says(arg, "FROM:", a) <==> "FROM:" <= Upper(arg) && ParseAngleAddr(Strip(arg[5..])) == Some(a) {
      SaysIff(arg, "FROM:", a);
    }
    ReadAs(line, word, arg);
    Verbs(word);
  }

  /** RCPT is for sessions that have a sender and no recipient in this transaction; it needs an address. */
  lemma RcptLine(c: Core, line: string, word: string, arg: string, address: string)
    requires IsLine(line, word, arg) && SameButCase(word, "RCPT")
    ensures !c.state.WaitForRcptTo? ==> Dispatch(c, line) == Effect(c, BadSequence, false, false)
    ensures c.state.WaitForRcptTo? ==>
              && (Says(arg, "TO:", address) ==>
                    Dispatch(c, line)
                    == Effect(Core(WaitForDataCmd, c.mailFrom, c.rcptTo + [address]), Ok, false, false))
              && ((forall a :: !Says(arg, "TO:", a)) ==> Dispatch(c, line) == Effect(c, RcptSyntax, false, false))
  {
    hide Parse, IsLine, SameButCase, ParseAngleAddr, Strip, Says;
    assert Upper("TO:") == "TO:";
    hide Upper;
    SaysIff(arg, "TO:", address);
    forall a ensures Says(arg, "TO:", a) <==> "TO:" <= Upper(arg) && ParseAngleAddr(Strip(arg[3..])) == Some(a) {
      SaysIff(arg, "TO:", a);
    }
    ReadAs(line, word, arg);
    Verbs(word);
  }

  /** DATA is for sessions that have a recipient, and gives them new buffers. */
  lemma DataLine(c: Core, line: string, word: string, arg: string)
    requires IsLine(line, word, arg) && SameButCase(word, "DATA")
    ensures Dispatch(c, line)
         == if c.state.WaitForDataCmd? && c.rcptTo != []
            then Effect(Core(ReadingDataStream, c.mailFrom, c.rcptTo), StartInput, true, false)
            else Effect(c, BadSequence, false, false)
  {
    hide Parse, IsLine, SameButCase, Upper, ParseAngleAddr, Strip, Says;
    ReadAs(line, word, arg);
    Verbs(word);
  }

  /** RSET makes the session as new, so that it has to say hello again. */
  lemma RsetLine(c: Core, line: string, word: string, arg: string)
    requires IsLine(line, word, arg) && SameButCase(word, "RSET")
    ensures Dispatch(c, line) == Effect(Core(WaitForHelo, None, []), Ok, true, false)
  {
    hide Parse, IsLine, SameButCase, Upper, ParseAngleAddr, Strip, Says;
    ReadAs(line, word, arg);
    Verbs(word);
  }

  lemma NoopLine(c: Core, line: string, word: string, arg: string)
    requires IsLine(line, word, arg) && SameButCase(word, "NOOP")
    ensures Dispatch(c, line) == Effect(c, Ok, false, false)
  {
    hide Parse, IsLine, SameButCase, Upper, ParseAngleAddr, Strip, Says;
    ReadAs(line, word, arg);
    Verbs(word);
  }

  lemma QuitLine(c: Core, line: string, word: string, arg: string)
    requires IsLine(line, word, arg) && SameButCase(word, "QUIT")
    ensures Dispatch(c, line) == Effect(c, Bye, false, true)
  {
    hide Parse, IsLine, SameButCase, Upper, ParseAngleAddr, Strip, Says;
    ReadAs(line, word, arg);
    Verbs(word);
  }

  /** Any other word, and anything that is no word with or without an argument. */
  lemma OtherLine(c: Core, line: string)
    ensures (exists word, arg :: IsLine(line, word, arg) && forall name :: name in VERBS ==> !SameButCase(word, name))
            ==> Dispatch(c, line) == Effect(c, Unrecognized, false, false)
    ensures !(exists word, arg :: IsLine(line, word, arg)) ==> Dispatch(c, line) == Effect(c, SyntaxError, false, false)
  {
    SyntaxIff(line);
    hide Parse, IsLine, SameButCase, Upper, MailFrom, RcptTo, StartData;
    if word, arg :| IsLine(line, word, arg) && forall name :: name in VERBS ==> !SameButCase(word, name) {
      ReadAs(line, word, arg);
      Verbs(word);
    }
  }
}
