/** What the server reads in command lines of the usual form, and what it answers to them. */
module SmtpCommands {
  import opened Wrappers
  import opened Text
  import opened SmtpSession

  ghost predicate IsWord(word: string) {
    word != "" && forall i :: 0 <= i < |word| ==> 'A' <= word[i] <= 'Z'
  }

  lemma StripWhole(s: string)
    requires s != "" && !IsSpace(s[0]) && !IsSpace(s[|s| - 1])
    ensures Strip(s) == s
  {
  }

  lemma {:induction false} LettersOf(word: string, tail: string)
    requires (forall i :: 0 <= i < |word| ==> 'A' <= word[i] <= 'Z') && (tail != "" ==> !IsLetter(tail[0]))
    ensures Letters(word + tail) == word
  {
    if word == "" {
      assert word + tail == tail;
    } else {
      LettersOf(word[1..], tail);
      assert (word + tail)[1..] == word[1..] + tail;
    }
  }

  lemma AsciiLine(word: string, arg: string)
    requires IsWord(word) && IsAscii(arg)
    ensures IsAscii(word + if arg == "" then "" else " " + arg)
  {
  }

  /** An upper-case word, alone or followed by a blank and an argument that does not end in white space. */
  lemma ParseWord(word: string, arg: string)
    requires IsWord(word) && IsAscii(arg) && (arg != "" ==> !IsSpace(arg[0]) && !IsSpace(arg[|arg| - 1]))
    ensures var line := if arg == "" then word else word + " " + arg;
            Parse(line) == if '\n' in arg then None else Some(Command(VerbOf(word), arg))
  {
    hide DecodeIgnoring, Strip, Letters, VerbOf, IsAscii;
    var tail := if arg == "" then "" else " " + arg;
    var line := word + tail;
    AsciiLine(word, arg);
    assert word + tail == if arg == "" then word else word + " " + arg;
    DecodeAscii(line);
    StripWhole(line);
    LettersOf(word, tail);
    assert Upper(word) == word;
    hide Upper;
    if arg != "" {
      assert line[|word|..] == tail && tail[1..] == arg;
      assert StripLeft(tail) == StripLeft(arg) == arg;
    }
  }

  lemma HeloLine()
    ensures Parse("HELO localhost") == Some(Command(Helo, "localhost"))
  {
    ParseWord("HELO", "localhost");
    hide Parse;
    assert "HELO" + " " + "localhost" == "HELO localhost";
  }

  lemma WordLines()
    ensures Parse("NOOP") == Some(Command(Noop, ""))
    ensures Parse("DATA") == Some(Command(Data, "")) && Parse("QUIT") == Some(Command(Quit, ""))
  {
    hide Parse;
    ParseWord("NOOP", "");
    ParseWord("DATA", "");
    ParseWord("QUIT", "");
  }

  lemma ResetLine()
    ensures Parse("RSET") == Some(Command(Rset, "")) && Parse("") == None
  {
    ParseWord("RSET", "");
  }

  /** An address in angle brackets, after FROM: or TO:. */
  function Path(keyword: string, address: string): string {
    keyword + "<" + address + ">"
  }

  lemma ParsePath(word: string, keyword: string, address: string)
    requires IsWord(word) && IsAscii(keyword) && IsAscii(address) && keyword != "" && !IsSpace(keyword[0])
    requires '\n' !in keyword
    ensures var line := word + " " + Path(keyword, address);
            Parse(line) == if '\n' in address then None else Some(Command(VerbOf(word), Path(keyword, address)))
  {
    ParseWord(word, Path(keyword, address));
  }

  lemma BreakIsInAddress(head: string, address: string, i: int)
    requires OccursAt(head + address + ">", CRLF, i)
    requires head != "" && forall i :: 0 <= i < |head| ==> head[i] != '\r' && head[i] != '\n'
    ensures OccursAt(address, CRLF, i - |head|)
  {
    var line, k := head + address + ">", i - |head|;
    LineBreakAt(line, i);
    assert address[k..k + 2] == line[i..i + 2];
  }

  /** A command line breaks only where the address does. */
  lemma PathHasNoBreak(head: string, address: string)
    requires Find(address, CRLF) < 0 && head != "" && forall i :: 0 <= i < |head| ==> head[i] != '\r' && head[i] != '\n'
    ensures Find(head + address + ">", CRLF) < 0
  {
    var line := head + address + ">";
    FindFirst(line, CRLF);
    FindFirst(address, CRLF);
    if Find(line, CRLF) >= 0 {
      BreakIsInAddress(head, address, Find(line, CRLF));
    }
  }

  lemma AngleAddr(address: string)
    ensures ParseAngleAddr(Strip("<" + address + ">")) == if '@' in Strip(address) then Some(Strip(address)) else None
  {
    var path := "<" + address + ">";
    StripWhole(path);
    hide Strip;
    assert path[1..|path| - 1] == address && "<" <= path;
  }

  lemma ParseMail(sender: string)
    requires IsAscii(sender)
    ensures Parse("MAIL " + Path("FROM:", sender))
         == if '\n' in sender then None else Some(Command(Verb.Mail, Path("FROM:", sender)))
  {
    hide Parse;
    ParsePath("MAIL", "FROM:", sender);
    hide Path;
    assert "MAIL" + " " == "MAIL ";
  }

  lemma ParseRcpt(recipient: string)
    requires IsAscii(recipient)
    ensures Parse("RCPT " + Path("TO:", recipient))
         == if '\n' in recipient then None else Some(Command(Verb.Rcpt, Path("TO:", recipient)))
  {
    hide Parse;
    ParsePath("RCPT", "TO:", recipient);
    hide Path;
    assert "RCPT" + " " == "RCPT ";
  }

  /** An address the server takes. */
  predicate GoodAddress(address: string) {
    IsAscii(address) && '\n' !in address && '@' in Strip(address)
  }

  lemma UpperStart(arg: string, keyword: string)
    requires |keyword| <= |arg| && arg[..|keyword|] == keyword && Upper(keyword) == keyword
    ensures keyword <= Upper(arg)
  {
    forall i | 0 <= i < |keyword| ensures Upper(arg)[i] == keyword[i] {
      assert Upper(keyword)[i] == keyword[i] && arg[i] == keyword[i];
    }
  }

  lemma KeywordFirst(keyword: string, address: string)
    requires Upper(keyword) == keyword
    ensures var arg, n := Path(keyword, address), |keyword|;
            keyword <= arg && keyword <= Upper(arg) && arg[n..] == "<" + address + ">"
  {
    hide Upper;
    var arg, n := Path(keyword, address), |keyword|;
    assert arg == keyword + ("<" + address + ">");
    assert arg[..n] == keyword && arg[n..] == "<" + address + ">";
    UpperStart(arg, keyword);
  }

  lemma MailFromPath(c: Core, sender: string)
    ensures var d := MailFrom(c, Path("FROM:", sender));
            && !d.quit && !d.renew && (d.reply.Ok? || d.reply.BadSequence? || d.reply.MailSyntax?)
            && (d.reply.Ok? ==> d.core.state.WaitForRcptTo? && d.core.rcptTo == c.rcptTo)
            && (c.state.WaitForMailFrom? ==> (d.reply.Ok? <==> '@' in Strip(sender)))
  {
    hide Strip, ParseAngleAddr, Path;
    AngleAddr(sender);
    assert Upper("FROM:") == "FROM:";
    KeywordFirst("FROM:", sender);
    hide Upper;
  }

  /** A positive answer to MAIL. */
  lemma MailAnswered(c: Core, sender: string)
    requires IsAscii(sender)
    ensures var d := Dispatch(c, "MAIL " + Path("FROM:", sender));
            && !d.quit && !d.renew
            && (d.reply.Code() == "250" ==> d.core.state.WaitForRcptTo? && d.core.rcptTo == c.rcptTo)
            && (c.state.WaitForMailFrom? ==> (d.reply.Code() == "250" <==> GoodAddress(sender)))
  {
    hide Parse, MailFrom, Strip, VerbOf;
    ParseMail(sender);
    MailFromPath(c, sender);
    hide Path, IsAscii;
  }

  lemma RcptToPath(c: Core, recipient: string)
    ensures var d := RcptTo(c, Path("TO:", recipient));
            && !d.quit && !d.renew && (d.reply.Ok? || d.reply.BadSequence? || d.reply.RcptSyntax?)
            && (d.reply.Ok? ==> d.core.state.WaitForDataCmd? && d.core.rcptTo == c.rcptTo + [Strip(recipient)])
            && (c.state.WaitForRcptTo? ==> (d.reply.Ok? <==> '@' in Strip(recipient)))
  {
    hide Strip, ParseAngleAddr, Path;
    AngleAddr(recipient);
    assert Upper("TO:") == "TO:";
    KeywordFirst("TO:", recipient);
    hide Upper;
  }

  /** A positive answer to RCPT: the address is the last of the recipients. */
  lemma RcptAnswered(c: Core, recipient: string)
    requires IsAscii(recipient)
    ensures var d := Dispatch(c, "RCPT " + Path("TO:", recipient));
            && !d.quit && !d.renew
            && (d.reply.Code() == "250"
                ==> d.core.state.WaitForDataCmd? && d.core.rcptTo == c.rcptTo + [Strip(recipient)])
            && (c.state.WaitForRcptTo? ==> (d.reply.Code() == "250" <==> GoodAddress(recipient)))
  {
    hide Parse, RcptTo, Strip, VerbOf;
    ParseRcpt(recipient);
    RcptToPath(c, recipient);
    hide Path, IsAscii;
  }

  lemma HeloAnswered(c: Core)
    ensures Dispatch(c, "HELO localhost") == Answer(c.(state := WaitForMailFrom), Hello)
  {
    HeloLine();
    hide Parse;
  }

  lemma DataAnswered(c: Core)
    ensures var d := Dispatch(c, "DATA");
            && !d.quit
            && (d.reply.Code() == "354" ==> d.core == c.(state := ReadingDataStream) && d.renew)
            && (c.state.WaitForDataCmd? && c.rcptTo != [] ==> d.reply.Code() == "354")
  {
    WordLines();
    hide Parse;
  }
}
