/** The operations on strings the servers use.  An octet of a byte string is written as the character with its code. */
module Text {
  import opened Wrappers

  const CRLF := "\r\n"

  predicate IsAscii(s: string) {
    forall i :: 0 <= i < |s| ==> s[i] as int < 0x80
  }

  /** Python's white space among the ASCII characters. */
  predicate IsSpace(c: char) {
    9 <= c as int <= 13 || 28 <= c as int <= 32
  }

  predicate IsLetter(c: char) {
    'A' <= c <= 'Z' || 'a' <= c <= 'z'
  }

  function UpperChar(c: char): char {
    if 'a' <= c <= 'z' then (c as int - 32) as char else c
  }

  function LowerChar(c: char): char {
    if 'A' <= c <= 'Z' then (c as int + 32) as char else c
  }

  function Upper(s: string): string {
    seq(|s|, i requires 0 <= i < |s| => UpperChar(s[i]))
  }

  function Lower(s: string): string {
    seq(|s|, i requires 0 <= i < |s| => LowerChar(s[i]))
  }

  function StripLeft(s: string): string {
    if s != "" && IsSpace(s[0]) then StripLeft(s[1..]) else s
  }

  function StripRight(s: string): string {
    if s != "" && IsSpace(s[|s| - 1]) then StripRight(s[..|s| - 1]) else s
  }

  function Strip(s: string): string {
    StripRight(StripLeft(s))
  }

  /** s.decode("ascii", errors="ignore"). */
  function DecodeIgnoring(s: string): string {
    if s == "" then "" else (if s[0] as int < 0x80 then [s[0]] else "") + DecodeIgnoring(s[1..])
  }

  lemma {:induction false} DecodeAscii(s: string)
    requires IsAscii(s)
    ensures DecodeIgnoring(s) == s
  {
    if s != "" {
      DecodeAscii(s[1..]);
    }
  }

  /** What reading a file in text mode makes of its line ends. */
  function Newlines(s: string): string {
    if s == "" then ""
    else if s[0] == '\r' then "\n" + Newlines(if CRLF <= s then s[2..] else s[1..])
    else [s[0]] + Newlines(s[1..])
  }

  /** The leading characters that are not white space. */
  function Word(s: string): string {
    if s == "" || IsSpace(s[0]) then "" else [s[0]] + Word(s[1..])
  }

  lemma WordIsPrefix(s: string)
    ensures Word(s) <= s
  {
  }

  /** s.split(). */
  function Words(s: string): seq<string>
    decreases |s|
  {
    if s == "" then []
    else if IsSpace(s[0]) then Words(s[1..])
    else
      WordIsPrefix(s);
      [Word(s)] + Words(s[|Word(s)|..])
  }

  /** s.split(c)[0]. */
  function Before(s: string, c: char): string {
    if s == "" || s[0] == c then "" else [s[0]] + Before(s[1..], c)
  }

  // ---------------------------------------------------------------- searching

  predicate OccursAt(s: string, p: string, i: int) {
    0 <= i && i + |p| <= |s| && s[i..i + |p|] == p
  }

  ghost predicate Contains(s: string, p: string) {
    exists i :: OccursAt(s, p, i)
  }

  /** s.find(p): the first place where p occurs in s, or -1. */
  function Find(s: string, p: string): int {
    if p <= s then 0
    else if s == "" then -1
    else
      var i := Find(s[1..], p);
      if i < 0 then -1 else i + 1
  }

  lemma OccursLater(s: string, p: string, i: int)
    requires s != "" && i > 0
    ensures OccursAt(s, p, i) <==> OccursAt(s[1..], p, i - 1)
  {
    if i + |p| <= |s| {
      assert s[i..i + |p|] == s[1..][i - 1..i - 1 + |p|];
    }
  }

  /** Find gives the first occurrence, and -1 only when there is none. */
  lemma {:induction false} FindFirst(s: string, p: string)
    requires p != ""
    ensures Find(s, p) >= 0 ==> OccursAt(s, p, Find(s, p))
    ensures forall i :: OccursAt(s, p, i) ==> 0 <= Find(s, p) <= i
    ensures -1 <= Find(s, p)
  {
    if p <= s {
      assert s[0..|p|] == p;
    } else if s != "" {
      FindFirst(s[1..], p);
      assert |p| <= |s| ==> s[0..|p|] != p;
      forall i | OccursAt(s, p, i) ensures 0 <= Find(s, p) <= i {
        if i > 0 {
          OccursLater(s, p, i);
        }
      }
      if Find(s, p) > 0 {
        OccursLater(s, p, Find(s, p));
      }
    }
  }

  lemma FindIs(s: string, p: string, i: int)
    requires p != "" && OccursAt(s, p, i) && forall j :: 0 <= j < i ==> !OccursAt(s, p, j)
    ensures Find(s, p) == i
  {
    FindFirst(s, p);
  }

  /** An occurrence in a prefix is an occurrence at the same place in the whole. */
  lemma OccursInPrefix(s: string, t: string, p: string, i: int)
    requires i + |p| <= |s|
    ensures OccursAt(s, p, i) <==> OccursAt(s + t, p, i)
  {
    if 0 <= i {
      assert (s + t)[i..i + |p|] == s[i..i + |p|];
    }
  }

  // ---------------------------------------------------------------- lines

  /** The lines of s that are closed by CRLF. */
  function CompleteLines(s: string): seq<string>
    decreases |s|
  {
    FindFirst(s, CRLF);
    var i := Find(s, CRLF);
    if i < 0 then [] else [s[..i]] + CompleteLines(s[i + 2..])
  }

  /** What follows the last CRLF. */
  function Rest(s: string): string
    decreases |s|
  {
    FindFirst(s, CRLF);
    var i := Find(s, CRLF);
    if i < 0 then s else Rest(s[i + 2..])
  }

  /** s.split("\r\n"). */
  function SplitLines(s: string): seq<string> {
    CompleteLines(s) + [Rest(s)]
  }

  function Unlines(lines: seq<string>): string {
    if lines == [] then "" else lines[0] + CRLF + Unlines(lines[1..])
  }

  /** Text that is added later leaves the first occurrence where it is. */
  lemma FindInPrefix(s: string, t: string, p: string)
    requires p != "" && Find(s, p) >= 0
    ensures Find(s + t, p) == Find(s, p)
  {
    FindFirst(s, p);
    FindFirst(s + t, p);
    OccursInPrefix(s, t, p, Find(s, p));
    OccursInPrefix(s, t, p, Find(s + t, p));
  }

  lemma LineBreak(s: string, i: nat)
    requires Find(s, CRLF) == i
    ensures i + 2 <= |s| && s == s[..i] + CRLF + s[i + 2..]
  {
    FindFirst(s, CRLF);
    hide Find;
    assert s == s[..i] + s[i..i + 2] + s[i + 2..];
  }

  /** One line is taken off. */
  lemma FirstLine(s: string)
    ensures var i := Find(s, CRLF);
            && (i < 0 ==> CompleteLines(s) == [] && Rest(s) == s)
            && (i >= 0 ==>
                  && i + 2 <= |s| && s == s[..i] + CRLF + s[i + 2..]
                  && CompleteLines(s) == [s[..i]] + CompleteLines(s[i + 2..]) && Rest(s) == Rest(s[i + 2..]))
  {
    hide Find;
    if Find(s, CRLF) >= 0 {
      LineBreak(s, Find(s, CRLF));
    }
  }

  /** Lines can be taken off as text comes in: those complete so far, and then those of the rest with the new text. */
  lemma {:induction false} LinesOfConcat(s: string, t: string)
    ensures CompleteLines(s + t) == CompleteLines(s) + CompleteLines(Rest(s) + t)
    ensures Rest(s + t) == Rest(Rest(s) + t)
    decreases |s|
  {
    hide CompleteLines, Rest, Find;
    var i := Find(s, CRLF);
    FirstLine(s);
    FirstLine(s + t);
    if i >= 0 {
      FindInPrefix(s, t, CRLF);
      LinesOfConcat(s[i + 2..], t);
      assert (s + t)[i + 2..] == s[i + 2..] + t && (s + t)[..i] == s[..i];
    }
  }

  lemma NoEarlierLine(s: string, i: nat)
    requires Find(s, CRLF) == i <= |s|
    ensures Find(s[..i], CRLF) < 0
  {
    FindFirst(s, CRLF);
    FindFirst(s[..i], CRLF);
    if Find(s[..i], CRLF) >= 0 {
      assert s == s[..i] + s[i..];
      FindInPrefix(s[..i], s[i..], CRLF);
    }
  }

  /** The lines and the rest make up the text, and none of them contains CRLF. */
  lemma {:induction false} LinesRejoin(s: string)
    ensures Unlines(CompleteLines(s)) + Rest(s) == s
    ensures forall k :: 0 <= k < |CompleteLines(s)| ==> Find(CompleteLines(s)[k], CRLF) < 0
    ensures Find(Rest(s), CRLF) < 0
    decreases |s|
  {
    hide CompleteLines, Rest, Find;
    var i := Find(s, CRLF);
    FirstLine(s);
    if i >= 0 {
      NoEarlierLine(s, i);
      LinesRejoin(s[i + 2..]);
      var rest := CompleteLines(s[i + 2..]);
      assert ([s[..i]] + rest)[1..] == rest;
      assert s[..i] + CRLF + Unlines(rest) + Rest(s) == s[..i] + CRLF + (Unlines(rest) + Rest(s));
    }
  }

  lemma LineBreakAt(s: string, i: int)
    requires OccursAt(s, CRLF, i)
    ensures i + 2 <= |s| && s[i] == '\r' && s[i + 1] == '\n'
  {
    assert s[i] == s[i..i + 2][0] && s[i + 1] == s[i..i + 2][1];
  }

  lemma NoBreak(line: string)
    requires forall i :: 0 <= i < |line| ==> line[i] != '\n'
    ensures Find(line, CRLF) < 0
  {
    FindFirst(line, CRLF);
    if Find(line, CRLF) >= 0 {
      LineBreakAt(line, Find(line, CRLF));
    }
  }

  /** A line without CRLF that is closed by CRLF. */
  lemma OneLine(line: string)
    requires Find(line, CRLF) < 0
    ensures CompleteLines(line + CRLF) == [line] && Rest(line + CRLF) == ""
  {
    FindFirst(line, CRLF);
    forall j | 0 <= j < |line| ensures !OccursAt(line + CRLF, CRLF, j) {
      NoneBefore(line, j);
    }
    var all := line + CRLF;
    hide Find, CompleteLines, Rest;
    FindIs(all, CRLF, |line|);
    FirstLine(all);
    FirstLine("");
    FindFirst("", CRLF);
    assert all[..|line|] == line && all[|line| + 2..] == "";
  }

  lemma NoneBefore(line: string, j: nat)
    requires j < |line| && !OccursAt(line, CRLF, j)
    ensures !OccursAt(line + CRLF, CRLF, j)
  {
    var all := line + CRLF;
    if j + 2 <= |line| {
      OccursInPrefix(line, CRLF, CRLF, j);
    } else if OccursAt(all, CRLF, j) {
      LineBreakAt(all, j);
    }
  }
}
