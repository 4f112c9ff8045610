/** What the string operations amount to, character by character, without their definitions. */
module TextLaws {
  import opened Text

  // ---------------------------------------------------------------- case

  const CAPITALS := "ABCDEFGHIJKLMNOPQRSTUVWXYZ"
  const SMALL := "abcdefghijklmnopqrstuvwxyz"

  lemma Alphabet()
    ensures |CAPITALS| == |SMALL| == 26
    ensures forall k :: 0 <= k < 26 ==> CAPITALS[k] as int == 'A' as int + k && SMALL[k] as int == 'a' as int + k
  {
  }

  /** Capitals become small letters; every other character stays as it is. */
  lemma LowerLaw(s: string)
    ensures |Lower(s)| == |s| && |CAPITALS| == |SMALL| == 26
    ensures forall i, k :: 0 <= i < |s| && 0 <= k < 26 && s[i] == CAPITALS[k] ==> Lower(s)[i] == SMALL[k]
    ensures forall i :: 0 <= i < |s| && s[i] !in CAPITALS ==> Lower(s)[i] == s[i]
  {
    Alphabet();
    hide CAPITALS, SMALL;
    forall i | 0 <= i < |s| && s[i] !in CAPITALS ensures Lower(s)[i] == s[i] {
      if 'A' <= s[i] <= 'Z' {
        assert CAPITALS[s[i] as int - 'A' as int] == s[i];
      }
    }
  }

  lemma UpperLaw(s: string)
    ensures |Upper(s)| == |s| && |CAPITALS| == |SMALL| == 26
    ensures forall i, k :: 0 <= i < |s| && 0 <= k < 26 && s[i] == SMALL[k] ==> Upper(s)[i] == CAPITALS[k]
    ensures forall i :: 0 <= i < |s| && s[i] !in SMALL ==> Upper(s)[i] == s[i]
  {
    Alphabet();
    hide CAPITALS, SMALL;
    forall i | 0 <= i < |s| && s[i] !in SMALL ensures Upper(s)[i] == s[i] {
      if 'a' <= s[i] <= 'z' {
        assert SMALL[s[i] as int - 'a' as int] == s[i];
      }
    }
  }

  /** The same letter, in either case. */
  ghost predicate SameLetter(a: char, b: char) {
    exists k :: 0 <= k < 26 && a in [CAPITALS[k], SMALL[k]] && b in [CAPITALS[k], SMALL[k]]
  }

  /** Equal but for the case of letters. */
  ghost predicate SameButCase(s: string, t: string) {
    |s| == |t| && forall i :: 0 <= i < |s| ==> s[i] == t[i] || SameLetter(s[i], t[i])
  }

  lemma SameChars(a: char, b: char)
    ensures LowerChar(a) == LowerChar(b) <==> a == b || SameLetter(a, b)
    ensures UpperChar(a) == UpperChar(b) <==> a == b || SameLetter(a, b)
  {
    Alphabet();
    hide CAPITALS, SMALL;
    if a != b && LowerChar(a) == LowerChar(b) {
      var k := LowerChar(a) as int - 'a' as int;
      assert a in [CAPITALS[k], SMALL[k]] && b in [CAPITALS[k], SMALL[k]];
    }
  }

  /** Two names are one if and only if they differ in nothing but case, and only names without capitals are kept. */
  lemma SameNameIff(s: string, t: string)
    ensures Lower(s) == Lower(t) <==> SameButCase(s, t)
    ensures Lower(s) == s <==> forall i :: 0 <= i < |s| ==> s[i] !in CAPITALS
  {
    hide LowerChar, UpperChar, SameLetter, CAPITALS;
    forall i | 0 <= i < |s| && i < |t| ensures Lower(s)[i] == Lower(t)[i] <==> s[i] == t[i] || SameLetter(s[i], t[i]) {
      SameChars(s[i], t[i]);
    }
    forall i | 0 <= i < |s| ensures Lower(s)[i] == s[i] <==> s[i] !in CAPITALS {
      KeptIff(s[i]);
    }
  }

  lemma KeptIff(c: char)
    ensures LowerChar(c) == c <==> c !in CAPITALS
  {
    Alphabet();
    hide CAPITALS, SMALL;
    if 'A' <= c <= 'Z' {
      assert CAPITALS[c as int - 'A' as int] == c;
    }
  }

  lemma SameWordIff(s: string, t: string)
    ensures Upper(s) == Upper(t) <==> SameButCase(s, t)
  {
    hide LowerChar, UpperChar, SameLetter;
    forall i | 0 <= i < |s| && i < |t| ensures Upper(s)[i] == Upper(t)[i] <==> s[i] == t[i] || SameLetter(s[i], t[i]) {
      SameChars(s[i], t[i]);
    }
  }

  // ---------------------------------------------------------------- white space

  /** Tab, line feed, vertical tab, form feed, carriage return, the four separators and the blank. */
  lemma SpaceIff(c: char)
    ensures IsSpace(c) <==> c as int in {9, 10, 11, 12, 13, 28, 29, 30, 31, 32}
  {
  }

  predicate Blank(s: string) {
    forall i :: 0 <= i < |s| ==> IsSpace(s[i])
  }

  /** Begins and ends in a visible character, if it is not empty. */
  predicate Tight(s: string) {
    s == "" || (!IsSpace(s[0]) && !IsSpace(s[|s| - 1]))
  }

  lemma {:induction false} StripLeftBlank(a: string, m: string)
    requires Blank(a) && (m == "" || !IsSpace(m[0]))
    ensures StripLeft(a + m) == m
  {
    if a == "" {
      assert a + m == m;
    } else {
      assert (a + m)[1..] == a[1..] + m;
      StripLeftBlank(a[1..], m);
    }
  }

  lemma {:induction false} StripRightBlank(m: string, b: string)
    requires Blank(b) && (m == "" || !IsSpace(m[|m| - 1]))
    ensures StripRight(m + b) == m
  {
    if b == "" {
      assert m + b == m;
    } else {
      var k := |b| - 1;
      assert (m + b)[..|m + b| - 1] == m + b[..k] && (m + b)[|m + b| - 1] == b[k];
      StripRightBlank(m, b[..k]);
    }
  }

  lemma {:induction false} AllBlank(a: string)
    requires Blank(a)
    ensures StripLeft(a) == ""
  {
    StripLeftBlank(a, "");
    assert a + "" == a;
  }

  /** White space around a text is taken off, and nothing else. */
  lemma StripLaw(a: string, m: string, b: string)
    requires Blank(a) && Tight(m) && Blank(b)
    ensures Strip(a + m + b) == m
  {
    if m == "" {
      assert a + m + b == a + b;
      AllBlank(a + b);
    } else {
      assert a + m + b == a + (m + b);
      StripLeftBlank(a, m + b);
      StripRightBlank(m, b);
    }
  }

  /** How much white space a text begins with. */
  function Lead(s: string): (n: nat)
    ensures n <= |s| && Blank(s[..n]) && StripLeft(s) == s[n..]
    ensures n < |s| ==> !IsSpace(s[n])
  {
    if s == "" || !IsSpace(s[0]) then 0
    else
      var n := 1 + Lead(s[1..]);
      assert s[..n] == [s[0]] + s[1..][..n - 1] && s[1..][n - 1..] == s[n..];
      n
  }

  lemma {:induction false} TrailOf(s: string) returns (b: string)
    ensures Blank(b) && s == StripRight(s) + b && (StripRight(s) == "" || !IsSpace(StripRight(s)[|StripRight(s)| - 1]))
  {
    b := "";
    if s != "" && IsSpace(s[|s| - 1]) {
      b := TrailOf(s[..|s| - 1]);
      assert s == s[..|s| - 1] + [s[|s| - 1]];
      b := b + [s[|s| - 1]];
    }
  }

  /** Every text is of that form. */
  lemma StripParts(s: string) returns (a: string, b: string)
    ensures Blank(a) && Blank(b) && Tight(Strip(s)) && s == a + Strip(s) + b
  {
    var n := Lead(s);
    a := s[..n];
    b := TrailOf(s[n..]);
    var m := StripRight(s[n..]);
    assert s == a + (m + b);
    assert m != "" ==> s[n] == m[0];
  }

  lemma {:induction false} WordEnds(w: string, rest: string)
    requires (forall i :: 0 <= i < |w| ==> !IsSpace(w[i])) && (rest == "" || IsSpace(rest[0]))
    ensures Word(w + rest) == w
  {
    if w == "" {
      assert w + rest == rest;
    } else {
      assert (w + rest)[1..] == w[1..] + rest;
      WordEnds(w[1..], rest);
    }
  }

  predicate IsWord(w: string) {
    w != "" && forall i :: 0 <= i < |w| ==> !IsSpace(w[i])
  }

  /** White space before a word is skipped, and a word goes as far as the next white space. */
  lemma {:induction false} WordsLaw(gap: string, w: string, rest: string)
    requires Blank(gap) && IsWord(w) && (rest == "" || IsSpace(rest[0]))
    ensures Words(gap + w + rest) == [w] + Words(rest)
    decreases |gap|
  {
    hide Words, Word;
    if gap == "" {
      assert gap + w + rest == w + rest;
      WordEnds(w, rest);
      FirstWord(w + rest);
      assert (w + rest)[|w|..] == rest;
    } else {
      assert (gap + w + rest)[1..] == gap[1..] + w + rest;
      SkipSpace(gap + w + rest);
      WordsLaw(gap[1..], w, rest);
    }
  }

  lemma FirstWord(s: string)
    requires s != "" && !IsSpace(s[0])
    ensures |Word(s)| <= |s| && Words(s) == [Word(s)] + Words(s[|Word(s)|..])
  {
    WordIsPrefix(s);
  }

  lemma SkipSpace(s: string)
    requires s != "" && IsSpace(s[0])
    ensures Words(s) == Words(s[1..])
  {
  }

  lemma {:induction false} NoWords(gap: string)
    requires Blank(gap)
    ensures Words(gap) == []
    decreases |gap|
  {
    hide Word;
    if gap != "" {
      NoWords(gap[1..]);
    }
  }

  // ---------------------------------------------------------------- what is cut off or changed

  /** Octets above 127 are dropped, and the others kept in order. */
  lemma {:induction false} DecodeLaw(a: string, c: char, b: string)
    requires IsAscii(a)
    ensures DecodeIgnoring(a) == a
    ensures DecodeIgnoring(a + [c] + b) == a + (if c as int <= 127 then [c] else "") + DecodeIgnoring(b)
    decreases |a|
  {
    DecodeAscii(a);
    if a == "" {
      assert a + [c] + b == [c] + b && ([c] + b)[1..] == b;
    } else {
      assert (a + [c] + b)[1..] == a[1..] + [c] + b;
      DecodeLaw(a[1..], c, b);
    }
  }

  /** What precedes the first c, and all if there is none. */
  lemma {:induction false} BeforeLaw(s: string, c: char, t: string)
    requires c !in s
    ensures Before(s + [c] + t, c) == s && Before(s, c) == s
  {
    if s == "" {
      assert s + [c] + t == [c] + t;
    } else {
      assert (s + [c] + t)[1..] == s[1..] + [c] + t;
      assert s[0] in s && forall x :: x in s[1..] ==> x in s;
      BeforeLaw(s[1..], c, t);
    }
  }

  /** A line end at the start: CRLF, LF, or a CR that is not part of CRLF. */
  ghost predicate LineEnd(end: string, rest: string) {
    end == "\r\n" || end == "\n" || (end == "\r" && (rest == "" || rest[0] != '\n'))
  }

  lemma EndFirst(end: string, rest: string)
    requires LineEnd(end, rest)
    ensures Newlines(end + rest) == "\n" + Newlines(rest)
  {
    var s := end + rest;
    assert s[|end|..] == rest;
    assert CRLF <= s <==> end == "\r\n" by {
      assert |s| >= 2 ==> s[..2] == [s[0], s[1]];
    }
  }

  /** Every line end, CRLF, CR or LF, becomes LF, and everything else is kept. */
  lemma {:induction false} NewlinesLaw(a: string, end: string, rest: string)
    requires (forall i :: 0 <= i < |a| ==> a[i] != '\r') && LineEnd(end, rest)
    ensures Newlines(a) == a && Newlines(a + end + rest) == a + "\n" + Newlines(rest)
    decreases |a|
  {
    hide LineEnd;
    if a == "" {
      assert a + end + rest == end + rest;
      EndFirst(end, rest);
    } else {
      assert (a + end + rest)[1..] == a[1..] + end + rest;
      NewlinesLaw(a[1..], end, rest);
    }
  }

  lemma {:induction false} NewlinesEmptyIff(s: string)
    ensures Newlines(s) == "" <==> s == ""
  {
  }

  /** Lines with CRLF between them. */
  function JoinLines(lines: seq<string>): string
    requires lines != []
  {
    if |lines| == 1 then lines[0] else lines[0] + "\r\n" + JoinLines(lines[1..])
  }

  /** The lines of a text, the last one included even where no CRLF closes it. */
  lemma {:induction false} SplitLinesLaw(s: string)
    ensures SplitLines(s) != [] && JoinLines(SplitLines(s)) == s
    ensures forall k :: 0 <= k < |SplitLines(s)| ==> !Contains(SplitLines(s)[k], "\r\n")
    decreases |s|
  {
    hide CompleteLines, Rest, Find;
    FirstLine(s);
    LinesRejoin(s);
    var i := Find(s, CRLF);
    if i >= 0 {
      SplitLinesLaw(s[i + 2..]);
      assert SplitLines(s) == [s[..i]] + SplitLines(s[i + 2..]);
      assert SplitLines(s)[1..] == SplitLines(s[i + 2..]);
    } else {
      assert SplitLines(s) == [s];
    }
    forall k | 0 <= k < |SplitLines(s)| ensures !Contains(SplitLines(s)[k], "\r\n") {
      FindFirst(SplitLines(s)[k], CRLF);
    }
  }

  /** One line and its end. */
  lemma SplitOne(line: string)
    requires !Contains(line, "\r\n")
    ensures SplitLines(line + "\r\n") == [line, ""] && SplitLines(line) == [line]
  {
    FindFirst(line, CRLF);
    hide Find, Contains, CompleteLines, Rest;
    OneLine(line);
    FirstLine(line);
  }
}
