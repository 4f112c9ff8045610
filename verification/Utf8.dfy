/** The octets of a text file: UTF-8, as section 3 of RFC 3629 defines it. */
module Utf8 {
  import opened Text
  import opened FileSystem

  /** Six bits to an octet, from the last one. */
  function Encode(c: char): seq<int> {
    var n := c as int;
    if n <= 0x7F then [n]
    else if n <= 0x7FF then [0xC0 + n / 64, 0x80 + n % 64]
    else if n <= 0xFFFF then [0xE0 + n / 64 / 64, 0x80 + n / 64 % 64, 0x80 + n % 64]
    else [0xF0 + n / 64 / 64 / 64, 0x80 + n / 64 / 64 % 64, 0x80 + n / 64 % 64, 0x80 + n % 64]
  }

  function EncodeAll(text: string): seq<int> {
    if text == "" then [] else Encode(text[0]) + EncodeAll(text[1..])
  }

  /** The character whose encoding this is. */
  function CodeOf(o: seq<int>): int
    requires 1 <= |o| <= 4
  {
    match |o|
    case 1 => o[0]
    case 2 => (o[0] - 0xC0) * 64 + (o[1] - 0x80)
    case 3 => ((o[0] - 0xE0) * 64 + (o[1] - 0x80)) * 64 + (o[2] - 0x80)
    case _ => (((o[0] - 0xF0) * 64 + (o[1] - 0x80)) * 64 + (o[2] - 0x80)) * 64 + (o[3] - 0x80)
  }

  /** How many octets an encoding has, from its first. */
  function LengthFrom(first: int): nat {
    if first < 0x80 then 1 else if first < 0xE0 then 2 else if first < 0xF0 then 3 else 4
  }

  lemma Digits(n: nat)
    ensures n == n / 64 * 64 + n % 64 && 0 <= n % 64 < 64
  {
  }

  /** One to four octets, by the code of the character, of which all but the first are 0x80 to 0xBF; the first tells how
      many there are, and together they give the code. */
  lemma EncodeLaw(c: char)
    ensures 1 <= |Encode(c)| <= 4 && CodeOf(Encode(c)) == c as int && LengthFrom(Encode(c)[0]) == |Encode(c)|
    ensures forall i :: 0 <= i < |Encode(c)| ==> 0 <= Encode(c)[i] <= 0xFF && (i > 0 ==> 0x80 <= Encode(c)[i] <= 0xBF)
    ensures |Encode(c)| == CharOctets(c)
  {
    var n := c as int;
    Digits(n);
    Digits(n / 64);
    Digits(n / 64 / 64);
  }

  /** The size of a text file is the number of its octets. */
  lemma {:induction false} OctetsCounted(text: string)
    ensures |EncodeAll(text)| == Octets(text)
  {
    hide CharOctets, Encode;
    if text != "" {
      EncodeLaw(text[0]);
      OctetsCounted(text[1..]);
    }
  }

  lemma SameStart(c: char, d: char, s: seq<int>, t: seq<int>)
    requires Encode(c) + s == Encode(d) + t
    ensures c == d && s == t
  {
    EncodeLaw(c);
    EncodeLaw(d);
    hide Encode;
    assert (Encode(c) + s)[0] == Encode(c)[0] && (Encode(d) + t)[0] == Encode(d)[0];
    var n := |Encode(c)|;
    assert (Encode(c) + s)[..n] == Encode(c) && (Encode(d) + t)[..n] == Encode(d);
    assert (Encode(c) + s)[n..] == s && (Encode(d) + t)[n..] == t;
  }

  /** No two texts have the same octets. */
  lemma {:induction false} EncodeAllInjective(s: string, t: string)
    requires EncodeAll(s) == EncodeAll(t)
    ensures s == t
  {
    hide Encode, CharOctets;
    if s != "" {
      EncodeLaw(s[0]);
    }
    if t != "" {
      EncodeLaw(t[0]);
    }
    if s != "" && t != "" {
      SameStart(s[0], t[0], EncodeAll(s[1..]), EncodeAll(t[1..]));
      EncodeAllInjective(s[1..], t[1..]);
    }
  }

  lemma {:induction false} OctetsConcat(a: string, b: string)
    ensures Octets(a + b) == Octets(a) + Octets(b)
  {
    hide CharOctets;
    if a == "" {
      assert a + b == b;
    } else {
      assert (a + b)[1..] == a[1..] + b;
      OctetsConcat(a[1..], b);
    }
  }

  lemma AsciiFromStart(text: string)
    requires text != ""
    ensures IsAscii(text) <==> text[0] as int < 0x80 && IsAscii(text[1..])
  {
    assert text == [text[0]] + text[1..];
  }

  /** A text takes at least as many octets as it has characters, exactly as many if and only if it is ASCII, and none if
      and only if it is empty. */
  lemma {:induction false} OctetsAsciiIff(text: string)
    ensures Octets(text) >= |text| && (Octets(text) == |text| <==> IsAscii(text))
    ensures Octets(text) == 0 <==> text == ""
  {
    if text != "" {
      OctetsAsciiIff(text[1..]);
      AsciiFromStart(text);
    }
  }
}
