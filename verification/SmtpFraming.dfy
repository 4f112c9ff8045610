/** A message in chunks, from the client's chunk loop to the server's search for the terminator. */
module SmtpFraming {
  import opened Wrappers
  import opened Text
  import opened SmtpSession
  import opened SmtpPackets

  /** The message neither contains the terminator nor ends in the beginning of one: there is no dot-stuffing. */
  ghost predicate Framed(m: string) {
    !Contains(m, TERMINATOR) && !EndsInDot(m)
  }

  predicate EndsInDot(m: string) {
    |m| >= 3 && m[|m| - 3..] == "\r\n."
  }

  lemma TerminatorAt(s: string, i: int)
    requires OccursAt(s, TERMINATOR, i)
    ensures i + 5 <= |s| && s[i] == s[i + 3] == '\r' && s[i + 1] == s[i + 4] == '\n' && s[i + 2] == '.'
  {
    assert s[i] == '\r' && s[i + 1] == '\n' && s[i + 2] == '.' && s[i + 3] == '\r' && s[i + 4] == '\n';
  }

  /** Two occurrences of the terminator overlap in CRLF or not at all. */
  lemma Overlap(s: string, i: int, j: int)
    requires OccursAt(s, TERMINATOR, i) && OccursAt(s, TERMINATOR, j) && i < j < i + 5
    ensures j == i + 3
  {
    TerminatorAt(s, i);
    TerminatorAt(s, j);
  }

  lemma AtTheEnd(m: string)
    ensures OccursAt(m + TERMINATOR, TERMINATOR, |m|)
  {
  }

  /** The terminator that the client appends is the first one exactly for framed messages. */
  lemma FoundAtTheEndIff(m: string)
    ensures Find(m + TERMINATOR, TERMINATOR) == |m| <==> Framed(m)
  {
    AtTheEnd(m);
    FindFirst(m + TERMINATOR, TERMINATOR);
    if Find(m + TERMINATOR, TERMINATOR) < |m| {
      EarlierMeansNotFramed(m, Find(m + TERMINATOR, TERMINATOR));
    } else if !Framed(m) {
      NotFramedMeansEarlier(m);
    }
  }

  lemma EarlierMeansNotFramed(m: string, i: int)
    requires OccursAt(m + TERMINATOR, TERMINATOR, i) && i < |m|
    ensures !Framed(m)
  {
    if i + 5 <= |m| {
      OccursInPrefix(m, TERMINATOR, TERMINATOR, i);
    } else {
      AtTheEnd(m);
      Overlap(m + TERMINATOR, i, |m|);
      LastThree(m, i);
    }
  }

  lemma LastThree(m: string, i: nat)
    requires i + 3 == |m| && OccursAt(m + TERMINATOR, TERMINATOR, i)
    ensures EndsInDot(m)
  {
    var full := m + TERMINATOR;
    TerminatorAt(full, i);
    assert m[i..] == "\r\n.";
  }

  lemma NotFramedMeansEarlier(m: string)
    requires !Framed(m)
    ensures exists j :: OccursAt(m + TERMINATOR, TERMINATOR, j) && j < |m|
  {
    if EndsInDot(m) {
      EndingInDot(m);
    } else {
      var j :| OccursAt(m, TERMINATOR, j);
      OccursInPrefix(m, TERMINATOR, TERMINATOR, j);
    }
  }

  lemma EndingInDot(m: string)
    requires EndsInDot(m)
    ensures OccursAt(m + TERMINATOR, TERMINATOR, |m| - 3)
  {
    var full, k := m + TERMINATOR, |m| - 3;
    assert full[k..k + 5] == m[k..] + TERMINATOR[..2];
  }

  /** Before the whole terminator has come in, none is found. */
  lemma NotYet(full: string, seen: string)
    requires seen <= full && Find(full, TERMINATOR) >= 0 && |seen| < Find(full, TERMINATOR) + 5
    ensures Find(seen, TERMINATOR) < 0
  {
    if Find(seen, TERMINATOR) >= 0 {
      assert full == seen + full[|seen|..];
      FindInPrefix(seen, full[|seen|..], TERMINATOR);
      FindFirst(seen, TERMINATOR);
    }
  }

  lemma {:induction false} StillReading(s: Session, users: Accounts, packets: seq<Packet>)
    requires s.core.state.ReadingDataStream? && s.dataBuffer == "" && Find(Bytes(packets), TERMINATOR) < 0
    ensures ServeAll(Some(s), users, packets) == Conversation(Some(s.(dataBuffer := Bytes(packets))), [], [])
  {
    hide Find, Deliver, TakeCommands;
    if packets != [] {
      var k := |packets| - 1;
      Shorter(Bytes(packets[..k]), packets[k].data);
      StillReading(s, users, packets[..k]);
    }
  }

  lemma Shorter(s: string, t: string)
    requires Find(s + t, TERMINATOR) < 0
    ensures Find(s, TERMINATOR) < 0
  {
    if Find(s, TERMINATOR) >= 0 {
      FindInPrefix(s, t, TERMINATOR);
    }
  }

  /** However a message with its terminator is cut into packets, of which the last is not empty, the server finds
      exactly this message, once and with the last packet, if and only if the message is framed. */
  lemma FoundOnceIff(s: Session, users: Accounts, m: string, packets: seq<Packet>)
    requires s.core.state.ReadingDataStream? && s.dataBuffer == ""
    requires packets != [] && Bytes(packets) == m + TERMINATOR && packets[|packets| - 1].data != ""
    ensures var k := |packets| - 1;
            && ServeAll(Some(s), users, packets[..k]).events == []
            && ServeAll(Some(s), users, packets).events == [Block(m, packets[k].fate)]
            <==> Framed(m)
  {
    FoundAtTheEndIff(m);
    var k, full := |packets| - 1, m + TERMINATOR;
    var seen := Bytes(packets[..k]);
    AtTheEnd(m);
    FindFirst(full, TERMINATOR);
    if Find(seen, TERMINATOR) < 0 {
      StillReading(s, users, packets[..k]);
      LastPacket(s.(dataBuffer := seen), users, m, packets[k]);
      hide Find, Take;
      assert [] + Take(s.(dataBuffer := seen), users, packets[k]).events
             == Take(s.(dataBuffer := seen), users, packets[k]).events;
    } else {
      FindFirst(seen, TERMINATOR);
      FirstFound(s, users, packets[..k]);
      FindInPrefix(seen, packets[k].data, TERMINATOR);
    }
  }

  lemma LastPacket(s: Session, users: Accounts, m: string, p: Packet)
    requires s.core.state.ReadingDataStream? && s.dataBuffer + p.data == m + TERMINATOR
    ensures Take(s, users, p).events == [Block(m, p.fate)] <==> Find(m + TERMINATOR, TERMINATOR) == |m|
  {
    AtTheEnd(m);
    FindFirst(m + TERMINATOR, TERMINATOR);
    hide Find;
    assert (m + TERMINATOR)[..|m|] == m;
  }

  /** In any cut, the first message found is what precedes the first terminator. */
  lemma {:induction false} FirstFound(s: Session, users: Accounts, packets: seq<Packet>)
    requires s.core.state.ReadingDataStream? && s.dataBuffer == ""
             && 0 <= Find(Bytes(packets), TERMINATOR) <= |Bytes(packets)|
    ensures var events := ServeAll(Some(s), users, packets).events;
            events != [] && events[0].Block? && events[0].message == Bytes(packets)[..Find(Bytes(packets), TERMINATOR)]
  {
    hide Find, Deliver, TakeCommands;
    if packets == [] {
      FindFirst("", TERMINATOR);
    } else {
      var k := |packets| - 1;
      var seen := Bytes(packets[..k]);
      if Find(seen, TERMINATOR) < 0 {
        StillReading(s, users, packets[..k]);
      } else {
        FindFirst(seen, TERMINATOR);
        FindInPrefix(seen, packets[k].data, TERMINATOR);
        FirstFound(s, users, packets[..k]);
      }
    }
  }

  /** A message that is not framed is cut short: in every cut the first message the server finds is a proper beginning
      of it. */
  lemma OtherwiseCutShort(s: Session, users: Accounts, m: string, packets: seq<Packet>)
    requires s.core.state.ReadingDataStream? && s.dataBuffer == "" && Bytes(packets) == m + TERMINATOR && !Framed(m)
    ensures var events := ServeAll(Some(s), users, packets).events;
            events != [] && events[0].Block? && events[0].message < m
  {
    FoundAtTheEndIff(m);
    AtTheEnd(m);
    FindFirst(m + TERMINATOR, TERMINATOR);
    FirstFound(s, users, packets);
    hide Find, ServeAll;
    var i := Find(m + TERMINATOR, TERMINATOR);
    assert (m + TERMINATOR)[..i] == m[..i];
  }

  /** What the server finds of a message first, however it comes in. */
  function Arriving(m: string): string {
    FindFirst(m + TERMINATOR, TERMINATOR);
    AtTheEnd(m);
    (m + TERMINATOR)[..Find(m + TERMINATOR, TERMINATOR)]
  }

  lemma ArrivesWholeIff(m: string)
    ensures Arriving(m) <= m && (Arriving(m) == m <==> Framed(m))
  {
    FoundAtTheEndIff(m);
    FindFirst(m + TERMINATOR, TERMINATOR);
    AtTheEnd(m);
    hide Find, Framed;
    assert (m + TERMINATOR)[..|m|] == m;
    var i := Find(m + TERMINATOR, TERMINATOR);
    assert (m + TERMINATOR)[..i] == m[..i];
  }
}
