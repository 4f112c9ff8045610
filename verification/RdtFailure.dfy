/** Sends that fail: the network may lose every attempt of any of them. */
module RdtFailure {
  import opened Crc32
  import opened RdtSteps
  import opened RdtNet

  /** One attempt, whose packet is lost as the last one on its way. */
  function LostAttempt(x: Addr, y: Addr, i: nat): seq<Step> {
    [Register(x, y), Transmit(x, y), Lose(x, y, i), TimeOut(x, y), Unregister(x, y)]
  }

  lemma {:induction false} RunsConcat(s: Net, a: seq<Step>, t: Net, b: seq<Step>, u: Net)
    requires Runs(s, a, t) && Runs(t, b, u)
    ensures Runs(s, a + b, u)
    decreases |a|
  {
    hide Enabled, Apply;
    if a == [] {
      assert a + b == b;
    } else {
      assert (a + b)[1..] == a[1..] + b;
      RunsConcat(Apply(s, a[0]), a[1..], t, b, u);
    }
  }

  /** Nothing of this pair has changed but its sender. */
  ghost predicate OnlySender(s: Net, t: Net, x: Addr, y: Addr, sender: Sender) {
    && t.At(x).To(y) == sender && t.Chan(x, y) == s.Chan(x, y) && t.Delivered(x, y) == s.Delivered(x, y)
    && t.At(y).queue == s.At(y).queue
  }

  lemma OnlySenderTwice(s: Net, t: Net, u: Net, x: Addr, y: Addr, m: Sender, m': Sender)
    requires OnlySender(s, t, x, y, m) && OnlySender(t, u, x, y, m')
    ensures OnlySender(s, u, x, y, m')
  {
  }

  /** What the steps of a sender do to it. */
  lemma SenderSteps(s: Net, t: Step, x: Addr, y: Addr)
    requires t == Register(x, y) || t == TimeOut(x, y) || t == Unregister(x, y) || t == Fail(x, y)
    requires Enabled(s, t)
    ensures var m := s.At(x).To(y);
            OnlySender(s, Apply(s, t), x, y,
                       match t
                       case Register(_, _) => m.Register(s.At(x).nextEvent)
                       case TimeOut(_, _) => m.TimeOut()
                       case Unregister(_, _) => m.Unregister()
                       case _ => m.Fail())
  {
  }

  lemma StartStep(s: Net, x: Addr, y: Addr, data: Bytes)
    requires Enabled(s, Start(x, y, data))
    ensures OnlySender(s, Apply(s, Start(x, y, data)), x, y, s.At(x).To(y).Start(data))
  {
  }

  /** A packet is sent and lost. */
  lemma LostPacket(s: Net, x: Addr, y: Addr)
    requires Enabled(s, Transmit(x, y))
    ensures var s1 := Apply(s, Transmit(x, y));
            Enabled(s1, Lose(x, y, |s.Chan(x, y)|))
            && OnlySender(s, Apply(s1, Lose(x, y, |s.Chan(x, y)|)), x, y, s.At(x).To(y).Transmit())
  {
    var s1 := Apply(s, Transmit(x, y));
    var s2 := Apply(s1, Lose(x, y, |s.Chan(x, y)|));
    assert s2.Chan(x, y) == s.Chan(x, y);
  }

  lemma LostAttemptRuns(s: Net, x: Addr, y: Addr) returns (t: Net)
    requires s.At(x).To(y).CanRegister()
    ensures Runs(s, LostAttempt(x, y, |s.Chan(x, y)|), t)
    ensures var m := s.At(x).To(y);
            OnlySender(s, t, x, y, Sender(m.currSeq, Ready(m.pc.data, m.pc.attempts + 1)))
  {
    hide Apply, Net.At, Node.To, Net.Chan, Net.Delivered;
    EnabledAre(s, x, y);
    var m, i := s.At(x).To(y), |s.Chan(x, y)|;
    SenderSteps(s, Register(x, y), x, y);
    var s1 := Apply(s, Register(x, y));
    EnabledAre(s1, x, y);
    LostPacket(s1, x, y);
    var s2 := Apply(s1, Transmit(x, y));
    var s3 := Apply(s2, Lose(x, y, i));
    OnlySenderTwice(s, s1, s3, x, y, s1.At(x).To(y), s3.At(x).To(y));
    EnabledAre(s3, x, y);
    SenderSteps(s3, TimeOut(x, y), x, y);
    var s4 := Apply(s3, TimeOut(x, y));
    OnlySenderTwice(s, s3, s4, x, y, s3.At(x).To(y), s4.At(x).To(y));
    EnabledAre(s4, x, y);
    SenderSteps(s4, Unregister(x, y), x, y);
    t := Apply(s4, Unregister(x, y));
    OnlySenderTwice(s, s4, t, x, y, s4.At(x).To(y), t.At(x).To(y));
    FiveSteps(s, Register(x, y), Transmit(x, y), Lose(x, y, i), TimeOut(x, y), Unregister(x, y));
  }

  lemma EnabledAre(s: Net, x: Addr, y: Addr)
    ensures Enabled(s, Register(x, y)) <==> s.At(x).To(y).CanRegister()
    ensures Enabled(s, Transmit(x, y)) <==> s.At(x).To(y).pc.Registered?
    ensures Enabled(s, TimeOut(x, y)) <==> s.At(x).To(y).pc.Waiting?
    ensures Enabled(s, Unregister(x, y)) <==> s.At(x).To(y).pc.Finishing?
    ensures Enabled(s, Fail(x, y)) <==> s.At(x).To(y).CanFail()
  {
  }

  lemma FiveSteps(s: Net, a: Step, b: Step, c: Step, d: Step, e: Step)
    requires Enabled(s, a)
    requires var s1 := Apply(s, a);
             Enabled(s1, b) &&
             var s2 := Apply(s1, b);
             Enabled(s2, c) &&
             var s3 := Apply(s2, c);
             Enabled(s3, d) && Enabled(Apply(s3, d), e)
    ensures Runs(s, [a, b, c, d, e], Apply(Apply(Apply(Apply(Apply(s, a), b), c), d), e))
  {
    hide Enabled, Apply;
    var s1 := Apply(s, a);
    var s2 := Apply(s1, b);
    var s3 := Apply(s2, c);
    var s4 := Apply(s3, d);
    var t := Apply(s4, e);
    assert [a, b, c, d, e][1..] == [b, c, d, e] && [b, c, d, e][1..] == [c, d, e];
    assert [c, d, e][1..] == [d, e] && [d, e][1..] == [e] && [e][1..] == [];
    assert Runs(s4, [e], t);
    assert Runs(s3, [d, e], t);
    assert Runs(s2, [c, d, e], t);
    assert Runs(s1, [b, c, d, e], t);
  }

  /** How many packets the sender has sent. */
  function Transmissions(steps: seq<Step>): nat {
    if steps == [] then 0 else (if steps[0].Transmit? then 1 else 0) + Transmissions(steps[1..])
  }

  lemma {:induction false} TransmissionsConcat(a: seq<Step>, b: seq<Step>)
    ensures Transmissions(a + b) == Transmissions(a) + Transmissions(b)
    decreases |a|
  {
    if a == [] {
      assert a + b == b;
    } else {
      assert (a + b)[1..] == a[1..] + b;
      TransmissionsConcat(a[1..], b);
    }
  }

  lemma OneTransmission(x: Addr, y: Addr, i: nat)
    ensures Transmissions(LostAttempt(x, y, i)) == 1
  {
    var steps := LostAttempt(x, y, i);
    assert Transmissions(steps[5..]) == 0;
    assert Transmissions(steps[4..]) == 0;
    assert Transmissions(steps[3..]) == 0;
    assert Transmissions(steps[2..]) == 0;
    assert Transmissions(steps[1..]) == 1;
  }

  /** The attempts that are left, all lost. */
  lemma {:induction false} LostAttempts(s: Net, x: Addr, y: Addr) returns (steps: seq<Step>, t: Net)
    requires s.At(x).To(y).pc.Ready? && s.At(x).To(y).pc.attempts <= 5
    ensures Runs(s, steps, t) && Transmissions(steps) == 5 - s.At(x).To(y).pc.attempts
    ensures OnlySender(s, t, x, y, Sender(s.At(x).To(y).currSeq, Ready(s.At(x).To(y).pc.data, 5)))
    decreases 5 - s.At(x).To(y).pc.attempts
  {
    var m := s.At(x).To(y);
    hide Apply, Enabled, LostAttempt, Net.Chan, Net.Delivered;
    if m.pc.attempts == 5 {
      return [], s;
    }
    var u := LostAttemptRuns(s, x, y);
    var rest;
    rest, t := LostAttempts(u, x, y);
    var i := |s.Chan(x, y)|;
    steps := LostAttempt(x, y, i) + rest;
    RunsConcat(s, LostAttempt(x, y, i), u, rest, t);
    TransmissionsConcat(LostAttempt(x, y, i), rest);
    OneTransmission(x, y, i);
    OnlySenderTwice(s, u, t, x, y, u.At(x).To(y), t.At(x).To(y));
  }

  /** Whatever state a network is in, a sender that is free can be given data and lose all of it: after five packets
      the call fails, the bit is as before, nothing has been delivered, and nothing is on its way. */
  lemma AnySendCanFail(s: Net, x: Addr, y: Addr, data: Bytes) returns (steps: seq<Step>, t: Net)
    requires s.At(x).To(y).pc.Idle? && s.Offers(x, y) != []
    ensures Runs(s, steps, t) && steps != [] && steps[0] == Start(x, y, data) && steps[|steps| - 1] == Fail(x, y)
    ensures Transmissions(steps) == 5
    ensures OnlySender(s, t, x, y, Sender(s.At(x).To(y).currSeq, Idle))
  {
    assert Enabled(s, Start(x, y, data));
    StartStep(s, x, y, data);
    var s1 := Apply(s, Start(x, y, data));
    hide Apply, Enabled, Net.At, Node.To, Net.Chan, Net.Delivered;
    var attempts, s2 := LostAttempts(s1, x, y);
    OnlySenderTwice(s, s1, s2, x, y, s1.At(x).To(y), s2.At(x).To(y));
    EnabledAre(s2, x, y);
    SenderSteps(s2, Fail(x, y), x, y);
    t := Apply(s2, Fail(x, y));
    OnlySenderTwice(s, s2, t, x, y, s2.At(x).To(y), t.At(x).To(y));
    steps := [Start(x, y, data)] + attempts + [Fail(x, y)];
    Between(s, Start(x, y, data), attempts, s2, Fail(x, y));
  }

  lemma Between(s: Net, first: Step, steps: seq<Step>, t: Net, last: Step)
    requires Enabled(s, first) && Runs(Apply(s, first), steps, t) && Enabled(t, last)
    ensures Runs(s, [first] + steps + [last], Apply(t, last))
    ensures !first.Transmit? && !last.Transmit? ==> Transmissions([first] + steps + [last]) == Transmissions(steps)
  {
    hide Enabled, Apply;
    var s1, u := Apply(s, first), Apply(t, last);
    assert [last][1..] == [] && ([first] + steps)[1..] == steps;
    assert Runs(u, [last][1..], u);
    RunsConcat(s, [first] + steps, t, [last], u);
    TransmissionsConcat([first] + steps, [last]);
  }
}
