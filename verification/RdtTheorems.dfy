/** What every run of the RDT protocol guarantees, and what it does not. */
module RdtTheorems {
  import opened Sequences
  import opened Crc32
  import opened RdtSteps
  import opened RdtLink

  // ---------------------------------------------------------------- safety over every run

  /** In every reachable state each finished phase has delivered exactly one payload, one that was offered in that
      phase, and the phase in progress at most one; a send about to return True has closed a phase that delivered. */
  lemma PhaseSafety(s: Link)
    requires Reachable(s)
    ensures s.offers != []
    ensures |s.delivered| == |s.offers| - 1 || |s.delivered| == |s.offers|
    ensures forall k :: 0 <= k < |s.delivered| ==> s.delivered[k] in s.offers[k]
    ensures s.sender.pc.Finishing? && s.sender.pc.ok ==>
              && |s.offers| >= 2
              && s.offers[|s.offers| - 2] != []
              && s.sender.pc.data == s.offers[|s.offers| - 2][|s.offers[|s.offers| - 2]| - 1]
              && s.delivered[|s.offers| - 2] in s.offers[|s.offers| - 2]
  {
    ReachableInv(s);
  }

  /** The data on its way to the receiver, dispatcher queue first, and the ACKs on their way back each hold at most
      one change of bit, and its place is fixed by the sender's bit and the receiver's expected bit. */
  lemma OneChangeOfBit(s: Link)
    requires Reachable(s)
    ensures var b := s.sender.currSeq;
            && (b == 0 || b == 1) && (s.expected == b || s.expected == Flip(b))
            && EndsIn(Bits(s.queue + s.chan), b) && EndsIn(s.acks, b)
            && (s.expected == b ==> Lacks(s.acks, b))
            && (s.expected != b ==> All(Bits(s.queue + s.chan), b))
            && (s.fired && s.sender.pc.Waiting? ==> s.expected != b && All(s.acks, b))
  {
    ReachableInv(s);
    FlipBit(Phase(s));
  }

  lemma {:induction false} SkipPrefix(xs: seq<Bytes>, pre: seq<Bytes>, ys: seq<Bytes>)
    requires Subsequence(xs, ys)
    ensures Subsequence(xs, pre + ys)
    decreases |pre|
  {
    if pre == [] {
      assert pre + ys == ys;
    } else {
      SkipPrefix(xs, pre[1..], ys);
      assert (pre + ys)[1..] == pre[1..] + ys;
    }
  }

  lemma {:induction false} OneFromEach(xs: seq<Bytes>, ls: seq<seq<Bytes>>)
    requires |xs| <= |ls| && forall k :: 0 <= k < |xs| ==> xs[k] in ls[k]
    ensures Subsequence(xs, Flatten(ls))
    decreases |ls|
  {
    if xs != [] {
      OneFromEach(xs[1..], ls[1..]);
      var i :| 0 <= i < |ls[0]| && ls[0][i] == xs[0];
      var rest := ls[0][i + 1..] + Flatten(ls[1..]);
      SkipPrefix(xs[1..], ls[0][i + 1..], Flatten(ls[1..]));
      assert ([xs[0]] + rest)[1..] == rest;
      assert Subsequence(xs, [xs[0]] + rest);
      SkipPrefix(xs, ls[0][..i], [xs[0]] + rest);
      assert ls[0][..i] + ([xs[0]] + rest) == ls[0] + Flatten(ls[1..]) by {
        assert ls[0] == ls[0][..i] + [xs[0]] + ls[0][i + 1..];
      }
    }
  }

  /** Whatever is lost, repeated or given up, the payloads yielded are an in-order subsequence of those offered. */
  lemma DeliveredIsSubsequence(s: Link)
    requires Reachable(s)
    ensures Subsequence(s.delivered, Flatten(s.offers))
  {
    ReachableInv(s);
    OneFromEach(s.delivered, s.offers);
  }

  // ---------------------------------------------------------------- without failed sends: a reliable queue

  /** No send has failed so far: each finished phase took one send, and the current one at most one. */
  ghost predicate FailureFree(s: Link) {
    && s.offers != []
    && (forall k :: 0 <= k < Phase(s) ==> |s.offers[k]| == 1)
    && |s.offers[Phase(s)]| <= 1
  }

  lemma {:induction false} FlattenSingles(ls: seq<seq<Bytes>>)
    requires ls != [] && (forall k :: 0 <= k < |ls| - 1 ==> |ls[k]| == 1) && |ls[|ls| - 1]| <= 1
    ensures |Flatten(ls)| == |ls| - 1 + |ls[|ls| - 1]|
    ensures forall k :: 0 <= k < |Flatten(ls)| ==> ls[k] == [Flatten(ls)[k]]
    decreases |ls|
  {
    if |ls| == 1 {
      assert Flatten(ls) == ls[0] + [];
      assert Flatten(ls) == ls[0];
    } else {
      FlattenSingles(ls[1..]);
      assert forall k :: 1 <= k < |Flatten(ls)| ==> Flatten(ls)[k] == Flatten(ls[1..])[k - 1];
      assert forall k :: 1 <= k < |ls| ==> ls[k] == ls[1..][k - 1];
    }
  }

  /** The state of a reliable FIFO queue: what was put in and what was taken out. */
  datatype Fifo = Fifo(sent: seq<Bytes>, taken: seq<Bytes>)

  predicate FifoStep(q: Fifo, q': Fifo) {
    || q' == q
    || (|q'.sent| == |q.sent| + 1 && q' == q.(sent := q.sent + [q'.sent[|q.sent|]]))
    || (|q.taken| < |q.sent| && q' == q.(taken := q.taken + [q.sent[|q.taken|]]))
  }

  function AsFifo(s: Link): Fifo {
    Fifo(Flatten(s.offers), s.delivered)
  }

  lemma FailureFreeContents(s: Link)
    requires Inv(s) && FailureFree(s)
    ensures |s.delivered| <= |Flatten(s.offers)| <= Phase(s) + 1
    ensures s.delivered == Flatten(s.offers)[..|s.delivered|]
    ensures |Flatten(s.offers)| == Phase(s) + |s.offers[Phase(s)]|
  {
    FlattenSingles(s.offers);
    assert forall k :: 0 <= k < |s.delivered| ==> s.offers[k] != [];
    assert forall k :: 0 <= k < |s.delivered| ==> s.delivered[k] in s.offers[k];
    forall k | 0 <= k < |s.delivered| ensures s.delivered[k] == Flatten(s.offers)[k] {
      assert s.offers[k] == [Flatten(s.offers)[k]];
    }
  }

  /** Until a send fails, the link is a reliable queue: what has come out is what went in, in order, and only the
      payload of the send in progress can be missing. */
  lemma FailureFreeDelivers(s: Link)
    requires Reachable(s) && FailureFree(s)
    ensures s.delivered <= Flatten(s.offers)
    ensures |s.delivered| >= |s.offers| - 1
    ensures |Flatten(s.offers)| - 1 <= |s.delivered|
  {
    ReachableInv(s);
    FailureFreeContents(s);
  }

  lemma FlattenOffer(offers: seq<seq<Bytes>>, data: Bytes)
    requires offers != []
    ensures Flatten(Offer(offers, data)) == Flatten(offers) + [data]
  {
    var n := |offers| - 1;
    assert offers == offers[..n] + [offers[n]];
    assert Offer(offers, data) == offers[..n] + [offers[n] + [data]];
    FlattenAppend(offers[..n], offers[n]);
    FlattenAppend(offers[..n], offers[n] + [data]);
  }

  lemma HasPhase(s: Link)
    requires Inv(s)
    ensures s.offers != []
  {
  }

  /** Each step of a failure-free run is a step of the reliable queue or leaves it alone. */
  lemma RefinesFifo(s: Link, t: Step)
    requires Inv(s) && Enabled(s, t) && FailureFree(Apply(s, t))
    ensures FifoStep(AsFifo(s), AsFifo(Apply(s, t)))
  {
    hide Flatten, Offer, History, Shape, Current, Calling, Fired, FailureFree;
    assert s.offers != [] by {
      HasPhase(s);
    }
    var s' := Apply(s, t);
    match t
    case Start(data) => FlattenOffer(s.offers, data);
    case Wake =>
      FlattenAppend(s.offers, []);
      assert Flatten(s.offers) + [] == Flatten(s.offers);
    case Accept =>
      AcceptInv(s);
      FailureFreeContents(s');
      if s'.delivered != s.delivered {
        assert s'.delivered[|s.delivered|] == Flatten(s.offers)[|s.delivered|];
      }
    case _ => assert AsFifo(s') == AsFifo(s);
  }

  // ---------------------------------------------------------------- what True from send means

  /** A send of p that returns True after sends of fails (in this order) gave up in the same phase: does True mean
      that p was delivered, whatever the network did? */
  ghost predicate TrueMeansDelivered(fails: seq<Bytes>, p: Bytes) {
    forall s, k | Reachable(s) && 0 <= k < Phase(s) && k < |s.delivered| && s.offers[k] == fails + [p] ::
      s.delivered[k] == p
  }

  ghost predicate Quiet(s: Link) {
    Reachable(s) && s.chan == [] && s.queue == [] && s.acks == [] && !s.fired
  }

  lemma {:induction false} RunsOn(s: Link, steps: seq<Step>, t: Link, last: Step)
    requires Runs(s, steps, t) && Enabled(t, last)
    ensures Runs(s, steps + [last], Apply(t, last))
    decreases |steps|
  {
    if steps == [] {
      assert [last][1..] == [];
      assert steps + [last] == [last];
    } else {
      RunsOn(Apply(s, steps[0]), steps[1..], t, last);
      assert (steps + [last])[1..] == steps[1..] + [last];
    }
  }

  lemma ReachableNext(s: Link, t: Step)
    requires Reachable(s) && Enabled(s, t)
    ensures Reachable(Apply(s, t))
  {
    var steps :| Runs(INIT, steps, s);
    RunsOn(INIT, steps, s, t);
  }

  /** The state after an attempt that timed out. */
  function Retried(s: Link): Link
    requires s.sender.pc.Ready?
  {
    s.(sender := Sender(s.sender.currSeq, Ready(s.sender.pc.data, s.sender.pc.attempts + 1)))
  }

  /** An attempt whose datagram is lost. */
  lemma LostAttempt(s: Link)
    requires Quiet(s) && s.sender.CanRegister()
    ensures Quiet(Retried(s))
  {
    hide Reachable;
    ReachableNext(s, Register(0));
    var s1 := Apply(s, Register(0));
    ReachableNext(s1, Transmit);
    var s2 := Apply(s1, Transmit);
    ReachableNext(s2, LoseData(0));
    var s3 := Apply(s2, LoseData(0));
    assert s3.chan == [];
    ReachableNext(s3, TimeOut);
    var s4 := Apply(s3, TimeOut);
    ReachableNext(s4, Unregister);
    assert Apply(s4, Unregister) == Retried(s);
  }

  /** The state of an attempt whose datagram has reached the receiver, with the answering ACK on its way. */
  function Arrived(s: Link): Link
    requires s.sender.pc.Ready?
  {
    var pc := s.sender.pc;
    var r := Receive(s.expected, s.sender.currSeq, pc.data);
    s.(sender := Sender(s.sender.currSeq, Waiting(pc.data, pc.attempts, s.sender.currSeq, 0)),
       expected := r.next, acks := [r.ack],
       delivered := if r.yielded.Some? then s.delivered + [r.yielded.value] else s.delivered)
  }

  lemma ArrivingAttempt(s: Link)
    requires Quiet(s) && s.sender.CanRegister()
    ensures Reachable(Arrived(s))
  {
    hide Reachable;
    ReachableNext(s, Register(0));
    var s1 := Apply(s, Register(0));
    ReachableNext(s1, Transmit);
    var s2 := Apply(s1, Transmit);
    assert s2.chan == [Frame(s.sender.currSeq, s.sender.pc.data)];
    ReachableNext(s2, Enqueue);
    var s3 := Apply(s2, Enqueue);
    assert s3.chan == [] && s3.queue == s2.chan;
    ReachableNext(s3, Accept);
    assert Apply(s3, Accept) == Arrived(s);
  }

  /** An attempt whose datagram arrives but whose ACK is lost. */
  lemma UnacknowledgedAttempt(s: Link)
    requires Quiet(s) && s.sender.CanRegister() && s.expected == s.sender.currSeq
    ensures Quiet(Retried(s).(expected := Flip(s.expected), delivered := s.delivered + [s.sender.pc.data]))
  {
    hide Reachable;
    ArrivingAttempt(s);
    var s4 := Arrived(s);
    ReachableNext(s4, LoseAck(0));
    var s5 := Apply(s4, LoseAck(0));
    assert s5.acks == [];
    ReachableNext(s5, TimeOut);
    var s6 := Apply(s5, TimeOut);
    ReachableNext(s6, Unregister);
    assert Apply(s6, Unregister)
        == Retried(s).(expected := Flip(s.expected), delivered := s.delivered + [s.sender.pc.data]);
  }

  lemma {:induction false} GiveUp(s: Link)
    requires Quiet(s) && s.sender.pc.Ready? && s.sender.pc.attempts <= MAX_RETRIES
    ensures Quiet(s.(sender := Sender(s.sender.currSeq, Idle)))
    decreases MAX_RETRIES - s.sender.pc.attempts
  {
    if s.sender.pc.attempts == MAX_RETRIES {
      ReachableNext(s, Fail);
    } else {
      LostAttempt(s);
      GiveUp(Retried(s));
    }
  }

  /** A call of send in which nothing gets through. */
  lemma LostSend(s: Link, data: Bytes)
    requires Quiet(s) && s.sender.pc.Idle? && s.offers != []
    ensures Quiet(s.(offers := Offer(s.offers, data)))
  {
    ReachableNext(s, Start(data));
    GiveUp(Apply(s, Start(data)));
  }

  lemma {:induction false} LostSends(s: Link, datas: seq<Bytes>)
    requires Quiet(s) && s.sender.pc.Idle? && |s.offers| == 1
    ensures Quiet(s.(offers := [s.offers[0] + datas]))
    decreases |datas|
  {
    if datas == [] {
      assert s.offers[0] + datas == s.offers[0] && s.offers == [s.offers[0]];
    } else {
      LostSend(s, datas[0]);
      var s' := s.(offers := Offer(s.offers, datas[0]));
      LostSends(s', datas[1..]);
      assert s'.offers[0] + datas[1..] == s.offers[0] + datas;
    }
  }

  /** A call of send that is received but never acknowledged, so that it fails. */
  lemma UnacknowledgedSend(s: Link, data: Bytes)
    requires Quiet(s) && s.sender.pc.Idle? && s.offers != [] && s.expected == s.sender.currSeq
    ensures Quiet(s.(offers := Offer(s.offers, data), expected := Flip(s.expected), delivered := s.delivered + [data]))
  {
    ReachableNext(s, Start(data));
    var s1 := Apply(s, Start(data));
    UnacknowledgedAttempt(s1);
    GiveUp(Retried(s1).(expected := Flip(s.expected), delivered := s.delivered + [data]));
  }

  /** A call of send that returns True because the receiver, which has already accepted this bit, repeats its ACK. */
  lemma HollowSend(s: Link, p: Bytes)
    requires Quiet(s) && s.sender.pc.Idle? && s.offers != [] && s.expected == Flip(s.sender.currSeq)
    requires s.sender.currSeq == 0
    ensures Reachable(s.(sender := Sender(1, Idle), offers := Offer(s.offers, p) + [[]]))
  {
    hide Reachable;
    ReachableNext(s, Start(p));
    var s1 := Apply(s, Start(p));
    ArrivingAttempt(s1);
    var s5 := Arrived(s1);
    assert s5.acks == [0];
    ReachableNext(s5, Acknowledge);
    var s6 := Apply(s5, Acknowledge);
    assert s6.fired && s6.acks == [];
    ReachableNext(s6, Wake);
    var s7 := Apply(s6, Wake);
    ReachableNext(s7, Unregister);
    assert Apply(s7, Unregister) == s.(sender := Sender(1, Idle), offers := Offer(s.offers, p) + [[]]);
  }

  /** After a failed send of q, a send of another payload p in the same phase can return True without delivering p:
      the receiver took q, and its repeated ACK is read as the ACK of p. */
  lemma HollowTrue(fails: seq<Bytes>, i: nat, p: Bytes)
    requires i < |fails|
    ensures exists s :: Reachable(s) && s.offers == [fails + [p], []] && s.delivered == [fails[i]]
  {
    assert Runs(INIT, [], INIT);
    hide Reachable, Runs;
    LostSends(INIT, fails[..i]);
    var s := INIT.(offers := [fails[..i]]);
    assert [] + fails[..i] == fails[..i];
    UnacknowledgedSend(s, fails[i]);
    var s' := s.(offers := [fails[..i] + [fails[i]]], expected := Flip(0), delivered := [fails[i]]);
    assert Offer(s.offers, fails[i]) == s'.offers && s.delivered + [fails[i]] == s'.delivered;
    LostSends(s', fails[i + 1..]);
    assert fails[..i] + [fails[i]] + fails[i + 1..] == fails;
    var s'' := s'.(offers := [fails]);
    HollowSend(s'', p);
    assert Offer(s''.offers, p) + [[]] == [fails + [p], []];
  }

  /** True from send means "p was delivered", on every network, exactly when every failed send since the last True
      offered that same p.  The caller can check this before the call. */
  lemma TrueMeansDeliveredIff(fails: seq<Bytes>, p: Bytes)
    ensures TrueMeansDelivered(fails, p) <==> forall q :: q in fails ==> q == p
  {
    if forall q :: q in fails ==> q == p {
      forall s, k | Reachable(s) && 0 <= k < Phase(s) && k < |s.delivered| && s.offers[k] == fails + [p]
        ensures s.delivered[k] == p
      {
        ReachableInv(s);
        assert s.delivered[k] in fails + [p];
      }
    } else {
      var i :| 0 <= i < |fails| && fails[i] != p;
      HollowTrue(fails, i, p);
      var s :| Reachable(s) && s.offers == [fails + [p], []] && s.delivered == [fails[i]];
      assert s.offers[0] == fails + [p] && s.delivered[0] != p && 0 < Phase(s);
    }
  }
}
