/** rdt_sender.py: send with at most five attempts; the sequence number toggles only when an ACK came in time. */
module RdtSender {
  import opened Wrappers
  import opened Sequences
  import opened Crc32
  import opened RdtPacket
  import opened RdtSteps
  import opened RdtNet
  import opened RdtDispatcher

  /** d is a valid ACK number seqNum from dest. */
  predicate IsAck(d: Datagram, dest: Addr, seqNum: bv8) {
    var k := Unpack(d.0);
    k.Some? && k.value.isAck && k.value.seqNum == seqNum && d.1 == dest
  }

  predicate Answered(arrivals: seq<Datagram>, dest: Addr, seqNum: bv8) {
    exists i :: 0 <= i < |arrivals| && IsAck(arrivals[i], dest, seqNum)
  }

  /** The valid data packets among the arrivals, in order. */
  function DataPackets(arrivals: seq<Datagram>): seq<(Packet, Addr)> {
    if arrivals == [] then []
    else
      var k := Unpack(arrivals[0].0);
      (if k.Some? && !k.value.isAck then [(k.value, arrivals[0].1)] else []) + DataPackets(arrivals[1..])
  }

  ghost predicate Distinct(listeners: map<(Addr, bv8), nat>) {
    forall k, l :: k in listeners && l in listeners && k != l ==> listeners[k] != listeners[l]
  }

  /** Routing leaves the listeners alone and queues the data packets. */
  lemma {:induction false} RouteAllQueues(n: Node, arrivals: seq<Datagram>)
    ensures RouteAll(n, arrivals).listeners == n.listeners
    ensures RouteAll(n, arrivals).queue == n.queue + DataPackets(arrivals)
    decreases |arrivals|
  {
    hide Unpack;
    if arrivals != [] {
      RouteAllQueues(Route(n, arrivals[0].0, arrivals[0].1), arrivals[1..]);
    }
  }

  /** It fires a listener exactly when the ACK it listens for arrives. */
  lemma {:induction false} RouteAllFires(n: Node, arrivals: seq<Datagram>, dest: Addr, seqNum: bv8)
    requires Distinct(n.listeners) && (dest, seqNum) in n.listeners
    ensures var number := n.listeners[(dest, seqNum)];
            number in RouteAll(n, arrivals).fired <==> number in n.fired || Answered(arrivals, dest, seqNum)
    decreases |arrivals|
  {
    if arrivals != [] {
      RouteOne(n, arrivals[0], dest, seqNum);
      AnsweredCons(arrivals, dest, seqNum);
      hide Route, IsAck, Answered, Distinct;
      RouteAllFires(Route(n, arrivals[0].0, arrivals[0].1), arrivals[1..], dest, seqNum);
    }
  }

  lemma AnsweredCons(arrivals: seq<Datagram>, dest: Addr, seqNum: bv8)
    requires arrivals != []
    ensures Answered(arrivals, dest, seqNum)
       <==> IsAck(arrivals[0], dest, seqNum) || Answered(arrivals[1..], dest, seqNum)
  {
    hide IsAck;
    if Answered(arrivals, dest, seqNum) && !IsAck(arrivals[0], dest, seqNum) {
      var i :| 0 <= i < |arrivals| && IsAck(arrivals[i], dest, seqNum);
      assert arrivals[1..][i - 1] == arrivals[i];
    }
  }

  lemma RouteOne(n: Node, d: Datagram, dest: Addr, seqNum: bv8)
    requires Distinct(n.listeners) && (dest, seqNum) in n.listeners
    ensures var n' := Route(n, d.0, d.1);
            n'.listeners == n.listeners
            && (n.listeners[(dest, seqNum)] in n'.fired <==>
                  n.listeners[(dest, seqNum)] in n.fired || IsAck(d, dest, seqNum))
  {
    hide Unpack;
  }

  /** The attempts of one call of send, as steps of the protocol's sender: woken[i] says whether attempt i was woken.
      The result is the sender afterwards and the number of attempts made. */
  function Attempts(m: Sender, woken: seq<bool>): (Sender, nat)
    requires m.pc.Ready? && m.pc.attempts + |woken| >= MAX_RETRIES
    decreases MAX_RETRIES - m.pc.attempts
  {
    if m.pc.attempts >= MAX_RETRIES then (m.Fail(), 0)
    else
      var waiting := m.Register(0).Transmit();
      if woken[0] then (waiting.Wake().Unregister(), 1)
      else
        var (last, n) := Attempts(waiting.TimeOut().Unregister(), woken[1..]);
        (last, n + 1)
  }

  /** A call of send stops at the first attempt that is woken, toggling the bit, or after the fifth, keeping it. */
  lemma {:induction false} AttemptsStopAtFirst(m: Sender, woken: seq<bool>, n: nat)
    requires m.pc.Ready? && m.pc.attempts + |woken| >= MAX_RETRIES && m.pc.attempts + n <= MAX_RETRIES
    requires forall i :: 0 <= i < n ==> !woken[i]
    requires m.pc.attempts + n == MAX_RETRIES || woken[n]
    ensures Attempts(m, woken)
         == if m.pc.attempts + n < MAX_RETRIES then (Sender(Flip(m.currSeq), Idle), n + 1)
            else (Sender(m.currSeq, Idle), n)
    decreases n
  {
    if n > 0 {
      AttemptsStopAtFirst(m.(pc := Ready(m.pc.data, m.pc.attempts + 1)), woken[1..], n - 1);
    }
  }

  /** For each attempt, whether its ACK arrives in time. */
  function Woken(arrivals: seq<seq<Datagram>>, dest: Addr, seqNum: bv8): (woken: seq<bool>)
    requires |arrivals| >= MAX_RETRIES
    ensures |woken| == MAX_RETRIES
            && forall i :: 0 <= i < MAX_RETRIES ==> woken[i] == Answered(arrivals[i], dest, seqNum)
  {
    seq(MAX_RETRIES, i requires 0 <= i < MAX_RETRIES => Answered(arrivals[i], dest, seqNum))
  }

  function Copies(d: Datagram, n: nat): seq<Datagram> {
    seq(n, _ => d)
  }

  /** True came from the last of these attempts, the first to be answered; or five attempts went unanswered. */
  ghost predicate Outcome(arrivals: seq<seq<Datagram>>, dest: Addr, seqNum: bv8, ok: bool, attempts: nat)
    requires |arrivals| >= MAX_RETRIES
  {
    && attempts <= MAX_RETRIES
    && (ok ==> attempts >= 1 && Answered(arrivals[attempts - 1], dest, seqNum))
    && (!ok ==> attempts == MAX_RETRIES)
    && forall i :: 0 <= i < (if ok then attempts - 1 else attempts) ==> !Answered(arrivals[i], dest, seqNum)
  }

  /** So send returns True if and only if one of five attempts is answered in time, and its state is then that of the
      protocol's sender after the same attempts. */
  lemma OutcomeIsAttempts(data: Bytes, arrivals: seq<seq<Datagram>>, dest: Addr, seqNum: bv8, ok: bool, attempts: nat)
    requires |arrivals| >= MAX_RETRIES && Outcome(arrivals, dest, seqNum, ok, attempts)
    ensures ok <==> exists i :: 0 <= i < 5 && Answered(arrivals[i], dest, seqNum)
    ensures Attempts(Sender(seqNum, Idle).Start(data), Woken(arrivals, dest, seqNum))
         == (Sender(if ok then Flip(seqNum) else seqNum, Idle), attempts)
  {
    hide Answered;
    AttemptsStopAtFirst(Sender(seqNum, Idle).Start(data), Woken(arrivals, dest, seqNum),
                        if ok then attempts - 1 else MAX_RETRIES);
  }

  lemma CopiesNone(d: Datagram)
    ensures Copies(d, 0) == []
  {
  }

  lemma CopiesNext(d: Datagram, n: nat)
    ensures Copies(d, n + 1) == Copies(d, n) + [d]
  {
  }

  class RdtSender {
    const destAddr: Addr
    const dispatcher: Dispatcher
    var currSeq: bv8

    constructor (destHost: string, destPort: nat, dispatcher: Dispatcher)
      ensures destAddr == Addr(destHost, destPort) && this.dispatcher == dispatcher && currSeq == 0
    {
      destAddr := Addr(destHost, destPort);
      this.dispatcher := dispatcher;
      currSeq := 0;
    }

    /** Sends data.  arrivals[i] is what the dispatcher receives between the transmission of attempt i and the end of
        its wait.  ok is False where the program raises ConnectionError. */
    method Send(data: Bytes, arrivals: seq<seq<Datagram>>) returns (ok: bool, attempts: nat)
      requires dispatcher.Valid() && |arrivals| >= MAX_RETRIES
      modifies this, dispatcher, dispatcher.ackListeners.Values
      ensures dispatcher.Valid()
      ensures Outcome(arrivals, destAddr, old(currSeq), ok, attempts)
      ensures 1 <= attempts <= 5 && (!ok ==> attempts == 5)
      ensures currSeq == if ok then Flip(old(currSeq)) else old(currSeq)
      ensures dispatcher.sent == old(dispatcher.sent) + Copies((MakeDataPacket(old(currSeq), data), destAddr), attempts)
      ensures dispatcher.ackListeners == old(dispatcher.ackListeners) - {(destAddr, old(currSeq))}
      ensures dispatcher.dataQueue == old(dispatcher.dataQueue) + DataPackets(Flatten(arrivals[..attempts]))
    {
      var packet := MakeDataPacket(currSeq, data);
      hide MakeDataPacket, Answered, DataPackets, Copies, Flatten;
      CopiesNone((packet, destAddr));
      NothingYet(arrivals);
      ok, attempts := false, 0;
      while attempts < MAX_RETRIES
        invariant 0 <= attempts <= MAX_RETRIES && currSeq == old(currSeq) && dispatcher.Valid() && !ok
        invariant forall i :: 0 <= i < attempts ==> !Answered(arrivals[i], destAddr, currSeq)
        invariant dispatcher.sent == old(dispatcher.sent) + Copies((packet, destAddr), attempts)
        invariant dispatcher.ackListeners == old(dispatcher.ackListeners)
               || dispatcher.ackListeners == old(dispatcher.ackListeners) - {(destAddr, currSeq)}
        invariant attempts > 0 ==> (destAddr, currSeq) !in dispatcher.ackListeners
        invariant dispatcher.dataQueue == old(dispatcher.dataQueue) + DataPackets(Flatten(arrivals[..attempts]))
      {
        var signaled := Attempt(packet, arrivals[attempts]);
        ConcatNext(arrivals, attempts);
        CopiesNext((packet, destAddr), attempts);
        attempts := attempts + 1;
        if signaled {
          currSeq, ok := Flip(currSeq), true;
          break;
        }
      }
    }

    /** The wait of one attempt, while the dispatcher works through what arrives. */
    method Await(event: Event, seqToUse: bv8, arrivals: seq<Datagram>) returns (signaled: bool)
      requires dispatcher.Valid() && !event.flag
      requires (destAddr, seqToUse) in dispatcher.ackListeners && dispatcher.ackListeners[(destAddr, seqToUse)] == event
      modifies dispatcher`dataQueue, dispatcher.ackListeners.Values
      ensures dispatcher.Valid()
      ensures signaled <==> Answered(arrivals, destAddr, seqToUse)
      ensures dispatcher.dataQueue == old(dispatcher.dataQueue) + DataPackets(arrivals)
    {
      hide RouteAll, Answered, DataPackets;
      ghost var before := dispatcher.View();
      dispatcher.FlagInView((destAddr, seqToUse));
      dispatcher.ListenLoop(arrivals);
      RouteAllQueues(before, arrivals);
      RouteAllFires(before, arrivals, destAddr, seqToUse);
      dispatcher.FlagInView((destAddr, seqToUse));
      signaled := event.flag;
    }

    /** One attempt: register, transmit, wait, unregister. */
    method Attempt(packet: Bytes, arrivals: seq<Datagram>) returns (signaled: bool)
      requires dispatcher.Valid()
      modifies dispatcher, dispatcher.ackListeners.Values
      ensures dispatcher.Valid()
      ensures signaled <==> Answered(arrivals, destAddr, currSeq)
      ensures dispatcher.sent == old(dispatcher.sent) + [(packet, destAddr)]
      ensures dispatcher.ackListeners == old(dispatcher.ackListeners) - {(destAddr, currSeq)}
      ensures dispatcher.dataQueue == old(dispatcher.dataQueue) + DataPackets(arrivals)
    {
      hide Answered, DataPackets, Dispatcher.Valid;
      var seqToUse := currSeq;
      var ackEvent := dispatcher.RegisterAckWaiter(destAddr.host, destAddr.port, seqToUse);
      dispatcher.SendTo(packet, destAddr);
      signaled := Await(ackEvent, seqToUse, arrivals);
      dispatcher.UnregisterAckWaiter(destAddr.host, destAddr.port, seqToUse);
    }
  }

  lemma {:induction false} DataPacketsConcat(a: seq<Datagram>, b: seq<Datagram>)
    ensures DataPackets(a + b) == DataPackets(a) + DataPackets(b)
    decreases |a|
  {
    hide Unpack;
    if a == [] {
      assert a + b == b;
    } else {
      assert (a + b)[1..] == a[1..] + b;
      DataPacketsConcat(a[1..], b);
    }
  }

  lemma NothingYet(arrivals: seq<seq<Datagram>>)
    ensures DataPackets(Flatten(arrivals[..0])) == []
  {
  }

  lemma ConcatNext(arrivals: seq<seq<Datagram>>, n: nat)
    requires n < |arrivals|
    ensures DataPackets(Flatten(arrivals[..n + 1])) == DataPackets(Flatten(arrivals[..n])) + DataPackets(arrivals[n])
  {
    assert arrivals[..n + 1] == arrivals[..n] + [arrivals[n]];
    FlattenAppend(arrivals[..n], arrivals[n]);
    DataPacketsConcat(Flatten(arrivals[..n]), arrivals[n]);
  }
}
