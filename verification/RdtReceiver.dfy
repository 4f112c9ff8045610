/** rdt_receiver.py: one expected bit per client; a packet with another number gets the ACK of the last good one. */
module RdtReceiver {
  import opened Wrappers
  import opened Crc32
  import opened RdtPacket
  import opened RdtSteps
  import opened RdtDispatcher

  datatype Outcome = Outcome(expected: map<Addr, bv8>, acks: seq<Datagram>, deliveries: seq<(Bytes, Addr)>)

  /** The table of expected bits after reception r from a; only an accepted packet writes to it. */
  function Advance(expected: map<Addr, bv8>, a: Addr, r: Reception): map<Addr, bv8> {
    if r.yielded.Some? then expected[a := r.next] else expected
  }

  /** The receiver's steps over a queue of packets, oldest first. */
  function ReceiveAll(expected: map<Addr, bv8>, queue: seq<(Packet, Addr)>): Outcome
    decreases |queue|
  {
    if queue == [] then Outcome(expected, [], [])
    else
      var (k, a) := queue[0];
      var r := Receive(Expected(expected, a), k.seqNum, k.data);
      var rest := ReceiveAll(Advance(expected, a, r), queue[1..]);
      Outcome(rest.expected, [(MakeAckPacket(r.ack), a)] + rest.acks,
              (if r.yielded.Some? then [(r.yielded.value, a)] else []) + rest.deliveries)
  }

  function From<E>(items: seq<(E, Addr)>, a: Addr): seq<(E, Addr)> {
    if items == [] then []
    else (if items[0].1 == a then [items[0]] else []) + From(items[1..], a)
  }

  lemma {:induction false} FromConcat<E>(x: seq<(E, Addr)>, y: seq<(E, Addr)>, a: Addr)
    ensures From(x + y, a) == From(x, a) + From(y, a)
    decreases |x|
  {
    if x == [] {
      assert x + y == y;
    } else {
      assert (x + y)[1..] == x[1..] + y;
      FromConcat(x[1..], y, a);
    }
  }

  lemma OwnPacket(e: map<Addr, bv8>, queue: seq<(Packet, Addr)>, a: Addr)
    requires queue != [] && queue[0].1 == a
    ensures var r := Receive(Expected(e, a), queue[0].0.seqNum, queue[0].0.data);
            (var all, rest := ReceiveAll(e, queue), ReceiveAll(Advance(e, a, r), queue[1..]);
             && all.expected == rest.expected
             && From(all.acks, a) == [(MakeAckPacket(r.ack), a)] + From(rest.acks, a)
             && From(all.deliveries, a)
             == (if r.yielded.Some? then [(r.yielded.value, a)] else []) + From(rest.deliveries, a))
  {
    hide MakeAckPacket;
    var r := Receive(Expected(e, a), queue[0].0.seqNum, queue[0].0.data);
    var rest := ReceiveAll(Advance(e, a, r), queue[1..]);
    FromConcat([(MakeAckPacket(r.ack), a)], rest.acks, a);
    FromConcat(if r.yielded.Some? then [(r.yielded.value, a)] else [], rest.deliveries, a);
  }

  lemma OtherPacket(e: map<Addr, bv8>, queue: seq<(Packet, Addr)>, a: Addr)
    requires queue != [] && queue[0].1 != a
    ensures var b := queue[0].1;
            var r := Receive(Expected(e, b), queue[0].0.seqNum, queue[0].0.data);
            (var all, rest := ReceiveAll(e, queue), ReceiveAll(Advance(e, b, r), queue[1..]);
             && all.expected == rest.expected && From(all.acks, a) == From(rest.acks, a)
             && From(all.deliveries, a) == From(rest.deliveries, a))
  {
    hide MakeAckPacket;
    var b := queue[0].1;
    var r := Receive(Expected(e, b), queue[0].0.seqNum, queue[0].0.data);
    var rest := ReceiveAll(Advance(e, b, r), queue[1..]);
    FromConcat([(MakeAckPacket(r.ack), b)], rest.acks, a);
    FromConcat(if r.yielded.Some? then [(r.yielded.value, b)] else [], rest.deliveries, a);
  }

  /** What a client gets, ACKs and deliveries, depends only on its own packets and its own expected bit, whatever
      other clients send in between. */
  lemma {:induction false} ClientsDoNotInterfere(e: map<Addr, bv8>, f: map<Addr, bv8>, queue: seq<(Packet, Addr)>,
                                                 a: Addr)
    requires Expected(e, a) == Expected(f, a)
    ensures var all, own := ReceiveAll(e, queue), ReceiveAll(f, From(queue, a));
            && From(all.deliveries, a) == From(own.deliveries, a) && From(all.acks, a) == From(own.acks, a)
            && Expected(all.expected, a) == Expected(own.expected, a)
    decreases |queue|
  {
    if queue != [] {
      var (k, b) := queue[0];
      var r := Receive(Expected(e, b), k.seqNum, k.data);
      if b == a {
        OwnPacket(e, queue, a);
        OwnPacket(f, From(queue, a), a);
        assert ([queue[0]] + From(queue[1..], a))[1..] == From(queue[1..], a);
        ClientsDoNotInterfere(Advance(e, b, r), Advance(f, b, r), queue[1..], a);
      } else {
        OtherPacket(e, queue, a);
        assert [] + From(queue[1..], a) == From(queue[1..], a);
        ClientsDoNotInterfere(Advance(e, b, r), f, queue[1..], a);
      }
    }
  }

  lemma {:induction false} ReceiveAllNext(expected: map<Addr, bv8>, queue: seq<(Packet, Addr)>, item: (Packet, Addr))
    ensures var before := ReceiveAll(expected, queue);
            var r := Receive(Expected(before.expected, item.1), item.0.seqNum, item.0.data);
            (ReceiveAll(expected, queue + [item])
             == Outcome(Advance(before.expected, item.1, r), before.acks + [(MakeAckPacket(r.ack), item.1)],
                        before.deliveries + if r.yielded.Some? then [(r.yielded.value, item.1)] else []))
    decreases |queue|
  {
    hide MakeAckPacket;
    if queue == [] {
      assert queue + [item] == [item] && [item][1..] == [];
    } else {
      assert (queue + [item])[1..] == queue[1..] + [item];
      var (k, a) := queue[0];
      ReceiveAllNext(Advance(expected, a, Receive(Expected(expected, a), k.seqNum, k.data)), queue[1..], item);
    }
  }

  lemma ReceiveNone(expected: map<Addr, bv8>)
    ensures ReceiveAll(expected, []) == Outcome(expected, [], [])
  {
  }

  class RdtReceiver {
    const dispatcher: Dispatcher
    var expectedSeqs: map<Addr, bv8>

    constructor (dispatcher: Dispatcher)
      ensures this.dispatcher == dispatcher && expectedSeqs == map[]
    {
      this.dispatcher := dispatcher;
      expectedSeqs := map[];
    }

    /** One round of the receiving loop. */
    method Answer(packet: Packet, senderAddr: Addr) returns (yielded: Option<Bytes>)
      modifies this, dispatcher`sent
      ensures var r := Receive(Expected(old(expectedSeqs), senderAddr), packet.seqNum, packet.data);
              && yielded == r.yielded
              && dispatcher.sent == old(dispatcher.sent) + [(MakeAckPacket(r.ack), senderAddr)]
              && expectedSeqs == Advance(old(expectedSeqs), senderAddr, r)
    {
      hide MakeAckPacket;
      var expected := Expected(expectedSeqs, senderAddr);
      if packet.seqNum != expected {
        var lastCorrectSeq := 1 - expected;
        dispatcher.SendTo(MakeAckPacket(lastCorrectSeq), senderAddr);
        return None;
      }
      dispatcher.SendTo(MakeAckPacket(expected), senderAddr);
      expectedSeqs := expectedSeqs[senderAddr := 1 - expected];
      yielded := Some(packet.data);
    }

    /** The receiving loop until the queue runs empty: it drains the queue, answers every packet, and yields the
        payloads of those with the expected number. */
    method StartReceiving() returns (deliveries: seq<(Bytes, Addr)>)
      modifies this, dispatcher`dataQueue, dispatcher`sent
      ensures dispatcher.dataQueue == []
      ensures var all := ReceiveAll(old(expectedSeqs), old(dispatcher.dataQueue));
              && deliveries == all.deliveries
              && dispatcher.sent == old(dispatcher.sent) + all.acks
              && expectedSeqs == all.expected
    {
      hide ReceiveAll, MakeAckPacket, Receive, Advance;
      ghost var queue := dispatcher.dataQueue;
      ghost var done := 0;
      deliveries := [];
      assert queue[..0] == [];
      ReceiveNone(expectedSeqs);
      while true
        invariant 0 <= done <= |queue| && dispatcher.dataQueue == queue[done..]
        invariant var all := ReceiveAll(old(expectedSeqs), queue[..done]);
                  && deliveries == all.deliveries
                  && dispatcher.sent == old(dispatcher.sent) + all.acks
                  && expectedSeqs == all.expected
        decreases |dispatcher.dataQueue|
      {
        var item := dispatcher.GetDataPacket();
        if item.None? {
          break;
        }
        ReceiveAllNext(old(expectedSeqs), queue[..done], item.value);
        assert queue[..done + 1] == queue[..done] + [item.value];
        done := done + 1;
        var yielded := Answer(item.value.0, item.value.1);
        if yielded.Some? {
          deliveries := deliveries + [(yielded.value, item.value.1)];
        }
      }
      assert queue[..done] == queue;
    }

    /** On QUIT: the client's next run starts over at sequence number 0. */
    method ResetState(addr: Addr)
      modifies this`expectedSeqs
      ensures expectedSeqs == old(expectedSeqs) - {addr} && Expected(expectedSeqs, addr) == 0
    {
      if addr in expectedSeqs {
        expectedSeqs := expectedSeqs - {addr};
      }
    }
  }
}
