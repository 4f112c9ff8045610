/** rdt_dispatcher.py: the one reader of the socket.  It routes ACKs to the events senders wait on and queues data
    packets for the receiver. */
module RdtDispatcher {
  import opened Wrappers
  import opened Crc32
  import opened RdtPacket
  import opened RdtSteps
  import opened RdtNet

  /** threading.Event; number tells events apart in the network model. */
  class Event {
    var flag: bool
    ghost const number: nat

    constructor (ghost number: nat)
      ensures !flag && this.number == number
    {
      flag := false;
      this.number := number;
    }
  }

  type Datagram = (Bytes, Addr)

  /** What the network model's dispatcher makes of a series of datagrams. */
  function RouteAll(n: Node, arrivals: seq<Datagram>): Node
    decreases |arrivals|
  {
    if arrivals == [] then n
    else RouteAll(Route(n, arrivals[0].0, arrivals[0].1), arrivals[1..])
  }

  lemma {:induction false} RouteAllAppend(n: Node, arrivals: seq<Datagram>, d: Datagram)
    ensures RouteAll(n, arrivals + [d]) == Route(RouteAll(n, arrivals), d.0, d.1)
    decreases |arrivals|
  {
    hide Route;
    if arrivals == [] {
      assert arrivals + [d] == [d] && [d][1..] == [];
    } else {
      assert (arrivals + [d])[1..] == arrivals[1..] + [d];
      RouteAllAppend(Route(n, arrivals[0].0, arrivals[0].1), arrivals[1..], d);
    }
  }

  class Dispatcher {
    var dataQueue: seq<(Packet, Addr)>
    var ackListeners: map<(Addr, bv8), Event>
    var sent: seq<Datagram>           // what went out through the socket, oldest first
    ghost var nextNumber: nat

    /** The listeners' events are distinct and numbered below nextNumber. */
    ghost predicate Valid()
      reads this, ackListeners.Values
    {
      && (forall k :: k in ackListeners ==> ackListeners[k].number < nextNumber)
      && (forall k, l :: k in ackListeners && l in ackListeners && k != l ==>
            ackListeners[k].number != ackListeners[l].number)
    }

    /** The dispatcher as a node of the network model. */
    ghost function View(): Node
      reads this, ackListeners.Values
    {
      Node(map[], map[], dataQueue, map k | k in ackListeners :: ackListeners[k].number,
           set k | k in ackListeners && ackListeners[k].flag :: ackListeners[k].number, nextNumber)
    }

    lemma FlagInView(k: (Addr, bv8))
      requires Valid() && k in ackListeners
      ensures ackListeners[k].flag <==> ackListeners[k].number in View().fired
    {
    }

    constructor ()
      ensures Valid() && dataQueue == [] && ackListeners == map[] && sent == []
    {
      dataQueue, ackListeners, sent, nextNumber := [], map[], [], 0;
    }

    method RegisterAckWaiter(host: string, port: nat, seqNum: bv8) returns (event: Event)
      requires Valid()
      modifies this`ackListeners, this`nextNumber
      ensures Valid() && fresh(event) && !event.flag
      ensures event.number == old(nextNumber) && nextNumber == old(nextNumber) + 1
      ensures ackListeners == old(ackListeners)[(Addr(host, port), seqNum) := event]
    {
      var key := (Addr(host, port), seqNum);
      event := new Event(nextNumber);
      ackListeners := ackListeners[key := event];
      nextNumber := nextNumber + 1;
    }

    method UnregisterAckWaiter(host: string, port: nat, seqNum: bv8)
      requires Valid()
      modifies this`ackListeners
      ensures Valid() && ackListeners == old(ackListeners) - {(Addr(host, port), seqNum)}
    {
      var key := (Addr(host, port), seqNum);
      if key in ackListeners {
        ackListeners := ackListeners - {key};
      }
    }

    method SendTo(p: Bytes, addr: Addr)
      modifies this`sent
      ensures sent == old(sent) + [(p, addr)]
      ensures old(Valid()) ==> Valid()
    {
      sent := sent + [(p, addr)];
    }

    /** Fires the event of the sender that waits for this very ACK, if there is one. */
    method HandleAck(packet: Packet, addr: Addr)
      requires Valid()
      modifies ackListeners.Values
      ensures Valid()
      ensures forall k :: k in ackListeners ==>
                (ackListeners[k].flag <==> old(ackListeners[k].flag) || k == (addr, packet.seqNum))
    {
      var key := (addr, packet.seqNum);
      if key in ackListeners {
        var event := ackListeners[key];
        event.flag := true;
      }
    }

    method HandleData(packet: Packet, addr: Addr)
      modifies this`dataQueue
      ensures dataQueue == old(dataQueue) + [(packet, addr)]
    {
      dataQueue := dataQueue + [(packet, addr)];
    }

    /** One datagram: dropped when it does not validate, else routed by its type. */
    method Dispatch(rawBytes: Bytes, addr: Addr)
      requires Valid()
      modifies this`dataQueue, ackListeners.Values
      ensures Valid() && View() == Route(old(View()), rawBytes, addr)
    {
      var packet := Unpack(rawBytes);
      hide Unpack;
      if packet.None? {
      } else if packet.value.isAck {
        HandleAck(packet.value, addr);
      } else {
        HandleData(packet.value, addr);
      }
    }

    /** The listening loop over the datagrams that arrive while it runs. */
    method ListenLoop(arrivals: seq<Datagram>)
      requires Valid()
      modifies this`dataQueue, ackListeners.Values
      ensures Valid() && View() == RouteAll(old(View()), arrivals)
    {
      var i := 0;
      while i < |arrivals|
        invariant 0 <= i <= |arrivals|
        invariant Valid() && View() == RouteAll(old(View()), arrivals[..i])
      {
        Dispatch(arrivals[i].0, arrivals[i].1);
        RouteAllAppend(old(View()), arrivals[..i], arrivals[i]);
        assert arrivals[..i + 1] == arrivals[..i] + [arrivals[i]];
        i := i + 1;
      }
      assert arrivals[..i] == arrivals;
    }

    /** The next data packet, or nothing when the queue is empty. */
    method GetDataPacket() returns (item: Option<(Packet, Addr)>)
      modifies this`dataQueue
      ensures old(dataQueue) == [] ==> item == None && dataQueue == []
      ensures old(dataQueue) != [] ==> item == Some(old(dataQueue)[0]) && dataQueue == old(dataQueue)[1..]
    {
      if dataQueue == [] {
        return None;
      }
      item, dataQueue := Some(dataQueue[0]), dataQueue[1..];
    }
  }
}
