/** The network seen from one sender and its receiver: a run of the two-party protocol. */
module RdtProjection {
  import opened Wrappers
  import opened Sequences
  import opened Crc32
  import opened RdtPacket
  import opened RdtSteps
  import opened RdtNet
  import L = RdtLink
  import T = RdtTheorems

  // ---------------------------------------------------------------- what a dispatcher makes of datagrams

  function Framed(p: Bytes): seq<L.Frame> {
    var k := Unpack(p);
    if k.Some? && !k.value.isAck then [L.Frame(k.value.seqNum, k.value.data)] else []
  }

  function Acked(p: Bytes): seq<bv8> {
    var k := Unpack(p);
    if k.Some? && k.value.isAck then [k.value.seqNum] else []
  }

  function DataOf(ps: seq<Bytes>): seq<L.Frame> {
    if ps == [] then [] else Framed(ps[0]) + DataOf(ps[1..])
  }

  function AcksOf(ps: seq<Bytes>): seq<bv8> {
    if ps == [] then [] else Acked(ps[0]) + AcksOf(ps[1..])
  }

  function FramesFrom(queue: seq<(Packet, Addr)>, x: Addr): seq<L.Frame> {
    if queue == [] then []
    else (if queue[0].1 == x then [L.Frame(queue[0].0.seqNum, queue[0].0.data)] else []) + FramesFrom(queue[1..], x)
  }

  lemma {:induction false} DataOfConcat(a: seq<Bytes>, b: seq<Bytes>)
    ensures DataOf(a + b) == DataOf(a) + DataOf(b)
    decreases |a|
  {
    hide Framed;
    if a == [] {
      assert a + b == b;
    } else {
      assert (a + b)[1..] == a[1..] + b;
      DataOfConcat(a[1..], b);
    }
  }

  lemma {:induction false} AcksOfConcat(a: seq<Bytes>, b: seq<Bytes>)
    ensures AcksOf(a + b) == AcksOf(a) + AcksOf(b)
    decreases |a|
  {
    hide Acked;
    if a == [] {
      assert a + b == b;
    } else {
      assert (a + b)[1..] == a[1..] + b;
      AcksOfConcat(a[1..], b);
    }
  }

  lemma {:induction false} FramesFromConcat(a: seq<(Packet, Addr)>, b: seq<(Packet, Addr)>, x: Addr)
    ensures FramesFrom(a + b, x) == FramesFrom(a, x) + FramesFrom(b, x)
    decreases |a|
  {
    if a == [] {
      assert a + b == b;
    } else {
      assert (a + b)[1..] == a[1..] + b;
      FramesFromConcat(a[1..], b, x);
    }
  }

  lemma One(p: Bytes)
    ensures DataOf([p]) == Framed(p) && AcksOf([p]) == Acked(p)
  {
    hide Framed, Acked;
    assert [p][1..] == [];
    assert DataOf([p]) == Framed(p) + [] && AcksOf([p]) == Acked(p) + [];
  }

  lemma Sent(ps: seq<Bytes>, p: Bytes)
    ensures DataOf(ps + [p]) == DataOf(ps) + Framed(p) && AcksOf(ps + [p]) == AcksOf(ps) + Acked(p)
  {
    hide Framed, Acked;
    DataOfConcat(ps, [p]);
    AcksOfConcat(ps, [p]);
    One(p);
  }

  lemma MadeData(b: bv8, data: Bytes)
    ensures Framed(MakeDataPacket(b, data)) == [L.Frame(b, data)] && Acked(MakeDataPacket(b, data)) == []
  {
    RoundTrip(b, false, data);
    hide MakePacket, Unpack;
  }

  lemma MadeAck(b: bv8)
    ensures Framed(MakeAckPacket(b)) == [] && Acked(MakeAckPacket(b)) == [b]
  {
    RoundTrip(b, true, []);
    hide MakePacket, Unpack;
  }

  lemma SentData(ps: seq<Bytes>, b: bv8, data: Bytes)
    ensures DataOf(ps + [MakeDataPacket(b, data)]) == DataOf(ps) + [L.Frame(b, data)]
    ensures AcksOf(ps + [MakeDataPacket(b, data)]) == AcksOf(ps)
  {
    Sent(ps, MakeDataPacket(b, data));
    MadeData(b, data);
    hide MakeDataPacket, Framed, Acked, DataOf, AcksOf;
    assert AcksOf(ps) + [] == AcksOf(ps);
  }

  lemma SentAck(ps: seq<Bytes>, b: bv8)
    ensures DataOf(ps + [MakeAckPacket(b)]) == DataOf(ps)
    ensures AcksOf(ps + [MakeAckPacket(b)]) == AcksOf(ps) + [b]
  {
    Sent(ps, MakeAckPacket(b));
    MadeAck(b);
    hide MakeAckPacket, Framed, Acked, DataOf, AcksOf;
    assert DataOf(ps) + [] == DataOf(ps);
  }

  // ---------------------------------------------------------------- projection

  function Project(s: Net, x: Addr, y: Addr): L.Link {
    var sender := s.At(x).To(y);
    L.Link(sender, sender.pc.HasEvent() && sender.pc.ev in s.At(x).fired,
           DataOf(s.Chan(x, y)), FramesFrom(s.At(y).queue, x), Expected(s.At(y).expected, x),
           AcksOf(s.Chan(y, x)), s.Offers(x, y), s.Delivered(x, y))
  }

  /** The step of the two-party protocol that step t of the network is, seen from the sender at x for y, if any. */
  function LinkStep(s: Net, t: Step, x: Addr, y: Addr): Option<L.Step> {
    match t
    case Start(a, b, data) => if (a, b) == (x, y) then Some(L.Start(data)) else None
    case Register(a, b) => if (a, b) == (x, y) then Some(L.Register(s.At(x).nextEvent)) else None
    case Transmit(a, b) => if (a, b) == (x, y) then Some(L.Transmit) else None
    case Wake(a, b) => if (a, b) == (x, y) then Some(L.Wake) else None
    case TimeOut(a, b) => if (a, b) == (x, y) then Some(L.TimeOut) else None
    case Unregister(a, b) => if (a, b) == (x, y) then Some(L.Unregister) else None
    case Fail(a, b) => if (a, b) == (x, y) then Some(L.Fail) else None
    case Dispatch(a, b) =>
      if s.Chan(a, b) == [] then None
      else if (a, b) == (x, y) && Framed(s.Chan(a, b)[0]) != [] then Some(L.Enqueue)
      else if (a, b) == (y, x) && Acked(s.Chan(a, b)[0]) != [] then Some(L.Acknowledge)
      else None
    case Accept(b) => if b == y && s.At(b).queue != [] && s.At(b).queue[0].1 == x then Some(L.Accept) else None
    case Lose(a, b, i) => Thinning(s, a, b, i, x, y, false)
    case Repeat(a, b, i) => Thinning(s, a, b, i, x, y, true)
    case Corrupt(a, b, i, _) => Thinning(s, a, b, i, x, y, false)
  }

  /** Losing or damaging datagram i on the way from a to b loses the frame or the ACK it carried. */
  function Thinning(s: Net, a: Addr, b: Addr, i: nat, x: Addr, y: Addr, again: bool): Option<L.Step> {
    var chan := s.Chan(a, b);
    if i >= |chan| then None
    else if (a, b) == (x, y) && Framed(chan[i]) != [] then
      var j := |DataOf(chan[..i])|;
      Some(if again then L.RepeatData(j) else L.LoseData(j))
    else if (a, b) == (y, x) && Acked(chan[i]) != [] then
      var j := |AcksOf(chan[..i])|;
      Some(if again then L.RepeatAck(j) else L.LoseAck(j))
    else None
  }

  /** p' is what link step lt makes of p; no link step leaves p alone. */
  predicate Follows(p: L.Link, lt: Option<L.Step>, p': L.Link) {
    match lt
    case None => p' == p
    case Some(t) => L.Enabled(p, t) && p' == L.Apply(p, t)
  }

  // ---------------------------------------------------------------- steps of a sender

  /** Of all senders only the one at a for b moves, to the state sender; queues, expected bits and set events stay. */
  ghost predicate OnlySender(s: Net, s': Net, a: Addr, b: Addr, sender: Sender) {
    && (forall x, y :: s'.At(x).To(y) == if (x, y) == (a, b) then sender else s.At(x).To(y))
    && (forall x :: s'.At(x).fired == s.At(x).fired && s'.At(x).queue == s.At(x).queue)
    && (forall x :: s'.At(x).expected == s.At(x).expected)
  }

  /** Of all pairs only (a, b) sees its offers and its channel change, to these. */
  ghost predicate OnlyPair(s: Net, s': Net, a: Addr, b: Addr, offers: seq<seq<Bytes>>, chan: seq<Bytes>) {
    && (forall x, y :: s'.Offers(x, y) == if (x, y) == (a, b) then offers else s.Offers(x, y))
    && (forall x, y :: s'.Chan(x, y) == if (x, y) == (a, b) then chan else s.Chan(x, y))
    && (forall x, y :: s'.Delivered(x, y) == s.Delivered(x, y))
  }

  lemma OnlySenderIf(s: Net, s': Net, a: Addr, b: Addr, sender: Sender)
    requires s'.nodes == s.nodes[a := s'.At(a)] && s'.At(a).senders == s.At(a).senders[b := sender]
    requires s'.At(a).fired == s.At(a).fired && s'.At(a).queue == s.At(a).queue && s'.At(a).expected == s.At(a).expected
    ensures OnlySender(s, s', a, b, sender)
  {
  }

  lemma OnlyPairIf(s: Net, s': Net, a: Addr, b: Addr, offers: seq<seq<Bytes>>, chan: seq<Bytes>)
    requires s'.offers == s.offers[(a, b) := offers] || (s'.offers == s.offers && offers == s.Offers(a, b))
    requires s'.chans == s.chans[(a, b) := chan] || (s'.chans == s.chans && chan == s.Chan(a, b))
    requires s'.delivered == s.delivered
    ensures OnlyPair(s, s', a, b, offers, chan)
  {
  }

  lemma SenderProjects(s: Net, s': Net, a: Addr, b: Addr, sender: Sender, offers: seq<seq<Bytes>>, chan: seq<Bytes>,
                       x: Addr, y: Addr)
    requires OnlySender(s, s', a, b, sender) && OnlyPair(s, s', a, b, offers, chan)
    requires AcksOf(chan) == AcksOf(s.Chan(a, b))
    ensures Project(s', x, y) ==
      if (x, y) == (a, b) then
        Project(s, x, y).(sender := sender, fired := sender.pc.HasEvent() && sender.pc.ev in s.At(a).fired,
                          offers := offers, chan := DataOf(chan))
      else Project(s, x, y)
  {
    hide DataOf, AcksOf, FramesFrom, Net.At, Node.To, Net.Chan, Net.Delivered, Net.Offers, Expected;
  }

  lemma StartFollows(s: Net, a: Addr, b: Addr, data: Bytes, x: Addr, y: Addr)
    requires Enabled(s, Start(a, b, data))
    ensures Follows(Project(s, x, y), LinkStep(s, Start(a, b, data), x, y), Project(Apply(s, Start(a, b, data)), x, y))
  {
    hide DataOf, AcksOf, FramesFrom, Expected, OnlySender, OnlyPair;
    var s', sender := Apply(s, Start(a, b, data)), s.At(a).To(b).Start(data);
    OnlySenderIf(s, s', a, b, sender);
    OnlyPairIf(s, s', a, b, L.Offer(s.Offers(a, b), data), s.Chan(a, b));
    SenderProjects(s, s', a, b, sender, L.Offer(s.Offers(a, b), data), s.Chan(a, b), x, y);
  }

  lemma FreshEvent(s: Net, x: Addr)
    requires NetInv(s)
    ensures s.At(x).nextEvent !in s.At(x).fired
  {
    TableAt(s, x);
  }

  lemma RegisterFollows(s: Net, a: Addr, b: Addr, x: Addr, y: Addr)
    requires Enabled(s, Register(a, b)) && s.At(a).nextEvent !in s.At(a).fired
    ensures Follows(Project(s, x, y), LinkStep(s, Register(a, b), x, y), Project(Apply(s, Register(a, b)), x, y))
  {
    hide DataOf, AcksOf, FramesFrom, Expected, OnlySender, OnlyPair;
    var s', sender := Apply(s, Register(a, b)), s.At(a).To(b).Register(s.At(a).nextEvent);
    OnlySenderIf(s, s', a, b, sender);
    OnlyPairIf(s, s', a, b, s.Offers(a, b), s.Chan(a, b));
    SenderProjects(s, s', a, b, sender, s.Offers(a, b), s.Chan(a, b), x, y);
  }

  lemma TransmitDelta(s: Net, a: Addr, b: Addr)
    requires Enabled(s, Transmit(a, b))
    ensures OnlySender(s, Apply(s, Transmit(a, b)), a, b, s.At(a).To(b).Transmit())
    ensures OnlyPair(s, Apply(s, Transmit(a, b)), a, b, s.Offers(a, b),
                     s.Chan(a, b) + [MakeDataPacket(s.At(a).To(b).pc.seqUsed, s.At(a).To(b).pc.data)])
  {
    hide MakeDataPacket, OnlySender, OnlyPair;
    OnlySenderIf(s, Apply(s, Transmit(a, b)), a, b, s.At(a).To(b).Transmit());
    OnlyPairIf(s, Apply(s, Transmit(a, b)), a, b, s.Offers(a, b),
               s.Chan(a, b) + [MakeDataPacket(s.At(a).To(b).pc.seqUsed, s.At(a).To(b).pc.data)]);
  }

  lemma TransmitLink(p: L.Link)
    requires p.sender.pc.Registered?
    ensures Follows(p, Some(L.Transmit),
                    p.(sender := p.sender.Transmit(),
                       chan := p.chan + [L.Frame(p.sender.pc.seqUsed, p.sender.pc.data)]))
  {
  }

  lemma TransmitFollows(s: Net, a: Addr, b: Addr, x: Addr, y: Addr)
    requires Enabled(s, Transmit(a, b))
    ensures Follows(Project(s, x, y), LinkStep(s, Transmit(a, b), x, y), Project(Apply(s, Transmit(a, b)), x, y))
  {
    var pc := s.At(a).To(b).pc;
    var chan := s.Chan(a, b) + [MakeDataPacket(pc.seqUsed, pc.data)];
    SentData(s.Chan(a, b), pc.seqUsed, pc.data);
    TransmitDelta(s, a, b);
    hide MakeDataPacket, DataOf, AcksOf, FramesFrom, Expected, OnlySender, OnlyPair, Apply, Net.At, Node.To, Net.Chan,
         Net.Delivered, Net.Offers;
    SenderProjects(s, Apply(s, Transmit(a, b)), a, b, s.At(a).To(b).Transmit(), s.Offers(a, b), chan, x, y);
    if (a, b) == (x, y) {
      TransmitLink(Project(s, x, y));
    }
    hide Follows;
  }

  lemma WakeFollows(s: Net, a: Addr, b: Addr, x: Addr, y: Addr)
    requires Enabled(s, Wake(a, b))
    ensures Follows(Project(s, x, y), LinkStep(s, Wake(a, b), x, y), Project(Apply(s, Wake(a, b)), x, y))
  {
    hide DataOf, AcksOf, FramesFrom, Expected, OnlySender, OnlyPair;
    var s', sender := Apply(s, Wake(a, b)), s.At(a).To(b).Wake();
    OnlySenderIf(s, s', a, b, sender);
    OnlyPairIf(s, s', a, b, s.Offers(a, b) + [[]], s.Chan(a, b));
    SenderProjects(s, s', a, b, sender, s.Offers(a, b) + [[]], s.Chan(a, b), x, y);
  }

  lemma TimeOutFollows(s: Net, a: Addr, b: Addr, x: Addr, y: Addr)
    requires Enabled(s, TimeOut(a, b))
    ensures Follows(Project(s, x, y), LinkStep(s, TimeOut(a, b), x, y), Project(Apply(s, TimeOut(a, b)), x, y))
  {
    hide DataOf, AcksOf, FramesFrom, Expected, OnlySender, OnlyPair;
    var s', sender := Apply(s, TimeOut(a, b)), s.At(a).To(b).TimeOut();
    OnlySenderIf(s, s', a, b, sender);
    OnlyPairIf(s, s', a, b, s.Offers(a, b), s.Chan(a, b));
    SenderProjects(s, s', a, b, sender, s.Offers(a, b), s.Chan(a, b), x, y);
  }

  lemma UnregisterFollows(s: Net, a: Addr, b: Addr, x: Addr, y: Addr)
    requires Enabled(s, Unregister(a, b))
    ensures Follows(Project(s, x, y), LinkStep(s, Unregister(a, b), x, y), Project(Apply(s, Unregister(a, b)), x, y))
  {
    hide DataOf, AcksOf, FramesFrom, Expected, OnlySender, OnlyPair;
    var s', sender := Apply(s, Unregister(a, b)), s.At(a).To(b).Unregister();
    OnlySenderIf(s, s', a, b, sender);
    OnlyPairIf(s, s', a, b, s.Offers(a, b), s.Chan(a, b));
    SenderProjects(s, s', a, b, sender, s.Offers(a, b), s.Chan(a, b), x, y);
  }

  lemma FailFollows(s: Net, a: Addr, b: Addr, x: Addr, y: Addr)
    requires Enabled(s, Fail(a, b))
    ensures Follows(Project(s, x, y), LinkStep(s, Fail(a, b), x, y), Project(Apply(s, Fail(a, b)), x, y))
  {
    hide DataOf, AcksOf, FramesFrom, Expected, OnlySender, OnlyPair;
    var s', sender := Apply(s, Fail(a, b)), s.At(a).To(b).Fail();
    OnlySenderIf(s, s', a, b, sender);
    OnlyPairIf(s, s', a, b, s.Offers(a, b), s.Chan(a, b));
    SenderProjects(s, s', a, b, sender, s.Offers(a, b), s.Chan(a, b), x, y);
  }

  // ---------------------------------------------------------------- steps of a receiver and of a dispatcher

  /** A step at node b: no sender moves and no offer is made; n is the node afterwards. */
  ghost predicate OnlyNode(s: Net, s': Net, b: Addr, n: Node) {
    && (forall x, y :: s'.At(x).To(y) == s.At(x).To(y))
    && (forall x :: s'.At(x).fired == if x == b then n.fired else s.At(x).fired)
    && (forall x :: s'.At(x).queue == if x == b then n.queue else s.At(x).queue)
    && (forall x :: s'.At(x).expected == if x == b then n.expected else s.At(x).expected)
    && (forall x, y :: s'.Offers(x, y) == s.Offers(x, y))
  }

  lemma OnlyNodeIf(s: Net, s': Net, b: Addr, n: Node)
    requires s'.nodes == s.nodes[b := n] && s'.offers == s.offers
    requires forall y :: n.To(y) == s.At(b).To(y)
    ensures OnlyNode(s, s', b, n)
  {
  }

  ghost predicate OnlyChan(s: Net, s': Net, a: Addr, b: Addr, chan: seq<Bytes>) {
    forall x, y :: s'.Chan(x, y) == if (x, y) == (a, b) then chan else s.Chan(x, y)
  }

  lemma AcceptedFrames(queue: seq<(Packet, Addr)>, x: Addr)
    requires queue != []
    ensures FramesFrom(queue, x) ==
      (if queue[0].1 == x then [L.Frame(queue[0].0.seqNum, queue[0].0.data)] else []) + FramesFrom(queue[1..], x)
  {
  }

  lemma AcceptDelta(s: Net, b: Addr)
    requires Enabled(s, Accept(b))
    ensures var s', (k, a) := Apply(s, Accept(b)), s.At(b).queue[0];
            var r := Receive(Expected(s.At(b).expected, a), k.seqNum, k.data);
            && OnlyNode(s, s', b, s'.At(b))
            && OnlyChan(s, s', b, a, s.Chan(b, a) + [MakeAckPacket(r.ack)])
            && s'.At(b).queue == s.At(b).queue[1..] && s'.At(b).fired == s.At(b).fired
            && (forall z :: Expected(s'.At(b).expected, z) == if z == a then r.next else Expected(s.At(b).expected, z))
            && (forall z, w :: s'.Delivered(z, w) ==
                  if (z, w) == (a, b) && r.yielded.Some? then s.Delivered(a, b) + [r.yielded.value]
                  else s.Delivered(z, w))
  {
    hide MakeAckPacket, OnlyNode;
    OnlyNodeIf(s, Apply(s, Accept(b)), b, Apply(s, Accept(b)).At(b));
  }

  lemma AcceptFollows(s: Net, b: Addr, x: Addr, y: Addr)
    requires Enabled(s, Accept(b))
    ensures Follows(Project(s, x, y), LinkStep(s, Accept(b), x, y), Project(Apply(s, Accept(b)), x, y))
  {
    hide MakeAckPacket, DataOf, AcksOf, FramesFrom, OnlyNode, OnlyChan, Apply, Receive, Net.At, Node.To, Net.Chan,
         Net.Delivered, Net.Offers, Expected, Follows, Project, LinkStep;
    var s', n := Apply(s, Accept(b)), s.At(b);
    var (k, a) := n.queue[0];
    var r := Receive(Expected(n.expected, a), k.seqNum, k.data);
    SentAck(s.Chan(b, a), r.ack);
    AcceptedFrames(n.queue, x);
    AcceptDelta(s, b);
    AcceptProjects(s, s', b, s'.At(b), MakeAckPacket(r.ack), r, x, y);
  }

  lemma AcceptProjects(s: Net, s': Net, b: Addr, n: Node, p: Bytes, r: Reception, x: Addr, y: Addr)
    requires Enabled(s, Accept(b)) && OnlyNode(s, s', b, n)
    requires var (k, a) := s.At(b).queue[0];
             && r == Receive(Expected(s.At(b).expected, a), k.seqNum, k.data)
             && OnlyChan(s, s', b, a, s.Chan(b, a) + [p])
             && n.queue == s.At(b).queue[1..] && n.fired == s.At(b).fired
             && (forall z :: Expected(n.expected, z) == if z == a then r.next else Expected(s.At(b).expected, z))
             && (forall z, w :: s'.Delivered(z, w) ==
                   if (z, w) == (a, b) && r.yielded.Some? then s.Delivered(a, b) + [r.yielded.value]
                   else s.Delivered(z, w))
             && DataOf(s.Chan(b, a) + [p]) == DataOf(s.Chan(b, a))
             && AcksOf(s.Chan(b, a) + [p]) == AcksOf(s.Chan(b, a)) + [r.ack]
             && FramesFrom(s.At(b).queue, x)
                == (if a == x then [L.Frame(k.seqNum, k.data)] else []) + FramesFrom(n.queue, x)
    ensures Follows(Project(s, x, y), LinkStep(s, Accept(b), x, y), Project(s', x, y))
  {
    hide DataOf, AcksOf, FramesFrom, Net.At, Node.To, Net.Chan, Net.Delivered, Net.Offers, Expected;
  }

  lemma Headed(ps: seq<Bytes>)
    requires ps != []
    ensures DataOf(ps) == Framed(ps[0]) + DataOf(ps[1..]) && AcksOf(ps) == Acked(ps[0]) + AcksOf(ps[1..])
  {
  }

  lemma AtMostOne(p: Bytes)
    ensures (Framed(p) == [] || Acked(p) == []) && |Framed(p)| <= 1 && |Acked(p)| <= 1
  {
    hide Unpack;
  }

  lemma RouteQueue(n: Node, p: Bytes, a: Addr, x: Addr)
    ensures FramesFrom(Route(n, p, a).queue, x) == FramesFrom(n.queue, x) + (if a == x then Framed(p) else [])
  {
    hide Unpack;
    if Unpack(p).Some? && !Unpack(p).value.isAck {
      FramesFromConcat(n.queue, [(Unpack(p).value, a)], x);
    }
  }

  /** An ACK that arrives from a sets the event of the attempt it answers, if that attempt is still on, and no other. */
  lemma RouteFires(n: Node, p: Bytes, a: Addr, y: Addr)
    requires Table(n)
    ensures var pc := n.To(y).pc;
            pc.HasEvent() ==>
              (pc.ev in Route(n, p, a).fired <==> pc.ev in n.fired || (a == y && Acked(p) == [pc.seqUsed]))
  {
    hide Unpack;
  }

  lemma RouteFrame(n: Node, p: Bytes, a: Addr)
    ensures Route(n, p, a).expected == n.expected && forall z :: Route(n, p, a).To(z) == n.To(z)
  {
    hide Unpack;
  }

  lemma DispatchDelta(s: Net, a: Addr, b: Addr)
    requires Enabled(s, Dispatch(a, b))
    ensures var s', n := Apply(s, Dispatch(a, b)), Route(s.At(b), s.Chan(a, b)[0], a);
            && OnlyNode(s, s', b, n)
            && OnlyChan(s, s', a, b, s.Chan(a, b)[1..])
            && n.expected == s.At(b).expected
            && forall z, w :: s'.Delivered(z, w) == s.Delivered(z, w)
  {
    RouteFrame(s.At(b), s.Chan(a, b)[0], a);
    hide Route, OnlyNode;
    OnlyNodeIf(s, Apply(s, Dispatch(a, b)), b, Route(s.At(b), s.Chan(a, b)[0], a));
  }

  lemma DispatchFollows(s: Net, a: Addr, b: Addr, x: Addr, y: Addr)
    requires NetInv(s) && Enabled(s, Dispatch(a, b))
    ensures Follows(Project(s, x, y), LinkStep(s, Dispatch(a, b), x, y), Project(Apply(s, Dispatch(a, b)), x, y))
  {
    var p := s.Chan(a, b)[0];
    TableAt(s, b);
    Headed(s.Chan(a, b));
    RouteQueue(s.At(b), p, a, x);
    RouteFires(s.At(b), p, a, y);
    AtMostOne(p);
    DispatchDelta(s, a, b);
    hide Route, Framed, Acked, DataOf, AcksOf, FramesFrom, OnlyNode, OnlyChan, Apply, Table, NetInv, Net.At, Node.To,
         Net.Chan, Net.Delivered, Net.Offers, Follows, Project, LinkStep;
    DispatchProjects(s, Apply(s, Dispatch(a, b)), a, b, Route(s.At(b), p, a), x, y);
  }

  lemma DispatchProjects(s: Net, s': Net, a: Addr, b: Addr, n: Node, x: Addr, y: Addr)
    requires Enabled(s, Dispatch(a, b)) && OnlyNode(s, s', b, n) && OnlyChan(s, s', a, b, s.Chan(a, b)[1..])
    requires forall z, w :: s'.Delivered(z, w) == s.Delivered(z, w)
    requires n.expected == s.At(b).expected
    requires var p := s.Chan(a, b)[0];
             && (Framed(p) == [] || Acked(p) == []) && |Framed(p)| <= 1 && |Acked(p)| <= 1
             && DataOf(s.Chan(a, b)) == Framed(p) + DataOf(s.Chan(a, b)[1..])
             && AcksOf(s.Chan(a, b)) == Acked(p) + AcksOf(s.Chan(a, b)[1..])
             && FramesFrom(n.queue, x) == FramesFrom(s.At(b).queue, x) + (if a == x then Framed(p) else [])
             && var pc := s.At(b).To(y).pc;
                pc.HasEvent() ==> (pc.ev in n.fired <==> pc.ev in s.At(b).fired || (a == y && Acked(p) == [pc.seqUsed]))
    ensures Follows(Project(s, x, y), LinkStep(s, Dispatch(a, b), x, y), Project(s', x, y))
  {
    hide Framed, Acked, DataOf, AcksOf, FramesFrom, Net.At, Node.To, Net.Chan, Net.Delivered, Net.Offers, Expected;
  }

  // ---------------------------------------------------------------- steps of the network

  lemma SplitAt(ps: seq<Bytes>, i: nat)
    requires i < |ps|
    ensures DataOf(ps) == DataOf(ps[..i]) + (Framed(ps[i]) + DataOf(ps[i + 1..]))
    ensures AcksOf(ps) == AcksOf(ps[..i]) + (Acked(ps[i]) + AcksOf(ps[i + 1..]))
  {
    hide DataOf, AcksOf, Framed, Acked;
    assert ps == ps[..i] + ps[i..];
    DataOfConcat(ps[..i], ps[i..]);
    AcksOfConcat(ps[..i], ps[i..]);
    Headed(ps[i..]);
    TailOf(ps, i);
  }

  lemma TailOf(ps: seq<Bytes>, i: nat)
    requires i < |ps|
    ensures ps[i..][0] == ps[i] && ps[i..][1..] == ps[i + 1..]
  {
  }

  lemma Lost(ps: seq<Bytes>, i: nat)
    requires i < |ps|
    ensures DataOf(L.Remove(ps, i)) == DataOf(ps[..i]) + DataOf(ps[i + 1..])
    ensures AcksOf(L.Remove(ps, i)) == AcksOf(ps[..i]) + AcksOf(ps[i + 1..])
  {
    DataOfConcat(ps[..i], ps[i + 1..]);
    AcksOfConcat(ps[..i], ps[i + 1..]);
  }

  lemma Damaged(ps: seq<Bytes>, i: nat, q: Bytes)
    requires i < |ps| && Unpack(q) == None
    ensures DataOf(ps[i := q]) == DataOf(ps[..i]) + DataOf(ps[i + 1..])
    ensures AcksOf(ps[i := q]) == AcksOf(ps[..i]) + AcksOf(ps[i + 1..])
  {
    var qs := ps[i := q];
    SplitAt(qs, i);
    assert Framed(q) == [] && Acked(q) == [];
    hide Framed, Acked, DataOf, AcksOf, Unpack;
    assert qs[..i] == ps[..i] && qs[i + 1..] == ps[i + 1..];
    assert [] + DataOf(ps[i + 1..]) == DataOf(ps[i + 1..]) && [] + AcksOf(ps[i + 1..]) == AcksOf(ps[i + 1..]);
  }

  lemma Repeated(ps: seq<Bytes>, i: nat)
    requires i < |ps|
    ensures DataOf(L.Repeat(ps, i)) == DataOf(ps[..i]) + (Framed(ps[i]) + (Framed(ps[i]) + DataOf(ps[i + 1..])))
    ensures AcksOf(L.Repeat(ps, i)) == AcksOf(ps[..i]) + (Acked(ps[i]) + (Acked(ps[i]) + AcksOf(ps[i + 1..])))
  {
    var qs := L.Repeat(ps, i);
    SplitAt(qs, i);
    assert qs[..i] == ps[..i] && qs[i + 1..] == ps[i..] && qs[i] == ps[i];
    hide Framed, Acked;
    assert ps[i..][1..] == ps[i + 1..];
    Headed(ps[i..]);
  }

  /** Taking out, or doubling, the middle part of at most one element. */
  lemma Middle<E>(pre: seq<E>, mid: seq<E>, post: seq<E>)
    ensures |mid| == 1 ==> L.Remove(pre + (mid + post), |pre|) == pre + post
    ensures |mid| == 1 ==> L.Repeat(pre + (mid + post), |pre|) == pre + (mid + (mid + post))
    ensures mid == [] ==> mid + post == post
  {
  }

  /** What losing (or doubling) the datagram p between pre and post makes of its data and ACKs. */
  ghost predicate Thinned(chan: seq<Bytes>, chan': seq<Bytes>, i: nat, again: bool) {
    && i < |chan|
    && var d1, d, d2 := DataOf(chan[..i]), Framed(chan[i]), DataOf(chan[i + 1..]);
       var a1, a, a2 := AcksOf(chan[..i]), Acked(chan[i]), AcksOf(chan[i + 1..]);
       && DataOf(chan') == (if again then d1 + (d + (d + d2)) else d1 + d2)
       && AcksOf(chan') == (if again then a1 + (a + (a + a2)) else a1 + a2)
  }

  lemma ThinnedData(chan: seq<Bytes>, chan': seq<Bytes>, i: nat, again: bool)
    requires Thinned(chan, chan', i, again)
    ensures var j := |DataOf(chan[..i])|;
            if Framed(chan[i]) == [] then DataOf(chan') == DataOf(chan)
            else j < |DataOf(chan)|
                 && DataOf(chan') == if again then L.Repeat(DataOf(chan), j) else L.Remove(DataOf(chan), j)
  {
    SplitAt(chan, i);
    AtMostOne(chan[i]);
    hide DataOf, AcksOf, Framed, Acked;
    Middle(DataOf(chan[..i]), Framed(chan[i]), DataOf(chan[i + 1..]));
  }

  lemma ThinnedAcks(chan: seq<Bytes>, chan': seq<Bytes>, i: nat, again: bool)
    requires Thinned(chan, chan', i, again)
    ensures var j := |AcksOf(chan[..i])|;
            if Acked(chan[i]) == [] then AcksOf(chan') == AcksOf(chan)
            else j < |AcksOf(chan)|
                 && AcksOf(chan') == if again then L.Repeat(AcksOf(chan), j) else L.Remove(AcksOf(chan), j)
  {
    SplitAt(chan, i);
    AtMostOne(chan[i]);
    hide DataOf, AcksOf, Framed, Acked;
    Middle(AcksOf(chan[..i]), Acked(chan[i]), AcksOf(chan[i + 1..]));
  }

  lemma ThinnedDelta(s: Net, s': Net, a: Addr, b: Addr)
    requires s' == s.WithChan(a, b, s'.Chan(a, b))
    ensures OnlyChan(s, s', a, b, s'.Chan(a, b)) && forall z :: s'.At(z) == s.At(z)
    ensures forall z, w :: s'.Delivered(z, w) == s.Delivered(z, w) && s'.Offers(z, w) == s.Offers(z, w)
  {
  }

  lemma ChanProjects(s: Net, s': Net, a: Addr, b: Addr, x: Addr, y: Addr)
    requires OnlyChan(s, s', a, b, s'.Chan(a, b)) && forall z :: s'.At(z) == s.At(z)
    requires forall z, w :: s'.Delivered(z, w) == s.Delivered(z, w) && s'.Offers(z, w) == s.Offers(z, w)
    ensures var p := Project(s, x, y);
            && p.chan == DataOf(s.Chan(x, y)) && p.acks == AcksOf(s.Chan(y, x))
            && Project(s', x, y) == p.(chan := if (a, b) == (x, y) then DataOf(s'.Chan(a, b)) else p.chan,
                                       acks := if (a, b) == (y, x) then AcksOf(s'.Chan(a, b)) else p.acks)
  {
    hide DataOf, AcksOf, FramesFrom, Net.At, Node.To, Net.Chan, Net.Delivered, Net.Offers, Expected;
  }

  /** A link whose data or ACKs lost or repeated one element (or neither) has made that step. */
  lemma ThinnedLink(p: L.Link, p': L.Link, data: bool, ack: bool, i: nat, j: nat, again: bool)
    requires !(data && ack) && (data ==> i < |p.chan|) && (ack ==> j < |p.acks|)
    requires p' == p.(chan := if !data then p.chan else if again then L.Repeat(p.chan, i) else L.Remove(p.chan, i),
                      acks := if !ack then p.acks else if again then L.Repeat(p.acks, j) else L.Remove(p.acks, j))
    ensures Follows(p, if data then Some(if again then L.RepeatData(i) else L.LoseData(i))
                       else if ack then Some(if again then L.RepeatAck(j) else L.LoseAck(j))
                       else None, p')
  {
    hide L.Remove, L.Repeat;
  }

  lemma ThinnedProjects(s: Net, s': Net, a: Addr, b: Addr, i: nat, again: bool, x: Addr, y: Addr)
    requires s' == s.WithChan(a, b, s'.Chan(a, b)) && Thinned(s.Chan(a, b), s'.Chan(a, b), i, again)
    ensures Follows(Project(s, x, y), Thinning(s, a, b, i, x, y, again), Project(s', x, y))
  {
    hide Framed, Acked, DataOf, AcksOf, Project, Follows, OnlyChan, L.Remove, L.Repeat;
    var chan := s.Chan(a, b);
    ThinnedDelta(s, s', a, b);
    ThinnedData(chan, s'.Chan(a, b), i, again);
    ThinnedAcks(chan, s'.Chan(a, b), i, again);
    AtMostOne(chan[i]);
    ChanProjects(s, s', a, b, x, y);
    var data, ack := (a, b) == (x, y) && Framed(chan[i]) != [], (a, b) == (y, x) && Acked(chan[i]) != [];
    hide Thinned, Net.At, Net.Chan, Net.Delivered, Net.Offers, Net.WithChan;
    ThinnedLink(Project(s, x, y), Project(s', x, y), data, ack, |DataOf(chan[..i])|, |AcksOf(chan[..i])|, again);
  }

  lemma StepThins(s: Net, t: Step)
    requires Enabled(s, t) && (t.Lose? || t.Repeat? || t.Corrupt?)
    ensures var s' := Apply(s, t);
            && s' == s.WithChan(t.x, t.y, s'.Chan(t.x, t.y))
            && Thinned(s.Chan(t.x, t.y), s'.Chan(t.x, t.y), t.i, t.Repeat?)
  {
    var chan := s.Chan(t.x, t.y);
    if t.Lose? {
      Lost(chan, t.i);
    } else if t.Repeat? {
      Repeated(chan, t.i);
    } else {
      BurstDetected(chan[t.i], t.q);
      Damaged(chan, t.i, t.q);
    }
    hide Thinned, Unpack, Burst, L.Remove, L.Repeat;
  }

  lemma NetworkFollows(s: Net, t: Step, x: Addr, y: Addr)
    requires Enabled(s, t) && (t.Lose? || t.Repeat? || t.Corrupt?)
    ensures Follows(Project(s, x, y), LinkStep(s, t, x, y), Project(Apply(s, t), x, y))
  {
    StepThins(s, t);
    hide Apply, Enabled, Thinned, Follows, Project, Thinning, Net.WithChan, Net.Chan;
    ThinnedProjects(s, Apply(s, t), t.x, t.y, t.i, t.Repeat?, x, y);
  }

  // ---------------------------------------------------------------- runs

  /** Every step of the network is, for every sender and its receiver, one step of the two-party protocol or none:
      no other peer's packet or ACK touches the bits, the event or the deliveries of this pair. */
  lemma StepFollows(s: Net, t: Step, x: Addr, y: Addr)
    requires NetInv(s) && Enabled(s, t)
    ensures Follows(Project(s, x, y), LinkStep(s, t, x, y), Project(Apply(s, t), x, y))
  {
    hide Follows, Project, LinkStep, Apply, NetInv, Enabled;
    match t
    case Start(a, b, data) => StartFollows(s, a, b, data, x, y);
    case Register(a, b) =>
      FreshEvent(s, a);
      RegisterFollows(s, a, b, x, y);
    case Transmit(a, b) => TransmitFollows(s, a, b, x, y);
    case Wake(a, b) => WakeFollows(s, a, b, x, y);
    case TimeOut(a, b) => TimeOutFollows(s, a, b, x, y);
    case Unregister(a, b) => UnregisterFollows(s, a, b, x, y);
    case Fail(a, b) => FailFollows(s, a, b, x, y);
    case Dispatch(a, b) => DispatchFollows(s, a, b, x, y);
    case Accept(b) => AcceptFollows(s, b, x, y);
    case Lose(a, b, i) => NetworkFollows(s, t, x, y);
    case Repeat(a, b, i) => NetworkFollows(s, t, x, y);
    case Corrupt(a, b, i, q) => NetworkFollows(s, t, x, y);
  }

  lemma {:induction false} RunProjects(s: Net, steps: seq<Step>, s': Net, x: Addr, y: Addr)
    requires NetInv(s) && Runs(s, steps, s') && L.Reachable(Project(s, x, y))
    ensures NetInv(s') && L.Reachable(Project(s', x, y))
    decreases |steps|
  {
    hide NetInv, Project, LinkStep, Apply, Enabled, L.Reachable;
    if steps != [] {
      StepNetInv(s, steps[0]);
      StepFollows(s, steps[0], x, y);
      var lt := LinkStep(s, steps[0], x, y);
      if lt.Some? {
        T.ReachableNext(Project(s, x, y), lt.value);
      }
      RunProjects(Apply(s, steps[0]), steps[1..], s', x, y);
    }
  }

  /** In every run of the network, what each sender and its receiver see is a run of the two-party protocol. */
  lemma EveryPairRunsTheProtocol(s: Net, x: Addr, y: Addr)
    requires Reachable(s)
    ensures NetInv(s) && L.Reachable(Project(s, x, y))
  {
    var steps :| Runs(INIT, steps, s);
    InitNetInv();
    assert Project(INIT, x, y) == L.INIT;
    assert L.Runs(L.INIT, [], L.INIT);
    RunProjects(INIT, steps, s, x, y);
  }

  /** So over any number of peers and any traffic, the payloads yielded at y for x are an in-order subsequence of the
      payloads x offered to y, one for each finished phase and at most one for the phase in progress. */
  lemma NetworkDelivery(s: Net, x: Addr, y: Addr)
    requires Reachable(s)
    ensures |s.Delivered(x, y)| == |s.Offers(x, y)| - 1 || |s.Delivered(x, y)| == |s.Offers(x, y)|
    ensures forall k :: 0 <= k < |s.Delivered(x, y)| ==> s.Delivered(x, y)[k] in s.Offers(x, y)[k]
    ensures Subsequence(s.Delivered(x, y), Flatten(s.Offers(x, y)))
  {
    EveryPairRunsTheProtocol(s, x, y);
    T.PhaseSafety(Project(s, x, y));
    T.DeliveredIsSubsequence(Project(s, x, y));
  }

  /** Until a send from x to y fails, y has yielded exactly what x sent, in order, but for the send in progress. */
  lemma NetworkFailureFree(s: Net, x: Addr, y: Addr)
    requires Reachable(s) && T.FailureFree(Project(s, x, y))
    ensures s.Delivered(x, y) <= Flatten(s.Offers(x, y))
    ensures |Flatten(s.Offers(x, y))| - 1 <= |s.Delivered(x, y)|
  {
    EveryPairRunsTheProtocol(s, x, y);
    T.FailureFreeDelivers(Project(s, x, y));
  }

  // ---------------------------------------------------------------- the event table over every run

  lemma ReachableTable(s: Net, x: Addr)
    requires Reachable(s)
    ensures Table(s.At(x))
  {
    EveryPairRunsTheProtocol(s, x, x);
    TableAt(s, x);
  }

  /** No listener outlives its attempt: an entry of the table belongs to an attempt in progress with that peer and
      that sequence number, and names the event that attempt waits on. */
  lemma NoListenerSurvives(s: Net, x: Addr, key: (Addr, bv8))
    requires Reachable(s) && key in s.At(x).listeners
    ensures var pc := s.At(x).To(key.0).pc;
            pc.HasEvent() && pc.seqUsed == key.1 && s.At(x).listeners[key] == pc.ev
  {
    ReachableTable(s, x);
  }

  lemma RouteAck(n: Node, p: Bytes, y: Addr)
    requires Table(n) && n.To(y).pc.HasEvent() && Acked(p) == [n.To(y).pc.seqUsed]
    ensures Route(n, p, y) == n.(fired := n.fired + {n.To(y).pc.ev})
  {
    hide Unpack;
  }

  lemma AckFires(s: Net, x: Addr, y: Addr)
    requires Table(s.At(x)) && s.Chan(y, x) != [] && s.At(x).To(y).pc.HasEvent()
    requires Acked(s.Chan(y, x)[0]) == [s.At(x).To(y).pc.seqUsed]
    ensures var n, n' := s.At(x), Apply(s, Dispatch(y, x)).At(x);
            n'.To(y) == n.To(y) && n'.fired == n.fired + {n.To(y).pc.ev}
  {
    RouteAck(s.At(x), s.Chan(y, x)[0], y);
    DispatchDelta(s, y, x);
    hide Table, Route, Acked, Net.At, Node.To, Net.Chan, Apply;
  }

  /** An ACK with the awaited number that is dispatched while an attempt waits sets that attempt's event, so that the
      attempt can wake, and no other event. */
  lemma AckWakesItsAttempt(s: Net, x: Addr, y: Addr)
    requires Reachable(s) && s.Chan(y, x) != [] && s.At(x).To(y).pc.Waiting?
    requires Acked(s.Chan(y, x)[0]) == [s.At(x).To(y).pc.seqUsed]
    ensures var s' := Apply(s, Dispatch(y, x));
            && Enabled(s', Wake(x, y))
            && s'.At(x).fired == s.At(x).fired + {s.At(x).To(y).pc.ev}
  {
    ReachableTable(s, x);
    AckFires(s, x, y);
    hide Table, Acked, Reachable, Apply, Net.At, Node.To, Net.Chan;
  }

  /** Attempts in progress with different peers wait on different events. */
  lemma AttemptsHaveTheirOwnEvents(s: Net, x: Addr, y: Addr, z: Addr)
    requires Reachable(s) && y != z && s.At(x).To(y).pc.HasEvent() && s.At(x).To(z).pc.HasEvent()
    ensures s.At(x).To(y).pc.ev != s.At(x).To(z).pc.ev
  {
    ReachableTable(s, x);
    hide Reachable;
  }

  /** A new attempt waits on an event that no earlier ACK has set. */
  lemma NewAttemptWaitsAfresh(s: Net, x: Addr, y: Addr)
    requires Reachable(s) && Enabled(s, Register(x, y))
    ensures var s' := Apply(s, Register(x, y)); s'.At(x).To(y).pc.ev !in s'.At(x).fired
  {
    ReachableTable(s, x);
    hide Reachable;
  }
}
