/** Many endpoints, each with one dispatcher (a shared data queue and a shared table of ACK events), one receiver and
    one sender per peer, exchanging raw datagrams.  Seen from any one sender and its receiver, a run of the whole
    network is a run of the two-party protocol. */
module RdtNet {
  import opened Wrappers
  import opened Crc32
  import opened RdtPacket
  import opened RdtSteps
  import L = RdtLink

  /** Event objects are numbered in the order of their creation; fired holds the numbers of those that are set. */
  datatype Node = Node(
    senders: map<Addr, Sender>, expected: map<Addr, bv8>, queue: seq<(Packet, Addr)>,
    listeners: map<(Addr, bv8), nat>, fired: set<nat>, nextEvent: nat)
  {
    function To(y: Addr): Sender {
      if y in senders then senders[y] else FRESH_SENDER
    }
  }

  const FRESH_NODE := Node(map[], map[], [], map[], {}, 0)

  /** chans[(x, y)] is the datagrams from x to y on their way, oldest first.  offers and delivered record the run. */
  datatype Net = Net(
    nodes: map<Addr, Node>, chans: map<(Addr, Addr), seq<Bytes>>,
    offers: map<(Addr, Addr), seq<seq<Bytes>>>, delivered: map<(Addr, Addr), seq<Bytes>>)
  {
    function At(x: Addr): Node {
      if x in nodes then nodes[x] else FRESH_NODE
    }

    function Chan(x: Addr, y: Addr): seq<Bytes> {
      if (x, y) in chans then chans[(x, y)] else []
    }

    function Offers(x: Addr, y: Addr): seq<seq<Bytes>> {
      if (x, y) in offers then offers[(x, y)] else [[]]
    }

    function Delivered(x: Addr, y: Addr): seq<Bytes> {
      if (x, y) in delivered then delivered[(x, y)] else []
    }

    function WithSender(x: Addr, y: Addr, sender: Sender): Net {
      this.(nodes := nodes[x := At(x).(senders := At(x).senders[y := sender])])
    }

    function WithChan(x: Addr, y: Addr, chan: seq<Bytes>): Net {
      this.(chans := chans[(x, y) := chan])
    }
  }

  const INIT := Net(map[], map[], map[], map[])

  /** Steps of the sender at x for peer y, of the dispatcher at y on a datagram from x, of the receiver at y, and of
      the network between x and y.  A datagram is damaged at most once, by one burst. */
  datatype Step =
    | Start(x: Addr, y: Addr, data: Bytes) | Register(x: Addr, y: Addr) | Transmit(x: Addr, y: Addr)
    | Wake(x: Addr, y: Addr) | TimeOut(x: Addr, y: Addr) | Unregister(x: Addr, y: Addr) | Fail(x: Addr, y: Addr)
    | Dispatch(x: Addr, y: Addr)
    | Accept(y: Addr)
    | Lose(x: Addr, y: Addr, i: nat) | Repeat(x: Addr, y: Addr, i: nat) | Corrupt(x: Addr, y: Addr, i: nat, q: Bytes)

  ghost predicate Enabled(s: Net, t: Step) {
    match t
    case Start(x, y, _) => s.At(x).To(y).pc.Idle? && s.Offers(x, y) != []
    case Register(x, y) => s.At(x).To(y).CanRegister()
    case Transmit(x, y) => s.At(x).To(y).pc.Registered?
    case Wake(x, y) => s.At(x).To(y).pc.Waiting? && s.At(x).To(y).pc.ev in s.At(x).fired
    case TimeOut(x, y) => s.At(x).To(y).pc.Waiting?
    case Unregister(x, y) => s.At(x).To(y).pc.Finishing?
    case Fail(x, y) => s.At(x).To(y).CanFail()
    case Dispatch(x, y) => s.Chan(x, y) != []
    case Accept(y) => s.At(y).queue != []
    case Lose(x, y, i) => i < |s.Chan(x, y)|
    case Repeat(x, y, i) => i < |s.Chan(x, y)|
    case Corrupt(x, y, i, q) =>
      i < |s.Chan(x, y)| && Unpack(s.Chan(x, y)[i]).Some? && Burst(s.Chan(x, y)[i], q)
  }

  /** What the dispatcher at a node does with a datagram from x. */
  function Route(n: Node, p: Bytes, x: Addr): Node {
    match Unpack(p)
    case None => n
    case Some(k) =>
      if k.isAck then
        if (x, k.seqNum) in n.listeners then n.(fired := n.fired + {n.listeners[(x, k.seqNum)]}) else n
      else n.(queue := n.queue + [(k, x)])
  }

  ghost function Apply(s: Net, t: Step): Net
    requires Enabled(s, t)
  {
    match t
    case Start(x, y, data) =>
      s.WithSender(x, y, s.At(x).To(y).Start(data)).(offers := s.offers[(x, y) := L.Offer(s.Offers(x, y), data)])
    case Register(x, y) =>
      var n := s.At(x);
      var sender := n.To(y).Register(n.nextEvent);
      s.(nodes := s.nodes[x := n.(senders := n.senders[y := sender], nextEvent := n.nextEvent + 1,
                                  listeners := n.listeners[(y, sender.pc.seqUsed) := n.nextEvent])])
    case Transmit(x, y) =>
      var sender := s.At(x).To(y);
      s.WithSender(x, y, sender.Transmit())
       .WithChan(x, y, s.Chan(x, y) + [MakeDataPacket(sender.pc.seqUsed, sender.pc.data)])
    case Wake(x, y) =>
      s.WithSender(x, y, s.At(x).To(y).Wake()).(offers := s.offers[(x, y) := s.Offers(x, y) + [[]]])
    case TimeOut(x, y) => s.WithSender(x, y, s.At(x).To(y).TimeOut())
    case Unregister(x, y) =>
      var n := s.At(x);
      var sender := n.To(y);
      s.(nodes := s.nodes[x := n.(senders := n.senders[y := sender.Unregister()],
                                  listeners := n.listeners - {(y, sender.pc.seqUsed)})])
    case Fail(x, y) => s.WithSender(x, y, s.At(x).To(y).Fail())
    case Dispatch(x, y) =>
      s.(nodes := s.nodes[y := Route(s.At(y), s.Chan(x, y)[0], x)]).WithChan(x, y, s.Chan(x, y)[1..])
    case Accept(y) =>
      var n := s.At(y);
      var (k, x) := n.queue[0];
      var r := Receive(Expected(n.expected, x), k.seqNum, k.data);
      s.(nodes := s.nodes[y := n.(queue := n.queue[1..], expected := n.expected[x := r.next])],
         delivered := if r.yielded.Some? then s.delivered[(x, y) := s.Delivered(x, y) + [r.yielded.value]]
                      else s.delivered)
       .WithChan(y, x, s.Chan(y, x) + [MakeAckPacket(r.ack)])
    case Lose(x, y, i) => s.WithChan(x, y, L.Remove(s.Chan(x, y), i))
    case Repeat(x, y, i) => s.WithChan(x, y, L.Repeat(s.Chan(x, y), i))
    case Corrupt(x, y, i, q) => s.WithChan(x, y, s.Chan(x, y)[i := q])
  }

  ghost predicate Runs(s: Net, steps: seq<Step>, t: Net)
    decreases |steps|
  {
    if steps == [] then s == t
    else Enabled(s, steps[0]) && Runs(Apply(s, steps[0]), steps[1..], t)
  }

  ghost predicate Reachable(s: Net) {
    exists steps :: Runs(INIT, steps, s)
  }

  // ---------------------------------------------------------------- the table of events

  /** The table of a node holds one entry for each attempt in progress, and nothing else: the event that attempt
      waits on, under the peer and sequence number it used.  No two peers share an event. */
  ghost predicate Table(n: Node) {
    && (forall y :: n.To(y).pc.HasEvent() ==>
          && (y, n.To(y).pc.seqUsed) in n.listeners
          && n.listeners[(y, n.To(y).pc.seqUsed)] == n.To(y).pc.ev
          && n.To(y).pc.ev < n.nextEvent)
    && (forall key :: key in n.listeners ==>
          n.To(key.0).pc.HasEvent() && n.To(key.0).pc.seqUsed == key.1)
    && (forall y, z :: y != z && n.To(y).pc.HasEvent() && n.To(z).pc.HasEvent() ==> n.To(y).pc.ev != n.To(z).pc.ev)
    && (forall e :: e in n.fired ==> e < n.nextEvent)
  }

  ghost predicate NetInv(s: Net) {
    forall x :: Table(s.At(x))
  }

  lemma InitNetInv()
    ensures NetInv(INIT)
  {
  }

  /** Changing one sender between states of one attempt, or between states without one, keeps the table right. */
  lemma SenderMoveTable(n: Node, y: Addr, sender: Sender)
    requires Table(n)
    requires sender.pc.HasEvent() <==> n.To(y).pc.HasEvent()
    requires sender.pc.HasEvent() ==> sender.pc.seqUsed == n.To(y).pc.seqUsed && sender.pc.ev == n.To(y).pc.ev
    ensures Table(n.(senders := n.senders[y := sender]))
  {
    var n' := n.(senders := n.senders[y := sender]);
    assert forall z :: n'.To(z) == if z == y then sender else n.To(z);
  }

  lemma RegisterTable(n: Node, y: Addr)
    requires Table(n) && n.To(y).pc.Ready?
    ensures var sender := n.To(y).Register(n.nextEvent);
            Table(n.(senders := n.senders[y := sender], nextEvent := n.nextEvent + 1,
                     listeners := n.listeners[(y, sender.pc.seqUsed) := n.nextEvent]))
    ensures n.nextEvent !in n.fired
  {
    var sender := n.To(y).Register(n.nextEvent);
    var n' := n.(senders := n.senders[y := sender], nextEvent := n.nextEvent + 1,
                 listeners := n.listeners[(y, sender.pc.seqUsed) := n.nextEvent]);
    assert forall z :: n'.To(z) == if z == y then sender else n.To(z);
    EnteredTable(n, n', y);
  }

  lemma EnteredTable(n: Node, n': Node, y: Addr)
    requires Table(n) && n.To(y).pc.Ready? && n'.fired == n.fired && n'.nextEvent == n.nextEvent + 1
    requires forall z :: n'.To(z) == if z == y then n.To(y).Register(n.nextEvent) else n.To(z)
    requires n'.listeners == n.listeners[(y, n.To(y).Register(n.nextEvent).pc.seqUsed) := n.nextEvent]
    ensures Table(n')
  {
    hide Node.To;
  }

  lemma UnregisterTable(n: Node, y: Addr)
    requires Table(n) && n.To(y).pc.Finishing?
    ensures Table(n.(senders := n.senders[y := n.To(y).Unregister()],
                     listeners := n.listeners - {(y, n.To(y).pc.seqUsed)}))
  {
    var n' := n.(senders := n.senders[y := n.To(y).Unregister()],
                 listeners := n.listeners - {(y, n.To(y).pc.seqUsed)});
    assert forall z :: n'.To(z) == if z == y then n.To(y).Unregister() else n.To(z);
    RemovedTable(n, n', y);
  }

  lemma RemovedTable(n: Node, n': Node, y: Addr)
    requires Table(n) && n.To(y).pc.Finishing? && n'.fired == n.fired && n'.nextEvent == n.nextEvent
    requires forall z :: n'.To(z) == if z == y then n.To(y).Unregister() else n.To(z)
    requires n'.listeners == n.listeners - {(y, n.To(y).pc.seqUsed)}
    ensures Table(n')
  {
    hide Node.To;
  }

  lemma RouteTable(n: Node, p: Bytes, x: Addr)
    requires Table(n)
    ensures Table(Route(n, p, x))
    ensures forall z :: Route(n, p, x).To(z) == n.To(z)
    ensures Route(n, p, x).expected == n.expected
  {
    hide Unpack;
    var n' := Route(n, p, x);
    assert forall z :: n'.To(z) == n.To(z);
    assert forall key :: key in n.listeners ==> n.listeners[key] == n.To(key.0).pc.ev;
  }

  lemma NodeChange(s: Net, s': Net, x: Addr, n: Node)
    requires NetInv(s) && Table(n) && s'.nodes == s.nodes[x := n]
    ensures NetInv(s')
  {
    hide Table;
    assert forall z :: s'.At(z) == if z == x then n else s.At(z);
  }

  lemma SenderMoveInv(s: Net, s': Net, x: Addr, y: Addr, sender: Sender)
    requires NetInv(s) && s'.nodes == s.WithSender(x, y, sender).nodes
    requires sender.pc.HasEvent() <==> s.At(x).To(y).pc.HasEvent()
    requires sender.pc.HasEvent() ==>
               sender.pc.seqUsed == s.At(x).To(y).pc.seqUsed && sender.pc.ev == s.At(x).To(y).pc.ev
    ensures NetInv(s')
  {
    SenderMoveTable(s.At(x), y, sender);
    NodeChange(s, s', x, s.At(x).(senders := s.At(x).senders[y := sender]));
  }

  lemma MoveNetInv(s: Net, t: Step)
    requires NetInv(s) && Enabled(s, t) && (t.Start? || t.Transmit? || t.Wake? || t.TimeOut? || t.Fail?)
    ensures NetInv(Apply(s, t))
  {
    var s' := Apply(s, t);
    hide Table, MakePacket, NetInv;
    var sender := s.At(t.x).To(t.y);
    match t
    case Start(x, y, data) => SenderMoveInv(s, s', x, y, sender.Start(data));
    case Transmit(x, y) => SenderMoveInv(s, s', x, y, sender.Transmit());
    case Wake(x, y) => SenderMoveInv(s, s', x, y, sender.Wake());
    case TimeOut(x, y) => SenderMoveInv(s, s', x, y, sender.TimeOut());
    case Fail(x, y) => SenderMoveInv(s, s', x, y, sender.Fail());
  }

  lemma TableNetInv(s: Net, t: Step)
    requires NetInv(s) && Enabled(s, t) && (t.Register? || t.Unregister?)
    ensures NetInv(Apply(s, t))
  {
    hide Table, NetInv;
    TableAt(s, t.x);
    if t.Register? {
      RegisterTable(s.At(t.x), t.y);
    } else {
      UnregisterTable(s.At(t.x), t.y);
    }
    NodeChange(s, Apply(s, t), t.x, Apply(s, t).At(t.x));
  }

  lemma ArrivalNetInv(s: Net, t: Step)
    requires NetInv(s) && Enabled(s, t) && (t.Dispatch? || t.Accept?)
    ensures NetInv(Apply(s, t))
  {
    var s' := Apply(s, t);
    hide Table, Unpack, MakePacket, Route, NetInv;
    TableAt(s, t.y);
    if t.Dispatch? {
      RouteTable(s.At(t.y), s.Chan(t.x, t.y)[0], t.x);
    } else {
      QueueTable(s.At(t.y), s'.At(t.y).queue, s'.At(t.y).expected);
    }
    NodeChange(s, s', t.y, s'.At(t.y));
  }

  /** Every step of the network keeps every node's table of events right. */
  lemma StepNetInv(s: Net, t: Step)
    requires NetInv(s) && Enabled(s, t)
    ensures NetInv(Apply(s, t))
  {
    hide Unpack, Burst, MakePacket, Route, NetInv;
    if t.Start? || t.Transmit? || t.Wake? || t.TimeOut? || t.Fail? {
      MoveNetInv(s, t);
    } else if t.Register? || t.Unregister? {
      TableNetInv(s, t);
    } else if t.Dispatch? || t.Accept? {
      ArrivalNetInv(s, t);
    } else {
      SameNodes(s, Apply(s, t));
    }
  }

  lemma TableAt(s: Net, x: Addr)
    requires NetInv(s)
    ensures Table(s.At(x))
  {
    hide Table;
  }

  lemma SameNodes(s: Net, s': Net)
    requires NetInv(s) && s'.nodes == s.nodes
    ensures NetInv(s')
  {
    hide Table;
    assert forall z :: s'.At(z) == s.At(z);
  }

  lemma QueueTable(n: Node, queue: seq<(Packet, Addr)>, expected: map<Addr, bv8>)
    requires Table(n)
    ensures Table(n.(queue := queue, expected := expected))
  {
    assert forall z :: n.(queue := queue, expected := expected).To(z) == n.To(z);
  }
}
