/** One sender and one receiver of RDT 3.0 over channels that may lose and duplicate but not reorder: an
    alternating-bit protocol whose sends give up after five attempts without toggling the bit. */
module RdtLink {
  import opened Wrappers
  import opened Crc32
  import opened RdtSteps

  datatype Frame = Frame(seqNum: bv8, data: Bytes)

  /** chan and acks are the datagrams on the way, oldest first; queue holds what the receiver's dispatcher has
      accepted.  fired says that the event of the current attempt is set.  offers and delivered record the run:
      offers[k] lists the payloads given to send while the bit was that of phase k, and delivered what the
      receiver has yielded. */
  datatype Link = Link(
    sender: Sender, fired: bool, chan: seq<Frame>, queue: seq<Frame>, expected: bv8, acks: seq<bv8>,
    offers: seq<seq<Bytes>>, delivered: seq<Bytes>)

  datatype Step =
    | Start(data: Bytes) | Register(ev: nat) | Transmit | Wake | TimeOut | Unregister | Fail
    | Enqueue | Acknowledge | Accept
    | LoseData(i: nat) | RepeatData(i: nat) | LoseAck(i: nat) | RepeatAck(i: nat)

  const INIT := Link(FRESH_SENDER, false, [], [], 0, [], [[]], [])

  function Remove<T>(s: seq<T>, i: nat): seq<T>
    requires i < |s|
  {
    s[..i] + s[i + 1..]
  }

  function Repeat<T>(s: seq<T>, i: nat): seq<T>
    requires i < |s|
  {
    s[..i + 1] + s[i..]
  }

  predicate Enabled(s: Link, t: Step) {
    match t
    case Start(_) => s.sender.pc.Idle? && s.offers != []
    case Register(_) => s.sender.CanRegister()
    case Transmit => s.sender.pc.Registered?
    case Wake => s.sender.pc.Waiting? && s.fired
    case TimeOut => s.sender.pc.Waiting?
    case Unregister => s.sender.pc.Finishing?
    case Fail => s.sender.CanFail()
    case Enqueue => s.chan != []
    case Acknowledge => s.acks != []
    case Accept => s.queue != []
    case LoseData(i) => i < |s.chan|
    case RepeatData(i) => i < |s.chan|
    case LoseAck(i) => i < |s.acks|
    case RepeatAck(i) => i < |s.acks|
  }

  function Offer(offers: seq<seq<Bytes>>, data: Bytes): seq<seq<Bytes>>
    requires offers != []
  {
    offers[|offers| - 1 := offers[|offers| - 1] + [data]]
  }

  function Apply(s: Link, t: Step): Link
    requires Enabled(s, t)
  {
    match t
    case Start(data) => s.(sender := s.sender.Start(data), offers := Offer(s.offers, data))
    case Register(ev) => s.(sender := s.sender.Register(ev), fired := false)
    case Transmit =>
      s.(sender := s.sender.Transmit(), chan := s.chan + [Frame(s.sender.pc.seqUsed, s.sender.pc.data)])
    case Wake => s.(sender := s.sender.Wake(), offers := s.offers + [[]])
    case TimeOut => s.(sender := s.sender.TimeOut())
    case Unregister => s.(sender := s.sender.Unregister(), fired := false)
    case Fail => s.(sender := s.sender.Fail())
    case Enqueue => s.(queue := s.queue + [s.chan[0]], chan := s.chan[1..])
    case Acknowledge =>
      var hit := s.sender.pc.HasEvent() && s.sender.pc.seqUsed == s.acks[0];
      s.(fired := s.fired || hit, acks := s.acks[1..])
    case Accept =>
      var r := Receive(s.expected, s.queue[0].seqNum, s.queue[0].data);
      s.(queue := s.queue[1..], expected := r.next, acks := s.acks + [r.ack],
         delivered := if r.yielded.Some? then s.delivered + [r.yielded.value] else s.delivered)
    case LoseData(i) => s.(chan := Remove(s.chan, i))
    case RepeatData(i) => s.(chan := Repeat(s.chan, i))
    case LoseAck(i) => s.(acks := Remove(s.acks, i))
    case RepeatAck(i) => s.(acks := Repeat(s.acks, i))
  }

  predicate Runs(s: Link, steps: seq<Step>, t: Link)
    decreases |steps|
  {
    if steps == [] then s == t
    else Enabled(s, steps[0]) && Runs(Apply(s, steps[0]), steps[1..], t)
  }

  ghost predicate Reachable(s: Link) {
    exists steps :: Runs(INIT, steps, s)
  }

  // ---------------------------------------------------------------- the invariant

  /** Once bit b shows in s, nothing else follows: at most one change of bit, towards b. */
  ghost predicate EndsIn(s: seq<bv8>, b: bv8) {
    forall i, j :: 0 <= i < j < |s| && s[i] == b ==> s[j] == b
  }

  ghost predicate All(s: seq<bv8>, b: bv8) {
    forall i :: 0 <= i < |s| ==> s[i] == b
  }

  ghost predicate Lacks(s: seq<bv8>, b: bv8) {
    forall i :: 0 <= i < |s| ==> s[i] != b
  }

  function Bits(fs: seq<Frame>): (bs: seq<bv8>)
    ensures |bs| == |fs| && forall i :: 0 <= i < |fs| ==> bs[i] == fs[i].seqNum
  {
    seq(|fs|, i requires 0 <= i < |fs| => fs[i].seqNum)
  }

  /** Everything on its way to the receiver, oldest first. */
  function Path(s: Link): seq<Frame> {
    s.queue + s.chan
  }

  function Phase(s: Link): int {
    |s.offers| - 1
  }

  ghost predicate History(s: Link) {
    && s.offers != []
    && (|s.delivered| == Phase(s) || |s.delivered| == Phase(s) + 1)
    && s.sender.currSeq == Bit(Phase(s))
    && s.expected == Bit(|s.delivered|)
    && (forall j :: 0 <= j < Phase(s) ==> s.offers[j] != [])
    && (forall j :: 0 <= j < |s.delivered| ==> s.delivered[j] in s.offers[j])
  }

  /** The bits on the way, relative to the sender's bit b: while the receiver still expects b, no ACK carries b;
      once it has accepted b, no other bit is on the way to it. */
  ghost predicate Shape(path: seq<bv8>, acks: seq<bv8>, b: bv8, accepted: bool) {
    && EndsIn(path, b) && EndsIn(acks, b)
    && (if accepted then All(path, b) else Lacks(acks, b))
  }

  ghost predicate Current(s: Link)
    requires s.offers != []
  {
    forall f :: f in Path(s) && f.seqNum == s.sender.currSeq ==> f.data in s.offers[Phase(s)]
  }

  ghost predicate Latest(offers: seq<Bytes>, data: Bytes) {
    offers != [] && data == offers[|offers| - 1]
  }

  ghost predicate Calling(s: Link)
    requires s.offers != []
  {
    var b, k := s.sender.currSeq, Phase(s);
    match s.sender.pc
    case Idle => true
    case Ready(data, attempts) => Latest(s.offers[k], data) && attempts <= MAX_RETRIES
    case Registered(data, attempts, seqUsed, _) => Latest(s.offers[k], data) && seqUsed == b && attempts < MAX_RETRIES
    case Waiting(data, attempts, seqUsed, _) => Latest(s.offers[k], data) && seqUsed == b && attempts < MAX_RETRIES
    case Finishing(data, attempts, seqUsed, _, ok) =>
      if ok then k > 0 && Latest(s.offers[k - 1], data) && seqUsed == Bit(k - 1)
      else Latest(s.offers[k], data) && seqUsed == b && attempts <= MAX_RETRIES
  }

  /** A set event means the current bit was accepted, and only its ACKs remain. */
  ghost predicate Fired(s: Link) {
    s.fired && (s.sender.pc.Finishing? ==> !s.sender.pc.ok) ==>
      && s.sender.pc.HasEvent()
      && |s.delivered| == Phase(s) + 1
      && All(s.acks, s.sender.currSeq)
  }

  ghost predicate Inv(s: Link) {
    && History(s)
    && Shape(Bits(Path(s)), s.acks, s.sender.currSeq, |s.delivered| == Phase(s) + 1)
    && Current(s) && Calling(s) && Fired(s)
  }

  lemma InitInv()
    ensures Inv(INIT)
  {
  }

  lemma SenderStepInv(s: Link, t: Step)
    requires Inv(s) && Enabled(s, t)
    requires t.Start? || t.Register? || t.TimeOut? || t.Unregister? || t.Fail?
    ensures Inv(Apply(s, t))
  {
    var s' := Apply(s, t);
    assert Path(s') == Path(s);
    FlipBit(Phase(s));
  }

  lemma TransmitInv(s: Link)
    requires Inv(s) && Enabled(s, Transmit)
    ensures Inv(Apply(s, Transmit))
  {
    var s' := Apply(s, Transmit);
    var f := Frame(s.sender.pc.seqUsed, s.sender.pc.data);
    assert Path(s') == Path(s) + [f];
    assert Bits(Path(s')) == Bits(Path(s)) + [f.seqNum];
    FlipBit(Phase(s));
  }

  lemma WakeInv(s: Link)
    requires Inv(s) && Enabled(s, Wake)
    ensures Inv(Apply(s, Wake))
  {
    var s' := Apply(s, Wake);
    assert Path(s') == Path(s);
    FlipBit(Phase(s));
    assert s.delivered[Phase(s)] in s.offers[Phase(s)];
  }

  lemma EnqueueInv(s: Link)
    requires Inv(s) && Enabled(s, Enqueue)
    ensures Inv(Apply(s, Enqueue))
  {
    assert Path(Apply(s, Enqueue)) == Path(s);
  }

  lemma AcknowledgeInv(s: Link)
    requires Inv(s) && Enabled(s, Acknowledge)
    ensures Inv(Apply(s, Acknowledge))
  {
    var s' := Apply(s, Acknowledge);
    assert Path(s') == Path(s);
    assert s.acks == [s.acks[0]] + s'.acks;
  }

  lemma AcceptPath(s: Link)
    requires Enabled(s, Accept)
    ensures var s' := Apply(s, Accept);
            && Path(s) == [s.queue[0]] + Path(s')
            && Bits(Path(s)) == [s.queue[0].seqNum] + Bits(Path(s'))
            && s.queue[0] in Path(s)
            && forall g :: g in Path(s') ==> g in Path(s)
  {
    var s' := Apply(s, Accept);
    assert Path(s) == [s.queue[0]] + Path(s');
    assert Bits(Path(s)) == [s.queue[0].seqNum] + Bits(Path(s'));
  }

  lemma TailShape(first: bv8, path: seq<bv8>, b: bv8)
    requires EndsIn([first] + path, b)
    ensures EndsIn(path, b)
    ensures first == b ==> All(path, b)
    ensures All([first] + path, b) ==> first == b
  {
    var p := [first] + path;
    assert forall j :: 0 <= j < |path| ==> path[j] == p[j + 1];
    assert p[0] == first;
  }

  lemma AppendShape(acks: seq<bv8>, ack: bv8, b: bv8)
    requires EndsIn(acks, b)
    ensures ack == b ==> EndsIn(acks + [ack], b)
    ensures Lacks(acks, b) && ack != b ==> Lacks(acks + [ack], b) && EndsIn(acks + [ack], b)
    ensures All(acks, b) && ack == b ==> All(acks + [ack], b)
  {
  }

  lemma AcceptInv(s: Link)
    requires Inv(s) && Enabled(s, Accept)
    ensures Inv(Apply(s, Accept))
  {
    var s' := Apply(s, Accept);
    var f, b := s.queue[0], s.sender.currSeq;
    AcceptPath(s);
    FlipBit(Phase(s));
    TailShape(f.seqNum, Bits(Path(s')), b);
    AppendShape(s.acks, Receive(s.expected, f.seqNum, f.data).ack, b);
    hide EndsIn, All, Lacks, Bits, Path, Bit, Flip;
    if |s.delivered| == Phase(s) && f.seqNum == s.expected {
      assert History(s') && Current(s') && Calling(s') && Fired(s');
    } else {
      assert History(s') && Current(s') && Calling(s') && Fired(s');
    }
  }

  lemma RemoveShape(s: seq<bv8>, i: nat, b: bv8)
    requires i < |s|
    ensures EndsIn(s, b) ==> EndsIn(Remove(s, i), b)
    ensures All(s, b) ==> All(Remove(s, i), b)
    ensures Lacks(s, b) ==> Lacks(Remove(s, i), b)
  {
    var r := Remove(s, i);
    assert forall j :: 0 <= j < |r| ==> r[j] == s[if j < i then j else j + 1];
  }

  lemma RepeatShape(s: seq<bv8>, i: nat, b: bv8)
    requires i < |s|
    ensures EndsIn(s, b) ==> EndsIn(Repeat(s, i), b)
    ensures All(s, b) ==> All(Repeat(s, i), b)
    ensures Lacks(s, b) ==> Lacks(Repeat(s, i), b)
  {
    var r := Repeat(s, i);
    assert forall j :: 0 <= j < |r| ==> r[j] == s[if j <= i then j else j - 1];
  }

  lemma LosePath(queue: seq<Frame>, chan: seq<Frame>, i: nat)
    requires i < |chan|
    ensures var j := |queue| + i;
            && queue + Remove(chan, i) == Remove(queue + chan, j)
            && Bits(queue + Remove(chan, i)) == Remove(Bits(queue + chan), j)
            && forall f :: f in queue + Remove(chan, i) ==> f in queue + chan
  {
    assert queue + Remove(chan, i) == Remove(queue + chan, |queue| + i);
  }

  lemma RepeatPath(queue: seq<Frame>, chan: seq<Frame>, i: nat)
    requires i < |chan|
    ensures var j := |queue| + i;
            && queue + Repeat(chan, i) == Repeat(queue + chan, j)
            && Bits(queue + Repeat(chan, i)) == Repeat(Bits(queue + chan), j)
            && forall f :: f in queue + Repeat(chan, i) ==> f in queue + chan
  {
    assert queue + Repeat(chan, i) == Repeat(queue + chan, |queue| + i);
  }

  /** A step that only changes the data on the way, and only by losing or repeating, keeps the invariant. */
  lemma ThinnedInv(s: Link, s': Link)
    requires Inv(s) && s' == s.(chan := s'.chan)
    requires forall f :: f in Path(s') ==> f in Path(s)
    requires Shape(Bits(Path(s')), s.acks, s.sender.currSeq, |s.delivered| == Phase(s) + 1)
    ensures Inv(s')
  {
    hide Shape, Bits, Path;
    assert History(s') && Current(s') && Calling(s') && Fired(s');
  }

  lemma LoseDataInv(s: Link, i: nat)
    requires Inv(s) && Enabled(s, LoseData(i))
    ensures Inv(Apply(s, LoseData(i)))
  {
    hide Bits, Remove, EndsIn, All, Lacks, History, Current, Calling, Fired;
    var s' := Apply(s, LoseData(i));
    LosePath(s.queue, s.chan, i);
    RemoveShape(Bits(Path(s)), |s.queue| + i, s.sender.currSeq);
    ThinnedInv(s, s');
  }

  lemma RepeatDataInv(s: Link, i: nat)
    requires Inv(s) && Enabled(s, RepeatData(i))
    ensures Inv(Apply(s, RepeatData(i)))
  {
    hide Bits, Repeat, EndsIn, All, Lacks, History, Current, Calling, Fired;
    var s' := Apply(s, RepeatData(i));
    RepeatPath(s.queue, s.chan, i);
    RepeatShape(Bits(Path(s)), |s.queue| + i, s.sender.currSeq);
    ThinnedInv(s, s');
  }

  lemma AckNetworkInv(s: Link, t: Step)
    requires Inv(s) && Enabled(s, t) && (t.LoseAck? || t.RepeatAck?)
    ensures Inv(Apply(s, t))
  {
    var s' := Apply(s, t);
    assert Path(s') == Path(s);
    if t.LoseAck? {
      RemoveShape(s.acks, t.i, s.sender.currSeq);
    } else {
      RepeatShape(s.acks, t.i, s.sender.currSeq);
    }
    hide EndsIn, All, Lacks, Remove, Repeat;
    assert Current(s') && Calling(s');
  }

  /** Every step of the protocol keeps the invariant. */
  lemma StepInv(s: Link, t: Step)
    requires Inv(s) && Enabled(s, t)
    ensures Inv(Apply(s, t))
  {
    match t
    case Transmit => TransmitInv(s);
    case Wake => WakeInv(s);
    case Enqueue => EnqueueInv(s);
    case Acknowledge => AcknowledgeInv(s);
    case Accept => AcceptInv(s);
    case LoseData(i) => LoseDataInv(s, i);
    case RepeatData(i) => RepeatDataInv(s, i);
    case LoseAck(_) => AckNetworkInv(s, t);
    case RepeatAck(_) => AckNetworkInv(s, t);
    case _ => SenderStepInv(s, t);
  }

  lemma {:induction false} RunInv(s: Link, steps: seq<Step>, t: Link)
    requires Inv(s) && Runs(s, steps, t)
    ensures Inv(t)
    decreases |steps|
  {
    if steps != [] {
      StepInv(s, steps[0]);
      RunInv(Apply(s, steps[0]), steps[1..], t);
    }
  }

  lemma ReachableInv(s: Link)
    requires Reachable(s)
    ensures Inv(s)
  {
    var steps :| Runs(INIT, steps, s);
    InitInv();
    RunInv(INIT, steps, s);
  }
}
