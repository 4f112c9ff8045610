/** The steps of one RDT sender and one RDT receiver as functions.  The classes of rdt_sender.py and rdt_receiver.py
    are proved against them, and the protocol models run them in every interleaving. */
module RdtSteps {
  import opened Wrappers
  import opened Crc32
  import opened RdtPacket

  datatype Addr = Addr(host: string, port: nat)

  const MAX_RETRIES := 5

  /** 1 - b, for a sequence number b that is 0 or 1. */
  function Flip(b: bv8): bv8 {
    1 - b
  }

  /** The sequence number of phase n: phases alternate 0, 1, 0, ... */
  function Bit(n: nat): bv8 {
    if n % 2 == 0 then 0 else 1
  }

  lemma FlipBit(n: nat)
    ensures Flip(Bit(n)) == Bit(n + 1) && Flip(Bit(n + 1)) == Bit(n) && Bit(n) != Bit(n + 1)
  {
  }

  // ---------------------------------------------------------------- sender

  /** Where a call of send stands.  seqUsed and ev are the sequence number and the event of the attempt. */
  datatype Pc =
    | Idle
    | Ready(data: Bytes, attempts: nat)
    | Registered(data: Bytes, attempts: nat, seqUsed: bv8, ev: nat)
    | Waiting(data: Bytes, attempts: nat, seqUsed: bv8, ev: nat)
    | Finishing(data: Bytes, attempts: nat, seqUsed: bv8, ev: nat, ok: bool)
  {
    predicate HasEvent() {
      Registered? || Waiting? || Finishing?
    }
  }

  datatype Sender = Sender(currSeq: bv8, pc: Pc)
  {
    function Start(data: Bytes): Sender {
      this.(pc := Ready(data, 0))
    }

    function Register(ev: nat): Sender
      requires pc.Ready?
    {
      this.(pc := Registered(pc.data, pc.attempts, currSeq, ev))
    }

    function Transmit(): Sender
      requires pc.Registered?
    {
      this.(pc := Waiting(pc.data, pc.attempts, pc.seqUsed, pc.ev))
    }

    /** The event was set in time: the sequence number toggles. */
    function Wake(): Sender
      requires pc.Waiting?
    {
      Sender(Flip(currSeq), Finishing(pc.data, pc.attempts, pc.seqUsed, pc.ev, true))
    }

    function TimeOut(): Sender
      requires pc.Waiting?
    {
      this.(pc := Finishing(pc.data, pc.attempts + 1, pc.seqUsed, pc.ev, false))
    }

    /** The finally block of an attempt; a successful attempt returns True, another one loops. */
    function Unregister(): Sender
      requires pc.Finishing?
    {
      this.(pc := if pc.ok then Idle else Ready(pc.data, pc.attempts))
    }

    /** Out of attempts: ConnectionError is raised and the sequence number stays. */
    function Fail(): Sender {
      this.(pc := Idle)
    }

    predicate CanRegister() {
      pc.Ready? && pc.attempts < MAX_RETRIES
    }

    predicate CanFail() {
      pc.Ready? && pc.attempts >= MAX_RETRIES
    }
  }

  const FRESH_SENDER := Sender(0, Idle)

  // ---------------------------------------------------------------- receiver

  function Expected(expected: map<Addr, bv8>, a: Addr): bv8 {
    if a in expected then expected[a] else 0
  }

  /** What the receiver does with one packet: the ACK it sends, what it yields, the bit it expects next. */
  datatype Reception = Reception(ack: bv8, yielded: Option<Bytes>, next: bv8)

  function Receive(expected: bv8, seqNum: bv8, data: Bytes): Reception {
    if seqNum != expected then Reception(Flip(expected), None, expected)
    else Reception(expected, Some(data), Flip(expected))
  }
}
