/** The sending half of a server: one RDT sender for each client it talks to, dropped together with the receiver's bit
    when the client says QUIT. */
module Outbox {
  import opened Sequences
  import RdtSteps

  type Addr = RdtSteps.Addr

  /** Every reply handed to a sender, in order; the clients a sender is kept for; and the bits the receiver expects. */
  datatype Posted<R> = Posted(sent: seq<(Addr, R)>, senders: set<Addr>, expected: map<Addr, bv8>)

  /** A reply needs a sender, which is made if there is none; after the last reply of a session there is none. */
  function Post<R>(p: Posted<R>, addr: Addr, r: R, last: bool): Posted<R> {
    var sent := p.sent + [(addr, r)];
    if last then Posted(sent, p.senders - {addr}, p.expected - {addr}) else Posted(sent, p.senders + {addr}, p.expected)
  }

  function PostAll<R>(p: Posted<R>, addr: Addr, replies: seq<R>, isLast: R -> bool): Posted<R> {
    if replies == [] then p
    else
      var r := replies[|replies| - 1];
      Post(PostAll(p, addr, replies[..|replies| - 1], isLast), addr, r, isLast(r))
  }

  lemma PostOne<R>(p: Posted<R>, addr: Addr, r: R, isLast: R -> bool)
    ensures PostAll(p, addr, [r], isLast) == Post(p, addr, r, isLast(r))
  {
    hide Post;
    assert [r][..0] == [];
  }

  lemma {:induction false} PostConcat<R>(p: Posted<R>, addr: Addr, a: seq<R>, b: seq<R>, isLast: R -> bool)
    ensures PostAll(p, addr, a + b, isLast) == PostAll(PostAll(p, addr, a, isLast), addr, b, isLast)
    decreases |b|
  {
    hide Post;
    if b == [] {
      assert a + b == a;
    } else {
      var k := |b| - 1;
      PostConcat(p, addr, a, b[..k], isLast);
      assert (a + b)[..|a + b| - 1] == a + b[..k] && (a + b)[|a + b| - 1] == b[k];
    }
  }

  /** The replies are sent in order, and to this client alone. */
  lemma {:induction false} PostedInOrder<R>(p: Posted<R>, addr: Addr, replies: seq<R>, isLast: R -> bool)
    ensures PostAll(p, addr, replies, isLast).sent == p.sent + To(addr, replies)
    decreases |replies|
  {
    hide To;
    if replies == [] {
      ToNobody<Addr, R>(addr);
    } else {
      var k := |replies| - 1;
      PostedInOrder(p, addr, replies[..k], isLast);
      ToConcat(addr, replies[..k], [replies[k]]);
      ToOne(addr, replies[k]);
      assert replies == replies[..k] + [replies[k]];
    }
  }

  /** No other client's sender or bit changes; this client keeps a sender unless the reply is a last one, and its bit
      is forgotten exactly if one of them was. */
  lemma {:induction false} PostedFor<R>(p: Posted<R>, addr: Addr, replies: seq<R>, isLast: R -> bool)
    ensures var q := PostAll(p, addr, replies, isLast);
            && q.senders - {addr} == p.senders - {addr}
            && (replies != [] ==> (addr in q.senders <==> !isLast(replies[|replies| - 1])))
            && q.expected == (if forall r :: r in replies ==> !isLast(r) then p.expected else p.expected - {addr})
    decreases |replies|
  {
    if replies != [] {
      var k := |replies| - 1;
      PostedFor(p, addr, replies[..k], isLast);
      assert replies == replies[..k] + [replies[k]];
    }
  }

  /** Nothing but this client's entry differs. */
  ghost predicate SameBut<T>(before: map<Addr, T>, after: map<Addr, T>, addr: Addr) {
    forall a :: a != addr ==> (a in after <==> a in before) && (a in before && a in after ==> after[a] == before[a])
  }

  lemma SameButTwice<T>(before: map<Addr, T>, between: map<Addr, T>, after: map<Addr, T>, addr: Addr)
    requires SameBut(before, between, addr) && SameBut(between, after, addr)
    ensures SameBut(before, after, addr)
  {
  }
}
