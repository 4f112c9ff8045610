/** The wire format of rdt_packet.py: sequence number (1 byte), type (1 byte), CRC-32 (4 bytes, big-endian), payload. */
module RdtPacket {
  import opened Wrappers
  import opened Crc32

  const TYPE_DATA: bv8 := 0
  const TYPE_ACK: bv8 := 1
  const HEADER_SIZE := 6

  datatype Packet = Packet(isAck: bool, seqNum: bv8, data: Bytes, checksum: bv32)

  function PackChecksum(c: bv32): Bytes {
    [((c >> 24) & 0xFF) as bv8, ((c >> 16) & 0xFF) as bv8, ((c >> 8) & 0xFF) as bv8, (c & 0xFF) as bv8]
  }

  function UnpackChecksum(b0: bv8, b1: bv8, b2: bv8, b3: bv8): bv32 {
    ((b0 as bv32) << 24) | ((b1 as bv32) << 16) | ((b2 as bv32) << 8) | (b3 as bv32)
  }

  function Header(seqNum: bv8, pktType: bv8, checksum: bv32): Bytes {
    [seqNum, pktType] + PackChecksum(checksum)
  }

  function MakePacket(seqNum: bv8, isAck: bool, payload: Bytes): Bytes {
    var pktType := if isAck then TYPE_ACK else TYPE_DATA;
    var checksum := Crc(Header(seqNum, pktType, 0) + payload);
    Header(seqNum, pktType, checksum) + payload
  }

  function MakeDataPacket(seqNum: bv8, data: Bytes): Bytes {
    MakePacket(seqNum, false, data)
  }

  function MakeAckPacket(seqNum: bv8): Bytes {
    MakePacket(seqNum, true, [])
  }

  function ReceivedChecksum(p: Bytes): bv32
    requires |p| >= HEADER_SIZE
  {
    UnpackChecksum(p[2], p[3], p[4], p[5])
  }

  /** The bytes the checksum is computed over: the packet with its checksum field zeroed. */
  function Cleaned(p: Bytes): Bytes
    requires |p| >= HEADER_SIZE
  {
    Header(p[0], p[1], 0) + p[HEADER_SIZE..]
  }

  function Unpack(p: Bytes): Option<Packet> {
    if |p| < HEADER_SIZE then None
    else if ReceivedChecksum(p) != Crc(Cleaned(p)) then None
    else Some(Packet(p[1] == TYPE_ACK, p[0], p[HEADER_SIZE..], ReceivedChecksum(p)))
  }

  // ---------------------------------------------------------------- round trips

  /** What make_packet builds, unpack_and_validate takes apart again, for every field value and payload. */
  lemma RoundTrip(seqNum: bv8, isAck: bool, payload: Bytes)
    ensures var p := MakePacket(seqNum, isAck, payload);
            Unpack(p).Some?
            && Unpack(p).value.isAck == isAck
            && Unpack(p).value.seqNum == seqNum
            && Unpack(p).value.data == payload
  {
  }

  /** Conversely, an accepted byte string is what make_packet builds from its parsed fields exactly when its type
      byte is one of the two the sender uses; any other type byte is read as data. */
  lemma AcceptedIsMade(p: Bytes)
    requires Unpack(p).Some?
    ensures var k := Unpack(p).value;
            p == MakePacket(k.seqNum, k.isAck, k.data) <==> p[1] == TYPE_DATA || p[1] == TYPE_ACK
  {
  }

  /** On the wire: the number, 0 for data and 1 for an ACK, the checksum with its high byte first, and the payload; the
      checksum is that of the same bytes with zeros in its place. */
  lemma Layout(seqNum: bv8, isAck: bool, payload: Bytes)
    ensures var p := MakePacket(seqNum, isAck, payload);
            var t: bv8 := if isAck then 1 else 0;
            var c := LowFirst(Crc([seqNum, t, 0, 0, 0, 0] + payload));
            |c| == 4 && p == [seqNum, t, c[3], c[2], c[1], c[0]] + payload
  {
    hide Crc;
    assert Header(seqNum, if isAck then 1 else 0, 0) == [seqNum, if isAck then 1 else 0, 0, 0, 0, 0];
    assert MakeDataPacket(seqNum, payload) == MakePacket(seqNum, false, payload);
  }

  /** The packet with number 0 and no payload. */
  lemma EmptyPacket()
    ensures MakeDataPacket(0, []) == [0, 0, 0xB1, 0xC2, 0xA1, 0xA3]
  {
    hide Crc;
    Layout(0, false, []);
    CheckValues();
    var zeros: Bytes := [0, 0, 0, 0, 0, 0];
    assert zeros + [] == zeros;
    assert LowFirst(0xB1C2_A1A3) == [0xA3, 0xA1, 0xC2, 0xB1];
  }

  // ---------------------------------------------------------------- damage

  /** q is p with one error burst: bytes changed within four consecutive places, all of them in the sequence and
      type bytes, all in the checksum field, or all in the payload. */
  ghost predicate Burst(p: Bytes, q: Bytes) {
    && |q| == |p| && q != p
    && exists k: nat :: BurstAt(p, q, k)
  }

  ghost predicate BurstAt(p: Bytes, q: Bytes, k: nat) {
    && AgreeOutside(p, q, k)
    && (|p| >= HEADER_SIZE ==>
          || p[2..] == q[2..]
          || (p[..2] == q[..2] && p[6..] == q[6..])
          || p[..6] == q[..6])
  }

  /** No packet survives a burst: what arrives is rejected. */
  lemma BurstDetected(p: Bytes, q: Bytes)
    requires Unpack(p).Some? && Burst(p, q)
    ensures Unpack(q) == None
  {
    var k: nat :| BurstAt(p, q, k);
    if p[..2] == q[..2] && p[6..] == q[6..] {
      ChecksumFieldDamage(p, q);
    } else if p[2..] == q[2..] {
      HeaderDamage(p, q);
    } else {
      PayloadDamage(p, q, k);
    }
  }

  lemma ChecksumFieldDamage(p: Bytes, q: Bytes)
    requires |p| == |q| >= HEADER_SIZE && p != q && Unpack(p).Some?
    requires p[..2] == q[..2] && p[6..] == q[6..]
    ensures Unpack(q) == None
  {
  }

  lemma CleanedLayout(p: Bytes)
    requires |p| >= HEADER_SIZE
    ensures |Cleaned(p)| == |p|
    ensures Cleaned(p)[..6] == Header(p[0], p[1], 0) && Cleaned(p)[6..] == p[6..]
    ensures Cleaned(p)[0] == p[0] && Cleaned(p)[1] == p[1]
  {
  }

  lemma HeaderDamage(p: Bytes, q: Bytes)
    requires |p| == |q| >= HEADER_SIZE && p != q && Unpack(p).Some?
    requires p[2..] == q[2..]
    ensures Unpack(q) == None
  {
    hide Crc, PackChecksum, UnpackChecksum, Cleaned, Header;
    CleanedLayout(p);
    CleanedLayout(q);
    var x, y := Cleaned(p), Cleaned(q);
    assert forall i :: 2 <= i < |p| ==> p[i] == p[2..][i - 2] && q[i] == q[2..][i - 2];
    assert p[6..] == q[6..];
    assert forall i :: 6 <= i < |p| ==> x[i] == x[6..][i - 6] && y[i] == y[6..][i - 6];
    HeaderMiddle(p[0], p[1], q[0], q[1]);
    assert forall i :: 0 <= i < 6 ==> x[i] == x[..6][i] && y[i] == y[..6][i];
    BurstChangesCrc(x, y, 0);
  }

  lemma HeaderMiddle(a: bv8, b: bv8, c: bv8, d: bv8)
    ensures |Header(a, b, 0)| == |Header(c, d, 0)| == 6
    ensures forall i :: 2 <= i < 6 ==> Header(a, b, 0)[i] == Header(c, d, 0)[i]
  {
  }

  lemma PayloadDamage(p: Bytes, q: Bytes, k: nat)
    requires |p| == |q| >= HEADER_SIZE && p != q && Unpack(p).Some?
    requires AgreeOutside(p, q, k) && p[..6] == q[..6]
    ensures Unpack(q) == None
  {
    hide Crc, PackChecksum, UnpackChecksum, Cleaned, Header;
    assert forall i :: 0 <= i < 6 ==> p[i] == p[..6][i] && q[i] == q[..6][i];
    CleanedLayout(p);
    CleanedLayout(q);
    var x, y := Cleaned(p), Cleaned(q);
    assert forall i :: 6 <= i < |p| ==> x[i] == x[6..][i - 6] == p[6..][i - 6] == p[i];
    assert forall i :: 6 <= i < |p| ==> y[i] == y[6..][i - 6] == q[6..][i - 6] == q[i];
    assert forall i :: 0 <= i < 6 ==> x[i] == x[..6][i] && y[i] == y[..6][i];
    var i :| 0 <= i < |p| && p[i] != q[i];
    assert x[i] != y[i];
    BurstChangesCrc(x, y, k);
  }

  /** In particular, changing any single byte of any valid packet makes it invalid. */
  lemma SingleByteDetected(p: Bytes, i: nat, b: bv8)
    requires Unpack(p).Some? && i < |p| && b != p[i]
    ensures Unpack(p[i := b]) == None
  {
    hide Crc, PackChecksum, UnpackChecksum;
    var q := p[i := b];
    assert q[i] != p[i];
    assert i < 2 ==> p[2..] == q[2..];
    assert 2 <= i < 6 ==> p[..2] == q[..2] && p[6..] == q[6..];
    assert 6 <= i ==> p[..6] == q[..6];
    assert BurstAt(p, q, i);
    BurstDetected(p, q);
  }

  // ---------------------------------------------------------------- damage of any kind

  /** Damage of any kind goes unnoticed if and only if the change to the checksum field is the residue of the change to
      the rest; that depends on what is changed, and not on the packet it is changed in. */
  lemma UnnoticedIff(p: Bytes, q: Bytes)
    requires Unpack(p).Some? && |q| == |p|
    ensures Unpack(q).Some?
       <==> Xor(ReceivedChecksum(p), ReceivedChecksum(q)) == Residue(Difference(Cleaned(p), Cleaned(q)))
  {
    hide Crc, Cleaned, Header, UnpackChecksum, Residue, Xor;
    CleanedLength(p);
    CleanedLength(q);
    CrcOfDifference(Cleaned(p), Cleaned(q));
    if Xor(ReceivedChecksum(p), ReceivedChecksum(q)) == Xor(Crc(Cleaned(p)), Crc(Cleaned(q))) {
      XorCancels(ReceivedChecksum(p), ReceivedChecksum(q), Crc(Cleaned(q)));
    }
  }

  lemma CleanedLength(p: Bytes)
    requires |p| >= HEADER_SIZE
    ensures |Cleaned(p)| == |p|
  {
  }

  /** Four bytes that change across the end of the checksum field, in any packet with four bytes of payload. */
  function AcrossTheField(p: Bytes): Bytes
    requires |p| == 10
  {
    p[5 := p[5] ^ 0x05][6 := p[6] ^ 0xC7][7 := p[7] ^ 0x13][8 := p[8] ^ 0x57]
  }

  lemma StepsOfBytes()
    ensures ByteStep(0, 0) == 0 && ByteStep(0, 0xC7) == 0x0500_5713 && ByteStep(0x0500_5713, 0x13) == 0x0005_0057
    ensures ByteStep(0x0005_0057, 0x57) == 0x0000_0500 && ByteStep(0x0000_0500, 0) == 5
  {
  }

  lemma {:induction false} ZerosStay(n: nat)
    ensures Residue(Zeros(n)) == 0
  {
    hide ByteStep;
    if n > 0 {
      StepsOfBytes();
      assert Zeros(n)[1..] == Zeros(n - 1);
      ZerosStay(n - 1);
    }
  }

  lemma ResidueIsFive()
    ensures Residue(Zeros(6) + [0xC7, 0x13, 0x57, 0]) == 5
  {
    hide ByteStep, Update;
    StepsOfBytes();
    ZerosStay(6);
    UpdateConcat(0, Zeros(6), [0xC7, 0x13, 0x57, 0]);
    FourUpdates(0, 0xC7, 0x13, 0x57, 0);
  }

  lemma XorBack(b: bv8, m: bv8)
    ensures b ^ (b ^ m) == m && b ^ b == 0 && (m != 0 ==> b ^ m != b)
  {
  }

  lemma LastByteChanges(b0: bv8, b1: bv8, b2: bv8, b3: bv8)
    ensures Xor(UnpackChecksum(b0, b1, b2, b3), UnpackChecksum(b0, b1, b2, b3 ^ 0x05)) == 5
  {
  }

  lemma ChangeAcross(p: Bytes)
    requires |p| == 10
    ensures |Cleaned(p)| == |Cleaned(AcrossTheField(p))| == 10
    ensures Difference(Cleaned(p), Cleaned(AcrossTheField(p))) == Zeros(6) + [0xC7, 0x13, 0x57, 0]
  {
    hide PackChecksum;
    CleanedLayout(p);
    CleanedLayout(AcrossTheField(p));
    var x, y := Cleaned(p), Cleaned(AcrossTheField(p));
    hide Cleaned, Header;
    forall i | 0 <= i < 10 ensures x[i] ^ y[i] == (Zeros(6) + [0xC7, 0x13, 0x57, 0])[i] {
      if i < 6 {
        assert x[i] == x[..6][i] && y[i] == y[..6][i];
        XorBack(x[i], 0);
      } else {
        assert x[i] == x[6..][i - 6] && y[i] == y[6..][i - 6];
        XorBack(p[i], if i == 6 then 0xC7 else if i == 7 then 0x13 else if i == 8 then 0x57 else 0);
      }
    }
  }

  /** They go unnoticed: a burst of four bytes that crosses from one part of the packet into another need not be
      detected. */
  lemma UnnoticedAcross(p: Bytes)
    requires |p| == 10 && Unpack(p).Some?
    ensures AgreeOutside(p, AcrossTheField(p), 5) && AcrossTheField(p) != p && Unpack(AcrossTheField(p)).Some?
  {
    hide Unpack, Cleaned, UnpackChecksum, Residue, Xor;
    XorBack(p[5], 0x05);
    assert AcrossTheField(p)[5] == p[5] ^ 0x05;
    ChangeAcross(p);
    ResidueIsFive();
    LastByteChanges(p[2], p[3], p[4], p[5]);
    UnnoticedIff(p, AcrossTheField(p));
  }
}
