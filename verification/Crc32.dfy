/** The CRC-32 of section 8 of RFC 1952 (reflected polynomial, all-ones start and final complement),
    computed one bit at a time.  zlib.crc32 computes the same function from a table. */
module Crc32 {

  type Bytes = seq<bv8>

  /** One shift of the register; the polynomial is added when the bit shifted out is set. */
  function BitStep(c: bv32): bv32 {
    if c & 1 == 1 then (c >> 1) ^ 0xEDB8_8320 else c >> 1
  }

  function BitSteps(c: bv32, n: nat): bv32
    decreases n
  {
    if n == 0 then c else BitSteps(BitStep(c), n - 1)
  }

  function ByteStep(c: bv32, b: bv8): bv32 {
    BitSteps(c ^ (b as bv32), 8)
  }

  /** The register after the bytes of data, from register value c. */
  function Update(c: bv32, data: Bytes): bv32
    decreases data
  {
    if data == [] then c else Update(ByteStep(c, data[0]), data[1..])
  }

  function Crc(data: Bytes): bv32 {
    Update(0xFFFF_FFFF, data) ^ 0xFFFF_FFFF
  }

  // ---------------------------------------------------------------- the register step is a bijection

  lemma BitStepInjective(c: bv32, d: bv32)
    requires BitStep(c) == BitStep(d)
    ensures c == d
  {
    // The polynomial has its top bit set, so the top bit of the result tells which branch was taken.
    assert (c >> 1) & 0x8000_0000 == 0 && (d >> 1) & 0x8000_0000 == 0;
  }

  lemma {:induction false} BitStepsInjective(c: bv32, d: bv32, n: nat)
    requires BitSteps(c, n) == BitSteps(d, n)
    ensures c == d
    decreases n
  {
    if n > 0 {
      BitStepsInjective(BitStep(c), BitStep(d), n - 1);
      BitStepInjective(c, d);
    }
  }

  lemma {:induction false} BitStepsAdd(c: bv32, m: nat, n: nat)
    ensures BitSteps(BitSteps(c, m), n) == BitSteps(c, m + n)
    decreases m
  {
    if m > 0 {
      BitStepsAdd(BitStep(c), m - 1, n);
    }
  }

  lemma ByteStepInjective(c: bv32, d: bv32, b: bv8)
    requires ByteStep(c, b) == ByteStep(d, b)
    ensures c == d
  {
    BitStepsInjective(c ^ (b as bv32), d ^ (b as bv32), 8);
    assert c == (c ^ (b as bv32)) ^ (b as bv32);
    assert d == (d ^ (b as bv32)) ^ (b as bv32);
  }

  /** Two registers that differ still differ after any common run of bytes. */
  lemma {:induction false} UpdateInjective(c: bv32, d: bv32, data: Bytes)
    requires Update(c, data) == Update(d, data)
    ensures c == d
    decreases data
  {
    if data != [] {
      UpdateInjective(ByteStep(c, data[0]), ByteStep(d, data[0]), data[1..]);
      ByteStepInjective(c, d, data[0]);
    }
  }

  lemma {:induction false} UpdateConcat(c: bv32, a: Bytes, b: Bytes)
    ensures Update(c, a + b) == Update(Update(c, a), b)
    decreases a
  {
    if a == [] {
      assert a + b == b;
    } else {
      assert (a + b)[1..] == a[1..] + b;
      UpdateConcat(ByteStep(c, a[0]), a[1..], b);
    }
  }

  // ---------------------------------------------------------------- four bytes at once

  // Names for the word operations, so that the proofs below can hide them and argue by the lemmas about them.

  function Xor(a: bv32, b: bv32): bv32 {
    a ^ b
  }

  function Twice(d: bv32): bv32 {
    d << 1
  }

  predicate TopClear(d: bv32) {
    d & 0x8000_0000 == 0
  }

  function Wide(b: bv8): bv32 {
    b as bv32
  }

  function Shl(d: bv32, n: nat): bv32
    decreases n
  {
    if n == 0 then d else Shl(Twice(d), n - 1)
  }

  /** Shifting d left n times loses no bit. */
  predicate Fits(d: bv32, n: nat)
    decreases n
  {
    n == 0 || (TopClear(d) && Fits(Twice(d), n - 1))
  }

  lemma {:induction false} ShlLast(d: bv32, n: nat)
    requires n > 0 && Fits(d, n)
    ensures Shl(d, n) == Twice(Shl(d, n - 1)) && TopClear(Shl(d, n - 1)) && Fits(d, n - 1)
    decreases n
  {
    hide Twice, TopClear;
    if n > 1 {
      ShlLast(Twice(d), n - 1);
    }
  }

  lemma XorShift(c: bv32, d: bv32)
    ensures (c ^ d) >> 1 == (c >> 1) ^ (d >> 1)
  {
  }

  lemma XorLowBit(c: bv32, d: bv32)
    ensures (c ^ d) & 1 == (c & 1) ^ (d & 1)
  {
  }

  lemma LowBit(c: bv32)
    ensures c & 1 == 0 || c & 1 == 1
  {
  }

  lemma XorMask(c: bv32, d: bv32, m: bv32)
    ensures (c ^ m) ^ (d ^ m) == c ^ d && (c ^ m) ^ d == (c ^ d) ^ m && c ^ (d ^ m) == (c ^ d) ^ m
  {
  }

  lemma ShiftBack(d: bv32)
    requires TopClear(d)
    ensures Twice(d) >> 1 == d && Twice(d) & 1 == 0
  {
  }

  /** Registers can be added before a step or after it. */
  lemma BitStepAdds(c: bv32, d: bv32)
    ensures BitStep(Xor(c, d)) == Xor(BitStep(c), BitStep(d))
  {
    XorShift(c, d);
    XorLowBit(c, d);
    LowBit(c);
    LowBit(d);
    XorMask(c >> 1, d >> 1, 0xEDB8_8320);
  }

  /** Bits that are not shifted out can be added before the step or after it. */
  lemma BitStepLinear(c: bv32, d: bv32)
    requires TopClear(d)
    ensures BitStep(Xor(c, Twice(d))) == Xor(BitStep(c), d)
  {
    ShiftBack(d);
    assert BitStep(Twice(d)) == d;
    BitStepAdds(c, Twice(d));
  }

  lemma {:induction false} BitStepsLinear(c: bv32, d: bv32, n: nat)
    requires Fits(d, n)
    ensures BitSteps(Xor(c, Shl(d, n)), n) == Xor(BitSteps(c, n), d)
    decreases n
  {
    hide BitStep, Xor, Twice, TopClear;
    if n > 0 {
      ShlLast(d, n);
      BitStepLinear(c, Shl(d, n - 1));
      BitStepsLinear(BitStep(c), d, n - 1);
    }
  }

  lemma EightFit(d: bv32)
    requires d & 0xFF00_0000 == 0
    ensures Fits(d, 8) && Shl(d, 8) == d << 8
  {
    TopsClear(d);
    Doubles(d);
    hide Twice, TopClear;
    assert Fits(d << 6, 2) && Shl(d << 6, 2) == d << 8;
    assert Fits(d << 4, 4) && Shl(d << 4, 4) == d << 8;
    assert Fits(d << 2, 6) && Shl(d << 2, 6) == d << 8;
  }

  lemma TopsClear(d: bv32)
    requires d & 0xFF00_0000 == 0
    ensures TopClear(d) && TopClear(d << 1) && TopClear(d << 2) && TopClear(d << 3)
    ensures TopClear(d << 4) && TopClear(d << 5) && TopClear(d << 6) && TopClear(d << 7)
  {
  }

  lemma Doubles(d: bv32)
    ensures Twice(d) == d << 1 && Twice(d << 1) == d << 2 && Twice(d << 2) == d << 3 && Twice(d << 3) == d << 4
    ensures Twice(d << 4) == d << 5 && Twice(d << 5) == d << 6 && Twice(d << 6) == d << 7 && Twice(d << 7) == d << 8
  {
  }

  /** The bytes that follow a byte of a word, moved to their place in the word. */
  function Byte8(w: bv32): bv32 {
    w << 8
  }

  predicate ThreeBytes(w: bv32) {
    w & 0xFF00_0000 == 0
  }

  function Word(a: bv8, b: bv8, c: bv8, d: bv8): bv32 {
    Xor(Wide(a), Byte8(Xor(Wide(b), Byte8(Xor(Wide(c), Byte8(Wide(d)))))))
  }

  lemma XorAssociates(a: bv32, b: bv32, c: bv32)
    ensures Xor(a, Xor(b, c)) == Xor(Xor(a, b), c)
  {
  }

  /** The first byte b of the word b, w: eight shifts use it up and leave w to be added. */
  lemma TakeByte(r: bv32, b: bv8, w: bv32, n: nat)
    requires n >= 8 && ThreeBytes(w)
    ensures BitSteps(Xor(r, Xor(Wide(b), Byte8(w))), n) == BitSteps(Xor(ByteStep(r, b), w), n - 8)
  {
    EightFit(w);
    ByteStepXor(r, b);
    XorAssociates(r, Wide(b), Byte8(w));
    assert Shl(w, 8) == Byte8(w);
    hide Xor, Byte8, Wide, ByteStep, BitSteps, Shl, Fits, ThreeBytes;
    BitStepsLinear(Xor(r, Wide(b)), w, 8);
    BitStepsAdd(Xor(r, Xor(Wide(b), Byte8(w))), 8, n - 8);
  }

  lemma ByteStepXor(r: bv32, b: bv8)
    ensures ByteStep(r, b) == BitSteps(Xor(r, Wide(b)), 8)
  {
    hide BitSteps;
  }

  lemma SmallWords(b: bv8, c: bv8, d: bv8)
    ensures ThreeBytes(Wide(d)) && ThreeBytes(Xor(Wide(c), Byte8(Wide(d))))
    ensures ThreeBytes(Xor(Wide(b), Byte8(Xor(Wide(c), Byte8(Wide(d))))))
  {
  }

  /** Feeding four bytes is thirty-two shifts of the register with all four added at once. */
  lemma FourBytes(r: bv32, a: bv8, b: bv8, c: bv8, d: bv8)
    ensures Update(r, [a, b, c, d]) == BitSteps(Xor(r, Word(a, b, c, d)), 32)
  {
    hide Xor, Wide, Byte8, ThreeBytes, BitSteps, ByteStep, Update;
    SmallWords(b, c, d);
    var w3 := Wide(d);
    var w2 := Xor(Wide(c), Byte8(w3));
    var w1 := Xor(Wide(b), Byte8(w2));
    var r1 := ByteStep(r, a);
    var r2 := ByteStep(r1, b);
    var r3 := ByteStep(r2, c);
    TakeByte(r, a, w1, 32);
    TakeByte(r1, b, w2, 24);
    TakeByte(r2, c, w3, 16);
    ByteStepXor(r3, d);
    FourUpdates(r, a, b, c, d);
  }

  lemma FourUpdates(r: bv32, a: bv8, b: bv8, c: bv8, d: bv8)
    ensures Update(r, [a, b, c, d]) == ByteStep(ByteStep(ByteStep(ByteStep(r, a), b), c), d)
  {
    hide ByteStep, BitSteps;
    var r1 := ByteStep(r, a);
    var r2 := ByteStep(r1, b);
    var r3 := ByteStep(r2, c);
    UpdateCons(r, a, [b, c, d]);
    UpdateCons(r1, b, [c, d]);
    UpdateCons(r2, c, [d]);
    UpdateCons(r3, d, []);
    assert [a] + [b, c, d] == [a, b, c, d] && [b] + [c, d] == [b, c, d] && [c] + [d] == [c, d] && [d] + [] == [d];
  }

  lemma UpdateCons(r: bv32, b: bv8, rest: Bytes)
    ensures Update(r, [b] + rest) == Update(ByteStep(r, b), rest)
  {
  }

  lemma WordInjective(a: bv8, b: bv8, c: bv8, d: bv8, a': bv8, b': bv8, c': bv8, d': bv8)
    requires Word(a, b, c, d) == Word(a', b', c', d')
    ensures a == a' && b == b' && c == c' && d == d'
  {
  }

  lemma XorCancels(r: bv32, u: bv32, v: bv32)
    requires Xor(r, u) == Xor(r, v)
    ensures u == v
  {
  }

  lemma FourBytesInjective(r: bv32, x: Bytes, y: Bytes)
    requires |x| == |y| == 4 && Update(r, x) == Update(r, y)
    ensures x == y
  {
    hide BitSteps, Update, Word, Xor;
    FourBytes(r, x[0], x[1], x[2], x[3]);
    FourBytes(r, y[0], y[1], y[2], y[3]);
    assert x == [x[0], x[1], x[2], x[3]] && y == [y[0], y[1], y[2], y[3]];
    var u, v := Word(x[0], x[1], x[2], x[3]), Word(y[0], y[1], y[2], y[3]);
    BitStepsInjective(Xor(r, u), Xor(r, v), 32);
    XorCancels(r, u, v);
    WordInjective(x[0], x[1], x[2], x[3], y[0], y[1], y[2], y[3]);
  }

  /** x and y have one length and agree outside the four places from k on. */
  ghost predicate AgreeOutside(x: Bytes, y: Bytes, k: nat) {
    && |x| == |y|
    && forall i :: 0 <= i < |x| && !(k <= i < k + 4) ==> x[i] == y[i]
  }

  lemma UpdateThree(r: bv32, a: Bytes, b: Bytes, c: Bytes)
    ensures Update(r, a + (b + c)) == Update(Update(Update(r, a), b), c)
  {
    UpdateConcat(r, a, b + c);
    UpdateConcat(Update(r, a), b, c);
  }

  lemma BurstChangesRegister(r: bv32, x: Bytes, y: Bytes, k: nat)
    requires k + 4 <= |x| && AgreeOutside(x, y, k) && x != y
    ensures Update(r, x) != Update(r, y)
  {
    hide Update;
    Cut(x, y, k);
    var a, b, c, b' := x[..k], x[k..k + 4], x[k + 4..], y[k..k + 4];
    UpdateThree(r, a, b, c);
    UpdateThree(r, a, b', c);
    hide AgreeOutside;
    var s := Update(r, a);
    if Update(r, x) == Update(r, y) {
      UpdateInjective(Update(s, b), Update(s, b'), c);
      FourBytesInjective(s, b, b');
      assert false;
    }
  }

  lemma Cut(x: Bytes, y: Bytes, k: nat)
    requires k + 4 <= |x| && AgreeOutside(x, y, k)
    ensures x == x[..k] + (x[k..k + 4] + x[k + 4..]) && y == x[..k] + (y[k..k + 4] + x[k + 4..])
  {
  }

  function Zeros(n: nat): Bytes {
    seq(n, _ => 0)
  }

  lemma AnyBurstChangesRegister(r: bv32, x: Bytes, y: Bytes, k: nat)
    requires AgreeOutside(x, y, k) && x != y
    ensures Update(r, x) != Update(r, y)
  {
    hide Update;
    if |x| >= 4 {
      BurstChangesRegister(r, x, y, if k + 4 <= |x| then k else |x| - 4);
    } else {
      var z := Zeros(4 - |x|);
      UpdateConcat(r, x, z);
      UpdateConcat(r, y, z);
      assert (x + z)[..|x|] == x && (y + z)[..|x|] == y;
      BurstChangesRegister(r, x + z, y + z, 0);
    }
  }

  /** A change confined to four consecutive bytes, of any pattern, changes the CRC. */
  lemma BurstChangesCrc(x: Bytes, y: Bytes, k: nat)
    requires AgreeOutside(x, y, k) && x != y
    ensures Crc(x) != Crc(y)
  {
    hide Update;
    var r := 0xFFFF_FFFF as bv32;
    AnyBurstChangesRegister(r, x, y, k);
    if Crc(x) == Crc(y) {
      XorCancels(r, Update(r, x), Update(r, y));
      assert false;
    }
  }

  // ---------------------------------------------------------------- the CRC of a difference

  /** What was changed, byte by byte. */
  function Difference(x: Bytes, y: Bytes): Bytes
    requires |x| == |y|
  {
    seq(|x|, i requires 0 <= i < |x| => x[i] ^ y[i])
  }

  /** The register after a difference, from an empty register. */
  function Residue(d: Bytes): bv32 {
    Update(0, d)
  }

  lemma {:induction false} BitStepsAdds(c: bv32, d: bv32, n: nat)
    ensures BitSteps(Xor(c, d), n) == Xor(BitSteps(c, n), BitSteps(d, n))
    decreases n
  {
    hide BitStep, Xor;
    if n > 0 {
      BitStepAdds(c, d);
      BitStepsAdds(BitStep(c), BitStep(d), n - 1);
    }
  }

  lemma XorsMix(c: bv32, d: bv32, a: bv8, b: bv8)
    ensures Xor(Xor(c, d), Wide(a ^ b)) == Xor(Xor(c, Wide(a)), Xor(d, Wide(b)))
  {
  }

  lemma ByteStepAdds(c: bv32, d: bv32, a: bv8, b: bv8)
    ensures ByteStep(Xor(c, d), a ^ b) == Xor(ByteStep(c, a), ByteStep(d, b))
  {
    ByteStepXor(Xor(c, d), a ^ b);
    ByteStepXor(c, a);
    ByteStepXor(d, b);
    XorsMix(c, d, a, b);
    hide Xor, Wide, ByteStep, BitSteps;
    BitStepsAdds(Xor(c, Wide(a)), Xor(d, Wide(b)), 8);
  }

  /** Registers and data may be added before the update or after it. */
  lemma {:induction false} UpdateAdds(c: bv32, d: bv32, x: Bytes, y: Bytes)
    requires |x| == |y|
    ensures Update(Xor(c, d), Difference(x, y)) == Xor(Update(c, x), Update(d, y))
    decreases |x|
  {
    hide Xor, ByteStep;
    if x != [] {
      ByteStepAdds(c, d, x[0], y[0]);
      assert Difference(x, y)[1..] == Difference(x[1..], y[1..]);
      UpdateAdds(ByteStep(c, x[0]), ByteStep(d, y[0]), x[1..], y[1..]);
    }
  }

  lemma MaskOut(c: bv32, d: bv32, m: bv32)
    ensures Xor(c ^ m, d ^ m) == Xor(c, d) && Xor(m, m) == 0
  {
    XorMask(c, d, m);
  }

  /** How the CRC changes depends on what is changed alone, not on what it is changed in. */
  lemma CrcOfDifference(x: Bytes, y: Bytes)
    requires |x| == |y|
    ensures Xor(Crc(x), Crc(y)) == Residue(Difference(x, y))
  {
    hide Update, Xor;
    var r := 0xFFFF_FFFF as bv32;
    MaskOut(Update(r, x), Update(r, y), r);
    UpdateAdds(r, r, x, y);
  }

  // ---------------------------------------------------------------- the function itself

  /** A number as four bytes, low byte first. */
  function LowFirst(w: bv32): Bytes {
    [(w & 0xFF) as bv8, ((w >> 8) & 0xFF) as bv8, ((w >> 16) & 0xFF) as bv8, ((w >> 24) & 0xFF) as bv8]
  }

  lemma WordOfBytes(w: bv32)
    ensures var b := LowFirst(w); Word(b[0], b[1], b[2], b[3]) == w
  {
  }

  lemma EightSteps()
    ensures BitSteps(0xFFFF_FFFF, 8) == 0x2DFD_1072 && BitSteps(0x2DFD_1072, 8) == 0xBE26_ED00
    ensures BitSteps(0xBE26_ED00, 8) == 0x00BE_26ED && BitSteps(0x00BE_26ED, 8) == 0xDEBB_20E3
  {
  }

  lemma AllOnesSteps()
    ensures BitSteps(0xFFFF_FFFF, 32) == 0xDEBB_20E3
  {
    EightSteps();
    hide BitSteps;
    BitStepsAdd(0xFFFF_FFFF, 8, 8);
    BitStepsAdd(0xFFFF_FFFF, 16, 8);
    BitStepsAdd(0xFFFF_FFFF, 24, 8);
  }

  lemma Complement(r: bv32)
    ensures Xor(r, Flipped(r)) == 0xFFFF_FFFF
  {
  }

  lemma OwnComplement(r: bv32)
    ensures Update(r, LowFirst(Flipped(r))) == 0xDEBB_20E3
  {
    Complement(r);
    FourOf(Flipped(r));
    WordOfBytes(Flipped(r));
    AllOnesSteps();
    hide Update, LowFirst, Word, Xor, BitSteps, Flipped;
    var b := LowFirst(Flipped(r));
    FourBytes(r, b[0], b[1], b[2], b[3]);
    assert b == [b[0], b[1], b[2], b[3]];
  }

  function Flipped(r: bv32): bv32 {
    r ^ 0xFFFF_FFFF
  }

  /** Data followed by its own CRC, low byte first, always leaves the register at the same value. */
  lemma OwnCrcLeavesConstant(data: Bytes)
    ensures Update(0xFFFF_FFFF, data + LowFirst(Crc(data))) == 0xDEBB_20E3
  {
    hide Update, LowFirst;
    var r := Update(0xFFFF_FFFF, data);
    assert Crc(data) == Flipped(r);
    UpdateConcat(0xFFFF_FFFF, data, LowFirst(Crc(data)));
    OwnComplement(r);
  }

  lemma FourOf(w: bv32)
    ensures |LowFirst(w)| == 4
  {
  }

  lemma CheckSteps()
    ensures ByteStep(0xFFFF_FFFF, 0x31) == 0x7C23_1048 && ByteStep(0x7C23_1048, 0x32) == 0xB0AC_BB32
    ensures ByteStep(0xB0AC_BB32, 0x33) == 0x77B7_9C2D && ByteStep(0x77B7_9C2D, 0x34) == 0x641C_1F5C
    ensures ByteStep(0x641C_1F5C, 0x35) == 0x340A_C5E3 && ByteStep(0x340A_C5E3, 0x36) == 0xF68D_2C9E
    ensures ByteStep(0xF68D_2C9E, 0x37) == 0xAFFC_9660 && ByteStep(0xAFFC_9660, 0x38) == 0x651F_2550
    ensures ByteStep(0x651F_2550, 0x39) == 0x340B_C6D9
  {
  }

  lemma SixZeroSteps()
    ensures ByteStep(0xFFFF_FFFF, 0) == 0x2DFD_1072 && ByteStep(0x2DFD_1072, 0) == 0xBE26_ED00
    ensures ByteStep(0xBE26_ED00, 0) == 0x00BE_26ED && ByteStep(0x00BE_26ED, 0) == 0xDEBB_20E3
    ensures ByteStep(0xDEBB_20E3, 0) == 0x39DD_08E2 && ByteStep(0x39DD_08E2, 0) == 0x4E3D_5E5C
  {
  }

  lemma OneUpdate(r: bv32, b: bv8)
    ensures Update(r, [b]) == ByteStep(r, b) && Update(r, []) == r
  {
    hide ByteStep;
    assert [b][1..] == [];
  }

  lemma DigitsRegister()
    ensures Update(0xFFFF_FFFF, [0x31, 0x32, 0x33, 0x34, 0x35, 0x36, 0x37, 0x38, 0x39]) == 0x340B_C6D9
  {
    hide ByteStep, Update;
    CheckSteps();
    var first: Bytes, second: Bytes := [0x31, 0x32, 0x33, 0x34], [0x35, 0x36, 0x37, 0x38];
    var last: Bytes := [0x39];
    FourUpdates(0xFFFF_FFFF, 0x31, 0x32, 0x33, 0x34);
    FourUpdates(0x641C_1F5C, 0x35, 0x36, 0x37, 0x38);
    OneUpdate(0x651F_2550, 0x39);
    UpdateThree(0xFFFF_FFFF, first, second, last);
    assert first + (second + last) == [0x31, 0x32, 0x33, 0x34, 0x35, 0x36, 0x37, 0x38, 0x39];
  }

  lemma ZerosRegister()
    ensures Update(0xFFFF_FFFF, [0, 0, 0, 0, 0, 0]) == 0x4E3D_5E5C
  {
    hide ByteStep, Update;
    SixZeroSteps();
    FourUpdates(0xFFFF_FFFF, 0, 0, 0, 0);
    OneUpdate(0xDEBB_20E3, 0);
    OneUpdate(0x39DD_08E2, 0);
    var four: Bytes, one: Bytes := [0, 0, 0, 0], [0];
    UpdateThree(0xFFFF_FFFF, four, one, one);
    assert four + (one + one) == [0, 0, 0, 0, 0, 0];
  }

  /** The published check value, the CRC of the characters 1 to 9; and the CRC of no data, and of six zero bytes. */
  lemma CheckValues()
    ensures Crc([0x31, 0x32, 0x33, 0x34, 0x35, 0x36, 0x37, 0x38, 0x39]) == 0xCBF4_3926
    ensures Crc([]) == 0 && Crc([0, 0, 0, 0, 0, 0]) == 0xB1C2_A1A3
  {
    hide Update;
    DigitsRegister();
    ZerosRegister();
    OneUpdate(0xFFFF_FFFF, 0);
  }
}
