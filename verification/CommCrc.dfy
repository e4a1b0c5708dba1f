/** The packet checksum of the comm module (components/comm_module/comm_crc.c): a
    table-driven CRC-8, related here to polynomial division over GF(2). Bit
    sequences are written with the coefficient of the highest power first, which
    is the order in which the bits of a packet enter the register. */
module CommCrc {
  import opened Bits

  // ---------- The table loop ----------

  /** The sixteen rows of the 256-entry lookup table. */
  function TableRow(row: nat): (r: seq<bv8>)
    requires row < 16
    ensures |r| == 16
  {
    match row
    case 0 => [0x00, 0x07, 0x0E, 0x09, 0x1C, 0x1B, 0x12, 0x15, 0x38, 0x3F, 0x36, 0x31, 0x24, 0x23, 0x2A, 0x2D]
    case 1 => [0x70, 0x77, 0x7E, 0x79, 0x6C, 0x6B, 0x62, 0x65, 0x48, 0x4F, 0x46, 0x41, 0x54, 0x53, 0x5A, 0x5D]
    case 2 => [0xE0, 0xE7, 0xEE, 0xE9, 0xFC, 0xFB, 0xF2, 0xF5, 0xD8, 0xDF, 0xD6, 0xD1, 0xC4, 0xC3, 0xCA, 0xCD]
    case 3 => [0x90, 0x97, 0x9E, 0x99, 0x8C, 0x8B, 0x82, 0x85, 0xA8, 0xAF, 0xA6, 0xA1, 0xB4, 0xB3, 0xBA, 0xBD]
    case 4 => [0xC7, 0xC0, 0xC9, 0xCE, 0xDB, 0xDC, 0xD5, 0xD2, 0xFF, 0xF8, 0xF1, 0xF6, 0xE3, 0xE4, 0xED, 0xEA]
    case 5 => [0xB7, 0xB0, 0xB9, 0xBE, 0xAB, 0xAC, 0xA5, 0xA2, 0x8F, 0x88, 0x81, 0x86, 0x93, 0x94, 0x9D, 0x9A]
    case 6 => [0x27, 0x20, 0x29, 0x2E, 0x3B, 0x3C, 0x35, 0x32, 0x1F, 0x18, 0x11, 0x16, 0x03, 0x04, 0x0D, 0x0A]
    case 7 => [0x57, 0x50, 0x59, 0x5E, 0x4B, 0x4C, 0x45, 0x42, 0x6F, 0x68, 0x61, 0x66, 0x73, 0x74, 0x7D, 0x7A]
    case 8 => [0x89, 0x8E, 0x87, 0x80, 0x95, 0x92, 0x9B, 0x9C, 0xB1, 0xB6, 0xBF, 0xB8, 0xAD, 0xAA, 0xA3, 0xA4]
    case 9 => [0xF9, 0xFE, 0xF7, 0xF0, 0xE5, 0xE2, 0xEB, 0xEC, 0xC1, 0xC6, 0xCF, 0xC8, 0xDD, 0xDA, 0xD3, 0xD4]
    case 10 => [0x69, 0x6E, 0x67, 0x60, 0x75, 0x72, 0x7B, 0x7C, 0x51, 0x56, 0x5F, 0x58, 0x4D, 0x4A, 0x43, 0x44]
    case 11 => [0x19, 0x1E, 0x17, 0x10, 0x05, 0x02, 0x0B, 0x0C, 0x21, 0x26, 0x2F, 0x28, 0x3D, 0x3A, 0x33, 0x34]
    case 12 => [0x4E, 0x49, 0x40, 0x47, 0x52, 0x55, 0x5C, 0x5B, 0x76, 0x71, 0x78, 0x7F, 0x6A, 0x6D, 0x64, 0x63]
    case 13 => [0x3E, 0x39, 0x30, 0x37, 0x22, 0x25, 0x2C, 0x2B, 0x06, 0x01, 0x08, 0x0F, 0x1A, 0x1D, 0x14, 0x13]
    case 14 => [0xAE, 0xA9, 0xA0, 0xA7, 0xB2, 0xB5, 0xBC, 0xBB, 0x96, 0x91, 0x98, 0x9F, 0x8A, 0x8D, 0x84, 0x83]
    case _ => [0xDE, 0xD9, 0xD0, 0xD7, 0xC2, 0xC5, 0xCC, 0xCB, 0xE6, 0xE1, 0xE8, 0xEF, 0xFA, 0xFD, 0xF4, 0xF3]
  }

  /** crc8_table[index]. */
  function Table(index: bv8): bv8 {
    TableRow((index >> 4) as nat)[(index & 0x0F) as nat]
  }

  function Crc(data: seq<bv8>): bv8 {
    if data == [] then 0 else Table(Crc(data[..|data| - 1]) ^ data[|data| - 1])
  }

  predicate Accepts(packet: seq<bv8>) {
    packet != [] && Crc(packet) == 0
  }

  method ComputeCrc8(data: array<bv8>, len: nat) returns (crc: bv8)
    requires len <= data.Length
    ensures crc == Crc(data[..len])
  {
    crc := 0;
    for i := 0 to len
      invariant crc == Crc(data[..i])
    {
      assert data[..i + 1][..i] == data[..i];
      crc := Table(crc ^ data[i]);
    }
  }

  method PreparePacket(packet: array<bv8>, logicalLen: nat)
    requires logicalLen <= packet.Length
    modifies packet
    ensures logicalLen == 0 ==> packet[..] == old(packet[..])
    ensures logicalLen > 0 ==>
              packet[..] == old(packet[..])[logicalLen - 1 := packet[logicalLen - 1]] && Accepts(packet[..logicalLen])
  {
    if logicalLen == 0 {
      return;
    }
    var payloadSize := logicalLen - 1;
    var crc := ComputeCrc8(packet, payloadSize);
    packet[payloadSize] := crc;
    assert packet[..logicalLen] == old(packet[..payloadSize]) + [crc];
    OnlyItsChecksumIsAccepted(old(packet[..payloadSize]), crc);
  }

  method VerifyPacket(packet: array<bv8>, logicalLen: nat) returns (valid: bool)
    requires logicalLen <= packet.Length
    ensures valid == Accepts(packet[..logicalLen])
  {
    if logicalLen == 0 {
      return false;
    }
    var crc := ComputeCrc8(packet, logicalLen);
    return crc == 0;
  }

  // ---------- Long division by x^8 + x^2 + x + 1 ----------

  function Zeros(n: nat): (r: seq<bool>)
    ensures |r| == n
    ensures forall i | 0 <= i < n :: !r[i]
  {
    seq(n, i => false)
  }

  function XorBits(a: seq<bool>, b: seq<bool>): (r: seq<bool>)
    requires |a| == |b|
    ensures |r| == |a|
    ensures forall i | 0 <= i < |a| :: r[i] == (a[i] != b[i])
  {
    seq(|a|, i requires 0 <= i < |a| => a[i] != b[i])
  }

  /** A polynomial of degree below 8: r[i] is the coefficient of x^(7 - i). */
  type Reg = r: seq<bool> | |r| == 8 witness [false, false, false, false, false, false, false, false]

  const ONE: Reg := [false, false, false, false, false, false, false, true]

  function ToReg(b: bv8): (r: Reg)
    ensures forall i | 0 <= i < 8 :: r[i] == Test(b, 7 - i)
  {
    seq(8, i requires 0 <= i < 8 => Test(b, 7 - i))
  }

  /** Bring down the next bit of the dividend; when a bit leaves the register,
      subtract the generator, whose terms below x^8 are x^2, x and 1. */
  function Shift(r: Reg, bit: bool): (s: Reg)
    ensures forall i | 0 <= i < 8 :: s[i] == ((if i == 7 then bit else r[i + 1]) != (i >= 5 && r[0]))
  {
    seq(8, i requires 0 <= i < 8 => (if i == 7 then bit else r[i + 1]) != (i >= 5 && r[0]))
  }

  function Feed(r: Reg, bits: seq<bool>): Reg {
    if bits == [] then r else Shift(Feed(r, bits[..|bits| - 1]), bits[|bits| - 1])
  }

  /** The remainder of the polynomial bits modulo the generator. */
  function Rem(bits: seq<bool>): Reg {
    Feed(Zeros(8), bits)
  }

  /** Multiply by x^n modulo the generator. */
  function TimesPower(r: Reg, n: nat): Reg {
    Feed(r, Zeros(n))
  }

  function ToBits(data: seq<bv8>): (r: seq<bool>)
    ensures |r| == 8 * |data|
  {
    if data == [] then [] else ToBits(data[..|data| - 1]) + ToReg(data[|data| - 1])
  }

  function XorBytes(a: seq<bv8>, b: seq<bv8>): (r: seq<bv8>)
    requires |a| == |b|
    ensures |r| == |a|
    ensures forall i | 0 <= i < |a| :: r[i] == a[i] ^ b[i]
  {
    seq(|a|, i requires 0 <= i < |a| => a[i] ^ b[i])
  }

  // ---------- Algebra of the register ----------

  lemma ToRegXor(a: bv8, b: bv8)
    ensures ToReg(a ^ b) == XorBits(ToReg(a), ToReg(b))
  {
    hide Test;
    forall i | 0 <= i < 8 ensures ToReg(a ^ b)[i] == XorBits(ToReg(a), ToReg(b))[i] {
      TestXor(a, b, 7 - i);
    }
  }

  lemma ToRegInjective(a: bv8, b: bv8)
    requires ToReg(a) == ToReg(b)
    ensures a == b
  {
    hide Test;
    forall k | 0 <= k < 8 ensures Test(a, k) == Test(b, k) {
      assert ToReg(a)[7 - k] == ToReg(b)[7 - k];
    }
    ByteExtensional(a, b);
  }

  lemma ToRegZero()
    ensures ToReg(0) == Zeros(8)
  {
    hide Mask;
  }

  lemma {:induction false} FeedSplit(r: Reg, x: seq<bool>, y: seq<bool>)
    ensures Feed(r, x + y) == Feed(Feed(r, x), y)
  {
    hide Shift;
    if y == [] {
      assert x + y == x;
    } else {
      assert (x + y)[..|x + y| - 1] == x + y[..|y| - 1];
      FeedSplit(r, x, y[..|y| - 1]);
    }
  }

  lemma ShiftLinear(r: Reg, s: Reg, x: bool, y: bool)
    ensures Shift(XorBits(r, s), x != y) == XorBits(Shift(r, x), Shift(s, y))
  {
  }

  lemma {:induction false} FeedLinear(r: Reg, s: Reg, x: seq<bool>, y: seq<bool>)
    requires |x| == |y|
    ensures Feed(XorBits(r, s), XorBits(x, y)) == XorBits(Feed(r, x), Feed(s, y))
  {
    hide Shift;
    if x != [] {
      var n := |x| - 1;
      assert XorBits(x, y)[..n] == XorBits(x[..n], y[..n]);
      FeedLinear(r, s, x[..n], y[..n]);
      ShiftLinear(Feed(r, x[..n]), Feed(s, y[..n]), x[n], y[n]);
    }
  }

  lemma {:induction false} FeedOnlyZeros(n: nat)
    ensures Rem(Zeros(n)) == Zeros(8)
  {
    if n > 0 {
      assert Zeros(n)[..n - 1] == Zeros(n - 1);
      FeedOnlyZeros(n - 1);
    }
  }

  /** Up to eight bits fit in the register. */
  lemma {:induction false} LoadBits(bits: seq<bool>)
    requires |bits| <= 8
    ensures Rem(bits) == Zeros(8 - |bits|) + bits
  {
    if bits == [] {
      assert Zeros(8) + [] == Zeros(8);
    } else {
      LoadBits(bits[..|bits| - 1]);
    }
  }

  lemma FeedByte(r: Reg, b: Reg)
    ensures Feed(r, b) == XorBits(TimesPower(r, 8), b)
  {
    LoadBits(b);
    assert Zeros(0) + b == b;
    assert XorBits(r, Zeros(8)) == r && XorBits(Zeros(8), b) == b;
    FeedLinear(r, Zeros(8), Zeros(8), b);
  }

  lemma TimesPowerNext(r: Reg, n: nat)
    ensures TimesPower(r, n + 1) == Shift(TimesPower(r, n), false)
  {
    hide Shift;
    assert Zeros(n + 1)[..n] == Zeros(n);
  }

  lemma TimesPowerAdds(r: Reg, m: nat, n: nat)
    ensures TimesPower(r, m + n) == TimesPower(TimesPower(r, m), n)
  {
    assert Zeros(m + n) == Zeros(m) + Zeros(n);
    FeedSplit(r, Zeros(m), Zeros(n));
  }

  /** The generator has a constant term, so multiplying by x loses nothing. */
  lemma {:induction false} TimesPowerZero(r: Reg, n: nat)
    ensures TimesPower(r, n) == Zeros(8) <==> r == Zeros(8)
  {
    if n == 0 {
      assert Zeros(0) == [];
    } else {
      TimesPowerZero(r, n - 1);
      TimesPowerNext(r, n - 1);
      ShiftZero(TimesPower(r, n - 1));
    }
  }

  lemma ShiftZero(r: Reg)
    ensures Shift(r, false) == Zeros(8) <==> r == Zeros(8)
  {
    var s := Shift(r, false);
    if s == Zeros(8) {
      assert s[7] == r[0];
      forall i | 0 < i < 8 ensures !r[i] {
        assert s[i - 1] == (r[i] != (i - 1 >= 5 && r[0]));
      }
    }
  }

  // ---------- The table computes remainders ----------

  function ShiftByte(c: bv8): bv8 {
    (c << 1) ^ (c >> 7) ^ ((c >> 7) << 1) ^ ((c >> 7) << 2)
  }

  /** Eight shifts at once: the bits that the terms x and x^2 push out of the
      byte are folded back. */
  function Fold(c: bv8): bv8 {
    var k := (c >> 7) ^ (c >> 6);
    c ^ (c << 1) ^ (c << 2) ^ k ^ (k << 1) ^ (k << 2)
  }

  lemma FoldIsEightShifts(c: bv8)
    ensures Fold(c) == ShiftByte(ShiftByte(ShiftByte(ShiftByte(ShiftByte(ShiftByte(ShiftByte(ShiftByte(c))))))))
  {
  }

  lemma ShiftByteBits(c: bv8)
    ensures ToReg(ShiftByte(c)) == Shift(ToReg(c), false)
  {
    forall i | 0 <= i < 8 ensures Test(ShiftByte(c), 7 - i) == Shift(ToReg(c), false)[i] {
      ShiftByteTest(c, 7 - i);
    }
  }

  lemma ShiftByteTest(c: bv8, k: nat)
    requires k < 8
    ensures Test(ShiftByte(c), k) == ((k > 0 && Test(c, k - 1)) != (k < 3 && Test(c, 7)))
  {
    if k < 3 {
      ShiftByteLow(c, k);
    } else if k <= 5 {
      ShiftByteMiddle(c, k);
    } else {
      ShiftByteHigh(c, k);
    }
    hide ShiftByte, Test;
  }

  lemma ShiftByteLow(c: bv8, k: nat)
    requires k < 3
    ensures Test(ShiftByte(c), k) == ((k > 0 && Test(c, k - 1)) != Test(c, 7))
  {
    match k {
      case 0 => case 1 => case _ =>
    }
  }

  lemma ShiftByteHigh(c: bv8, k: nat)
    requires 5 < k < 8
    ensures Test(ShiftByte(c), k) == Test(c, k - 1)
  {
    match k {
      case 6 => case _ =>
    }
  }

  lemma ShiftByteMiddle(c: bv8, k: nat)
    requires 3 <= k <= 5
    ensures Test(ShiftByte(c), k) == Test(c, k - 1)
  {
    match k {
      case 3 => case 4 => case _ =>
    }
  }

  function Shifted(c: bv8, n: nat): bv8 {
    if n == 0 then c else ShiftByte(Shifted(c, n - 1))
  }

  lemma {:induction false} ShiftedIsTimesPower(c: bv8, n: nat)
    ensures ToReg(Shifted(c, n)) == TimesPower(ToReg(c), n)
  {
    hide ShiftByte, Shift, ToReg;
    if n == 0 {
      assert Zeros(0) == [];
    } else {
      ShiftedIsTimesPower(c, n - 1);
      ShiftByteBits(Shifted(c, n - 1));
      TimesPowerNext(ToReg(c), n - 1);
    }
  }

  lemma ShiftedTwice(c: bv8, n: nat)
    ensures Shifted(c, 0) == c && Shifted(c, n + 2) == ShiftByte(ShiftByte(Shifted(c, n)))
  {
    hide ShiftByte;
  }

  lemma FoldIsDivision(c: bv8)
    ensures ToReg(Fold(c)) == TimesPower(ToReg(c), 8)
  {
    hide ShiftByte, Fold, ToReg, TimesPower;
    FoldIsEightShifts(c);
    ShiftedTwice(c, 0); ShiftedTwice(c, 2); ShiftedTwice(c, 4); ShiftedTwice(c, 6);
    ShiftedIsTimesPower(c, 8);
  }

  function FoldRow(row: bv8): (r: seq<bv8>)
    ensures |r| == 16
  {
    var base := row << 4;
    [Fold(base), Fold(base | 1), Fold(base | 2), Fold(base | 3), Fold(base | 4), Fold(base | 5), Fold(base | 6), Fold(base | 7),
     Fold(base | 8), Fold(base | 9), Fold(base | 10), Fold(base | 11), Fold(base | 12), Fold(base | 13), Fold(base | 14), Fold(base | 15)]
  }

  lemma FoldRowAt(row: bv8, col: bv8)
    requires col < 16
    ensures FoldRow(row)[col as nat] == Fold((row << 4) | col)
  {
    hide Fold;
    assert col == 0 || col == 1 || col == 2 || col == 3 || col == 4 || col == 5 || col == 6 || col == 7 ||
           col == 8 || col == 9 || col == 10 || col == 11 || col == 12 || col == 13 || col == 14 || col == 15;
  }

  lemma TableRows0To3()
    ensures TableRow(0) == FoldRow(0)
    ensures TableRow(1) == FoldRow(1)
    ensures TableRow(2) == FoldRow(2)
    ensures TableRow(3) == FoldRow(3)
  {
  }

  lemma TableRows4To7()
    ensures TableRow(4) == FoldRow(4)
    ensures TableRow(5) == FoldRow(5)
    ensures TableRow(6) == FoldRow(6)
    ensures TableRow(7) == FoldRow(7)
  {
  }

  lemma TableRows8To11()
    ensures TableRow(8) == FoldRow(8)
    ensures TableRow(9) == FoldRow(9)
    ensures TableRow(10) == FoldRow(10)
    ensures TableRow(11) == FoldRow(11)
  {
  }

  lemma TableRows12To15()
    ensures TableRow(12) == FoldRow(12)
    ensures TableRow(13) == FoldRow(13)
    ensures TableRow(14) == FoldRow(14)
    ensures TableRow(15) == FoldRow(15)
  {
  }

  lemma TableIsFold(index: bv8)
    ensures Table(index) == Fold(index)
  {
    hide TableRow, FoldRow, Fold;
    var row := index >> 4;
    FoldRowAt(row, index & 0x0F);
    assert (row << 4) | (index & 0x0F) == index;
    TableRows0To3();
    TableRows4To7();
    TableRows8To11();
    TableRows12To15();
    assert row < 16;
  }

  /** Every table entry is eight steps of long division. */
  lemma TableIsDivision(index: bv8)
    ensures ToReg(Table(index)) == TimesPower(ToReg(index), 8)
  {
    hide Table, Fold, ToReg, TimesPower;
    TableIsFold(index);
    FoldIsDivision(index);
  }

  lemma {:induction false} CrcIsShiftedRem(data: seq<bv8>)
    ensures ToReg(Crc(data)) == TimesPower(Rem(ToBits(data)), 8)
  {
    if data == [] {
      ToRegZero();
      FeedOnlyZeros(8);
    } else {
      var n := |data| - 1;
      CrcIsShiftedRem(data[..n]);
      TableNext(Crc(data[..n]), Rem(ToBits(data[..n])), data[n]);
      FeedSplit(Zeros(8), ToBits(data[..n]), ToReg(data[n]));
      hide ToReg, Table, TimesPower;
    }
  }

  lemma TableNext(crc: bv8, r: Reg, b: bv8)
    requires ToReg(crc) == TimesPower(r, 8)
    ensures ToReg(Table(crc ^ b)) == TimesPower(Feed(r, ToReg(b)), 8)
  {
    hide ToReg, Table, TimesPower, XorBits;
    FeedByte(r, ToReg(b));
    ToRegXor(crc, b);
    TableIsDivision(crc ^ b);
  }

  /** The table loop computes the remainder of the data times x^8. */
  lemma CrcIsRemainder(data: seq<bv8>)
    ensures ToReg(Crc(data)) == Rem(ToBits(data) + Zeros(8))
  {
    hide ToReg;
    CrcIsShiftedRem(data);
    FeedSplit(Zeros(8), ToBits(data), Zeros(8));
  }

  lemma AcceptsIffNoRemainder(packet: seq<bv8>)
    ensures Accepts(packet) <==> packet != [] && Rem(ToBits(packet)) == Zeros(8)
  {
    CrcIsShiftedRem(packet);
    ToRegZero();
    TimesPowerZero(Rem(ToBits(packet)), 8);
    hide ToReg, Rem, TimesPower;
    if packet != [] && Rem(ToBits(packet)) == Zeros(8) {
      ToRegInjective(Crc(packet), 0);
    }
  }

  /** For each payload exactly one trailing byte is accepted, the one that
      comm_crc_prepare_packet writes. */
  lemma OnlyItsChecksumIsAccepted(data: seq<bv8>, crc: bv8)
    ensures Accepts(data + [crc]) <==> crc == Crc(data)
  {
    hide ToReg, Table, TimesPower;
    assert (data + [crc])[..|data|] == data;
    var c := Crc(data) ^ crc;
    TableIsDivision(c);
    ToRegZero();
    TimesPowerZero(ToReg(c), 8);
    if Table(c) == 0 {
      ToRegInjective(c, 0);
      XorSelf(Crc(data), crc);
    } else if crc == Crc(data) {
      XorSelf(Crc(data), crc);
      ToRegInjective(Table(c), 0);
    }
  }

  lemma XorSelf(a: bv8, b: bv8)
    ensures a ^ b == 0 <==> a == b
  {
  }

  lemma {:induction false} ToBitsXor(a: seq<bv8>, b: seq<bv8>)
    requires |a| == |b|
    ensures ToBits(XorBytes(a, b)) == XorBits(ToBits(a), ToBits(b))
  {
    if a != [] {
      hide ToReg;
      var n := |a| - 1;
      assert XorBytes(a, b)[..n] == XorBytes(a[..n], b[..n]);
      ToBitsXor(a[..n], b[..n]);
      ToRegXor(a[n], b[n]);
      XorBitsAppend(ToBits(a[..n]), ToReg(a[n]), ToBits(b[..n]), ToReg(b[n]));
    }
  }

  lemma XorBitsAppend(a: seq<bool>, a': seq<bool>, b: seq<bool>, b': seq<bool>)
    requires |a| == |b| && |a'| == |b'|
    ensures XorBits(a + a', b + b') == XorBits(a, b) + XorBits(a', b')
  {
  }

  /** The checksum is linear over GF(2). */
  lemma CrcLinear(a: seq<bv8>, b: seq<bv8>)
    requires |a| == |b|
    ensures Crc(XorBytes(a, b)) == Crc(a) ^ Crc(b)
  {
    CrcIsRemainder(a);
    CrcIsRemainder(b);
    CrcIsRemainder(XorBytes(a, b));
    hide ToReg, XorBits;
    ToBitsXor(a, b);
    XorZeros(8);
    XorBitsAppend(ToBits(a), Zeros(8), ToBits(b), Zeros(8));
    FeedLinear(Zeros(8), Zeros(8), ToBits(a) + Zeros(8), ToBits(b) + Zeros(8));
    ToRegXor(Crc(a), Crc(b));
    ToRegInjective(Crc(XorBytes(a, b)), Crc(a) ^ Crc(b));
  }

  lemma XorZeros(n: nat)
    ensures XorBits(Zeros(n), Zeros(n)) == Zeros(n)
  {
  }

  // ---------- Accepted packets are the multiples of the generator ----------

  /** x^8 + x^2 + x + 1. */
  const GENERATOR: seq<bool> := [true, false, false, false, false, false, true, true, true]

  /** Schoolbook product of a polynomial with the generator. */
  function TimesGenerator(q: seq<bool>): (r: seq<bool>)
    ensures |r| == |q| + 8
  {
    if q == [] then Zeros(8)
    else
      var n := |q| - 1;
      XorBits(TimesGenerator(q[..n]) + [false], Zeros(n) + Digit(q[n]))
  }

  function Digit(q: bool): (r: seq<bool>)
    ensures |r| == 9
  {
    if q then GENERATOR else Zeros(9)
  }

  /** The quotient digits are the bits that leave the register. */
  function Quotient(bits: seq<bool>): (q: seq<bool>)
    requires |bits| >= 8
    ensures |q| == |bits| - 8
  {
    if |bits| == 8 then [] else Quotient(bits[..|bits| - 1]) + [Rem(bits[..|bits| - 1])[0]]
  }

  lemma ShiftDigits(r: Reg, bit: bool)
    ensures [false] + Shift(r, bit) == XorBits(r + [bit], Digit(r[0]))
  {
  }

  lemma DigitHasNoRemainder(q: bool)
    ensures Rem(Digit(q)) == Zeros(8)
  {
    if q {
      var top := GENERATOR[..8];
      LoadBits(top);
      assert Rem(top) == top;
    } else {
      FeedOnlyZeros(9);
    }
  }

  lemma {:induction false} MultiplesHaveNoRemainder(q: seq<bool>)
    ensures Rem(TimesGenerator(q)) == Zeros(8)
  {
    if q == [] {
      FeedOnlyZeros(8);
    } else {
      hide XorBits, Digit;
      var n := |q| - 1;
      MultiplesHaveNoRemainder(q[..n]);
      FeedSplit(Zeros(8), TimesGenerator(q[..n]), [false]);
      assert Feed(Zeros(8), [false]) == Zeros(8) by {
        assert [false] == Zeros(1);
        FeedOnlyZeros(1);
      }
      FeedOnlyZeros(n);
      FeedSplit(Zeros(8), Zeros(n), Digit(q[n]));
      DigitHasNoRemainder(q[n]);
      XorZeros(8);
      FeedLinear(Zeros(8), Zeros(8), TimesGenerator(q[..n]) + [false], Zeros(n) + Digit(q[n]));
    }
  }

  /** Dividend = quotient * generator + remainder. */
  lemma {:induction false} DivisionAlgorithm(bits: seq<bool>)
    requires |bits| >= 8
    ensures bits == XorBits(TimesGenerator(Quotient(bits)), Zeros(|bits| - 8) + Rem(bits))
  {
    if |bits| == 8 {
      LoadBits(bits);
    } else {
      var n := |bits| - 1;
      var r := Rem(bits[..n]);
      DivisionAlgorithm(bits[..n]);
      var q := Quotient(bits[..n]);
      QuotientNext(bits);
      hide XorBits, Digit, Quotient, TimesGenerator, Shift;
      ShiftDigits(r, bits[n]);
      BringDown(TimesGenerator(q), bits, r, Digit(r[0]), Rem(bits));
    }
  }

  lemma QuotientNext(bits: seq<bool>)
    requires |bits| > 8
    ensures var n := |bits| - 1;
            var q, r := Quotient(bits[..n]), Rem(bits[..n]);
            Rem(bits) == Shift(r, bits[n]) &&
            TimesGenerator(Quotient(bits)) == XorBits(TimesGenerator(q) + [false], Zeros(n - 8) + Digit(r[0]))
  {
    hide XorBits, Digit, Shift;
    var n := |bits| - 1;
    var q, r := Quotient(bits[..n]), Rem(bits[..n]);
    assert Quotient(bits) == q + [r[0]] && (q + [r[0]])[..n - 8] == q;
  }

  lemma BringDown(product: seq<bool>, bits: seq<bool>, r: Reg, digit: seq<bool>, next: Reg)
    requires |bits| > 8 && |product| == |bits| - 1 && |digit| == 9
    requires bits[..|bits| - 1] == XorBits(product, Zeros(|bits| - 9) + r)
    requires [false] + next == XorBits(r + [bits[|bits| - 1]], digit)
    ensures bits == XorBits(XorBits(product + [false], Zeros(|bits| - 9) + digit), Zeros(|bits| - 8) + next)
  {
    var n := |bits| - 1;
    var low := [false] + next;
    forall i | 0 <= i < |bits|
      ensures bits[i] == XorBits(XorBits(product + [false], Zeros(n - 8) + digit), Zeros(n - 7) + next)[i]
    {
      if i < n {
        assert bits[i] == bits[..n][i];
      }
      if i >= n - 8 {
        assert low[i - (n - 8)] == ((r + [bits[n]])[i - (n - 8)] != digit[i - (n - 8)]);
      }
    }
  }

  /** comm_crc_verify_packet accepts exactly the multiples of the generator. */
  lemma AcceptsIffMultiple(packet: seq<bv8>)
    ensures Accepts(packet) <==> packet != [] && exists q :: TimesGenerator(q) == ToBits(packet)
  {
    AcceptsIffNoRemainder(packet);
    hide Accepts, Rem;
    var bits := ToBits(packet);
    if packet != [] && Rem(bits) == Zeros(8) {
      DivisionAlgorithm(bits);
      assert TimesGenerator(Quotient(bits)) == bits;
    }
    forall q | TimesGenerator(q) == bits ensures Rem(bits) == Zeros(8) {
      MultiplesHaveNoRemainder(q);
    }
  }

  // ---------- Which transmission errors are caught ----------

  /** The bits in which two packets of the same length differ. */
  function Error(sent: seq<bv8>, received: seq<bv8>): (e: seq<bool>)
    requires |sent| == |received|
    ensures |e| == 8 * |sent|
    ensures forall k | 0 <= k < |e| :: e[k] == (ToBits(sent)[k] != ToBits(received)[k])
  {
    XorBits(ToBits(sent), ToBits(received))
  }

  /** A damaged packet gets through exactly when its error leaves no remainder. */
  lemma UndetectedIffNoRemainder(sent: seq<bv8>, received: seq<bv8>)
    requires |sent| == |received| && Accepts(sent)
    ensures Accepts(received) <==> Rem(Error(sent, received)) == Zeros(8)
  {
    AcceptsIffNoRemainder(sent);
    AcceptsIffNoRemainder(received);
    XorZeros(8);
    FeedLinear(Zeros(8), Zeros(8), ToBits(sent), ToBits(received));
    hide Accepts, ToBits;
    assert forall i | 0 <= i < 8 :: Rem(Error(sent, received))[i] == Rem(ToBits(received))[i];
  }

  lemma {:induction false} BurstLeavesRemainder(e: seq<bool>, first: nat)
    requires first < |e| && e[first]
    requires forall k | 0 <= k < |e| :: e[k] ==> first <= k < first + 8
    ensures Rem(e) != Zeros(8)
  {
    if |e| <= first + 8 {
      var burst := e[first..];
      assert e == Zeros(first) + burst;
      FeedSplit(Zeros(8), Zeros(first), burst);
      FeedOnlyZeros(first);
      LoadBits(burst);
      assert Rem(burst)[8 - |burst|];
    } else {
      var n := |e| - 1;
      BurstLeavesRemainder(e[..n], first);
      ShiftZero(Rem(e[..n]));
    }
  }

  /** Every error confined to eight consecutive bits is rejected. */
  lemma BurstRejected(sent: seq<bv8>, received: seq<bv8>, start: nat)
    requires |sent| == |received| && Accepts(sent) && sent != received
    requires forall k | 0 <= k < 8 * |sent| :: ToBits(sent)[k] != ToBits(received)[k] ==> start <= k < start + 8
    ensures !Accepts(received)
  {
    var first := FirstError(sent, received);
    BurstLeavesRemainder(Error(sent, received), first);
    UndetectedIffNoRemainder(sent, received);
  }

  lemma FirstError(sent: seq<bv8>, received: seq<bv8>) returns (first: nat)
    requires |sent| == |received| && sent != received
    ensures first < 8 * |sent| && Error(sent, received)[first]
    ensures forall k | 0 <= k < first :: !Error(sent, received)[k]
  {
    var e := Error(sent, received);
    first := 0;
    while first < |e| && !e[first]
      invariant first <= |e|
      invariant forall k | 0 <= k < first :: !e[k]
    {
      first := first + 1;
    }
    if first == |e| {
      assert ToBits(sent) == ToBits(received);
      ToBitsInjective(sent, received);
    }
  }

  lemma {:induction false} ToBitsInjective(a: seq<bv8>, b: seq<bv8>)
    requires ToBits(a) == ToBits(b)
    ensures a == b
  {
    assert |a| == |b|;
    if a != [] {
      hide ToReg;
      var n := |a| - 1;
      assert ToBits(a)[..8 * n] == ToBits(a[..n]) && ToBits(a)[8 * n..] == ToReg(a[n]);
      assert ToBits(b)[..8 * n] == ToBits(b[..n]) && ToBits(b)[8 * n..] == ToReg(b[n]);
      ToBitsInjective(a[..n], b[..n]);
      ToRegInjective(a[n], b[n]);
      assert a == a[..n] + [a[n]] && b == b[..n] + [b[n]];
    }
  }

  function Weight(bits: seq<bool>): nat {
    if bits == [] then 0 else Weight(bits[..|bits| - 1]) + (if bits[|bits| - 1] then 1 else 0)
  }

  predicate OddParity(r: Reg) {
    ((r[0] != r[1]) != (r[2] != r[3])) != ((r[4] != r[5]) != (r[6] != r[7]))
  }

  /** x + 1 divides the generator, so division keeps the parity of the dividend. */
  lemma {:induction false} DivisionKeepsParity(bits: seq<bool>)
    ensures OddParity(Rem(bits)) == (Weight(bits) % 2 == 1)
  {
    if bits != [] {
      DivisionKeepsParity(bits[..|bits| - 1]);
      ShiftParity(Rem(bits[..|bits| - 1]), bits[|bits| - 1]);
    }
  }

  lemma ShiftParity(r: Reg, bit: bool)
    ensures OddParity(Shift(r, bit)) == (OddParity(r) != bit)
  {
    var s := Shift(r, bit);
    assert s[0] == r[1] && s[1] == r[2] && s[2] == r[3] && s[3] == r[4] && s[4] == r[5];
    assert s[5] == (r[6] != r[0]) && s[6] == (r[7] != r[0]) && s[7] == (bit != r[0]);
  }

  /** Every error that flips an odd number of bits is rejected. */
  lemma OddErrorRejected(sent: seq<bv8>, received: seq<bv8>)
    requires |sent| == |received| && Accepts(sent)
    requires Weight(Error(sent, received)) % 2 == 1
    ensures !Accepts(received)
  {
    DivisionKeepsParity(Error(sent, received));
    UndetectedIffNoRemainder(sent, received);
    assert !OddParity(Zeros(8));
  }

  // ---------- Double-bit errors ----------

  /** x^n modulo the generator. */
  function Power(n: nat): Reg {
    TimesPower(ONE, n)
  }

  /** a modulo b by repeated subtraction. */
  function Reduce(a: nat, b: nat): (r: nat)
    requires b > 0
    ensures r < b
  {
    if a < b then a else Reduce(a - b, b)
  }

  lemma {:induction false} PowerReduce(a: nat, b: nat)
    requires b > 0 && Power(b) == ONE
    ensures Power(a) == Power(Reduce(a, b))
  {
    hide TimesPower;
    if a >= b {
      PowerReduce(a - b, b);
      TimesPowerAdds(ONE, b, a - b);
    }
  }

  lemma {:induction false} ReduceToZero(a: nat, b: nat) returns (k: nat)
    requires b > 0 && Reduce(a, b) == 0
    ensures a == k * b
  {
    if a < b {
      k := 0;
    } else {
      k := ReduceToZero(a - b, b);
      k := k + 1;
    }
  }

  lemma {:induction false} ReduceBy127(n: nat)
    ensures Reduce(n, 127) == n % 127
  {
    if n >= 127 {
      ReduceBy127(n - 127);
    }
  }

  lemma PowerNext8(n: nat, b: bv8)
    requires Power(n) == ToReg(b)
    ensures Power(n + 8) == ToReg(Fold(b))
  {
    hide TimesPower, ToReg;
    TimesPowerAdds(ONE, n, 8);
    FoldIsDivision(b);
  }

  lemma PowerNext(n: nat, b: bv8)
    requires Power(n) == ToReg(b)
    ensures Power(n + 1) == ToReg(ShiftByte(b))
  {
    hide TimesPower, ToReg;
    TimesPowerNext(ONE, n);
    ShiftByteBits(b);
  }

  lemma PowerPeriod()
    ensures Power(127) == ONE
  {
    assert ToReg(1) == ONE;
    assert Power(0) == ONE by {
      assert Zeros(0) == [];
    }
    hide Power, ToReg;
    PowerNext8(0, 0x01);
    PowerNext8(8, 0x07);
    PowerNext8(16, 0x15);
    PowerNext8(24, 0x6B);
    PowerNext8(32, 0x16);
    PowerNext8(40, 0x62);
    PowerNext8(48, 0x29);
    PowerNext8(56, 0xDF);
    PowerNext8(64, 0x13);
    PowerNext8(72, 0x79);
    PowerNext8(80, 0x68);
    PowerNext8(88, 0x1F);
    PowerNext8(96, 0x5D);
    PowerNext8(104, 0x94);
    PowerNext8(112, 0xE5);
    PowerNext(120, 0xB5);
    PowerNext(121, 0x6D);
    PowerNext(122, 0xDA);
    PowerNext(123, 0xB3);
    PowerNext(124, 0x61);
    PowerNext(125, 0xC2);
    PowerNext(126, 0x83);
  }

  lemma Prime127(k: nat, d: nat)
    requires 2 <= d < 127
    ensures k * d != 127
  {
    if k <= 11 {
      assert k == 0 || k == 1 || k == 2 || k == 3 || k == 4 || k == 5 || k == 6 || k == 7 || k == 8 || k == 9 || k == 10 || k == 11;
    } else if d <= 11 {
      assert d == 2 || d == 3 || d == 4 || d == 5 || d == 6 || d == 7 || d == 8 || d == 9 || d == 10 || d == 11;
    } else {
      assert k * d >= 12 * d;
    }
  }

  /** x has order exactly 127: a smaller order would, by Euclid's algorithm and
      because 127 is prime, make x equal to 1. */
  lemma {:induction false} NoSmallerPeriod(d: nat)
    requires 0 < d < 127
    ensures Power(d) != ONE
  {
    if d == 1 {
      assert Zeros(1)[..0] == [];
      assert Power(1) == Shift(ONE, false);
      assert Shift(ONE, false)[6];
    } else {
      hide Power;
      PowerPeriod();
      if Reduce(127, d) == 0 {
        var k := ReduceToZero(127, d);
        Prime127(k, d);
      } else {
        NoSmallerPeriod(Reduce(127, d));
        if Power(d) == ONE {
          PowerReduce(127, d);
        }
      }
    }
  }

  lemma PowerIsOneIff(n: nat)
    ensures Power(n) == ONE <==> n % 127 == 0
  {
    PowerPeriod();
    PowerReduce(n, 127);
    ReduceBy127(n);
    if n % 127 == 0 {
      assert Zeros(0) == [];
    } else {
      hide Power;
      NoSmallerPeriod(n % 127);
    }
  }

  /** An error of exactly two bits gets through if and only if the bits are a
      multiple of 127 positions apart. */
  lemma DoubleErrorAcceptedIff(sent: seq<bv8>, received: seq<bv8>, i: nat, j: nat)
    requires |sent| == |received| && Accepts(sent)
    requires i < j < 8 * |sent|
    requires forall k | 0 <= k < 8 * |sent| :: ToBits(sent)[k] != ToBits(received)[k] <==> k == i || k == j
    ensures Accepts(received) <==> (j - i) % 127 == 0
  {
    var e := Error(sent, received);
    UndetectedIffNoRemainder(sent, received);
    TwoBitRemainder(e, i, j);
    PowerIsOneIff(j - i);
  }

  lemma TwoBitRemainder(e: seq<bool>, i: nat, j: nat)
    requires i < j < |e|
    requires forall k | 0 <= k < |e| :: e[k] <==> k == i || k == j
    ensures Rem(e) == Zeros(8) <==> Power(j - i) == ONE
  {
    hide Shift, XorBits;
    var gap, rest := j - i - 1, |e| - j - 1;
    var head := Zeros(i) + [true];
    assert e[..i + 1] == head;
    assert e[..j] == head + Zeros(gap);
    assert e[..j + 1][..j] == e[..j];
    assert e == e[..j + 1] + Zeros(rest);
    assert Rem(head) == ONE by {
      assert head[..i] == Zeros(i);
      FeedOnlyZeros(i);
      assert Shift(Zeros(8), true) == ONE;
    }
    FeedSplit(Zeros(8), head, Zeros(gap));
    assert Rem(e[..j]) == Power(gap);
    assert Rem(e[..j + 1]) == Shift(Power(gap), true);
    FeedSplit(Zeros(8), e[..j + 1], Zeros(rest));
    TimesPowerZero(Shift(Power(gap), true), rest);
    TimesPowerNext(ONE, gap);
    ShiftTrueZero(Power(gap));
  }

  lemma ShiftTrueZero(r: Reg)
    ensures Shift(r, true) == Zeros(8) <==> Shift(r, false) == ONE
  {
    var s, t := Shift(r, true), Shift(r, false);
    assert s[7] != t[7];
    assert forall i | 0 <= i < 7 :: s[i] == t[i] && !ONE[i];
  }
}
