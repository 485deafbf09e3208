/** The checksum of a Stellar key: CRC-16/XMODEM (polynomial 0x1021, initial value 0).

    The code computes it one byte at a time, without a table and without testing any bit.
    Here that form is proved equal to polynomial long division over GF(2), one bit at a time,
    to be linear, and to detect every change of one byte or of two adjacent bytes.

    Bit-vector facts are proved in small lemmas that take intermediate values as parameters;
    everything else hides the bodies of these functions and reasons by equality alone. */
module Crc {
  import opened Words

  // ----- the code's form ----------------------------------------------------------------

  /** The body of the loop, assignment by assignment. */
  function Round(crc: u16, byte: u8): u16 {
    var code := (crc >> 8) & 0xff;
    var code := code ^ (byte as u16);
    var code := code ^ (code >> 4);
    var crc := crc << 8;
    var crc := crc ^ code;
    var code := code << 5;
    var crc := crc ^ code;
    var code := code << 7;
    crc ^ code
  }

  /** The register after the loop has started from `crc` and read all of `bytes`. */
  function Continue(crc: u16, bytes: seq<u8>): u16
    decreases bytes
  {
    if bytes == [] then crc else Continue(Round(crc, bytes[0]), bytes[1..])
  }

  function Checksum(bytes: seq<u8>): u16 {
    Continue(0, bytes)
  }

  lemma {:induction false} ContinueConcat(crc: u16, a: seq<u8>, b: seq<u8>)
    ensures Continue(crc, a + b) == Continue(Continue(crc, a), b)
    decreases a
  {
    hide Round;
    if a == [] {
      assert a + b == b;
    } else {
      assert (a + b)[0] == a[0] && (a + b)[1..] == a[1..] + b;
      ContinueConcat(Round(crc, a[0]), a[1..], b);
    }
  }

  lemma ContinueOneMore(crc: u16, bytes: seq<u8>, i: nat)
    requires i < |bytes|
    ensures Continue(crc, bytes[..i + 1]) == Round(Continue(crc, bytes[..i]), bytes[i])
  {
    hide Round;
    assert bytes[..i] + [bytes[i]] == bytes[..i + 1];
    ContinueConcat(crc, bytes[..i], [bytes[i]]);
  }

  method Compute(bytes: seq<u8>) returns (crc: u16)
    ensures crc == Checksum(bytes)
  {
    hide Round;
    crc := 0;
    for i := 0 to |bytes|
      invariant crc == Continue(0, bytes[..i])
    {
      ContinueOneMore(0, bytes, i);
      crc := Round(crc, bytes[i]);
    }
    assert bytes[..|bytes|] == bytes;
  }

  // ----- long division, the reference ---------------------------------------------------

  const POLYNOMIAL: u16 := 0x1021

  /** Shifts one more bit of the dividend into the remainder and subtracts the
      polynomial when the bit that leaves is set. */
  function ShiftIn(remainder: u16, bit: u16): u16 {
    var shifted := (remainder << 1) | bit;
    if remainder & 0x8000 != 0 then shifted ^ POLYNOMIAL else shifted
  }

  /** The eight bits of a byte, the most significant first. */
  function ShiftInByte(remainder: u16, byte: u8): u16 {
    var b := byte as u16;
    var r := ShiftIn(remainder, (b >> 7) & 1);
    var r := ShiftIn(r, (b >> 6) & 1);
    var r := ShiftIn(r, (b >> 5) & 1);
    var r := ShiftIn(r, (b >> 4) & 1);
    var r := ShiftIn(r, (b >> 3) & 1);
    var r := ShiftIn(r, (b >> 2) & 1);
    var r := ShiftIn(r, (b >> 1) & 1);
    ShiftIn(r, b & 1)
  }

  /** The remainder once all bits of the dividend have been shifted in. */
  function Divide(remainder: u16, dividend: seq<u8>): u16
    decreases dividend
  {
    if dividend == [] then remainder else Divide(ShiftInByte(remainder, dividend[0]), dividend[1..])
  }

  lemma {:induction false} DivideConcat(r: u16, a: seq<u8>, b: seq<u8>)
    ensures Divide(r, a + b) == Divide(Divide(r, a), b)
    decreases a
  {
    hide ShiftInByte;
    if a == [] {
      assert a + b == b;
    } else {
      assert (a + b)[0] == a[0] && (a + b)[1..] == a[1..] + b;
      DivideConcat(ShiftInByte(r, a[0]), a[1..], b);
    }
  }

  // ----- closed forms: one, two, four and eight shifts at once --------------------------

  /** What the bits `n` that leave the register leave behind in it. */
  function One(r: u16, p: u16): u16 {
    (r << 1) ^ p ^ (r >> 15) ^ ((r >> 15) << 5) ^ ((r >> 15) << 12)
  }

  function Two(r: u16, p: u16, q: u16): u16 {
    (r << 2) ^ (p << 1) ^ q ^ (r >> 14) ^ ((r >> 14) << 5) ^ ((r >> 14) << 12)
  }

  function Four(r: u16, p: u16, q: u16, s: u16, t: u16): u16 {
    (r << 4) ^ (p << 3) ^ (q << 2) ^ (s << 1) ^ t ^ (r >> 12) ^ ((r >> 12) << 5) ^ ((r >> 12) << 12)
  }

  /** Four shifts that bring in the four bits of `n`. */
  function Nibble(r: u16, n: u16): u16 {
    (r << 4) ^ n ^ (r >> 12) ^ ((r >> 12) << 5) ^ ((r >> 12) << 12)
  }

  /** Eight shifts that bring in a byte. */
  function EightWith(r: u16, byte: u8): u16 {
    var out := (r >> 8) ^ (r >> 12);
    (r << 8) ^ (byte as u16) ^ out ^ (out << 5) ^ (out << 12)
  }

  lemma OneIs(r: u16, p: u16)
    requires p <= 1
    ensures ShiftIn(r, p) == One(r, p)
  {
    if r & 0x8000 != 0 {
      assert r >> 15 == 1;
    } else {
      assert r >> 15 == 0;
    }
  }

  lemma OneUnfolded(r: u16, p: u16)
    ensures One(r, p) == (r << 1) ^ p ^ (r >> 15) ^ ((r >> 15) << 5) ^ ((r >> 15) << 12)
  {}

  lemma TwoUnfolded(r: u16, p: u16, q: u16)
    ensures Two(r, p, q) == (r << 2) ^ (p << 1) ^ q ^ (r >> 14) ^ ((r >> 14) << 5) ^ ((r >> 14) << 12)
  {}

  lemma NibbleUnfolded(r: u16, n: u16)
    ensures Nibble(r, n) == (r << 4) ^ n ^ (r >> 12) ^ ((r >> 12) << 5) ^ ((r >> 12) << 12)
  {}

  lemma TwiceOne(r: u16, p: u16, q: u16, m: u16)
    requires p <= 1 && q <= 1
    requires m == (r << 1) ^ p ^ (r >> 15) ^ ((r >> 15) << 5) ^ ((r >> 15) << 12)
    ensures One(m, q) == Two(r, p, q)
  {}

  lemma TwiceTwo(r: u16, p: u16, q: u16, s: u16, t: u16, m: u16)
    requires p <= 1 && q <= 1 && s <= 1 && t <= 1
    requires m == (r << 2) ^ (p << 1) ^ q ^ (r >> 14) ^ ((r >> 14) << 5) ^ ((r >> 14) << 12)
    ensures Two(m, s, t) == Four(r, p, q, s, t)
  {}

  lemma HighNibble(r: u16, byte: u8, b: u16)
    requires b == byte as u16
    ensures Four(r, (b >> 7) & 1, (b >> 6) & 1, (b >> 5) & 1, (b >> 4) & 1) == Nibble(r, (byte >> 4) as u16)
  {}

  lemma LowNibble(r: u16, byte: u8, b: u16)
    requires b == byte as u16
    ensures Four(r, (b >> 3) & 1, (b >> 2) & 1, (b >> 1) & 1, b & 1) == Nibble(r, (byte & 15) as u16)
  {}

  lemma TwiceNibble(r: u16, byte: u8, m: u16)
    requires m == (r << 4) ^ ((byte >> 4) as u16) ^ (r >> 12) ^ ((r >> 12) << 5) ^ ((r >> 12) << 12)
    ensures Nibble(m, (byte & 15) as u16) == EightWith(r, byte)
  {}

  lemma TwoIs(r: u16, p: u16, q: u16)
    requires p <= 1 && q <= 1
    ensures ShiftIn(ShiftIn(r, p), q) == Two(r, p, q)
  {
    hide *;
    OneIs(r, p);
    OneIs(One(r, p), q);
    OneUnfolded(r, p);
    TwiceOne(r, p, q, One(r, p));
  }

  lemma FourIs(r: u16, p: u16, q: u16, s: u16, t: u16)
    requires p <= 1 && q <= 1 && s <= 1 && t <= 1
    ensures ShiftIn(ShiftIn(ShiftIn(ShiftIn(r, p), q), s), t) == Four(r, p, q, s, t)
  {
    hide *;
    TwoIs(r, p, q);
    TwoIs(Two(r, p, q), s, t);
    TwoUnfolded(r, p, q);
    TwiceTwo(r, p, q, s, t, Two(r, p, q));
  }

  lemma ShiftInByteIs(r: u16, byte: u8)
    ensures ShiftInByte(r, byte) == EightWith(r, byte)
  {
    hide ShiftIn, Nibble, EightWith;
    var b := byte as u16;
    FourIs(r, (b >> 7) & 1, (b >> 6) & 1, (b >> 5) & 1, (b >> 4) & 1);
    HighNibble(r, byte, b);
    NibbleUnfolded(r, (byte >> 4) as u16);
    var m := Nibble(r, (byte >> 4) as u16);
    FourIs(m, (b >> 3) & 1, (b >> 2) & 1, (b >> 1) & 1, b & 1);
    LowNibble(m, byte, b);
    TwiceNibble(r, byte, m);
  }

  // ----- the code's form is long division of the message followed by sixteen zero bits ---

  /** Sixteen shifts with nothing shifted in. */
  function Sixteen(r: u16): u16 {
    var out := (r >> 8) ^ (r >> 12);
    var m := (r << 8) ^ out ^ (out << 5) ^ (out << 12);
    var out := (m >> 8) ^ (m >> 12);
    (m << 8) ^ out ^ (out << 5) ^ (out << 12)
  }

  /** A byte and then sixteen zero bits shifted in. */
  function ByteThenSixteen(r: u16, byte: u8): u16 {
    var out := (r >> 8) ^ (r >> 12);
    var m := (r << 8) ^ (byte as u16) ^ out ^ (out << 5) ^ (out << 12);
    var out := (m >> 8) ^ (m >> 12);
    var m := (m << 8) ^ out ^ (out << 5) ^ (out << 12);
    var out := (m >> 8) ^ (m >> 12);
    (m << 8) ^ out ^ (out << 5) ^ (out << 12)
  }

  /** What eight and sixteen shifts make of `r`, with a byte and without. */
  predicate IsEightWith(r: u16, byte: u8, m: u16) {
    var out := (r >> 8) ^ (r >> 12);
    m == (r << 8) ^ (byte as u16) ^ out ^ (out << 5) ^ (out << 12)
  }

  predicate IsEight(r: u16, m: u16) {
    var out := (r >> 8) ^ (r >> 12);
    m == (r << 8) ^ out ^ (out << 5) ^ (out << 12)
  }

  predicate IsSixteen(r: u16, z: u16) {
    var out := (r >> 8) ^ (r >> 12);
    var m := (r << 8) ^ out ^ (out << 5) ^ (out << 12);
    var out := (m >> 8) ^ (m >> 12);
    z == (m << 8) ^ out ^ (out << 5) ^ (out << 12)
  }

  lemma EightWithFollows(r: u16, byte: u8, m: u16)
    requires m == EightWith(r, byte)
    ensures IsEightWith(r, byte, m)
  {}

  lemma SixteenFollows(r: u16, z: u16)
    requires z == Sixteen(r)
    ensures IsSixteen(r, z)
  {}

  lemma EightFollows(r: u16, m: u16)
    requires m == EightWith(r, 0)
    ensures IsEight(r, m)
  {}

  lemma TwiceEight(r: u16, m: u16, z: u16)
    requires IsEight(r, m) && IsEight(m, z)
    ensures IsSixteen(r, z)
  {}

  lemma SixteenIs(r: u16, z: u16)
    requires IsSixteen(r, z)
    ensures z == Sixteen(r)
  {}

  lemma SixteenAfterByte(r: u16, byte: u8, m: u16)
    requires IsEightWith(r, byte, m)
    ensures Sixteen(m) == ByteThenSixteen(r, byte)
  {}

  lemma RoundAfterSixteen(r: u16, byte: u8, z: u16)
    requires IsSixteen(r, z)
    ensures Round(z, byte) == ByteThenSixteen(r, byte)
  {}

  /** A round of the code does to the flushed register what shifting in the byte does
      to the register before the flush. */
  lemma RoundIsByteThenFlush(r: u16, byte: u8)
    ensures Round(Sixteen(r), byte) == Sixteen(ShiftInByte(r, byte))
  {
    hide *;
    ShiftInByteIs(r, byte);
    EightWithFollows(r, byte, EightWith(r, byte));
    SixteenFollows(r, Sixteen(r));
    SixteenAfterByte(r, byte, EightWith(r, byte));
    RoundAfterSixteen(r, byte, Sixteen(r));
  }

  lemma FlushIsDivision(r: u16)
    ensures Divide(r, [0, 0]) == Sixteen(r)
  {
    hide ShiftInByte, EightWith, Sixteen, IsEight, IsSixteen;
    var m := EightWith(r, 0);
    ShiftInByteIs(r, 0);
    ShiftInByteIs(m, 0);
    EightFollows(r, m);
    EightFollows(m, EightWith(m, 0));
    TwiceEight(r, m, EightWith(m, 0));
    SixteenIs(r, EightWith(m, 0));
    assert [0 as u8, 0][1..] == [0];
    assert [0 as u8][1..] == [];
  }

  lemma {:induction false} ContinueIsDivision(r: u16, bytes: seq<u8>)
    ensures Continue(Sixteen(r), bytes) == Sixteen(Divide(r, bytes))
    decreases bytes
  {
    hide Round, ShiftInByte, Sixteen;
    if bytes != [] {
      RoundIsByteThenFlush(r, bytes[0]);
      ContinueIsDivision(ShiftInByte(r, bytes[0]), bytes[1..]);
    }
  }

  /** The checksum is the remainder of the message, multiplied by x^16, on division by
      the polynomial x^16 + x^12 + x^5 + 1. */
  lemma ChecksumIsLongDivision(bytes: seq<u8>)
    ensures Checksum(bytes) == Divide(0, bytes + [0, 0])
  {
    assert Sixteen(0) == 0;
    hide *;
    ContinueIsDivision(0, bytes);
    DivideConcat(0, bytes, [0, 0]);
    FlushIsDivision(Divide(0, bytes));
    assert Checksum(bytes) == Continue(0, bytes) by {
      ChecksumUnfolded(bytes);
    }
  }

  lemma ChecksumUnfolded(bytes: seq<u8>)
    ensures Checksum(bytes) == Continue(0, bytes)
  {}

  // ----- linearity ----------------------------------------------------------------------

  function Xor(a: u16, b: u16): u16 { a ^ b }

  function XorBytes(a: seq<u8>, b: seq<u8>): (r: seq<u8>)
    requires |a| == |b|
  {
    seq(|a|, i requires 0 <= i < |a| => a[i] ^ b[i])
  }

  /** A round in terms of what it cuts out of the register: `y` follows on `c`. Bit-vector facts
      about rounds are stated of this form, on plain values. */
  predicate IsRound(c: u16, byte: u8, y: u16) {
    var high := (c >> 8) ^ (byte as u16);
    var code := high ^ (high >> 4);
    y == (c << 8) ^ code ^ (code << 5) ^ (code << 12)
  }

  lemma RoundFollows(c: u16, byte: u8, y: u16)
    requires y == Round(c, byte)
    ensures IsRound(c, byte, y)
  {}

  /** The round of two sums, and the sum of two rounds. */
  function RoundOfSum(a: u16, b: u16, x: u8, y: u8): u16 {
    var high := ((a ^ b) >> 8) ^ ((x ^ y) as u16);
    var code := high ^ (high >> 4);
    ((a ^ b) << 8) ^ code ^ (code << 5) ^ (code << 12)
  }

  function SumOfRounds(a: u16, b: u16, x: u8, y: u8): u16 {
    var h, i := (a >> 8) ^ (x as u16), (b >> 8) ^ (y as u16);
    var p, q := h ^ (h >> 4), i ^ (i >> 4);
    ((a << 8) ^ p ^ (p << 5) ^ (p << 12)) ^ ((b << 8) ^ q ^ (q << 5) ^ (q << 12))
  }

  function SumWithRound(r: u16, b: u16, y: u8): u16 {
    var i := (b >> 8) ^ (y as u16);
    var q := i ^ (i >> 4);
    r ^ ((b << 8) ^ q ^ (q << 5) ^ (q << 12))
  }

  lemma RoundOfSumIs(a: u16, b: u16, x: u8, y: u8, c: u16, z: u8)
    requires c == a ^ b && z == x ^ y
    ensures Round(c, z) == RoundOfSum(a, b, x, y)
  {}

  lemma RoundOfSumIsSumOfRounds(a: u16, b: u16, x: u8, y: u8)
    ensures RoundOfSum(a, b, x, y) == SumOfRounds(a, b, x, y)
  {}

  lemma SumOfRoundsLeft(a: u16, b: u16, x: u8, y: u8, r: u16)
    requires IsRound(a, x, r)
    ensures SumWithRound(r, b, y) == SumOfRounds(a, b, x, y)
  {}

  lemma SumOfRoundsRight(r: u16, b: u16, y: u8, s: u16)
    requires IsRound(b, y, s)
    ensures Xor(r, s) == SumWithRound(r, b, y)
  {}

  lemma XorUnfolded(a: u16, b: u16)
    ensures Xor(a, b) == a ^ b
  {}

  lemma RoundLinear(a: u16, b: u16, x: u8, y: u8)
    ensures Round(Xor(a, b), x ^ y) == Xor(Round(a, x), Round(b, y))
  {
    hide *;
    var r, s := Round(a, x), Round(b, y);
    RoundFollows(a, x, r);
    RoundFollows(b, y, s);
    XorUnfolded(a, b);
    RoundOfSumIs(a, b, x, y, Xor(a, b), x ^ y);
    RoundOfSumIsSumOfRounds(a, b, x, y);
    SumOfRoundsLeft(a, b, x, y, r);
    SumOfRoundsRight(r, b, y, s);
  }

  lemma {:induction false} ContinueLinear(c: u16, d: u16, a: seq<u8>, b: seq<u8>)
    requires |a| == |b|
    ensures Continue(Xor(c, d), XorBytes(a, b)) == Xor(Continue(c, a), Continue(d, b))
    decreases a
  {
    hide Round, Xor;
    if a != [] {
      RoundLinear(c, d, a[0], b[0]);
      assert XorBytes(a, b)[1..] == XorBytes(a[1..], b[1..]);
      ContinueLinear(Round(c, a[0]), Round(d, b[0]), a[1..], b[1..]);
    }
  }

  lemma ChecksumLinear(a: seq<u8>, b: seq<u8>)
    requires |a| == |b|
    ensures Checksum(XorBytes(a, b)) == Checksum(a) ^ Checksum(b)
  {
    assert Xor(0, 0) == 0;
    ContinueLinear(0, 0, a, b);
    XorUnfolded(Continue(0, a), Continue(0, b));
    hide Continue, Xor, XorBytes;
  }

  // ----- what the checksum detects ------------------------------------------------------

  function Wide(byte: u8): u16 { byte as u16 }

  /** A byte added to the high half of a register. */
  function WithHigh(c: u16, byte: u8): u16 { c ^ ((byte as u16) << 8) }

  /** Undoes a round, up to the byte that went in. */
  function Back(y: u16): u16 {
    var m := (y ^ (y << 5)) & 0xff;
    ((y ^ m ^ (m << 5) ^ (m << 12)) >> 8) | ((m ^ (m >> 4)) << 8)
  }

  /** The byte that took register `c` to a register whose low byte is that of `y`. */
  function ByteBetween(c: u16, y: u16): u16 {
    var m := (y ^ (y << 5)) & 0xff;
    m ^ (m >> 4) ^ (c >> 8)
  }

  lemma BackIs(c: u16, byte: u8, y: u16)
    requires IsRound(c, byte, y)
    ensures Back(y) == WithHigh(c, byte)
  {}

  lemma ByteBetweenIs(c: u16, byte: u8, y: u16)
    requires IsRound(c, byte, y)
    ensures ByteBetween(c, y) == Wide(byte)
  {}

  lemma ByteBetweenLow(c: u16, y: u16, byte: u8, z: u16)
    requires z == WithHigh(y, byte)
    ensures ByteBetween(c, z) == ByteBetween(c, y)
  {}

  lemma Widen(x: u8, y: u8)
    requires Wide(x) == Wide(y)
    ensures x == y
  {}

  lemma CancelByte(c: u16, d: u16, byte: u8)
    requires WithHigh(c, byte) == WithHigh(d, byte)
    ensures c == d
  {}

  /** The register before a round is determined by the register after it. */
  lemma RoundInjective(c: u16, d: u16, byte: u8)
    requires Round(c, byte) == Round(d, byte)
    ensures c == d
  {
    hide *;
    RoundFollows(c, byte, Round(c, byte));
    BackIs(c, byte, Round(c, byte));
    RoundFollows(d, byte, Round(d, byte));
    BackIs(d, byte, Round(d, byte));
    CancelByte(c, d, byte);
  }

  /** The byte of a round is determined by the registers around it. */
  lemma ByteInjective(c: u16, x: u8, y: u8)
    requires Round(c, x) == Round(c, y)
    ensures x == y
  {
    hide *;
    RoundFollows(c, x, Round(c, x));
    ByteBetweenIs(c, x, Round(c, x));
    RoundFollows(c, y, Round(c, y));
    ByteBetweenIs(c, y, Round(c, y));
    Widen(x, y);
  }

  /** So are the two bytes of two rounds. */
  lemma TwoBytesInjective(c: u16, x: u8, y: u8, x': u8, y': u8)
    requires Round(Round(c, x), y) == Round(Round(c, x'), y')
    ensures x == x' && y == y'
  {
    hide *;
    var r, r' := Round(c, x), Round(c, x');
    var z := Back(Round(r, y));
    RoundFollows(r, y, Round(r, y));
    BackIs(r, y, Round(r, y));
    RoundFollows(r', y', Round(r', y'));
    BackIs(r', y', Round(r', y'));
    ByteBetweenLow(c, r, y, z);
    ByteBetweenLow(c, r', y', z);
    RoundFollows(c, x, Round(c, x));
    ByteBetweenIs(c, x, r);
    RoundFollows(c, x', Round(c, x'));
    ByteBetweenIs(c, x', r');
    Widen(x, x');
    ByteInjective(r, y, y');
  }

  lemma {:induction false} ContinueInjective(c: u16, d: u16, bytes: seq<u8>)
    requires Continue(c, bytes) == Continue(d, bytes)
    ensures c == d
    decreases bytes
  {
    hide Round;
    if bytes != [] {
      ContinueInjective(Round(c, bytes[0]), Round(d, bytes[0]), bytes[1..]);
      RoundInjective(c, d, bytes[0]);
    }
  }

  lemma ContinueAcross(bytes: seq<u8>, i: nat)
    requires i < |bytes|
    ensures var c := Continue(0, bytes[..i]);
            Checksum(bytes) == if i + 1 < |bytes|
                               then Continue(Round(Round(c, bytes[i]), bytes[i + 1]), bytes[i + 2..])
                               else Round(c, bytes[i])
  {
    hide Round;
    assert bytes == bytes[..i] + bytes[i..];
    ContinueConcat(0, bytes[..i], bytes[i..]);
    if i + 1 < |bytes| {
      assert bytes[i..][1..][1..] == bytes[i + 2..];
    }
  }

  /** Any change confined to one byte, or to two adjacent bytes, changes the checksum. */
  lemma ChangeDetected(a: seq<u8>, b: seq<u8>, i: nat)
    requires |a| == |b| && i < |a|
    requires forall k :: 0 <= k < |a| && k != i && k != i + 1 ==> a[k] == b[k]
    requires a != b
    ensures Checksum(a) != Checksum(b)
  {
    hide Round, Continue, Checksum;
    ContinueAcross(a, i);
    ContinueAcross(b, i);
    assert a[..i] == b[..i];
    var c := Continue(0, a[..i]);
    assert a[i] != b[i] || (i + 1 < |a| && a[i + 1] != b[i + 1]) by {
      assert exists k :: 0 <= k < |a| && a[k] != b[k];
    }
    if Checksum(a) == Checksum(b) {
      if i + 1 < |a| {
        assert a[i + 2..] == b[i + 2..];
        ContinueInjective(Round(Round(c, a[i]), a[i + 1]), Round(Round(c, b[i]), b[i + 1]), a[i + 2..]);
        TwoBytesInjective(c, a[i], a[i + 1], b[i], b[i + 1]);
      } else {
        ByteInjective(c, a[i], b[i]);
      }
    }
  }

  // ----- the high half of the checksum --------------------------------------------------

  function HighByte(crc: u16): u16 { crc >> 8 }

  function HighHalf(x: u8): u8 { x >> 4 }

  /** The low half of the last byte, from the register before it, its high half and the
      high byte of the register after it. */
  function LowHalfOfLast(c: u16, highHalf: u8, highByte: u16): u16 {
    var h := highHalf as u16;
    h ^ (c >> 12) ^ ((c >> 4) & 0xf) ^ ((highByte >> 4) & 0xf) ^ (((c >> 12) ^ h) >> 3) ^ ((c >> 8) & 0xf)
  }

  lemma LowHalfOfLastIs(c: u16, byte: u8, y: u16)
    requires IsRound(c, byte, y)
    ensures LowHalfOfLast(c, byte >> 4, y >> 8) == (byte & 0xf) as u16
  {}

  lemma Halves(c: u16, byte: u8, y: u16)
    requires IsRound(c, byte, y)
    ensures LowHalfOfLast(c, HighHalf(byte), HighByte(y)) == (byte & 0xf) as u16
  {
    LowHalfOfLastIs(c, byte, y);
    hide LowHalfOfLast;
  }

  lemma JoinHalves(x: u8, y: u8)
    requires HighHalf(x) == HighHalf(y) && (x & 0xf) as u16 == (y & 0xf) as u16
    ensures x == y
  {}

  /** A change of the low half of the last byte already shows in the high byte alone. */
  lemma LastHalfDetected(c: u16, x: u8, y: u8)
    requires HighHalf(x) == HighHalf(y)
    requires HighByte(Round(c, x)) == HighByte(Round(c, y))
    ensures x == y
  {
    hide *;
    RoundFollows(c, x, Round(c, x));
    Halves(c, x, Round(c, x));
    RoundFollows(c, y, Round(c, y));
    Halves(c, y, Round(c, y));
    JoinHalves(x, y);
  }
}
