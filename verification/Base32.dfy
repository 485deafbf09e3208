/** Base 32 without padding (RFC 4648, section 6), as the key codec implements it with
    a shift counter and a carry register.

    The reference is the regrouping of one stream of bits: eight per byte on one side,
    five per letter on the other. */
module Base32 {
  import opened Words

  datatype DecodeResult = Ok(bytes: seq<u8>) | InvalidBase32Character

  // ----- letters ------------------------------------------------------------------------

  const ALPHABET := "ABCDEFGHIJKLMNOPQRSTUVWXYZ234567"

  function Letter(value: u8): char {
    ALPHABET[(value & 0x1f) as int]
  }

  /** `ascii_to_value_5bit`; besides the alphabet it accepts lower case, '0' and '1'. */
  function Value(c: char): (v: Option<u8>)
    ensures v.Some? ==> v.value < 32
  {
    if 'a' <= c <= 'z' then Some((c as int - 'a' as int) as u8)
    else if 'A' <= c <= 'Z' then Some((c as int - 'A' as int) as u8)
    else if '2' <= c <= '7' then Some((c as int - '2' as int + 26) as u8)
    else if c == '0' then Some(14)
    else if c == '1' then Some(8)
    else None
  }

  lemma ValueOfFirstLetters(v: u8)
    requires v < 16
    ensures Value(Letter(v)) == Some(v) && Letter(v) != '='
  {
    if v < 4 {
    } else if v < 8 {
    } else if v < 12 {
    } else {
    }
  }

  lemma ValueOfLastLetters(v: u8)
    requires 16 <= v < 32
    ensures Value(Letter(v)) == Some(v) && Letter(v) != '='
  {
    if v < 20 {
    } else if v < 24 {
    } else if v < 28 {
    } else {
    }
  }

  lemma ValueOfLetter(v: u8)
    requires v < 32
    ensures Value(Letter(v)) == Some(v) && Letter(v) != '='
  {
    hide Value, Letter;
    if v < 16 {
      ValueOfFirstLetters(v);
    } else {
      ValueOfLastLetters(v);
    }
  }

  /** The alphabet is the letters and the digits from '2'. */
  lemma LetterIs(v: u8)
    requires v < 32
    ensures Letter(v) == if v < 26 then ('A' as int + v as int) as char else ('2' as int + (v as int - 26)) as char
  {
    if v < 8 {
    } else if v < 16 {
    } else if v < 24 {
    } else {
    }
  }

  /** The characters that stand for a value: letters of either case and the digits 0 to 7. */
  predicate Readable(c: char) {
    'A' <= c <= 'Z' || 'a' <= c <= 'z' || '0' <= c <= '7'
  }

  lemma ReadableIff(c: char)
    ensures Value(c).Some? <==> Readable(c)
  {}

  /** The letter of the alphabet that a character is read as. */
  function Canonical(c: char): char {
    if 'a' <= c <= 'z' then (c as int - 'a' as int + 'A' as int) as char
    else if c == '0' then 'O'
    else if c == '1' then 'I'
    else c
  }

  lemma CanonicalValue(c: char)
    ensures Value(Canonical(c)) == Value(c) && (Canonical(c) == '=' <==> c == '=')
  {}

  // ----- the bit stream -----------------------------------------------------------------

  /** Bit `k` of a byte sequence; zero beyond its end. */
  function StreamBit(bytes: seq<u8>, k: nat): bit {
    if k / 8 < |bytes| then BitOfByte(bytes[k / 8], k % 8) else 0
  }

  /** Bit `k` of a sequence of five-bit values; zero beyond its end. */
  function ValueBit(values: seq<u8>, k: nat): bit {
    if k / 5 < |values| then BitOfFive(values[k / 5], k % 5) else 0
  }

  /** Bits 5j .. 5j+4 of a byte sequence. */
  function Quintet(bytes: seq<u8>, j: nat): u8 {
    JoinFive(StreamBit(bytes, 5 * j), StreamBit(bytes, 5 * j + 1), StreamBit(bytes, 5 * j + 2),
             StreamBit(bytes, 5 * j + 3), StreamBit(bytes, 5 * j + 4))
  }

  /** Bits 8k .. 8k+7 of a sequence of five-bit values. */
  function Octet(values: seq<u8>, k: nat): u8 {
    JoinEight(ValueBit(values, 8 * k), ValueBit(values, 8 * k + 1), ValueBit(values, 8 * k + 2),
              ValueBit(values, 8 * k + 3), ValueBit(values, 8 * k + 4), ValueBit(values, 8 * k + 5),
              ValueBit(values, 8 * k + 6), ValueBit(values, 8 * k + 7))
  }

  // ----- encoding -----------------------------------------------------------------------

  function QuintetCount(n: nat): nat { (8 * n + 4) / 5 }

  function Quintets(bytes: seq<u8>): seq<u8> {
    seq(QuintetCount(|bytes|), j requires 0 <= j => Quintet(bytes, j))
  }

  /** The text of RFC 4648: one letter per group of five bits, the last group filled up with zeros. */
  function Encoded(bytes: seq<u8>): string {
    seq(QuintetCount(|bytes|), j requires 0 <= j => Letter(Quintet(bytes, j)))
  }

  /** Five bits that start at bit `off` of `x` and may run over into `y`. */
  function Group(x: u8, y: u8, off: int): u8
    requires 0 <= off < 8
  {
    (if off <= 3 then Shr(x, 3 - off) else Shl(x, off - 3) | Shr(y, 11 - off)) & 0x1f
  }

  lemma GroupBits(x: u8, y: u8)
    ensures JoinFive(BitOfByte(x, 0), BitOfByte(x, 1), BitOfByte(x, 2), BitOfByte(x, 3), BitOfByte(x, 4))
         == Group(x, y, 0)
    ensures JoinFive(BitOfByte(x, 1), BitOfByte(x, 2), BitOfByte(x, 3), BitOfByte(x, 4), BitOfByte(x, 5))
         == Group(x, y, 1)
    ensures JoinFive(BitOfByte(x, 2), BitOfByte(x, 3), BitOfByte(x, 4), BitOfByte(x, 5), BitOfByte(x, 6))
         == Group(x, y, 2)
    ensures JoinFive(BitOfByte(x, 3), BitOfByte(x, 4), BitOfByte(x, 5), BitOfByte(x, 6), BitOfByte(x, 7))
         == Group(x, y, 3)
  {}

  lemma GroupBitsAcross(x: u8, y: u8)
    ensures JoinFive(BitOfByte(x, 4), BitOfByte(x, 5), BitOfByte(x, 6), BitOfByte(x, 7), BitOfByte(y, 0))
         == Group(x, y, 4)
    ensures JoinFive(BitOfByte(x, 5), BitOfByte(x, 6), BitOfByte(x, 7), BitOfByte(y, 0), BitOfByte(y, 1))
         == Group(x, y, 5)
    ensures JoinFive(BitOfByte(x, 6), BitOfByte(x, 7), BitOfByte(y, 0), BitOfByte(y, 1), BitOfByte(y, 2))
         == Group(x, y, 6)
    ensures JoinFive(BitOfByte(x, 7), BitOfByte(y, 0), BitOfByte(y, 1), BitOfByte(y, 2), BitOfByte(y, 3))
         == Group(x, y, 7)
  {}

  /** Bit `t` of two adjacent bytes. */
  function BitOfPair(x: u8, y: u8, t: nat): bit
    requires t < 16
  {
    if t < 8 then BitOfByte(x, t) else BitOfByte(y, t - 8)
  }

  lemma GroupAt(x: u8, y: u8, off: nat)
    requires off < 8
    ensures JoinFive(BitOfPair(x, y, off), BitOfPair(x, y, off + 1), BitOfPair(x, y, off + 2),
                     BitOfPair(x, y, off + 3), BitOfPair(x, y, off + 4)) == Group(x, y, off)
  {
    hide BitOfByte, JoinFive, Group;
    if off <= 3 {
      GroupBits(x, y);
    } else {
      GroupBitsAcross(x, y);
    }
  }

  function ByteOrZero(bytes: seq<u8>, i: nat): u8 {
    if i < |bytes| then bytes[i] else 0
  }

  lemma ZeroBits(t: nat)
    requires t < 8
    ensures BitOfByte(0, t) == 0
  {}

  lemma StreamBitAt(bytes: seq<u8>, i: nat, t: nat)
    requires t < 16
    ensures StreamBit(bytes, 8 * i + t) == BitOfPair(ByteOrZero(bytes, i), ByteOrZero(bytes, i + 1), t)
  {
    hide BitOfByte;
    if t < 8 {
      assert (8 * i + t) / 8 == i && (8 * i + t) % 8 == t;
      ZeroBits(t);
    } else {
      assert (8 * i + t) / 8 == i + 1 && (8 * i + t) % 8 == t - 8;
      ZeroBits(t - 8);
    }
  }

  /** A group of the stream is cut out of the two bytes it touches. */
  lemma QuintetIsGroup(bytes: seq<u8>, j: nat, i: nat, off: nat)
    requires 5 * j == 8 * i + off && off < 8
    ensures Quintet(bytes, j) == Group(ByteOrZero(bytes, i), ByteOrZero(bytes, i + 1), off)
  {
    hide BitOfPair, JoinFive, Group, StreamBit, ByteOrZero;
    StreamBitAt(bytes, i, off);
    StreamBitAt(bytes, i, off + 1);
    StreamBitAt(bytes, i, off + 2);
    StreamBitAt(bytes, i, off + 3);
    StreamBitAt(bytes, i, off + 4);
    GroupAt(ByteOrZero(bytes, i), ByteOrZero(bytes, i + 1), off);
  }

  /** The value of `shift` when the loop is about to read byte `i`. */
  function ShiftBefore(i: nat): int {
    if i == 0 then 3 else [8, 6, 4, 7, 5][i % 5]
  }

  /** How one byte changes `shift`. */
  lemma ShiftStep(i: nat)
    ensures 3 <= ShiftBefore(i) <= 8 && (i == 0 <==> ShiftBefore(i) == 3)
    ensures var shift := ShiftBefore(i); ShiftBefore(i + 1) == if shift > 5 then shift - 2 else shift + 3
  {}

  method Encode(binary: seq<u8>) returns (buffer: string)
    ensures buffer == Encoded(binary)
  {
    hide Shr, Shl, Quintet, Letter, ShiftBefore;
    buffer := [];
    var shift := 3;
    var carry: u8 := 0;
    var i := 0;
    ShiftStep(0);
    while i < |binary|
      invariant i <= |binary|
      invariant shift == ShiftBefore(i)
      invariant 5 * |buffer| == 8 * i - (shift - 3)
      invariant carry == if i == 0 then 0 else Shl(binary[i - 1], 8 - shift)
      invariant forall j :: 0 <= j < |buffer| ==> buffer[j] == Letter(Quintet(binary, j))
    {
      ShiftStep(i);
      ShiftStep(i + 1);
      var byte := binary[i];
      var value := if shift == 8 then carry else carry | Shr(byte, shift);
      FirstPush(binary, i, |buffer|, shift, carry);
      buffer := buffer + [Letter(value & 0x1f)];

      if shift > 5 {
        shift := shift - 5;
        value := Shr(byte, shift);
        SecondPush(binary, i, |buffer|, shift);
        buffer := buffer + [Letter(value & 0x1f)];
      }

      shift := 5 - shift;
      carry := Shl(byte, shift);
      shift := 8 - shift;
      i := i + 1;
    }
    ShiftStep(i);
    if shift != 3 {
      LastPush(binary, |buffer|, shift, carry);
      buffer := buffer + [Letter(carry & 0x1f)];
    }
  }

  /** The group that the pending bits in `carry` and the next byte complete. */
  lemma FirstPush(binary: seq<u8>, i: nat, j: nat, shift: int, carry: u8)
    requires i < |binary|
    requires shift == ShiftBefore(i)
    requires 5 * j == 8 * i - (shift - 3)
    requires carry == if i == 0 then 0 else Shl(binary[i - 1], 8 - shift)
    ensures Quintet(binary, j) == (if shift == 8 then carry else carry | Shr(binary[i], shift)) & 0x1f
  {
    hide Shr, Shl, Quintet;
    if i == 0 {
      QuintetIsGroup(binary, j, 0, 0);
      assert 0 | Shr(binary[0], 3) == Shr(binary[0], 3);
    } else {
      QuintetIsGroup(binary, j, i - 1, 11 - shift);
      NoShift(binary[i - 1]);
    }
  }

  lemma NoShift(x: u8)
    ensures Shl(x, 0) == Shr(x, 0) == x
  {}

  /** The group that lies inside one byte. */
  lemma SecondPush(binary: seq<u8>, i: nat, j: nat, shift: int)
    requires i < |binary|
    requires 0 < shift <= 3
    requires 5 * j == 8 * i + (3 - shift)
    ensures Quintet(binary, j) == Shr(binary[i], shift) & 0x1f
  {
    hide Shr, Shl, Quintet;
    QuintetIsGroup(binary, j, i, 3 - shift);
  }

  /** The group that is filled up with zeros. */
  lemma LastPush(binary: seq<u8>, j: nat, shift: int, carry: u8)
    requires binary != []
    requires shift == ShiftBefore(|binary|)
    requires 5 * j == 8 * |binary| - (shift - 3)
    requires carry == Shl(binary[|binary| - 1], 8 - shift)
    ensures Quintet(binary, j) == carry & 0x1f
  {
    hide Shl, Quintet;
    var last := binary[|binary| - 1];
    QuintetIsGroup(binary, j, |binary| - 1, 11 - shift);
    NoShift(last);
    if shift < 8 {
      ZeroFill(Shl(last, 8 - shift), shift);
    }
  }

  lemma ZeroFill(x: u8, shift: int)
    requires 0 <= shift < 8
    ensures x | Shr(0, shift) == x
  {}

  // ----- decoding -----------------------------------------------------------------------

  /** The text that is read: everything before the first '='. */
  function BeforePadding(text: string): string
    decreases text
  {
    if text == "" || text[0] == '=' then "" else [text[0]] + BeforePadding(text[1..])
  }

  predicate AllLetters(text: string) {
    forall i :: 0 <= i < |text| ==> Value(text[i]).Some?
  }

  function Values(text: string): seq<u8>
    requires AllLetters(text)
  {
    seq(|text|, i requires 0 <= i < |text| => Value(text[i]).value)
  }

  /** All whole octets of the stream, and the rest filled up with zeros unless it is zero. */
  function Octets(values: seq<u8>): seq<u8> {
    var whole := 5 * |values| / 8;
    seq(whole, k requires 0 <= k => Octet(values, k))
    + if Octet(values, whole) != 0 then [Octet(values, whole)] else []
  }

  function Decoded(text: string): DecodeResult {
    var read := BeforePadding(text);
    if AllLetters(read) then Ok(Octets(Values(read))) else InvalidBase32Character
  }

  lemma PrefixSplit(text: string, i: nat)
    requires 0 < i <= |text|
    ensures text[..i] == [text[0]] + text[1..][..i - 1]
    ensures forall c :: c in text[1..][..i - 1] ==> c in text[..i]
  {
    var rest := text[1..][..i - 1];
    assert forall k :: 0 <= k < i - 1 ==> rest[k] == text[k + 1];
    assert text[..i] == [text[0]] + rest;
  }

  lemma {:induction false} BeforePaddingIs(text: string, i: nat)
    requires i <= |text| && '=' !in text[..i]
    requires i < |text| ==> text[i] == '='
    ensures BeforePadding(text) == text[..i]
    decreases text
  {
    if i > 0 {
      PrefixSplit(text, i);
      BeforePaddingIs(text[1..], i - 1);
    }
  }

  lemma {:induction false} BeforePaddingStarts(text: string, i: nat)
    requires i <= |text| && '=' !in text[..i]
    ensures i <= |BeforePadding(text)| && BeforePadding(text)[..i] == text[..i]
    decreases text
  {
    if i > 0 {
      PrefixSplit(text, i);
      BeforePaddingStarts(text[1..], i - 1);
    }
  }

  /** Bit `t` of an octet that holds `used` bits, once the five bits of `v` follow them. */
  function Appended(p: bit, v: u8, used: nat, t: nat): bit {
    if t < used then p else if t < used + 5 then BitOfFive(v, t - used) else 0
  }

  lemma AppendedBit(values: seq<u8>, v: u8, r: nat, used: nat, t: nat)
    requires 5 * |values| == 8 * r + used && used < 8
    ensures ValueBit(values + [v], 8 * r + t) == Appended(ValueBit(values, 8 * r + t), v, used, t)
    ensures t >= used ==> ValueBit(values, 8 * r + t) == 0
  {
    hide BitOfFive;
    var m, n := 8 * r + t, |values|;
    if t < used {
      assert m / 5 < n;
    } else if t < used + 5 {
      assert m == 5 * n + (t - used);
      assert m / 5 == n && m % 5 == t - used;
    } else {
      assert m / 5 >= n + 1;
    }
  }

  lemma AppendInside(p: bit, q: bit, r: bit, v: u8, used: nat)
    requires used <= 3 && v < 32
    requires used <= 2 ==> r == 0
    requires used <= 1 ==> q == 0
    requires used <= 0 ==> p == 0
    ensures JoinEight(Appended(p, v, used, 0), Appended(q, v, used, 1),
                      Appended(r, v, used, 2), Appended(0, v, used, 3),
                      Appended(0, v, used, 4), Appended(0, v, used, 5),
                      Appended(0, v, used, 6), Appended(0, v, used, 7))
         == JoinEight(p, q, r, 0, 0, 0, 0, 0) | Shl(v, 3 - used)
  {
    if used == 0 {
    } else if used == 1 {
    } else if used == 2 {
    } else {
    }
  }

  lemma AppendAcross(p: bit, q: bit, r: bit, s: bit, t: bit, u: bit, w: bit, v: u8, used: nat)
    requires 3 < used < 8 && v < 32
    requires used <= 6 ==> w == 0
    requires used <= 5 ==> u == 0
    requires used <= 4 ==> t == 0
    ensures JoinEight(Appended(p, v, used, 0), Appended(q, v, used, 1),
                      Appended(r, v, used, 2), Appended(s, v, used, 3),
                      Appended(t, v, used, 4), Appended(u, v, used, 5),
                      Appended(w, v, used, 6), Appended(0, v, used, 7))
         == JoinEight(p, q, r, s, t, u, w, 0) | Shr(v, used - 3)
  {
    if used == 4 {
    } else if used == 5 {
    } else if used == 6 {
    } else {
    }
  }

  lemma StartOctet(v: u8, used: nat)
    requires used < 8 && v < 32
    ensures JoinEight(Appended(0, v, used, 8), Appended(0, v, used, 9),
                      Appended(0, v, used, 10), Appended(0, v, used, 11),
                      Appended(0, v, used, 12), Appended(0, v, used, 13),
                      Appended(0, v, used, 14), Appended(0, v, used, 15))
         == if used <= 3 then 0 else Shl(v, 11 - used)
  {
    if used <= 3 {
    } else if used == 4 {
    } else if used == 5 {
    } else if used == 6 {
    } else {
    }
  }

  lemma BeyondEnd(values: seq<u8>, m: nat)
    requires m >= 5 * |values|
    ensures ValueBit(values, m) == 0
  {
    assert m / 5 >= |values|;
  }

  lemma OctetZero(values: seq<u8>, k: nat)
    requires 8 * k >= 5 * |values|
    ensures Octet(values, k) == 0
  {
    hide JoinEight, ValueBit;
    BeyondEnd(values, 8 * k);
    BeyondEnd(values, 8 * k + 1);
    BeyondEnd(values, 8 * k + 2);
    BeyondEnd(values, 8 * k + 3);
    BeyondEnd(values, 8 * k + 4);
    BeyondEnd(values, 8 * k + 5);
    BeyondEnd(values, 8 * k + 6);
    BeyondEnd(values, 8 * k + 7);
    JoinZero();
  }

  lemma JoinZero()
    ensures JoinEight(0, 0, 0, 0, 0, 0, 0, 0) == 0
  {}

  lemma OctetUnchanged(values: seq<u8>, v: u8, k: nat)
    requires 8 * k + 8 <= 5 * |values|
    ensures Octet(values + [v], k) == Octet(values, k)
  {
    hide JoinEight, BitOfFive;
    forall m: nat | m < 5 * |values|
      ensures ValueBit(values + [v], m) == ValueBit(values, m)
    {}
  }

  /** What the code does to its carry when it reads one more value. */
  lemma ReadValue(values: seq<u8>, v: u8, r: nat, used: nat)
    requires 5 * |values| == 8 * r + used && used < 8 && v < 32
    ensures Octet(values + [v], r) == Octet(values, r) | (if used <= 3 then Shl(v, 3 - used) else Shr(v, used - 3))
  {
    hide JoinEight, Appended, ValueBit, Shl, Shr;
    AppendedBit(values, v, r, used, 0);
    AppendedBit(values, v, r, used, 1);
    AppendedBit(values, v, r, used, 2);
    AppendedBit(values, v, r, used, 3);
    AppendedBit(values, v, r, used, 4);
    AppendedBit(values, v, r, used, 5);
    AppendedBit(values, v, r, used, 6);
    AppendedBit(values, v, r, used, 7);
    var p, q, s := ValueBit(values, 8 * r), ValueBit(values, 8 * r + 1), ValueBit(values, 8 * r + 2);
    if used <= 3 {
      AppendInside(p, q, s, v, used);
    } else {
      AppendAcross(p, q, s, ValueBit(values, 8 * r + 3), ValueBit(values, 8 * r + 4), ValueBit(values, 8 * r + 5),
                   ValueBit(values, 8 * r + 6), v, used);
    }
  }

  /** The octet that follows: the bits of `v` that did not fit. */
  lemma CarryValue(values: seq<u8>, v: u8, r: nat, used: nat)
    requires 5 * |values| == 8 * r + used && used < 8 && v < 32
    ensures Octet(values + [v], r + 1) == if used <= 3 then 0 else Shl(v, 11 - used)
  {
    hide JoinEight, Appended, ValueBit, Shl;
    AppendedBit(values, v, r, used, 8);
    AppendedBit(values, v, r, used, 9);
    AppendedBit(values, v, r, used, 10);
    AppendedBit(values, v, r, used, 11);
    AppendedBit(values, v, r, used, 12);
    AppendedBit(values, v, r, used, 13);
    AppendedBit(values, v, r, used, 14);
    AppendedBit(values, v, r, used, 15);
    StartOctet(v, used);
  }

  method Decode(text: string) returns (r: DecodeResult)
    ensures r == Decoded(text)
  {
    hide Shr, Shl, Octet, Value, Octets, BeforePadding;
    var result: seq<u8> := [];
    var shift := 8;
    var carry: u8 := 0;
    ghost var values: seq<u8> := [];
    var i := 0;
    OctetZero([], 0);
    while i < |text| && text[i] != '='
      invariant i <= |text| && '=' !in text[..i]
      invariant AllLetters(text[..i]) && values == Values(text[..i])
      invariant 0 < shift <= 8
      invariant 5 * i == 8 * |result| + (8 - shift)
      invariant carry == Octet(values, |result|)
      invariant forall k :: 0 <= k < |result| ==> result[k] == Octet(values, k)
    {
      var value := Value(text[i]);
      if value.None? {
        BeforePaddingStarts(text, i + 1);
        assert BeforePadding(text)[i] == text[i];
        return InvalidBase32Character;
      }
      var v := value.value;
      ghost var used := 8 - shift;
      ReadValue(values, v, |result|, used);
      CarryValue(values, v, |result|, used);
      forall k | 0 <= k < |result|
        ensures Octet(values + [v], k) == Octet(values, k)
      {
        OctetUnchanged(values, v, k);
      }
      assert Values(text[..i + 1]) == values + [v];
      values := values + [v];

      shift := shift - 5;
      if shift > 0 {
        carry := carry | Shl(v, shift);
      } else if shift < 0 {
        result := result + [carry | Shr(v, -shift)];
        shift := shift + 8;
        carry := Shl(v, shift);
      } else {
        NoShift(v);
        result := result + [carry | v];
        shift := 8;
        carry := 0;
      }
      i := i + 1;
    }
    BeforePaddingIs(text, i);
    assert result == seq(|result|, k requires 0 <= k => Octet(values, k));
    if shift == 8 {
      OctetZero(values, |result|);
    }
    if shift != 8 && carry != 0 {
      result := result + [carry];
    }
    OctetsAre(values, 5 * i / 8);
    return Ok(result);
  }

  lemma OctetsAre(values: seq<u8>, whole: nat)
    requires whole == 5 * |values| / 8
    ensures Octets(values) == seq(whole, k requires 0 <= k => Octet(values, k))
                              + if Octet(values, whole) != 0 then [Octet(values, whole)] else []
  {
    hide Octet;
  }

  // ----- round trip ---------------------------------------------------------------------

  /** Regrouping keeps the stream. */
  lemma SameStream(bytes: seq<u8>, m: nat)
    ensures ValueBit(Quintets(bytes), m) == StreamBit(bytes, m)
  {
    hide BitOfFive, JoinFive, StreamBit;
    var j, t := m / 5, m % 5;
    assert m == 5 * j + t;
    if j < QuintetCount(|bytes|) {
      JoinFiveBits(StreamBit(bytes, 5 * j), StreamBit(bytes, 5 * j + 1), StreamBit(bytes, 5 * j + 2),
                   StreamBit(bytes, 5 * j + 3), StreamBit(bytes, 5 * j + 4));
    } else {
      StreamEnds(bytes, m);
    }
  }

  lemma StreamEnds(bytes: seq<u8>, m: nat)
    requires m >= 8 * |bytes|
    ensures StreamBit(bytes, m) == 0
  {
    assert m / 8 >= |bytes|;
  }

  lemma OctetOfQuintets(bytes: seq<u8>, k: nat)
    ensures Octet(Quintets(bytes), k) == ByteOrZero(bytes, k)
  {
    hide JoinEight, BitOfByte, ValueBit, StreamBit, Quintets, ByteOrZero;
    var x := ByteOrZero(bytes, k);
    ByteOfStream(bytes, k, 0);
    ByteOfStream(bytes, k, 1);
    ByteOfStream(bytes, k, 2);
    ByteOfStream(bytes, k, 3);
    ByteOfStream(bytes, k, 4);
    ByteOfStream(bytes, k, 5);
    ByteOfStream(bytes, k, 6);
    ByteOfStream(bytes, k, 7);
    JoinEightBits(x);
  }

  lemma ByteOfStream(bytes: seq<u8>, k: nat, t: nat)
    requires t < 8
    ensures ValueBit(Quintets(bytes), 8 * k + t) == BitOfByte(ByteOrZero(bytes, k), t)
  {
    hide BitOfByte, ValueBit, StreamBit, Quintets, ByteOrZero;
    SameStream(bytes, 8 * k + t);
    StreamBitAt(bytes, k, t);
  }

  /** No byte is lost and none is added, whatever the length: the zeros that fill up the
      last group of five bits never become a byte. */
  lemma OctetsOfQuintets(bytes: seq<u8>)
    ensures Octets(Quintets(bytes)) == bytes
  {
    hide Octet, Quintet;
    forall k: nat
      ensures Octet(Quintets(bytes), k) == ByteOrZero(bytes, k)
    {
      OctetOfQuintets(bytes, k);
    }
    assert 5 * QuintetCount(|bytes|) / 8 == |bytes|;
  }

  lemma EncodedLetters(bytes: seq<u8>)
    ensures '=' !in Encoded(bytes)
    ensures AllLetters(Encoded(bytes)) && Values(Encoded(bytes)) == Quintets(bytes)
  {
    hide Letter, Value, Quintet;
    forall j: nat | j < |Encoded(bytes)|
      ensures Encoded(bytes)[j] != '=' && Value(Encoded(bytes)[j]) == Some(Quintet(bytes, j))
    {
      QuintetBelow32(bytes, j);
      ValueOfLetter(Quintet(bytes, j));
    }
  }

  lemma QuintetBelow32(bytes: seq<u8>, j: nat)
    ensures Quintet(bytes, j) < 32
  {
    hide StreamBit;
    JoinFiveBits(StreamBit(bytes, 5 * j), StreamBit(bytes, 5 * j + 1), StreamBit(bytes, 5 * j + 2),
                 StreamBit(bytes, 5 * j + 3), StreamBit(bytes, 5 * j + 4));
  }

  /** Decoding undoes encoding, for every byte sequence. */
  lemma DecodeEncode(bytes: seq<u8>)
    ensures Decoded(Encoded(bytes)) == Ok(bytes)
  {
    hide Octets, Quintets, Encoded, Value;
    EncodedLetters(bytes);
    var text := Encoded(bytes);
    BeforePaddingIs(text, |text|);
    assert text[..|text|] == text;
    OctetsOfQuintets(bytes);
  }

  /** The text has ceil(8n / 5) letters, so its letters and the bytes determine each other. */
  lemma EncodedInjective(a: seq<u8>, b: seq<u8>)
    requires Encoded(a) == Encoded(b)
    ensures a == b
  {
    hide Encoded;
    DecodeEncode(a);
    DecodeEncode(b);
  }

  // ----- what is read -------------------------------------------------------------------

  /** Decoding stops at the first '=': whatever follows is not looked at. */
  lemma PaddingIgnored(text: string, rest: string)
    requires '=' !in text
    ensures Decoded(text + "=" + rest) == Decoded(text)
  {
    hide Value, Octets;
    var padded := text + "=" + rest;
    assert padded[..|text|] == text && text[..|text|] == text;
    BeforePaddingIs(padded, |text|);
    BeforePaddingIs(text, |text|);
  }

  /** So a padded text reads as the text without padding. */
  lemma DecodePadded(bytes: seq<u8>, rest: string)
    ensures Decoded(Encoded(bytes) + "=" + rest) == Ok(bytes)
  {
    hide Decoded, Encoded;
    EncodedLetters(bytes);
    PaddingIgnored(Encoded(bytes), rest);
    DecodeEncode(bytes);
  }

  /** Some character before the first '=' stands for nothing. */
  predicate HasUnreadable(text: string) {
    exists i :: 0 <= i < |text| && '=' !in text[..i + 1] && !Readable(text[i])
  }

  lemma {:induction false} PaddingSplit(text: string) returns (i: nat)
    ensures i <= |text| && '=' !in text[..i] && (i < |text| ==> text[i] == '=') && BeforePadding(text) == text[..i]
    decreases text
  {
    if text == "" || text[0] == '=' {
      i := 0;
    } else {
      var k := PaddingSplit(text[1..]);
      i := k + 1;
      PrefixSplit(text, i);
    }
  }

  /** Decoding fails exactly for such a character. */
  lemma DecodeFailsIff(text: string)
    ensures Decoded(text).InvalidBase32Character? <==> HasUnreadable(text)
  {
    hide Value, Readable, Octets;
    var n := PaddingSplit(text);
    var read := text[..n];
    forall i: nat | i < |text|
      ensures Value(text[i]).Some? <==> Readable(text[i])
    {
      ReadableIff(text[i]);
    }
    if !AllLetters(read) {
      var i :| 0 <= i < |read| && Value(read[i]).None?;
      assert text[..i + 1] == read[..i + 1];
    }
    if HasUnreadable(text) {
      var i :| 0 <= i < |text| && '=' !in text[..i + 1] && !Readable(text[i]);
      assert Value(read[i]).None?;
    }
  }

  function Canonized(text: string): string {
    seq(|text|, i requires 0 <= i < |text| => Canonical(text[i]))
  }

  /** Decoding is blind to case and reads '0' as 'O' and '1' as 'I'. */
  lemma DecodedCanonical(text: string)
    ensures Decoded(Canonized(text)) == Decoded(text)
  {
    hide Value, Canonical, Octets;
    var other := Canonized(text);
    var n := PaddingSplit(text);
    forall i: nat | i < |text|
      ensures Value(other[i]) == Value(text[i]) && (other[i] == '=' <==> text[i] == '=')
    {
      CanonicalValue(text[i]);
    }
    assert '=' !in other[..n];
    BeforePaddingIs(other, n);
    var read, read' := text[..n], other[..n];
    assert AllLetters(read) <==> AllLetters(read');
    if AllLetters(read) {
      assert Values(read) == Values(read');
    }
  }

  // ----- the same bits ------------------------------------------------------------------

  /** The letters of an encoded text carry the bits of the bytes and then zeros, and there are no
      more of them than it takes. */
  lemma EncodedBits(bytes: seq<u8>, m: nat)
    ensures var text := Encoded(bytes);
            && AllLetters(text) && ValueBit(Values(text), m) == StreamBit(bytes, m)
            && 8 * |bytes| <= 5 * |text| < 8 * |bytes| + 5
  {
    hide Encoded, Quintets, ValueBit, StreamBit;
    EncodedLetters(bytes);
    SameStream(bytes, m);
    LettersCount(bytes);
  }

  lemma LettersCount(bytes: seq<u8>)
    ensures 8 * |bytes| <= 5 * |Encoded(bytes)| < 8 * |bytes| + 5
  {}

  lemma OctetBit(values: seq<u8>, k: nat, t: nat)
    requires t < 8
    ensures BitOfByte(Octet(values, k), t) == ValueBit(values, 8 * k + t)
  {
    hide JoinEight, BitOfByte, ValueBit;
    JoinEightParts(ValueBit(values, 8 * k), ValueBit(values, 8 * k + 1), ValueBit(values, 8 * k + 2),
                   ValueBit(values, 8 * k + 3), ValueBit(values, 8 * k + 4), ValueBit(values, 8 * k + 5),
                   ValueBit(values, 8 * k + 6), ValueBit(values, 8 * k + 7));
  }

  lemma OctetsAt(values: seq<u8>, k: nat)
    ensures ByteOrZero(Octets(values), k) == Octet(values, k)
  {
    hide Octet;
    var whole := 5 * |values| / 8;
    if k > whole {
      BeyondValues(values, k);
    }
  }

  lemma BeyondValues(values: seq<u8>, k: nat)
    requires 8 * k >= 5 * |values|
    ensures Octet(values, k) == 0
  {
    OctetZero(values, k);
  }

  /** The bytes of a text that decodes carry the bits of its letters and then zeros. There is a
      byte for every whole eight bits, and one more exactly if the rest is not all zeros. */
  lemma DecodedBits(text: string, m: nat)
    requires '=' !in text && Decoded(text).Ok?
    ensures AllLetters(text)
    ensures var bytes := Decoded(text).bytes;
            var whole := 5 * |text| / 8;
            && StreamBit(bytes, m) == ValueBit(Values(text), m)
            && (|bytes| == whole || (|bytes| == whole + 1 && bytes[whole] != 0))
  {
    hide Value, Octet, BitOfByte;
    assert text[..|text|] == text;
    BeforePaddingIs(text, |text|);
    var values := Values(text);
    var k, t := m / 8, m % 8;
    assert m == 8 * k + t;
    hide ValueBit;
    OctetsAt(values, k);
    OctetBit(values, k, t);
    ZeroBits(t);
  }
}
