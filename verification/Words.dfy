/** Machine words of the key codec, and the bits of a byte. */
module Words {

  type u8 = bv8
  type u16 = bv16
  type bit = bv1

  datatype Option<+T> = None | Some(value: T)

  /** Rust's shifts on u8: the amount must be below 8, bits that leave are dropped. */
  function Shr(x: u8, amount: int): u8
    requires 0 <= amount < 8
  {
    x >> amount
  }

  function Shl(x: u8, amount: int): u8
    requires 0 <= amount < 8
  {
    x << amount
  }

  /** Bit `t` of a byte, counted from the most significant. */
  function BitOfByte(x: u8, t: nat): bit
    requires t < 8
  {
    ((x >> (7 - t)) & 1) as bit
  }

  /** Bit `t` of a five-bit value, counted from the most significant. */
  function BitOfFive(x: u8, t: nat): bit
    requires t < 5
  {
    ((x >> (4 - t)) & 1) as bit
  }

  function JoinFive(p: bit, q: bit, r: bit, s: bit, t: bit): u8 {
    ((p as u8) << 4) | ((q as u8) << 3) | ((r as u8) << 2) | ((s as u8) << 1) | (t as u8)
  }

  function JoinEight(p: bit, q: bit, r: bit, s: bit, t: bit, u: bit, v: bit, w: bit): u8 {
    ((p as u8) << 7) | ((q as u8) << 6) | ((r as u8) << 5) | ((s as u8) << 4)
    | ((t as u8) << 3) | ((u as u8) << 2) | ((v as u8) << 1) | (w as u8)
  }

  lemma JoinFiveBits(p: bit, q: bit, r: bit, s: bit, t: bit)
    ensures var x := JoinFive(p, q, r, s, t);
            && x < 32
            && BitOfFive(x, 0) == p && BitOfFive(x, 1) == q && BitOfFive(x, 2) == r
            && BitOfFive(x, 3) == s && BitOfFive(x, 4) == t
  {}

  lemma JoinEightBits(x: u8)
    ensures JoinEight(BitOfByte(x, 0), BitOfByte(x, 1), BitOfByte(x, 2), BitOfByte(x, 3),
                      BitOfByte(x, 4), BitOfByte(x, 5), BitOfByte(x, 6), BitOfByte(x, 7)) == x
  {}

  lemma JoinEightParts(p: bit, q: bit, r: bit, s: bit, t: bit, u: bit, v: bit, w: bit)
    ensures var x := JoinEight(p, q, r, s, t, u, v, w);
            && BitOfByte(x, 0) == p && BitOfByte(x, 1) == q && BitOfByte(x, 2) == r && BitOfByte(x, 3) == s
            && BitOfByte(x, 4) == t && BitOfByte(x, 5) == u && BitOfByte(x, 6) == v && BitOfByte(x, 7) == w
  {}
}
