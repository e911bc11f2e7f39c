/** Fixed-width integers and the big-endian encoding used on the wire. */
module Bytes {

  type byte = bv8

  /** A 16-bit word as it is laid out on the wire. */
  type word = bv16

  /** Rust's `u16` where it is used as a number (the request counter, the frame length). */
  newtype uint16 = x: int | 0 <= x < 0x1_0000

  const Uint16Modulus: int := 0x1_0000

  /** `u16::to_be_bytes`: the high byte first. */
  function Be16(w: word): (b: seq<byte>)
    ensures |b| == 2
    ensures FromBe16(b[0], b[1]) == w
  {
    [(w >> 8) as byte, (w & 0xFF) as byte]
  }

  /** `u16::from_be_bytes`, the inverse of `Be16`. */
  function FromBe16(hi: byte, lo: byte): word
  {
    ((hi as word) << 8) | (lo as word)
  }

  /** The other direction of the round trip: decoding two bytes and encoding the word gives them back. */
  lemma Be16OfFromBe16(hi: byte, lo: byte)
    ensures Be16(FromBe16(hi, lo)) == [hi, lo]
  {
  }

  /** The bit pattern of a `u16` number. */
  function Bits(n: uint16): word
  {
    n as int as word
  }

  /** `u16::wrapping_add(1)`. */
  function WrappingIncrement(w: uint16): (r: uint16)
    ensures r as int == (w as int + 1) % Uint16Modulus
  {
    if w == 0xFFFF then 0 else w + 1
  }

  /** `n` successive wrapping increments starting from `w`. */
  function IncrementTimes(w: uint16, n: nat): uint16
    decreases n
  {
    if n == 0 then w else WrappingIncrement(IncrementTimes(w, n - 1))
  }

  /** `n` increments add `n` modulo 65536. */
  lemma {:induction false} IncrementTimesIsModular(w: uint16, n: nat)
    ensures IncrementTimes(w, n) as int == (w as int + n) % Uint16Modulus
    decreases n
  {
    if n > 0 {
      IncrementTimesIsModular(w, n - 1);
      var k := w as int + n - 1;
      assert (k % Uint16Modulus + 1) % Uint16Modulus == (k + 1) % Uint16Modulus;
    }
  }

  /** After 65536 increments the counter is back at its first value, and not before. */
  lemma CounterPeriod(w: uint16)
    ensures IncrementTimes(w, Uint16Modulus) == w
    ensures forall n :: 0 < n < Uint16Modulus ==> IncrementTimes(w, n) != w
  {
    FullTurn(w, Uint16Modulus);
    forall n | 0 < n < Uint16Modulus
      ensures IncrementTimes(w, n) != w
    {
      NoEarlyReturn(w, n);
    }
  }

  /** 65536 increments lead back to the start. */
  lemma FullTurn(w: uint16, n: nat)
    requires n == Uint16Modulus
    ensures IncrementTimes(w, n) == w
  {
    IncrementTimesIsModular(w, n);
    ShiftByModulus(w as int + n, w as int);
  }

  lemma ShiftByModulus(x: int, r: int)
    requires 0 <= r < Uint16Modulus && x == r + Uint16Modulus
    ensures x % Uint16Modulus == r
  {
  }

  /** Fewer than 65536 increments, but at least one, never lead back to the start. */
  lemma NoEarlyReturn(w: uint16, n: nat)
    requires 0 < n < Uint16Modulus
    ensures IncrementTimes(w, n) != w
  {
    IncrementTimesIsModular(w, n);
    var sum := w as int + n;
    if sum >= Uint16Modulus {
      assert sum % Uint16Modulus == sum - Uint16Modulus;
    }
  }
}
