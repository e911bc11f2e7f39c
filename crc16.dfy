/**
 * CRC-16/MODBUS as defined in section 6.2.2 and Appendix B of the MODBUS over
 * Serial Line Specification and Implementation Guide V1.02: a 16-bit register
 * preset to 0xFFFF; each byte is XORed into the low byte of the register, which
 * is then shifted right eight times, XORing the reflected polynomial 0xA001 in
 * after every shift that pushes out a 1; there is no final XOR.
 */
module Crc16 {
  import opened Bytes

  const Preset: word := 0xFFFF
  const Polynomial: word := 0xA001

  /** One right shift of the register, folding the polynomial in when the bit shifted out is 1. */
  function ShiftOnce(register: word): word
  {
    if register & 1 == 1 then (register >> 1) ^ Polynomial else register >> 1
  }

  /** `n` successive shifts of the register. */
  function ShiftTimes(register: word, n: nat): word
    decreases n
  {
    if n == 0 then register else ShiftTimes(ShiftOnce(register), n - 1)
  }

  /** The register after absorbing one byte. */
  function AbsorbByte(register: word, b: byte): word
  {
    ShiftTimes(register ^ (b as word), 8)
  }

  /** The register after absorbing `data`, byte by byte from the first. */
  function Absorb(register: word, data: seq<byte>): word
    decreases |data|
  {
    if data == [] then register else Absorb(AbsorbByte(register, data[0]), data[1..])
  }

  /** The CRC-16/MODBUS checksum of `data`. */
  function Checksum(data: seq<byte>): (c: word)
    ensures data == [] ==> c == Preset
  {
    Absorb(Preset, data)
  }

  /** A single shift loses no information: the shifted-out bit reappears as bit 15 of the result. */
  lemma ShiftOnceInjective(a: word, b: word)
    requires ShiftOnce(a) == ShiftOnce(b)
    ensures a == b
  {
  }

  lemma {:induction false} ShiftTimesInjective(a: word, b: word, n: nat)
    requires ShiftTimes(a, n) == ShiftTimes(b, n)
    ensures a == b
    decreases n
  {
    if n > 0 {
      ShiftTimesInjective(ShiftOnce(a), ShiftOnce(b), n - 1);
      ShiftOnceInjective(a, b);
    }
  }

  /** For a fixed register, different bytes leave different registers. */
  lemma AbsorbByteInjectiveInByte(register: word, x: byte, y: byte)
    requires AbsorbByte(register, x) == AbsorbByte(register, y)
    ensures x == y
  {
    ShiftTimesInjective(register ^ (x as word), register ^ (y as word), 8);
  }

  /** For a fixed byte, different registers stay different. */
  lemma AbsorbByteInjectiveInRegister(r: word, s: word, b: byte)
    requires AbsorbByte(r, b) == AbsorbByte(s, b)
    ensures r == s
  {
    ShiftTimesInjective(r ^ (b as word), s ^ (b as word), 8);
  }

  /** Absorbing the same bytes keeps two different registers different. */
  lemma {:induction false} AbsorbInjectiveInRegister(r: word, s: word, data: seq<byte>)
    requires Absorb(r, data) == Absorb(s, data)
    ensures r == s
    decreases |data|
  {
    if data != [] {
      AbsorbInjectiveInRegister(AbsorbByte(r, data[0]), AbsorbByte(s, data[0]), data[1..]);
      AbsorbByteInjectiveInRegister(r, s, data[0]);
    }
  }

  /** Data that differ in exactly one byte. */
  ghost predicate DifferAt(data: seq<byte>, corrupted: seq<byte>, i: nat)
  {
    && |data| == |corrupted|
    && i < |data|
    && data[i] != corrupted[i]
    && forall j :: 0 <= j < |data| && j != i ==> data[j] == corrupted[j]
  }

  lemma {:induction false} AbsorbDetectsSingleByteError(register: word, data: seq<byte>, corrupted: seq<byte>, i: nat)
    requires DifferAt(data, corrupted, i)
    ensures Absorb(register, data) != Absorb(register, corrupted)
    decreases i
  {
    if i == 0 {
      assert data[1..] == corrupted[1..];
      if Absorb(register, data) == Absorb(register, corrupted) {
        AbsorbInjectiveInRegister(AbsorbByte(register, data[0]), AbsorbByte(register, corrupted[0]), data[1..]);
        AbsorbByteInjectiveInByte(register, data[0], corrupted[0]);
      }
    } else {
      assert data[0] == corrupted[0];
      assert DifferAt(data[1..], corrupted[1..], i - 1);
      AbsorbDetectsSingleByteError(AbsorbByte(register, data[0]), data[1..], corrupted[1..], i - 1);
    }
  }

  /** Corrupting any single byte of the data changes its checksum. */
  lemma ChecksumDetectsSingleByteError(data: seq<byte>, corrupted: seq<byte>, i: nat)
    requires DifferAt(data, corrupted, i)
    ensures Checksum(data) != Checksum(corrupted)
  {
    AbsorbDetectsSingleByteError(Preset, data, corrupted, i);
  }

  /** The standard check value: the checksum of the ASCII digits "123456789" is 0x4B37. */
  lemma CheckValue()
    ensures Checksum([0x31, 0x32, 0x33, 0x34, 0x35, 0x36, 0x37, 0x38, 0x39]) == 0x4B37
  {
    assert AbsorbByte(0xFFFF, 0x31) == 0x947E;
    assert AbsorbByte(0x947E, 0x32) == 0xF595;
    assert AbsorbByte(0xF595, 0x33) == 0x7A75;
    assert AbsorbByte(0x7A75, 0x34) == 0x30BA;
    assert AbsorbByte(0x30BA, 0x35) == 0xA471;
    assert AbsorbByte(0xA471, 0x36) == 0x32E4;
    assert AbsorbByte(0x32E4, 0x37) == 0x9D73;
    assert AbsorbByte(0x9D73, 0x38) == 0x37DD;
    assert AbsorbByte(0x37DD, 0x39) == 0x4B37;
  }
}
