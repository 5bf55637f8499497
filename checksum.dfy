/** The CRC-8 checksum that guards each 16-bit word of an SHT3x measurement frame
    (Sensirion SHT3x-DIS datasheet, section 4.12 "Checksum Calculation"):
    polynomial 0x31 (x^8 + x^5 + x^4 + 1), initial value 0xFF, no reflection of
    input or output, no final XOR. */
module Checksum {

  const Polynomial: bv8 := 0x31
  const Init: bv8 := 0xFF
  /** Rounds of the bit loop per data byte. */
  const BitsPerByte: nat := 8

  /** One round of the bit loop: shift left by one (8-bit, the carried-out bit is
      dropped) and, if the bit shifted out was set, XOR in the polynomial. */
  function Shift(crc: bv8): (r: bv8)
    ensures r & 1 == (if crc & 0x80 != 0 then 1 else 0)
  {
    if crc & 0x80 != 0 then (crc << 1) ^ Polynomial else crc << 1
  }

  /** `n` rounds of the bit loop. */
  function Shifts(crc: bv8, n: nat): bv8
    decreases n
  {
    if n == 0 then crc else Shifts(Shift(crc), n - 1)
  }

  /** Folding one data byte into the running checksum. */
  function Step(crc: bv8, b: bv8): bv8 {
    Shifts(crc ^ b, BitsPerByte)
  }

  /** Folding a byte sequence into a running checksum, first byte first, as the
      C loop walks its pointer. */
  function Fold(crc: bv8, data: seq<bv8>): (r: bv8)
    decreases |data|
  {
    if data == [] then crc else Fold(Step(crc, data[0]), data[1..])
  }

  /** The checksum of a byte sequence. */
  function Crc8(data: seq<bv8>): (r: bv8)
    ensures data == [] ==> r == Init
    ensures data != [] ==> r == Step(Fold(Init, data[..|data| - 1]), data[|data| - 1])
  {
    if data == [] then Init
    else
      assert data == data[..|data| - 1] + [data[|data| - 1]];
      FoldConcat(Init, data[..|data| - 1], [data[|data| - 1]]);
      Fold(Init, data)
  }

  /** Folding a concatenation folds the second part into the checksum of the
      first. */
  lemma {:induction false} FoldConcat(crc: bv8, s: seq<bv8>, t: seq<bv8>)
    ensures Fold(crc, s + t) == Fold(Fold(crc, s), t)
    decreases |s|
  {
    if s == [] {
      assert s + t == t;
    } else {
      assert (s + t)[1..] == s[1..] + t;
      FoldConcat(Step(crc, s[0]), s[1..], t);
    }
  }

  /** Appending one byte is one `Step`. */
  lemma Crc8Append(data: seq<bv8>, b: bv8)
    ensures Crc8(data + [b]) == Step(Crc8(data), b)
  {
    FoldConcat(Init, data, [b]);
  }

  /** The datasheet's test vector. */
  lemma Crc8TestVector()
    ensures Crc8([0xBE, 0xEF]) == 0x92
  {
  }

  /** The checksum depends on the order of the bytes. */
  lemma Crc8OrderSensitive()
    ensures Crc8([0xBE, 0xEF]) != Crc8([0xEF, 0xBE])
  {
    Crc8TestVector();
  }

  /** A single round loses no information: the polynomial's low bit records
      whether the top bit was set, so the round can be undone. */
  lemma ShiftInjective(x: bv8, y: bv8)
    ensures Shift(x) == Shift(y) ==> x == y
  {
  }

  lemma {:induction false} ShiftsInjective(x: bv8, y: bv8, n: nat)
    ensures Shifts(x, n) == Shifts(y, n) ==> x == y
    decreases n
  {
    if n > 0 {
      ShiftsInjective(Shift(x), Shift(y), n - 1);
      ShiftInjective(x, y);
    }
  }

  /** Different bytes folded into the same checksum give different checksums. */
  lemma StepInjectiveInByte(crc: bv8, a: bv8, b: bv8)
    ensures Step(crc, a) == Step(crc, b) ==> a == b
  {
    ShiftsInjective(crc ^ a, crc ^ b, BitsPerByte);
  }

  /** The same byte folded into different checksums gives different checksums. */
  lemma StepInjectiveInCrc(c: bv8, d: bv8, b: bv8)
    ensures Step(c, b) == Step(d, b) ==> c == d
  {
    ShiftsInjective(c ^ b, d ^ b, BitsPerByte);
  }

  /** Two different running checksums stay different whatever bytes follow. */
  lemma {:induction false} FoldKeepsDifference(c: bv8, d: bv8, suffix: seq<bv8>)
    requires c != d
    ensures Fold(c, suffix) != Fold(d, suffix)
    decreases |suffix|
  {
    if suffix != [] {
      StepInjectiveInCrc(c, d, suffix[0]);
      FoldKeepsDifference(Step(c, suffix[0]), Step(d, suffix[0]), suffix[1..]);
    }
  }

  /** Every corruption confined to one byte, in particular every single-bit error,
      changes the checksum, whatever the length of the data and the position of
      the byte. */
  lemma Crc8DetectsSingleByteError(prefix: seq<bv8>, a: bv8, b: bv8, suffix: seq<bv8>)
    requires a != b
    ensures Crc8(prefix + [a] + suffix) != Crc8(prefix + [b] + suffix)
  {
    var p := Fold(Init, prefix);
    FoldConcat(Init, prefix, [a] + suffix);
    FoldConcat(Init, prefix, [b] + suffix);
    assert prefix + [a] + suffix == prefix + ([a] + suffix);
    assert prefix + [b] + suffix == prefix + ([b] + suffix);
    assert ([a] + suffix)[1..] == suffix && ([b] + suffix)[1..] == suffix;
    StepInjectiveInByte(p, a, b);
    FoldKeepsDifference(Step(p, a), Step(p, b), suffix);
  }
}
