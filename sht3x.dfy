/** The SHT3x temperature/humidity sensor driver: one single-shot measurement over
    the two-wire bus, checksum validation of the six-byte answer and the
    fixed-point conversion of its two raw 16-bit words.

    The bus is not modelled: `Read` receives whether the measurement command was
    acknowledged and the six byte values the bus delivered afterwards. The stored
    temperature is kept in hundredths of a degree Celsius, the integer the driver
    computes before its final floating-point division by 100. */
module SHT3X {

  import opened Wrappers
  import Checksum

  /** Fixed 7-bit bus address of the sensor. */
  const Address := 0x44
  /** temp MSB, temp LSB, temp CRC, humidity MSB, humidity LSB, humidity CRC */
  const FrameLength := 6

  /** A converted measurement: hundredths of a degree Celsius and whole percent
      relative humidity. */
  datatype Reading = Reading(tempHundredths: int, humidity: nat)

  /** The raw 16-bit word `(msb << 8) | lsb`; the two bytes occupy disjoint bits,
      so the OR is a sum. */
  function Word(msb: bv8, lsb: bv8): (w: nat)
    ensures w < 0x1_0000
    ensures w / 256 == msb as int && w % 256 == lsb as int
  {
    msb as int * 256 + lsb as int
  }

  /** `((4375 * raw) >> 14) - 4500`: 4375 / 16384 == 17500 / 65536, so this is the
      datasheet's `175 * raw / 65535 - 45` degrees with 65536 as divisor, in
      hundredths. The shifted operand is non-negative, so the shift is a floor
      division. */
  function TemperatureHundredths(raw: nat): (t: int)
    requires raw < 0x1_0000
    ensures -4500 <= t <= 12999
  {
    (4375 * raw) / 16384 - 4500
  }

  /** `((625 * raw) >> 12) / 100`: 625 / 4096 == 10000 / 65536 gives hundredths of
      a percent, truncated to whole percent. */
  function HumidityPercent(raw: nat): (h: nat)
    requires raw < 0x1_0000
    ensures h <= 99
  {
    (625 * raw) / 4096 / 100
  }

  /** Both checksums of the frame match their words. */
  predicate ChecksumsMatch(frame: seq<bv8>)
    requires |frame| == FrameLength
  {
    frame[2] == Checksum.Crc8(frame[..2]) && frame[5] == Checksum.Crc8(frame[3..5])
  }

  /** The outcome of one measurement: nothing when the command was not
      acknowledged or a checksum does not match, the converted reading otherwise. */
  function Measure(ack: bool, frame: seq<bv8>): (r: Option<Reading>)
    requires |frame| == FrameLength
    ensures r.Some? <==> ack && ChecksumsMatch(frame)
    ensures r.Some? ==> -4500 <= r.value.tempHundredths <= 12999 && r.value.humidity <= 99
  {
    if !ack then None
    else if frame[2] != Checksum.Crc8(frame[..2]) || frame[5] != Checksum.Crc8(frame[3..5]) then None
    else Some(Reading(TemperatureHundredths(Word(frame[0], frame[1])),
                      HumidityPercent(Word(frame[3], frame[4]))))
  }

  /** The products stay within the C types the driver uses: `4375 * raw` within
      int32_t and `625 * raw` within uint32_t, so the unbounded integers above
      compute exactly what the fixed-width arithmetic does. */
  lemma ConversionsFitMachineWords(raw: nat)
    requires raw < 0x1_0000
    ensures 4375 * raw <= 0x7FFF_FFFF
    ensures 625 * raw <= 0xFFFF_FFFF
  {
  }

  /** A larger raw word never gives a lower temperature. */
  lemma TemperatureMonotone(a: nat, b: nat)
    requires a <= b < 0x1_0000
    ensures TemperatureHundredths(a) <= TemperatureHundredths(b)
  {
  }

  /** A larger raw word never gives a lower humidity. */
  lemma HumidityMonotone(a: nat, b: nat)
    requires a <= b < 0x1_0000
    ensures HumidityPercent(a) <= HumidityPercent(b)
  {
  }

  /** Against the exact formula `raw * 17500 / 65535 - 4500` (hundredths of a
      degree), the 65536 divisor and the truncating shift never overshoot and
      fall short by less than 2 hundredths:
      t <= raw * 17500 / 65535 - 4500 < t + 2. */
  lemma TemperatureNearReference(raw: nat)
    requires raw < 0x1_0000
    ensures var t := TemperatureHundredths(raw);
      (t + 4500) * 65535 <= 17500 * raw < (t + 4502) * 65535
  {
  }

  /** The two truncations amount to one: humidity is `100 * raw / 65536` rounded
      down, which is at most the exact `100 * raw / 65535` and less than 2 below it. */
  lemma HumidityNearReference(raw: nat)
    requires raw < 0x1_0000
    ensures HumidityPercent(raw) == (100 * raw) / 65536
    ensures var h := HumidityPercent(raw);
      h * 65535 <= 100 * raw < (h + 2) * 65535
  {
  }

  /** The word 0x6666, exactly 25.00 degrees by the exact formula, converts to
      24.99: the bias of the 65536 divisor is one hundredth here. */
  lemma TemperatureAt0x6666()
    ensures 17500 * 0x6666 == (2500 + 4500) * 65535
    ensures TemperatureHundredths(0x6666) == 2499
  {
  }

  /** Once both checksums match, the reading depends on bytes 0, 1, 3 and 4 only;
      the checksum bytes only decide acceptance. */
  lemma MeasureIgnoresChecksumBytes(f: seq<bv8>, g: seq<bv8>)
    requires |f| == FrameLength && |g| == FrameLength
    requires Measure(true, f).Some? && Measure(true, g).Some?
    requires f[0] == g[0] && f[1] == g[1] && f[3] == g[3] && f[4] == g[4]
    ensures Measure(true, f) == Measure(true, g)
  {
  }

  /** An accepted frame with any one of its data bytes changed (in particular by
      a single-bit error) and its checksum bytes left as they were is rejected,
      never converted to a wrong value. */
  lemma MeasureRejectsCorruptedDataByte(f: seq<bv8>, i: nat, b: bv8)
    requires |f| == FrameLength && Measure(true, f).Some?
    requires i in {0, 1, 3, 4} && b != f[i]
    ensures Measure(true, f[i := b]) == None
  {
    var g := f[i := b];
    if i < 2 {
      assert g[..2] == f[..2][i := b] && g[2] == f[2];
      CorruptedWordChecksumDiffers(f[..2], i, b);
      assert g[2] != Checksum.Crc8(g[..2]);
    } else {
      assert g[3..5] == f[3..5][i - 3 := b] && g[5] == f[5];
      CorruptedWordChecksumDiffers(f[3..5], i - 3, b);
      assert g[5] != Checksum.Crc8(g[3..5]);
    }
  }

  /** Helper: one changed byte of a two-byte word changes its checksum. */
  lemma CorruptedWordChecksumDiffers(w: seq<bv8>, j: nat, b: bv8)
    requires |w| == 2 && j < 2 && b != w[j]
    ensures Checksum.Crc8(w[j := b]) != Checksum.Crc8(w)
  {
    if j == 0 {
      assert w == [] + [w[0]] + [w[1]] && w[j := b] == [] + [b] + [w[1]];
      Checksum.Crc8DetectsSingleByteError([], w[0], b, [w[1]]);
    } else {
      assert w == [w[0]] + [w[1]] + [] && w[j := b] == [w[0]] + [b] + [];
      Checksum.Crc8DetectsSingleByteError([w[0]], w[1], b, []);
    }
  }

  /** An end-to-end frame: word 0x667A reads 25.05 degrees and word 0x8000 reads
      50 percent, with the checksums 0xAD and 0xA2 of their words. */
  lemma MeasureExampleFrame()
    ensures Checksum.Crc8([0x66, 0x7A]) == 0xAD && Checksum.Crc8([0x80, 0x00]) == 0xA2
    ensures Measure(true, [0x66, 0x7A, 0xAD, 0x80, 0x00, 0xA2]) == Some(Reading(2505, 50))
  {
    var f: seq<bv8> := [0x66, 0x7A, 0xAD, 0x80, 0x00, 0xA2];
    assert f[..2] == [0x66, 0x7A] && f[3..5] == [0x80, 0x00];
  }

  class Sensor {
    /** `_cTemp`, in hundredths of a degree Celsius. */
    var tempHundredths: int
    /** `_humidity`, whole percent. */
    var humidity: nat

    /** The stored values are always ones a conversion can produce. */
    ghost predicate Valid()
      reads this
    {
      -4500 <= tempHundredths <= 12999 && humidity <= 99
    }

    /** Before the first successful read both values are 0. */
    constructor ()
      ensures Valid()
      ensures tempHundredths == 0 && humidity == 0
    {
      tempHundredths := 0;
      humidity := 0;
    }

    /** `getTemperature`: the stored temperature; the object is not changed. */
    method GetTemperature() returns (t: int)
      ensures t == tempHundredths
    {
      t := tempHundredths;
    }

    /** `getHumidity`: the stored humidity; the object is not changed. */
    method GetHumidity() returns (h: nat)
      ensures h == humidity
    {
      h := humidity;
    }

    /** `crc8(data + start, len)`, the datasheet's bit loop. It is static: its
        result is the checksum of the `len` bytes at `start` and it changes
        nothing. */
    static method Crc8(data: array<bv8>, start: nat, len: nat) returns (crc: bv8)
      requires start + len <= data.Length
      ensures crc == Checksum.Crc8(data[start..start + len])
    {
      crc := Checksum.Init;
      var j := 0;
      ghost var done: seq<bv8> := [];
      while j < len
        invariant j <= len
        invariant done == data[start..start + j]
        invariant crc == Checksum.Crc8(done)
      {
        var b := data[start + j];
        ghost var before := crc;
        crc := crc ^ b;
        var i := Checksum.BitsPerByte;
        while i > 0
          invariant 0 <= i <= Checksum.BitsPerByte
          invariant Checksum.Shifts(crc, i) == Checksum.Step(before, b)
        {
          crc := if crc & 0x80 != 0 then (crc << 1) ^ Checksum.Polynomial else crc << 1;
          i := i - 1;
        }
        Checksum.Crc8Append(done, b);
        done := done + [b];
        j := j + 1;
      }
    }

    /** `read()`: returns 0 and stores the converted reading when the command was
        acknowledged and both checksums match; returns 1 and keeps the previous
        (stale) values otherwise. */
    method Read(ack: bool, bus: seq<bv8>) returns (status: int)
      requires Valid()
      requires |bus| == FrameLength
      modifies this
      ensures Valid()
      ensures status == (if Measure(ack, bus).Some? then 0 else 1)
      ensures status == 0 ==>
        tempHundredths == Measure(ack, bus).value.tempHundredths && humidity == Measure(ack, bus).value.humidity
      ensures status != 0 ==> tempHundredths == old(tempHundredths) && humidity == old(humidity)
    {
      if !ack {
        return 1;
      }
      var data := new bv8[FrameLength];
      for i := 0 to FrameLength
        modifies data
        invariant data[..i] == bus[..i]
      {
        data[i] := bus[i];
      }
      assert data[..] == bus;
      var crcTemp := Crc8(data, 0, 2);
      var crcHum := Crc8(data, 3, 2);
      if data[2] != crcTemp || data[5] != crcHum {
        return 1;
      }
      tempHundredths := TemperatureHundredths(Word(data[0], data[1]));
      humidity := HumidityPercent(Word(data[3], data[4]));
      return 0;
    }
  }
}
