/** The three-LED CO2 indicator: `setLEDColor` paints the first three entries of
    the LED buffer from the current CO2 concentration (ppm). Pushing the buffer
    to the hardware (`FastLED.show()`) is not modelled. */
module Leds {

  /** FastLED's `CRGB` pixel. */
  datatype Crgb = Crgb(r: bv8, g: bv8, b: bv8)

  const Black := Crgb(0x00, 0x00, 0x00)
  const White := Crgb(0xFF, 0xFF, 0xFF)
  const Green := Crgb(0x00, 0x80, 0x00)
  const Yellow := Crgb(0xFF, 0xFF, 0x00)
  const Red := Crgb(0xFF, 0x00, 0x00)

  /** Index of the LED that shows the band (`ID_LED_USE`). */
  const IdLedUse := 1

  /** Upper bounds (exclusive) of the CO2 bands and their colours; above the last
      bound all three LEDs are red. */
  const Bands: seq<(nat, Crgb)> := [(600, White), (1200, Green), (1500, Yellow), (2000, Red)]

  /** Reference reading of `Bands`: the colour of the first band whose bound lies
      above `co2`, red when there is none. */
  function BandColour(bands: seq<(nat, Crgb)>, co2: nat): Crgb {
    if bands == [] then Red
    else if co2 < bands[0].0 then bands[0].1
    else BandColour(bands[1..], co2)
  }

  /** The three colours `setLEDColor` gives to LEDs 0, 1 and 2. */
  function Pattern(co2: nat): (p: seq<Crgb>)
    ensures |p| == 3
  {
    if co2 < 600 then [Black, White, Black]
    else if co2 < 1200 then [Black, Green, Black]
    else if co2 < 1500 then [Black, Yellow, Black]
    else if co2 < 2000 then [Black, Red, Black]
    else [Red, Red, Red]
  }

  /** The buffer after `setLEDColor`: the first three entries replaced by the
      pattern, every other entry as it was. */
  function Painted(leds: seq<Crgb>, co2: nat): (r: seq<Crgb>)
    requires |leds| >= 3
    ensures |r| == |leds|
    ensures r[..3] == Pattern(co2)
    ensures forall i :: 3 <= i < |r| ==> r[i] == leds[i]
  {
    Pattern(co2) + leds[3..]
  }

  /** The indicator LED shows the colour of the CO2 band in `Bands`; it is never
      dark. */
  lemma IndicatorFollowsBands(co2: nat)
    ensures Pattern(co2)[IdLedUse] == BandColour(Bands, co2)
    ensures Pattern(co2)[IdLedUse] != Black
  {
    var b1, b2, b3 := Bands[1..], Bands[2..], Bands[3..];
    assert b1 == [(1200, Green), (1500, Yellow), (2000, Red)] && b1[1..] == b2;
    assert b2 == [(1500, Yellow), (2000, Red)] && b2[1..] == b3;
    assert b3 == [(2000, Red)] && b3[1..] == [];
    assert BandColour(b3, co2) == Red;
    assert BandColour(b2, co2) == if co2 < 1500 then Yellow else Red;
    assert BandColour(b1, co2) == if co2 < 1200 then Green else BandColour(b2, co2);
  }

  /** The outer LEDs are dark below 2000 ppm and red, with the middle one, from
      2000 ppm on. */
  lemma OuterLeds(co2: nat)
    ensures co2 < 2000 <==> Pattern(co2)[0] == Black && Pattern(co2)[2] == Black
    ensures co2 >= 2000 <==> Pattern(co2) == [Red, Red, Red]
  {
  }

  /** Painting twice with the same concentration gives the same buffer as
      painting once. */
  lemma PaintedIdempotent(leds: seq<Crgb>, co2: nat)
    requires |leds| >= 3
    ensures Painted(Painted(leds, co2), co2) == Painted(leds, co2)
  {
  }

  /** `setLEDColor(leds, co2)`: writes the pattern into entries 0..2 in place and
      leaves every other entry unchanged. */
  method SetLedColor(leds: array<Crgb>, co2: nat)
    requires leds.Length >= 3
    modifies leds
    ensures leds[..] == Painted(old(leds[..]), co2)
  {
    leds[0] := Black;
    leds[2] := Black;
    if co2 < 600 {
      leds[IdLedUse] := White;
    } else if co2 < 1200 {
      leds[IdLedUse] := Green;
    } else if co2 < 1500 {
      leds[IdLedUse] := Yellow;
    } else if co2 < 2000 {
      leds[IdLedUse] := Red;
    } else {
      leds[IdLedUse] := Red;
      leds[0] := Red;
      leds[2] := Red;
    }
  }
}
