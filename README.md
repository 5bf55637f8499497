# M5Paper dashboard firmware core, modelled in Dafny

The firmware samples an SHT3x temperature/humidity sensor over I²C. It shows the
readings with the CO₂ level, the RTC date and time, the Wi-Fi state and the battery
voltage on an e-paper screen, then sleeps 10 seconds. After every 60480 iterations
(at least a week) it resynchronises the RTC from NTP, and it reacts to three buttons.

`src/misc.h` holds a second set of helpers: `setLEDColor` (a three-LED CO₂
indicator), `weekdayToString`, `getCo2Data` and the template `syncNTPTime` with a
setter callback. `main.cpp` does not include `misc.h`; it has its own
`weekdayToString` and `getCo2Data` and never calls `setLEDColor` or `syncNTPTime`.
The `misc.h` helpers are modelled as written, as functions the `main.cpp` shown
does not use.

This project models the device logic of that firmware and proves its properties:

- `checksum.dfy` (module `Checksum`): the sensor's CRC-8 (polynomial 0x31, initial
  value 0xFF, no reflection, no final XOR, as in section 4.12 "Checksum Calculation"
  of the Sensirion SHT3x-DIS datasheet). The body of `crc8` is not in the sources
  (only its declaration), so the checksum is defined from the datasheet. Proved: the
  datasheet test vector, and that every corruption confined to one byte changes the
  checksum.
- `sht3x.dfy` (module `SHT3X`): the driver class `SHT3X` as class `Sensor`, with
  `read()`, the two const getters and the static `crc8` bit loop. The measurement
  outcome is the function `Measure`. `Read` is proved against it. The fixed
  address 0x44 is a constant; the command write is reduced to whether it was
  acknowledged. Temperature is kept in
  hundredths of a degree Celsius, as the integer `sTemp` before the final division by
  100.0f.
- `clock.dfy` (module `Clock`): `weekdayToString`, the `struct tm` → `rtc_date_t` /
  `rtc_time_t` conversion with its int8_t/int16_t casts, `syncNTPTime` from
  `misc.h` (setter callback; the calls it makes are its result) and `SyncNTPTime` from
  `main.cpp` (writes the RTC, class `Rtc`).
- `leds.dfy` (module `Leds`): `setLEDColor` from `misc.h`, in place on an array of
  `CRGB` pixels.
- `dashboard.dfy` (module `Dashboard`): one iteration of `loop` as a method of class
  `Firmware` (the globals `cnt`, `sht30` and the RTC). It covers the sensor-failure
  defaults, the battery clamp and the weekly resync counter. The module also holds the
  button dispatch of `handleButton` over a sequence of polls and the condition of the
  Wi-Fi wait loop in `setup`.

Inputs that come from hardware, the network or libraries are method parameters:

- whether the measurement command was acknowledged, and the six bytes then read from the bus;
- the CO₂ value fetched over HTTP;
- Wi-Fi connectivity;
- the battery voltage;
- the local time `getLocalTime` yields after `configTzTime` (an `Option<Tm>`);
- the button states after `M5.update()`.

Where the sources are inconsistent or leave something open, the model takes this
reading:

- `SHT3X.h` stores a `TwoWire &_wire` and the constant `Addr`. `SHT3X.cpp` uses
  `_wire->` and `_address`. `main.cpp` calls a `begin()` that is commented out. The
  model uses the evident intent: a fixed address 0x44 and a bus that acknowledges or
  does not.
- The frame 66 7A AD 80 00 A2 reads 2505 hundredths (25.05 °C) and 50 %, proved
  by `SHT3X.MeasureExampleFrame`.
- `syncNTPTime` and `SyncNTPTime` call `getLocalTime` once: there is no status-poll
  loop and no retry bound. The model takes that call's result as an input.

## Model

| member | source | states |
|---|---|---|
| `Checksum.Shift` | src/SHT3X.h:38 | one round of the bit loop; the low bit of the result records whether the top bit was set (why a round can be undone) |
| `Checksum.Crc8` | src/SHT3X.h:38 | the datasheet checksum (`Shift`, `Step`, `Fold`; poly 0x31, init 0xFF): 0xFF for no data, otherwise the checksum of all but the last byte with one more 8-round step |
| `Checksum.Crc8Append` | src/SHT3X.h:38 | the checksum folds bytes left to right: appending a byte is one 8-round step |
| `Checksum.Crc8TestVector` | src/SHT3X.h:38 | the checksum of 0xBE 0xEF is 0x92 (datasheet test vector) |
| `Checksum.Crc8OrderSensitive` | src/SHT3X.h:38 | swapping the bytes 0xBE 0xEF changes the checksum |
| `Checksum.ShiftsInjective` | src/SHT3X.h:38 | the 8-round bit loop loses no information: different inputs give different outputs |
| `Checksum.StepInjectiveInByte` | src/SHT3X.h:38 | from the same running checksum, different bytes give different checksums |
| `Checksum.StepInjectiveInCrc` | src/SHT3X.h:38 | the same byte folded into different running checksums keeps them different |
| `Checksum.FoldConcat` | src/SHT3X.h:38 | checksumming a concatenation continues from the checksum of its first part |
| `Checksum.FoldKeepsDifference` | src/SHT3X.h:38 | two different running checksums stay different whatever bytes follow |
| `Checksum.Crc8DetectsSingleByteError` | src/SHT3X.h:38 | any change confined to one byte, at any position of any length of data, changes the checksum |
| `SHT3X.Word` | src/SHT3X.cpp:31 | `(msb << 8) \| lsb` is below 65536 and gives back msb and lsb as quotient and remainder by 256 |
| `SHT3X.TemperatureHundredths` | src/SHT3X.cpp:31-34 | `((4375 * w) >> 14) - 4500` lies in [-4500, 12999] for every 16-bit word |
| `SHT3X.HumidityPercent` | src/SHT3X.cpp:37-41 | `((625 * h) >> 12) / 100` lies in [0, 99] for every 16-bit word |
| `SHT3X.ConversionsFitMachineWords` | src/SHT3X.cpp:34-40 | `4375 * w` fits in int32_t and `625 * h` in uint32_t, so there is no overflow |
| `SHT3X.TemperatureMonotone` | src/SHT3X.cpp:34 | the temperature conversion is non-decreasing in the raw word |
| `SHT3X.HumidityMonotone` | src/SHT3X.cpp:40-41 | the humidity conversion is non-decreasing in the raw word |
| `SHT3X.TemperatureNearReference` | src/SHT3X.cpp:32-34 | the result is never above `w * 17500 / 65535 - 4500` (the commented formula) and less than 2 hundredths below it |
| `SHT3X.HumidityNearReference` | src/SHT3X.cpp:38-41 | humidity equals `100 * h / 65536` truncated, never above `100 * h / 65535` and less than 2 below it |
| `SHT3X.TemperatureAt0x6666` | src/SHT3X.cpp:32-34 | word 0x6666 is exactly 25.00 °C by the commented formula and converts to 24.99 |
| `SHT3X.Measure` | src/SHT3X.cpp:15-41 | a reading comes out iff the command was acked and both checksums match; it is within the conversion bounds |
| `SHT3X.MeasureIgnoresChecksumBytes` | src/SHT3X.cpp:28-41 | once accepted, the reading depends only on bytes 0, 1, 3 and 4 |
| `SHT3X.CorruptedWordChecksumDiffers` | src/SHT3X.cpp:28 | changing one byte of a two-byte word changes that word's checksum |
| `SHT3X.MeasureRejectsCorruptedDataByte` | src/SHT3X.cpp:28-29 | an accepted frame with one data byte changed (e.g. a single-bit error) and its checksum bytes kept is rejected |
| `SHT3X.MeasureExampleFrame` | src/SHT3X.cpp:28-41 | frame 66 7A AD 80 00 A2 has valid checksums and reads 2505 hundredths (25.05 °C) and 50 % |
| `SHT3X.Sensor.constructor` | src/SHT3X.h:12-35 | before any successful read both temperature and humidity are 0; the invariant (humidity ≤ 99) holds |
| `SHT3X.Sensor.GetTemperature` | src/SHT3X.h:22-25 | returns the stored temperature and changes nothing |
| `SHT3X.Sensor.GetHumidity` | src/SHT3X.h:27-30 | returns the stored humidity and changes nothing |
| `SHT3X.Sensor.Crc8` | src/SHT3X.h:38 | the static bit loop computes the checksum of the `len` bytes at `start` and touches no object state |
| `SHT3X.Sensor.Read` | src/SHT3X.cpp:5-44 | without ack or with a bad checksum: returns 1, both stored values unchanged; otherwise returns 0 and stores the converted values; humidity ≤ 99 is preserved |
| `Clock.Int8` | src/misc.h:147-154 | `static_cast<int8_t>` yields a value in [-128, 127], congruent mod 256, the identity on that range |
| `Clock.Int16` | src/misc.h:155 | `static_cast<int16_t>` yields a value in [-32768, 32767], congruent mod 65536, the identity on that range |
| `Clock.ToRtcTime` | src/misc.h:147-150 | for an in-range `tm`, hour, minute and second are copied unchanged |
| `Clock.ToRtcDate` | src/misc.h:151-155 | for an in-range `tm`, month = tm_mon + 1 (1..12), year = tm_year + 1900, weekday and day copied |
| `Clock.RtcRoundTrip` | src/misc.h:147-155 | converting an in-range `tm` to RTC fields and back recovers every field but day of year and DST flag |
| `Clock.WeekdayName` | src/misc.h:15-35 | 0..6 map to 日, 月, 火, 水, 木, 金, 土 and any other value to "" |
| `Clock.WeekdayIndex` | src/misc.h:15-35 | a name found in the weekday table gives back its index, any other name gives none |
| `Clock.WeekdayNameRoundTrip` | src/main.cpp:37-57 | each weekday's name is one Unicode character (three UTF-8 bytes in the firmware's `String`) that determines the weekday; "" stands exactly for out-of-range values |
| `Clock.SyncNtpTime` | src/misc.h:132-160 | given 1 to 3 servers: returns 1 with no setter call if Wi-Fi is down or no local time; otherwise calls the setter exactly once with the converted date and time and returns 0 |
| `Clock.SyncNtpTimeSetterFields` | src/misc.h:147-159 | on success the setter receives mon = tm_mon + 1, year = tm_year + 1900, week = tm_wday, day = tm_mday, hour/min/sec copied |
| `Clock.Rtc.constructor` | src/main.cpp:82-83 | the device RTC (`M5.RTC`) holds the date and time it is given, whose fields are `int8_t` (year `int16_t`) values |
| `Clock.SyncNtpTimeToRtc` | src/main.cpp:59-85 | returns 1 and leaves the RTC untouched if Wi-Fi is down or no local time; otherwise writes the converted date and time to the RTC and returns 0 |
| `Leds.Pattern` | src/misc.h:97-121 | the three colours `setLEDColor` assigns to LEDs 0, 1 and 2 |
| `Leds.Painted` | src/misc.h:95-121 | the buffer after painting: entries 0..2 are the pattern, all others unchanged, length kept |
| `Leds.IndicatorFollowsBands` | src/misc.h:100-115 | LED 1 shows the colour of the CO₂ band: < 600 White, < 1200 Green, < 1500 Yellow, < 2000 Red, else Red; never Black |
| `Leds.OuterLeds` | src/misc.h:98-121 | LEDs 0 and 2 are Black iff co2 < 2000, and all three are Red iff co2 ≥ 2000 |
| `Leds.PaintedIdempotent` | src/misc.h:95-121 | painting twice with the same co2 gives the same buffer as painting once |
| `Leds.SetLedColor` | src/misc.h:95-123 | writes the pattern into indices 0..2 of an array of length ≥ 3 in place; every other element is unchanged |
| `Dashboard.ClampBattery` | src/main.cpp:324-332 | the shown voltage lies in [3300, 4350] mV; values in range are unchanged, lower ones become 3300, higher ones 4350 |
| `Dashboard.ClampBatteryMonotoneIdempotent` | src/main.cpp:324-332 | clamping keeps the order of voltages and clamping twice is clamping once |
| `Dashboard.NextCount` | src/main.cpp:339-344 | `cnt` after one loop is `(cnt + 1) mod 60480` and stays below 60480 |
| `Dashboard.CountAfter` | src/main.cpp:28 | the counter after any number of loops from boot stays below 60480 |
| `Dashboard.CountAfterIsModulo` | src/main.cpp:339-344 | after k loops from boot, `cnt` is k mod 60480 |
| `Dashboard.SyncOncePerWeek` | src/main.cpp:13-14 | TIME_SYNC_CYCLE = 60480, the number of 10 s sleeps in a week (so at least a week of loops); loop k + 1 attempts a sync iff k + 1 is a multiple of 60480 |
| `Dashboard.WifiStatus` | src/main.cpp:312-320 | the Wi-Fi line reads "OK" exactly when connected and "NG" exactly when not |
| `Dashboard.Firmware.constructor` | src/main.cpp:24-28 | the loop counter starts at 0 |
| `Dashboard.Firmware.Loop` | src/main.cpp:265-347 | one loop: a failed sensor read shows 0.0 °C and 0 % rather than stale values; shows the pre-sync RTC date, time and weekday name, the clamped voltage, the Wi-Fi status; advances `cnt` and, every 60480 loops, writes the RTC when a sync succeeds |
| `Dashboard.Dispatch` | src/main.cpp:194-205 | one poll runs at most one handler: P press first, then R press, then L held ≥ 2000 ms |
| `Dashboard.HandlersRun` | src/main.cpp:188-207 | the handlers run for a poll sequence: no more than the polls, the first being the first poll's dispatch |
| `Dashboard.HandlersRunShape` | src/main.cpp:170-207 | over a poll sequence each served poll runs its dispatch; the long-press shutdown is the last handler ever run |
| `Dashboard.HandleButton` | src/main.cpp:188-207 | the polling loop over a finite sequence of polls runs exactly the handlers `HandlersRun` gives |
| `Dashboard.WaitExit` | src/main.cpp:222-224 | the Wi-Fi wait stops at the first retry of the trace where its loop condition is false; no stop means the condition held at every retry of the trace; the `uint16_t` retry counter is compared modulo 65536 |
| `Dashboard.WaitCountsModulo` | src/main.cpp:222-226 | the `uint16_t` retry counter wraps: retry 65536 + k meets the loop condition exactly as retry k does |
| `Dashboard.WaitAsWrittenNeverGivesUp` | src/main.cpp:222-224 | as written, the Wi-Fi wait never stops while the network stays down |
| `Dashboard.WaitAsWrittenExitsConnected` | src/main.cpp:222-234 | as written, the wait stops only at a check that found the network connected |
| `Dashboard.WaitIntendedBounded` | src/main.cpp:222-234 | with `&&` the wait stops by retry 20, as soon as the network is up |

## Left out

- The I²C transport: `beginTransmission`, `write`, `requestFrom`, `read` and the 20 ms `delay`. `Read` receives the ack of the command write and the six values `read()` returned. The count `requestFrom` returns is ignored by the code and not modelled.
- Floating point: `_cTemp = sTemp / 100.0f` and the `%02.1f` display format. Temperature is the integer hundredths before that division.
- The FreeRTOS mutex, task creation, core pinning and the interleaving of `loop` with `handleButton`: concurrency. The `xSemaphoreGive` at the end of the long-press handler follows `while (1);` and is unreachable. The device is powered down there by design.
- `configTzTime` and `getLocalTime` are not modelled; their result is an input.
- `getCo2Data` (HTTP and JSON), all LovyanGFX/e-paper drawing, `prettyEpdRefresh`, `FastLED.show()` and the power-down calls. These are I/O or foreign libraries. The handlers' drawing and the P-button handler's display of the sync result are not modelled.
- The 500 ms and 10 s delays, and the endless repetition of `loop` and of the button poll. The model takes one loop iteration and a finite sequence of polls.
- `setup` apart from the condition of its Wi-Fi wait loop: boot sequencing and I/O only.
- The `conjunction`/`AreAllPtrToConstChar` templates: compile-time type checks on the server arguments. Only the 1-to-3 server count of the `static_assert` is kept, as a precondition of `Clock.SyncNtpTime`.
- The firmware keeps no record of the last successful sync; none is modelled.
- The button handlers' effects: the P handler's RTC synchronisation through `SyncNTPTime` and its display of the result, the R handler's screen refresh, the L handler's power-down. `Dashboard.HandleButton` models only which handler each poll runs.
- `Dashboard.Firmware.Loop`: one `wifiConnected` value stands for the two `WiFi.isConnected()` checks of an iteration that are modelled (for the Wi-Fi line and in `SyncNTPTime`). The CO₂ value is an independent input because `getCo2Data` is left out, so nothing ties it to the connection (the source returns 0 when disconnected). The source reads the connection each time, so a change of connectivity within one iteration, e.g. "NG" shown while the same iteration's sync succeeds, is not captured.

## Findings

| source | as written | input that shows it | evidently intended | confidence | as-written member | corrected member |
|---|---|---|---|---|---|---|
| src/main.cpp:222-234 | the Wi-Fi wait loops while `cnt_retry < WIFI_CONNECT_RETRY_MAX \|\| !WiFi.isConnected()` | a network that never comes up: the loop never ends; it exits only on a check that found the network connected, so the "Failed to connect" branch runs only if the connection drops between that check and the one at line 230 | `&&`: give up after 20 retries (10 s) or as soon as connected | high (as written the loop never gives up), not executed | `Dashboard.WaitAsWrittenNeverGivesUp` | `Dashboard.WaitIntendedBounded` |
