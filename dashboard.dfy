/** The firmware's main program: the periodic `loop` that samples the sensor,
    reads the RTC, assembles what the e-paper screen shows and resynchronises the
    clock every 60480 iterations (at least a week apart); the button task's dispatch; and the Wi-Fi wait of `setup`.

    Everything outside the device's own logic is an input: the bus outcome, the
    CO2 value fetched over HTTP, Wi-Fi connectivity, the battery voltage, the
    local time after an NTP request and the button states. Drawing, the mutex and
    the task scheduler are not modelled. */
module Dashboard {

  import opened Wrappers
  import SHT3X
  import Clock

  /** Seconds slept at the end of each `loop`. */
  const SleepSec := 10
  /** Iterations of `loop` in one week: 7 * 3600 * 24 / SLEEP_SEC. */
  const TimeSyncCycle := 7 * 3600 * 24 / SleepSec
  const NtpServer := "ntp.nict.jp"
  const TimeZone := "JST-9"
  /** Battery voltage display range, millivolts. */
  const BatteryMinMv := 3300
  const BatteryMaxMv := 4350
  /** How long the left button must be held to shut down, milliseconds. */
  const LongPressMs := 2000
  const WifiConnectRetryMax := 20

  /** `vol` as displayed: raised to 3300 mV, lowered to 4350 mV. */
  function ClampBattery(vol: int): (r: int)
    ensures BatteryMinMv <= r <= BatteryMaxMv
    ensures BatteryMinMv <= vol <= BatteryMaxMv ==> r == vol
    ensures vol < BatteryMinMv ==> r == BatteryMinMv
    ensures vol > BatteryMaxMv ==> r == BatteryMaxMv
  {
    if vol < BatteryMinMv then BatteryMinMv
    else if vol > BatteryMaxMv then BatteryMaxMv
    else vol
  }

  /** Clamping keeps the order of voltages and a clamped value clamps to itself. */
  lemma ClampBatteryMonotoneIdempotent(a: int, b: int)
    ensures a <= b ==> ClampBattery(a) <= ClampBattery(b)
    ensures ClampBattery(ClampBattery(a)) == ClampBattery(a)
  {
  }

  /** `cnt` after one `loop`: incremented, and reset to 0 when it reaches the
      weekly cycle (whatever the synchronisation's result). */
  function NextCount(cnt: nat): (r: nat)
    requires cnt < TimeSyncCycle
    ensures r < TimeSyncCycle
    ensures r == (cnt + 1) % TimeSyncCycle
  {
    assert TimeSyncCycle == 60480;
    if cnt + 1 == TimeSyncCycle then 0 else cnt + 1
  }

  /** Whether the `loop` that starts with this `cnt` attempts a synchronisation. */
  predicate SyncDue(cnt: nat) {
    cnt + 1 == TimeSyncCycle
  }

  /** `cnt` after `k` iterations of `loop` from boot. */
  function CountAfter(k: nat): (c: nat)
    ensures c < TimeSyncCycle
  {
    if k == 0 then 0 else NextCount(CountAfter(k - 1))
  }

  /** The counter is the iteration number modulo one week of iterations. */
  lemma {:induction false} CountAfterIsModulo(k: nat)
    ensures CountAfter(k) == k % TimeSyncCycle
  {
    if k > 0 {
      CountAfterIsModulo(k - 1);
      assert TimeSyncCycle == 60480;
      var q, r := (k - 1) / 60480, (k - 1) % 60480;
      assert k == 60480 * q + (r + 1);
      assert CountAfter(k) == (r + 1) % 60480;
      if r + 1 == 60480 {
        assert k == 60480 * (q + 1);
      } else {
        assert k % 60480 == r + 1;
      }
    }
  }

  /** A synchronisation is attempted in iteration `k + 1` exactly when `k + 1` is
      a multiple of 60480, the number of 10-second sleeps in a week; since each
      iteration also spends time on the sensor, the network and the screen, the
      resynchronisation period is at least a week. */
  lemma SyncOncePerWeek(k: nat)
    ensures TimeSyncCycle == 60480 && TimeSyncCycle * SleepSec == 7 * 24 * 3600
    ensures SyncDue(CountAfter(k)) <==> (k + 1) % TimeSyncCycle == 0
  {
    assert TimeSyncCycle == 60480;
    CountAfterIsModulo(k);
    var q, r := k / 60480, k % 60480;
    assert k + 1 == 60480 * q + (r + 1);
    if r + 1 == 60480 {
      assert k + 1 == 60480 * (q + 1);
    } else {
      assert (k + 1) % 60480 == r + 1;
    }
  }

  /** The Wi-Fi line of the screen. */
  function WifiStatus(connected: bool): (s: string)
    ensures s == "OK" <==> connected
    ensures s == "NG" <==> !connected
  {
    if connected then "OK" else "NG"
  }

  /** What one `loop` puts on the screen. */
  datatype Screen = Screen(time: Clock.RtcTime, co2: nat, tempHundredths: int, humidity: nat,
                           date: Clock.RtcDate, weekday: string, wifi: string, batteryMv: int)

  /** The global state of `main.cpp` that `loop` works on. */
  class Firmware {
    var cnt: nat
    const sensor: SHT3X.Sensor
    const rtc: Clock.Rtc

    ghost predicate Valid()
      reads this, sensor
    {
      cnt < TimeSyncCycle && sensor.Valid()
    }

    constructor (sensor: SHT3X.Sensor, rtc: Clock.Rtc)
      requires sensor.Valid()
      ensures Valid()
      ensures cnt == 0 && this.sensor == sensor && this.rtc == rtc
    {
      cnt := 0;
      this.sensor := sensor;
      this.rtc := rtc;
    }

    /** One iteration of `loop`. A failed sensor read shows 0.0 degrees and 0 %,
        not the stale values the sensor keeps; the date and time shown are the
        RTC's before any synchronisation of this iteration. */
    method Loop(ack: bool, bus: seq<bv8>, co2: nat, wifiConnected: bool, vol: nat, localTime: Option<Clock.Tm>)
      returns (screen: Screen)
      requires Valid()
      requires |bus| == SHT3X.FrameLength
      modifies this, sensor, rtc
      ensures Valid()
      ensures cnt == NextCount(old(cnt))
      ensures var m := SHT3X.Measure(ack, bus);
        && screen.tempHundredths == (if m.Some? then m.value.tempHundredths else 0)
        && screen.humidity == (if m.Some? then m.value.humidity else 0)
        && sensor.tempHundredths == (if m.Some? then m.value.tempHundredths else old(sensor.tempHundredths))
        && sensor.humidity == (if m.Some? then m.value.humidity else old(sensor.humidity))
      ensures screen.time == old(rtc.time) && screen.date == old(rtc.date)
      ensures screen.weekday == Clock.WeekdayName(old(rtc.date).week)
      ensures screen.co2 == co2 && screen.wifi == WifiStatus(wifiConnected)
      ensures screen.batteryMv == ClampBattery(vol)
      ensures SyncDue(old(cnt)) && wifiConnected && localTime.Some? ==>
        rtc.date == Clock.ToRtcDate(localTime.value) && rtc.time == Clock.ToRtcTime(localTime.value)
      ensures !(SyncDue(old(cnt)) && wifiConnected && localTime.Some?) ==>
        rtc.date == old(rtc.date) && rtc.time == old(rtc.time)
    {
      var tmp := 0;
      var hum := 0;
      var status := sensor.Read(ack, bus);
      if status == 0 {
        tmp := sensor.GetTemperature();
        hum := sensor.GetHumidity();
      }

      var date, time := rtc.date, rtc.time;
      var v := vol;
      if v < BatteryMinMv {
        v := BatteryMinMv;
      } else if v > BatteryMaxMv {
        v := BatteryMaxMv;
      }
      screen := Screen(time, co2, tmp, hum, date, Clock.WeekdayName(date.week), WifiStatus(wifiConnected), v);

      cnt := cnt + 1;
      if cnt == TimeSyncCycle {
        var _ := Clock.SyncNtpTimeToRtc(rtc, NtpServer, TimeZone, wifiConnected, localTime);
        cnt := 0;
      }
    }
  }

  /** The button state `handleButton` sees after one `M5.update()`. */
  datatype Buttons = Buttons(pWasPressed: bool, rWasPressed: bool, lPressed: bool, lHeldMs: nat)

  /** The handler one poll runs, if any. */
  datatype Handler = Idle | PShortPress | RShortPress | LLongPress

  /** One poll of `handleButton`: at most one handler, the P button first, then
      the R button, then the L button held for at least 2 s. */
  function Dispatch(b: Buttons): (h: Handler)
    ensures h == PShortPress <==> b.pWasPressed
    ensures h == RShortPress <==> !b.pWasPressed && b.rWasPressed
    ensures h == LLongPress <==> !b.pWasPressed && !b.rWasPressed && b.lPressed && b.lHeldMs >= LongPressMs
  {
    if b.pWasPressed then PShortPress
    else if b.rWasPressed then RShortPress
    else if b.lPressed && b.lHeldMs >= LongPressMs then LLongPress
    else Idle
  }

  /** The handlers run for a sequence of polls. The long-press handler shuts the
      device down and never returns, so no poll after it is served. */
  function HandlersRun(polls: seq<Buttons>): (r: seq<Handler>)
    ensures |r| <= |polls|
    ensures polls != [] ==> r != [] && r[0] == Dispatch(polls[0])
  {
    if polls == [] then []
    else if Dispatch(polls[0]) == LLongPress then [LLongPress]
    else [Dispatch(polls[0])] + HandlersRun(polls[1..])
  }

  /** Each served poll runs its own dispatch; a shutdown is the last thing that
      happens, and polls go unserved only after one. */
  lemma {:induction false} HandlersRunShape(polls: seq<Buttons>)
    ensures var r := HandlersRun(polls);
      && |r| <= |polls|
      && (forall i :: 0 <= i < |r| ==> r[i] == Dispatch(polls[i]))
      && (forall i :: 0 <= i < |r| - 1 ==> r[i] != LLongPress)
      && (|r| < |polls| ==> |r| > 0 && r[|r| - 1] == LLongPress)
  {
    if polls != [] && Dispatch(polls[0]) != LLongPress {
      HandlersRunShape(polls[1..]);
    }
  }

  /** `handleButton`'s polling loop over a finite sequence of polls. */
  method HandleButton(polls: seq<Buttons>) returns (ran: seq<Handler>)
    ensures ran == HandlersRun(polls)
  {
    ran := [];
    var i := 0;
    while i < |polls|
      invariant i <= |polls|
      invariant HandlersRun(polls) == ran + HandlersRun(polls[i..])
    {
      var h := Dispatch(polls[i]);
      assert polls[i..][1..] == polls[i + 1..];
      if h == LLongPress {
        ran := ran + [h];
        return;
      }
      ran := ran + [h];
      i := i + 1;
    }
  }

  /** The Wi-Fi wait loop of `setup`, one condition check per retry. */
  datatype WaitCondition =
    | AsWritten  // `cnt_retry < WIFI_CONNECT_RETRY_MAX || !WiFi.isConnected()`
    | Intended   // `cnt_retry < WIFI_CONNECT_RETRY_MAX && !WiFi.isConnected()`

  /** `cnt_retry` is a `uint16_t`: after 65535 it wraps to 0. */
  const RetryCounterModulus: nat := 0x1_0000

  predicate WaitContinues(c: WaitCondition, retry: nat, connected: bool) {
    match c
    case AsWritten => retry % RetryCounterModulus < WifiConnectRetryMax || !connected
    case Intended => retry % RetryCounterModulus < WifiConnectRetryMax && !connected
  }

  /** The retry count at which the loop stops, given the connection state seen at
      each check (`trace[k]` at retry `k`); nothing if it is still waiting at the
      end of the trace. */
  function WaitExit(c: WaitCondition, trace: seq<bool>, retry: nat): (r: Option<nat>)
    ensures r.Some? ==> retry <= r.value < |trace| && !WaitContinues(c, r.value, trace[r.value])
    ensures r.Some? ==> forall j :: retry <= j < r.value ==> WaitContinues(c, j, trace[j])
    ensures r.None? ==> forall j :: retry <= j < |trace| ==> WaitContinues(c, j, trace[j])
    decreases |trace| - retry
  {
    if retry >= |trace| then None
    else if !WaitContinues(c, retry, trace[retry]) then Some(retry)
    else WaitExit(c, trace, retry + 1)
  }

  /** As written, the loop never gives up while the network stays down, however
      long the trace ... */
  lemma {:induction false} WaitAsWrittenNeverGivesUp(trace: seq<bool>, retry: nat)
    requires forall k :: retry <= k < |trace| ==> !trace[k]
    ensures WaitExit(AsWritten, trace, retry) == None
    decreases |trace| - retry
  {
    if retry < |trace| {
      WaitAsWrittenNeverGivesUp(trace, retry + 1);
    }
  }

  /** ... and it stops only at a check that found the network connected, so the
      "Failed to connect" branch after it runs only if the connection drops
      between that check and the one that follows the loop. */
  lemma {:induction false} WaitAsWrittenExitsConnected(trace: seq<bool>, retry: nat)
    ensures WaitExit(AsWritten, trace, retry).Some? ==> trace[WaitExit(AsWritten, trace, retry).value]
    decreases |trace| - retry
  {
    if retry < |trace| && WaitContinues(AsWritten, retry, trace[retry]) {
      WaitAsWrittenExitsConnected(trace, retry + 1);
    }
  }

  /** The retry counter wraps: retry 65536 + k is checked as retry k. */
  lemma WaitCountsModulo(c: WaitCondition, k: nat, connected: bool)
    ensures WaitContinues(c, RetryCounterModulus + k, connected) == WaitContinues(c, k, connected)
  {
  }

  /** With `&&` the loop stops by retry 20 at the latest, and as soon as the
      network is up. */
  lemma {:induction false} WaitIntendedBounded(trace: seq<bool>, retry: nat)
    requires retry <= WifiConnectRetryMax < |trace|
    ensures WaitExit(Intended, trace, retry).Some?
    ensures var k := WaitExit(Intended, trace, retry).value;
      retry <= k <= WifiConnectRetryMax && (k < WifiConnectRetryMax ==> trace[k])
      && forall j :: retry <= j < k ==> !trace[j]
    decreases WifiConnectRetryMax - retry
  {
    assert retry % RetryCounterModulus == retry;
    if retry < WifiConnectRetryMax && !trace[retry] {
      WaitIntendedBounded(trace, retry + 1);
    }
  }
}
