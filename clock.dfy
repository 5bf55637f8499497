/** Network time synchronisation of the real-time clock and the calendar helpers
    around it. The network is not modelled: whether Wi-Fi is connected and what
    `getLocalTime` produced after `configTzTime` (a broken-down local time, or
    nothing) are inputs. */
module Clock {

  import opened Wrappers

  /** The C library's broken-down time `struct tm`: month counted from 0, year
      counted from 1900, weekday 0 = Sunday. */
  datatype Tm = Tm(sec: int, min: int, hour: int, mday: int, mon: int, year: int,
                   wday: int, yday: int, isdst: int)

  /** The values of C's `int8_t` and `int16_t`. */
  type SInt8 = x: int | -0x80 <= x < 0x80
  type SInt16 = x: int | -0x8000 <= x < 0x8000

  /** The RTC's `rtc_time_t` (int8_t fields). */
  datatype RtcTime = RtcTime(hour: SInt8, min: SInt8, sec: SInt8)

  /** The RTC's `rtc_date_t`: int8_t weekday, month and day, int16_t year. */
  datatype RtcDate = RtcDate(week: SInt8, mon: SInt8, day: SInt8, year: SInt16)

  /** `static_cast<int8_t>`: two's-complement truncation to 8 bits. */
  function Int8(x: int): (r: int)
    ensures -0x80 <= r < 0x80
    ensures (x - r) % 0x100 == 0
    ensures -0x80 <= x < 0x80 ==> r == x
  {
    (x + 0x80) % 0x100 - 0x80
  }

  /** `static_cast<int16_t>`: two's-complement truncation to 16 bits. */
  function Int16(x: int): (r: int)
    ensures -0x8000 <= r < 0x8000
    ensures (x - r) % 0x1_0000 == 0
    ensures -0x8000 <= x < 0x8000 ==> r == x
  {
    (x + 0x8000) % 0x1_0000 - 0x8000
  }

  /** The ranges the C library gives the fields of a normalised `struct tm`
      (a second of 60 is a leap second), and a year the RTC's int16_t can hold. */
  predicate InCalendarRange(t: Tm) {
    && 0 <= t.sec <= 60 && 0 <= t.min <= 59 && 0 <= t.hour <= 23
    && 1 <= t.mday <= 31 && 0 <= t.mon <= 11 && 0 <= t.wday <= 6
    && -0x8000 <= t.year + 1900 < 0x8000
  }

  /** The time-of-day fields handed to the RTC: hour, minute and second copied. */
  function ToRtcTime(t: Tm): (r: RtcTime)
    ensures InCalendarRange(t) ==> r == RtcTime(t.hour, t.min, t.sec)
  {
    RtcTime(Int8(t.hour), Int8(t.min), Int8(t.sec))
  }

  /** The date fields handed to the RTC: the month becomes one-based, the year
      absolute, weekday and day of month are copied. */
  function ToRtcDate(t: Tm): (r: RtcDate)
    ensures InCalendarRange(t) ==> r == RtcDate(t.wday, t.mon + 1, t.mday, t.year + 1900)
    ensures InCalendarRange(t) ==> 1 <= r.mon <= 12 && 0 <= r.week <= 6
  {
    RtcDate(Int8(t.wday), Int8(t.mon + 1), Int8(t.mday), Int16(t.year + 1900))
  }

  /** The inverse view: the `struct tm` fields an RTC date and time stand for
      (day of year and daylight-saving flag are not kept by the RTC). */
  function ToTm(d: RtcDate, time: RtcTime): Tm {
    Tm(time.sec, time.min, time.hour, d.day, d.mon - 1, d.year - 1900, d.week, 0, 0)
  }

  /** For an in-range time nothing is lost on the way to the RTC: every field but
      the day of year and the daylight-saving flag comes back. */
  lemma RtcRoundTrip(t: Tm)
    requires InCalendarRange(t)
    ensures ToTm(ToRtcDate(t), ToRtcTime(t)) == t.(yday := 0, isdst := 0)
  {
  }

  /** Day names, Sunday first, as displayed. */
  const WeekdayNames: seq<string> := ["日", "月", "火", "水", "木", "金", "土"]

  /** `weekdayToString`: the name of weekday 0..6, the empty string otherwise. */
  function WeekdayName(weekDay: int): (name: string)
    ensures 0 <= weekDay < 7 ==> name == WeekdayNames[weekDay]
    ensures !(0 <= weekDay < 7) ==> name == ""
  {
    match weekDay
    case 0 => "日"
    case 1 => "月"
    case 2 => "火"
    case 3 => "水"
    case 4 => "木"
    case 5 => "金"
    case 6 => "土"
    case _ => ""
  }

  /** The index of a day name, if it is one. */
  function WeekdayIndex(name: string): (r: Option<int>)
    ensures r.Some? ==> 0 <= r.value < 7 && WeekdayNames[r.value] == name
    ensures r.None? ==> name !in WeekdayNames
  {
    if name in WeekdayNames then
      var i :| 0 <= i < 7 && WeekdayNames[i] == name; Some(i)
    else None
  }

  /** Each weekday has its own one-character name (one Unicode character here;
      three UTF-8 bytes in the firmware's `String`), so the name determines the
      weekday and the empty string stands for no weekday. */
  lemma WeekdayNameRoundTrip(weekDay: int)
    ensures 0 <= weekDay < 7 ==> |WeekdayName(weekDay)| == 1 && WeekdayIndex(WeekdayName(weekDay)) == Some(weekDay)
    ensures !(0 <= weekDay < 7) <==> WeekdayIndex(WeekdayName(weekDay)) == None
  {
    assert "" !in WeekdayNames;
    if 0 <= weekDay < 7 {
      assert forall i, j :: 0 <= i < j < 7 ==> WeekdayNames[i] != WeekdayNames[j];
    }
  }

  /** One call of the date/time setter callback. */
  datatype SetterCall = SetterCall(date: RtcDate, time: RtcTime)

  /** The status `syncNTPTime` returns and the setter calls it made, in order. */
  datatype SyncResult = SyncResult(status: int, calls: seq<SetterCall>)

  /** `syncNTPTime(tz, setter, servers...)`, given one to three NTP servers:
      fails with 1 and no setter call when Wi-Fi is down or no local time could
      be obtained, and otherwise calls the setter once with the converted date
      and time and returns 0. */
  function SyncNtpTime(tz: string, servers: seq<string>, wifiConnected: bool, localTime: Option<Tm>): (r: SyncResult)
    requires 1 <= |servers| <= 3
    ensures r.status == 0 || r.status == 1
    ensures r.status == 0 <==> wifiConnected && localTime.Some?
    ensures |r.calls| == 1 - r.status
    ensures r.status == 0 ==> r.calls[0] == SetterCall(ToRtcDate(localTime.value), ToRtcTime(localTime.value))
  {
    if !wifiConnected then SyncResult(1, [])
    else match localTime
      case None => SyncResult(1, [])
      case Some(t) => SyncResult(0, [SetterCall(ToRtcDate(t), ToRtcTime(t))])
  }

  /** What the setter receives from a successful synchronisation with an
      in-range local time: one-based month, absolute year, the rest copied. */
  lemma SyncNtpTimeSetterFields(tz: string, servers: seq<string>, t: Tm)
    requires 1 <= |servers| <= 3 && InCalendarRange(t)
    ensures var r := SyncNtpTime(tz, servers, true, Some(t));
      && r.status == 0 && |r.calls| == 1
      && r.calls[0].date == RtcDate(t.wday, t.mon + 1, t.mday, t.year + 1900)
      && r.calls[0].time == RtcTime(t.hour, t.min, t.sec)
  {
  }

  /** The device's real-time clock (`M5.RTC`). */
  class Rtc {
    var date: RtcDate
    var time: RtcTime

    constructor (date: RtcDate, time: RtcTime)
      ensures this.date == date && this.time == time
    {
      this.date := date;
      this.time := time;
    }
  }

  /** `SyncNTPTime(ntpServer, tz)`: the single-server variant whose setter writes
      the RTC directly. It returns the status of `SyncNtpTime` with that server;
      on success the RTC holds exactly what the setter would have received, on
      failure it is untouched. */
  method SyncNtpTimeToRtc(rtc: Rtc, ntpServer: string, tz: string, wifiConnected: bool, localTime: Option<Tm>)
    returns (status: int)
    modifies rtc
    ensures var r := SyncNtpTime(tz, [ntpServer], wifiConnected, localTime);
      && status == r.status
      && (status == 0 ==> rtc.date == r.calls[0].date && rtc.time == r.calls[0].time)
    ensures status != 0 ==> rtc.date == old(rtc.date) && rtc.time == old(rtc.time)
  {
    if !wifiConnected {
      return 1;
    }
    if localTime.None? {
      return 1;
    }
    var t := localTime.value;
    var timeStruct := ToRtcTime(t);
    var dateStruct := ToRtcDate(t);
    rtc.time := timeStruct;
    rtc.date := dateStruct;
    return 0;
  }
}
