/** The clock arithmetic of the prayer-times tab: rendering an "HH:MM" prayer
    time in the 12- or 24-hour setting, converting it to a minute of the day, and
    choosing the next prayer with the time left until it. */
module PrayerClock {
  import opened Wrappers
  import opened ClockText

  const MinutesPerHour: nat := 60
  const MinutesPerDay: nat := 24 * 60

  /** The user's "timeFormat" setting, "12" or "24". */
  datatype TimeFormat = Hour12 | Hour24

  // ---------------------------------------------------------------------------
  // "HH:MM" strings

  /** `time.split(":").map(Number)` destructured into `[hours, minutes]`: the first
      two fields as numbers, None when a field is missing or not a number. */
  function ParseClock(time: string): (r: Option<(nat, nat)>)
    ensures var fields := Split(time, ':');
            r.Some? <==> |fields| >= 2 && fields[0] != [] && AllDigits(fields[0]) &&
                         fields[1] != [] && AllDigits(fields[1])
    ensures var fields := Split(time, ':');
            r.Some? ==> r.value == (DigitsValue(fields[0]), DigitsValue(fields[1]))
  {
    var fields := Split(time, ':');
    if |fields| < 2 then None
    else match (ParseNat(fields[0]), ParseNat(fields[1]))
      case (Some(h), Some(m)) => Some((h, m))
      case _ => None
  }

  /** The "HH:MM" text the prayer-times service delivers for a time of day. */
  function ClockString(hours: nat, minutes: nat): string
  {
    PadStart(NatToString(hours), 2, '0') + ":" + PadStart(NatToString(minutes), 2, '0')
  }

  lemma DigitsHaveNoSeparator(s: string)
    requires AllDigits(s)
    ensures ':' !in s && ' ' !in s
  {
  }

  lemma PaddedNumberParses(n: nat)
    ensures var p := PadStart(NatToString(n), 2, '0');
            AllDigits(p) && ':' !in p && ' ' !in p && ParseNat(p) == Some(n)
  {
    var s := NatToString(n);
    var p := PadStart(s, 2, '0');
    ParseNatToString(n);
    if |s| < 2 {
      ParseNatLeadingZeros(s, 2 - |s|);
      assert p == Repeat('0', 2 - |s|) + s;
    }
    assert forall i :: 0 <= i < |p| ==> IsDigit(p[i]) by {
      forall i | 0 <= i < |p| ensures IsDigit(p[i]) {
        if i >= |p| - |s| {
          assert p[i] == p[|p| - |s|..][i - (|p| - |s|)];
        }
      }
    }
  }

  /** Parsing the service's "HH:MM" text gives back the hours and minutes. */
  lemma ParseClockString(hours: nat, minutes: nat)
    ensures ParseClock(ClockString(hours, minutes)) == Some((hours, minutes))
  {
    var a := PadStart(NatToString(hours), 2, '0');
    var b := PadStart(NatToString(minutes), 2, '0');
    PaddedNumberParses(hours);
    PaddedNumberParses(minutes);
    assert ClockString(hours, minutes) == a + [':'] + b;
    SplitPair(a, b, ':');
  }

  /** `hours * 60 + minutes` of the parsed fields (lines 186-187);
      None where the source computes NaN. */
  function MinuteOfDay(time: string): (r: Option<nat>)
    ensures r.Some? <==> ParseClock(time).Some?
    ensures r.Some? ==> r.value == ParseClock(time).value.0 * MinutesPerHour + ParseClock(time).value.1
  {
    match ParseClock(time)
    case Some((h, m)) => Some(h * MinutesPerHour + m)
    case None => None
  }

  /** A well-formed clock time of the day maps to a distinct minute below 1440. */
  lemma MinuteOfDayOfClockString(hours: nat, minutes: nat)
    requires hours < 24 && minutes < 60
    ensures MinuteOfDay(ClockString(hours, minutes)) == Some(hours * 60 + minutes)
    ensures hours * 60 + minutes < MinutesPerDay
    ensures (hours * 60 + minutes) / 60 == hours && (hours * 60 + minutes) % 60 == minutes
  {
    ParseClockString(hours, minutes);
  }

  // ---------------------------------------------------------------------------
  // formatTime

  /** `hours % 12 || 12`: the 12-hour dial position, 12 where the remainder is 0. */
  function DisplayHour(hours: nat): (d: nat)
    ensures 1 <= d <= 12
    ensures d % 12 == hours % 12
  {
    if hours % 12 == 0 then 12 else hours % 12
  }

  lemma DisplayHourExamples()
    ensures DisplayHour(0) == 12 && DisplayHour(12) == 12 && DisplayHour(13) == 1 && DisplayHour(23) == 11
  {
  }

  /** `hours >= 12 ? "PM" : "AM"`. */
  function Period(hours: nat): (p: string)
    ensures p == "PM" <==> hours >= 12
    ensures p == "AM" <==> hours < 12
  {
    if hours >= 12 then "PM" else "AM"
  }

  /** `minutes.toString().padStart(2, "0")`. */
  function MinutesText(minutes: nat): string
  {
    PadStart(NatToString(minutes), 2, '0')
  }

  /** Minutes are shown with at least two digits, zero-padded on the left only
      when there is a single digit, and read back as the same number. */
  lemma MinutesTextPadded(minutes: nat)
    ensures |MinutesText(minutes)| >= 2
    ensures minutes < 10 ==> MinutesText(minutes) == ['0', DigitChar(minutes)]
    ensures minutes >= 10 ==> MinutesText(minutes) == NatToString(minutes)
    ensures ParseNat(MinutesText(minutes)) == Some(minutes)
  {
    PaddedNumberParses(minutes);
    if minutes < 10 {
      assert Repeat('0', 1) == ['0'];
    } else {
      assert |NatToString(minutes)| >= 2;
    }
  }

  /** formatTime: in the 24-hour setting the text is shown as it is; in the 12-hour
      setting it is re-rendered as "h:mm AM|PM", which needs both fields to be
      numbers (None otherwise). */
  function FormatTime(time: string, format: TimeFormat): (r: Option<string>)
    ensures format == Hour24 ==> r == Some(time)
    ensures format == Hour12 ==> (r.Some? <==> ParseClock(time).Some?)
  {
    if format == Hour24 then Some(time)
    else match ParseClock(time)
      case Some((h, m)) =>
        Some(NatToString(DisplayHour(h)) + ":" + (MinutesText(m) + " " + Period(h)))
      case None => None
  }

  /** Reads a 12-hour rendering "h:mm AM|PM" back into 24-hour hours and minutes. */
  function ParseTime12(text: string): Option<(nat, nat)>
  {
    var fields := Split(text, ':');
    if |fields| != 2 then None
    else
      var tail := Split(fields[1], ' ');
      if |tail| != 2 then None
      else match (ParseNat(fields[0]), ParseNat(tail[0]))
        case (Some(d), Some(m)) =>
          if 1 <= d <= 12 && (tail[1] == "AM" || tail[1] == "PM")
          then Some((d % 12 + (if tail[1] == "PM" then 12 else 0), m))
          else None
        case _ => None
  }

  /** The dial hour and the period together determine the hour of the day. */
  lemma DisplayHourAndPeriodDetermineHour(hours: nat)
    requires hours < 24
    ensures DisplayHour(hours) % 12 + (if Period(hours) == "PM" then 12 else 0) == hours
  {
  }

  /** ParseTime12 once the text is known to split into hour, minute and period. */
  lemma ParseTime12OfFields(text: string, a: string, b: string, p: string, d: nat, m: nat)
    requires Split(text, ':') == [a, b + " " + p]
    requires Split(b + " " + p, ' ') == [b, p]
    requires ParseNat(a) == Some(d) && ParseNat(b) == Some(m)
    requires 1 <= d <= 12 && (p == "AM" || p == "PM")
    ensures ParseTime12(text) == Some((d % 12 + (if p == "PM" then 12 else 0), m))
  {
  }

  lemma RenderingSplitsAtColon(d: nat, m: nat, p: string)
    requires p == "AM" || p == "PM"
    ensures Split(NatToString(d) + ":" + (MinutesText(m) + " " + p), ':')
            == [NatToString(d), MinutesText(m) + " " + p]
  {
    var a := NatToString(d);
    var rest := MinutesText(m) + " " + p;
    assert ':' !in a by {
      DigitsHaveNoSeparator(a);
    }
    assert ':' !in rest by {
      PaddedNumberParses(m);
      assert ':' !in " " + p;
    }
    SplitPair(a, rest, ':');
  }

  lemma RenderingSplitsAtSpace(m: nat, p: string)
    requires p == "AM" || p == "PM"
    ensures Split(MinutesText(m) + " " + p, ' ') == [MinutesText(m), p]
  {
    assert ' ' !in MinutesText(m) by {
      PaddedNumberParses(m);
    }
    SplitPair(MinutesText(m), p, ' ');
  }

  /** Reading back a 12-hour rendering built from its parts. */
  lemma ParseTime12OfParts(d: nat, m: nat, p: string)
    requires 1 <= d <= 12 && (p == "AM" || p == "PM")
    ensures ParseTime12(NatToString(d) + ":" + (MinutesText(m) + " " + p))
            == Some((d % 12 + (if p == "PM" then 12 else 0), m))
  {
    RenderingSplitsAtColon(d, m, p);
    RenderingSplitsAtSpace(m, p);
    ParseNatToString(d);
    PaddedNumberParses(m);
    ParseTime12OfFields(NatToString(d) + ":" + (MinutesText(m) + " " + p), NatToString(d), MinutesText(m), p, d, m);
  }

  /** The 12-hour rendering loses nothing for a time of day below 24:00: reading it
      back gives the hours and minutes that were parsed from the input. */
  lemma Format12RoundTrip(time: string, hours: nat, minutes: nat)
    requires ParseClock(time) == Some((hours, minutes))
    requires hours < 24
    ensures FormatTime(time, Hour12).Some?
    ensures ParseTime12(FormatTime(time, Hour12).value) == Some((hours, minutes))
  {
    var d := DisplayHour(hours);
    var p := Period(hours);
    assert FormatTime(time, Hour12) == Some(NatToString(d) + ":" + (MinutesText(minutes) + " " + p));
    ParseTime12OfParts(d, minutes, p);
    DisplayHourAndPeriodDetermineHour(hours);
  }

  /** The 12-hour text has exactly one ':' between the dial hour and the rest, and
      the rest splits at its one space into the padded minutes and the period. */
  lemma FormatTime12Fields(time: string, hours: nat, minutes: nat)
    requires ParseClock(time) == Some((hours, minutes))
    ensures FormatTime(time, Hour12).Some?
    ensures var fields := Split(FormatTime(time, Hour12).value, ':');
            fields == [NatToString(DisplayHour(hours)), MinutesText(minutes) + " " + Period(hours)] &&
            Split(fields[1], ' ') == [MinutesText(minutes), Period(hours)]
    ensures |MinutesText(minutes)| >= 2
  {
    RenderingSplitsAtColon(DisplayHour(hours), minutes, Period(hours));
    RenderingSplitsAtSpace(minutes, Period(hours));
    MinutesTextPadded(minutes);
  }

  // ---------------------------------------------------------------------------
  // calculateNextPrayer

  /** The five daily prayers; every other timing the service reports is ignored. */
  const PrayerNames: seq<string> := ["Fajr", "Dhuhr", "Asr", "Maghrib", "Isha"]

  /** One `[name, time]` pair of `Object.entries(prayerTimes)`. */
  type Entry = (string, string)

  /** A prayer with its minute of the day; None where the source has NaN. */
  datatype Prayer = Prayer(name: string, time: Option<nat>)

  function ToPrayer(e: Entry): Prayer
  {
    Prayer(e.0, MinuteOfDay(e.1))
  }

  /** The filter and map of lines 183-188: the entries named after one of the five
      prayers, in their order, each with its time converted to minutes. */
  function Prayers(entries: seq<Entry>): (ps: seq<Prayer>)
    ensures |ps| <= |entries|
    ensures forall i :: 0 <= i < |ps| ==> ps[i].name in PrayerNames
    ensures forall p :: p in ps ==> exists e :: e in entries && e.0 in PrayerNames && p == ToPrayer(e)
    ensures forall e :: e in entries && e.0 in PrayerNames ==> ToPrayer(e) in ps
  {
    if entries == [] then []
    else
      var rest := Prayers(entries[1..]);
      assert forall e :: e in entries[1..] ==> e in entries;
      assert forall e :: e in entries ==> e == entries[0] || e in entries[1..];
      if entries[0].0 in PrayerNames then [ToPrayer(entries[0])] + rest else rest
  }

  /** The filter and map keep the order of the entries: converting two runs of
      entries one after the other gives the two converted runs in that order. */
  lemma {:induction false} PrayersAppend(a: seq<Entry>, b: seq<Entry>)
    ensures Prayers(a + b) == Prayers(a) + Prayers(b)
  {
    if a == [] {
      assert a + b == b;
    } else {
      assert (a + b)[1..] == a[1..] + b;
      PrayersAppend(a[1..], b);
    }
  }

  /** A prayer counts as "next" only when its time is strictly later than now;
      a NaN time never does. */
  predicate Later(p: Prayer, current: int)
  {
    p.time.Some? && p.time.value > current
  }

  /** `prayers.find(prayer => prayer.time > currentTime)`, as an index. */
  function FindLater(ps: seq<Prayer>, current: int): (r: Option<nat>)
    ensures r.Some? ==> r.value < |ps| && Later(ps[r.value], current)
    ensures r.Some? ==> forall j :: 0 <= j < r.value ==> !Later(ps[j], current)
    ensures r.None? ==> forall j :: 0 <= j < |ps| ==> !Later(ps[j], current)
  {
    if ps == [] then None
    else if Later(ps[0], current) then Some(0)
    else match FindLater(ps[1..], current)
      case Some(i) => Some(i + 1)
      case None => None
  }

  /** The time left, split as the display shows it: "{hours}h {minutes}m". */
  datatype Countdown = Countdown(hours: int, minutes: int)

  /** JavaScript's `%` on integers: the remainder takes the sign of the dividend. */
  function JsRem(a: int, b: int): (r: int)
    requires b > 0
    ensures a >= 0 ==> 0 <= r < b
    ensures a < 0 ==> -b < r <= 0
    ensures a == (if a >= 0 then a / b else -((-a) / b)) * b + r
  {
    if a < 0 then
      assert -a == ((-a) / b) * b + (-a) % b;
      -((-a) % b)
    else a % b
  }

  /** `Math.floor(diff / 60)` and `diff % 60`. Dafny's `/` by a positive divisor
      already rounds down, like `Math.floor`. */
  function SplitCountdown(diff: int): (c: Countdown)
    ensures diff >= 0 ==> c.hours * 60 + c.minutes == diff && 0 <= c.minutes < 60 && c.hours >= 0
  {
    Countdown(diff / MinutesPerHour, JsRem(diff, MinutesPerHour))
  }

  /** What calculateNextPrayer delivers instead of calling its state setters:
      nothing while no times are loaded, the TypeError of `prayers[0].time` when no
      prayer is listed at all (thrown after the name was set to "Fajr", with the
      countdown left as it was), or the name of the next prayer with its countdown
      (None where the source computes NaN). */
  datatype NextPrayerResult =
    | NotLoaded
    | NoPrayers
    | Next(name: string, countdown: Option<Countdown>)

  /** The choice among the converted prayers (lines 190-205). */
  function ChooseNext(ps: seq<Prayer>, current: nat): (r: NextPrayerResult)
    ensures r.NoPrayers? <==> ps == []
    ensures !r.NotLoaded?
    ensures r.Next? ==> r.name == "Fajr" || exists i :: 0 <= i < |ps| && r.name == ps[i].name
    ensures r.Next? && r.countdown.Some? && current < MinutesPerDay ==>
              0 <= r.countdown.value.minutes < 60 &&
              r.countdown.value.hours * 60 + r.countdown.value.minutes > 0
  {
    match FindLater(ps, current)
    case Some(i) => Next(ps[i].name, Some(SplitCountdown(ps[i].time.value - current)))
    case None =>
      if ps == [] then NoPrayers
      else
        var countdown := match ps[0].time
          case Some(t) => Some(SplitCountdown(MinutesPerDay - current + t))
          case None => None;
        Next("Fajr", countdown)
  }

  /** calculateNextPrayer for the current minute of the day. When no prayer is left
      today the name is "Fajr" and the countdown runs to the first listed prayer's
      time tomorrow. */
  function CalculateNextPrayer(prayerTimes: Option<seq<Entry>>, current: nat): (r: NextPrayerResult)
    ensures prayerTimes.None? <==> r.NotLoaded?
    ensures prayerTimes.Some? ==> (r.NoPrayers? <==> Prayers(prayerTimes.value) == [])
    ensures r.Next? ==> r.name in PrayerNames
    ensures r.Next? && r.countdown.Some? && current < MinutesPerDay ==>
              0 <= r.countdown.value.minutes < 60 &&
              r.countdown.value.hours * 60 + r.countdown.value.minutes > 0
  {
    match prayerTimes
    case None => NotLoaded
    case Some(entries) => ChooseNext(Prayers(entries), current)
  }

  /** The first listed prayer strictly later than now is the next one, and the
      countdown is exactly the minutes until it. */
  lemma NextIsFirstLaterPrayer(entries: seq<Entry>, current: nat, i: nat)
    requires i < |Prayers(entries)|
    requires Later(Prayers(entries)[i], current)
    requires forall j :: 0 <= j < i ==> !Later(Prayers(entries)[j], current)
    ensures var r := CalculateNextPrayer(Some(entries), current);
            var p := Prayers(entries)[i];
            r.Next? && r.name == p.name && r.countdown.Some? &&
            r.countdown.value.hours * 60 + r.countdown.value.minutes == p.time.value - current &&
            0 <= r.countdown.value.minutes < 60
  {
  }

  /** A prayer at exactly the current minute is not the next one. */
  lemma PrayerAtCurrentMinuteIsNotNext(entries: seq<Entry>, current: nat, i: nat)
    requires i < |Prayers(entries)|
    requires Prayers(entries)[i].time == Some(current)
    ensures FindLater(Prayers(entries), current) != Some(i)
  {
  }

  /** With no prayer left today the next one is "Fajr", counted down to the first
      listed prayer's minute on the next day; the countdown is positive. */
  lemma NoneLaterWrapsToFajr(entries: seq<Entry>, current: nat)
    requires Prayers(entries) != []
    requires forall j :: 0 <= j < |Prayers(entries)| ==> !Later(Prayers(entries)[j], current)
    requires Prayers(entries)[0].time.Some?
    ensures var r := CalculateNextPrayer(Some(entries), current);
            var c := r.countdown.value;
            r.Next? && r.name == "Fajr" && r.countdown.Some? &&
            (current < MinutesPerDay ==>
               c.hours * 60 + c.minutes == MinutesPerDay - current + Prayers(entries)[0].time.value &&
               c.hours * 60 + c.minutes > 0)
  {
  }

  /** A day's five prayers at 04:45, 12:10, 15:30, 18:15 and 19:28. */
  function SampleDay(): seq<Prayer>
  {
    [Prayer("Fajr", Some(285)), Prayer("Dhuhr", Some(730)), Prayer("Asr", Some(930)),
     Prayer("Maghrib", Some(1095)), Prayer("Isha", Some(1168))]
  }

  /** At 12:10 sharp Dhuhr is not next but Asr, 3h 20m away; after Isha the
      countdown runs to Fajr tomorrow. */
  lemma SampleDayNextPrayer()
    ensures ChooseNext(SampleDay(), 12 * 60 + 10) == Next("Asr", Some(Countdown(3, 20)))
    ensures ChooseNext(SampleDay(), 20 * 60) == Next("Fajr", Some(Countdown(8, 45)))
  {
  }
}
