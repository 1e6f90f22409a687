# Prayer clock and Qibla compass: a Dafny model

This project models the two pieces of logic in the muslim-time front-end that do
more than wire up the UI:

- **The prayer clock** (`components/prayer-times-tab.tsx`). `formatTime` shows an
  `"HH:MM"` prayer time either unchanged (24-hour setting) or as `h:mm AM|PM`.
  Each of the five daily prayers is converted to a minute of the day.
  `calculateNextPrayer` picks the first listed prayer strictly later than the
  current minute, or wraps to "Fajr" on the next day, and splits the wait into
  hours and minutes. Here it is a pure function that returns the name and the
  countdown instead of calling the React state setters.
- **The compass filter** (`components/qibla-tab.tsx`). `smoothHeading` takes one
  proportional step along the shorter arc. The orientation handler picks a heading
  source, keeps a first-in-first-out window of the last five readings, and takes
  their mean. A jitter gate decides whether the mean replaces the two heading refs.
  The animation step moves the displayed heading at most once every 33 ms.
  `relativeDirection` turns the Qibla arrow on the dial.

Layout, one module per file:

- `wrappers.dfy` — `Option`.
- `clock_text.dfy` — the JavaScript string built-ins the clock uses: `split`,
  `Number` on digit strings, `toString`, `padStart`.
- `prayer_clock.dfy` — the prayer-times tab's logic.
- `heading.dfy` — angle arithmetic: JavaScript's `% 360` on numbers,
  `smoothHeading`, the circular distance of the jitter gate, `relativeDirection`
  and the moving average.
- `compass.dfy` — the class `QiblaCompass`. Its fields are the window
  (`headingHistory`), the `latestHeading`, `smoothedHeading` and `lastUpdateTime`
  refs, and the `compassHeading` state. Its two methods are the orientation
  handler and the animation step.

Numbers are exact: the clock works on integers, angles and timestamps on `real`.
JavaScript's `%` is written out as a truncated remainder (`JsRem`, `Rem360`).
`Math.floor(diff / 60)` is Dafny's `/`, which rounds down for a positive divisor.

Four properties of the filter as it is written:

- The moving average is taken on the raw readings. No reading is unwrapped at
  0/360 (`MeanAcrossNorth` shows five readings near north averaging to 144°).
- There is no aligned/not-aligned state: the arrow's angle is recomputed from
  the shown heading on every render, with no entry or exit threshold.
- The 33 ms throttle limits animation frames, not sensor readings. Every reading
  that has a heading enters the window.
- The jitter gate suppresses an update only when the mean moved by at most 1°
  and the window holds at least three readings; any mean of a shorter window is
  taken.

## Model

| member | source | states |
|---|---|---|
| `ClockText.Split` | components/prayer-times-tab.tsx:49 | `split(":")` yields at least one field, no field contains the separator, and joining the fields gives back the input |
| `ClockText.SplitOfJoin` | components/prayer-times-tab.tsx:49 | splitting undoes joining for fields without the separator |
| `ClockText.NatToString` | components/prayer-times-tab.tsx:52 | `toString` of a non-negative integer is a non-empty digit string without a leading zero, one digit long exactly below 10 |
| `ClockText.ParseNat` | components/prayer-times-tab.tsx:49 | `Number` of a field is a number exactly when the field is a non-empty run of decimal digits (other inputs: see "## Left out"); `ParseNatToString` and `ParseNatLeadingZeros` fix its value |
| `ClockText.ParseNatToString` | components/prayer-times-tab.tsx:49 | `Number` applied to what `toString` wrote gives the number back |
| `ClockText.PadStart` | components/prayer-times-tab.tsx:52 | `padStart(width, fill)` keeps the text as a suffix, reaches at least `width` characters, and adds only fill characters, on the left |
| `ClockText.ParseNatLeadingZeros` | components/prayer-times-tab.tsx:49 | leading zeros do not change what `Number` reads (`"05"` is 5) |
| `PrayerClock.ParseClock` | components/prayer-times-tab.tsx:186 | `time.split(":").map(Number)` as used at lines 49, 83 and 186: hours and minutes exactly when the text has at least two `:`-separated fields and the first two are non-empty digit strings, and then their decimal values; `ParseClockString` gives the round trip |
| `PrayerClock.ParseClockString` | components/prayer-times-tab.tsx:186 | splitting an `"HH:MM"` text and converting both fields gives back its hours and minutes |
| `PrayerClock.MinuteOfDay` | components/prayer-times-tab.tsx:186-187 | a time converts exactly when both fields are numbers, to `hours * 60 + minutes` |
| `PrayerClock.MinuteOfDayOfClockString` | components/prayer-times-tab.tsx:83 | a time of day below 24:00 converts to a minute below 1440, from which hours and minutes can be recovered |
| `PrayerClock.DisplayHour` | components/prayer-times-tab.tsx:51 | `hours % 12 \|\| 12` lies in 1..12 and agrees with the hour modulo 12 |
| `PrayerClock.DisplayHourExamples` | components/prayer-times-tab.tsx:51 | hour 0 shows as 12, 12 as 12, 13 as 1, 23 as 11 |
| `PrayerClock.Period` | components/prayer-times-tab.tsx:50 | the period is "PM" exactly when the hour is at least 12, "AM" exactly when below |
| `PrayerClock.MinutesText` | components/prayer-times-tab.tsx:52 | `minutes.toString().padStart(2, "0")`; no contract of its own: `MinutesTextPadded` states its length, its form and that it reads back as the minutes |
| `PrayerClock.MinutesTextPadded` | components/prayer-times-tab.tsx:52 | minutes always have at least two digits; a single digit gets one `0` on the left; the text reads back as the same number |
| `PrayerClock.FormatTime` | components/prayer-times-tab.tsx:47-53 | the 24-hour setting returns the input unchanged; the 12-hour rendering exists exactly when both fields are numbers |
| `PrayerClock.DisplayHourAndPeriodDetermineHour` | components/prayer-times-tab.tsx:50-51 | the dial hour and the period together determine the hour of the day |
| `PrayerClock.FormatTime12Fields` | components/prayer-times-tab.tsx:49-52 | the 12-hour text splits at its one `:` into the dial hour and the rest, and the rest at its one space into the minutes padded to at least two digits and the period |
| `PrayerClock.Format12RoundTrip` | components/prayer-times-tab.tsx:49-52 | reading back the 12-hour rendering of a time below 24:00 gives its hours and minutes: nothing is lost |
| `PrayerClock.Prayers` | components/prayer-times-tab.tsx:183-188 | only entries named Fajr, Dhuhr, Asr, Maghrib or Isha are kept, every such entry is kept with its time in minutes, and no others appear |
| `PrayerClock.PrayersAppend` | components/prayer-times-tab.tsx:183-188 | the filter and map keep the order of the entries, on which `find` and `prayers[0]` depend |
| `PrayerClock.FindLater` | components/prayer-times-tab.tsx:190 | `find` returns the first prayer in list order whose minute is strictly later than now, or nothing when none is |
| `PrayerClock.JsRem` | components/prayer-times-tab.tsx:196 | JavaScript's `%` by a positive divisor: the dividend is the quotient truncated towards zero times the divisor plus the result, which has the dividend's sign and magnitude below the divisor |
| `PrayerClock.SplitCountdown` | components/prayer-times-tab.tsx:194-196 | for a non-negative wait, `hours * 60 + minutes` is the wait and `0 <= minutes < 60` |
| `PrayerClock.ChooseNext` | components/prayer-times-tab.tsx:190-205 | the result is an error exactly when no prayer is listed; otherwise it names a listed prayer or "Fajr"; for a current minute below 1440 the countdown is positive with minutes in 0..59 |
| `PrayerClock.CalculateNextPrayer` | components/prayer-times-tab.tsx:177-206 | nothing happens without loaded times; there is an error exactly when none of the five prayers is listed; the name is one of the five; for a current minute below 1440 the countdown is positive with minutes in 0..59 |
| `PrayerClock.NextIsFirstLaterPrayer` | components/prayer-times-tab.tsx:190-197 | when a prayer is the first listed one strictly later than now, it is the result and the countdown is exactly the minutes until it |
| `PrayerClock.PrayerAtCurrentMinuteIsNotNext` | components/prayer-times-tab.tsx:190 | a prayer at exactly the current minute is never chosen |
| `PrayerClock.NoneLaterWrapsToFajr` | components/prayer-times-tab.tsx:198-205 | with no prayer left today the result is "Fajr", counted down over `1440 - now + prayers[0].time`, which is positive |
| `PrayerClock.SampleDayNextPrayer` | components/prayer-times-tab.tsx:190-205 | on a sample day, at 12:10 sharp the next prayer is Asr in 3h 20m, and at 20:00 it is Fajr in 8h 45m |
| `Heading.Rem360` | components/qibla-tab.tsx:16 | `x % 360` is in [0, 360) for non-negative `x` and in (-360, 0] for negative `x`; on [0, 1080) it removes whole turns |
| `Heading.ShortestDiff` | components/qibla-tab.tsx:11-13 | the corrected difference is `target - current` up to one whole turn, and lies in [-180, 180] for headings in range |
| `Heading.Scaled` | components/qibla-tab.tsx:16 | a step of factor in [0, 1] lies between no turn and the whole turn, on the same side |
| `Heading.SmoothHeading` | components/qibla-tab.tsx:9-17 | the result is in [0, 360); it is `current` when `current == target` or the factor is 0, and `target` when the factor is 1 |
| `Heading.SmoothHeadingClosesDistance` | components/qibla-tab.tsx:9-17 | each step closes exactly the fraction `factor` of the circular distance to the target, so the heading never goes the long way round |
| `Heading.SmoothHeadingOffset` | components/qibla-tab.tsx:9-17 | after a step the target lies the rest of the shortest turn away, up to a whole turn |
| `Heading.SmoothHeadingKeepsSide` | components/qibla-tab.tsx:9-17 | no overshoot: what is left to the target is the fraction `1 - factor` of the shortest turn, on the same side, up to a whole turn |
| `Heading.NormalizedDiff` | components/qibla-tab.tsx:144-145 | `min(d, 360 - d)` lies in [0, 180] for headings in [0, 360] and is 0 for equal headings |
| `Heading.NormalizedDiffSymmetric` | components/qibla-tab.tsx:144-145 | the distance does not depend on the order of the two headings |
| `Heading.NormalizedDiffIsShortestTurn` | components/qibla-tab.tsx:11-13 | the jitter gate's distance is the size of the turn `smoothHeading` computes |
| `Heading.RelativeDirection` | components/qibla-tab.tsx:187 | the arrow angle is in [0, 360), and turning the compass heading by it reaches the Qibla direction, up to one turn |
| `Heading.Sum` | components/qibla-tab.tsx:141 | the `reduce` from 0 as a left fold; no contract of its own: `SumBounds` bounds it and `MovingAverage`'s loop is proved to compute it |
| `Heading.SumBounds` | components/qibla-tab.tsx:141 | the `reduce` sum of readings in [lo, hi] lies between `n * lo` and `n * hi` |
| `Heading.Mean` | components/qibla-tab.tsx:141 | the sum divided by the window length; no contract of its own: `MeanWithin`, `MeanBetweenMinAndMax` and `MeanAcrossNorth` state what it is |
| `Heading.MeanWithin` | components/qibla-tab.tsx:141 | the moving average of readings in [lo, hi] stays in [lo, hi] |
| `Heading.MeanBetweenMinAndMax` | components/qibla-tab.tsx:141 | the moving average lies between the window's smallest and largest reading |
| `Heading.MeanAcrossNorth` | components/qibla-tab.tsx:141 | readings 359, 1, 2, 358, 0 average to 144: no unwrapping at north |
| `Heading.MovingAverage` | components/qibla-tab.tsx:141 | the accumulation over the window returns its sum divided by its length (the `reduce` loop; `Heading.Mean` is the function it is proved against) |
| `Compass.HeadingOf` | components/qibla-tab.tsx:120-132 | `webkitCompassHeading` wins when defined, otherwise `360 - alpha`; there is no heading exactly when the event has neither |
| `Compass.HeadingOfInRange` | components/qibla-tab.tsx:128 | for sensor values in [0, 360) the heading lies in [0, 360] |
| `Compass.Pushed` | components/qibla-tab.tsx:135-138 | push then shift: below five readings the new one is appended; otherwise the oldest is dropped |
| `Compass.Recent` | components/qibla-tab.tsx:134-138 | the window is the last `min(n, 5)` readings of the stream, oldest first |
| `Compass.PushedKeepsRecent` | components/qibla-tab.tsx:135-138 | pushing a reading onto the window of a stream gives the window of the extended stream |
| `Compass.PushedInRange` | components/qibla-tab.tsx:136-142 | pushing an in-range reading keeps every angle of the window in [0, 360], and the window's mean in [0, 360] |
| `Compass.TakesAverage` | components/qibla-tab.tsx:144-147 | the jitter gate: the normalized difference above 1 or fewer than three readings; no contract of its own: `GateRejectsSmallSettledMoves` characterises it |
| `Compass.GateRejectsSmallSettledMoves` | components/qibla-tab.tsx:144-147 | for readings in [0, 360] an average is rejected exactly when the window holds at least three readings and the average is within 1° of the latest heading, directly or across north |
| `Compass.QiblaCompass.constructor` | components/qibla-tab.tsx:33-37 | the refs start at 0 and the window starts empty |
| `Compass.QiblaCompass.HandleOrientation` | components/qibla-tab.tsx:117-154 | an event without a heading changes nothing; otherwise the reading enters the window, and the mean becomes both refs exactly when the jitter gate (distance above 1° or fewer than 3 readings) lets it through; ranges and the window invariant are kept |
| `Compass.QiblaCompass.AnimateStep` | components/qibla-tab.tsx:56-64 | more than 33 ms after the last update the shown heading takes one 0.15 smoothing step and the time is recorded; otherwise both are unchanged; the readings and refs never change |

## Left out

- Fetching prayer times: the geolocation request, the prayer-times service, the
  key-value cache and the fallback city (`fetchPrayerTimes`,
  `fetchPrayerTimesByCity`). These are network and browser storage.
- Notification scheduling with `setTimeout` and `Notification`, and the one-second
  `setInterval` that re-runs `calculateNextPrayer`. These are timers and side
  effects. Only the parse they share with `calculateNextPrayer` (`ParseClock`) is
  modelled.
- The current minute comes from `Date`. It is a parameter (`current`) here.
  Locale-dependent date and time rendering, the JSX and the translated prayer
  names are also out.
- The countdown text `"{hours}h {minutes}m"`: the model returns the pair of numbers.
- `calculateQiblaDirection` and `calculateDistance`: they need sine, cosine,
  `atan2` and square roots on floating point. The Qibla direction is a parameter
  of `RelativeDirection`.
- Sensor and permission requests, adding and removing event listeners, the
  `requestAnimationFrame` lifecycle and its `isCompassReady && !loading` guard,
  `console.log`, and the `debugInfo` text.
- The React state update `setCompassHeading(prev => ...)` is modelled as a direct
  assignment of `compassHeading`.
- Floating-point rounding: all arithmetic is exact.
- `ClockText.ParseNat`: `Number` is modelled only on non-empty decimal digit
  strings. Its other results (0 for an empty string, trimming whitespace, signs,
  decimals) count as "not a number" in this model.
- `PrayerClock.FormatTime`: in the 12-hour setting a malformed time yields None.
  The source renders a non-numeric hours field as `12` with `AM`, since
  `NaN % 12 || 12` is 12 and `NaN >= 12` is false (`"ab:30"` becomes `12:30 AM`).
  It renders a non-numeric minutes field as `NaN` (`"15:xy"` becomes `3:NaN PM`).
  It throws a `TypeError` when there is no minutes field at all, because
  `undefined.toString()` fails.
- `PrayerClock.CalculateNextPrayer`: the `TypeError` thrown by `prayers[0].time`
  when none of the five prayers is listed is the result `NoPrayers`. Before it
  throws, the source has already set the shown name to "Fajr" (line 199), and the
  countdown keeps its previous text; `NoPrayers` stands for exactly that outcome.
  A NaN countdown is `None`.
- `Compass.OrientationEvent`: a `webkitCompassHeading` that is present but `null`
  is not distinguished from a missing one.
