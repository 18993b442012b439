# Prayer times: configuration, post-solver pipeline and indicator helpers

This project is a Dafny model of the exact, non-astronomical logic of a
GNOME Shell prayer-times indicator. It covers two source files.

- `src/PrayTimes.js`, the prayer-times calculator:
  - the catalogue of calculation methods and the defaulting pass the constructor runs over it;
  - the mutable configuration: the current method, the `setting` and `offset` dictionaries, the time format, and the coordinates, zone and Julian date recorded by `getTimes`;
  - `eval`, `isMin` and `asrFactor`, which read rule values such as `18`, `"10 min"` or `"Standard"`;
  - everything after the solar solver:
    - the clock shift by `timeZone - lng / 15`;
    - the high-latitude correction (`adjustHighLats`, `adjustHLTime`, `nightPortion`);
    - the minute rules for Imsak, Maghrib and Isha, and Dhuhr's minute offset;
    - the midnight rule;
    - per-time tuning;
    - formatting in 24h, 12h and Float, with the `-----` sentinel;
  - `DMath.fix`, `fixHour`, `fixAngle` and `timeDiff`;
  - `julian`, the Julian day number of a Gregorian date.
- `src/extension.js`, the panel indicator:
  - the timezone table, the calculation-method table and the concise-list visibility rule;
  - the conversion of clock fields and "Float" prayer times to seconds;
  - the search for the nearest prayer, with its midnight wrap and its stop at the prayer that is due;
  - the remaining-time text;
  - the notification flags, which make sure each prayer is announced at most once.

How values are represented:
- A JavaScript number is `Numbers.Number`: an exact real or `NaN`.
- A setting's value is `RuleValues.Value`: a number, a string or `undefined`.
- The object created by `PrayTimes(method)` is the class `Config.PrayTimes`. Its methods change its fields as the closure's functions change the closure's variables.
- The loops that rewrite a `times` dictionary are methods over `map`s, proved equal to the functions that specify them.
- The indicator's flags are the class `Notify.Indicator`.

The modules:
- `Numbers`, `DMath`, `Decimal`, `RuleValues`: numbers, wrapping, decimal text and rule values.
- `Catalog`: the method catalogue and its defaulting.
- `Calendar`: `julian`.
- `Pipeline`: the post-solver steps.
- `Format`: `getFormattedTime`.
- `Config`: the `PrayTimes` object.
- `Schedule`: the indicator's tables and the nearest-prayer search.
- `Notify`: the notification flags.

## Model

| member | source | states |
|---|---|---|
| DMath.Fix | src/PrayTimes.js:466-469 | `fix(a, b)` for `b > 0` lies in [0, b) and differs from `a` by a whole multiple of `b` |
| DMath.FixUnique | src/PrayTimes.js:466-469 | the value in [0, b) that differs from `a` by a whole multiple of `b` is unique, so any such value is `fix(a, b)` |
| DMath.FixPeriodic | src/PrayTimes.js:466-469 | shifting the input by whole periods does not change `fix` |
| DMath.FixIdentityOnRange | src/PrayTimes.js:466-469 | `fix` leaves values already in [0, b) alone, so it is idempotent |
| DMath.FixAngle | src/PrayTimes.js:459-461 | `fixAngle` lies in [0, 360) and differs from its input by whole turns |
| DMath.FixHour | src/PrayTimes.js:462-464 | `fixHour` is defined exactly when its input is; it lies in [0, 24) and differs from the input by whole days |
| DMath.TimeDiff | src/PrayTimes.js:414-416 | `timeDiff(t1, t2)` is the forward clock distance from `t1` to `t2`: in [0, 24), congruent to `t2 - t1` modulo 24, and 0 from a time to itself |
| DMath.TimeDiffRoundTrip | src/PrayTimes.js:414-416 | there and back covers no time at all or exactly 24 hours; one leg is zero exactly when the other is |
| Decimal.DigitChar | src/PrayTimes.js:418-420 | a digit below ten prints as one decimal digit character |
| Decimal.DigitValue | src/PrayTimes.js:406-408 | a digit character reads back as the digit that prints as it |
| Decimal.ShowNat | src/PrayTimes.js:145-150 | a whole number prints as a non-empty run of digits with no leading zero, one digit exactly below ten and two from 10 to 99 |
| Decimal.ShowNatRoundTrip | src/PrayTimes.js:145-150 | reading the printed digits gives the number back |
| Decimal.Zeros | src/extension.js:674-676 | `k` zero characters |
| Decimal.LeadingZeros | src/extension.js:674-676 | leading zeros do not change the value a digit string reads as |
| Decimal.PadStart | src/extension.js:674-676 | `padStart(width, '0')` keeps the value, reaches at least `width` characters and never shortens |
| Decimal.TwoDigits | src/PrayTimes.js:418-420 | `twoDigitsFormat(n)` reads back as `n` and has exactly two digits below 100 |
| Decimal.ShowInt | src/extension.js:117-118 | `toString()` of an integer: a minus sign exactly for negative values, followed by the digits of the magnitude |
| RuleValues.NumericPrefix | src/PrayTimes.js:406-408 | `split(/[^0-9.+-]/)[0]` is the longest prefix made only of `[0-9.+-]` |
| RuleValues.DigitRun | src/PrayTimes.js:406-408 | the length of the leading run of digits, stopped by the first non-digit |
| RuleValues.Pow10 | src/PrayTimes.js:406-408 | powers of ten are positive, so the fraction of a decimal literal is well defined |
| RuleValues.ToNumber | src/PrayTimes.js:406-408 | `1 * p` turns the empty prefix into 0 and a prefix that starts with a digit into the decimal literal it spells |
| RuleValues.Eval | src/PrayTimes.js:406-408 | `eval` returns a number that prints in fixed notation as it is, 0 for `undefined`, and 0 for a string that does not start with `[0-9.+-]` |
| RuleValues.IndexOf | src/PrayTimes.js:410-412 | `indexOf` gives the first occurrence at or after `from`, or -1 exactly when there is none |
| RuleValues.IsMin | src/PrayTimes.js:410-412 | `isMin` holds exactly when the value's text contains "min"; a number's text never does |
| RuleValues.AsrFactor | src/PrayTimes.js:298-301 | "Standard" is 1, "Hanafi" is 2, and any other value is read by `eval` |
| RuleValues.AsrFactorLookup | src/PrayTimes.js:298-301 | the lookup is needed: `eval` reads both "Standard" and "Hanafi" as 0; a numeric factor, or the text of a whole number, gives that number |
| RuleValues.EvalReadsPrefix | src/PrayTimes.js:406-408 | a numeric prefix followed by anything outside `[0-9.+-]` is exactly what `eval` reads |
| RuleValues.ShowNatToNumber | src/PrayTimes.js:406-408 | a printed whole number coerces back to itself |
| RuleValues.ShowIntToNumber | src/extension.js:117-118 | a printed integer, sign included, coerces back to itself |
| RuleValues.MinSuffix | src/PrayTimes.js:410-412 | any text ending in " min" is a minute rule |
| RuleValues.MinuteRule | src/PrayTimes.js:406-412 | "<n> min" is a minute rule and evaluates to `n`, e.g. Makkah's "90 min" is 90 |
| Catalog.DeclaredRules | src/PrayTimes.js:1-27 | the catalogue has exactly its six keys; every method fixes Fajr and Isha; only Tehran declares more |
| Catalog.WithDefaultsKeeps | src/PrayTimes.js:64-69 | defaulting adds exactly the default keys, keeps every explicit value and fills a default exactly where the method's value is missing |
| Catalog.FillMethodDefaults | src/PrayTimes.js:67-68 | the inner defaulting loop computes the defaulted rules of one method |
| Catalog.FillDefaults | src/PrayTimes.js:64-69 | the defaulting loop computes the defaulted catalogue and leaves names alone |
| Catalog.DefaultedRules | src/PrayTimes.js:42-46 | after defaulting, every method holds the Fajr, Isha, Maghrib and Midnight rules |
| Catalog.DefaultedKeeps | src/PrayTimes.js:64-69 | defaulting keeps each method's own Fajr and Isha rules |
| Catalog.DefaultedTehran | src/PrayTimes.js:10-13 | Tehran keeps its Maghrib rule 4.5 and its "Jafari" midnight |
| Catalog.DefaultedOther | src/PrayTimes.js:42-46 | every other method receives "0 min" for Maghrib and "Standard" for Midnight |
| Calendar.Julian | src/PrayTimes.js:197-212 | a Julian day number at 0h is always a whole number plus one half |
| Calendar.DaysInMonth | src/PrayTimes.js:197-212 | a Gregorian month has 28 to 31 days |
| Calendar.NextDate | src/PrayTimes.js:197-212 | the day after a valid date is a valid date |
| Calendar.QuarterDays | src/PrayTimes.js:206 | `floor(365.25 n)` is `365 n + floor(n / 4)` |
| Calendar.YearTermStep | src/PrayTimes.js:206 | the year term grows by 365 days, or 366 when 4 divides the year |
| Calendar.CenturyStep | src/PrayTimes.js:202-203 | the century correction drops a day at each century and wins it back every fourth century |
| Calendar.LeapDay | src/PrayTimes.js:202-206 | the year term and the century correction together give the Gregorian leap day |
| Calendar.YearLength | src/PrayTimes.js:202-206 | from one year to the next, the year part of the formula advances by that year's length |
| Calendar.MonthTermStep | src/PrayTimes.js:207 | `floor(30.6001 (m + 1))` advances by the length of each month from March to January |
| Calendar.DayCountNext | src/PrayTimes.js:197-212 | the whole-day count of the next calendar date is one more |
| Calendar.JulianNextDate | src/PrayTimes.js:197-212 | consecutive dates, across month and year ends and leap days, have consecutive Julian days |
| Calendar.JanuaryFebruaryShift | src/PrayTimes.js:198-201 | January and February count as months 13 and 14 of the previous year |
| Calendar.J2000 | src/PrayTimes.js:178 | 1 January 2000 is Julian day 2451544.5, half a day before the J2000.0 epoch |
| Format.MinuteOfDay | src/PrayTimes.js:134-136 | the clock minute of an hour value lies within the day |
| Format.Hour12 | src/PrayTimes.js:141 | the 12-hour dial hour lies in 1..12 and, with the AM/PM half, gives back the 24-hour hour |
| Format.SplitMinute | src/PrayTimes.js:135-136 | `floor(time)` and `floor((time - hours) * 60)` are a clock hour and minute that together make the minute of the day |
| Format.GetFormattedTime | src/PrayTimes.js:130-151 | NaN formats as "-----" in every format, Float included; a number comes out as hours exactly in the Float format |
| Format.Format24h | src/PrayTimes.js:137-150 | 24h gives "HH:MM" whose fields are the clock hour (below 24) and minute (below 60) of `fixHour(t)` |
| Format.Format12h | src/PrayTimes.js:137-150 | 12h gives the dial hour, two-digit minutes, and "AM" exactly before noon |
| Format.FormatFloat | src/PrayTimes.js:143 | Float is `fixHour(t)` cut down to a whole minute: in [0, 24), less than a minute below `fixHour(t)`, and unchanged when formatted again |
| Pipeline.NightPortion | src/PrayTimes.js:364-370 | outside "AngleBased" the portion of a night of `n` hours lies in [0, n/2] |
| Pipeline.NightPortionValues | src/PrayTimes.js:364-370 | the portion is half the night for "NightMiddle" and unknown policies, a seventh for "OneSeventh", `angle / 60` of the night for "AngleBased", and undefined for an undefined night, or for an undefined angle under "AngleBased" |
| Pipeline.AdjustHLTime | src/PrayTimes.js:353-362 | the corrected time is either the time itself or `base` moved by the portion in the correction's direction |
| Pipeline.AdjustHLTimeBound | src/PrayTimes.js:353-362 | with a defined base and a portion that is a number in [0, 24), the result is defined and within the portion of `base`; a time already within it is kept |
| Pipeline.AdjustHLTimeIdempotent | src/PrayTimes.js:353-362 | a corrected time is not corrected again |
| Pipeline.AdjustHighLats | src/PrayTimes.js:319-351 | only Imsak, Fajr, Isha and Maghrib can change |
| Pipeline.HighLatsBounded | src/PrayTimes.js:319-351 | with known sunrise and sunset and any policy except "AngleBased", the four twilight times are defined and at most half the night from sunrise (Imsak, Fajr) or sunset (Isha, Maghrib) |
| Pipeline.HighLatsWithinPortions | src/PrayTimes.js:319-351 | under any policy, "AngleBased" included, with known sunrise and sunset and each twilight rule giving a portion in [0, 24) hours, the four twilight times are defined and within their own portions of sunrise (Imsak, Fajr) or sunset (Isha, Maghrib) |
| Pipeline.Shifted | src/PrayTimes.js:283 | the clock shift keeps the set of times |
| Pipeline.MinutesFrom | src/PrayTimes.js:287-292 | a minute rule keeps the set of times; a rule that is not "<n> min" changes nothing |
| Pipeline.MinuteRulesApplied | src/PrayTimes.js:287-292 | the minute rules never move Fajr, Sunrise, Dhuhr, Asr or Sunset |
| Pipeline.HighLatsApplied | src/PrayTimes.js:285 | the correction never moves Sunrise, Dhuhr, Asr or Sunset, and is skipped exactly for the policy "None" |
| Pipeline.AdjustedTimes | src/PrayTimes.js:281-296 | Sunrise, Asr and Sunset move only by `timeZone - lng/15`; Dhuhr also gains `eval(dhuhr)/60`; with policy "None", Fajr only moves by the shift |
| Pipeline.MinuteRules | src/PrayTimes.js:287-292 | in the final times, a "<n> min" Imsak is n minutes before Fajr, a "<n> min" Maghrib n minutes after Sunset, and a "<n> min" Isha n minutes after the final Maghrib |
| Pipeline.WithMidnight | src/PrayTimes.js:271-275 | adding midnight changes no other time |
| Pipeline.MidnightIsMidpoint | src/PrayTimes.js:271-275 | midnight is as far from sunset as from the end of the night (Fajr for "Jafari", Sunrise otherwise), and the two halves make up the night |
| Pipeline.Tuned | src/PrayTimes.js:308-311 | tuning keeps the set of times; an undefined time, or one without an offset, comes out undefined |
| Pipeline.TunedByZero | src/PrayTimes.js:308-311 | zero offsets change no time |
| Pipeline.TunedIndependently | src/PrayTimes.js:308-311 | changing one time's offset changes no other time |
| Pipeline.PostSolve | src/PrayTimes.js:269-277 | the post-solver steps turn the eight solved times into all nine times |
| Pipeline.FormatAll | src/PrayTimes.js:313-317 | formatting keeps the set of times and turns every undefined time into "-----" |
| Pipeline.ShiftTimes | src/PrayTimes.js:283 | the shifting loop adds the same shift to every time |
| Pipeline.ApplyMinuteRules | src/PrayTimes.js:287-292 | the three conditional assignments compute the minute rules in the source's order |
| Pipeline.AdjustTimes | src/PrayTimes.js:281-296 | the procedure computes `AdjustedTimes` |
| Pipeline.TuneTimes | src/PrayTimes.js:308-311 | the tuning loop adds each time's own offset in minutes |
| Pipeline.ModifyFormats | src/PrayTimes.js:313-317 | the formatting loop formats every time |
| Pipeline.ComputeTimes | src/PrayTimes.js:254-279 | `computeTimes` from the solved times on: adjust, add midnight, tune and format |
| Config.Position | src/PrayTimes.js:30-40 | every time name has its place in the declaration order |
| Config.OffsetKeysAreNames | src/PrayTimes.js:75 | the offset keys are exactly the property names of the nine times |
| Config.ZeroOffsets | src/PrayTimes.js:75 | the initial offsets have exactly the nine keys |
| Config.InitialOffsets | src/PrayTimes.js:75 | the loop sets a zero offset for every time name |
| Config.Overwrite | src/PrayTimes.js:73 | copying `src` into `dst` key by key overwrites exactly the keys of `src` |
| Config.InitialConfiguration | src/PrayTimes.js:64-75 | the constructor's work: the defaulted catalogue, the named method or "MWL", that method's rules over the initial setting, zero offsets; all rules the pipeline reads are present |
| Config.ZoneWithDst | src/PrayTimes.js:124 | the recorded zone is one hour later for a daylight-saving flag of 1, unchanged for 0 and for an undefined flag, and undefined for an undefined zone |
| Config.PrayTimes.constructor | src/PrayTimes.js:29-75 | the constructed object holds the defaulted catalogue, the method or its "MWL" fallback, its rules laid over the initial setting, zero offsets and the 24h format |
| Config.PrayTimes.SetMethod | src/PrayTimes.js:78-83 | a catalogue name lays its rules over the setting and becomes the method; any other name changes neither |
| Config.PrayTimes.Adjust | src/PrayTimes.js:85-87 | exactly the listed rules are overwritten, all others kept |
| Config.PrayTimes.Tune | src/PrayTimes.js:89-91 | exactly the listed offsets are overwritten, all others kept |
| Config.PrayTimes.GetMethod | src/PrayTimes.js:93-95 | the current method is always a catalogue name |
| Config.PrayTimes.GetSetting | src/PrayTimes.js:97-99 | the setting always holds every rule the pipeline reads |
| Config.PrayTimes.GetOffsets | src/PrayTimes.js:101-103 | the offsets always cover the nine times |
| Config.PrayTimes.GetDefaults | src/PrayTimes.js:105-107 | every method of the catalogue holds the Fajr, Isha, Maghrib and Midnight rules |
| Config.PrayTimes.SetObserver | src/PrayTimes.js:109-125 | records the coordinates, keeps the old format when none is given, adds the daylight-saving hour to the zone and stores the Julian date less `lng / 360` |
| Config.PrayTimes.ComputeDay | src/PrayTimes.js:254-279 | the object's setting, offsets, zone, longitude and format drive the post-solver pipeline |
| Config.PrayTimes.GetTimes | src/PrayTimes.js:109-128 | `getTimes` records the observer, then returns the formatted post-solver times for the new state |
| Config.FreshTuningIsIdentity | src/PrayTimes.js:75 | a freshly built object's tuning changes no time |
| Config.MakkahIshaAfterMaghrib | src/PrayTimes.js:20 | under Makkah's "90 min" rule, Isha is exactly 1.5 hours after Maghrib, whatever the solver says |
| Schedule.TimezoneTable | src/extension.js:117-120 | 28 entries: "auto", then the text of the whole hours -12 to 14 in order |
| Schedule.TimezoneValues | src/extension.js:117-120 | every entry after "auto" coerces to its hour, index minus 13 |
| Schedule.TimezoneIndex | src/extension.js:117-120 | each hour from -12 to 14 has an entry |
| Schedule.TimezoneRoundTrip | src/extension.js:496 | the entry for an hour coerces back to that hour |
| Schedule.MethodNameAt | src/extension.js:108 | an index inside the four-entry table names a catalogue method; any other index names none |
| Schedule.MethodIndexAsWritten | src/extension.js:498-499 | as written, no dialog index selects the method the dialog shows there, and indices 4 and 5 select nothing |
| Schedule.PreferencesMethodAt | src/prefs.js:145-150 | every position of the dialog's method list holds a catalogue method, and no other position does |
| Schedule.PreferencesMethodMatchesLabel | src/prefs.js:145-150 | corrected mapping: every choice selects the method it shows, and distinct choices select distinct methods |
| Schedule.ApplyMethod | src/extension.js:498-501 | a catalogue name becomes the method and lays its rules over the setting, any other name keeps both, and Asr always ends up "Standard" |
| Schedule.VisibilityLevels | src/extension.js:98-106 | level 0 shows exactly the five primary prayers, level 1 all seven listed times, and raising the level never hides a time |
| Schedule.LevelAt | src/extension.js:334-335 | `_conciseListLevels[index]` is the index itself for 0 and 1, `undefined` otherwise |
| Schedule.ConciseChoiceAsWritten | src/extension.js:277-278 | as written, the "All times" choice hides Sunrise and Midnight and the "Concise" choice shows them |
| Schedule.LevelForChoice | src/prefs.js:201-205 | corrected mapping: "All times" is level 1, "Concise" level 0 |
| Schedule.LevelForChoiceMatchesLabel | src/prefs.js:201-205 | corrected: "All times" shows every listed time, "Concise" exactly the primary prayers |
| Schedule.LeadAt | src/extension.js:34 | each lead choice is five minutes per index; an index past the end is `undefined` |
| Schedule.SecondsFromClock | src/extension.js:658-664 | valid clock fields give seconds within the day, from which the hours, minutes and seconds can be read back |
| Schedule.SecondsAt | src/extension.js:666-668 | the seconds of a prayer are a number exactly when its formatted time is a number |
| Schedule.FloatTimeSeconds | src/extension.js:666-668 | a "Float" time gives sixty times its clock minute, within the day |
| Schedule.PrayerSeconds | src/extension.js:571-587 | Fajr moves 86400 seconds later exactly when the current time is past Isha; every other prayer keeps its seconds |
| Schedule.Wrap | src/extension.js:534-539 | the wrap moves a difference by at most one day; from within ±36 hours it lands within ±12 hours; within ±12 hours it changes nothing |
| Schedule.NextDayFajrAfterWrap | src/extension.js:582-583 | after the wrap, moving a past Fajr to the next day changes nothing, except for a Fajr exactly 12 hours back |
| Schedule.DiffMinutes | src/extension.js:532-541 | the difference in minutes is defined exactly when the prayer's seconds are, and is the wrapped seconds rounded down to a minute |
| Schedule.FirstDue | src/extension.js:544-548 | the first primary prayer from a position on that is due this minute, or none |
| Schedule.FirstDueUnique | src/extension.js:544-548 | the first due prayer is the only position with those two properties |
| Schedule.VisitScans | src/extension.js:550-560 | one more visited prayer extends the search's facts by one position |
| Schedule.MinutesUntil | src/extension.js:527-541 | the loop's first steps compute the prayer's wrapped difference in minutes |
| Schedule.FindNearestPrayer | src/extension.js:520-568 | stops exactly at the first due prayer and names it; of the prayers before it, reports the least non-negative difference and whether one began in the last 15 minutes; with no prayer due, names a prayer whenever one just passed or lies ahead: the last setter in scan order, which is a prayer that just passed or the first one at the least difference, and the latter whenever none just passed |
| Schedule.NamedIsPassedOrNearest | src/extension.js:550-560 | with no prayer due, the named prayer began one to fifteen minutes ago or is the nearest prayer ahead |
| Schedule.NamedIsLater | src/extension.js:550-560 | with no prayer due, when a prayer just passed and one lies ahead, the named prayer is the later in scan order of the last prayer that just passed and the first nearest prayer ahead |
| Schedule.NearestIsNamed | src/extension.js:520-568 | the named prayer is a primary prayer that is due, began at most 15 minutes ago, or lies ahead |
| Schedule.FormatRemainingReadsBack | src/extension.js:670-677 | the text is at least two hour digits, a colon and two minute digits below 60, and reads back as the magnitude in minutes |
| Schedule.FormatRemainingDropsSign | src/extension.js:670-677 | the sign of the difference is dropped |
| Notify.Track | src/extension.js:471-475 | a different nearest prayer clears both flags and becomes the last notified one; the same prayer keeps the flags |
| Notify.Handle | src/extension.js:597-633 | each notice is sent exactly when it is due, and sending it sets its flag; no flag is cleared |
| Notify.NoRepeat | src/extension.js:597-633 | while the nearest prayer stays the last notified one, a notice whose flag is set is not sent again |
| Notify.AtMostOnce | src/extension.js:471-475 | over any series of updates with the same nearest prayer, each notice is sent at most once |
| Notify.NewPrayerRearms | src/extension.js:471-475 | a change of nearest prayer re-arms both notices |
| Notify.Indicator.constructor | src/extension.js:24-26 | an indicator starts with no notice sent and no prayer tracked |
| Notify.Indicator.TrackNearest | src/extension.js:471-475 | updates the flags as `Track` says |
| Notify.Indicator.HandlePrayerNotifications | src/extension.js:597-633 | sends the notices and updates the flags as `Handle` says |
| Notify.Indicator.UpdateLabel | src/extension.js:453-484 | one update finds the nearest prayer, tracks it and handles the notices; the search result carries every fact `FindNearestPrayer` promises, so the prayer-time notice is possible exactly when some primary prayer is due and the "minutes remaining" notice compares the lead time with the least difference ahead |

## Left out

- The solar solver is not modelled: `sunPosition`, `midDay`, `sunAngleTime`, `asrTime`, `computePrayerTimes`, `dayPortion`, `riseSetAngle` and the trigonometric wrappers of `DMath`. These are floating-point trigonometry. The eight solved times are inputs, each possibly NaN.
- The elevation `elv` read by `getTimes` only feeds `riseSetAngle`, so it is not kept.
- `getTimeZone`, `getDst` and `gmtOffset` depend on the host clock and timezone database. `getTimes` receives the zone and the daylight-saving flag already resolved, as numbers. The "auto" entry of the timezone table therefore leads outside the model.
- Numbers are exact reals, not IEEE doubles. Rounding is not modelled: for example `hour * 3600` on a "Float" time that is not exactly representable. The model has no infinities.
- Config.PrayTimes.GetTimes: `getTimes` also accepts a `Date` object and splits it into year, month and day. The model takes the three numbers directly.
- `1 * timezone` is modelled through `RuleValues.ToNumber` only for the numeric strings of the timezone table.
- `Object.prototype` members such as `methods['toString']` are not modelled as catalogue entries.
- RuleValues.AsrFactor: the table lookup `{Standard: 1, Hanafi: 2}[asr]` would also find `Object.prototype` members for "toString", "constructor" or "__proto__" and return them. The model reads these names through `eval`, as 0.
- RuleValues.Eval: a number is returned as it is. The source prints it first, so a non-zero number of magnitude below 1e-6 or at least 1e21, which JavaScript prints in exponent notation, is read as the leading digits of its mantissa (`eval(1e-7)` is 1, `eval(-2e-7)` is -2). Printing doubles in shortest round-trip form is not modelled.
- `setMethod(undefined)` is modelled as the lookup of the name "undefined", which is not in the catalogue.
- Widgets, GSettings binding, Geoclue location, GLib timers, menu visibility updates and the text of `Main.notify` messages are left out. This is UI and I/O. Only the flag updates and which notices are sent are kept.
- The Hijri date (`_updateIslamicDate`, `_formatHijriDate`) is left out. It depends on the `HijriCalendarKuwaiti` module, which is not part of this model.
- Notify.Indicator.HandlePrayerNotifications: the `isAfterAzan`, `nearestPrayerId` and `timesStr` arguments only shape the wording of the notices and are not modelled.
- Schedule.FindNearestPrayer: `Number.MAX_VALUE` is `None`. The remaining-time text that the indicator would build from it is not modelled.
- `src/prefs.js` is only used for the order of the choices its dialog lists. The rest of it is dialog construction.

## Findings

| source | as written | input that shows it | evidently intended | confidence | as-written member | corrected member |
|---|---|---|---|---|---|---|
| src/extension.js:108 | The calculation-method index chosen in the dialog is read through the four-entry `_calcMethodsArr` ["MWL", "Makkah", "Egypt", "Karachi"]. The dialog (src/prefs.js:145-150) lists the six catalogue keys in declaration order, starting with "ISNA". | Choosing "ISNA" (index 0) selects MWL. Choosing "Makkah" (index 4) or "Karachi" (index 5) reads `undefined`, so `setMethod` silently keeps the previous method. | Index `i` selects the `i`-th catalogue key, the method the dialog shows. | not executed | Schedule.MethodIndexAsWritten | Schedule.PreferencesMethodMatchesLabel |
| src/extension.js:35 | `_conciseListLevels` maps choice 0 to level 0, which shows only the primary prayers. The dialog (src/prefs.js:201-205) labels choice 0 "All times" and choice 1 "Concise". | Choosing "All times" (index 0) hides Sunrise and Midnight. Choosing "Concise" (index 1) shows them. | "All times" is level 1 and shows every listed time; "Concise" is level 0 and shows the five primary prayers. | not executed | Schedule.ConciseChoiceAsWritten | Schedule.LevelForChoiceMatchesLabel |
