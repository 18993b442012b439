/** `getFormattedTime` and `twoDigitsFormat` of src/PrayTimes.js: an hour
    value as "HH:MM" (24h), "h:MM AM" (12h), "h:MM" (any other format name)
    or a number of hours cut down to the whole minute (Float). */
module Format {
  import opened Wrappers
  import opened Numbers
  import opened DMath
  import opened Decimal

  /** What a formatted time is: clock text, or a number of hours for "Float". */
  datatype Formatted = Clock(text: string) | Hours(value: real)

  /** `invalidTime`: the text for a time that could not be computed. */
  const InvalidTime: string := "-----"

  /** `timeSuffixes`: the default 12-hour suffixes. */
  const TimeSuffixes: seq<string> := ["AM", "PM"]

  /** `suffixes[i]`; an index past the end reads `undefined`, which appends
      nothing, exactly like an empty suffix. */
  function SuffixAt(suffixes: seq<string>, i: nat): string
  {
    if i < |suffixes| then suffixes[i] else ""
  }

  /** The clock minute of an hour value: `fixHour(t)` in whole minutes since
      midnight, rounded down. */
  function MinuteOfDay(t: real): (m: int)
    ensures 0 <= m < 24 * 60
  {
    (Fix(t, 24.0) * 60.0).Floor
  }

  /** `((hours + 12 - 1) % 12) + 1`: the hour on a 12-hour dial. It lies in
      1..12 and, together with the AM/PM half, gives back the 24-hour hour. */
  function Hour12(h: nat): (r: nat)
    requires h < 24
    ensures 1 <= r <= 12
    ensures r % 12 + (if h < 12 then 0 else 12) == h
  {
    (h + 12 - 1) % 12 + 1
  }

  /** Splitting an hour value in [0, 24) into `floor(time)` and
      `floor((time - hours) * 60)` gives the clock minute of the day. */
  lemma SplitMinute(f: real)
    requires 0.0 <= f < 24.0
    ensures var h := f.Floor; var m := ((f - h as real) * 60.0).Floor;
      0 <= h < 24 && 0 <= m < 60 && h * 60 + m == (f * 60.0).Floor
  {
    var h := f.Floor;
    var x := (f - h as real) * 60.0;
    assert x == f * 60.0 - (h * 60) as real;
    assert x.Floor == (f * 60.0).Floor - h * 60;
  }

  /** `getFormattedTime(time, format, suffixes)`. An undefined time is
      `invalidTime` in every format, Float included. */
  function GetFormattedTime(time: Number, format: string, suffixes: Option<seq<string>>): (r: Formatted)
    ensures time.NaN? ==> r == Clock(InvalidTime)
    ensures r.Hours? <==> time.Real? && format == "Float"
  {
    if time.NaN? then Clock(InvalidTime)
    else
      var sfx := if suffixes.Some? then suffixes.value else TimeSuffixes;
      var f := FixHour(time).r;
      SplitMinute(f);
      var hours: nat := f.Floor;
      var minutes: nat := ((f - hours as real) * 60.0).Floor;
      var suffix := if format == "12h" then SuffixAt(sfx, if hours < 12 then 0 else 1) else "";
      var hour := if format == "24h" then TwoDigits(hours) else ShowNat(Hour12(hours));
      if format == "Float" then Hours(hours as real + minutes as real / 60.0)
      else Clock(hour + ":" + TwoDigits(minutes) + (if suffix != "" then " " + suffix else ""))
  }

  /** 24h: five characters "HH:MM" whose two numbers are the clock hour
      (below 24) and minute (below 60) of `fixHour(t)`. */
  lemma Format24h(t: real)
    ensures var r := GetFormattedTime(Real(t), "24h", None);
      && r.Clock? && |r.text| == 5 && r.text[2] == ':'
      && AllDigits(r.text[..2]) && AllDigits(r.text[3..])
      && DigitsValue(r.text[..2]) < 24 && DigitsValue(r.text[3..]) < 60
      && DigitsValue(r.text[..2]) * 60 + DigitsValue(r.text[3..]) == MinuteOfDay(t)
  {
    var f := Fix(t, 24.0);
    SplitMinute(f);
    var h: nat := f.Floor;
    var m: nat := ((f - h as real) * 60.0).Floor;
    var text := TwoDigits(h) + ":" + TwoDigits(m);
    assert GetFormattedTime(Real(t), "24h", None) == Clock(text);
    assert text[..2] == TwoDigits(h) && text[3..] == TwoDigits(m);
  }

  /** 12h with the default suffixes: the hour on a 12-hour dial, two-digit
      minutes and "AM" exactly for the hours before noon. */
  lemma Format12h(t: real)
    ensures var mod := MinuteOfDay(t); var h := mod / 60;
      GetFormattedTime(Real(t), "12h", None)
        == Clock(ShowNat(Hour12(h)) + ":" + TwoDigits(mod % 60) + " " + (if h < 12 then "AM" else "PM"))
  {
    var f := Fix(t, 24.0);
    SplitMinute(f);
    var h: nat := f.Floor;
    var m: nat := ((f - h as real) * 60.0).Floor;
    assert h == MinuteOfDay(t) / 60 && m == MinuteOfDay(t) % 60;
    var suffix := SuffixAt(TimeSuffixes, if h < 12 then 0 else 1);
    assert suffix == (if h < 12 then "AM" else "PM");
    assert GetFormattedTime(Real(t), "12h", None)
        == Clock(ShowNat(Hour12(h)) + ":" + TwoDigits(m) + " " + suffix);
  }

  /** Float: the number of hours of `fixHour(t)` cut down to a whole minute.
      It lies in [0, 24), is a whole number of minutes, is at most
      `fixHour(t)` and less than a minute below it; formatting it again
      leaves it unchanged. */
  lemma FormatFloat(t: real)
    ensures var r := GetFormattedTime(Real(t), "Float", None);
      && r.Hours? && 0.0 <= r.value < 24.0
      && r.value == MinuteOfDay(t) as real / 60.0
      && r.value <= Fix(t, 24.0) < r.value + 1.0 / 60.0
      && GetFormattedTime(Real(r.value), "Float", None) == r
  {
    var f := Fix(t, 24.0);
    SplitMinute(f);
    var m := MinuteOfDay(t);
    var v := m as real / 60.0;
    assert GetFormattedTime(Real(t), "Float", None) == Hours(v);
    assert m as real <= f * 60.0 < m as real + 1.0;
    FixIdentityOnRange(v, 24.0);
    SplitMinute(v);
    assert v * 60.0 == m as real;
  }
}
