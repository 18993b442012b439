/** The `PrayTimes` object of src/PrayTimes.js: the method catalogue, the
    current method name, the `setting` and `offset` dictionaries, the time
    format and the last coordinates, changed by `setMethod`, `adjust`,
    `tune` and `getTimes`. */
module Config {
  import opened Numbers
  import opened RuleValues
  import opened Catalog
  import opened Pipeline
  import opened Format
  import opened Calendar
  import opened Decimal

  /** The `setting` dictionary before any method is applied. */
  const InitialSetting: map<string, Value> :=
    map["imsak" := Str("10 min"), "dhuhr" := Str("0 min"), "asr" := Str("Standard"), "highLats" := Str("NightMiddle")]

  /** The rules every method holds after defaulting. */
  const MethodRules: set<string> := {"fajr", "isha", "maghrib", "midnight"}

  /** The rules every setting holds from construction on: the initial ones
      and those every defaulted method provides. */
  const SettingKeys: set<string> := InitialSetting.Keys + MethodRules

  /** The names of `timeNames`, in declaration order. */
  const TimeNameOrder: seq<TimeName> := [Imsak, Fajr, Sunrise, Dhuhr, Asr, Sunset, Maghrib, Isha, Midnight]

  /** Where a name stands in `TimeNameOrder`. */
  function Position(n: TimeName): (i: nat)
    ensures i < |TimeNameOrder| && TimeNameOrder[i] == n
  {
    match n
    case Imsak => 0
    case Fajr => 1
    case Sunrise => 2
    case Dhuhr => 3
    case Asr => 4
    case Sunset => 5
    case Maghrib => 6
    case Isha => 7
    case Midnight => 8
  }

  /** The offset keys: the property names of the nine times. */
  const OffsetKeys: set<string> :=
    {"imsak", "fajr", "sunrise", "dhuhr", "asr", "sunset", "maghrib", "isha", "midnight"}

  /** Every time's property name is an offset key, and every offset key
      names a time. */
  lemma OffsetKeysAreNames()
    ensures forall n: TimeName :: Key(n) in OffsetKeys
    ensures forall k :: k in OffsetKeys ==> exists n: TimeName :: Key(n) == k
  {
    forall k | k in OffsetKeys
      ensures exists n: TimeName :: Key(n) == k
    {
      var n := TimeNameOrder[if k == "imsak" then 0 else if k == "fajr" then 1 else if k == "sunrise" then 2
        else if k == "dhuhr" then 3 else if k == "asr" then 4 else if k == "sunset" then 5
        else if k == "maghrib" then 6 else if k == "isha" then 7 else 8];
      assert Key(n) == k;
    }
  }

  const DefaultTimeFormat: string := "24h"

  /** The offsets the constructor installs: zero minutes for every time. */
  function ZeroOffsets(): (z: map<string, Number>)
    ensures z.Keys == OffsetKeys
  {
    map k | k in OffsetKeys :: Real(0.0)
  }

  /** `for (let i in timeNames) offset[i] = 0`. */
  method InitialOffsets() returns (zero: map<string, Number>)
    ensures zero == ZeroOffsets()
  {
    zero := map[];
    for i := 0 to |TimeNameOrder|
      invariant zero.Keys == set j | 0 <= j < i :: Key(TimeNameOrder[j])
      invariant forall k :: k in zero ==> zero[k] == Real(0.0)
    {
      zero := zero[Key(TimeNameOrder[i]) := Real(0.0)];
    }
    forall n | n in AllNames
      ensures Key(n) in zero
    {
      assert Key(n) == Key(TimeNameOrder[Position(n)]);
    }
  }

  /** `for (let id in src) dst[id] = src[id]`: every key of `src` is written,
      every other key of `dst` keeps its value. */
  method Overwrite<V>(dst: map<string, V>, src: map<string, V>) returns (r: map<string, V>)
    ensures r == dst + src
  {
    r := dst;
    var pending := src.Keys;
    while pending != {}
      invariant pending <= src.Keys
      invariant r.Keys == dst.Keys + (src.Keys - pending)
      invariant forall k :: k in r ==> r[k] == if k in src && k !in pending then src[k] else dst[k]
      decreases pending
    {
      var k :| k in pending;
      r := r[k := src[k]];
      pending := pending - {k};
    }
  }

  /** The state a constructor given `name` installs: the defaulted catalogue,
      the method (or "MWL" for an unknown name), that method's rules laid
      over the initial setting, and zero offsets. */
  predicate Initial(name: string, catalogue: map<string, Method>, chosen: string,
                    rules: map<string, Value>, zero: map<string, Number>)
  {
    && catalogue == Defaulted(GetMethods())
    && chosen == (if name in GetMethods() then name else FallbackMethod)
    && chosen in catalogue
    && rules == InitialSetting + catalogue[chosen].params
    && zero == ZeroOffsets()
  }

  /** What the pipeline needs of an object's state: the current method is a
      catalogue name, every method carries the four rules, and every rule and
      offset the pipeline reads is present. */
  predicate Consistent(catalogue: map<string, Method>, chosen: string,
                       rules: map<string, Value>, offsets: map<string, Number>)
  {
    && chosen in catalogue
    && (forall k :: k in catalogue ==> MethodRules <= catalogue[k].params.Keys)
    && SettingKeys <= rules.Keys
    && OffsetKeys <= offsets.Keys
  }

  /** The constructor's work: default the catalogue, pick the method
      (falling back to "MWL"), lay its rules over the initial setting and
      zero the offsets. */
  method InitialConfiguration(name: string)
      returns (catalogue: map<string, Method>, chosen: string, rules: map<string, Value>, zero: map<string, Number>)
    ensures Initial(name, catalogue, chosen, rules, zero)
    ensures Consistent(catalogue, chosen, rules, zero)
  {
    catalogue := FillDefaults(GetMethods());
    chosen := if name in catalogue then name else FallbackMethod;
    rules := Overwrite(InitialSetting, catalogue[chosen].params);
    zero := InitialOffsets();
    DefaultedRules();
  }

  /** `1 * dst ? 1 : 0`: a non-zero daylight-saving flag adds one hour. */
  function DstHours(dst: Number): (h: real)
    ensures h == 0.0 || h == 1.0
    ensures h == 1.0 <==> dst.Real? && dst.r != 0.0
  {
    if dst.Real? && dst.r != 0.0 then 1.0 else 0.0
  }

  /** The zone `getTimes` records for a known `timezone`: `getDst`'s 1
      moves it one hour east, its 0 leaves it, and an undefined flag (NaN)
      counts as no daylight saving, while an undefined zone stays undefined. */
  lemma ZoneWithDst(timezone: real)
    ensures Add(Real(timezone), Real(DstHours(Real(1.0)))) == Real(timezone + 1.0)
    ensures Add(Real(timezone), Real(DstHours(Real(0.0)))) == Real(timezone)
    ensures Add(Real(timezone), Real(DstHours(NaN))) == Real(timezone)
    ensures Add(NaN, Real(DstHours(Real(1.0)))).NaN?
  {
  }

  class PrayTimes {
    var methods: map<string, Method>
    var calcMethod: string
    var setting: map<string, Value>
    var offset: map<string, Number>
    var timeFormat: string
    var lat: Number
    var lng: Number
    var timeZone: Number
    var jDate: Number

    /** The current method is a name of the catalogue, and every rule and
        offset the pipeline reads is present. (The catalogue itself is the
        defaulted one from construction on: no method may modify it.) */
    predicate Valid()
      reads this`methods, this`calcMethod, this`setting, this`offset
    {
      Consistent(methods, calcMethod, setting, offset)
    }

    /** `PrayTimes(method)`: default the catalogue, fall back to "MWL" for an
        unknown name, lay the method's rules over the initial setting, zero
        all nine offsets and start in the 24-hour format. */
    constructor(name: string)
      ensures Valid()
      ensures Initial(name, methods, calcMethod, setting, offset)
      ensures timeFormat == DefaultTimeFormat
      ensures lat.NaN? && lng.NaN? && timeZone.NaN? && jDate.NaN?
    {
      var catalogue, chosen, rules, zero := InitialConfiguration(name);
      methods, calcMethod, setting, offset := catalogue, chosen, rules, zero;
      timeFormat := DefaultTimeFormat;
      lat, lng, timeZone, jDate := NaN, NaN, NaN, NaN;
    }

    /** `setMethod(name)`: a catalogue name lays that method's rules over the
        setting and becomes the current method; any other name, `undefined`
        included, changes nothing. */
    method SetMethod(name: string)
      requires Valid()
      modifies this`setting, this`calcMethod
      ensures Valid()
      ensures name in methods ==> setting == old(setting) + methods[name].params && calcMethod == name
      ensures name !in methods ==> setting == old(setting) && calcMethod == old(calcMethod)
    {
      if name in methods {
        Adjust(methods[name].params);
        calcMethod := name;
      }
    }

    /** `adjust(params)`: exactly the listed rules are overwritten. */
    method Adjust(params: map<string, Value>)
      requires Valid()
      modifies this`setting
      ensures Valid()
      ensures setting == old(setting) + params
    {
      setting := Overwrite(setting, params);
    }

    /** `tune(timeOffsets)`: exactly the listed offsets are overwritten. */
    method Tune(timeOffsets: map<string, Number>)
      requires Valid()
      modifies this`offset
      ensures Valid()
      ensures offset == old(offset) + timeOffsets
    {
      offset := Overwrite(offset, timeOffsets);
    }

    /** `getMethod()`: always a name of the catalogue. */
    function GetMethod(): (r: string)
      requires Valid()
      reads this
      ensures r in methods
    {
      calcMethod
    }

    /** `getSetting()`: holds every rule the pipeline reads. */
    function GetSetting(): (r: map<string, Value>)
      requires Valid()
      reads this
      ensures SettingKeys <= r.Keys
    {
      setting
    }

    /** `getOffsets()`: holds an offset for each of the nine times. */
    function GetOffsets(): (r: map<string, Number>)
      requires Valid()
      reads this
      ensures OffsetKeys <= r.Keys
    {
      offset
    }

    /** `getDefaults()`: the catalogue, in which every method has the four
        rules Fajr, Isha, Maghrib and Midnight. */
    function GetDefaults(): (r: map<string, Method>)
      requires Valid()
      reads this
      ensures forall k :: k in r ==> MethodRules <= r[k].params.Keys
    {
      methods
    }

    /** The first half of `getTimes`: record the coordinates and the
        format (an empty format keeps the previous one), the zone with its
        daylight-saving hour and the Julian date of the observer's local
        noon. */
    method SetObserver(year: int, month: int, day: int, latitude: Number, longitude: Number,
                       timezone: Number, dst: Number, format: string)
      modifies this`lat, this`lng, this`timeFormat, this`timeZone, this`jDate
      ensures lat == latitude && lng == longitude
      ensures timeFormat == if format != "" then format else old(timeFormat)
      ensures timeZone == Add(timezone, Real(DstHours(dst)))
      ensures jDate == Sub(Real(Julian(year, month, day)), DivBy(longitude, 360.0))
    {
      lat := latitude;
      lng := longitude;
      if format != "" {
        timeFormat := format;
      }
      timeZone := Add(timezone, Real(DstHours(dst)));
      jDate := Sub(Real(Julian(year, month, day)), DivBy(lng, 15.0 * 24.0));
    }

    /** `computeTimes` from the solved times `raw` on, with the object's
        setting, offsets, zone, longitude and format. */
    method ComputeDay(raw: Times) returns (r: map<TimeName, Formatted>)
      requires raw.Keys == SolvedNames
      ensures r == FormatAll(PostSolve(raw, setting, offset, timeZone, lng), timeFormat)
    {
      r := ComputeTimes(raw, setting, offset, timeZone, lng, timeFormat);
    }

    /** `getTimes(date, coords, timezone, dst, format)` from the solved times
        on: it records the observer and returns the formatted post-solver
        times. The solved times `raw` stand for the solver's result; the
        timezone and the daylight-saving flag arrive resolved. */
    method GetTimes(raw: Times, year: int, month: int, day: int, latitude: Number, longitude: Number,
                    timezone: Number, dst: Number, format: string) returns (r: map<TimeName, Formatted>)
      requires raw.Keys == SolvedNames
      modifies this`lat, this`lng, this`timeFormat, this`timeZone, this`jDate
      ensures lat == latitude && lng == longitude
      ensures timeFormat == if format != "" then format else old(timeFormat)
      ensures timeZone == Add(timezone, Real(DstHours(dst)))
      ensures jDate == Sub(Real(Julian(year, month, day)), DivBy(longitude, 360.0))
      ensures r == FormatAll(PostSolve(raw, setting, offset, timeZone, lng), timeFormat)
    {
      SetObserver(year, month, day, latitude, longitude, timezone, dst, format);
      r := ComputeDay(raw);
    }
  }

  /** A freshly constructed object's tuning changes no time. */
  lemma FreshTuningIsIdentity(times: Times)
    requires times.Keys <= AllNames
    ensures Tuned(times, ZeroOffsets()) == times
  {
    forall k | k in times
      ensures Key(k) in ZeroOffsets() && ZeroOffsets()[Key(k)] == Real(0.0)
    {
      assert Key(k) in OffsetKeys;
    }
    TunedByZero(times, ZeroOffsets());
  }

  /** Under the Makkah method ("90 min" Isha) the adjusted Isha is exactly an
      hour and a half after the adjusted Maghrib, whatever the solver says. */
  lemma MakkahIshaAfterMaghrib(raw: Times, setting: map<string, Value>, timeZone: Number, lng: Number)
    requires raw.Keys == SolvedNames
    requires Get(setting, "isha") == Str("90 min")
    ensures var t := AdjustedTimes(raw, setting, timeZone, lng);
      t[Isha] == Add(t[Maghrib], Real(1.5))
  {
    assert ShowNat(90) + " min" == "90 min";
    MinuteRule(90);
    MinuteRules(raw, setting, timeZone, lng);
  }
}
