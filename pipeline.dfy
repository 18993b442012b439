/** The part of `computeTimes` (src/PrayTimes.js) that runs after the solar
    solver: the timezone shift, the high-latitude correction, the minute
    rules, the Dhuhr offset, the midnight rule, the user's tuning and the
    final formatting. The eight solved times are inputs, each an hour value
    or NaN when the sun never reaches the angle. */
module Pipeline {
  import opened Wrappers
  import opened Numbers
  import opened DMath
  import opened RuleValues
  import opened Format

  /** The keys of the `times` dictionary. */
  datatype TimeName = Imsak | Fajr | Sunrise | Dhuhr | Asr | Sunset | Maghrib | Isha | Midnight

  /** The property name of a time, as `offset` and the settings spell it. */
  function Key(n: TimeName): string
  {
    match n
    case Imsak => "imsak"
    case Fajr => "fajr"
    case Sunrise => "sunrise"
    case Dhuhr => "dhuhr"
    case Asr => "asr"
    case Sunset => "sunset"
    case Maghrib => "maghrib"
    case Isha => "isha"
    case Midnight => "midnight"
  }

  /** The eight times the solver returns. */
  const SolvedNames: set<TimeName> := {Imsak, Fajr, Sunrise, Dhuhr, Asr, Sunset, Maghrib, Isha}

  /** The nine names of `timeNames`: the solved times and Midnight. */
  const AllNames: set<TimeName> := SolvedNames + {Midnight}

  type Times = map<TimeName, Number>

  /** `offset[key]`: a missing offset reads `undefined`, and `undefined / 60` is NaN. */
  function OffsetOf(offset: map<string, Number>, key: string): Number
  {
    if key in offset then offset[key] else NaN
  }

  /** The first loop of `adjustTimes`: every time moves by the same amount. */
  function Shifted(times: Times, shift: Number): (r: Times)
    ensures r.Keys == times.Keys
  {
    map k | k in times :: Add(times[k], shift)
  }

  /** `nightPortion(angle, night)`: the share of the night that bounds a
      twilight time under the high-latitude policy. Only "AngleBased" uses
      the angle; "OneSeventh" takes a seventh and every other policy,
      "NightMiddle" and unknown names alike, takes half. Outside
      "AngleBased" the portion of a night of `n` hours lies in [0, n/2]. */
  function NightPortion(policy: Value, angle: Number, night: Number): (r: Number)
    ensures policy != Str("AngleBased") && night.Real? && 0.0 <= night.r ==>
      r.Real? && 0.0 <= r.r <= night.r / 2.0
  {
    var portion :=
      if policy == Str("OneSeventh") then Real(1.0 / 7.0)
      else if policy == Str("AngleBased") then Mul(Real(1.0 / 60.0), angle)
      else Real(1.0 / 2.0);
    Mul(portion, night)
  }

  /** The portion under each policy: half the night for "NightMiddle" and
      for any unknown policy, a seventh for "OneSeventh", and `angle / 60` of
      the night for "AngleBased"; an undefined night or angle gives NaN. */
  lemma NightPortionValues(policy: Value, angle: Number, night: Number)
    ensures night.NaN? ==> NightPortion(policy, angle, night).NaN?
    ensures night.Real? && policy != Str("OneSeventh") && policy != Str("AngleBased") ==>
      NightPortion(policy, angle, night) == Real(night.r / 2.0)
    ensures night.Real? && policy == Str("OneSeventh") ==> NightPortion(policy, angle, night) == Real(night.r / 7.0)
    ensures night.Real? && angle.Real? && policy == Str("AngleBased") ==>
      NightPortion(policy, angle, night) == Real(angle.r * night.r / 60.0)
    ensures angle.NaN? && policy == Str("AngleBased") ==> NightPortion(policy, angle, night).NaN?
  {
  }

  /** `adjustHLTime(time, base, angle, night, direction)`: a time that is
      undefined, or further from `base` than the night portion (measured
      backwards from `base` when `ccw`, forwards otherwise), is replaced by
      `base` moved by the portion in that direction. */
  function AdjustHLTime(policy: Value, time: Number, base: Number, angle: Number, night: Number, ccw: bool): (r: Number)
    ensures r == time || r == (if ccw then Sub(base, NightPortion(policy, angle, night))
                                       else Add(base, NightPortion(policy, angle, night)))
  {
    var portion := NightPortion(policy, angle, night);
    var diff := if ccw then TimeDiff(time, base) else TimeDiff(base, time);
    if time.NaN? || Greater(diff, portion) then
      (if ccw then Sub(base, portion) else Add(base, portion))
    else time
  }

  /** The distance of `time` from `base` in the direction of the correction. */
  function Distance(time: Number, base: Number, ccw: bool): Number
  {
    if ccw then TimeDiff(time, base) else TimeDiff(base, time)
  }

  /** With a defined base and a portion in [0, 24), the corrected time is
      defined and lies within the portion of `base`; a time already within it
      is left alone. */
  lemma AdjustHLTimeBound(policy: Value, time: Number, base: Number, angle: Number, night: Number, ccw: bool)
    requires base.Real?
    requires var p := NightPortion(policy, angle, night); p.Real? && 0.0 <= p.r < 24.0
    ensures var p := NightPortion(policy, angle, night).r;
      var r := AdjustHLTime(policy, time, base, angle, night, ccw);
      && r.Real? && Distance(r, base, ccw).r <= p
      && (time.Real? && Distance(time, base, ccw).r <= p ==> r == time)
  {
    var p := NightPortion(policy, angle, night).r;
    var r := AdjustHLTime(policy, time, base, angle, night, ccw);
    if r != time {
      FixIdentityOnRange(p, 24.0);
      if ccw {
        assert base.r - (base.r - p) == p;
      } else {
        assert base.r + p - base.r == p;
      }
    }
  }

  /** The correction is idempotent: a corrected time is not corrected again. */
  lemma AdjustHLTimeIdempotent(policy: Value, time: Number, base: Number, angle: Number, night: Number, ccw: bool)
    requires base.Real?
    requires var p := NightPortion(policy, angle, night); p.Real? && 0.0 <= p.r < 24.0
    ensures var r := AdjustHLTime(policy, time, base, angle, night, ccw);
      AdjustHLTime(policy, r, base, angle, night, ccw) == r
  {
    var r := AdjustHLTime(policy, time, base, angle, night, ccw);
    AdjustHLTimeBound(policy, time, base, angle, night, ccw);
    AdjustHLTimeBound(policy, r, base, angle, night, ccw);
  }

  /** `adjustHighLats(times)`: Imsak and Fajr are bounded before sunrise,
      Isha and Maghrib after sunset, by a portion of the night from sunset to
      sunrise; the other times are untouched. */
  function AdjustHighLats(times: Times, setting: map<string, Value>): (r: Times)
    requires SolvedNames <= times.Keys
    ensures r.Keys == times.Keys
    ensures forall k :: k in times && k !in {Imsak, Fajr, Isha, Maghrib} ==> r[k] == times[k]
  {
    var policy := Get(setting, "highLats");
    var night := TimeDiff(times[Sunset], times[Sunrise]);
    times[Imsak := AdjustHLTime(policy, times[Imsak], times[Sunrise], Eval(Get(setting, "imsak")), night, true)]
         [Fajr := AdjustHLTime(policy, times[Fajr], times[Sunrise], Eval(Get(setting, "fajr")), night, true)]
         [Isha := AdjustHLTime(policy, times[Isha], times[Sunset], Eval(Get(setting, "isha")), night, false)]
         [Maghrib := AdjustHLTime(policy, times[Maghrib], times[Sunset], Eval(Get(setting, "maghrib")), night, false)]
  }

  /** When sunrise and sunset are known and the policy is not "AngleBased",
      the four twilight times come out defined, Imsak and Fajr at most half
      the night before sunrise, Maghrib and Isha at most half the night after
      sunset. */
  lemma HighLatsBounded(times: Times, setting: map<string, Value>)
    requires SolvedNames <= times.Keys
    requires times[Sunrise].Real? && times[Sunset].Real?
    requires Get(setting, "highLats") != Str("AngleBased")
    ensures var r := AdjustHighLats(times, setting);
      var half := TimeDiff(times[Sunset], times[Sunrise]).r / 2.0;
      && r[Imsak].Real? && r[Fajr].Real? && r[Isha].Real? && r[Maghrib].Real?
      && TimeDiff(r[Imsak], r[Sunrise]).r <= half && TimeDiff(r[Fajr], r[Sunrise]).r <= half
      && TimeDiff(r[Sunset], r[Isha]).r <= half && TimeDiff(r[Sunset], r[Maghrib]).r <= half
  {
    var policy := Get(setting, "highLats");
    var night := TimeDiff(times[Sunset], times[Sunrise]);
    AdjustHLTimeBound(policy, times[Imsak], times[Sunrise], Eval(Get(setting, "imsak")), night, true);
    AdjustHLTimeBound(policy, times[Fajr], times[Sunrise], Eval(Get(setting, "fajr")), night, true);
    AdjustHLTimeBound(policy, times[Isha], times[Sunset], Eval(Get(setting, "isha")), night, false);
    AdjustHLTimeBound(policy, times[Maghrib], times[Sunset], Eval(Get(setting, "maghrib")), night, false);
  }

  /** The portion of the night that bounds the twilight time whose rule is
      `key`, under the setting's high-latitude policy. */
  function Portion(times: Times, setting: map<string, Value>, key: string): Number
    requires SolvedNames <= times.Keys
  {
    NightPortion(Get(setting, "highLats"), Eval(Get(setting, key)), TimeDiff(times[Sunset], times[Sunrise]))
  }

  /** A portion that is a number of hours within one day. */
  predicate InDay(p: Number)
  {
    p.Real? && 0.0 <= p.r < 24.0
  }

  /** Under any policy, "AngleBased" included: when sunrise and sunset are
      known and each twilight rule gives a portion within one day, the four
      twilight times come out defined, Imsak and Fajr within their portions
      before sunrise, Isha and Maghrib within theirs after sunset. */
  lemma HighLatsWithinPortions(times: Times, setting: map<string, Value>)
    requires SolvedNames <= times.Keys
    requires times[Sunrise].Real? && times[Sunset].Real?
    requires InDay(Portion(times, setting, "imsak")) && InDay(Portion(times, setting, "fajr"))
    requires InDay(Portion(times, setting, "isha")) && InDay(Portion(times, setting, "maghrib"))
    ensures var r := AdjustHighLats(times, setting);
      && r[Imsak].Real? && r[Fajr].Real? && r[Isha].Real? && r[Maghrib].Real?
      && TimeDiff(r[Imsak], r[Sunrise]).r <= Portion(times, setting, "imsak").r
      && TimeDiff(r[Fajr], r[Sunrise]).r <= Portion(times, setting, "fajr").r
      && TimeDiff(r[Sunset], r[Isha]).r <= Portion(times, setting, "isha").r
      && TimeDiff(r[Sunset], r[Maghrib]).r <= Portion(times, setting, "maghrib").r
  {
    var policy := Get(setting, "highLats");
    var night := TimeDiff(times[Sunset], times[Sunrise]);
    AdjustHLTimeBound(policy, times[Imsak], times[Sunrise], Eval(Get(setting, "imsak")), night, true);
    AdjustHLTimeBound(policy, times[Fajr], times[Sunrise], Eval(Get(setting, "fajr")), night, true);
    AdjustHLTimeBound(policy, times[Isha], times[Sunset], Eval(Get(setting, "isha")), night, false);
    AdjustHLTimeBound(policy, times[Maghrib], times[Sunset], Eval(Get(setting, "maghrib")), night, false);
  }

  /** `timeZone - lng / 15`: the clock offset applied to every solved time. */
  function ClockShift(timeZone: Number, lng: Number): Number
  {
    Sub(timeZone, DivBy(lng, 15.0))
  }

  /** One minute rule of `adjustTimes`: when `rule` is a minute count,
      `target` becomes `base` plus (for an earlier time, minus) that many
      minutes; any other rule leaves the times alone. */
  function MinutesFrom(t: Times, target: TimeName, base: TimeName, rule: Value, earlier: bool): (r: Times)
    requires base in t && target in t
    ensures r.Keys == t.Keys
    ensures !IsMin(rule) ==> r == t
  {
    if !IsMin(rule) then t
    else if earlier then t[target := Sub(t[base], DivBy(Eval(rule), 60.0))]
    else t[target := Add(t[base], DivBy(Eval(rule), 60.0))]
  }

  /** The minute rules of `adjustTimes`, in the source's order: Imsak from
      Fajr, Maghrib from Sunset, then Isha from the new Maghrib. Only those
      three times can change. */
  function MinuteRulesApplied(t: Times, setting: map<string, Value>): (r: Times)
    requires SolvedNames <= t.Keys
    ensures r.Keys == t.Keys
    ensures r[Fajr] == t[Fajr] && r[Sunrise] == t[Sunrise] && r[Dhuhr] == t[Dhuhr]
    ensures r[Asr] == t[Asr] && r[Sunset] == t[Sunset]
  {
    var t1 := MinutesFrom(t, Imsak, Fajr, Get(setting, "imsak"), true);
    var t2 := MinutesFrom(t1, Maghrib, Sunset, Get(setting, "maghrib"), false);
    MinutesFrom(t2, Isha, Maghrib, Get(setting, "isha"), false)
  }

  /** The high-latitude step of `adjustTimes`: skipped only for the policy "None". */
  function HighLatsApplied(t: Times, setting: map<string, Value>): (r: Times)
    requires SolvedNames <= t.Keys
    ensures r.Keys == t.Keys
    ensures r[Sunrise] == t[Sunrise] && r[Dhuhr] == t[Dhuhr] && r[Asr] == t[Asr] && r[Sunset] == t[Sunset]
    ensures Get(setting, "highLats") == Str("None") ==> r == t
  {
    if Get(setting, "highLats") != Str("None") then AdjustHighLats(t, setting) else t
  }

  /** `adjustTimes(times)` as a value. Sunrise, Asr and Sunset only move with
      the clock; Dhuhr also gains `eval(dhuhr) / 60`; Fajr only moves with the
      clock when the high-latitude policy is "None". */
  function AdjustedTimes(times: Times, setting: map<string, Value>, timeZone: Number, lng: Number): (r: Times)
    requires times.Keys == SolvedNames
    ensures r.Keys == SolvedNames
    ensures var s := ClockShift(timeZone, lng);
      && r[Sunrise] == Add(times[Sunrise], s) && r[Asr] == Add(times[Asr], s) && r[Sunset] == Add(times[Sunset], s)
      && r[Dhuhr] == Add(Add(times[Dhuhr], s), DivBy(Eval(Get(setting, "dhuhr")), 60.0))
      && (Get(setting, "highLats") == Str("None") ==> r[Fajr] == Add(times[Fajr], s))
  {
    var t := MinuteRulesApplied(HighLatsApplied(Shifted(times, ClockShift(timeZone, lng)), setting), setting);
    t[Dhuhr := Add(t[Dhuhr], DivBy(Eval(Get(setting, "dhuhr")), 60.0))]
  }

  /** The minute rules hold between the final times: a "<n> min" Imsak is n
      minutes before Fajr, a "<n> min" Maghrib n minutes after Sunset, and a
      "<n> min" Isha n minutes after the final Maghrib. */
  lemma MinuteRules(times: Times, setting: map<string, Value>, timeZone: Number, lng: Number)
    requires times.Keys == SolvedNames
    ensures var r := AdjustedTimes(times, setting, timeZone, lng);
      var imsak, maghrib, isha := Get(setting, "imsak"), Get(setting, "maghrib"), Get(setting, "isha");
      && (IsMin(imsak) ==> r[Imsak] == Sub(r[Fajr], DivBy(Eval(imsak), 60.0)))
      && (IsMin(maghrib) ==> r[Maghrib] == Add(r[Sunset], DivBy(Eval(maghrib), 60.0)))
      && (IsMin(isha) ==> r[Isha] == Add(r[Maghrib], DivBy(Eval(isha), 60.0)))
  {
  }

  /** The midnight rule: halfway from sunset to fajr for "Jafari", halfway from
      sunset to sunrise otherwise. */
  function WithMidnight(times: Times, setting: map<string, Value>): (r: Times)
    requires SolvedNames <= times.Keys
    ensures r.Keys == times.Keys + {Midnight}
    ensures forall k :: k in times && k != Midnight ==> r[k] == times[k]
  {
    var sunset := times[Sunset];
    var midnight :=
      if Get(setting, "midnight") == Str("Jafari") then Add(sunset, DivBy(TimeDiff(sunset, times[Fajr]), 2.0))
      else Add(sunset, DivBy(TimeDiff(sunset, times[Sunrise]), 2.0));
    times[Midnight := midnight]
  }

  /** The time that ends the night under the midnight rule. */
  function NightEnd(times: Times, setting: map<string, Value>): Number
    requires SolvedNames <= times.Keys
  {
    if Get(setting, "midnight") == Str("Jafari") then times[Fajr] else times[Sunrise]
  }

  /** Midnight is the clock midpoint of the night: as far from sunset as from
      the end of the night, and those two halves make up the whole night. */
  lemma MidnightIsMidpoint(times: Times, setting: map<string, Value>)
    requires SolvedNames <= times.Keys
    requires times[Sunset].Real? && NightEnd(times, setting).Real?
    ensures var m := WithMidnight(times, setting)[Midnight];
      var s, e := times[Sunset], NightEnd(times, setting);
      && m.Real?
      && TimeDiff(s, m) == TimeDiff(m, e)
      && 2.0 * TimeDiff(s, m).r == TimeDiff(s, e).r
  {
    var s, e := times[Sunset].r, NightEnd(times, setting).r;
    var d := TimeDiff(Real(s), Real(e)).r;
    var m := s + d / 2.0;
    assert WithMidnight(times, setting)[Midnight] == Real(m);
    assert m - s == d / 2.0;
    FixIdentityOnRange(d / 2.0, 24.0);
    var k := ((e - s - d) / 24.0).Floor;
    assert e - s - d == k as real * 24.0;
    assert e - m == d / 2.0 + k as real * 24.0;
    FixPeriodic(d / 2.0, 24.0, k);
  }

  /** `tuneTimes(times)`: every time gains its own offset in minutes. A time
      stays undefined, and a time with a missing offset becomes undefined. */
  function Tuned(times: Times, offset: map<string, Number>): (r: Times)
    ensures r.Keys == times.Keys
    ensures forall k :: k in times && (times[k].NaN? || Key(k) !in offset) ==> r[k].NaN?
  {
    map k | k in times :: Add(times[k], DivBy(OffsetOf(offset, Key(k)), 60.0))
  }

  /** Zero offsets, as the constructor installs them, leave every time as it is. */
  lemma TunedByZero(times: Times, offset: map<string, Number>)
    requires forall k :: k in times ==> Key(k) in offset && offset[Key(k)] == Real(0.0)
    ensures Tuned(times, offset) == times
  {
    forall k | k in times
      ensures Tuned(times, offset)[k] == times[k]
    {
      assert DivBy(OffsetOf(offset, Key(k)), 60.0) == Real(0.0);
    }
  }

  /** Each time is tuned by its own offset only: changing the offset of one
      time changes no other time. */
  lemma TunedIndependently(times: Times, offset: map<string, Number>, n: TimeName, v: Number)
    ensures var a, b := Tuned(times, offset), Tuned(times, offset[Key(n) := v]);
      forall k :: k in times && k != n ==> a[k] == b[k]
  {
    forall k | k in times && k != n
      ensures Tuned(times, offset)[k] == Tuned(times, offset[Key(n) := v])[k]
    {
      assert Key(k) != Key(n);
    }
  }

  /** The post-solver part of `computeTimes`, before formatting. */
  function PostSolve(raw: Times, setting: map<string, Value>, offset: map<string, Number>,
                     timeZone: Number, lng: Number): (r: Times)
    requires raw.Keys == SolvedNames
    ensures r.Keys == AllNames
  {
    Tuned(WithMidnight(AdjustedTimes(raw, setting, timeZone, lng), setting), offset)
  }

  /** `modifyFormats(times)` as a value. */
  function FormatAll(times: Times, format: string): (r: map<TimeName, Formatted>)
    ensures r.Keys == times.Keys
    ensures forall k :: k in times && times[k].NaN? ==> r[k] == Clock(InvalidTime)
  {
    map k | k in times :: GetFormattedTime(times[k], format, None)
  }

  /** The first loop of `adjustTimes`: `times[i] += shift` for every key. */
  method ShiftTimes(times: Times, shift: Number) returns (r: Times)
    ensures r == Shifted(times, shift)
  {
    r := times;
    var pending := times.Keys;
    while pending != {}
      invariant pending <= times.Keys && r.Keys == times.Keys
      invariant forall k :: k in pending ==> r[k] == times[k]
      invariant forall k :: k in times && k !in pending ==> r[k] == Add(times[k], shift)
      decreases pending
    {
      var k :| k in pending;
      r := r[k := Add(r[k], shift)];
      pending := pending - {k};
    }
  }

  /** The three minute-rule statements of `adjustTimes`. */
  method ApplyMinuteRules(t: Times, setting: map<string, Value>) returns (r: Times)
    requires SolvedNames <= t.Keys
    ensures r == MinuteRulesApplied(t, setting)
  {
    r := t;
    var imsak, maghrib, isha := Get(setting, "imsak"), Get(setting, "maghrib"), Get(setting, "isha");
    if IsMin(imsak) {
      r := r[Imsak := Sub(r[Fajr], DivBy(Eval(imsak), 60.0))];
    }
    assert r == MinutesFrom(t, Imsak, Fajr, imsak, true);
    ghost var t1 := r;
    if IsMin(maghrib) {
      r := r[Maghrib := Add(r[Sunset], DivBy(Eval(maghrib), 60.0))];
    }
    assert r == MinutesFrom(t1, Maghrib, Sunset, maghrib, false);
    ghost var t2 := r;
    if IsMin(isha) {
      r := r[Isha := Add(r[Maghrib], DivBy(Eval(isha), 60.0))];
    }
    assert r == MinutesFrom(t2, Isha, Maghrib, isha, false);
  }

  /** `adjustTimes(times)`: the shift loop over the dictionary, then the
      high-latitude correction, the minute rules and the Dhuhr offset. */
  method AdjustTimes(times: Times, setting: map<string, Value>, timeZone: Number, lng: Number) returns (r: Times)
    requires times.Keys == SolvedNames
    ensures r == AdjustedTimes(times, setting, timeZone, lng)
  {
    r := ShiftTimes(times, ClockShift(timeZone, lng));
    if Get(setting, "highLats") != Str("None") {
      r := AdjustHighLats(r, setting);
    }
    r := ApplyMinuteRules(r, setting);
    r := r[Dhuhr := Add(r[Dhuhr], DivBy(Eval(Get(setting, "dhuhr")), 60.0))];
  }

  /** `tuneTimes(times)`: the loop adding each time's offset. */
  method TuneTimes(times: Times, offset: map<string, Number>) returns (r: Times)
    ensures r == Tuned(times, offset)
  {
    r := times;
    var pending := times.Keys;
    while pending != {}
      invariant pending <= times.Keys && r.Keys == times.Keys
      invariant forall k :: k in pending ==> r[k] == times[k]
      invariant forall k :: k in times && k !in pending ==>
        r[k] == Add(times[k], DivBy(OffsetOf(offset, Key(k)), 60.0))
      decreases pending
    {
      var k :| k in pending;
      r := r[k := Add(r[k], DivBy(OffsetOf(offset, Key(k)), 60.0))];
      pending := pending - {k};
    }
  }

  /** `modifyFormats(times)`: the loop formatting each time. */
  method ModifyFormats(times: Times, format: string) returns (r: map<TimeName, Formatted>)
    ensures r == FormatAll(times, format)
  {
    r := map[];
    var pending := times.Keys;
    while pending != {}
      invariant pending <= times.Keys
      invariant r.Keys == times.Keys - pending
      invariant forall k :: k in r ==> r[k] == GetFormattedTime(times[k], format, None)
      decreases pending
    {
      var k :| k in pending;
      r := r[k := GetFormattedTime(times[k], format, None)];
      pending := pending - {k};
    }
  }

  /** `computeTimes()` after the solver: adjust, add midnight, tune, format. */
  method ComputeTimes(raw: Times, setting: map<string, Value>, offset: map<string, Number>,
                      timeZone: Number, lng: Number, format: string) returns (r: map<TimeName, Formatted>)
    requires raw.Keys == SolvedNames
    ensures r == FormatAll(PostSolve(raw, setting, offset, timeZone, lng), format)
  {
    var times := AdjustTimes(raw, setting, timeZone, lng);
    times := WithMidnight(times, setting);
    times := TuneTimes(times, offset);
    r := ModifyFormats(times, format);
  }
}
