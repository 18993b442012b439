/** The scheduling and formatting helpers of the panel indicator
    (src/extension.js): the timezone table, the method and visibility
    tables, the conversion of clock fields and "Float" prayer times to
    seconds, the search for the nearest prayer with its midnight wrap, and
    the remaining-time text. */
module Schedule {
  import opened Wrappers
  import opened Numbers
  import opened Decimal
  import opened RuleValues
  import opened Catalog
  import opened Pipeline
  import opened Format
  import Config

  // ---------------------------------------------------------------------
  // Tables

  /** `_timezoneArr`: "auto" followed by the whole hours -12 to 14 as text,
      the same order as the "Auto", "GMT -12:00" … "GMT +14:00" choices. */
  function TimezoneTable(): (r: seq<string>)
    ensures |r| == 28 && r[0] == "auto"
    ensures forall k :: 1 <= k < 28 ==> r[k] == ShowInt(k - 13)
  {
    ["auto"] + seq(27, i requires 0 <= i < 27 => ShowInt(i - 12))
  }

  /** Every entry after "auto" is a zone that `1 * timezone` reads back as
      the hour offset `k - 13`, and no such entry is taken for "auto". */
  lemma TimezoneValues(k: int)
    requires 1 <= k < 28
    ensures TimezoneTable()[k] != "auto"
    ensures AllNumeric(TimezoneTable()[k])
    ensures ToNumber(TimezoneTable()[k]) == Real((k - 13) as real)
  {
    var s := TimezoneTable()[k];
    ShowIntToNumber(k - 13);
    if k - 13 >= 0 {
      assert s[0] != 'a';
    }
  }

  /** The zone choice that selects a whole hour offset `h` in -12..14. */
  function TimezoneIndex(h: int): (k: int)
    requires -12 <= h <= 14
    ensures 1 <= k < 28
  {
    h + 13
  }

  /** Choosing the offset `h` and reading the table back gives `h`. */
  lemma TimezoneRoundTrip(h: int)
    requires -12 <= h <= 14
    ensures ToNumber(TimezoneTable()[TimezoneIndex(h)]) == Real(h as real)
  {
    TimezoneValues(TimezoneIndex(h));
  }

  /** `_calcMethodsArr`: the method names the indicator hands to `setMethod`. */
  const CalcMethodsArr: seq<string> := ["MWL", "Makkah", "Egypt", "Karachi"]

  /** `_calcMethodsArr[index]` used as a property name: an index past the end
      reads `undefined`, which names the property "undefined". */
  function MethodNameAt(index: int): (r: string)
    ensures 0 <= index < |CalcMethodsArr| ==> r in GetMethods()
    ensures !(0 <= index < |CalcMethodsArr|) ==> r !in GetMethods()
  {
    if 0 <= index < |CalcMethodsArr| then CalcMethodsArr[index] else "undefined"
  }

  /** The preferences dialog lists the catalogue keys in declaration order,
      and its selected index is what reaches the indicator. Read through
      `_calcMethodsArr`, no index selects the method shown at that position,
      and the last two select nothing at all. */
  lemma MethodIndexAsWritten()
    ensures forall i :: 0 <= i < |CatalogKeys| ==> MethodNameAt(i) != CatalogKeys[i]
    ensures forall i :: |CalcMethodsArr| <= i < |CatalogKeys| ==> MethodNameAt(i) !in GetMethods()
  {
  }

  /** The method shown at position `index` of the preferences list. */
  function PreferencesMethodAt(index: int): (r: string)
    ensures 0 <= index < |CatalogKeys| ==> r in GetMethods()
    ensures !(0 <= index < |CatalogKeys|) ==> r !in GetMethods()
  {
    DeclaredRules();
    if 0 <= index < |CatalogKeys| then CatalogKeys[index] else "undefined"
  }

  /** Every choice of the dialog selects the method it shows, and different
      choices select different methods. */
  lemma PreferencesMethodMatchesLabel()
    ensures forall i :: 0 <= i < |CatalogKeys| ==> PreferencesMethodAt(i) == CatalogKeys[i]
    ensures forall i, j :: 0 <= i < j < |CatalogKeys| ==> PreferencesMethodAt(i) != PreferencesMethodAt(j)
  {
  }

  /** The method step of `_getPrayerTimes`: `setMethod(name)`, then
      `adjust({asr: 'Standard'})`. A catalogue name becomes the method and
      lays its rules over the setting; any other name keeps the method and
      setting; either way the Asr rule ends up "Standard". */
  method ApplyMethod(pt: Config.PrayTimes, name: string)
    requires pt.Valid()
    modifies pt`setting, pt`calcMethod
    ensures pt.Valid()
    ensures name in pt.methods ==>
      pt.calcMethod == name && pt.setting == old(pt.setting) + pt.methods[name].params + map["asr" := Str("Standard")]
    ensures name !in pt.methods ==>
      pt.calcMethod == old(pt.calcMethod) && pt.setting == old(pt.setting)["asr" := Str("Standard")]
    ensures Get(pt.setting, "asr") == Str("Standard")
  {
    pt.SetMethod(name);
    pt.Adjust(map["asr" := Str("Standard")]);
  }

  /** The times the menu lists (`_timeNames`), in order. */
  const DisplayedTimes: seq<TimeName> := [Fajr, Sunrise, Dhuhr, Asr, Maghrib, Isha, Midnight]

  /** `_primaryPrayers`, in the order the nearest-prayer search visits them. */
  const PrimaryPrayers: seq<TimeName> := [Fajr, Dhuhr, Asr, Maghrib, Isha]

  /** `_timeConciseLevels[id]`: the least list level at which a time is
      shown; Imsak and Sunset have none. */
  function ConciseLevel(id: TimeName): Option<int>
  {
    match id
    case Fajr => Some(0)
    case Sunrise => Some(1)
    case Dhuhr => Some(0)
    case Asr => Some(0)
    case Maghrib => Some(0)
    case Isha => Some(0)
    case Midnight => Some(1)
    case _ => None
  }

  /** `_isVisiblePrayer(id)`: the time's level is at most the list level; a
      comparison with `undefined` on either side is false. */
  predicate IsVisible(id: TimeName, level: Option<int>)
  {
    ConciseLevel(id).Some? && level.Some? && ConciseLevel(id).value <= level.value
  }

  /** Level 0 shows exactly the five primary prayers; level 1 shows all
      seven listed times; a higher level never hides a time. */
  lemma VisibilityLevels(a: int, b: int)
    ensures forall id :: id in DisplayedTimes ==> (IsVisible(id, Some(0)) <==> id in PrimaryPrayers)
    ensures forall id :: id in DisplayedTimes ==> IsVisible(id, Some(1))
    ensures forall id :: a <= b && IsVisible(id, Some(a)) ==> IsVisible(id, Some(b))
  {
  }

  /** `_conciseListLevels`: the level each choice of the list setting selects. */
  const ConciseListLevels: seq<int> := [0, 1]

  /** The choices of the "Which times?" setting, in order. */
  const WhichTimesChoices: seq<string> := ["All times", "Concise"]

  /** `_conciseListLevels[index]`; an index past the end reads `undefined`. */
  function LevelAt(index: int): (r: Option<int>)
    ensures 0 <= index < |ConciseListLevels| ==> r == Some(index)
    ensures !(0 <= index < |ConciseListLevels|) ==> r.None?
  {
    if 0 <= index < |ConciseListLevels| then Some(ConciseListLevels[index]) else None
  }

  /** Read through `_conciseListLevels`, the choice labelled "All times"
      hides Sunrise and Midnight, while the choice labelled "Concise" shows
      them. */
  lemma ConciseChoiceAsWritten()
    ensures WhichTimesChoices[0] == "All times" && !IsVisible(Sunrise, LevelAt(0)) && !IsVisible(Midnight, LevelAt(0))
    ensures WhichTimesChoices[1] == "Concise" && IsVisible(Sunrise, LevelAt(1)) && IsVisible(Midnight, LevelAt(1))
  {
  }

  /** The level the choice at `index` of "Which times?" names: "All times"
      is level 1, "Concise" level 0. */
  function LevelForChoice(index: int): (r: Option<int>)
    ensures 0 <= index < |WhichTimesChoices| ==> r.Some? && r.value == 1 - index
    ensures !(0 <= index < |WhichTimesChoices|) ==> r.None?
  {
    if index == 0 then Some(1) else if index == 1 then Some(0) else None
  }

  /** "All times" shows every listed time and "Concise" exactly the five
      primary prayers. */
  lemma LevelForChoiceMatchesLabel()
    ensures WhichTimesChoices[0] == "All times" && forall id :: id in DisplayedTimes ==> IsVisible(id, LevelForChoice(0))
    ensures WhichTimesChoices[1] == "Concise" &&
      forall id :: id in DisplayedTimes ==> (IsVisible(id, LevelForChoice(1)) <==> id in PrimaryPrayers)
  {
    VisibilityLevels(0, 1);
  }

  /** `_notifyBeforeAzanMinutes`: the lead time each choice selects. */
  const NotifyBeforeAzanMinutes: seq<int> := [0, 5, 10, 15]

  /** `_notifyBeforeAzanMinutes[index]`; an index past the end reads `undefined`. */
  function LeadAt(index: int): (r: Option<int>)
    ensures r.Some? <==> 0 <= index < |NotifyBeforeAzanMinutes|
    ensures r.Some? ==> r.value == 5 * index
  {
    if 0 <= index < |NotifyBeforeAzanMinutes| then Some(NotifyBeforeAzanMinutes[index]) else None
  }

  // ---------------------------------------------------------------------
  // Seconds

  const DaySeconds: int := 24 * 3600

  /** `_calculateSecondsFromDate`: seconds since midnight of a wall-clock
      time. For valid clock fields it lies in the day, and the fields can be
      recovered from it. */
  function SecondsFromClock(hours: int, minutes: int, seconds: int): (r: int)
    ensures 0 <= hours < 24 && 0 <= minutes < 60 && 0 <= seconds < 60 ==>
      && 0 <= r < DaySeconds
      && r / 3600 == hours && (r % 3600) / 60 == minutes && r % 60 == seconds
  {
    hours * 3600 + minutes * 60 + seconds
  }

  /** `_calculateSecondsFromHour(timesFloat[id])`: `hour * 3600`. Text such
      as "-----", or a missing entry, multiplies to NaN. */
  function SecondsAt(times: map<TimeName, Formatted>, id: TimeName): (r: Number)
    ensures r.Real? <==> id in times && times[id].Hours?
  {
    if id in times && times[id].Hours? then Real(times[id].value * 3600.0) else NaN
  }

  /** A time in the "Float" format is a whole number of minutes: its seconds
      are sixty times its clock minute, within the day. */
  lemma FloatTimeSeconds(times: map<TimeName, Formatted>, id: TimeName, t: real)
    requires id in times && times[id] == GetFormattedTime(Real(t), "Float", None)
    ensures SecondsAt(times, id) == Real((60 * MinuteOfDay(t)) as real)
    ensures 0 <= 60 * MinuteOfDay(t) < DaySeconds
  {
    FormatFloat(t);
    var m := MinuteOfDay(t);
    assert times[id].value == m as real / 60.0;
    assert (m as real / 60.0) * 3600.0 == (60 * m) as real;
  }

  /** `_calculatePrayerSeconds(timesFloat, id, currentSeconds)`: the prayer's
      seconds, except that Fajr moves to the next day (86400 seconds later)
      exactly when the current time is past Isha. A NaN Isha compares false
      and moves nothing. */
  function PrayerSeconds(times: map<TimeName, Formatted>, id: TimeName, current: int): (r: Number)
    ensures id != Fajr ==> r == SecondsAt(times, id)
    ensures id == Fajr ==>
      r == if Greater(Real(current as real), SecondsAt(times, Isha))
           then Add(SecondsAt(times, Fajr), Real(DaySeconds as real))
           else SecondsAt(times, Fajr)
  {
    var prayerSeconds := SecondsAt(times, id);
    var ishaSeconds := SecondsAt(times, Isha);
    var fajrSeconds := SecondsAt(times, Fajr);
    if id == Fajr && Greater(Real(current as real), ishaSeconds) then Add(fajrSeconds, Real(DaySeconds as real))
    else prayerSeconds
  }

  /** The midnight wrap of `_findNearestPrayer`: a difference below -12 hours
      gains a day, one above 12 hours loses a day. The result is the same
      clock difference; from within ±36 hours it lands within ±12 hours, and
      a difference already within ±12 hours is kept. */
  function Wrap(d: real): (r: real)
    ensures r == d || r == d + DaySeconds as real || r == d - DaySeconds as real
    ensures -129600.0 <= d <= 129600.0 ==> -43200.0 <= r <= 43200.0
    ensures -43200.0 <= d <= 43200.0 ==> r == d
  {
    if d < -43200.0 then d + DaySeconds as real
    else if d > 43200.0 then d - DaySeconds as real
    else d
  }

  /** Moving Fajr to the next day changes nothing after the wrap, except for
      a Fajr exactly twelve hours before the current time: there the wrap
      counts it as passed, the next-day rule as upcoming. */
  lemma NextDayFajrAfterWrap(d: real)
    requires -(DaySeconds as real) <= d < 0.0
    ensures d != -43200.0 ==> Wrap(d + DaySeconds as real) == Wrap(d)
    ensures d == -43200.0 ==> Wrap(d + DaySeconds as real) == 43200.0 && Wrap(d) == -43200.0
  {
  }

  /** The wrapped difference of prayer `id` from the current time, in whole
      minutes rounded down (`Math.floor(diffSeconds / 60)`); `None` for NaN. */
  function DiffMinutes(times: map<TimeName, Formatted>, id: TimeName, current: int): (r: Option<int>)
    ensures r.Some? <==> SecondsAt(times, id).Real?
    ensures r.Some? ==>
      var d := Wrap(PrayerSeconds(times, id, current).r - current as real);
      r.value as real * 60.0 <= d < r.value as real * 60.0 + 60.0
  {
    var s := PrayerSeconds(times, id, current);
    if s.NaN? then None else Some((Wrap(s.r - current as real) / 60.0).Floor)
  }

  // ---------------------------------------------------------------------
  // The nearest prayer

  /** The difference in minutes of the `i`-th primary prayer. */
  function Diff(times: map<TimeName, Formatted>, current: int, i: nat): Option<int>
    requires i < |PrimaryPrayers|
  {
    DiffMinutes(times, PrimaryPrayers[i], current)
  }

  /** The `i`-th primary prayer is at or after the current minute. */
  predicate Ahead(times: map<TimeName, Formatted>, current: int, i: nat)
    requires i < |PrimaryPrayers|
  {
    Diff(times, current, i).Some? && Diff(times, current, i).value >= 0
  }

  /** The `i`-th primary prayer began one to fifteen minutes ago. */
  predicate JustPassed(times: map<TimeName, Formatted>, current: int, i: nat)
    requires i < |PrimaryPrayers|
  {
    Diff(times, current, i).Some? && -15 <= Diff(times, current, i).value <= -1
  }

  /** `id` names the `i`-th primary prayer, due, just passed or ahead. */
  predicate Names(times: map<TimeName, Formatted>, current: int, i: nat, id: Option<TimeName>)
    requires i < |PrimaryPrayers|
  {
    id == Some(PrimaryPrayers[i]) && Diff(times, current, i).Some? && Diff(times, current, i).value >= -15
  }

  /** `id` names the `i`-th primary prayer, which either began one to fifteen
      minutes ago or lies at the difference `m`. */
  predicate Picks(times: map<TimeName, Formatted>, current: int, i: nat, id: Option<TimeName>, m: Option<int>)
    requires i < |PrimaryPrayers|
  {
    id == Some(PrimaryPrayers[i]) && (JustPassed(times, current, i) || (m.Some? && Diff(times, current, i) == m))
  }

  /** Position `i` is the last of the first `n` positions that set the
      search's id: no later prayer just passed; a just-passed `i` comes after
      the least difference `m` was first reached; otherwise `i` is where `m`
      was first reached. */
  predicate Latest(times: map<TimeName, Formatted>, current: int, n: nat, i: nat, m: Option<int>)
    requires i < n <= |PrimaryPrayers|
  {
    && (forall j :: i < j < n ==> !JustPassed(times, current, j))
    && (JustPassed(times, current, i) && m.Some? ==> exists k :: 0 <= k < i && Diff(times, current, k) == m)
    && (!JustPassed(times, current, i) ==> forall k :: 0 <= k < i ==> Diff(times, current, k) != m)
  }

  /** The first primary prayer from position `i` on whose difference is
      zero minutes, or `|PrimaryPrayers|` when there is none. */
  function FirstDue(times: map<TimeName, Formatted>, current: int, i: nat): (k: nat)
    requires i <= |PrimaryPrayers|
    ensures i <= k <= |PrimaryPrayers|
    ensures k < |PrimaryPrayers| ==> Diff(times, current, k) == Some(0)
    ensures forall j :: i <= j < k ==> Diff(times, current, j) != Some(0)
    decreases |PrimaryPrayers| - i
  {
    if i == |PrimaryPrayers| then i
    else if Diff(times, current, i) == Some(0) then i
    else FirstDue(times, current, i + 1)
  }

  /** The first due prayer is the only position with the two properties of
      `FirstDue`. */
  lemma {:induction false} FirstDueUnique(times: map<TimeName, Formatted>, current: int, i: nat, k: nat)
    requires i <= k <= |PrimaryPrayers|
    requires k < |PrimaryPrayers| ==> Diff(times, current, k) == Some(0)
    requires forall j :: i <= j < k ==> Diff(times, current, j) != Some(0)
    ensures FirstDue(times, current, i) == k
    decreases |PrimaryPrayers| - i
  {
    if i < k {
      FirstDueUnique(times, current, i + 1, k);
    }
  }

  /** What `_findNearestPrayer` returns; `diffMinutes` is `None` where the
      source returns `Number.MAX_VALUE`. */
  datatype Nearest = Nearest(id: Option<TimeName>, diffMinutes: Option<int>, isTimeForPraying: bool, isAfterAzan: bool)

  /** The search results after the primary prayers before position `n`:
      `diffMinutes` is the least non-negative difference among them, and
      `isAfterAzan` tells whether one of them just passed. */
  predicate ScannedValues(times: map<TimeName, Formatted>, current: int, n: nat,
                          diffMinutes: Option<int>, isAfterAzan: bool)
    requires n <= |PrimaryPrayers|
  {
    && (diffMinutes.Some? <==> exists i :: 0 <= i < n && Ahead(times, current, i))
    && (diffMinutes.Some? ==>
          && diffMinutes.value >= 0
          && (exists i :: 0 <= i < n && Diff(times, current, i) == diffMinutes)
          && (forall i :: 0 <= i < n && Ahead(times, current, i) ==> diffMinutes.value <= Diff(times, current, i).value))
    && (isAfterAzan <==> exists i :: 0 <= i < n && JustPassed(times, current, i))
  }

  /** `id` names one of the first `n` primary prayers by `Picks`, and that
      position is `Latest`. */
  predicate PicksLatest(times: map<TimeName, Formatted>, current: int, n: nat, id: Option<TimeName>, m: Option<int>)
    requires n <= |PrimaryPrayers|
  {
    exists i :: 0 <= i < n && Picks(times, current, i, id, m) && Latest(times, current, n, i, m)
  }

  /** The prayer the search names after the primary prayers before position
      `n`: one among them that is just passed or ahead, which either just
      passed or lies at the least difference and is the last position that
      set the id, and the one at the least difference when none just passed.
      A prayer is named whenever one just passed. */
  predicate ScannedId(times: map<TimeName, Formatted>, current: int, n: nat,
                      id: Option<TimeName>, diffMinutes: Option<int>, isAfterAzan: bool)
    requires n <= |PrimaryPrayers|
  {
    && (id.Some? ==> PicksLatest(times, current, n, id, diffMinutes))
    && (isAfterAzan ==> id.Some?)
    && (!isAfterAzan ==> (id.Some? <==> diffMinutes.Some?))
  }

  /** Both kinds of search results hold for `s` after the first `n` positions. */
  predicate Scanned(times: map<TimeName, Formatted>, current: int, n: nat, s: Nearest)
    requires n <= |PrimaryPrayers|
  {
    && ScannedValues(times, current, n, s.diffMinutes, s.isAfterAzan)
    && ScannedId(times, current, n, s.id, s.diffMinutes, s.isAfterAzan)
  }

  /** Steps 2 and 3 of the loop body for a prayer `id` that is not due: a
      prayer that began within fifteen minutes is marked, and a prayer ahead
      by less than the best so far becomes the nearest. */
  function Visit(s: Nearest, id: TimeName, d: Option<int>): Nearest
  {
    var s1 := if d.Some? && d.value < 0 && d.value >= -15 then s.(isAfterAzan := true, id := Some(id)) else s;
    if d.Some? && d.value >= 0 && (s1.diffMinutes.None? || d.value < s1.diffMinutes.value)
    then s1.(diffMinutes := d, id := Some(id))
    else s1
  }

  /** Visiting the next prayer, when it is not due, extends the search
      results by one position. */
  lemma VisitScans(times: map<TimeName, Formatted>, current: int, n: nat, s: Nearest, t: Nearest)
    requires n < |PrimaryPrayers|
    requires Scanned(times, current, n, s)
    requires t == Visit(s, PrimaryPrayers[n], Diff(times, current, n))
    ensures Scanned(times, current, n + 1, t)
  {
    VisitMinimum(times, current, n, s);
    assert (t.isAfterAzan <==> exists i :: 0 <= i < n + 1 && JustPassed(times, current, i)) by {
      assert (exists i :: 0 <= i < n + 1 && JustPassed(times, current, i))
        <==> (exists i :: 0 <= i < n && JustPassed(times, current, i)) || JustPassed(times, current, n);
    }
    if JustPassed(times, current, n) {
      assert Picks(times, current, n, t.id, t.diffMinutes) && Latest(times, current, n + 1, n, t.diffMinutes);
    } else if t.diffMinutes != s.diffMinutes {
      forall k | 0 <= k < n
        ensures Diff(times, current, k) != t.diffMinutes
      {
        if Ahead(times, current, k) {
          assert s.diffMinutes.value <= Diff(times, current, k).value;
        }
      }
      assert Picks(times, current, n, t.id, t.diffMinutes) && Latest(times, current, n + 1, n, t.diffMinutes);
    } else if s.id.Some? {
      var i :| 0 <= i < n && Picks(times, current, i, s.id, s.diffMinutes) && Latest(times, current, n, i, s.diffMinutes);
      assert Picks(times, current, i, t.id, t.diffMinutes) && Latest(times, current, n + 1, i, t.diffMinutes);
    }
  }

  /** The minimum part of `VisitScans`. */
  lemma VisitMinimum(times: map<TimeName, Formatted>, current: int, n: nat, s: Nearest)
    requires n < |PrimaryPrayers|
    requires ScannedValues(times, current, n, s.diffMinutes, s.isAfterAzan)
    ensures var t := Visit(s, PrimaryPrayers[n], Diff(times, current, n));
      && (t.diffMinutes.Some? <==> exists i :: 0 <= i < n + 1 && Ahead(times, current, i))
      && (t.diffMinutes.Some? ==>
            && t.diffMinutes.value >= 0
            && (exists i :: 0 <= i < n + 1 && Diff(times, current, i) == t.diffMinutes)
            && (forall i :: 0 <= i < n + 1 && Ahead(times, current, i) ==> t.diffMinutes.value <= Diff(times, current, i).value))
  {
    assert (exists i :: 0 <= i < n + 1 && Ahead(times, current, i))
      <==> (exists i :: 0 <= i < n && Ahead(times, current, i)) || Ahead(times, current, n);
  }

  /** The first part of the loop body of `_findNearestPrayer`: the prayer's
      seconds, the difference from now with the midnight wrap, and that
      difference in whole minutes rounded down. */
  method MinutesUntil(times: map<TimeName, Formatted>, prayerId: TimeName, current: int) returns (diffMinutes: Option<int>)
    ensures diffMinutes == DiffMinutes(times, prayerId, current)
  {
    var prayerSeconds := PrayerSeconds(times, prayerId, current);
    diffMinutes := None;
    if prayerSeconds.Real? {
      var diffSeconds := prayerSeconds.r - current as real;
      if diffSeconds < -12.0 * 3600.0 {
        diffSeconds := diffSeconds + 24.0 * 3600.0;
      } else if diffSeconds > 12.0 * 3600.0 {
        diffSeconds := diffSeconds - 24.0 * 3600.0;
      }
      diffMinutes := Some((diffSeconds / 60.0).Floor);
    }
  }

  /** `_findNearestPrayer(timesFloat, currentSeconds)`: visit the primary
      prayers in order, stopping at the first one due this minute. Of the
      prayers visited before it, report the least non-negative difference
      and whether one began within the last fifteen minutes; name the due
      prayer, or else a prayer just passed or nearest ahead. */
  method FindNearestPrayer(times: map<TimeName, Formatted>, current: int) returns (r: Nearest)
    ensures var stop := FirstDue(times, current, 0);
      && (r.isTimeForPraying <==> stop < |PrimaryPrayers|)
      && (stop < |PrimaryPrayers| ==> r.id == Some(PrimaryPrayers[stop]))
      && ScannedValues(times, current, stop, r.diffMinutes, r.isAfterAzan)
      && (stop == |PrimaryPrayers| ==> ScannedId(times, current, stop, r.id, r.diffMinutes, r.isAfterAzan))
  {
    var nearestPrayerId: Option<TimeName> := None;
    var minDiffMinutes: Option<int> := None;
    var isTimeForPraying := false;
    var isAfterAzan := false;
    var i := 0;
    while i < |PrimaryPrayers|
      invariant 0 <= i <= |PrimaryPrayers|
      invariant forall j :: 0 <= j < i ==> Diff(times, current, j) != Some(0)
      invariant Scanned(times, current, i, Nearest(nearestPrayerId, minDiffMinutes, false, isAfterAzan))
      invariant !isTimeForPraying
    {
      ghost var before := Nearest(nearestPrayerId, minDiffMinutes, false, isAfterAzan);
      var prayerId := PrimaryPrayers[i];
      var diffMinutes := MinutesUntil(times, prayerId, current);
      assert diffMinutes == Diff(times, current, i);
      if diffMinutes == Some(0) {
        isTimeForPraying := true;
        nearestPrayerId := Some(prayerId);
        FirstDueUnique(times, current, 0, i);
        break;
      }
      if diffMinutes.Some? && diffMinutes.value < 0 && diffMinutes.value >= -15 {
        isAfterAzan := true;
        nearestPrayerId := Some(prayerId);
      }
      if diffMinutes.Some? && diffMinutes.value >= 0 && (minDiffMinutes.None? || diffMinutes.value < minDiffMinutes.value) {
        minDiffMinutes := diffMinutes;
        nearestPrayerId := Some(prayerId);
      }
      VisitScans(times, current, i, before, Nearest(nearestPrayerId, minDiffMinutes, false, isAfterAzan));
      i := i + 1;
    }
    if !isTimeForPraying {
      FirstDueUnique(times, current, 0, |PrimaryPrayers|);
    }
    r := Nearest(nearestPrayerId, minDiffMinutes, isTimeForPraying, isAfterAzan);
  }

  /** The prayer the search names is a primary prayer that is due, began at
      most fifteen minutes ago, or lies ahead. */
  lemma NearestIsNamed(times: map<TimeName, Formatted>, current: int, r: Nearest)
    requires var stop := FirstDue(times, current, 0);
      && (stop < |PrimaryPrayers| ==> r.id == Some(PrimaryPrayers[stop]))
      && (stop == |PrimaryPrayers| ==> Scanned(times, current, stop, r))
    ensures r.id.Some? ==> exists i :: 0 <= i < |PrimaryPrayers| && Names(times, current, i, r.id)
  {
    var stop := FirstDue(times, current, 0);
    if stop < |PrimaryPrayers| {
      assert Names(times, current, stop, r.id);
    } else if r.id.Some? {
      var i :| 0 <= i < stop && Picks(times, current, i, r.id, r.diffMinutes) && Latest(times, current, stop, i, r.diffMinutes);
      assert Names(times, current, i, r.id);
    }
  }

  /** The `i`-th primary prayer lies ahead, and no prayer ahead is nearer. */
  predicate NearestAhead(times: map<TimeName, Formatted>, current: int, i: nat)
    requires i < |PrimaryPrayers|
  {
    && Ahead(times, current, i)
    && forall j :: 0 <= j < |PrimaryPrayers| && Ahead(times, current, j) ==>
         Diff(times, current, i).value <= Diff(times, current, j).value
  }

  /** When no prayer is due, the prayer the search names either began one to
      fifteen minutes ago or is the nearest prayer ahead. */
  lemma NamedIsPassedOrNearest(times: map<TimeName, Formatted>, current: int, r: Nearest)
    requires Scanned(times, current, |PrimaryPrayers|, r)
    ensures forall i :: 0 <= i < |PrimaryPrayers| && r.id == Some(PrimaryPrayers[i]) ==>
      JustPassed(times, current, i) || NearestAhead(times, current, i)
  {
    forall i | 0 <= i < |PrimaryPrayers| && r.id == Some(PrimaryPrayers[i])
      ensures JustPassed(times, current, i) || NearestAhead(times, current, i)
    {
      var k :| 0 <= k < |PrimaryPrayers| && Picks(times, current, k, r.id, r.diffMinutes) && Latest(times, current, |PrimaryPrayers|, k, r.diffMinutes);
      assert k == i;
    }
  }
  /** When no prayer is due and a prayer both just passed and lies ahead, the
      search names whichever of the last prayer that just passed and the
      first nearest prayer ahead comes later in the order of the scan. */
  lemma NamedIsLater(times: map<TimeName, Formatted>, current: int, r: Nearest, p: nat, f: nat)
    requires Scanned(times, current, |PrimaryPrayers|, r)
    requires p < |PrimaryPrayers| && JustPassed(times, current, p)
    requires forall j :: p < j < |PrimaryPrayers| ==> !JustPassed(times, current, j)
    requires f < |PrimaryPrayers| && NearestAhead(times, current, f)
    requires forall k :: 0 <= k < f ==> !NearestAhead(times, current, k)
    ensures r.id == Some(PrimaryPrayers[if p < f then f else p])
  {
    var m := r.diffMinutes;
    var a :| 0 <= a < |PrimaryPrayers| && Diff(times, current, a) == m;
    assert Diff(times, current, f) == m by {
      assert Ahead(times, current, a);
    }
    var i :| 0 <= i < |PrimaryPrayers| && Picks(times, current, i, r.id, m) && Latest(times, current, |PrimaryPrayers|, i, m);
    if JustPassed(times, current, i) {
      assert i == p;
      var k :| 0 <= k < i && Diff(times, current, k) == m;
      assert NearestAhead(times, current, k);
    } else {
      assert NearestAhead(times, current, i);
      assert i == f;
    }
  }


  // ---------------------------------------------------------------------
  // Remaining time

  /** `_formatRemainingTimeFromMinutes(diffMinutes)`: "HH:MM" of the
      magnitude, both fields padded to at least two digits. */
  function FormatRemaining(diffMinutes: int): string
  {
    var a := if diffMinutes < 0 then -diffMinutes else diffMinutes;
    PadStart(ShowNat(a / 60), 2) + ":" + PadStart(ShowNat(a % 60), 2)
  }

  /** The text reads back as the magnitude: at least two hour digits, a
      colon, then exactly two minute digits below 60. */
  lemma FormatRemainingReadsBack(d: int)
    ensures var r, a := FormatRemaining(d), if d < 0 then -d else d;
      var k := |r| - 3;
      && k >= 2 && r[k] == ':'
      && AllDigits(r[..k]) && AllDigits(r[k + 1..]) && |r[k + 1..]| == 2
      && DigitsValue(r[k + 1..]) < 60
      && DigitsValue(r[..k]) * 60 + DigitsValue(r[k + 1..]) == a
  {
    var a := if d < 0 then -d else d;
    var hh := PadStart(ShowNat(a / 60), 2);
    var mm := PadStart(ShowNat(a % 60), 2);
    ShowNatRoundTrip(a / 60);
    ShowNatRoundTrip(a % 60);
    var r := hh + ":" + mm;
    assert FormatRemaining(d) == r;
    assert |mm| == 2;
    assert r[..|hh|] == hh;
    assert r[|hh| + 1..] == mm;
  }

  /** The sign of the difference is dropped. */
  lemma FormatRemainingDropsSign(d: int)
    ensures FormatRemaining(-d) == FormatRemaining(d)
  {
  }
}
