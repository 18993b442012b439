/** The notification flags of the panel indicator (src/extension.js): once a
    second `_updateLabel` finds the nearest prayer, clears both flags when
    that prayer changed, and `_handlePrayerNotifications` sends the
    "minutes remaining" notice and the prayer-time notice, each guarded by
    its own flag. */
module Notify {
  import opened Wrappers
  import opened Pipeline
  import opened Format
  import opened Schedule

  /** `_azanNotified`, `_beforeAzanNotified` and `_lastNotifiedPrayerId`. */
  datatype Flags = Flags(azanNotified: bool, beforeAzanNotified: bool, lastNotifiedPrayerId: Option<TimeName>)

  /** What one update hands to the notification code: the search result,
      the lead time of the "minutes remaining" notice (`undefined` for an
      unknown choice) and whether prayer-time notices are enabled. */
  datatype Tick = Tick(nearest: Nearest, lead: Option<int>, notifyForAzan: bool)

  /** The notices one update sends. */
  datatype Sent = Sent(beforeAzan: bool, azan: bool)

  /** The flags and notices after one update. */
  datatype Outcome = Outcome(flags: Flags, sent: Sent)

  const Cleared: Flags := Flags(false, false, None)

  /** `_updateLabel`, lines 471-475: a different nearest prayer clears both
      flags and becomes the last notified one; the same prayer keeps them. */
  function Track(f: Flags, nearest: Option<TimeName>): (g: Flags)
    ensures g.lastNotifiedPrayerId == nearest
    ensures nearest != f.lastNotifiedPrayerId ==> !g.azanNotified && !g.beforeAzanNotified
    ensures nearest == f.lastNotifiedPrayerId ==> g == f
  {
    if nearest != f.lastNotifiedPrayerId then Flags(false, false, nearest) else f
  }

  /** The "minutes remaining" notice is due: a positive lead time equal to
      the minutes left, not yet sent. `Number.MAX_VALUE` equals no lead. */
  predicate BeforeAzanDue(f: Flags, t: Tick)
  {
    t.lead.Some? && t.lead.value > 0 && t.nearest.diffMinutes == Some(t.lead.value) && !f.beforeAzanNotified
  }

  /** The prayer-time notice is due: it is prayer time, the notice was not
      yet sent, and such notices are enabled. */
  predicate AzanDue(f: Flags, t: Tick)
  {
    t.nearest.isTimeForPraying && !f.azanNotified && t.notifyForAzan
  }

  /** `_handlePrayerNotifications`: each notice is sent exactly when it is
      due, and sending it sets its flag; nothing clears a flag. */
  function Handle(f: Flags, t: Tick): (o: Outcome)
    ensures o.sent.beforeAzan <==> BeforeAzanDue(f, t)
    ensures o.sent.azan <==> AzanDue(f, t)
    ensures o.flags.beforeAzanNotified <==> f.beforeAzanNotified || o.sent.beforeAzan
    ensures o.flags.azanNotified <==> f.azanNotified || o.sent.azan
    ensures o.flags.lastNotifiedPrayerId == f.lastNotifiedPrayerId
  {
    var before := BeforeAzanDue(f, t);
    var f1 := if before then f.(beforeAzanNotified := true) else f;
    var azan := AzanDue(f1, t);
    var f2 := if azan then f1.(azanNotified := true) else f1;
    Outcome(f2, Sent(before, azan))
  }

  /** One update: track the nearest prayer, then handle the notices. */
  function Step(f: Flags, t: Tick): Outcome
  {
    Handle(Track(f, t.nearest.id), t)
  }

  /** A series of updates from the flags `f`: the final flags and how many
      notices of each kind were sent. */
  datatype Tally = Tally(flags: Flags, beforeAzan: nat, azan: nat)

  function Run(f: Flags, ticks: seq<Tick>): Tally
    decreases |ticks|
  {
    if ticks == [] then Tally(f, 0, 0)
    else
      var o := Step(f, ticks[0]);
      var rest := Run(o.flags, ticks[1..]);
      Tally(rest.flags, rest.beforeAzan + (if o.sent.beforeAzan then 1 else 0), rest.azan + (if o.sent.azan then 1 else 0))
  }

  /** All updates of `ticks` find the same nearest prayer `p`. */
  predicate SamePrayer(ticks: seq<Tick>, p: Option<TimeName>)
  {
    forall i :: 0 <= i < |ticks| ==> ticks[i].nearest.id == p
  }

  /** While the nearest prayer stays the one last notified, a notice whose
      flag is set is not sent again. */
  lemma {:induction false} NoRepeat(f: Flags, ticks: seq<Tick>)
    requires SamePrayer(ticks, f.lastNotifiedPrayerId)
    ensures var r := Run(f, ticks);
      && r.flags.lastNotifiedPrayerId == f.lastNotifiedPrayerId
      && (f.azanNotified ==> r.azan == 0 && r.flags.azanNotified)
      && (f.beforeAzanNotified ==> r.beforeAzan == 0 && r.flags.beforeAzanNotified)
    decreases |ticks|
  {
    if ticks != [] {
      var o := Step(f, ticks[0]);
      assert SamePrayer(ticks[1..], o.flags.lastNotifiedPrayerId) by {
        forall i | 0 <= i < |ticks[1..]|
          ensures ticks[1..][i].nearest.id == o.flags.lastNotifiedPrayerId
        {
          assert ticks[1..][i] == ticks[i + 1];
        }
      }
      NoRepeat(o.flags, ticks[1..]);
    }
  }

  /** Each prayer is announced at most once: over any series of updates that
      find the same nearest prayer, each notice is sent at most once,
      whatever the flags were before. */
  lemma {:induction false} AtMostOnce(f: Flags, ticks: seq<Tick>, p: Option<TimeName>)
    requires SamePrayer(ticks, p)
    ensures Run(f, ticks).azan <= 1 && Run(f, ticks).beforeAzan <= 1
    decreases |ticks|
  {
    if ticks != [] {
      var o := Step(f, ticks[0]);
      assert SamePrayer(ticks[1..], p) by {
        forall i | 0 <= i < |ticks[1..]|
          ensures ticks[1..][i].nearest.id == p
        {
          assert ticks[1..][i] == ticks[i + 1];
        }
      }
      AtMostOnce(o.flags, ticks[1..], p);
      NoRepeat(o.flags, ticks[1..]);
    }
  }

  /** A change of nearest prayer re-arms the notices: the new prayer's notice
      is sent when due, whatever was sent for the previous one. */
  lemma NewPrayerRearms(f: Flags, t: Tick)
    requires t.nearest.id != f.lastNotifiedPrayerId
    ensures Step(f, t).sent.azan <==> t.nearest.isTimeForPraying && t.notifyForAzan
    ensures Step(f, t).sent.beforeAzan <==>
      t.lead.Some? && t.lead.value > 0 && t.nearest.diffMinutes == Some(t.lead.value)
  {
  }

  /** The indicator's notification state. */
  class Indicator {
    var azanNotified: bool
    var beforeAzanNotified: bool
    var lastNotifiedPrayerId: Option<TimeName>

    function State(): Flags
      reads this
    {
      Flags(azanNotified, beforeAzanNotified, lastNotifiedPrayerId)
    }

    /** The constructor starts with no notice sent and no prayer tracked. */
    constructor()
      ensures State() == Cleared
    {
      azanNotified := false;
      beforeAzanNotified := false;
      lastNotifiedPrayerId := None;
    }

    /** `_updateLabel`, lines 471-475. */
    method TrackNearest(nearestPrayerId: Option<TimeName>)
      modifies this
      ensures State() == Track(old(State()), nearestPrayerId)
    {
      if nearestPrayerId != lastNotifiedPrayerId {
        azanNotified := false;
        beforeAzanNotified := false;
        lastNotifiedPrayerId := nearestPrayerId;
      }
    }

    /** `_handlePrayerNotifications(isAfterAzan, diffMinutes, nearestPrayerId,
        timesStr, isTimeForPraying)`; `isAfterAzan` and the texts only shape
        the notices' wording. */
    method HandlePrayerNotifications(t: Tick) returns (sent: Sent)
      modifies this
      ensures Outcome(State(), sent) == Handle(old(State()), t)
    {
      sent := Sent(false, false);
      if t.lead.Some? && t.lead.value > 0 && t.nearest.diffMinutes == Some(t.lead.value) && !beforeAzanNotified {
        beforeAzanNotified := true;
        sent := sent.(beforeAzan := true);
      }
      if t.nearest.isTimeForPraying && !azanNotified && t.notifyForAzan {
        azanNotified := true;
        sent := sent.(azan := true);
      }
    }

    /** The notification part of `_updateLabel`: find the nearest prayer in
        the "Float" times at `current` seconds, track it, and send the
        notices that are due. The search result is the one `FindNearestPrayer`
        promises, so the "minutes remaining" notice compares the lead time
        with the least non-negative difference seen before the first due
        prayer. */
    method UpdateLabel(timesFloat: map<TimeName, Formatted>, current: int, lead: Option<int>, notifyForAzan: bool)
        returns (nearest: Nearest, sent: Sent)
      modifies this
      ensures Outcome(State(), sent) == Step(old(State()), Tick(nearest, lead, notifyForAzan))
      ensures var stop := FirstDue(timesFloat, current, 0);
        && (nearest.isTimeForPraying <==> stop < |PrimaryPrayers|)
        && (stop < |PrimaryPrayers| ==> nearest.id == Some(PrimaryPrayers[stop]))
        && ScannedValues(timesFloat, current, stop, nearest.diffMinutes, nearest.isAfterAzan)
        && (stop == |PrimaryPrayers| ==>
              ScannedId(timesFloat, current, stop, nearest.id, nearest.diffMinutes, nearest.isAfterAzan))
    {
      nearest := FindNearestPrayer(timesFloat, current);
      TrackNearest(nearest.id);
      sent := HandlePrayerNotifications(Tick(nearest, lead, notifyForAzan));
    }
  }
}
