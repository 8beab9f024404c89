/** The reminder's trigger time (`TriggerCountdownUITime`) and the
    background thread that sleeps until it and then decides whether to show
    the countdown.

    The clock is not read here: every operation that reads the local time of
    day takes that reading as a parameter `now`. Durations are nanoseconds. */
module Trigger {
  import opened Options
  import opened Clock

  /** The `TimeDelta` added when the trigger has passed: the repeat interval
      in minutes, or 24 hours when there is none. */
  function RepeatDelta(repeatMinutes: Option<int>): int {
    match repeatMinutes
    case Some(m) => Minutes(m)
    case None => Hours(24)
  }

  /** The "already passed" test of `sleep_duration_from_now`: the delay until
      `time` is negative in whole milliseconds (truncated toward zero). */
  predicate HasPassed(time: TimeOfDay, now: TimeOfDay)
    ensures HasPassed(time, now) <==> time - now <= -NanosPerMilli
  {
    NumMilliseconds(Diff(time, now)) < 0
  }

  /** The delay `sleep_duration_from_now` ends up with, before its absolute
      value is taken: corrected once by the repeat interval when passed. */
  function Delay(time: TimeOfDay, repeatMinutes: Option<int>, now: TimeOfDay): int {
    var delta := Diff(time, now);
    if HasPassed(time, now) then delta + RepeatDelta(repeatMinutes) else delta
  }

  /** The stored trigger time after `sleep_duration_from_now`. */
  function NextTime(time: TimeOfDay, repeatMinutes: Option<int>, now: TimeOfDay): TimeOfDay {
    if HasPassed(time, now) then AddDelta(time, Delay(time, repeatMinutes, now)) else time
  }

  /** The duration `sleep_duration_from_now` returns. */
  function SleepNanos(time: TimeOfDay, repeatMinutes: Option<int>, now: TimeOfDay): nat {
    Abs(Delay(time, repeatMinutes, now))
  }

  /** The decision of `is_now`: fire when the clock is strictly past the
      stored trigger time. */
  predicate Fires(time: TimeOfDay, now: TimeOfDay) {
    now > time
  }

  /** A reminder trigger: a time of day and an optional repeat interval in
      minutes, both updated in place. */
  class TriggerCountdown {
    var time: TimeOfDay
    var repeatMinutes: Option<int>

    /** `at(hour, minute)`: the trigger `hour:minute:00` with no repeat
        interval; `from_hms_opt(..).unwrap()` panics unless the hour and
        minute are in range, which is this constructor's precondition. */
    constructor At(hour: nat, minute: nat)
      requires FromHms(hour, minute, 0).Some?
      ensures Hour(time) == hour && Minute(time) == minute
      ensures Second(time) == 0 && Nanosecond(time) == 0
      ensures repeatMinutes == None
    {
      time := FromHms(hour, minute, 0).value;
      repeatMinutes := None;
    }

    /** `sleep_duration_from_now`: the time to sleep, with the stored time
        shifted once when the trigger has passed. */
    method SleepDurationFromNow(now: TimeOfDay) returns (sleep: nat)
      modifies this`time
      ensures time == NextTime(old(time), repeatMinutes, now)
      ensures sleep == SleepNanos(old(time), repeatMinutes, now)
    {
      var timeDifference := Diff(time, now);
      if NumMilliseconds(timeDifference) < 0 {
        var timeToRepeat := match repeatMinutes
          case Some(minutes) => Minutes(minutes)
          case None => Hours(24);
        timeDifference := timeDifference + timeToRepeat;
        time := AddDelta(time, timeDifference);
      }
      sleep := Abs(timeDifference);
    }

    /** `repeat_in(minutes)` */
    method RepeatIn(minutes: int)
      modifies this`repeatMinutes
      ensures repeatMinutes == Some(minutes)
      ensures time == old(time)
    {
      repeatMinutes := Some(minutes);
    }

    /** `is_now` */
    predicate IsNow(now: TimeOfDay)
      reads this
      ensures IsNow(now) <==> Diff(time, now) < 0
      ensures HasPassed(time, now) ==> IsNow(now)
      ensures IsNow(now) && !HasPassed(time, now) ==> 0 < now - time < NanosPerMilli
    {
      Fires(time, now)
    }

    /** One pass of the background thread's loop: sleep for the computed
        duration, read the clock again (`nowAfter`) and decide whether to
        show the countdown. */
    method RunOnce(nowBefore: TimeOfDay, nowAfter: TimeOfDay) returns (sleep: nat, fire: bool)
      modifies this`time
      ensures time == NextTime(old(time), repeatMinutes, nowBefore)
      ensures sleep == SleepNanos(old(time), repeatMinutes, nowBefore)
      ensures fire <==> Fires(time, nowAfter)
    {
      sleep := SleepDurationFromNow(nowBefore);
      fire := IsNow(nowAfter);
    }

    /** Passes of the background thread's loop over a finite list of clock
        readings (one before and one after each sleep). */
    method Run(readings: seq<(TimeOfDay, TimeOfDay)>) returns (sleeps: seq<nat>, fires: seq<bool>)
      modifies this`time
      ensures RunFrom(old(time), repeatMinutes, readings) == Trace(time, sleeps, fires)
      ensures repeatMinutes == None ==> forall k :: 0 <= k < |sleeps| ==> sleeps[k] < NanosPerDay
    {
      sleeps, fires := [], [];
      var i := 0;
      while i < |readings|
        invariant 0 <= i <= |readings|
        invariant RunFrom(old(time), repeatMinutes, readings[..i]) == Trace(time, sleeps, fires)
      {
        var sleep, fire := RunOnce(readings[i].0, readings[i].1);
        sleeps, fires := sleeps + [sleep], fires + [fire];
        i := i + 1;
        assert readings[..i][..i - 1] == readings[..i - 1];
      }
      assert readings[..i] == readings;
      if repeatMinutes == None {
        DailyRunSleepsUnderADay(old(time), readings);
      }
    }
  }

  /** What a run of the loop leaves behind: the stored time, and the sleep
      and the decision of every pass. */
  datatype Trace = Trace(time: TimeOfDay, sleeps: seq<nat>, fires: seq<bool>)

  /** The loop run pass by pass over the clock readings. */
  function RunFrom(time: TimeOfDay, repeatMinutes: Option<int>, readings: seq<(TimeOfDay, TimeOfDay)>): (r: Trace)
    ensures |r.sleeps| == |r.fires| == |readings|
  {
    if readings == [] then Trace(time, [], [])
    else
      var prev := RunFrom(time, repeatMinutes, readings[..|readings| - 1]);
      var (before, after) := readings[|readings| - 1];
      var next := NextTime(prev.time, repeatMinutes, before);
      Trace(next,
            prev.sleeps + [SleepNanos(prev.time, repeatMinutes, before)],
            prev.fires + [Fires(next, after)])
  }

  /** With the daily default no pass sleeps a whole day or more. */
  lemma {:induction false} DailyRunSleepsUnderADay(time: TimeOfDay, readings: seq<(TimeOfDay, TimeOfDay)>)
    ensures forall k :: 0 <= k < |readings| ==> RunFrom(time, None, readings).sleeps[k] < NanosPerDay
  {
    if readings != [] {
      var prev := RunFrom(time, None, readings[..|readings| - 1]);
      DailyRunSleepsUnderADay(time, readings[..|readings| - 1]);
      DailySleepUnderADay(prev.time, readings[|readings| - 1].0);
      var r := RunFrom(time, None, readings);
      var last := SleepNanos(prev.time, None, readings[|readings| - 1].0);
      assert r.sleeps == prev.sleeps + [last];
      forall k | 0 <= k < |readings| ensures r.sleeps[k] < NanosPerDay {
        if k < |prev.sleeps| {
          assert r.sleeps[k] == prev.sleeps[k];
        } else {
          assert r.sleeps[k] == last;
        }
      }
    }
  }

  /** A single daily sleep is shorter than a day. */
  lemma DailySleepUnderADay(time: TimeOfDay, now: TimeOfDay)
    ensures SleepNanos(time, None, now) < NanosPerDay
  {
  }

  /** While the trigger is pending (not behind by a whole millisecond) the
      stored time stays as it is and the sleep is the distance between the
      two times; when the trigger lies ahead the sleep ends exactly on it. */
  lemma PendingSleep(time: TimeOfDay, repeatMinutes: Option<int>, now: TimeOfDay)
    requires !HasPassed(time, now)
    ensures NextTime(time, repeatMinutes, now) == time
    ensures SleepNanos(time, repeatMinutes, now) == Abs(time - now)
    ensures now > time ==> now - time < NanosPerMilli
    ensures now <= time ==> SleepNanos(time, repeatMinutes, now) == time - now
                            && AddDelta(now, SleepNanos(time, repeatMinutes, now)) == time
  {
  }

  /** Less than a millisecond behind, the trigger counts as pending: the
      stored time is not advanced and the thread sleeps for how far behind it
      is, although the trigger time has already gone by. */
  lemma SubMillisecondPassNotAdvanced(time: TimeOfDay, repeatMinutes: Option<int>, now: TimeOfDay)
    requires time < now < time + NanosPerMilli
    ensures !HasPassed(time, now)
    ensures NextTime(time, repeatMinutes, now) == time
    ensures SleepNanos(time, repeatMinutes, now) == now - time
    ensures Fires(time, now)
  {
  }

  /** With no repeat interval, a trigger that has passed is rescheduled a day
      later: the sleep ends exactly at the old trigger time of day, lies
      strictly between zero and one day, and the stored time is shifted by
      the corrected delay, landing at `2 * time - now` on the clock face
      rather than back on `time`. */
  lemma DailyPassedSleep(time: TimeOfDay, now: TimeOfDay)
    requires HasPassed(time, now)
    ensures var d := SleepNanos(time, None, now);
            0 < d <= NanosPerDay - NanosPerMilli
            && d == Until(now, time)
            && AddDelta(now, d) == time
    ensures NextTime(time, None, now) == AddDelta(time, time - now)
  {
  }

  /** With a repeat interval `r`, a passed trigger's delay is corrected once
      by `r`: the stored time is shifted by that corrected delay (not by `r`),
      and the sleep is the corrected delay's magnitude. When the clock is
      still more than `r` past the trigger the corrected delay stays
      negative, and the sleep no longer ends at any trigger time. */
  lemma RepeatPassedSleep(time: TimeOfDay, minutes: int, now: TimeOfDay)
    requires HasPassed(time, now)
    ensures var r := minutes * NanosPerMinute;
            var d := SleepNanos(time, Some(minutes), now);
            NextTime(time, Some(minutes), now) == AddDelta(AddDelta(time, r), time - now)
            && (time - now + r >= 0 ==> d == time - now + r
                                         && AddDelta(now, d) == AddDelta(time, r))
            && (time - now + r < 0 ==> d == now - time - r)
  {
    var r := minutes * NanosPerMinute;
    var t1 := AddDelta(time, r);
    assert (t1 + (time - now)) % NanosPerDay == (time + (time - now + r)) % NanosPerDay by {
      assert (time + r - t1) % NanosPerDay == 0;
      ModShift(time + (time - now + r), t1 + (time - now));
    }
  }

  /** Two integers whose difference is a multiple of a day wrap to the same
      time of day. */
  lemma ModShift(a: int, b: int)
    requires (a - b) % NanosPerDay == 0
    ensures a % NanosPerDay == b % NanosPerDay
  {
    var k := (a - b) / NanosPerDay;
    assert a - b == k * NanosPerDay;
    ModAddMultiple(b, k);
  }

  lemma {:induction false} ModAddMultiple(b: int, k: int)
    ensures (b + k * NanosPerDay) % NanosPerDay == b % NanosPerDay
    decreases if k < 0 then -k else k
  {
    if k > 0 {
      ModAddMultiple(b, k - 1);
      assert b + k * NanosPerDay == (b + (k - 1) * NanosPerDay) + NanosPerDay;
    } else if k < 0 {
      ModAddMultiple(b, k + 1);
      assert b + k * NanosPerDay == (b + (k + 1) * NanosPerDay) - NanosPerDay;
    }
  }

  /** A one-minute repeat, five minutes after a 09:00 trigger: the thread
      sleeps four minutes and the stored trigger moves back to 08:56, still
      behind the clock, so the sleep is not the time until a next trigger. */
  lemma ShortRepeatStaysBehind()
    ensures var time, now := 9 * NanosPerHour, 9 * NanosPerHour + 5 * NanosPerMinute;
            SleepNanos(time, Some(1), now) == 4 * NanosPerMinute
            && NextTime(time, Some(1), now) == 8 * NanosPerHour + 56 * NanosPerMinute
            && NextTime(time, Some(1), now) < now
  {
  }

  /** A pass fires only when the second reading is strictly after the stored
      time: a wake-up that lands exactly on a pending trigger does not fire,
      while any later one does. */
  lemma WakeOnPendingTrigger(time: TimeOfDay, repeatMinutes: Option<int>, nowBefore: TimeOfDay, nowAfter: TimeOfDay)
    requires nowBefore <= time
    ensures var next := NextTime(time, repeatMinutes, nowBefore);
            next == time
            && (nowAfter == AddDelta(nowBefore, SleepNanos(time, repeatMinutes, nowBefore)) ==> !Fires(next, nowAfter))
            && (Fires(next, nowAfter) <==> nowAfter > time)
  {
  }

  /** A trigger fires whenever it has passed by a whole millisecond. */
  lemma PassedFires(time: TimeOfDay, now: TimeOfDay)
    requires HasPassed(time, now)
    ensures Fires(time, now)
  {
  }

  /** Start-up as written: `at(now.hour(), now.minute() + 1)`; `None` stands
      for the panic of `unwrap` on an out-of-range minute. */
  function StartupTimeAsWritten(now: TimeOfDay): (r: Option<TimeOfDay>)
    ensures r == None <==> Minute(now) == 59
    ensures r.Some? ==> Hour(r.value) == Hour(now) && Minute(r.value) == Minute(now) + 1
                        && IsWholeMinute(r.value)
  {
    FromHms(Hour(now), Minute(now) + 1, 0)
  }

  /** In the last minute of any hour the start-up minute is 60 and the
      program panics. */
  lemma StartupPanicsAtMinute59(now: TimeOfDay)
    requires Minute(now) == 59
    ensures StartupTimeAsWritten(now) == None
  {
  }

  /** Start-up as intended: the start of the next minute, wrapping past the
      hour and past midnight. It is a whole minute, lies less than a minute
      ahead of the clock, and agrees with the code as written whenever that
      does not panic. */
  function StartupTime(now: TimeOfDay): (t: TimeOfDay)
    ensures IsWholeMinute(t)
    ensures 0 < Until(now, t) <= NanosPerMinute
    ensures Minute(now) < 59 ==> StartupTimeAsWritten(now) == Some(t)
  {
    var m := MinuteOfDay(now);
    if m + 1 < 24 * 60 then
      MinuteFieldsOf(m + 1);
      (m + 1) * NanosPerMinute
    else
      0
  }

  /** The trigger `main` sets up: the next minute, repeating every minute. */
  method Startup(now: TimeOfDay) returns (trigger: TriggerCountdown)
    ensures fresh(trigger)
    ensures trigger.time == StartupTime(now) && trigger.repeatMinutes == Some(1)
  {
    var t := StartupTime(now);
    trigger := new TriggerCountdown.At(Hour(t), Minute(t));
    assert trigger.time == t by {
      MinuteFieldsOf(MinuteOfDay(t));
    }
    trigger.RepeatIn(1);
  }
}
