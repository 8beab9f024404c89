/** Times of day and signed time differences, as chrono's `NaiveTime` and
    `TimeDelta` behave when no leap second is involved.

    A time of day is a count of nanoseconds since midnight; a `TimeDelta` is a
    signed count of nanoseconds. */
module Clock {
  import opened Options

  const NanosPerMilli: int := 1_000_000
  const NanosPerSecond: int := 1_000_000_000
  const NanosPerMinute: int := 60 * NanosPerSecond
  const NanosPerHour: int := 60 * NanosPerMinute
  const NanosPerDay: int := 24 * NanosPerHour

  type TimeOfDay = t: int | 0 <= t < NanosPerDay

  /** Minutes elapsed since midnight (0 .. 1439). */
  function MinuteOfDay(t: TimeOfDay): (m: nat)
    ensures m < 24 * 60
    ensures m * NanosPerMinute <= t < (m + 1) * NanosPerMinute
  {
    t / NanosPerMinute
  }

  /** `Timelike::hour` */
  function Hour(t: TimeOfDay): (h: nat)
    ensures h < 24
  {
    MinuteOfDay(t) / 60
  }

  /** `Timelike::minute` */
  function Minute(t: TimeOfDay): (m: nat)
    ensures m < 60
  {
    MinuteOfDay(t) % 60
  }

  /** `Timelike::second` */
  function Second(t: TimeOfDay): (s: nat)
    ensures s < 60
  {
    (t / NanosPerSecond) % 60
  }

  /** `Timelike::nanosecond` */
  function Nanosecond(t: TimeOfDay): (n: nat)
    ensures n < NanosPerSecond
  {
    t % NanosPerSecond
  }

  /** True when the time has no seconds and no fraction of a second. */
  predicate IsWholeMinute(t: TimeOfDay) {
    t % NanosPerMinute == 0
  }

  /** `NaiveTime::from_hms_opt(hour, minute, second)`: `None` unless every
      field is in range. */
  function FromHms(hour: nat, minute: nat, second: nat): (r: Option<TimeOfDay>)
    ensures r.Some? <==> hour < 24 && minute < 60 && second < 60
    ensures r.Some? ==> Hour(r.value) == hour && Minute(r.value) == minute
                        && Second(r.value) == second && Nanosecond(r.value) == 0
    ensures r.Some? && second == 0 ==> IsWholeMinute(r.value)
  {
    if hour < 24 && minute < 60 && second < 60 then
      var minutes := hour * 60 + minute;
      MinuteFieldsOf(minutes);
      var t := minutes * NanosPerMinute + second * NanosPerSecond;
      assert t / NanosPerMinute == minutes;
      assert t / NanosPerSecond == minutes * 60 + second;
      Some(t)
    else
      None
  }

  /** The hour and minute fields of a time given as minutes since midnight. */
  lemma MinuteFieldsOf(minutes: nat)
    requires minutes < 24 * 60
    ensures Hour(minutes * NanosPerMinute) == minutes / 60
    ensures Minute(minutes * NanosPerMinute) == minutes % 60
    ensures IsWholeMinute(minutes * NanosPerMinute)
  {
  }

  /** Rebuilding a time from its hour and minute gives the whole minute it
      falls in. */
  lemma FromHmsOfFields(t: TimeOfDay)
    ensures FromHms(Hour(t), Minute(t), 0) == Some(MinuteOfDay(t) * NanosPerMinute)
    ensures IsWholeMinute(t) ==> MinuteOfDay(t) * NanosPerMinute == t
  {
    assert Hour(t) * 60 + Minute(t) == MinuteOfDay(t);
  }

  /** `NaiveTime - NaiveTime` (`signed_duration_since`): the signed
      difference, which always lies strictly within one day either way. */
  function Diff(a: TimeOfDay, b: TimeOfDay): (d: int)
    ensures -NanosPerDay < d < NanosPerDay
    ensures a == b + d
  {
    a - b
  }

  /** `NaiveTime + TimeDelta` (`overflowing_add_signed` with the overflow
      dropped): the time of day reached by moving `d` nanoseconds from `t`,
      wrapping around midnight in either direction. */
  function AddDelta(t: TimeOfDay, d: int): (r: TimeOfDay)
    ensures (t + d - r) % NanosPerDay == 0
    ensures 0 <= t + d < NanosPerDay ==> r == t + d
  {
    (t + d) % NanosPerDay
  }

  /** How far ahead `b` next occurs on the clock face, seen from `a`: the
      forward distance, always less than a day. */
  function Until(a: TimeOfDay, b: TimeOfDay): (d: nat)
    ensures d < NanosPerDay
    ensures AddDelta(a, d) == b
    ensures a <= b ==> d == b - a
    ensures b < a ==> d == b - a + NanosPerDay
  {
    (b - a) % NanosPerDay
  }

  /** `TimeDelta::num_milliseconds`: whole milliseconds, truncated toward
      zero (a delta of -0.5 ms has zero milliseconds). */
  function NumMilliseconds(d: int): (ms: int)
    ensures ms < 0 <==> d <= -NanosPerMilli
    ensures ms * NanosPerMilli <= d < (ms + 1) * NanosPerMilli || d < 0
    ensures (ms - 1) * NanosPerMilli < d <= ms * NanosPerMilli || d >= 0
  {
    if d >= 0 then d / NanosPerMilli else -((-d) / NanosPerMilli)
  }

  /** `TimeDelta::abs` */
  function Abs(d: int): (n: nat)
    ensures n == d || n == -d
  {
    if d < 0 then -d else d
  }

  /** `TimeDelta::minutes` and `TimeDelta::hours` as nanoseconds. */
  function Minutes(m: int): int { m * NanosPerMinute }
  function Hours(h: int): int { h * NanosPerHour }
}
