/** Quiet hours: the daily local window, possibly over midnight, in which business-initiated sending is
    forbidden, and the earliest moment outside it.  Moments are microseconds; the business timezone is a
    fixed offset from them. */
module QuietHours {

  const MINUTE: int := 60_000_000
  const DAY: int := 1440 * MINUTE

  /** The configured window; start and end are minutes after local midnight. */
  datatype Window = Window(enabled: bool, start: int, end: int)

  predicate ValidWindow(q: Window) { 0 <= q.start < 1440 && 0 <= q.end < 1440 }

  function TimeOfDay(moment: int, offset: int): int { (moment + offset) % DAY }

  predicate IsWithinQuietHours(moment: int, offset: int, q: Window) {
    if !q.enabled then false
    else
      var t, start, end := TimeOfDay(moment, offset), q.start * MINUTE, q.end * MINUTE;
      if start == end then false
      else if start < end then start <= t < end
      else t >= start || t < end
  }

  function NextAllowedSendTime(moment: int, offset: int, q: Window): int {
    if !IsWithinQuietHours(moment, offset, q) then moment
    else
      var local := moment + offset;
      var candidate := local - TimeOfDay(moment, offset) + q.end * MINUTE;
      (if candidate <= local then candidate + DAY else candidate) - offset
  }

  /** The clock shows local time, which is ahead of the moment by the offset, and starts again every day. */
  lemma ClockReadsLocalTime(day: int, time: int, offset: int)
    requires 0 <= time < DAY
    ensures TimeOfDay(day * DAY + time - offset, offset) == time
  {
    Residue(day * DAY + time, day, time);
  }

  /** One definition for both kinds of window: the time since the window last opened is less than the
      window's length around the clock. */
  lemma QuietIsARotation(moment: int, offset: int, q: Window)
    requires ValidWindow(q)
    ensures IsWithinQuietHours(moment, offset, q) <==>
      q.enabled && q.start != q.end &&
      (TimeOfDay(moment, offset) - q.start * MINUTE) % DAY < (q.end * MINUTE - q.start * MINUTE) % DAY
  {
    var t, start, end := TimeOfDay(moment, offset), q.start * MINUTE, q.end * MINUTE;
    Wrap(t - start);
    Wrap(end - start);
  }

  lemma Wrap(d: int)
    requires -DAY < d < DAY
    ensures d % DAY == if d < 0 then d + DAY else d
  {
  }

  /** Moving forward by less than a day moves the clock forward, possibly past midnight once. */
  lemma ClockAdvances(moment: int, offset: int, later: int)
    requires moment <= later <= moment + DAY
    ensures var t, d := TimeOfDay(moment, offset), later - moment;
            TimeOfDay(later, offset) == if t + d >= 2 * DAY then t + d - 2 * DAY
                                        else if t + d >= DAY then t + d - DAY else t + d
  {
    var local, d := moment + offset, later - moment;
    assert local == local / DAY * DAY + local % DAY;
    var t := local % DAY;
    var days := local / DAY;
    var k := if t + d >= 2 * DAY then 2 else if t + d >= DAY then 1 else 0;
    Residue(local + d, days + k, t + d - k * DAY);
  }

  lemma Residue(n: int, quotient: int, r: int)
    requires n == quotient * DAY + r && 0 <= r < DAY
    ensures n % DAY == r
  {
  }

  /** The returned moment is the earliest one, at or after the given one, outside quiet hours. */
  lemma EarliestAllowed(moment: int, offset: int, q: Window)
    requires ValidWindow(q)
    ensures var next := NextAllowedSendTime(moment, offset, q);
            && moment <= next <= moment + DAY
            && !IsWithinQuietHours(next, offset, q)
            && forall x | moment <= x < next :: IsWithinQuietHours(x, offset, q)
  {
    var next := NextAllowedSendTime(moment, offset, q);
    if IsWithinQuietHours(moment, offset, q) {
      var t := TimeOfDay(moment, offset);
      assert 0 <= t < DAY;
      ClockAdvances(moment, offset, next);
      forall x | moment <= x < next ensures IsWithinQuietHours(x, offset, q) {
        ClockAdvances(moment, offset, x);
      }
    }
  }

  /** Sending at the returned moment needs no further postponement. */
  lemma PostponingOnceIsEnough(moment: int, offset: int, q: Window)
    requires ValidWindow(q)
    ensures var next := NextAllowedSendTime(moment, offset, q);
            NextAllowedSendTime(next, offset, q) == next
  {
    EarliestAllowed(moment, offset, q);
  }
}
