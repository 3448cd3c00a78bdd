/**
 The scheduler's circular 1440-minute clock, and what its half-open window
 means on the straight line of absolute minutes.
 */
module Clock {

  const DAY := 1440

  /** A minute of the local day. */
  type Minute = m: int | 0 <= m < 1440

  /** An instant, with the local date and minute of day it falls on. */
  datatype Instant = Instant(secs: int, date: int, minute: Minute)

  /** Minutes from `from` until the clock next shows `at`; a full day when they are equal. */
  function Dist(from: Minute, at: Minute): (d: int)
    ensures 1 <= d <= DAY
    ensures (from + d) % DAY == at
  {
    var d := at - from;
    if d <= 0 then d + DAY else d
  }

  /** The window `(last, now]`, which wraps into two pieces past midnight. */
  predicate InWindow(last: Minute, now: Minute, at: Minute) {
    if now > last then last < at <= now else last < at || at <= now
  }

  /** The branching window test is one comparison of circular distances. */
  lemma WindowIsDistance(last: Minute, now: Minute, at: Minute)
    requires last != now
    ensures InWindow(last, now, at) <==> Dist(last, at) <= Dist(last, now)
  {
  }

  /** How often the clock shows `t` during the absolute minutes `(a, b]`. */
  ghost function Occurrences(a: int, b: int, t: Minute): nat
    decreases b - a
  {
    if b <= a then 0
    else Occurrences(a, b - 1, t) + (if b % DAY == t then 1 else 0)
  }

  /**
   Whether a tick at absolute minute `b`, after one at `a`, has `t` in its window.
   A tick in the minute of the previous one looks at nothing.
   */
  ghost predicate Seen(a: int, b: int, t: Minute) {
    a % DAY != b % DAY && InWindow(a % DAY, b % DAY, t)
  }

  /** The number of ticks of a run that have `t` in their window. */
  ghost function Sightings(ticks: seq<int>, t: Minute): nat {
    if |ticks| < 2 then 0
    else Sightings(ticks[..|ticks| - 1], t) + (if Seen(ticks[|ticks| - 2], ticks[|ticks| - 1], t) then 1 else 0)
  }

  /** Ticks that go forward by less than a day at a time. */
  ghost predicate Forward(ticks: seq<int>) {
    forall i :: 0 < i < |ticks| ==> ticks[i - 1] <= ticks[i] < ticks[i - 1] + DAY
  }

  lemma {:induction false} OccurrencesSplit(a: int, b: int, c: int, t: Minute)
    requires a <= b <= c
    ensures Occurrences(a, c, t) == Occurrences(a, b, t) + Occurrences(b, c, t)
    decreases c - b
  {
    if b < c {
      OccurrencesSplit(a, b, c - 1, t);
    }
  }

  /** A tick less than a day after the previous one sees `t` exactly as often as the clock showed it. */
  lemma {:induction false} OneWindow(a: int, b: int, t: Minute)
    requires a <= b < a + DAY
    ensures Occurrences(a, b, t) == if Seen(a, b, t) then 1 else 0
    decreases b - a
  {
    if a < b {
      OneWindow(a, b - 1, t);
      Elapsed(a, b);
      if a < b - 1 {
        Elapsed(a, b - 1);
      }
    }
  }

  lemma Elapsed(a: int, b: int)
    requires a < b < a + DAY
    ensures a % DAY != b % DAY
    ensures Dist(a % DAY, b % DAY) == b - a
  {
    assert (a % DAY + (b - a)) % DAY == b % DAY;
  }

  /**
   Over a forward run, across any number of midnights, every showing of `t`
   after the first tick and up to the last falls in exactly one tick's window.
   */
  lemma {:induction false} EveryMinuteSeenOnce(ticks: seq<int>, t: Minute)
    requires 0 < |ticks| && Forward(ticks)
    ensures ticks[0] <= ticks[|ticks| - 1]
    ensures Sightings(ticks, t) == Occurrences(ticks[0], ticks[|ticks| - 1], t)
  {
    var n := |ticks|;
    if n >= 2 {
      EveryMinuteSeenOnce(ticks[..n - 1], t);
      OneWindow(ticks[n - 2], ticks[n - 1], t);
      OccurrencesSplit(ticks[0], ticks[n - 2], ticks[n - 1], t);
    }
  }

  /** The forward-by-less-than-a-day condition is exact: a longer pause loses a crossed minute. */
  lemma WindowCompleteIff(a: int, b: int)
    requires a < b
    ensures (forall m :: a < m <= b ==> Seen(a, b, m % DAY)) <==> b - a < DAY
  {
    if b - a < DAY {
      forall m | a < m <= b
        ensures Seen(a, b, m % DAY)
      {
        Elapsed(a, b);
        if m < b {
          Elapsed(a, m);
        }
      }
    } else {
      // The minute of the previous tick comes round again, and is never in the window.
      assert (a + DAY) % DAY == a % DAY;
      assert !Seen(a, b, (a + DAY) % DAY);
    }
  }
}
