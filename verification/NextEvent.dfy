/** The dashboard's "next event" indicator, and its agreement with the ticks. */
module NextEvent {
  import opened Wrappers
  import opened Clock
  import opened Schedule

  /** `at` is the time of an entry, and no entry's time comes round sooner. */
  ghost predicate IsNext(entries: seq<Entry>, now: Minute, at: Minute) {
    && (exists i :: 0 <= i < |entries| && entries[i].at == at)
    && (forall i :: 0 <= i < |entries| ==> Dist(now, at) <= Dist(now, entries[i].at))
  }

  /** The next entry strictly after `now`, else the earliest (tomorrow's first). */
  method NextScheduleEvent(entries: seq<Entry>, now: Minute) returns (next: Option<Minute>)
    ensures next.None? <==> entries == []
    ensures next.Some? ==> IsNext(entries, now, next.value)
  {
    if entries == [] {
      return None;
    }
    var nextAfter: int, earliest: int := -1, 1440;
    for i := 0 to |entries|
      invariant nextAfter == -1 || exists k :: 0 <= k < i && entries[k].at == nextAfter
      invariant nextAfter == -1 || now < nextAfter
      invariant forall k :: 0 <= k < i && now < entries[k].at ==> nextAfter != -1 && nextAfter <= entries[k].at
      invariant i == 0 ==> earliest == 1440
      invariant i > 0 ==> exists k :: 0 <= k < i && entries[k].at == earliest
      invariant forall k :: 0 <= k < i ==> earliest <= entries[k].at
      invariant earliest <= 1440
    {
      if entries[i].at > now && (nextAfter == -1 || entries[i].at < nextAfter) {
        nextAfter := entries[i].at;
      }
      if entries[i].at < earliest {
        earliest := entries[i].at;
      }
    }
    if nextAfter != -1 {
      return Some(nextAfter);
    }
    return Some(earliest);
  }

  /** Nobody else calls in, and the fire gets through. */
  const QUIET := Env([], [], [], [], Succeeded, true)

  /** The state after the first `n` ticks of `clock`. */
  function Ticked(s: State, clock: seq<Instant>, n: nat): State
    requires n <= |clock|
  {
    if n == 0 then s else Tick(Ticked(s, clock, n - 1), clock[n - 1], QUIET)
  }

  /** A clock that ticks on every minute after `from`. */
  ghost predicate MinuteByMinute(from: Minute, clock: seq<Instant>) {
    forall i :: 0 <= i < |clock| ==> clock[i].minute == (from + i + 1) % DAY
  }

  lemma OneMinuteWindow(last: Minute, now: Minute, at: Minute)
    requires now == (last + 1) % DAY
    ensures InWindow(last, now, at) <==> at == now
  {
  }

  lemma IdleTick(s: State, now: Instant)
    requires s.enabled && s.haveLastTick && s.retry.None? && now.minute == (s.lastTick + 1) % DAY
    requires forall i :: 0 <= i < |s.entries| ==> s.entries[i].at != now.minute
    ensures Tick(s, now, QUIET) == s.(lastTick := now.minute)
  {
    forall i | 0 <= i < |s.entries|
      ensures !Eligible(s.entries[i], s.lastTick, now, s.firedAt)
    {
      OneMinuteWindow(s.lastTick, now.minute, s.entries[i].at);
    }
  }

  lemma FiringTick(s: State, now: Instant, i: nat)
    requires s.enabled && s.haveLastTick && s.retry.None? && now.minute == (s.lastTick + 1) % DAY
    requires i < |s.entries| && s.entries[i].at == now.minute
    requires now.minute in s.firedAt ==> s.firedAt[now.minute].date != now.date
    ensures var t := Tick(s, now, QUIET);
            && t.history == s.history + [Fire(now.minute, now)] && t.retry.None? && t.entries == s.entries
            && t.firedAt == s.firedAt[now.minute := now]
  {
    OneMinuteWindow(s.lastTick, now.minute, s.entries[i].at);
    assert Eligible(s.entries[i], s.lastTick, now, s.firedAt);
    var pick := Latest(s.entries, s.lastTick, now, s.firedAt).value;
    OneMinuteWindow(s.lastTick, now.minute, s.entries[pick].at);
  }

  /** Until the indicated time comes round, no minute tick does more than advance. */
  lemma {:induction false} NothingBeforeNext(s: State, clock: seq<Instant>, next: Minute, n: nat)
    requires s.enabled && s.haveLastTick && s.retry.None? && IsNext(s.entries, s.lastTick, next)
    requires n < Dist(s.lastTick, next) && n <= |clock| && MinuteByMinute(s.lastTick, clock)
    ensures Ticked(s, clock, n) == s.(lastTick := (s.lastTick + n) % DAY)
  {
    hide Tick, IsNext, Dist;
    if n == 0 {
      assert s.lastTick % DAY == s.lastTick;
    } else {
      NothingBeforeNext(s, clock, next, n - 1);
      NextMinute(s.lastTick, n - 1);
      NoneSooner(s.entries, s.lastTick, next, n);
      IdleTick(s.(lastTick := (s.lastTick + n - 1) % DAY), clock[n - 1]);
    }
  }

  /** No entry's time comes round before the next one. */
  lemma NoneSooner(entries: seq<Entry>, now: Minute, next: Minute, n: nat)
    requires IsNext(entries, now, next) && 1 <= n < Dist(now, next)
    ensures forall i :: 0 <= i < |entries| ==> entries[i].at != (now + n) % DAY
  {
    DistIs(now, n);
  }

  lemma DistIs(from: Minute, n: nat)
    requires 1 <= n <= DAY
    ensures Dist(from, (from + n) % DAY) == n
  {
  }

  /**
   The indicator and the scheduler agree: ticking minute by minute, the first
   fire is for the indicated time, on the tick at which it comes round.
   */
  lemma IndicatedEventFiresFirst(s: State, clock: seq<Instant>, next: Minute)
    requires s.enabled && s.haveLastTick && s.retry.None?
    requires IsNext(s.entries, s.lastTick, next)
    requires |clock| == Dist(s.lastTick, next) && MinuteByMinute(s.lastTick, clock)
    requires next in s.firedAt ==> s.firedAt[next].date != clock[|clock| - 1].date
    ensures forall n :: 0 <= n < |clock| ==> Ticked(s, clock, n).history == s.history
    ensures Ticked(s, clock, |clock|).history == s.history + [Fire(next, clock[|clock| - 1])]
  {
    hide Tick, IsNext, Ticked;
    forall n | 0 <= n < |clock|
      ensures Ticked(s, clock, n).history == s.history
    {
      NothingBeforeNext(s, clock, next, n);
    }
    LastMinute(s, clock, next);
  }

  lemma LastMinute(s: State, clock: seq<Instant>, next: Minute)
    requires s.enabled && s.haveLastTick && s.retry.None?
    requires IsNext(s.entries, s.lastTick, next)
    requires |clock| == Dist(s.lastTick, next) && MinuteByMinute(s.lastTick, clock)
    requires next in s.firedAt ==> s.firedAt[next].date != clock[|clock| - 1].date
    ensures Ticked(s, clock, |clock|).history == s.history + [Fire(next, clock[|clock| - 1])]
  {
    hide Tick, Dist;
    var n := |clock| - 1;
    NothingBeforeNext(s, clock, next, n);
    NextMinute(s.lastTick, n);
    var i :| 0 <= i < |s.entries| && s.entries[i].at == next;
    FiringTick(s.(lastTick := (s.lastTick + n) % DAY), clock[n], i);
  }

  lemma NextMinute(from: Minute, n: nat)
    ensures ((from + n) % DAY + 1) % DAY == (from + n + 1) % DAY
  {
  }
}
