/** Runs of the energy account: ticks, lost saves and daemon restarts, over any number of days. */
module EnergyRuns {
  import opened Wrappers
  import opened Params
  import opened FanCurve
  import opened Energy

  /** Energy booked to days that are over, by kind. */
  datatype Book = Book(heating: real, cooling: real, consumed: real)

  const EMPTY_BOOK := Book(0.0, 0.0, 0.0)

  /**
   The tracker and its state file; beside each, the finals of the days it has
   closed; and the history of ticks and of the clock.
   */
  datatype Sys = Sys(tracker: Tracker, disk: Option<Saved>, closed: Book, closedOnDisk: Book, log: seq<Moment>,
                     clock: real)

  datatype Event =
    | Tick(values: Values, now: Moment, saves: Saves)
    | Restart(readable: bool, forDay: Moment, forMonth: Moment)

  function Close(b: Book, cs: Counters): Book {
    Book(b.heating + cs.heating.today, b.cooling + cs.cooling.today, b.consumed + cs.consumed.today)
  }

  function SaveIf(s: Sys, reaches: bool): Sys {
    if reaches then s.(disk := Some(Snap(s.tracker)), closedOnDisk := s.closed) else s
  }

  function DayPart(s: Sys, now: Moment, saved: bool): Sys {
    if s.tracker.today == Some(now.date) then s
    else SaveIf(s.(tracker := RollDay(s.tracker, now), closed := Close(s.closed, s.tracker.counters)), saved)
  }

  function MonthPart(s: Sys, now: Moment, saved: bool): Sys {
    if s.tracker.monthStart == Some(now.date.month) then s
    else SaveIf(s.(tracker := RollMonth(s.tracker, now)), saved)
  }

  function AccruePart(s: Sys, values: Values, now: Moment, saved: bool): Sys {
    SaveIf(s.(tracker := Accrue(s.tracker, values, now), log := s.log + [now], clock := now.secs),
           saved && Accrues(s.tracker, values, now))
  }

  function TickStep(s: Sys, values: Values, now: Moment, saves: Saves): Sys {
    AccruePart(MonthPart(DayPart(s, now, saves.day), now, saves.month), values, now, saves.end)
  }

  /** A restart forgets what was not saved; a day that is over by then closes. */
  function RestartStep(s: Sys, readable: bool, forDay: Moment, forMonth: Moment): Sys {
    var file := if readable then s.disk else None;
    var closed := if file.None? then EMPTY_BOOK
                  else if file.value.today == Some(forDay.date) then s.closedOnDisk
                  else Close(s.closedOnDisk, file.value.counters);
    s.(tracker := Loaded(NEW, file, forDay, forMonth), closed := closed, clock := forMonth.secs)
  }

  function Step(s: Sys, ev: Event): Sys {
    match ev
    case Tick(values, now, saves) => TickStep(s, values, now, saves)
    case Restart(readable, forDay, forMonth) => RestartStep(s, readable, forDay, forMonth)
  }

  function Run(s: Sys, evs: seq<Event>): Sys
    decreases |evs|
  {
    if evs == [] then s else Run(Step(s, evs[0]), evs[1..])
  }

  /** Before the first start: no state file. */
  function Begin(clock: real): Sys { Sys(NEW, None, EMPTY_BOOK, EMPTY_BOOK, [], clock) }

  /** A step's tracker and state file are those of the tracker's own tick. */
  lemma StepIsTick(s: Sys, values: Values, now: Moment, saves: Saves)
    ensures TickStep(s, values, now, saves).tracker == Ticked(s.tracker, values, now)
    ensures TickStep(s, values, now, saves).disk == TickedDisk(s.tracker, s.disk, values, now, saves)
  {
    hide Accrue, Accrues;
  }

  // ---- energy arithmetic -----------------------------------------------------------------------------

  lemma KwhOrder(w: real, top: real, dt: real)
    requires 0.0 <= w <= top && 0.0 <= dt
    ensures 0.0 <= KilowattHours(w, dt) <= KilowattHours(top, dt)
  {
    assert 0.0 <= w * dt && 0.0 <= (top - w) * dt;
  }

  lemma KwhAdds(w: real, a: real, b: real)
    ensures KilowattHours(w, a) + KilowattHours(w, b) == KilowattHours(w, a + b)
    ensures KilowattHours(-w, a) == -KilowattHours(w, a)
    ensures KilowattHours(w, 0.0) == 0.0
  {
    assert w * a + w * b == w * (a + b);
  }

  // ---- nested horizons ---------------------------------------------------------------------------------

  predicate Nested(c: Counter) { 0.0 <= c.today <= c.month <= c.lifetime }

  predicate AllNested(cs: Counters) { Nested(cs.heating) && Nested(cs.cooling) && Nested(cs.consumed) }

  predicate NoneToday(cs: Counters) { cs.heating.today == cs.cooling.today == cs.consumed.today == 0.0 }

  /** Nested, and the month counters belong to the month of the day counters unless those are zero. */
  predicate Tidy(cs: Counters, today: Option<Date>, monthStart: Option<int>) {
    AllNested(cs) && (NoneToday(cs) || (today.Some? && monthStart == Some(today.value.month)))
  }

  predicate TidySaved(p: Option<Saved>) { p.Some? ==> Tidy(p.value.counters, p.value.today, p.value.monthStart) }

  predicate TidySys(s: Sys) { Tidy(s.tracker.counters, s.tracker.today, s.tracker.monthStart) && TidySaved(s.disk) }

  /** The two clock readings of a load fall in one month. */
  predicate OneMonth(ev: Event) { ev.Restart? ==> ev.forDay.date.month == ev.forMonth.date.month }

  lemma CreditNested(cs: Counters, w: real, c: real, seconds: real)
    requires AllNested(cs) && 0.0 <= c && 0.0 <= seconds
    ensures AllNested(Credit(cs, w, c, seconds))
  {
    hide KilowattHours;
    var up := if w < 0.0 then -w else w;
    KwhOrder(up, up, seconds);
    KwhOrder(c, c, seconds);
  }

  lemma AccrueTidy(t: Tracker, values: Values, now: Moment)
    requires AllNested(t.counters)
    ensures AllNested(Accrue(t, values, now).counters)
  {
    hide Assess, Credit;
    if Accrues(t, values, now) {
      ConsumedBounded(values);
      CreditNested(t.counters, Assess(values).recovered, Assess(values).consumed, Interval(t.lastTick, now.secs));
    }
  }

  lemma TickTidy(s: Sys, values: Values, now: Moment, saves: Saves)
    requires TidySys(s)
    ensures TidySys(TickStep(s, values, now, saves))
  {
    hide Accrue, Accrues;
    var s1 := DayPart(s, now, saves.day);
    assert TidySys(s1) && s1.tracker.today == Some(now.date);
    var s2 := MonthPart(s1, now, saves.month);
    assert TidySys(s2) && s2.tracker.today == Some(now.date) && s2.tracker.monthStart == Some(now.date.month);
    AccrueTidy(s2.tracker, values, now);
    AccrueKeepsDates(s2.tracker, values, now);
  }

  lemma AccrueKeepsDates(t: Tracker, values: Values, now: Moment)
    ensures var u := Accrue(t, values, now);
            u.today == t.today && u.monthStart == t.monthStart && u.lastTick == Some(now.secs)
  {
  }

  lemma RestartTidy(s: Sys, ev: Event)
    requires TidySys(s) && ev.Restart? && OneMonth(ev)
    ensures TidySys(Step(s, ev))
  {
  }

  lemma {:induction false} RunTidy(s: Sys, evs: seq<Event>)
    requires TidySys(s) && forall ev :: ev in evs ==> OneMonth(ev)
    ensures TidySys(Run(s, evs))
    decreases |evs|
  {
    hide TidySys, OneMonth;
    if evs == [] {
    } else {
      assert evs[0] in evs;
      if evs[0].Tick? {
        TickTidy(s, evs[0].values, evs[0].now, evs[0].saves);
      } else {
        RestartTidy(s, evs[0]);
      }
      RunTidy(Step(s, evs[0]), evs[1..]);
    }
  }

  /**
   For heating, cooling and consumed alike, 0 <= today <= month <= lifetime
   after every run of ticks, lost saves and restarts whose loads read the clock
   twice within one month; the clock may otherwise do as it likes.
   */
  lemma HorizonsNest(clock: real, evs: seq<Event>)
    requires forall ev :: ev in evs ==> OneMonth(ev)
    ensures AllNested(Run(Begin(clock), evs).tracker.counters)
  {
    RunTidy(Begin(clock), evs);
  }

  /** A load keeps the horizons nested exactly when it does not restore a day without that day's month. */
  lemma LoadKeepsNestingIff(p: Saved, forDay: Moment, forMonth: Moment)
    requires Tidy(p.counters, p.today, p.monthStart)
    ensures AllNested(Loaded(NEW, Some(p), forDay, forMonth).counters) <==>
            p.today != Some(forDay.date) || p.monthStart == Some(forMonth.date.month) || NoneToday(p.counters)
  {
  }

  /** The load at `ev`, if it reads a file, does not restore a day without that day's month. */
  predicate LoadNests(s: Sys, ev: Event) {
    ev.Restart? && ev.readable && s.disk.Some? ==>
      (s.disk.value.today != Some(ev.forDay.date) || s.disk.value.monthStart == Some(ev.forMonth.date.month)
       || NoneToday(s.disk.value.counters))
  }

  predicate LoadsNest(s: Sys, evs: seq<Event>)
    decreases |evs|
  {
    evs == [] || (LoadNests(s, evs[0]) && LoadsNest(Step(s, evs[0]), evs[1..]))
  }

  predicate AlwaysNested(s: Sys, evs: seq<Event>)
    decreases |evs|
  {
    AllNested(s.tracker.counters) && (evs != [] ==> AlwaysNested(Step(s, evs[0]), evs[1..]))
  }

  lemma RestartNestsIff(s: Sys, ev: Event)
    requires TidySys(s) && ev.Restart?
    ensures LoadNests(s, ev) ==> TidySys(Step(s, ev))
    ensures AllNested(Step(s, ev).tracker.counters) ==> LoadNests(s, ev)
  {
  }

  /** Over any run and any clock the horizons stay nested exactly when each load in it keeps them so. */
  lemma {:induction false} HorizonsNestIff(s: Sys, evs: seq<Event>)
    requires TidySys(s)
    ensures AlwaysNested(s, evs) <==> LoadsNest(s, evs)
    decreases |evs|
  {
    hide LoadNests, Step, AllNested;
    if evs == [] {
      assert AllNested(s.tracker.counters);
    } else {
      var ev := evs[0];
      if ev.Tick? {
        TickTidy(s, ev.values, ev.now, ev.saves);
        StepIs(s, ev);
      } else {
        RestartNestsIff(s, ev);
      }
      if TidySys(Step(s, ev)) {
        HorizonsNestIff(Step(s, ev), evs[1..]);
      }
    }
  }

  lemma StepIs(s: Sys, ev: Event)
    requires ev.Tick?
    ensures Step(s, ev) == TickStep(s, ev.values, ev.now, ev.saves) && LoadNests(s, ev)
  {
  }

  /** A load whose two clock readings straddle a month's end breaks the nesting. */
  lemma LoadAcrossMonthEnd(p: Saved, forDay: Moment, forMonth: Moment)
    requires Tidy(p.counters, p.today, p.monthStart) && p.today == Some(forDay.date) && !NoneToday(p.counters)
    requires forMonth.date.month != forDay.date.month
    ensures !AllNested(Loaded(NEW, Some(p), forDay, forMonth).counters)
  {
  }

  // ---- lifetime is the sum of days ---------------------------------------------------------------------

  predicate Booked(cs: Counters, b: Book) {
    && cs.heating.lifetime == b.heating + cs.heating.today
    && cs.cooling.lifetime == b.cooling + cs.cooling.today
    && cs.consumed.lifetime == b.consumed + cs.consumed.today
  }

  predicate Balanced(s: Sys) {
    Booked(s.tracker.counters, s.closed) && (s.disk.Some? ==> Booked(s.disk.value.counters, s.closedOnDisk))
  }

  lemma AccrueBooked(t: Tracker, values: Values, now: Moment, b: Book)
    requires Booked(t.counters, b)
    ensures Booked(Accrue(t, values, now).counters, b)
  {
    hide Assess, KilowattHours, Interval;
  }

  lemma StepBalanced(s: Sys, ev: Event)
    requires Balanced(s)
    ensures Balanced(Step(s, ev))
  {
    hide Accrue, Accrues;
    if ev.Tick? {
      var s1 := DayPart(s, ev.now, ev.saves.day);
      assert Balanced(s1);
      var s2 := MonthPart(s1, ev.now, ev.saves.month);
      assert Balanced(s2);
      AccrueBooked(s2.tracker, ev.values, ev.now, s2.closed);
    }
  }

  lemma {:induction false} RunBalanced(s: Sys, evs: seq<Event>)
    requires Balanced(s)
    ensures Balanced(Run(s, evs))
    decreases |evs|
  {
    hide Balanced;
    if evs == [] {
    } else {
      StepBalanced(s, evs[0]);
      RunBalanced(Step(s, evs[0]), evs[1..]);
    }
  }

  /**
   Lifetime is what the closed days ended with plus what today has, for every
   kind, after every run: no energy is lost or counted twice at a rollover.
   */
  lemma LifetimeIsSumOfDays(clock: real, evs: seq<Event>)
    ensures var s := Run(Begin(clock), evs); Booked(s.tracker.counters, s.closed)
  {
    RunBalanced(Begin(clock), evs);
  }

  // ---- today's consumption is bounded by the day so far ----------------------------------------------------

  /** The time of the first tick on a date. */
  function FirstOn(log: seq<Moment>, date: Date): Option<real>
    decreases |log|
  {
    if log == [] then None
    else
      var n := |log| - 1;
      var before := FirstOn(log[..n], date);
      if before.Some? then before else if log[n].date == date then Some(log[n].secs) else None
  }

  /** Each event happens no earlier than the one before it. */
  predicate Forward(clock: real, evs: seq<Event>)
    decreases |evs|
  {
    evs == [] ||
    match evs[0]
    case Tick(_, now, _) => clock <= now.secs && Forward(now.secs, evs[1..])
    case Restart(_, forDay, forMonth) => clock <= forDay.secs <= forMonth.secs && Forward(forMonth.secs, evs[1..])
  }

  /** Nothing, or no more than both fans at top draw since the first tick on that date. */
  predicate Within(used: real, today: Option<Date>, log: seq<Moment>, clock: real) {
    used == 0.0 || (today.Some? && FirstOn(log, today.value).Some? && FirstOn(log, today.value).value <= clock
                    && used <= KilowattHours(2.0 * TOP_DRAW, clock - FirstOn(log, today.value).value))
  }

  ghost predicate FirstsPast(log: seq<Moment>, clock: real) {
    forall date :: FirstOn(log, date).Some? ==> FirstOn(log, date).value <= clock
  }

  ghost predicate Modest(s: Sys) {
    && Within(s.tracker.counters.consumed.today, s.tracker.today, s.log, s.clock)
    && (s.disk.Some? ==> Within(s.disk.value.counters.consumed.today, s.disk.value.today, s.log, s.clock))
    && (s.tracker.lastTick.Some? ==>
          s.tracker.lastTick.value == s.clock && s.tracker.today.Some? && FirstOn(s.log, s.tracker.today.value).Some?)
    && FirstsPast(s.log, s.clock)
  }

  lemma WithinLater(used: real, today: Option<Date>, log: seq<Moment>, clock: real, later: real)
    requires Within(used, today, log, clock) && clock <= later
    ensures Within(used, today, log, later)
  {
    hide KilowattHours;
    if used != 0.0 {
      var first := FirstOn(log, today.value).value;
      KwhOrder(2.0 * TOP_DRAW, 2.0 * TOP_DRAW, later - clock);
      KwhAdds(2.0 * TOP_DRAW, clock - first, later - clock);
      assert (clock - first) + (later - clock) == later - first;
    }
  }

  lemma WithinLogged(used: real, today: Option<Date>, log: seq<Moment>, clock: real, now: Moment)
    requires Within(used, today, log, clock) && clock <= now.secs
    ensures Within(used, today, log + [now], now.secs)
    ensures forall date ::
              FirstOn(log + [now], date) == (if FirstOn(log, date).Some? then FirstOn(log, date)
                                             else if now.date == date then Some(now.secs) else None)
  {
    assert (log + [now])[..|log|] == log;
    WithinLater(used, today, log, clock, now.secs);
  }

  /** What one tick adds to today's consumption fits in the time since the last tick. */
  lemma AccrueWithin(t: Tracker, values: Values, now: Moment, log: seq<Moment>, clock: real)
    requires clock <= now.secs && t.today.Some?
    requires Within(t.counters.consumed.today, t.today, log, clock)
    requires t.lastTick.Some? ==>
               (t.lastTick.value == clock && FirstOn(log, t.today.value).Some?
                && FirstOn(log, t.today.value).value <= clock)
    ensures Within(Accrue(t, values, now).counters.consumed.today, t.today, log, now.secs)
  {
    hide Assess, KilowattHours, FirstOn;
    if Accrues(t, values, now) {
      var top, dt := 2.0 * TOP_DRAW, Interval(t.lastTick, now.secs);
      var first := FirstOn(log, t.today.value).value;
      ConsumedBounded(values);
      KwhOrder(Assess(values).consumed, top, dt);
      KwhAdds(top, dt, now.secs - clock - dt);
      KwhOrder(top, top, now.secs - clock - dt);
      KwhOrder(top, top, clock - first);
      KwhAdds(top, clock - first, now.secs - clock);
      assert (clock - first) + (now.secs - clock) == now.secs - first;
      assert dt + (now.secs - clock - dt) == now.secs - clock;
    } else {
      WithinLater(t.counters.consumed.today, t.today, log, clock, now.secs);
    }
  }

  lemma RollModest(s: Sys, now: Moment, saves: Saves)
    requires Modest(s)
    ensures var u := MonthPart(DayPart(s, now, saves.day), now, saves.month);
            Modest(u) && u.tracker.today == Some(now.date) && u.log == s.log && u.clock == s.clock
  {
    hide FirstOn, KilowattHours;
    var s1 := DayPart(s, now, saves.day);
    assert Modest(s1);
  }

  lemma AccrueModest(s: Sys, values: Values, now: Moment, saved: bool)
    requires Modest(s) && s.clock <= now.secs && s.tracker.today == Some(now.date)
    ensures Modest(AccruePart(s, values, now, saved))
  {
    hide FirstOn, Accrue, Accrues, Within;
    var t := s.tracker;
    var u := Accrue(t, values, now);
    AccrueKeepsDates(t, values, now);
    AccrueWithin(t, values, now, s.log, s.clock);
    WithinLogged(u.counters.consumed.today, t.today, s.log, now.secs, now);
    if s.disk.Some? {
      WithinLogged(s.disk.value.counters.consumed.today, s.disk.value.today, s.log, s.clock, now);
    }
  }

  lemma RestartModest(s: Sys, ev: Event)
    requires Modest(s) && ev.Restart? && s.clock <= ev.forMonth.secs
    ensures Modest(Step(s, ev))
  {
    hide FirstOn, KilowattHours;
    if s.disk.Some? {
      var p := s.disk.value;
      WithinLater(p.counters.consumed.today, p.today, s.log, s.clock, ev.forMonth.secs);
      WithinLater(0.0, Some(ev.forDay.date), s.log, s.clock, ev.forMonth.secs);
    }
  }

  lemma {:induction false} RunModest(s: Sys, evs: seq<Event>)
    requires Modest(s) && Forward(s.clock, evs)
    ensures Modest(Run(s, evs))
    decreases |evs|
  {
    hide Modest, Accrue, Loaded;
    if evs == [] {
    } else {
      match evs[0] {
        case Tick(values, now, saves) =>
          RollModest(s, now, saves);
          AccrueModest(MonthPart(DayPart(s, now, saves.day), now, saves.month), values, now, saves.end);
        case Restart(_, _, _) =>
          RestartModest(s, evs[0]);
      }
      RunModest(Step(s, evs[0]), evs[1..]);
    }
  }

  /**
   On a clock that never runs backwards, today's consumption is at most twice
   the top fan draw over the time since the day's first tick, restarts included.
   */
  lemma ConsumedTodayBounded(clock: real, evs: seq<Event>)
    requires Forward(clock, evs)
    ensures var s := Run(Begin(clock), evs);
            s.tracker.counters.consumed.today > 0.0 ==>
              && s.tracker.today.Some? && FirstOn(s.log, s.tracker.today.value).Some?
              && s.tracker.counters.consumed.today
                 <= KilowattHours(2.0 * TOP_DRAW, s.clock - FirstOn(s.log, s.tracker.today.value).value)
  {
    RunModest(Begin(clock), evs);
  }

  // ---- what one tick may claim -------------------------------------------------------------------------

  /**
   However long the pause before it, one tick claims at most five minutes of
   both fans at top draw; and a tick that starts a day or follows a load claims
   nothing of any kind.
   */
  lemma TickClaimIsCapped(t: Tracker, values: Values, now: Moment)
    ensures var u := Ticked(t, values, now);
            && 0.0 <= u.counters.consumed.lifetime - t.counters.consumed.lifetime
                   <= KilowattHours(2.0 * TOP_DRAW, DT_CAP)
            && (t.lastTick.None? || t.today != Some(now.date) ==>
                  && u.counters.heating.lifetime == t.counters.heating.lifetime
                  && u.counters.cooling.lifetime == t.counters.cooling.lifetime
                  && u.counters.consumed.lifetime == t.counters.consumed.lifetime)
  {
    hide Assess, KilowattHours;
    var v := RollMonth(RollDay(t, now), now);
    var top, dt := 2.0 * TOP_DRAW, Interval(v.lastTick, now.secs);
    KwhOrder(top, top, DT_CAP);
    if Accrues(v, values, now) {
      ConsumedBounded(values);
      KwhOrder(Assess(values).consumed, top, dt);
      KwhOrder(top, top, DT_CAP - dt);
      KwhAdds(top, dt, DT_CAP - dt);
    }
  }

  // ---- heating minus cooling is the signed sum of power --------------------------------------------------------

  datatype Poll = Poll(values: Values, now: Moment)

  function TickAll(t: Tracker, polls: seq<Poll>): Tracker
    decreases |polls|
  {
    if polls == [] then t else TickAll(Ticked(t, polls[0].values, polls[0].now), polls[1..])
  }

  /** Signed power times the time since the tick before, at most five minutes, if that tick was on the same date. */
  function SignedTick(prev: Option<Moment>, values: Values, now: Moment): real {
    if prev.None? || prev.value.date != now.date || now.secs < prev.value.secs || !Assess(values).Regenerating? then 0.0
    else
      var seconds := now.secs - prev.value.secs;
      Assess(values).recovered * (if seconds <= 300.0 then seconds else 300.0) / 3600000.0
  }

  function SignedSum(prev: Option<Moment>, polls: seq<Poll>): real
    decreases |polls|
  {
    if polls == [] then 0.0
    else SignedTick(prev, polls[0].values, polls[0].now) + SignedSum(Some(polls[0].now), polls[1..])
  }

  function NetLifetime(t: Tracker): real { t.counters.heating.lifetime - t.counters.cooling.lifetime }

  /** The tracker last ticked at `prev`, or has yet to tick. */
  predicate LastTickedAt(t: Tracker, prev: Option<Moment>) {
    match prev
    case None => t.lastTick.None?
    case Some(m) => t.lastTick == Some(m.secs) && t.today == Some(m.date)
  }

  lemma TickNet(t: Tracker, prev: Option<Moment>, values: Values, now: Moment)
    requires LastTickedAt(t, prev)
    ensures NetLifetime(Ticked(t, values, now)) == NetLifetime(t) + SignedTick(prev, values, now)
    ensures LastTickedAt(Ticked(t, values, now), Some(now))
  {
    hide Assess, Ticked;
    if Assess(values).Regenerating? {
      TickGain(t, values, now, Assess(values).recovered, Assess(values).consumed);
    } else {
      TickWithoutPower(t, values, now);
    }
  }

  /** Heating minus cooling gains exactly the signed sum of power times capped time, over any ticks and any clock. */
  lemma {:induction false} NetIsSignedSum(t: Tracker, prev: Option<Moment>, polls: seq<Poll>)
    requires LastTickedAt(t, prev)
    ensures NetLifetime(TickAll(t, polls)) - NetLifetime(t) == SignedSum(prev, polls)
    decreases |polls|
  {
    hide Ticked, SignedTick, LastTickedAt, NetLifetime;
    if polls == [] {
      assert TickAll(t, polls) == t;
    } else {
      var p := polls[0];
      TickNet(t, prev, p.values, p.now);
      NetIsSignedSum(Ticked(t, p.values, p.now), Some(p.now), polls[1..]);
    }
  }
}
