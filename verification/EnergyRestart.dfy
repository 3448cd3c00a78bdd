/** What a daemon restart costs the energy account when every save and load succeeds. */
module EnergyRestart {
  import opened Wrappers
  import opened Params
  import opened Energy
  import opened EnergyRuns

  predicate NotAfter(a: Date, b: Date) {
    a.month < b.month || (a.month == b.month && a.day <= b.day)
  }

  predicate Reliable(ev: Event) {
    match ev
    case Tick(_, _, saves) => saves == Saves(true, true, true)
    case Restart(readable, _, _) => readable && OneMonth(ev)
  }

  function DateOf(ev: Event): Date {
    match ev
    case Tick(_, now, _) => now.date
    case Restart(_, forDay, _) => forDay.date
  }

  /** A local date, once left, does not come back. */
  predicate DatesForward(latest: Date, evs: seq<Event>)
    decreases |evs|
  {
    evs == [] || (NotAfter(latest, DateOf(evs[0])) && DatesForward(DateOf(evs[0]), evs[1..]))
  }

  function LatestDate(latest: Date, evs: seq<Event>): Date {
    if evs == [] then latest else DateOf(evs[|evs| - 1])
  }

  /** The counters once the day and month have rolled to `m`. */
  function Rolled(t: Tracker, m: Moment): Counters { RollMonth(RollDay(t, m), m).counters }

  ghost predicate InSync(s: Sys, latest: Date) {
    && (s.tracker.today.Some? ==> NotAfter(s.tracker.today.value, latest))
    && (s.disk.Some? ==>
          && (s.disk.value.today.Some? ==> NotAfter(s.disk.value.today.value, latest))
          && (s.disk.value.monthStart.Some? ==> s.disk.value.monthStart.value <= latest.month))
    && (s.tracker.monthStart.Some? ==> s.tracker.monthStart.value <= latest.month)
    && Matches(s.tracker, s.disk, latest)
  }

  /** From `latest` on, loading the file gives what the tracker's own rollover would. */
  ghost predicate Matches(t: Tracker, disk: Option<Saved>, latest: Date) {
    forall m: Moment :: NotAfter(latest, m.date) ==> Loaded(NEW, disk, m, m).counters == Rolled(t, m)
  }

  /** After a fully saved tick the file is the tracker, unless there was nothing to save. */
  lemma TickSaves(s: Sys, values: Values, now: Moment)
    ensures var u := TickStep(s, values, now, Saves(true, true, true));
            && u.tracker.today == Some(now.date) && u.tracker.monthStart == Some(now.date.month)
            && (u.disk == Some(Snap(u.tracker)) || (u.disk == s.disk && Snap(u.tracker) == Snap(s.tracker)))
  {
    hide Assess;
  }

  lemma SnapMatches(t: Tracker, latest: Date)
    ensures Matches(t, Some(Snap(t)), latest)
  {
  }

  lemma MatchesLater(t: Tracker, u: Tracker, disk: Option<Saved>, latest: Date, later: Date)
    requires Matches(t, disk, latest) && NotAfter(latest, later) && Snap(u) == Snap(t)
    ensures Matches(u, disk, later)
  {
    forall m: Moment | NotAfter(later, m.date)
      ensures Loaded(NEW, disk, m, m).counters == Rolled(u, m)
    {
      assert Rolled(u, m) == Rolled(t, m);
    }
  }

  lemma RestartMatches(s: Sys, latest: Date, ev: Event)
    requires InSync(s, latest) && ev.Restart? && Reliable(ev) && NotAfter(latest, ev.forDay.date)
    ensures InSync(Step(s, ev), ev.forDay.date)
  {
    var u := Step(s, ev);
    forall m: Moment | NotAfter(ev.forDay.date, m.date)
      ensures Loaded(NEW, u.disk, m, m).counters == Rolled(u.tracker, m)
    {
    }
  }

  lemma StepInSync(s: Sys, latest: Date, ev: Event)
    requires InSync(s, latest) && Reliable(ev) && NotAfter(latest, DateOf(ev))
    ensures InSync(Step(s, ev), DateOf(ev))
  {
    hide TickStep, Matches;
    match ev {
      case Tick(values, now, _) =>
        TickSaves(s, values, now);
        var u := Step(s, ev);
        if u.disk == Some(Snap(u.tracker)) {
          SnapMatches(u.tracker, now.date);
        } else {
          MatchesLater(s.tracker, u.tracker, s.disk, latest, now.date);
        }
      case Restart(_, _, _) =>
        RestartMatches(s, latest, ev);
    }
  }

  lemma {:induction false} RunInSync(s: Sys, latest: Date, evs: seq<Event>)
    requires InSync(s, latest) && DatesForward(latest, evs) && forall ev :: ev in evs ==> Reliable(ev)
    ensures InSync(Run(s, evs), LatestDate(latest, evs))
    decreases |evs|
  {
    hide InSync, Step, Reliable;
    if evs == [] {
    } else {
      assert evs[0] in evs;
      StepInSync(s, latest, evs[0]);
      RunInSync(Step(s, evs[0]), DateOf(evs[0]), evs[1..]);
      assert |evs| > 1 ==> evs[1..][|evs| - 2] == evs[|evs| - 1];
    }
  }

  /**
   With every save and load succeeding and dates moving forward, a restart
   changes no counter: loading the file gives exactly what the running tracker
   would hold after rolling over to that moment.
   */
  lemma RestartLosesNothing(clock: real, latest: Date, evs: seq<Event>, m: Moment)
    requires DatesForward(latest, evs) && NotAfter(LatestDate(latest, evs), m.date)
    requires forall ev :: ev in evs ==> Reliable(ev)
    ensures var s := Run(Begin(clock), evs);
            Step(s, Restart(true, m, m)).tracker.counters == Rolled(s.tracker, m)
  {
    RunInSync(Begin(clock), latest, evs);
  }

  // ---- heating minus cooling across restarts ------------------------------------------

  /** Signed power times capped time over a run's ticks; a restart only forgets when the last tick was. */
  function SignedRun(prev: Option<Moment>, evs: seq<Event>): real
    decreases |evs|
  {
    if evs == [] then 0.0
    else
      match evs[0]
      case Tick(values, now, _) => SignedTick(prev, values, now) + SignedRun(Some(now), evs[1..])
      case Restart(_, _, _) => SignedRun(None, evs[1..])
  }

  lemma RestartKeepsLifetime(s: Sys, latest: Date, ev: Event)
    requires InSync(s, latest) && ev.Restart? && Reliable(ev) && NotAfter(latest, ev.forDay.date)
    ensures NetLifetime(Step(s, ev).tracker) == NetLifetime(s.tracker) && LastTickedAt(Step(s, ev).tracker, None)
  {
    var m := ev.forDay;
    assert Loaded(NEW, s.disk, m, ev.forMonth) == Loaded(NEW, s.disk, m, m) || s.disk.None?;
    assert Loaded(NEW, s.disk, m, m).counters == Rolled(s.tracker, m);
  }

  lemma {:induction false} RunNet(s: Sys, latest: Date, prev: Option<Moment>, evs: seq<Event>)
    requires InSync(s, latest) && LastTickedAt(s.tracker, prev)
    requires DatesForward(latest, evs) && forall ev :: ev in evs ==> Reliable(ev)
    ensures NetLifetime(Run(s, evs).tracker) == NetLifetime(s.tracker) + SignedRun(prev, evs)
    decreases |evs|
  {
    hide InSync, TickStep, RestartStep, SignedTick, NetLifetime, LastTickedAt;
    if evs == [] {
      assert Run(s, evs) == s;
    } else {
      var ev := evs[0];
      assert ev in evs;
      StepInSync(s, latest, ev);
      match ev {
        case Tick(values, now, saves) =>
          StepIsTick(s, values, now, saves);
          TickNet(s.tracker, prev, values, now);
          RunNet(Step(s, ev), now.date, Some(now), evs[1..]);
        case Restart(_, forDay, _) =>
          RestartKeepsLifetime(s, latest, ev);
          RunNet(Step(s, ev), forDay.date, None, evs[1..]);
      }
    }
  }

  /**
   With every save and load succeeding and dates moving forward, lifetime
   heating minus cooling is the signed sum of power times capped time over all
   ticks, however often the daemon restarted between them.
   */
  lemma NetSurvivesRestarts(clock: real, latest: Date, evs: seq<Event>)
    requires DatesForward(latest, evs) && forall ev :: ev in evs ==> Reliable(ev)
    ensures NetLifetime(Run(Begin(clock), evs).tracker) == SignedRun(None, evs)
  {
    RunNet(Begin(clock), latest, None, evs);
  }
}
