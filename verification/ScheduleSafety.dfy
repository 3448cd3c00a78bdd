/** Exactly when a schedule, a replacement or a restart can fire a time twice on one local date. */
module ScheduleSafety {
  import opened Wrappers
  import opened Clock
  import opened Schedule
  import opened ScheduleRuns
  import opened NextEvent

  /** No orderly run from `s`, starting on `date`, fires a time twice on one local date. */
  ghost predicate Safe(s: State, date: int) {
    forall evs :: Orderly(s, date, evs) ==> AtMostOnce(Run(s, evs).history)
  }

  // ---- making an entry fire ------------------------------------------------------

  /** Switch off, tick the minute before, switch on, tick: only the entry at `at` fires. */
  function FireEvents(at: Minute, date: int): seq<Event> {
    [Call(SetEnabled(false, false)), TickAt(Instant(0, date, (at + DAY - 1) % DAY), QUIET),
     Call(SetEnabled(true, false)), TickAt(Instant(60, date, at), QUIET)]
  }

  function AfterFire(s: State, at: Minute, date: int): State { Run(s, FireEvents(at, date)) }

  lemma OffTick(s: State, now: Instant)
    requires !s.enabled
    ensures Tick(s, now, QUIET) == s.(lastTick := now.minute, haveLastTick := true, retry := None)
  {
  }

  /** Four orderly events fire an entry that is not suppressed on that date. */
  lemma FireOne(s: State, i: nat, date: int, from: int, more: seq<Event>)
    requires i < |s.entries| && s.retry.None? && from <= date
    requires s.entries[i].at in s.firedAt ==> s.firedAt[s.entries[i].at].date != date
    ensures var at := s.entries[i].at;
            var t := AfterFire(s, at, date);
            && t.history == s.history + [Fire(at, Instant(60, date, at))] && t.retry.None? && t.entries == s.entries
            && t.firedAt == s.firedAt[at := Instant(60, date, at)]
            && Run(s, FireEvents(at, date) + more) == Run(t, more)
            && (Orderly(t, date, more) ==> Orderly(s, from, FireEvents(at, date) + more))
  {
    hide Tick, Orderly;
    var at := s.entries[i].at;
    var evs := FireEvents(at, date);
    var s1, s2 := Step(s, evs[0]), Step(Step(s, evs[0]), evs[1]);
    var s3 := Step(s2, evs[2]);
    OffTick(s1, evs[1].now);
    assert s3 == s.(enabled := true, lastTick := (at + DAY - 1) % DAY, haveLastTick := true);
    assert at == (s3.lastTick + 1) % DAY;
    FiringTick(s3, evs[3].now, i);
    FourRun(s, evs, more);
    FourRun(s, evs, []);
    assert evs + [] == evs;
    FourOrderly(s, from, date, at, more);
  }

  lemma FourRun(s: State, evs: seq<Event>, more: seq<Event>)
    requires |evs| == 4
    ensures Run(s, evs + more) == Run(Step(Step(Step(Step(s, evs[0]), evs[1]), evs[2]), evs[3]), more)
  {
    hide Step;
    var all := evs + more;
    assert all[1..][1..] == all[2..] && all[2..][1..] == all[3..] && all[3..][1..] == more;
    var s1 := Step(s, evs[0]);
    var s2 := Step(s1, evs[1]);
    var s3 := Step(s2, evs[2]);
    assert Run(s, all) == Run(s1, all[1..]);
    assert Run(s1, all[1..]) == Run(s2, all[2..]);
    assert Run(s2, all[2..]) == Run(s3, all[3..]);
    assert Run(s3, all[3..]) == Run(Step(s3, evs[3]), more);
  }

  lemma QuietIsOrderly(s: State, now: Instant)
    ensures OrderlyTick(s, now, QUIET)
  {
  }

  lemma FourOrderly(s: State, from: int, date: int, at: Minute, more: seq<Event>)
    requires from <= date
    ensures Orderly(AfterFire(s, at, date), date, more) ==> Orderly(s, from, FireEvents(at, date) + more)
  {
    hide Tick, OrderlyTick, Do;
    var evs := FireEvents(at, date);
    var all := evs + more;
    FourRun(s, evs, []);
    assert evs + [] == evs;
    assert all[1..][1..] == all[2..] && all[2..][1..] == all[3..] && all[3..][1..] == more;
    var s1 := Step(s, evs[0]);
    var s2 := Step(s1, evs[1]);
    var s3 := Step(s2, evs[2]);
    QuietIsOrderly(s1, evs[1].now);
    QuietIsOrderly(s3, evs[3].now);
    if Orderly(AfterFire(s, at, date), date, more) {
      assert Orderly(s3, date, all[3..]);
      assert Orderly(s2, date, all[2..]);
      assert Orderly(s1, from, all[1..]);
    }
  }

  // ---- the exact condition -----------------------------------------------------------

  lemma Repeats(history: seq<Fire>, f: Fire, g: Fire, rest: seq<Fire>)
    requires f in history && f.at == g.at && f.when.date == g.when.date
    ensures !AtMostOnce(history + [g] + rest)
  {
    var i :| 0 <= i < |history| && history[i] == f;
    var all := history + [g] + rest;
    assert all[i] == f && all[|history|] == g;
  }

  /** A fire that is not suppressed on its own date, or lies in the future, can be repeated. */
  lemma RepeatFire(s: State, i: nat, f: Fire, date: int) returns (evs: seq<Event>)
    requires s.retry.None? && i < |s.entries| && f in s.history && f.at == s.entries[i].at && date <= f.when.date
    requires !(f.when.date == date && f.at in s.firedAt && s.firedAt[f.at].date == date)
    ensures Orderly(s, date, evs) && !AtMostOnce(Run(s, evs).history)
  {
    hide Orderly, Run, AtMostOnce, FireEvents;
    var at, later := f.at, f.when.date;
    NothingIsOrderly(s, date);
    if at in s.firedAt && s.firedAt[at].date == later {
      var t := AfterFire(s, at, date);
      evs := FireEvents(at, date) + FireEvents(at, later);
      FireOne(s, i, date, date, FireEvents(at, later));
      FireOne(t, i, later, date, []);
      NothingIsOrderly(AfterFire(t, at, later), later);
      assert FireEvents(at, later) + [] == FireEvents(at, later);
      Repeats(t.history, f, Fire(at, Instant(60, later, at)), []);
      assert t.history + [Fire(at, Instant(60, later, at))] + [] == t.history + [Fire(at, Instant(60, later, at))];
    } else {
      evs := FireEvents(at, later);
      FireOne(s, i, later, date, []);
      NothingIsOrderly(AfterFire(s, at, later), later);
      assert FireEvents(at, later) + [] == FireEvents(at, later);
      Repeats(s.history, f, Fire(at, Instant(60, later, at)), []);
      assert s.history + [Fire(at, Instant(60, later, at))] + [] == s.history + [Fire(at, Instant(60, later, at))];
    }
  }

  lemma NothingIsOrderly(s: State, date: int)
    ensures Orderly(s, date, []) && Run(s, []) == s
  {
  }

  lemma UncoveredRepeats(s: State, date: int) returns (evs: seq<Event>)
    requires s.retry.None? && !Covers(s.entries, s.firedAt, s.history, date)
    ensures Orderly(s, date, evs) && !AtMostOnce(Run(s, evs).history)
  {
    hide Orderly, Run, AtMostOnce;
    var e, f :| e in s.entries && f in s.history && f.at == e.at && date <= f.when.date
                && !(f.when.date == date && f.at in s.firedAt && s.firedAt[f.at].date == date);
    var i :| 0 <= i < |s.entries| && s.entries[i] == e;
    evs := RepeatFire(s, i, f, date);
  }

  lemma AfterRestart(s: State, date: int, evs: seq<Event>)
    requires Orderly(Step(s, Restart), date, evs)
    ensures Orderly(s, date, [Restart] + evs) && Run(s, [Restart] + evs) == Run(Step(s, Restart), evs)
  {
    hide Step;
    assert ([Restart] + evs)[1..] == evs;
  }

  /**
   With no retry pending, a state is safe exactly when each fire of `date` or
   later, at a time in memory or in a loadable state file, is one of `date` that
   is suppressed there.
   */
  lemma SafeIffCovered(s: State, date: int)
    requires s.retry.None? && AtMostOnce(s.history)
    ensures Safe(s, date) <==> Covered(s, date)
  {
    hide Orderly, Run, AtMostOnce, Covers, Step;
    if Covered(s, date) {
      forall evs | Orderly(s, date, evs)
        ensures AtMostOnce(Run(s, evs).history)
      {
        FiresAtMostOncePerDate(s, date, evs);
      }
    } else if !Covers(s.entries, s.firedAt, s.history, date) {
      var evs := UncoveredRepeats(s, date);
    } else {
      RestartCovered(s, date);
      RestartKeeps(s);
      var evs := UncoveredRepeats(Step(s, Restart), date);
      AfterRestart(s, date, evs);
    }
  }

  lemma RestartKeeps(s: State)
    ensures var t := Step(s, Restart);
            t.retry.None? && t.history == s.history && t.disk == s.disk
  {
  }

  /**
   A replacement is safe exactly when no row's time has fired on `date` or later
   - and, if it could not be saved, the old file still covers what has fired.
   */
  lemma ReplaceIsSafeIff(s: State, on: bool, rows: seq<Entry>, saved: bool, date: int)
    requires ValidEntries(rows) && AtMostOnce(s.history)
    ensures Safe(Do(s, Replace(on, rows, saved)), date) <==>
            NoneFired(rows, s.history, date) && (saved || FileCovers(s.disk, s.history, date))
  {
    hide Safe, AtMostOnce, Covers, NoneFired;
    SafeIffCovered(Do(s, Replace(on, rows, saved)), date);
    ReplaceCovers(rows, s.history, date);
    SortKeepsValid(rows);
  }

  /** A restart is safe exactly when the file suppresses, on `date`, every fire of `date` or later at its own times. */
  lemma RestartIsSafeIff(s: State, date: int)
    requires AtMostOnce(s.history)
    ensures Safe(Step(s, Restart), date) <==> FileCovers(s.disk, s.history, date)
  {
    hide Safe, AtMostOnce, Covers, Step;
    RestartKeeps(s);
    RestartCovered(s, date);
    SafeIffCovered(Step(s, Restart), date);
  }

  /** The file, if loaded, would bring back an entry at `at` that it does not suppress on `date`. */
  ghost predicate BringsBack(disk: Option<Persisted>, at: Minute, date: int) {
    Loads(disk) && (exists e :: e in disk.value.entries && e.at == at)
    && !(at in disk.value.firedAt && disk.value.firedAt[at].date == date)
  }

  /** Losing the save of a fire is safe exactly when the old file would not bring its time back unsuppressed. */
  lemma LostSaveIsSafeIff(s: State, e: Entry, index: nat, now: Instant)
    requires Covered(s, now.date) && Unfired(s.history, e.at, now.date)
    ensures Safe(Record(s, e, index, now, Succeeded, false), now.date) <==> !BringsBack(s.disk, e.at, now.date)
  {
    hide Safe, ValidEntries;
    var t := Record(s, e, index, now, Succeeded, false);
    var f := Fire(e.at, now);
    assert t.history == s.history + [f] && f in t.history;
    assert forall x :: x in t.history <==> x in s.history || x == f;
    RecordCovered(s, e, index, now, Succeeded, true);
    SafeIffCovered(t, now.date);
  }
}
