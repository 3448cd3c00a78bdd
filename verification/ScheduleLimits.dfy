/** Where the scheduler's guarantees end: what a replacement or a lost save can undo. */
module ScheduleLimits {
  import opened Wrappers
  import opened Clock
  import opened Schedule
  import opened ScheduleRuns

  // ---- a pending retry and the entries ----------------------------------------

  ghost predicate RetryScheduled(s: State) {
    s.retry.Some? ==> s.retry.value.entry in s.entries
  }

  ghost predicate Undisturbed(env: Env) {
    NoReplace(env.afterSnapshot) && NoReplace(env.afterRetryRead)
    && NoReplace(env.beforeAdvance) && NoReplace(env.duringFire)
  }

  lemma {:induction false} TogglesKeepEntries(s: State, ops: seq<Op>)
    requires NoReplace(ops)
    ensures DoAll(s, ops).entries == s.entries && DoAll(s, ops).retry == s.retry
    decreases |ops|
  {
    if ops == [] {
    } else {
      assert ops[0] in ops;
      TogglesKeepEntries(Do(s, ops[0]), ops[1..]);
    }
  }

  lemma RecordScheduled(s: State, e: Entry, index: nat, now: Instant, outcome: Outcome, saves: bool)
    requires RetryScheduled(s) && e in s.entries
    ensures var t := Record(s, e, index, now, outcome, saves);
            RetryScheduled(t) && t.entries == s.entries
  {
  }

  lemma RetryPhaseScheduled(snap: State, s: State, now: Instant, env: Env)
    requires RetryScheduled(s) && NoReplace(env.afterRetryRead)
    ensures var t := RetryPhase(snap, s, now, env);
            RetryScheduled(t) && t.entries == s.entries
  {
    hide DoAll, HasNewer, Record;
    TogglesKeepEntries(s, env.afterRetryRead);
    if s.retry.Some? {
      RecordScheduled(DoAll(s, env.afterRetryRead), s.retry.value.entry, s.retry.value.index, now, env.outcome,
                      env.saved);
    }
  }

  /** As long as no replacement lands inside a tick, a pending retry is for an entry of the schedule. */
  lemma RetryStaysScheduled(s: State, now: Instant, env: Env)
    requires RetryScheduled(s) && Undisturbed(env)
    ensures RetryScheduled(Tick(s, now, env)) && Tick(s, now, env).entries == s.entries
  {
    hide DoAll, RetryPhase, Record, Picked;
    var s1 := DoAll(s, env.afterSnapshot);
    TogglesKeepEntries(s, env.afterSnapshot);
    RetryPhaseScheduled(s, s1, now, env);
    var p := RetryPhase(s, s1, now, env);
    TogglesKeepEntries(p, env.beforeAdvance);
    var t := DoAll(p, env.beforeAdvance).(lastTick := now.minute, haveLastTick := true);
    TogglesKeepEntries(t, env.duringFire);
    var pick := Picked(s, s1, now);
    if pick.Some? {
      RecordScheduled(DoAll(t, env.duringFire), s.entries[pick.value], pick.value, now, env.outcome, env.saved);
    }
  }

  /** A replacement that lands while a fire fails leaves a retry for the entry it removed. */
  lemma ReplaceDuringFireLeavesRetry(s: State, now: Instant, env: Env, on: bool, rows: seq<Entry>, saves: bool)
    requires s.enabled && s.haveLastTick && now.minute != s.lastTick && s.retry.None?
    requires Latest(s.entries, s.lastTick, now, s.firedAt).Some? && ValidEntries(rows)
    requires s.entries[Latest(s.entries, s.lastTick, now, s.firedAt).value] !in rows
    requires env == Env([], [], [], [Replace(on, rows, saves)], Failed(Transient), env.saved)
    ensures var t := Tick(s, now, env);
            t.entries == SortByAt(rows) && t.retry.Some? && t.retry.value.entry !in t.entries
  {
    var s3 := s.(lastTick := now.minute, haveLastTick := true);
    assert DoAll(s3, env.duringFire) == Do(s3, env.duringFire[0]) by {
      assert env.duringFire[1..] == [];
    }
    SortSameElements(rows, s.entries[Latest(s.entries, s.lastTick, now, s.firedAt).value]);
  }

  // ---- exactly when a retry is stranded ---------------------------------------

  /** Some call among `ops` does replace the schedule. */
  ghost predicate Replaces(ops: seq<Op>) {
    exists op :: op in ops && op.Replace? && ValidEntries(op.rows)
  }

  /** Calls either leave entries and retry alone or, once they replace the schedule, leave no retry. */
  lemma {:induction false} ReplacingClearsRetry(s: State, ops: seq<Op>)
    ensures var t := DoAll(s, ops);
            if Replaces(ops) then t.retry.None? else t.entries == s.entries && t.retry == s.retry
    decreases |ops|
  {
    if ops == [] {
      assert !Replaces(ops);
    } else {
      ReplacingClearsRetry(Do(s, ops[0]), ops[1..]);
      DoAllRetry(Do(s, ops[0]), ops[1..]);
      assert forall op :: op in ops <==> op == ops[0] || op in ops[1..];
    }
  }

  lemma CallsKeepScheduled(s: State, ops: seq<Op>)
    requires RetryScheduled(s)
    ensures RetryScheduled(DoAll(s, ops))
  {
    hide DoAll, Replaces;
    ReplacingClearsRetry(s, ops);
  }

  /** The tick attempts the pending retry. */
  predicate Retries(s: State, now: Instant, env: Env) {
    s.enabled && s.haveLastTick && now.minute != s.lastTick
    && RetryDue(s.entries, DoAll(s, env.afterSnapshot).retry, s.lastTick, now)
  }

  /** The rows after some calls: those of the last replacement that is valid, else the old ones. */
  function FinalRows(rows: seq<Entry>, ops: seq<Op>): seq<Entry>
    decreases |ops|
  {
    if ops == [] then rows
    else
      var n := |ops| - 1;
      if ops[n].Replace? && ValidEntries(ops[n].rows) then SortByAt(ops[n].rows) else FinalRows(rows, ops[..n])
  }

  lemma {:induction false} FinalRowsAppend(rows: seq<Entry>, a: seq<Op>, b: seq<Op>)
    ensures FinalRows(rows, a + b) == FinalRows(FinalRows(rows, a), b)
    decreases |b|
  {
    if b == [] {
      assert a + b == a;
    } else {
      var n := |b| - 1;
      FinalRowsAppend(rows, a, b[..n]);
      assert (a + b)[..|a + b| - 1] == a + b[..n];
    }
  }

  lemma {:induction false} CallsLeaveFinalRows(s: State, ops: seq<Op>)
    ensures DoAll(s, ops).entries == FinalRows(s.entries, ops)
    decreases |ops|
  {
    if ops == [] {
      assert FinalRows(s.entries, ops) == s.entries;
    } else {
      CallsLeaveFinalRows(Do(s, ops[0]), ops[1..]);
      FinalRowsAppend(s.entries, [ops[0]], ops[1..]);
      assert [ops[0]] + ops[1..] == ops && [ops[0]][..0] == [];
    }
  }

  /** The calls a tick lets run, in order: it lets none run after its first gap when it has no window to look at. */
  function GapCalls(s: State, now: Instant, env: Env): seq<Op> {
    if !s.enabled || !s.haveLastTick || now.minute == s.lastTick then env.afterSnapshot
    else
      env.afterSnapshot + env.afterRetryRead + env.beforeAdvance
      + if Picked(s, DoAll(s, env.afterSnapshot), now).Some? then env.duringFire else []
  }

  lemma PhaseEntries(snap: State, s: State, now: Instant, env: Env)
    ensures RetryPhase(snap, s, now, env).entries == DoAll(s, env.afterRetryRead).entries
  {
    hide DoAll, HasNewer, Record;
    if s.retry.Some? {
      var r := s.retry.value;
      RecordRetry(DoAll(s, env.afterRetryRead), r.entry, r.index, now, env.outcome, env.saved);
    }
  }

  /** The schedule a tick leaves is decided by the calls it lets run, and by nothing else. */
  lemma TickLeavesFinalRows(s: State, now: Instant, env: Env)
    ensures Tick(s, now, env).entries == FinalRows(s.entries, GapCalls(s, now, env))
  {
    hide DoAll, RetryPhase, Record, Picked, FinalRows;
    var s1 := DoAll(s, env.afterSnapshot);
    CallsLeaveFinalRows(s, env.afterSnapshot);
    CallsLeaveFinalRows(s1, env.afterRetryRead);
    PhaseEntries(s, s1, now, env);
    var p := RetryPhase(s, s1, now, env);
    CallsLeaveFinalRows(p, env.beforeAdvance);
    var t := DoAll(p, env.beforeAdvance).(lastTick := now.minute, haveLastTick := true);
    CallsLeaveFinalRows(t, env.duringFire);
    FinalRowsAppend(s.entries, env.afterSnapshot, env.afterRetryRead);
    var two := env.afterSnapshot + env.afterRetryRead;
    FinalRowsAppend(s.entries, two, env.beforeAdvance);
    FinalRowsAppend(s.entries, two + env.beforeAdvance, env.duringFire);
    assert two + env.beforeAdvance + [] == two + env.beforeAdvance;
    var pick := Picked(s, s1, now);
    if pick.Some? {
      RecordRetry(DoAll(t, env.duringFire), s.entries[pick.value], pick.value, now, env.outcome, env.saved);
    }
  }

  /**
   What the tick sends fails transiently, the calls it lets run leave rows
   without it, and no replacement comes after the failure is recorded.
   */
  ghost predicate Strands(s: State, now: Instant, env: Env) {
    var sent := Dispatched(s, now, env);
    && sent.Some? && env.outcome == Failed(Transient)
    && sent.value !in FinalRows(s.entries, GapCalls(s, now, env))
    && !(Retries(s, now, env) && Replaces(env.beforeAdvance))
  }

  lemma RecordRetry(s: State, e: Entry, index: nat, now: Instant, outcome: Outcome, saves: bool)
    ensures var t := Record(s, e, index, now, outcome, saves);
            && t.entries == s.entries
            && (if outcome == Failed(Transient) then t.retry.Some? && t.retry.value.entry == e else t.retry.None?)
  {
  }

  /** Without a due retry the first half of a tick keeps a retry scheduled; with one it records the attempt. */
  lemma PhaseStrands(snap: State, s: State, now: Instant, env: Env)
    requires RetryScheduled(s)
    ensures var p := RetryPhase(snap, s, now, env);
            if RetryDue(snap.entries, s.retry, snap.lastTick, now)
            then if env.outcome == Failed(Transient) then p.retry.Some? && p.retry.value.entry == s.retry.value.entry
                 else p.retry.None?
            else RetryScheduled(p)
  {
    hide DoAll, HasNewer, Record;
    CallsKeepScheduled(s, env.afterRetryRead);
    if s.retry.Some? {
      var r := s.retry.value;
      RecordRetry(DoAll(s, env.afterRetryRead), r.entry, r.index, now, env.outcome, env.saved);
    }
  }

  /** A tick leaves a retry for an entry that is not in the schedule exactly when it strands one. */
  lemma TickStrandsIff(s: State, now: Instant, env: Env)
    requires RetryScheduled(s)
    ensures !RetryScheduled(Tick(s, now, env)) <==> Strands(s, now, env)
  {
    hide DoAll, RetryPhase, Record, RetryDue, Latest, Replaces, FinalRows, GapCalls;
    TickLeavesFinalRows(s, now, env);
    var s1 := DoAll(s, env.afterSnapshot);
    CallsKeepScheduled(s, env.afterSnapshot);
    PhaseStrands(s, s1, now, env);
    var p := RetryPhase(s, s1, now, env);
    ReplacingClearsRetry(p, env.beforeAdvance);
    var t := DoAll(p, env.beforeAdvance).(lastTick := now.minute, haveLastTick := true);
    var pick := Picked(s, s1, now);
    if pick.Some? {
      var e := s.entries[pick.value];
      RecordRetry(DoAll(t, env.duringFire), e, pick.value, now, env.outcome, env.saved);
    }
  }

  /** No tick of a run strands a retry. */
  ghost predicate NeverStrands(s: State, evs: seq<Event>)
    decreases |evs|
  {
    evs == [] || ((evs[0].TickAt? ==> !Strands(s, evs[0].now, evs[0].env)) && NeverStrands(Step(s, evs[0]), evs[1..]))
  }

  /** A pending retry is for an entry of the schedule in every state of a run. */
  ghost predicate AlwaysScheduled(s: State, evs: seq<Event>)
    decreases |evs|
  {
    RetryScheduled(s) && (evs != [] ==> AlwaysScheduled(Step(s, evs[0]), evs[1..]))
  }

  /**
   Over any run - replacements between and inside ticks, restarts - retries stay
   scheduled exactly when no tick strands one.
   */
  lemma {:induction false} RetriesStayScheduledIff(s: State, evs: seq<Event>)
    requires RetryScheduled(s)
    ensures AlwaysScheduled(s, evs) <==> NeverStrands(s, evs)
    decreases |evs|
  {
    hide Strands, Tick, Replaces, DoAll;
    if evs == [] {
      assert AlwaysScheduled(s, evs) && NeverStrands(s, evs);
    } else {
      match evs[0] {
        case TickAt(now, env) => TickStrandsIff(s, now, env);
        case Call(op) =>
        case Restart =>
      }
      if RetryScheduled(Step(s, evs[0])) {
        RetriesStayScheduledIff(Step(s, evs[0]), evs[1..]);
      }
    }
  }

  // ---- when a failed fire is retried -------------------------------------------------

  /** Ten minutes after the episode's first failure. */
  function EpisodeEnd(s: State, e: Entry, failed: Instant): int {
    if s.retry.Some? && s.retry.value.entry.at == e.at then s.retry.value.deadline else failed.secs + 600
  }

  /**
   After a transient failure, a tick that crosses no entry tries the failed one
   again exactly from thirty seconds after the failure until ten minutes after
   the first failure of the episode.
   */
  lemma FailedFireIsRetried(s: State, e: Entry, index: nat, failed: Instant, saves: bool, later: Instant, env: Env)
    requires s.enabled && s.haveLastTick && later.minute != s.lastTick && !Replaces(env.afterSnapshot)
    requires forall i :: 0 <= i < |s.entries| ==> !InWindow(s.lastTick, later.minute, s.entries[i].at)
    ensures var t := Record(s, e, index, failed, Failed(Transient), saves);
            Dispatched(t, later, env) ==
            if failed.secs + 30 <= later.secs < EpisodeEnd(s, e, failed) then Some(e) else None
  {
    hide DoAll, Replaces;
    var t := Record(s, e, index, failed, Failed(Transient), saves);
    RecordRetry(t, e, index, failed, Failed(Transient), saves);
    ReplacingClearsRetry(t, env.afterSnapshot);
    assert t.entries == s.entries && t.lastTick == s.lastTick;
  }

  /** An authentication failure is not retried: the next tick that crosses no entry sends nothing. */
  lemma AuthFailureIsNotRetried(s: State, e: Entry, index: nat, failed: Instant, saves: bool, later: Instant, env: Env)
    requires forall i :: 0 <= i < |s.entries| ==> !InWindow(s.lastTick, later.minute, s.entries[i].at)
    ensures Dispatched(Record(s, e, index, failed, Failed(AuthFailed), saves), later, env).None?
  {
    hide DoAll;
    DoAllRetry(Record(s, e, index, failed, Failed(AuthFailed), saves), env.afterSnapshot);
  }

  // ---- a newer entry and a pending retry -----------------------------------------

  lemma SupersededPhase(snap: State, s: State, now: Instant, env: Env)
    requires s.retry.Some? ==> HasNewer(snap.entries, s.retry.value, snap.lastTick, now.minute)
    ensures RetryPhase(snap, s, now, env).retry.None? && !RetryDue(snap.entries, s.retry, snap.lastTick, now)
    ensures RetryPhase(snap, s, now, env).disk == DoAll(s, env.afterRetryRead).disk
  {
    DoAllRetry(s, env.afterRetryRead);
  }

  /**
   An entry crossed while another is being retried is never held up by the
   retry, whatever runs in the tick's gaps: the tick sends it, or one crossed
   later still, and a retry left behind is the first of a new episode for what
   was sent.
   */
  lemma NewerEntrySupersedes(s: State, now: Instant, env: Env, i: nat)
    requires s.enabled && s.haveLastTick && now.minute != s.lastTick && s.retry.Some?
    requires i < |s.entries| && Eligible(s.entries[i], s.lastTick, now, s.firedAt)
    requires s.entries[i].at != s.retry.value.entry.at
    ensures var sent := Dispatched(s, now, env);
            var r := Tick(s, now, env).retry;
            && sent.Some? && sent.value in s.entries
            && Dist(s.lastTick, s.entries[i].at) <= Dist(s.lastTick, sent.value.at)
            && (r.Some? ==>
                  && r.value.entry == sent.value && r.value.attempts == 1
                  && r.value.deadline == now.secs + 600)
  {
    hide DoAll, RetryPhase, RetryDue;
    var s1 := DoAll(s, env.afterSnapshot);
    DoAllRetry(s, env.afterSnapshot);
    SupersededPhase(s, s1, now, env);
    var p := RetryPhase(s, s1, now, env);
    DoAllRetry(p, env.beforeAdvance);
    var t := DoAll(p, env.beforeAdvance).(lastTick := now.minute, haveLastTick := true);
    DoAllRetry(t, env.duringFire);
  }

  /** A retry past its deadline is not attempted again: a retry left by the tick is the first of a new episode. */
  lemma ExpiredRetryIsDropped(s: State, now: Instant, env: Env)
    requires s.enabled && s.haveLastTick && now.minute != s.lastTick
    requires s.retry.Some? && s.retry.value.deadline <= now.secs
    ensures var r := Tick(s, now, env).retry;
            r.Some? ==>
              r.value.attempts == 1 && r.value.nextAttempt == now.secs + 30 && r.value.deadline == now.secs + 600
    ensures Dispatched(s, now, env).Some? ==>
              exists i :: 0 <= i < |s.entries| && s.entries[i] == Dispatched(s, now, env).value
                          && Eligible(s.entries[i], s.lastTick, now, s.firedAt)
  {
    hide DoAll, RetryPhase, HasNewer;
    var s1 := DoAll(s, env.afterSnapshot);
    DoAllRetry(s, env.afterSnapshot);
    ExpiredPhase(s, s1, now, env);
    var p := RetryPhase(s, s1, now, env);
    DoAllRetry(p, env.beforeAdvance);
    var t := DoAll(p, env.beforeAdvance).(lastTick := now.minute, haveLastTick := true);
    DoAllRetry(t, env.duringFire);
  }

  lemma ExpiredPhase(snap: State, s: State, now: Instant, env: Env)
    requires s.retry.Some? ==> s.retry.value.deadline <= now.secs
    ensures RetryPhase(snap, s, now, env).retry.None? && !RetryDue(snap.entries, s.retry, snap.lastTick, now)
    ensures s.retry.Some? && !HasNewer(snap.entries, s.retry.value, snap.lastTick, now.minute) && env.saved ==>
              var u := DoAll(s, env.afterRetryRead);
              RetryPhase(snap, s, now, env).disk == Some(Persisted(u.enabled, u.entries, u.lastApply, u.firedAt))
  {
    DoAllRetry(s, env.afterRetryRead);
  }

  // ---- how two fires on one date become possible --------------------------------

  function Quiet(saves: bool): Env { Env([], [], [], [], Succeeded, saves) }

  /** A quiet tick of a one-entry schedule. */
  lemma SingleEntryTick(s: State, e: Entry, now: Instant, saves: bool)
    requires s.enabled && s.entries == [e] && s.retry.None?
    ensures var s' := s.(lastTick := now.minute, haveLastTick := true);
            Tick(s, now, Quiet(saves)) ==
            if s.haveLastTick && now.minute != s.lastTick && Eligible(e, s.lastTick, now, s.firedAt)
            then Record(s', e, 0, now, Succeeded, saves)
            else s'
  {
    assert s.entries[..0] == [];
    assert Latest(s.entries[..0], s.lastTick, now, s.firedAt) == None;
  }

  /** The wall clock of a night in which 01:00 comes round twice. */
  function RepeatedHour(date: int, minute: Minute, secs: int): Instant { Instant(secs, date, minute) }

  /**
   Saving an unchanged schedule again between the two showings of 01:00 lets
   its entry fire twice on that date: a replacement forgets what was fired.
   */
  lemma ReplaceAllowsSecondFire(date: int)
    ensures var rows := [Entry(60, "supply", 40)];
            var evs := [Call(Replace(true, rows, true)),
                        TickAt(RepeatedHour(date, 59, 0), Quiet(true)), TickAt(RepeatedHour(date, 60, 60), Quiet(true)),
                        Call(Replace(true, rows, true)),
                        TickAt(RepeatedHour(date, 59, 3600), Quiet(true)),
                        TickAt(RepeatedHour(date, 60, 3660), Quiet(true))];
            !AtMostOnce(Run(Blank(None, []), evs).history)
  {
    hide Tick, Do, Record, Eligible;
    var e := Entry(60, "supply", 40);
    var rows := [e];
    var i1, i2 := RepeatedHour(date, 59, 0), RepeatedHour(date, 60, 60);
    var i3, i4 := RepeatedHour(date, 59, 3600), RepeatedHour(date, 60, 3660);
    var s0 := Blank(None, []);
    var s1 := Do(s0, Replace(true, rows, true));
    SingleReplace(s0, e);
    var s2 := Tick(s1, i1, Quiet(true));
    SingleEntryTick(s1, e, i1, true);
    var s3 := Tick(s2, i2, Quiet(true));
    SingleEntryTick(s2, e, i2, true);
    FirstFire(s2, e, i2);
    var s4 := Do(s3, Replace(true, rows, true));
    SingleReplace(s3, e);
    var s5 := Tick(s4, i3, Quiet(true));
    SingleEntryTick(s4, e, i3, true);
    NotCrossed(s4, e, i3);
    var s6 := Tick(s5, i4, Quiet(true));
    SingleEntryTick(s5, e, i4, true);
    FirstFire(s5, e, i4);
    var evs := [Call(Replace(true, rows, true)), TickAt(i1, Quiet(true)), TickAt(i2, Quiet(true)),
                Call(Replace(true, rows, true)), TickAt(i3, Quiet(true)), TickAt(i4, Quiet(true))];
    RunSix(s0, evs);
    assert Run(s0, evs) == s6;
    assert s6.history == [Fire(60, i2), Fire(60, i4)];
    assert s6.history[0].at == s6.history[1].at && s6.history[0].when.date == s6.history[1].when.date;
  }

  /** So does a restart, when the save after the first fire was lost. */
  lemma LostSaveAllowsSecondFire(date: int)
    ensures var rows := [Entry(60, "supply", 40)];
            var evs := [Call(Replace(true, rows, true)),
                        TickAt(RepeatedHour(date, 59, 0), Quiet(true)),
                        TickAt(RepeatedHour(date, 60, 60), Quiet(false)),
                        Restart,
                        TickAt(RepeatedHour(date, 59, 3600), Quiet(true)),
                        TickAt(RepeatedHour(date, 60, 3660), Quiet(true))];
            !AtMostOnce(Run(Blank(None, []), evs).history)
  {
    hide Tick, Do, Record, Eligible;
    var e := Entry(60, "supply", 40);
    var rows := [e];
    var i1, i2 := RepeatedHour(date, 59, 0), RepeatedHour(date, 60, 60);
    var i3, i4 := RepeatedHour(date, 59, 3600), RepeatedHour(date, 60, 3660);
    var s0 := Blank(None, []);
    var s1 := Do(s0, Replace(true, rows, true));
    SingleReplace(s0, e);
    var s2 := Tick(s1, i1, Quiet(true));
    SingleEntryTick(s1, e, i1, true);
    var s3 := Tick(s2, i2, Quiet(false));
    SingleEntryTick(s2, e, i2, false);
    FirstFire(s2, e, i2);
    var s4 := Step(s3, Restart);
    SingleLoad(s3, e);
    var s5 := Tick(s4, i3, Quiet(true));
    SingleEntryTick(s4, e, i3, true);
    var s6 := Tick(s5, i4, Quiet(true));
    SingleEntryTick(s5, e, i4, true);
    FirstFire(s5, e, i4);
    var evs := [Call(Replace(true, rows, true)), TickAt(i1, Quiet(true)), TickAt(i2, Quiet(false)),
                Restart, TickAt(i3, Quiet(true)), TickAt(i4, Quiet(true))];
    RunSix(s0, evs);
    assert Run(s0, evs) == s6;
    assert s6.history == [Fire(60, i2), Fire(60, i4)];
    assert s6.history[0].at == s6.history[1].at && s6.history[0].when.date == s6.history[1].when.date;
  }

  lemma RecordHistory(s: State, e: Entry, index: nat, now: Instant, outcome: Outcome, saves: bool)
    ensures Record(s, e, index, now, outcome, saves).history ==
            s.history + if outcome.Succeeded? then [Fire(e.at, now)] else []
  {
    assert s.history + [] == s.history;
  }

  lemma PhaseHistory(snap: State, s: State, now: Instant, env: Env)
    ensures RetryPhase(snap, s, now, env).history ==
            s.history + if RetryDue(snap.entries, s.retry, snap.lastTick, now) && env.outcome.Succeeded?
                        then [Fire(s.retry.value.entry.at, now)] else []
  {
    hide DoAll, HasNewer, Record;
    DoAllRetry(s, env.afterRetryRead);
    assert s.history + [] == s.history;
    if s.retry.Some? {
      var r := s.retry.value;
      RecordHistory(DoAll(s, env.afterRetryRead), r.entry, r.index, now, env.outcome, env.saved);
    }
  }

  /** Whatever runs in its gaps, a tick fires exactly the one entry it sent, when that succeeded. */
  lemma FiresExactlyWhatIsSent(s: State, now: Instant, env: Env)
    ensures var sent := Dispatched(s, now, env);
            Tick(s, now, env).history ==
            s.history + if sent.Some? && env.outcome.Succeeded? then [Fire(sent.value.at, now)] else []
  {
    hide DoAll, RetryPhase, Record, RetryDue, Latest;
    var s1 := DoAll(s, env.afterSnapshot);
    DoAllRetry(s, env.afterSnapshot);
    PhaseHistory(s, s1, now, env);
    var p := RetryPhase(s, s1, now, env);
    DoAllRetry(p, env.beforeAdvance);
    var t := DoAll(p, env.beforeAdvance).(lastTick := now.minute, haveLastTick := true);
    DoAllRetry(t, env.duringFire);
    assert s.history + [] == s.history;
    var pick := Picked(s, s1, now);
    if pick.Some? {
      RecordHistory(DoAll(t, env.duringFire), s.entries[pick.value], pick.value, now, env.outcome, env.saved);
    }
  }

  /** With nothing to retry, a tick fires exactly when an entry was crossed that has no fire on the tick's date. */
  lemma FiresIffCrossedAndUnfired(s: State, now: Instant, saves: bool)
    requires s.enabled && s.haveLastTick && s.retry.None? && now.minute != s.lastTick
    ensures Tick(s, now, Quiet(saves)).history != s.history <==>
            exists i :: 0 <= i < |s.entries| && InWindow(s.lastTick, now.minute, s.entries[i].at)
                        && (s.entries[i].at in s.firedAt ==> s.firedAt[s.entries[i].at].date != now.date)
  {
    var pick := Latest(s.entries, s.lastTick, now, s.firedAt);
    assert pick.None? <==> forall i :: 0 <= i < |s.entries| ==> !Eligible(s.entries[i], s.lastTick, now, s.firedAt);
  }

  /**
   The date kept for a fire is the date it was made on, not the entry's: a
   23:59 entry that fires two minutes late, after midnight, is then skipped on
   the evening of the new date.
   */
  lemma LateFireSuppressesNextEvening(s: State, e: Entry, date: int)
    requires s.enabled && s.entries == [e] && e.at == 1439 && s.retry.None? && s.firedAt == map[] && s.history == []
    requires s.haveLastTick && s.lastTick == 1438
    ensures var late, before := Instant(180, date + 1, 1), Instant(86400, date + 1, 1438);
            var due := Instant(86460, date + 1, 1439);
            Run(s, [TickAt(late, Quiet(true)), TickAt(before, Quiet(true)), TickAt(due, Quiet(true))]).history
            == [Fire(1439, late)]
  {
    hide Tick;
    var late, before, due := Instant(180, date + 1, 1), Instant(86400, date + 1, 1438), Instant(86460, date + 1, 1439);
    var s1 := Tick(s, late, Quiet(true));
    SingleEntryTick(s, e, late, true);
    var s2 := Tick(s1, before, Quiet(true));
    SingleEntryTick(s1, e, before, true);
    SingleEntryTick(s2, e, due, true);
    var evs := [TickAt(late, Quiet(true)), TickAt(before, Quiet(true)), TickAt(due, Quiet(true))];
    assert evs[1..][1..] == [evs[2]] && evs[2..][1..] == [];
    assert Run(s2, [evs[2]]) == Step(s2, evs[2]);
    assert Run(s1, evs[1..]) == Run(s2, evs[1..][1..]);
  }

  lemma SingleReplace(s: State, e: Entry)
    requires ValidEntry(e)
    ensures Do(s, Replace(true, [e], true)) ==
            s.(enabled := true, entries := [e], lastApply := None, retry := None, firedAt := map[],
               disk := Some(Persisted(true, [e], None, map[])))
  {
    assert SortByAt([e]) == [e] by {
      assert [e][1..] == [];
    }
  }

  lemma SingleLoad(s: State, e: Entry)
    requires s.disk.Some? && s.disk.value.entries == [e] && ValidEntry(e)
    ensures Step(s, Restart) == Blank(s.disk, s.history).(enabled := s.disk.value.enabled, entries := [e],
                                                          lastApply := s.disk.value.lastApply,
                                                          firedAt := s.disk.value.firedAt)
  {
    assert SortByAt([e]) == [e] by {
      assert [e][1..] == [];
    }
  }

  lemma FirstFire(s: State, e: Entry, now: Instant)
    requires s.lastTick == 59 && now.minute == 60 == e.at && s.firedAt == map[]
    ensures Eligible(e, s.lastTick, now, s.firedAt)
    ensures forall t: State, saves :: Record(t, e, 0, now, Succeeded, saves) ==
                                      Saved(t.(lastApply := Some(LastApply(e.at, now, true, None, 0)), retry := None,
                                               firedAt := t.firedAt[e.at := now],
                                               history := t.history + [Fire(e.at, now)]), saves)
  {
  }

  lemma NotCrossed(s: State, e: Entry, now: Instant)
    requires s.lastTick == 60 == e.at && now.minute == 59
    ensures !Eligible(e, s.lastTick, now, s.firedAt)
  {
  }

  lemma RunSix(s: State, evs: seq<Event>)
    requires |evs| == 6
    ensures Run(s, evs) == Step(Step(Step(Step(Step(Step(s, evs[0]), evs[1]), evs[2]), evs[3]), evs[4]), evs[5])
  {
    hide Step;
    var r := evs;
    assert r[1..][1..] == r[2..] && r[2..][1..] == r[3..] && r[3..][1..] == r[4..] && r[4..][1..] == r[5..]
           && r[5..][1..] == [];
    var t1 := Step(s, r[0]);
    var t2 := Step(t1, r[1]);
    var t3 := Step(t2, r[2]);
    var t4 := Step(t3, r[3]);
    var t5 := Step(t4, r[4]);
    assert Run(t5, r[5..]) == Step(t5, r[5]);
    assert Run(t4, r[4..]) == Run(t5, r[5..]);
    assert Run(t3, r[3..]) == Run(t4, r[4..]);
    assert Run(t2, r[2..]) == Run(t3, r[3..]);
    assert Run(t1, r[1..]) == Run(t2, r[2..]);
  }
}
