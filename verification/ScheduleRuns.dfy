/**
 Safety of the scheduler over whole runs: ticks with other calls in their lock
 gaps, calls between ticks, and restarts from the state file.
 */
module ScheduleRuns {
  import opened Wrappers
  import opened Clock
  import opened Schedule

  datatype Event =
    | TickAt(now: Instant, env: Env)
    | Call(op: Op)
    | Restart

  function Step(s: State, ev: Event): State {
    match ev
    case TickAt(now, env) => Tick(s, now, env)
    case Call(op) => Do(s, op)
    case Restart => Loaded(Blank(s.disk, s.history))
  }

  function Run(s: State, evs: seq<Event>): State
    decreases |evs|
  {
    if evs == [] then s else Run(Step(s, evs[0]), evs[1..])
  }

  // ---- what every reachable state satisfies ---------------------------------

  /** The alert shown to the user is the failure the pending retry is working on. */
  ghost predicate AlertMatchesRetry(s: State) {
    s.retry.Some? ==>
      && 1 <= s.retry.value.attempts
      && s.lastApply.Some?
      && !s.lastApply.value.ok
      && s.lastApply.value.at == s.retry.value.entry.at
      && s.lastApply.value.retries == s.retry.value.attempts - 1
  }

  /** A schedule is valid, in order, and never enabled with nothing to fire. */
  ghost predicate WellKept(enabled: bool, entries: seq<Entry>) {
    ValidEntries(entries) && Ascending(entries) && (enabled ==> entries != [])
  }

  ghost predicate Sound(s: State) {
    && WellKept(s.enabled, s.entries)
    && (s.disk.Some? ==> WellKept(s.disk.value.enabled, s.disk.value.entries))
    && AlertMatchesRetry(s)
    && (s.retry.Some? ==> ValidEntry(s.retry.value.entry))
  }

  lemma DoKeepsSound(s: State, op: Op)
    requires Sound(s)
    ensures Sound(Do(s, op))
  {
    if op.Replace? && ValidEntries(op.rows) {
      SortKeepsValid(op.rows);
      SortPermutes(op.rows);
      assert |multiset(SortByAt(op.rows))| == |multiset(op.rows)|;
    }
  }

  lemma {:induction false} DoAllKeepsSound(s: State, ops: seq<Op>)
    requires Sound(s)
    ensures Sound(DoAll(s, ops))
    decreases |ops|
  {
    if ops == [] {
    } else {
      DoKeepsSound(s, ops[0]);
      DoAllKeepsSound(Do(s, ops[0]), ops[1..]);
    }
  }

  lemma RecordKeepsSound(s: State, e: Entry, index: nat, now: Instant, outcome: Outcome, saved: bool)
    requires Sound(s) && ValidEntry(e)
    ensures Sound(Record(s, e, index, now, outcome, saved))
  {
    hide WellKept, ValidEntry;
  }

  /** Dropping the retry, saving, and moving the last tick keep a state sound. */
  lemma SoundFrame(s: State, m: Minute, saves: bool)
    requires Sound(s)
    ensures Sound(s.(retry := None)) && Sound(Saved(s.(retry := None), saves))
    ensures Sound(s.(lastTick := m, haveLastTick := true))
    ensures Sound(s.(lastTick := m, haveLastTick := true, retry := None))
    ensures s.retry.Some? ==> ValidEntry(s.retry.value.entry)
    ensures forall i :: 0 <= i < |s.entries| ==> ValidEntry(s.entries[i])
  {
  }

  lemma RetryPhaseKeepsSound(snap: State, s: State, now: Instant, env: Env)
    requires Sound(s)
    ensures Sound(RetryPhase(snap, s, now, env))
  {
    hide Record, HasNewer, Sound, DoAll, Saved;
    var s' := DoAll(s, env.afterRetryRead);
    DoAllKeepsSound(s, env.afterRetryRead);
    SoundFrame(s', 0, env.saved);
    SoundFrame(s, 0, env.saved);
    if s.retry.Some? {
      RecordKeepsSound(s', s.retry.value.entry, s.retry.value.index, now, env.outcome, env.saved);
    }
  }

  lemma TickKeepsSound(s: State, now: Instant, env: Env)
    requires Sound(s)
    ensures Sound(Tick(s, now, env))
  {
    hide Record, RetryPhase, RetryDue, DoAll, Latest, Sound;
    var s1 := DoAll(s, env.afterSnapshot);
    DoAllKeepsSound(s, env.afterSnapshot);
    SoundFrame(s1, now.minute, true);
    RetryPhaseKeepsSound(s, s1, now, env);
    var p := RetryPhase(s, s1, now, env);
    DoAllKeepsSound(p, env.beforeAdvance);
    SoundFrame(DoAll(p, env.beforeAdvance), now.minute, true);
    var s3 := DoAll(p, env.beforeAdvance).(lastTick := now.minute, haveLastTick := true);
    DoAllKeepsSound(s3, env.duringFire);
    var pick := Latest(s.entries, s.lastTick, now, s.firedAt);
    SoundFrame(s, 0, true);
    if pick.Some? {
      RecordKeepsSound(DoAll(s3, env.duringFire), s.entries[pick.value], pick.value, now, env.outcome, env.saved);
    }
  }

  lemma SortedIsFixed(entries: seq<Entry>)
    requires Ascending(entries)
    ensures SortByAt(entries) == entries
  {
    if entries != [] {
      SortedIsFixed(entries[1..]);
      assert entries == [entries[0]] + entries[1..];
    }
  }

  /**
   In every state a new scheduler can reach - whatever calls run between and
   inside its ticks, a replacement during a fire included - the schedule is
   valid, ordered and never enabled while empty, and a pending retry always
   shows as a failed last fire of the same time with one retry fewer than attempts.
   */
  lemma {:induction false} ReachableIsSound(s: State, evs: seq<Event>)
    requires Sound(s)
    ensures Sound(Run(s, evs))
    decreases |evs|
  {
    if evs == [] {
    } else {
      match evs[0] {
        case TickAt(now, env) => TickKeepsSound(s, now, env);
        case Call(op) => DoKeepsSound(s, op);
        case Restart =>
          if s.disk.Some? {
            SortedIsFixed(s.disk.value.entries);
          }
      }
      ReachableIsSound(Step(s, evs[0]), evs[1..]);
    }
  }

  /** What a save puts on disk a restart brings back; the retry and the last tick are forgotten. */
  lemma SaveLoadRoundTrip(s: State)
    requires WellKept(s.enabled, s.entries)
    ensures var t := Step(Saved(s, true), Restart);
            && t.enabled == s.enabled && t.entries == s.entries && t.lastApply == s.lastApply && t.firedAt == s.firedAt
            && t.history == s.history && t.retry.None? && !t.haveLastTick
  {
    SortedIsFixed(s.entries);
  }

  // ---- at most one successful fire per time and local date -------------------

  ghost predicate AtMostOnce(history: seq<Fire>) {
    forall i, j :: 0 <= i < j < |history| ==>
                     history[i].at != history[j].at || history[i].when.date != history[j].when.date
  }

  predicate NoReplace(ops: seq<Op>) {
    forall op :: op in ops ==> op.SetEnabled?
  }

  /** Every fire at a time of `rows` is dated before `date`. */
  ghost predicate NoneFired(rows: seq<Entry>, history: seq<Fire>, date: int) {
    forall e, f :: e in rows && f in history && f.at == e.at ==> f.when.date < date
  }

  /** The replacements among `ops` bring in no time that has already fired on `date` or later. */
  ghost predicate Harmless(history: seq<Fire>, ops: seq<Op>, date: int) {
    forall op :: op in ops && op.Replace? && ValidEntries(op.rows) ==> NoneFired(op.rows, history, date)
  }

  /** The history between a tick's two chances to fire. */
  function Midway(s: State, now: Instant, env: Env): seq<Fire> {
    RetryPhase(s, DoAll(s, env.afterSnapshot), now, env).history
  }

  /** A tick that saves what it fires, with harmless calls in its gaps. */
  ghost predicate OrderlyTick(s: State, now: Instant, env: Env) {
    && (env.outcome.Succeeded? ==> env.saved)
    && Harmless(s.history, env.afterSnapshot, now.date) && Harmless(s.history, env.afterRetryRead, now.date)
    && Harmless(Midway(s, now, env), env.beforeAdvance, now.date)
    && Harmless(Midway(s, now, env), env.duringFire, now.date)
  }

  /** From `date` on local dates never go back, every fire is saved and every replacement is harmless. */
  ghost predicate Orderly(s: State, date: int, evs: seq<Event>)
    decreases |evs|
  {
    evs == [] ||
    match evs[0]
    case TickAt(now, env) =>
      date <= now.date && OrderlyTick(s, now, env) && Orderly(Step(s, evs[0]), now.date, evs[1..])
    case Call(op) => Harmless(s.history, [op], date) && Orderly(Step(s, evs[0]), date, evs[1..])
    case Restart => Orderly(Step(s, evs[0]), date, evs[1..])
  }

  /** Every fire at `at` is dated before `date`. */
  ghost predicate Unfired(history: seq<Fire>, at: Minute, date: int) {
    forall f :: f in history && f.at == at ==> f.when.date < date
  }

  /** A fire dated `date` or later, at a time of `entries`, is one of `date` that `firedAt` suppresses. */
  ghost predicate Covers(entries: seq<Entry>, firedAt: map<Minute, Instant>, history: seq<Fire>, date: int) {
    forall e, f :: e in entries && f in history && f.at == e.at && date <= f.when.date ==>
                     f.when.date == date && f.at in firedAt && firedAt[f.at].date == date
  }

  /** The state file would be loaded. */
  predicate Loads(disk: Option<Persisted>) { disk.Some? && ValidEntries(disk.value.entries) }

  ghost predicate FileCovers(disk: Option<Persisted>, history: seq<Fire>, date: int) {
    Loads(disk) ==> Covers(disk.value.entries, disk.value.firedAt, history, date)
  }

  /** Nothing has fired twice, what has fired is suppressed in memory and on disk, and is not being retried. */
  ghost predicate Covered(s: State, date: int) {
    && AtMostOnce(s.history)
    && Covers(s.entries, s.firedAt, s.history, date)
    && FileCovers(s.disk, s.history, date)
    && (s.retry.Some? ==> Unfired(s.history, s.retry.value.entry.at, date))
  }

  lemma CoveredLater(s: State, date: int, later: int)
    requires Covered(s, date) && date <= later
    ensures Covered(s, later)
  {
  }

  lemma ReplaceCovers(rows: seq<Entry>, history: seq<Fire>, date: int)
    ensures Covers(SortByAt(rows), map[], history, date) <==> NoneFired(rows, history, date)
  {
    forall x
      ensures x in SortByAt(rows) <==> x in rows
    {
      SortSameElements(rows, x);
    }
  }

  lemma DoCovered(s: State, op: Op, date: int)
    requires Covered(s, date) && (op.Replace? && ValidEntries(op.rows) ==> NoneFired(op.rows, s.history, date))
    ensures var r := Do(s, op);
            Covered(r, date) && r.history == s.history && r.retry in {s.retry, None}
  {
    if op.Replace? {
      ReplaceCovers(op.rows, s.history, date);
    }
  }

  lemma {:induction false} DoAllCovered(s: State, ops: seq<Op>, date: int)
    requires Covered(s, date) && Harmless(s.history, ops, date)
    ensures var r := DoAll(s, ops);
            Covered(r, date) && r.history == s.history && r.retry in {s.retry, None}
    decreases |ops|
  {
    hide Covered, Do;
    if ops == [] {
    } else {
      assert ops[0] in ops;
      DoCovered(s, ops[0], date);
      DoAllCovered(Do(s, ops[0]), ops[1..], date);
    }
  }

  lemma RecordCovered(s: State, e: Entry, index: nat, now: Instant, outcome: Outcome, saved: bool)
    requires Covered(s, now.date) && Unfired(s.history, e.at, now.date) && (outcome.Succeeded? ==> saved)
    ensures Covered(Record(s, e, index, now, outcome, saved), now.date)
  {
    hide ValidEntries;
    var f := Fire(e.at, now);
    assert forall x :: x in s.history + [f] <==> x in s.history || x == f;
    assert forall i :: 0 <= i < |s.history| ==> s.history[i] in s.history;
  }

  lemma CoveredFrame(s: State, date: int, m: Minute, saved: bool)
    requires Covered(s, date)
    ensures Covered(s.(retry := None), date) && Covered(Saved(s.(retry := None), saved), date)
    ensures Covered(s.(lastTick := m, haveLastTick := true), date)
    ensures Covered(s.(lastTick := m, haveLastTick := true, retry := None), date)
    ensures s.retry.Some? ==> Unfired(s.history, s.retry.value.entry.at, date)
  {
    hide ValidEntries;
  }

  lemma RetryPhaseCovered(snap: State, s: State, now: Instant, env: Env)
    requires Covered(s, now.date) && (env.outcome.Succeeded? ==> env.saved)
             && Harmless(s.history, env.afterRetryRead, now.date)
    ensures var p := RetryPhase(snap, s, now, env);
            && Covered(p, now.date)
            && (RetryDue(snap.entries, s.retry, snap.lastTick, now) || p.history == s.history)
  {
    hide Record, HasNewer, Covered, DoAll, Unfired, Saved;
    var s' := DoAll(s, env.afterRetryRead);
    DoAllCovered(s, env.afterRetryRead, now.date);
    CoveredFrame(s', now.date, 0, env.saved);
    CoveredFrame(s, now.date, 0, env.saved);
    SavedHistory(s'.(retry := None), env.saved);
    if s.retry.Some? {
      RecordCovered(s', s.retry.value.entry, s.retry.value.index, now, env.outcome, env.saved);
    }
  }

  lemma SavedHistory(s: State, saved: bool)
    ensures Saved(s, saved).history == s.history
  {
  }

  /** What a tick picks has not fired on its date. */
  lemma PickUnfired(s: State, now: Instant)
    requires Covered(s, now.date) && Latest(s.entries, s.lastTick, now, s.firedAt).Some?
    ensures Unfired(s.history, s.entries[Latest(s.entries, s.lastTick, now, s.firedAt).value].at, now.date)
  {
    var pick := Latest(s.entries, s.lastTick, now, s.firedAt).value;
    assert s.entries[pick] in s.entries;
  }

  lemma TickCovered(s: State, now: Instant, env: Env)
    requires Covered(s, now.date) && OrderlyTick(s, now, env)
    ensures Covered(Tick(s, now, env), now.date)
  {
    hide Record, RetryPhase, RetryDue, DoAll, Latest, Covered, Unfired, Harmless;
    var s1 := DoAll(s, env.afterSnapshot);
    DoAllCovered(s, env.afterSnapshot, now.date);
    CoveredFrame(s1, now.date, now.minute, true);
    RetryPhaseCovered(s, s1, now, env);
    var p := RetryPhase(s, s1, now, env);
    DoAllCovered(p, env.beforeAdvance, now.date);
    CoveredFrame(DoAll(p, env.beforeAdvance), now.date, now.minute, true);
    var s3 := DoAll(p, env.beforeAdvance).(lastTick := now.minute, haveLastTick := true);
    DoAllCovered(s3, env.duringFire, now.date);
    var pick := Latest(s.entries, s.lastTick, now, s.firedAt);
    if pick.Some? && !RetryDue(s.entries, s1.retry, s.lastTick, now) {
      PickUnfired(s, now);
      RecordCovered(DoAll(s3, env.duringFire), s.entries[pick.value], pick.value, now, env.outcome, env.saved);
    }
  }

  lemma RestartCovered(s: State, date: int)
    requires AtMostOnce(s.history)
    ensures Covered(Step(s, Restart), date) <==> FileCovers(s.disk, s.history, date)
    ensures var t := Step(s, Restart);
            Covers(t.entries, t.firedAt, t.history, date) <==> FileCovers(s.disk, s.history, date)
  {
    if Loads(s.disk) {
      var p := s.disk.value;
      forall x
        ensures x in SortByAt(p.entries) <==> x in p.entries
      {
        SortSameElements(p.entries, x);
      }
    }
  }

  /**
   Over every orderly run - ticks, toggles and harmless replacements in and
   between them, restarts, a repeated hour of the wall clock - each time of day
   has at most one successful fire per local date, first fires and retries
   counted together.
   */
  lemma {:induction false} FiresAtMostOncePerDate(s: State, date: int, evs: seq<Event>)
    requires Covered(s, date) && Orderly(s, date, evs)
    ensures AtMostOnce(Run(s, evs).history)
    decreases |evs|
  {
    hide OrderlyTick, Tick, Do, Loaded;
    if evs == [] {
    } else {
      var later := if evs[0].TickAt? then evs[0].now.date else date;
      CoveredLater(s, date, later);
      match evs[0] {
        case TickAt(now, env) => TickCovered(s, now, env);
        case Call(op) =>
          assert op in [op];
          DoCovered(s, op, date);
        case Restart => RestartCovered(s, date);
      }
      FiresAtMostOncePerDate(Step(s, evs[0]), later, evs[1..]);
    }
  }

  /** A schedule just put in place in a new daemon is a start the theorem applies to. */
  lemma FreshScheduleIsCovered(disk: Option<Persisted>, on: bool, rows: seq<Entry>, saved: bool, date: int)
    ensures Covered(Do(Blank(disk, []), Replace(on, rows, saved)), date)
  {
  }

  // ---- the retry machine -----------------------------------------------------

  /** Ticks are at least `d` seconds apart from `last` on; calls and restarts are free. */
  predicate Paced(d: int, last: int, evs: seq<Event>)
    decreases |evs|
  {
    evs == [] ||
    match evs[0]
    case TickAt(now, _) => last + d <= now.secs && Paced(d, now.secs, evs[1..])
    case _ => Paced(d, last, evs[1..])
  }

  /** When the episode of `r` began, and when its latest attempt was made. */
  function EpisodeStart(r: Retry): int { r.deadline - RETRY_DEADLINE }
  function LatestAttempt(r: Retry): int { r.nextAttempt - RETRY_CADENCE }

  /** The attempts of a pending retry fit into its ten minutes, `d` seconds apart. */
  ghost predicate Bounded(s: State, d: int, last: int) {
    s.retry.Some? ==>
      var r := s.retry.value;
      && 1 <= r.attempts
      && d * (r.attempts - 1) <= LatestAttempt(r) - EpisodeStart(r) < RETRY_DEADLINE
      && LatestAttempt(r) <= last
  }

  lemma {:induction false} DoAllRetry(s: State, ops: seq<Op>)
    ensures DoAll(s, ops).retry in {s.retry, None}
    ensures DoAll(s, ops).history == s.history
    decreases |ops|
  {
    if ops == [] {
    } else {
      DoAllRetry(Do(s, ops[0]), ops[1..]);
    }
  }

  lemma RecordBounded(s: State, e: Entry, index: nat, now: Instant, outcome: Outcome, saved: bool, d: int, last: int)
    requires Bounded(s, d, last) && last + d <= now.secs
    requires s.retry.Some? ==> now.secs < s.retry.value.deadline
    ensures Bounded(Record(s, e, index, now, outcome, saved), d, now.secs)
  {
    if outcome == Failed(Transient) && s.retry.Some? && s.retry.value.entry.at == e.at {
      assert d * s.retry.value.attempts == d * (s.retry.value.attempts - 1) + d;
    }
  }

  lemma RetryPhaseBounded(snap: State, s: State, now: Instant, env: Env, d: int, last: int)
    requires 0 <= d && Bounded(s, d, last) && last + d <= now.secs
    ensures var p := RetryPhase(snap, s, now, env);
            && Bounded(p, d, now.secs)
            && (RetryDue(snap.entries, s.retry, snap.lastTick, now)
                || (Bounded(p, d, last) && (p.retry.Some? ==> now.secs < p.retry.value.deadline)))
  {
    hide Record, HasNewer;
    var s' := DoAll(s, env.afterRetryRead);
    DoAllRetry(s, env.afterRetryRead);
    if RetryDue(snap.entries, s.retry, snap.lastTick, now) {
      RecordBounded(s', s.retry.value.entry, s.retry.value.index, now, env.outcome, env.saved, d, last);
    }
  }

  lemma TickBounded(s: State, now: Instant, env: Env, d: int, last: int)
    requires 0 <= d && Bounded(s, d, last) && last + d <= now.secs
    ensures Bounded(Tick(s, now, env), d, now.secs)
  {
    hide Record, RetryPhase, RetryDue, DoAll, Latest;
    var s1 := DoAll(s, env.afterSnapshot);
    DoAllRetry(s, env.afterSnapshot);
    RetryPhaseBounded(s, s1, now, env, d, last);
    var p := RetryPhase(s, s1, now, env);
    DoAllRetry(p, env.beforeAdvance);
    var s3 := DoAll(p, env.beforeAdvance).(lastTick := now.minute, haveLastTick := true);
    DoAllRetry(s3, env.duringFire);
    var pick := Latest(s.entries, s.lastTick, now, s.firedAt);
    if pick.Some? && !RetryDue(s.entries, s1.retry, s.lastTick, now) {
      RecordBounded(DoAll(s3, env.duringFire), s.entries[pick.value], pick.value, now, env.outcome, env.saved, d, last);
    }
  }

  /**
   With ticks at least `d` seconds apart a pending retry has made fewer than
   600/d + 1 attempts, all inside its first ten minutes, over every run -
   replacements in mid-fire and restarts included.
   */
  lemma {:induction false} RetriesAreBounded(s: State, d: int, last: int, evs: seq<Event>)
    requires 0 <= d && Bounded(s, d, last) && Paced(d, last, evs)
    ensures var r := Run(s, evs).retry;
            r.Some? ==> d * (r.value.attempts - 1) < 600
    decreases |evs|
  {
    if evs == [] {
    } else {
      var last' := if evs[0].TickAt? then evs[0].now.secs else last;
      match evs[0] {
        case TickAt(now, env) => TickBounded(s, now, env, d, last);
        case Call(op) => DoAllRetry(s, [op]); assert DoAll(s, [op]) == Do(s, op);
        case Restart =>
      }
      RetriesAreBounded(Step(s, evs[0]), d, last', evs[1..]);
    }
  }

  /**
   `r` is what one step at `now` may make of the retry `was`: the same, none, a new
   episode (first attempt, full ten minutes), or one more attempt under the same deadline.
   */
  ghost predicate NextRetry(was: Option<Retry>, r: Option<Retry>, now: Instant) {
    || r in {was, None}
    || (r.value.attempts == 1 && r.value.deadline == now.secs + RETRY_DEADLINE)
    || (was.Some? && r.value.entry.at == was.value.entry.at && r.value.attempts == was.value.attempts + 1
        && r.value.deadline == was.value.deadline && now.secs < r.value.deadline)
  }

  /** `h` is `was` with at most one fire more, made at `now`. */
  ghost predicate NextHistory(was: seq<Fire>, h: seq<Fire>, now: Instant) {
    h == was || (|h| == |was| + 1 && h[..|was|] == was && h[|was|].when == now)
  }

  lemma RecordNext(s: State, e: Entry, index: nat, now: Instant, outcome: Outcome, saved: bool)
    requires s.retry.Some? ==> now.secs < s.retry.value.deadline
    ensures var t := Record(s, e, index, now, outcome, saved);
            NextRetry(s.retry, t.retry, now) && NextHistory(s.history, t.history, now)
  {
  }

  lemma RetryPhaseNext(snap: State, s: State, now: Instant, env: Env)
    ensures var p := RetryPhase(snap, s, now, env);
            && NextRetry(s.retry, p.retry, now) && NextHistory(s.history, p.history, now)
            && (RetryDue(snap.entries, s.retry, snap.lastTick, now)
                || (p.retry in {s.retry, None} && p.history == s.history
                    && (p.retry.Some? ==> now.secs < p.retry.value.deadline)))
  {
    hide Record, HasNewer;
    var s' := DoAll(s, env.afterRetryRead);
    DoAllRetry(s, env.afterRetryRead);
    if RetryDue(snap.entries, s.retry, snap.lastTick, now) {
      RecordNext(s', s.retry.value.entry, s.retry.value.index, now, env.outcome, env.saved);
    }
  }

  /** A tick fires at most once, and never moves the deadline of an episode it continues. */
  lemma TickNext(s: State, now: Instant, env: Env)
    ensures var t := Tick(s, now, env);
            NextRetry(s.retry, t.retry, now) && NextHistory(s.history, t.history, now)
  {
    hide Record, RetryPhase, RetryDue, DoAll, Latest;
    var s1 := DoAll(s, env.afterSnapshot);
    DoAllRetry(s, env.afterSnapshot);
    RetryPhaseNext(s, s1, now, env);
    var p := RetryPhase(s, s1, now, env);
    DoAllRetry(p, env.beforeAdvance);
    var s3 := DoAll(p, env.beforeAdvance).(lastTick := now.minute, haveLastTick := true);
    DoAllRetry(s3, env.duringFire);
    var pick := Latest(s.entries, s.lastTick, now, s.firedAt);
    if pick.Some? && !RetryDue(s.entries, s1.retry, s.lastTick, now) {
      RecordNext(DoAll(s3, env.duringFire), s.entries[pick.value], pick.value, now, env.outcome, env.saved);
    }
  }
}
