/** What becomes of each showing of an entry's time over a run of ticks. */
module ScheduleShowings {
  import opened Wrappers
  import opened Clock
  import opened Schedule
  import opened ScheduleRuns
  import opened ScheduleLimits

  /** The tick sends an entry for the time `at`. */
  predicate Sends(s: State, now: Instant, env: Env, at: Minute) {
    Dispatched(s, now, env).Some? && Dispatched(s, now, env).value.at == at
  }

  /** The tick sends an entry whose time the clock passed after `at`. */
  predicate PassesOver(s: State, now: Instant, env: Env, at: Minute) {
    Dispatched(s, now, env).Some? && Dist(s.lastTick, at) < Dist(s.lastTick, Dispatched(s, now, env).value.at)
  }

  predicate Suppresses(s: State, now: Instant, at: Minute) {
    at in s.firedAt && s.firedAt[at].date == now.date
  }

  predicate Decides(s: State, now: Instant, env: Env, at: Minute) {
    Sends(s, now, env, at) || PassesOver(s, now, env, at) || Suppresses(s, now, at)
  }

  lemma SameDistance(from: Minute, a: Minute, b: Minute)
    ensures Dist(from, a) == Dist(from, b) ==> a == b
  {
  }

  /** A crossed entry is sent, passed over for a later one, or suppressed - a due retry is never in its way. */
  lemma CrossedIsDecided(s: State, now: Instant, env: Env, i: nat)
    requires s.enabled && s.haveLastTick && now.minute != s.lastTick
    requires i < |s.entries| && InWindow(s.lastTick, now.minute, s.entries[i].at)
    ensures Decides(s, now, env, s.entries[i].at)
  {
    hide DoAll, Dist;
    var r := DoAll(s, env.afterSnapshot).retry;
    var pick := Latest(s.entries, s.lastTick, now, s.firedAt);
    if !RetryDue(s.entries, r, s.lastTick, now) && Eligible(s.entries[i], s.lastTick, now, s.firedAt) {
      SameDistance(s.lastTick, s.entries[i].at, s.entries[pick.value].at);
    }
  }

  /**
   Without a due retry, a crossed entry is sent, or passed over for one crossed
   later, exactly when it or one crossed later has not fired on the tick's date.
   */
  lemma CrossedIsServedIff(s: State, now: Instant, env: Env, i: nat)
    requires s.enabled && s.haveLastTick && now.minute != s.lastTick
    requires i < |s.entries| && InWindow(s.lastTick, now.minute, s.entries[i].at)
    requires !RetryDue(s.entries, DoAll(s, env.afterSnapshot).retry, s.lastTick, now)
    ensures Sends(s, now, env, s.entries[i].at) || PassesOver(s, now, env, s.entries[i].at) <==>
            exists j :: 0 <= j < |s.entries| && InWindow(s.lastTick, now.minute, s.entries[j].at)
                        && Dist(s.lastTick, s.entries[i].at) <= Dist(s.lastTick, s.entries[j].at)
                        && !Suppresses(s, now, s.entries[j].at)
  {
    hide DoAll, Dist, RetryDue;
    var at := s.entries[i].at;
    var pick := Latest(s.entries, s.lastTick, now, s.firedAt);
    if pick.Some? {
      SameDistance(s.lastTick, at, s.entries[pick.value].at);
      assert Eligible(s.entries[pick.value], s.lastTick, now, s.firedAt);
    }
    forall j | 0 <= j < |s.entries| && InWindow(s.lastTick, now.minute, s.entries[j].at)
               && !Suppresses(s, now, s.entries[j].at)
      ensures Eligible(s.entries[j], s.lastTick, now, s.firedAt)
    {
    }
  }

  // ---- the last tick over a run ----------------------------------------------------

  lemma {:induction false} CallsKeepLastTick(s: State, ops: seq<Op>)
    ensures var t := DoAll(s, ops);
            t.lastTick == s.lastTick && t.haveLastTick == s.haveLastTick
    decreases |ops|
  {
    if ops == [] {
      assert DoAll(s, ops) == s;
    } else {
      CallsKeepLastTick(Do(s, ops[0]), ops[1..]);
    }
  }

  /**
   A disabled schedule, the first tick after a start and a second tick within a
   minute send nothing and fire nothing; each leaves its own minute as the last,
   and a disabled one gives up its retry.
   */
  lemma IdleTickFiresNothing(s: State, now: Instant, env: Env)
    requires !s.enabled || !s.haveLastTick || now.minute == s.lastTick
    ensures var t := Tick(s, now, env);
            && t.history == s.history && t.haveLastTick && t.lastTick == now.minute
            && t.retry in {s.retry, None} && (!s.enabled ==> t.retry.None?)
    ensures Dispatched(s, now, env).None?
  {
    DoAllRetry(s, env.afterSnapshot);
    CallsKeepLastTick(s, env.afterSnapshot);
  }

  lemma RecordKeeps(s: State, e: Entry, index: nat, now: Instant, outcome: Outcome, saved: bool)
    ensures var t := Record(s, e, index, now, outcome, saved);
            t.entries == s.entries && t.lastTick == s.lastTick && t.haveLastTick == s.haveLastTick
  {
  }

  lemma PhaseKeeps(snap: State, s: State, now: Instant, env: Env)
    requires NoReplace(env.afterRetryRead)
    ensures var t := RetryPhase(snap, s, now, env);
            t.entries == s.entries && t.lastTick == s.lastTick && t.haveLastTick == s.haveLastTick
  {
    hide DoAll, HasNewer, Record;
    var t := DoAll(s, env.afterRetryRead);
    TogglesKeepEntries(s, env.afterRetryRead);
    CallsKeepLastTick(s, env.afterRetryRead);
    if s.retry.Some? {
      RecordKeeps(t, s.retry.value.entry, s.retry.value.index, now, env.outcome, env.saved);
    }
  }

  /** A tick without replacements keeps the entries and moves the last tick to now. */
  lemma TickAdvances(s: State, now: Instant, env: Env)
    requires s.haveLastTick && Undisturbed(env)
    ensures var t := Tick(s, now, env);
            t.entries == s.entries && t.lastTick == now.minute && t.haveLastTick
  {
    hide DoAll, RetryPhase, Record, Picked;
    var s1 := DoAll(s, env.afterSnapshot);
    TogglesKeepEntries(s, env.afterSnapshot);
    CallsKeepLastTick(s, env.afterSnapshot);
    PhaseKeeps(s, s1, now, env);
    var p := RetryPhase(s, s1, now, env);
    TogglesKeepEntries(p, env.beforeAdvance);
    var t := DoAll(p, env.beforeAdvance).(lastTick := now.minute, haveLastTick := true);
    TogglesKeepEntries(t, env.duringFire);
    CallsKeepLastTick(t, env.duringFire);
    var pick := Picked(s, s1, now);
    if pick.Some? {
      RecordKeeps(DoAll(t, env.duringFire), s.entries[pick.value], pick.value, now, env.outcome, env.saved);
    }
  }

  /**
   Ticks without replacements at the absolute minutes `clock[1..]`, after one at
   `clock[0]`, all with the schedule enabled.
   */
  ghost predicate Ticking(s: State, clock: seq<int>, evs: seq<Event>) {
    && |clock| == |evs| + 1 && Clock.Forward(clock)
    && s.haveLastTick && s.lastTick == clock[0] % DAY
    && (forall k :: 0 <= k < |evs| ==> TickedAt(evs[k], clock[k + 1]))
    && (forall k :: 0 <= k < |evs| ==> Run(s, evs[..k]).enabled)
  }

  ghost predicate TickedAt(ev: Event, at: int) {
    ev.TickAt? && Undisturbed(ev.env) && ev.now.minute == at % DAY
  }

  lemma {:induction false} RunSnoc(s: State, evs: seq<Event>, k: nat)
    requires k < |evs|
    ensures Run(s, evs[..k + 1]) == Step(Run(s, evs[..k]), evs[k])
    decreases k
  {
    hide Step;
    if k == 0 {
      assert evs[..1][1..] == [] && evs[..1][0] == evs[0];
    } else {
      RunSnoc(Step(s, evs[0]), evs[1..], k - 1);
      assert evs[..k + 1][1..] == evs[1..][..k] && evs[..k][1..] == evs[1..][..k - 1];
    }
  }

  lemma {:induction false} StateBeforeTick(s: State, clock: seq<int>, evs: seq<Event>, k: nat)
    requires Ticking(s, clock, evs) && k <= |evs|
    ensures var t := Run(s, evs[..k]);
            t.entries == s.entries && t.haveLastTick && t.lastTick == clock[k] % DAY
    decreases k
  {
    hide Tick;
    if k == 0 {
      assert evs[..0] == [];
    } else {
      StateBeforeTick(s, clock, evs, k - 1);
      RunSnoc(s, evs, k - 1);
      assert TickedAt(evs[k - 1], clock[k]);
      TickAdvances(Run(s, evs[..k - 1]), evs[k - 1].now, evs[k - 1].env);
    }
  }

  /** The tick in whose stretch of the clock the minute `m` lies. */
  lemma {:induction false} FindTick(clock: seq<int>, m: int) returns (k: nat)
    requires 1 <= |clock| && clock[0] < m <= clock[|clock| - 1]
    ensures k + 1 < |clock| && clock[k] < m <= clock[k + 1]
    decreases |clock|
  {
    var n := |clock| - 1;
    if clock[n - 1] < m {
      k := n - 1;
    } else {
      k := FindTick(clock[..n], m);
    }
  }

  lemma ClockRises(clock: seq<int>, i: nat, j: nat)
    requires Clock.Forward(clock) && i <= j < |clock|
    ensures clock[i] <= clock[j]
    decreases j - i
  {
    if i < j {
      ClockRises(clock, i, j - 1);
    }
  }

  /**
   Over forward ticks of an enabled schedule, each showing of an entry's time
   lies in the stretch of exactly one tick, and that tick sends an entry for it,
   passes it over for one the clock passed later, or suppresses it as fired.
   */
  lemma EveryShowingIsDecided(s: State, clock: seq<int>, evs: seq<Event>, i: nat, m: int) returns (k: nat)
    requires Ticking(s, clock, evs) && i < |s.entries|
    requires clock[0] < m <= clock[|evs|] && m % DAY == s.entries[i].at
    ensures k < |evs| && clock[k] < m <= clock[k + 1]
    ensures forall j :: 0 <= j < |evs| && j != k ==> !(clock[j] < m <= clock[j + 1])
    ensures Decides(Run(s, evs[..k]), evs[k].now, evs[k].env, s.entries[i].at)
  {
    hide Tick, Decides;
    k := FindTick(clock, m);
    var t := Run(s, evs[..k]);
    StateBeforeTick(s, clock, evs, k);
    assert TickedAt(evs[k], clock[k + 1]) && clock[k] <= clock[k + 1] < clock[k] + DAY;
    WindowCompleteIff(clock[k], clock[k + 1]);
    assert Seen(clock[k], clock[k + 1], m % DAY);
    CrossedIsDecided(t, evs[k].now, evs[k].env, i);
    forall j | 0 <= j < |evs| && j != k
      ensures !(clock[j] < m <= clock[j + 1])
    {
      if j < k {
        ClockRises(clock, j + 1, k);
      } else {
        ClockRises(clock, k + 1, j);
      }
    }
  }
}
