/**
 The schedule of one device as values: its state, what each operation does to
 it, and what a minute tick does when other goroutines run in its lock gaps.
 */
module Schedule {
  import opened Wrappers
  import opened Clock

  /** One "at this time, set this state" row. */
  datatype Entry = Entry(at: Minute, action: string, pct: int)

  datatype FireError = AuthFailed | Transient

  /** How dialling the device and issuing an entry's writes ended. */
  datatype Outcome = Succeeded | Failed(error: FireError)

  datatype LastApply = LastApply(at: Minute, fired: Instant, ok: bool, err: Option<FireError>, retries: nat)

  datatype Retry = Retry(entry: Entry, index: nat, attempts: nat, nextAttempt: int, deadline: int)

  /** The contents of the state file. */
  datatype Persisted = Persisted(enabled: bool, entries: seq<Entry>,
                                 lastApply: Option<LastApply>, firedAt: map<Minute, Instant>)

  /** A successful fire, for the history. */
  datatype Fire = Fire(at: Minute, when: Instant)

  /** A scheduler, its state file, and the history of its successful fires. */
  datatype State = State(
    enabled: bool,
    entries: seq<Entry>,
    lastApply: Option<LastApply>,
    retry: Option<Retry>,
    firedAt: map<Minute, Instant>,
    lastTick: Minute,
    haveLastTick: bool,
    disk: Option<Persisted>,
    history: seq<Fire>)

  /** A call another goroutine makes; `saved` says whether the state file could be written. */
  datatype Op =
    | Replace(on: bool, rows: seq<Entry>, saved: bool)
    | SetEnabled(on: bool, saved: bool)

  /**
   What happens around one tick: the calls that run in each gap between the
   tick's critical sections, how its fire ends, and whether its save works.
   */
  datatype Env = Env(
    afterSnapshot: seq<Op>,
    afterRetryRead: seq<Op>,
    beforeAdvance: seq<Op>,
    duringFire: seq<Op>,
    outcome: Outcome,
    saved: bool)

  const MAX_ENTRIES := 24
  const RETRY_CADENCE := 30
  const RETRY_DEADLINE := 600
  const VALID_ACTIONS := {"off", "regeneration", "ventilation", "supply", "extract"}

  // ---- validation and order ------------------------------------------------

  predicate ValidEntry(e: Entry) {
    e.action in VALID_ACTIONS && e.pct <= 100 && (e.action != "off" ==> 10 <= e.pct)
  }

  predicate DistinctTimes(entries: seq<Entry>) {
    forall i, j :: 0 <= i < j < |entries| ==> entries[i].at != entries[j].at
  }

  predicate ValidEntries(entries: seq<Entry>) {
    |entries| <= MAX_ENTRIES && (forall e :: e in entries ==> ValidEntry(e)) && DistinctTimes(entries)
  }

  predicate Ascending(entries: seq<Entry>) {
    forall i, j :: 0 <= i < j < |entries| ==> entries[i].at < entries[j].at
  }

  function InsertByAt(e: Entry, sorted: seq<Entry>): seq<Entry> {
    if sorted == [] then [e]
    else if e.at < sorted[0].at then [e] + sorted
    else [sorted[0]] + InsertByAt(e, sorted[1..])
  }

  /** The entries by ascending time. */
  function SortByAt(entries: seq<Entry>): seq<Entry> {
    if entries == [] then [] else InsertByAt(entries[0], SortByAt(entries[1..]))
  }

  lemma {:induction false} InsertPermutes(e: Entry, sorted: seq<Entry>)
    ensures multiset(InsertByAt(e, sorted)) == multiset(sorted) + multiset{e}
  {
    if sorted != [] && sorted[0].at <= e.at {
      InsertPermutes(e, sorted[1..]);
      assert sorted == [sorted[0]] + sorted[1..];
    }
  }

  lemma {:induction false} SortPermutes(entries: seq<Entry>)
    ensures multiset(SortByAt(entries)) == multiset(entries)
  {
    if entries == [] {
    } else {
      SortPermutes(entries[1..]);
      InsertPermutes(entries[0], SortByAt(entries[1..]));
      assert entries == [entries[0]] + entries[1..];
    }
  }

  lemma SortSameElements(entries: seq<Entry>, x: Entry)
    ensures x in SortByAt(entries) <==> x in entries
  {
    SortPermutes(entries);
    assert x in multiset(SortByAt(entries)) <==> x in multiset(entries);
  }

  lemma InsertSameElements(e: Entry, sorted: seq<Entry>, x: Entry)
    ensures x in InsertByAt(e, sorted) <==> x in sorted || x == e
  {
    InsertPermutes(e, sorted);
    assert x in multiset(InsertByAt(e, sorted)) <==> x in multiset(sorted) + multiset{e};
  }

  lemma {:induction false} InsertAscending(e: Entry, sorted: seq<Entry>)
    requires Ascending(sorted) && forall x :: x in sorted ==> x.at != e.at
    ensures Ascending(InsertByAt(e, sorted))
  {
    if sorted != [] && sorted[0].at <= e.at {
      var tail := InsertByAt(e, sorted[1..]);
      InsertAscending(e, sorted[1..]);
      forall j | 0 <= j < |tail|
        ensures sorted[0].at < tail[j].at
      {
        InsertSameElements(e, sorted[1..], tail[j]);
      }
    }
  }

  /** Sorting entries with distinct times puts them in strictly ascending order. */
  lemma {:induction false} SortAscends(entries: seq<Entry>)
    requires DistinctTimes(entries)
    ensures Ascending(SortByAt(entries))
  {
    if entries == [] {
    } else {
      SortAscends(entries[1..]);
      forall x | x in SortByAt(entries[1..])
        ensures x.at != entries[0].at
      {
        SortSameElements(entries[1..], x);
      }
      InsertAscending(entries[0], SortByAt(entries[1..]));
    }
  }

  lemma SortKeepsValid(entries: seq<Entry>)
    requires ValidEntries(entries)
    ensures ValidEntries(SortByAt(entries)) && Ascending(SortByAt(entries))
  {
    SortAscends(entries);
    SortPermutes(entries);
    assert |SortByAt(entries)| == |multiset(SortByAt(entries))| == |multiset(entries)|;
    forall e | e in SortByAt(entries)
      ensures ValidEntry(e)
    {
      SortSameElements(entries, e);
    }
  }

  // ---- operations ----------------------------------------------------------

  function Saved(s: State, ok: bool): State {
    if ok then s.(disk := Some(Persisted(s.enabled, s.entries, s.lastApply, s.firedAt))) else s
  }

  function Do(s: State, op: Op): State {
    match op
    case SetEnabled(on, saved) =>
      Saved(s.(enabled := on && s.entries != []), saved)
    case Replace(on, rows, saved) =>
      if !ValidEntries(rows) then s
      else
        Saved(s.(enabled := on && rows != [], entries := SortByAt(rows),
                 lastApply := None, retry := None, firedAt := map[]), saved)
  }

  function DoAll(s: State, ops: seq<Op>): State
    decreases |ops|
  {
    if ops == [] then s else DoAll(Do(s, ops[0]), ops[1..])
  }

  /** A new scheduler, before its state file is loaded. */
  function Blank(disk: Option<Persisted>, history: seq<Fire>): State {
    State(false, [], None, None, map[], 0, false, disk, history)
  }

  /** What loading does: nothing when the file is missing or fails validation. */
  function Loaded(s: State): State {
    match s.disk
    case None => s
    case Some(p) =>
      if !ValidEntries(p.entries) then s
      else s.(enabled := p.enabled, entries := SortByAt(p.entries), lastApply := p.lastApply, firedAt := p.firedAt)
  }

  /** The locked second half of a fire: record its outcome. */
  function Record(s: State, e: Entry, index: nat, now: Instant, outcome: Outcome, saved: bool): State {
    match outcome
    case Succeeded =>
      Saved(s.(lastApply := Some(LastApply(e.at, now, true, None, 0)), retry := None,
               firedAt := s.firedAt[e.at := now], history := s.history + [Fire(e.at, now)]), saved)
    case Failed(AuthFailed) =>
      Saved(s.(lastApply := Some(LastApply(e.at, now, false, Some(AuthFailed), 0)), retry := None), saved)
    case Failed(Transient) =>
      var same := s.retry.Some? && s.retry.value.entry.at == e.at;
      var attempts := if same then s.retry.value.attempts + 1 else 1;
      var deadline := if same then s.retry.value.deadline else now.secs + RETRY_DEADLINE;
      Saved(s.(retry := Some(Retry(e, index, attempts, now.secs + RETRY_CADENCE, deadline)),
               lastApply := Some(LastApply(e.at, now, false, Some(Transient), attempts - 1))), saved)
  }

  // ---- the tick ------------------------------------------------------------

  /** An entry the tick may fire: crossed, and not yet fired on this local date. */
  predicate Eligible(e: Entry, last: Minute, now: Instant, firedAt: map<Minute, Instant>) {
    InWindow(last, now.minute, e.at) && !(e.at in firedAt && firedAt[e.at].date == now.date)
  }

  /** The index of the eligible entry crossed last, the first such if several tie. */
  function Latest(entries: seq<Entry>, last: Minute, now: Instant, firedAt: map<Minute, Instant>): (r: Option<nat>)
    ensures r.None? <==> forall i :: 0 <= i < |entries| ==> !Eligible(entries[i], last, now, firedAt)
    ensures r.Some? ==> r.value < |entries| && Eligible(entries[r.value], last, now, firedAt)
    ensures r.Some? ==> forall i :: 0 <= i < |entries| && Eligible(entries[i], last, now, firedAt) ==>
                                      Dist(last, entries[i].at) <= Dist(last, entries[r.value].at)
  {
    if entries == [] then None
    else
      var n := |entries| - 1;
      var prev := Latest(entries[..n], last, now, firedAt);
      assert forall i :: 0 <= i < n ==> entries[i] == entries[..n][i];
      if Eligible(entries[n], last, now, firedAt)
         && (prev.None? || Dist(last, entries[n].at) > Dist(last, entries[prev.value].at))
      then Some(n)
      else prev
  }

  /** An entry other than the one being retried has just been crossed. */
  predicate HasNewer(entries: seq<Entry>, r: Retry, last: Minute, now: Minute) {
    exists i :: 0 <= i < |entries| && InWindow(last, now, entries[i].at) && entries[i].at != r.entry.at
  }

  /** The retry `r` is due: neither superseded, nor past its deadline, nor too early. */
  predicate RetryDue(entries: seq<Entry>, r: Option<Retry>, last: Minute, now: Instant) {
    r.Some? && !HasNewer(entries, r.value, last, now.minute) && r.value.nextAttempt <= now.secs < r.value.deadline
  }

  /** `s` when the retry was read; `snap` when the tick began. */
  function RetryPhase(snap: State, s: State, now: Instant, env: Env): State {
    var r := s.retry;
    var s' := DoAll(s, env.afterRetryRead);
    if r.None? then s'
    else if HasNewer(snap.entries, r.value, snap.lastTick, now.minute) then s'.(retry := None)
    else if r.value.deadline <= now.secs then Saved(s'.(retry := None), env.saved)
    else if r.value.nextAttempt <= now.secs then
      Record(s', r.value.entry, r.value.index, now, env.outcome, env.saved)
    else s'
  }

  /** The end of a tick: advance the last tick, then fire what was picked. */
  function Conclude(s: State, rows: seq<Entry>, pick: Option<nat>, now: Instant, env: Env): State
    requires pick.Some? ==> pick.value < |rows|
  {
    var t := DoAll(s, env.beforeAdvance).(lastTick := now.minute, haveLastTick := true);
    if pick.None? then t
    else Record(DoAll(t, env.duringFire), rows[pick.value], pick.value, now, env.outcome, env.saved)
  }

  /** The entry a tick's transition detection picks; none when it made a retry attempt. */
  function Picked(snap: State, s: State, now: Instant): (r: Option<nat>)
    ensures r.Some? ==> r.value < |snap.entries|
  {
    if RetryDue(snap.entries, s.retry, snap.lastTick, now) then None
    else Latest(snap.entries, snap.lastTick, now, snap.firedAt)
  }

  /** The rest of a tick that copied `snap` and then saw a window to look at. */
  function Rest(snap: State, s: State, now: Instant, env: Env): State {
    Conclude(RetryPhase(snap, s, now, env), snap.entries, Picked(snap, s, now), now, env)
  }

  /** The entry that rest of a tick sends to the device, if any. */
  function Dispatch(snap: State, s: State, now: Instant): Option<Entry> {
    if RetryDue(snap.entries, s.retry, snap.lastTick, now) then Some(s.retry.value.entry)
    else
      var pick := Picked(snap, s, now);
      if pick.Some? then Some(snap.entries[pick.value]) else None
  }

  function Tick(s: State, now: Instant, env: Env): State {
    var s1 := DoAll(s, env.afterSnapshot);
    if !s.enabled then
      s1.(lastTick := now.minute, haveLastTick := true, retry := None)
    else if !s.haveLastTick then
      s1.(lastTick := now.minute, haveLastTick := true)
    else if now.minute == s.lastTick then
      s1
    else
      Rest(s, s1, now, env)
  }

  /** The entry a tick sends to the device, if any. */
  function Dispatched(s: State, now: Instant, env: Env): Option<Entry> {
    if !s.enabled || !s.haveLastTick || now.minute == s.lastTick then None
    else Dispatch(s, DoAll(s, env.afterSnapshot), now)
  }
}
