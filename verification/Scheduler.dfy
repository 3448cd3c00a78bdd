/** The per-device scheduler that fires power, mode and speed writes at set times. */
module Scheduler {
  import opened Wrappers
  import opened Clock
  import opened Schedule
  import opened ScheduleRuns
  import opened Params
  import opened MemDevice
  import opened Ops

  /** Why a schedule is refused, with the index of the first offending entry. */
  datatype Rejection =
    | TooMany
    | BadAction(index: nat)
    | PctTooBig(index: nat)
    | PctTooSmall(index: nat)
    | Duplicate(index: nat)

  datatype ReplaceError = Invalid(why: Rejection) | NotPersisted

  /** The first rule `e`, coming after `before`, breaks: action, then percentage too big, too small, then time taken. */
  ghost predicate Breaks(before: seq<Entry>, e: Entry, why: Rejection) {
    var taken := exists x :: x in before && x.at == e.at;
    match why
    case TooMany => false
    case BadAction(i) => i == |before| && e.action !in VALID_ACTIONS
    case PctTooBig(i) => i == |before| && e.action in VALID_ACTIONS && e.pct > 100
    case PctTooSmall(i) => i == |before| && e.action in VALID_ACTIONS && e.action != "off" && e.pct < 10
    case Duplicate(i) => i == |before| && ValidEntry(e) && taken
  }

  class Scheduler {
    var enabled: bool
    var entries: seq<Entry>
    var lastApply: Option<LastApply>
    var retry: Option<Retry>
    var firedAt: map<Minute, Instant>
    var lastTick: Minute
    var haveLastTick: bool
    var disk: Option<Persisted>
    ghost var history: seq<Fire>

    ghost function View(): State
      reads this
    {
      State(enabled, entries, lastApply, retry, firedAt, lastTick, haveLastTick, disk, history)
    }

    constructor (disk: Option<Persisted>, ghost history: seq<Fire>)
      ensures View() == Blank(disk, history)
    {
      enabled, entries, lastApply, retry := false, [], None, None;
      firedAt, lastTick, haveLastTick := map[], 0, false;
      this.disk, this.history := disk, history;
    }

    method Validate(rows: seq<Entry>) returns (r: Option<Rejection>)
      ensures r.None? <==> ValidEntries(rows)
      ensures r.None? <==>
              && |rows| <= 24
              && (forall e :: e in rows ==>
                    || (e.action == "off" && e.pct <= 100)
                    || (e.action in {"regeneration", "ventilation", "supply", "extract"} && 10 <= e.pct <= 100))
              && (forall i, j :: 0 <= i < j < |rows| ==> rows[i].at != rows[j].at)
      ensures r == Some(TooMany) <==> |rows| > MAX_ENTRIES
      ensures r.Some? && !r.value.TooMany? ==>
                exists i :: 0 <= i < |rows| && Breaks(rows[..i], rows[i], r.value)
                            && (forall x :: x in rows[..i] ==> ValidEntry(x)) && DistinctTimes(rows[..i])
    {
      if |rows| > MAX_ENTRIES {
        return Some(TooMany);
      }
      var seen: set<Minute> := {};
      for i := 0 to |rows|
        invariant seen == set x | x in rows[..i] :: x.at
        invariant forall x :: x in rows[..i] ==> ValidEntry(x)
        invariant DistinctTimes(rows[..i])
      {
        var e := rows[i];
        assert e in rows;
        if e.action !in VALID_ACTIONS {
          return Some(BadAction(i));
        }
        if e.pct > 100 {
          return Some(PctTooBig(i));
        }
        if e.action != "off" && e.pct < 10 {
          return Some(PctTooSmall(i));
        }
        if e.at in seen {
          assert Breaks(rows[..i], rows[i], Duplicate(i));
          return Some(Duplicate(i));
        }
        seen := seen + {e.at};
        assert rows[..i + 1] == rows[..i] + [e];
        assert forall k :: 0 <= k < i ==> rows[..i][k] in rows[..i];
      }
      assert rows[..|rows|] == rows;
      r := None;
    }

    method Save(works: bool) returns (ok: bool)
      modifies this`disk
      ensures ok == works && View() == Saved(old(View()), works)
      ensures disk == if works then Some(Persisted(enabled, entries, lastApply, firedAt)) else old(disk)
    {
      if works {
        disk := Some(Persisted(enabled, entries, lastApply, firedAt));
      }
      ok := works;
    }

    method Load()
      modifies this
      ensures View() == Loaded(old(View()))
      ensures disk.Some? && ValidEntries(disk.value.entries) ==>
                && enabled == disk.value.enabled
                && multiset(entries) == multiset(disk.value.entries) && Ascending(entries)
                && lastApply == disk.value.lastApply && firedAt == disk.value.firedAt
      ensures !(disk.Some? && ValidEntries(disk.value.entries)) ==> View() == old(View())
    {
      if disk.None? {
        return;
      }
      var p := disk.value;
      var why := Validate(p.entries);
      if why.Some? {
        return;
      }
      SortPermutes(p.entries);
      SortAscends(p.entries);
      enabled, entries, lastApply, firedAt := p.enabled, SortByAt(p.entries), p.lastApply, p.firedAt;
    }

    method SetEnabled(on: bool, saves: bool) returns (err: Option<ReplaceError>)
      modifies this
      ensures View() == Do(old(View()), Op.SetEnabled(on, saves))
      ensures (enabled <==> on && entries != []) && entries == old(entries) && retry == old(retry)
      ensures lastApply == old(lastApply) && firedAt == old(firedAt)
      ensures disk == if saves then Some(Persisted(enabled, entries, lastApply, firedAt)) else old(disk)
      ensures err == if saves then None else Some(NotPersisted)
    {
      enabled := on;
      if on && |entries| == 0 {
        enabled := false;
      }
      var ok := Save(saves);
      err := if ok then None else Some(NotPersisted);
    }

    method Replace(on: bool, rows: seq<Entry>, saves: bool) returns (err: Option<ReplaceError>)
      modifies this
      ensures View() == Do(old(View()), Op.Replace(on, rows, saves))
      ensures ValidEntries(rows) ==>
                && (enabled <==> on && rows != []) && multiset(entries) == multiset(rows) && Ascending(entries)
                && lastApply.None? && retry.None? && firedAt == map[]
      ensures !ValidEntries(rows) ==> View() == old(View())
      ensures err.Some? && err.value.Invalid? <==> !ValidEntries(rows)
      ensures ValidEntries(rows) ==>
                && err == (if saves then None else Some(NotPersisted))
                && disk == if saves then Some(Persisted(enabled, entries, None, map[])) else old(disk)
    {
      var why := Validate(rows);
      if why.Some? {
        return Some(Invalid(why.value));
      }
      SortKeepsValid(rows);
      SortPermutes(rows);
      var cp := SortByAt(rows);
      assert |multiset(cp)| == |multiset(rows)|;
      enabled, entries := on, cp;
      if on && |cp| == 0 {
        enabled := false;
      }
      lastApply, retry, firedAt := None, None, map[];
      var ok := Save(saves);
      err := if ok then None else Some(NotPersisted);
    }

    /** The calls other goroutines make while this one holds no lock. */
    method Interfere(ops: seq<Op>)
      modifies this
      ensures View() == DoAll(old(View()), ops)
    {
      for i := 0 to |ops|
        invariant DoAll(old(View()), ops) == DoAll(View(), ops[i..])
      {
        assert ops[i..][0] == ops[i] && ops[i..][1..] == ops[i + 1..];
        match ops[i] {
          case SetEnabled(on, saves) => var _ := SetEnabled(on, saves);
          case Replace(on, rows, saves) => var _ := Replace(on, rows, saves);
        }
      }
    }

    /** Dispatch one entry's writes, then record how they ended. */
    method Fire(e: Entry, index: nat, now: Instant, client: MemClient, dials: bool, ctxDone: seq<bool>,
                meanwhile: seq<Op>, saves: bool) returns (outcome: Outcome)
      requires ValidEntry(e) && |ctxDone| == 3
      modifies this, client`params
      ensures View() == Record(DoAll(old(View()), meanwhile), e, index, now, outcome, saves)
      ensures Delivered(old(client.params), client.params, e, outcome)
      ensures !dials ==> outcome == Failed(Transient)
      ensures outcome == Failed(AuthFailed) <==> dials && client.forceAuth
      ensures outcome == Succeeded <==>
              dials && !client.forceAuth && !client.forceTimeout && forall i :: 0 <= i < |Packets(e)| ==> !ctxDone[i]
      ensures outcome == Failed(AuthFailed) ==>
                retry.None? && lastApply == Some(LastApply(e.at, now, false, Some(AuthFailed), 0))
      ensures outcome == Failed(Transient) ==>
                && retry.Some? && retry.value.entry == e && retry.value.nextAttempt == now.secs + 30
                && lastApply == Some(LastApply(e.at, now, false, Some(Transient), retry.value.attempts - 1))
      ensures outcome == Succeeded ==>
                && retry.None? && lastApply == Some(LastApply(e.at, now, true, None, 0))
                && e.at in firedAt && firedAt[e.at] == now
    {
      hide Delivered, Packets;
      outcome := DialAndApply(e, client, dials, ctxDone);
      Interfere(meanwhile);
      var _ := RecordOutcome(e, index, now, outcome, saves);
    }

    /** Open a client and issue the entry's writes; tell authentication failures from all others. */
    method DialAndApply(e: Entry, client: MemClient, dials: bool, ctxDone: seq<bool>) returns (outcome: Outcome)
      requires ValidEntry(e) && |ctxDone| == 3
      modifies client`params
      ensures Delivered(old(client.params), client.params, e, outcome)
      ensures !dials ==> outcome == Failed(Transient)
      ensures outcome == Failed(AuthFailed) <==> dials && client.forceAuth
      ensures outcome == Succeeded <==>
              dials && !client.forceAuth && !client.forceTimeout && forall i :: 0 <= i < |Packets(e)| ==> !ctxDone[i]
    {
      outcome := Failed(Transient);
      hide Applied, Fired;
      NothingSent(client.params, e);
      if dials {
        var err;
        ghost var sent;
        err, sent := ApplyAction(client, e, ctxDone);
        outcome := match err
          case None => Succeeded
          case Some(AuthError) => Failed(AuthFailed)
          case Some(_) => Failed(Transient);
        AllSent(old(client.params), e);
      }
    }

    method RecordOutcome(e: Entry, index: nat, now: Instant, outcome: Outcome, saves: bool) returns (ok: bool)
      modifies this
      ensures View() == Record(old(View()), e, index, now, outcome, saves)
      ensures outcome == Failed(AuthFailed) ==>
                retry.None? && lastApply == Some(LastApply(e.at, now, false, Some(AuthFailed), 0))
      ensures outcome == Failed(Transient) ==>
                var same := old(retry).Some? && old(retry).value.entry.at == e.at;
                && retry == Some(Retry(e, index, if same then old(retry).value.attempts + 1 else 1, now.secs + 30,
                                       if same then old(retry).value.deadline else now.secs + 600))
                && lastApply == Some(LastApply(e.at, now, false, Some(Transient), retry.value.attempts - 1))
      ensures outcome == Succeeded ==>
                && retry.None? && lastApply == Some(LastApply(e.at, now, true, None, 0))
                && firedAt == old(firedAt)[e.at := now]
      ensures outcome != Succeeded ==> firedAt == old(firedAt)
      ensures disk == if saves then Some(Persisted(enabled, entries, lastApply, firedAt)) else old(disk)
      ensures enabled == old(enabled) && entries == old(entries) && lastTick == old(lastTick)
    {
      match outcome {
        case Succeeded =>
          lastApply := Some(LastApply(e.at, now, true, None, 0));
          retry := None;
          firedAt := firedAt[e.at := now];
          history := history + [Schedule.Fire(e.at, now)];
        case Failed(AuthFailed) =>
          lastApply := Some(LastApply(e.at, now, false, Some(AuthFailed), 0));
          retry := None;
        case Failed(Transient) =>
          var attempts: nat, deadline := 1, now.secs + RETRY_DEADLINE;
          if retry.Some? && retry.value.entry.at == e.at {
            attempts, deadline := retry.value.attempts + 1, retry.value.deadline;
          }
          retry := Some(Retry(e, index, attempts, now.secs + RETRY_CADENCE, deadline));
          lastApply := Some(LastApply(e.at, now, false, Some(Transient), attempts - 1));
      }
      ok := Save(saves);
    }

    /** Some entry other than the one being retried was crossed. */
    method FindNewer(rows: seq<Entry>, r: Retry, last: Minute, now: Minute) returns (hasNewer: bool)
      ensures hasNewer == HasNewer(rows, r, last, now)
    {
      hasNewer := false;
      for i := 0 to |rows|
        invariant forall k :: 0 <= k < i ==> !(InWindow(last, now, rows[k].at) && rows[k].at != r.entry.at)
      {
        if InWindow(last, now, rows[i].at) && rows[i].at != r.entry.at {
          return true;
        }
      }
    }

    method FindLatest(rows: seq<Entry>, last: Minute, now: Instant, fired: map<Minute, Instant>)
      returns (latest: Option<nat>)
      ensures latest == Latest(rows, last, now, fired)
    {
      latest := None;
      for i := 0 to |rows|
        invariant latest == Latest(rows[..i], last, now, fired)
      {
        assert rows[..i + 1][..i] == rows[..i];
        var at := rows[i].at;
        if !InWindow(last, now.minute, at) || (at in fired && fired[at].date == now.date) {
          continue;
        }
        if latest.None? || Dist(last, at) > Dist(last, rows[latest.value].at) {
          latest := Some(i);
        }
      }
      assert rows[..|rows|] == rows;
    }

    /**
     One minute tick. `env` lists the calls made in its lock gaps; `dials` and
     `ctxDone` say whether the device can be dialled and when the fire's context ends.
     */
    method Tick(now: Instant, env: Env, client: MemClient, dials: bool, ctxDone: seq<bool>) returns (outcome: Outcome)
      requires Sound(View()) && |ctxDone| == 3
      modifies this, client`params
      ensures View() == Schedule.Tick(old(View()), now, env.(outcome := outcome)) && Sound(View())
      ensures match Dispatched(old(View()), now, env)
              case None => client.params == old(client.params)
              case Some(e) =>
                && ValidEntry(e) && Delivered(old(client.params), client.params, e, outcome)
                && EndsAs(outcome, e, client, dials, ctxDone)
    {
      hide Record, RetryPhase, RetryDue, DoAll, Latest, Sound, Delivered, EndsAs;
      outcome := Succeeded;
      ghost var s := View();
      var enabled', entries', haveLastTick', lastTick', firedAt' := enabled, entries, haveLastTick, lastTick, firedAt;
      Interfere(env.afterSnapshot);
      DoAllKeepsSound(s, env.afterSnapshot);
      SoundFrame(View(), now.minute, true);
      if !enabled' {
        lastTick, haveLastTick, retry := now.minute, true, None;
        return;
      }
      if !haveLastTick' {
        lastTick, haveLastTick := now.minute, true;
        return;
      }
      if now.minute == lastTick' {
        return;
      }
      outcome := TickWindow(entries', lastTick', firedAt', now, env, client, dials, ctxDone, s);
    }

    /** The rest of a tick whose window is not empty; `snap` is the state the tick copied. */
    method TickWindow(rows: seq<Entry>, last: Minute, fired: map<Minute, Instant>, now: Instant, env: Env,
                      client: MemClient, dials: bool, ctxDone: seq<bool>, ghost snap: State) returns (outcome: Outcome)
      requires rows == snap.entries && last == snap.lastTick && fired == snap.firedAt
      requires Sound(snap) && Sound(View()) && |ctxDone| == 3
      modifies this, client`params
      ensures Sound(View())
      ensures View() == Rest(snap, old(View()), now, env.(outcome := outcome))
      ensures match Dispatch(snap, old(View()), now)
              case None => client.params == old(client.params)
              case Some(e) =>
                && ValidEntry(e) && Delivered(old(client.params), client.params, e, outcome)
                && EndsAs(outcome, e, client, dials, ctxDone)
    {
      hide Record, RetryPhase, RetryDue, Conclude, Latest, Sound, Delivered, EndsAs, ValidEntry;
      ghost var s1 := View();
      SoundFrame(s1, 0, true);
      SoundFrame(snap, 0, true);
      var retried;
      outcome, retried := HandleRetry(rows, last, retry, now, env, client, dials, ctxDone, snap);
      RetryPhaseKeepsSound(snap, s1, now, env.(outcome := outcome));
      if retried {
        var o := Finish(rows, None, now, env, client, dials, ctxDone);
        ConcludeWithoutPick(RetryPhase(snap, s1, now, env.(outcome := outcome)), rows, now, env, outcome);
      } else {
        var latest := FindLatest(rows, last, now, fired);
        PhaseIgnoresOutcome(snap, s1, now, env, outcome);
        outcome := Finish(rows, latest, now, env, client, dials, ctxDone);
        PhaseIgnoresOutcome(snap, s1, now, env, outcome);
      }
    }

    /** Advance the last tick, then fire what was picked. */
    method Finish(rows: seq<Entry>, pick: Option<nat>, now: Instant, env: Env,
                  client: MemClient, dials: bool, ctxDone: seq<bool>) returns (outcome: Outcome)
      requires Sound(View()) && |ctxDone| == 3
      requires pick.Some? ==> pick.value < |rows| && ValidEntry(rows[pick.value])
      modifies this, client`params
      ensures Sound(View())
      ensures View() == Conclude(old(View()), rows, pick, now, env.(outcome := outcome))
      ensures pick.None? ==> outcome == Succeeded && client.params == old(client.params)
      ensures pick.Some? ==>
                && Delivered(old(client.params), client.params, rows[pick.value], outcome)
                && EndsAs(outcome, rows[pick.value], client, dials, ctxDone)
    {
      hide Record, Sound, Delivered, ValidEntry, DoAll;
      outcome := Succeeded;
      ghost var s := View();
      Interfere(env.beforeAdvance);
      DoAllKeepsSound(s, env.beforeAdvance);
      SoundFrame(View(), now.minute, true);
      lastTick, haveLastTick := now.minute, true;
      ghost var t := View();
      if pick.Some? {
        outcome := Fire(rows[pick.value], pick.value, now, client, dials, ctxDone, env.duringFire, env.saved);
        DoAllKeepsSound(t, env.duringFire);
        RecordKeepsSound(DoAll(t, env.duringFire), rows[pick.value], pick.value, now, outcome, env.saved);
      }
    }

    /** Supersede, abandon, attempt or keep a pending retry. */
    method HandleRetry(rows: seq<Entry>, last: Minute, r: Option<Retry>, now: Instant, env: Env,
                       client: MemClient, dials: bool, ctxDone: seq<bool>, ghost snap: State)
      returns (outcome: Outcome, retried: bool)
      requires snap.entries == rows && snap.lastTick == last
      requires r == retry && (r.Some? ==> ValidEntry(r.value.entry)) && |ctxDone| == 3
      modifies this, client`params
      ensures retried == RetryDue(rows, r, last, now) && (retried ==> r.Some?)
      ensures View() == RetryPhase(snap, old(View()), now, env.(outcome := outcome))
      ensures if retried then
                && Delivered(old(client.params), client.params, r.value.entry, outcome)
                && EndsAs(outcome, r.value.entry, client, dials, ctxDone)
              else client.params == old(client.params)
    {
      outcome, retried := Succeeded, false;
      var hasNewer := false;
      if r.Some? {
        hasNewer := FindNewer(rows, r.value, last, now.minute);
      }
      if r.None? {
        Interfere(env.afterRetryRead);
      } else if hasNewer {
        Interfere(env.afterRetryRead);
        retry := None;
      } else if r.value.deadline <= now.secs {
        Interfere(env.afterRetryRead);
        retry := None;
        var _ := Save(env.saved);
      } else if r.value.nextAttempt <= now.secs {
        outcome := Fire(r.value.entry, r.value.index, now, client, dials, ctxDone, env.afterRetryRead, env.saved);
        retried := true;
      } else {
        Interfere(env.afterRetryRead);
      }
    }
  }

  /**
   How sending an entry's writes ends: in an authentication failure exactly when
   a dialled device refuses the password, in success exactly when nothing fails.
   */
  ghost predicate EndsAs(outcome: Outcome, e: Entry, client: MemClient, dials: bool, ctxDone: seq<bool>)
    requires ValidEntry(e) && |ctxDone| == 3
    reads client`forceAuth, client`forceTimeout
  {
    PacketCount(e);
    && (outcome == Failed(AuthFailed) <==> dials && client.forceAuth)
    && (outcome == Succeeded <==>
          dials && !client.forceAuth && !client.forceTimeout && forall i :: 0 <= i < |Packets(e)| ==> !ctxDone[i])
  }

  lemma PacketCount(e: Entry)
    requires ValidEntry(e)
    ensures |Packets(e)| == if e.action == "off" then 1 else 3
  {
  }

  lemma NothingSent(m: Values, e: Entry)
    requires ValidEntry(e)
    ensures 0 < |Packets(e)| <= 3 && Applied(m, e, 0) == m
  {
    PacketByPacket(m, e);
  }

  lemma AllSent(m: Values, e: Entry)
    requires ValidEntry(e)
    ensures Fired(m, e) == Applied(m, e, |Packets(e)|)
  {
  }

  lemma ConcludeWithoutPick(s: State, rows: seq<Entry>, now: Instant, env: Env, outcome: Outcome)
    ensures Conclude(s, rows, None, now, env.(outcome := outcome)) ==
            Conclude(s, rows, None, now, env.(outcome := Succeeded))
  {
  }

  lemma PhaseIgnoresOutcome(snap: State, s: State, now: Instant, env: Env, outcome: Outcome)
    requires !RetryDue(snap.entries, s.retry, snap.lastTick, now)
    ensures RetryPhase(snap, s, now, env.(outcome := outcome)) == RetryPhase(snap, s, now, env)
  {
  }

  /** A successful fire left the device as the entry asks; a failed one stopped after some earlier packet. */
  ghost predicate Delivered(before: Values, after: Values, e: Entry, outcome: Outcome)
    requires ValidEntry(e)
  {
    if outcome == Succeeded then after == Fired(before, e)
    else exists sent: nat :: sent < |Packets(e)| && after == Applied(before, e, sent)
  }
}
