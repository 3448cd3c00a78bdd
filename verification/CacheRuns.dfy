/**
 Poller ticks, handler operations, scheduled fires and clock syncs on one
 device, interleaved packet by packet under the per-device mutex.
 */
module CacheRuns {
  import opened Wrappers
  import opened Params
  import opened MemDevice
  import opened Cache
  import opened Poller

  /** What an actor inside its critical section is doing. */
  datatype Act =
    | Polling(prev: Snapshot, ids: seq<ParamID>, asked: seq<ParamID>, answered: seq<ParamID>, todo: seq<ParamID>,
              got: Values, lastErr: Option<ClientError>)
    | Writing(rest: seq<seq<ParamWrite>>)
    | Recording(writes: seq<ParamWrite>, rest: seq<seq<ParamWrite>>)

  /**
   The device, its cached snapshot, who holds the mutex, what each actor is
   doing, the parameters some unacknowledged write may have changed behind the
   cache, and the time of the last fully answered poll.
   */
  datatype Sys = Sys(device: Values, cache: Snapshot, holder: Option<nat>, acts: map<nat, Act>,
                     dirty: set<ParamID>, lastFull: PollTime)

  /** How one written packet ends: acknowledged, without effect, or with effect but no acknowledgement. */
  datatype Ack = Acked | Refused | Unacked

  datatype Event =
    | BeginPoll(actor: nat, locks: bool, ids: seq<ParamID>)
    | DialFails(actor: nat, ip: string, err: ClientError)
    | ReadBatch(actor: nat, loss: Option<ClientError>)
    | FinishPoll(actor: nat, ip: string, now: int)
    | BeginWrite(actor: nat, locks: bool, packets: seq<seq<ParamWrite>>)
    | Send(actor: nat, ack: Ack)
    | RecordWrites(actor: nat)
    | FinishWrite(actor: nat)
    | MoveIP(ip: string)

  // ---- steps -------------------------------------------------------------------------------

  /** Entering a critical section: a locking actor waits for the mutex. */
  function Enter(s: Sys, a: nat, locks: bool, act: Act): Sys {
    if a in s.acts || (locks && s.holder.Some?) then s
    else s.(acts := s.acts[a := act], holder := if locks then Some(a) else s.holder)
  }

  function Leave(s: Sys, a: nat): Sys {
    s.(acts := s.acts - {a}, holder := if s.holder == Some(a) then None else s.holder)
  }

  function PollBatch(s: Sys, a: nat, act: Act, err: Option<ClientError>): Sys
    requires act.Polling?
  {
    var n := BatchLength(act.todo);
    var batch := act.todo[..n];
    s.(acts := s.acts[a := act.(asked := act.asked + batch, todo := act.todo[n..],
                                answered := if err.None? then act.answered + batch else act.answered,
                                got := if err.None? then act.got + Select(s.device, batch) else act.got,
                                lastErr := if err.Some? then err else act.lastErr)])
  }

  function StorePoll(s: Sys, act: Act, ip: string, now: int): Sys
    requires act.Polling?
  {
    var snap := Polled(act.prev, ip, act.got, act.lastErr, now);
    s.(cache := snap,
       dirty := if snap.values == act.got then {} else s.dirty,
       lastFull := if act.lastErr.None? then Some(now) else s.lastFull)
  }

  function Step(s: Sys, ev: Event): Sys {
    match ev
    case BeginPoll(a, locks, ids) => Enter(s, a, locks, Polling(s.cache, ids, [], [], ids, map[], None))
    case BeginWrite(a, locks, packets) => Enter(s, a, locks, Writing(packets))
    case MoveIP(ip) => s.(cache := s.cache.(ip := ip))
    case DialFails(a, ip, err) =>
      if a in s.acts && s.acts[a].Polling? && s.acts[a].asked == [] then
        Leave(s.(cache := DialFailed(s.acts[a].prev, ip, err)), a)
      else s
    case ReadBatch(a, err) =>
      if a in s.acts && s.acts[a].Polling? && s.acts[a].todo != [] then PollBatch(s, a, s.acts[a], err) else s
    case FinishPoll(a, ip, now) =>
      if a in s.acts && s.acts[a].Polling? && s.acts[a].todo == []
      then Leave(StorePoll(s, s.acts[a], ip, now), a)
      else s
    case Send(a, ack) =>
      if a in s.acts && s.acts[a].Writing? && s.acts[a].rest != [] then
        var writes := s.acts[a].rest[0];
        match ack
        case Acked =>
          s.(device := Store(s.device, writes), acts := s.acts[a := Recording(writes, s.acts[a].rest[1..])])
        case Refused => Leave(s, a)
        case Unacked => Leave(s.(device := Store(s.device, writes), dirty := s.dirty + Targets(writes)), a)
      else s
    case RecordWrites(a) =>
      if a in s.acts && s.acts[a].Recording? then
        s.(cache := WithWrites(s.cache, s.acts[a].writes), dirty := s.dirty - Targets(s.acts[a].writes),
           acts := s.acts[a := Writing(s.acts[a].rest)])
      else s
    case FinishWrite(a) =>
      if a in s.acts && s.acts[a].Writing? && s.acts[a].rest == [] then Leave(s, a) else s
  }

  function Run(s: Sys, evs: seq<Event>): Sys
    decreases |evs|
  {
    if evs == [] then s else Run(Step(s, evs[0]), evs[1..])
  }

  // ---- the invariant -------------------------------------------------------------------------

  /** Every actor takes the mutex before it touches the device. */
  predicate Locked(ev: Event) {
    (ev.BeginPoll? || ev.BeginWrite?) ==> ev.locks
  }

  ghost predicate AllCurrent(values: Values, device: Values, except: set<ParamID>) {
    forall p :: p in values && p !in except ==> p in device && device[p] == values[p]
  }

  /** Parameters written on the device whose record in the cache is still to come. */
  ghost function Pending(s: Sys): set<ParamID> {
    if s.holder.Some? && s.holder.value in s.acts && s.acts[s.holder.value].Recording?
    then Targets(s.acts[s.holder.value].writes) else {}
  }

  ghost predicate ActSound(s: Sys, act: Act) {
    match act
    case Polling(prev, ids, asked, answered, todo, got, lastErr) =>
      && ids == asked + todo
      && got == Select(s.device, answered)
      && prev.values == s.cache.values && prev.lastPoll == s.cache.lastPoll
      && (lastErr.None? ==> answered == asked)
    case Recording(writes, _) => AllCurrent(Store(map[], writes), s.device, {})
    case Writing(_) => true
  }

  /** Only the mutex holder is at work, and the cache agrees with the device outside `dirty` and what is pending. */
  ghost predicate Sound(s: Sys) {
    && s.acts.Keys == (if s.holder.Some? then {s.holder.value} else {})
    && (s.holder.Some? ==> ActSound(s, s.acts[s.holder.value]))
    && AllCurrent(s.cache.values, s.device, s.dirty + Pending(s))
    && s.cache.values.Keys <= s.device.Keys
    && s.cache.lastPoll == s.lastFull
  }

  lemma LeaveAlone(s: Sys, a: nat)
    requires s.holder == Some(a) && s.acts.Keys == {a}
    ensures Leave(s, a).holder.None? && Leave(s, a).acts == map[]
    ensures Pending(Leave(s, a)) == {}
  {
    assert (s.acts - {a}).Keys == {};
  }

  lemma PollStepSound(s: Sys, ev: Event)
    requires Sound(s) && Locked(ev) && (ev.DialFails? || ev.ReadBatch? || ev.FinishPoll?)
    ensures Sound(Step(s, ev))
  {
    var a := ev.actor;
    if a in s.acts && s.acts[a].Polling? {
      var act := s.acts[a];
      LeaveAlone(s, a);
      if ev.ReadBatch? && act.todo != [] {
        var n := BatchLength(act.todo);
        SelectAppend(s.device, act.answered, act.todo[..n]);
        assert act.asked + act.todo == act.asked + act.todo[..n] + act.todo[n..];
      } else if ev.FinishPoll? && act.todo == [] {
        LeaveAlone(StorePoll(s, act, ev.ip, ev.now), a);
      } else if ev.DialFails? && act.asked == [] {
        LeaveAlone(s.(cache := DialFailed(act.prev, ev.ip, ev.err)), a);
      }
    }
  }

  lemma StoreCurrent(values: Values, device: Values, except: set<ParamID>, writes: seq<ParamWrite>)
    requires AllCurrent(values, device, except)
    ensures AllCurrent(values, Store(device, writes), except + Targets(writes))
    ensures AllCurrent(Store(map[], writes), Store(device, writes), {})
    ensures device.Keys <= Store(device, writes).Keys
  {
    StoreOverlays(device, writes);
  }

  lemma RecordCurrent(values: Values, device: Values, except: set<ParamID>, writes: seq<ParamWrite>)
    requires AllCurrent(values, device, except + Targets(writes)) && AllCurrent(Store(map[], writes), device, {})
    requires values.Keys <= device.Keys
    ensures AllCurrent(Store(values, writes), device, except - Targets(writes))
    ensures Store(values, writes).Keys <= device.Keys
  {
    StoreOverlays(values, writes);
  }

  lemma WriteStepSound(s: Sys, ev: Event)
    requires Sound(s) && Locked(ev) && (ev.Send? || ev.RecordWrites? || ev.FinishWrite?)
    ensures Sound(Step(s, ev))
  {
    var a := ev.actor;
    if a in s.acts && !s.acts[a].Polling? {
      var act := s.acts[a];
      LeaveAlone(s, a);
      if ev.Send? && act.Writing? && act.rest != [] {
        var writes := act.rest[0];
        assert s.dirty + Pending(s) == s.dirty;
        StoreCurrent(s.cache.values, s.device, s.dirty, writes);
        LeaveAlone(s.(device := Store(s.device, writes), dirty := s.dirty + Targets(writes)), a);
      } else if ev.RecordWrites? && act.Recording? {
        RecordCurrent(s.cache.values, s.device, s.dirty, act.writes);
      }
    }
  }

  lemma StepSound(s: Sys, ev: Event)
    requires Sound(s) && Locked(ev)
    ensures Sound(Step(s, ev))
  {
    match ev {
      case Send(_, _) => WriteStepSound(s, ev);
      case RecordWrites(_) => WriteStepSound(s, ev);
      case FinishWrite(_) => WriteStepSound(s, ev);
      case DialFails(_, _, _) => PollStepSound(s, ev);
      case ReadBatch(_, _) => PollStepSound(s, ev);
      case FinishPoll(_, _, _) => PollStepSound(s, ev);
      case MoveIP(_) =>
      case BeginPoll(_, _, _) =>
      case BeginWrite(_, _, _) =>
    }
  }

  lemma {:induction false} RunSound(s: Sys, evs: seq<Event>)
    requires Sound(s) && forall ev :: ev in evs ==> Locked(ev)
    ensures Sound(Run(s, evs))
    decreases |evs|
  {
    if evs == [] {
    } else {
      assert evs[0] in evs;
      StepSound(s, evs[0]);
      RunSound(Step(s, evs[0]), evs[1..]);
    }
  }

  // ---- agreement ---------------------------------------------------------------------------------

  /** A fresh system: nothing cached, nobody at work. */
  function Fresh(device: Values): Sys { Sys(device, EMPTY, None, map[], {}, None) }

  /**
   In every interleaving of locking actors, whenever the mutex is free each
   cached parameter equals the device's, except where an unacknowledged write
   has landed since it was last read or written; and the cached poll time is
   that of the last fully answered poll.
   */
  lemma CacheAgreesWhenFree(device: Values, evs: seq<Event>)
    requires forall ev :: ev in evs ==> Locked(ev)
    ensures var s := Run(Fresh(device), evs);
            && s.cache.lastPoll == s.lastFull
            && (s.holder.None? ==> s.acts == map[] && AllCurrent(s.cache.values, s.device, s.dirty))
  {
    RunSound(Fresh(device), evs);
    var s := Run(Fresh(device), evs);
    assert s.dirty + {} == s.dirty;
  }

  // ---- where exceptions come from -----------------------------------------------------------

  /** The step is a write to `p` that lands without being acknowledged. */
  predicate Lands(s: Sys, ev: Event, p: ParamID) {
    ev.Send? && ev.ack.Unacked? && ev.actor in s.acts && s.acts[ev.actor].Writing? && s.acts[ev.actor].rest != []
    && p in Targets(s.acts[ev.actor].rest[0])
  }

  /** The step records a write to `p`, or stores a poll that was read after whatever landed before. */
  predicate Settles(s: Sys, ev: Event, p: ParamID) {
    || (ev.RecordWrites? && ev.actor in s.acts && s.acts[ev.actor].Recording? && p in Targets(s.acts[ev.actor].writes))
    || (ev.FinishPoll? && ev.actor in s.acts && s.acts[ev.actor].Polling? && s.acts[ev.actor].todo == []
        && Step(s, ev).cache.values == s.acts[ev.actor].got)
  }

  lemma DirtyStep(s: Sys, ev: Event, p: ParamID)
    requires p in Step(s, ev).dirty
    ensures Lands(s, ev, p) || (p in s.dirty && !Settles(s, ev, p))
  {
  }

  lemma {:induction false} RunSnoc(s: Sys, evs: seq<Event>)
    requires evs != []
    ensures Run(s, evs) == Step(Run(s, evs[..|evs| - 1]), evs[|evs| - 1])
  {
    hide Step;
    var n := |evs| - 1;
    RunAppend(s, evs[..n], [evs[n]]);
    OneEvent(Run(s, evs[..n]), evs[n]);
    assert evs[..n] + [evs[n]] == evs;
  }

  /** Step `i` of the run landed a write to `p` unacknowledged, and no later step settled `p`. */
  ghost predicate LandedAt(s: Sys, evs: seq<Event>, p: ParamID, i: nat) {
    && i < |evs| && Lands(Run(s, evs[..i]), evs[i], p)
    && forall j :: i < j < |evs| ==> !Settles(Run(s, evs[..j]), evs[j], p)
  }

  /** An excepted parameter is one an unacknowledged write landed on, with no record or fresh reading since. */
  lemma {:induction false} ExceptionsHaveCause(s: Sys, evs: seq<Event>, p: ParamID) returns (i: nat)
    requires s.dirty == {} && p in Run(s, evs).dirty
    ensures LandedAt(s, evs, p, i)
    decreases |evs|
  {
    hide Step, Lands, Settles;
    var n := |evs| - 1;
    var before := evs[..n];
    RunSnoc(s, evs);
    DirtyStep(Run(s, before), evs[n], p);
    if Lands(Run(s, before), evs[n], p) {
      i := n;
    } else {
      i := ExceptionsHaveCause(s, before, p);
      assert before[..i] == evs[..i];
      forall j | i < j < |evs|
        ensures !Settles(Run(s, evs[..j]), evs[j], p)
      {
        assert j < n ==> before[..j] == evs[..j] && before[j] == evs[j];
      }
    }
  }

  lemma StaysDirty(s: Sys, ev: Event, p: ParamID)
    requires Lands(s, ev, p) || (p in s.dirty && !Settles(s, ev, p))
    ensures p in Step(s, ev).dirty
  {
  }

  lemma {:induction false} LandingIsException(s: Sys, evs: seq<Event>, p: ParamID, i: nat)
    requires LandedAt(s, evs, p, i)
    ensures p in Run(s, evs).dirty
    decreases |evs|
  {
    hide Step, Lands, Settles;
    var n := |evs| - 1;
    var before := evs[..n];
    RunSnoc(s, evs);
    if i < n {
      assert before[..i] == evs[..i];
      forall j | i < j < n
        ensures !Settles(Run(s, before[..j]), before[j], p)
      {
        assert before[..j] == evs[..j];
      }
      LandingIsException(s, before, p, i);
    }
    StaysDirty(Run(s, before), evs[n], p);
  }

  /**
   The exceptions are exactly the parameters on which a write landed
   unacknowledged with no record or fresh reading since.
   */
  lemma ExceptionIffLanded(s: Sys, evs: seq<Event>, p: ParamID)
    requires s.dirty == {}
    ensures p in Run(s, evs).dirty <==> exists i: nat :: LandedAt(s, evs, p, i)
  {
    if p in Run(s, evs).dirty {
      var i := ExceptionsHaveCause(s, evs, p);
    }
    if i: nat :| LandedAt(s, evs, p, i) {
      LandingIsException(s, evs, p, i);
    }
  }

  /** The in-process device acknowledges every write that takes effect. */
  predicate InProcess(ev: Event) { ev.Send? ==> !ev.ack.Unacked? }

  lemma {:induction false} NothingDirty(s: Sys, evs: seq<Event>)
    requires s.dirty == {} && forall ev :: ev in evs ==> InProcess(ev)
    ensures Run(s, evs).dirty == {}
    decreases |evs|
  {
    if evs == [] {
    } else {
      assert evs[0] in evs;
      NothingDirty(Step(s, evs[0]), evs[1..]);
    }
  }

  /** On the in-process device the agreement has no exceptions: no reading ever covers a written-through value. */
  lemma InProcessCacheAgrees(device: Values, evs: seq<Event>)
    requires forall ev :: ev in evs ==> Locked(ev) && InProcess(ev)
    ensures var s := Run(Fresh(device), evs);
            s.holder.None? ==> forall p :: p in s.cache.values ==> p in s.device && s.device[p] == s.cache.values[p]
  {
    CacheAgreesWhenFree(device, evs);
    NothingDirty(Fresh(device), evs);
  }

  /** Actor 1 reads the one parameter of the device, and is ready to store it. */
  function ReadHeld(p: ParamID, was: seq<Byte>): Sys {
    Sys(map[p := was], EMPTY, Some(1), map[1 := Polling(EMPTY, [p], [p], [p], [], map[p := was], None)], {}, None)
  }

  lemma PollReads(p: ParamID, was: seq<Byte>)
    ensures Step(Step(Fresh(map[p := was]), BeginPoll(1, true, [p])), ReadBatch(1, None)) == ReadHeld(p, was)
  {
    hide Select;
    var s1 := Step(Fresh(map[p := was]), BeginPoll(1, true, [p]));
    var act := Polling(EMPTY, [p], [], [], [p], map[], None);
    assert s1 == Sys(map[p := was], EMPTY, Some(1), map[1 := act], {}, None);
    ReadBatchIsPollBatch(s1, 1, None);
    SelectOne(p, was);
    assert [p][..1] == [p] && [p][1..] == [] && [] + [p] == [p];
    assert map[1 := act][1 := ReadHeld(p, was).acts[1]] == ReadHeld(p, was).acts;
  }

  lemma SelectOne(p: ParamID, was: seq<Byte>)
    ensures map[] + Select(map[p := was], [p]) == map[p := was]
  {
  }

  /** What the cache holds once that reading is stored. */
  function ReadStored(p: ParamID, was: seq<Byte>): Sys {
    Sys(map[p := was], Snapshot("", map[p := was], Some(0), None), None, map[], {}, Some(0))
  }

  lemma PollStores(p: ParamID, was: seq<Byte>)
    ensures Step(ReadHeld(p, was), FinishPoll(1, "", 0)) == ReadStored(p, was)
  {
    LeaveAlone(StorePoll(ReadHeld(p, was), ReadHeld(p, was).acts[1], "", 0), 1);
  }

  lemma WriteLandsUnacked(p: ParamID, was: seq<Byte>, will: seq<Byte>)
    ensures Step(Step(ReadStored(p, was), BeginWrite(2, true, [[ParamWrite(p, will)]])), Send(2, Unacked))
         == ReadStored(p, was).(device := map[p := will], dirty := {p})
  {
    var s := ReadStored(p, was);
    var s1 := Step(s, BeginWrite(2, true, [[ParamWrite(p, will)]]));
    assert s1 == s.(holder := Some(2), acts := map[2 := Writing([[ParamWrite(p, will)]])]);
    StoreOne(s.device, p, will);
    assert map[p := was][p := will] == map[p := will];
    LeaveAlone(s1.(device := map[p := will], dirty := {p}), 2);
  }

  /** Over a lossy link a cached value can go stale: a write that lands unacknowledged. */
  lemma UnackedWriteLeavesStale(p: ParamID, was: seq<Byte>, will: seq<Byte>)
    requires was != will
    ensures var evs := [BeginPoll(1, true, [p]), ReadBatch(1, None), FinishPoll(1, "", 0),
                        BeginWrite(2, true, [[ParamWrite(p, will)]]), Send(2, Unacked)];
            var s := Run(Fresh(map[p := was]), evs);
            s.holder.None? && p in s.cache.values && p in s.device && s.cache.values[p] != s.device[p] && s.dirty == {p}
  {
    hide Step, Run;
    RunFive(Fresh(map[p := was]), [BeginPoll(1, true, [p]), ReadBatch(1, None), FinishPoll(1, "", 0),
                                   BeginWrite(2, true, [[ParamWrite(p, will)]]), Send(2, Unacked)]);
    PollReads(p, was);
    PollStores(p, was);
    WriteLandsUnacked(p, was, will);
  }

  lemma StoreOne(m: Values, p: ParamID, v: seq<Byte>)
    ensures Store(m, [ParamWrite(p, v)]) == m[p := v]
    ensures Targets([ParamWrite(p, v)]) == {p}
  {
    assert [ParamWrite(p, v)][1..] == [];
    assert ParamWrite(p, v) in [ParamWrite(p, v)];
  }

  lemma RunFive(s: Sys, evs: seq<Event>)
    requires |evs| == 5
    ensures Run(s, evs) == Step(Step(Step(Step(Step(s, evs[0]), evs[1]), evs[2]), evs[3]), evs[4])
  {
    hide Step;
    RunStep(s, evs, 0);
    var t1 := Step(s, evs[0]);
    RunStep(t1, evs, 1);
    var t2 := Step(t1, evs[1]);
    RunStep(t2, evs, 2);
    var t3 := Step(t2, evs[2]);
    RunStep(t3, evs, 3);
    RunStep(Step(t3, evs[3]), evs, 4);
  }

  lemma RunStep(s: Sys, evs: seq<Event>, k: nat)
    requires k < |evs|
    ensures Run(s, evs[k..]) == Run(Step(s, evs[k]), evs[k + 1..])
    ensures k == 0 ==> evs[k..] == evs
    ensures k + 1 == |evs| ==> Run(Step(s, evs[k]), evs[k + 1..]) == Step(s, evs[k])
  {
    hide Step;
    assert evs[k..][0] == evs[k] && evs[k..][1..] == evs[k + 1..];
  }

  /** That reading is still held while an actor without the mutex has written and is about to record. */
  function BothHeld(p: ParamID, was: seq<Byte>, will: seq<Byte>): Sys {
    ReadHeld(p, was).(device := map[p := will],
                      acts := ReadHeld(p, was).acts[2 := Recording([ParamWrite(p, will)], [])])
  }

  lemma UnlockedWrite(p: ParamID, was: seq<Byte>, will: seq<Byte>)
    ensures Step(Step(ReadHeld(p, was), BeginWrite(2, false, [[ParamWrite(p, will)]])), Send(2, Acked))
         == BothHeld(p, was, will)
  {
    var s := ReadHeld(p, was);
    var s1 := Step(s, BeginWrite(2, false, [[ParamWrite(p, will)]]));
    assert s1 == s.(acts := s.acts[2 := Writing([[ParamWrite(p, will)]])]);
    StoreOne(s.device, p, will);
    assert map[p := was][p := will] == map[p := will];
    assert [[ParamWrite(p, will)]][1..] == [];
    assert s.acts[2 := Writing([[ParamWrite(p, will)]])][2 := Recording([ParamWrite(p, will)], [])]
        == s.acts[2 := Recording([ParamWrite(p, will)], [])];
  }

  lemma UnlockedRecord(p: ParamID, was: seq<Byte>, will: seq<Byte>)
    ensures Step(Step(BothHeld(p, was, will), RecordWrites(2)), FinishWrite(2))
         == ReadHeld(p, was).(device := map[p := will], cache := WithWrites(EMPTY, [ParamWrite(p, will)]))
  {
    var acts := ReadHeld(p, was).acts;
    var s := BothHeld(p, was, will);
    var s1 := Step(s, RecordWrites(2));
    assert s1 == s.(cache := WithWrites(EMPTY, [ParamWrite(p, will)]), dirty := {}, acts := s.acts[2 := Writing([])]);
    assert s1.acts - {2} == acts;
  }

  lemma StaleStore(p: ParamID, was: seq<Byte>, will: seq<Byte>, cache: Snapshot)
    ensures var s := Step(ReadHeld(p, was).(device := map[p := will], cache := cache), FinishPoll(1, "", 0));
            s.holder.None? && s.device == map[p := will] && s.cache.values == map[p := was]
  {
  }

  /** Without the mutex the agreement fails even in-process: a poll stores its reading over a newer write. */
  lemma UnlockedWriterIsOverwritten(p: ParamID, was: seq<Byte>, will: seq<Byte>)
    requires was != will
    ensures var poll := Step(Step(Fresh(map[p := was]), BeginPoll(1, true, [p])), ReadBatch(1, None));
            var evs := [BeginWrite(2, false, [[ParamWrite(p, will)]]), Send(2, Acked), RecordWrites(2), FinishWrite(2),
                        FinishPoll(1, "", 0)];
            var s := Run(poll, evs);
            s.holder.None? && s.device == map[p := will] && s.cache.values == map[p := was]
  {
    hide Step, Run;
    PollReads(p, was);
    RunFive(ReadHeld(p, was), [BeginWrite(2, false, [[ParamWrite(p, will)]]), Send(2, Acked), RecordWrites(2),
                               FinishWrite(2), FinishPoll(1, "", 0)]);
    UnlockedWrite(p, was, will);
    UnlockedRecord(p, was, will);
    StaleStore(p, was, will, WithWrites(EMPTY, [ParamWrite(p, will)]));
  }

  // ---- what a poll stores ----------------------------------------------------------------------------

  /** A fully answered poll stores what one unbatched read of the device would return now. */
  lemma FullPollIsOneRead(s: Sys, a: nat, ip: string, now: int)
    requires Sound(s) && a in s.acts && s.acts[a].Polling? && s.acts[a].todo == [] && s.acts[a].lastErr.None?
    ensures var t := Step(s, FinishPoll(a, ip, now));
            t.holder.None? && t.cache == Snapshot(ip, Select(s.device, s.acts[a].ids), Some(now), None)
  {
    LeaveAlone(s, a);
    assert s.acts[a].asked + [] == s.acts[a].asked;
  }

  /** A failed poll - no dial, or any batch lost - never empties the cache and never moves its poll time. */
  lemma FailedPollKeepsCache(s: Sys, ev: Event)
    requires Sound(s) && (ev.DialFails? || (ev.FinishPoll? && ev.actor in s.acts && s.acts[ev.actor].Polling?
                                            && s.acts[ev.actor].lastErr.Some?))
    ensures var t := Step(s, ev);
            && (s.cache.values != map[] ==> t.cache.values != map[])
            && t.cache.lastPoll == s.cache.lastPoll && t.lastFull == s.lastFull
  {
  }

  /**
   In any interleaving, a poll that met an error forgets a cached parameter
   exactly when some answered batch returned a value and the parameter was in
   no answered batch.
   */
  lemma FailedPollForgetsIff(s: Sys, a: nat, ip: string, now: int, p: ParamID)
    requires Sound(s) && a in s.acts && s.acts[a].Polling? && s.acts[a].todo == [] && s.acts[a].lastErr.Some?
    requires p in s.cache.values
    ensures var act := s.acts[a];
            p !in Step(s, FinishPoll(a, ip, now)).cache.values <==>
            (exists q :: q in act.answered && q in s.device) && p !in act.answered
  {
    var act := s.acts[a];
    assert p in s.device;
    assert forall q :: q in act.got <==> q in act.answered && q in s.device;
    if act.got != map[] {
      var q :| q in act.got;
    }
  }

  // ---- undisturbed, the small steps are the methods ----------------------------------------------------

  lemma {:induction false} RunAppend(s: Sys, a: seq<Event>, b: seq<Event>)
    ensures Run(s, a + b) == Run(Run(s, a), b)
    decreases |a|
  {
    hide Step;
    if a == [] {
      assert a + b == b;
    } else {
      assert (a + b)[1..] == a[1..] + b;
      RunAppend(Step(s, a[0]), a[1..], b);
    }
  }

  function BatchEvents(a: nat, errs: seq<Option<ClientError>>): seq<Event> {
    seq(|errs|, i requires 0 <= i < |errs| => ReadBatch(a, errs[i]))
  }

  lemma {:induction false} LastErrorCons(errs: seq<Option<ClientError>>)
    requires errs != []
    ensures LastError(errs) == if LastError(errs[1..]).Some? then LastError(errs[1..]) else errs[0]
    decreases |errs|
  {
    var n := |errs| - 1;
    if 0 < n && errs[n].None? {
      LastErrorCons(errs[..n]);
      assert errs[..n][1..] == errs[1..][..n - 1];
    }
  }

  /** A poll that has read everything it had to. */
  function AllRead(act: Act, device: Values, errs: seq<Option<ClientError>>): Act
    requires act.Polling?
  {
    act.(asked := act.asked + act.todo, todo := [], answered := act.answered + Answered(act.todo, errs),
         got := act.got + Gather(device, act.todo, errs),
         lastErr := if LastError(errs).Some? then LastError(errs) else act.lastErr)
  }

  /** Reading one batch and then the rest is reading everything. */
  lemma AllReadStep(s: Sys, a: nat, act: Act, errs: seq<Option<ClientError>>)
    requires act.Polling? && errs != [] && |errs| == Batches(act.todo)
    ensures var next := PollBatch(s, a, act, errs[0]).acts[a];
            && next.Polling? && |errs[1..]| == Batches(next.todo)
            && AllRead(next, s.device, errs[1..]) == AllRead(act, s.device, errs)
  {
    hide LastError, Select, Gather, Answered;
    var n := BatchLength(act.todo);
    GatherStep(s.device, act.todo, errs);
    LastErrorCons(errs);
    assert act.asked + act.todo[..n] + act.todo[n..] == act.asked + act.todo;
    AnsweredStep(act.answered, act.todo, errs);
    var first := if errs[0].None? then Select(s.device, act.todo[..n]) else map[];
    var rest := Gather(s.device, act.todo[n..], errs[1..]);
    assert act.got + (first + rest) == (act.got + first) + rest && act.got + map[] == act.got;
  }

  lemma NothingToRead(act: Act, device: Values)
    requires act.Polling? && act.todo == []
    ensures AllRead(act, device, []) == act
  {
    assert act.asked + [] == act.asked && act.answered + [] == act.answered && act.got + map[] == act.got;
  }

  /** Reading batch after batch gathers what the poller's loop gathers. */
  lemma {:induction false} RunBatches(s: Sys, a: nat, errs: seq<Option<ClientError>>)
    requires a in s.acts && s.acts[a].Polling? && |errs| == Batches(s.acts[a].todo)
    ensures Run(s, BatchEvents(a, errs)) == s.(acts := s.acts[a := AllRead(s.acts[a], s.device, errs)])
    decreases |errs|
  {
    hide Step, AllRead, PollBatch;
    var act := s.acts[a];
    if errs == [] {
      NothingToRead(act, s.device);
      assert s.acts[a := act] == s.acts;
    } else {
      ReadBatchIsPollBatch(s, a, errs[0]);
      AllReadStep(s, a, act, errs);
      assert BatchEvents(a, errs)[1..] == BatchEvents(a, errs[1..]);
      var t := PollBatch(s, a, act, errs[0]);
      RunBatches(t, a, errs[1..]);
      var done := AllRead(act, s.device, errs);
      assert s.acts[a := t.acts[a]][a := done] == s.acts[a := done];
    }
  }

  lemma ReadBatchIsPollBatch(s: Sys, a: nat, err: Option<ClientError>)
    requires a in s.acts && s.acts[a].Polling? && s.acts[a].todo != []
    ensures var t := PollBatch(s, a, s.acts[a], err);
            Step(s, ReadBatch(a, err)) == t && a in t.acts && t == s.(acts := s.acts[a := t.acts[a]])
  {
  }

  /** A poll whose steps nothing interrupts stores exactly the snapshot of the poller's tick. */
  lemma PollStepsAreTick(s: Sys, a: nat, ids: seq<ParamID>, errs: seq<Option<ClientError>>, ip: string, now: int)
    requires s.holder.None? && s.acts == map[] && |errs| == Batches(ids)
    ensures var evs := [BeginPoll(a, true, ids)] + BatchEvents(a, errs) + [FinishPoll(a, ip, now)];
            var t := Run(s, evs);
            t.cache == Polled(s.cache, ip, Gather(s.device, ids, errs), LastError(errs), now)
            && t.device == s.device && t.holder.None? && t.acts == map[]
  {
    hide LastError, Gather, Polled;
    var s1 := Step(s, BeginPoll(a, true, ids));
    var act := Polling(s.cache, ids, [], [], ids, map[], None);
    assert s1 == s.(acts := map[a := act], holder := Some(a));
    RunBatches(s1, a, errs);
    var s2 := Run(s1, BatchEvents(a, errs));
    assert map[] + Gather(s.device, ids, errs) == Gather(s.device, ids, errs);
    assert s2.acts[a].todo == [] && s2.acts[a].got == Gather(s.device, ids, errs)
           && s2.acts[a].lastErr == LastError(errs);
    var b, f := [BeginPoll(a, true, ids)], [FinishPoll(a, ip, now)];
    RunAppend(s, b + BatchEvents(a, errs), f);
    RunAppend(s, b, BatchEvents(a, errs));
    OneEvent(s, BeginPoll(a, true, ids));
    OneEvent(s2, FinishPoll(a, ip, now));
    LeaveAlone(StorePoll(s2, s2.acts[a], ip, now), a);
  }

  lemma OneEvent(s: Sys, ev: Event)
    ensures Run(s, [ev]) == Step(s, ev)
  {
    hide Step;
    assert [ev][1..] == [];
  }
}
