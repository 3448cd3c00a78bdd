/**
 The operations that use a device on someone's behalf: when each takes the
 per-device mutex, opens and closes its client, and records its writes.
 */
module Handlers {
  import opened Wrappers
  import opened Params
  import opened MemDevice
  import opened Cache
  import opened Poller
  import opened Ops
  import opened CacheRuns

  /** What an outside observer sees of one device: its mutex, its socket, its packets. */
  datatype Trace = Locked | Opened | Packet(writes: seq<ParamWrite>) | Closed | Unlocked

  datatype Phase = Free | Held | Open

  /** The discipline: packets only on an open client, clients only under the mutex, closed before it is released. */
  function Next(p: Phase, t: Trace): Option<Phase> {
    match t
    case Locked => if p == Free then Some(Held) else None
    case Opened => if p == Held then Some(Open) else None
    case Packet(_) => if p == Open then Some(Open) else None
    case Closed => if p == Open then Some(Held) else None
    case Unlocked => if p == Held then Some(Free) else None
  }

  /** The phase after a trace, `None` once the discipline has been broken. */
  function PhaseAfter(trace: seq<Trace>): Option<Phase>
    decreases |trace|
  {
    if trace == [] then Some(Free)
    else
      var before := PhaseAfter(trace[..|trace| - 1]);
      if before.None? then None else Next(before.value, trace[|trace| - 1])
  }

  lemma PhaseStep(trace: seq<Trace>, t: Trace)
    requires PhaseAfter(trace).Some?
    ensures PhaseAfter(trace + [t]) == Next(PhaseAfter(trace).value, t)
  {
    assert (trace + [t])[..|trace|] == trace;
  }

  /** The first `n` packets, sent. */
  function Sends(packets: seq<seq<ParamWrite>>, n: nat): seq<Trace>
    requires n <= |packets|
  {
    seq(n, i requires 0 <= i < n => Packet(packets[i]))
  }

  lemma SendsNext(before: seq<Trace>, packets: seq<seq<ParamWrite>>, n: nat)
    requires n < |packets|
    ensures before + Sends(packets, n) + [Packet(packets[n])] == before + Sends(packets, n + 1)
  {
  }

  lemma SendsNone(before: seq<Trace>, packets: seq<seq<ParamWrite>>)
    ensures before + Sends(packets, 0) == before
  {
  }

  /** How many packets went out: those that succeeded, and one that did not. */
  function Tried(sent: nat, err: Option<ClientError>): nat {
    if err.Some? then sent + 1 else sent
  }

  /** A whole operation, from taking the mutex to giving it back. */
  function SessionTrace(packets: seq<seq<ParamWrite>>, n: nat, refused: Option<ClientError>): seq<Trace>
    requires n <= |packets|
  {
    if refused.Some? then [Locked, Unlocked] else [Locked, Opened] + Sends(packets, n) + [Closed, Unlocked]
  }

  lemma TwoSteps(before: seq<Trace>, t: Trace, u: Trace)
    ensures before + [t] + [u] == before + [t, u]
  {
  }

  lemma SessionJoins(before: seq<Trace>, packets: seq<seq<ParamWrite>>, n: nat)
    requires n <= |packets|
    ensures before + [Locked, Opened] + Sends(packets, n) + [Closed] + [Unlocked]
         == before + SessionTrace(packets, n, None)
    ensures before + [Locked] + [Opened] == before + [Locked, Opened]
  {
    hide Sends;
  }

  lemma RefusalJoins(before: seq<Trace>, packets: seq<seq<ParamWrite>>, refused: Option<ClientError>)
    requires refused.Some?
    ensures before + [Locked] + [Unlocked] == before + SessionTrace(packets, 0, refused)
    ensures before + [Locked, Unlocked] == before + SessionTrace(packets, 0, refused)
  {
  }

  /** A session from the outside: two steps in, the packets in order, two steps out; a refused dial sends nothing. */
  lemma SessionIs(packets: seq<seq<ParamWrite>>, n: nat, refused: Option<ClientError>)
    requires n <= |packets|
    ensures var t := SessionTrace(packets, n, refused);
            if refused.Some? then t == [Locked, Unlocked]
            else
              && |t| == n + 4 && t[0] == Locked && t[1] == Opened && t[n + 2] == Closed && t[n + 3] == Unlocked
              && forall i :: 0 <= i < n ==> t[2 + i] == Packet(packets[i])
  {
  }

  /**
   In every trace that keeps the discipline, a packet is preceded by an opening
   with nothing but packets between, and that by a taking of the mutex not
   given back since; and the mutex is never taken twice.
   */
  lemma {:induction false} PacketsUnderMutex(trace: seq<Trace>, i: nat) returns (l: nat, o: nat)
    requires PhaseAfter(trace).Some? && i < |trace| && trace[i].Packet?
    ensures l < o < i && trace[l] == Locked && trace[o] == Opened
    ensures forall k :: o < k < i ==> trace[k].Packet?
    ensures forall k :: l < k < i ==> trace[k] != Unlocked && trace[k] != Locked
  {
    hide Next;
    DisciplineOnPrefix(trace, i + 1);
    var before := trace[..i];
    assert trace[..i + 1][..i] == before;
    NextIs(PhaseAfter(before).value, trace[i]);
    o := LastOpened(before);
    l := LastLocked(before[..o]);
  }

  lemma {:induction false} DisciplineOnPrefix(trace: seq<Trace>, n: nat)
    requires PhaseAfter(trace).Some? && n <= |trace|
    ensures PhaseAfter(trace[..n]).Some?
    decreases |trace|
  {
    if n < |trace| {
      DisciplineOnPrefix(trace[..|trace| - 1], n);
      assert trace[..|trace| - 1][..n] == trace[..n];
    } else {
      assert trace[..n] == trace;
    }
  }

  lemma NextIs(p: Phase, t: Trace)
    ensures Next(p, t) == Some(Open) <==> (p == Held && t == Opened) || (p == Open && t.Packet?)
    ensures Next(p, t) == Some(Held) <==> (p == Free && t == Locked) || (p == Open && t == Closed)
    ensures Next(p, t) == Some(Free) <==> p == Held && t == Unlocked
    ensures t.Packet? && Next(p, t).Some? ==> p == Open
  {
  }

  lemma {:induction false} LastOpened(trace: seq<Trace>) returns (o: nat)
    requires PhaseAfter(trace) == Some(Open)
    ensures o < |trace| && trace[o] == Opened && PhaseAfter(trace[..o]) == Some(Held)
    ensures forall k :: o < k < |trace| ==> trace[k].Packet?
    decreases |trace|
  {
    hide Next;
    o := |trace| - 1;
    var before := trace[..o];
    NextIs(PhaseAfter(before).value, trace[o]);
    if trace[o].Packet? {
      o := LastOpened(before);
      assert before[..o] == trace[..o];
    }
  }

  lemma {:induction false} LastLocked(trace: seq<Trace>) returns (l: nat)
    requires PhaseAfter(trace) in {Some(Held), Some(Open)}
    ensures l < |trace| && trace[l] == Locked
    ensures forall k :: l < k < |trace| ==> trace[k] != Unlocked && trace[k] != Locked
    decreases |trace|
  {
    hide Next;
    l := |trace| - 1;
    var before := trace[..l];
    NextIs(PhaseAfter(before).value, trace[l]);
    if trace[l] != Locked {
      l := LastLocked(before);
    }
  }

  /** One of the first `n` packets writes a parameter the fans respond to. */
  ghost predicate FanWritten(packets: seq<seq<ParamWrite>>, n: nat)
    requires n <= |packets|
  {
    exists i, w :: 0 <= i < n && w in packets[i] && w.id in FAN_WRITE_IDS
  }

  lemma FanWrittenNext(packets: seq<seq<ParamWrite>>, n: nat)
    requires n < |packets|
    ensures FanWritten(packets, n + 1) <==>
            FanWritten(packets, n) || exists w :: w in packets[n] && w.id in FAN_WRITE_IDS
  {
    if w :| w in packets[n] && w.id in FAN_WRITE_IDS {
      assert 0 <= n < n + 1 && w in packets[n];
    }
    if FanWritten(packets, n) {
      var i, w :| 0 <= i < n && w in packets[i] && w.id in FAN_WRITE_IDS;
      assert 0 <= i < n + 1 && w in packets[i];
    }
  }

  lemma NoFanYet(packets: seq<seq<ParamWrite>>)
    ensures !FanWritten(packets, 0)
  {
  }

  class DeviceOps {
    const poller: Poller
    ghost var trace: seq<Trace>

    constructor (poller: Poller)
      requires !poller.udpHeld
      ensures this.poller == poller && trace == [] && Idle()
    {
      this.poller, trace := poller, [];
    }

    /** Nobody is at work, and the discipline has been kept so far. */
    ghost predicate Idle()
      reads this, poller`udpHeld
    {
      !poller.udpHeld && PhaseAfter(trace) == Some(Free)
    }

    ghost predicate Owned()
      reads this, poller`udpHeld
    {
      poller.udpHeld && PhaseAfter(trace) == Some(Held)
    }

    method LockDevice()
      requires Idle()
      modifies this, poller`udpHeld
      ensures Owned() && trace == old(trace) + [Locked]
    {
      hide PhaseAfter;
      poller.LockUDP();
      PhaseStep(trace, Locked);
      trace := trace + [Locked];
    }

    method UnlockDevice()
      requires Owned()
      modifies this, poller`udpHeld
      ensures Idle() && trace == old(trace) + [Unlocked]
    {
      hide PhaseAfter;
      poller.UnlockUDP();
      PhaseStep(trace, Unlocked);
      trace := trace + [Unlocked];
    }

    /** Take the mutex and open a client; a client that cannot be opened gives the mutex back. */
    method Dial(refused: Option<ClientError>) returns (err: Option<ClientError>)
      requires Idle()
      modifies this, poller`udpHeld
      ensures err == refused
      ensures if err.None? then poller.udpHeld && PhaseAfter(trace) == Some(Open) else Idle()
      ensures trace == old(trace) + if err.None? then [Locked, Opened] else [Locked, Unlocked]
    {
      hide PhaseAfter, Next;
      LockDevice();
      if refused.Some? {
        UnlockDevice();
        TwoSteps(old(trace), Locked, Unlocked);
        return refused;
      }
      OpenClient();
      TwoSteps(old(trace), Locked, Opened);
      err := None;
    }

    /** Send packets through a recording client, stopping at the first error. */
    method SendAll(rc: RecordingClient, packets: seq<seq<ParamWrite>>, ctxDone: seq<bool>, now: int)
      returns (err: Option<ClientError>, sent: nat)
      requires rc.poller == poller && |ctxDone| == |packets|
      requires poller.udpHeld && PhaseAfter(trace) == Some(Open)
      modifies this`trace, rc.inner`params, poller.state, poller`settleDeadline
      ensures poller.udpHeld && PhaseAfter(trace) == Some(Open)
      ensures sent <= |packets| && (err.None? <==> sent == |packets|)
      ensures trace == old(trace) + Sends(packets, Tried(sent, err))
      ensures err.Some? ==> err == old(rc.inner.Fault(ctxDone[sent]))
      ensures rc.inner.params == Store(old(rc.inner.params), Flatten(packets[..sent]))
      ensures Lookup(poller.state.snaps, poller.name)
           == WithWrites(old(Lookup(poller.state.snaps, poller.name)), Flatten(packets[..sent]))
      ensures poller.settleDeadline ==
              if poller.lastLocal != Some(true) && FanWritten(packets, sent) then Some(now + 12)
              else old(poller.settleDeadline)
    {
      hide PhaseAfter, Next, Store, Flatten, Sends, FanWritten;
      NoFanYet(packets);
      ghost var m, snap := rc.inner.params, Lookup(poller.state.snaps, poller.name);
      sent := 0;
      err := None;
      SentNone(m, packets);
      SentNone(snap.values, packets);
      SendsNone(trace, packets);
      while sent < |packets|
        invariant sent <= |packets| && poller.udpHeld && PhaseAfter(trace) == Some(Open) && err.None?
        invariant trace == old(trace) + Sends(packets, sent)
        invariant rc.inner.params == Store(m, Flatten(packets[..sent]))
        invariant Lookup(poller.state.snaps, poller.name) == WithWrites(snap, Flatten(packets[..sent]))
        invariant poller.settleDeadline ==
                  if poller.lastLocal != Some(true) && FanWritten(packets, sent) then Some(now + 12)
                  else old(poller.settleDeadline)
        invariant rc.inner.forceAuth == old(rc.inner.forceAuth) && rc.inner.forceTimeout == old(rc.inner.forceTimeout)
      {
        OpenPacket(trace, packets[sent]);
        SendsNext(old(trace), packets, sent);
        FanWrittenNext(packets, sent);
        trace := trace + [Packet(packets[sent])];
        SentOneMore(m, packets, sent);
        SentOneMore(snap.values, packets, sent);
        StoreNothing(rc.inner.params);
        StoreNothing(WithWrites(snap, Flatten(packets[..sent])).values);
        err := rc.WriteParams(packets[sent], ctxDone[sent], now);
        if err.Some? {
          return;
        }
        sent := sent + 1;
      }
    }

    /** Lock, open, send, close, unlock - on every path out. */
    method DoDeviceOp(inner: MemClient, refused: Option<ClientError>, packets: seq<seq<ParamWrite>>,
                      ctxDone: seq<bool>, now: int)
      returns (err: Option<ClientError>, sent: nat)
      requires Idle() && |ctxDone| == |packets|
      modifies this, inner`params, poller.state, poller`settleDeadline, poller`udpHeld
      ensures Idle()
      ensures refused.Some? ==> err == refused && sent == 0
      ensures sent <= |packets| && (refused.None? ==> (err.None? <==> sent == |packets|))
      ensures trace == old(trace) + SessionTrace(packets, if refused.Some? then 0 else Tried(sent, err), refused)
      ensures inner.params == Store(old(inner.params), Flatten(packets[..sent]))
      ensures Lookup(poller.state.snaps, poller.name)
           == WithWrites(old(Lookup(poller.state.snaps, poller.name)), Flatten(packets[..sent]))
      ensures poller.settleDeadline ==
              if poller.lastLocal != Some(true) && FanWritten(packets, sent) then Some(now + 12)
              else old(poller.settleDeadline)
    {
      hide PhaseAfter, Next, Store, Flatten, Sends, SessionTrace, FanWritten;
      NoFanYet(packets);
      SentNone(inner.params, packets);
      SentNone(Lookup(poller.state.snaps, poller.name).values, packets);
      sent := 0;
      err := Dial(refused);
      if err.Some? {
        RefusalJoins(old(trace), packets, refused);
        return;
      }
      var rc := new RecordingClient(inner, poller);
      err, sent := SendAll(rc, packets, ctxDone, now);
      CloseClient();
      UnlockDevice();
      SessionJoins(old(trace), packets, Tried(sent, err));
    }

    /** A scheduled fire holds the mutex itself, so its dial must not take it again. */
    method ScheduledFire(inner: MemClient, refused: Option<ClientError>, packets: seq<seq<ParamWrite>>,
                         ctxDone: seq<bool>, now: int)
      returns (err: Option<ClientError>, sent: nat)
      requires Idle() && |ctxDone| == |packets|
      modifies this, inner`params, poller.state, poller`settleDeadline, poller`udpHeld
      ensures Idle()
      ensures refused.Some? ==> err == refused && sent == 0
      ensures sent <= |packets| && (refused.None? ==> (err.None? <==> sent == |packets|))
      ensures trace == old(trace) + SessionTrace(packets, if refused.Some? then 0 else Tried(sent, err), refused)
      ensures inner.params == Store(old(inner.params), Flatten(packets[..sent]))
      ensures Lookup(poller.state.snaps, poller.name)
           == WithWrites(old(Lookup(poller.state.snaps, poller.name)), Flatten(packets[..sent]))
      ensures poller.settleDeadline ==
              if poller.lastLocal != Some(true) && FanWritten(packets, sent) then Some(now + 12)
              else old(poller.settleDeadline)
    {
      hide PhaseAfter, Next, Store, Flatten, Sends, SessionTrace, FanWritten;
      NoFanYet(packets);
      SentNone(inner.params, packets);
      SentNone(Lookup(poller.state.snaps, poller.name).values, packets);
      sent := 0;
      err := refused;
      LockDevice();
      if refused.Some? {
        UnlockDevice();
        RefusalJoins(old(trace), packets, refused);
        return;
      }
      OpenClient();
      SessionJoins(old(trace), packets, 0);
      var rc := new RecordingClient(inner, poller);
      err, sent := SendAll(rc, packets, ctxDone, now);
      CloseClient();
      UnlockDevice();
      SessionJoins(old(trace), packets, Tried(sent, err));
    }

    method OpenClient()
      requires Owned()
      modifies this`trace
      ensures PhaseAfter(trace) == Some(Open) && trace == old(trace) + [Opened]
    {
      hide PhaseAfter;
      PhaseStep(trace, Opened);
      trace := trace + [Opened];
    }

    method CloseClient()
      requires poller.udpHeld && PhaseAfter(trace) == Some(Open)
      modifies this`trace
      ensures Owned() && trace == old(trace) + [Closed]
    {
      hide PhaseAfter;
      PhaseStep(trace, Closed);
      trace := trace + [Closed];
    }
  }

  lemma OpenPacket(trace: seq<Trace>, writes: seq<ParamWrite>)
    requires PhaseAfter(trace) == Some(Open)
    ensures PhaseAfter(trace + [Packet(writes)]) == Some(Open)
  {
    PhaseStep(trace, Packet(writes));
  }

  lemma SentNone(m: Values, packets: seq<seq<ParamWrite>>)
    ensures Store(m, Flatten(packets[..0])) == m
  {
  }

  lemma StoreNothing(m: Values)
    ensures Store(m, []) == m
  {
  }

  lemma SentOneMore(m: Values, packets: seq<seq<ParamWrite>>, i: nat)
    requires i < |packets|
    ensures Store(m, Flatten(packets[..i + 1])) == Store(Store(m, Flatten(packets[..i])), packets[i])
  {
    FlattenSnoc(packets[..i], packets[i]);
    assert packets[..i + 1] == packets[..i] + [packets[i]];
    StoreAppend(m, Flatten(packets[..i]), packets[i]);
  }

  // ---- undisturbed, an operation is the write steps of the interleaved system --------------------------

  function AckEvents(a: nat, n: nat): seq<Event> {
    seq(2 * n, i => if i % 2 == 0 then Send(a, Acked) else RecordWrites(a))
  }

  /** The mutex holder `a` with these packets left to send. */
  function WritingSys(s: Sys, a: nat, device: Values, cache: Snapshot, rest: seq<seq<ParamWrite>>,
                      dirty: set<ParamID>): Sys {
    Sys(device, cache, Some(a), map[a := Writing(rest)], dirty, s.lastFull)
  }

  lemma AckStep(s: Sys, a: nat, device: Values, cache: Snapshot, rest: seq<seq<ParamWrite>>, dirty: set<ParamID>)
    requires rest != []
    ensures Step(Step(WritingSys(s, a, device, cache, rest, dirty), Send(a, Acked)), RecordWrites(a))
         == WritingSys(s, a, Store(device, rest[0]), WithWrites(cache, rest[0]), rest[1..], dirty - Targets(rest[0]))
  {
    hide Store;
    var s1 := Step(WritingSys(s, a, device, cache, rest, dirty), Send(a, Acked));
    assert s1.acts == map[a := Recording(rest[0], rest[1..])];
  }

  lemma {:induction false} AckRun(s: Sys, a: nat, device: Values, cache: Snapshot, packets: seq<seq<ParamWrite>>,
                                  n: nat, dirty: set<ParamID>)
    requires n <= |packets|
    ensures var t := Run(WritingSys(s, a, device, cache, packets, dirty), AckEvents(a, n));
            t == WritingSys(s, a, Store(device, Flatten(packets[..n])), WithWrites(cache, Flatten(packets[..n])),
                            packets[n..], t.dirty)
    decreases n
  {
    hide Step, Store, Flatten;
    SentNone(device, packets);
    SentNone(cache.values, packets);
    if n > 0 {
      var evs, w := AckEvents(a, n), packets[0];
      AckStep(s, a, device, cache, packets, dirty);
      assert evs[1..][1..] == AckEvents(a, n - 1);
      assert evs[1..][0] == RecordWrites(a);
      AckRun(s, a, Store(device, w), WithWrites(cache, w), packets[1..], n - 1, dirty - Targets(w));
      assert packets[1..][n - 1..] == packets[n..] && packets[..n] == [w] + packets[1..][..n - 1];
      FlattenCons(w, packets[1..][..n - 1]);
      StoreAppend(device, w, Flatten(packets[1..][..n - 1]));
      StoreAppend(cache.values, w, Flatten(packets[1..][..n - 1]));
    } else {
      assert packets[0..] == packets;
    }
  }

  /** The small steps of an operation with `sent` acknowledged packets leave what the operation's contract says. */
  lemma OpStepsAreOp(s: Sys, a: nat, packets: seq<seq<ParamWrite>>, sent: nat)
    requires s.holder.None? && s.acts == map[] && sent <= |packets|
    ensures var last := if sent == |packets| then FinishWrite(a) else Send(a, Refused);
            var t := Run(s, [BeginWrite(a, true, packets)] + AckEvents(a, sent) + [last]);
            && t.holder.None? && t.acts == map[]
            && t.device == Store(s.device, Flatten(packets[..sent]))
            && t.cache == WithWrites(s.cache, Flatten(packets[..sent]))
  {
    hide Store, Flatten;
    var last := if sent == |packets| then FinishWrite(a) else Send(a, Refused);
    var first, acks := BeginWrite(a, true, packets), AckEvents(a, sent);
    RunAppend(s, [first] + acks, [last]);
    RunAppend(s, [first], acks);
    OneEvent(s, first);
    var s1 := Step(s, first);
    assert s1 == WritingSys(s, a, s.device, s.cache, packets, s.dirty);
    AckRun(s, a, s.device, s.cache, packets, sent, s.dirty);
    var s2 := Run(s1, acks);
    OneEvent(s2, last);
    LeaveAlone(s2, a);
  }
}
