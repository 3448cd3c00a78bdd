/** The per-device polling loop body, its settle window, and the recording client of the write paths. */
module Poller {
  import opened Wrappers
  import opened Params
  import opened MemDevice
  import opened Cache

  const SETTLE_SECONDS := 12
  const BATCH_SIZE := 30

  const FAN_WRITE_IDS: set<ParamID> := {0x0002, 0x0007, 0x0044, 0x00B7, 0x003A, 0x003B, 0x003C, 0x003D, 0x003E, 0x003F}
  const FAN_SENSITIVE_READS: set<ParamID> := {0x004A, 0x004B, 0x0084}

  // ---- what a tick reads and stores -------------------------------------------------------

  function Steady(ids: seq<ParamID>): seq<ParamID> {
    if ids == [] then []
    else if ids[0] in FAN_SENSITIVE_READS then Steady(ids[1..])
    else [ids[0]] + Steady(ids[1..])
  }

  predicate Settling(deadline: Option<int>, now: int) { deadline.Some? && now < deadline.value }

  function BatchLength(ids: seq<ParamID>): (n: nat)
    ensures n <= |ids| && n <= 30 && (ids != [] ==> 0 < n)
    ensures n < 30 ==> n == |ids|
  {
    if |ids| < BATCH_SIZE then |ids| else BATCH_SIZE
  }

  /** The values a tick reads from `m`, when the batches marked in `errs` fail. */
  function Gather(m: Values, ids: seq<ParamID>, errs: seq<Option<ClientError>>): Values
    decreases |ids|
  {
    if ids == [] || errs == [] then map[]
    else
      var n := BatchLength(ids);
      (if errs[0].None? then Select(m, ids[..n]) else map[]) + Gather(m, ids[n..], errs[1..])
  }

  function LastError(errs: seq<Option<ClientError>>): Option<ClientError> {
    if errs == [] then None
    else if errs[|errs| - 1].Some? then errs[|errs| - 1]
    else LastError(errs[..|errs| - 1])
  }

  /** The last error, by index: none exactly when there is none, else the one no error follows. */
  lemma {:induction false} LastErrorIsLast(errs: seq<Option<ClientError>>)
    ensures LastError(errs).None? <==> forall i :: 0 <= i < |errs| ==> errs[i].None?
    ensures LastError(errs).Some? ==>
              exists i :: LastFailureAt(errs, i) && LastError(errs) == errs[i]
    decreases |errs|
  {
    if errs == [] {
    } else {
      var n := |errs| - 1;
      LastErrorIsLast(errs[..n]);
      if errs[n].Some? {
        assert LastFailureAt(errs, n);
      } else if LastError(errs).Some? {
        var i :| LastFailureAt(errs[..n], i) && LastError(errs[..n]) == errs[..n][i];
        assert LastFailureAt(errs, i);
      }
    }
  }

  predicate LastFailureAt(errs: seq<Option<ClientError>>, i: int) {
    0 <= i < |errs| && errs[i].Some? && forall j :: i < j < |errs| ==> errs[j].None?
  }

  /** The snapshot a tick stores, given what it read and the last error it met. */
  function Polled(prev: Snapshot, ip: string, got: Values, lastErr: Option<ClientError>, now: int): Snapshot {
    Snapshot(ip,
             if lastErr.Some? && got == map[] && prev.values != map[] then prev.values else got,
             if lastErr.Some? then prev.lastPoll else Some(now),
             lastErr)
  }

  function DialFailed(prev: Snapshot, ip: string, err: ClientError): Snapshot {
    Snapshot(ip, prev.values, prev.lastPoll, Some(err))
  }

  lemma SelectAppend(m: Values, a: seq<ParamID>, b: seq<ParamID>)
    ensures Select(m, a + b) == Select(m, a) + Select(m, b)
  {
  }

  predicate NoErrors(errs: seq<Option<ClientError>>) { forall e :: e in errs ==> e.None? }

  /** The number of batches a list of identifiers is read in. */
  function Batches(ids: seq<ParamID>): nat { (|ids| + BATCH_SIZE - 1) / BATCH_SIZE }

  /** Batching is invisible: without errors the batches together are one unbatched read. */
  lemma {:induction false} BatchesAreOneRead(m: Values, ids: seq<ParamID>, errs: seq<Option<ClientError>>)
    requires NoErrors(errs) && |errs| == Batches(ids)
    ensures Gather(m, ids, errs) == Select(m, ids)
    decreases |ids|
  {
    if ids == [] {
    } else {
      var n := BatchLength(ids);
      assert errs[0] in errs;
      assert Batches(ids[n..]) == Batches(ids) - 1;
      BatchesAreOneRead(m, ids[n..], errs[1..]);
      SelectAppend(m, ids[..n], ids[n..]);
      assert ids[..n] + ids[n..] == ids;
    }
  }

  /** Whatever fails, everything a tick read is what the device holds. */
  lemma {:induction false} GatherIsCurrent(m: Values, ids: seq<ParamID>, errs: seq<Option<ClientError>>)
    ensures forall p :: p in Gather(m, ids, errs) ==> p in ids && p in m && m[p] == Gather(m, ids, errs)[p]
    decreases |ids|
  {
    if ids != [] && errs != [] {
      GatherIsCurrent(m, ids[BatchLength(ids)..], errs[1..]);
    }
  }

  /** The identifiers whose batch was answered. */
  function Answered(ids: seq<ParamID>, errs: seq<Option<ClientError>>): seq<ParamID>
    decreases |ids|
  {
    if ids == [] || errs == [] then []
    else
      var n := BatchLength(ids);
      (if errs[0].None? then ids[..n] else []) + Answered(ids[n..], errs[1..])
  }

  lemma AnsweredStep(before: seq<ParamID>, ids: seq<ParamID>, errs: seq<Option<ClientError>>)
    requires ids != [] && errs != []
    ensures var n := BatchLength(ids);
            before + Answered(ids, errs) ==
            (if errs[0].None? then before + ids[..n] else before) + Answered(ids[n..], errs[1..])
  {
    var n := BatchLength(ids);
    var first, rest := if errs[0].None? then ids[..n] else [], Answered(ids[n..], errs[1..]);
    assert before + (first + rest) == (before + first) + rest && before + [] == before;
  }

  /** A tick reads exactly what the device holds at the answered identifiers. */
  lemma {:induction false} GatherIsAnswered(m: Values, ids: seq<ParamID>, errs: seq<Option<ClientError>>)
    ensures Gather(m, ids, errs) == Select(m, Answered(ids, errs))
    decreases |ids|
  {
    hide Select;
    if ids == [] || errs == [] {
      SelectNothing(m);
    } else {
      var n := BatchLength(ids);
      var first := if errs[0].None? then ids[..n] else [];
      GatherIsAnswered(m, ids[n..], errs[1..]);
      SelectNothing(m);
      SelectAppend(m, first, Answered(ids[n..], errs[1..]));
    }
  }

  lemma SelectNothing(m: Values)
    ensures Select(m, []) == map[]
  {
  }

  /**
   A tick that meets an error forgets a cached parameter the device holds
   exactly when some answered batch returned a value and the parameter was in
   no answered batch.
   */
  lemma FailedTickForgetsIff(m: Values, prev: Snapshot, ip: string, ids: seq<ParamID>, errs: seq<Option<ClientError>>,
                             now: int, p: ParamID)
    requires LastError(errs).Some? && p in prev.values && p in m
    ensures p !in Polled(prev, ip, Gather(m, ids, errs), LastError(errs), now).values <==>
            (exists q :: q in Answered(ids, errs) && q in m) && p !in Answered(ids, errs)
  {
    hide Gather, Answered, LastError;
    GatherIsAnswered(m, ids, errs);
    var got := Gather(m, ids, errs);
    assert forall q :: q in got <==> q in Answered(ids, errs) && q in m;
    if got == map[] {
      assert forall q :: q in Answered(ids, errs) ==> q !in m;
    } else {
      var q :| q in got;
    }
  }

  /** The first thirty-one parameters, and a device that holds them. */
  function ThirtyOne(): seq<ParamID> { seq(31, i requires 0 <= i < 31 => i) }

  function ThirtyOneValues(): Values { map id | id in ThirtyOne() :: [0] }

  /** Thirty-one parameters in two batches, the second timing out: the last cached parameter is forgotten. */
  lemma LostBatchForgets(now: int)
    ensures var m := ThirtyOneValues();
            var prev, errs := Snapshot("", m, Some(0), None), [None, Some(TimeoutError)];
            |errs| == Batches(ThirtyOne()) && 30 in prev.values
            && 30 !in Polled(prev, "", Gather(m, ThirtyOne(), errs), LastError(errs), now).values
  {
    var ids, m, errs := ThirtyOne(), ThirtyOneValues(), [None, Some(TimeoutError)];
    assert errs[1..] == [Some(TimeoutError)] && errs[1..][1..] == [];
    assert Answered(ids[30..], errs[1..]) == [];
    assert Answered(ids, errs) == ids[..30];
    assert ids[0] in ids && ids[30] in ids && ids[..30][0] == ids[0];
    assert 30 !in ids[..30] && LastError(errs) == errs[1];
    assert ids[0] in Answered(ids, errs) && ids[0] in m;
    FailedTickForgetsIff(m, Snapshot("", m, Some(0), None), "", ids, errs, now, 30);
  }

  /**
   For twelve seconds after a write to a fan parameter, and no longer, the
   parameters that need steady fans are not asked for.
   */
  lemma FanReadsPause(written: ParamID, at: int, now: int, ids: seq<ParamID>, p: ParamID)
    requires p in ids
    ensures written in FAN_WRITE_IDS <==> written in {0x02, 0x07, 0x44, 0xB7, 0x3A, 0x3B, 0x3C, 0x3D, 0x3E, 0x3F}
    ensures var asked := if Settling(Some(at + SETTLE_SECONDS), now) then Steady(ids) else ids;
            p in asked <==> now >= at + 12 || p !in {0x4A, 0x4B, 0x84}
  {
    SteadyKeepsTheRest(ids, p);
  }

  class Poller {
    const name: string
    const readIDs: seq<ParamID>
    const state: State
    var ip: string
    var settleDeadline: Option<int>
    var lastLocal: Option<bool>
    /** The mutex that serialises all traffic to the device. */
    var udpHeld: bool

    constructor (name: string, ip: string, readIDs: seq<ParamID>, state: State)
      ensures this.name == name && this.ip == ip && this.readIDs == readIDs && this.state == state
      ensures settleDeadline.None? && lastLocal.None? && !udpHeld
    {
      this.name, this.ip, this.readIDs, this.state := name, ip, readIDs, state;
      settleDeadline, lastLocal, udpHeld := None, None, false;
    }

    /** A caller waits until the mutex is free, and then has it. */
    method LockUDP()
      requires !udpHeld
      modifies this`udpHeld
      ensures udpHeld
    {
      udpHeld := true;
    }

    method UnlockUDP()
      requires udpHeld
      modifies this`udpHeld
      ensures !udpHeld
    {
      udpHeld := false;
    }

    /** A write to a fan parameter starts the settle window, unless the client is in-process. */
    method NoticeWrite(id: ParamID, now: int)
      modifies this`settleDeadline
      ensures settleDeadline ==
              if id in FAN_WRITE_IDS && lastLocal != Some(true) then Some(now + SETTLE_SECONDS) else old(settleDeadline)
    {
      if id !in FAN_WRITE_IDS {
        return;
      }
      if lastLocal.Some? && lastLocal.value {
        return;
      }
      settleDeadline := Some(now + SETTLE_SECONDS);
    }

    method IdsForThisTick(now: int) returns (ids: seq<ParamID>)
      ensures ids == if Settling(settleDeadline, now) then Steady(readIDs) else readIDs
    {
      if settleDeadline.Some? && now < settleDeadline.value {
        ids := [];
        assert readIDs[0..] == readIDs;
        for i := 0 to |readIDs|
          invariant Steady(readIDs) == ids + Steady(readIDs[i..])
        {
          assert readIDs[i..][0] == readIDs[i] && readIDs[i..][1..] == readIDs[i + 1..];
          if readIDs[i] in FAN_SENSITIVE_READS {
            continue;
          }
          ids := ids + [readIDs[i]];
        }
        assert ids + [] == ids;
        return;
      }
      ids := readIDs;
    }

    /** Read all batches, keeping what succeeds and the last error. */
    method ReadBatches(client: MemClient, ids: seq<ParamID>, ctxDone: seq<bool>)
      returns (values: Values, lastErr: Option<ClientError>)
      requires udpHeld && Batches(ids) <= |ctxDone|
      ensures values == Gather(client.params, ids, client.Faults(ctxDone[..Batches(ids)]))
      ensures lastErr == LastError(client.Faults(ctxDone[..Batches(ids)]))
    {
      hide Gather, LastError, Select;
      ghost var errs := client.Faults(ctxDone[..Batches(ids)]);
      GatherEnd(client.params, ids, errs);
      values, lastErr := map[], None;
      var start, k := 0, 0;
      assert ids[0..] == ids && errs[0..] == errs;
      while start < |ids|
        invariant start <= |ids| && k + Batches(ids[start..]) == |errs|
        invariant Gather(client.params, ids, errs) == values + Gather(client.params, ids[start..], errs[k..])
        invariant lastErr == LastError(errs[..k])
        decreases |ids| - start
      {
        ghost var rest, more := ids[start..], errs[k..];
        ghost var n := BatchLength(rest);
        GatherStep(client.params, rest, more);
        LastErrorStep(errs, k);
        var end := start + BATCH_SIZE;
        if end > |ids| {
          end := |ids|;
        }
        var batch := ids[start..end];
        assert batch == rest[..n] && ids[end..] == rest[n..] && more[1..] == errs[k + 1..];
        var got, err := client.ReadParams(batch, ctxDone[k]);
        if err.Some? {
          lastErr := err;
        } else {
          values := values + got;
        }
        start, k := end, k + 1;
      }
      assert errs[..|errs|] == errs;
      GatherEnd(client.params, ids[|ids|..], errs[k..]);
    }

    /**
     One poll cycle, the mutex held throughout. `dialErr` is a dial failure;
     `ctxDone[k]` says the context has ended when batch `k` is read.
     */
    method Tick(client: MemClient, ctxAtStart: bool, dialErr: Option<ClientError>, ctxDone: seq<bool>, idsAt: int,
                now: int)
      returns (onTick: bool, onPoll: bool, energy: Option<Values>)
      requires !udpHeld && |ctxDone| == Batches(readIDs)
      modifies state, this`lastLocal, this`udpHeld
      ensures !udpHeld
      ensures var prev := Lookup(old(state.snaps), name);
              var ids := if Settling(settleDeadline, idsAt) then Steady(readIDs) else readIDs;
              var errs := client.Faults(if Batches(ids) <= |ctxDone| then ctxDone[..Batches(ids)] else ctxDone);
              var got := Gather(client.params, ids, errs);
              if ctxAtStart then state.snaps == old(state.snaps) && !onTick && !onPoll && energy.None?
              else if dialErr.Some? then
                state.snaps == old(state.snaps)[name := DialFailed(prev, ip, dialErr.value)]
                && !onTick && !onPoll && energy.None?
              else
                && state.snaps == old(state.snaps)[name := Polled(prev, ip, got, LastError(errs), now)]
                && onTick && (onPoll <==> NoErrors(errs))
                && energy == if NoErrors(errs) then Some(got) else None
      ensures !ctxAtStart && dialErr.None? ==> lastLocal == Some(true)
      ensures ctxAtStart ==> state.snaps == old(state.snaps)
      ensures !ctxAtStart ==>
                && name in state.snaps && state.snaps[name].ip == ip
                && forall other :: other in old(state.snaps) && other != name ==>
                                     other in state.snaps && state.snaps[other] == old(state.snaps)[other]
      ensures !ctxAtStart && dialErr.Some? ==>
                && state.snaps[name].lastErr == dialErr
                && state.snaps[name].values == Lookup(old(state.snaps), name).values
                && state.snaps[name].lastPoll == Lookup(old(state.snaps), name).lastPoll
      ensures !ctxAtStart && dialErr.None? ==>
                var ids := if Settling(settleDeadline, idsAt) then Steady(readIDs) else readIDs;
                var errs := client.Faults(if Batches(ids) <= |ctxDone| then ctxDone[..Batches(ids)] else ctxDone);
                && (state.snaps[name].lastErr.None? <==> forall i :: 0 <= i < |errs| ==> errs[i].None?)
                && (state.snaps[name].lastErr.Some? ==>
                      && (exists i :: LastFailureAt(errs, i) && state.snaps[name].lastErr == errs[i])
                      && state.snaps[name].lastPoll == Lookup(old(state.snaps), name).lastPoll)
                && (state.snaps[name].lastErr.None? ==> state.snaps[name].lastPoll == Some(now))
    {
      hide Gather, LastError, Steady, LastFailureAt, MemClient.Faults;
      onTick, onPoll, energy := false, false, None;
      if ctxAtStart {
        return;
      }
      var ids := IdsForThisTick(idsAt);
      SteadyIsShorter(readIDs);
      LockUDP();
      var prev, _ := state.Get(name);
      if dialErr.Some? {
        state.Set(name, DialFailed(prev, ip, dialErr.value));
        UnlockUDP();
        return;
      }
      lastLocal := Some(true);
      var values, lastErr := ReadBatches(client, ids, ctxDone);
      LastErrorIsLast(client.Faults(ctxDone[..Batches(ids)]));
      NoErrorIsNone(client.Faults(ctxDone[..Batches(ids)]));
      if lastErr.Some? && |values| == 0 && |prev.values| > 0 {
        values := prev.values;
      }
      var lastPoll := Some(now);
      if lastErr.Some? {
        lastPoll := prev.lastPoll;
      }
      state.Set(name, Snapshot(ip, values, lastPoll, lastErr));
      onTick := true;
      if lastErr.None? {
        energy := Some(values);
        onPoll := true;
      }
      UnlockUDP();
    }
  }

  lemma GatherStep(m: Values, ids: seq<ParamID>, errs: seq<Option<ClientError>>)
    requires ids != [] && |errs| == Batches(ids)
    ensures var n := BatchLength(ids);
            && |errs| == 1 + Batches(ids[n..])
            && Gather(m, ids, errs) == (if errs[0].None? then Select(m, ids[..n]) else map[])
               + Gather(m, ids[n..], errs[1..])
  {
  }

  lemma GatherEnd(m: Values, ids: seq<ParamID>, errs: seq<Option<ClientError>>)
    ensures ids == [] ==> Gather(m, ids, errs) == map[]
    ensures map[] + Gather(m, ids, errs) == Gather(m, ids, errs)
    ensures LastError(errs[..0]).None?
  {
  }

  lemma LastErrorStep(errs: seq<Option<ClientError>>, k: nat)
    requires k < |errs|
    ensures LastError(errs[..k + 1]) == if errs[k].Some? then errs[k] else LastError(errs[..k])
  {
    assert errs[..k + 1][..k] == errs[..k];
  }

  lemma {:induction false} SteadyIsShorter(ids: seq<ParamID>)
    ensures |Steady(ids)| <= |ids|
  {
    if ids == [] {
    } else {
      SteadyIsShorter(ids[1..]);
    }
  }

  lemma {:induction false} NoErrorIsNone(errs: seq<Option<ClientError>>)
    ensures LastError(errs).None? <==> NoErrors(errs)
  {
    if errs == [] {
    } else {
      var n := |errs| - 1;
      NoErrorIsNone(errs[..n]);
      assert errs == errs[..n] + [errs[n]];
      assert errs[n] in errs;
      assert forall e :: e in errs[..n] ==> e in errs;
    }
  }

  /** Inside the settle window a tick asks for everything but the fan-sensitive parameters, in order. */
  lemma {:induction false} SteadyKeepsTheRest(ids: seq<ParamID>, p: ParamID)
    ensures p in Steady(ids) <==> p in ids && p !in FAN_SENSITIVE_READS
  {
    if ids == [] {
    } else {
      SteadyKeepsTheRest(ids[1..], p);
      assert p in ids <==> p == ids[0] || p in ids[1..];
    }
  }

  /** The wrapper handlers, schedules and clock syncs write through: it records exactly the successes. */
  class RecordingClient {
    const inner: MemClient
    const poller: Poller

    constructor (inner: MemClient, poller: Poller)
      ensures this.inner == inner && this.poller == poller
    {
      this.inner, this.poller := inner, poller;
    }

    /** Traffic to the device, so only under its mutex. */
    method WriteParams(writes: seq<ParamWrite>, ctxDone: bool, now: int) returns (err: Option<ClientError>)
      requires poller.udpHeld
      modifies inner`params, poller.state, poller`settleDeadline
      ensures err == old(inner.Fault(ctxDone))
      ensures inner.params == if err.None? then Store(old(inner.params), writes) else old(inner.params)
      ensures poller.state.snaps ==
              if err.None? && writes != [] then
                old(poller.state.snaps)[poller.name := WithWrites(Lookup(old(poller.state.snaps), poller.name), writes)]
              else old(poller.state.snaps)
      ensures poller.settleDeadline ==
              if err.None? && poller.lastLocal != Some(true) && (exists w :: w in writes && w.id in FAN_WRITE_IDS)
              then Some(now + SETTLE_SECONDS) else old(poller.settleDeadline)
    {
      err := inner.WriteParams(writes, ctxDone);
      if err.Some? {
        return;
      }
      RecordWrite(writes, now);
    }

    method RecordWrite(writes: seq<ParamWrite>, now: int)
      modifies poller.state, poller`settleDeadline
      ensures poller.state.snaps ==
              if writes != [] then
                old(poller.state.snaps)[poller.name := WithWrites(Lookup(old(poller.state.snaps), poller.name), writes)]
              else old(poller.state.snaps)
      ensures poller.settleDeadline ==
              if poller.lastLocal != Some(true) && (exists w :: w in writes && w.id in FAN_WRITE_IDS)
              then Some(now + SETTLE_SECONDS) else old(poller.settleDeadline)
    {
      poller.state.WriteThrough(poller.name, writes);
      ghost var snaps := poller.state.snaps;
      for i := 0 to |writes|
        invariant poller.state.snaps == snaps
        invariant poller.settleDeadline ==
                  if poller.lastLocal != Some(true) && (exists w :: w in writes[..i] && w.id in FAN_WRITE_IDS)
                  then Some(now + SETTLE_SECONDS) else old(poller.settleDeadline)
      {
        assert writes[..i + 1] == writes[..i] + [writes[i]];
        poller.NoticeWrite(writes[i].id, now);
      }
      assert writes[..|writes|] == writes;
    }
  }
}
