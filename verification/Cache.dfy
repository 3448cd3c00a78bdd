/** The cache of latest device snapshots, and the client wrapper that writes through to it. */
module Cache {
  import opened Wrappers
  import opened Params
  import opened MemDevice

  /** A poll time; `None` before the first successful poll. */
  type PollTime = Option<int>

  datatype Snapshot = Snapshot(ip: string, values: Values, lastPoll: PollTime, lastErr: Option<ClientError>)

  const EMPTY := Snapshot("", map[], None, None)

  type Snaps = map<string, Snapshot>

  function Lookup(snaps: Snaps, name: string): Snapshot {
    if name in snaps then snaps[name] else EMPTY
  }

  function WithWrites(snap: Snapshot, writes: seq<ParamWrite>): Snapshot {
    snap.(values := Store(snap.values, writes))
  }

  class State {
    var snaps: Snaps

    constructor ()
      ensures snaps == map[]
    {
      snaps := map[];
    }

    method Get(name: string) returns (snap: Snapshot, ok: bool)
      ensures snap == Lookup(snaps, name) && (ok <==> name in snaps)
    {
      if name !in snaps {
        return EMPTY, false;
      }
      return snaps[name], true;
    }

    method Set(name: string, snap: Snapshot)
      modifies this
      ensures snaps == old(snaps)[name := snap]
    {
      snaps := snaps[name := snap];
    }

    method UpdateIP(name: string, ip: string)
      modifies this
      ensures snaps == old(snaps)[name := Lookup(old(snaps), name).(ip := ip)]
    {
      var snap := if name in snaps then snaps[name] else EMPTY;
      snap := snap.(ip := ip);
      snaps := snaps[name := snap];
    }

    /** Merge successful writes into the snapshot, keeping its poll time and error. */
    method WriteThrough(name: string, writes: seq<ParamWrite>)
      modifies this
      ensures writes != [] ==>
                var was := if name in old(snaps) then old(snaps)[name] else Snapshot("", map[], None, None);
                && name in snaps && snaps[name].values == Store(was.values, writes)
                && snaps[name].ip == was.ip && snaps[name].lastPoll == was.lastPoll
                && snaps[name].lastErr == was.lastErr
                && forall other :: other in old(snaps) && other != name ==>
                                     other in snaps && snaps[other] == old(snaps)[other]
      ensures snaps == if writes == [] then old(snaps)
              else old(snaps)[name := WithWrites(Lookup(old(snaps), name), writes)]
    {
      if |writes| == 0 {
        return;
      }
      var snap := if name in snaps then snaps[name] else EMPTY;
      var values := snap.values;
      for i := 0 to |writes|
        invariant values == Store(snap.values, writes[..i]) && snaps == old(snaps)
      {
        assert writes[..i + 1] == writes[..i] + [writes[i]];
        StoreAppend(snap.values, writes[..i], [writes[i]]);
        values := values[writes[i].id := writes[i].value];
      }
      assert writes[..|writes|] == writes;
      snaps := snaps[name := snap.(values := values)];
    }

    method Delete(name: string)
      modifies this
      ensures snaps == old(snaps) - {name}
    {
      snaps := snaps - {name};
    }
  }
}
