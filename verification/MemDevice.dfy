/** The in-process device: a parameter map with fault switches. */
module MemDevice {
  import opened Wrappers
  import opened Params

  datatype ClientError = AuthError | TimeoutError | ContextError | ReadOnlyError | InvalidArg

  class MemClient {
    var params: Values
    var initial: Values
    var forceAuth: bool
    var forceTimeout: bool

    constructor (seed: Values)
      ensures params == seed && initial == seed && !forceAuth && !forceTimeout
    {
      params, initial := seed, seed;
      forceAuth, forceTimeout := false, false;
    }

    /** The error every call meets while a fault is injected or its context is done. */
    function Fault(ctxDone: bool): Option<ClientError>
      reads this
    {
      if forceAuth then Some(AuthError)
      else if forceTimeout then Some(TimeoutError)
      else if ctxDone then Some(ContextError)
      else None
    }

    /** The errors a series of calls meets. */
    function Faults(ctxDone: seq<bool>): (r: seq<Option<ClientError>>)
      reads this
      ensures |r| == |ctxDone|
    {
      seq(|ctxDone|, i requires 0 <= i < |ctxDone| reads this => Fault(ctxDone[i]))
    }

    method ReadParams(ids: seq<ParamID>, ctxDone: bool) returns (out: Values, err: Option<ClientError>)
      ensures err == Fault(ctxDone)
      ensures forceAuth ==> err == Some(AuthError)
      ensures !forceAuth && forceTimeout ==> err == Some(TimeoutError)
      ensures !forceAuth && !forceTimeout ==> err == if ctxDone then Some(ContextError) else None
      ensures out == if err.None? then Select(params, ids) else map[]
    {
      out, err := map[], Fault(ctxDone);
      if err.Some? {
        return;
      }
      for i := 0 to |ids|
        invariant out == Select(params, ids[..i])
      {
        assert ids[..i + 1] == ids[..i] + [ids[i]];
        if ids[i] in params {
          out := out[ids[i] := params[ids[i]]];
        }
      }
      assert ids[..|ids|] == ids;
    }

    method WriteParams(writes: seq<ParamWrite>, ctxDone: bool) returns (err: Option<ClientError>)
      modifies this`params
      ensures err == old(Fault(ctxDone))
      ensures forceAuth ==> err == Some(AuthError)
      ensures !forceAuth && forceTimeout ==> err == Some(TimeoutError)
      ensures !forceAuth && !forceTimeout ==> err == if ctxDone then Some(ContextError) else None
      ensures params == if err.None? then Store(old(params), writes) else old(params)
    {
      err := Fault(ctxDone);
      if err.Some? {
        return;
      }
      for i := 0 to |writes|
        invariant params == Store(old(params), writes[..i])
      {
        assert writes[..i + 1] == writes[..i] + [writes[i]];
        StoreAppend(old(params), writes[..i], [writes[i]]);
        params := params[writes[i].id := writes[i].value];
      }
      assert writes[..|writes|] == writes;
    }

    method SetAuthFailureMode(force: bool)
      modifies this`forceAuth
      ensures forceAuth == force
    {
      forceAuth := force;
    }

    method SetTimeoutMode(force: bool)
      modifies this`forceTimeout
      ensures forceTimeout == force
    {
      forceTimeout := force;
    }

    method SetParamValue(id: ParamID, value: seq<Byte>)
      modifies this`params
      ensures params == old(params)[id := value]
    {
      params := params[id := value];
    }

    /** Undoes every write and fault since construction. */
    method Reset()
      modifies this
      ensures params == old(initial) && initial == old(initial) && !forceAuth && !forceTimeout
    {
      params := initial;
      forceAuth, forceTimeout := false, false;
    }
  }
}
