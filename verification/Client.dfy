/** The retrying client, over a link that may lose any request or reply but delivers nothing late. */
module Client {
  import opened Wrappers
  import opened Params
  import opened Blocks
  import opened Frames
  import opened FakeDevice

  /** Both ends read at most this many bytes of a datagram. */
  const BUFFER := 2048

  datatype Link = SendFails | RequestLost | ReplyLost | Delivered

  /**
   The fate of one attempt: whether the context has ended before it, what the
   link does, whether a failed wait is due to the context, and whether the
   context ends during the backoff that follows.
   */
  datatype Fate = Fate(ctxDone: bool, link: Link, ctxEnds: bool, interrupted: bool)

  datatype ClientErr =
    | ContextEnded
    | Network
    | AuthFailed
    | BadFrame(why: FrameError)
    | BadBlock
    | FuncChanged
    | ReadOnly
    | BuilderPanic

  datatype Reply = Body(data: Bytes) | Failed(error: ClientErr)

  datatype ReadResult = Got(values: Values) | ReadFailed(error: ClientErr)

  /** The registered parameters without the write capability. */
  const READ_ONLY_IDS: set<ParamID> := {
    0x000B, 0x001F, 0x0020, 0x0021, 0x0022, 0x0024, 0x0025, 0x0027, 0x004A, 0x004B, 0x0064, 0x007C, 0x007E, 0x007F,
    0x0081, 0x0083, 0x0084, 0x0086, 0x0088, 0x00A3, 0x00B9, 0x0129, 0x0306, 0x030B, 0x0320
  }

  function Truncate(datagram: Bytes): Bytes {
    if |datagram| <= BUFFER then datagram else datagram[..BUFFER]
  }

  // ---- attempts and retries --------------------------------------------------------------

  /** One send and receive. */
  function Attempt(d: Device, id: Bytes, pwd: Bytes, func: Byte, data: Bytes, f: Fate): (r: (Device, Reply))
    requires ValidDevice(d) && |id| == 16 && |pwd| <= 8
    ensures r.0 == d.(values := r.0.values)
  {
    var lost := Failed(if f.ctxEnds then ContextEnded else Network);
    if f.link.SendFails? || f.link.RequestLost? then (d, lost)
    else
      var (d', reply) := Handle(d, Truncate(Frame(id, pwd, func, data)));
      if f.link.ReplyLost? || reply.None? then (d', lost)
      else
        match Decode(Truncate(reply.value), id, pwd)
        case Accepted(_, body) => (d', Body(body))
        case AuthFailure(_) => (d', Failed(AuthFailed))
        case Rejected(why) => (d', Failed(BadFrame(why)))
  }

  predicate GivesUp(r: Reply) { r.Body? || r.error in {AuthFailed, ContextEnded} }

  /** Attempts until one succeeds, fails for good, or the fates run out. */
  function Exchange(d: Device, id: Bytes, pwd: Bytes, func: Byte, data: Bytes, fates: seq<Fate>): (r: (Device, Reply))
    requires ValidDevice(d) && |id| == 16 && |pwd| <= 8 && fates != []
    ensures r.0 == d.(values := r.0.values)
    decreases |fates|
  {
    if fates[0].ctxDone then (d, Failed(ContextEnded))
    else
      var (d', reply) := Attempt(d, id, pwd, func, data, fates[0]);
      if GivesUp(reply) || |fates| == 1 then (d', reply)
      else if fates[0].interrupted then (d', Failed(ContextEnded))
      else Exchange(d', id, pwd, func, data, fates[1..])
  }

  // ---- parameters ------------------------------------------------------------------------

  function Collect(entries: seq<ParamValue>): Values {
    if entries == [] then map[]
    else
      var n := |entries| - 1;
      var m := Collect(entries[..n]);
      if entries[n].unsupported then m else m[entries[n].id := entries[n].value]
  }

  function ReadOutcome(reply: Reply): ReadResult {
    match reply
    case Failed(e) => ReadFailed(e)
    case Body(data) =>
      match Parse(data)
      case Complete(entries) => Got(Collect(entries))
      case FuncChange(_, _) => ReadFailed(FuncChanged)
      case _ => ReadFailed(BadBlock)
  }

  function Read(d: Device, id: Bytes, pwd: Bytes, ids: seq<ParamID>, fates: seq<Fate>): (Device, ReadResult)
    requires ValidDevice(d) && |id| == 16 && |pwd| <= 8 && fates != []
  {
    if ids == [] then (d, Got(map[]))
    else if exists p :: p in ids && Reserved(p) then (d, ReadFailed(BuilderPanic))
    else
      var (d', reply) := Exchange(d, id, pwd, FUNC_READ, ReadBlock(ids, 0), fates);
      (d', ReadOutcome(reply))
  }

  function Write(d: Device, id: Bytes, pwd: Bytes, writes: seq<ParamWrite>, fates: seq<Fate>)
    : (Device, Option<ClientErr>)
    requires ValidDevice(d) && |id| == 16 && |pwd| <= 8 && fates != []
  {
    if writes == [] then (d, None)
    else if exists w :: w in writes && w.id in READ_ONLY_IDS then (d, Some(ReadOnly))
    else if !AllSendable(writes) then (d, Some(BuilderPanic))
    else
      var (d', reply) := Exchange(d, id, pwd, FUNC_WRITE, WriteBlock(writes, 0), fates);
      (d', if reply.Body? then None else Some(reply.error))
  }

  class Client {
    const deviceID: Bytes
    const password: Bytes
    const retries: nat

    constructor (deviceID: Bytes, password: Bytes, retries: nat)
      requires |deviceID| == 16 && |password| <= 8
      ensures this.deviceID == deviceID && this.password == password && this.retries == retries
    {
      this.deviceID, this.password, this.retries := deviceID, password, retries;
    }

    predicate Valid() { |deviceID| == 16 && |password| <= 8 }

    method AttemptOnce(server: Server, func: Byte, data: Bytes, f: Fate) returns (r: Reply)
      requires Valid() && ValidDevice(server.View())
      modifies server`values
      ensures (server.View(), r) == Attempt(old(server.View()), deviceID, password, func, data, f)
    {
      var req := EncodeRequest(deviceID, password, func, data);
      r := Failed(if f.ctxEnds then ContextEnded else Network);
      if f.link.SendFails? || f.link.RequestLost? {
        return;
      }
      var reply := server.HandleRequest(Truncate(req.frame));
      if f.link.ReplyLost? || reply.None? {
        return;
      }
      var decoded := DecodeResponse(Truncate(reply.value), deviceID, password);
      match decoded {
        case Accepted(_, body) => r := Body(body);
        case AuthFailure(_) => r := Failed(AuthFailed);
        case Rejected(why) => r := Failed(BadFrame(why));
      }
    }

    method ExchangeWithRetries(server: Server, func: Byte, data: Bytes, fates: seq<Fate>) returns (r: Reply)
      requires Valid() && ValidDevice(server.View()) && |fates| == retries + 1
      modifies server`values
      ensures (server.View(), r) == Exchange(old(server.View()), deviceID, password, func, data, fates)
    {
      hide Attempt;
      r := Failed(Network);
      var attempt := 0;
      ghost var d0 := server.View();
      while attempt <= retries
        invariant attempt <= retries && ValidDevice(server.View())
        invariant Exchange(d0, deviceID, password, func, data, fates)
               == Exchange(server.View(), deviceID, password, func, data, fates[attempt..])
        decreases retries - attempt
      {
        assert fates[attempt..][0] == fates[attempt] && fates[attempt..][1..] == fates[attempt + 1..];
        if fates[attempt].ctxDone {
          return Failed(ContextEnded);
        }
        r := AttemptOnce(server, func, data, fates[attempt]);
        if r.Body? {
          return;
        }
        if r.error == AuthFailed {
          return;
        }
        if r.error == ContextEnded {
          return;
        }
        if attempt == retries {
          break;
        }
        if fates[attempt].interrupted {
          return Failed(ContextEnded);
        }
        attempt := attempt + 1;
      }
    }

    method CollectValues(entries: seq<ParamValue>) returns (out: Values)
      ensures out == Collect(entries)
    {
      out := map[];
      for i := 0 to |entries|
        invariant out == Collect(entries[..i])
      {
        assert entries[..i + 1][..i] == entries[..i];
        if entries[i].unsupported {
          continue;
        }
        out := out[entries[i].id := entries[i].value];
      }
      assert entries[..|entries|] == entries;
    }

    method ReadParams(server: Server, ids: seq<ParamID>, fates: seq<Fate>) returns (r: ReadResult)
      requires Valid() && ValidDevice(server.View()) && |fates| == retries + 1
      modifies server`values
      ensures (server.View(), r) == Read(old(server.View()), deviceID, password, ids, fates)
    {
      hide Exchange, ReadBlock, Collect, Parse;
      if |ids| == 0 {
        return Got(map[]);
      }
      var block := BuildReadDataBlock(ids);
      if !block.Built? {
        return ReadFailed(BuilderPanic);
      }
      var reply := ExchangeWithRetries(server, FUNC_READ, block.block, fates);
      if reply.Failed? {
        return ReadFailed(reply.error);
      }
      var parsed := ParseDataBlock(reply.data);
      match parsed {
        case Complete(entries) =>
          var out := CollectValues(entries);
          r := Got(out);
        case FuncChange(_, _) => r := ReadFailed(FuncChanged);
        case _ => r := ReadFailed(BadBlock);
      }
    }

    method WriteParams(server: Server, writes: seq<ParamWrite>, fates: seq<Fate>) returns (err: Option<ClientErr>)
      requires Valid() && ValidDevice(server.View()) && |fates| == retries + 1
      modifies server`values
      ensures (server.View(), err) == Write(old(server.View()), deviceID, password, writes, fates)
    {
      hide Exchange, WriteBlock;
      if |writes| == 0 {
        return None;
      }
      for i := 0 to |writes|
        invariant forall w :: w in writes[..i] ==> w.id !in READ_ONLY_IDS
      {
        assert writes[i] in writes && writes[..i + 1] == writes[..i] + [writes[i]];
        if writes[i].id in READ_ONLY_IDS {
          return Some(ReadOnly);
        }
      }
      assert writes[..|writes|] == writes;
      var block := BuildWriteDataBlock(writes);
      if !block.Built? {
        return Some(BuilderPanic);
      }
      var reply := ExchangeWithRetries(server, FUNC_WRITE, block.block, fates);
      err := if reply.Body? then None else Some(reply.error);
    }
  }
}
