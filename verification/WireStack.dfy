/** Client, codec, link and device together, against the plain parameter map. */
module WireStack {
  import opened Wrappers
  import opened Params
  import opened Blocks
  import opened Frames
  import opened FakeDevice
  import opened Client

  /** The frame around a block fits both ends' buffers. */
  predicate Fits(pwd: Bytes, block: Bytes) { 24 + |pwd| + |block| <= 2048 }

  predicate Peers(d: Device, id: Bytes, pwd: Bytes) { ValidDevice(d) && |id| == 16 && |pwd| <= 8 }

  /** The device knows this client and answers it. */
  predicate Answering(d: Device, id: Bytes, pwd: Bytes) {
    Peers(d, id, pwd) && d.id == id && d.pwd == pwd && id != DEFAULT_ID && !d.authFails && !d.silent
  }

  function Written(d: Device, writes: seq<ParamWrite>): Device {
    d.(values := Store(d.values, Sent(writes)))
  }

  function WriteReply(d: Device, writes: seq<ParamWrite>): Bytes {
    ResponseBlock(Written(d, writes).values, WrittenIDs(Sent(writes)), 0)
  }

  // ---- one request through codec and device -----------------------------------------------

  /** Decoding someone's frame gives its function and data, or nothing that passes for a reply. */
  lemma DecodeFrame(i: Bytes, p: Bytes, func: Byte, data: Bytes, id: Bytes, pwd: Bytes)
    requires |i| == 16 && |p| <= 8 && |id| == 16 && |pwd| <= 8
    ensures |Frame(i, p, func, data)| == 24 + |p| + |data| && Frame(i, p, func, data)[4..20] == i
    ensures var r := Decode(Frame(i, p, func, data), id, pwd);
            if i == id && p == pwd
            then r == if func == FUNC_AUTH_FAILURE then AuthFailure(data) else Accepted(func, data)
            else r.Rejected?
  {
    hide Frame, Decode;
    var raw := Frame(i, p, func, data);
    FrameHasLayout(i, p, func, data);
    DecodeInvertsEncode(raw, id, pwd, func, data);
    var r := Decode(raw, id, pwd);
    if !r.Rejected? {
      var f' := if r.Accepted? then r.func else FUNC_AUTH_FAILURE;
      DecodeInvertsEncode(raw, id, pwd, f', r.data);
      FrameHasLayout(id, pwd, f', r.data);
    }
  }

  lemma {:induction false} WritesOfEntries(writes: seq<ParamWrite>)
    ensures WritesOf(AsEntries(writes)) == writes
  {
    if writes == [] {
    } else {
      assert AsEntries(writes)[1..] == AsEntries(writes[1..]);
      WritesOfEntries(writes[1..]);
    }
  }

  /** An auth-failure reply never decodes as an accepted one. */
  lemma AuthReplyRefused(d: Device, req: Bytes, id: Bytes, pwd: Bytes)
    requires Peers(d, id, pwd)
    ensures var reply := AuthReply(d, req);
            reply.Some? ==> !Decode(Truncate(reply.value), id, pwd).Accepted?
  {
    hide Frame, Decode;
    if RequestPassword(req).Some? {
      DecodeFrame(d.id, RequestPassword(req).value, FUNC_AUTH_FAILURE, [0x01, 0x00], id, pwd);
    }
  }

  /** A write request is applied whole or not at all, and only an applied one is acknowledged. */
  lemma WriteRequest(d: Device, id: Bytes, pwd: Bytes, writes: seq<ParamWrite>)
    requires Peers(d, id, pwd) && AllSendable(writes)
    ensures var (d', reply) := Handle(d, Frame(id, pwd, FUNC_WRITE, WriteBlock(writes, 0)));
            && d' in {d, Written(d, writes)}
            && (reply.Some? && Decode(Truncate(reply.value), id, pwd).Accepted? ==> d' == Written(d, writes))
            && (Answering(d, id, pwd) ==> d' == Written(d, writes)
                                          && reply == Some(Frame(id, pwd, FUNC_RESPONSE, WriteReply(d, writes))))
  {
    hide Frame, Decode, WriteBlock, AuthReply, Parse, ResponseBlock;
    var block := WriteBlock(writes, 0);
    var req := Frame(id, pwd, FUNC_WRITE, block);
    DecodeFrame(id, pwd, FUNC_WRITE, block, d.id, d.pwd);
    AuthReplyRefused(d, req, id, pwd);
    WriteRoundTrip(writes);
    WritesOfEntries(Sent(writes));
    if RequestPassword(req).Some? {
      DecodeFrame(id, pwd, FUNC_WRITE, block, DEFAULT_ID, RequestPassword(req).value);
    }
  }

  /** A read request changes nothing, and an accepted reply carries the answers. */
  lemma ReadRequest(d: Device, id: Bytes, pwd: Bytes, ids: seq<ParamID>)
    requires Peers(d, id, pwd) && (forall p :: p in ids ==> !Reserved(p))
    requires Fits(pwd, ResponseBlock(d.values, ids, 0))
    ensures var (d', reply) := Handle(d, Frame(id, pwd, FUNC_READ, ReadBlock(ids, 0)));
            && d' == d
            && (reply.Some? ==>
                  var r := Decode(Truncate(reply.value), id, pwd);
                  r.Accepted? ==> r.data == ResponseBlock(d.values, ids, 0))
            && (Answering(d, id, pwd) ==> reply == Some(Frame(id, pwd, FUNC_RESPONSE, ResponseBlock(d.values, ids, 0))))
  {
    hide Frame, Decode, ReadBlock, AuthReply, ResponseBlock, RequestedIDs;
    var block, answer := ReadBlock(ids, 0), ResponseBlock(d.values, ids, 0);
    var req := Frame(id, pwd, FUNC_READ, block);
    ReadRoundTrip(ids, 0);
    DecodeFrame(id, pwd, FUNC_READ, block, d.id, d.pwd);
    DecodeFrame(d.id, d.pwd, FUNC_RESPONSE, answer, id, pwd);
    DecodeFrame(d.id, [], FUNC_RESPONSE, answer, id, pwd);
    AuthReplyRefused(d, req, id, pwd);
    if RequestPassword(req).Some? {
      DecodeFrame(id, pwd, FUNC_READ, block, DEFAULT_ID, RequestPassword(req).value);
    }
  }

  lemma WrittenTwice(d: Device, writes: seq<ParamWrite>)
    ensures Written(Written(d, writes), writes) == Written(d, writes)
  {
    StoreOverrides(d.values, Sent(writes), Sent(writes));
  }

  // ---- what a device answers ----------------------------------------------------------------------

  function Ascii(s: string): Bytes
    requires forall i :: 0 <= i < |s| ==> s[i] as int < 0x80
  {
    seq(|s|, i requires 0 <= i < |s| => s[i] as int)
  }

  /** The wildcard identity of a discovery request. */
  lemma WildcardIsLiteral()
    ensures DEFAULT_ID == Ascii("DEFAULT_DEVICEID")
  {
  }

  lemma PasswordOfFrame(i: Bytes, p: Bytes, func: Byte, data: Bytes)
    requires |i| == 16 && |p| <= 8
    ensures RequestPassword(Frame(i, p, func, data)) == Some(p)
  {
    hide Frame, Check;
    FrameHasLayout(i, p, func, data);
  }

  /**
   Every well-formed request and its answer: the wildcard's read under any
   password is answered by the device's own identity without one; another
   identity is met with silence; a wrong password, or the forced fault, with an
   authentication failure that echoes the password; of the functions, 1 reads,
   3 writes and answers, 2 writes only, and every other is dropped.
   */
  lemma DeviceAnswers(d: Device, i: Bytes, p: Bytes, func: Byte, data: Bytes)
    requires ValidDevice(d) && |i| == 16 && |p| <= 8
    ensures var answer := ResponseBlock(d.values, RequestedIDs(data, 0), 0);
            Handle(d, Frame(i, p, func, data)) ==
            if d.silent then (d, None)
            else if i == DEFAULT_ID then (d, if func == 0x01 then Some(Frame(d.id, [], 0x06, answer)) else None)
            else if d.authFails then (d, Some(Frame(d.id, p, 0x07, [0x01, 0x00])))
            else if i != d.id then (d, None)
            else if p != d.pwd then (d, Some(Frame(d.id, p, 0x07, [0x01, 0x00])))
            else if func == 0x01 then (d, Some(Frame(d.id, d.pwd, 0x06, answer)))
            else if func == 0x03 || func == 0x02 then HandleWrite(d, data, func == 0x03)
            else (d, None)
  {
    hide Frame, Decode, ResponseBlock, RequestedIDs, HandleWrite, RequestPassword;
    DecodeFrame(i, p, func, data, d.id, d.pwd);
    DecodeFrame(i, p, func, data, DEFAULT_ID, p);
    WrongAddressee(i, p, func, data, d.id, d.pwd);
    PasswordOfFrame(i, p, func, data);
  }

  /** What a write request does: a well-formed block is stored whole, and answered, if at all, by what it wrote. */
  lemma WriteAnswer(d: Device, data: Bytes, wantReply: bool)
    requires ValidDevice(d)
    ensures var (d', reply) := HandleWrite(d, data, wantReply);
            if Parse(data).Complete? then
              var writes := WritesOf(Parse(data).entries);
              && d' == d.(values := Store(d.values, writes))
              && reply == if wantReply
                          then Some(Frame(d.id, d.pwd, 0x06, ResponseBlock(d'.values, WrittenIDs(writes), 0)))
                          else None
            else d' == d && reply.None?
  {
  }

  /**
   A datagram for no one in particular, cut short or corrupt is not answered; a
   wrong password is, whatever the sum says, because it is looked at first.
   */
  lemma MalformedRequests(d: Device, req: Bytes)
    requires ValidDevice(d) && !d.silent && !d.authFails && !(|req| >= 20 && req[4..20] == DEFAULT_ID)
    ensures !HeaderAndIdentity(req, d.id) ==> Handle(d, req) == (d, None)
    ensures HeaderAndIdentity(req, d.id) ==>
              var p, n := req[20] as int, |req|;
              if p > 8 || n < 24 + p then Handle(d, req) == (d, None)
              else if req[21..21 + p] != d.pwd then Handle(d, req) == (d, AuthReply(d, req))
              else Sum(req[2..n - 2]) % 0x1_0000 != req[n - 2] as int + 0x100 * (req[n - 1] as int) ==>
                     Handle(d, req) == (d, None)
  {
    hide Decode, Sum, AuthReply, ResponseBlock, RequestedIDs, HandleWrite;
    FirstFaultIsNamed(req, d.id, d.pwd);
  }

  // ---- refusals ----------------------------------------------------------------------------------

  /** The device refuses this client. */
  predicate Refusing(d: Device, id: Bytes, pwd: Bytes) {
    Peers(d, id, pwd) && d.id == id && id != DEFAULT_ID && !d.silent && (d.authFails || d.pwd != pwd)
  }

  lemma RefusedAttempt(d: Device, id: Bytes, pwd: Bytes, func: Byte, data: Bytes, f: Fate)
    requires Refusing(d, id, pwd) && Fits(pwd, data)
    ensures f.link.Delivered? ==> Attempt(d, id, pwd, func, data, f) == (d, Failed(AuthFailed))
    ensures !f.link.Delivered? && !f.ctxEnds ==> Attempt(d, id, pwd, func, data, f) == (d, Failed(Network))
  {
    hide Frame, Decode, Handle;
    DeviceAnswers(d, id, pwd, func, data);
    DecodeFrame(id, pwd, func, data, id, pwd);
    DecodeFrame(d.id, pwd, 0x07, [0x01, 0x00], id, pwd);
  }

  /**
   A refused client is told so by the first attempt that gets through, whatever
   retries were left, and the device is as it was.
   */
  lemma {:induction false} RefusalIsFinal(d: Device, id: Bytes, pwd: Bytes, func: Byte, data: Bytes,
                                          fates: seq<Fate>, k: nat)
    requires Refusing(d, id, pwd) && Fits(pwd, data) && k < |fates| && fates[k].link.Delivered? && !fates[k].ctxDone
    requires forall i :: 0 <= i < k ==> NoContextEnd(fates[i]) && !fates[i].link.Delivered?
    ensures Exchange(d, id, pwd, func, data, fates) == (d, Failed(AuthFailed))
    decreases k
  {
    hide Attempt, Refusing;
    RefusedAttempt(d, id, pwd, func, data, fates[0]);
    if k > 0 {
      assert NoContextEnd(fates[0]);
      RefusalIsFinal(d, id, pwd, func, data, fates[1..], k - 1);
    }
  }

  /**
   A context that has ended stops an exchange before any traffic; one that ends
   during a wait or a backoff stops it right there.
   */
  lemma ContextStopsExchange(d: Device, id: Bytes, pwd: Bytes, func: Byte, data: Bytes, fates: seq<Fate>)
    requires Peers(d, id, pwd) && fates != []
    ensures fates[0].ctxDone ==> Exchange(d, id, pwd, func, data, fates) == (d, Failed(ContextEnded))
    ensures !fates[0].ctxDone && fates[0].link.RequestLost?
            && (fates[0].ctxEnds || (fates[0].interrupted && |fates| > 1)) ==>
              Exchange(d, id, pwd, func, data, fates) == (d, Failed(ContextEnded))
  {
    hide Frame, Decode, Handle;
  }

  /** The sensors, counters and identification of the unit. */
  predicate KnownReadOnly(id: ParamID) {
    || id in {0x0B, 0x4A, 0x4B, 0x64, 0x7C, 0x7E, 0x7F, 0x81, 0x83, 0x84, 0x86, 0x88, 0xA3, 0xB9, 0x129}
    || 0x1F <= id <= 0x22 || id in {0x24, 0x25, 0x27, 0x306, 0x30B, 0x320}
  }

  /**
   Refusals before any traffic: a write to a parameter known to be read-only, and
   then a write the builder cannot spell; nothing to write is nothing to send.
   */
  lemma WriteRefusals(d: Device, id: Bytes, pwd: Bytes, writes: seq<ParamWrite>, fates: seq<Fate>)
    requires Peers(d, id, pwd) && fates != []
    ensures writes == [] ==> Write(d, id, pwd, writes, fates) == (d, None)
    ensures (exists w :: w in writes && KnownReadOnly(w.id)) ==>
              Write(d, id, pwd, writes, fates) == (d, Some(ReadOnly))
    ensures (forall w :: w in writes ==> !KnownReadOnly(w.id))
            && (exists w :: w in writes && (w.id % 0x100 >= 0xFC || |w.value| > 0xFF)) ==>
              Write(d, id, pwd, writes, fates) == (d, Some(BuilderPanic))
  {
    hide Exchange, WriteBlock;
    if w :| w in writes && (w.id % 0x100 >= 0xFC || |w.value| > 0xFF) {
      assert !Sendable(w);
    }
  }

  // ---- writes over a lossy link ---------------------------------------------------------------

  lemma AttemptWrite(d: Device, id: Bytes, pwd: Bytes, writes: seq<ParamWrite>, f: Fate)
    requires Peers(d, id, pwd) && AllSendable(writes) && Fits(pwd, WriteBlock(writes, 0))
    ensures var (d', reply) := Attempt(d, id, pwd, FUNC_WRITE, WriteBlock(writes, 0), f);
            d' in {d, Written(d, writes)} && (reply.Body? ==> d' == Written(d, writes))
  {
    hide Frame, Decode, WriteBlock, Handle, Written;
    DecodeFrame(id, pwd, FUNC_WRITE, WriteBlock(writes, 0), id, pwd);
    WriteRequest(d, id, pwd, writes);
  }

  lemma {:induction false} ExchangeWrite(d: Device, id: Bytes, pwd: Bytes, writes: seq<ParamWrite>, fates: seq<Fate>)
    requires Peers(d, id, pwd) && AllSendable(writes) && Fits(pwd, WriteBlock(writes, 0)) && fates != []
    ensures var (d', reply) := Exchange(d, id, pwd, FUNC_WRITE, WriteBlock(writes, 0), fates);
            d' in {d, Written(d, writes)} && (reply.Body? ==> d' == Written(d, writes))
    decreases |fates|
  {
    hide Attempt, WriteBlock, Written;
    AttemptWrite(d, id, pwd, writes, fates[0]);
    WrittenTwice(d, writes);
    var d1 := Attempt(d, id, pwd, FUNC_WRITE, WriteBlock(writes, 0), fates[0]).0;
    if |fates| > 1 {
      ExchangeWrite(d1, id, pwd, writes, fates[1..]);
    }
  }

  /**
   Whatever the link loses and whenever the context ends, a successful write
   leaves the map as storing the writes once, however many attempts got
   through; a failed one leaves it untouched or fully written, never in between.
   */
  lemma WriteIsAllOrNothing(d: Device, id: Bytes, pwd: Bytes, writes: seq<ParamWrite>, fates: seq<Fate>)
    requires Peers(d, id, pwd) && fates != []
    requires AllSendable(writes) ==> Fits(pwd, WriteBlock(writes, 0))
    ensures var (d', err) := Write(d, id, pwd, writes, fates);
            && d' == d.(values := d'.values)
            && (err.None? ==> d'.values == Store(d.values, Sent(writes)))
            && (err.Some? ==> d'.values in {d.values, Store(d.values, Sent(writes))})
  {
    hide Exchange, WriteBlock;
    if AllSendable(writes) {
      ExchangeWrite(d, id, pwd, writes, fates);
    }
  }

  // ---- reads over a lossy link -----------------------------------------------------------------

  /** Every stored value can be told apart on the wire from "unsupported". */
  predicate Usable(values: Values) {
    forall p :: p in values ==> 1 <= |values[p]| <= 0xFF
  }

  lemma {:induction false} CollectAnswers(values: Values, ids: seq<ParamID>)
    requires Usable(values)
    ensures Collect(Answers(values, ids)) == Select(values, ids)
  {
    if ids == [] {
    } else {
      var n := |ids| - 1;
      CollectAnswers(values, ids[..n]);
      assert Answers(values, ids)[..n] == Answers(values, ids[..n]);
      assert ids == ids[..n] + [ids[n]];
    }
  }

  lemma AttemptRead(d: Device, id: Bytes, pwd: Bytes, ids: seq<ParamID>, f: Fate)
    requires Peers(d, id, pwd) && (forall p :: p in ids ==> !Reserved(p))
    requires Fits(pwd, ReadBlock(ids, 0)) && Fits(pwd, ResponseBlock(d.values, ids, 0))
    ensures var (d', reply) := Attempt(d, id, pwd, FUNC_READ, ReadBlock(ids, 0), f);
            d' == d && (reply.Body? ==> reply.data == ResponseBlock(d.values, ids, 0))
  {
    hide Frame, Decode, ReadBlock, ResponseBlock, Handle;
    DecodeFrame(id, pwd, FUNC_READ, ReadBlock(ids, 0), id, pwd);
    ReadRequest(d, id, pwd, ids);
  }

  lemma {:induction false} ExchangeRead(d: Device, id: Bytes, pwd: Bytes, ids: seq<ParamID>, fates: seq<Fate>)
    requires Peers(d, id, pwd) && (forall p :: p in ids ==> !Reserved(p)) && fates != []
    requires Fits(pwd, ReadBlock(ids, 0)) && Fits(pwd, ResponseBlock(d.values, ids, 0))
    ensures var (d', reply) := Exchange(d, id, pwd, FUNC_READ, ReadBlock(ids, 0), fates);
            d' == d && (reply.Body? ==> reply.data == ResponseBlock(d.values, ids, 0))
    decreases |fates|
  {
    hide Attempt, ReadBlock, ResponseBlock;
    AttemptRead(d, id, pwd, ids, fates[0]);
    if |fates| > 1 {
      ExchangeRead(d, id, pwd, ids, fates[1..]);
    }
  }

  /** A read changes nothing; when it succeeds it returns exactly what the device holds. */
  lemma ReadIsSelect(d: Device, id: Bytes, pwd: Bytes, ids: seq<ParamID>, fates: seq<Fate>)
    requires Peers(d, id, pwd) && (forall p :: p in ids ==> !Reserved(p)) && fates != [] && Usable(d.values)
    requires Fits(pwd, ReadBlock(ids, 0)) && Fits(pwd, ResponseBlock(d.values, ids, 0))
    ensures var (d', r) := Read(d, id, pwd, ids, fates);
            d' == d && (r.Got? ==> r.values == Select(d.values, ids))
  {
    hide Exchange, ReadBlock, ResponseBlock, Parse;
    ExchangeRead(d, id, pwd, ids, fates);
    ResponseRoundTrip(d.values, ids);
    CollectAnswers(d.values, ids);
  }

  // ---- when an exchange succeeds ------------------------------------------------------------------

  predicate NoContextEnd(f: Fate) { !f.ctxDone && !f.ctxEnds && !f.interrupted }

  /** An attempt from `e` ends in `states`, and has a reply exactly when it is delivered. */
  predicate StaysAnswered(states: set<Device>, e: Device, id: Bytes, pwd: Bytes, func: Byte, data: Bytes, f: Fate)
    requires Peers(e, id, pwd)
  {
    var (e', r) := Attempt(e, id, pwd, func, data, f);
    e' in states && if f.link.Delivered? then r.Body? else r == Failed(Network)
  }

  /**
   If every delivered attempt from the states in `states` is answered and stays
   among them, an undisturbed exchange succeeds exactly when some attempt is delivered.
   */
  lemma {:induction false} SucceedsIffDelivered(states: set<Device>, d: Device, id: Bytes, pwd: Bytes,
                                                func: Byte, data: Bytes, fates: seq<Fate>)
    requires Peers(d, id, pwd) && fates != [] && forall f :: f in fates ==> NoContextEnd(f)
    requires d in states
    requires forall e, f :: e in states && f in fates ==>
             Peers(e, id, pwd) && StaysAnswered(states, e, id, pwd, func, data, f)
    ensures var (d', r) := Exchange(d, id, pwd, func, data, fates);
            (r.Body? <==> exists f :: f in fates && f.link.Delivered?) && (r.Failed? ==> r.error == Network)
    decreases |fates|
  {
    hide Attempt;
    var f := fates[0];
    assert f in fates && NoContextEnd(f);
    var (d1, r) := Attempt(d, id, pwd, func, data, f);
    assert fates == [f] + fates[1..];
    if !GivesUp(r) && |fates| > 1 {
      SucceedsIffDelivered(states, d1, id, pwd, func, data, fates[1..]);
    }
  }

  lemma AnsweredWrite(d: Device, id: Bytes, pwd: Bytes, writes: seq<ParamWrite>, f: Fate)
    requires Answering(d, id, pwd) && AllSendable(writes) && !f.ctxEnds
    requires Fits(pwd, WriteBlock(writes, 0)) && Fits(pwd, WriteReply(d, writes))
    ensures var (d', r) := Attempt(d, id, pwd, FUNC_WRITE, WriteBlock(writes, 0), f);
            d' in {d, Written(d, writes)} && (if f.link.Delivered? then r.Body? else r == Failed(Network))
  {
    hide Frame, Decode, WriteBlock, Handle, Written, WriteReply;
    DecodeFrame(id, pwd, FUNC_WRITE, WriteBlock(writes, 0), id, pwd);
    DecodeFrame(id, pwd, FUNC_RESPONSE, WriteReply(d, writes), id, pwd);
    WriteRequest(d, id, pwd, writes);
  }

  /**
   Undisturbed by its context, a write to an answering device succeeds exactly when
   one of its attempts is delivered.
   */
  lemma WriteSucceedsIffDelivered(d: Device, id: Bytes, pwd: Bytes, writes: seq<ParamWrite>, fates: seq<Fate>)
    requires Answering(d, id, pwd) && writes != [] && AllSendable(writes)
    requires forall w :: w in writes ==> w.id !in READ_ONLY_IDS
    requires Fits(pwd, WriteBlock(writes, 0)) && Fits(pwd, WriteReply(d, writes))
    requires fates != [] && forall f :: f in fates ==> NoContextEnd(f)
    ensures Write(d, id, pwd, writes, fates).1.None? <==> exists f :: f in fates && f.link.Delivered?
  {
    hide Exchange, WriteBlock, Attempt;
    WrittenTwice(d, writes);
    var states := {d, Written(d, writes)};
    assert WriteReply(Written(d, writes), writes) == WriteReply(d, writes);
    forall e, f | e in states && f in fates
      ensures StaysAnswered(states, e, id, pwd, FUNC_WRITE, WriteBlock(writes, 0), f)
    {
      assert NoContextEnd(f);
      AnsweredWrite(e, id, pwd, writes, f);
    }
    SucceedsIffDelivered(states, d, id, pwd, FUNC_WRITE, WriteBlock(writes, 0), fates);
  }

  lemma LandedWrite(d: Device, id: Bytes, pwd: Bytes, writes: seq<ParamWrite>, f: Fate)
    requires Answering(d, id, pwd) && AllSendable(writes) && Fits(pwd, WriteBlock(writes, 0))
    ensures Attempt(d, id, pwd, FUNC_WRITE, WriteBlock(writes, 0), f).0 ==
            if f.link.ReplyLost? || f.link.Delivered? then Written(d, writes) else d
  {
    hide Frame, Decode, WriteBlock, Handle, Written, WriteReply;
    DecodeFrame(id, pwd, FUNC_WRITE, WriteBlock(writes, 0), id, pwd);
    WriteRequest(d, id, pwd, writes);
  }

  lemma {:induction false} LandedExchange(d: Device, id: Bytes, pwd: Bytes, writes: seq<ParamWrite>, fates: seq<Fate>)
    requires Answering(d, id, pwd) && AllSendable(writes) && Fits(pwd, WriteBlock(writes, 0))
    requires fates != [] && forall f :: f in fates ==> NoContextEnd(f)
    ensures Exchange(d, id, pwd, FUNC_WRITE, WriteBlock(writes, 0), fates).0 ==
            if exists f :: f in fates && (f.link.ReplyLost? || f.link.Delivered?) then Written(d, writes) else d
    decreases |fates|
  {
    hide Attempt, WriteBlock, Written;
    var f := fates[0];
    assert f in fates && NoContextEnd(f) && fates == [f] + fates[1..];
    LandedWrite(d, id, pwd, writes, f);
    WrittenTwice(d, writes);
    var (d1, r) := Attempt(d, id, pwd, FUNC_WRITE, WriteBlock(writes, 0), f);
    if !GivesUp(r) && |fates| > 1 {
      LandedExchange(d1, id, pwd, writes, fates[1..]);
    } else if |fates| > 1 {
      GivenUpIsDelivered(d, id, pwd, writes, f);
    }
  }

  /** Undisturbed, an answering device ends an exchange early only by an answer that arrives. */
  lemma GivenUpIsDelivered(d: Device, id: Bytes, pwd: Bytes, writes: seq<ParamWrite>, f: Fate)
    requires Answering(d, id, pwd) && NoContextEnd(f) && AllSendable(writes)
    requires GivesUp(Attempt(d, id, pwd, FUNC_WRITE, WriteBlock(writes, 0), f).1)
    ensures f.link.Delivered?
  {
    hide Frame, Decode, WriteBlock, Handle;
  }

  /**
   Undisturbed by its context, a write to an answering device takes effect exactly
   when one of its requests gets through, whether or not the reply comes back.
   */
  lemma WriteLandsIff(d: Device, id: Bytes, pwd: Bytes, writes: seq<ParamWrite>, fates: seq<Fate>)
    requires Answering(d, id, pwd) && writes != [] && AllSendable(writes)
    requires (forall w :: w in writes ==> w.id !in READ_ONLY_IDS) && Fits(pwd, WriteBlock(writes, 0))
    requires fates != [] && forall f :: f in fates ==> NoContextEnd(f)
    ensures Write(d, id, pwd, writes, fates).0.values ==
            if exists f :: f in fates && (f.link.ReplyLost? || f.link.Delivered?) then Store(d.values, Sent(writes))
            else d.values
  {
    hide Exchange, WriteBlock;
    LandedExchange(d, id, pwd, writes, fates);
  }

  lemma AnsweredRead(d: Device, id: Bytes, pwd: Bytes, ids: seq<ParamID>, f: Fate)
    requires Answering(d, id, pwd) && (forall p :: p in ids ==> !Reserved(p)) && !f.ctxEnds
    requires Fits(pwd, ReadBlock(ids, 0)) && Fits(pwd, ResponseBlock(d.values, ids, 0))
    ensures var (d', r) := Attempt(d, id, pwd, FUNC_READ, ReadBlock(ids, 0), f);
            d' == d && (if f.link.Delivered? then r.Body? else r == Failed(Network))
  {
    hide Frame, Decode, ReadBlock, ResponseBlock, Handle;
    DecodeFrame(id, pwd, FUNC_READ, ReadBlock(ids, 0), id, pwd);
    DecodeFrame(id, pwd, FUNC_RESPONSE, ResponseBlock(d.values, ids, 0), id, pwd);
    ReadRequest(d, id, pwd, ids);
  }

  /** And so does a read. */
  lemma ReadSucceedsIffDelivered(d: Device, id: Bytes, pwd: Bytes, ids: seq<ParamID>, fates: seq<Fate>)
    requires Answering(d, id, pwd) && ids != [] && (forall p :: p in ids ==> !Reserved(p)) && Usable(d.values)
    requires Fits(pwd, ReadBlock(ids, 0)) && Fits(pwd, ResponseBlock(d.values, ids, 0))
    requires fates != [] && forall f :: f in fates ==> NoContextEnd(f)
    ensures Read(d, id, pwd, ids, fates).1.Got? <==> exists f :: f in fates && f.link.Delivered?
  {
    hide Exchange, ReadBlock, ResponseBlock, Attempt, Parse;
    forall f | f in fates
      ensures StaysAnswered({d}, d, id, pwd, FUNC_READ, ReadBlock(ids, 0), f)
    {
      assert NoContextEnd(f);
      AnsweredRead(d, id, pwd, ids, f);
    }
    SucceedsIffDelivered({d}, d, id, pwd, FUNC_READ, ReadBlock(ids, 0), fates);
    ExchangeRead(d, id, pwd, ids, fates);
    ResponseRoundTrip(d.values, ids);
  }

  // ---- empty values ------------------------------------------------------------------------------------

  /** Every empty write is followed by another write to the same parameter. */
  ghost predicate EmptiesSuperseded(writes: seq<ParamWrite>) {
    forall i :: 0 <= i < |writes| && writes[i].value == [] ==> writes[i].id in Targets(writes[i + 1..])
  }

  predicate NoEmptyValue(m: Values) { forall p :: p in m ==> m[p] != [] }

  lemma {:induction false} SentLeavesNoEmpty(m: Values, writes: seq<ParamWrite>)
    requires NoEmptyValue(m)
    ensures NoEmptyValue(Store(m, Sent(writes)))
    decreases |writes|
  {
    if writes == [] {
    } else {
      var w := writes[0];
      SentLeavesNoEmpty(if w.value == [] then m else m[w.id := w.value], writes[1..]);
      assert w.value != [] ==> ([w] + Sent(writes[1..]))[1..] == Sent(writes[1..]);
    }
  }

  lemma {:induction false} SentStoresAll(m: Values, writes: seq<ParamWrite>)
    requires EmptiesSuperseded(writes)
    ensures Store(m, Sent(writes)) == Store(m, writes)
    decreases |writes|
  {
    if writes == [] {
    } else {
      var w, rest := writes[0], writes[1..];
      assert forall i :: 0 <= i < |rest| ==> rest[i] == writes[i + 1] && rest[i + 1..] == writes[i + 2..];
      if w.value == [] {
        SentStoresAll(m, rest);
        assert [w][1..] == [] && Targets([w]) == {w.id};
        StoreOverrides(m, [w], rest);
      } else {
        SentStoresAll(m[w.id := w.value], rest);
        assert ([w] + Sent(rest))[1..] == Sent(rest);
      }
    }
  }

  /**
   The wire builder skips zero-length writes and the in-process device stores
   them: the two devices agree exactly when no parameter's last write is empty.
   */
  lemma EmptyWritesAgreeIff(m: Values, writes: seq<ParamWrite>)
    requires NoEmptyValue(m)
    ensures Store(m, Sent(writes)) == Store(m, writes) <==> EmptiesSuperseded(writes)
  {
    if EmptiesSuperseded(writes) {
      SentStoresAll(m, writes);
    } else {
      var i :| 0 <= i < |writes| && writes[i].value == [] && writes[i].id !in Targets(writes[i + 1..]);
      forall j | i < j < |writes|
        ensures writes[j].id != writes[i].id
      {
        assert writes[j] == writes[i + 1..][j - i - 1];
      }
      StoreLast(m, writes, i);
      SentLeavesNoEmpty(m, writes);
    }
  }

  // ---- whole sessions against the plain map ---------------------------------------------------------

  datatype Cmd = DoRead(ids: seq<ParamID>, fates: seq<Fate>) | DoWrite(writes: seq<ParamWrite>, fates: seq<Fate>)

  datatype Res = ReadRes(r: ReadResult) | WriteRes(err: Option<ClientErr>)

  /** The hypotheses on one command: writable, unreserved, sized parameters, and frames that fit. */
  predicate Proper(d: Device, pwd: Bytes, cmd: Cmd) {
    cmd.fates != [] &&
    match cmd
    case DoRead(ids, _) =>
      && (forall p :: p in ids ==> !Reserved(p))
      && Fits(pwd, ReadBlock(ids, 0)) && Fits(pwd, ResponseBlock(d.values, ids, 0))
    case DoWrite(writes, _) =>
      && AllSendable(writes) && (forall w :: w in writes ==> w.value != [] && w.id !in READ_ONLY_IDS)
      && Fits(pwd, WriteBlock(writes, 0))
  }

  function Perform(d: Device, id: Bytes, pwd: Bytes, cmd: Cmd): (r: (Device, Res))
    requires Peers(d, id, pwd) && cmd.fates != []
    ensures Peers(r.0, id, pwd)
  {
    match cmd
    case DoRead(ids, fates) => var (d', r) := Read(d, id, pwd, ids, fates); (d', ReadRes(r))
    case DoWrite(writes, fates) => var (d', e) := Write(d, id, pwd, writes, fates); (d', WriteRes(e))
  }

  predicate ProperSession(d: Device, id: Bytes, pwd: Bytes, cmds: seq<Cmd>)
    requires Peers(d, id, pwd)
    decreases |cmds|
  {
    cmds == [] || (Proper(d, pwd, cmds[0]) && ProperSession(Perform(d, id, pwd, cmds[0]).0, id, pwd, cmds[1..]))
  }

  /** A session through client, codec, link and device. */
  function Session(d: Device, id: Bytes, pwd: Bytes, cmds: seq<Cmd>): (Device, seq<Res>)
    requires Peers(d, id, pwd) && ProperSession(d, id, pwd, cmds)
    decreases |cmds|
  {
    if cmds == [] then (d, [])
    else
      var (d1, r) := Perform(d, id, pwd, cmds[0]);
      var (d2, rs) := Session(d1, id, pwd, cmds[1..]);
      (d2, [r] + rs)
  }

  function MapAfter(m: Values, cmd: Cmd): Values {
    if cmd.DoWrite? then Store(m, cmd.writes) else m
  }

  function MapResult(m: Values, cmd: Cmd): Res {
    if cmd.DoWrite? then WriteRes(None) else ReadRes(Got(Select(m, cmd.ids)))
  }

  predicate Success(r: Res) { if r.ReadRes? then r.r.Got? else r.err.None? }

  /**
   `results` and `final` are what the plain map starting at `m` gives when just
   the commands marked in `took` take effect: every success is the map's own
   result and took effect; failures are free.
   */
  ghost predicate Explains(m: Values, cmds: seq<Cmd>, took: seq<bool>, results: seq<Res>, final: Values)
    requires |took| == |cmds| == |results|
    decreases |cmds|
  {
    if cmds == [] then final == m
    else
      && (Success(results[0]) ==> took[0] && results[0] == MapResult(m, cmds[0]))
      && Explains(if took[0] then MapAfter(m, cmds[0]) else m, cmds[1..], took[1..], results[1..], final)
  }

  lemma {:induction false} AllSent(writes: seq<ParamWrite>)
    requires forall w :: w in writes ==> w.value != []
    ensures Sent(writes) == writes
  {
    if writes == [] {
    } else {
      assert writes[0] in writes;
      AllSent(writes[1..]);
    }
  }

  lemma {:induction false} StoreUsable(m: Values, writes: seq<ParamWrite>)
    requires Usable(m) && AllSendable(writes) && forall w :: w in writes ==> w.value != []
    ensures Usable(Store(m, writes))
    decreases |writes|
  {
    if writes == [] {
    } else {
      assert writes[0] in writes;
      StoreUsable(m[writes[0].id := writes[0].value], writes[1..]);
    }
  }

  /** One command over the lossy stack is one command on the map, or a failure with or without its effect. */
  lemma PerformOne(d: Device, id: Bytes, pwd: Bytes, cmd: Cmd)
    requires Peers(d, id, pwd) && Usable(d.values) && Proper(d, pwd, cmd)
    ensures var (d', r) := Perform(d, id, pwd, cmd);
            && Usable(d'.values) && d'.values in {d.values, MapAfter(d.values, cmd)}
            && (Success(r) ==> d'.values == MapAfter(d.values, cmd) && r == MapResult(d.values, cmd))
  {
    hide Read, Write, ReadBlock, WriteBlock, ResponseBlock;
    match cmd {
      case DoRead(ids, fates) => ReadIsSelect(d, id, pwd, ids, fates);
      case DoWrite(writes, fates) =>
        AllSent(writes);
        WriteIsAllOrNothing(d, id, pwd, writes, fates);
        StoreUsable(d.values, writes);
    }
  }

  /**
   Every session over the lossy stack is explained by the plain map: there is a
   choice of which failed writes took effect under which all successful results
   and the final parameters are the map's.
   */
  lemma {:induction false} StackRefinesMap(d: Device, id: Bytes, pwd: Bytes, cmds: seq<Cmd>) returns (took: seq<bool>)
    requires Peers(d, id, pwd) && ProperSession(d, id, pwd, cmds) && Usable(d.values)
    ensures var (d', rs) := Session(d, id, pwd, cmds);
            |took| == |cmds| == |rs| && Explains(d.values, cmds, took, rs, d'.values)
    decreases |cmds|
  {
    hide Perform, MapAfter, MapResult, Usable, ReadBlock, WriteBlock, ResponseBlock;
    if cmds == [] {
      took := [];
    } else {
      PerformOne(d, id, pwd, cmds[0]);
      var (d1, r) := Perform(d, id, pwd, cmds[0]);
      var rest := StackRefinesMap(d1, id, pwd, cmds[1..]);
      took := [d1.values == MapAfter(d.values, cmds[0])] + rest;
      var (d2, rs) := Session(d1, id, pwd, cmds[1..]);
      assert took[1..] == rest && ([r] + rs)[1..] == rs;
    }
  }

  function MapSession(m: Values, cmds: seq<Cmd>): (Values, seq<Res>)
    decreases |cmds|
  {
    if cmds == [] then (m, [])
    else
      var (m', rs) := MapSession(MapAfter(m, cmds[0]), cmds[1..]);
      (m', [MapResult(m, cmds[0])] + rs)
  }

  /** A session in which every command succeeds gives the very results and parameters of the plain map. */
  lemma {:induction false} SuccessfulSessionIsMap(d: Device, id: Bytes, pwd: Bytes, cmds: seq<Cmd>)
    requires Peers(d, id, pwd) && ProperSession(d, id, pwd, cmds) && Usable(d.values)
    requires forall r :: r in Session(d, id, pwd, cmds).1 ==> Success(r)
    ensures var (d', rs) := Session(d, id, pwd, cmds);
            (d'.values, rs) == MapSession(d.values, cmds)
    decreases |cmds|
  {
    hide Perform, MapAfter, MapResult, Usable, ReadBlock, WriteBlock, ResponseBlock;
    if cmds == [] {
    } else {
      PerformOne(d, id, pwd, cmds[0]);
      var (d1, r) := Perform(d, id, pwd, cmds[0]);
      var (d2, rs) := Session(d1, id, pwd, cmds[1..]);
      assert r in [r] + rs;
      forall x | x in rs
        ensures Success(x)
      {
        assert x in [r] + rs;
      }
      SuccessfulSessionIsMap(d1, id, pwd, cmds[1..]);
    }
  }
}
