/** The peer of the protocol: an in-process device answering FDFD/02 requests. */
module FakeDevice {
  import opened Wrappers
  import opened Params
  import opened Blocks
  import opened Frames

  // ---- reading a request -----------------------------------------------------------

  /** The identifiers of a read request; here every byte but FF and FC is an identifier. */
  function RequestedIDs(data: Bytes, page: Byte): seq<ParamID>
    decreases |data|
  {
    if data == [] then []
    else if data[0] == CHANGE_PAGE then
      if |data| < 2 then [] else RequestedIDs(data[2..], data[1])
    else if data[0] == CHANGE_FUNC then
      if |data| < 2 then [] else RequestedIDs(data[2..], page)
    else [Join(page, data[0])] + RequestedIDs(data[1..], page)
  }

  /**
   A request block byte by byte: FF and a byte change the page, FC and a byte are
   skipped, either alone at the end is dropped, any other byte asks for a parameter.
   */
  lemma RequestBytes(rest: Bytes, b: Byte, page: Byte)
    ensures RequestedIDs([0xFF, b] + rest, page) == RequestedIDs(rest, b)
    ensures RequestedIDs([0xFC, b] + rest, page) == RequestedIDs(rest, page)
    ensures b !in {0xFC, 0xFF} ==>
              RequestedIDs([b] + rest, page) == [0x100 * page + b] + RequestedIDs(rest, page)
    ensures RequestedIDs([0xFF], page) == RequestedIDs([0xFC], page) == []
  {
    assert ([0xFF, b] + rest)[2..] == rest && ([0xFC, b] + rest)[2..] == rest && ([b] + rest)[1..] == rest;
  }

  method ParseReadDataBlock(data: Bytes) returns (out: seq<ParamID>)
    ensures out == RequestedIDs(data, 0)
  {
    var curHi: Byte, i := 0, 0;
    out := [];
    while i < |data|
      invariant i <= |data|
      invariant RequestedIDs(data, 0) == out + RequestedIDs(data[i..], curHi)
      decreases |data| - i
    {
      ghost var here := data[i..];
      var b := data[i];
      if b == CHANGE_PAGE {
        if i + 1 >= |data| {
          return;
        }
        assert here[2..] == data[i + 2..];
        curHi, i := data[i + 1], i + 2;
      } else if b == CHANGE_FUNC {
        if i + 1 >= |data| {
          return;
        }
        assert here[2..] == data[i + 2..];
        i := i + 2;
      } else {
        assert here[1..] == data[i + 1..];
        out, i := out + [Join(curHi, b)], i + 1;
      }
    }
  }

  /** The device reads back the identifiers a read block was built from, across page switches. */
  lemma {:induction false} ReadRoundTrip(ids: seq<ParamID>, page: Byte)
    requires forall id :: id in ids ==> !Reserved(id)
    ensures RequestedIDs(ReadBlock(ids, page), page) == ids
    decreases |ids|
  {
    if ids == [] {
    } else {
      var id, hi := ids[0], Hi(ids[0]);
      var rest := ReadBlock(ids[1..], hi);
      assert id in ids;
      ReadRoundTrip(ids[1..], hi);
      JoinSplit(id);
      assert ([Lo(id)] + rest)[1..] == rest;
      if hi != page {
        assert ReadBlock(ids, page)[2..] == [Lo(id)] + rest;
      } else {
        assert ReadBlock(ids, page) == [Lo(id)] + rest;
      }
    }
  }

  // ---- building a response -------------------------------------------------------------

  function AnswerBytes(values: Values, id: ParamID): Bytes {
    if id !in values || |values[id]| == 0 || |values[id]| > 0xFF then [NOT_SUPPORTED, Lo(id)]
    else if |values[id]| == 1 then [Lo(id), values[id][0]]
    else [SIZE_PREFIX, |values[id]|, Lo(id)] + values[id]
  }

  function ResponseBlock(values: Values, ids: seq<ParamID>, page: Byte): Bytes
    decreases |ids|
  {
    if ids == [] then []
    else SwitchBytes(page, ids[0]) + AnswerBytes(values, ids[0]) + ResponseBlock(values, ids[1..], Hi(ids[0]))
  }

  /** One identifier's answer moves from the rest of the response to the output. */
  lemma ResponseStep(values: Values, ids: seq<ParamID>, i: nat, out: Bytes, page: Byte)
    requires i < |ids|
    ensures out + ResponseBlock(values, ids[i..], page) ==
            out + SwitchBytes(page, ids[i]) + AnswerBytes(values, ids[i])
                + ResponseBlock(values, ids[i + 1..], Hi(ids[i]))
  {
    hide SwitchBytes, AnswerBytes;
    assert ids[i..][0] == ids[i] && ids[i..][1..] == ids[i + 1..];
  }

  lemma ResponseEnd(values: Values, ids: seq<ParamID>, out: Bytes, page: Byte)
    requires ids == []
    ensures out + ResponseBlock(values, ids, page) == out
  {
  }

  /**
   A response block byte by byte: a page switch where the page changes, then the
   "not supported" mark for an absent, empty or oversized value, identifier and
   value for one byte, the sized form for more.
   */
  lemma ResponseOnWire(values: Values, id: ParamID, rest: seq<ParamID>, page: Byte)
    ensures ResponseBlock(values, [id] + rest, page) ==
            (if id / 0x100 == page then [] else [0xFF, id / 0x100])
            + (if id in values && |values[id]| == 1 then [id % 0x100, values[id][0]]
               else if id in values && 2 <= |values[id]| <= 0xFF then [0xFE, |values[id]|, id % 0x100] + values[id]
               else [0xFD, id % 0x100])
            + ResponseBlock(values, rest, id / 0x100)
    ensures ResponseBlock(values, [], page) == []
  {
    assert ([id] + rest)[1..] == rest;
  }

  /** What a response says about one identifier. */
  function Answer(values: Values, id: ParamID): ParamValue {
    if id !in values || |values[id]| == 0 || |values[id]| > 0xFF then ParamValue(id, [], true)
    else ParamValue(id, values[id], false)
  }

  function Answers(values: Values, ids: seq<ParamID>): seq<ParamValue> {
    seq(|ids|, i requires 0 <= i < |ids| => Answer(values, ids[i]))
  }

  function AnswerToken(values: Values, id: ParamID): (t: Token)
    requires !Reserved(id)
    ensures WellFormed(t) && Spell(t) == AnswerBytes(values, id)
    ensures EntryOf(t, Hi(id)) == [Answer(values, id)] && PageOf(t, Hi(id)) == Hi(id)
  {
    JoinSplit(id);
    if id !in values || |values[id]| == 0 || |values[id]| > 0xFF then Missing(Lo(id))
    else if |values[id]| == 1 then
      assert values[id] == [values[id][0]];
      Single(Lo(id), values[id][0])
    else Sized(Lo(id), values[id])
  }

  lemma ParseSwitch(id: ParamID, more: Bytes, page: Byte)
    ensures ParseFrom(SwitchBytes(page, id) + more, page) == ParseFrom(more, Hi(id))
  {
    if Hi(id) != page {
      ParseCons(Page(Hi(id)), more, page);
      AfterAfter([], [], ParseFrom(more, Hi(id)));
    } else {
      assert SwitchBytes(page, id) + more == more;
    }
  }

  lemma {:induction false} ParseResponse(values: Values, ids: seq<ParamID>, page: Byte)
    requires forall id :: id in ids ==> !Reserved(id)
    ensures ParseFrom(ResponseBlock(values, ids, page), page) == Complete(Answers(values, ids))
    decreases |ids|
  {
    hide Answer, AnswerBytes, Spell, WellFormed, EntryOf, PageOf, SwitchBytes, ParseFrom;
    if ids == [] {
      ParseSentence([], page, []);
      AtEnd([], [], page);
      AfterAfter([], [], ParseFrom([], page));
    } else {
      var id, rest := ids[0], ResponseBlock(values, ids[1..], Hi(ids[0]));
      assert id in ids;
      ParseResponse(values, ids[1..], Hi(id));
      var t := AnswerToken(values, id);
      ParseCons(t, rest, Hi(id));
      ParseSwitch(id, AnswerBytes(values, id) + rest, page);
      assert ResponseBlock(values, ids, page) == SwitchBytes(page, id) + (AnswerBytes(values, id) + rest);
      assert Answers(values, ids) == [Answer(values, id)] + Answers(values, ids[1..]);
    }
  }

  /** Parsing a response gives, for each identifier in order, its value or "unsupported". */
  lemma ResponseRoundTrip(values: Values, ids: seq<ParamID>)
    requires forall id :: id in ids ==> !Reserved(id)
    ensures Parse(ResponseBlock(values, ids, 0)) == Complete(Answers(values, ids))
  {
    ParseResponse(values, ids, 0);
  }

  // ---- one request -------------------------------------------------------------------------

  /** The literal identity of a discovery request, "DEFAULT_DEVICEID". */
  const DEFAULT_ID: Bytes := [68, 69, 70, 65, 85, 76, 84, 95, 68, 69, 86, 73, 67, 69, 73, 68]

  /** A device: its identity and password, its parameters, and its fault switches. */
  datatype Device = Device(id: Bytes, pwd: Bytes, values: Values, authFails: bool, silent: bool)

  predicate ValidDevice(d: Device) { |d.id| == 16 && |d.pwd| <= 8 }

  /** The password field of a request, if it is there whole. */
  function RequestPassword(req: Bytes): (r: Option<Bytes>)
    ensures r.Some? ==> |r.value| <= 8
  {
    if |req| <= 20 || req[20] > 8 || 21 + req[20] as int > |req| then None
    else Some(req[21..21 + req[20] as int])
  }

  /** The writes of a parsed block; "not supported" marks are skipped. */
  function WritesOf(entries: seq<ParamValue>): seq<ParamWrite> {
    if entries == [] then []
    else if entries[0].unsupported then WritesOf(entries[1..])
    else [ParamWrite(entries[0].id, entries[0].value)] + WritesOf(entries[1..])
  }

  /** A device writes the entries that carry a value, and no "not supported" mark. */
  lemma {:induction false} MarksAreNotWritten(entries: seq<ParamValue>, w: ParamWrite)
    ensures w in WritesOf(entries) <==>
            exists e :: e in entries && !e.unsupported && e.id == w.id && e.value == w.value
  {
    if entries == [] {
    } else {
      MarksAreNotWritten(entries[1..], w);
      assert entries == [entries[0]] + entries[1..];
    }
  }

  function WrittenIDs(writes: seq<ParamWrite>): seq<ParamID> {
    seq(|writes|, i requires 0 <= i < |writes| => writes[i].id)
  }

  /** What a device does with a request: its next state and its reply, if it sends one. */
  function Handle(d: Device, req: Bytes): (r: (Device, Option<Bytes>))
    requires ValidDevice(d)
    ensures r.0 == d.(values := r.0.values)
  {
    if d.silent then (d, None)
    else if |req| >= 20 && req[4..20] == DEFAULT_ID then (d, HandleDiscovery(d, req))
    else if d.authFails then (d, AuthReply(d, req))
    else
      match Decode(req, d.id, d.pwd)
      case Accepted(func, data) =>
        if func == FUNC_READ then
          (d, Some(Frame(d.id, d.pwd, FUNC_RESPONSE, ResponseBlock(d.values, RequestedIDs(data, 0), 0))))
        else if func == FUNC_WRITE then HandleWrite(d, data, true)
        else if func == FUNC_WRITE_NO_RESPONSE then HandleWrite(d, data, false)
        else (d, None)
      case Rejected(PwdMismatch) => (d, AuthReply(d, req))
      case _ => (d, None)
  }

  function HandleDiscovery(d: Device, req: Bytes): Option<Bytes>
    requires ValidDevice(d)
  {
    var pwd := RequestPassword(req);
    if pwd.None? then None
    else
      match Decode(req, DEFAULT_ID, pwd.value)
      case Accepted(func, data) =>
        if func == FUNC_READ
        then Some(Frame(d.id, [], FUNC_RESPONSE, ResponseBlock(d.values, RequestedIDs(data, 0), 0)))
        else None
      case _ => None
  }

  function AuthReply(d: Device, req: Bytes): Option<Bytes>
    requires ValidDevice(d)
  {
    var pwd := RequestPassword(req);
    if pwd.None? then None else Some(Frame(d.id, pwd.value, FUNC_AUTH_FAILURE, [0x01, 0x00]))
  }

  function HandleWrite(d: Device, data: Bytes, reply: bool): (Device, Option<Bytes>)
    requires ValidDevice(d)
  {
    match Parse(data)
    case Complete(entries) =>
      var writes := WritesOf(entries);
      var d' := d.(values := Store(d.values, writes));
      (d', if reply then Some(Frame(d.id, d.pwd, FUNC_RESPONSE, ResponseBlock(d'.values, WrittenIDs(writes), 0)))
       else None)
    case _ => (d, None)
  }

  lemma WritesStep(m: Values, entries: seq<ParamValue>, i: nat)
    requires i < |entries|
    ensures var e, rest := entries[i], WritesOf(entries[i + 1..]);
            if e.unsupported then WritesOf(entries[i..]) == rest
            else Store(m, WritesOf(entries[i..])) == Store(m[e.id := e.value], rest)
                 && WrittenIDs(WritesOf(entries[i..])) == [e.id] + WrittenIDs(rest)
  {
    var e, rest := entries[i], WritesOf(entries[i + 1..]);
    assert entries[i..][0] == e && entries[i..][1..] == entries[i + 1..];
    assert ([ParamWrite(e.id, e.value)] + rest)[1..] == rest;
  }

  lemma NoWrites(m: Values, entries: seq<ParamValue>)
    requires entries == []
    ensures Store(m, WritesOf(entries)) == m && WrittenIDs(WritesOf(entries)) == []
  {
  }

  class Server {
    const deviceID: Bytes
    const password: Bytes
    var values: Values
    var forceAuthFailure: bool
    var silentMode: bool

    ghost function View(): Device
      reads this
    {
      Device(deviceID, password, values, forceAuthFailure, silentMode)
    }

    constructor (deviceID: Bytes, password: Bytes, values: Values)
      requires |deviceID| == 16 && |password| <= 8
      ensures View() == Device(deviceID, password, values, false, false)
    {
      this.deviceID, this.password, this.values := deviceID, password, values;
      forceAuthFailure, silentMode := false, false;
    }

    method BuildResponseDataBlock(ids: seq<ParamID>) returns (out: Bytes)
      ensures out == ResponseBlock(values, ids, 0)
    {
      hide ResponseBlock;
      var curHi: Byte, first := 0, true;
      out := [];
      assert ids[0..] == ids && [] + ResponseBlock(values, ids, 0) == ResponseBlock(values, ids, 0);
      for i := 0 to |ids|
        invariant ResponseBlock(values, ids, 0) == out + ResponseBlock(values, ids[i..], curHi)
        invariant first ==> curHi == 0
      {
        ghost var was, page := out, curHi;
        var id := ids[i];
        ResponseStep(values, ids, i, was, page);
        if first || Hi(id) != curHi {
          if Hi(id) != curHi || (first && Hi(id) != 0) {
            out := out + [CHANGE_PAGE, Hi(id)];
            curHi := Hi(id);
          }
          first := false;
        }
        assert out == was + SwitchBytes(page, id);
        if id !in values {
          out := out + [NOT_SUPPORTED, Lo(id)];
        } else if |values[id]| == 0 {
          out := out + [NOT_SUPPORTED, Lo(id)];
        } else if |values[id]| == 1 {
          out := out + [Lo(id), values[id][0]];
        } else if |values[id]| > 0xFF {
          out := out + [NOT_SUPPORTED, Lo(id)];
        } else {
          out := out + [SIZE_PREFIX, |values[id]|, Lo(id)];
          out := out + values[id];
        }
        assert out == was + SwitchBytes(page, id) + AnswerBytes(values, id);
      }
      ResponseEnd(values, ids[|ids|..], out, curHi);
    }

    method Reply(pwd: Bytes, func: Byte, data: Bytes) returns (reply: Option<Bytes>)
      requires |deviceID| == 16 && |pwd| <= 8
      ensures reply == Some(Frame(deviceID, pwd, func, data))
    {
      var r := EncodeRequest(deviceID, pwd, func, data);
      reply := Some(r.frame);
    }

    method HandleReadRequest(data: Bytes, pwd: Bytes) returns (reply: Option<Bytes>)
      requires |deviceID| == 16 && |pwd| <= 8
      ensures reply == Some(Frame(deviceID, pwd, FUNC_RESPONSE, ResponseBlock(values, RequestedIDs(data, 0), 0)))
    {
      var ids := ParseReadDataBlock(data);
      var block := BuildResponseDataBlock(ids);
      reply := Reply(pwd, FUNC_RESPONSE, block);
    }

    /** Store the writes one by one, remembering which parameters they were for. */
    method ApplyWrites(entries: seq<ParamValue>) returns (ids: seq<ParamID>)
      modifies this`values
      ensures values == Store(old(values), WritesOf(entries)) && ids == WrittenIDs(WritesOf(entries))
    {
      hide Store, WritesOf;
      ids := [];
      ghost var writes := WritesOf(entries);
      assert entries[0..] == entries;
      for i := 0 to |entries|
        invariant Store(old(values), writes) == Store(values, WritesOf(entries[i..]))
        invariant WrittenIDs(writes) == ids + WrittenIDs(WritesOf(entries[i..]))
      {
        var e := entries[i];
        WritesStep(values, entries, i);
        if e.unsupported {
          continue;
        }
        assert ids + ([e.id] + WrittenIDs(WritesOf(entries[i + 1..]))) ==
               ids + [e.id] + WrittenIDs(WritesOf(entries[i + 1..]));
        values := values[e.id := e.value];
        ids := ids + [e.id];
      }
      NoWrites(values, entries[|entries|..]);
    }

    method HandleWriteRequest(data: Bytes, wantReply: bool) returns (reply: Option<Bytes>)
      requires ValidDevice(View())
      modifies this`values
      ensures (View(), reply) == HandleWrite(old(View()), data, wantReply)
    {
      hide Store, WritesOf, WrittenIDs, Parse, ResponseBlock, Frame;
      var r := ParseDataBlock(data);
      if !r.Complete? {
        return None;
      }
      var ids := ApplyWrites(r.entries);
      if !wantReply {
        return None;
      }
      var block := BuildResponseDataBlock(ids);
      reply := Reply(password, FUNC_RESPONSE, block);
    }

    method SendAuthFailure(req: Bytes) returns (reply: Option<Bytes>)
      requires ValidDevice(View())
      ensures reply == AuthReply(View(), req)
    {
      if RequestPassword(req).None? {
        return None;
      }
      reply := Reply(RequestPassword(req).value, FUNC_AUTH_FAILURE, [0x01, 0x00]);
    }

    method HandleDiscoveryRequest(req: Bytes) returns (reply: Option<Bytes>)
      requires ValidDevice(View())
      ensures reply == HandleDiscovery(View(), req)
    {
      var pwd := RequestPassword(req);
      if pwd.None? {
        return None;
      }
      var r := DecodeResponse(req, DEFAULT_ID, pwd.value);
      if !r.Accepted? || r.func != FUNC_READ {
        return None;
      }
      reply := HandleReadRequest(r.data, []);
    }

    /** Answer one request. */
    method HandleRequest(req: Bytes) returns (reply: Option<Bytes>)
      requires ValidDevice(View())
      modifies this`values
      ensures (View(), reply) == Handle(old(View()), req)
    {
      hide HandleWrite, HandleDiscovery, AuthReply, Decode;
      if silentMode {
        return None;
      }
      if |req| >= 20 && req[4..20] == DEFAULT_ID {
        reply := HandleDiscoveryRequest(req);
        return;
      }
      if forceAuthFailure {
        reply := SendAuthFailure(req);
        return;
      }
      var r := DecodeResponse(req, deviceID, password);
      match r {
        case Rejected(PwdMismatch) => reply := SendAuthFailure(req);
        case Accepted(func, data) =>
          if func == FUNC_READ {
            reply := HandleReadRequest(data, password);
          } else if func == FUNC_WRITE {
            reply := HandleWriteRequest(data, true);
          } else if func == FUNC_WRITE_NO_RESPONSE {
            reply := HandleWriteRequest(data, false);
          } else {
            reply := None;
          }
        case _ => reply := None;
      }
    }
  }
}
