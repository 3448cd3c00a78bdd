/** The FDFD/02 frame: header, identity, password, function, data and a 16-bit sum. */
module Frames {
  import opened Params

  const HEADER: Byte := 0xFD
  const PROTO: Byte := 0x02
  const ID_SIZE: Byte := 0x10

  const FUNC_READ: Byte := 0x01
  const FUNC_WRITE_NO_RESPONSE: Byte := 0x02
  const FUNC_WRITE: Byte := 0x03
  const FUNC_RESPONSE: Byte := 0x06
  const FUNC_AUTH_FAILURE: Byte := 0x07

  type Bytes = seq<Byte>

  datatype Encoded = Encoded(frame: Bytes) | BadIDLength | PasswordTooLong

  datatype FrameError = IDLength | Truncated | BadHeader | IDMismatch | PwdMismatch | Checksum

  datatype Decoded =
    | Accepted(func: Byte, data: Bytes)
    | AuthFailure(data: Bytes)
    | Rejected(error: FrameError)

  datatype Discovered =
    | Found(id: Bytes, func: Byte, data: Bytes)
    | AuthFailureFrom(id: Bytes, data: Bytes)
    | Unusable(error: FrameError)

  // ---- the checksum ------------------------------------------------------------

  function Sum(bytes: Bytes): nat {
    if bytes == [] then 0 else Sum(bytes[..|bytes| - 1]) + bytes[|bytes| - 1]
  }

  /** The 16-bit sum of the bytes, wrapping around. */
  function Check(bytes: Bytes): (c: int)
    ensures 0 <= c < 0x1_0000
  {
    Sum(bytes) % 0x1_0000
  }

  /** A little-endian 16-bit word. */
  function Word(lo: Byte, hi: Byte): int { lo as int + hi as int * 0x100 }

  method SumBytes(bytes: Bytes) returns (sum: int)
    ensures sum == Check(bytes)
  {
    sum := 0;
    for i := 0 to |bytes|
      invariant sum == Check(bytes[..i])
    {
      assert bytes[..i + 1][..i] == bytes[..i];
      sum := (sum + bytes[i]) % 0x1_0000;
    }
    assert bytes[..|bytes|] == bytes;
  }

  lemma {:induction false} SumAppend(a: Bytes, b: Bytes)
    ensures Sum(a + b) == Sum(a) + Sum(b)
  {
    if b == [] {
      assert a + b == a;
    } else {
      assert (a + b)[..|a + b| - 1] == a + b[..|b| - 1];
      SumAppend(a, b[..|b| - 1]);
    }
  }

  lemma SumUpdate(bytes: Bytes, k: nat, b: Byte)
    requires k < |bytes|
    ensures Sum(bytes[k := b]) == Sum(bytes) - bytes[k] + b
  {
    var x, y := bytes[..k], bytes[k + 1..];
    assert bytes == x + [bytes[k]] + y && bytes[k := b] == x + [b] + y;
    SumAppend(x, [bytes[k]]);
    SumAppend(x, [b]);
    SumAppend(x + [bytes[k]], y);
    SumAppend(x + [b], y);
    assert [b][..0] == [] && [bytes[k]][..0] == [];
  }

  // ---- encoding ------------------------------------------------------------------

  /** The part of a frame the checksum covers. */
  function Body(id: Bytes, pwd: Bytes, func: Byte, data: Bytes): Bytes
    requires |id| == 16 && |pwd| <= 8
  {
    [PROTO, ID_SIZE] + id + [|pwd|] + pwd + [func] + data
  }

  function Frame(id: Bytes, pwd: Bytes, func: Byte, data: Bytes): Bytes
    requires |id| == 16 && |pwd| <= 8
  {
    var c := Check(Body(id, pwd, func, data));
    [HEADER, HEADER] + Body(id, pwd, func, data) + [c % 0x100, c / 0x100]
  }

  /** A frame on the wire, byte by byte: the last two bytes are the sum of what lies between them and the header. */
  ghost predicate OnWire(f: Bytes, id: Bytes, pwd: Bytes, func: Byte, data: Bytes) {
    var p, n := |pwd|, |f|;
    && n == 24 + p + |data| && |id| == 16 && p <= 8
    && f[..4] == [0xFD, 0xFD, 0x02, 0x10] && f[4..20] == id && f[20] == p && f[21..21 + p] == pwd
    && f[21 + p] == func && f[22 + p..n - 2] == data
    && f[n - 2] as int + 0x100 * (f[n - 1] as int) == Sum(f[2..n - 2]) % 0x1_0000
  }

  /** Each byte counts once, at its own value. */
  lemma SumOfOne(b: Byte)
    ensures Sum([]) == 0 && Sum([b]) == b
  {
    assert [b][..0] == [];
    assert Sum([b]) == Sum([b][..0]) + b;
  }

  /** The model's frames are exactly those bytes. */
  lemma FrameOnWire(f: Bytes, id: Bytes, pwd: Bytes, func: Byte, data: Bytes)
    requires |id| == 16 && |pwd| <= 8
    ensures f == Frame(id, pwd, func, data) <==> OnWire(f, id, pwd, func, data)
  {
    hide Frame, Body, Sum;
    if f == Frame(id, pwd, func, data) {
      FrameHasLayout(id, pwd, func, data);
      assert f[..4] == [0xFD, 0xFD, 0x02, 0x10];
    }
    if OnWire(f, id, pwd, func, data) {
      assert f[0] == f[..4][0] && f[1] == f[..4][1] && f[2] == f[..4][2] && f[3] == f[..4][3];
      LayoutIsFrame(f, id, pwd, func, data);
    }
  }

  method EncodeRequest(id: Bytes, pwd: Bytes, func: Byte, data: Bytes) returns (r: Encoded)
    ensures |id| != 16 ==> r == BadIDLength
    ensures |id| == 16 && |pwd| > 8 ==> r == PasswordTooLong
    ensures |id| == 16 && |pwd| <= 8 ==> r == Encoded(Frame(id, pwd, func, data))
    ensures r.Encoded? ==> OnWire(r.frame, id, pwd, func, data)
  {
    hide OnWire;
    if |id| != 16 {
      return BadIDLength;
    }
    if |pwd| > 8 {
      return PasswordTooLong;
    }
    var buf: Bytes := [HEADER, HEADER];
    buf := buf + [PROTO];
    buf := buf + [ID_SIZE];
    buf := buf + id;
    buf := buf + [|pwd|];
    buf := buf + pwd;
    buf := buf + [func];
    buf := buf + data;
    assert buf == [HEADER, HEADER] + Body(id, pwd, func, data);
    assert buf[2..] == Body(id, pwd, func, data);
    var sum := SumBytes(buf[2..]);
    buf := buf + [sum % 0x100, sum / 0x100];
    FrameOnWire(buf, id, pwd, func, data);
    r := Encoded(buf);
  }

  // ---- decoding --------------------------------------------------------------------

  /** The frame layout, field by field. */
  predicate Layout(raw: Bytes, id: Bytes, pwd: Bytes, func: Byte, data: Bytes) {
    var p := |pwd|;
    && |id| == 16 && p <= 8 && |raw| == 24 + p + |data|
    && raw[0] == HEADER && raw[1] == HEADER && raw[2] == PROTO && raw[3] == ID_SIZE
    && raw[4..20] == id && raw[20] == p && raw[21..21 + p] == pwd
    && raw[21 + p] == func && raw[22 + p..|raw| - 2] == data
    && Check(raw[2..|raw| - 2]) == Word(raw[|raw| - 2], raw[|raw| - 1])
  }

  lemma FrameHasLayout(id: Bytes, pwd: Bytes, func: Byte, data: Bytes)
    requires |id| == 16 && |pwd| <= 8
    ensures Layout(Frame(id, pwd, func, data), id, pwd, func, data)
    ensures Frame(id, pwd, func, data)[2..|Frame(id, pwd, func, data)| - 2] == Body(id, pwd, func, data)
  {
    var raw := Frame(id, pwd, func, data);
    assert raw[2..|raw| - 2] == Body(id, pwd, func, data);
  }

  /** The layout leaves no byte open before the checksum. */
  lemma SameByte(raw: Bytes, other: Bytes, id: Bytes, pwd: Bytes, func: Byte, data: Bytes, k: nat)
    requires Layout(raw, id, pwd, func, data) && Layout(other, id, pwd, func, data) && k < |raw| - 2
    ensures raw[k] == other[k]
  {
    hide Check, Word;
    var p := |pwd|;
    if 4 <= k < 20 {
      assert raw[k] == raw[4..20][k - 4] && other[k] == other[4..20][k - 4];
    } else if 21 <= k < 21 + p {
      assert raw[k] == raw[21..21 + p][k - 21] && other[k] == other[21..21 + p][k - 21];
    } else if 22 + p <= k {
      assert raw[k] == raw[22 + p..|raw| - 2][k - 22 - p] && other[k] == other[22 + p..|raw| - 2][k - 22 - p];
    }
  }

  lemma LayoutIsFrame(raw: Bytes, id: Bytes, pwd: Bytes, func: Byte, data: Bytes)
    requires Layout(raw, id, pwd, func, data)
    ensures raw == Frame(id, pwd, func, data)
  {
    hide Frame, Body, Check;
    var other := Frame(id, pwd, func, data);
    FrameHasLayout(id, pwd, func, data);
    var n := |raw|;
    forall k | 0 <= k < n - 2
      ensures raw[k] == other[k]
    {
      SameByte(raw, other, id, pwd, func, data, k);
    }
    assert raw[2..n - 2] == other[2..n - 2];
  }

  function Decode(raw: Bytes, id: Bytes, pwd: Bytes): Decoded {
    if |id| != 16 then Rejected(IDLength)
    else if |raw| < 24 then Rejected(Truncated)
    else if raw[0] != HEADER || raw[1] != HEADER then Rejected(BadHeader)
    else if raw[2] != PROTO || raw[3] != ID_SIZE then Rejected(BadHeader)
    else if raw[4..20] != id then Rejected(IDMismatch)
    else if raw[20] > 8 then Rejected(BadHeader)
    else
      var pwdEnd: int := 21 + raw[20];
      if pwdEnd + 3 > |raw| then Rejected(Truncated)
      else if raw[21..pwdEnd] != pwd then Rejected(PwdMismatch)
      else
        var end := |raw| - 2;
        if Check(raw[2..end]) != Word(raw[end], raw[end + 1]) then Rejected(Checksum)
        else if raw[pwdEnd] == FUNC_AUTH_FAILURE then AuthFailure(raw[pwdEnd + 1..end])
        else Accepted(raw[pwdEnd], raw[pwdEnd + 1..end])
  }

  method DecodeResponse(raw: Bytes, id: Bytes, pwd: Bytes) returns (r: Decoded)
    ensures r == Decode(raw, id, pwd)
  {
    if |id| != 16 {
      return Rejected(IDLength);
    }
    if |raw| < 24 {
      return Rejected(Truncated);
    }
    if raw[0] != HEADER || raw[1] != HEADER {
      return Rejected(BadHeader);
    }
    if raw[2] != PROTO {
      return Rejected(BadHeader);
    }
    if raw[3] != ID_SIZE {
      return Rejected(BadHeader);
    }
    var idStart, idEnd := 4, 20;
    if raw[idStart..idEnd] != id {
      return Rejected(IDMismatch);
    }
    var sizePwd: int := raw[idEnd];
    if sizePwd > 8 {
      return Rejected(BadHeader);
    }
    var pwdStart := idEnd + 1;
    var pwdEnd := pwdStart + sizePwd;
    if pwdEnd + 1 + 2 > |raw| {
      return Rejected(Truncated);
    }
    if raw[pwdStart..pwdEnd] != pwd {
      return Rejected(PwdMismatch);
    }
    var func := raw[pwdEnd];
    var dataStart, dataEnd := pwdEnd + 1, |raw| - 2;
    var sum := SumBytes(raw[2..dataEnd]);
    if sum != Word(raw[dataEnd], raw[dataEnd + 1]) {
      return Rejected(Checksum);
    }
    if func == FUNC_AUTH_FAILURE {
      return AuthFailure(raw[dataStart..dataEnd]);
    }
    r := Accepted(func, raw[dataStart..dataEnd]);
  }

  /** Everything a strict decoder looks at before a field's bytes are wrong. */
  predicate HeaderAndIdentity(raw: Bytes, id: Bytes) {
    |id| == 16 && |raw| >= 24 && raw[..4] == [0xFD, 0xFD, 0x02, 0x10] && raw[4..20] == id
  }

  /** A strict decoder names the first thing that is wrong, in the order of the frame, the sum last. */
  lemma FirstFaultIsNamed(raw: Bytes, id: Bytes, pwd: Bytes)
    ensures |id| != 16 ==> Decode(raw, id, pwd) == Rejected(IDLength)
    ensures |id| == 16 && |raw| < 24 ==> Decode(raw, id, pwd) == Rejected(Truncated)
    ensures |id| == 16 && |raw| >= 24 && raw[..4] != [0xFD, 0xFD, 0x02, 0x10] ==>
              Decode(raw, id, pwd) == Rejected(BadHeader)
    ensures |id| == 16 && |raw| >= 24 && raw[..4] == [0xFD, 0xFD, 0x02, 0x10] && raw[4..20] != id ==>
              Decode(raw, id, pwd) == Rejected(IDMismatch)
    ensures HeaderAndIdentity(raw, id) && raw[20] > 8 ==> Decode(raw, id, pwd) == Rejected(BadHeader)
    ensures HeaderAndIdentity(raw, id) && raw[20] <= 8 ==>
              var p: int := raw[20];
              && (|raw| < 24 + p ==> Decode(raw, id, pwd) == Rejected(Truncated))
              && (|raw| >= 24 + p && raw[21..21 + p] != pwd ==> Decode(raw, id, pwd) == Rejected(PwdMismatch))
              && (|raw| >= 24 + p && raw[21..21 + p] == pwd
                  && Sum(raw[2..|raw| - 2]) % 0x1_0000 != raw[|raw| - 2] as int + 0x100 * (raw[|raw| - 1] as int) ==>
                    Decode(raw, id, pwd) == Rejected(Checksum))
  {
    hide Sum;
    if |raw| >= 4 {
      HeaderBytes(raw);
    }
  }

  lemma HeaderBytes(raw: Bytes)
    requires |raw| >= 4
    ensures raw[..4] == [0xFD, 0xFD, 0x02, 0x10] <==>
            raw[0] == 0xFD && raw[1] == 0xFD && raw[2] == 0x02 && raw[3] == 0x10
  {
    assert raw[..4] == [raw[0], raw[1], raw[2], raw[3]];
  }

  lemma LayoutDecodes(raw: Bytes, id: Bytes, pwd: Bytes, func: Byte, data: Bytes)
    requires Layout(raw, id, pwd, func, data)
    ensures Decode(raw, id, pwd) == if func == FUNC_AUTH_FAILURE then AuthFailure(data) else Accepted(func, data)
    ensures Discover(raw) == if func == FUNC_AUTH_FAILURE then AuthFailureFrom(id, data) else Found(id, func, data)
  {
    hide Check;
  }

  lemma DecodedHasLayout(raw: Bytes, id: Bytes, pwd: Bytes)
    requires !Decode(raw, id, pwd).Rejected?
    ensures var d := Decode(raw, id, pwd);
            |pwd| <= 8 && Layout(raw, id, pwd, if d.Accepted? then d.func else FUNC_AUTH_FAILURE, d.data)
            && (d.Accepted? ==> d.func != FUNC_AUTH_FAILURE)
  {
    hide Check;
  }

  /** Decoding accepts exactly the encodings of what it returns. */
  lemma DecodeInvertsEncode(raw: Bytes, id: Bytes, pwd: Bytes, func: Byte, data: Bytes)
    requires |id| == 16
    ensures Decode(raw, id, pwd) == Accepted(func, data) <==>
            |pwd| <= 8 && func != FUNC_AUTH_FAILURE && raw == Frame(id, pwd, func, data)
    ensures Decode(raw, id, pwd) == AuthFailure(data) <==>
            |pwd| <= 8 && raw == Frame(id, pwd, FUNC_AUTH_FAILURE, data)
  {
    hide Decode, Discover, Layout, Frame;
    var d := Decode(raw, id, pwd);
    if !d.Rejected? {
      DecodedHasLayout(raw, id, pwd);
      LayoutIsFrame(raw, id, pwd, if d.Accepted? then d.func else FUNC_AUTH_FAILURE, d.data);
    }
    if |pwd| <= 8 {
      FrameHasLayout(id, pwd, func, data);
      FrameHasLayout(id, pwd, FUNC_AUTH_FAILURE, data);
      if raw == Frame(id, pwd, func, data) {
        LayoutDecodes(raw, id, pwd, func, data);
      }
      if raw == Frame(id, pwd, FUNC_AUTH_FAILURE, data) {
        LayoutDecodes(raw, id, pwd, FUNC_AUTH_FAILURE, data);
      }
    }
  }

  function Discover(raw: Bytes): Discovered {
    if |raw| < 24 then Unusable(Truncated)
    else if raw[0] != HEADER || raw[1] != HEADER || raw[2] != PROTO || raw[3] != ID_SIZE then Unusable(BadHeader)
    else if raw[20] > 8 then Unusable(BadHeader)
    else
      var pwdEnd: int := 21 + raw[20];
      if pwdEnd + 3 > |raw| then Unusable(Truncated)
      else
        var end := |raw| - 2;
        if Check(raw[2..end]) != Word(raw[end], raw[end + 1]) then Unusable(Checksum)
        else if raw[pwdEnd] == FUNC_AUTH_FAILURE then AuthFailureFrom(raw[4..20], raw[pwdEnd + 1..end])
        else Found(raw[4..20], raw[pwdEnd], raw[pwdEnd + 1..end])
  }

  /** The relaxed decoder does the same, without an identity or a password to compare. */
  lemma FirstDiscoveryFaultIsNamed(raw: Bytes)
    ensures |raw| < 24 ==> Discover(raw) == Unusable(Truncated)
    ensures |raw| >= 24 && raw[..4] != [0xFD, 0xFD, 0x02, 0x10] ==> Discover(raw) == Unusable(BadHeader)
    ensures |raw| >= 24 && raw[..4] == [0xFD, 0xFD, 0x02, 0x10] ==>
              var p: int := raw[20];
              && (p > 8 ==> Discover(raw) == Unusable(BadHeader))
              && (p <= 8 && |raw| < 24 + p ==> Discover(raw) == Unusable(Truncated))
              && (p <= 8 && |raw| >= 24 + p
                  && Sum(raw[2..|raw| - 2]) % 0x1_0000 != raw[|raw| - 2] as int + 0x100 * (raw[|raw| - 1] as int) ==>
                    Discover(raw) == Unusable(Checksum))
  {
    hide Sum;
    if |raw| >= 4 {
      HeaderBytes(raw);
    }
  }

  method DecodeDiscoveryResponse(raw: Bytes) returns (r: Discovered)
    ensures r == Discover(raw)
  {
    if |raw| < 24 {
      return Unusable(Truncated);
    }
    if raw[0] != HEADER || raw[1] != HEADER {
      return Unusable(BadHeader);
    }
    if raw[2] != PROTO {
      return Unusable(BadHeader);
    }
    if raw[3] != ID_SIZE {
      return Unusable(BadHeader);
    }
    var frameID := raw[4..20];
    var sizePwd: int := raw[20];
    if sizePwd > 8 {
      return Unusable(BadHeader);
    }
    var pwdEnd := 20 + 1 + sizePwd;
    if pwdEnd + 1 + 2 > |raw| {
      return Unusable(Truncated);
    }
    var func := raw[pwdEnd];
    var dataStart, dataEnd := pwdEnd + 1, |raw| - 2;
    var sum := SumBytes(raw[2..dataEnd]);
    if sum != Word(raw[dataEnd], raw[dataEnd + 1]) {
      return Unusable(Checksum);
    }
    if func == FUNC_AUTH_FAILURE {
      return AuthFailureFrom(frameID, raw[dataStart..dataEnd]);
    }
    r := Found(frameID, func, raw[dataStart..dataEnd]);
  }

  lemma FoundHasLayout(raw: Bytes)
    requires Discover(raw).Found?
    ensures var d := Discover(raw);
            |raw| > 20 && raw[20] <= 8 && 21 + raw[20] as int <= |raw| && d.func != FUNC_AUTH_FAILURE
            && Layout(raw, d.id, raw[21..21 + raw[20] as int], d.func, d.data)
  {
    hide Check;
  }

  /** The relaxed decoder accepts exactly the encodings under some password, with their identity. */
  lemma DiscoveryAcceptsAnyPassword(raw: Bytes, id: Bytes, func: Byte, data: Bytes)
    ensures Discover(raw) == Found(id, func, data) <==>
            |id| == 16 && func != FUNC_AUTH_FAILURE
            && exists pwd :: |pwd| <= 8 && raw == Frame(id, pwd, func, data)
  {
    hide Decode, Discover, Frame;
    if Discover(raw) == Found(id, func, data) {
      FoundHasLayout(raw);
      LayoutIsFrame(raw, id, raw[21..21 + raw[20] as int], func, data);
    } else if |id| == 16 {
      forall pwd: Bytes | |pwd| <= 8 && raw == Frame(id, pwd, func, data)
        ensures func == FUNC_AUTH_FAILURE
      {
        FrameHasLayout(id, pwd, func, data);
        LayoutDecodes(raw, id, pwd, func, data);
      }
    }
  }

  /** A frame of another identity or password is rejected for that, identity first. */
  lemma WrongAddressee(i: Bytes, p: Bytes, func: Byte, data: Bytes, id: Bytes, pwd: Bytes)
    requires |i| == 16 && |p| <= 8 && |id| == 16
    ensures i != id ==> Decode(Frame(i, p, func, data), id, pwd) == Rejected(IDMismatch)
    ensures i == id && p != pwd ==> Decode(Frame(i, p, func, data), id, pwd) == Rejected(PwdMismatch)
  {
    hide Frame, Check;
    FrameHasLayout(i, p, func, data);
  }

  /** On every frame the strict decoder accepts the relaxed one agrees, and finds the same identity. */
  lemma DecodersAgree(raw: Bytes, id: Bytes, pwd: Bytes)
    ensures Decode(raw, id, pwd).Accepted? ==>
              Discover(raw) == Found(id, Decode(raw, id, pwd).func, Decode(raw, id, pwd).data)
    ensures Decode(raw, id, pwd).AuthFailure? ==> Discover(raw) == AuthFailureFrom(id, Decode(raw, id, pwd).data)
  {
  }

  // ---- corruption ---------------------------------------------------------------------

  /** The error a frame meets once its byte `k` reads `b`. */
  function AlterationError(size: nat, pwdSize: nat, k: nat, b: Byte): FrameError {
    if k < 4 then BadHeader
    else if k < 20 then IDMismatch
    else if k == 20 then (if b > 8 then BadHeader else if b as int + 24 > size then Truncated else PwdMismatch)
    else if k < 21 + pwdSize then PwdMismatch
    else Checksum
  }

  /**
   A frame altered in exactly one byte, wherever it is and whatever its data, is
   rejected - and with a fixed error, so it never passes for an auth failure.
   */
  lemma OneByteIsAlwaysCaught(id: Bytes, pwd: Bytes, func: Byte, data: Bytes, k: nat, b: Byte)
    requires |id| == 16 && |pwd| <= 8
    requires k < |Frame(id, pwd, func, data)| && b != Frame(id, pwd, func, data)[k]
    ensures var f := Frame(id, pwd, func, data);
            Decode(f[k := b], id, pwd) == Rejected(AlterationError(|f|, |pwd|, k, b))
  {
    hide Check, Frame;
    var f := Frame(id, pwd, func, data);
    var g, end := f[k := b], |f| - 2;
    FrameHasLayout(id, pwd, func, data);
    if k < 4 {
    } else if k < 20 {
      assert g[4..20][k - 4] != id[k - 4];
    } else if k == 20 {
      assert g[4..20] == id;
    } else if k < 21 + |pwd| {
      assert g[4..20] == id && g[21..21 + |pwd|][k - 21] != pwd[k - 21];
    } else {
      assert g[4..20] == id && g[21..21 + |pwd|] == pwd;
      CheckChanges(f, k, b);
    }
  }

  /** After the password, one changed byte breaks the agreement of sum and checksum. */
  lemma CheckChanges(f: Bytes, k: nat, b: Byte)
    requires 4 <= |f| && 2 <= k < |f| && b != f[k]
    requires Check(f[2..|f| - 2]) == Word(f[|f| - 2], f[|f| - 1])
    ensures var g := f[k := b];
            Check(g[2..|f| - 2]) != Word(g[|f| - 2], g[|f| - 1])
  {
    var g, end := f[k := b], |f| - 2;
    if k < end {
      assert g[2..end] == f[2..end][k - 2 := b];
      SumUpdate(f[2..end], k - 2, b);
      ModStep(Sum(f[2..end]), b - f[k]);
    } else {
      assert g[2..end] == f[2..end];
    }
  }

  lemma ModStep(x: int, d: int)
    requires d != 0 && -0x100 < d < 0x100
    ensures (x + d) % 0x1_0000 != x % 0x1_0000
  {
  }

  function Swapped(bytes: Bytes, i: nat, j: nat): Bytes
    requires i < j < |bytes|
  {
    bytes[i := bytes[j]][j := bytes[i]]
  }

  lemma SwapKeepsSum(bytes: Bytes, i: nat, j: nat)
    requires i < j < |bytes|
    ensures Sum(Swapped(bytes, i, j)) == Sum(bytes)
  {
    SumUpdate(bytes, i, bytes[j]);
    SumUpdate(bytes[i := bytes[j]], j, bytes[i]);
  }

  /** The same frame with other data under the old checksum. */
  function WithData(f: Bytes, pwd: Bytes, data: Bytes): Bytes
    requires 24 + |pwd| <= |f|
  {
    f[..22 + |pwd|] + data + f[|f| - 2..]
  }

  /** A frame under any two trailing bytes: the sum alone decides. */
  lemma TrailerDecides(id: Bytes, pwd: Bytes, func: Byte, data: Bytes, lo: Byte, hi: Byte)
    requires |id| == 16 && |pwd| <= 8
    ensures var f := Frame(id, pwd, func, data);
            Decode(f[..|f| - 2] + [lo, hi], id, pwd) ==
            if Check(Body(id, pwd, func, data)) != Word(lo, hi) then Rejected(Checksum)
            else if func == FUNC_AUTH_FAILURE then AuthFailure(data)
            else Accepted(func, data)
  {
    hide Frame, Body, Check;
    var f, p := Frame(id, pwd, func, data), |pwd|;
    FrameHasLayout(id, pwd, func, data);
    var n := |f|;
    var g := f[..n - 2] + [lo, hi];
    assert g[4..20] == f[4..20] && g[21..21 + p] == f[21..21 + p];
    assert g[22 + p..n - 2] == f[22 + p..n - 2] && g[2..n - 2] == f[2..n - 2];
  }

  lemma SumOfBody(id: Bytes, pwd: Bytes, func: Byte, data: Bytes)
    requires |id| == 16 && |pwd| <= 8
    ensures Sum(Body(id, pwd, func, data)) == Sum(Body(id, pwd, func, [])) + Sum(data)
    ensures Body(id, pwd, func, data) == Body(id, pwd, func, []) + data
  {
    hide Sum;
    SumAppend(Body(id, pwd, func, []), data);
    assert Body(id, pwd, func, data) == Body(id, pwd, func, []) + data;
  }

  lemma WithDataIsFrame(id: Bytes, pwd: Bytes, func: Byte, data: Bytes, data': Bytes)
    requires |id| == 16 && |pwd| <= 8
    ensures var f, f' := Frame(id, pwd, func, data), Frame(id, pwd, func, data');
            var c := Check(Body(id, pwd, func, data));
            && 24 + |pwd| <= |f| && 2 <= |f'|
            && WithData(f, pwd, data') == f'[..|f'| - 2] + [c % 0x100, c / 0x100]
  {
    hide Check, Sum;
    var f, f' := Frame(id, pwd, func, data), Frame(id, pwd, func, data');
    var c := Check(Body(id, pwd, func, data));
    var front := [HEADER, HEADER] + Body(id, pwd, func, []);
    SumOfBody(id, pwd, func, data);
    SumOfBody(id, pwd, func, data');
    assert |front| == 22 + |pwd|;
    assert f == front + data + [c % 0x100, c / 0x100];
    assert f[..22 + |pwd|] == front && f[|f| - 2..] == [c % 0x100, c / 0x100];
    assert f'[..|f'| - 2] == front + data';
  }

  /**
   Other data under the old checksum, of whatever length, is accepted exactly
   when its sum agrees with the old data's modulo 2^16; otherwise the checksum
   is reported.
   */
  lemma ReplacedDataAcceptedIff(id: Bytes, pwd: Bytes, func: Byte, data: Bytes, data': Bytes)
    requires |id| == 16 && |pwd| <= 8
    ensures var f := Frame(id, pwd, func, data);
            && 24 + |pwd| <= |f|
            && Decode(WithData(f, pwd, data'), id, pwd) ==
               if Sum(data') % 0x1_0000 != Sum(data) % 0x1_0000 then Rejected(Checksum)
               else if func == FUNC_AUTH_FAILURE then AuthFailure(data')
               else Accepted(func, data')
  {
    hide Frame, Body, Decode, WithData, Sum;
    var c := Check(Body(id, pwd, func, data));
    WithDataIsFrame(id, pwd, func, data, data');
    TrailerDecides(id, pwd, func, data', c % 0x100, c / 0x100);
    SumOfBody(id, pwd, func, data);
    SumOfBody(id, pwd, func, data');
    SameRemainder(Sum(Body(id, pwd, func, [])), Sum(data), Sum(data'));
  }

  lemma SameRemainder(x: int, a: int, b: int)
    ensures (x + a) % 0x1_0000 == (x + b) % 0x1_0000 <==> a % 0x1_0000 == b % 0x1_0000
  {
  }

  /** The sum does not see order: exchanging two data bytes goes unnoticed. */
  lemma SwapIsNotCaught(id: Bytes, pwd: Bytes, func: Byte, data: Bytes, i: nat, j: nat)
    requires |id| == 16 && |pwd| <= 8 && func != FUNC_AUTH_FAILURE && i < j < |data|
    ensures var f, at := Frame(id, pwd, func, data), 22 + |pwd|;
            && |f| == at + |data| + 2
            && Decode(Swapped(f, at + i, at + j), id, pwd) == Accepted(func, Swapped(data, i, j))
  {
    hide Frame, Decode, Check;
    var f, at := Frame(id, pwd, func, data), 22 + |pwd|;
    FrameHasLayout(id, pwd, func, data);
    SwapKeepsSum(data, i, j);
    ReplacedDataAcceptedIff(id, pwd, func, data, Swapped(data, i, j));
    assert f[at..|f| - 2] == data;
    assert Swapped(f, at + i, at + j) == WithData(f, pwd, Swapped(data, i, j));
  }
}
