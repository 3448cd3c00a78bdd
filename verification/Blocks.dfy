/**
 The DATA block of an FDFD/02 packet: a grammar of four forms with page
 switches, the builders that write it and the parser that reads it.
 */
module Blocks {
  import opened Wrappers
  import opened Params

  const CHANGE_FUNC: Byte := 0xFC
  const NOT_SUPPORTED: Byte := 0xFD
  const SIZE_PREFIX: Byte := 0xFE
  const CHANGE_PAGE: Byte := 0xFF

  /** One entry of a response: a value, or the device's "not supported" mark. */
  datatype ParamValue = ParamValue(id: ParamID, value: seq<Byte>, unsupported: bool)

  /** What a builder gives: a block, or the panic of a caller's mistake. */
  datatype Built = Built(block: seq<Byte>) | ReservedID(id: ParamID) | TooLarge(size: nat)

  /**
   What parsing gives: all entries; nothing, when the block is malformed; or the
   entries before a change-function marker, which may lack its function byte.
   */
  datatype Parsed =
    | Complete(entries: seq<ParamValue>)
    | Malformed
    | FuncChange(entries: seq<ParamValue>, func: Byte)
    | FuncChangeCut(entries: seq<ParamValue>)

  predicate Reserved(id: ParamID) { Lo(id) >= CHANGE_FUNC }

  // ---- the grammar -----------------------------------------------------------

  datatype Token =
    | Page(hi: Byte)
    | Missing(lo: Byte)
    | Sized(lo: Byte, value: seq<Byte>)
    | Single(lo: Byte, byte: Byte)

  predicate WellFormed(t: Token) {
    match t
    case Sized(_, value) => |value| <= 0xFF
    case Single(lo, _) => lo < CHANGE_FUNC
    case _ => true
  }

  predicate AllWellFormed(ts: seq<Token>) {
    forall t :: t in ts ==> WellFormed(t)
  }

  function Spell(t: Token): (bytes: seq<Byte>)
    requires WellFormed(t)
    ensures |bytes| >= 2
  {
    match t
    case Page(hi) => [CHANGE_PAGE, hi]
    case Missing(lo) => [NOT_SUPPORTED, lo]
    case Sized(lo, value) => [SIZE_PREFIX, |value|, lo] + value
    case Single(lo, byte) => [lo, byte]
  }

  /** The four forms of a token on the wire, and the identifiers that would be taken for a marker. */
  lemma TokensOnWire(t: Token, id: ParamID)
    requires WellFormed(t)
    ensures t.Page? ==> Spell(t) == [0xFF, t.hi]
    ensures t.Missing? ==> Spell(t) == [0xFD, t.lo]
    ensures t.Sized? ==> Spell(t) == [0xFE, |t.value|, t.lo] + t.value
    ensures t.Single? ==> Spell(t) == [t.lo, t.byte] && t.lo < 0xFC
    ensures Reserved(id) <==> id % 0x100 >= 0xFC
  {
  }

  function Emit(ts: seq<Token>): seq<Byte>
    requires AllWellFormed(ts)
  {
    if ts == [] then [] else Spell(ts[0]) + Emit(ts[1..])
  }

  /** The entry a token stands for on `page`; a page switch stands for none. */
  function EntryOf(t: Token, page: Byte): seq<ParamValue> {
    match t
    case Page(_) => []
    case Missing(lo) => [ParamValue(Join(page, lo), [], true)]
    case Sized(lo, value) => [ParamValue(Join(page, lo), value, false)]
    case Single(lo, byte) => [ParamValue(Join(page, lo), [byte], false)]
  }

  function PageOf(t: Token, page: Byte): Byte { if t.Page? then t.hi else page }

  /** The entries a token sequence stands for when it starts on `page`. */
  function Meaning(ts: seq<Token>, page: Byte): seq<ParamValue>
    decreases |ts|
  {
    if ts == [] then [] else EntryOf(ts[0], page) + Meaning(ts[1..], PageOf(ts[0], page))
  }

  function PageAfter(ts: seq<Token>, page: Byte): Byte
    decreases |ts|
  {
    if ts == [] then page else PageAfter(ts[1..], PageOf(ts[0], page))
  }

  lemma {:induction false} EmitAppend(a: seq<Token>, b: seq<Token>)
    requires AllWellFormed(a) && AllWellFormed(b)
    ensures AllWellFormed(a + b) && Emit(a + b) == Emit(a) + Emit(b)
  {
    if a == [] {
      assert a + b == b;
    } else {
      assert (a + b)[1..] == a[1..] + b;
      EmitAppend(a[1..], b);
    }
  }

  // ---- parsing -----------------------------------------------------------------

  /** `r` with further entries in front. */
  function After(before: seq<ParamValue>, r: Parsed): Parsed {
    match r
    case Complete(es) => Complete(before + es)
    case Malformed => Malformed
    case FuncChange(es, f) => FuncChange(before + es, f)
    case FuncChangeCut(es) => FuncChangeCut(before + es)
  }

  /** The token at the head of `data`, if it is there whole. */
  function Head(data: seq<Byte>): (r: Option<Token>)
    requires data != [] && data[0] != CHANGE_FUNC
    ensures r.Some? ==> WellFormed(r.value) && Spell(r.value) <= data
  {
    if |data| < 2 then None
    else if data[0] == CHANGE_PAGE then Some(Page(data[1]))
    else if data[0] == NOT_SUPPORTED then Some(Missing(data[1]))
    else if data[0] == SIZE_PREFIX then
      var size: int := data[1];
      if |data| < 3 + size then None
      else
        var t := Sized(data[2], data[3..3 + size]);
        assert Spell(t) == data[..3 + size];
        Some(t)
    else
      Some(Single(data[0], data[1]))
  }

  lemma HeadOfSpelling(t: Token, rest: seq<Byte>)
    requires WellFormed(t)
    ensures var data := Spell(t) + rest;
            data[0] != CHANGE_FUNC && Head(data) == Some(t) && data[|Spell(t)|..] == rest
  {
    if t.Sized? {
      assert (Spell(t) + rest)[3..3 + |t.value|] == t.value;
    }
  }

  function ParseFrom(data: seq<Byte>, page: Byte): Parsed
    decreases |data|
  {
    if data == [] then Complete([])
    else if data[0] == CHANGE_FUNC then
      if |data| < 2 then FuncChangeCut([]) else FuncChange([], data[1])
    else
      var t := Head(data);
      if t.None? then Malformed
      else After(EntryOf(t.value, page), ParseFrom(data[|Spell(t.value)|..], PageOf(t.value, page)))
  }

  function Parse(data: seq<Byte>): Parsed { ParseFrom(data, 0) }

  lemma AfterAfter(a: seq<ParamValue>, b: seq<ParamValue>, r: Parsed)
    ensures After(a, After(b, r)) == After(a + b, r)
    ensures After([], r) == r
  {
    if !r.Malformed? {
      assert a + (b + r.entries) == a + b + r.entries;
    }
  }

  /** Reading one token off `data[i..]` moves its entry to the output. */
  lemma ParseStep(data: seq<Byte>, i: nat, out: seq<ParamValue>, page: Byte, t: Token)
    requires i < |data| && data[i] != CHANGE_FUNC && Head(data[i..]) == Some(t)
    ensures |Spell(t)| == (if t.Sized? then 3 + |t.value| else 2) && i + |Spell(t)| <= |data|
    ensures After(out, ParseFrom(data[i..], page)) ==
            After(out + EntryOf(t, page), ParseFrom(data[i + |Spell(t)|..], PageOf(t, page)))
  {
    assert data[i..][|Spell(t)|..] == data[i + |Spell(t)|..];
    AfterAfter(out, EntryOf(t, page), ParseFrom(data[i + |Spell(t)|..], PageOf(t, page)));
  }

  /** The token at position `i`, byte by byte. */
  lemma HeadAt(data: seq<Byte>, i: nat)
    requires i < |data| && data[i] != CHANGE_FUNC
    ensures i + 1 >= |data| ==> Head(data[i..]).None?
    ensures i + 1 < |data| && data[i] == CHANGE_PAGE ==> Head(data[i..]) == Some(Page(data[i + 1]))
    ensures i + 1 < |data| && data[i] == NOT_SUPPORTED ==> Head(data[i..]) == Some(Missing(data[i + 1]))
    ensures i + 1 < |data| && data[i] !in {CHANGE_PAGE, NOT_SUPPORTED, SIZE_PREFIX} ==>
              Head(data[i..]) == Some(Single(data[i], data[i + 1]))
    ensures i + 1 < |data| && data[i] == SIZE_PREFIX ==>
              (var end: int := i + 3 + data[i + 1] as int;
               Head(data[i..]) == if end > |data| then None else Some(Sized(data[i + 2], data[i + 3..end])))
  {
    var here := data[i..];
    if |here| >= 2 && here[0] == SIZE_PREFIX {
      var size: int := here[1];
      if |here| >= 3 + size {
        assert here[3..3 + size] == data[i + 3..i + 3 + size];
      }
    }
  }

  method ParseDataBlock(data: seq<Byte>) returns (r: Parsed)
    ensures r == Parse(data)
  {
    hide ParseFrom, EntryOf, Head, Spell, After;
    var out: seq<ParamValue>, curHi: Byte, i: nat := [], 0, 0;
    AfterAfter([], [], Parse(data));
    assert data[0..] == data;
    while i < |data|
      invariant i <= |data|
      invariant Parse(data) == After(out, ParseFrom(data[i..], curHi))
      decreases |data| - i
    {
      var b := data[i];
      if b != CHANGE_FUNC {
        HeadAt(data, i);
      }
      if b == CHANGE_PAGE {
        if i + 1 >= |data| {
          CutShort(data, i, out, curHi);
          return Malformed;
        }
        ParseStep(data, i, out, curHi, Page(data[i + 1]));
        PageStep(out, data[i + 1], curHi);
        curHi, i := data[i + 1], i + 2;
      } else if b == NOT_SUPPORTED {
        if i + 1 >= |data| {
          CutShort(data, i, out, curHi);
          return Malformed;
        }
        ParseStep(data, i, out, curHi, Missing(data[i + 1]));
        EntryStep(Missing(data[i + 1]), curHi);
        out, i := out + [ParamValue(Join(curHi, data[i + 1]), [], true)], i + 2;
      } else if b == SIZE_PREFIX {
        if i + 2 >= |data| {
          CutShort(data, i, out, curHi);
          return Malformed;
        }
        var valStart: int := i + 3;
        var valEnd: int := valStart + data[i + 1];
        if valEnd > |data| {
          CutShort(data, i, out, curHi);
          return Malformed;
        }
        var t := Sized(data[i + 2], data[valStart..valEnd]);
        ParseStep(data, i, out, curHi, t);
        EntryStep(t, curHi);
        out, i := out + [ParamValue(Join(curHi, data[i + 2]), data[valStart..valEnd], false)], valEnd;
      } else if b == CHANGE_FUNC {
        AtFuncChange(data, i, out, curHi);
        if i + 1 >= |data| {
          return FuncChangeCut(out);
        }
        return FuncChange(out, data[i + 1]);
      } else {
        if i + 1 >= |data| {
          CutShort(data, i, out, curHi);
          return Malformed;
        }
        ParseStep(data, i, out, curHi, Single(b, data[i + 1]));
        EntryStep(Single(b, data[i + 1]), curHi);
        out, i := out + [ParamValue(Join(curHi, b), [data[i + 1]], false)], i + 2;
      }
    }
    AtEnd(data, out, curHi);
    r := Complete(out);
  }

  lemma CutShort(data: seq<Byte>, i: nat, out: seq<ParamValue>, page: Byte)
    requires i < |data| && data[i] != CHANGE_FUNC && Head(data[i..]).None?
    ensures After(out, ParseFrom(data[i..], page)) == Malformed
  {
  }

  lemma PageStep(out: seq<ParamValue>, hi: Byte, page: Byte)
    ensures out + EntryOf(Page(hi), page) == out
  {
  }

  lemma EntryStep(t: Token, page: Byte)
    requires !t.Page?
    ensures EntryOf(t, page) == [match t
                                 case Missing(lo) => ParamValue(Join(page, lo), [], true)
                                 case Sized(lo, value) => ParamValue(Join(page, lo), value, false)
                                 case Single(lo, byte) => ParamValue(Join(page, lo), [byte], false)]
  {
  }

  lemma AtFuncChange(data: seq<Byte>, i: nat, out: seq<ParamValue>, page: Byte)
    requires i < |data| && data[i] == CHANGE_FUNC
    ensures After(out, ParseFrom(data[i..], page)) ==
            if i + 1 >= |data| then FuncChangeCut(out) else FuncChange(out, data[i + 1])
  {
    assert out + [] == out;
  }

  lemma AtEnd(data: seq<Byte>, out: seq<ParamValue>, page: Byte)
    ensures After(out, ParseFrom(data[|data|..], page)) == Complete(out)
  {
    assert out + [] == out;
  }

  lemma ParseCons(t: Token, more: seq<Byte>, page: Byte)
    requires WellFormed(t)
    ensures ParseFrom(Spell(t) + more, page) == After(EntryOf(t, page), ParseFrom(more, PageOf(t, page)))
  {
    hide Head, EntryOf, PageOf;
    HeadOfSpelling(t, more);
  }

  /** Parsing consumes a sentence whole, whatever follows it. */
  lemma {:induction false} ParseSentence(ts: seq<Token>, page: Byte, rest: seq<Byte>)
    requires AllWellFormed(ts)
    ensures ParseFrom(Emit(ts) + rest, page) == After(Meaning(ts, page), ParseFrom(rest, PageAfter(ts, page)))
    decreases |ts|
  {
    hide ParseFrom, Spell, EntryOf, PageOf, After;
    if ts == [] {
      assert Emit(ts) + rest == rest;
      AfterAfter([], [], ParseFrom(rest, page));
    } else {
      var t, more := ts[0], Emit(ts[1..]) + rest;
      ParseSentence(ts[1..], PageOf(t, page), rest);
      ParseCons(t, more, page);
      assert Emit(ts) + rest == Spell(t) + more;
      AfterAfter(EntryOf(t, page), Meaning(ts[1..], PageOf(t, page)), ParseFrom(rest, PageAfter(ts, page)));
    }
  }

  /** A block that is not malformed is a sentence, ended by nothing or by a change-function marker. */
  lemma {:induction false} ParseReads(data: seq<Byte>, page: Byte) returns (ts: seq<Token>, rest: seq<Byte>)
    requires !ParseFrom(data, page).Malformed?
    ensures AllWellFormed(ts) && data == Emit(ts) + rest && (rest == [] || rest[0] == CHANGE_FUNC)
    decreases |data|
  {
    hide Head, EntryOf, PageOf, Spell, WellFormed;
    if data == [] || data[0] == CHANGE_FUNC {
      ts, rest := [], data;
    } else {
      var t := Head(data).value;
      var tail;
      tail, rest := ParseReads(data[|Spell(t)|..], PageOf(t, page));
      ts := [t] + tail;
      assert ts[1..] == tail;
    }
  }

  /** Parsing accepts exactly the sentences of the grammar, with their meaning. */
  lemma ParseIsGrammar(data: seq<Byte>, entries: seq<ParamValue>)
    ensures Parse(data) == Complete(entries) <==>
            exists ts :: AllWellFormed(ts) && Emit(ts) == data && Meaning(ts, 0) == entries
  {
    if Parse(data) == Complete(entries) {
      var ts, rest := ParseReads(data, 0);
      ParseSentence(ts, 0, rest);
      assert Emit(ts) + [] == Emit(ts) && Meaning(ts, 0) + [] == Meaning(ts, 0);
    }
    if ts :| AllWellFormed(ts) && Emit(ts) == data && Meaning(ts, 0) == entries {
      ParseSentence(ts, 0, []);
      assert Emit(ts) + [] == data && entries + [] == entries;
    }
  }

  /**
   On a change-function marker parsing returns exactly the entries of the
   sentence before it, whether or not the marker's function byte is there.
   */
  lemma FuncChangeKeepsPrefix(data: seq<Byte>, entries: seq<ParamValue>, func: Byte)
    ensures Parse(data) == FuncChange(entries, func) <==>
            exists ts, rest :: AllWellFormed(ts) && data == Emit(ts) + ([CHANGE_FUNC, func] + rest)
                && Meaning(ts, 0) == entries
    ensures Parse(data) == FuncChangeCut(entries) <==>
            exists ts :: AllWellFormed(ts) && data == Emit(ts) + [CHANGE_FUNC] && Meaning(ts, 0) == entries
  {
    hide Parse, Meaning, AllWellFormed, Emit;
    if Parse(data) == FuncChange(entries, func) || Parse(data) == FuncChangeCut(entries) {
      var ts, tail := ReadsToMarker(data);
      if Parse(data) == FuncChange(entries, func) {
        assert tail == [CHANGE_FUNC, func] + tail[2..];
      } else {
        assert tail == [CHANGE_FUNC];
      }
    }
    if ts, rest :| AllWellFormed(ts) && data == Emit(ts) + ([CHANGE_FUNC, func] + rest) && Meaning(ts, 0) == entries {
      MarkerAfter(ts, [CHANGE_FUNC, func] + rest);
    }
    if ts :| AllWellFormed(ts) && data == Emit(ts) + [CHANGE_FUNC] && Meaning(ts, 0) == entries {
      MarkerAfter(ts, [CHANGE_FUNC]);
    }
  }

  /** A sentence and then a marker parse to the sentence's entries and the marker. */
  lemma MarkerAfter(ts: seq<Token>, tail: seq<Byte>)
    requires AllWellFormed(ts) && tail != [] && tail[0] == CHANGE_FUNC
    ensures Parse(Emit(ts) + tail) ==
            if |tail| < 2 then FuncChangeCut(Meaning(ts, 0)) else FuncChange(Meaning(ts, 0), tail[1])
  {
    hide Meaning, Emit, AllWellFormed;
    ParseSentence(ts, 0, tail);
    assert Meaning(ts, 0) + [] == Meaning(ts, 0);
  }

  lemma ReadsToMarker(data: seq<Byte>) returns (ts: seq<Token>, tail: seq<Byte>)
    requires Parse(data).FuncChange? || Parse(data).FuncChangeCut?
    ensures AllWellFormed(ts) && data == Emit(ts) + tail && tail != [] && tail[0] == CHANGE_FUNC
    ensures Parse(data) == if |tail| < 2 then FuncChangeCut(Meaning(ts, 0)) else FuncChange(Meaning(ts, 0), tail[1])
  {
    hide Meaning, Emit, AllWellFormed;
    ts, tail := ParseReads(data, 0);
    ParseSentence(ts, 0, tail);
    assert Meaning(ts, 0) + [] == Meaning(ts, 0);
  }

  // ---- building a write block ----------------------------------------------------

  function Switch(page: Byte, id: ParamID): seq<Token> {
    if Hi(id) != page then [Page(Hi(id))] else []
  }

  function WriteToken(w: ParamWrite): seq<Token> {
    if |w.value| == 0 then []
    else if |w.value| == 1 then [Single(Lo(w.id), w.value[0])]
    else [Sized(Lo(w.id), w.value)]
  }

  function WriteTokens(writes: seq<ParamWrite>, page: Byte): seq<Token>
    decreases |writes|
  {
    if writes == [] then []
    else Switch(page, writes[0].id) + WriteToken(writes[0]) + WriteTokens(writes[1..], Hi(writes[0].id))
  }

  predicate Sendable(w: ParamWrite) { !Reserved(w.id) && |w.value| <= 0xFF }

  predicate AllSendable(writes: seq<ParamWrite>) {
    forall w :: w in writes ==> Sendable(w)
  }

  lemma {:induction false} WriteTokensWellFormed(writes: seq<ParamWrite>, page: Byte)
    requires AllSendable(writes)
    ensures AllWellFormed(WriteTokens(writes, page))
    decreases |writes|
  {
    if writes == [] {
    } else {
      WriteTokensWellFormed(writes[1..], Hi(writes[0].id));
      assert writes[0] in writes;
    }
  }

  function WriteBlock(writes: seq<ParamWrite>, page: Byte): seq<Byte>
    requires AllSendable(writes)
  {
    WriteTokensWellFormed(writes, page);
    Emit(WriteTokens(writes, page))
  }

  lemma WriteBlockStep(writes: seq<ParamWrite>, page: Byte)
    requires AllSendable(writes) && writes != []
    ensures Sendable(writes[0])
    ensures WriteBlock(writes, page) ==
            SwitchBytes(page, writes[0].id) + WriteBytes(writes[0]) + WriteBlock(writes[1..], Hi(writes[0].id))
  {
    hide Emit, Switch, WriteToken, SwitchBytes, WriteBytes, WellFormed;
    assert writes[0] in writes;
    var a, b := Switch(page, writes[0].id), WriteToken(writes[0]);
    SwitchEmits(page, writes[0].id);
    WriteEmits(writes[0]);
    WriteTokensWellFormed(writes[1..], Hi(writes[0].id));
    EmitAppend(a, b);
    EmitAppend(a + b, WriteTokens(writes[1..], Hi(writes[0].id)));
  }

  lemma SwitchEmits(page: Byte, id: ParamID)
    ensures AllWellFormed(Switch(page, id)) && Emit(Switch(page, id)) == SwitchBytes(page, id)
  {
  }

  lemma WriteEmits(w: ParamWrite)
    requires Sendable(w)
    ensures AllWellFormed(WriteToken(w)) && Emit(WriteToken(w)) == WriteBytes(w)
  {
  }

  /**
   A write block byte by byte: a page switch where the page changes, then nothing
   for an empty value, identifier and value for one byte, the sized form for more.
   */
  lemma WriteBlockOnWire(w: ParamWrite, rest: seq<ParamWrite>, page: Byte)
    requires AllSendable([w] + rest)
    ensures AllSendable(rest) && |w.value| <= 0xFF
    ensures WriteBlock([w] + rest, page) ==
            (if w.id / 0x100 == page then [] else [0xFF, w.id / 0x100])
            + (if |w.value| == 0 then []
               else if |w.value| == 1 then [w.id % 0x100, w.value[0]]
               else [0xFE, |w.value|, w.id % 0x100] + w.value)
            + WriteBlock(rest, w.id / 0x100)
    ensures WriteBlock([], page) == []
  {
    hide WriteBlock;
    var writes := [w] + rest;
    assert writes[0] == w && writes[1..] == rest;
    assert forall x :: x in rest ==> x in writes;
    WriteBlockStep(writes, page);
    NothingLeft([], page);
  }

  /** The panic the first unsendable write causes. */
  function WritePanic(w: ParamWrite): Built
    requires !Sendable(w)
  {
    if Reserved(w.id) then ReservedID(w.id) else TooLarge(|w.value|)
  }

  /** One write moves from the rest of the block to the output. */
  lemma WriteStep(writes: seq<ParamWrite>, i: nat, out: seq<Byte>, page: Byte)
    requires AllSendable(writes) && i < |writes|
    ensures Sendable(writes[i])
    ensures out + WriteBlock(writes[i..], page) ==
            out + SwitchBytes(page, writes[i].id) + WriteBytes(writes[i])
                + WriteBlock(writes[i + 1..], Hi(writes[i].id))
  {
    hide WriteBlock, SwitchBytes, WriteBytes;
    assert writes[i..][0] == writes[i] && writes[i..][1..] == writes[i + 1..];
    WriteBlockStep(writes[i..], page);
  }

  function SwitchBytes(page: Byte, id: ParamID): seq<Byte> {
    if Hi(id) != page then [CHANGE_PAGE, Hi(id)] else []
  }

  function WriteBytes(w: ParamWrite): seq<Byte>
    requires |w.value| <= 0xFF
  {
    if |w.value| == 0 then []
    else if |w.value| == 1 then [Lo(w.id), w.value[0]]
    else [SIZE_PREFIX, |w.value|, Lo(w.id)] + w.value
  }

  method BuildWriteDataBlock(writes: seq<ParamWrite>) returns (r: Built)
    ensures r.Built? <==> AllSendable(writes)
    ensures r.Built? ==> r.block == WriteBlock(writes, 0)
    ensures !r.Built? ==> exists i :: 0 <= i < |writes| && AllSendable(writes[..i]) && !Sendable(writes[i])
                                      && r == WritePanic(writes[i])
  {
    hide WriteBlock, Sendable, AllSendable, SwitchBytes, WriteBytes;
    var out: seq<Byte>, curHi: Byte, first := [], 0, true;
    SendableSplit(writes, 0);
    for i := 0 to |writes|
      invariant AllSendable(writes[..i])
      invariant AllSendable(writes) ==> AllSendable(writes[i..])
      invariant AllSendable(writes) ==> WriteBlock(writes, 0) == out + WriteBlock(writes[i..], curHi)
      invariant first ==> curHi == 0
    {
      var w := writes[i];
      ghost var page, was := curHi, out;
      SendableSplit(writes, i);
      if AllSendable(writes) {
        WriteStep(writes, i, was, page);
      }
      SendableMeans(w);
      if Reserved(w.id) {
        return ReservedID(w.id);
      }
      SwitchSpelled(was, page, w.id);
      if first || Hi(w.id) != curHi {
        if Hi(w.id) != curHi || (first && Hi(w.id) != 0) {
          out := out + [CHANGE_PAGE, Hi(w.id)];
          curHi := Hi(w.id);
        }
        first := false;
      }
      assert out == was + SwitchBytes(page, w.id);
      if |w.value| <= 0xFF {
        WriteSpelled(out, w);
      }
      if |w.value| == 0 {
        continue;
      } else if |w.value| == 1 {
        out := out + [Lo(w.id), w.value[0]];
      } else {
        if |w.value| > 0xFF {
          return TooLarge(|w.value|);
        }
        out := out + [SIZE_PREFIX, |w.value|, Lo(w.id)];
        out := out + w.value;
      }
    }
    assert writes[..|writes|] == writes;
    NothingLeft(writes[|writes|..], curHi);
    assert out + [] == out;
    r := Built(out);
  }

  /** Sendability of the prefix and the suffix at `i`. */
  lemma SendableSplit(writes: seq<ParamWrite>, i: nat)
    requires i <= |writes|
    ensures writes[0..] == writes && AllSendable([])
    ensures AllSendable(writes) ==> AllSendable(writes[i..])
    ensures AllSendable(writes) && i < |writes| ==> AllSendable(writes[i + 1..]) && Sendable(writes[i])
    ensures i < |writes| ==> (AllSendable(writes[..i + 1]) <==> AllSendable(writes[..i]) && Sendable(writes[i]))
  {
    hide Sendable;
    if i < |writes| {
      assert writes[i] in writes && writes[..i + 1] == writes[..i] + [writes[i]];
    }
  }

  lemma SwitchSpelled(before: seq<Byte>, page: Byte, id: ParamID)
    ensures before + SwitchBytes(page, id) == if Hi(id) != page then before + [CHANGE_PAGE, Hi(id)] else before
  {
  }

  lemma WriteSpelled(before: seq<Byte>, w: ParamWrite)
    requires |w.value| <= 0xFF
    ensures |w.value| == 0 ==> before + WriteBytes(w) == before
    ensures |w.value| == 1 ==> before + WriteBytes(w) == before + [Lo(w.id), w.value[0]]
    ensures |w.value| > 1 ==> before + WriteBytes(w) == before + [SIZE_PREFIX, |w.value|, Lo(w.id)] + w.value
  {
  }

  lemma SendableMeans(w: ParamWrite)
    ensures Sendable(w) <==> !Reserved(w.id) && |w.value| <= 0xFF
  {
  }

  lemma NothingLeft(writes: seq<ParamWrite>, page: Byte)
    requires writes == []
    ensures WriteBlock(writes, page) == []
  {
  }

  /** The writes that reach the wire: the non-empty ones, in order. */
  function Sent(writes: seq<ParamWrite>): seq<ParamWrite> {
    if writes == [] then []
    else if |writes[0].value| == 0 then Sent(writes[1..])
    else [writes[0]] + Sent(writes[1..])
  }

  function AsEntries(writes: seq<ParamWrite>): seq<ParamValue> {
    seq(|writes|, i requires 0 <= i < |writes| => ParamValue(writes[i].id, writes[i].value, false))
  }

  lemma JoinSplit(id: ParamID)
    ensures Join(Hi(id), Lo(id)) == id
  {
  }

  /** A page switch adds nothing and turns the parser to the page. */
  lemma SwitchMeaning(id: ParamID, page: Byte, tail: seq<Token>)
    ensures Meaning(Switch(page, id) + tail, page) == Meaning(tail, Hi(id))
  {
    var ts := Switch(page, id) + tail;
    if Hi(id) == page {
      assert ts == tail;
    } else {
      assert ts[1..] == tail && EntryOf(ts[0], page) == [];
    }
  }

  /** On its page a write's token means the write. */
  lemma TokenMeaning(w: ParamWrite, tail: seq<Token>)
    ensures Meaning(WriteToken(w) + tail, Hi(w.id)) ==
            (if w.value == [] then [] else [ParamValue(w.id, w.value, false)]) + Meaning(tail, Hi(w.id))
  {
    JoinSplit(w.id);
    var ts := WriteToken(w) + tail;
    if w.value == [] {
      assert ts == tail && [] + Meaning(tail, Hi(w.id)) == Meaning(tail, Hi(w.id));
    } else {
      assert ts[1..] == tail;
      assert |w.value| == 1 ==> w.value == [w.value[0]];
    }
  }

  /** On any page, a write's tokens mean the write, and leave the parser on its page. */
  lemma OneWriteMeaning(w: ParamWrite, page: Byte, tail: seq<Token>)
    ensures Meaning(Switch(page, w.id) + WriteToken(w) + tail, page) ==
            (if w.value == [] then [] else [ParamValue(w.id, w.value, false)]) + Meaning(tail, Hi(w.id))
  {
    hide Meaning, Switch, WriteToken;
    var a, b := Switch(page, w.id), WriteToken(w);
    assert a + b + tail == a + (b + tail);
    SwitchMeaning(w.id, page, b + tail);
    TokenMeaning(w, tail);
  }

  lemma {:induction false} WriteMeaning(writes: seq<ParamWrite>, page: Byte)
    ensures Meaning(WriteTokens(writes, page), page) == AsEntries(Sent(writes))
    decreases |writes|
  {
    hide Meaning, Switch, WriteToken;
    if writes != [] {
      var w := writes[0];
      WriteMeaning(writes[1..], Hi(w.id));
      OneWriteMeaning(w, page, WriteTokens(writes[1..], Hi(w.id)));
      assert AsEntries(Sent(writes)) ==
             (if w.value == [] then [] else [ParamValue(w.id, w.value, false)]) + AsEntries(Sent(writes[1..]));
    } else {
      NoMeaning(page);
    }
  }

  lemma NoMeaning(page: Byte)
    ensures Meaning([], page) == []
  {
  }

  /** Parsing undoes building: the non-empty writes come back, in order, across any page switches. */
  lemma WriteRoundTrip(writes: seq<ParamWrite>)
    requires AllSendable(writes)
    ensures Parse(WriteBlock(writes, 0)) == Complete(AsEntries(Sent(writes)))
  {
    WriteTokensWellFormed(writes, 0);
    WriteMeaning(writes, 0);
    ParseIsGrammar(WriteBlock(writes, 0), AsEntries(Sent(writes)));
  }

  // ---- building a read block -------------------------------------------------------

  function ReadBlock(ids: seq<ParamID>, page: Byte): seq<Byte>
    decreases |ids|
  {
    if ids == [] then []
    else SwitchBytes(page, ids[0]) + [Lo(ids[0])] + ReadBlock(ids[1..], Hi(ids[0]))
  }

  method BuildReadDataBlock(ids: seq<ParamID>) returns (r: Built)
    ensures r.Built? <==> forall id :: id in ids ==> !Reserved(id)
    ensures r.Built? ==> r.block == ReadBlock(ids, 0)
    ensures !r.Built? ==> exists i :: 0 <= i < |ids| && Reserved(ids[i]) && r == ReservedID(ids[i])
                                      && forall id :: id in ids[..i] ==> !Reserved(id)
  {
    hide ReadBlock, SwitchBytes;
    var out: seq<Byte>, curHi: Byte, first := [], 0, true;
    assert ids[0..] == ids;
    for i := 0 to |ids|
      invariant forall id :: id in ids[..i] ==> !Reserved(id)
      invariant ReadBlock(ids, 0) == out + ReadBlock(ids[i..], curHi)
      invariant first ==> curHi == 0
    {
      var id := ids[i];
      assert id in ids && ids[..i + 1] == ids[..i] + [id];
      if Reserved(id) {
        return ReservedID(id);
      }
      ReadStep(ids, i, out, curHi);
      SwitchSpelled(out, curHi, id);
      if first || Hi(id) != curHi {
        if Hi(id) != curHi || (first && Hi(id) != 0) {
          out := out + [CHANGE_PAGE, Hi(id)];
          curHi := Hi(id);
        }
        first := false;
      }
      out := out + [Lo(id)];
    }
    assert ids[..|ids|] == ids;
    NothingToRead(ids[|ids|..], curHi);
    assert out + [] == out;
    r := Built(out);
  }

  /** One identifier moves from the rest of the block to the output. */
  lemma ReadStep(ids: seq<ParamID>, i: nat, out: seq<Byte>, page: Byte)
    requires i < |ids|
    ensures out + ReadBlock(ids[i..], page) ==
            out + SwitchBytes(page, ids[i]) + [Lo(ids[i])] + ReadBlock(ids[i + 1..], Hi(ids[i]))
  {
    hide SwitchBytes;
    var rest := ids[i..];
    assert rest[0] == ids[i] && rest[1..] == ids[i + 1..];
  }

  /** A read block byte by byte: a page switch where the page changes, then the low byte. */
  lemma ReadBlockOnWire(id: ParamID, rest: seq<ParamID>, page: Byte)
    ensures ReadBlock([id] + rest, page) ==
            (if id / 0x100 == page then [] else [0xFF, id / 0x100]) + [id % 0x100] + ReadBlock(rest, id / 0x100)
    ensures ReadBlock([], page) == []
  {
    assert ([id] + rest)[1..] == rest;
  }

  lemma NothingToRead(ids: seq<ParamID>, page: Byte)
    requires ids == []
    ensures ReadBlock(ids, page) == []
  {
  }

  // ---- how long a read block is ------------------------------------------------------

  function PageChanges(ids: seq<ParamID>, page: Byte): nat
    decreases |ids|
  {
    if ids == [] then 0
    else (if Hi(ids[0]) != page then 1 else 0) + PageChanges(ids[1..], Hi(ids[0]))
  }

  function Pages(ids: seq<ParamID>): set<Byte> { set id | id in ids :: Hi(id) }

  lemma {:induction false} ReadBlockLength(ids: seq<ParamID>, page: Byte)
    ensures |ReadBlock(ids, page)| == |ids| + 2 * PageChanges(ids, page)
    decreases |ids|
  {
    if ids == [] {
    } else {
      ReadBlockLength(ids[1..], Hi(ids[0]));
    }
  }

  /** Every distinct page other than the current one costs a switch, in any order. */
  lemma {:induction false} EveryPageCosts(ids: seq<ParamID>, page: Byte)
    ensures PageChanges(ids, page) >= |Pages(ids) - {page}|
    decreases |ids|
  {
    if ids == [] {
    } else {
      var h := Hi(ids[0]);
      EveryPageCosts(ids[1..], h);
      PagesCons(ids);
      CardinalityStep(Pages(ids[1..]), h, page);
    }
  }

  lemma PagesCons(ids: seq<ParamID>)
    requires ids != []
    ensures Pages(ids) == {Hi(ids[0])} + Pages(ids[1..])
  {
    assert forall id :: id in ids <==> id == ids[0] || id in ids[1..];
  }

  lemma CardinalityStep(s: set<Byte>, h: Byte, page: Byte)
    ensures |({h} + s) - {page}| <= (if h != page then 1 else 0) + |s - {h}|
  {
    var a, b := ({h} + s) - {page}, s - {h};
    if h == page {
      assert a == b;
    } else {
      SubsetSize(a, b + {h});
    }
  }

  lemma {:induction false} SubsetSize<T>(a: set<T>, b: set<T>)
    requires a <= b
    ensures |a| <= |b|
    decreases a
  {
    if x :| x in a {
      SubsetSize(a - {x}, b - {x});
    }
  }

  predicate SortedIDs(ids: seq<ParamID>) {
    forall i, j :: 0 <= i < j < |ids| ==> ids[i] <= ids[j]
  }

  /** Sorted identifiers pay one switch per distinct page, no more. */
  lemma {:induction false} SortedPaysOncePerPage(ids: seq<ParamID>, page: Byte)
    requires SortedIDs(ids) && forall id :: id in ids ==> page <= Hi(id)
    ensures PageChanges(ids, page) == |Pages(ids) - {page}|
    decreases |ids|
  {
    if ids == [] {
    } else {
      var h, rest := Hi(ids[0]), Pages(ids[1..]);
      assert ids[0] in ids;
      LaterPages(ids);
      SortedPaysOncePerPage(ids[1..], h);
      PagesCons(ids);
      if h == page {
        assert ({h} + rest) - {page} == rest - {h};
      } else {
        assert ({h} + rest) - {page} == (rest - {h}) + {h};
      }
    }
  }

  lemma LaterPages(ids: seq<ParamID>)
    requires SortedIDs(ids) && ids != []
    ensures SortedIDs(ids[1..])
    ensures forall id :: id in ids[1..] ==> Hi(ids[0]) <= Hi(id)
  {
    forall id | id in ids[1..]
      ensures Hi(ids[0]) <= Hi(id)
    {
      var j :| 0 <= j < |ids[1..]| && ids[1..][j] == id;
      assert ids[0] <= ids[j + 1];
    }
  }

  /** Among all orderings of the same identifiers the sorted one gives the shortest block. */
  lemma SortedBlockIsShortest(ids: seq<ParamID>, sorted: seq<ParamID>)
    requires SortedIDs(sorted) && multiset(sorted) == multiset(ids)
    ensures |ReadBlock(sorted, 0)| <= |ReadBlock(ids, 0)|
    ensures |ReadBlock(sorted, 0)| == |ids| + 2 * |Pages(ids) - {0}|
  {
    ReadBlockLength(ids, 0);
    ReadBlockLength(sorted, 0);
    EveryPageCosts(ids, 0);
    SortedPaysOncePerPage(sorted, 0);
    assert |ids| == |multiset(ids)| == |multiset(sorted)| == |sorted|;
    assert forall id :: id in ids <==> id in multiset(ids);
    assert forall id :: id in sorted <==> id in multiset(sorted);
    assert Pages(ids) == Pages(sorted);
  }
}
