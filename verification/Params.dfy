/** Device parameters: identifiers, values, and writes applied to a parameter map. */
module Params {

  type Byte = b: int | 0 <= b < 0x100

  /** A 16-bit parameter number; the high byte is its page. */
  type ParamID = i: int | 0 <= i < 0x1_0000

  datatype ParamWrite = ParamWrite(id: ParamID, value: seq<Byte>)

  type Values = map<ParamID, seq<Byte>>

  function Hi(id: ParamID): Byte { id / 0x100 }

  function Lo(id: ParamID): Byte { id % 0x100 }

  function Join(hi: Byte, lo: Byte): ParamID { hi * 0x100 + lo }

  /** The page is the high byte, the rest the low one. */
  lemma BytesOfID(id: ParamID)
    ensures id as int == 0x100 * (Hi(id) as int) + Lo(id) as int
    ensures Join(Hi(id), Lo(id)) == id
  {
  }

  /** The map after storing the writes one by one. */
  function Store(m: Values, writes: seq<ParamWrite>): Values
    decreases |writes|
  {
    if writes == [] then m else Store(m[writes[0].id := writes[0].value], writes[1..])
  }

  function Targets(writes: seq<ParamWrite>): set<ParamID> {
    set w | w in writes :: w.id
  }

  /** What reading `ids` from `m` returns: absent parameters are left out. */
  function Select(m: Values, ids: seq<ParamID>): Values {
    map id | id in ids && id in m :: m[id]
  }

  lemma {:induction false} StoreKeys(m: Values, writes: seq<ParamWrite>)
    ensures Store(m, writes).Keys == m.Keys + Targets(writes)
    decreases |writes|
  {
    if writes == [] {
    } else {
      StoreKeys(m[writes[0].id := writes[0].value], writes[1..]);
      TargetsAppend([writes[0]], writes[1..]);
      assert writes == [writes[0]] + writes[1..];
      assert Targets([writes[0]]) == {writes[0].id};
    }
  }

  lemma {:induction false} StoreOnto(m: Values, base: Values, writes: seq<ParamWrite>)
    ensures Store(m + base, writes) == m + Store(base, writes)
    decreases |writes|
  {
    if writes == [] {
    } else {
      var w := writes[0];
      StoreOnto(m, base[w.id := w.value], writes[1..]);
      assert (m + base)[w.id := w.value] == m + base[w.id := w.value];
    }
  }

  /** Storing is overlaying: what the writes set hides what was there. */
  lemma StoreOverlays(m: Values, writes: seq<ParamWrite>)
    ensures Store(m, writes) == m + Store(map[], writes)
    ensures Store(map[], writes).Keys == Targets(writes)
  {
    StoreOnto(m, map[], writes);
    StoreKeys(map[], writes);
    assert m + map[] == m;
  }

  lemma {:induction false} StoreAppend(m: Values, a: seq<ParamWrite>, b: seq<ParamWrite>)
    ensures Store(m, a + b) == Store(Store(m, a), b)
    decreases |a|
  {
    if a == [] {
      assert a + b == b;
    } else {
      assert (a + b)[1..] == a[1..] + b;
      StoreAppend(m[a[0].id := a[0].value], a[1..], b);
    }
  }

  /** Writes leave no trace under later writes to the same parameters. */
  lemma StoreOverrides(m: Values, earlier: seq<ParamWrite>, later: seq<ParamWrite>)
    requires Targets(earlier) <= Targets(later)
    ensures Store(Store(m, earlier), later) == Store(m, later)
  {
    StoreOverlays(m, earlier);
    StoreOverlays(m, later);
    StoreOverlays(Store(m, earlier), later);
  }

  /** Each parameter ends with the value of the last write to it. */
  lemma StoreLast(m: Values, writes: seq<ParamWrite>, i: nat)
    requires i < |writes| && forall j :: i < j < |writes| ==> writes[j].id != writes[i].id
    ensures writes[i].id in Store(m, writes) && Store(m, writes)[writes[i].id] == writes[i].value
  {
    var before, after := writes[..i] + [writes[i]], writes[i + 1..];
    assert writes == before + after;
    StoreAppend(m, before, after);
    StoreAppend(m, writes[..i], [writes[i]]);
    StoreOverlays(Store(m, before), after);
  }

  lemma TargetsAppend(a: seq<ParamWrite>, b: seq<ParamWrite>)
    ensures Targets(a + b) == Targets(a) + Targets(b)
  {
    forall w | w in a || w in b
      ensures w in a + b
    {
    }
  }
}
