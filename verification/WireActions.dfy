/** A schedule entry's action over the lossy wire, where a packet that failed may still have landed. */
module WireActions {
  import opened Wrappers
  import opened Params
  import opened Blocks
  import opened Frames
  import opened FakeDevice
  import opened Client
  import opened WireStack
  import opened Schedule
  import opened Ops

  /** Some fate for every attempt of every packet. */
  predicate Fated(packets: seq<seq<ParamWrite>>, fates: seq<seq<Fate>>) {
    |fates| == |packets| && forall i :: 0 <= i < |fates| ==> fates[i] != []
  }

  /** Sending packets one after the other until one fails; the last part counts the acknowledged ones. */
  function SendPackets(d: Device, id: Bytes, pwd: Bytes, packets: seq<seq<ParamWrite>>, fates: seq<seq<Fate>>)
    : (r: (Device, Option<ClientErr>, nat))
    requires Peers(d, id, pwd) && Fated(packets, fates)
    ensures Peers(r.0, id, pwd)
    decreases |packets|
  {
    if packets == [] then (d, None, 0)
    else
      WriteKeepsDevice(d, id, pwd, packets[0], fates[0]);
      var (d1, err) := Write(d, id, pwd, packets[0], fates[0]);
      if err.Some? then (d1, err, 0)
      else
        var (d2, err2, sent) := SendPackets(d1, id, pwd, packets[1..], fates[1..]);
        (d2, err2, sent + 1)
  }

  lemma WriteKeepsDevice(d: Device, id: Bytes, pwd: Bytes, writes: seq<ParamWrite>, fates: seq<Fate>)
    requires Peers(d, id, pwd) && fates != []
    ensures Peers(Write(d, id, pwd, writes, fates).0, id, pwd)
  {
  }

  /** One-byte writes to unreserved parameters. */
  predicate Simple(writes: seq<ParamWrite>) {
    |writes| <= 3 && forall w :: w in writes ==> !Reserved(w.id) && |w.value| == 1
  }

  lemma {:induction false} SimpleBlockIsShort(writes: seq<ParamWrite>, page: Byte)
    requires forall w :: w in writes ==> !Reserved(w.id) && |w.value| == 1
    ensures AllSendable(writes) && |WriteBlock(writes, page)| <= 4 * |writes|
    decreases |writes|
  {
    hide WriteBlock;
    if writes == [] {
      NothingLeft(writes, page);
    } else {
      assert writes[0] in writes;
      SimpleBlockIsShort(writes[1..], Hi(writes[0].id));
      WriteBlockStep(writes, page);
    }
  }

  lemma SimpleWrite(d: Device, id: Bytes, pwd: Bytes, writes: seq<ParamWrite>, fates: seq<Fate>)
    requires Peers(d, id, pwd) && fates != [] && Simple(writes)
    ensures var (d', err) := Write(d, id, pwd, writes, fates);
            && d' == d.(values := d'.values)
            && (d'.values == d.values || d'.values == Store(d.values, writes))
            && (err.None? ==> d'.values == Store(d.values, writes))
  {
    hide Write, WriteBlock, Store, Sent;
    SimpleBlockIsShort(writes, 0);
    AllSent(writes);
    WriteIsAllOrNothing(d, id, pwd, writes, fates);
    var (d', err) := Write(d, id, pwd, writes, fates);
    assert Sent(writes) == writes;
    assert err.None? || err.Some?;
  }

  /** A first write to parameters that may be written, refused by the device. */
  lemma RefusedWrite(d: Device, id: Bytes, pwd: Bytes, writes: seq<ParamWrite>, fates: seq<Fate>, k: nat)
    requires Refusing(d, id, pwd) && writes != [] && Simple(writes)
    requires forall w :: w in writes ==> w.id !in READ_ONLY_IDS
    requires k < |fates| && fates[k].link.Delivered? && !fates[k].ctxDone
    requires forall i :: 0 <= i < k ==> NoContextEnd(fates[i]) && !fates[i].link.Delivered?
    ensures Write(d, id, pwd, writes, fates) == (d, Some(ClientErr.AuthFailed))
  {
    hide Exchange, WriteBlock, Refusing;
    assert Peers(d, id, pwd) by { RefusingPeers(d, id, pwd); }
    SimpleBlockIsShort(writes, 0);
    RefusalIsFinal(d, id, pwd, FUNC_WRITE, WriteBlock(writes, 0), fates, k);
  }

  lemma RefusingPeers(d: Device, id: Bytes, pwd: Bytes)
    requires Refusing(d, id, pwd)
    ensures Peers(d, id, pwd)
  {
  }

  /** Of packets sent in order exactly the acknowledged ones took effect, and possibly the one that failed. */
  lemma {:induction false} PrefixLands(d: Device, id: Bytes, pwd: Bytes, packets: seq<seq<ParamWrite>>,
                                       fates: seq<seq<Fate>>)
    requires Peers(d, id, pwd) && Fated(packets, fates) && forall p :: p in packets ==> Simple(p)
    ensures var (d', err, sent) := SendPackets(d, id, pwd, packets, fates);
            && d' == d.(values := d'.values) && sent <= |packets| && (err.None? <==> sent == |packets|)
            && (d'.values == Store(d.values, Flatten(packets[..sent]))
                || (sent < |packets| && d'.values == Store(d.values, Flatten(packets[..sent + 1]))))
    decreases |packets|
  {
    hide Write, Store, Flatten, Simple;
    if packets == [] {
      StoreOfNone(d.values, packets);
    } else {
      var p := packets[0];
      assert p in packets;
      SimpleWrite(d, id, pwd, p, fates[0]);
      WriteKeepsDevice(d, id, pwd, p, fates[0]);
      var (d1, err) := Write(d, id, pwd, p, fates[0]);
      StoreOfNone(d.values, packets);
      StoreOfCons(d.values, packets, 0);
      if err.None? {
        var (d2, err2, sent) := SendPackets(d1, id, pwd, packets[1..], fates[1..]);
        PrefixLands(d1, id, pwd, packets[1..], fates[1..]);
        StoreOfCons(d.values, packets, sent);
        if sent + 1 < |packets| {
          StoreOfCons(d.values, packets, sent + 1);
        }
      }
    }
  }

  lemma StoreOfNone(m: Values, packets: seq<seq<ParamWrite>>)
    ensures Store(m, Flatten(packets[..0])) == m
  {
  }

  lemma StoreOfCons(m: Values, packets: seq<seq<ParamWrite>>, n: nat)
    requires n < |packets|
    ensures Store(m, Flatten(packets[..n + 1])) == Store(Store(m, packets[0]), Flatten(packets[1..][..n]))
    ensures n == 0 ==> Store(m, Flatten(packets[..1])) == Store(m, packets[0])
  {
    hide Store, Flatten;
    assert packets[..n + 1] == [packets[0]] + packets[1..][..n];
    FlattenCons(packets[0], packets[1..][..n]);
    StoreAppend(m, packets[0], Flatten(packets[1..][..n]));
    if n == 0 {
      StoreOfNone(Store(m, packets[0]), packets[1..]);
    }
  }

  lemma PacketsAreSimple(e: Entry)
    requires ValidEntry(e)
    ensures forall p :: p in Packets(e) ==> Simple(p)
  {
    if e.action != "off" {
      ActionIsMode(e.action);
    }
  }

  /**
   An action over the wire: whatever is lost, the device has the entry's
   acknowledged packets, and possibly the next one too.
   */
  lemma ActionOverWire(d: Device, id: Bytes, pwd: Bytes, e: Entry, fates: seq<seq<Fate>>) returns (landed: nat)
    requires Peers(d, id, pwd) && ValidEntry(e) && Fated(Packets(e), fates)
    ensures var (d', err, sent) := SendPackets(d, id, pwd, Packets(e), fates);
            && sent <= landed <= sent + 1 && landed <= |Packets(e)| && (err.None? <==> sent == |Packets(e)|)
            && d' == d.(values := Applied(d.values, e, landed))
  {
    hide Packets, Store, Flatten, SendPackets;
    PacketsAreSimple(e);
    PrefixLands(d, id, pwd, Packets(e), fates);
    var (d', err, sent) := SendPackets(d, id, pwd, Packets(e), fates);
    landed := if d'.values == Applied(d.values, e, sent) then sent else sent + 1;
  }

  /** The device after failed and successful attempts alike. */
  function Attempts(d: Device, id: Bytes, pwd: Bytes, e: Entry, attempts: seq<seq<seq<Fate>>>): Device
    requires Peers(d, id, pwd) && ValidEntry(e) && forall a :: a in attempts ==> Fated(Packets(e), a)
    decreases |attempts|
  {
    if attempts == [] then d
    else
      assert attempts[0] in attempts;
      Attempts(SendPackets(d, id, pwd, Packets(e), attempts[0]).0, id, pwd, e, attempts[1..])
  }

  lemma {:induction false} AttemptsLand(d: Device, id: Bytes, pwd: Bytes, e: Entry, attempts: seq<seq<seq<Fate>>>)
    returns (landed: seq<nat>)
    requires Peers(d, id, pwd) && ValidEntry(e) && forall a :: a in attempts ==> Fated(Packets(e), a)
    ensures forall i :: 0 <= i < |landed| ==> landed[i] <= |Packets(e)|
    ensures Attempts(d, id, pwd, e, attempts) == d.(values := AfterAttempts(d.values, e, landed))
    decreases |attempts|
  {
    hide Packets, SendPackets, Applied;
    if attempts == [] {
      landed := [];
    } else {
      assert attempts[0] in attempts;
      var first := ActionOverWire(d, id, pwd, e, attempts[0]);
      var rest := AttemptsLand(d.(values := Applied(d.values, e, first)), id, pwd, e, attempts[1..]);
      landed := [first] + rest;
      assert landed[1..] == rest;
    }
  }

  /** However many attempts failed, and wherever, one acknowledged attempt leaves the clean result. */
  lemma RetryOverWireIsClean(d: Device, id: Bytes, pwd: Bytes, e: Entry, attempts: seq<seq<seq<Fate>>>,
                             last: seq<seq<Fate>>)
    requires Peers(d, id, pwd) && ValidEntry(e) && Fated(Packets(e), last)
    requires forall a :: a in attempts ==> Fated(Packets(e), a)
    ensures var d1 := Attempts(d, id, pwd, e, attempts);
            && Peers(d1, id, pwd)
            && (SendPackets(d1, id, pwd, Packets(e), last).1.None? ==>
                  SendPackets(d1, id, pwd, Packets(e), last).0 == d.(values := Fired(d.values, e)))
  {
    hide Packets, SendPackets, Applied, Attempts;
    var landed := AttemptsLand(d, id, pwd, e, attempts);
    var d1 := Attempts(d, id, pwd, e, attempts);
    var k := ActionOverWire(d1, id, pwd, e, last);
    RetryGivesCleanResult(d.values, e, landed);
  }
}
