/** A delayed tick that crosses several entries fires only the last one; why that is enough. */
module CatchUp {
  import opened Wrappers
  import opened Clock
  import opened Params
  import opened Schedule
  import opened Ops

  /** The eligible entries on one side of `last`: later today, or (wrapped) earlier. */
  function Side(entries: seq<Entry>, last: Minute, now: Instant, firedAt: map<Minute, Instant>,
                after: bool): seq<Entry> {
    if entries == [] then []
    else
      var rest := Side(entries[1..], last, now, firedAt, after);
      if Eligible(entries[0], last, now, firedAt) && (entries[0].at > last <==> after)
      then [entries[0]] + rest
      else rest
  }

  /** The crossed, not yet fired entries in the order the clock passed them. */
  function Crossed(entries: seq<Entry>, last: Minute, now: Instant, firedAt: map<Minute, Instant>): seq<Entry> {
    Side(entries, last, now, firedAt, true) + Side(entries, last, now, firedAt, false)
  }

  lemma {:induction false} SideElements(entries: seq<Entry>, last: Minute, now: Instant,
                                        firedAt: map<Minute, Instant>, after: bool, x: Entry)
    ensures x in Side(entries, last, now, firedAt, after) <==>
            x in entries && Eligible(x, last, now, firedAt) && (x.at > last <==> after)
  {
    if entries == [] {
    } else {
      SideElements(entries[1..], last, now, firedAt, after, x);
      assert x in entries <==> x == entries[0] || x in entries[1..];
    }
  }

  lemma {:induction false} SideAscends(entries: seq<Entry>, last: Minute, now: Instant,
                                       firedAt: map<Minute, Instant>, after: bool)
    requires Ascending(entries)
    ensures Ascending(Side(entries, last, now, firedAt, after))
  {
    if entries == [] {
    } else {
      var rest := Side(entries[1..], last, now, firedAt, after);
      SideAscends(entries[1..], last, now, firedAt, after);
      forall j | 0 <= j < |rest|
        ensures entries[0].at < rest[j].at
      {
        SideElements(entries[1..], last, now, firedAt, after, rest[j]);
      }
    }
  }

  /** `Crossed` holds exactly the eligible entries, by strictly increasing distance from the last tick. */
  lemma CrossedInOrder(entries: seq<Entry>, last: Minute, now: Instant, firedAt: map<Minute, Instant>)
    requires Ascending(entries)
    ensures var c := Crossed(entries, last, now, firedAt);
            && (forall x :: x in c <==> x in entries && Eligible(x, last, now, firedAt))
            && (forall i, j :: 0 <= i < j < |c| ==> Dist(last, c[i].at) < Dist(last, c[j].at))
  {
    var a := Side(entries, last, now, firedAt, true);
    var b := Side(entries, last, now, firedAt, false);
    SideAscends(entries, last, now, firedAt, true);
    SideAscends(entries, last, now, firedAt, false);
    forall x
      ensures x in a <==> x in entries && Eligible(x, last, now, firedAt) && x.at > last
      ensures x in b <==> x in entries && Eligible(x, last, now, firedAt) && x.at <= last
    {
      SideElements(entries, last, now, firedAt, true, x);
      SideElements(entries, last, now, firedAt, false, x);
    }
    forall i, j | 0 <= i < j < |a + b|
      ensures Dist(last, (a + b)[i].at) < Dist(last, (a + b)[j].at)
    {
      assert (a + b)[i] in a + b && (a + b)[j] in a + b;
      assert i < |a| ==> (a + b)[i] in a;
      assert i >= |a| ==> (a + b)[i] in b;
      assert j < |a| ==> (a + b)[j] in a;
      assert j >= |a| ==> (a + b)[j] in b;
    }
  }

  /** The tick's pick is the crossed entry the clock passed last. */
  lemma LatestIsLastCrossed(entries: seq<Entry>, last: Minute, now: Instant, firedAt: map<Minute, Instant>)
    requires Ascending(entries)
    ensures var c := Crossed(entries, last, now, firedAt);
            var pick := Latest(entries, last, now, firedAt);
            if c == [] then pick.None? else pick.Some? && entries[pick.value] == c[|c| - 1]
  {
    var c := Crossed(entries, last, now, firedAt);
    var pick := Latest(entries, last, now, firedAt);
    CrossedInOrder(entries, last, now, firedAt);
    if c == [] {
      assert forall i :: 0 <= i < |entries| ==> entries[i] in entries && entries[i] !in c;
    } else {
      var z := c[|c| - 1];
      assert z in c;
      var k :| 0 <= k < |entries| && entries[k] == z;
      var e := entries[pick.value];
      assert e in entries && e in c;
      var i :| 0 <= i < |c| && c[i] == e;
      assert Dist(last, z.at) == Dist(last, e.at);
    }
  }

  /**
   Firing only the entry crossed last leaves the device exactly as firing every
   crossed entry in order would - or, when that entry is "off", with the same
   power and timer.
   */
  lemma SkippingStaleEntriesIsSafe(m: Values, entries: seq<Entry>, last: Minute, now: Instant,
                                   firedAt: map<Minute, Instant>)
    requires ValidEntries(entries) && Ascending(entries)
    requires Latest(entries, last, now, firedAt).Some?
    ensures forall e :: e in Crossed(entries, last, now, firedAt) ==> ValidEntry(e)
    ensures var all := FiredAll(m, Crossed(entries, last, now, firedAt));
            var e := entries[Latest(entries, last, now, firedAt).value];
            && ValidEntry(e)
            && (e.action != "off" ==> Fired(m, e) == all)
            && POWER in all && TIMER in all && POWER in Fired(m, e) && TIMER in Fired(m, e)
            && Fired(m, e)[POWER] == all[POWER] && Fired(m, e)[TIMER] == all[TIMER]
  {
    var c := Crossed(entries, last, now, firedAt);
    CrossedInOrder(entries, last, now, firedAt);
    LatestIsLastCrossed(entries, last, now, firedAt);
    LastActionDecides(m, c[..|c| - 1], c[|c| - 1]);
  }

  // ---- exactly when the last one is enough -----------------------------------------

  /** On every device, firing `e` alone leaves what firing all of `crossed` in order does. */
  ghost predicate Enough(e: Entry, crossed: seq<Entry>)
    requires ValidEntry(e) && forall x :: x in crossed ==> ValidEntry(x)
  {
    forall m: Values :: Fired(m, e) == FiredAll(m, crossed)
  }

  lemma OffThenOff(m: Values, a: Entry, b: Entry)
    requires ValidEntry(a) && ValidEntry(b) && a.action == "off" && b.action == "off"
    ensures Fired(Fired(m, a), b) == Fired(m, b)
  {
    FiredTargets(a);
    FiredTargets(b);
    StoreOverrides(m, Flatten(Packets(a)), Flatten(Packets(b)));
  }

  /** Firing only "off" entries is firing the last of them. */
  lemma {:induction false} AllOffIsLast(m: Values, entries: seq<Entry>)
    requires entries != [] && forall x :: x in entries ==> ValidEntry(x) && x.action == "off"
    ensures FiredAll(m, entries) == Fired(m, entries[|entries| - 1])
    decreases |entries|
  {
    hide Fired;
    var n := |entries| - 1;
    assert FiredAll(m, entries) == Fired(FiredAll(m, entries[..n]), entries[n]);
    if n == 0 {
      assert entries[..0] == [];
    } else {
      AllOffIsLast(m, entries[..n]);
      OffThenOff(m, entries[n - 1], entries[n]);
    }
  }

  lemma FiredKeys(m: Values, e: Entry)
    requires ValidEntry(e)
    ensures Fired(m, e).Keys == m.Keys +
            if e.action == "off" then {POWER, TIMER} else {POWER, TIMER, AIRFLOW_MODE, SPEED_MANUAL, SPEED_MODE}
  {
    FiredTargets(e);
    StoreKeys(m, Flatten(Packets(e)));
  }

  /** An entry that is not "off" leaves a manual speed set, whatever fires after it. */
  lemma {:induction false} SpeedStays(m: Values, entries: seq<Entry>, x: Entry)
    requires x in entries && x.action != "off" && forall e :: e in entries ==> ValidEntry(e)
    ensures SPEED_MANUAL in FiredAll(m, entries)
    decreases |entries|
  {
    hide Fired;
    var n := |entries| - 1;
    FiredKeys(FiredAll(m, entries[..n]), entries[n]);
    if x != entries[n] {
      SpeedStays(m, entries[..n], x);
    }
  }

  /**
   Firing only the entry crossed last is as good as firing every crossed entry
   in order, on every device, exactly when it is not "off" or all of them are.
   */
  lemma SkippingIsExactIff(entries: seq<Entry>, last: Minute, now: Instant, firedAt: map<Minute, Instant>)
    requires ValidEntries(entries) && Ascending(entries)
    requires Latest(entries, last, now, firedAt).Some?
    ensures var e := entries[Latest(entries, last, now, firedAt).value];
            var c := Crossed(entries, last, now, firedAt);
            && ValidEntry(e) && (forall x :: x in c ==> ValidEntry(x))
            && (Enough(e, c) <==> e.action != "off" || forall x :: x in c ==> x.action == "off")
  {
    hide Fired, Crossed, Latest, FiredAll;
    var e := entries[Latest(entries, last, now, firedAt).value];
    var c := Crossed(entries, last, now, firedAt);
    CrossedInOrder(entries, last, now, firedAt);
    LatestIsLastCrossed(entries, last, now, firedAt);
    if e.action != "off" {
      forall m: Values
        ensures Fired(m, e) == FiredAll(m, c)
      {
        SkippingStaleEntriesIsSafe(m, entries, last, now, firedAt);
      }
    } else if x :| x in c && x.action != "off" {
      SpeedStays(map[], c, x);
      FiredKeys(map[], e);
      assert Fired(map[], e) != FiredAll(map[], c);
    } else {
      forall m: Values
        ensures Fired(m, e) == FiredAll(m, c)
      {
        AllOffIsLast(m, c);
      }
    }
  }

  /** When the last crossed entry is "off", an earlier entry's speed really is skipped. */
  lemma OffSkipsEarlierSpeed(now: Instant)
    requires now.minute == 80
    ensures var entries := [Entry(60, "supply", 40), Entry(70, "off", 0)];
            && Crossed(entries, 50, now, map[]) == entries
            && SPEED_MANUAL in FiredAll(map[], entries)
            && SPEED_MANUAL !in Fired(map[], entries[1])
  {
    hide Packets, Store;
    var entries := [Entry(60, "supply", 40), Entry(70, "off", 0)];
    assert entries[1..] == [entries[1]] && entries[1..][1..] == [];
    assert Side(entries[1..], 50, now, map[], true) == [entries[1]];
    assert Side(entries[1..], 50, now, map[], false) == [];
    assert Side(entries, 50, now, map[], true) == entries;
    assert entries[..1] == [entries[0]] && entries[..1][..0] == [];
    FiredTargets(entries[0]);
    FiredTargets(entries[1]);
    StoreOverlays(map[], Flatten(Packets(entries[0])));
    StoreOverlays(map[], Flatten(Packets(entries[1])));
    assert FiredAll(map[], entries[..1]) == Fired(map[], entries[0]);
    StoreOverlays(Fired(map[], entries[0]), Flatten(Packets(entries[1])));
  }
}
