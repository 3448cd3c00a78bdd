/** The device operations schedules and handlers issue, and a schedule entry's action. */
module Ops {
  import opened Wrappers
  import opened Params
  import opened MemDevice
  import opened Schedule

  const POWER: ParamID := 0x0001
  const SPEED_MODE: ParamID := 0x0002
  const TIMER: ParamID := 0x0007
  const SPEED_MANUAL: ParamID := 0x0044
  const AIRFLOW_MODE: ParamID := 0x00B7

  function PowerWrites(on: bool): seq<ParamWrite> {
    if on then [ParamWrite(POWER, [1])]
    else [ParamWrite(POWER, [0]), ParamWrite(TIMER, [0])]
  }

  function SpeedPresetWrites(preset: int): Option<seq<ParamWrite>> {
    if preset < 1 || preset > 3 then None
    else Some([ParamWrite(SPEED_MODE, [preset]), ParamWrite(TIMER, [0])])
  }

  function SpeedManualWrites(pct: int): Option<seq<ParamWrite>> {
    if pct < 10 || pct > 100 then None
    else Some([ParamWrite(SPEED_MANUAL, [pct]), ParamWrite(SPEED_MODE, [0xFF]), ParamWrite(TIMER, [0])])
  }

  /**
   The lower-case form of a character, as far as it can be an ASCII letter: two
   other characters, the dotted capital I and the Kelvin sign, have one too.
   */
  function LowerChar(c: char): char {
    if 'A' <= c <= 'Z' then c - 'A' + 'a'
    else if c == '\U{0130}' then 'i'
    else if c == '\U{212A}' then 'k'
    else c
  }

  function Lower(s: string): string { seq(|s|, i requires 0 <= i < |s| => LowerChar(s[i])) }

  function ModeWrites(mode: string): Option<seq<ParamWrite>> {
    var m := Lower(mode);
    if m == "ventilation" then Some([ParamWrite(AIRFLOW_MODE, [0])])
    else if m == "regeneration" then Some([ParamWrite(AIRFLOW_MODE, [1])])
    else if m == "supply" then Some([ParamWrite(AIRFLOW_MODE, [2])])
    else if m == "extract" then Some([ParamWrite(AIRFLOW_MODE, [3])])
    else None
  }

  function TimerWrites(mode: string): Option<seq<ParamWrite>> {
    var m := Lower(mode);
    if m == "off" then Some([ParamWrite(TIMER, [0])])
    else if m == "night" then Some([ParamWrite(TIMER, [1])])
    else if m == "turbo" then Some([ParamWrite(TIMER, [2])])
    else None
  }

  /** A schedule's actions, other than "off", are modes as they stand. */
  lemma ActionIsMode(action: string)
    requires action in VALID_ACTIONS && action != "off"
    ensures ModeWrites(action).Some? && Lower(action) == action
  {
    match action {
      case "ventilation" => assert Lower("ventilation") == "ventilation";
      case "regeneration" => assert Lower("regeneration") == "regeneration";
      case "supply" => assert Lower("supply") == "supply";
      case "extract" => assert Lower("extract") == "extract";
    }
  }

  const AIRFLOW_NAMES := {"ventilation", "regeneration", "supply", "extract"}

  /** The device's codes for the airflow modes. */
  function AirflowCode(mode: string): Byte
    requires mode in AIRFLOW_NAMES
  {
    if mode == "ventilation" then 0 else if mode == "regeneration" then 1 else if mode == "supply" then 2 else 3
  }

  /** A word in any capitalisation lowers to the word. */
  lemma CaseIsFolded(s: string, word: string)
    requires |s| == |word| && forall i :: 0 <= i < |s| ==>
               'a' <= word[i] <= 'z' && (s[i] == word[i] || s[i] as int == word[i] as int - 32)
    ensures Lower(s) == word
  {
  }

  /** Storing one or two writes is one or two updates. */
  lemma StoreTwo(m: Values, writes: seq<ParamWrite>)
    ensures |writes| == 1 ==> Store(m, writes) == m[writes[0].id := writes[0].value]
    ensures |writes| == 2 ==> Store(m, writes) == m[writes[0].id := writes[0].value][writes[1].id := writes[1].value]
  {
    if |writes| == 2 {
      var m1, rest := m[writes[0].id := writes[0].value], writes[1..];
      assert rest[0] == writes[1] && rest[1..] == [];
      assert Store(m1, rest) == m1[writes[1].id := writes[1].value];
    }
  }

  /** One operation: reject a bad argument before any traffic, else send one packet. */
  method Issue(c: MemClient, packet: Option<seq<ParamWrite>>, ctxDone: bool) returns (err: Option<ClientError>)
    modifies c`params
    ensures err == if packet.None? then Some(InvalidArg) else old(c.Fault(ctxDone))
    ensures c.params == if err.None? then Store(old(c.params), packet.value) else old(c.params)
  {
    if packet.None? {
      return Some(InvalidArg);
    }
    err := c.WriteParams(packet.value, ctxDone);
  }

  method Power(c: MemClient, on: bool, ctxDone: bool) returns (err: Option<ClientError>)
    modifies c`params
    ensures err == old(c.Fault(ctxDone))
    ensures c.params == if err.None? then Store(old(c.params), PowerWrites(on)) else old(c.params)
    ensures err.None? && on ==> c.params == old(c.params)[0x01 := [1]]
    ensures err.None? && !on ==> c.params == old(c.params)[0x01 := [0]][0x07 := [0]]
  {
    StoreTwo(c.params, PowerWrites(on));
    err := Issue(c, Some(PowerWrites(on)), ctxDone);
  }

  method SetMode(c: MemClient, mode: string, ctxDone: bool) returns (err: Option<ClientError>)
    modifies c`params
    ensures ModeWrites(mode).None? ==> err == Some(InvalidArg)
    ensures ModeWrites(mode).Some? ==> err == old(c.Fault(ctxDone))
    ensures c.params == if err.None? then Store(old(c.params), ModeWrites(mode).value) else old(c.params)
    ensures err.None? ==>
              && Lower(mode) in AIRFLOW_NAMES
              && (Lower(mode) == "ventilation" ==> c.params == old(c.params)[0xB7 := [0]])
              && (Lower(mode) == "regeneration" ==> c.params == old(c.params)[0xB7 := [1]])
              && (Lower(mode) == "supply" ==> c.params == old(c.params)[0xB7 := [2]])
              && (Lower(mode) == "extract" ==> c.params == old(c.params)[0xB7 := [3]])
    ensures Lower(mode) !in AIRFLOW_NAMES ==> err == Some(InvalidArg)
  {
    if ModeWrites(mode).Some? {
      StoreTwo(c.params, ModeWrites(mode).value);
    }
    err := Issue(c, ModeWrites(mode), ctxDone);
  }

  method SetSpeedManual(c: MemClient, pct: int, ctxDone: bool) returns (err: Option<ClientError>)
    modifies c`params
    ensures SpeedManualWrites(pct).None? ==> err == Some(InvalidArg)
    ensures SpeedManualWrites(pct).Some? ==> err == old(c.Fault(ctxDone))
    ensures c.params == if err.None? then Store(old(c.params), SpeedManualWrites(pct).value) else old(c.params)
    ensures !(10 <= pct <= 100) ==> err == Some(InvalidArg)
    ensures 10 <= pct <= 100 ==> err == old(c.Fault(ctxDone))
    ensures err.None? ==> c.params == old(c.params)[0x44 := [pct]][0x02 := [0xFF]][0x07 := [0]]
  {
    if SpeedManualWrites(pct).Some? {
      var ws := SpeedManualWrites(pct).value;
      StoreTwo(c.params[ws[0].id := ws[0].value], ws[1..]);
    }
    err := Issue(c, SpeedManualWrites(pct), ctxDone);
  }

  method SetSpeedPreset(c: MemClient, preset: int, ctxDone: bool) returns (err: Option<ClientError>)
    modifies c`params
    ensures SpeedPresetWrites(preset).None? ==> err == Some(InvalidArg)
    ensures SpeedPresetWrites(preset).Some? ==> err == old(c.Fault(ctxDone))
    ensures c.params == if err.None? then Store(old(c.params), SpeedPresetWrites(preset).value) else old(c.params)
    ensures !(1 <= preset <= 3) ==> err == Some(InvalidArg)
    ensures 1 <= preset <= 3 ==> err == old(c.Fault(ctxDone))
    ensures err.None? ==> c.params == old(c.params)[0x02 := [preset]][0x07 := [0]]
  {
    if SpeedPresetWrites(preset).Some? {
      StoreTwo(c.params, SpeedPresetWrites(preset).value);
    }
    err := Issue(c, SpeedPresetWrites(preset), ctxDone);
  }

  method SetTimer(c: MemClient, mode: string, ctxDone: bool) returns (err: Option<ClientError>)
    modifies c`params
    ensures TimerWrites(mode).None? ==> err == Some(InvalidArg)
    ensures TimerWrites(mode).Some? ==> err == old(c.Fault(ctxDone))
    ensures c.params == if err.None? then Store(old(c.params), TimerWrites(mode).value) else old(c.params)
    ensures err.None? ==>
              && (Lower(mode) == "off" ==> c.params == old(c.params)[0x07 := [0]])
              && (Lower(mode) == "night" ==> c.params == old(c.params)[0x07 := [1]])
              && (Lower(mode) == "turbo" ==> c.params == old(c.params)[0x07 := [2]])
    ensures Lower(mode) !in {"off", "night", "turbo"} ==> err == Some(InvalidArg)
    ensures Lower(mode) in {"off", "night", "turbo"} ==> err == old(c.Fault(ctxDone))
  {
    if TimerWrites(mode).Some? {
      StoreTwo(c.params, TimerWrites(mode).value);
    }
    err := Issue(c, TimerWrites(mode), ctxDone);
  }

  /** An operation as an argument: what its packet would be. */
  datatype Operation =
    | DoPower(on: bool)
    | DoPreset(preset: int)
    | DoManual(pct: int)
    | DoMode(mode: string)
    | DoTimer(timer: string)

  function PacketOf(op: Operation): Option<seq<ParamWrite>> {
    match op
    case DoPower(on) => Some(PowerWrites(on))
    case DoPreset(preset) => SpeedPresetWrites(preset)
    case DoManual(pct) => SpeedManualWrites(pct)
    case DoMode(mode) => ModeWrites(mode)
    case DoTimer(timer) => TimerWrites(timer)
  }

  /** The device after a run of operations; refused ones send nothing. */
  function Operated(m: Values, ops: seq<Operation>): Values
    decreases |ops|
  {
    if ops == [] then m
    else
      var before := Operated(m, ops[..|ops| - 1]);
      var packet := PacketOf(ops[|ops| - 1]);
      if packet.Some? then Store(before, packet.value) else before
  }

  predicate ClearsTimer(op: Operation) {
    PacketOf(op).Some? && (op == DoPower(false) || op.DoPreset? || op.DoManual?)
  }

  predicate StartsTimer(op: Operation) { op.DoTimer? && Lower(op.timer) in {"night", "turbo"} }

  /**
   After a run from a device whose timer is off, the timer runs only if one was
   started after the last clearing operation.
   */
  ghost predicate StartedSinceClear(ops: seq<Operation>) {
    exists i :: 0 <= i < |ops| && StartsTimer(ops[i]) && forall j :: i < j < |ops| ==> !ClearsTimer(ops[j])
  }

  lemma {:induction false} TimerRunsOnlyIfStarted(m: Values, ops: seq<Operation>)
    requires TIMER in m && m[TIMER] == [0]
    ensures TIMER in Operated(m, ops)
    ensures Operated(m, ops)[TIMER] != [0] ==> StartedSinceClear(ops)
    decreases |ops|
  {
    hide PacketOf, Store;
    if ops == [] {
    } else {
      var n := |ops| - 1;
      TimerRunsOnlyIfStarted(m, ops[..n]);
      if PacketOf(ops[n]).Some? {
        PacketTimer(Operated(m, ops[..n]), ops[n]);
      }
      if Operated(m, ops)[TIMER] != [0] && !StartsTimer(ops[n]) {
        var i :| 0 <= i < n && StartsTimer(ops[..n][i]) && forall j :: i < j < n ==> !ClearsTimer(ops[..n][j]);
        assert forall j :: i <= j < n ==> ops[j] == ops[..n][j];
      }
    }
  }

  /**
   What one packet does to the timer: speed changes and power-off clear it, timer
   operations set it, others leave it.
   */
  lemma PacketTimer(m: Values, op: Operation)
    requires TIMER in m && PacketOf(op).Some?
    ensures var r := Store(m, PacketOf(op).value);
            TIMER in r && (ClearsTimer(op) ==> r[TIMER] == [0])
            && (r[TIMER] != m[TIMER] && r[TIMER] != [0] ==> StartsTimer(op))
  {
    var ws := PacketOf(op).value;
    if op == DoPower(true) || op.DoMode? {
      assert ws[1..] == [] && Store(m, ws) == m[ws[0].id := ws[0].value];
    } else {
      StoreLast(m, ws, |ws| - 1);
    }
  }

  // ---- a schedule entry's action ---------------------------------------------

  /** The packets an entry's action sends, in order. */
  function Packets(e: Entry): seq<seq<ParamWrite>>
    requires ValidEntry(e)
  {
    if e.action == "off" then [PowerWrites(false)]
    else
      ActionIsMode(e.action);
      [PowerWrites(true), ModeWrites(e.action).value, SpeedManualWrites(e.pct).value]
  }

  function Flatten(packets: seq<seq<ParamWrite>>): seq<ParamWrite> {
    if packets == [] then [] else packets[0] + Flatten(packets[1..])
  }

  /** The device after an entry's first `sent` packets. */
  function Applied(m: Values, e: Entry, sent: nat): Values
    requires ValidEntry(e) && sent <= |Packets(e)|
  {
    Store(m, Flatten(Packets(e)[..sent]))
  }

  function Fired(m: Values, e: Entry): Values
    requires ValidEntry(e)
  {
    Applied(m, e, |Packets(e)|)
  }

  lemma PacketByPacket(m: Values, e: Entry)
    requires ValidEntry(e)
    ensures Applied(m, e, 0) == m
    ensures forall i :: 0 <= i < |Packets(e)| ==> Applied(m, e, i + 1) == Store(Applied(m, e, i), Packets(e)[i])
  {
    forall i | 0 <= i < |Packets(e)|
      ensures Applied(m, e, i + 1) == Store(Applied(m, e, i), Packets(e)[i])
    {
      FlattenSnoc(Packets(e)[..i], Packets(e)[i]);
      assert Packets(e)[..i + 1] == Packets(e)[..i] + [Packets(e)[i]];
      StoreAppend(m, Flatten(Packets(e)[..i]), Packets(e)[i]);
    }
  }

  lemma {:induction false} FlattenSnoc(ps: seq<seq<ParamWrite>>, p: seq<ParamWrite>)
    ensures Flatten(ps + [p]) == Flatten(ps) + p
  {
    if ps == [] {
      assert [p][1..] == [];
    } else {
      assert (ps + [p])[1..] == ps[1..] + [p];
      FlattenSnoc(ps[1..], p);
    }
  }

  lemma FlattenCons(w: seq<ParamWrite>, rest: seq<seq<ParamWrite>>)
    ensures Flatten([w] + rest) == w + Flatten(rest)
  {
    assert ([w] + rest)[1..] == rest;
  }

  /**
   Issue an entry's writes: power, then mode, then speed, stopping at the first
   error. `ctxDone[i]` says the context has ended when packet `i` is sent.
   */
  method ApplyAction(c: MemClient, e: Entry, ctxDone: seq<bool>) returns (err: Option<ClientError>, ghost sent: nat)
    requires ValidEntry(e) && |ctxDone| == 3
    modifies c`params
    ensures sent <= |Packets(e)| && c.params == Applied(old(c.params), e, sent)
    ensures err.None? <==> sent == |Packets(e)|
    ensures err.Some? ==> err == old(c.Fault(ctxDone[sent]))
    ensures forall i :: 0 <= i < sent ==> old(c.Fault(ctxDone[i])).None?
    ensures err == Some(AuthError) <==> c.forceAuth
    ensures err.None? <==>
            !c.forceAuth && !c.forceTimeout && forall i :: 0 <= i < |Packets(e)| ==> !ctxDone[i]
  {
    hide ModeWrites, PowerWrites, Flatten, Store;
    ghost var m, ps := c.params, Packets(e);
    if e.action != "off" {
      ActionIsMode(e.action);
    }
    PacketByPacket(m, e);
    sent := 0;
    if e.action == "off" {
      err := Power(c, false, ctxDone[0]);
      if err.None? {
        assert Applied(m, e, 1) == Store(m, ps[0]);
        sent := 1;
      }
      return;
    }
    err := Power(c, true, ctxDone[0]);
    if err.Some? {
      return;
    }
    assert Applied(m, e, 1) == Store(m, ps[0]);
    sent := 1;
    err := SetMode(c, e.action, ctxDone[1]);
    if err.Some? {
      return;
    }
    assert Applied(m, e, 2) == Store(Applied(m, e, 1), ps[1]);
    sent := 2;
    err := SetSpeedManual(c, e.pct, ctxDone[2]);
    if err.None? {
      assert Applied(m, e, 3) == Store(Applied(m, e, 2), ps[2]);
      sent := 3;
    }
  }

  // ---- what firing leaves ---------------------------------------------------------

  /** An action's writes, one after the other. */
  lemma ActionWrites(e: Entry)
    requires ValidEntry(e)
    ensures Flatten(Packets(e)) ==
            if e.action == "off" then [ParamWrite(0x01, [0]), ParamWrite(0x07, [0])]
            else [ParamWrite(0x01, [1]), ParamWrite(0xB7, [AirflowCode(e.action)]), ParamWrite(0x44, [e.pct]),
                  ParamWrite(0x02, [0xFF]), ParamWrite(0x07, [0])]
  {
    hide Flatten;
    var ps := Packets(e);
    if e.action == "off" {
      FlattenOne(ps[0]);
    } else {
      ActionIsMode(e.action);
      FlattenCons(ps[0], [ps[1], ps[2]]);
      FlattenCons(ps[1], [ps[2]]);
      FlattenOne(ps[2]);
      assert ps == [ps[0]] + [ps[1], ps[2]] && [ps[1], ps[2]] == [ps[1]] + [ps[2]];
    }
  }

  /**
   Firing an entry on any device: "off" switches it off and stops its timer; any
   other action switches it on in that airflow mode, under manual control at the
   entry's percentage, with the timer stopped.
   */
  lemma FiringLeaves(m: Values, e: Entry)
    requires ValidEntry(e)
    ensures var r := Fired(m, e);
            && 0x01 in r && r[0x01] == (if e.action == "off" then [0] else [1])
            && 0x07 in r && r[0x07] == [0]
            && (e.action == "off" ==> r == m[0x01 := [0]][0x07 := [0]])
            && (e.action != "off" ==>
                  && 0xB7 in r
                  && (e.action == "ventilation" ==> r[0xB7] == [0]) && (e.action == "regeneration" ==> r[0xB7] == [1])
                  && (e.action == "supply" ==> r[0xB7] == [2]) && (e.action == "extract" ==> r[0xB7] == [3])
                  && 0x44 in r && r[0x44] == [e.pct] && 0x02 in r && r[0x02] == [0xFF])
  {
    hide Flatten, Store;
    var ws := Flatten(Packets(e));
    ActionWrites(e);
    assert Packets(e)[..|Packets(e)|] == Packets(e);
    StoreTwo(m, ws);
    if e.action == "off" {
      StoreLast(m, ws, 0);
      StoreLast(m, ws, 1);
    } else {
      StoreLast(m, ws, 0);
      StoreLast(m, ws, 1);
      StoreLast(m, ws, 2);
      StoreLast(m, ws, 3);
      StoreLast(m, ws, 4);
    }
  }

  /** Firing touches no parameter but those five. */
  lemma FiringLeavesTheRest(m: Values, e: Entry, p: ParamID)
    requires ValidEntry(e) && p !in {0x01, 0x02, 0x07, 0x44, 0xB7}
    ensures p in Fired(m, e) <==> p in m
    ensures p in m ==> Fired(m, e)[p] == m[p]
  {
    hide Flatten, Store;
    var ws := Flatten(Packets(e));
    ActionWrites(e);
    assert Packets(e)[..|Packets(e)|] == Packets(e);
    assert p !in Targets(ws);
    StoreOverlays(m, ws);
  }

  // ---- what firing guarantees ---------------------------------------------------

  /** After any partly applied attempts of an action, one full attempt gives the clean result. */
  lemma {:induction false} RetryGivesCleanResult(m: Values, e: Entry, attempts: seq<nat>)
    requires ValidEntry(e) && forall i :: 0 <= i < |attempts| ==> attempts[i] <= |Packets(e)|
    ensures Fired(AfterAttempts(m, e, attempts), e) == Fired(m, e)
    decreases |attempts|
  {
    if attempts == [] {
    } else {
      RetryGivesCleanResult(Applied(m, e, attempts[0]), e, attempts[1..]);
      FiredTargets(e);
      PrefixTargets(Packets(e), attempts[0]);
      StoreOverrides(m, Flatten(Packets(e)[..attempts[0]]), Flatten(Packets(e)));
      assert Packets(e)[..|Packets(e)|] == Packets(e);
    }
  }

  /** The device after attempts that each got some number of packets through. */
  function AfterAttempts(m: Values, e: Entry, attempts: seq<nat>): Values
    requires ValidEntry(e) && forall i :: 0 <= i < |attempts| ==> attempts[i] <= |Packets(e)|
    decreases |attempts|
  {
    if attempts == [] then m else AfterAttempts(Applied(m, e, attempts[0]), e, attempts[1..])
  }

  lemma FiredTargets(e: Entry)
    requires ValidEntry(e)
    ensures Packets(e)[..|Packets(e)|] == Packets(e)
    ensures Targets(Flatten(Packets(e))) ==
            if e.action == "off" then {POWER, TIMER} else {POWER, TIMER, AIRFLOW_MODE, SPEED_MANUAL, SPEED_MODE}
  {
    hide Flatten, Targets, ModeWrites;
    var ps := Packets(e);
    PowerTargets(e.action != "off");
    if e.action == "off" {
      FlattenOne(ps[0]);
    } else {
      ActionIsMode(e.action);
      ModeTargets(e.action);
      SpeedTargets(e.pct);
      FlattenThree(ps[0], ps[1], ps[2]);
    }
  }

  lemma FlattenOne(p: seq<ParamWrite>)
    ensures Flatten([p]) == p
  {
    assert [p][1..] == [];
  }

  lemma FlattenThree(p: seq<ParamWrite>, q: seq<ParamWrite>, r: seq<ParamWrite>)
    ensures Targets(Flatten([p, q, r])) == Targets(p) + Targets(q) + Targets(r)
  {
    hide Targets;
    FlattenOne(r);
    assert [p, q, r][1..] == [q, r] && [q, r][1..] == [r];
    assert Flatten([p, q, r]) == p + Flatten([q, r]);
    TargetsAppend(q, r);
    TargetsAppend(p, q + r);
  }

  lemma PowerTargets(on: bool)
    ensures Targets(PowerWrites(on)) == if on then {POWER} else {POWER, TIMER}
  {
    var ws := PowerWrites(on);
    assert ws[0] in ws && (!on ==> ws[1] in ws);
  }

  lemma ModeTargets(mode: string)
    requires ModeWrites(mode).Some?
    ensures Targets(ModeWrites(mode).value) == {AIRFLOW_MODE}
  {
    var ws := ModeWrites(mode).value;
    assert |ws| == 1 && ws[0] in ws && ws[0].id == AIRFLOW_MODE;
  }

  lemma SpeedTargets(pct: int)
    requires SpeedManualWrites(pct).Some?
    ensures Targets(SpeedManualWrites(pct).value) == {SPEED_MANUAL, SPEED_MODE, TIMER}
  {
    var ws := SpeedManualWrites(pct).value;
    assert ws[0] in ws && ws[1] in ws && ws[2] in ws;
  }

  lemma {:induction false} PrefixTargets(ps: seq<seq<ParamWrite>>, n: nat)
    requires n <= |ps|
    ensures Targets(Flatten(ps[..n])) <= Targets(Flatten(ps))
  {
    if n == 0 {
    } else {
      PrefixTargets(ps[1..], n - 1);
      TargetsAppend(ps[0], Flatten(ps[1..]));
      TargetsAppend(ps[0], Flatten(ps[1..][..n - 1]));
      assert ps[..n][1..] == ps[1..][..n - 1];
    }
  }

  /** Firing a list of entries one after the other. */
  function FiredAll(m: Values, entries: seq<Entry>): Values
    requires forall e :: e in entries ==> ValidEntry(e)
  {
    if entries == [] then m
    else Fired(FiredAll(m, entries[..|entries| - 1]), entries[|entries| - 1])
  }

  /** Whatever was fired before, an action that is not "off" leaves the device as if it alone had fired. */
  lemma {:induction false} LastActionDecides(m: Values, entries: seq<Entry>, last: Entry)
    requires (forall e :: e in entries ==> ValidEntry(e)) && ValidEntry(last)
    ensures last.action != "off" ==> Fired(FiredAll(m, entries), last) == Fired(m, last)
    ensures forall id :: id in {POWER, TIMER} ==>
              id in Fired(FiredAll(m, entries), last) && id in Fired(m, last)
              && Fired(FiredAll(m, entries), last)[id] == Fired(m, last)[id]
  {
    FiredTargets(last);
    StoreOverlays(m, Flatten(Packets(last)));
    StoreOverlays(FiredAll(m, entries), Flatten(Packets(last)));
    if entries != [] && last.action != "off" {
      var n := |entries| - 1;
      LastActionDecides(m, entries[..n], last);
      FiredTargets(entries[n]);
      StoreOverrides(FiredAll(m, entries[..n]), Flatten(Packets(entries[n])), Flatten(Packets(last)));
    }
  }
}
