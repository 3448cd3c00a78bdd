/** The scheduler and a device at the end of a lossy wire, over whole runs. */
module WireSchedule {
  import opened Wrappers
  import opened Clock
  import opened Params
  import opened Frames
  import opened FakeDevice
  import opened Client
  import opened WireStack
  import opened WireActions
  import opened Schedule
  import opened ScheduleRuns
  import opened ScheduleLimits
  import opened Ops

  /** The scheduler and the device it fires at. */
  datatype World = World(s: State, d: Device)

  /** A tick comes with the fates of its fire's packets, or with a dial that fails. */
  datatype WireEvent =
    | WireTick(now: Instant, env: Env, dials: bool, fates: seq<seq<Fate>>)
    | Otherwise(ev: Event)

  predicate FatesGiven(ev: WireEvent) {
    match ev
    case WireTick(_, _, _, fates) => |fates| == 3 && forall i :: 0 <= i < 3 ==> fates[i] != []
    case Otherwise(ev) => !ev.TickAt?
  }

  /** What the scheduler makes of how the packets ended. */
  function OutcomeOf(err: Option<ClientErr>): Outcome {
    if err.None? then Succeeded
    else if err == Some(ClientErr.AuthFailed) then Outcome.Failed(FireError.AuthFailed)
    else Outcome.Failed(Transient)
  }

  lemma PacketsFit(e: Entry)
    requires ValidEntry(e)
    ensures |Packets(e)| <= 3
  {
  }

  /** One fire over the wire: how it ends, and the device after it. */
  function FireOverWire(d: Device, id: Bytes, pwd: Bytes, e: Entry, dials: bool, fates: seq<seq<Fate>>)
    : (r: (Outcome, Device))
    requires Peers(d, id, pwd) && ValidEntry(e) && |fates| == 3 && forall i :: 0 <= i < 3 ==> fates[i] != []
    ensures Peers(r.1, id, pwd)
  {
    if !dials then (Outcome.Failed(Transient), d)
    else
      PacketsFit(e);
      var (d', err, _) := SendPackets(d, id, pwd, Packets(e), fates[..|Packets(e)|]);
      (OutcomeOf(err), d')
  }

  ghost predicate Fit(w: World, id: Bytes, pwd: Bytes) { Peers(w.d, id, pwd) && Sound(w.s) }

  /** A tick whose fire, if it sends anything, goes over the wire; the outcome is what came of it. */
  ghost function TickOverWire(w: World, id: Bytes, pwd: Bytes, now: Instant, env: Env, dials: bool,
                              fates: seq<seq<Fate>>): (r: World)
    requires Fit(w, id, pwd) && |fates| == 3 && forall i :: 0 <= i < 3 ==> fates[i] != []
    ensures Fit(r, id, pwd)
  {
    DispatchedIsValid(w.s, now, env);
    var sent := Dispatched(w.s, now, env);
    if sent.None? then
      TickKeepsSound(w.s, now, env);
      World(Tick(w.s, now, env), w.d)
    else
      var (outcome, d) := FireOverWire(w.d, id, pwd, sent.value, dials, fates);
      TickKeepsSound(w.s, now, env.(outcome := outcome));
      World(Tick(w.s, now, env.(outcome := outcome)), d)
  }

  ghost function WireStep(w: World, id: Bytes, pwd: Bytes, ev: WireEvent): (r: World)
    requires Fit(w, id, pwd) && FatesGiven(ev)
    ensures Fit(r, id, pwd)
  {
    match ev
    case WireTick(now, env, dials, fates) => TickOverWire(w, id, pwd, now, env, dials, fates)
    case Otherwise(ev) =>
      OtherKeepsSound(w.s, ev);
      World(Step(w.s, ev), w.d)
  }

  ghost function WireRun(w: World, id: Bytes, pwd: Bytes, evs: seq<WireEvent>): (r: World)
    requires Fit(w, id, pwd) && forall ev :: ev in evs ==> FatesGiven(ev)
    ensures Fit(r, id, pwd)
    decreases |evs|
  {
    if evs == [] then w
    else
      assert evs[0] in evs;
      WireRun(WireStep(w, id, pwd, evs[0]), id, pwd, evs[1..])
  }

  // ---- what a schedule can touch --------------------------------------------------------

  const ACTION_IDS: set<ParamID> := {POWER, TIMER, AIRFLOW_MODE, SPEED_MANUAL, SPEED_MODE}

  /** The two maps agree on every parameter no action writes. */
  ghost predicate SameElsewhere(m: Values, n: Values) {
    m - ACTION_IDS == n - ACTION_IDS
  }

  lemma StoreElsewhere(m: Values, writes: seq<ParamWrite>)
    requires Targets(writes) <= ACTION_IDS
    ensures SameElsewhere(m, Store(m, writes))
  {
    StoreOverlays(m, writes);
  }

  lemma AppliedElsewhere(m: Values, e: Entry, landed: nat)
    requires ValidEntry(e) && landed <= |Packets(e)|
    ensures SameElsewhere(m, Applied(m, e, landed))
  {
    FiredTargets(e);
    PrefixTargets(Packets(e), landed);
    StoreElsewhere(m, Flatten(Packets(e)[..landed]));
  }

  /** Devices that agree elsewhere are the same once an action that is not "off" has fired. */
  lemma FiredAlike(m: Values, n: Values, e: Entry)
    requires ValidEntry(e) && SameElsewhere(m, n)
    ensures e.action != "off" ==> Fired(m, e) == Fired(n, e)
    ensures forall p :: p in {POWER, TIMER} ==>
              p in Fired(m, e) && p in Fired(n, e) && Fired(m, e)[p] == Fired(n, e)[p]
  {
    var writes := Flatten(Packets(e));
    FiredTargets(e);
    StoreOverlays(m, writes);
    StoreOverlays(n, writes);
    if e.action != "off" {
      OverlayAlike(m, n, Store(map[], writes));
    }
  }

  lemma OverlayAlike(m: Values, n: Values, over: Values)
    requires SameElsewhere(m, n) && over.Keys == ACTION_IDS
    ensures m + over == n + over
  {
    forall p
      ensures p in m + over <==> p in n + over
      ensures p in m + over ==> (m + over)[p] == (n + over)[p]
    {
      if p !in ACTION_IDS {
        assert p in m <==> p in m - ACTION_IDS;
        assert p in n <==> p in n - ACTION_IDS;
        assert p in m ==> m[p] == (m - ACTION_IDS)[p] == (n - ACTION_IDS)[p] == n[p];
      }
    }
  }

  /** A fire over the wire touches nothing else, and one that succeeds leaves the whole action. */
  lemma FireLeaves(d: Device, id: Bytes, pwd: Bytes, e: Entry, dials: bool, fates: seq<seq<Fate>>)
    requires Peers(d, id, pwd) && ValidEntry(e) && |fates| == 3 && forall i :: 0 <= i < 3 ==> fates[i] != []
    ensures var (outcome, d') := FireOverWire(d, id, pwd, e, dials, fates);
            && d' == d.(values := d'.values) && SameElsewhere(d.values, d'.values)
            && (outcome.Succeeded? ==> d'.values == Fired(d.values, e))
  {
    hide SendPackets, Packets, Applied, SameElsewhere;
    NothingElsewhere(d.values);
    if dials {
      PacketsFit(e);
      var used := fates[..|Packets(e)|];
      var landed := ActionOverWire(d, id, pwd, e, used);
      AppliedElsewhere(d.values, e, landed);
    }
  }

  /**
   A device that refuses the password ends a fire as an authentication failure,
   which installs no retry, as soon as one attempt of the first packet gets
   through; a device that cannot be dialled ends it as a transient one.
   */
  lemma RefusedFire(d: Device, id: Bytes, pwd: Bytes, e: Entry, fates: seq<seq<Fate>>, k: nat)
    requires Refusing(d, id, pwd) && ValidEntry(e) && |fates| == 3 && forall i :: 0 <= i < 3 ==> fates[i] != []
    requires k < |fates[0]| && fates[0][k].link.Delivered? && !fates[0][k].ctxDone
    requires forall i :: 0 <= i < k ==> NoContextEnd(fates[0][i]) && !fates[0][i].link.Delivered?
    ensures FireOverWire(d, id, pwd, e, true, fates) == (Outcome.Failed(FireError.AuthFailed), d)
    ensures FireOverWire(d, id, pwd, e, false, fates) == (Outcome.Failed(Transient), d)
  {
    hide Write, Refusing;
    RefusingPeers(d, id, pwd);
    PacketsFit(e);
    PacketsAreSimple(e);
    var p := Packets(e)[0];
    assert p in Packets(e);
    RefusedWrite(d, id, pwd, p, fates[0], k);
    assert fates[..|Packets(e)|][0] == fates[0];
  }

  lemma NothingElsewhere(m: Values)
    ensures SameElsewhere(m, m)
  {
  }

  // ---- runs ---------------------------------------------------------------------------------

  lemma TickOverWireLeaves(w: World, id: Bytes, pwd: Bytes, now: Instant, env: Env, dials: bool, fates: seq<seq<Fate>>)
    requires Fit(w, id, pwd) && |fates| == 3 && forall i :: 0 <= i < 3 ==> fates[i] != []
    ensures var t := TickOverWire(w, id, pwd, now, env, dials, fates);
            && t.d == w.d.(values := t.d.values) && SameElsewhere(w.d.values, t.d.values)
            && (var sent := Dispatched(w.s, now, env);
                sent.Some? ==>
                  && ValidEntry(sent.value)
                  && (t.s.history != w.s.history ==> t.d.values == Fired(w.d.values, sent.value)))
            && (Dispatched(w.s, now, env).None? ==> t.d == w.d && t.s.history == w.s.history)
  {
    hide Tick, FireOverWire, Sound, Fired, SameElsewhere, Dispatched;
    NothingElsewhere(w.d.values);
    DispatchedIsValid(w.s, now, env);
    var sent := Dispatched(w.s, now, env);
    if sent.None? {
      FiresExactlyWhatIsSent(w.s, now, env);
      assert w.s.history + [] == w.s.history;
    } else {
      var (outcome, d) := FireOverWire(w.d, id, pwd, sent.value, dials, fates);
      FireLeaves(w.d, id, pwd, sent.value, dials, fates);
      var env' := env.(outcome := outcome);
      FiresExactlyWhatIsSent(w.s, now, env');
      SameDispatch(w.s, now, env, outcome);
      assert w.s.history + [] == w.s.history;
    }
  }

  lemma SameDispatch(s: State, now: Instant, env: Env, outcome: Outcome)
    ensures Dispatched(s, now, env.(outcome := outcome)) == Dispatched(s, now, env)
  {
  }

  lemma DispatchedIsValid(s: State, now: Instant, env: Env)
    requires Sound(s)
    ensures Dispatched(s, now, env).Some? ==> ValidEntry(Dispatched(s, now, env).value)
  {
    hide Sound, DoAll, Latest, ValidEntry, HasNewer;
    var s1 := DoAll(s, env.afterSnapshot);
    DoAllKeepsSound(s, env.afterSnapshot);
    SoundFrame(s, 0, true);
    SoundFrame(s1, 0, true);
  }

  lemma ElsewhereChains(a: Values, b: Values, c: Values)
    requires SameElsewhere(a, b) && SameElsewhere(b, c)
    ensures SameElsewhere(a, c)
  {
  }

  /** Whatever is lost and whatever part-lands, a run changes no parameter outside the five of an action. */
  lemma {:induction false} RunTouchesOnlyActions(w: World, id: Bytes, pwd: Bytes, evs: seq<WireEvent>)
    requires Fit(w, id, pwd) && forall ev :: ev in evs ==> FatesGiven(ev)
    ensures var t := WireRun(w, id, pwd, evs);
            t.d == w.d.(values := t.d.values) && SameElsewhere(w.d.values, t.d.values)
    decreases |evs|
  {
    hide TickOverWire, Sound, SameElsewhere, Step;
    NothingElsewhere(w.d.values);
    if evs == [] {
    } else {
      assert evs[0] in evs;
      var t := WireStep(w, id, pwd, evs[0]);
      match evs[0] {
        case WireTick(now, env, dials, fates) => TickOverWireLeaves(w, id, pwd, now, env, dials, fates);
        case Otherwise(ev) => OtherKeepsSound(w.s, ev);
      }
      RunTouchesOnlyActions(t, id, pwd, evs[1..]);
      ElsewhereChains(w.d.values, t.d.values, WireRun(w, id, pwd, evs).d.values);
    }
  }

  lemma OtherKeepsSound(s: State, ev: Event)
    requires Sound(s) && !ev.TickAt?
    ensures Sound(Step(s, ev))
  {
    hide Step, Sound;
    ReachableIsSound(s, [ev]);
    assert [ev][1..] == [];
    assert Run(s, [ev]) == Run(Step(s, ev), []);
  }

  /**
   After any run over the wire - fires lost, part-landed, retried, superseded or
   replaced - a tick whose fire succeeds leaves the very device that one clean
   fire of its entry would have left at the start; for "off", the same power
   and timer.
   */
  lemma SuccessfulFireIsClean(w: World, id: Bytes, pwd: Bytes, evs: seq<WireEvent>, last: WireEvent)
    requires Fit(w, id, pwd) && forall ev :: ev in evs ==> FatesGiven(ev)
    requires last.WireTick? && FatesGiven(last)
    ensures var before := WireRun(w, id, pwd, evs);
            var t := WireStep(before, id, pwd, last);
            var sent := Dispatched(before.s, last.now, last.env);
            t.s.history != before.s.history ==>
              && sent.Some? && ValidEntry(sent.value)
              && (sent.value.action != "off" ==> t.d == w.d.(values := Fired(w.d.values, sent.value)))
              && (forall p :: p in {POWER, TIMER} ==>
                    p in t.d.values && p in Fired(w.d.values, sent.value)
                    && t.d.values[p] == Fired(w.d.values, sent.value)[p])
  {
    hide WireRun, TickOverWire, Sound, SameElsewhere, Dispatched, Fired;
    RunTouchesOnlyActions(w, id, pwd, evs);
    var before := WireRun(w, id, pwd, evs);
    TickOverWireLeaves(before, id, pwd, last.now, last.env, last.dials, last.fates);
    var sent := Dispatched(before.s, last.now, last.env);
    if sent.Some? {
      FiredAlike(w.d.values, before.d.values, sent.value);
    }
  }
}
