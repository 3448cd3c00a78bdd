/** One device's energy account: what a poll's values are worth, and the tracker's ticks, saves and loads as values. */
module Energy {
  import opened Wrappers
  import opened Params
  import opened FanCurve

  // ---- decoding the values of a poll -----------------------------------------------------------

  function Uint8At(values: Values, id: ParamID): Option<int> {
    if id in values && |values[id]| == 1 then Some(values[id][0]) else None
  }

  /** Two bytes, low byte first. */
  function Uint16At(values: Values, id: ParamID): Option<int> {
    if id in values && |values[id]| == 2 then
      var lo: int, hi: int := values[id][0], values[id][1];
      Some(lo + 0x100 * hi)
    else None
  }

  /** Two bytes, low byte first, in two's complement. */
  function Int16At(values: Values, id: ParamID): Option<int> {
    match Uint16At(values, id)
    case None => None
    case Some(v) => Some(if v >= 0x8000 then v - 0x1_0000 else v)
  }

  /** The speed parameter a fan follows in each speed mode. */
  function FanSource(mode: int, supply: bool): Option<ParamID> {
    if mode == 0xFF then Some(0x44)
    else if mode == 1 then Some(if supply then 0x3A else 0x3B)
    else if mode == 2 then Some(if supply then 0x3C else 0x3D)
    else if mode == 3 then Some(if supply then 0x3E else 0x3F)
    else None
  }

  function CommandedFanPct(values: Values, supply: bool): Option<int> {
    match Uint8At(values, 0x02)
    case None => None
    case Some(mode) =>
      match FanSource(mode, supply)
      case None => None
      case Some(id) => Uint8At(values, id)
  }

  /** Tenths of a degree; a reading of a thousand degrees or more either way is a missing sensor. */
  function ReadTempC(values: Values, id: ParamID): Option<real> {
    match Int16At(values, id)
    case None => None
    case Some(v) => if v >= 10000 || v <= -10000 then None else Some(v as real / 10.0)
  }

  datatype Trouble = NoTrouble | TypeNotRead | Unsupported(unitType: int)

  /** What one poll says: a calibration problem, nothing to count, or powers to count. */
  datatype Reading = Bad(trouble: Trouble) | Idle | Regenerating(recovered: real, consumed: real)

  /** The two powers while the unit regenerates with every input readable. */
  function Powers(values: Values, unitType: int): Reading
    requires unitType in MODEL_CURVES
  {
    var supplyPct, extractPct := CommandedFanPct(values, true), CommandedFanPct(values, false);
    var supplyC, outdoorC := ReadTempC(values, 0x20), ReadTempC(values, 0x1F);
    if supplyPct.None? || extractPct.None? || supplyC.None? || outdoorC.None? then Idle
    else
      var w := ComputeWatts(unitType, (supplyPct.value + extractPct.value) / 2, supplyC.value - outdoorC.value).value;
      Regenerating(w, ComputeFanWatts(unitType, supplyPct.value).value
                   + ComputeFanWatts(unitType, extractPct.value).value)
  }

  function Assess(values: Values): Reading {
    match Uint16At(values, 0xB9)
    case None => Bad(TypeNotRead)
    case Some(unitType) =>
      if unitType !in MODEL_CURVES then Bad(Unsupported(unitType))
      else if Uint8At(values, 0xB7) != Some(1) || Uint8At(values, 0x01) != Some(1) then Idle
      else Powers(values, unitType)
  }

  /** Both fans together never draw a negative power nor more than twice the top draw of one. */
  lemma ConsumedBounded(values: Values)
    requires Assess(values).Regenerating?
    ensures 0.0 <= Assess(values).consumed <= 2.0 * TOP_DRAW
  {
    var unitType := Uint16At(values, 0xB9).value;
    var s, e := CommandedFanPct(values, true).value, CommandedFanPct(values, false).value;
    FanWattsBounded(unitType, s, s);
    FanWattsBounded(unitType, e, e);
  }

  /** Power is counted only when the unit is on, regenerating, calibrated, and every sensor answers. */
  lemma CountsOnlyWhileRegenerating(values: Values)
    ensures Assess(values).Regenerating? <==>
            && Uint16At(values, 0xB9).Some? && Uint16At(values, 0xB9).value in MODEL_CURVES
            && values.Keys >= {0x01, 0xB7} && values[0x01] == [1] && values[0xB7] == [1]
            && CommandedFanPct(values, true).Some? && CommandedFanPct(values, false).Some?
            && ReadTempC(values, 0x20).Some? && ReadTempC(values, 0x1F).Some?
  {
    assert 0x01 in values && values[0x01] == [1] <==> Uint8At(values, 0x01) == Some(1);
    assert 0xB7 in values && values[0xB7] == [1] <==> Uint8At(values, 0xB7) == Some(1);
  }

  /** A fan's percentage is the one byte at the parameter the speed mode selects. */
  lemma FanFollowsMode(values: Values, supply: bool, pct: int)
    ensures CommandedFanPct(values, supply) == Some(pct) <==>
            && 0x02 in values && |values[0x02]| == 1
            && var mode := values[0x02][0];
            && (mode == 0xFF || 1 <= mode <= 3)
            && var id := if mode == 0xFF then 0x44 else if supply then 0x38 + 2 * mode else 0x39 + 2 * mode;
            && id in values && |values[id]| == 1 && values[id][0] == pct
  {
  }

  /** A temperature is two bytes, low byte first, in two's complement tenths, unless a thousand degrees or more away. */
  lemma TemperatureIs(values: Values, id: ParamID, c: real)
    ensures ReadTempC(values, id) == Some(c) <==>
            && id in values && |values[id]| == 2
            && var lo: int, hi: int := values[id][0], values[id][1];
            && var tenths := if hi < 0x80 then lo + 256 * hi else lo + 256 * (hi - 256);
            && -10000 < tenths < 10000 && c * 10.0 == tenths as real
  {
  }

  /**
   Two polls worked out: at 50 % with supply 20.0 and outdoor 10.0 degrees the
   unit recovers 335 W and draws 18 W; with preset 3 at 70 % and 100 % it
   recovers 475.7 W and draws 36.2 W.
   */
  lemma WorkedReadings(values: Values)
    requires values.Keys >= {0xB9, 0xB7, 0x01, 0x02, 0x44, 0x3E, 0x3F, 0x20, 0x1F}
    requires values[0xB9] == [17, 0] && values[0xB7] == [1] && values[0x01] == [1]
    requires values[0x20] == [200, 0] && values[0x1F] == [100, 0]
    requires values[0x44] == [50] && values[0x3E] == [70] && values[0x3F] == [100]
    ensures values[0x02] == [0xFF] ==> Assess(values) == Regenerating(335.0, 18.0)
    ensures values[0x02] == [3] ==> Assess(values) == Regenerating(475.7, 36.2)
  {
    hide ComputeWatts, ComputeFanWatts;
    CalibratedModelIs(17, 50, 10.0);
    CalibratedModelIs(17, 70, 10.0);
    CalibratedModelIs(17, 85, 10.0);
    CalibratedModelIs(17, 100, 10.0);
  }

  /** A poll that counts is worth what its two fan percentages and two temperatures say, for the calibrated model. */
  lemma ReadingIs(values: Values, s: int, e: int, supplyC: real, outdoorC: real)
    requires Assess(values).Regenerating?
    requires CommandedFanPct(values, true) == Some(s) && CommandedFanPct(values, false) == Some(e)
    requires ReadTempC(values, 0x20) == Some(supplyC) && ReadTempC(values, 0x1F) == Some(outdoorC)
    ensures Assess(values).recovered == Elite160Airflow((s + e) / 2) * 0.335 * (supplyC - outdoorC)
    ensures Assess(values).consumed == Elite160Draw(s) + Elite160Draw(e)
  {
    hide ComputeWatts, ComputeFanWatts, CommandedFanPct, ReadTempC, Elite160Airflow, Elite160Draw;
    var unitType := Uint16At(values, 0xB9).value;
    CalibratedModelIs(unitType, (s + e) / 2, supplyC - outdoorC);
    CalibratedModelIs(unitType, s, 0.0);
    CalibratedModelIs(unitType, e, 0.0);
  }

  /** A unit is in trouble exactly when its two-byte type was not read or is not 17, the one calibrated. */
  lemma TroubleIs(values: Values, n: int)
    ensures Assess(values) == Bad(TypeNotRead) <==> 0xB9 !in values || |values[0xB9]| != 2
    ensures Assess(values) == Bad(Unsupported(n)) <==>
            && 0xB9 in values && |values[0xB9]| == 2
            && n != 17 && n == values[0xB9][0] as int + 256 * values[0xB9][1] as int
  {
    CalibratedModelIs(n, 0, 0.0);
    if Uint16At(values, 0xB9).Some? {
      CalibratedModelIs(Uint16At(values, 0xB9).value, 0, 0.0);
    }
  }

  // ---- the account ---------------------------------------------------------------------------------

  /** A local calendar day; the month is numbered through the years. */
  datatype Date = Date(month: int, day: int)

  /** A point in time with the local date it falls on. */
  datatype Moment = Moment(secs: real, date: Date)

  /** Kilowatt-hours over three nested horizons. */
  datatype Counter = Counter(today: real, month: real, lifetime: real)

  const ZERO := Counter(0.0, 0.0, 0.0)

  datatype Counters = Counters(heating: Counter, cooling: Counter, consumed: Counter)

  const NOTHING := Counters(ZERO, ZERO, ZERO)

  /** The state file. */
  datatype Saved = Saved(counters: Counters, today: Option<Date>, monthStart: Option<int>)

  datatype Tracker = Tracker(counters: Counters, instantW: real, consumedW: real, today: Option<Date>,
                             monthStart: Option<int>, lastTick: Option<real>, trouble: Trouble)

  const NEW := Tracker(NOTHING, 0.0, 0.0, None, None, None, NoTrouble)

  const DT_CAP: real := 300.0

  const JOULES_PER_KWH: real := 3600000.0

  function Add(c: Counter, delta: real): Counter { Counter(c.today + delta, c.month + delta, c.lifetime + delta) }

  function ClearDay(c: Counter): Counter { c.(today := 0.0) }

  function ClearMonth(c: Counter): Counter { c.(month := 0.0) }

  function ClearDays(cs: Counters): Counters {
    Counters(ClearDay(cs.heating), ClearDay(cs.cooling), ClearDay(cs.consumed))
  }

  function ClearMonths(cs: Counters): Counters {
    Counters(ClearMonth(cs.heating), ClearMonth(cs.cooling), ClearMonth(cs.consumed))
  }

  function Snap(t: Tracker): Saved { Saved(t.counters, t.today, t.monthStart) }

  /** The first of a tick's three parts: a new local date. */
  function RollDay(t: Tracker, now: Moment): Tracker {
    if t.today == Some(now.date) then t
    else t.(counters := ClearDays(t.counters), today := Some(now.date), lastTick := None)
  }

  /** The second: a new local month. */
  function RollMonth(t: Tracker, now: Moment): Tracker {
    if t.monthStart == Some(now.date.month) then t
    else t.(counters := ClearMonths(t.counters), monthStart := Some(now.date.month))
  }

  /** The seconds a tick may count: capped, and none on the first tick or when the clock ran backwards. */
  function Interval(prev: Option<real>, now: real): real {
    if prev.None? || now < prev.value then 0.0 else if now - prev.value > DT_CAP then DT_CAP else now - prev.value
  }

  function KilowattHours(watts: real, seconds: real): real { watts * seconds / JOULES_PER_KWH }

  function Credit(cs: Counters, recovered: real, consumed: real, seconds: real): Counters {
    Counters(if recovered > 0.0 then Add(cs.heating, KilowattHours(recovered, seconds)) else cs.heating,
             if recovered < 0.0 then Add(cs.cooling, KilowattHours(-recovered, seconds)) else cs.cooling,
             Add(cs.consumed, KilowattHours(consumed, seconds)))
  }

  /** What the values are worth over an interval. */
  function Counted(t: Tracker, values: Values, seconds: real): Tracker {
    match Assess(values)
    case Bad(trouble) => t.(trouble := trouble, instantW := 0.0, consumedW := 0.0)
    case Idle => t.(trouble := NoTrouble, instantW := 0.0, consumedW := 0.0)
    case Regenerating(w, c) =>
      t.(trouble := NoTrouble, instantW := w, consumedW := c, counters := Credit(t.counters, w, c, seconds))
  }

  /** The third: count the values over the time since the last tick. */
  function Accrue(t: Tracker, values: Values, now: Moment): Tracker {
    var u := t.(lastTick := Some(now.secs));
    if t.lastTick.None? || now.secs < t.lastTick.value then u
    else Counted(u, values, Interval(t.lastTick, now.secs))
  }

  /** Whether the third part reaches its save. */
  predicate Accrues(t: Tracker, values: Values, now: Moment) {
    t.lastTick.Some? && t.lastTick.value <= now.secs && Assess(values).Regenerating?
  }

  /** Which of a tick's three saves reach the disk. */
  datatype Saves = Saves(day: bool, month: bool, end: bool)

  function Ticked(t: Tracker, values: Values, now: Moment): Tracker {
    Accrue(RollMonth(RollDay(t, now), now), values, now)
  }

  /**
   One tick's gain in plain numbers. On the date of the last tick, unless the
   clock ran backwards, both powers count for the seconds since then, at most
   300, at 3.6 million joules to the kilowatt-hour: the consumed power always,
   the recovered one as heating or, negated, as cooling. A new date first
   zeroes the day, a new month the month.
   */
  lemma TickGain(t: Tracker, values: Values, now: Moment, w: real, c: real)
    requires Assess(values) == Regenerating(w, c)
    ensures var u := Ticked(t, values, now);
            var sameDay, sameMonth := t.today == Some(now.date), t.monthStart == Some(now.date.month);
            var counts := sameDay && t.lastTick.Some? && 0.0 <= now.secs - t.lastTick.value;
            var dt := if !counts then 0.0
                      else if now.secs - t.lastTick.value <= 300.0 then now.secs - t.lastTick.value else 300.0;
            var used, heat := c * dt / 3600000.0, w * dt / 3600000.0;
            var warmed, cooled := if w > 0.0 then heat else 0.0, if w < 0.0 then -heat else 0.0;
            && u.counters.consumed == Counter((if sameDay then t.counters.consumed.today else 0.0) + used,
                                              (if sameMonth then t.counters.consumed.month else 0.0) + used,
                                              t.counters.consumed.lifetime + used)
            && u.counters.heating == Counter((if sameDay then t.counters.heating.today else 0.0) + warmed,
                                             (if sameMonth then t.counters.heating.month else 0.0) + warmed,
                                             t.counters.heating.lifetime + warmed)
            && u.counters.cooling == Counter((if sameDay then t.counters.cooling.today else 0.0) + cooled,
                                             (if sameMonth then t.counters.cooling.month else 0.0) + cooled,
                                             t.counters.cooling.lifetime + cooled)
            && (counts ==> u.instantW == w && u.consumedW == c && u.trouble == NoTrouble)
            && u.lastTick == Some(now.secs) && u.today == Some(now.date) && u.monthStart == Some(now.date.month)
  {
    hide Assess, Credit;
    var v := RollMonth(RollDay(t, now), now);
    CreditIs(v.counters, w, c, Interval(v.lastTick, now.secs));
  }

  lemma CreditIs(cs: Counters, w: real, c: real, dt: real)
    ensures var u := Credit(cs, w, c, dt);
            var used, heat := c * dt / 3600000.0, w * dt / 3600000.0;
            var warmed, cooled := if w > 0.0 then heat else 0.0, if w < 0.0 then -heat else 0.0;
            && u.consumed == Counter(cs.consumed.today + used, cs.consumed.month + used, cs.consumed.lifetime + used)
            && u.heating == Counter(cs.heating.today + warmed, cs.heating.month + warmed,
                                    cs.heating.lifetime + warmed)
            && u.cooling == Counter(cs.cooling.today + cooled, cs.cooling.month + cooled,
                                    cs.cooling.lifetime + cooled)
  {
    hide KilowattHours;
    KwhIs(c, dt);
    KwhIs(w, dt);
  }

  lemma KwhIs(watts: real, seconds: real)
    ensures KilowattHours(watts, seconds) == watts * seconds / 3600000.0
    ensures KilowattHours(-watts, seconds) == -(watts * seconds / 3600000.0)
    ensures KilowattHours(watts, 0.0) == 0.0
  {
  }

  /** A poll that does not count adds nothing; the powers shown drop to zero if the tick gets as far as reading it. */
  lemma TickWithoutPower(t: Tracker, values: Values, now: Moment)
    requires !Assess(values).Regenerating?
    ensures var u := Ticked(t, values, now);
            var sameDay, sameMonth := t.today == Some(now.date), t.monthStart == Some(now.date.month);
            && u.counters.consumed == Counter(if sameDay then t.counters.consumed.today else 0.0,
                                              if sameMonth then t.counters.consumed.month else 0.0,
                                              t.counters.consumed.lifetime)
            && u.counters.heating == Counter(if sameDay then t.counters.heating.today else 0.0,
                                             if sameMonth then t.counters.heating.month else 0.0,
                                             t.counters.heating.lifetime)
            && u.counters.cooling == Counter(if sameDay then t.counters.cooling.today else 0.0,
                                             if sameMonth then t.counters.cooling.month else 0.0,
                                             t.counters.cooling.lifetime)
            && (sameDay && t.lastTick.Some? && t.lastTick.value <= now.secs ==>
                  && u.instantW == 0.0 && u.consumedW == 0.0
                  && u.trouble == if Assess(values).Bad? then Assess(values).trouble else NoTrouble)
            && u.lastTick == Some(now.secs) && u.today == Some(now.date) && u.monthStart == Some(now.date.month)
  {
    hide Assess, KilowattHours;
  }

  function TickedDisk(t: Tracker, disk: Option<Saved>, values: Values, now: Moment, saves: Saves): Option<Saved> {
    var u := RollDay(t, now);
    var d1 := if t.today != Some(now.date) && saves.day then Some(Snap(u)) else disk;
    var v := RollMonth(u, now);
    var d2 := if u.monthStart != Some(now.date.month) && saves.month then Some(Snap(v)) else d1;
    if Accrues(v, values, now) && saves.end then Some(Snap(Accrue(v, values, now))) else d2
  }

  /**
   A tracker after it loads the state file, `None` when that is missing or
   unreadable. The clock is read once for the day and again for the month.
   */
  function Loaded(t: Tracker, file: Option<Saved>, forDay: Moment, forMonth: Moment): Tracker {
    match file
    case None => t.(today := Some(forDay.date), lastTick := None)
    case Some(p) =>
      var cs := if p.today == Some(forDay.date) then p.counters else ClearDays(p.counters);
      var ds := if p.monthStart == Some(forMonth.date.month) then cs else ClearMonths(cs);
      t.(counters := ds, today := Some(forDay.date), monthStart := Some(forMonth.date.month), lastTick := None)
  }
}
