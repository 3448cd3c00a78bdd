/** The energy tracker of one device, with the state file it reads and writes. */
module EnergyTracking {
  import opened Wrappers
  import opened Params
  import opened FanCurve
  import opened Energy

  class EnergyTracker {
    var heating: Counter
    var cooling: Counter
    var consumed: Counter
    var instantW: real
    var consumedW: real
    var today: Option<Date>
    var monthStart: Option<int>
    var lastTick: Option<real>
    var trouble: Trouble
    /** The state file; `None` when missing or unreadable. */
    var disk: Option<Saved>

    function State(): Tracker
      reads this
    {
      Tracker(Counters(heating, cooling, consumed), instantW, consumedW, today, monthStart, lastTick, trouble)
    }

    constructor (disk: Option<Saved>)
      ensures State() == NEW && this.disk == disk
    {
      heating, cooling, consumed := ZERO, ZERO, ZERO;
      instantW, consumedW := 0.0, 0.0;
      today, monthStart, lastTick, trouble := None, None, None, NoTrouble;
      this.disk := disk;
    }

    method Load(forDay: Moment, forMonth: Moment)
      modifies this
      ensures State() == Loaded(old(State()), disk, forDay, forMonth) && disk == old(disk)
      ensures disk.Some? ==>
                var p := disk.value;
                var sameDay, sameMonth := p.today == Some(forDay.date), p.monthStart == Some(forMonth.date.month);
                && heating == Counter(if sameDay then p.counters.heating.today else 0.0,
                                      if sameMonth then p.counters.heating.month else 0.0, p.counters.heating.lifetime)
                && cooling == Counter(if sameDay then p.counters.cooling.today else 0.0,
                                      if sameMonth then p.counters.cooling.month else 0.0, p.counters.cooling.lifetime)
                && consumed == Counter(if sameDay then p.counters.consumed.today else 0.0,
                                       if sameMonth then p.counters.consumed.month else 0.0,
                                       p.counters.consumed.lifetime)
                && monthStart == Some(forMonth.date.month)
      ensures disk.None? ==>
                heating == old(heating) && cooling == old(cooling) && consumed == old(consumed)
                && monthStart == old(monthStart)
      ensures today == Some(forDay.date) && lastTick.None?
      ensures instantW == old(instantW) && consumedW == old(consumedW) && trouble == old(trouble)
    {
      if disk.None? {
        today := Some(forDay.date);
        lastTick := None;
        return;
      }
      var p := disk.value;
      heating := heating.(lifetime := p.counters.heating.lifetime);
      cooling := cooling.(lifetime := p.counters.cooling.lifetime);
      consumed := consumed.(lifetime := p.counters.consumed.lifetime);
      if p.today == Some(forDay.date) {
        heating := heating.(today := p.counters.heating.today);
        cooling := cooling.(today := p.counters.cooling.today);
        consumed := consumed.(today := p.counters.consumed.today);
        today := p.today;
      } else {
        ZeroToday();
        today := Some(forDay.date);
      }
      if p.monthStart == Some(forMonth.date.month) {
        heating := heating.(month := p.counters.heating.month);
        cooling := cooling.(month := p.counters.cooling.month);
        consumed := consumed.(month := p.counters.consumed.month);
        monthStart := p.monthStart;
      } else {
        ZeroMonth();
        monthStart := Some(forMonth.date.month);
      }
      lastTick := None;
    }

    method ZeroToday()
      modifies this`heating, this`cooling, this`consumed
      ensures Counters(heating, cooling, consumed) == ClearDays(old(Counters(heating, cooling, consumed)))
    {
      heating, cooling, consumed := heating.(today := 0.0), cooling.(today := 0.0), consumed.(today := 0.0);
    }

    method ZeroMonth()
      modifies this`heating, this`cooling, this`consumed
      ensures Counters(heating, cooling, consumed) == ClearMonths(old(Counters(heating, cooling, consumed)))
    {
      heating, cooling, consumed := heating.(month := 0.0), cooling.(month := 0.0), consumed.(month := 0.0);
    }

    method Save(reaches: bool)
      modifies this`disk
      ensures disk == if reaches then Some(Snap(State())) else old(disk)
    {
      if reaches {
        disk := Some(Saved(Counters(heating, cooling, consumed), today, monthStart));
      }
    }

    method Tick(values: Values, now: Moment, saves: Saves)
      modifies this
      ensures State() == Ticked(old(State()), values, now)
      ensures disk == TickedDisk(old(State()), old(disk), values, now, saves)
    {
      hide Accrue, Accrues;
      if today != Some(now.date) {
        ZeroToday();
        today := Some(now.date);
        lastTick := None;
        Save(saves.day);
      }
      if monthStart != Some(now.date.month) {
        ZeroMonth();
        monthStart := Some(now.date.month);
        Save(saves.month);
      }
      Accumulate(values, now, saves.end);
    }

    method Accumulate(values: Values, now: Moment, saved: bool)
      modifies this
      ensures State() == Accrue(old(State()), values, now)
      ensures disk == if Accrues(old(State()), values, now) && saved then Some(Snap(State())) else old(disk)
    {
      hide Assess, Counted;
      var prev := lastTick;
      lastTick := Some(now.secs);
      if prev.None? {
        return;
      }
      var dt := now.secs - prev.value;
      if dt < 0.0 {
        return;
      }
      if dt > DT_CAP {
        dt := DT_CAP;
      }
      Count(values, dt, saved);
    }

    method Count(values: Values, dt: real, saved: bool)
      modifies this
      ensures State() == Counted(old(State()), values, dt)
      ensures disk == if Assess(values).Regenerating? && saved then Some(Snap(State())) else old(disk)
    {
      hide ComputeWatts, ComputeFanWatts, CommandedFanPct, ReadTempC, Uint8At, Uint16At, KilowattHours;
      var unitType := Uint16At(values, 0xB9);
      if unitType.None? {
        trouble, instantW, consumedW := TypeNotRead, 0.0, 0.0;
        return;
      }
      if ComputeWatts(unitType.value, 0, 0.0).None? {
        trouble, instantW, consumedW := Unsupported(unitType.value), 0.0, 0.0;
        return;
      }
      trouble := NoTrouble;
      if Uint8At(values, 0xB7) != Some(1) || Uint8At(values, 0x01) != Some(1) {
        instantW, consumedW := 0.0, 0.0;
        return;
      }
      var supplyPct, extractPct := CommandedFanPct(values, true), CommandedFanPct(values, false);
      var supplyC, outdoorC := ReadTempC(values, 0x20), ReadTempC(values, 0x1F);
      if supplyPct.None? || extractPct.None? || supplyC.None? || outdoorC.None? {
        instantW, consumedW := 0.0, 0.0;
        return;
      }
      var avgPct := (supplyPct.value + extractPct.value) / 2;
      instantW := ComputeWatts(unitType.value, avgPct, supplyC.value - outdoorC.value).value;
      consumedW := ComputeFanWatts(unitType.value, supplyPct.value).value
                 + ComputeFanWatts(unitType.value, extractPct.value).value;
      AddEnergy(dt);
      Save(saved);
    }

    method AddEnergy(dt: real)
      modifies this`heating, this`cooling, this`consumed
      ensures Counters(heating, cooling, consumed)
           == Credit(old(Counters(heating, cooling, consumed)), instantW, consumedW, dt)
    {
      hide KilowattHours;
      var deltaRecovered := KilowattHours(if instantW < 0.0 then -instantW else instantW, dt);
      var deltaConsumed := KilowattHours(consumedW, dt);
      if instantW > 0.0 {
        heating := Add(heating, deltaRecovered);
      } else if instantW < 0.0 {
        cooling := Add(cooling, deltaRecovered);
      }
      consumed := Add(consumed, deltaConsumed);
    }
  }
}
