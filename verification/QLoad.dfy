/** The QBSS load of an access point (ap/ap_qload.c): channel utilisation over a window of beacons, and the
    alarm on a channel that stays busy. */
module QLoad {
  const QBSS_LOAD_ALARM_DURATION: nat := 100
  const WORD: nat := 0x1_0000_0000
  const OCTET: nat := 256

  // ---- The alarm automaton ---------------------------------------------------------------------------

  /** QloadAlarmBusyNum and QloadAlarmDuration. */
  datatype Alarm = Alarm(busyNum: nat, duration: nat)

  /** One active update of the alarm: the automaton after it, and whether it fires. */
  function AlarmNext(a: Alarm, over: bool, threshold: nat): (Alarm, bool) {
    var busy := if !over then 0 else if a.duration == 0 then (a.busyNum + 1) % OCTET else a.busyNum;
    var fires := over && a.duration == 0 && busy >= threshold;
    var started := if fires then a.duration + 1 else a.duration;
    if started == 0 then (Alarm(busy, 0), fires)
    else
      var lasting := (started + 1) % OCTET;
      (if lasting >= QBSS_LOAD_ALARM_DURATION then Alarm(0, 0) else Alarm(busy, lasting), fires)
  }

  // ---- The utilisation meter ----------------------------------------------------------------------------

  /** QloadChanUtilTotal, QloadChanUtilBeaconCnt and QloadChanUtil. */
  datatype Meter = Meter(total: nat, count: nat, util: nat)

  /** The divisor of the utilisation: a full window in microseconds, as a 32-bit word. */
  function Window(interval: nat, period: nat): nat {
    interval * period * 1024 % WORD
  }

  /** Numerator, quotient and result in 32, 32 and 8 bits. */
  function Published(total: nat, window: nat): nat
    requires window > 0
  {
    (total * 255 % WORD) / window % OCTET
  }

  function MeterNext(m: Meter, reading: nat, interval: nat, window: nat): Meter
    requires window > 0
  {
    var total := (m.total + reading) % WORD;
    var count := (m.count + 1) % OCTET;
    if count >= interval then Meter(0, 0, Published(total, window))
    else Meter(total, count, m.util)
  }

  // ---- One update -----------------------------------------------------------------------------------------

  /** Fixed settings: the switch, the beacon period, the window, OS_HZ. */
  datatype Settings = Settings(enabled: bool, period: nat, interval: nat, hz: nat)

  ghost predicate Sound(cfg: Settings) {
    cfg.hz > 0 && 1 <= cfg.interval < OCTET && Window(cfg.interval, cfg.period) > 0
  }

  /** `percent` and `threshold` are the two settings of the alarm, `limit` is QloadBusyTimeThreshold, `wide` says
      whether the cell is 40 MHz wide. */
  datatype Load = Load(
    suspended: bool, wide: bool, upTimeLast: nat, periodLast: nat, percent: nat, threshold: nat, limit: nat,
    alarm: Alarm, meter: Meter, raised: bool, raisedNumber: nat)

  /** Up time, and the busy times of the secondary and the primary channel. */
  datatype Sample = Sample(upTime: nat, secondary: nat, primary: nat)

  /** QBSS_LoadAlarmBusyTimeThresholdReset. */
  function Limit(period: nat, percent: nat): nat {
    (period * percent % WORD / 100) * 1024 % WORD
  }

  /** The time since the last update, in milliseconds, when it can be told. */
  function Timed(s: Load, cfg: Settings, upTime: nat): Load
    requires cfg.hz > 0
  {
    if upTime > 0 && s.upTimeLast > 0 && upTime > s.upTimeLast then
      var period := ((upTime - s.upTimeLast) % WORD) * 1000 % WORD / cfg.hz;
      s.(limit := if period != s.periodLast then Limit(period, s.percent) else s.limit, periodLast := period,
         upTimeLast := upTime)
    else s.(upTimeLast := upTime)
  }

  predicate Over(s: Load, u: Sample) {
    s.percent > 0 && s.limit != 0 && ((s.wide && u.secondary >= s.limit) || u.primary >= s.limit)
  }

  /** QBSS_LoadAlarm: a wide cell becomes narrow and goes on; a narrow one waits for its channel switch. */
  function Raised(s: Load): Load {
    if s.wide then s.(raisedNumber := (s.raisedNumber + 1) % WORD, wide := false, raised := true, suspended := false)
    else s.(raisedNumber := (s.raisedNumber + 1) % WORD, suspended := true)
  }

  predicate Active(s: Load, cfg: Settings) {
    cfg.enabled && !s.suspended
  }

  /** QBSS_LoadUpdate. */
  function Update(s: Load, cfg: Settings, u: Sample): Load
    requires Sound(cfg)
  {
    if !Active(s, cfg) then s
    else
      var t := Timed(s, cfg, u.upTime);
      var m := t.(meter := MeterNext(t.meter, u.primary, cfg.interval, Window(cfg.interval, cfg.period)));
      if s.percent == 0 then m.(alarm := Alarm(0, 0), raised := false)
      else
        var (alarm, fires) := AlarmNext(t.alarm, Over(t, u), s.threshold);
        if fires then Raised(m.(alarm := alarm)) else m.(alarm := alarm)
  }

  /** QBSS_LoadStatusClear, at every channel switch and by command: the count of beacons stays. */
  function Cleared(s: Load): Load {
    s.(meter := s.meter.(total := 0), raised := false, alarm := s.alarm.(busyNum := 0))
  }

  /** A new percentage: QBSS_LoadAlarmReset, which keeps the count of busy updates. */
  function WithPercent(s: Load, cfg: Settings, percent: nat): Load {
    s.(percent := percent, raised := false, alarm := s.alarm.(duration := 0), raisedNumber := 0, suspended := false,
       limit := Limit(cfg.period, percent), periodLast := cfg.period)
  }

  class LoadMonitor {
    const cfg: Settings
    var suspended: bool
    var wide: bool
    var upTimeLast: nat
    var periodLast: nat
    var percent: nat
    var threshold: nat
    var limit: nat
    var alarm: Alarm
    var meter: Meter
    var raised: bool
    var raisedNumber: nat

    ghost function State(): Load
      reads this
    {
      Load(suspended, wide, upTimeLast, periodLast, percent, threshold, limit, alarm, meter, raised, raisedNumber)
    }

    method ResetLimit(timePeriod: nat)
      modifies this`limit
      ensures limit == Limit(timePeriod, percent)
    {
      limit := timePeriod * percent % WORD;
      limit := limit / 100;
      limit := limit * 1024 % WORD;
    }

    method TakeTime(upTime: nat)
      requires cfg.hz > 0
      modifies this`periodLast, this`limit, this`upTimeLast
      ensures State() == Timed(old(State()), cfg, upTime)
    {
      if upTime > 0 && upTimeLast > 0 && upTime > upTimeLast {
        var timePeriod := (upTime - upTimeLast) % WORD;
        timePeriod := timePeriod * 1000 % WORD / cfg.hz;
        if timePeriod != periodLast {
          ResetLimit(timePeriod);
        }
        periodLast := timePeriod;
      }
      upTimeLast := upTime;
    }

    method Accumulate(busyTime: nat)
      requires Sound(cfg)
      modifies this`meter
      ensures meter == MeterNext(old(meter), busyTime, cfg.interval, Window(cfg.interval, cfg.period))
    {
      var total := (meter.total + busyTime) % WORD;
      var count := (meter.count + 1) % OCTET;
      meter := Meter(total, count, meter.util);
      if count >= cfg.interval {
        var numerator := total * 255 % WORD;
        var denominator := Window(cfg.interval, cfg.period);
        meter := Meter(0, 0, numerator / denominator % OCTET);
      }
    }

    /** QBSS_LoadAlarm, for the station table apart. */
    method RaiseAlarm()
      modifies this`suspended, this`raisedNumber, this`wide, this`raised
      ensures State() == Raised(old(State()))
    {
      suspended := true;
      raisedNumber := (raisedNumber + 1) % WORD;
      if wide {
        wide := false;
        raised := true;
        suspended := false;
      }
    }

    method CheckAlarm(over: bool) returns (needed: bool)
      modifies this`alarm
      ensures (alarm, needed) == AlarmNext(old(alarm), over, threshold)
    {
      needed := false;
      if over {
        if alarm.duration == 0 {
          alarm := alarm.(busyNum := (alarm.busyNum + 1) % OCTET);
          if alarm.busyNum >= threshold {
            needed := true;
            alarm := alarm.(duration := alarm.duration + 1);
          }
        }
      } else {
        alarm := alarm.(busyNum := 0);
      }
      if alarm.duration > 0 {
        alarm := alarm.(duration := (alarm.duration + 1) % OCTET);
        if alarm.duration >= QBSS_LOAD_ALARM_DURATION {
          alarm := Alarm(0, 0);
        }
      }
    }

    /** QBSS_LoadUpdate. */
    method LoadUpdate(u: Sample)
      requires Sound(cfg)
      modifies this
      ensures State() == Update(old(State()), cfg, u)
    {
      if !cfg.enabled || suspended {
        return;
      }
      TakeTime(u.upTime);
      var over := false;
      if wide {
        if percent > 0 && limit != 0 && u.secondary >= limit {
          over := true;
        }
      }
      if percent > 0 && limit != 0 && u.primary >= limit {
        over := true;
      }
      Accumulate(u.primary);
      if percent > 0 {
        var needed := CheckAlarm(over);
        if needed {
          RaiseAlarm();
        }
      } else {
        alarm := Alarm(0, 0);
        raised := false;
      }
    }

    method StatusClear()
      modifies this`meter, this`raised, this`alarm
      ensures State() == Cleared(old(State()))
    {
      meter := meter.(total := 0);
      raised := false;
      alarm := alarm.(busyNum := 0);
    }

    method AlarmResume()
      modifies this`suspended
      ensures State() == old(State()).(suspended := false)
    {
      suspended := false;
    }

    method AlarmReset()
      modifies this`raised, this`alarm, this`raisedNumber, this`suspended, this`limit
      ensures State() == WithPercent(old(State()), cfg, percent).(periodLast := periodLast)
    {
      raised := false;
      alarm := alarm.(duration := 0);
      raisedNumber := 0;
      suspended := false;
      ResetLimit(cfg.period);
    }

    /** Set_QloadAlarmTimeThreshold_Proc, for the octet read from its argument. */
    method SetAlarmTimeThreshold(value: nat)
      modifies this
      ensures State() == WithPercent(old(State()), cfg, value)
    {
      percent := value;
      AlarmReset();
      periodLast := cfg.period;
    }

    /** QBSS_LoadIsAlarmIssued. */
    method IsAlarmIssued() returns (issued: bool)
      modifies this`raised
      ensures issued == old(raised) && State() == old(State()).(raised := false)
    {
      issued := raised;
      raised := false;
    }
  }

  // ---- Runs of the monitor ----------------------------------------------------------------------------

  /** What happens to the monitor: updates; the clear, the new width and the resumption of a channel switch,
      each on its own; the two commands of the alarm; the flag being read. */
  datatype Event =
    | EUpdate(u: Sample)
    | EClear
    | EWidth(wide: bool)
    | EResume
    | EPercent(percent: nat)
    | EThreshold(threshold: nat)
    | EIssued

  predicate Enabled(e: Event) {
    (e.EPercent? ==> e.percent < OCTET) && (e.EThreshold? ==> e.threshold < OCTET)
  }

  function Step(s: Load, cfg: Settings, e: Event): Load
    requires Sound(cfg)
  {
    match e
    case EUpdate(u) => Update(s, cfg, u)
    case EClear => Cleared(s)
    case EWidth(wide) => s.(wide := wide)
    case EResume => s.(suspended := false)
    case EPercent(percent) => WithPercent(s, cfg, percent)
    case EThreshold(threshold) => s.(threshold := threshold)
    case EIssued => s.(raised := false)
  }

  function Run(s: Load, cfg: Settings, es: seq<Event>): Load
    requires Sound(cfg)
  {
    if es == [] then s else Step(Run(s, cfg, es[..|es| - 1]), cfg, es[|es| - 1])
  }
}
