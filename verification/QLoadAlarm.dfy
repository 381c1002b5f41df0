/** The alarm of the QBSS load over runs (ap/ap_qload.c): how far apart alarms are, whatever channel switches and
    commands come between. */
module QLoadAlarm {
  import opened QLoad

  // ---- Runs of the automaton --------------------------------------------------------------------------

  /** What moves the automaton: an active update under some threshold, a clear of its count, a reset of its
      duration. */
  datatype Beat = Tick(over: bool, threshold: nat) | Clear | Reset

  function BeatNext(a: Alarm, b: Beat): (Alarm, bool) {
    match b
    case Tick(over, threshold) => AlarmNext(a, over, threshold)
    case Clear => (a.(busyNum := 0), false)
    case Reset => (a.(duration := 0), false)
  }

  function After(beats: seq<Beat>): Alarm {
    if beats == [] then Alarm(0, 0) else BeatNext(After(beats[..|beats| - 1]), beats[|beats| - 1]).0
  }

  /** Does the alarm fire at beat k? */
  predicate FiresAt(beats: seq<Beat>, k: nat)
    requires k < |beats|
  {
    BeatNext(After(beats[..k]), beats[k]).1
  }

  /** The active updates among the beats. */
  function Ticks(beats: seq<Beat>): nat {
    if beats == [] then 0 else Ticks(beats[..|beats| - 1]) + if beats[|beats| - 1].Tick? then 1 else 0
  }

  /** The busy updates in a row at the end of the beats, since the last clear. */
  function Streak(beats: seq<Beat>): nat {
    if beats == [] then 0
    else
      match beats[|beats| - 1]
      case Tick(over, _) => if over then Streak(beats[..|beats| - 1]) + 1 else 0
      case Clear => 0
      case Reset => Streak(beats[..|beats| - 1])
  }

  /** The number of busy updates an alarm takes; a threshold of zero acts like one. */
  function Needed(threshold: nat): nat {
    if threshold == 0 then 1 else threshold
  }

  ghost predicate Octets(beats: seq<Beat>) {
    forall i | 0 <= i < |beats| && beats[i].Tick? :: beats[i].threshold < OCTET
  }

  ghost predicate IdleResets(beats: seq<Beat>) {
    forall i: nat | i < |beats| && beats[i].Reset? :: After(beats[..i]).duration == 0
  }

  /** The active updates from beat j on, up to beat n. */
  function Gap(beats: seq<Beat>, j: nat, n: nat): int
    requires j <= n <= |beats|
  {
    Ticks(beats[..n]) - Ticks(beats[..j])
  }

  /** What the automaton knows after n beats: idle, it has seen `busyNum` busy updates in a row, all after the
      last alarm died away; lasting, it counts the updates since the last alarm. */
  ghost predicate Knows(beats: seq<Beat>, n: nat)
    requires n <= |beats|
  {
    var a := After(beats[..n]);
    if a.duration == 0
    then && a.busyNum < OCTET - 1 && a.busyNum <= Streak(beats[..n])
         && (forall j: nat | j < n && FiresAt(beats, j) :: Gap(beats, j, n) >= 99 + a.busyNum)
    else && 2 <= a.duration < QBSS_LOAD_ALARM_DURATION
         && (forall j: nat | j < n && FiresAt(beats, j) :: Gap(beats, j, n) >= a.duration - 1)
  }

  lemma {:induction false} Knowing(beats: seq<Beat>, n: nat)
    requires n <= |beats| && Octets(beats) && IdleResets(beats)
    ensures Knows(beats, n)
  {
    if n > 0 {
      Knowing(beats, n - 1);
      assert beats[..n][..n - 1] == beats[..n - 1];
      KnowingStep(beats, n - 1);
    }
  }

  /** One beat from a known state. */
  lemma KnownBeat(a: Alarm, b: Beat)
    requires if a.duration == 0 then a.busyNum < OCTET - 1 else 2 <= a.duration < QBSS_LOAD_ALARM_DURATION
    requires (b.Tick? ==> b.threshold < OCTET) && (b.Reset? ==> a.duration == 0)
    ensures var (a', fires) := BeatNext(a, b);
            && (fires ==> b.Tick? && a.duration == 0 && a'.duration == 2)
            && (!fires && a.duration == 0 ==>
                && a'.duration == 0 && a'.busyNum < OCTET - 1
                && a'.busyNum == if b.Reset? then a.busyNum else if b.Tick? && b.over then a.busyNum + 1 else 0)
            && (a.duration > 0 ==>
                if b.Tick? && a.duration == QBSS_LOAD_ALARM_DURATION - 1 then a' == Alarm(0, 0)
                else a'.duration == a.duration + if b.Tick? then 1 else 0)
  {
  }

  lemma KnowingStep(beats: seq<Beat>, n: nat)
    requires n < |beats| && Octets(beats) && IdleResets(beats) && Knows(beats, n)
    requires beats[..n + 1][..n] == beats[..n]
    ensures Knows(beats, n + 1)
  {
    var a, a', b := After(beats[..n]), After(beats[..n + 1]), beats[n];
    KnownBeat(a, b);
    assert a' == BeatNext(a, b).0;
    assert Ticks(beats[..n + 1]) == Ticks(beats[..n]) + if b.Tick? then 1 else 0;
    forall j: nat | j < n + 1 && FiresAt(beats, j)
      ensures Gap(beats, j, n + 1) >= if a'.duration == 0 then 99 + a'.busyNum else a'.duration - 1
    {
    }
  }

  /** Whatever the thresholds, with clears anywhere and resets while no alarm lasts: an alarm fires only after
      its threshold's number of consecutive busy updates since the last clear, and only 98 more than that after
      every one before. */
  lemma AlarmsAreApart(beats: seq<Beat>, k: nat)
    requires k < |beats| && Octets(beats) && IdleResets(beats) && FiresAt(beats, k)
    ensures Streak(beats[..k + 1]) >= Needed(beats[k].threshold)
    ensures forall j: nat | j < k && FiresAt(beats, j) :: Gap(beats, j, k) >= 98 + Needed(beats[k].threshold)
  {
    Knowing(beats, k);
    assert beats[..k + 1][..k] == beats[..k];
  }

  /** The automaton fires at the first opportunity: idle for `Needed` busy updates in a row, it fires at the
      last of them. */
  lemma AlarmIsPrompt(beats: seq<Beat>, k: nat)
    requires k < |beats| && Octets(beats) && IdleResets(beats)
    ensures FiresAt(beats, k) <==>
            var a := After(beats[..k]);
            a.duration == 0 && beats[k].Tick? && beats[k].over && a.busyNum + 1 >= Needed(beats[k].threshold)
  {
    Knowing(beats, k);
  }

  // ---- Resets while an alarm lasts ----------------------------------------------------------------------

  ghost predicate Spaced(beats: seq<Beat>) {
    forall j: nat, k: nat | j < k < |beats| && FiresAt(beats, j) && FiresAt(beats, k) ::
      Gap(beats, j, k) >= 98 + Needed(beats[k].threshold)
  }

  /** An alarm lasts since an update that fired, resets or not. */
  ghost predicate Since(beats: seq<Beat>, j: nat) {
    j < |beats| && FiresAt(beats, j) && Gap(beats, j, |beats|) == After(beats).duration - 1
  }

  lemma Extended(beats: seq<Beat>, b: Beat)
    ensures After(beats + [b]) == BeatNext(After(beats), b).0
    ensures Ticks(beats + [b]) == Ticks(beats) + if b.Tick? then 1 else 0
  {
    assert (beats + [b])[..|beats|] == beats;
  }

  lemma SameStart(beats: seq<Beat>, all: seq<Beat>, j: nat)
    requires j < |beats| <= |all| && all[..|beats|] == beats
    ensures FiresAt(all, j) == FiresAt(beats, j) && Ticks(all[..j]) == Ticks(beats[..j])
    ensures Gap(beats, j, |beats|) == Ticks(beats) - Ticks(beats[..j])
  {
    assert all[..j] == beats[..j] && all[j] == beats[j] && beats[..|beats|] == beats;
  }

  lemma LastingBeat(a: Alarm, b: Beat)
    requires a.duration < QBSS_LOAD_ALARM_DURATION && BeatNext(a, b).0.duration > 0
    ensures BeatNext(a, b).1 ==> b.Tick? && BeatNext(a, b).0.duration == 2
    ensures !BeatNext(a, b).1 ==> a.duration > 0 && BeatNext(a, b).0.duration == a.duration + if b.Tick? then 1 else 0
    ensures BeatNext(a, b).0.duration < QBSS_LOAD_ALARM_DURATION
  {
  }

  lemma LastsSinceNext(beats: seq<Beat>, b: Beat, j: nat)
    requires After(beats + [b]).duration > 0 && After(beats).duration < QBSS_LOAD_ALARM_DURATION
    requires if BeatNext(After(beats), b).1 then j == |beats| else Since(beats, j)
    ensures Since(beats + [b], j)
  {
    var all := beats + [b];
    Extended(beats, b);
    LastingBeat(After(beats), b);
    assert all[..|beats|] == beats && all[..|all|] == all;
    if j < |beats| {
      SameStart(beats, all, j);
      SameStart(all, all, j);
    }
  }

  lemma {:induction false} LastsSince(beats: seq<Beat>)
    ensures var d := After(beats).duration;
            d == 0 || (2 <= d < QBSS_LOAD_ALARM_DURATION && exists j: nat :: Since(beats, j))
  {
    if beats != [] {
      var before, b := beats[..|beats| - 1], beats[|beats| - 1];
      assert beats == before + [b];
      LastsSince(before);
      Extended(before, b);
      if After(beats).duration > 0 {
        LastingBeat(After(before), b);
        if BeatNext(After(before), b).1 {
          LastsSinceNext(before, b, |before|);
        } else {
          var j: nat :| Since(before, j);
          LastsSinceNext(before, b, j);
        }
      }
    }
  }

  /** n busy updates in a row, under threshold t. */
  function Busy(n: nat, t: nat): (r: seq<Beat>)
    ensures |r| == n && forall i | 0 <= i < n :: r[i] == Tick(true, t)
  {
    if n == 0 then [] else Busy(n - 1, t) + [Tick(true, t)]
  }

  lemma AfterCut(beats: seq<Beat>)
    ensures After(beats + [Reset, Clear]) == Alarm(0, 0) && Ticks(beats + [Reset, Clear]) == Ticks(beats)
  {
    Extended(beats, Reset);
    Extended(beats + [Reset], Clear);
    assert beats + [Reset] + [Clear] == beats + [Reset, Clear];
  }

  /** n busy updates since the automaton is idle: below what is needed it counts, then it fires. */
  lemma BusyBeat(n: nat, t: nat)
    requires 0 < n <= Needed(t) && t < OCTET
    ensures n < Needed(t) ==> AlarmNext(Alarm(n - 1, 0), true, t) == (Alarm(n, 0), false)
    ensures n == Needed(t) ==> AlarmNext(Alarm(n - 1, 0), true, t).1
  {
  }

  lemma {:induction false} BusyCounts(beats: seq<Beat>, n: nat, t: nat)
    requires After(beats) == Alarm(0, 0) && n < Needed(t) && t < OCTET
    ensures After(beats + Busy(n, t)) == Alarm(n, 0) && Ticks(beats + Busy(n, t)) == Ticks(beats) + n
  {
    if n == 0 {
      assert beats + Busy(n, t) == beats;
    } else {
      BusyCounts(beats, n - 1, t);
      Extended(beats + Busy(n - 1, t), Tick(true, t));
      BusyBeat(n, t);
      assert beats + Busy(n, t) == beats + Busy(n - 1, t) + [Tick(true, t)];
    }
  }

  predicate Tail(beats: seq<Beat>, threshold: nat) {
    forall i | 0 <= i < |beats| :: beats[i] == Clear || (beats[i].Tick? && beats[i].threshold == threshold)
  }

  /** The continuation that shows it: a clear and `Needed` busy updates fire too early after a reset that cut
      an alarm short. */
  lemma EarlyAlarm(beats: seq<Beat>, j: nat, threshold: nat)
    requires Since(beats, j) && After(beats).duration < QBSS_LOAD_ALARM_DURATION && threshold < OCTET
    ensures !Spaced(beats + [Reset] + ([Clear] + Busy(Needed(threshold), threshold)))
  {
    var n := Needed(threshold);
    var all, q := beats + [Reset] + ([Clear] + Busy(n, threshold)), beats + [Reset, Clear];
    var k := |q| + n - 1;
    AfterCut(beats);
    BusyCounts(q, n - 1, threshold);
    BusyBeat(n, threshold);
    assert all[..k] == q + Busy(n - 1, threshold);
    assert all[k] == Tick(true, threshold);
    assert FiresAt(all, k);
    SameStart(beats, all, j);
    assert FiresAt(all, j) && Gap(all, j, k) == After(beats).duration - 1 + n - 1;
  }

  lemma IdleResetsNext(beats: seq<Beat>, b: Beat)
    requires IdleResets(beats) && (b.Reset? ==> After(beats).duration == 0)
    ensures IdleResets(beats + [b])
  {
    var all := beats + [b];
    forall i: nat | i < |all| && all[i].Reset? ensures After(all[..i]).duration == 0 {
      assert all[..i] == beats[..i];
      assert beats[..|beats|] == beats;
    }
  }

  lemma {:induction false} IdleBeforeTail(beats: seq<Beat>, tail: seq<Beat>, threshold: nat)
    requires Octets(beats) && IdleResets(beats) && Tail(tail, threshold) && threshold < OCTET
    ensures Octets(beats + tail) && IdleResets(beats + tail)
  {
    if tail == [] {
      assert beats + tail == beats;
    } else {
      var n := |tail| - 1;
      IdleBeforeTail(beats, tail[..n], threshold);
      IdleResetsNext(beats + tail[..n], tail[n]);
      assert beats + tail == beats + tail[..n] + [tail[n]];
    }
  }

  lemma IdleIsSpaced(beats: seq<Beat>)
    requires Octets(beats) && IdleResets(beats)
    ensures Spaced(beats)
  {
    forall j: nat, k: nat | j < k < |beats| && FiresAt(beats, j) && FiresAt(beats, k)
      ensures Gap(beats, j, k) >= 98 + Needed(beats[k].threshold)
    {
      AlarmsAreApart(beats, k);
    }
  }

  /** A reset keeps the alarms apart, whatever follows it, if and only if no alarm lasts at that moment. */
  lemma ResetKeepsSpacingExactly(beats: seq<Beat>, threshold: nat)
    requires Octets(beats) && IdleResets(beats) && threshold < OCTET
    ensures (forall tail | Tail(tail, threshold) :: Spaced(beats + [Reset] + tail)) <==> After(beats).duration == 0
  {
    if After(beats).duration == 0 {
      IdleResetsNext(beats, Reset);
      forall tail | Tail(tail, threshold) ensures Spaced(beats + [Reset] + tail) {
        IdleBeforeTail(beats + [Reset], tail, threshold);
        IdleIsSpaced(beats + [Reset] + tail);
      }
    } else {
      LastsSince(beats);
      var j: nat :| Since(beats, j);
      var tail := [Clear] + Busy(Needed(threshold), threshold);
      EarlyAlarm(beats, j, threshold);
      assert Tail(tail, threshold) && !Spaced(beats + [Reset] + tail);
    }
  }

  // ---- The alarm in runs of the monitor -----------------------------------------------------------------

  /** The beat an event is to the automaton; while the alarm is off an update only clears it. */
  function BeatOf(s: Load, cfg: Settings, e: Event): seq<Beat>
    requires Sound(cfg)
  {
    match e
    case EUpdate(u) =>
      if !Active(s, cfg) then [] else if s.percent == 0 then [Clear]
      else [Tick(Over(Timed(s, cfg, u.upTime), u), s.threshold)]
    case EClear => [Clear]
    case EPercent(_) => [Reset]
    case _ => []
  }

  function Beats(s: Load, cfg: Settings, es: seq<Event>): seq<Beat>
    requires Sound(cfg)
  {
    if es == [] then []
    else Beats(s, cfg, es[..|es| - 1]) + BeatOf(Run(s, cfg, es[..|es| - 1]), cfg, es[|es| - 1])
  }

  /** Does the monitor count a new alarm at this event? */
  predicate Alarms(s: Load, cfg: Settings, e: Event)
    requires Sound(cfg)
  {
    e.EUpdate? && Step(s, cfg, e).raisedNumber != s.raisedNumber
  }

  function Firings(s: Load, cfg: Settings, es: seq<Event>): (r: seq<bool>)
    requires Sound(cfg)
    ensures |r| == |Beats(s, cfg, es)|
  {
    if es == [] then []
    else
      var before := es[..|es| - 1];
      var t, e := Run(s, cfg, before), es[|es| - 1];
      Firings(s, cfg, before) + if BeatOf(t, cfg, e) == [] then [] else [Alarms(t, cfg, e)]
  }

  ghost predicate Follows(fires: seq<bool>, beats: seq<Beat>) {
    |fires| == |beats| && forall k: nat | k < |beats| :: fires[k] == FiresAt(beats, k)
  }

  lemma FollowsNext(fires: seq<bool>, beats: seq<Beat>, b: Beat)
    requires Follows(fires, beats)
    ensures var (a, fire) := BeatNext(After(beats), b);
            After(beats + [b]) == a && Follows(fires + [fire], beats + [b])
  {
    var all := beats + [b];
    assert all[..|beats|] == beats && all[|beats|] == b;
    forall k: nat | k < |beats| ensures FiresAt(all, k) == FiresAt(beats, k) {
      assert all[..k] == beats[..k];
    }
  }

  /** Off, the alarm does not last. */
  predicate OffIdle(s: Load) {
    (s.percent == 0 ==> s.alarm.duration == 0) && s.raisedNumber < WORD && s.threshold < OCTET
  }

  lemma StepIsBeat(s: Load, cfg: Settings, e: Event)
    requires Sound(cfg) && OffIdle(s) && Enabled(e)
    ensures OffIdle(Step(s, cfg, e)) && Octets(BeatOf(s, cfg, e)) && |BeatOf(s, cfg, e)| <= 1
    ensures var beat := BeatOf(s, cfg, e);
            if beat == [] then Step(s, cfg, e).alarm == s.alarm
            else BeatNext(s.alarm, beat[0]) == (Step(s, cfg, e).alarm, Alarms(s, cfg, e))
  {
  }

  ghost predicate Valid(s: Load, es: seq<Event>) {
    s.alarm == Alarm(0, 0) && OffIdle(s) && forall i | 0 <= i < |es| :: Enabled(es[i])
  }

  /** However updates, alarms, suspensions, channel switches and commands interleave, the alarm follows its
      automaton over the beats of the run, and the alarms counted are those it fires. */
  lemma {:induction false} RunFollowsAutomaton(s: Load, cfg: Settings, es: seq<Event>)
    requires Sound(cfg) && Valid(s, es)
    ensures OffIdle(Run(s, cfg, es)) && Octets(Beats(s, cfg, es))
    ensures Run(s, cfg, es).alarm == After(Beats(s, cfg, es))
    ensures Follows(Firings(s, cfg, es), Beats(s, cfg, es))
  {
    if es != [] {
      var before, e := es[..|es| - 1], es[|es| - 1];
      RunFollowsAutomaton(s, cfg, before);
      var t := Run(s, cfg, before);
      StepIsBeat(t, cfg, e);
      var beat := BeatOf(t, cfg, e);
      if beat == [] {
        assert Beats(s, cfg, es) == Beats(s, cfg, before) && Firings(s, cfg, es) == Firings(s, cfg, before);
      } else {
        assert beat == [beat[0]];
        FollowsNext(Firings(s, cfg, before), Beats(s, cfg, before), beat[0]);
      }
    }
  }

  /** Every command of a new percentage in the run came while no alarm lasted. */
  ghost predicate CommandsIdle(s: Load, cfg: Settings, es: seq<Event>)
    requires Sound(cfg)
  {
    forall i | 0 <= i < |es| && es[i].EPercent? :: Run(s, cfg, es[..i]).alarm.duration == 0
  }

  lemma {:induction false} CommandsAreResets(s: Load, cfg: Settings, es: seq<Event>)
    requires Sound(cfg) && Valid(s, es) && CommandsIdle(s, cfg, es)
    ensures IdleResets(Beats(s, cfg, es))
  {
    if es != [] {
      var n := |es| - 1;
      var before, e := es[..n], es[n];
      assert forall i | 0 <= i < n :: before[..i] == es[..i];
      CommandsAreResets(s, cfg, before);
      RunFollowsAutomaton(s, cfg, before);
      var beat := BeatOf(Run(s, cfg, before), cfg, e);
      if beat == [] {
        assert Beats(s, cfg, es) == Beats(s, cfg, before);
      } else {
        assert beat == [beat[0]];
        IdleResetsNext(Beats(s, cfg, before), beat[0]);
      }
    }
  }

  /** In every run whose commands of a new percentage come while no alarm lasts, an alarm at beat k needs its
      threshold's number of consecutive busy active updates since the last clear, and is at least 98 more active
      updates than that behind every alarm before. */
  lemma AlarmSpacing(s: Load, cfg: Settings, es: seq<Event>, k: nat)
    requires Sound(cfg) && Valid(s, es) && CommandsIdle(s, cfg, es)
    requires k < |Firings(s, cfg, es)| && Firings(s, cfg, es)[k]
    ensures var beats := Beats(s, cfg, es);
            && beats[k].Tick? && Streak(beats[..k + 1]) >= Needed(beats[k].threshold)
            && (forall j: nat | j < k && Firings(s, cfg, es)[j] :: Gap(beats, j, k) >= 98 + Needed(beats[k].threshold))
  {
    RunFollowsAutomaton(s, cfg, es);
    CommandsAreResets(s, cfg, es);
    AlarmsAreApart(Beats(s, cfg, es), k);
  }

  // ---- What the monitor sees and does ----------------------------------------------------------------

  /** The limit is the percentage of the time between the last two updates, in microseconds. */
  predicate LimitKept(s: Load) {
    s.limit == (s.periodLast * s.percent % 0x1_0000_0000 / 100) * 1024 % 0x1_0000_0000
  }

  lemma StepLimit(s: Load, cfg: Settings, e: Event)
    requires Sound(cfg) && LimitKept(s)
    ensures LimitKept(Step(s, cfg, e))
  {
  }

  /** Every run keeps the limit so. */
  lemma {:induction false} RunLimit(s: Load, cfg: Settings, es: seq<Event>)
    requires Sound(cfg) && LimitKept(s)
    ensures LimitKept(Run(s, cfg, es))
  {
    if es != [] {
      RunLimit(s, cfg, es[..|es| - 1]);
      StepLimit(Run(s, cfg, es[..|es| - 1]), cfg, es[|es| - 1]);
    }
  }

  /** The time since the last update in milliseconds, where both times are told and time went on; else the last one. */
  function Elapsed(s: Load, cfg: Settings, upTime: nat): nat
    requires cfg.hz > 0
  {
    if 0 < s.upTimeLast < upTime then (upTime - s.upTimeLast) % 0x1_0000_0000 * 1000 % 0x1_0000_0000 / cfg.hz
    else s.periodLast
  }

  /** The limit with the widths of the source. */
  function WordLimit(period: nat, percent: nat): nat {
    (period * percent % 0x1_0000_0000 / 100) * 1024 % 0x1_0000_0000
  }

  lemma LimitFits(period: nat, percent: nat, product: nat)
    requires product == period * percent < 419430400
    ensures WordLimit(period, percent) == product / 100 * 1024
  {
    SmallMod(product);
    SmallMod(product / 100 * 1024);
  }

  lemma SmallMod(n: nat)
    requires n < 0x1_0000_0000
    ensures n % 0x1_0000_0000 == n
  {
  }

  lemma BusyByLimit(s: Load, cfg: Settings, u: Sample, limit: nat)
    requires Sound(cfg) && LimitKept(s) && cfg.enabled && !s.suspended && s.percent > 0
    requires limit == WordLimit(Elapsed(s, cfg, u.upTime), s.percent)
    ensures var busy := limit > 0 && (u.primary >= limit || (s.wide && u.secondary >= limit));
            BeatOf(s, cfg, EUpdate(u)) == [Tick(busy, s.threshold)]
  {
    assert Timed(s, cfg, u.upTime).limit == limit;
  }

  /** When an update is busy: the primary channel, or in a wide cell the secondary, was busy for the percentage of the
      time elapsed or longer. A limit of zero, for a percentage of next to no time, is never reached. */
  lemma BusyOutcome(s: Load, cfg: Settings, u: Sample)
    requires Sound(cfg) && LimitKept(s) && cfg.enabled && !s.suspended && s.percent > 0
    requires Elapsed(s, cfg, u.upTime) * s.percent < 419430400
    ensures var limit := Elapsed(s, cfg, u.upTime) * s.percent / 100 * 1024;
            var busy := limit > 0 && (u.primary >= limit || (s.wide && u.secondary >= limit));
            BeatOf(s, cfg, EUpdate(u)) == [Tick(busy, s.threshold)]
  {
    var elapsed := Elapsed(s, cfg, u.upTime);
    LimitFits(elapsed, s.percent, elapsed * s.percent);
    BusyByLimit(s, cfg, u, WordLimit(elapsed, s.percent));
  }

  /** What an alarm does: a wide cell becomes narrow, says so, and is watched on; a narrow one is not watched until it
      is resumed. Every alarm is counted; an update without one changes none of this. */
  lemma AlarmOutcome(s: Load, cfg: Settings, u: Sample)
    requires Sound(cfg) && OffIdle(s)
    ensures var s', alarm := Update(s, cfg, u), Alarms(s, cfg, EUpdate(u));
            && s'.raisedNumber == (if alarm then (s.raisedNumber + 1) % 0x1_0000_0000 else s.raisedNumber)
            && s'.wide == (s.wide && !alarm)
            && (s'.suspended <==> s.suspended || (alarm && !s.wide))
            && (alarm && s.wide ==> s'.raised)
            && (s.suspended || !cfg.enabled ==> s' == s)
  {
  }

  lemma {:induction false} BusySplit(m: nat, n: nat, t: nat)
    ensures Busy(m + n, t) == Busy(m, t) + Busy(n, t)
  {
  }

  /** Busy updates behind some beats, up to one of them. */
  lemma BusyStretch(beats: seq<Beat>, all: seq<Beat>, n: nat, k: nat, t: nat, at: nat)
    requires k < n && all == beats + Busy(n, t) && at == |beats| + k
    ensures all[..at] == beats + Busy(k, t) && all[at] == Tick(true, t)
  {
    BusySplit(k, n - k, t);
  }

  /** While the alarm lasts a busy update moves it on; at 99 it is over. */
  lemma LastingTick(t: nat, d: nat)
    requires 0 < t < OCTET && 2 <= d < 100
    ensures AlarmNext(Alarm(t, d), true, t) == (if d == 99 then Alarm(0, 0) else Alarm(t, d + 1), false)
    ensures AlarmNext(Alarm(t - 1, 0), true, t) == (Alarm(t, 2), true)
  {
  }

  /** After the alarm the automaton counts every busy update, and is idle again after 98 more. */
  lemma {:induction false} LastsBusy(beats: seq<Beat>, t: nat, n: nat)
    requires After(beats) == Alarm(0, 0) && 0 < t < OCTET && n <= 98
    ensures After(beats + Busy(t + n, t)) == if n == 98 then Alarm(0, 0) else Alarm(t, 2 + n)
    decreases n
  {
    var before := beats + Busy(t + n - 1, t);
    assert beats + Busy(t + n, t) == before + [Tick(true, t)];
    Extended(before, Tick(true, t));
    if n == 0 {
      BusyCounts(beats, t - 1, t);
      LastingTick(t, 2);
    } else {
      LastsBusy(beats, t, n - 1);
      LastingTick(t, 1 + n);
    }
  }

  lemma FiresFrom(beats: seq<Beat>, k: nat, t: nat, before: seq<Beat>)
    requires k < |beats| && 0 < t < OCTET && beats[..k] == before && After(before) == Alarm(t - 1, 0) && beats[k] == Tick(true, t)
    ensures FiresAt(beats, k)
  {
    LastingTick(t, 2);
  }

  lemma Regroup(a: seq<Beat>, b: seq<Beat>, c: seq<Beat>)
    ensures a + b + c == a + (b + c)
  {
  }

  lemma CountsBusy(beats: seq<Beat>, m: nat, n: nat, t: nat, k: nat)
    requires After(beats + Busy(m, t)) == Alarm(0, 0) && n < t < OCTET && k == m + n
    ensures After(beats + Busy(k, t)) == Alarm(n, 0)
  {
    var mid := beats + Busy(m, t);
    BusyCounts(mid, n, t);
    BusySplit(m, n, t);
    Regroup(beats, Busy(m, t), Busy(n, t));
    assert beats + Busy(k, t) == mid + Busy(n, t);
  }

  lemma FiresBusy(beats: seq<Beat>, all: seq<Beat>, m: nat, k: nat, n: nat, t: nat, at: nat)
    requires After(beats + Busy(m, t)) == Alarm(0, 0) && 0 < t < OCTET && k == m + (t - 1) < n
    requires all == beats + Busy(n, t) && at == |beats| + k
    ensures FiresAt(all, at)
  {
    var before := beats + Busy(k, t);
    assert After(before) == Alarm(t - 1, 0) by {
      CountsBusy(beats, m, t - 1, t, k);
    }
    assert all[..at] == before && all[at] == Tick(true, t) by {
      BusyStretch(beats, all, n, k, t, at);
    }
    FiresFrom(all, at, t, before);
  }

  lemma FirstBusyAlarm(beats: seq<Beat>, all: seq<Beat>, n: nat, t: nat, at: nat)
    requires After(beats) == Alarm(0, 0) && 0 < t < OCTET && t <= n && all == beats + Busy(n, t) && at == |beats| + (t - 1)
    ensures FiresAt(all, at)
  {
    assert beats + Busy(0, t) == beats;
    FiresBusy(beats, all, 0, t - 1, n, t, at);
  }

  lemma SecondBusyAlarm(beats: seq<Beat>, all: seq<Beat>, n: nat, t: nat, at: nat)
    requires After(beats) == Alarm(0, 0) && 0 < t < OCTET && n == 2 * t + 98 && all == beats + Busy(n, t)
    requires at == |beats| + (n - 1)
    ensures FiresAt(all, at)
  {
    LastsBusy(beats, t, 98);
    FiresBusy(beats, all, t + 98, n - 1, n, t, at);
  }

  /** The distance is reached: on a channel that stays busy the first two alarms come exactly 98 updates and the
      threshold's number apart. */
  lemma SpacingReached(beats: seq<Beat>, threshold: nat)
    requires After(beats) == Alarm(0, 0) && 0 < threshold < 256
    ensures var all := beats + Busy(2 * threshold + 98, threshold);
            FiresAt(all, |beats| + (threshold - 1)) && FiresAt(all, |beats| + (2 * threshold + 97))
  {
    var n := 2 * threshold + 98;
    FirstBusyAlarm(beats, beats + Busy(n, threshold), n, threshold, |beats| + (threshold - 1));
    SecondBusyAlarm(beats, beats + Busy(n, threshold), n, threshold, |beats| + (n - 1));
  }
}
