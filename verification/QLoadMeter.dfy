/** The announced utilisation of the QBSS load over runs (ap/ap_qload.c). */
module QLoadMeter {
  import opened Arithmetic
  import opened QLoad

  // ---- Utilisation ----------------------------------------------------------------------------------------

  function Sum(rs: seq<nat>): nat {
    if rs == [] then 0 else Sum(rs[..|rs| - 1]) + rs[|rs| - 1]
  }

  /** The last n readings. */
  function Last(rs: seq<nat>, n: nat): (r: seq<nat>)
    requires n <= |rs|
  {
    rs[|rs| - n..]
  }

  /** What moves the meter: a reading at an active update, and a clear of its total. */
  datatype Mark = Read(busy: nat) | Wipe

  function MarkNext(m: Meter, mark: Mark, interval: nat, window: nat): Meter
    requires window > 0
  {
    match mark
    case Read(busy) => MeterNext(m, busy, interval, window)
    case Wipe => m.(total := 0)
  }

  function Metered(m: Meter, tape: seq<Mark>, interval: nat, window: nat): Meter
    requires window > 0
  {
    if tape == [] then m else MarkNext(Metered(m, tape[..|tape| - 1], interval, window), tape[|tape| - 1], interval, window)
  }

  function Reads(tape: seq<Mark>): seq<nat> {
    if tape == [] then []
    else
      var before := Reads(tape[..|tape| - 1]);
      if tape[|tape| - 1].Read? then before + [tape[|tape| - 1].busy] else before
  }

  /** The readings since the last wipe. */
  function SinceWipe(tape: seq<Mark>): (r: nat)
    ensures r <= |Reads(tape)|
  {
    if tape == [] then 0
    else if tape[|tape| - 1].Read? then SinceWipe(tape[..|tape| - 1]) + 1
    else 0
  }

  /** The place of the n-th reading in its window: 0 at the window's end. */
  function Phase(n: nat, interval: nat): (r: nat)
    requires interval > 0
    ensures r < interval && r <= n && (n > 0 && r == 0 ==> n >= interval)
  {
    if n == 0 then 0 else (var r := Phase(n - 1, interval) + 1; if r >= interval then 0 else r)
  }

  function Least(a: nat, b: nat): nat {
    if a <= b then a else b
  }

  ghost predicate Within(rs: seq<nat>, top: nat) {
    forall i | 0 <= i < |rs| :: rs[i] <= top
  }

  lemma {:induction false} SumBound(rs: seq<nat>, top: nat)
    requires Within(rs, top)
    ensures Sum(rs) <= |rs| * top
  {
    if rs != [] {
      SumBound(rs[..|rs| - 1], top);
      assert (|rs| - 1) * top + top == |rs| * top;
    }
  }

  lemma {:induction false} SumSplit(rs: seq<nat>, ss: seq<nat>)
    ensures Sum(rs + ss) == Sum(rs) + Sum(ss)
  {
    if ss == [] {
      assert rs + ss == rs;
    } else {
      assert (rs + ss)[..|rs + ss| - 1] == rs + ss[..|ss| - 1];
      SumSplit(rs, ss[..|ss| - 1]);
    }
  }

  /** The last k readings of at most `top` sum to no more than n times `top`. */
  lemma LastBound(rs: seq<nat>, k: nat, n: nat, top: nat)
    requires k <= n && k <= |rs| && Within(rs, top)
    ensures Sum(Last(rs, k)) <= n * top
  {
    SumBound(Last(rs, k), top);
    assert n * top == k * top + (n - k) * top;
  }

  lemma LastGrows(rs: seq<nat>, k: nat, n: nat)
    requires k <= n <= |rs|
    ensures Sum(Last(rs, k)) <= Sum(Last(rs, n))
  {
    assert Last(rs, n) == rs[|rs| - n..|rs| - k] + Last(rs, k);
    SumSplit(rs[|rs| - n..|rs| - k], Last(rs, k));
  }

  /** The 32-bit product of a full window of full readings stays exact exactly up to this bound. */
  lemma NoWrapExactly(interval: nat, period: nat)
    ensures interval * (period * 1024) * 255 < WORD <==> interval * period <= 16448
  {
    var p := interval * period;
    assert interval * (period * 1024) * 255 == p * 261120;
  }

  lemma QuotientBound(a: nat, d: nat)
    requires d > 0 && a <= d * 255
    ensures a / d <= 255
  {
    var q := a / d;
    assert a == d * q + a % d;
    assert q >= 256 ==> d * q >= d * 256;
  }

  /** The utilisation in 255ths, rounded down. */
  function Utilisation(sum: nat, window: nat): nat
    requires window > 0
  {
    sum * 255 / window
  }

  lemma PublishedExact(sum: nat, window: nat)
    requires 0 < window && window * 255 < WORD && sum <= window
    ensures Published(sum, window) == Utilisation(sum, window) <= 255
  {
    var n := sum * 255;
    DivSmall(n, WORD);
    QuotientBound(n, window);
    DivSmall(n / window, OCTET);
  }

  lemma Multiples(d: nat, q: nat, q': nat)
    ensures q' <= q ==> d * q' <= d * q
    ensures q' < q ==> d * q' + d <= d * q
  {
    if q' < q {
      Distribute(d, q', q);
    }
  }

  lemma Divided(a: nat, d: nat)
    requires d > 0
    ensures a == d * (a / d) + a % d && a % d < d
  {
  }

  /** Two numbers, b apart, in quotients and remainders. */
  lemma QuotientsCompared(a: nat, b: nat, d: nat, q: nat, r: nat, q': nat, r': nat)
    requires a == d * q + r && a + b == d * q' + r' && r < d && r' < d
    ensures q <= q' && (q == q' <==> r + b < d)
  {
    Multiples(d, q, q');
    Multiples(d, q', q);
  }

  /** What is added leaves the quotient alone exactly when it fits into the remainder. */
  lemma QuotientKept(a: nat, b: nat, d: nat)
    requires d > 0
    ensures a / d <= (a + b) / d && (a / d == (a + b) / d <==> a % d + b < d)
  {
    Divided(a, d);
    Divided(a + b, d);
    QuotientsCompared(a, b, d, a / d, a % d, (a + b) / d, (a + b) % d);
  }

  /** An amount left out of the sum leaves its floor alone exactly when it fits into the remainder. */
  lemma LossExact(kept: nat, lost: nat, window: nat)
    requires window > 0
    ensures Utilisation(kept, window) <= Utilisation(kept + lost, window)
    ensures Utilisation(kept, window) == Utilisation(kept + lost, window) <==> kept * 255 % window + lost * 255 < window
  {
    QuotientKept(kept * 255, lost * 255, window);
    assert kept * 255 + lost * 255 == (kept + lost) * 255;
  }

  lemma MeterStep(m: Meter, reading: nat, interval: nat, window: nat)
    requires 1 <= interval < OCTET && 0 < window && window * 255 < WORD
    requires m.total + reading <= window && m.count < interval
    ensures MeterNext(m, reading, interval, window)
         == if m.count + 1 == interval then Meter(0, 0, Utilisation(m.total + reading, window))
            else Meter(m.total + reading, m.count + 1, m.util)
    ensures Utilisation(m.total + reading, window) <= 255
  {
    DivSmall(m.total + reading, WORD);
    PublishedExact(m.total + reading, window);
  }

  /** The readings the meter holds: those of its window, since the last wipe. */
  function Held(tape: seq<Mark>, interval: nat): seq<nat>
    requires interval > 0
  {
    Last(Reads(tape), Least(Phase(|Reads(tape)|, interval), SinceWipe(tape)))
  }

  lemma LastNext(rs: seq<nat>, n: nat, r: nat)
    requires n <= |rs|
    ensures Last(rs + [r], n + 1) == Last(rs, n) + [r]
    ensures Sum(Last(rs, n) + [r]) == Sum(Last(rs, n)) + r
  {
    assert (Last(rs, n) + [r])[..n] == Last(rs, n);
  }

  lemma TapeNext(tape: seq<Mark>, mark: Mark)
    ensures Reads(tape + [mark]) == if mark.Read? then Reads(tape) + [mark.busy] else Reads(tape)
    ensures SinceWipe(tape + [mark]) == if mark.Read? then SinceWipe(tape) + 1 else 0
  {
    assert (tape + [mark])[..|tape|] == tape;
  }

  ghost predicate Holds(m: Meter, tape: seq<Mark>, interval: nat)
    requires interval > 0
  {
    m.count == Phase(|Reads(tape)|, interval) && m.total == Sum(Held(tape, interval))
  }

  lemma HoldsReading(m: Meter, rs: seq<nat>, since: nat, r: nat, interval: nat, total: nat)
    requires interval > 0 && since <= |rs| && m.count == Phase(|rs|, interval)
    requires m.total == Sum(Last(rs, Least(m.count, since))) && total == m.total + r
    ensures m.count + 1 == interval ==>
            Phase(|rs| + 1, interval) == 0 && total == Sum(Last(rs + [r], Least(interval, since + 1)))
    ensures m.count + 1 < interval ==>
            Phase(|rs| + 1, interval) == m.count + 1 && total == Sum(Last(rs + [r], Least(m.count + 1, since + 1)))
  {
    LastNext(rs, Least(m.count, since), r);
  }

  ghost predicate HoldsAfter(m: Meter, tape: seq<Mark>, interval: nat, window: nat)
    requires interval > 0 && window > 0
  {
    && Holds(m, tape, interval)
    && (tape != [] && tape[|tape| - 1].Read? && m.count == 0 ==>
        SinceWipe(tape) <= |Reads(tape)| && interval <= |Reads(tape)|
        && m.util == Utilisation(Sum(Last(Reads(tape), Least(interval, SinceWipe(tape)))), window))
  }

  lemma HoldsRead(m: Meter, m': Meter, tape: seq<Mark>, mark: Mark, interval: nat, window: nat)
    requires mark.Read? && interval > 0 && window > 0 && Holds(m, tape, interval)
    requires m' == if m.count + 1 == interval then Meter(0, 0, Utilisation(m.total + mark.busy, window))
                   else Meter(m.total + mark.busy, m.count + 1, m.util)
    ensures HoldsAfter(m', tape + [mark], interval, window)
  {
    TapeNext(tape, mark);
    HoldsReading(m, Reads(tape), SinceWipe(tape), mark.busy, interval, m.total + mark.busy);
    assert Last(Reads(tape + [mark]), 0) == [];
  }

  lemma FitsNext(m: Meter, tape: seq<Mark>, busy: nat, interval: nat, top: nat)
    requires interval > 0 && Within(Reads(tape + [Read(busy)]), top) && Holds(m, tape, interval)
    ensures m.total + busy <= interval * top
  {
    TapeNext(tape, Read(busy));
    var n := Least(m.count, SinceWipe(tape));
    LastNext(Reads(tape), n, busy);
    LastBound(Reads(tape + [Read(busy)]), n + 1, interval, top);
  }

  lemma HoldsNext(m: Meter, tape: seq<Mark>, mark: Mark, interval: nat, window: nat)
    requires 1 <= interval < OCTET && window > 0 && window * 255 < WORD
    requires Holds(m, tape, interval) && (mark.Read? ==> m.total + mark.busy <= window)
    ensures HoldsAfter(MarkNext(m, mark, interval, window), tape + [mark], interval, window)
  {
    if mark.Read? {
      MeterStep(m, mark.busy, interval, window);
      HoldsRead(m, MeterNext(m, mark.busy, interval, window), tape, mark, interval, window);
    } else {
      TapeNext(tape, mark);
      assert Last(Reads(tape), 0) == [];
    }
  }

  lemma {:induction false} Metering(u: nat, tape: seq<Mark>, interval: nat, top: nat, window: nat)
    requires 1 <= interval < OCTET && window > 0 && window * 255 < WORD && interval * top == window
    requires Within(Reads(tape), top)
    ensures HoldsAfter(Metered(Meter(0, 0, u), tape, interval, window), tape, interval, window)
  {
    if tape != [] {
      var before, mark := tape[..|tape| - 1], tape[|tape| - 1];
      assert tape == before + [mark];
      TapeNext(before, mark);
      assert forall i | 0 <= i < |Reads(before)| :: Reads(before)[i] == Reads(tape)[i];
      Metering(u, before, interval, top, window);
      var m := Metered(Meter(0, 0, u), before, interval, window);
      if mark.Read? {
        FitsNext(m, before, mark.busy, interval, top);
      }
      HoldsNext(m, before, mark, interval, window);
    }
  }

  /** The last mark is a reading that ends a window. */
  predicate Ends(tape: seq<Mark>, interval: nat)
    requires interval > 0
  {
    tape != [] && tape[|tape| - 1].Read? && Phase(|Reads(tape)|, interval) == 0
  }

  /** The readings of the window just ended: all, those since its last wipe, and those a wipe lost. */
  function Whole(tape: seq<Mark>, interval: nat): nat
    requires interval > 0 && Ends(tape, interval)
  {
    Sum(Last(Reads(tape), interval))
  }

  function Kept(tape: seq<Mark>, interval: nat): nat
    requires interval > 0 && Ends(tape, interval)
  {
    Sum(Last(Reads(tape), Least(interval, SinceWipe(tape))))
  }

  lemma WindowIs(interval: nat, period: nat)
    requires interval > 0 && period > 0 && interval * period <= 16448
    ensures Window(interval, period) == interval * (period * 1024) > 0
  {
    var p := interval * period;
    assert p >= interval;
    assert interval * (period * 1024) == p * 1024;
  }

  /** Over every tape of readings within the beacon period and wipes, up to the bound on the window: at the end
      of each window the published utilisation is the exact floor over the readings since the last wipe, and it
      is the exact floor over the whole window if and only if the lost readings fit into the remainder. */
  lemma UtilisationExact(u: nat, tape: seq<Mark>, interval: nat, period: nat)
    requires 1 <= interval < OCTET && period > 0 && interval * period <= 16448
    requires Within(Reads(tape), period * 1024) && Ends(tape, interval)
    ensures Window(interval, period) == interval * (period * 1024) > 0
    ensures var window, kept, whole := interval * (period * 1024), Kept(tape, interval), Whole(tape, interval);
            && kept <= whole <= window && window > 0
            && Metered(Meter(0, 0, u), tape, interval, window) == Meter(0, 0, Utilisation(kept, window))
            && Utilisation(kept, window) <= Utilisation(whole, window) <= 255
            && (Utilisation(kept, window) == Utilisation(whole, window) <==>
                kept * 255 % window + (whole - kept) * 255 < window)
  {
    NoWrapExactly(interval, period);
    WindowIs(interval, period);
    var top, window := period * 1024, Window(interval, period);
    Metering(u, tape, interval, top, window);
    LastGrows(Reads(tape), Least(interval, SinceWipe(tape)), interval);
    LastBound(Reads(tape), interval, interval, top);
    PublishedExact(Whole(tape, interval), window);
    LossExact(Kept(tape, interval), Whole(tape, interval) - Kept(tape, interval), window);
  }

  /** The marks an event makes: the primary channel's reading at an active update, a wipe at a clear. */
  function MarkOf(s: Load, cfg: Settings, e: Event): seq<Mark> {
    if e.EUpdate? && Active(s, cfg) then [Read(e.u.primary)]
    else if e.EClear? then [Wipe]
    else []
  }

  function Tape(s: Load, cfg: Settings, es: seq<Event>): seq<Mark>
    requires Sound(cfg)
  {
    if es == [] then []
    else Tape(s, cfg, es[..|es| - 1]) + MarkOf(Run(s, cfg, es[..|es| - 1]), cfg, es[|es| - 1])
  }

  lemma MeteredNext(m: Meter, tape: seq<Mark>, mark: Mark, interval: nat, window: nat)
    requires window > 0
    ensures Metered(m, tape + [mark], interval, window) == MarkNext(Metered(m, tape, interval, window), mark, interval, window)
  {
    assert (tape + [mark])[..|tape|] == tape;
  }

  lemma StepIsMark(s: Load, cfg: Settings, e: Event)
    requires Sound(cfg)
    ensures var mark := MarkOf(s, cfg, e);
            Step(s, cfg, e).meter
            == if mark == [] then s.meter else MarkNext(s.meter, mark[0], cfg.interval, Window(cfg.interval, cfg.period))
  {
  }

  /** However the events interleave, the meter sees the readings of the active updates and the wipes of the
      clears. */
  lemma {:induction false} RunMeters(s: Load, cfg: Settings, es: seq<Event>)
    requires Sound(cfg)
    ensures Run(s, cfg, es).meter == Metered(s.meter, Tape(s, cfg, es), cfg.interval, Window(cfg.interval, cfg.period))
  {
    if es != [] {
      var before, e := es[..|es| - 1], es[|es| - 1];
      RunMeters(s, cfg, before);
      StepIsMark(Run(s, cfg, before), cfg, e);
      var tape, mark := Tape(s, cfg, before), MarkOf(Run(s, cfg, before), cfg, e);
      if mark == [] {
        assert tape + mark == tape;
      } else {
        assert mark == [mark[0]];
        MeteredNext(s.meter, tape, mark[0], cfg.interval, Window(cfg.interval, cfg.period));
      }
    }
  }

  /** So over every run from an empty meter: what the station announces at the end of a window is exact up to
      what a channel switch inside that window lost, and never too much. */
  lemma UtilisationOverRuns(s: Load, cfg: Settings, es: seq<Event>)
    requires Sound(cfg) && cfg.period > 0 && cfg.interval * cfg.period <= 16448
    requires s.meter.total == s.meter.count == 0
    requires Within(Reads(Tape(s, cfg, es)), cfg.period * 1024) && Ends(Tape(s, cfg, es), cfg.interval)
    ensures var window := cfg.interval * (cfg.period * 1024);
            var kept, whole := Kept(Tape(s, cfg, es), cfg.interval), Whole(Tape(s, cfg, es), cfg.interval);
            && window > 0 && kept <= whole
            && Run(s, cfg, es).meter == Meter(0, 0, Utilisation(kept, window))
            && Utilisation(kept, window) <= Utilisation(whole, window) <= 255
            && (Utilisation(kept, window) == Utilisation(whole, window) <==>
                kept * 255 % window + (whole - kept) * 255 < window)
  {
    RunMeters(s, cfg, es);
    UtilisationExact(s.meter.util, Tape(s, cfg, es), cfg.interval, cfg.period);
  }

  lemma OffKeepsGoing(s: Load, cfg: Settings, u: Sample)
    requires Sound(cfg) && s.percent == 0
    ensures Update(s, cfg, u).percent == 0 && Update(s, cfg, u).suspended == s.suspended
  {
  }

  lemma SecondEnds(n: nat, interval: nat)
    requires n == interval == 2
    ensures Phase(n, interval) == 0
  {
    assert Phase(n - 1, interval) == 1;
  }

  lemma SumOfLast(rs: seq<nat>)
    requires |rs| > 0
    ensures Sum(Last(rs, 1)) == rs[|rs| - 1]
  {
    var last := Last(rs, 1);
    assert last[..0] == [];
  }

  lemma WipedBeforeLast(tape: seq<Mark>, interval: nat)
    requires tape != [] && tape[|tape| - 1].Read? && |Reads(tape)| == interval == 2 && SinceWipe(tape) == 1
    ensures Ends(tape, interval) && Kept(tape, interval) == Sum(Last(Reads(tape), interval - 1))
  {
    SecondEnds(interval, interval);
  }

  /** A full window of 102400 microseconds is half of one of 204800. */
  lemma HalfWindow(busy: nat, window: nat)
    requires busy == 102400 && window == 204800
    ensures Utilisation(busy, window) == 127 && Utilisation(2 * busy, window) == 255
  {
  }

  lemma WipedTape(tape: seq<Mark>)
    requires |tape| == 3 && tape[0].Read? && tape[1] == Wipe && tape[2].Read?
    ensures Reads(tape) == [tape[0].busy, tape[2].busy] && SinceWipe(tape) == 1
  {
    TapeNext([], tape[0]);
    TapeNext([tape[0]], tape[1]);
    TapeNext([tape[0], tape[1]], tape[2]);
    assert tape == [tape[0], tape[1]] + [tape[2]] && [tape[0], tape[1]] == [tape[0]] + [tape[1]];
    assert [] + [tape[0]] == [tape[0]];
  }

  lemma BusyTape(s: Load, cfg: Settings, one: seq<Event>, two: seq<Event>, three: seq<Event>, tape: seq<Mark>)
    requires Sound(cfg) && Active(s, cfg) && s.percent == 0
    requires |one| == 1 && one[0].EUpdate? && two == one + [EClear] && three == two + one
    requires tape == [Read(one[0].u.primary), Wipe, Read(one[0].u.primary)]
    ensures Tape(s, cfg, three) == tape
  {
    OffKeepsGoing(s, cfg, one[0].u);
    assert one[..0] == [] && two[..1] == one && three[..2] == two;
    assert Run(s, cfg, one) == Update(s, cfg, one[0].u);
    assert Tape(s, cfg, one) == [tape[0]];
    assert Tape(s, cfg, two) == [tape[0], tape[1]];
  }

  /** A run that announces too little: the channel busy all through a window of two beacons of 100 ms, with a
      channel switch in between, is announced half busy. */
  lemma SwitchHalvesUtilisation(s: Load, cfg: Settings)
    requires cfg == Settings(true, 100, 2, cfg.hz) && cfg.hz > 0
    requires !s.suspended && s.percent == 0 && s.meter == Meter(0, 0, 0)
    ensures var busy := EUpdate(Sample(0, 0, 102400));
            var es := [busy, EClear, busy];
            && Sound(cfg) && Run(s, cfg, es).meter.util == 127
            && Tape(s, cfg, es) == [Read(102400), Wipe, Read(102400)]
            && Reads(Tape(s, cfg, es)) == [102400, 102400] && Utilisation(204800, 204800) == 255
  {
    var busy := EUpdate(Sample(0, 0, 102400));
    var tape := [Read(102400), Wipe, Read(102400)];
    BusyTape(s, cfg, [busy], [busy, EClear], [busy, EClear, busy], tape);
    WipedTape(tape);
    WipedBeforeLast(tape, cfg.interval);
    SumOfLast(Reads(tape));
    HalfWindow(102400, cfg.interval * (cfg.period * 1024));
    UtilisationOverRuns(s, cfg, [busy, EClear, busy]);
  }
}
