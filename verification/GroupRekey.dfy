/** The periodic renewal of the group key (GREKEYPeriodicExec of ap/ap_wpa.c) by time. */
module GroupRekey {
  import opened Wrappers
  import opened Arithmetic

  const COUNTER_MAX: nat := 0xFFFF_FFFF
  const COUNTDOWN: nat := 3

  /** The index and the value of a group key. */
  datatype Key = Key(id: nat, gtk: nat)

  /** REKEYCOUNTER, RekeyCountDown, DefaultKeyId with GTK. */
  datatype State = State(counter: nat, countdown: nat, key: Key)

  /** One execution of the timer: how many stations the BSS has, and the GTK a rekey would derive. */
  datatype Tick = Tick(stations: nat, derived: nat)

  // ---- One execution ---------------------------------------------------------------------------------

  predicate Counts(s: State) {
    s.counter < COUNTER_MAX
  }

  /** Does this execution rekey? */
  predicate Rekeys(s: State, interval: nat) {
    Counts(s) && s.counter + 1 > interval
  }

  /** With stations present, the other index and a fresh key. */
  function Renewed(key: Key, t: Tick): Key {
    if t.stations > 0 then Key(if key.id == 1 then 2 else 1, t.derived) else key
  }

  function Exec(s: State, interval: nat, t: Tick): State {
    if !Counts(s) then s
    else
      var r := if Rekeys(s, interval) then State(0, COUNTDOWN, Renewed(s.key, t)) else s.(counter := s.counter + 1);
      if r.countdown > 0 then r.(countdown := r.countdown - 1) else r
  }

  /** The key this execution installs, if any. */
  function Installs(s: State, interval: nat): Option<Key> {
    if Counts(s) && !Rekeys(s, interval) && s.countdown == 1 then Some(s.key) else None
  }

  /** A station as the timer sees it. */
  datatype Station = Station(client: bool, keyed: bool, bss: nat, negotiating: bool)

  class GroupKey {
    const apidx: nat
    const interval: nat
    const stations: array<Station>
    var counter: nat
    var countdown: nat
    var defaultKeyId: nat
    var gtk: nat
    var staCount: nat

    ghost function Value(): State
      reads this
    {
      State(counter, countdown, Key(defaultKeyId, gtk))
    }

    /** GREKEYPeriodicExec with TIME_REKEY; `derived` is the GTK that WpaDeriveGTK would give. */
    method PeriodicExec(derived: nat) returns (installed: Option<Key>)
      modifies this`counter, this`countdown, this`defaultKeyId, this`gtk, stations
      ensures Value() == Exec(old(Value()), interval, Tick(staCount, derived))
      ensures installed == Installs(old(Value()), interval)
      ensures forall i | 0 <= i < stations.Length ::
                stations[i] == old(stations[i]).(negotiating := old(stations[i].negotiating) ||
                  (Rekeys(old(Value()), interval) && staCount > 0
                   && old(stations[i].client) && old(stations[i].keyed) && old(stations[i].bss) == apidx))
    {
      installed := None;
      if counter >= COUNTER_MAX {
        return;
      }
      counter := counter + 1;
      if counter > interval {
        counter, countdown := 0, COUNTDOWN;
        if staCount > 0 {
          defaultKeyId := if defaultKeyId == 1 then 2 else 1;
          gtk := derived;
          StartHandshakes();
        }
      }
      if countdown > 0 {
        countdown := countdown - 1;
        if countdown == 0 {
          installed := Some(Key(defaultKeyId, gtk));
        }
      }
    }

    function Negotiating(s: Station): Station {
      if s.client && s.keyed && s.bss == apidx then s.(negotiating := true) else s
    }

    method StartHandshakes()
      modifies stations
      ensures forall i | 0 <= i < stations.Length :: stations[i] == Negotiating(old(stations[i]))
    {
      for i := 0 to stations.Length
        invariant forall k | 0 <= k < i :: stations[k] == Negotiating(old(stations[k]))
        invariant forall k | i <= k < stations.Length :: stations[k] == old(stations[k])
      {
        stations[i] := Negotiating(stations[i]);
      }
    }
  }

  // ---- Runs ------------------------------------------------------------------------------------------------

  function After(s: State, interval: nat, ticks: seq<Tick>): State {
    if ticks == [] then s else Exec(After(s, interval, ticks[..|ticks| - 1]), interval, ticks[|ticks| - 1])
  }

  /** Does execution k of the run rekey? What does it install? */
  predicate RekeysAt(s: State, interval: nat, ticks: seq<Tick>, k: nat)
    requires k < |ticks|
  {
    Rekeys(After(s, interval, ticks[..k]), interval)
  }

  function InstallsAt(s: State, interval: nat, ticks: seq<Tick>, k: nat): Option<Key>
    requires k < |ticks|
  {
    Installs(After(s, interval, ticks[..k]), interval)
  }

  /** The timer set anew: the counter begins, a countdown left over from before a stop goes on. */
  ghost predicate AtStart(s: State) {
    s.counter == 0 && s.countdown < COUNTDOWN && s.key.id in {1, 2}
  }

  /** After n executions: the counter has counted since the last rekey, or since the start; the countdown
      follows it. */
  ghost predicate Known(s: State, interval: nat, ticks: seq<Tick>, n: nat)
    requires n <= |ticks|
  {
    var r := After(s, interval, ticks[..n]);
    && r.counter <= interval && r.key.id in {1, 2} && r.counter <= n
    && (r.counter == n ==> r.countdown == (if s.countdown > n then s.countdown - n else 0) && r.key == s.key)
    && (r.counter < n ==> RekeysAt(s, interval, ticks, n - r.counter - 1)
                          && r.countdown == if r.counter == 0 then 2 else if r.counter == 1 then 1 else 0)
    && (forall k: nat | n - r.counter <= k < n :: !RekeysAt(s, interval, ticks, k))
    && (r.counter < n ==> r.key == After(s, interval, ticks[..n - r.counter]).key)
  }

  lemma {:induction false} Knowing(s: State, interval: nat, ticks: seq<Tick>, n: nat)
    requires AtStart(s) && interval < COUNTER_MAX && n <= |ticks|
    ensures Known(s, interval, ticks, n)
  {
    if n > 0 {
      Knowing(s, interval, ticks, n - 1);
      assert ticks[..n][..n - 1] == ticks[..n - 1];
      KnowingStep(s, interval, ticks, n - 1);
    }
  }

  lemma KnowingStep(s: State, interval: nat, ticks: seq<Tick>, n: nat)
    requires AtStart(s) && interval < COUNTER_MAX && n < |ticks| && Known(s, interval, ticks, n)
    requires ticks[..n + 1][..n] == ticks[..n]
    ensures Known(s, interval, ticks, n + 1)
  {
    var r, r' := After(s, interval, ticks[..n]), After(s, interval, ticks[..n + 1]);
    assert r' == Exec(r, interval, ticks[n]);
    assert RekeysAt(s, interval, ticks, n) == Rekeys(r, interval);
    if !Rekeys(r, interval) {
      assert n + 1 - r'.counter == n - r.counter;
    }
  }

  /** Stopped at any moment and started again, the timer is in a state that the lemmas below begin with. */
  lemma RestartIsStart(s: State, interval: nat, ticks: seq<Tick>)
    requires AtStart(s) && interval < COUNTER_MAX
    ensures AtStart(After(s, interval, ticks).(counter := 0))
  {
    Knowing(s, interval, ticks, |ticks|);
    assert ticks[..|ticks|] == ticks;
  }

  /** Every rekey is followed by exactly one installation, two executions later, of the key and index chosen at
      that rekey; provided the interval is at least two. With a shorter interval the next rekey always comes first.
      A countdown left over from before a stop installs the key it found, unless a rekey comes first; and nothing
      else is ever installed. */
  lemma InstallsExactly(s: State, interval: nat, ticks: seq<Tick>, k: nat)
    requires AtStart(s) && interval < COUNTER_MAX && k < |ticks|
    ensures InstallsAt(s, interval, ticks, k).Some? <==>
              || (interval >= 2 && k >= 2 && RekeysAt(s, interval, ticks, k - 2))
              || (s.countdown == k + 1 <= interval)
    ensures InstallsAt(s, interval, ticks, k).Some? ==>
              InstallsAt(s, interval, ticks, k).value == if k >= 2 then After(s, interval, ticks[..k - 1]).key else s.key
  {
    Knowing(s, interval, ticks, k);
    var r := After(s, interval, ticks[..k]);
    if k >= 2 {
      if r.counter == 0 || r.counter > 1 {
        AtLastRekey(s, interval, ticks, k);
      }
    }
  }

  /** The execution two back rekeyed exactly when the counter stands at one. */
  lemma AtLastRekey(s: State, interval: nat, ticks: seq<Tick>, k: nat)
    requires AtStart(s) && interval < COUNTER_MAX && 2 <= k <= |ticks|
    requires After(s, interval, ticks[..k]).counter != 1
    ensures interval >= 2 ==> !RekeysAt(s, interval, ticks, k - 2)
  {
    Knowing(s, interval, ticks, k);
    Knowing(s, interval, ticks, k - 1);
    Knowing(s, interval, ticks, k - 2);
    assert ticks[..k][..k - 1] == ticks[..k - 1] && ticks[..k - 1][..k - 2] == ticks[..k - 2];
  }

  /** Rekeys are more than the interval apart, and the first comes after as many executions. */
  lemma RekeysApart(s: State, interval: nat, ticks: seq<Tick>, k: nat)
    requires AtStart(s) && interval < COUNTER_MAX && k < |ticks| && RekeysAt(s, interval, ticks, k)
    ensures k >= interval && forall j: nat | j < k && RekeysAt(s, interval, ticks, j) :: k - j > interval
  {
    Knowing(s, interval, ticks, k);
  }

  lemma {:induction false} CountedFrom(s: State, interval: nat, ticks: seq<Tick>, n: nat, rounds: nat, rest: nat)
    requires AtStart(s) && interval < COUNTER_MAX && n <= |ticks| && rest <= interval
    requires n == (interval + 1) * rounds + rest
    ensures After(s, interval, ticks[..n]).counter == rest
    decreases n
  {
    if n > 0 {
      assert ticks[..n][..n - 1] == ticks[..n - 1];
      if rest > 0 {
        CountedFrom(s, interval, ticks, n - 1, rounds, rest - 1);
      } else {
        assert (interval + 1) * rounds == (interval + 1) * (rounds - 1) + (interval + 1);
        CountedFrom(s, interval, ticks, n - 1, rounds - 1, interval);
      }
    }
  }

  lemma Period(k: nat, period: nat) returns (rounds: nat, rest: nat)
    requires period > 0
    ensures k == period * rounds + rest && rest < period
    ensures (k + 1) % period == 0 <==> rest + 1 == period
  {
    rounds, rest := k / period, k % period;
    assert k == period * rounds + rest;
    if rest + 1 == period {
      assert period * (rounds + 1) == period * rounds + period;
      DivUnique(k + 1, period, rounds + 1, 0);
    } else {
      DivUnique(k + 1, period, rounds, rest + 1);
    }
  }

  /** Rekeys come at every interval's end and at no other time: at the executions whose number, counted from one, is a
      multiple of the interval plus one. */
  lemma RekeysPeriodically(s: State, interval: nat, ticks: seq<Tick>, k: nat)
    requires AtStart(s) && interval < COUNTER_MAX && k < |ticks|
    ensures RekeysAt(s, interval, ticks, k) <==> (k + 1) % (interval + 1) == 0
  {
    var rounds, rest := Period(k, interval + 1);
    CountedFrom(s, interval, ticks, k, rounds, rest);
  }

  /** The index stays in {1, 2}; a rekey with stations present turns it over and takes the fresh key, and
      nothing else touches either. */
  lemma IndexAlternates(s: State, interval: nat, ticks: seq<Tick>, k: nat)
    requires AtStart(s) && interval < COUNTER_MAX && k < |ticks|
    ensures var before, after := After(s, interval, ticks[..k]).key, After(s, interval, ticks[..k + 1]).key;
            && before.id in {1, 2} && after.id in {1, 2}
            && (if RekeysAt(s, interval, ticks, k) && ticks[k].stations > 0
                then after == Key(3 - before.id, ticks[k].derived) else after == before)
  {
    Knowing(s, interval, ticks, k);
    assert ticks[..k + 1][..k] == ticks[..k];
  }

  /** An interval beyond the counter's range never rekeys, and installs at most what a stop left over. */
  lemma {:induction false} NeverBeyondRange(s: State, interval: nat, ticks: seq<Tick>)
    requires s.counter <= COUNTER_MAX && interval >= COUNTER_MAX
    ensures var r := After(s, interval, ticks);
            && r.counter <= COUNTER_MAX && r.countdown <= s.countdown && r.key == s.key
            && !Rekeys(r, interval) && (Installs(r, interval).Some? ==> s.countdown > 0 && Installs(r, interval).value == s.key)
  {
    if ticks != [] {
      NeverBeyondRange(s, interval, ticks[..|ticks| - 1]);
    }
  }
}
