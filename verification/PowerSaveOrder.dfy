/** In what order a station's packets leave altogether, delivered from its power-save queue or sent past it. */
module PowerSaveOrder {
  import opened Octets
  import opened PowerSave
  import opened PowerSaveLaws
  import opened PowerSaveRuns

  // ---- Subsequences ----------------------------------------------------------------------------

  /** The ids of s occur in t, in the same order. */
  ghost predicate Within(s: seq<nat>, t: seq<nat>)
    decreases |t|
  {
    s == [] || (t != [] && ((s[0] == t[0] && Within(s[1..], t[1..])) || Within(s, t[1..])))
  }

  lemma {:induction false} WithinItself(s: seq<nat>)
    ensures Within(s, s)
  {
    if s != [] {
      WithinItself(s[1..]);
    }
  }

  lemma {:induction false} WithinTransitive(s: seq<nat>, t: seq<nat>, u: seq<nat>)
    requires Within(s, t) && Within(t, u)
    ensures Within(s, u)
    decreases |t| + |u|
  {
    if s != [] {
      if t[0] == u[0] && Within(t[1..], u[1..]) {
        if s[0] == t[0] && Within(s[1..], t[1..]) {
          WithinTransitive(s[1..], t[1..], u[1..]);
        } else {
          WithinTransitive(s, t[1..], u[1..]);
        }
      } else {
        WithinTransitive(s, t, u[1..]);
      }
    }
  }

  lemma {:induction false} WithinBehind(s: seq<nat>, head: seq<nat>, t: seq<nat>)
    requires Within(s, t)
    ensures Within(s, head + t)
  {
    if head == [] {
      assert head + t == t;
    } else {
      WithinBehind(s, head[1..], t);
      assert (head + t)[1..] == head[1..] + t;
    }
  }

  lemma {:induction false} WithinJoined(s: seq<nat>, t: seq<nat>, s': seq<nat>, t': seq<nat>)
    requires Within(s, t) && Within(s', t')
    ensures Within(s + s', t + t')
    decreases |t|
  {
    if s == [] {
      assert s + s' == s';
      WithinBehind(s', t, t');
    } else if s[0] == t[0] && Within(s[1..], t[1..]) {
      WithinJoined(s[1..], t[1..], s', t');
      assert (s + s')[1..] == s[1..] + s' && (t + t')[1..] == t[1..] + t';
    } else {
      WithinJoined(s, t[1..], s', t');
      assert (t + t')[1..] == t[1..] + t';
    }
  }

  lemma SuffixWithin(s: seq<nat>, k: nat, tail: seq<nat>)
    requires k <= |s|
    ensures Within(s[k..], s + tail)
  {
    WithinItself(s[k..]);
    WithinBehind(s[k..], s[..k], s[k..]);
    assert s[..k] + s[k..] == s;
    assert Within([], tail);
    WithinJoined(s[k..], s, [], tail);
    assert s[k..] + [] == s[k..];
  }

  // ---- What one step brings and hands over ----------------------------------------------------------

  /** The transmit queue a step puts packets of station i on, if any. */
  ghost function Outlet(w: World, e: Event, i: nat): nat
    requires Shape(w) && Enabled(w, e)
    ensures Outlet(w, e, i) <= 4
  {
    match e
    case ESend(j, id, q, refused) => if j == i then q else 4
    case EPoll(j, addr) => if j == i then BE else 4
    case EIndicate(wcid, addr, saving) =>
      if wcid < TABLE && w.sta[wcid].saving && !saving && w.sta[wcid].aid == i then BE else 4
    case _ => 4
  }

  /** The packets of station i that the step puts on a transmit queue, in their order there. */
  ghost function HandedBy(w: World, cfg: Config, e: Event, i: nat): seq<nat>
    requires Shape(w) && Enabled(w, e)
  {
    var q := Outlet(w, e, i);
    if q < 4 && |Step(w, cfg, e).txq[q]| > |w.txq[q]| then Ids(Step(w, cfg, e).txq[q][|w.txq[q]|..]) else []
  }

  /** The packet for station i that the step brings. */
  function SentTo(e: Event, i: nat): seq<nat> {
    if e.ESend? && e.i == i then [e.id] else []
  }

  // ---- Waiting stations are in power save ---------------------------------------------------------

  /** While packets wait for it, the station is associated and in power save. */
  ghost predicate Holding(w: World, i: nat)
    requires Shape(w) && i < TABLE
  {
    w.sta[i].psq != [] ==> w.sta[i].saving && w.sta[i].assoc
  }

  /** The steps that leave packets waiting for a station not held back: its association state is set, or it is
      reported awake under an address other than its own. */
  ghost predicate Breaks(w: World, e: Event, i: nat)
    requires Shape(w) && i < TABLE
  {
    && w.sta[i].psq != []
    && ((e.EAssoc? && e.i == i) || (e.EIndicate? && e.wcid == i && !e.saving && e.addr != w.sta[i].addr))
  }

  ghost predicate SameMode(w: World, w': World, k: nat)
    requires Shape(w) && Shape(w') && k < TABLE
  {
    w'.sta[k].saving == w.sta[k].saving && w'.sta[k].assoc == w.sta[k].assoc
  }

  lemma DropMode(w: World, i: nat, addr: Mac, k: nat)
    requires Shape(w) && i < TABLE && k < TABLE
    ensures SameMode(w, Drop(w, i, addr), k)
  {
  }

  lemma CollectedMode(w: World, i: nat, k: nat)
    requires Shape(w) && i < TABLE && k < TABLE
    ensures SameMode(w, Collected(w, i), k)
  {
  }

  lemma ProbedMode(w: World, cfg: Config, i: nat, k: nat)
    requires Shape(w) && i < TABLE && k < TABLE
    ensures SameMode(w, Probed(w, cfg, i), k)
  {
  }

  lemma MaintainOneMode(w: World, cfg: Config, i: nat, memory: bool, k: nat)
    requires Shape(w) && i < TABLE && k < TABLE
    ensures SameMode(w, MaintainOne(w, cfg, i, memory), k)
  {
    var w1 := Counted(w, cfg, i);
    var w2 := Probed(w1, cfg, i);
    ProbedMode(w1, cfg, i, k);
    CollectedMode(w2, i, k);
    DropMode(w1, w1.sta[i].aid, w1.sta[i].addr, k);
    DropMode(w2, w2.sta[i].aid, w2.sta[i].addr, k);
  }

  lemma {:induction false} MaintainFromMode(w: World, cfg: Config, i: nat, memory: seq<bool>, k: nat)
    requires Shape(w) && i <= TABLE && |memory| == TABLE && k < TABLE
    ensures SameMode(w, MaintainFrom(w, cfg, i, memory), k)
    decreases TABLE - i
  {
    if i < TABLE {
      MaintainOneMode(w, cfg, i, memory[i], k);
      MaintainFromMode(MaintainOne(w, cfg, i, memory[i]), cfg, i + 1, memory, k);
    }
  }

  lemma MaintainHolds(w: World, cfg: Config, memory: seq<bool>, i: nat)
    requires Inv(w) && i < TABLE && |memory| == TABLE && Holding(w, i)
    ensures Holding(MaintainFrom(w, cfg, 1, memory), i)
  {
    MaintainFromMode(w, cfg, 1, memory, i);
    MaintainFromShrinks(w, cfg, 1, memory, i);
  }

  lemma WakeLeaves(w: World, k: nat, addr: Mac, i: nat)
    requires Shape(w) && k < TABLE && i < TABLE
    ensures SameMode(w, Wake(w, k, addr), i)
    ensures Wake(w, k, addr).sta[i].psq == if k == i && addr == w.sta[i].addr then [] else w.sta[i].psq
  {
  }

  lemma IndicateHolds(w: World, wcid: nat, addr: Mac, saving: bool, i: nat)
    requires Inv(w) && i < TABLE && Holding(w, i)
    ensures Holding(Indicate(w, wcid, addr, saving), i) <==> !Breaks(w, EIndicate(wcid, addr, saving), i)
  {
    assert StationOk(w, i);
    if wcid < TABLE {
      var s := w.sta[wcid];
      var w1 := w.(sta := w.sta[wcid := s.(noDataIdle := 0, saving := saving)]);
      WakeLeaves(w1, s.aid, addr, i);
    }
  }

  lemma SendHolds(w: World, cfg: Config, j: nat, id: nat, q: nat, refused: bool, i: nat)
    requires Shape(w) && i < TABLE && j < TABLE && q < 4 && Holding(w, i)
    ensures Holding(Send(w, cfg, j, id, q, refused), i)
  {
  }

  lemma PollHolds(w: World, j: nat, addr: Mac, i: nat)
    requires Shape(w) && i < TABLE && j < TABLE && Holding(w, i)
    ensures Holding(Poll(w, j, addr), i)
  {
  }

  /** A step keeps a station held back if and only if it is none of those. */
  lemma StepHoldsExactly(w: World, cfg: Config, e: Event, i: nat)
    requires Inv(w) && Enabled(w, e) && i < TABLE && Holding(w, i)
    ensures Holding(Step(w, cfg, e), i) <==> !Breaks(w, e, i)
  {
    match e
    case ESend(j, id, q, refused) => SendHolds(w, cfg, j, id, q, refused, i);
    case EPoll(j, addr) => PollHolds(w, j, addr, i);
    case EIndicate(wcid, addr, saving) => IndicateHolds(w, wcid, addr, saving, i);
    case EMaintain(memory) => MaintainHolds(w, cfg, memory, i);
    case EDrop(j, addr) => DropMode(w, j, addr, i);
    case _ =>
  }

  ghost predicate HoldingThroughout(w: World, cfg: Config, es: seq<Event>, i: nat)
    requires Shape(w) && Valid(w, cfg, es) && i < TABLE
    decreases |es|
  {
    Holding(w, i) && (es == [] || HoldingThroughout(Step(w, cfg, es[0]), cfg, es[1..], i))
  }

  ghost predicate NoneBreaks(w: World, cfg: Config, es: seq<Event>, i: nat)
    requires Shape(w) && Valid(w, cfg, es) && i < TABLE
    decreases |es|
  {
    es == [] || (!Breaks(w, es[0], i) && NoneBreaks(Step(w, cfg, es[0]), cfg, es[1..], i))
  }

  /** All along a run a station with packets waiting is associated and in power save if and only if no step sets its
      association state, or reports it awake under another address, while packets wait. */
  lemma {:induction false} HoldingExactly(w: World, cfg: Config, es: seq<Event>, i: nat)
    requires Inv(w) && Valid(w, cfg, es) && i < TABLE && Holding(w, i)
    ensures HoldingThroughout(w, cfg, es, i) <==> NoneBreaks(w, cfg, es, i)
    decreases |es|
  {
    if es != [] {
      StepKept(w, cfg, es[0], 0);
      StepHoldsExactly(w, cfg, es[0], i);
      if !Breaks(w, es[0], i) {
        HoldingExactly(Step(w, cfg, es[0]), cfg, es[1..], i);
      }
    }
  }

  // ---- Overtaking -------------------------------------------------------------------------------------

  /** A packet sent to a station overtakes waiting ones exactly when the station is not held back and the transmit
      queue has room. */
  lemma OvertakesExactly(w: World, cfg: Config, i: nat, id: nat, q: nat)
    requires Inv(w) && i < TABLE && q < 4 && w.sta[i].psq != []
    ensures var w' := Send(w, cfg, i, id, q, false);
            (w'.sta[i].psq == w.sta[i].psq && w'.txq == w.txq[q := w.txq[q] + [Frame(id, false)]]) <==>
            !Holding(w, i) && |w.txq[q]| < cfg.txqMax
  {
    assert StationOk(w, i);
    var w' := Send(w, cfg, i, id, q, false);
    if Holding(w, i) || |w.txq[q]| >= cfg.txqMax {
      assert w'.txq[q] == w.txq[q];
    }
  }

  /** Such a packet gets past after an association that found packets waiting. */
  lemma AssociationOvertaken(w: World, cfg: Config, i: nat, id: nat, q: nat)
    requires Inv(w) && i < TABLE && q < 4 && w.sta[i].psq != [] && |w.txq[q]| < cfg.txqMax
    ensures var w1 := SetAssoc(w, i, true);
            var w2 := Send(w1, cfg, i, id, q, false);
            w2.sta[i].psq == w.sta[i].psq && w2.txq == w.txq[q := w.txq[q] + [Frame(id, false)]]
  {
    StepKept(w, cfg, EAssoc(i, true), 0);
    OvertakesExactly(SetAssoc(w, i, true), cfg, i, id, q);
  }

  // ---- Order of what leaves -----------------------------------------------------------------------------

  lemma SuffixOrAll(out: seq<nat>, q: seq<nat>, q': seq<nat>, sent: seq<nat>)
    requires (out == [] && |q'| <= |q| && Queued(q, q')) || out + q' == q + sent
    ensures Within(out + q', q + sent)
  {
    if out + q' == q + sent {
      WithinItself(q + sent);
    } else {
      SuffixWithin(q, |q| - |q'|, sent);
      assert out + q' == q[|q| - |q'|..];
    }
  }

  /** What one step hands over, followed by what waits then, is within what waited and was sent. */
  lemma StepInOrder(w: World, cfg: Config, e: Event, i: nat)
    requires Inv(w) && Enabled(w, e) && i < TABLE && Holding(w, i)
    ensures Within(HandedBy(w, cfg, e, i) + Step(w, cfg, e).sta[i].psq, w.sta[i].psq + SentTo(e, i))
  {
    StepKept(w, cfg, e, 0);
    var out, q, q' := HandedBy(w, cfg, e, i), w.sta[i].psq, Step(w, cfg, e).sta[i].psq;
    if out != [] || |q'| > |q| {
      HandedIsAll(w, cfg, e, i);
    }
    SuffixOrAll(out, q, q', SentTo(e, i));
  }

  lemma HandedIsAll(w: World, cfg: Config, e: Event, i: nat)
    requires Inv(w) && Enabled(w, e) && i < TABLE && Holding(w, i)
    requires HandedBy(w, cfg, e, i) != [] || |Step(w, cfg, e).sta[i].psq| > |w.sta[i].psq|
    ensures HandedBy(w, cfg, e, i) + Step(w, cfg, e).sta[i].psq == w.sta[i].psq + SentTo(e, i)
  {
    assert StationOk(w, i);
    if |Step(w, cfg, e).sta[i].psq| > |w.sta[i].psq| {
      NewIsSent(w, cfg, e, i);
    }
  }

  /** The packets of station i that the run puts on transmit queues, in their order; and those it brings. */
  ghost function Handed(w: World, cfg: Config, es: seq<Event>, i: nat): seq<nat>
    requires Shape(w) && Valid(w, cfg, es)
    decreases |es|
  {
    if es == [] then [] else HandedBy(w, cfg, es[0], i) + Handed(Step(w, cfg, es[0]), cfg, es[1..], i)
  }

  function Sends(es: seq<Event>, i: nat): seq<nat> {
    if es == [] then [] else SentTo(es[0], i) + Sends(es[1..], i)
  }

  /** Over every run that keeps station i held back while packets wait for it, its packets reach the transmit
      queues in the order in which they arrived, whether they waited or not; those still waiting come behind. */
  lemma {:induction false} LeavesInOrder(w: World, cfg: Config, es: seq<Event>, i: nat)
    requires Inv(w) && Valid(w, cfg, es) && i < TABLE && Holding(w, i) && NoneBreaks(w, cfg, es, i)
    ensures Within(Handed(w, cfg, es, i) + Run(w, cfg, es).sta[i].psq, w.sta[i].psq + Sends(es, i))
    decreases |es|
  {
    var q := w.sta[i].psq;
    if es == [] {
      assert [] + q == q && q + [] == q;
      WithinItself(q);
    } else {
      var e, w1 := es[0], Step(w, cfg, es[0]);
      StepKept(w, cfg, e, 0);
      StepHoldsExactly(w, cfg, e, i);
      StepInOrder(w, cfg, e, i);
      LeavesInOrder(w1, cfg, es[1..], i);
      Chained(HandedBy(w, cfg, e, i), w1.sta[i].psq, q, SentTo(e, i),
              Handed(w1, cfg, es[1..], i), Run(w1, cfg, es[1..]).sta[i].psq, Sends(es[1..], i));
    }
  }

  /** Two stretches of a run, one after the other. */
  lemma Chained(out: seq<nat>, mid: seq<nat>, q: seq<nat>, sent: seq<nat>, out': seq<nat>, q': seq<nat>, sent': seq<nat>)
    requires Within(out + mid, q + sent) && Within(out' + q', mid + sent')
    ensures Within((out + out') + q', q + (sent + sent'))
  {
    WithinItself(out);
    WithinItself(sent');
    WithinJoined(out, out, out' + q', mid + sent');
    WithinJoined(out + mid, q + sent, sent', sent');
    Regroup(out, out', q');
    Regroup(out, mid, sent');
    Regroup(q, sent, sent');
    WithinTransitive((out + out') + q', (out + mid) + sent', q + (sent + sent'));
  }

  lemma Regroup(a: seq<nat>, b: seq<nat>, c: seq<nat>)
    ensures a + (b + c) == (a + b) + c
  {
  }

  /** So from start-up: what left and what waits is within what was sent to the station, in that order. */
  lemma LeavesInOrderFromStart(w: World, cfg: Config, es: seq<Event>, i: nat)
    requires AtRest(w) && Valid(w, cfg, es) && i < TABLE && NoneBreaks(w, cfg, es, i)
    ensures Within(Handed(w, cfg, es, i) + Run(w, cfg, es).sta[i].psq, Sends(es, i))
  {
    RestIsInvariant(w, 0);
    LeavesInOrder(w, cfg, es, i);
    assert [] + Sends(es, i) == Sends(es, i);
  }
}
