/** Runs of the power-save handlers: conservation, arrival order, announcement and bounded stay, for every
    interleaving of their steps. */
module PowerSaveRuns {
  import opened Octets
  import opened PowerSave
  import opened PowerSaveLaws
  import Tim

  ghost predicate Valid(w: World, cfg: Config, es: seq<Event>)
    requires Shape(w)
    decreases |es|
  {
    es == [] || (Enabled(w, es[0]) && Valid(Step(w, cfg, es[0]), cfg, es[1..]))
  }

  ghost function Run(w: World, cfg: Config, es: seq<Event>): (w': World)
    requires Shape(w) && Valid(w, cfg, es)
    ensures Shape(w')
    decreases |es|
  {
    if es == [] then w else Run(Step(w, cfg, es[0]), cfg, es[1..])
  }

  /** The state at start-up: no client, nothing queued. */
  ghost predicate AtRest(w: World) {
    && Shape(w) && w.txq == [[], [], [], []] && w.gone == []
    && forall i | 0 <= i < TABLE :: !w.sta[i].client && w.sta[i].psq == [] && w.sta[i].psqIdle == 0
  }

  lemma RestIsInvariant(w: World, id: nat)
    requires AtRest(w)
    ensures Inv(w) && Places(w, id) == 0
  {
    NoneWaiting(w.sta, id);
    NoneLeaving(w.txq, id);
  }

  lemma {:induction false} NoneLeaving(txq: seq<seq<Frame>>, id: nat)
    requires forall q | 0 <= q < |txq| :: txq[q] == []
    ensures Leaving4(txq, id) == 0
  {
    if txq != [] {
      NoneLeaving(txq[1..], id);
    }
  }

  lemma {:induction false} NoneWaiting(sta: seq<Station>, id: nat)
    requires forall i | 0 <= i < |sta| :: sta[i].psq == []
    ensures Waiting(sta, id) == 0
  {
    if sta != [] {
      NoneWaiting(sta[1..], id);
    }
  }

  // ---- Conservation ------------------------------------------------------------------------

  /** How often the run brings the packet in. */
  ghost function Sent(es: seq<Event>, id: nat): nat {
    if es == [] then 0 else Brought(es[0], id) + Sent(es[1..], id)
  }

  /** The invariant holds in every reachable state, and every packet brought in is still accounted for. */
  lemma {:induction false} RunKept(w: World, cfg: Config, es: seq<Event>, id: nat)
    requires Inv(w) && Valid(w, cfg, es)
    ensures Inv(Run(w, cfg, es))
    ensures |Run(w, cfg, es).tim| == |w.tim|
    ensures Places(Run(w, cfg, es), id) == Places(w, id) + Sent(es, id)
    decreases |es|
  {
    if es != [] {
      StepKept(w, cfg, es[0], id);
      RunKept(Step(w, cfg, es[0]), cfg, es[1..], id);
    }
  }

  ghost predicate IsWaiting(w: World, id: nat) {
    exists i | 0 <= i < |w.sta| :: id in w.sta[i].psq
  }

  ghost predicate OnQueue(fs: seq<Frame>, id: nat) {
    exists j | 0 <= j < |fs| :: fs[j].id == id
  }

  ghost predicate IsLeaving(w: World, id: nat) {
    exists q | 0 <= q < |w.txq| :: OnQueue(w.txq[q], id)
  }

  lemma {:induction false} CountIn(q: seq<nat>, id: nat)
    ensures Count(q, id) > 0 <==> id in q
  {
    if q != [] {
      CountIn(q[1..], id);
      assert q == [q[0]] + q[1..];
    }
  }

  lemma {:induction false} FrameCountIn(q: seq<Frame>, id: nat)
    ensures FrameCount(q, id) > 0 <==> OnQueue(q, id)
  {
    if q != [] {
      FrameCountIn(q[1..], id);
      if OnQueue(q, id) {
        var j :| 0 <= j < |q| && q[j].id == id;
        assert j > 0 ==> q[1..][j - 1].id == id;
      }
      if OnQueue(q[1..], id) {
        var j :| 0 <= j < |q| - 1 && q[1..][j].id == id;
        assert q[j + 1].id == id;
      }
    }
  }

  lemma {:induction false} WaitingIn(sta: seq<Station>, id: nat)
    ensures Waiting(sta, id) > 0 <==> exists i | 0 <= i < |sta| :: id in sta[i].psq
  {
    if sta != [] {
      CountIn(sta[0].psq, id);
      WaitingIn(sta[1..], id);
      if i :| 0 <= i < |sta| && id in sta[i].psq {
        assert i > 0 ==> id in sta[1..][i - 1].psq;
      }
      if i :| 0 <= i < |sta[1..]| && id in sta[1..][i].psq {
        assert id in sta[i + 1].psq;
      }
    }
  }

  lemma {:induction false} LeavingIn(txq: seq<seq<Frame>>, id: nat)
    ensures Leaving4(txq, id) > 0 <==> exists q | 0 <= q < |txq| :: OnQueue(txq[q], id)
  {
    if txq != [] {
      FrameCountIn(txq[0], id);
      LeavingIn(txq[1..], id);
      if q :| 0 <= q < |txq| && OnQueue(txq[q], id) {
        assert q > 0 ==> OnQueue(txq[1..][q - 1], id);
      }
      if q :| 0 <= q < |txq[1..]| && OnQueue(txq[1..][q], id) {
        assert OnQueue(txq[q + 1], id);
      }
    }
  }

  /** A packet brought in once, and new to the system, is afterwards in exactly one of the three places. */
  lemma ExactlyOnePlace(w: World, cfg: Config, es: seq<Event>, id: nat)
    requires Inv(w) && Valid(w, cfg, es) && Places(w, id) == 0 && Sent(es, id) == 1
    ensures var w' := Run(w, cfg, es);
            && (IsWaiting(w', id) || IsLeaving(w', id) || id in w'.gone)
            && !(IsWaiting(w', id) && IsLeaving(w', id))
            && !(IsWaiting(w', id) && id in w'.gone)
            && !(IsLeaving(w', id) && id in w'.gone)
    ensures Places(Run(w, cfg, es), id) == 1
  {
    var w' := Run(w, cfg, es);
    RunKept(w, cfg, es, id);
    WaitingIn(w'.sta, id);
    LeavingIn(w'.txq, id);
    CountIn(w'.gone, id);
  }

  // ---- Arrival order -------------------------------------------------------------------------

  ghost predicate IsSuffix(s: seq<nat>, q: seq<nat>) {
    |s| <= |q| && s == q[|q| - |s|..]
  }

  /** What a step put on a queue. */
  ghost function Arrived(q: seq<nat>, q': seq<nat>): seq<nat> {
    if |q'| > |q| then q'[|q|..] else []
  }

  /** The packets the run puts on station i's queue, in order of arrival. */
  ghost function Accepted(w: World, cfg: Config, es: seq<Event>, i: nat): seq<nat>
    requires Shape(w) && Valid(w, cfg, es) && i < TABLE
    decreases |es|
  {
    if es == [] then []
    else
      var w1 := Step(w, cfg, es[0]);
      Arrived(w.sta[i].psq, w1.sta[i].psq) + Accepted(w1, cfg, es[1..], i)
  }

  lemma SuffixStep(q: seq<nat>, q1: seq<nat>, m: seq<nat>, r: seq<nat>)
    requires Queued(q, q1) && IsSuffix(r, q1 + m)
    ensures IsSuffix(r, q + (Arrived(q, q1) + m))
  {
    if |q1| > |q| {
      assert q1 == q + Arrived(q, q1);
      assert q1 + m == q + (Arrived(q, q1) + m);
    } else {
      assert q + (Arrived(q, q1) + m) == q[..|q| - |q1|] + (q1 + m);
    }
  }

  /** First in, first out: what waits at the end is a suffix of what waited at the start followed by what
      arrived since, in order of arrival. So the packets that left did so oldest first. */
  lemma {:induction false} FirstInFirstOut(w: World, cfg: Config, es: seq<Event>, i: nat)
    requires Inv(w) && Valid(w, cfg, es) && i < TABLE
    ensures IsSuffix(Run(w, cfg, es).sta[i].psq, w.sta[i].psq + Accepted(w, cfg, es, i))
    decreases |es|
  {
    if es == [] {
      assert w.sta[i].psq + [] == w.sta[i].psq;
    } else {
      var w1 := Step(w, cfg, es[0]);
      StepKept(w, cfg, es[0], 0);
      FirstInFirstOut(w1, cfg, es[1..], i);
      SuffixStep(w.sta[i].psq, w1.sta[i].psq, Accepted(w1, cfg, es[1..], i), Run(w1, cfg, es[1..]).sta[i].psq);
    }
  }

  /** A later packet never leaves before an earlier one: while the earlier one waits, so does the later one. */
  lemma NoOvertaking(w: World, cfg: Config, es: seq<Event>, i: nat, x: nat, y: nat)
    requires Inv(w) && Valid(w, cfg, es) && i < TABLE && x < y < |w.sta[i].psq|
    requires Count(w.sta[i].psq + Accepted(w, cfg, es, i), w.sta[i].psq[x]) == 1
    ensures var q, r := w.sta[i].psq, Run(w, cfg, es).sta[i].psq;
            q[x] in r ==> exists k | 0 <= k < |r| - (y - x) :: r[k] == q[x] && r[k + (y - x)] == q[y]
  {
    var q, m, r := w.sta[i].psq, Accepted(w, cfg, es, i), Run(w, cfg, es).sta[i].psq;
    FirstInFirstOut(w, cfg, es, i);
    if q[x] in r {
      BehindInSuffix(q + m, r, x, y);
      assert (q + m)[x] == q[x] && (q + m)[y] == q[y];
    }
  }

  lemma BehindInSuffix(q: seq<nat>, r: seq<nat>, x: nat, y: nat)
    requires IsSuffix(r, q) && x < y < |q| && Count(q, q[x]) == 1 && q[x] in r
    ensures exists k | 0 <= k < |r| - (y - x) :: r[k] == q[x] && r[k + (y - x)] == q[y]
  {
    var d := |q| - |r|;
    assert forall k | 0 <= k < |r| :: r[k] == q[d + k];
    var k: nat :| k < |r| && r[k] == q[x];
    OnlyPosition(q, q[x], x, d + k);
    assert r[k + (y - x)] == q[d + (k + (y - x))] == q[y];
  }

  lemma {:induction false} OnlyPosition(q: seq<nat>, id: nat, x: nat, y: nat)
    requires Count(q, id) == 1 && x < |q| && y < |q| && q[x] == id && q[y] == id
    ensures x == y
  {
    CountIn(q[1..], id);
    assert x > 0 ==> q[1..][x - 1] == id;
    assert y > 0 ==> q[1..][y - 1] == id;
    if x > 0 && y > 0 {
      OnlyPosition(q[1..], id, x - 1, y - 1);
    }
  }

  // ---- Delivery ------------------------------------------------------------------------------

  ghost function Ids(fs: seq<Frame>): (ids: seq<nat>)
    ensures |ids| == |fs| && forall j | 0 <= j < |fs| :: ids[j] == fs[j].id
  {
    seq(|fs|, j requires 0 <= j < |fs| => fs[j].id)
  }

  /** A PS-Poll or a wake-up hands the oldest packets to the best-effort queue in their order: one packet or
      all of them. More Data is set exactly on a polled packet that leaves others behind, and the TIM bit is
      cleared exactly when nothing is left. */
  lemma HandedInOrder(w: World, i: nat, addr: Mac, active: bool)
    requires Inv(w) && 0 < i < TABLE && w.sta[i].addr == addr
    ensures var w', q := if active then Wake(w, i, addr) else Poll(w, i, addr), w.sta[i].psq;
            var k := if active then |q| else if q == [] then 0 else 1;
            && w'.sta[i].psq == q[k..]
            && Ids(w'.txq[BE]) == Ids(w.txq[BE]) + q[..k]
            && (forall j | |w.txq[BE]| <= j < |w'.txq[BE]| :: w'.txq[BE][j].more <==> w'.sta[i].psq != [])
            && TimBit(w', w.sta[i].bss, i) == (w'.sta[i].psq != [] && TimBit(w, w.sta[i].bss, i))
  {
    assert StationOk(w, i);
  }

  // ---- Bounded stay --------------------------------------------------------------------------

  /** The passes of the run that count for station i: those in which it is not stuck. */
  ghost function Passes(w: World, cfg: Config, es: seq<Event>, i: nat): nat
    requires Shape(w) && Valid(w, cfg, es) && i < TABLE
    decreases |es|
  {
    if es == [] then 0
    else
      (if es[0].EMaintain? && !Stuck(w.sta[i], cfg, es[0].memory[i]) then 1 else 0)
      + Passes(Step(w, cfg, es[0]), cfg, es[1..], i)
  }

  lemma StepAges(w: World, cfg: Config, e: Event, i: nat)
    requires Inv(w) && Enabled(w, e) && 0 < i < TABLE
    ensures Aged(w.sta[i], Step(w, cfg, e).sta[i], if e.EMaintain? && !Stuck(w.sta[i], cfg, e.memory[i]) then 1 else 0)
  {
    StepKept(w, cfg, e, 0);
    if e.EMaintain? {
      MaintainFromKept(w, cfg, 1, e.memory, 0);
    }
  }

  lemma OnceLeft(w: World, cfg: Config, e: Event, i: nat, id: nat)
    requires Inv(w) && Enabled(w, e) && i < TABLE && Brought(e, id) == 0 && id !in w.sta[i].psq
    ensures id !in Step(w, cfg, e).sta[i].psq
  {
    StepKept(w, cfg, e, 0);
    var q, q' := w.sta[i].psq, Step(w, cfg, e).sta[i].psq;
    if |q'| > |q| {
      NewIsSent(w, cfg, e, i);
      assert q' == q + [q'[|q|]];
    }
  }

  /** Only a send lengthens a queue, and by the packet sent. */
  lemma NewIsSent(w: World, cfg: Config, e: Event, i: nat)
    requires Inv(w) && Enabled(w, e) && i < TABLE && |Step(w, cfg, e).sta[i].psq| > |w.sta[i].psq|
    ensures e.ESend? && e.i == i && Step(w, cfg, e).sta[i].psq[|w.sta[i].psq|] == e.id
  {
    if e.ESend? {
      SendGood(w, cfg, e.i, e.id, e.q, e.refused, 0);
    } else if e.EMaintain? {
      MaintainFromShrinks(w, cfg, 1, e.memory, i);
    }
  }

  lemma DropShrinks(w: World, k: nat, addr: Mac, i: nat)
    requires Shape(w) && k < TABLE && i < TABLE
    ensures |Drop(w, k, addr).sta[i].psq| <= |w.sta[i].psq|
  {
  }

  lemma MaintainOneShrinks(w: World, cfg: Config, k: nat, memory: bool, i: nat)
    requires Shape(w) && k < TABLE && i < TABLE
    ensures |MaintainOne(w, cfg, k, memory).sta[i].psq| <= |w.sta[i].psq|
  {
    var w1 := Counted(w, cfg, k);
    assert w1.sta[i].psq == w.sta[i].psq;
    var w2 := Probed(w1, cfg, k);
    assert w2.sta[i].psq == w.sta[i].psq;
    assert |Collected(w2, k).sta[i].psq| <= |w2.sta[i].psq|;
    DropShrinks(w1, w1.sta[k].aid, w1.sta[k].addr, i);
    DropShrinks(w2, w2.sta[k].aid, w2.sta[k].addr, i);
  }

  lemma {:induction false} MaintainFromShrinks(w: World, cfg: Config, k: nat, memory: seq<bool>, i: nat)
    requires Shape(w) && k <= TABLE && |memory| == TABLE && i < TABLE
    ensures |MaintainFrom(w, cfg, k, memory).sta[i].psq| <= |w.sta[i].psq|
    decreases TABLE - k
  {
    if k < TABLE {
      MaintainOneShrinks(w, cfg, k, memory[k], i);
      MaintainFromShrinks(MaintainOne(w, cfg, k, memory[k]), cfg, k + 1, memory, i);
    }
  }

  lemma {:induction false} NeverBack(w: World, cfg: Config, es: seq<Event>, i: nat, id: nat)
    requires Inv(w) && Valid(w, cfg, es) && i < TABLE && Sent(es, id) == 0 && id !in w.sta[i].psq
    ensures id !in Run(w, cfg, es).sta[i].psq
    decreases |es|
  {
    if es != [] {
      StepKept(w, cfg, es[0], 0);
      OnceLeft(w, cfg, es[0], i, id);
      NeverBack(Step(w, cfg, es[0]), cfg, es[1..], i, id);
    }
  }

  /** While a packet waits, the passes over its station are counted. */
  lemma {:induction false} PassesCounted(w: World, cfg: Config, es: seq<Event>, i: nat, id: nat)
    requires Inv(w) && Valid(w, cfg, es) && i < TABLE && Sent(es, id) == 0
    requires id in w.sta[i].psq && id in Run(w, cfg, es).sta[i].psq
    ensures w.sta[i].psqIdle + Passes(w, cfg, es, i) <= Run(w, cfg, es).sta[i].psqIdle <= 2
    decreases |es|
  {
    assert StationOk(w, i);
    if es != [] {
      var w1 := Step(w, cfg, es[0]);
      StepKept(w, cfg, es[0], 0);
      if id !in w1.sta[i].psq {
        NeverBack(w1, cfg, es[1..], i, id);
        assert false;
      }
      StepAges(w, cfg, es[0], i);
      PassesCounted(w1, cfg, es[1..], i, id);
    }
  }

  /** No packet stays in a power-save queue past the third maintenance pass that counts for its station. */
  lemma GoneAfterThreePasses(w: World, cfg: Config, es: seq<Event>, i: nat, id: nat)
    requires Inv(w) && Valid(w, cfg, es) && i < TABLE && Sent(es, id) == 0 && Passes(w, cfg, es, i) >= 3
    ensures id !in Run(w, cfg, es).sta[i].psq
  {
    if id !in w.sta[i].psq {
      NeverBack(w, cfg, es, i, id);
    } else if id in Run(w, cfg, es).sta[i].psq {
      PassesCounted(w, cfg, es, i, id);
    }
  }

  /** Allocation is what the bound rests on: while its station is stuck a queue and its pass count stay, and so
      does the station's being due to leave; with memory the same pass would have released the queue. */
  lemma StaysWithoutMemory(w: World, cfg: Config, i: nat)
    requires Inv(w) && i < TABLE && Stuck(w.sta[i], cfg, false)
    ensures var s' := MaintainOne(w, cfg, i, false).sta[i];
            s'.client && s'.psq == w.sta[i].psq && s'.psqIdle == w.sta[i].psqIdle && Stuck(s', cfg, false)
    ensures MaintainOne(w, cfg, i, true).sta[i].psq == []
  {
    assert StationOk(w, i);
    CountedTicks(w, cfg, i);
    ProbedTicks(Counted(w, cfg, i), cfg, i);
  }

  // ---- Announcement --------------------------------------------------------------------------

  /** In every reachable state a station with packets waiting is announced by the TIM element of its BSS,
      unless the element's sentinel lost the first octet and the station's identifier is below 8. */
  lemma WaitingIsAnnounced(w: World, cfg: Config, es: seq<Event>, i: nat,
                           bitmap: seq<byte>, dtimCount: byte, dtimPeriod: byte, first: nat, last: nat)
    requires Inv(w) && Valid(w, cfg, es) && i < TABLE && Run(w, cfg, es).sta[i].psq != []
    requires |bitmap| == TIM_OCTETS
    requires Marks(bitmap) == Run(w, cfg, es).tim[Run(w, cfg, es).sta[i].bss]
    requires Tim.IsFirst(bitmap, first) && Tim.IsLast(bitmap, last) && first <= last
    ensures var d := Tim.Decode(Tim.Element(bitmap, dtimCount, dtimPeriod, first - first % 2, last));
            && d.Some?
            && (Tim.Announced(d.value, i) <==> !(i < 8 && Tim.FirstOctetLost(bitmap)))
  {
    RunKept(w, cfg, es, 0);
    var w' := Run(w, cfg, es);
    assert StationOk(w', i);
    assert i in Marks(bitmap);
    Tim.DecodeElement(bitmap, dtimCount, dtimPeriod, first, last, i);
  }

  // ---- From start-up -------------------------------------------------------------------------

  /** Every reachable state: a packet brought in once is in exactly one of the three places, each queue holds its
      station's packets in order of arrival, oldest released first, and a waiting station has its TIM bit. */
  lemma EveryReachableState(w: World, cfg: Config, es: seq<Event>, i: nat, id: nat)
    requires AtRest(w) && Valid(w, cfg, es) && i < TABLE
    ensures var w' := Run(w, cfg, es);
            && Inv(w') && Places(w', id) == Sent(es, id)
            && IsSuffix(w'.sta[i].psq, Accepted(w, cfg, es, i))
            && (w'.sta[i].psq != [] ==> w'.sta[i].client && TimBit(w', w'.sta[i].bss, i))
    ensures Sent(es, id) == 1 ==>
            var w' := Run(w, cfg, es);
            (IsWaiting(w', id) || IsLeaving(w', id) || id in w'.gone)
            && !(IsWaiting(w', id) && IsLeaving(w', id))
            && !(IsWaiting(w', id) && id in w'.gone)
            && !(IsLeaving(w', id) && id in w'.gone)
  {
    RestIsInvariant(w, id);
    RunKept(w, cfg, es, id);
    FirstInFirstOut(w, cfg, es, i);
    assert StationOk(Run(w, cfg, es), i);
    assert [] + Accepted(w, cfg, es, i) == Accepted(w, cfg, es, i);
    if Sent(es, id) == 1 {
      ExactlyOnePlace(w, cfg, es, id);
    }
  }
}
