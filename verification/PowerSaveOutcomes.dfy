/** What one packet, one report or one maintenance pass comes to, said of the state before and after. */
module PowerSaveOutcomes {
  import opened Octets
  import opened PowerSave
  import opened PowerSaveLaws
  import opened PowerSaveRuns

  /** No TIM bit other than that of station aid in its BSS differs. */
  ghost predicate OtherBits(w: World, w': World, bss: nat, aid: nat) {
    |w'.tim| == |w.tim| && forall b: nat, k: nat | b < |w.tim| && !(b == bss && k == aid) :: k in w'.tim[b] <==> k in w.tim[b]
  }

  /** Where a packet goes. For an associated client in power save it joins the queue, and the station's TIM bit is set,
      while fewer than 128 wait; for any other client it joins the transmit queue while that has room; in every other
      case it is released. Nothing else changes. */
  lemma SendOutcome(w: World, cfg: Config, i: nat, id: nat, q: nat, refused: bool)
    requires Inv(w) && i < TABLE && q < 4
    ensures var w', s := Send(w, cfg, i, id, q, refused), w.sta[i];
            if s.client && !refused && s.saving && s.assoc && |s.psq| < 128
            then && w'.sta == w.sta[i := s.(psq := s.psq + [id])] && w'.txq == w.txq && w'.gone == w.gone
                 && TimBit(w', s.bss, i) && OtherBits(w, w', s.bss, i)
            else if s.client && !refused && !(s.saving && s.assoc) && |w.txq[q]| < cfg.txqMax
            then w' == w.(txq := w.txq[q := w.txq[q] + [Frame(id, false)]])
            else w' == w.(gone := w.gone + [id])
  {
    assert StationOk(w, i);
  }

  /** A report of a station's power management puts it into the reported mode, waiting packets or not. Awake after
      dozing, under its own address, it is handed all its packets, in their order; otherwise no packet moves. */
  lemma IndicateOutcome(w: World, i: nat, addr: Mac, saving: bool)
    requires Inv(w) && i < TABLE && w.sta[i].client
    ensures var w', s := Indicate(w, i, addr, saving), w.sta[i];
            && w'.sta[i].saving == saving && w'.sta[i].noDataIdle == 0 && w'.sta[i].assoc == s.assoc && w'.sta[i].client
            && w'.gone == w.gone && (forall k | 0 <= k < TABLE && k != i :: w'.sta[k] == w.sta[k])
            && if s.saving && !saving && addr == s.addr
               then w'.sta[i].psq == [] && Ids(w'.txq[BE]) == Ids(w.txq[BE]) + s.psq && !TimBit(w', s.bss, i)
               else w'.sta[i].psq == s.psq && w'.txq == w.txq && w'.tim == w.tim
  {
    assert StationOk(w, i);
  }

  /** A station that joins is awake, not associated, with nothing waiting and all counters at zero. */
  lemma JoinOutcome(w: World, i: nat, addr: Mac, bss: nat)
    requires Inv(w) && 0 < i < TABLE && bss < |w.tim| && !w.sta[i].client
    ensures var w', s := Join(w, i, addr, bss), Join(w, i, addr, bss).sta[i];
            && w' == w.(sta := w.sta[i := s])
            && s.client && !s.assoc && !s.saving && s.aid == i && s.addr == addr && s.bss == bss
            && s.psq == [] && s.psqIdle == 0 && s.noDataIdle == 0 && s.keepAlive == 0 && s.txFail == 0
  {
  }

  /** A deletion takes a client under its own index and address, releases its packets in their order and leaves the
      TIM bit; under any other it takes nobody. */
  lemma DropOutcome(w: World, i: nat, addr: Mac)
    requires Inv(w) && i < TABLE
    ensures var w', s := Drop(w, i, addr), w.sta[i];
            && w'.tim == w.tim && w'.txq == w.txq
            && if s.client && s.addr == addr
               then !w'.sta[i].client && w'.sta[i].psq == [] && w'.gone == w.gone + s.psq && w'.sta[i].saving == s.saving
                    && w'.sta[i].assoc == s.assoc && (forall k | 0 <= k < TABLE && k != i :: w'.sta[k] == w.sta[k])
               else w' == w
  {
  }

  /** The hardware takes the oldest frame of a transmit queue, and with it the packet leaves. */
  lemma TransmitOutcome(w: World, q: nat)
    requires Shape(w) && q < 4
    ensures var w', fs := Transmit(w, q), w.txq[q];
            if fs == [] then w' == w
            else w'.sta == w.sta && w'.tim == w.tim && w'.gone == w.gone + [fs[0].id] && fs == [fs[0]] + w'.txq[q]
                 && forall p | 0 <= p < 4 && p != q :: w'.txq[p] == w.txq[p]
  {
  }

  // ---- One turn of a maintenance pass --------------------------------------------------------------

  /** The client is removed by this turn: unassociated for too long, or due to leave with its farewell sent or not
      needed. */
  predicate Removed(s: Station, cfg: Config, memory: bool) {
    || (!s.assoc && s.noDataIdle + 1 >= cfg.assocDeadline)
    || ((s.noDataIdle + 1 >= cfg.idleTimeout || (s.txFail >= cfg.lifeCheck && !s.saving)) && (!s.assoc || memory))
  }

  /** A turn over a client. It goes exactly when it is to be removed, its packets released; stuck, it keeps them;
      otherwise its queue, if any, is released at the third pass, with its TIM bit, and counted up before. */
  lemma TurnOutcome(w: World, cfg: Config, i: nat, memory: bool)
    requires Inv(w) && i < TABLE && w.sta[i].client
    ensures var w', s := MaintainOne(w, cfg, i, memory), w.sta[i];
            var s' := w'.sta[i];
            && w'.txq == w.txq && s'.noDataIdle == s.noDataIdle + 1
            && (!s'.client <==> Removed(s, cfg, memory))
            && if Removed(s, cfg, memory) then s'.psq == [] && w'.gone == w.gone + s.psq
               else if Stuck(s, cfg, memory) then s'.psq == s.psq && s'.psqIdle == s.psqIdle && w'.gone == w.gone
               else if s.psq == [] then s'.psq == [] && s'.psqIdle == 0 && w'.gone == w.gone
               else if s.psqIdle < 2 then s'.psq == s.psq && s'.psqIdle == s.psqIdle + 1 && w'.gone == w.gone
               else s'.psq == [] && s'.psqIdle == 0 && w'.gone == w.gone + s.psq && !TimBit(w', s.bss, i)
  {
    assert StationOk(w, i);
    CountedTicks(w, cfg, i);
    ProbedTicks(Counted(w, cfg, i), cfg, i);
  }

  /** A turn over a client that stays probes it when it has been silent for the keep-alive time and no probe is being
      counted: a dozing one by its TIM bit, unless the same turn releases its packets. */
  lemma ProbeOutcome(w: World, cfg: Config, i: nat, memory: bool)
    requires Inv(w) && i < TABLE && w.sta[i].client && !Removed(w.sta[i], cfg, memory)
    ensures var w', s := MaintainOne(w, cfg, i, memory), w.sta[i];
            var due := cfg.keepAliveTime > 0 && s.noDataIdle + 1 >= cfg.keepAliveTime;
            var counted := if s.noDataIdle == 0 then 0 else s.keepAlive;
            && (w'.sta[i].keepAlive == if !due then counted else if counted == 0 then 1
                                       else if counted + 1 >= cfg.keepAliveTime then 0 else counted + 1)
            && (due && counted == 0 && s.saving && (s.psq == [] || s.psqIdle < 2) ==> TimBit(w', s.bss, i))
            && (!due || counted > 0 || !s.saving ==> w'.tim == w.tim || (s.psq != [] && s.psqIdle == 2))
            && OtherBits(w, w', s.bss, i)
  {
    assert StationOk(w, i);
  }

  // ---- A run with a packet waiting ------------------------------------------------------------------

  /** From start-up a station can join, associate and doze, and a packet sent to it then waits, announced. */
  lemma WaitingRun(w: World, cfg: Config, i: nat, addr: Mac, bss: nat, id: nat) returns (es: seq<Event>)
    requires AtRest(w) && 0 < i < TABLE && bss < |w.tim|
    ensures Valid(w, cfg, es)
    ensures var w' := Run(w, cfg, es);
            bss < |w'.tim| && w'.sta[i].psq == [id] && TimBit(w', bss, i)
  {
    var join, assoc, doze, send := EJoin(i, addr, bss), EAssoc(i, true), EIndicate(i, addr, true), ESend(i, id, 0, false);
    var w1 := Step(w, cfg, join);
    var w2 := Step(w1, cfg, assoc);
    var w3 := Step(w2, cfg, doze);
    var w4 := Step(w3, cfg, send);
    assert w4.sta[i].psq == [id] && bss < |w4.tim| && TimBit(w4, bss, i);
    es := [join, assoc, doze, send];
    OneStep(w3, cfg, [send]);
    OneStep(w2, cfg, [doze, send]);
    OneStep(w1, cfg, [assoc, doze, send]);
    OneStep(w, cfg, es);
  }

  lemma OneStep(w: World, cfg: Config, es: seq<Event>)
    requires Shape(w) && es != [] && Enabled(w, es[0]) && Valid(Step(w, cfg, es[0]), cfg, es[1..])
    ensures Valid(w, cfg, es) && Run(w, cfg, es) == Run(Step(w, cfg, es[0]), cfg, es[1..])
  {
  }
}
