/** What every run of the power-save handlers keeps: no packet is lost or duplicated, queues are first-in
    first-out, a waiting station is announced in the beacon, and nothing waits past three passes. */
module PowerSaveLaws {
  import opened Octets
  import opened PowerSave
  import Tim

  // ---- The invariant ---------------------------------------------------------------------

  ghost predicate StationOk(w: World, i: nat)
    requires Shape(w) && i < TABLE
  {
    var s := w.sta[i];
    && (s.client ==> i > 0 && s.aid == i)
    && (s.psq != [] ==> s.client && TimBit(w, s.bss, i))
    && |s.psq| <= MAX_PS_PACKETS && s.psqIdle <= 2
  }

  ghost predicate Inv(w: World) {
    Shape(w) && forall i | 0 <= i < TABLE :: StationOk(w, i)
  }

  /** Only station i and its TIM bits may differ. */
  ghost predicate OnlyAt(w: World, w': World, i: nat) {
    && Shape(w) && Shape(w') && i < TABLE && |w.tim| == |w'.tim|
    && (forall j | 0 <= j < TABLE && j != i :: w'.sta[j] == w.sta[j])
    && (forall b, aid: nat | 0 <= b < |w.tim| && aid < TABLE && aid != i :: TimBit(w', b, aid) == TimBit(w, b, aid))
  }

  lemma OthersOk(w: World, w': World, i: nat)
    requires Inv(w) && OnlyAt(w, w', i) && StationOk(w', i)
    ensures Inv(w')
  {
    forall j | 0 <= j < TABLE ensures StationOk(w', j) {
      assert StationOk(w, j);
    }
  }

  /** A step that leaves the bitmaps alone and changes at most station i. */
  lemma BitmapsAlone(w: World, w': World, i: nat)
    requires Shape(w) && Shape(w') && i < TABLE && w'.tim == w.tim
    requires forall j | 0 <= j < TABLE && j != i :: w'.sta[j] == w.sta[j]
    ensures OnlyAt(w, w', i)
    ensures forall b: nat | b < |w.tim| :: TimBit(w', b, i) == TimBit(w, b, i)
  {
  }

  /** Rewriting one station, with a queue that is not fuller than an announced one, keeps the invariant. */
  lemma SwapOk(w: World, w': World, i: nat)
    requires Inv(w) && Shape(w') && i < TABLE && w'.tim == w.tim
    requires forall j | 0 <= j < TABLE && j != i :: w'.sta[j] == w.sta[j]
    requires var s, s' := w.sta[i], w'.sta[i];
             && (s'.client ==> i > 0 && s'.aid == i) && |s'.psq| <= MAX_PS_PACKETS && s'.psqIdle <= 2
             && (s'.psq != [] ==> s.psq != [] && s'.client && s'.bss == s.bss)
    ensures Inv(w') && OnlyAt(w, w', i)
  {
    BitmapsAlone(w, w', i);
    forall j | 0 <= j < TABLE ensures StationOk(w', j) {
      assert StationOk(w, j);
    }
  }

  lemma MarkLocal(w: World, bss: nat, i: nat, on: bool)
    requires Shape(w) && bss < |w.tim| && i < TABLE
    ensures OnlyAt(w, Mark(w, bss, i, on), i)
    ensures TimBit(Mark(w, bss, i, on), bss, i) == on
  {
  }

  /** Marking a station announced keeps the invariant. */
  lemma MarkedOk(w: World, bss: nat, i: nat)
    requires Inv(w) && bss < |w.tim| && i < TABLE
    ensures Inv(Mark(w, bss, i, true)) && OnlyAt(w, Mark(w, bss, i, true), i)
  {
    MarkLocal(w, bss, i, true);
    assert StationOk(w, i);
    OthersOk(w, Mark(w, bss, i, true), i);
  }

  lemma OnlyAtCompose(w: World, w1: World, w': World, i: nat)
    requires OnlyAt(w, w1, i) && OnlyAt(w1, w', i)
    ensures OnlyAt(w, w', i)
  {
  }

  // ---- What one step does to one queue -----------------------------------------------------

  /** A queue only loses packets at its front and only gains one at its back. */
  ghost predicate Queued(q: seq<nat>, q': seq<nat>) {
    if |q'| <= |q| then q' == q[|q| - |q'|..] else |q'| == |q| + 1 && q'[..|q|] == q
  }

  // ---- Where a packet is -----------------------------------------------------------------

  ghost function Count(q: seq<nat>, id: nat): nat {
    if q == [] then 0 else (if q[0] == id then 1 else 0) + Count(q[1..], id)
  }

  ghost function FrameCount(q: seq<Frame>, id: nat): nat {
    if q == [] then 0 else (if q[0].id == id then 1 else 0) + FrameCount(q[1..], id)
  }

  /** How often the packet waits in a power-save queue. */
  ghost function Waiting(sta: seq<Station>, id: nat): nat {
    if sta == [] then 0 else Count(sta[0].psq, id) + Waiting(sta[1..], id)
  }

  /** How often the packet is on a transmit queue. */
  ghost function Leaving4(txq: seq<seq<Frame>>, id: nat): nat {
    if txq == [] then 0 else FrameCount(txq[0], id) + Leaving4(txq[1..], id)
  }

  /** All places together. */
  ghost function Places(w: World, id: nat): nat {
    Waiting(w.sta, id) + Leaving4(w.txq, id) + Count(w.gone, id)
  }

  lemma {:induction false} WaitingUpdate(sta: seq<Station>, i: nat, s: Station, id: nat)
    requires i < |sta|
    ensures Waiting(sta[i := s], id) == Waiting(sta, id) - Count(sta[i].psq, id) + Count(s.psq, id)
  {
    if i == 0 {
      assert sta[0 := s][1..] == sta[1..];
    } else {
      assert sta[i := s][1..] == sta[1..][i - 1 := s];
      WaitingUpdate(sta[1..], i - 1, s, id);
    }
  }

  lemma {:induction false} LeavingUpdate(txq: seq<seq<Frame>>, q: nat, fs: seq<Frame>, id: nat)
    requires q < |txq|
    ensures Leaving4(txq[q := fs], id) == Leaving4(txq, id) - FrameCount(txq[q], id) + FrameCount(fs, id)
  {
    if q == 0 {
      assert txq[0 := fs][1..] == txq[1..];
    } else {
      assert txq[q := fs][1..] == txq[1..][q - 1 := fs];
      LeavingUpdate(txq[1..], q - 1, fs, id);
    }
  }

  lemma {:induction false} CountAppend(q: seq<nat>, r: seq<nat>, id: nat)
    ensures Count(q + r, id) == Count(q, id) + Count(r, id)
  {
    if q == [] {
      assert q + r == r;
    } else {
      assert (q + r)[1..] == q[1..] + r;
      CountAppend(q[1..], r, id);
    }
  }

  lemma {:induction false} FrameCountAppend(q: seq<Frame>, r: seq<Frame>, id: nat)
    ensures FrameCount(q + r, id) == FrameCount(q, id) + FrameCount(r, id)
  {
    if q == [] {
      assert q + r == r;
    } else {
      assert (q + r)[1..] == q[1..] + r;
      FrameCountAppend(q[1..], r, id);
    }
  }

  lemma {:induction false} FramesCount(ids: seq<nat>, id: nat)
    ensures FrameCount(Frames(ids), id) == Count(ids, id)
  {
    if ids != [] {
      assert Frames(ids)[1..] == Frames(ids[1..]);
      FramesCount(ids[1..], id);
    }
  }

  // ---- Handlers keep the invariant and the packets ------------------------------------------

  /** Handler contract: the invariant holds again, only station i changed, its queue is used first-in
      first-out, and every packet is where it was or moved, apart from `added` new ones. */
  ghost predicate Good(w: World, w': World, i: nat, id: nat, added: nat) {
    && Inv(w') && OnlyAt(w, w', i)
    && Queued(w.sta[i].psq, w'.sta[i].psq)
    && Aged(w.sta[i], w'.sta[i], 0)
    && Places(w', id) == Places(w, id) + added
  }

  /** While its queue is not empty, a station's pass counter does not fall; it rises by at least `passes`. */
  ghost predicate Aged(s: Station, s': Station, passes: nat) {
    s.psq != [] && s'.psq != [] ==> s'.psqIdle >= s.psqIdle + passes
  }

  ghost function One(a: nat, b: nat): nat {
    if a == b then 1 else 0
  }

  lemma NothingQueued(q: seq<nat>)
    ensures Queued(q, q) && Queued(q, [])
  {
  }

  lemma GoneGood(w: World, i: nat, new_id: nat, id: nat)
    requires Inv(w) && i < TABLE
    ensures Good(w, w.(gone := w.gone + [new_id]), i, id, One(new_id, id))
  {
    var w' := w.(gone := w.gone + [new_id]);
    CountAppend(w.gone, [new_id], id);
    NothingQueued(w.sta[i].psq);
    BitmapsAlone(w, w', i);
    assert StationOk(w, i);
    OthersOk(w, w', i);
  }

  lemma InsertPsGood(w: World, i: nat, new_id: nat, id: nat)
    requires Inv(w) && i < TABLE && w.sta[i].client
    ensures Good(w, InsertPs(w, i, new_id), i, id, One(new_id, id))
  {
    var s := w.sta[i];
    assert StationOk(w, i);
    if |s.psq| >= MAX_PS_PACKETS {
      GoneGood(w, i, new_id, id);
    } else {
      var w1 := w.(sta := w.sta[i := s.(psq := s.psq + [new_id])]);
      CountAppend(s.psq, [new_id], id);
      WaitingUpdate(w.sta, i, w1.sta[i], id);
      MarkLocal(w1, s.bss, i, true);
      OthersOk(w, InsertPs(w, i, new_id), i);
    }
  }

  lemma SendGood(w: World, cfg: Config, i: nat, new_id: nat, q: nat, refused: bool, id: nat)
    requires Inv(w) && i < TABLE && q < 4
    ensures Good(w, Send(w, cfg, i, new_id, q, refused), i, id, One(new_id, id))
  {
    var s := w.sta[i];
    if s.client && !refused && s.saving && s.assoc {
      InsertPsGood(w, i, new_id, id);
    } else if s.client && !refused && |w.txq[q]| < cfg.txqMax {
      var w' := Send(w, cfg, i, new_id, q, refused);
      FrameCountAppend(w.txq[q], [Frame(new_id, false)], id);
      LeavingUpdate(w.txq, q, w'.txq[q], id);
      NothingQueued(s.psq);
      BitmapsAlone(w, w', i);
      assert StationOk(w, i);
      OthersOk(w, w', i);
    } else {
      GoneGood(w, i, new_id, id);
    }
  }

  lemma SameGood(w: World, i: nat, id: nat)
    requires Inv(w) && i < TABLE
    ensures Good(w, w, i, id, 0)
  {
    NothingQueued(w.sta[i].psq);
    BitmapsAlone(w, w, i);
  }

  /** Handing over the first k packets and settling keeps everything. */
  lemma HandGood(w: World, i: nat, k: nat, frames: seq<Frame>, id: nat)
    requires Inv(w) && i < TABLE && k <= |w.sta[i].psq|
    requires FrameCount(frames, id) == Count(w.sta[i].psq[..k], id)
    ensures Good(w, Settle(Hand(w, i, w.sta[i].psq[k..], frames), i), i, id, 0)
  {
    var q := w.sta[i].psq;
    var w1 := Hand(w, i, q[k..], frames);
    assert q == q[..k] + q[k..];
    CountAppend(q[..k], q[k..], id);
    WaitingUpdate(w.sta, i, w1.sta[i], id);
    FrameCountAppend(w.txq[BE], frames, id);
    LeavingUpdate(w.txq, BE, w1.txq[BE], id);
    BitmapsAlone(w, w1, i);
    SettleGood(w, w1, i, k, id);
  }

  /** Settling keeps everything when the station's queue is a suffix of what it was. */
  lemma SettleGood(w: World, w1: World, i: nat, k: nat, id: nat)
    requires Inv(w) && OnlyAt(w, w1, i) && Places(w1, id) == Places(w, id)
    requires forall b: nat | b < |w.tim| :: TimBit(w1, b, i) == TimBit(w, b, i)
    requires var s, s1 := w.sta[i], w1.sta[i];
             && s1.client == s.client && s1.aid == s.aid && s1.bss == s.bss && s1.psqIdle == s.psqIdle
             && k <= |s.psq| && s1.psq == s.psq[k..]
    ensures Good(w, Settle(w1, i), i, id, 0)
  {
    var w2 := Settle(w1, i);
    var s1 := w1.sta[i];
    assert StationOk(w, i);
    if i > 0 && s1.psq == [] {
      var w3 := w1.(sta := w1.sta[i := s1.(psqIdle := 0)]);
      WaitingUpdate(w1.sta, i, w3.sta[i], id);
      MarkLocal(w3, s1.bss, i, false);
    }
    assert StationOk(w2, i);
    OthersOk(w, w2, i);
  }

  lemma PollGood(w: World, i: nat, addr: Mac, id: nat)
    requires Inv(w) && i < TABLE
    ensures Good(w, Poll(w, i, addr), i, id, 0)
  {
    var q := w.sta[i].psq;
    if w.sta[i].addr != addr {
      SameGood(w, i, id);
    } else if q == [] {
      HandGood(w, i, 0, [], id);
    } else {
      assert q[..1] == [q[0]];
      HandGood(w, i, 1, [Frame(q[0], |q| > 1)], id);
    }
  }

  lemma WakeGood(w: World, i: nat, addr: Mac, id: nat)
    requires Inv(w) && i < TABLE
    ensures Good(w, Wake(w, i, addr), i, id, 0)
  {
    var q := w.sta[i].psq;
    if w.sta[i].addr != addr {
      SameGood(w, i, id);
    } else {
      FramesCount(q, id);
      assert q[..|q|] == q && q[|q|..] == [];
      HandGood(w, i, |q|, Frames(q), id);
    }
  }

  /** Rewriting other fields of a station keeps everything. */
  lemma FieldsGood(w: World, i: nat, s': Station, id: nat)
    requires Inv(w) && i < TABLE
    requires var s := w.sta[i];
             && s'.psq == s.psq && s'.psqIdle == s.psqIdle && s'.bss == s.bss
             && s'.client == s.client && s'.aid == s.aid
    ensures Good(w, w.(sta := w.sta[i := s']), i, id, 0)
  {
    var w' := w.(sta := w.sta[i := s']);
    assert StationOk(w, i);
    SwapOk(w, w', i);
    WaitingUpdate(w.sta, i, s', id);
    NothingQueued(s'.psq);
  }

  lemma DroppedGood(w: World, i: nat, id: nat)
    requires Inv(w) && i < TABLE
    ensures var s := w.sta[i];
            Good(w, w.(sta := w.sta[i := s.(client := false, addr := ZERO_MAC, psq := [])], gone := w.gone + s.psq), i, id, 0)
  {
    var s := w.sta[i];
    var s' := s.(client := false, addr := ZERO_MAC, psq := []);
    assert StationOk(w, i);
    SwapOk(w, w.(sta := w.sta[i := s'], gone := w.gone + s.psq), i);
    WaitingUpdate(w.sta, i, s', id);
    CountAppend(w.gone, s.psq, id);
    NothingQueued(s.psq);
  }

  /** MacTableDeleteEntry releases the whole queue. */
  lemma DropGood(w: World, i: nat, addr: Mac, id: nat)
    requires Inv(w) && i < TABLE
    ensures Good(w, Drop(w, i, addr), i, id, 0)
  {
    var s := w.sta[i];
    if s.client && s.addr == addr {
      DroppedGood(w, i, id);
    } else {
      SameGood(w, i, id);
    }
  }

  lemma JoinGood(w: World, i: nat, addr: Mac, bss: nat, id: nat)
    requires Inv(w) && 0 < i < TABLE && bss < |w.tim| && !w.sta[i].client
    ensures Good(w, Join(w, i, addr, bss), i, id, 0)
  {
    var w' := Join(w, i, addr, bss);
    assert StationOk(w, i);
    SwapOk(w, w', i);
    WaitingUpdate(w.sta, i, w'.sta[i], id);
    NothingQueued([]);
  }

  lemma TransmitKept(w: World, q: nat, id: nat)
    requires Inv(w) && q < 4
    ensures Kept(w, Transmit(w, q), id, 0)
  {
    var w' := Transmit(w, q);
    if w.txq[q] != [] {
      var f := w.txq[q][0];
      LeavingUpdate(w.txq, q, w'.txq[q], id);
      CountAppend(w.gone, [f.id], id);
    }
    BitmapsAlone(w, w', 0);
    SameStations(w, w');
    forall j | 0 <= j < TABLE ensures StationOk(w', j) {
      assert StationOk(w, j);
    }
  }

  lemma GroupKept(w: World, bss: nat, on: bool, id: nat)
    requires Inv(w) && bss < |w.tim|
    ensures Kept(w, GroupMark(w, bss, on), id, 0)
  {
    var w' := GroupMark(w, bss, on);
    MarkLocal(w, bss, 0, on);
    assert StationOk(w, 0);
    OthersOk(w, w', 0);
    SameStations(w, w');
  }

  // ---- Steps -----------------------------------------------------------------------------

  /** Step contract: the invariant holds again, every queue is used first-in first-out, no pass counter of
      a waiting queue falls, and the packet is where it was or moved, apart from `added` new ones. */
  ghost predicate Kept(w: World, w': World, id: nat, added: nat) {
    && Inv(w) && Inv(w') && |w'.tim| == |w.tim|
    && (forall j | 0 <= j < TABLE :: Queued(w.sta[j].psq, w'.sta[j].psq) && Aged(w.sta[j], w'.sta[j], 0))
    && Places(w', id) == Places(w, id) + added
  }

  lemma SameStations(w: World, w': World)
    requires Inv(w) && w'.sta == w.sta
    ensures forall j | 0 <= j < TABLE :: Queued(w.sta[j].psq, w'.sta[j].psq) && Aged(w.sta[j], w'.sta[j], 0)
  {
    forall j | 0 <= j < TABLE ensures Queued(w.sta[j].psq, w'.sta[j].psq) {
      NothingQueued(w.sta[j].psq);
    }
  }

  lemma GoodKept(w: World, w': World, i: nat, id: nat, added: nat)
    requires Inv(w) && i < TABLE && Good(w, w', i, id, added)
    ensures Kept(w, w', id, added)
  {
    forall j | 0 <= j < TABLE ensures Queued(w.sta[j].psq, w'.sta[j].psq) && Aged(w.sta[j], w'.sta[j], 0) {
      if j != i {
        NothingQueued(w.sta[j].psq);
      }
    }
  }

  /** What a step does after a rewrite of other fields, it does from the start. */
  lemma AfterRewrite(w: World, i: nat, s1: Station, w': World, id: nat, added: nat)
    requires Inv(w) && i < TABLE
    requires s1.psq == w.sta[i].psq && s1.psqIdle == w.sta[i].psqIdle && s1.bss == w.sta[i].bss
    requires s1.client == w.sta[i].client && s1.aid == w.sta[i].aid
    requires Kept(w.(sta := w.sta[i := s1]), w', id, added)
    ensures Kept(w, w', id, added)
  {
    var w1 := w.(sta := w.sta[i := s1]);
    WaitingUpdate(w.sta, i, s1, id);
    forall j | 0 <= j < TABLE ensures Queued(w.sta[j].psq, w'.sta[j].psq) && Aged(w.sta[j], w'.sta[j], 0) {
      assert Queued(w1.sta[j].psq, w'.sta[j].psq) && Aged(w1.sta[j], w'.sta[j], 0);
    }
  }

  lemma IndicateKept(w: World, wcid: nat, addr: Mac, saving: bool, id: nat)
    requires Inv(w)
    ensures Kept(w, Indicate(w, wcid, addr, saving), id, 0)
  {
    if wcid >= TABLE {
      SameGood(w, 0, id);
      GoodKept(w, w, 0, id, 0);
    } else {
      var s := w.sta[wcid];
      var s1 := s.(noDataIdle := 0, saving := saving);
      var w1 := w.(sta := w.sta[wcid := s1]);
      FieldsGood(w, wcid, s1, id);
      if s.saving && !saving {
        WakeGood(w1, s.aid, addr, id);
        GoodKept(w1, Wake(w1, s.aid, addr), s.aid, id, 0);
        AfterRewrite(w, wcid, s1, Wake(w1, s.aid, addr), id, 0);
      } else {
        GoodKept(w, w1, wcid, id, 0);
      }
    }
  }

  // ---- The maintenance pass -----------------------------------------------------------------

  /** Nothing but counters and the TIM bit of station i changes. */
  ghost predicate Ticking(w: World, w': World, i: nat) {
    && Inv(w) && i < TABLE && Inv(w') && OnlyAt(w, w', i)
    && w'.txq == w.txq && w'.gone == w.gone
    && var s, s' := w.sta[i], w'.sta[i];
       s'.psq == s.psq && s'.psqIdle == s.psqIdle && s'.bss == s.bss && s'.client == s.client && s'.aid == s.aid
       && s'.addr == s.addr && s'.assoc == s.assoc && s'.saving == s.saving && s'.txFail == s.txFail
  }

  lemma CountedTicks(w: World, cfg: Config, i: nat)
    requires Inv(w) && i < TABLE
    ensures Ticking(w, Counted(w, cfg, i), i)
  {
    assert StationOk(w, i);
    SwapOk(w, Counted(w, cfg, i), i);
  }

  lemma ProbedTicks(w: World, cfg: Config, i: nat)
    requires Inv(w) && i < TABLE && w.sta[i].client
    ensures Ticking(w, Probed(w, cfg, i), i)
  {
    var s := w.sta[i];
    assert StationOk(w, i);
    BitmapsAlone(w, w, i);
    if cfg.keepAliveTime > 0 && s.noDataIdle >= cfg.keepAliveTime {
      var s1 := s.(keepAlive := if s.keepAlive == 0 then 1
                                else if s.keepAlive + 1 >= cfg.keepAliveTime then 0 else s.keepAlive + 1);
      var w1 := w.(sta := w.sta[i := s1]);
      SwapOk(w, w1, i);
      if s.keepAlive == 0 && s.saving {
        MarkedOk(w1, s.bss, i);
        OnlyAtCompose(w, w1, Mark(w1, s.bss, i, true), i);
      }
    }
  }

  lemma TickingPlaces(w: World, w': World, i: nat, id: nat)
    requires Ticking(w, w', i)
    ensures Places(w', id) == Places(w, id)
  {
    assert w'.sta == w.sta[i := w'.sta[i]];
    WaitingUpdate(w.sta, i, w'.sta[i], id);
  }

  lemma ReleasedGood(w: World, i: nat, id: nat)
    requires Inv(w) && i < TABLE && w.sta[i].psq != [] && w.sta[i].psqIdle == 2
    ensures Good(w, Collected(w, i), i, id, 0)
  {
    var s, w' := w.sta[i], Collected(w, i);
    var w1 := w.(sta := w.sta[i := s.(psq := [], psqIdle := 0)], gone := w.gone + s.psq);
    assert StationOk(w, i);
    NothingQueued(s.psq);
    WaitingUpdate(w.sta, i, w1.sta[i], id);
    CountAppend(w.gone, s.psq, id);
    BitmapsAlone(w, w1, i);
    MarkLocal(w1, s.bss, i, false);
    OnlyAtCompose(w, w1, w', i);
    OthersOk(w, w', i);
  }

  lemma PassCountedGood(w: World, i: nat, n: nat, id: nat)
    requires Inv(w) && i < TABLE && n <= 2 && (w.sta[i].psq != [] ==> w.sta[i].psqIdle <= n)
    ensures Good(w, w.(sta := w.sta[i := w.sta[i].(psqIdle := n)]), i, id, 0)
  {
    var s, w' := w.sta[i], w.(sta := w.sta[i := w.sta[i].(psqIdle := n)]);
    assert StationOk(w, i);
    SwapOk(w, w', i);
    WaitingUpdate(w.sta, i, w'.sta[i], id);
    NothingQueued(s.psq);
  }

  /** Collection releases the queue or counts one more pass. */
  lemma CollectedGood(w: World, i: nat, id: nat)
    requires Inv(w) && i < TABLE && w.sta[i].client
    ensures Good(w, Collected(w, i), i, id, 0) && Aged(w.sta[i], Collected(w, i).sta[i], 1)
  {
    var s := w.sta[i];
    assert StationOk(w, i);
    if s.psq != [] && s.psqIdle + 1 > 2 {
      ReleasedGood(w, i, id);
    } else {
      PassCountedGood(w, i, if s.psq == [] then 0 else s.psqIdle + 1, id);
    }
  }

  lemma AfterTicking(w: World, w1: World, w': World, i: nat, id: nat)
    requires Ticking(w, w1, i) && Good(w1, w', i, id, 0)
    ensures Good(w, w', i, id, 0)
    ensures Aged(w1.sta[i], w'.sta[i], 1) ==> Aged(w.sta[i], w'.sta[i], 1)
  {
    TickingPlaces(w, w1, i, id);
    OnlyAtCompose(w, w1, w', i);
  }

  /** A pass leaves this station as it is: associated and due to leave, but its farewell frame finds no memory. */
  predicate Stuck(s: Station, cfg: Config, memory: bool) {
    && s.client && s.assoc && !memory
    && (s.noDataIdle + 1 >= cfg.idleTimeout || (s.txFail >= cfg.lifeCheck && !s.saving))
  }

  /** One station's turn; unless the station is stuck, a queue that stays has aged by a pass. */
  lemma MaintainOneGood(w: World, cfg: Config, i: nat, memory: bool, id: nat)
    requires Inv(w) && i < TABLE
    ensures Good(w, MaintainOne(w, cfg, i, memory), i, id, 0)
    ensures !Stuck(w.sta[i], cfg, memory) ==> Aged(w.sta[i], MaintainOne(w, cfg, i, memory).sta[i], 1)
  {
    assert StationOk(w, i);
    if !w.sta[i].client {
      SameGood(w, i, id);
    } else {
      var w1 := Counted(w, cfg, i);
      CountedTicks(w, cfg, i);
      if !w1.sta[i].assoc && w1.sta[i].noDataIdle >= cfg.assocDeadline {
        DropGood(w1, i, w1.sta[i].addr, id);
        AfterTicking(w, w1, Drop(w1, i, w1.sta[i].addr), i, id);
      } else {
        var w2 := Probed(w1, cfg, i);
        ProbedTicks(w1, cfg, i);
        MaintainTail(w1, w2, cfg, i, memory, id);
        AfterTicking(w, w1, MaintainOne(w, cfg, i, memory), i, id);
      }
    }
  }

  lemma MaintainTail(w1: World, w2: World, cfg: Config, i: nat, memory: bool, id: nat)
    requires Ticking(w1, w2, i) && w1.sta[i].client && w2.sta[i].noDataIdle == w1.sta[i].noDataIdle
    ensures var w' := if Leaving(w2.sta[i], cfg)
                      then if w2.sta[i].assoc && !memory then w2 else Drop(w2, w2.sta[i].aid, w2.sta[i].addr)
                      else Collected(w2, i);
            && Good(w1, w', i, id, 0)
            && (memory || !w1.sta[i].assoc || !Leaving(w1.sta[i], cfg) ==> Aged(w1.sta[i], w'.sta[i], 1))
  {
    assert StationOk(w1, i);
    if Leaving(w2.sta[i], cfg) && w2.sta[i].assoc && !memory {
      SameGood(w2, i, id);
      AfterTicking(w1, w2, w2, i, id);
    } else if Leaving(w2.sta[i], cfg) {
      DropGood(w2, i, w2.sta[i].addr, id);
      AfterTicking(w1, w2, Drop(w2, i, w2.sta[i].addr), i, id);
    } else {
      CollectedGood(w2, i, id);
      AfterTicking(w1, w2, Collected(w2, i), i, id);
    }
  }

  lemma {:induction false} MaintainFromKept(w: World, cfg: Config, i: nat, memory: seq<bool>, id: nat)
    requires Inv(w) && i <= TABLE && |memory| == TABLE
    ensures Kept(w, MaintainFrom(w, cfg, i, memory), id, 0)
    ensures forall j | 0 <= j < i :: MaintainFrom(w, cfg, i, memory).sta[j] == w.sta[j]
    ensures forall j | i <= j < TABLE && !Stuck(w.sta[j], cfg, memory[j]) ::
              Aged(w.sta[j], MaintainFrom(w, cfg, i, memory).sta[j], 1)
    decreases TABLE - i
  {
    if i == TABLE {
      SameStations(w, w);
    } else {
      var w1 := MaintainOne(w, cfg, i, memory[i]);
      MaintainOneGood(w, cfg, i, memory[i], id);
      MaintainFromKept(w1, cfg, i + 1, memory, id);
      var w' := MaintainFrom(w1, cfg, i + 1, memory);
      forall j | 0 <= j < TABLE ensures Queued(w.sta[j].psq, w'.sta[j].psq) && Aged(w.sta[j], w'.sta[j], 0) {
        assert Queued(w1.sta[j].psq, w'.sta[j].psq) && Aged(w1.sta[j], w'.sta[j], 0);
      }
    }
  }

  /** A pass over a waiting station counts, or releases its queue, if and only if the station is not stuck. */
  lemma PassCountsExactly(w: World, cfg: Config, i: nat, memory: bool)
    requires Inv(w) && i < TABLE && w.sta[i].psq != []
    ensures var s, s' := w.sta[i], MaintainOne(w, cfg, i, memory).sta[i];
            && (s'.psq == [] || s'.psqIdle == s.psqIdle + 1 <==> !Stuck(s, cfg, memory))
            && (Stuck(s, cfg, memory) ==> s'.client && s'.psq == s.psq && s'.psqIdle == s.psqIdle)
  {
    assert StationOk(w, i);
    CountedTicks(w, cfg, i);
    ProbedTicks(Counted(w, cfg, i), cfg, i);
  }

  // ---- Every step --------------------------------------------------------------------------

  /** How many packets with this id the event brings in. */
  ghost function Brought(e: Event, id: nat): nat {
    if e.ESend? then One(e.id, id) else 0
  }

  lemma StepKept(w: World, cfg: Config, e: Event, id: nat)
    requires Inv(w) && Enabled(w, e)
    ensures Kept(w, Step(w, cfg, e), id, Brought(e, id))
  {
    match e
    case ESend(i, nid, q, refused) =>
      SendGood(w, cfg, i, nid, q, refused, id);
      GoodKept(w, Send(w, cfg, i, nid, q, refused), i, id, One(nid, id));
    case EPoll(i, addr) =>
      PollGood(w, i, addr, id);
      GoodKept(w, Poll(w, i, addr), i, id, 0);
    case EIndicate(wcid, addr, saving) =>
      IndicateKept(w, wcid, addr, saving, id);
    case EMaintain(memory) =>
      MaintainFromKept(w, cfg, 1, memory, id);
    case EDrop(i, addr) =>
      DropGood(w, i, addr, id);
      GoodKept(w, Drop(w, i, addr), i, id, 0);
    case EJoin(i, addr, bss) =>
      JoinGood(w, i, addr, bss, id);
      GoodKept(w, Join(w, i, addr, bss), i, id, 0);
    case EAssoc(i, assoc) =>
      FieldsGood(w, i, SetAssoc(w, i, assoc).sta[i], id);
      GoodKept(w, SetAssoc(w, i, assoc), i, id, 0);
    case ETransmit(q) =>
      TransmitKept(w, q, id);
    case EGroup(bss, on) =>
      GroupKept(w, bss, on, id);
    case EReport(i, noDataIdle, txFail) =>
      FieldsGood(w, i, Report(w, i, noDataIdle, txFail).sta[i], id);
      GoodKept(w, Report(w, i, noDataIdle, txFail), i, id, 0);
  }
}
