/** The power-save handlers as the driver runs them, on a table updated in place: each method does to the
    table what the function of the same operation in PowerSave does to its abstract state. */
module PowerSaveTable {
  import opened Octets
  import opened PowerSave
  import PowerSaveRuns

  ghost function AllMarks(bitmaps: seq<seq<byte>>): (r: seq<set<nat>>)
    ensures |r| == |bitmaps| && forall b | 0 <= b < |r| :: r[b] == Marks(bitmaps[b])
  {
    seq(|bitmaps|, b requires 0 <= b < |bitmaps| => Marks(bitmaps[b]))
  }

  class PsTable {
    var content: array<Station>
    /** TIM bitmaps, one per BSS. */
    var bitmaps: seq<seq<byte>>
    /** The software transmit queues, one per access category. */
    var txq: seq<seq<Frame>>
    var gone: seq<nat>

    ghost function State(): World
      reads this, content
    {
      World(content[..], AllMarks(bitmaps), txq, gone)
    }

    ghost predicate Valid()
      reads this, content
    {
      && content.Length == TABLE && Shape(State())
      && forall b | 0 <= b < |bitmaps| :: |bitmaps[b]| == TIM_OCTETS
    }

    constructor (bssCount: nat)
      requires bssCount > 0
      ensures Valid() && fresh(content) && |bitmaps| == bssCount
      ensures PowerSaveRuns.AtRest(State()) && forall b | 0 <= b < bssCount :: State().tim[b] == {}
    {
      content := new Station[TABLE](i => Station(false, false, false, 0, ZERO_MAC, 0, [], 0, 0, 0, 0));
      bitmaps := seq(bssCount, b => [0, 0, 0, 0, 0]);
      txq, gone := [[], [], [], []], [];
      new;
      NoMarks();
    }

    static lemma NoMarks()
      ensures Marks([0, 0, 0, 0, 0]) == {}
    {
      forall i: nat | i < 8 ensures !Bit(0, i) {
        ZeroByte(0);
      }
    }

    /** WLAN_MR_TIM_BIT_SET and WLAN_MR_TIM_BIT_CLEAR. */
    method MarkTim(bss: nat, aid: nat, on: bool)
      requires Valid() && bss < |bitmaps| && aid < TABLE
      modifies this`bitmaps
      ensures Valid() && State() == Mark(old(State()), bss, aid, on)
    {
      MarkedMarks(bitmaps[bss], aid, on);
      bitmaps := bitmaps[bss := Marked(bitmaps[bss], aid, on)];
      assert AllMarks(bitmaps) == Mark(old(State()), bss, aid, on).tim;
    }

    /** Rewrites one table entry. */
    method Put(i: nat, s: Station)
      requires Valid() && i < TABLE && s.bss < |bitmaps| && s.aid < TABLE
      modifies content
      ensures Valid() && State() == old(State()).(sta := old(State()).sta[i := s])
    {
      content[i] := s;
      assert content[..] == old(content[..])[i := s];
    }

    /** APInsertPsQueue. */
    method InsertPsQueue(i: nat, id: nat)
      requires Valid() && i < TABLE
      modifies this`bitmaps, this`gone, content
      ensures Valid() && State() == InsertPs(old(State()), i, id)
    {
      var s := content[i];
      if |s.psq| >= MAX_PS_PACKETS {
        gone := gone + [id];
      } else {
        Put(i, s.(psq := s.psq + [id]));
        MarkTim(s.bss, s.aid, true);
      }
    }

    /** The routing of a unicast packet in APSendPacket. */
    method SendPacket(cfg: Config, i: nat, id: nat, q: nat, refused: bool)
      requires Valid() && i < TABLE && q < 4
      modifies this`bitmaps, this`gone, this`txq, content
      ensures Valid() && State() == Send(old(State()), cfg, i, id, q, refused)
    {
      var s := content[i];
      if !s.client || refused {
        gone := gone + [id];
      } else if s.saving && s.assoc {
        InsertPsQueue(i, id);
      } else if |txq[q]| >= cfg.txqMax {
        gone := gone + [id];
      } else {
        txq := txq[q := txq[q] + [Frame(id, false)]];
      }
    }

    /** Moves the head of a power-save queue to the best-effort transmit queue. */
    method MoveHead(i: nat, more: bool)
      requires Valid() && i < TABLE && content[i].psq != []
      modifies this`txq, content
      ensures Valid()
      ensures var w, s := old(State()), old(content[i]);
              State() == w.(sta := w.sta[i := s.(psq := s.psq[1..])],
                            txq := w.txq[BE := w.txq[BE] + [Frame(s.psq[0], more)]])
    {
      var s := content[i];
      Put(i, s.(psq := s.psq[1..]));
      txq := txq[BE := txq[BE] + [Frame(s.psq[0], more)]];
    }

    /** The wake-up branch of APHandleRxPsPoll: every waiting packet moves. */
    method MoveAll(i: nat)
      requires Valid() && i < TABLE
      modifies this`txq, content
      ensures Valid()
      ensures var w, s := old(State()), old(content[i]);
              State() == w.(sta := w.sta[i := s.(psq := [])], txq := w.txq[BE := w.txq[BE] + Frames(s.psq)])
    {
      ghost var w, s := State(), content[i];
      ghost var k := 0;
      assert w.txq[BE] + Frames(s.psq[..0]) == w.txq[BE];
      assert w.sta == w.sta[i := s.(psq := s.psq[0..])] && w.txq == w.txq[BE := w.txq[BE] + Frames(s.psq[..0])];
      while content[i].psq != []
        invariant Valid() && k <= |s.psq| && content == old(content)
        invariant State() == w.(sta := w.sta[i := s.(psq := s.psq[k..])],
                                txq := w.txq[BE := w.txq[BE] + Frames(s.psq[..k])])
        decreases |content[i].psq|
      {
        assert content[i] == State().sta[i] == s.(psq := s.psq[k..]);
        MoveHead(i, false);
        FramesNext(w.txq[BE], s.psq, k);
        k := k + 1;
        assert State().sta == w.sta[i := s.(psq := s.psq[k..])];
        assert State().txq == w.txq[BE := w.txq[BE] + Frames(s.psq[..k])];
      }
      assert content[i] == State().sta[i];
      assert s.psq[..k] == s.psq;
    }

    static lemma FramesNext(t: seq<Frame>, q: seq<nat>, k: nat)
      requires k < |q|
      ensures t + Frames(q[..k]) + [Frame(q[k..][0], false)] == t + Frames(q[..k + 1])
      ensures q[k..][1..] == q[k + 1..]
    {
      assert Frames(q[..k + 1]) == Frames(q[..k]) + [Frame(q[k], false)];
    }

    /** APHandleRxPsPoll: `active` is false for a PS-Poll frame and true for a station that woke up. */
    method HandleRxPsPoll(addr: Mac, aid: nat, active: bool)
      requires Valid() && aid < TABLE
      modifies this`bitmaps, this`txq, content
      ensures Valid()
      ensures State() == if active then Wake(old(State()), aid, addr) else Poll(old(State()), aid, addr)
    {
      ghost var w := State();
      if content[aid].addr == addr {
        Put(aid, content[aid].(txFail := 0));
        if !active {
          var q := content[aid].psq;
          if q != [] {
            MoveHead(aid, |q| > 1);
            assert State() == Hand(w, aid, q[1..], [Frame(q[0], |q| > 1)]);
          } else {
            assert w.txq[BE] + [] == w.txq[BE];
            assert State() == Hand(w, aid, [], []);
          }
        } else {
          MoveAll(aid);
          assert State() == Hand(w, aid, [], Frames(w.sta[aid].psq));
        }
        SettleQueue(aid);
      }
    }

    /** The end of APHandleRxPsPoll. */
    method SettleQueue(aid: nat)
      requires Valid() && aid < TABLE
      modifies this`bitmaps, content
      ensures Valid() && State() == Settle(old(State()), aid)
    {
      var s := content[aid];
      if aid > 0 && |s.psq| == 0 {
        MarkTim(s.bss, aid, false);
        Put(aid, s.(psqIdle := 0));
      }
    }

    /** APPsIndicate: gives back the station's former mode. */
    method PsIndicate(addr: Mac, wcid: nat, saving: bool) returns (was: bool)
      requires Valid()
      modifies this`bitmaps, this`txq, content
      ensures Valid() && State() == Indicate(old(State()), wcid, addr, saving)
      ensures was == (wcid < TABLE && old(content[wcid]).saving)
    {
      if wcid >= TABLE {
        return false;
      }
      var s := content[wcid];
      was := s.saving;
      Put(wcid, s.(noDataIdle := 0, saving := saving));
      if was && !saving {
        HandleRxPsPoll(addr, s.aid, true);
      }
    }

    method ReleaseHead(i: nat)
      requires Valid() && i < TABLE && content[i].psq != []
      modifies this`gone, content
      ensures Valid()
      ensures var w, s := old(State()), old(content[i]);
              State() == w.(sta := w.sta[i := s.(psq := s.psq[1..])], gone := w.gone + [s.psq[0]])
    {
      var s := content[i];
      Put(i, s.(psq := s.psq[1..]));
      gone := gone + [s.psq[0]];
    }

    static lemma GoneNext(g: seq<nat>, q: seq<nat>, k: nat)
      requires k < |q|
      ensures g + q[..k] + [q[k..][0]] == g + q[..k + 1]
      ensures q[k..][1..] == q[k + 1..]
    {
      assert q[..k + 1] == q[..k] + [q[k]];
    }

    /** APCleanupPsQueue: releases the packets one by one. */
    method CleanupPsQueue(i: nat)
      requires Valid() && i < TABLE
      modifies this`gone, content
      ensures Valid()
      ensures var w, s := old(State()), old(content[i]);
              State() == w.(sta := w.sta[i := s.(psq := [])], gone := w.gone + s.psq)
    {
      ghost var w, s := State(), content[i];
      ghost var k := 0;
      assert w.sta == w.sta[i := s.(psq := s.psq[0..])] && w.gone == w.gone + s.psq[..0];
      while content[i].psq != []
        invariant Valid() && k <= |s.psq| && content == old(content)
        invariant State() == w.(sta := w.sta[i := s.(psq := s.psq[k..])], gone := w.gone + s.psq[..k])
        decreases |content[i].psq|
      {
        assert content[i] == State().sta[i] == s.(psq := s.psq[k..]);
        ReleaseHead(i);
        GoneNext(w.gone, s.psq, k);
        k := k + 1;
        assert State().sta == w.sta[i := s.(psq := s.psq[k..])];
      }
      assert content[i] == State().sta[i];
      assert s.psq[..k] == s.psq;
    }

    /** The power-save side of MacTableDeleteEntry. */
    method DeleteEntry(i: nat, addr: Mac)
      requires Valid() && i < TABLE
      modifies this`gone, content
      ensures Valid() && State() == Drop(old(State()), i, addr)
    {
      ghost var w := State();
      var s := content[i];
      if s.client && s.addr == addr {
        CleanupPsQueue(i);
        assert content[i] == State().sta[i] == s.(psq := []);
        Put(i, content[i].(client := false, addr := ZERO_MAC));
        assert State().sta == w.sta[i := s.(client := false, addr := ZERO_MAC, psq := [])];
      }
    }

    /** The keep-alive probe. */
    method Probe(cfg: Config, i: nat)
      requires Valid() && i < TABLE
      modifies this`bitmaps, content
      ensures Valid() && State() == Probed(old(State()), cfg, i)
    {
      var s := content[i];
      if cfg.keepAliveTime > 0 && s.noDataIdle >= cfg.keepAliveTime {
        Put(i, s.(keepAlive := s.keepAlive + 1));
        if s.keepAlive == 0 {
          if s.saving {
            MarkTim(s.bss, s.aid, true);
          }
        } else if s.keepAlive + 1 >= cfg.keepAliveTime {
          ghost var w := State();
          Put(i, s.(keepAlive := 0));
          assert State().sta == old(State()).sta[i := s.(keepAlive := 0)];
        }
      }
    }

    /** Garbage collection of one power-save queue. */
    method Collect(i: nat)
      requires Valid() && i < TABLE
      modifies this`bitmaps, this`gone, content
      ensures Valid() && State() == Collected(old(State()), i)
    {
      ghost var w := State();
      var s := content[i];
      if s.psq != [] {
        Put(i, s.(psqIdle := s.psqIdle + 1));
        if s.psqIdle + 1 > 2 {
          CleanupPsQueue(i);
          assert content[i] == State().sta[i] == s.(psqIdle := s.psqIdle + 1, psq := []);
          Put(i, content[i].(psqIdle := 0));
          assert State().sta == w.sta[i := s.(psq := [], psqIdle := 0)];
          MarkTim(s.bss, s.aid, false);
        }
      } else {
        Put(i, s.(psqIdle := 0));
      }
    }

    /** One station's turn in MacTableMaintenance. */
    method MaintainEntry(cfg: Config, i: nat, memory: bool)
      requires Valid() && i < TABLE
      modifies this`bitmaps, this`gone, content
      ensures Valid() && State() == MaintainOne(old(State()), cfg, i, memory)
    {
      if !content[i].client {
        return;
      }
      ghost var w := State();
      var s := content[i];
      Put(i, s.(keepAlive := if s.noDataIdle == 0 then 0 else s.keepAlive, noDataIdle := s.noDataIdle + 1));
      assert State() == Counted(w, cfg, i);
      assert content[i] == State().sta[i];
      if !content[i].assoc && content[i].noDataIdle >= cfg.assocDeadline {
        DeleteEntry(content[i].aid, content[i].addr);
        return;
      }
      Probe(cfg, i);
      s := content[i];
      assert s == State().sta[i];
      if s.noDataIdle >= cfg.idleTimeout || (s.txFail >= cfg.lifeCheck && !s.saving) {
        if !s.assoc || memory {
          DeleteEntry(s.aid, s.addr);
        }
      } else {
        Collect(i);
      }
    }

    /** MacTableMaintenance, as far as it touches the stations' queues. */
    method MacTableMaintenance(cfg: Config, memory: seq<bool>)
      requires Valid() && |memory| == TABLE
      modifies this`bitmaps, this`gone, content
      ensures Valid() && State() == MaintainFrom(old(State()), cfg, 1, memory)
    {
      for i := 1 to TABLE
        invariant Valid() && content == old(content)
        invariant MaintainFrom(State(), cfg, i, memory) == MaintainFrom(old(State()), cfg, 1, memory)
      {
        MaintainEntry(cfg, i, memory[i]);
      }
    }
  }
}
