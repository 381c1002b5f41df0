/** Power-save delivery of an access point: the per-station power-save queue, its TIM bit, PS-Poll, wake-up
    and the one-second maintenance pass (APInsertPsQueue, APHandleRxPsPoll, APPsIndicate,
    MacTableMaintenance), as functions on the state, and what every run of them keeps. */
module PowerSave {
  import opened Octets
  import Tim

  const TABLE: nat := 32
  const TIM_OCTETS: nat := 5
  const MAX_PS_PACKETS: nat := 128
  /** Index of the best-effort queue among the four access categories. */
  const BE: nat := 0

  /** A packet on a transmit queue, with its More Data mark. */
  datatype Frame = Frame(id: nat, more: bool)

  datatype Station = Station(
    client: bool, assoc: bool, saving: bool, aid: nat, addr: Mac, bss: nat,
    psq: seq<nat>, psqIdle: nat,
    noDataIdle: nat, keepAlive: nat, txFail: nat)

  /** `tim` holds the identifiers marked in each BSS's bitmap, `gone` the packets released or handed to the
      hardware. */
  datatype World = World(sta: seq<Station>, tim: seq<set<nat>>, txq: seq<seq<Frame>>, gone: seq<nat>)

  datatype Config = Config(txqMax: nat, assocDeadline: nat, idleTimeout: nat, lifeCheck: nat, keepAliveTime: nat)

  ghost predicate Shape(w: World) {
    && |w.sta| == TABLE && |w.txq| == 4
    && (forall i | 0 <= i < TABLE :: w.sta[i].bss < |w.tim| && w.sta[i].aid < TABLE)
  }

  // ---- TIM bits: WLAN_MR_TIM_BIT_SET, WLAN_MR_TIM_BIT_CLEAR ------------------------------

  /** The bitmap octets of one BSS after the macro. */
  function Marked(bitmap: seq<byte>, aid: nat, on: bool): seq<byte>
    requires aid / 8 < |bitmap|
  {
    bitmap[aid / 8 := if on then SetBit(bitmap[aid / 8], aid % 8) else ClearBit(bitmap[aid / 8], aid % 8)]
  }

  /** The association identifiers a bitmap marks. */
  ghost function Marks(bitmap: seq<byte>): set<nat> {
    set aid: nat | aid < 8 * |bitmap| && Tim.InBitmap(bitmap, aid)
  }

  /** The macros set and clear exactly one member. */
  lemma MarkedMarks(bitmap: seq<byte>, aid: nat, on: bool)
    requires aid / 8 < |bitmap|
    ensures Marks(Marked(bitmap, aid, on)) == if on then Marks(bitmap) + {aid} else Marks(bitmap) - {aid}
  {
    var marked := Marked(bitmap, aid, on);
    forall other: nat | other < 8 * |bitmap|
      ensures Tim.InBitmap(marked, other) == if other == aid then on else Tim.InBitmap(bitmap, other)
    {
      assert other / 8 == aid / 8 && other % 8 == aid % 8 ==> other == aid;
    }
    forall other: nat
      ensures other in Marks(marked) <==> other in (if on then Marks(bitmap) + {aid} else Marks(bitmap) - {aid})
    {
    }
  }

  function Mark(w: World, bss: nat, aid: nat, on: bool): (w': World)
    requires Shape(w) && bss < |w.tim|
    ensures Shape(w')
  {
    w.(tim := w.tim[bss := if on then w.tim[bss] + {aid} else w.tim[bss] - {aid}])
  }

  predicate TimBit(w: World, bss: nat, aid: nat)
    requires bss < |w.tim|
  {
    aid in w.tim[bss]
  }

  // ---- Handlers --------------------------------------------------------------------------

  function Frames(ids: seq<nat>): seq<Frame> {
    seq(|ids|, i requires 0 <= i < |ids| => Frame(ids[i], false))
  }

  /** APInsertPsQueue. */
  function InsertPs(w: World, i: nat, id: nat): (w': World)
    requires Shape(w) && i < TABLE
    ensures Shape(w')
  {
    var s := w.sta[i];
    if |s.psq| >= MAX_PS_PACKETS then w.(gone := w.gone + [id])
    else Mark(w.(sta := w.sta[i := s.(psq := s.psq + [id])]), s.bss, s.aid, true)
  }

  /** APSendPacket for a unicast packet; `refused` covers the port and frame-type checks. */
  function Send(w: World, cfg: Config, i: nat, id: nat, q: nat, refused: bool): (w': World)
    requires Shape(w) && i < TABLE && q < 4
    ensures Shape(w')
  {
    var s := w.sta[i];
    if !s.client || refused then w.(gone := w.gone + [id])
    else if s.saving && s.assoc then InsertPs(w, i, id)
    else if |w.txq[q]| >= cfg.txqMax then w.(gone := w.gone + [id])
    else w.(txq := w.txq[q := w.txq[q] + [Frame(id, false)]])
  }

  /** The end of APHandleRxPsPoll: an emptied queue loses its TIM bit. */
  function Settle(w: World, i: nat): (w': World)
    requires Shape(w) && i < TABLE
    ensures Shape(w')
  {
    var s := w.sta[i];
    if i > 0 && s.psq == [] then Mark(w.(sta := w.sta[i := s.(psqIdle := 0)]), s.bss, i, false) else w
  }

  /** Station i keeps `rest` and the frames join the best-effort queue. */
  function Hand(w: World, i: nat, rest: seq<nat>, frames: seq<Frame>): (w': World)
    requires Shape(w) && i < TABLE
    ensures Shape(w')
  {
    w.(sta := w.sta[i := w.sta[i].(txFail := 0, psq := rest)], txq := w.txq[BE := w.txq[BE] + frames])
  }

  /** APHandleRxPsPoll for a PS-Poll frame: one packet goes out, marked when more are waiting. */
  function Poll(w: World, i: nat, addr: Mac): (w': World)
    requires Shape(w) && i < TABLE
    ensures Shape(w')
  {
    var q := w.sta[i].psq;
    if w.sta[i].addr != addr then w
    else if q == [] then Settle(Hand(w, i, [], []), i)
    else Settle(Hand(w, i, q[1..], [Frame(q[0], |q| > 1)]), i)
  }

  /** APHandleRxPsPoll for a station that woke up: the whole queue goes out. */
  function Wake(w: World, i: nat, addr: Mac): (w': World)
    requires Shape(w) && i < TABLE
    ensures Shape(w')
  {
    if w.sta[i].addr != addr then w
    else Settle(Hand(w, i, [], Frames(w.sta[i].psq)), i)
  }

  /** APPsIndicate. */
  function Indicate(w: World, wcid: nat, addr: Mac, saving: bool): (w': World)
    requires Shape(w)
    ensures Shape(w')
  {
    if wcid >= TABLE then w
    else
      var s := w.sta[wcid];
      var w1 := w.(sta := w.sta[wcid := s.(noDataIdle := 0, saving := saving)]);
      if s.saving && !saving then Wake(w1, s.aid, addr) else w1
  }

  /** MacTableDeleteEntry: the queue is released; the TIM bit and most fields stay. */
  function Drop(w: World, i: nat, addr: Mac): (w': World)
    requires Shape(w) && i < TABLE
    ensures Shape(w')
  {
    var s := w.sta[i];
    if s.client && s.addr == addr
    then w.(sta := w.sta[i := s.(client := false, addr := ZERO_MAC, psq := [])], gone := w.gone + s.psq)
    else w
  }

  /** MacTableInsertEntry at a vacant slot. */
  function Join(w: World, i: nat, addr: Mac, bss: nat): (w': World)
    requires Shape(w) && 0 < i < TABLE && bss < |w.tim| && !w.sta[i].client
    ensures Shape(w')
  {
    w.(sta := w.sta[i := Station(true, false, false, i, addr, bss, [], 0, 0, 0, 0)])
  }

  /** A handler of the association state machine sets the state; success also ends power saving. */
  function SetAssoc(w: World, i: nat, assoc: bool): (w': World)
    requires Shape(w) && i < TABLE
    ensures Shape(w')
  {
    var s := w.sta[i];
    w.(sta := w.sta[i := s.(assoc := assoc, saving := if assoc then false else s.saving)])
  }

  /** Counters and the keep-alive probe at the head of a station's turn in MacTableMaintenance. */
  function Counted(w: World, cfg: Config, i: nat): (w': World)
    requires Shape(w) && i < TABLE
    ensures Shape(w')
  {
    var s := w.sta[i];
    var alive := if s.noDataIdle == 0 then 0 else s.keepAlive;
    w.(sta := w.sta[i := s.(keepAlive := alive, noDataIdle := s.noDataIdle + 1)])
  }

  function Probed(w: World, cfg: Config, i: nat): (w': World)
    requires Shape(w) && i < TABLE
    ensures Shape(w')
  {
    var s := w.sta[i];
    if cfg.keepAliveTime == 0 || s.noDataIdle < cfg.keepAliveTime then w
    else if s.keepAlive == 0 then
      var w1 := w.(sta := w.sta[i := s.(keepAlive := 1)]);
      if s.saving then Mark(w1, s.bss, s.aid, true) else w1
    else
      w.(sta := w.sta[i := s.(keepAlive := if s.keepAlive + 1 >= cfg.keepAliveTime then 0 else s.keepAlive + 1)])
  }

  /** Garbage collection of the power-save queue: the third pass over a waiting queue releases it. */
  function Collected(w: World, i: nat): (w': World)
    requires Shape(w) && i < TABLE
    ensures Shape(w')
  {
    var s := w.sta[i];
    if s.psq == [] then w.(sta := w.sta[i := s.(psqIdle := 0)])
    else if s.psqIdle + 1 <= 2 then w.(sta := w.sta[i := s.(psqIdle := s.psqIdle + 1)])
    else
      Mark(w.(sta := w.sta[i := s.(psq := [], psqIdle := 0)], gone := w.gone + s.psq), s.bss, s.aid, false)
  }

  predicate Leaving(s: Station, cfg: Config) {
    s.noDataIdle >= cfg.idleTimeout || (s.txFail >= cfg.lifeCheck && !s.saving)
  }

  /** One station's turn in MacTableMaintenance; `memory` says whether the farewell frame can be allocated. */
  function MaintainOne(w: World, cfg: Config, i: nat, memory: bool): (w': World)
    requires Shape(w) && i < TABLE
    ensures Shape(w')
  {
    if !w.sta[i].client then w
    else
      var w1 := Counted(w, cfg, i);
      if !w1.sta[i].assoc && w1.sta[i].noDataIdle >= cfg.assocDeadline then Drop(w1, w1.sta[i].aid, w1.sta[i].addr)
      else
        var w2 := Probed(w1, cfg, i);
        if Leaving(w2.sta[i], cfg) then
          if w2.sta[i].assoc && !memory then w2 else Drop(w2, w2.sta[i].aid, w2.sta[i].addr)
        else Collected(w2, i)
  }

  function MaintainFrom(w: World, cfg: Config, i: nat, memory: seq<bool>): (w': World)
    requires Shape(w) && i <= TABLE && |memory| == TABLE
    ensures Shape(w')
    decreases TABLE - i
  {
    if i == TABLE then w else MaintainFrom(MaintainOne(w, cfg, i, memory[i]), cfg, i + 1, memory)
  }

  /** The hardware takes the first frame of a transmit queue. */
  function Transmit(w: World, q: nat): (w': World)
    requires Shape(w) && q < 4
    ensures Shape(w')
  {
    if w.txq[q] == [] then w
    else w.(txq := w.txq[q := w.txq[q][1..]], gone := w.gone + [w.txq[q][0].id])
  }

  /** The group-traffic bit of a BSS: WLAN_MR_TIM_BCMC_SET, WLAN_MR_TIM_BCMC_CLEAR. */
  function GroupMark(w: World, bss: nat, on: bool): (w': World)
    requires Shape(w) && bss < |w.tim|
    ensures Shape(w')
  {
    Mark(w, bss, 0, on)
  }

  /** Transmit reports and received frames elsewhere in the driver rewrite a station's two activity counters. */
  function Report(w: World, i: nat, noDataIdle: nat, txFail: nat): (w': World)
    requires Shape(w) && i < TABLE
    ensures Shape(w')
  {
    w.(sta := w.sta[i := w.sta[i].(noDataIdle := noDataIdle, txFail := txFail)])
  }

  // ---- Steps -----------------------------------------------------------------------------

  datatype Event =
    | ESend(i: nat, id: nat, q: nat, refused: bool)
    | EPoll(i: nat, addr: Mac)
    | EIndicate(wcid: nat, addr: Mac, saving: bool)
    | EMaintain(memory: seq<bool>)
    | EDrop(i: nat, addr: Mac)
    | EJoin(i: nat, addr: Mac, bss: nat)
    | EAssoc(i: nat, assoc: bool)
    | ETransmit(q: nat)
    | EGroup(bss: nat, on: bool)
    | EReport(i: nat, noDataIdle: nat, txFail: nat)

  /** The events the drivers of these handlers can produce: indices in range, a join only at a vacancy. */
  ghost predicate Enabled(w: World, e: Event)
    requires Shape(w)
  {
    match e
    case ESend(i, id, q, refused) => i < TABLE && q < 4
    case EPoll(i, addr) => i < TABLE
    case EIndicate(wcid, addr, saving) => true
    case EMaintain(memory) => |memory| == TABLE
    case EDrop(i, addr) => i < TABLE
    case EJoin(i, addr, bss) => 0 < i < TABLE && bss < |w.tim| && !w.sta[i].client
    case EAssoc(i, assoc) => i < TABLE
    case ETransmit(q) => q < 4
    case EGroup(bss, on) => bss < |w.tim|
    case EReport(i, noDataIdle, txFail) => i < TABLE
  }

  function Step(w: World, cfg: Config, e: Event): (w': World)
    requires Shape(w) && Enabled(w, e)
    ensures Shape(w')
  {
    match e
    case ESend(i, id, q, refused) => Send(w, cfg, i, id, q, refused)
    case EPoll(i, addr) => Poll(w, i, addr)
    case EIndicate(wcid, addr, saving) => Indicate(w, wcid, addr, saving)
    case EMaintain(memory) => MaintainFrom(w, cfg, 1, memory)
    case EDrop(i, addr) => Drop(w, i, addr)
    case EJoin(i, addr, bss) => Join(w, i, addr, bss)
    case EAssoc(i, assoc) => SetAssoc(w, i, assoc)
    case ETransmit(q) => Transmit(w, q)
    case EGroup(bss, on) => GroupMark(w, bss, on)
    case EReport(i, noDataIdle, txFail) => Report(w, i, noDataIdle, txFail)
  }
}
