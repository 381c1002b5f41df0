/** What every step on the station table keeps. */
module StationLaws {
  import opened Octets
  import opened Wrappers
  import opened Rsn
  import opened StationTable

  // ---- Reading the log -------------------------------------------------------------------------

  /** The last insertion, challenge or success recorded for entry i; for entry 0 a start counts, too. */
  ghost function AuthMark(log: seq<Record>, i: nat): Option<Record> {
    if log == [] then None
    else
      var r := log[|log| - 1];
      if AuthRecord(r, i) then Some(r) else AuthMark(log[..|log| - 1], i)
  }

  /** The last insertion, association or port release recorded for entry i. */
  ghost function PortMark(log: seq<Record>, i: nat): Option<Record> {
    if log == [] then None
    else
      var r := log[|log| - 1];
      if PortRecord(r, i) then Some(r) else PortMark(log[..|log| - 1], i)
  }

  /** The last challenge drawn, for any station. */
  ghost function LastChallenge(log: seq<Record>): (c: Option<Record>)
    ensures c.Some? ==> c.value.Challenged?
  {
    if log == [] then None
    else if log[|log| - 1].Challenged? then Some(log[|log| - 1]) else LastChallenge(log[..|log| - 1])
  }

  ghost predicate AuthRecord(r: Record, i: nat) {
    ((r.Inserted? || r.Challenged? || r.Succeeded?) && r.i == i) || (r.Started? && i == 0)
  }

  ghost predicate PortRecord(r: Record, i: nat) {
    (r.Inserted? || r.Associated? || r.Released?) && r.i == i
  }

  lemma Noted(log: seq<Record>, r: Record)
    ensures forall i: nat :: AuthMark(log + [r], i) == if AuthRecord(r, i) then Some(r) else AuthMark(log, i)
    ensures forall i: nat :: PortMark(log + [r], i) == if PortRecord(r, i) then Some(r) else PortMark(log, i)
    ensures LastChallenge(log + [r]) == if r.Challenged? then Some(r) else LastChallenge(log)
  {
    assert (log + [r])[..|log|] == log;
  }

  // ---- The invariant ------------------------------------------------------------------------------

  /** A BSS that protects data with WPA keys. */
  predicate Keying(cell: Cell) {
    cell.rsn.authMode >= WPA && cell.rsn.authMode != WPA_NONE
  }

  /** A BSS whose stations pass data only through an opened port: with WPA keys, or under 802.1X. */
  predicate Guarded(cell: Cell) {
    Keying(cell) || cell.ieee8021x
  }

  ghost predicate Authenticated(log: seq<Record>, i: nat) {
    AuthMark(log, i).Some? && AuthMark(log, i).value.Succeeded?
  }

  ghost predicate PortReleased(log: seq<Record>, i: nat) {
    PortMark(log, i).Some? && PortMark(log, i).value.Released?
  }

  /** An entry from index 1 beyond class 1 was authenticated since its insertion and its last challenge; one that
      lets data through in a protected BSS had its port released since its last association. */
  ghost predicate EntryOk(e: Entry, i: nat, cfg: seq<Cell>, log: seq<Record>)
    requires e.bss < |cfg|
  {
    && (e.client ==> i > 0 && e.aid == i) && (e.aid == 0 || e.aid == i)
    && (i > 0 && e.sst != NotAuth ==> Authenticated(log, i))
    && (i > 0 && e.sst == Assoc && e.filterOpen && Guarded(cfg[e.bss]) ==> PortReleased(log, i))
  }

  /** Entry 0 is nobody's, its port is open though never released, and it is associated from the start, unless a
      confirmation was filed under it since. */
  ghost predicate GroupOk(t: Table)
    requires |t.content| > 0
  {
    var z := t.content[0];
    && !z.client && z.aid == 0 && z.bss == 0 && z.filterOpen && PortMark(t.log, 0).None?
    && z.sst == if Authenticated(t.log, 0) then Auth else Assoc
  }

  ghost predicate Unique(content: seq<Entry>) {
    forall i, j | 0 <= i < j < |content| && content[i].client && content[j].client :: content[i].addr != content[j].addr
  }

  /** A challenge text of zero octets, as before the first challenge. */
  ghost predicate Blank(text: seq<byte>) {
    |text| == 128 && forall i | 0 <= i < 128 :: text[i] == 0
  }

  /** ApMlmeAux holds the last challenge drawn. */
  ghost predicate AuxOk(t: Table) {
    match LastChallenge(t.log)
    case None => t.auxAddr == ZERO_MAC && Blank(t.auxText)
    case Some(c) => t.auxAddr == c.addr && t.auxText == c.text
  }

  ghost predicate Inv(t: Table, cfg: seq<Cell>) {
    && Shape(t, cfg) && Unique(t.content) && AuxOk(t) && GroupOk(t)
    && forall i | 0 <= i < TABLE :: EntryOk(t.content[i], i, cfg, t.log)
  }

  /** No client is new, and clients keep their address and BSS. */
  ghost predicate Thinner(t: Table, t': Table) {
    && |t'.content| == |t.content| && t'.acl == t.acl
    && forall i | 0 <= i < |t.content| && t'.content[i].client ::
         t.content[i].client && t'.content[i].addr == t.content[i].addr && t'.content[i].bss == t.content[i].bss
  }

  ghost predicate OnlyContent(t: Table, t': Table) {
    t' == t.(content := t'.content)
  }

  /** Only entry i and what the log says of it differ. */
  ghost predicate OnlyEntry(t: Table, t': Table, i: nat) {
    && |t'.content| == |t.content| == TABLE
    && (forall j | 0 <= j < TABLE && j != i :: t'.content[j] == t.content[j])
    && (forall j: nat | j < TABLE && j != i :: AuthMark(t'.log, j) == AuthMark(t.log, j) && PortMark(t'.log, j) == PortMark(t.log, j))
  }

  lemma OneEntryInv(t: Table, t': Table, cfg: seq<Cell>, i: nat)
    requires Inv(t, cfg) && Shape(t', cfg) && i < TABLE && OnlyEntry(t, t', i)
    requires EntryOk(t'.content[i], i, cfg, t'.log) && AuxOk(t') && (i == 0 ==> GroupOk(t'))
    requires t'.content[i].client ==>
               forall j | 0 <= j < TABLE && j != i && t.content[j].client :: t.content[j].addr != t'.content[i].addr
    ensures Inv(t', cfg)
  {
    forall j | 0 <= j < TABLE ensures EntryOk(t'.content[j], j, cfg, t'.log) {
      assert EntryOk(t.content[j], j, cfg, t.log);
    }
  }

  /** Rewriting an entry without promoting it. */
  lemma PutInv(t: Table, cfg: seq<Cell>, i: nat, e: Entry)
    requires Inv(t, cfg) && i < TABLE && e.bss == t.content[i].bss && e.aid == t.content[i].aid
    requires e.client ==> t.content[i].client && e.addr == t.content[i].addr
    requires e.sst != NotAuth ==> t.content[i].sst != NotAuth
    requires e.sst == Assoc && e.filterOpen ==> t.content[i].sst == Assoc && t.content[i].filterOpen
    requires i == 0 ==> e.sst == t.content[i].sst && e.filterOpen == t.content[i].filterOpen
    ensures Inv(Put(t, cfg, i, e), cfg) && Thinner(t, Put(t, cfg, i, e))
  {
    assert EntryOk(t.content[i], i, cfg, t.log);
    var t' := Put(t, cfg, i, e);
    OneEntryInv(t, t', cfg, i);
  }

  lemma DeleteInv(t: Table, cfg: seq<Cell>, i: nat, addr: Mac)
    requires Inv(t, cfg)
    ensures Inv(Delete(t, cfg, i, addr), cfg) && Thinner(t, Delete(t, cfg, i, addr))
    ensures OnlyContent(t, Delete(t, cfg, i, addr))
  {
    if i < TABLE && t.content[i].client && t.content[i].addr == addr {
      PutInv(t, cfg, i, t.content[i].(client := false, addr := ZERO_MAC));
    }
  }

  lemma Thinner2(t: Table, t1: Table, t2: Table)
    requires Thinner(t, t1) && Thinner(t1, t2)
    ensures Thinner(t, t2)
  {
  }

  // ---- Entries promoted -------------------------------------------------------------------------------

  lemma SuccessInv(t: Table, cfg: seq<Cell>, i: nat, addr: Mac)
    requires Inv(t, cfg) && i < TABLE
    ensures var t' := Note(Put(t, cfg, i, t.content[i].(sst := Auth)), cfg, Succeeded(i, addr));
            Inv(t', cfg) && Thinner(t, t')
  {
    assert EntryOk(t.content[i], i, cfg, t.log);
    Noted(t.log, Succeeded(i, addr));
    OneEntryInv(t, Note(Put(t, cfg, i, t.content[i].(sst := Auth)), cfg, Succeeded(i, addr)), cfg, i);
  }

  lemma ChallengeInv(t: Table, cfg: seq<Cell>, i: nat, addr: Mac, text: seq<byte>)
    requires Inv(t, cfg) && 0 < i < TABLE
    ensures var t' := Note(Put(t.(auxAddr := addr, auxText := text), cfg, i, t.content[i].(sst := NotAuth)), cfg,
                           Challenged(i, addr, text));
            Inv(t', cfg) && Thinner(t, t')
  {
    assert EntryOk(t.content[i], i, cfg, t.log);
    Noted(t.log, Challenged(i, addr, text));
    OneEntryInv(t, Note(Put(t.(auxAddr := addr, auxText := text), cfg, i, t.content[i].(sst := NotAuth)), cfg,
                        Challenged(i, addr, text)), cfg, i);
  }

  lemma ReleaseInv(t: Table, cfg: seq<Cell>, i: nat, e: Entry)
    requires Inv(t, cfg) && i < TABLE && t.content[i].client
    requires e.client && e.addr == t.content[i].addr && e.aid == t.content[i].aid
    requires e.bss == t.content[i].bss && e.sst == t.content[i].sst
    ensures var t' := Note(Put(t, cfg, i, e), cfg, Released(i));
            Inv(t', cfg) && Thinner(t, t')
  {
    assert EntryOk(t.content[i], i, cfg, t.log);
    Noted(t.log, Released(i));
    OneEntryInv(t, Note(Put(t, cfg, i, e), cfg, Released(i)), cfg, i);
  }

  lemma AssociateInv(t: Table, cfg: seq<Cell>, i: nat, e: Entry)
    requires Inv(t, cfg) && i < TABLE && t.content[i].client && t.content[i].sst != NotAuth
    requires e.client && e.addr == t.content[i].addr && e.aid == t.content[i].aid
    requires e.bss == t.content[i].bss && (Guarded(cfg[e.bss]) ==> !e.filterOpen)
    ensures var t' := Note(Put(t, cfg, i, e), cfg, Associated(i));
            Inv(t', cfg) && Thinner(t, t')
  {
    assert EntryOk(t.content[i], i, cfg, t.log);
    Noted(t.log, Associated(i));
    OneEntryInv(t, Note(Put(t, cfg, i, e), cfg, Associated(i)), cfg, i);
  }

  lemma RefusedInv(t: Table, cfg: seq<Cell>, addr: Mac, status: nat)
    requires Inv(t, cfg)
    ensures Inv(Note(t, cfg, Refused(addr, status)), cfg)
  {
    Noted(t.log, Refused(addr, status));
    var t' := Note(t, cfg, Refused(addr, status));
    assert EntryOk(t.content[0], 0, cfg, t.log);
    OneEntryInv(t, t', cfg, 0);
  }

  /** A vacant slot may be cleared or filled. */
  lemma SlotInv(t: Table, cfg: seq<Cell>, i: nat, e: Entry, log: seq<Record>)
    requires Inv(t, cfg) && 0 < i < TABLE && !t.content[i].client && e.bss < |cfg| && e.sst == NotAuth
    requires e.aid == 0 || e.aid == i
    requires e.client ==> e.aid == i && Lookup(t, e.addr).None?
    requires log == t.log || log == t.log + [Inserted(i, e.addr)]
    ensures Inv(t.(content := t.content[i := e], log := log), cfg)
  {
    Noted(t.log, Inserted(i, e.addr));
    OneEntryInv(t, t.(content := t.content[i := e], log := log), cfg, i);
  }

  lemma InsertInv(t: Table, cfg: seq<Cell>, addr: Mac, b: nat)
    requires Inv(t, cfg) && b < |cfg| && Lookup(t, addr).None?
    ensures var (t', at) := Insert(t, cfg, addr, b);
            && Inv(t', cfg) && t'.acl == t.acl
            && forall i | 0 <= i < TABLE && t'.content[i].client ::
                 t'.content[i] == t.content[i] || (at == Some(i) && t'.content[i] == NewEntry(cfg, i, addr, b))
  {
    var v := Vacancy(t.content, 1);
    if v.Some? {
      SlotInv(t, cfg, v.value, VACANT, t.log);
      SlotInv(t, cfg, v.value, NewEntry(cfg, v.value, addr, b), t.log + [Inserted(v.value, addr)]);
    }
  }

  // ---- Authentication ------------------------------------------------------------------------------------

  lemma RefuseInv(t: Table, cfg: seq<Cell>, who: Option<nat>, addr: Mac, status: nat)
    requires Inv(t, cfg) && (who.Some? ==> who.value < TABLE)
    ensures Inv(Refuse(t, cfg, who, addr, status), cfg) && Thinner(t, Refuse(t, cfg, who, addr, status))
  {
    RefusedInv(t, cfg, addr, status);
    var t1 := Note(t, cfg, Refused(addr, status));
    if who.Some? {
      DeleteInv(t1, cfg, t1.content[who.value].aid, t1.content[who.value].addr);
    }
  }

  /** No client is new, or one is: the admitted station, in the BSS that admitted it. */
  ghost predicate Admitted(t: Table, t': Table, addr: Mac, b: nat) {
    && |t'.content| == |t.content| && t'.acl == t.acl
    && forall i | 0 <= i < |t.content| && t'.content[i].client ::
         || (t.content[i].client && t'.content[i].addr == t.content[i].addr && t'.content[i].bss == t.content[i].bss)
         || (t'.content[i].addr == addr && t'.content[i].bss == b)
  }

  lemma EnsureInv(t: Table, cfg: seq<Cell>, who: Option<nat>, addr: Mac, b: nat)
    requires Inv(t, cfg) && b < |cfg| && (who.Some? ==> 0 < who.value < TABLE) && (who.None? ==> Lookup(t, addr).None?)
    ensures Inv(Ensure(t, cfg, who, addr, b).0, cfg) && Admitted(t, Ensure(t, cfg, who, addr, b).0, addr, b)
  {
    if who.None? {
      InsertInv(t, cfg, addr, b);
    }
  }

  lemma AcceptOpenInv(t: Table, cfg: seq<Cell>, who: Option<nat>, addr: Mac, b: nat)
    requires Inv(t, cfg) && b < |cfg| && (who.Some? ==> 0 < who.value < TABLE) && (who.None? ==> Lookup(t, addr).None?)
    ensures Inv(AcceptOpen(t, cfg, who, addr, b), cfg) && Admitted(t, AcceptOpen(t, cfg, who, addr, b), addr, b)
  {
    EnsureInv(t, cfg, who, addr, b);
    var (t1, at) := Ensure(t, cfg, who, addr, b);
    if at.Some? {
      SuccessInv(t1, cfg, at.value, addr);
    }
  }

  lemma ChallengedInv(t: Table, cfg: seq<Cell>, who: Option<nat>, addr: Mac, b: nat, text: seq<byte>)
    requires Inv(t, cfg) && b < |cfg| && (who.Some? ==> 0 < who.value < TABLE) && (who.None? ==> Lookup(t, addr).None?)
    ensures Inv(Challenge(t, cfg, who, addr, b, text), cfg) && Admitted(t, Challenge(t, cfg, who, addr, b, text), addr, b)
  {
    EnsureInv(t, cfg, who, addr, b);
    var (t1, at) := Ensure(t, cfg, who, addr, b);
    if at.Some? {
      ChallengeInv(t1, cfg, at.value, addr, text);
    }
  }

  lemma OfBssInv(t: Table, cfg: seq<Cell>, bssid: Mac, i: nat)
    requires Inv(t, cfg) && i < TABLE
    ensures Inv(OfBss(t, cfg, bssid, i).0, cfg) && Thinner(t, OfBss(t, cfg, bssid, i).0)
    ensures OfBss(t, cfg, bssid, i).1.None? ==>
              OfBss(t, cfg, bssid, i).0 == Put(t, cfg, i, t.content[i].(client := false, addr := ZERO_MAC))
  {
    assert EntryOk(t.content[i], i, cfg, t.log);
    DeleteInv(t, cfg, t.content[i].aid, t.content[i].addr);
  }

  /** Once its entry is gone, the table does not know the address. */
  lemma GoneUnknown(t: Table, cfg: seq<Cell>, i: nat)
    requires Inv(t, cfg) && i < TABLE && t.content[i].client
    ensures Lookup(Put(t, cfg, i, t.content[i].(client := false, addr := ZERO_MAC)), t.content[i].addr).None?
  {
  }

  /** The first part of APPeerAuthReqAtIdleAction: the station's entry in this BSS, if any. */
  function Located(t: Table, cfg: seq<Cell>, addr1: Mac, addr2: Mac): (r: (Table, Option<nat>))
    requires Shape(t, cfg)
    ensures Shape(r.0, cfg) && (r.1.Some? ==> r.1.value < TABLE)
  {
    var found := Lookup(t, addr2);
    if found.Some? then OfBss(t, cfg, addr1, found.value) else (t, None)
  }

  lemma LocatedInv(t: Table, cfg: seq<Cell>, addr1: Mac, addr2: Mac)
    requires Inv(t, cfg)
    ensures var (t1, who) := Located(t, cfg, addr1, addr2);
            && Inv(t1, cfg) && Thinner(t, t1)
            && (who.None? ==> Lookup(t1, addr2).None?)
            && (who.Some? ==> t1.content[who.value].client && t1.content[who.value].addr == addr2)
  {
    var found := Lookup(t, addr2);
    if found.Some? {
      OfBssInv(t, cfg, addr1, found.value);
      GoneUnknown(t, cfg, found.value);
    }
  }

  lemma AuthReqInv(t: Table, cfg: seq<Cell>, addr1: Mac, addr2: Mac, alg: nat, up: bool, text: seq<byte>)
    requires Inv(t, cfg)
    ensures var t' := AuthReq(t, cfg, addr1, addr2, alg, up, text);
            && Inv(t', cfg)
            && (Thinner(t, t') || exists b: nat :: b < |cfg| && Admitted(t, t', addr2, b) && Passes(t.acl[b], addr2))
  {
    var b := FindBss(cfg, addr1, 0);
    if alg <= AUTH_MODE_KEY && b.Some? && up {
      var (t1, who) := Located(t, cfg, addr1, addr2);
      LocatedInv(t, cfg, addr1, addr2);
      AuthReqTail(t, t1, cfg, who, addr2, alg, b.value, text);
    }
  }

  lemma AuthReqTail(t: Table, t1: Table, cfg: seq<Cell>, who: Option<nat>, addr2: Mac, alg: nat, b: nat, text: seq<byte>)
    requires Inv(t, cfg) && Inv(t1, cfg) && Thinner(t, t1) && b < |cfg| && (who.Some? ==> 0 < who.value < TABLE)
    requires who.None? ==> Lookup(t1, addr2).None?
    ensures var mode := cfg[b].rsn.authMode;
            var t' := if !Passes(t1.acl[b], addr2) then Refuse(t1, cfg, who, addr2, MLME_UNSPECIFY_FAIL)
                      else if alg == AUTH_MODE_OPEN && mode != SHARED then AcceptOpen(t1, cfg, who, addr2, b)
                      else if alg == AUTH_MODE_KEY && (mode == SHARED || mode == AUTO_SWITCH)
                      then Challenge(t1, cfg, who, addr2, b, text)
                      else Refuse(t1, cfg, who, addr2, MLME_ALG_NOT_SUPPORT);
            && Inv(t', cfg)
            && (Thinner(t, t') || (Admitted(t, t', addr2, b) && Passes(t.acl[b], addr2)))
  {
    var mode := cfg[b].rsn.authMode;
    if !Passes(t1.acl[b], addr2) {
      RefuseInv(t1, cfg, who, addr2, MLME_UNSPECIFY_FAIL);
      Thinner2(t, t1, Refuse(t1, cfg, who, addr2, MLME_UNSPECIFY_FAIL));
    } else if alg == AUTH_MODE_OPEN && mode != SHARED {
      AcceptOpenInv(t1, cfg, who, addr2, b);
      ThinnerAdmitted(t, t1, AcceptOpen(t1, cfg, who, addr2, b), addr2, b);
    } else if alg == AUTH_MODE_KEY && (mode == SHARED || mode == AUTO_SWITCH) {
      ChallengedInv(t1, cfg, who, addr2, b, text);
      ThinnerAdmitted(t, t1, Challenge(t1, cfg, who, addr2, b, text), addr2, b);
    } else {
      RefuseInv(t1, cfg, who, addr2, MLME_ALG_NOT_SUPPORT);
      Thinner2(t, t1, Refuse(t1, cfg, who, addr2, MLME_ALG_NOT_SUPPORT));
    }
  }

  lemma ThinnerAdmitted(t: Table, t1: Table, t2: Table, addr: Mac, b: nat)
    requires Thinner(t, t1) && Admitted(t1, t2, addr, b)
    ensures Admitted(t, t2, addr, b)
  {
  }

  lemma AuthConfirmInv(t: Table, cfg: seq<Cell>, addr1: Mac, addr2: Mac, wcid: nat, wep: bool, up: bool, text: seq<byte>)
    requires Inv(t, cfg)
    ensures var t' := AuthConfirm(t, cfg, addr1, addr2, wcid, wep, up, text);
            Inv(t', cfg) && Thinner(t, t')
  {
    if wcid < TABLE {
      OfBssInv(t, cfg, addr1, wcid);
      var (t1, who) := OfBss(t, cfg, addr1, wcid);
      SuccessInv(t1, cfg, wcid, addr2);
      RefuseInv(t1, cfg, who, addr2, MLME_REJ_CHALLENGE_FAILURE);
      RefuseInv(t1, cfg, who, addr2, MLME_UNSPECIFY_FAIL);
    }
  }

  // ---- Association -----------------------------------------------------------------------------------------

  /** A successful association of a protected BSS closes the port. */
  lemma BuildCloses(e: Entry, cell: Cell, r: Request)
    ensures var (e', status) := Build(e, cell, r);
            && (status == MLME_SUCCESS ==> e.sst != NotAuth && e'.sst == Assoc)
            && (status == MLME_SUCCESS && Guarded(cell) ==> !e'.filterOpen && !e'.secured)
            && (status != MLME_SUCCESS ==> e'.sst == e.sst && e'.filterOpen == e.filterOpen)
  {
    if Keying(cell) && r.element.recorded != 0 && Validate(cell.rsn, r.element, e.authMode, e.wepStatus).status == MLME_SUCCESS {
      SettlesMode(cell.rsn, r.element, e.authMode, e.wepStatus);
    }
  }

  lemma AssocReqInv(t: Table, cfg: seq<Cell>, addr2: Mac, r: Request)
    requires Inv(t, cfg)
    ensures var t' := AssocReq(t, cfg, addr2, r).0;
            Inv(t', cfg) && Thinner(t, t')
  {
    var found := Lookup(t, addr2);
    if found.Some? {
      var i := found.value;
      var cell := cfg[t.content[i].bss];
      var e := Renewing(t.content[i], cell);
      if r.ssidMatches {
        var (e', status) := Build(e, cell, r);
        BuildCloses(e, cell, r);
        if status == MLME_SUCCESS {
          AssociateInv(t, cfg, i, e');
        } else {
          PutInv(t, cfg, i, e');
        }
      } else {
        PutInv(t, cfg, i, e);
      }
    }
  }

  // ---- Countermeasures ----------------------------------------------------------------------------------------

  lemma {:induction false} DeauthInv(t: Table, cfg: seq<Cell>, i: nat, memory: seq<bool>)
    requires Inv(t, cfg) && i <= TABLE && |memory| == TABLE
    ensures var t' := DeauthFrom(t, cfg, i, memory);
            Inv(t', cfg) && Thinner(t, t') && OnlyContent(t, t')
    decreases TABLE - i
  {
    if i < TABLE {
      var e := t.content[i];
      if e.client && memory[i] {
        var t1 := Delete(t, cfg, e.aid, e.addr);
        DeleteInv(t, cfg, e.aid, e.addr);
        DeauthInv(t1, cfg, i + 1, memory);
        Thinner2(t, t1, DeauthFrom(t1, cfg, i + 1, memory));
      } else {
        DeauthInv(t, cfg, i + 1, memory);
      }
    }
  }

  /** Clients are filed under their own identifiers. */
  ghost predicate Filed(t: Table) {
    forall i | 0 <= i < |t.content| && t.content[i].client :: t.content[i].aid == i
  }

  lemma InvFiled(t: Table, cfg: seq<Cell>)
    requires Inv(t, cfg)
    ensures Filed(t)
  {
    forall i | 0 <= i < TABLE && t.content[i].client ensures t.content[i].aid == i {
      assert EntryOk(t.content[i], i, cfg, t.log);
    }
  }

  /** Everyone whose farewell frame could be allocated is gone, and nobody else. */
  lemma {:induction false} DeauthExact(t: Table, cfg: seq<Cell>, i: nat, memory: seq<bool>)
    requires Shape(t, cfg) && Filed(t) && i <= TABLE && |memory| == TABLE
    ensures forall k | 0 <= k < TABLE ::
              DeauthFrom(t, cfg, i, memory).content[k].client <==> t.content[k].client && !(k >= i && memory[k])
    decreases TABLE - i
  {
    if i < TABLE {
      var e := t.content[i];
      DeauthExact(if e.client && memory[i] then Delete(t, cfg, e.aid, e.addr) else t, cfg, i + 1, memory);
    }
  }

  /** Deleting a client by its own identifier and address takes exactly that client. */
  lemma DeleteOwn(t: Table, cfg: seq<Cell>, i: nat)
    requires Inv(t, cfg) && i < TABLE && t.content[i].client
    ensures var t' := Delete(t, cfg, t.content[i].aid, t.content[i].addr);
            && Inv(t', cfg) && Thinner(t, t') && OnlyContent(t, t') && !t'.content[i].client
            && forall k | 0 <= k < TABLE && k != i :: t'.content[k] == t.content[k]
  {
    assert EntryOk(t.content[i], i, cfg, t.log);
    DeleteInv(t, cfg, t.content[i].aid, t.content[i].addr);
  }

  /** Failures are counted only for a station whose key handshakes are complete. */
  predicate Keyed(e: Entry) {
    e.wpa >= AS_PTKINITDONE && e.gtkDone
  }

  lemma MicSecond(t: Table, cfg: seq<Cell>, i: nat, memory: seq<bool>)
    requires Inv(t, cfg) && i < TABLE && |memory| == TABLE && Keyed(t.content[i]) && t.cmTimer
    ensures var t' := MicFailure(t, cfg, i, memory);
            && Inv(t', cfg) && Thinner(t, t') && t'.log == t.log && t'.ban
            && forall k | 0 <= k < TABLE :: t'.content[k].client <==> t.content[k].client && !memory[k]
  {
    var t1 := Put(t, cfg, i, t.content[i].(cm := true));
    PutInv(t, cfg, i, t.content[i].(cm := true));
    AllOut(t1, cfg, memory);
    Thinner2(t, t1, Expel(t1, cfg, memory));
  }

  /** The second failure within the timer's run starts the ban and removes every client whose farewell frame
      could be allocated, and only those. */
  lemma MicFailureInv(t: Table, cfg: seq<Cell>, i: nat, memory: seq<bool>)
    requires Inv(t, cfg) && i < TABLE && |memory| == TABLE
    ensures var t' := MicFailure(t, cfg, i, memory);
            && Inv(t', cfg) && Thinner(t, t') && t'.log == t.log
            && (t'.ban <==> t.ban || (Keyed(t.content[i]) && t.cmTimer))
            && (Keyed(t.content[i]) && t.cmTimer ==>
                  forall k | 0 <= k < TABLE :: t'.content[k].client <==> t.content[k].client && !memory[k])
  {
    if Keyed(t.content[i]) {
      if t.cmTimer {
        MicSecond(t, cfg, i, memory);
      } else {
        var t1 := Put(t, cfg, i, t.content[i].(cm := true));
        PutInv(t, cfg, i, t.content[i].(cm := true));
        SameTable(t1, t1.(cmTimer := true), cfg);
      }
    }
  }

  lemma AllOut(t: Table, cfg: seq<Cell>, memory: seq<bool>)
    requires Inv(t, cfg) && |memory| == TABLE
    ensures var t' := Expel(t, cfg, memory);
            && Inv(t', cfg) && Thinner(t, t') && t'.log == t.log
            && forall k | 0 <= k < TABLE :: t'.content[k].client <==> t.content[k].client && !memory[k]
  {
    DeauthInv(t, cfg, 0, memory);
    InvFiled(t, cfg);
    DeauthExact(t, cfg, 0, memory);
    var t1 := DeauthFrom(t, cfg, 0, memory);
    SameTable(t1, t1.(ban := true, cmTimer := true), cfg);
  }

  /** The two flags of the countermeasures are no part of the invariant. */
  lemma SameTable(t: Table, t': Table, cfg: seq<Cell>)
    requires Inv(t, cfg) && t' == t.(ban := t'.ban, cmTimer := t'.cmTimer)
    ensures Inv(t', cfg)
  {
    forall j | 0 <= j < TABLE ensures EntryOk(t'.content[j], j, cfg, t'.log) {
      assert EntryOk(t.content[j], j, cfg, t.log);
    }
  }

  lemma TimeoutInv(t: Table, cfg: seq<Cell>)
    requires Inv(t, cfg)
    ensures Inv(Timeout(t, cfg), cfg) && Thinner(t, Timeout(t, cfg))
  {
    var t' := Timeout(t, cfg);
    forall j | 0 <= j < TABLE ensures EntryOk(t'.content[j], j, cfg, t'.log) {
      assert EntryOk(t.content[j], j, cfg, t.log);
    }
  }

  // ---- Stop and start ----------------------------------------------------------------------------------------------

  lemma {:induction false} ResetInv(t: Table, cfg: seq<Cell>, i: nat, memory: seq<bool>)
    requires Inv(t, cfg) && i <= TABLE && |memory| == TABLE
    ensures Inv(ResetFrom(t, cfg, i, memory), cfg) && Thinner(t, ResetFrom(t, cfg, i, memory))
    decreases TABLE - i
  {
    if i < TABLE && !(t.content[i].client && t.content[i].sst == Assoc && !memory[i]) {
      var t1 := Delete(t, cfg, i, t.content[i].addr);
      DeleteInv(t, cfg, i, t.content[i].addr);
      ResetInv(t1, cfg, i + 1, memory);
      Thinner2(t, t1, ResetFrom(t1, cfg, i + 1, memory));
    }
  }

  lemma StopInv(t: Table, cfg: seq<Cell>, memory: seq<bool>)
    requires Inv(t, cfg) && |memory| == TABLE
    ensures Inv(Stop(t, cfg, memory), cfg) && Thinner(t, Stop(t, cfg, memory))
  {
    ResetInv(t, cfg, 1, memory);
    SameTable(ResetFrom(t, cfg, 1, memory), Stop(t, cfg, memory), cfg);
  }

  lemma StartUpInv(t: Table, cfg: seq<Cell>)
    requires Inv(t, cfg)
    ensures Inv(StartUp(t, cfg), cfg) && Thinner(t, StartUp(t, cfg))
  {
    Noted(t.log, Started);
    assert EntryOk(t.content[0], 0, cfg, t.log);
    OneEntryInv(t, StartUp(t, cfg), cfg, 0);
  }

  // ---- Access control -------------------------------------------------------------------------------------------

  lemma {:induction false} PurgeInv(t: Table, cfg: seq<Cell>, b: nat, i: nat, memory: seq<bool>)
    requires Inv(t, cfg) && b < |cfg| && i <= TABLE && |memory| == TABLE
    ensures Inv(PurgeFrom(t, cfg, b, i, memory), cfg) && Thinner(t, PurgeFrom(t, cfg, b, i, memory))
    ensures OnlyContent(t, PurgeFrom(t, cfg, b, i, memory))
    decreases TABLE - i
  {
    if i < TABLE {
      var e := t.content[i];
      if !Unwanted(e, b, t.acl[b]) {
        PurgeInv(t, cfg, b, i + 1, memory);
      } else if e.sst != Assoc || memory[i] {
        DeleteInv(t, cfg, e.aid, e.addr);
        PurgeInv(Delete(t, cfg, e.aid, e.addr), cfg, b, i + 1, memory);
      }
    }
  }

  lemma AclChangeInv(t: Table, cfg: seq<Cell>, b: nat, acl: Acl, memory: seq<bool>)
    requires Inv(t, cfg) && b < |cfg| && |memory| == TABLE
    ensures Inv(AclChange(t, cfg, b, acl, memory), cfg)
    ensures Thinner(t.(acl := t.acl[b := acl]), AclChange(t, cfg, b, acl, memory))
  {
    var t1 := t.(acl := t.acl[b := acl]);
    forall j | 0 <= j < TABLE ensures EntryOk(t1.content[j], j, cfg, t1.log) {
      assert EntryOk(t.content[j], j, cfg, t.log);
    }
    PurgeInv(t1, cfg, b, 0, memory);
  }

  // ---- Data, keys, port --------------------------------------------------------------------------------------------

  lemma ClassCheckInv(t: Table, cfg: seq<Cell>, wcid: nat, addr2: Mac)
    requires Inv(t, cfg)
    ensures Inv(ClassCheck(t, cfg, wcid, addr2).0, cfg) && Thinner(t, ClassCheck(t, cfg, wcid, addr2).0)
  {
    if wcid < TABLE {
      DeleteInv(t, cfg, t.content[wcid].aid, addr2);
    }
  }

  lemma AnnounceInv(t: Table, cfg: seq<Cell>, i: nat, f: Data)
    requires Inv(t, cfg) && i < TABLE
    ensures Inv(Announce(t, cfg, i, f).0, cfg) && Thinner(t, Announce(t, cfg, i, f).0)
  {
    var e := t.content[i];
    PutInv(t, cfg, i, e.(wpa := AS_AUTHENTICATION2));
    DeleteInv(t, cfg, e.aid, e.addr);
  }

  lemma ReceiveDataInv(t: Table, cfg: seq<Cell>, f: Data)
    requires Inv(t, cfg)
    ensures Inv(ReceiveData(t, cfg, f).0, cfg) && Thinner(t, ReceiveData(t, cfg, f).0)
  {
    ClassCheckInv(t, cfg, f.wcid, f.addr2);
    var (t1, at) := ValidData(t, cfg, f);
    if at.Some? && at.value < TABLE {
      AnnounceInv(t1, cfg, at.value, f);
    }
  }

  lemma Msg4Inv(t: Table, cfg: seq<Cell>, i: nat)
    requires Inv(t, cfg) && i < TABLE
    ensures Inv(Msg4(t, cfg, i), cfg) && Thinner(t, Msg4(t, cfg, i))
  {
    var e := t.content[i];
    if e.client && e.sst == Assoc && e.wpa >= AS_PTKINIT_NEGOTIATING {
      ReleaseInv(t, cfg, i, e.(filterOpen := true, wpa := AS_PTKINITDONE, secured := true,
                               gtkDone := e.gtkDone || e.authMode == WPA2 || e.authMode == WPA2PSK));
    }
  }

  lemma EapSuccessInv(t: Table, cfg: seq<Cell>, addr: Mac, keyType: bool)
    requires Inv(t, cfg)
    ensures Inv(EapSuccess(t, cfg, addr, keyType), cfg) && Thinner(t, EapSuccess(t, cfg, addr, keyType))
  {
    var found := Lookup(t, addr);
    if found.Some? {
      var e := t.content[found.value];
      if e.authMode >= WPA && !keyType {
        PutInv(t, cfg, found.value, e.(wpa := AS_INITPMK));
      } else {
        ReleaseInv(t, cfg, found.value, e.(filterOpen := true, wpa := AS_PTKINITDONE, secured := true));
      }
    }
  }

  lemma NewPairwiseInv(t: Table, cfg: seq<Cell>, i: nat)
    requires Inv(t, cfg) && i < TABLE
    ensures Inv(NewPairwise(t, cfg, i), cfg) && Thinner(t, NewPairwise(t, cfg, i))
  {
    var e := t.content[i];
    if e.client && e.sst == Assoc && e.wpa >= AS_INITPSK {
      PutInv(t, cfg, i, NewPairwise(t, cfg, i).content[i]);
    }
  }

  lemma EapolStartInv(t: Table, cfg: seq<Cell>, addr: Mac, cached: bool, sent: bool)
    requires Inv(t, cfg)
    ensures Inv(EapolStart(t, cfg, addr, cached, sent), cfg) && Thinner(t, EapolStart(t, cfg, addr, cached, sent))
  {
    var found := Lookup(t, addr);
    if found.Some? {
      var e := t.content[found.value];
      PutInv(t, cfg, found.value, e.(filterOpen := false, wpa := if sent then AS_PTKSTART else AS_INITPSK));
    }
  }

  // ---- Every step ----------------------------------------------------------------------------------------------------

  lemma ReceiveInv(t: Table, cfg: seq<Cell>, f: Mgmt)
    requires Inv(t, cfg)
    ensures Inv(Receive(t, cfg, f), cfg)
    ensures var t' := Receive(t, cfg, f);
            || Thinner(t, t')
            || (!t.ban && f.AuthFrame1? && exists b: nat :: b < |cfg| && Admitted(t, t', f.addr2, b) && Passes(t.acl[b], f.addr2))
  {
    match f
    case AuthFrame1(addr1, addr2, alg, up, text) =>
      AuthReqInv(t, cfg, addr1, addr2, alg, up, text);
    case AuthFrame3(addr1, addr2, wcid, wep, up, text) =>
      AuthConfirmInv(t, cfg, addr1, addr2, wcid, wep, up, text);
    case AssocFrame(reassoc, addr2, request) =>
      AssocReqInv(t, cfg, addr2, request);
    case DisassocFrame(addr2, wcid) =>
      DeleteInv(t, cfg, wcid, addr2);
    case DeauthFrame(addr2, wcid) =>
      DeleteInv(t, cfg, wcid, addr2);
  }

  /** A step adds a client only by authenticating it, outside a ban and with the access list's consent. */
  lemma StepInv(t: Table, cfg: seq<Cell>, e: Event)
    requires Inv(t, cfg) && Enabled(t, cfg, e)
    ensures Inv(Step(t, cfg, e), cfg)
    ensures var t' := Step(t, cfg, e);
            || (!e.EAcl? && Thinner(t, t'))
            || (e.EAcl? && Thinner(t.(acl := t.acl[e.b := e.acl]), t'))
            || (!t.ban && e.EMgmt? && e.f.AuthFrame1?
                && exists b: nat :: b < |cfg| && Admitted(t, t', e.f.addr2, b) && Passes(t.acl[b], e.f.addr2))
  {
    match e
    case EMgmt(f) => ReceiveInv(t, cfg, f);
    case EData(d) => ReceiveDataInv(t, cfg, d);
    case EMic(i, memory) => MicFailureInv(t, cfg, i, memory);
    case ETimer => TimeoutInv(t, cfg);
    case EAcl(b, acl, memory) => AclChangeInv(t, cfg, b, acl, memory);
    case EDelete(i, addr) => DeleteInv(t, cfg, i, addr);
    case EMsg4(i) => Msg4Inv(t, cfg, i);
    case EEapSuccess(addr, keyType) => EapSuccessInv(t, cfg, addr, keyType);
    case ENewPairwise(i) => NewPairwiseInv(t, cfg, i);
    case EEapolStart(addr, cached, sent) => EapolStartInv(t, cfg, addr, cached, sent);
    case EHandshake(i, wpa, gtkDone) => PutInv(t, cfg, i, t.content[i].(wpa := wpa, gtkDone := gtkDone));
    case EStop(memory) => StopInv(t, cfg, memory);
    case EStartUp => StartUpInv(t, cfg);
  }
}
