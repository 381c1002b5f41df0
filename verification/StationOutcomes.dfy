/** What the frames and reports of a station come to: association, shared-key authentication, the port, and MIC
    failures over whole runs, said of the table before and after. */
module StationOutcomes {
  import opened Octets
  import opened Wrappers
  import opened Rsn
  import opened StationTable
  import opened StationLaws
  import opened StationRuns

  /** Only entry i differs. */
  ghost predicate OnlyAt(t: Table, t': Table, i: nat) {
    && |t'.content| == |t.content| && t' == t.(content := t'.content, log := t'.log)
    && forall k | 0 <= k < |t.content| && k != i :: t'.content[k] == t.content[k]
  }

  // ---- Association ---------------------------------------------------------------------------------

  /** The request carries no element, or a well-formed one offering `o`, where the BSS announces `own`. */
  ghost predicate Readable(bss: Rsn.Bss, el: Rsn.Element, own: Offer, o: Offer) {
    el.recorded == 0 || (Announces(bss, el.eid, own) && Offers(el, o))
  }

  /** Station and BSS agree: without an element in a BSS below WPA, or on group suite, pairwise suite and AKM. */
  ghost predicate Agreed(bss: Rsn.Bss, el: Rsn.Element, own: Offer, o: Offer)
    requires Readable(bss, el, own, o)
  {
    if el.recorded == 0 then bss.authMode < 3
    else o.group == own.group && Pairable(bss, el, own, o) && AnyOf(o.akms, own.akms)
  }

  ghost predicate Pairable(bss: Rsn.Bss, el: Rsn.Element, own: Offer, o: Offer)
    requires Announces(bss, el.eid, own)
  {
    AcceptedIsAllowed(bss, el.eid, own, own.group);
    exists k: nat :: FirstAllowed(bss, el.eid, own, o, k)
  }

  /** Every status of the response, with exactly the requests that get it. */
  lemma BuildStatuses(e: Entry, cell: Cell, r: Request, own: Offer, o: Offer)
    requires Readable(cell.rsn, r.element, own, o)
    ensures var status, el := Build(e, cell, r).1, r.element;
            && (status == 18 <==> !r.rateOk)
            && (r.rateOk && e.sst == NotAuth ==> status == 17)
            && (r.rateOk && e.sst != NotAuth ==>
                  && (status == 0 <==> e.aid != 0 && Agreed(cell.rsn, el, own, o))
                  && (status == 12 <==> e.aid != 0 && el.recorded == 0 && cell.rsn.authMode >= 3)
                  && (status == 41 <==> el.recorded != 0 && o.group != own.group)
                  && (status == 42 <==>
                        el.recorded != 0 && o.group == own.group && (el.len < 16 || !Pairable(cell.rsn, el, own, o)))
                  && (status == 43 <==>
                        el.recorded != 0 && o.group == own.group && el.len >= 16 && Pairable(cell.rsn, el, own, o)
                        && !AnyOf(o.akms, own.akms))
                  && (status == 17 <==> e.aid == 0 && (el.recorded == 0 || Agreed(cell.rsn, el, own, o))))
  {
    if r.element.recorded != 0 {
      NegotiationExact(cell.rsn, own, r.element, o, e.authMode, e.wepStatus);
    }
  }

  /** The entry of a station just associated: its mode and cipher as negotiated, its port as the mode demands, and
      the step its key handshake begins with. */
  ghost predicate Joined(e: Entry, e': Entry, cell: Cell, el: Rsn.Element, own: Offer, o: Offer)
    requires Readable(cell.rsn, el, own, o)
  {
    var psk, byDaemon := e'.authMode in {4, 7}, e'.authMode in {3, 6} || cell.ieee8021x;
    && e'.client && e'.addr == e.addr && e'.aid == e.aid && e'.bss == e.bss && e'.cm == e.cm && e'.sst == Assoc
    && (if el.recorded == 0 then e'.authMode == e.authMode && e'.wepStatus == e.wepStatus
        else && SettledOn(cell.rsn.authMode, el.eid, e'.authMode)
             && Pairable(cell.rsn, el, own, o)
             && forall k: nat | FirstAllowed(cell.rsn, el.eid, own, o, k) ::
                  Some(e'.wepStatus) == Allowed(cell.rsn, el.eid, own, o.pairwise[k]))
    && e'.wpa == (if psk then 7 else if byDaemon then 4 else e.wpa)
    && (e'.filterOpen <==> e.filterOpen && !psk && !byDaemon)
    && (e'.secured <==> e'.authMode < 3 && !cell.ieee8021x)
    && (e'.gtkDone <==> e.gtkDone && e.wepStatus < 4 && !cell.ieee8021x)
  }

  lemma BuildJoins(e: Entry, cell: Cell, r: Request, own: Offer, o: Offer)
    requires Readable(cell.rsn, r.element, own, o) && e.client && e.aid != 0
    requires Build(Renewing(e, cell), cell, r).1 == 0
    ensures Joined(e, Build(Renewing(e, cell), cell, r).0, cell, r.element, own, o)
  {
    if r.element.recorded != 0 {
      NegotiationExact(cell.rsn, own, r.element, o, e.authMode, e.wepStatus);
    }
  }

  /** What keeps an entry that is not associated as it was, as far as data goes. */
  ghost predicate Stayed(e: Entry, e': Entry) {
    e'.client == e.client && e'.addr == e.addr && e'.bss == e.bss && e'.aid == e.aid
    && e'.sst == e.sst && e'.filterOpen == e.filterOpen && e'.secured == e.secured && e'.wpa == e.wpa && e'.cm == e.cm
  }

  lemma EntryOutcome(e: Entry, cell: Cell, r: Request, own: Offer, o: Offer)
    requires Readable(cell.rsn, r.element, own, o) && e.client && e.aid != 0
    ensures var (e', status) := Build(Renewing(e, cell), cell, r);
            && (status == 0 <==> r.rateOk && e.sst != NotAuth && Agreed(cell.rsn, r.element, own, o))
            && (if status == 0 then Joined(e, e', cell, r.element, own, o) else Stayed(e, e'))
  {
    BuildStatuses(Renewing(e, cell), cell, r, own, o);
    if Build(Renewing(e, cell), cell, r).1 == 0 {
      BuildJoins(e, cell, r, own, o);
    }
  }

  lemma TableOutcome(t: Table, cfg: seq<Cell>, addr2: Mac, r: Request, i: nat)
    requires Shape(t, cfg) && Lookup(t, addr2) == Some(i)
    ensures var t' := AssocReq(t, cfg, addr2, r).0;
            var e, cell := t.content[i], cfg[t.content[i].bss];
            && OnlyAt(t, t', i)
            && if !r.ssidMatches then t'.log == t.log && t'.content[i] == Renewing(e, cell)
               else
                 var (e', status) := Build(Renewing(e, cell), cell, r);
                 t'.content[i] == e' && t'.log == if status == 0 then t.log + [Associated(i)] else t.log
  {
  }

  /** The outcome of an association or reassociation request that reaches its handler: the station ends associated,
      on record and in the state above, exactly when SSID and rate fit, its entry is authenticated or associated, and
      both sides agree; otherwise the state of its entry and its port stay. Other entries stay in any case. */
  lemma AssociationOutcome(t: Table, cfg: seq<Cell>, reassoc: bool, addr2: Mac, r: Request, own: Offer, o: Offer, i: nat)
    requires Inv(t, cfg) && (!t.ban || reassoc) && Lookup(t, addr2) == Some(i)
    requires Readable(cfg[t.content[i].bss].rsn, r.element, own, o)
    ensures var t' := Receive(t, cfg, AssocFrame(reassoc, addr2, r));
            var e, e', cell := t.content[i], t'.content[i], cfg[t.content[i].bss];
            && OnlyAt(t, t', i)
            && if r.ssidMatches && r.rateOk && e.sst != NotAuth && Agreed(cell.rsn, r.element, own, o)
               then t'.log == t.log + [Associated(i)] && Joined(e, e', cell, r.element, own, o)
               else t'.log == t.log && Stayed(e, e')
  {
    assert EntryOk(t.content[i], i, cfg, t.log);
    TableOutcome(t, cfg, addr2, r, i);
    EntryOutcome(t.content[i], cfg[t.content[i].bss], r, own, o);
  }

  /** A request of a station the table does not know, or during a ban when it is no reassociation, changes nothing. */
  lemma AssociationIgnored(t: Table, cfg: seq<Cell>, reassoc: bool, addr2: Mac, r: Request)
    requires Shape(t, cfg) && (Lookup(t, addr2).None? || (t.ban && !reassoc))
    ensures Receive(t, cfg, AssocFrame(reassoc, addr2, r)) == t
  {
  }

  // ---- Authentication ------------------------------------------------------------------------------

  /** A station that has just come into the table, as the settings of its BSS say. */
  ghost predicate Fresh(e: Entry, i: nat, addr: Mac, b: nat, cell: Cell) {
    && e.client && e.addr == addr && e.aid == i && e.bss == b
    && e.authMode == cell.rsn.authMode && e.wepStatus == cell.rsn.wepStatus
    && e.filterOpen && !e.secured && !e.gtkDone && !e.cm
    && e.wpa == if cell.rsn.authMode < 3 then 0 else 3
  }

  /** No slot from index 1 is vacant, or the BSS is at its limit. */
  ghost predicate Full(t: Table, cfg: seq<Cell>, b: nat)
    requires b < |cfg|
  {
    || (forall k | 1 <= k < |t.content| :: t.content[k].client)
    || (cfg[b].maxSta != 0 && Population(t.content, b) >= cfg[b].maxSta)
  }

  /** Entry i after an authentication frame of its station: an old entry but for its state, or a fresh one. */
  ghost predicate Entered(t1: Table, t': Table, cfg: seq<Cell>, who: Option<nat>, i: nat, addr: Mac, b: nat, sst: Sst) {
    && |t1.content| == |t'.content| == TABLE && i < TABLE && b < |cfg| && t'.content[i].sst == sst
    && (who.Some? ==> i == who.value && t'.content[i] == t1.content[i].(sst := sst))
    && (who.None? ==> Fresh(t'.content[i], i, addr, b, cfg[b]))
    && forall k | 0 <= k < TABLE && k != i :: t'.content[k] == t1.content[k]
  }

  lemma EnsureOutcome(t: Table, cfg: seq<Cell>, who: Option<nat>, addr: Mac, b: nat)
    requires Inv(t, cfg) && b < |cfg| && (who.Some? ==> 0 < who.value < TABLE)
    ensures var (t1, at) := Ensure(t, cfg, who, addr, b);
            && (at.None? <==> who.None? && Full(t, cfg, b))
            && (at.Some? ==> Entered(t, t1, cfg, who, at.value, addr, b, t1.content[at.value].sst))
  {
  }

  /** The entry i of the station, and what the frame left on record and in the challenge slot. */
  ghost predicate Answered(t1: Table, t': Table, cfg: seq<Cell>, who: Option<nat>, i: nat, addr: Mac, b: nat, alg: nat, text: seq<byte>) {
    && Entered(t1, t', cfg, who, i, addr, b, if alg == 0 then Auth else NotAuth)
    && t'.log != [] && t'.log[|t'.log| - 1] == (if alg == 0 then Succeeded(i, addr) else Challenged(i, addr, text))
    && t'.auxAddr == (if alg == 0 then t1.auxAddr else addr) && t'.auxText == (if alg == 0 then t1.auxText else text)
  }

  lemma OpenOutcome(t1: Table, cfg: seq<Cell>, who: Option<nat>, addr: Mac, b: nat, text: seq<byte>)
    requires Inv(t1, cfg) && b < |cfg| && (who.None? ==> Lookup(t1, addr).None?) && (who.Some? ==> 0 < who.value < TABLE)
    ensures var at, t' := Ensure(t1, cfg, who, addr, b).1, AcceptOpen(t1, cfg, who, addr, b);
            if who.None? && Full(t1, cfg, b) then Lookup(t', addr).None?
            else at.Some? && Answered(t1, t', cfg, who, at.value, addr, b, 0, text)
  {
    EnsureOutcome(t1, cfg, who, addr, b);
  }

  lemma KeyOutcome(t1: Table, cfg: seq<Cell>, who: Option<nat>, addr: Mac, b: nat, text: seq<byte>)
    requires Inv(t1, cfg) && b < |cfg| && (who.None? ==> Lookup(t1, addr).None?) && (who.Some? ==> 0 < who.value < TABLE)
    ensures var at, t' := Ensure(t1, cfg, who, addr, b).1, Challenge(t1, cfg, who, addr, b, text);
            if who.None? && Full(t1, cfg, b) then Lookup(t', addr).None?
            else at.Some? && Answered(t1, t', cfg, who, at.value, addr, b, 1, text)
  {
    EnsureOutcome(t1, cfg, who, addr, b);
  }

  lemma WhichAnswer(t: Table, cfg: seq<Cell>, addr1: Mac, addr2: Mac, alg: nat, text: seq<byte>, b: nat)
    requires Shape(t, cfg) && !t.ban && FindBss(cfg, addr1, 0) == Some(b) && alg <= 1
    ensures var t' := Receive(t, cfg, AuthFrame1(addr1, addr2, alg, true, text));
            var (t1, who) := Located(t, cfg, addr1, addr2);
            var mode := cfg[b].rsn.authMode;
            && t1.acl == t.acl && t1.auxAddr == t.auxAddr && t1.auxText == t.auxText
            && t' == if Barred(t.acl[b], addr2) then Refuse(t1, cfg, who, addr2, 1)
                     else if (if alg == 0 then mode == 1 else mode !in {1, 2}) then Refuse(t1, cfg, who, addr2, 13)
                     else if alg == 0 then AcceptOpen(t1, cfg, who, addr2, b)
                     else Challenge(t1, cfg, who, addr2, b, text)
  {
    BarredExactly(t.acl[b], addr2);
  }

  /** The answers to a first authentication frame that reaches its handler. A shared-key request is challenged in a
      shared-key or automatic BSS; an open one succeeds in every BSS but a shared-key one; the list, or any other
      request, is refused with status 1 or 13 and costs the station its entry. */
  lemma FirstFrameOutcome(t: Table, cfg: seq<Cell>, addr1: Mac, addr2: Mac, alg: nat, text: seq<byte>, b: nat)
    requires Inv(t, cfg) && !t.ban && FindBss(cfg, addr1, 0) == Some(b) && alg <= 1
    ensures var t' := Receive(t, cfg, AuthFrame1(addr1, addr2, alg, true, text));
            var (t1, who) := Located(t, cfg, addr1, addr2);
            var mode := cfg[b].rsn.authMode;
            if Barred(t.acl[b], addr2) then Turned(t1, t', addr2, 1)
            else if (if alg == 0 then mode == 1 else mode !in {1, 2}) then Turned(t1, t', addr2, 13)
            else if who.None? && Full(t1, cfg, b) then Lookup(t', addr2).None?
            else exists i: nat :: Answered(t1, t', cfg, who, i, addr2, b, alg, text)
  {
    var (t1, who) := Located(t, cfg, addr1, addr2);
    LocatedInv(t, cfg, addr1, addr2);
    WhichAnswer(t, cfg, addr1, addr2, alg, text, b);
    if who.Some? {
      assert EntryOk(t1.content[who.value], who.value, cfg, t1.log);
    }
    OpenOutcome(t1, cfg, who, addr2, b, text);
    KeyOutcome(t1, cfg, who, addr2, b, text);
    TurnedAway(t1, cfg, who, addr2, 1);
    TurnedAway(t1, cfg, who, addr2, 13);
  }

  /** The list keeps an address out: a positive list the others, any other policy but 0 its own. */
  predicate Barred(acl: Acl, addr: Mac) {
    if acl.policy == 1 then addr !in acl.list else acl.policy != 0 && addr in acl.list
  }

  lemma BarredExactly(acl: Acl, addr: Mac)
    ensures Barred(acl, addr) <==> !Passes(acl, addr)
  {
  }

  ghost predicate Turned(t: Table, t': Table, addr: Mac, status: nat) {
    t'.log == t.log + [Refused(addr, status)] && Lookup(t', addr).None?
  }

  lemma TurnedAway(t: Table, cfg: seq<Cell>, who: Option<nat>, addr: Mac, status: nat)
    requires Inv(t, cfg) && (who.None? ==> Lookup(t, addr).None?)
    requires who.Some? ==> who.value < TABLE && t.content[who.value].client && t.content[who.value].addr == addr
    ensures Turned(t, Refuse(t, cfg, who, addr, status), addr, status)
  {
    if who.Some? {
      RefusedInv(t, cfg, addr, status);
      var t1 := Note(t, cfg, Refused(addr, status));
      DeleteOwn(t1, cfg, who.value);
    }
  }

  lemma RefusedEntry(t: Table, cfg: seq<Cell>, addr: Mac, wcid: nat, status: nat)
    requires Inv(t, cfg) && wcid < TABLE
    ensures var t' := Refuse(t, cfg, Some(wcid), addr, status);
            OnlyAt(t, t', wcid) && t'.log == t.log + [Refused(addr, status)] && !t'.content[wcid].client
  {
    assert EntryOk(t.content[wcid], wcid, cfg, t.log);
  }

  lemma StrangeEntry(t: Table, cfg: seq<Cell>, addr1: Mac, addr: Mac, wcid: nat, status: nat)
    requires Inv(t, cfg) && wcid < TABLE && t.content[wcid].client && cfg[t.content[wcid].bss].bssid != addr1
    ensures var (t1, who) := OfBss(t, cfg, addr1, wcid);
            var t' := Refuse(t1, cfg, None, addr, status);
            && who.None?
            && OnlyAt(t, t', wcid) && t'.log == t.log + [Refused(addr, status)] && !t'.content[wcid].client
  {
    assert EntryOk(t.content[wcid], wcid, cfg, t.log);
  }

  /** A confirmation that does not succeed is refused, with status 15 if it came from the station last challenged and
      met an entry of the addressed BSS, else with status 1; a client under the index is gone, and so is its
      association. */
  lemma ConfirmOutcome(t: Table, cfg: seq<Cell>, addr1: Mac, addr2: Mac, wcid: nat, wep: bool, text: seq<byte>)
    requires Inv(t, cfg) && !t.ban && FindBss(cfg, addr1, 0).Some? && wcid < TABLE
    ensures var t' := Receive(t, cfg, AuthFrame3(addr1, addr2, wcid, wep, true, text));
            var e := t.content[wcid];
            var met := (e.client ==> cfg[e.bss].bssid == addr1) && addr2 == t.auxAddr;
            && OnlyAt(t, t', wcid)
            && if met && wep && text == t.auxText
               then t'.log == t.log + [Succeeded(wcid, addr2)] && t'.content[wcid] == e.(sst := Auth)
               else t'.log == t.log + [Refused(addr2, if met then 15 else 1)] && !t'.content[wcid].client
  {
    if t.content[wcid].client && cfg[t.content[wcid].bss].bssid != addr1 {
      StrangeEntry(t, cfg, addr1, addr2, wcid, 1);
    } else {
      RefusedEntry(t, cfg, addr2, wcid, 1);
      RefusedEntry(t, cfg, addr2, wcid, 15);
    }
  }

  // ---- The port ------------------------------------------------------------------------------------

  /** A data frame with an index in range, from a station toward the distribution system. */
  ghost predicate Uplink(d: Data, i: nat) {
    d.wcid == i && d.toDs && !d.frDs && !d.noData
  }

  /** The fourth message opens the port of an associated client whose handshake is under way, and then every uplink
      frame under its index is delivered; at any other moment it changes nothing. */
  lemma FourthMessageOutcome(t: Table, cfg: seq<Cell>, i: nat, d: Data)
    requires Inv(t, cfg) && i < TABLE && !t.ban && Uplink(d, i)
    ensures var t', e := Msg4(t, cfg, i), t.content[i];
            if e.client && e.sst == Assoc && e.wpa >= 9
            then && OnlyAt(t, t', i) && t'.log == t.log + [Released(i)]
                 && t'.content[i] == e.(filterOpen := true, secured := true, wpa := 10, gtkDone := t'.content[i].gtkDone)
                 && (t'.content[i].gtkDone <==> e.gtkDone || e.authMode in {6, 7})
                 && ReceiveData(t', cfg, d).1 == Some(i)
            else t' == t
  {
    DeliveredInRange(Msg4(t, cfg, i), cfg, d);
  }

  /** The daemon's success for a known station: a WPA station that is associated goes on to its handshake, its port
      untouched, unless the packet carries a key; any other has its port opened. */
  lemma DaemonOutcome(t: Table, cfg: seq<Cell>, addr: Mac, keyType: bool, i: nat)
    requires Inv(t, cfg) && Lookup(t, addr) == Some(i)
    ensures var t', e := EapSuccess(t, cfg, addr, keyType), t.content[i];
            && OnlyAt(t, t', i)
            && if keyType || e.authMode in {0, 1, 2}
               then t'.log == t.log + [Released(i)] && t'.content[i] == e.(filterOpen := true, secured := true, wpa := 10)
               else t'.log == t.log && t'.content[i] == e.(wpa := if e.sst == Assoc then 6 else e.wpa)
  {
    assert t.content[i].authMode in {0, 1, 2} <==> t.content[i].authMode < 3;
  }

  /** A closed port, whatever closed it: EAPOL passes, nothing else does. */
  lemma ClosedPort(t: Table, cfg: seq<Cell>, i: nat, d: Data)
    requires Inv(t, cfg) && i < TABLE && !t.ban && Uplink(d, i) && t.content[i].sst == Assoc && !t.content[i].filterOpen
    ensures ReceiveData(t, cfg, d).1 == if d.eapol then Some(i) else None
  {
    DeliveredInRange(t, cfg, d);
  }

  /** A request for a new pairwise key closes the port of an associated client whose handshake has begun, and begins it
      again where its mode does. */
  lemma NewKeyOutcome(t: Table, cfg: seq<Cell>, i: nat)
    requires Inv(t, cfg) && i < TABLE
    ensures var t', e := NewPairwise(t, cfg, i), t.content[i];
            if e.client && e.sst == Assoc && e.wpa >= 7
            then && OnlyAt(t, t', i) && t'.log == t.log && !t'.content[i].filterOpen && !t'.content[i].secured
                 && !t'.content[i].gtkDone && t'.content[i].sst == Assoc && t'.content[i].client
                 && (t'.content[i].wpa == 6 <==> e.authMode in {3, 6})
                 && (e.authMode in {4, 7} ==> t'.content[i].wpa == 7)
            else t' == t
  {
  }

  /** EAPOL-Start closes the port of a known station that is not secured and not yet in its handshake, and begins the
      handshake, where a key is at hand: pre-shared, or cached under WPA2. */
  lemma StartOutcome(t: Table, cfg: seq<Cell>, addr: Mac, cached: bool, sent: bool, i: nat)
    requires Inv(t, cfg) && Lookup(t, addr) == Some(i)
    ensures var t', e := EapolStart(t, cfg, addr, cached, sent), t.content[i];
            && OnlyAt(t, t', i) && t'.log == t.log
            && if !e.secured && e.wpa <= 7 && (e.authMode in {4, 7} || (e.authMode == 6 && cached))
               then t'.content[i] == e.(filterOpen := false, wpa := t'.content[i].wpa) && t'.content[i].wpa == (if sent then 8 else 7)
               else t' == t
  {
  }

  /** A data frame costs a client its entry exactly when the station is not associated and the frame is its own, or
      when it sends encrypted data late, through a closed port, before its authentication has begun. */
  lemma SilentStation(t: Table, cfg: seq<Cell>, d: Data, i: nat)
    requires Inv(t, cfg) && i < TABLE && !t.ban && Uplink(d, i) && t.content[i].client
    ensures var t', e := ReceiveData(t, cfg, d).0, t.content[i];
            !t'.content[i].client <==>
              if e.sst == Assoc then !d.eapol && !e.filterOpen && d.wep && d.late && e.wpa < 5 && d.memory
              else d.addr2 == e.addr
  {
    assert EntryOk(t.content[i], i, cfg, t.log);
  }

  /** An EAPOL frame of an associated entry goes up, whatever its port; the first one moves a station that awaits its
      802.1X authentication on, and nothing else changes. */
  lemma EapolOutcome(t: Table, cfg: seq<Cell>, d: Data, i: nat)
    requires Inv(t, cfg) && i < TABLE && !t.ban && Uplink(d, i) && d.eapol && t.content[i].sst == Assoc
    ensures var (t', to) := ReceiveData(t, cfg, d);
            var e := t.content[i];
            && to == Some(i) && OnlyAt(t, t', i) && t'.log == t.log
            && t'.content[i] == e.(wpa := if e.wpa == 4 then 5 else e.wpa)
  {
  }

  /** A disassociation or deauthentication frame takes the client under its index if the address is that client's, and
      otherwise changes nothing. */
  lemma DepartureOutcome(t: Table, cfg: seq<Cell>, addr2: Mac, wcid: nat)
    requires Inv(t, cfg)
    ensures var t1, t2 := Receive(t, cfg, DisassocFrame(addr2, wcid)), Receive(t, cfg, DeauthFrame(addr2, wcid));
            && t1 == t2
            && if wcid < TABLE && t.content[wcid].client && t.content[wcid].addr == addr2
               then OnlyAt(t, t2, wcid) && t2.log == t.log && Lookup(t2, addr2).None? && t2.content[wcid].sst == t.content[wcid].sst
               else t2 == t
  {
    if wcid < TABLE && t.content[wcid].client && t.content[wcid].addr == addr2 {
      assert EntryOk(t.content[wcid], wcid, cfg, t.log);
      DeleteOwn(t, cfg, wcid);
    }
  }

  // ---- MIC failures over runs ----------------------------------------------------------------------

  /** One report: a failure that does not count changes nothing. One that counts marks its station and leaves the
      timer running; the second while it runs begins the ban, the first changes nothing else. */
  lemma FailureOutcome(t: Table, cfg: seq<Cell>, i: nat, memory: seq<bool>)
    requires Inv(t, cfg) && i < TABLE && |memory| == TABLE
    ensures var t', e := MicFailure(t, cfg, i, memory), t.content[i];
            if e.wpa < 10 || !e.gtkDone then t' == t
            else && t'.cmTimer && t'.content[i].cm
                 && (t'.ban <==> t.ban || t.cmTimer)
                 && (!t.cmTimer ==> t' == t.(cmTimer := true, content := t.content[i := e.(cm := true)]))
  {
    if Keyed(t.content[i]) && t.cmTimer {
      MarkKept(t, cfg, i, memory);
    }
  }

  lemma {:induction false} DeauthKeepsMark(t: Table, cfg: seq<Cell>, k: nat, memory: seq<bool>, i: nat)
    requires Shape(t, cfg) && k <= TABLE && |memory| == TABLE && i < TABLE
    ensures DeauthFrom(t, cfg, k, memory).content[i].cm == t.content[i].cm
    decreases TABLE - k
  {
    if k < TABLE {
      var e := t.content[k];
      DeauthKeepsMark(if e.client && memory[k] then Delete(t, cfg, e.aid, e.addr) else t, cfg, k + 1, memory, i);
    }
  }

  lemma MarkKept(t: Table, cfg: seq<Cell>, i: nat, memory: seq<bool>)
    requires Shape(t, cfg) && i < TABLE && |memory| == TABLE && Keyed(t.content[i]) && t.cmTimer
    ensures var t' := MicFailure(t, cfg, i, memory);
            t'.cmTimer && t'.ban && t'.content[i].cm
  {
    var t1 := Put(t, cfg, i, t.content[i].(cm := true));
    DeauthKeepsMark(t1, cfg, 0, memory, i);
    assert MicFailure(t, cfg, i, memory) == Expel(t1, cfg, memory);
  }

  /** The timer's execution ends ban and timer and clears the mark of every client, and nothing else. */
  lemma TimerOutcome(t: Table, cfg: seq<Cell>)
    requires Shape(t, cfg)
    ensures var t' := Timeout(t, cfg);
            && !t'.ban && !t'.cmTimer && t' == t.(ban := false, cmTimer := false, content := t'.content)
            && forall k | 0 <= k < TABLE ::
                 t'.content[k] == t.content[k].(cm := t.content[k].cm && !t.content[k].client)
  {
  }

  /** What a step is to the countermeasures: a failure of a station whose handshakes are complete, the timer's
      execution, a stop of the access point, or nothing. */
  datatype Mark = Failure | Execution | Halt | Nothing

  ghost function MarkOf(t: Table, e: Event): Mark
    requires e.EMic? ==> e.i < |t.content|
  {
    if e.EMic? && t.content[e.i].wpa >= 10 && t.content[e.i].gtkDone then Failure
    else if e == ETimer then Execution
    else if e.EStop? then Halt
    else Nothing
  }

  ghost function Marks(t: Table, cfg: seq<Cell>, es: seq<Event>): (ms: seq<Mark>)
    requires Shape(t, cfg) && Valid(t, cfg, es)
    ensures |ms| == |es|
    decreases |es|
  {
    if es == [] then [] else [MarkOf(t, es[0])] + Marks(Step(t, cfg, es[0]), cfg, es[1..])
  }

  /** Ban and timer. */
  datatype Flags = Flags(ban: bool, timer: bool)

  function Next(f: Flags, m: Mark): Flags {
    match m
    case Failure => Flags(f.ban || f.timer, true)
    case Execution => Flags(false, false)
    case Halt => Flags(f.ban, false)
    case Nothing => f
  }

  function After(f: Flags, ms: seq<Mark>): Flags
    decreases |ms|
  {
    if ms == [] then f else After(Next(f, ms[0]), ms[1..])
  }

  lemma StepFlags(t: Table, cfg: seq<Cell>, e: Event)
    requires Shape(t, cfg) && Enabled(t, cfg, e)
    ensures var t' := Step(t, cfg, e);
            Flags(t'.ban, t'.cmTimer) == Next(Flags(t.ban, t.cmTimer), MarkOf(t, e))
  {
    if e.EMic? && Keyed(t.content[e.i]) && t.cmTimer {
      MarkKept(t, cfg, e.i, e.memory);
    }
  }

  lemma {:induction false} RunFlags(t: Table, cfg: seq<Cell>, es: seq<Event>)
    requires Shape(t, cfg) && Valid(t, cfg, es)
    ensures var t' := Run(t, cfg, es);
            Flags(t'.ban, t'.cmTimer) == After(Flags(t.ban, t.cmTimer), Marks(t, cfg, es))
    decreases |es|
  {
    if es != [] {
      StepFlags(t, cfg, es[0]);
      RunFlags(Step(t, cfg, es[0]), cfg, es[1..]);
      assert Marks(t, cfg, es)[1..] == Marks(Step(t, cfg, es[0]), cfg, es[1..]);
    }
  }

  lemma {:induction false} AfterSnoc(f: Flags, ms: seq<Mark>, m: Mark)
    ensures After(f, ms + [m]) == Next(After(f, ms), m)
    decreases |ms|
  {
    if ms == [] {
      assert ms + [m] == [m] && [m][1..] == [];
    } else {
      assert (ms + [m])[1..] == ms[1..] + [m];
      AfterSnoc(Next(f, ms[0]), ms[1..], m);
    }
  }

  /** From `from` up to `to` the timer is neither executed nor is the access point stopped. */
  ghost predicate Ticking(ms: seq<Mark>, from: nat, to: nat) {
    forall k | from <= k < to && k < |ms| :: ms[k] != Execution && ms[k] != Halt
  }

  ghost predicate LastFailure(ms: seq<Mark>, k: nat) {
    k < |ms| && ms[k] == Failure && Ticking(ms, k + 1, |ms|)
  }

  /** Two failures with the timer running from the first to the second, and not executed since. */
  ghost predicate TwoFailures(ms: seq<Mark>, j: nat, k: nat) {
    j < k < |ms| && ms[j] == Failure && ms[k] == Failure && Ticking(ms, j + 1, k) && forall l | k < l < |ms| :: ms[l] != Execution
  }

  lemma LastFailureSnoc(ms: seq<Mark>, m: Mark)
    ensures (exists k: nat :: LastFailure(ms + [m], k)) <==>
              m == Failure || (m == Nothing && exists k: nat :: LastFailure(ms, k))
  {
    var all := ms + [m];
    if m == Failure {
      assert LastFailure(all, |ms|);
    }
    if k: nat :| m == Nothing && LastFailure(ms, k) {
      assert LastFailure(all, k);
    }
    if k: nat :| LastFailure(all, k) && k < |ms| {
      assert all[|ms|] == m && all[k] == ms[k];
      assert forall l | k < l < |ms| :: all[l] == ms[l];
      assert LastFailure(ms, k);
    }
  }

  lemma TwoFailuresSnoc(ms: seq<Mark>, m: Mark)
    ensures (exists j: nat, k: nat :: TwoFailures(ms + [m], j, k)) <==>
              || (m == Failure && exists k: nat :: LastFailure(ms, k))
              || (m != Execution && exists j: nat, k: nat :: TwoFailures(ms, j, k))
  {
    var all := ms + [m];
    assert forall l | 0 <= l < |ms| :: all[l] == ms[l];
    if k: nat :| m == Failure && LastFailure(ms, k) {
      assert TwoFailures(all, k, |ms|);
    }
    if j: nat, k: nat :| m != Execution && TwoFailures(ms, j, k) {
      assert TwoFailures(all, j, k);
    }
    if j: nat, k: nat :| TwoFailures(all, j, k) {
      if k == |ms| {
        assert LastFailure(ms, j);
      } else {
        assert all[|ms|] == m;
        assert TwoFailures(ms, j, k);
      }
    }
  }

  lemma {:induction false} FlagsExactly(ms: seq<Mark>)
    ensures After(Flags(false, false), ms).timer <==> exists k: nat :: LastFailure(ms, k)
    ensures After(Flags(false, false), ms).ban <==> exists j: nat, k: nat :: TwoFailures(ms, j, k)
  {
    if ms != [] {
      var front, m := ms[..|ms| - 1], ms[|ms| - 1];
      assert ms == front + [m];
      FlagsExactly(front);
      AfterSnoc(Flags(false, false), front, m);
      LastFailureSnoc(front, m);
      TwoFailuresSnoc(front, m);
      assert m == Halt || m == Execution || m == Failure || m == Nothing;
    }
  }

  /** Over every run from start-up: the timer is on exactly if some MIC failure of a station with complete handshakes was
      reported, and since then neither was the timer executed nor the access point stopped. A ban stands exactly if two
      such failures were reported with neither of these between them, and the timer was not executed since. */
  lemma CountermeasuresExactly(t: Table, cfg: seq<Cell>, es: seq<Event>)
    requires Start(t, cfg) && Valid(t, cfg, es)
    ensures Run(t, cfg, es).cmTimer <==> exists k: nat :: LastFailure(Marks(t, cfg, es), k)
    ensures Run(t, cfg, es).ban <==> exists j: nat, k: nat :: TwoFailures(Marks(t, cfg, es), j, k)
  {
    RunFlags(t, cfg, es);
    FlagsExactly(Marks(t, cfg, es));
  }

  // ---- A run that ends in a ban --------------------------------------------------------------------

  lemma {:induction false} OneMore(t: Table, cfg: seq<Cell>, es: seq<Event>, e: Event)
    requires Shape(t, cfg) && Valid(t, cfg, es) && Enabled(Run(t, cfg, es), cfg, e)
    ensures Valid(t, cfg, es + [e]) && Run(t, cfg, es + [e]) == Step(Run(t, cfg, es), cfg, e)
    decreases |es|
  {
    if es == [] {
      assert es + [e] == [e] && [e][1..] == [];
    } else {
      OneMore(Step(t, cfg, es[0]), cfg, es[1..], e);
      assert (es + [e])[1..] == es[1..] + [e];
    }
  }

  /** The station has entry i, and neither ban nor timer is on. */
  ghost predicate Known(t: Table, cfg: seq<Cell>, i: nat, addr: Mac) {
    Inv(t, cfg) && !t.ban && !t.cmTimer && 0 < i < TABLE && Lookup(t, addr) == Some(i)
  }

  /** The settings a station of a WPA2 BSS with pre-shared keys needs to get through. */
  ghost predicate Inviting(t: Table, cfg: seq<Cell>, addr: Mac) {
    && Shape(t, cfg) && FindBss(cfg, cfg[0].bssid, 0) == Some(0) && !Barred(t.acl[0], addr)
    && cfg[0].rsn.authMode == 7 && cfg[0].maxSta == 0
  }

  ghost predicate Fitting(cfg: seq<Cell>, r: Request, own: Offer, o: Offer)
    requires |cfg| > 0
  {
    && r.ssidMatches && r.rateOk && r.element.recorded != 0
    && Readable(cfg[0].rsn, r.element, own, o) && Agreed(cfg[0].rsn, r.element, own, o)
  }

  lemma AssociatedRun(t: Table, cfg: seq<Cell>, addr: Mac, r: Request, own: Offer, o: Offer) returns (es: seq<Event>, i: nat)
    requires Start(t, cfg) && Inviting(t, cfg, addr) && Fitting(cfg, r, own, o)
    ensures Valid(t, cfg, es) && Staged(Run(t, cfg, es), cfg, i, addr, 7)
  {
    var frame := AuthFrame1(cfg[0].bssid, addr, 0, true, []);
    StartInv(t, cfg);
    StepInv(t, cfg, EMgmt(frame));
    i := AuthenticatedIndex(t, cfg, addr, frame);
    es := [EMgmt(frame)];
    OneMore(t, cfg, [], EMgmt(frame));
    assert [] + es == es;
    var t1 := Run(t, cfg, es);
    var request := EMgmt(AssocFrame(false, addr, r));
    StepInv(t1, cfg, request);
    AssociationOutcome(t1, cfg, false, addr, r, own, o, i);
    OneMore(t, cfg, es, request);
    es := es + [request];
    SameLookup(t1, Run(t, cfg, es), cfg, addr, i);
  }

  /** A known station of a mode with pre-shared keys, associated, at this stage of its handshake. */
  ghost predicate Staged(t: Table, cfg: seq<Cell>, i: nat, addr: Mac, wpa: nat) {
    && Known(t, cfg, i, addr)
    && var e := t.content[i];
       e.sst == Assoc && e.wpa == wpa && e.authMode == 7 && (wpa == 7 ==> !e.secured)
  }

  lemma FirstStage(t: Table, cfg: seq<Cell>, addr: Mac, i: nat)
    requires Staged(t, cfg, i, addr, 7)
    ensures Staged(Step(t, cfg, EEapolStart(addr, false, true)), cfg, i, addr, 8)
  {
    StepInv(t, cfg, EEapolStart(addr, false, true));
    StartOutcome(t, cfg, addr, false, true, i);
    SameLookup(t, Step(t, cfg, EEapolStart(addr, false, true)), cfg, addr, i);
  }

  lemma SecondStage(t: Table, cfg: seq<Cell>, addr: Mac, i: nat)
    requires Staged(t, cfg, i, addr, 8)
    ensures Staged(Step(t, cfg, EHandshake(i, 9, false)), cfg, i, addr, 9)
  {
    StepInv(t, cfg, EHandshake(i, 9, false));
    SameLookup(t, Step(t, cfg, EHandshake(i, 9, false)), cfg, addr, i);
  }

  lemma LastStage(t: Table, cfg: seq<Cell>, addr: Mac, i: nat)
    requires Staged(t, cfg, i, addr, 9)
    ensures var t' := Step(t, cfg, EMsg4(i));
            && Known(t', cfg, i, addr) && t'.content[i].sst == Assoc && t'.content[i].filterOpen && t'.content[i].secured
            && t'.content[i].wpa == 10 && t'.content[i].gtkDone
  {
    StepInv(t, cfg, EMsg4(i));
    FourthMessageOutcome(t, cfg, i, Data(true, false, addr, i, false, false, true, false, true));
    SameLookup(t, Step(t, cfg, EMsg4(i)), cfg, addr, i);
  }

  /** Start, second message, fourth message, at the end of a run. */
  lemma KeyedRun(t: Table, cfg: seq<Cell>, before: seq<Event>, addr: Mac, i: nat) returns (es: seq<Event>)
    requires Shape(t, cfg) && Valid(t, cfg, before) && Staged(Run(t, cfg, before), cfg, i, addr, 7)
    ensures Valid(t, cfg, es) && Known(Run(t, cfg, es), cfg, i, addr)
    ensures var e := Run(t, cfg, es).content[i];
            e.sst == Assoc && e.filterOpen && e.secured && e.wpa == 10 && e.gtkDone
  {
    es := before;
    FirstStage(Run(t, cfg, es), cfg, addr, i);
    OneMore(t, cfg, es, EEapolStart(addr, false, true));
    es := es + [EEapolStart(addr, false, true)];
    SecondStage(Run(t, cfg, es), cfg, addr, i);
    OneMore(t, cfg, es, EHandshake(i, 9, false));
    es := es + [EHandshake(i, 9, false)];
    LastStage(Run(t, cfg, es), cfg, addr, i);
    OneMore(t, cfg, es, EMsg4(i));
    es := es + [EMsg4(i)];
  }

  /** From start-up a station can authenticate, associate and complete its handshake in a WPA2 BSS with pre-shared keys,
      if the list lets it pass and request and BSS agree. */
  lemma ServedRun(t: Table, cfg: seq<Cell>, addr: Mac, r: Request, own: Offer, o: Offer) returns (es: seq<Event>, i: nat)
    requires Start(t, cfg) && Inviting(t, cfg, addr) && Fitting(cfg, r, own, o)
    ensures Valid(t, cfg, es) && Known(Run(t, cfg, es), cfg, i, addr)
    ensures var e := Run(t, cfg, es).content[i];
            e.sst == Assoc && e.filterOpen && e.secured && e.wpa == 10 && e.gtkDone
  {
    es, i := AssociatedRun(t, cfg, addr, r, own, o);
    es := KeyedRun(t, cfg, es, addr, i);
  }

  lemma SameLookup(t: Table, t': Table, cfg: seq<Cell>, addr: Mac, i: nat)
    requires Inv(t, cfg) && Lookup(t, addr) == Some(i) && |t'.content| == TABLE && Unique(t'.content)
    requires t'.content[i].client && t'.content[i].addr == addr
    ensures Lookup(t', addr) == Some(i)
  {
  }

  lemma AuthenticatedIndex(t: Table, cfg: seq<Cell>, addr: Mac, frame: Mgmt) returns (i: nat)
    requires Start(t, cfg) && Inviting(t, cfg, addr)
    requires frame == AuthFrame1(cfg[0].bssid, addr, 0, true, [])
    ensures var t' := Receive(t, cfg, frame);
            && !t'.ban && !t'.cmTimer && 0 < i < TABLE && Lookup(t', addr) == Some(i)
            && t'.content[i].sst == Auth && t'.content[i].bss == 0 && t'.content[i].filterOpen && t'.content[i].authMode == 7
  {
    StartInv(t, cfg);
    FirstFrameOutcome(t, cfg, cfg[0].bssid, addr, 0, [], 0);
    var t' := Receive(t, cfg, frame);
    assert Located(t, cfg, cfg[0].bssid, addr) == (t, None);
    assert !t.content[1].client;
    i :| Answered(t, t', cfg, None, i, addr, 0, 0, []);
    ReceiveInv(t, cfg, frame);
    assert EntryOk(t'.content[i], i, cfg, t'.log);
  }

  /** So a ban is reached: from start-up a station is served, and two of its MIC failures are reported. */
  lemma BanningRun(t: Table, cfg: seq<Cell>, addr: Mac, r: Request, own: Offer, o: Offer, memory: seq<bool>)
    returns (es: seq<Event>)
    requires Start(t, cfg) && Inviting(t, cfg, addr) && Fitting(cfg, r, own, o) && |memory| == TABLE
    ensures Valid(t, cfg, es) && Run(t, cfg, es).ban && Run(t, cfg, es).cmTimer
  {
    var i;
    es, i := ServedRun(t, cfg, addr, r, own, o);
    var t1 := Run(t, cfg, es);
    FailureOutcome(t1, cfg, i, memory);
    StepInv(t1, cfg, EMic(i, memory));
    OneMore(t, cfg, es, EMic(i, memory));
    es := es + [EMic(i, memory)];
    var t2 := Run(t, cfg, es);
    FailureOutcome(t2, cfg, i, memory);
    OneMore(t, cfg, es, EMic(i, memory));
    es := es + [EMic(i, memory)];
  }
}
