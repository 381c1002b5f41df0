/** The table of stations of an access point as a step system: authentication, association, access control,
    TKIP countermeasures, class 2 and class 3 errors and the port, as functions on the state. */
module StationTable {
  import opened Octets
  import opened Wrappers
  import opened Rsn

  const TABLE: nat := 32

  datatype Sst = NotAuth | Auth | Assoc

  /** AP_WPA_STATE, in its own order. */
  const AS_NOTUSE: nat := 0
  const AS_INITIALIZE: nat := 3
  const AS_AUTHENTICATION: nat := 4
  const AS_AUTHENTICATION2: nat := 5
  const AS_INITPMK: nat := 6
  const AS_INITPSK: nat := 7
  const AS_PTKSTART: nat := 8
  const AS_PTKINIT_NEGOTIATING: nat := 9
  const AS_PTKINITDONE: nat := 10

  const MLME_ASSOC_DENY_OUT_SCOPE: nat := 12
  const MLME_ALG_NOT_SUPPORT: nat := 13
  const MLME_REJ_CHALLENGE_FAILURE: nat := 15
  const MLME_ASSOC_REJ_UNABLE_HANDLE_STA: nat := 17
  const MLME_ASSOC_REJ_DATA_RATE: nat := 18

  const AUTH_MODE_OPEN: nat := 0
  const AUTH_MODE_KEY: nat := 1

  /** `filterOpen` is Ndis802_11PrivFilterAcceptAll, `gtkDone` is REKEY_ESTABLISHED, `secured` is PortSecured,
      `cm` is the entry's CMTimerRunning. */
  datatype Entry = Entry(
    client: bool, addr: Mac, aid: nat, bss: nat, sst: Sst,
    authMode: AuthMode, wepStatus: nat, wpa: nat, gtkDone: bool, filterOpen: bool, secured: bool, cm: bool)

  /** An entry of zero octets. */
  const VACANT: Entry := Entry(false, ZERO_MAC, 0, 0, NotAuth, OPEN, 0, AS_NOTUSE, false, true, false, false)

  /** Entry 0 once the access point is up, for frames to groups: associated, with a group address, and no client. */
  function GroupEntry(e: Entry): (g: Entry)
    ensures g.client == e.client && g.bss == e.bss && g.filterOpen == e.filterOpen
  {
    e.(sst := Assoc, aid := 0, addr := [1] + e.addr[1..])
  }

  datatype Acl = Acl(policy: nat, list: seq<Mac>)

  /** The settings of one BSS. */
  datatype Cell = Cell(bssid: Mac, ieee8021x: bool, maxSta: nat, rsn: Rsn.Bss)

  /** What the handlers did, oldest first. `Succeeded` is an authentication answered with status 0 and
      `Refused` one answered with another status; `Released` is the opening of an entry's port, `Started` a start of
      the access point. */
  datatype Record =
    | Inserted(i: nat, addr: Mac)
    | Challenged(i: nat, addr: Mac, text: seq<byte>)
    | Succeeded(i: nat, addr: Mac)
    | Refused(addr: Mac, status: nat)
    | Associated(i: nat)
    | Released(i: nat)
    | Started

  /** `auxAddr` and `auxText` are ApMlmeAux, `ban` is BANClass3Data, `cmTimer` is CMTimerRunning. */
  datatype Table = Table(
    content: seq<Entry>, auxAddr: Mac, auxText: seq<byte>, ban: bool, cmTimer: bool, acl: seq<Acl>, log: seq<Record>)

  ghost predicate Shape(t: Table, cfg: seq<Cell>) {
    && |t.content| == TABLE && |cfg| > 0 && |t.acl| == |cfg|
    && forall i | 0 <= i < TABLE :: t.content[i].bss < |cfg|
  }

  // ---- The table: mgmt/mgmt_entrytb.c --------------------------------------------------------

  function LookupFrom(content: seq<Entry>, addr: Mac, i: nat): (r: Option<nat>)
    requires i <= |content|
    ensures r.Some? ==> i <= r.value < |content| && content[r.value].client && content[r.value].addr == addr
    ensures r.None? ==> forall k | i <= k < |content| :: !(content[k].client && content[k].addr == addr)
    decreases |content| - i
  {
    if i == |content| then None
    else if content[i].client && content[i].addr == addr then Some(i)
    else LookupFrom(content, addr, i + 1)
  }

  /** MacTableLookup. */
  function Lookup(t: Table, addr: Mac): (r: Option<nat>)
    ensures r.Some? ==> r.value < |t.content| && t.content[r.value].client && t.content[r.value].addr == addr
    ensures r.None? ==> forall k | 0 <= k < |t.content| :: !(t.content[k].client && t.content[k].addr == addr)
  {
    LookupFrom(t.content, addr, 0)
  }

  /** MacTableDeleteEntry: most fields of the entry survive. */
  function Delete(t: Table, cfg: seq<Cell>, i: nat, addr: Mac): (t': Table)
    requires Shape(t, cfg)
    ensures Shape(t', cfg) && t'.ban == t.ban && t'.cmTimer == t.cmTimer && t'.log == t.log
  {
    if i < TABLE && t.content[i].client && t.content[i].addr == addr
    then t.(content := t.content[i := t.content[i].(client := false, addr := ZERO_MAC)])
    else t
  }

  function Vacancy(content: seq<Entry>, i: nat): (r: Option<nat>)
    requires i <= |content|
    ensures r.Some? ==> i <= r.value < |content| && !content[r.value].client
    ensures r.Some? ==> forall k | i <= k < r.value :: content[k].client
    ensures r.None? ==> forall k | i <= k < |content| :: content[k].client
    decreases |content| - i
  {
    if i == |content| then None else if !content[i].client then Some(i) else Vacancy(content, i + 1)
  }

  /** The number of clients of a BSS: its StaCount. */
  function Population(content: seq<Entry>, bss: nat): nat {
    if content == [] then 0
    else (if content[0].client && content[0].bss == bss then 1 else 0) + Population(content[1..], bss)
  }

  function NewEntry(cfg: seq<Cell>, i: nat, addr: Mac, b: nat): Entry
    requires b < |cfg|
  {
    var mode := cfg[b].rsn.authMode;
    Entry(true, addr, i, b, NotAuth, mode, cfg[b].rsn.wepStatus,
          if mode < WPA then AS_NOTUSE else AS_INITIALIZE, false, true, false, false)
  }

  /** MacTableInsertEntry: the first vacancy is cleared even when the BSS turns out to be full. */
  function Insert(t: Table, cfg: seq<Cell>, addr: Mac, b: nat): (r: (Table, Option<nat>))
    requires Shape(t, cfg) && b < |cfg|
    ensures Shape(r.0, cfg) && r.0.ban == t.ban && r.0.cmTimer == t.cmTimer
  {
    var v := Vacancy(t.content, 1);
    if v.None? then (t, None)
    else if cfg[b].maxSta != 0 && Population(t.content, b) >= cfg[b].maxSta
    then (t.(content := t.content[v.value := VACANT]), None)
    else (t.(content := t.content[v.value := NewEntry(cfg, v.value, addr, b)], log := t.log + [Inserted(v.value, addr)]), v)
  }

  function Put(t: Table, cfg: seq<Cell>, i: nat, e: Entry): (t': Table)
    requires Shape(t, cfg) && i < TABLE && e.bss < |cfg|
    ensures Shape(t', cfg) && t'.ban == t.ban && t'.cmTimer == t.cmTimer && t'.log == t.log
  {
    t.(content := t.content[i := e])
  }

  function Note(t: Table, cfg: seq<Cell>, r: Record): (t': Table)
    requires Shape(t, cfg)
    ensures Shape(t', cfg) && t'.ban == t.ban && t'.cmTimer == t.cmTimer
  {
    t.(log := t.log + [r])
  }

  /** ApCheckAccessControlList. */
  function Passes(acl: Acl, addr: Mac): bool {
    acl.policy == 0 || (addr in acl.list) == (acl.policy == 1)
  }

  function FindBss(cfg: seq<Cell>, bssid: Mac, b: nat): (r: Option<nat>)
    requires b <= |cfg|
    ensures r.Some? ==> r.value < |cfg| && cfg[r.value].bssid == bssid
    decreases |cfg| - b
  {
    if b == |cfg| then None else if cfg[b].bssid == bssid then Some(b) else FindBss(cfg, bssid, b + 1)
  }

  // ---- Authentication: ap/ap_auth.c ------------------------------------------------------------

  /** Refuses an authentication; the station's entry goes, if there is one. */
  function Refuse(t: Table, cfg: seq<Cell>, who: Option<nat>, addr: Mac, status: nat): (t': Table)
    requires Shape(t, cfg) && (who.Some? ==> who.value < TABLE)
    ensures Shape(t', cfg) && t'.ban == t.ban && t'.cmTimer == t.cmTimer
  {
    var t1 := Note(t, cfg, Refused(addr, status));
    if who.Some? then Delete(t1, cfg, t1.content[who.value].aid, t1.content[who.value].addr) else t1
  }

  function Ensure(t: Table, cfg: seq<Cell>, who: Option<nat>, addr: Mac, b: nat): (r: (Table, Option<nat>))
    requires Shape(t, cfg) && b < |cfg| && (who.Some? ==> who.value < TABLE)
    ensures Shape(r.0, cfg) && r.0.ban == t.ban && r.0.cmTimer == t.cmTimer && (r.1.Some? ==> r.1.value < TABLE)
  {
    if who.Some? then (t, who) else Insert(t, cfg, addr, b)
  }

  function AcceptOpen(t: Table, cfg: seq<Cell>, who: Option<nat>, addr: Mac, b: nat): (t': Table)
    requires Shape(t, cfg) && b < |cfg| && (who.Some? ==> who.value < TABLE)
    ensures Shape(t', cfg) && t'.ban == t.ban && t'.cmTimer == t.cmTimer
  {
    var (t1, at) := Ensure(t, cfg, who, addr, b);
    if at.None? then t1
    else Note(Put(t1, cfg, at.value, t1.content[at.value].(sst := Auth)), cfg, Succeeded(at.value, addr))
  }

  function Challenge(t: Table, cfg: seq<Cell>, who: Option<nat>, addr: Mac, b: nat, text: seq<byte>): (t': Table)
    requires Shape(t, cfg) && b < |cfg| && (who.Some? ==> who.value < TABLE)
    ensures Shape(t', cfg) && t'.ban == t.ban && t'.cmTimer == t.cmTimer
  {
    var (t1, at) := Ensure(t, cfg, who, addr, b);
    if at.None? then t1
    else
      Note(Put(t1.(auxAddr := addr, auxText := text), cfg, at.value, t1.content[at.value].(sst := NotAuth)), cfg,
           Challenged(at.value, addr, text))
  }

  /** The station's entry, unless it belongs to another BSS: then it goes. */
  function OfBss(t: Table, cfg: seq<Cell>, bssid: Mac, i: nat): (r: (Table, Option<nat>))
    requires Shape(t, cfg) && i < TABLE
    ensures Shape(r.0, cfg) && r.0.ban == t.ban && r.0.cmTimer == t.cmTimer && (r.1.Some? ==> r.1.value == i)
  {
    var e := t.content[i];
    if e.client && cfg[e.bss].bssid != bssid then (Delete(t, cfg, e.aid, e.addr), None) else (t, Some(i))
  }

  /** APPeerAuthReqAtIdleAction; `text` is the random challenge, `up` the state of the interface. */
  function AuthReq(t: Table, cfg: seq<Cell>, addr1: Mac, addr2: Mac, alg: nat, up: bool, text: seq<byte>): (t': Table)
    requires Shape(t, cfg)
    ensures Shape(t', cfg) && t'.ban == t.ban && t'.cmTimer == t.cmTimer
  {
    var b := FindBss(cfg, addr1, 0);
    if alg > AUTH_MODE_KEY || b.None? || !up then t
    else
      var found := Lookup(t, addr2);
      var (t1, who) := if found.Some? then OfBss(t, cfg, addr1, found.value) else (t, None);
      var mode := cfg[b.value].rsn.authMode;
      if !Passes(t1.acl[b.value], addr2) then Refuse(t1, cfg, who, addr2, MLME_UNSPECIFY_FAIL)
      else if alg == AUTH_MODE_OPEN && mode != SHARED then AcceptOpen(t1, cfg, who, addr2, b.value)
      else if alg == AUTH_MODE_KEY && (mode == SHARED || mode == AUTO_SWITCH)
      then Challenge(t1, cfg, who, addr2, b.value, text)
      else Refuse(t1, cfg, who, addr2, MLME_ALG_NOT_SUPPORT)
  }

  /** APPeerAuthConfirmAction: it takes the entry by index and the station by address. */
  function AuthConfirm(t: Table, cfg: seq<Cell>, addr1: Mac, addr2: Mac, wcid: nat, wep: bool, up: bool, text: seq<byte>):
    (t': Table)
    requires Shape(t, cfg)
    ensures Shape(t', cfg) && t'.ban == t.ban && t'.cmTimer == t.cmTimer
  {
    if FindBss(cfg, addr1, 0).None? || !up || wcid >= TABLE then t
    else
      var (t1, who) := OfBss(t, cfg, addr1, wcid);
      if who.Some? && addr2 == t1.auxAddr && wep && text == t1.auxText
      then Note(Put(t1, cfg, wcid, t1.content[wcid].(sst := Auth)), cfg, Succeeded(wcid, addr2))
      else Refuse(t1, cfg, who, addr2, if who.Some? && addr2 == t1.auxAddr then MLME_REJ_CHALLENGE_FAILURE else MLME_UNSPECIFY_FAIL)
  }

  // ---- Association: ap/ap_assoc.c ----------------------------------------------------------------

  /** What ap_cmm_peer_assoc_req_action reads of the request, besides the address. */
  datatype Request = Request(ssidMatches: bool, rateOk: bool, element: Rsn.Element)

  /** update_associated_mac_entry. */
  function Associate(e: Entry, cell: Cell): Entry {
    var byKey := e.authMode == WPAPSK || e.authMode == WPA2PSK;
    var by1x := e.authMode == WPA || e.authMode == WPA2 || cell.ieee8021x;
    e.(sst := Assoc,
       filterOpen := !byKey && !by1x && e.filterOpen,
       wpa := if byKey then AS_INITPSK else if by1x then AS_AUTHENTICATION else e.wpa,
       secured := !(e.authMode >= WPA || cell.ieee8021x))
  }

  /** APBuildAssociation: the entry after it and the status of the response. */
  function Build(e: Entry, cell: Cell, r: Request): (res: (Entry, nat))
    ensures res.0.client == e.client && res.0.addr == e.addr && res.0.aid == e.aid && res.0.bss == e.bss
  {
    if !r.rateOk then (e, MLME_ASSOC_REJ_DATA_RATE)
    else if e.sst == NotAuth then (e, MLME_ASSOC_REJ_UNABLE_HANDLE_STA)
    else
      var v := Validate(cell.rsn, r.element, e.authMode, e.wepStatus);
      var e1 := e.(authMode := v.authMode, wepStatus := v.wepStatus);
      if v.status != MLME_SUCCESS then (e1, v.status)
      else if e.aid == 0 then (e1, MLME_ASSOC_REJ_UNABLE_HANDLE_STA)
      else if r.element.recorded == 0 && cell.rsn.authMode >= WPA then (e1, MLME_ASSOC_DENY_OUT_SCOPE)
      else (Associate(e1, cell), MLME_SUCCESS)
  }

  /** A protected station negotiates its group key anew. */
  function Renewing(e: Entry, cell: Cell): Entry {
    if e.aid != 0 && (e.wepStatus >= ENCRYPTION2 || cell.ieee8021x) then e.(gtkDone := false) else e
  }

  /** ap_cmm_peer_assoc_req_action; the second result is the late refusal by the access control list. */
  function AssocReq(t: Table, cfg: seq<Cell>, addr2: Mac, r: Request): (res: (Table, bool))
    requires Shape(t, cfg)
    ensures Shape(res.0, cfg) && res.0.ban == t.ban && res.0.cmTimer == t.cmTimer
  {
    var found := Lookup(t, addr2);
    if found.None? then (t, false)
    else
      var i := found.value;
      var cell := cfg[t.content[i].bss];
      var e := Renewing(t.content[i], cell);
      if !r.ssidMatches then (Put(t, cfg, i, e), false)
      else
        var (e', status) := Build(e, cell, r);
        var t1 := Put(t, cfg, i, e');
        (if status == MLME_SUCCESS then Note(t1, cfg, Associated(i)) else t1, !Passes(t.acl[e.bss], addr2))
  }

  // ---- Countermeasures: ap/ap_wpa.c ---------------------------------------------------------------

  /** MlmeDeAuthAction on every client, from index i. */
  function DeauthFrom(t: Table, cfg: seq<Cell>, i: nat, memory: seq<bool>): (t': Table)
    requires Shape(t, cfg) && i <= TABLE && |memory| == TABLE
    ensures Shape(t', cfg) && t'.ban == t.ban && t'.cmTimer == t.cmTimer && t'.log == t.log
    decreases TABLE - i
  {
    if i == TABLE then t
    else
      var e := t.content[i];
      DeauthFrom(if e.client && memory[i] then Delete(t, cfg, e.aid, e.addr) else t, cfg, i + 1, memory)
  }

  /** The whole table deauthenticated, and the ban with its timer begun. */
  function Expel(t: Table, cfg: seq<Cell>, memory: seq<bool>): (t': Table)
    requires Shape(t, cfg) && |memory| == TABLE
    ensures Shape(t', cfg) && t'.ban && t'.cmTimer && t'.log == t.log
  {
    DeauthFrom(t, cfg, 0, memory).(ban := true, cmTimer := true)
  }

  /** HandleCounterMeasure for the entry i. */
  function MicFailure(t: Table, cfg: seq<Cell>, i: nat, memory: seq<bool>): (t': Table)
    requires Shape(t, cfg) && i < TABLE && |memory| == TABLE
    ensures Shape(t', cfg) && t'.log == t.log
  {
    var e := t.content[i];
    if e.wpa < AS_PTKINITDONE || !e.gtkDone then t
    else
      var t1 := Put(t, cfg, i, e.(cm := true));
      if t1.cmTimer then Expel(t1, cfg, memory) else t1.(cmTimer := true)
  }

  function Quiet(content: seq<Entry>): (r: seq<Entry>)
    ensures |r| == |content|
    ensures forall i | 0 <= i < |r| :: r[i] == if content[i].client then content[i].(cm := false) else content[i]
  {
    if content == [] then []
    else [if content[0].client then content[0].(cm := false) else content[0]] + Quiet(content[1..])
  }

  /** CMTimerExec. */
  function Timeout(t: Table, cfg: seq<Cell>): (t': Table)
    requires Shape(t, cfg)
    ensures Shape(t', cfg)
  {
    t.(ban := false, content := Quiet(t.content), cmTimer := false)
  }

  // ---- Stop and start: ap/ap.c, mgmt/mgmt_entrytb.c -----------------------------------------------

  /** The loop of MacTableReset: a failed allocation for an associated station ends it. */
  function ResetFrom(t: Table, cfg: seq<Cell>, i: nat, memory: seq<bool>): (t': Table)
    requires Shape(t, cfg) && i <= TABLE && |memory| == TABLE
    ensures Shape(t', cfg) && t'.ban == t.ban && t'.cmTimer == t.cmTimer && t'.log == t.log
    decreases TABLE - i
  {
    if i == TABLE then t
    else
      var e := t.content[i];
      if e.client && e.sst == Assoc && !memory[i] then t
      else ResetFrom(Delete(t, cfg, i, e.addr), cfg, i + 1, memory)
  }

  /** APStop: the table is reset and the timer cancelled; the ban stays. */
  function Stop(t: Table, cfg: seq<Cell>, memory: seq<bool>): (t': Table)
    requires Shape(t, cfg) && |memory| == TABLE
    ensures Shape(t', cfg) && t'.ban == t.ban && !t'.cmTimer && t'.log == t.log
  {
    ResetFrom(t, cfg, 1, memory).(cmTimer := false)
  }

  /** APStartUp, with AsicSetMcastWC. */
  function StartUp(t: Table, cfg: seq<Cell>): (t': Table)
    requires Shape(t, cfg)
    ensures Shape(t', cfg) && t'.ban == t.ban && t'.cmTimer == t.cmTimer && t'.log == t.log + [Started]
  {
    Note(Put(t, cfg, 0, GroupEntry(t.content[0])), cfg, Started)
  }

  // ---- Access control: ap/ap.c -----------------------------------------------------------------------

  /** Does ApUpdateAccessControlList remove this entry? Policies other than 1 and 2 remove nobody. */
  predicate Unwanted(e: Entry, b: nat, acl: Acl) {
    && e.client && e.bss == b
    && if e.addr in acl.list then acl.policy == 2 else acl.policy == 1
  }

  /** The loop of ApUpdateAccessControlList: a failed allocation for an associated station ends it. */
  function PurgeFrom(t: Table, cfg: seq<Cell>, b: nat, i: nat, memory: seq<bool>): (t': Table)
    requires Shape(t, cfg) && b < |cfg| && i <= TABLE && |memory| == TABLE
    ensures Shape(t', cfg) && t'.ban == t.ban && t'.cmTimer == t.cmTimer && t'.log == t.log
    decreases TABLE - i
  {
    if i == TABLE then t
    else
      var e := t.content[i];
      if !Unwanted(e, b, t.acl[b]) then PurgeFrom(t, cfg, b, i + 1, memory)
      else if e.sst == Assoc && !memory[i] then t
      else PurgeFrom(Delete(t, cfg, e.aid, e.addr), cfg, b, i + 1, memory)
  }

  /** A change of one BSS's list, followed at once by ApUpdateAccessControlList. */
  function AclChange(t: Table, cfg: seq<Cell>, b: nat, acl: Acl, memory: seq<bool>): (t': Table)
    requires Shape(t, cfg) && b < |cfg| && |memory| == TABLE
    ensures Shape(t', cfg) && t'.ban == t.ban && t'.cmTimer == t.cmTimer && t'.log == t.log
  {
    var t1 := t.(acl := t.acl[b := acl]);
    if acl.policy == 0 then t1 else PurgeFrom(t1, cfg, b, 0, memory)
  }

  // ---- Keys and the port: common/cmm_wpa.c, ap/ap_wpa.c ----------------------------------------------

  /** PeerPairMsg4Action on a message that passes its checks. */
  function Msg4(t: Table, cfg: seq<Cell>, i: nat): (t': Table)
    requires Shape(t, cfg) && i < TABLE
    ensures Shape(t', cfg) && t'.ban == t.ban && t'.cmTimer == t.cmTimer
  {
    var e := t.content[i];
    if !e.client || e.sst != Assoc || e.wpa < AS_PTKINIT_NEGOTIATING then t
    else
      Note(Put(t, cfg, i, e.(filterOpen := true, wpa := AS_PTKINITDONE, secured := true,
                             gtkDone := e.gtkDone || e.authMode == WPA2 || e.authMode == WPA2PSK)),
           cfg, Released(i))
  }

  /** The 802.1X daemon reports success; `keyType` marks a packet of type EAPOL-Key. */
  function EapSuccess(t: Table, cfg: seq<Cell>, addr: Mac, keyType: bool): (t': Table)
    requires Shape(t, cfg)
    ensures Shape(t', cfg) && t'.ban == t.ban && t'.cmTimer == t.cmTimer
  {
    var found := Lookup(t, addr);
    if found.None? then t
    else
      var i, e := found.value, t.content[found.value];
      if e.authMode >= WPA && !keyType then if e.sst == Assoc then Put(t, cfg, i, e.(wpa := AS_INITPMK)) else t
      else Note(Put(t, cfg, i, e.(filterOpen := true, wpa := AS_PTKINITDONE, secured := true)), cfg, Released(i))
  }

  /** A station asks for a new pairwise key: its port closes. */
  function NewPairwise(t: Table, cfg: seq<Cell>, i: nat): (t': Table)
    requires Shape(t, cfg) && i < TABLE
    ensures Shape(t', cfg) && t'.ban == t.ban && t'.cmTimer == t.cmTimer && t'.log == t.log
  {
    var e := t.content[i];
    if !e.client || e.sst != Assoc || e.wpa < AS_INITPSK then t
    else
      Put(t, cfg, i, e.(gtkDone := false, filterOpen := false, secured := false,
                        wpa := if e.authMode == WPA || e.authMode == WPA2 then AS_INITPMK
                               else if e.authMode == WPAPSK || e.authMode == WPA2PSK then AS_INITPSK else e.wpa))
  }

  /** WpaEAPOLStartAction: the port of a station that is not secured closes, and its key handshake begins.
      `cached` says whether a cached key is known for the station, `sent` whether the first message goes out. */
  function EapolStart(t: Table, cfg: seq<Cell>, addr: Mac, cached: bool, sent: bool): (t': Table)
    requires Shape(t, cfg)
    ensures Shape(t', cfg) && t'.ban == t.ban && t'.cmTimer == t.cmTimer && t'.log == t.log
  {
    var found := Lookup(t, addr);
    if found.None? then t
    else
      var e := t.content[found.value];
      if !e.secured && e.wpa < AS_PTKSTART
         && (e.authMode == WPAPSK || e.authMode == WPA2PSK || (e.authMode == WPA2 && cached))
      then Put(t, cfg, found.value, e.(filterOpen := false, wpa := if sent then AS_PTKSTART else AS_INITPSK))
      else t
  }

  /** Any other message or timeout of the key handshakes: it moves the two handshake states only. */
  function Handshake(t: Table, cfg: seq<Cell>, i: nat, wpa: nat, gtkDone: bool): (t': Table)
    requires Shape(t, cfg) && i < TABLE
    ensures Shape(t', cfg) && t'.ban == t.ban && t'.cmTimer == t.cmTimer && t'.log == t.log
  {
    Put(t, cfg, i, t.content[i].(wpa := wpa, gtkDone := gtkDone))
  }

  // ---- Received frames: ap/ap_data.c -------------------------------------------------------------------

  datatype Mgmt =
    | AuthFrame1(addr1: Mac, addr2: Mac, alg: nat, up: bool, text: seq<byte>)
    | AuthFrame3(addr1: Mac, addr2: Mac, wcid: nat, wep: bool, up: bool, text: seq<byte>)
    | AssocFrame(reassoc: bool, addr2: Mac, request: Request)
    | DisassocFrame(addr2: Mac, wcid: nat)
    | DeauthFrame(addr2: Mac, wcid: nat)

  /** APHandleRxMgmtFrame and the handler behind it. During a ban authentication and association requests are
      dropped; reassociation requests are not. */
  function Receive(t: Table, cfg: seq<Cell>, f: Mgmt): (t': Table)
    requires Shape(t, cfg)
    ensures Shape(t', cfg) && t'.ban == t.ban && t'.cmTimer == t.cmTimer
  {
    match f
    case AuthFrame1(addr1, addr2, alg, up, text) => if t.ban then t else AuthReq(t, cfg, addr1, addr2, alg, up, text)
    case AuthFrame3(addr1, addr2, wcid, wep, up, text) =>
      if t.ban then t else AuthConfirm(t, cfg, addr1, addr2, wcid, wep, up, text)
    case AssocFrame(reassoc, addr2, request) => if t.ban && !reassoc then t else AssocReq(t, cfg, addr2, request).0
    case DisassocFrame(addr2, wcid) => if Lookup(t, addr2).None? then t else Delete(t, cfg, wcid, addr2)
    case DeauthFrame(addr2, wcid) => Delete(t, cfg, wcid, addr2)
  }

  /** A received data frame: `wcid` is the index the hardware reports, `noData` a frame without data, `late` the
      station's being connected for more than five seconds, `memory` the outcome of an allocation. */
  datatype Data = Data(toDs: bool, frDs: bool, addr2: Mac, wcid: nat, noData: bool, eapol: bool, wep: bool,
                       late: bool, memory: bool)

  /** APCls2errAction and APCls3errAction, as far as they change the table. */
  function ClassError(t: Table, cfg: seq<Cell>, wcid: nat, addr2: Mac): (t': Table)
    requires Shape(t, cfg) && wcid < TABLE
    ensures Shape(t', cfg) && t'.ban == t.ban && t'.cmTimer == t.cmTimer && t'.log == t.log
  {
    var e := t.content[wcid];
    if e.sst == Auth || e.client then Delete(t, cfg, e.aid, addr2) else t
  }

  /** APCheckClass2Class3Error: the table after it, and whether the frame is in error. */
  function ClassCheck(t: Table, cfg: seq<Cell>, wcid: nat, addr2: Mac): (r: (Table, bool))
    requires Shape(t, cfg)
    ensures Shape(r.0, cfg) && r.0.ban == t.ban && r.0.cmTimer == t.cmTimer && r.0.log == t.log
  {
    if wcid >= TABLE then (t, Lookup(t, addr2).None?)
    else if t.content[wcid].sst == Assoc then (t, false)
    else (ClassError(t, cfg, wcid, addr2), true)
  }

  /** The index the frame is filed under: one out of range is replaced for an associated client. */
  function Refiled(t: Table, wcid: nat, addr2: Mac): nat {
    var found := Lookup(t, addr2);
    if wcid >= TABLE && found.Some? && t.content[found.value].sst == Assoc then t.content[found.value].aid else wcid
  }

  /** APCheckVaildDataFrame: the entry index of a frame that passes. */
  function ValidData(t: Table, cfg: seq<Cell>, f: Data): (r: (Table, Option<nat>))
    requires Shape(t, cfg)
    ensures Shape(r.0, cfg) && r.0.ban == t.ban && r.0.cmTimer == t.cmTimer && r.0.log == t.log
  {
    if !f.toDs then (t, None)
    else
      var (t1, error) := if f.frDs then (t, false) else ClassCheck(t, cfg, f.wcid, f.addr2);
      if error || t1.ban then (t1, None) else (t1, Some(Refiled(t1, f.wcid, f.addr2)))
  }

  /** APRxDataFrameAnnounce for entry i: does the frame go up? */
  function Announce(t: Table, cfg: seq<Cell>, i: nat, f: Data): (r: (Table, bool))
    requires Shape(t, cfg) && i < TABLE
    ensures Shape(r.0, cfg) && r.0.ban == t.ban && r.0.cmTimer == t.cmTimer && r.0.log == t.log
  {
    var e := t.content[i];
    if f.eapol then (if e.wpa == AS_AUTHENTICATION then Put(t, cfg, i, e.(wpa := AS_AUTHENTICATION2)) else t, true)
    else if e.filterOpen then (t, true)
    else if e.client && f.wep && f.late && e.wpa < AS_AUTHENTICATION2 && f.memory
    then (Delete(t, cfg, e.aid, e.addr), false)
    else (t, false)
  }

  /** APHandleRxDataFrame: the table, and the entry the frame is delivered for. Frames between access points
      find no peer in this configuration. */
  function ReceiveData(t: Table, cfg: seq<Cell>, f: Data): (r: (Table, Option<nat>))
    requires Shape(t, cfg)
    ensures Shape(r.0, cfg) && r.0.ban == t.ban && r.0.cmTimer == t.cmTimer && r.0.log == t.log
  {
    var (t1, at) := ValidData(t, cfg, f);
    if at.None? || f.frDs || at.value >= TABLE || f.noData then (t1, None)
    else
      var (t2, up) := Announce(t1, cfg, at.value, f);
      (t2, if up then at else None)
  }

  // ---- Steps ---------------------------------------------------------------------------------------------

  datatype Event =
    | EMgmt(f: Mgmt)
    | EData(d: Data)
    | EMic(i: nat, memory: seq<bool>)
    | ETimer
    | EAcl(b: nat, acl: Acl, memory: seq<bool>)
    | EDelete(i: nat, addr: Mac)
    | EMsg4(i: nat)
    | EEapSuccess(addr: Mac, keyType: bool)
    | ENewPairwise(i: nat)
    | EEapolStart(addr: Mac, cached: bool, sent: bool)
    | EHandshake(i: nat, wpa: nat, gtkDone: bool)
    | EStop(memory: seq<bool>)
    | EStartUp

  /** The countermeasure timer fires only while it runs; indices are those of table entries. `EDelete` covers
      ageing, the upper layer's requests and kicking out, all of which delete by index and address. */
  ghost predicate Enabled(t: Table, cfg: seq<Cell>, e: Event) {
    match e
    case EMic(i, memory) => i < TABLE && |memory| == TABLE
    case ETimer => t.cmTimer
    case EAcl(b, acl, memory) => b < |cfg| && |memory| == TABLE
    case EMsg4(i) => i < TABLE
    case ENewPairwise(i) => i < TABLE
    case EHandshake(i, wpa, gtkDone) => i < TABLE
    case EStop(memory) => |memory| == TABLE
    case _ => true
  }

  function Step(t: Table, cfg: seq<Cell>, e: Event): (t': Table)
    requires Shape(t, cfg) && Enabled(t, cfg, e)
    ensures Shape(t', cfg)
  {
    match e
    case EMgmt(f) => Receive(t, cfg, f)
    case EData(d) => ReceiveData(t, cfg, d).0
    case EMic(i, memory) => MicFailure(t, cfg, i, memory)
    case ETimer => Timeout(t, cfg)
    case EAcl(b, acl, memory) => AclChange(t, cfg, b, acl, memory)
    case EDelete(i, addr) => Delete(t, cfg, i, addr)
    case EMsg4(i) => Msg4(t, cfg, i)
    case EEapSuccess(addr, keyType) => EapSuccess(t, cfg, addr, keyType)
    case ENewPairwise(i) => NewPairwise(t, cfg, i)
    case EEapolStart(addr, cached, sent) => EapolStart(t, cfg, addr, cached, sent)
    case EHandshake(i, wpa, gtkDone) => Handshake(t, cfg, i, wpa, gtkDone)
    case EStop(memory) => Stop(t, cfg, memory)
    case EStartUp => StartUp(t, cfg)
  }
}
