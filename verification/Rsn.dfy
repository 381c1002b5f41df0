/** Negotiation of the WPA and RSN elements of an association request (RTMPCheckMcast, RTMPCheckUcast,
    RTMPCheckAKM, RTMPCheckAUTH and APValidateRSNIE of ap/ap_wpa.c). */
module Rsn {
  import opened Octets
  import opened Wrappers

  /** The octets behind a pointer, as far as anyone reads; the loops read as far as the counts there say. */
  type Memory = seq<byte>

  function At(m: Memory, i: nat): byte {
    if i < |m| then m[i] else 0
  }

  const IE_WPA: byte := 221
  const IE_WPA2: byte := 48

  /** NDIS_802_11_AUTHENTICATION_MODE, in its own order. */
  type AuthMode = m: nat | m <= 9
  const OPEN: AuthMode := 0
  const SHARED: AuthMode := 1
  const AUTO_SWITCH: AuthMode := 2
  const WPA: AuthMode := 3
  const WPAPSK: AuthMode := 4
  const WPA_NONE: AuthMode := 5
  const WPA2: AuthMode := 6
  const WPA2PSK: AuthMode := 7
  const WPA1WPA2: AuthMode := 8
  const WPA1PSKWPA2PSK: AuthMode := 9

  /** NDIS_802_11_WEP_STATUS: TKIP, AES, and the mix of both. */
  const ENCRYPTION2: nat := 4
  const ENCRYPTION3: nat := 6
  const ENCRYPTION4: nat := 8

  const MLME_SUCCESS: nat := 0
  const MLME_UNSPECIFY_FAIL: nat := 1
  const MLME_INVALID_GROUP_CIPHER: nat := 41
  const MLME_INVALID_PAIRWISE_CIPHER: nat := 42
  const MLME_INVALID_AKMP: nat := 43

  /** WpaMixPairCipher. */
  datatype Mix = Mix(wpaTkip: bool, wpaAes: bool, wpa2Tkip: bool, wpa2Aes: bool)

  /** What the AP stores for one BSS: RSN_IE[0] and RSN_IE[1] without their heads. */
  datatype Bss = Bss(authMode: AuthMode, wepStatus: nat, mix: Mix, ie0: Memory, ie1: Memory)

  /** The element of the request, and the length the walk over the request recorded for it. */
  datatype Element = Element(eid: byte, len: byte, octets: Memory, recorded: nat)

  /** Status code, and the mode and cipher left in the station's entry. */
  datatype Verdict = Verdict(status: nat, authMode: AuthMode, wepStatus: nat)

  // ---- Layout ------------------------------------------------------------------------------

  /** A cipher or key-management suite: OUI and type. */
  type Suite = s: seq<byte> | |s| == 4 witness [0, 0, 0, 0]

  function Word(m: Memory, at: nat): Suite {
    [At(m, at), At(m, at + 1), At(m, at + 2), At(m, at + 3)]
  }

  function Le16(m: Memory, at: nat): nat {
    At(m, at) as nat + 256 * At(m, at + 1) as nat
  }

  predicate Mixed(authMode: AuthMode) {
    authMode == WPA1WPA2 || authMode == WPA1PSKWPA2PSK
  }

  function Stored(bss: Bss, eid: byte): Memory {
    if eid == IE_WPA2 && Mixed(bss.authMode) then bss.ie1 else bss.ie0
  }

  /** Offset of the pairwise count: behind OUI, version and group suite, or behind version and group suite. */
  function PairAt(eid: byte): nat {
    if eid == IE_WPA then 10 else 6
  }

  function AkmAt(m: Memory, eid: byte): nat {
    PairAt(eid) + 2 + 4 * Le16(m, PairAt(eid))
  }

  predicate TkipOn(bss: Bss, eid: byte) {
    if eid == IE_WPA then bss.mix.wpaTkip else bss.mix.wpa2Tkip
  }

  predicate AesOn(bss: Bss, eid: byte) {
    if eid == IE_WPA then bss.mix.wpaAes else bss.mix.wpa2Aes
  }

  // ---- What each check decides ----------------------------------------------------------------

  /** The mode a station of a mixed BSS settles on. */
  function Settled(mode: AuthMode, eid: byte): AuthMode {
    if eid == IE_WPA then if mode == WPA1WPA2 then WPA else if mode == WPA1PSKWPA2PSK then WPAPSK else mode
    else if eid == IE_WPA2 then if mode == WPA1WPA2 then WPA2 else if mode == WPA1PSKWPA2PSK then WPA2PSK else mode
    else mode
  }

  predicate GroupMatches(bss: Bss, e: Element) {
    && e.len >= 6 && (e.eid == IE_WPA || e.eid == IE_WPA2)
    && Word(e.octets, PairAt(e.eid) - 4) == Word(Stored(bss, e.eid), PairAt(e.eid) - 4)
  }

  /** The cipher recorded when the station offers this suite, if the AP accepts it. */
  function Accepted(bss: Bss, eid: byte, suite: Suite): Option<nat> {
    var first := Word(Stored(bss, eid), PairAt(eid) + 2);
    var second := Word(Stored(bss, eid), PairAt(eid) + 6);
    if bss.wepStatus != ENCRYPTION4 then if suite == first then Some(bss.wepStatus) else None
    else if !TkipOn(bss, eid) then if suite == first then Some(ENCRYPTION3) else None
    else if suite == first then Some(ENCRYPTION2)
    else if AesOn(bss, eid) && suite == second then Some(ENCRYPTION3)
    else None
  }

  /** The `count` suites from `at`. */
  function Suites(m: Memory, at: nat, count: nat): (r: seq<Suite>)
    ensures |r| == count
    decreases count
  {
    if count == 0 then [] else [Word(m, at)] + Suites(m, at + 4, count - 1)
  }

  function PairSuites(m: Memory, eid: byte): seq<Suite> {
    Suites(m, PairAt(eid) + 2, Le16(m, PairAt(eid)))
  }

  function AkmSuites(m: Memory, eid: byte): seq<Suite> {
    Suites(m, AkmAt(m, eid) + 2, Le16(m, AkmAt(m, eid)))
  }

  /** What the first accepted suite of a list records. */
  function FirstAccepted(bss: Bss, eid: byte, suites: seq<Suite>): Option<nat> {
    if suites == [] then None
    else
      var r := Accepted(bss, eid, suites[0]);
      if r.Some? then r else FirstAccepted(bss, eid, suites[1..])
  }

  function Pairwise(bss: Bss, e: Element): Option<nat> {
    if e.len < 16 || !(e.eid == IE_WPA || e.eid == IE_WPA2) then None
    else FirstAccepted(bss, e.eid, PairSuites(e.octets, e.eid))
  }

  predicate AnyOf(suites: seq<Suite>, own: seq<Suite>) {
    exists k | 0 <= k < |suites| :: suites[k] in own
  }

  predicate AkmMatches(bss: Bss, e: Element) {
    && e.len >= 16 && (e.eid == IE_WPA || e.eid == IE_WPA2)
    && AnyOf(AkmSuites(e.octets, e.eid), AkmSuites(Stored(bss, e.eid), e.eid))
  }

  /** APValidateRSNIE. The entry keeps what the failing check already wrote. */
  function Validate(bss: Bss, e: Element, authMode: AuthMode, wepStatus: nat): Verdict {
    if e.recorded == 0 then Verdict(MLME_SUCCESS, authMode, wepStatus)
    else if e.len as nat + 2 != e.recorded then Verdict(MLME_UNSPECIFY_FAIL, authMode, wepStatus)
    else
      var mode := if e.len < 6 then bss.authMode else Settled(bss.authMode, e.eid);
      if !GroupMatches(bss, e) then Verdict(MLME_INVALID_GROUP_CIPHER, mode, wepStatus)
      else
        var c := Pairwise(bss, e);
        if c.None? then Verdict(MLME_INVALID_PAIRWISE_CIPHER, mode, bss.wepStatus)
        else Verdict(if AkmMatches(bss, e) then MLME_SUCCESS else MLME_INVALID_AKMP, mode, c.value)
  }

  // ---- The checks, with the source's loops ------------------------------------------------------

  /** RTMPCheckMcast. */
  method CheckMcast(bss: Bss, e: Element) returns (ok: bool, authMode: AuthMode)
    ensures ok == GroupMatches(bss, e)
    ensures authMode == if e.len < 6 then bss.authMode else Settled(bss.authMode, e.eid)
  {
    authMode := bss.authMode;
    if e.len >= 6 {
      if e.eid == IE_WPA {
        if bss.authMode == WPA1WPA2 {
          authMode := WPA;
        } else if bss.authMode == WPA1PSKWPA2PSK {
          authMode := WPAPSK;
        }
        return Word(e.octets, 6) == Word(bss.ie0, 6), authMode;
      } else if e.eid == IE_WPA2 {
        if bss.authMode == WPA1WPA2 {
          authMode := WPA2;
        } else if bss.authMode == WPA1PSKWPA2PSK {
          authMode := WPA2PSK;
        }
        return Word(e.octets, 2) == Word(if Mixed(bss.authMode) then bss.ie1 else bss.ie0, 2), authMode;
      }
    }
    return false, authMode;
  }

  /** RTMPCheckUcast. */
  method CheckUcast(bss: Bss, e: Element) returns (ok: bool, wepStatus: nat)
    ensures ok == Pairwise(bss, e).Some?
    ensures wepStatus == if ok then Pairwise(bss, e).value else bss.wepStatus
  {
    wepStatus := bss.wepStatus;
    if e.len < 16 || !(e.eid == IE_WPA || e.eid == IE_WPA2) {
      return false, wepStatus;
    }
    var count := Le16(e.octets, PairAt(e.eid));
    var at: nat := PairAt(e.eid) + 2;
    var ie, apAt: nat := Stored(bss, e.eid), PairAt(e.eid) + 2;
    while count > 0
      invariant FirstAccepted(bss, e.eid, Suites(e.octets, at, count)) == Pairwise(bss, e)
    {
      if bss.wepStatus == ENCRYPTION4 {
        if TkipOn(bss, e.eid) {
          if Word(e.octets, at) == Word(ie, apAt) {
            return true, ENCRYPTION2;
          }
          if AesOn(bss, e.eid) {
            if Word(e.octets, at) == Word(ie, apAt + 4) {
              return true, ENCRYPTION3;
            }
          }
        } else if Word(e.octets, at) == Word(ie, apAt) {
          return true, ENCRYPTION3;
        }
      } else if Word(e.octets, at) == Word(ie, apAt) {
        return true, wepStatus;
      }
      at, count := at + 4, count - 1;
    }
    return false, wepStatus;
  }

  /** Skips the pairwise suites: the offset of the AKM count. */
  method SkipPairwise(m: Memory, eid: byte) returns (at: nat)
    ensures at == AkmAt(m, eid)
  {
    var count := Le16(m, PairAt(eid));
    at := PairAt(eid) + 2;
    while count > 0
      invariant at + 4 * count == AkmAt(m, eid)
    {
      at, count := at + 4, count - 1;
    }
  }

  /** RTMPCheckAKM. */
  method CheckAkm(suite: Suite, bss: Bss, eid: byte) returns (ok: bool)
    ensures ok == (suite in AkmSuites(Stored(bss, eid), eid))
  {
    var ie := Stored(bss, eid);
    var at := SkipPairwise(ie, eid);
    var count := Le16(ie, at);
    at := at + 2;
    while count > 0
      invariant suite in Suites(ie, at, count) <==> suite in AkmSuites(ie, eid)
    {
      if suite == Word(ie, at) {
        return true;
      }
      at, count := at + 4, count - 1;
    }
    return false;
  }

  /** RTMPCheckAUTH. */
  method CheckAuth(bss: Bss, e: Element) returns (ok: bool)
    ensures ok == AkmMatches(bss, e)
  {
    if e.len < 16 || !(e.eid == IE_WPA || e.eid == IE_WPA2) {
      return false;
    }
    var at := SkipPairwise(e.octets, e.eid);
    var count := Le16(e.octets, at);
    at := at + 2;
    while count > 0
      invariant AnyOf(Suites(e.octets, at, count), AkmSuites(Stored(bss, e.eid), e.eid)) == AkmMatches(bss, e)
    {
      var found := CheckAkm(Word(e.octets, at), bss, e.eid);
      AnyOfNext(Suites(e.octets, at, count), AkmSuites(Stored(bss, e.eid), e.eid));
      if found {
        return true;
      }
      at, count := at + 4, count - 1;
    }
    return false;
  }

  /** APValidateRSNIE on an entry that holds the given mode and cipher. */
  method ValidateRsnIe(bss: Bss, e: Element, authMode: AuthMode, wepStatus: nat) returns (v: Verdict)
    ensures v == Validate(bss, e, authMode, wepStatus)
  {
    if e.recorded == 0 {
      return Verdict(MLME_SUCCESS, authMode, wepStatus);
    }
    if e.len as nat + 2 != e.recorded {
      return Verdict(MLME_UNSPECIFY_FAIL, authMode, wepStatus);
    }
    var group, mode := CheckMcast(bss, e);
    if !group {
      return Verdict(MLME_INVALID_GROUP_CIPHER, mode, wepStatus);
    }
    var pairwise, cipher := CheckUcast(bss, e);
    if !pairwise {
      return Verdict(MLME_INVALID_PAIRWISE_CIPHER, mode, cipher);
    }
    var auth := CheckAuth(bss, e);
    return Verdict(if auth then MLME_SUCCESS else MLME_INVALID_AKMP, mode, cipher);
  }

  lemma AnyOfNext(suites: seq<Suite>, own: seq<Suite>)
    requires suites != []
    ensures AnyOf(suites, own) <==> suites[0] in own || AnyOf(suites[1..], own)
  {
    if k :| 0 <= k < |suites| && suites[k] in own {
      assert k > 0 ==> suites[1..][k - 1] in own;
    }
    if k :| 0 <= k < |suites| - 1 && suites[1..][k] in own {
      assert suites[k + 1] in own;
    }
  }

  /** The walk finds the first accepted suite of the list, or there is none. */
  lemma {:induction false} FirstOfAccepted(bss: Bss, eid: byte, suites: seq<Suite>)
    ensures var r := FirstAccepted(bss, eid, suites);
            if r.None? then forall k | 0 <= k < |suites| :: Accepted(bss, eid, suites[k]).None?
            else exists k | 0 <= k < |suites| :: Accepted(bss, eid, suites[k]) == r
                   && forall j | 0 <= j < k :: Accepted(bss, eid, suites[j]).None?
  {
    if suites != [] && Accepted(bss, eid, suites[0]).None? {
      FirstOfAccepted(bss, eid, suites[1..]);
      var r := FirstAccepted(bss, eid, suites[1..]);
      if r.Some? {
        var k :| 0 <= k < |suites| - 1 && Accepted(bss, eid, suites[1..][k]) == r
                 && forall j | 0 <= j < k :: Accepted(bss, eid, suites[1..][j]).None?;
        assert suites[k + 1] == suites[1..][k];
        forall j | 0 <= j < k + 1 ensures Accepted(bss, eid, suites[j]).None? {
          assert j > 0 ==> suites[j] == suites[1..][j - 1];
        }
      } else {
        forall k | 0 <= k < |suites| ensures Accepted(bss, eid, suites[k]).None? {
          assert k > 0 ==> suites[k] == suites[1..][k - 1];
        }
      }
    }
  }

  // ---- Elements by section 7.3.2.25 of IEEE Std 802.11-2007 ------------------------------------------

  /** The suites one side names in an element. */
  datatype Offer = Offer(group: Suite, pairwise: seq<Suite>, akms: seq<Suite>)

  const WPA_HEAD: seq<byte> := [0x00, 0x50, 0xF2, 0x01, 1, 0]
  const RSN_HEAD: seq<byte> := [1, 0]

  function Flat(suites: seq<Suite>): (r: seq<byte>)
    ensures |r| == 4 * |suites|
  {
    if suites == [] then [] else suites[0] + Flat(suites[1..])
  }

  function Count(n: nat): (r: seq<byte>)
    requires n < 0x10000
    ensures |r| == 2
  {
    [(n % 256) as byte, (n / 256) as byte]
  }

  /** A list with its count before it. */
  function Counted(suites: seq<Suite>): (r: seq<byte>)
    requires |suites| < 0x10000
    ensures |r| == 2 + 4 * |suites|
  {
    Count(|suites|) + Flat(suites)
  }

  /** The body of an element with these suites. */
  function Encode(eid: byte, o: Offer): seq<byte>
    requires |o.pairwise| < 0x10000 && |o.akms| < 0x10000
  {
    (if eid == IE_WPA then WPA_HEAD else RSN_HEAD) + (o.group + (Counted(o.pairwise) + Counted(o.akms)))
  }

  ghost predicate Holds(m: Memory, at: nat, octets: seq<byte>) {
    at + |octets| <= |m| && m[at..at + |octets|] == octets
  }

  lemma HoldsParts(m: Memory, at: nat, a: seq<byte>, b: seq<byte>)
    requires Holds(m, at, a + b)
    ensures Holds(m, at, a) && Holds(m, at + |a|, b)
  {
    assert a == (a + b)[..|a|] && b == (a + b)[|a|..];
  }

  lemma HoldsWord(m: Memory, at: nat, s: Suite)
    requires Holds(m, at, s)
    ensures Word(m, at) == s
  {
    var w := m[at..at + 4];
    assert w[0] == m[at] && w[1] == m[at + 1] && w[2] == m[at + 2] && w[3] == m[at + 3];
  }

  lemma {:induction false} SuitesHeld(m: Memory, at: nat, suites: seq<Suite>)
    requires Holds(m, at, Flat(suites))
    ensures Suites(m, at, |suites|) == suites
    decreases |suites|
  {
    if suites != [] {
      HoldsParts(m, at, suites[0], Flat(suites[1..]));
      HoldsWord(m, at, suites[0]);
      SuitesHeld(m, at + 4, suites[1..]);
    }
  }

  lemma ListHeld(m: Memory, at: nat, suites: seq<Suite>)
    requires |suites| < 0x10000 && Holds(m, at, Counted(suites))
    ensures Le16(m, at) == |suites| && Suites(m, at + 2, |suites|) == suites
  {
    HoldsParts(m, at, Count(|suites|), Flat(suites));
    assert m[at] == m[at..at + 2][0] && m[at + 1] == m[at..at + 2][1];
    SuitesHeld(m, at + 2, suites);
  }

  lemma TwoLists(m: Memory, eid: byte, pairwise: seq<Suite>, akms: seq<Suite>)
    requires |pairwise| < 0x10000 && |akms| < 0x10000
    requires Holds(m, PairAt(eid), Counted(pairwise) + Counted(akms))
    ensures PairSuites(m, eid) == pairwise && AkmSuites(m, eid) == akms
  {
    HoldsParts(m, PairAt(eid), Counted(pairwise), Counted(akms));
    ListHeld(m, PairAt(eid), pairwise);
    ListHeld(m, PairAt(eid) + 2 + 4 * |pairwise|, akms);
  }

  /** Reading at the checks' offsets gives back the suites that were written. */
  lemma Decoded(m: Memory, eid: byte, o: Offer)
    requires |o.pairwise| < 0x10000 && |o.akms| < 0x10000 && Holds(m, 0, Encode(eid, o))
    ensures Word(m, PairAt(eid) - 4) == o.group
    ensures PairSuites(m, eid) == o.pairwise && AkmSuites(m, eid) == o.akms
  {
    var head := if eid == IE_WPA then WPA_HEAD else RSN_HEAD;
    var lists := Counted(o.pairwise) + Counted(o.akms);
    HoldsParts(m, 0, head, o.group + lists);
    HoldsParts(m, PairAt(eid) - 4, o.group, lists);
    HoldsWord(m, PairAt(eid) - 4, o.group);
    TwoLists(m, eid, o.pairwise, o.akms);
  }

  // ---- Negotiation is exact -----------------------------------------------------------------------

  /** The TKIP and AES suites of each kind of element. */
  function Tkip(eid: byte): Suite {
    if eid == IE_WPA then [0x00, 0x50, 0xF2, 2] else [0x00, 0x0F, 0xAC, 2]
  }

  function Aes(eid: byte): Suite {
    if eid == IE_WPA then [0x00, 0x50, 0xF2, 4] else [0x00, 0x0F, 0xAC, 4]
  }

  /** The ciphers the mix setting allows in each kind of element: TKIP, AES. */
  function Mixing(mix: Mix, eid: byte): (bool, bool) {
    if eid == IE_WPA2 then (mix.wpa2Tkip, mix.wpa2Aes) else (mix.wpaTkip, mix.wpaAes)
  }

  /** The BSS's own element for this kind of station: its suites as its mix setting orders them. A mixed BSS keeps
      its RSN element behind its WPA element, any other BSS its only element in front. */
  ghost predicate Announces(bss: Bss, eid: byte, own: Offer) {
    && (eid == IE_WPA || eid == IE_WPA2)
    && |own.pairwise| < 0x10000 && |own.akms| < 0x10000
    && Holds(if bss.authMode in {WPA1WPA2, WPA1PSKWPA2PSK} && eid == 48 then bss.ie1 else bss.ie0, 0, Encode(eid, own))
    && if bss.wepStatus == ENCRYPTION4
       then var (tkip, aes) := Mixing(bss.mix, eid);
            (tkip || aes) && own.pairwise == (if tkip then [Tkip(eid)] else []) + (if aes then [Aes(eid)] else [])
       else |own.pairwise| == 1
  }

  /** What the mix setting allows: the cipher to record for a suite. */
  function Allowed(bss: Bss, eid: byte, own: Offer, suite: Suite): Option<nat>
    requires own.pairwise != []
  {
    var (tkip, aes) := Mixing(bss.mix, eid);
    if bss.wepStatus != ENCRYPTION4 then if suite == own.pairwise[0] then Some(bss.wepStatus) else None
    else if tkip && suite == Tkip(eid) then Some(ENCRYPTION2)
    else if aes && suite == Aes(eid) then Some(ENCRYPTION3)
    else None
  }

  lemma SecondSuite(m: Memory, at: nat, count: nat)
    ensures count > 0 ==> Suites(m, at, count)[0] == Word(m, at)
    ensures count > 1 ==> Suites(m, at, count)[1] == Word(m, at + 4)
  {
  }

  lemma AcceptedIsAllowed(bss: Bss, eid: byte, own: Offer, suite: Suite)
    requires Announces(bss, eid, own)
    ensures own.pairwise != [] && Accepted(bss, eid, suite) == Allowed(bss, eid, own, suite)
  {
    var ie := Stored(bss, eid);
    Decoded(ie, eid, own);
    SecondSuite(ie, PairAt(eid) + 2, Le16(ie, PairAt(eid)));
  }

  /** A well-formed element of a request. */
  ghost predicate Offers(e: Element, o: Offer) {
    && |o.pairwise| < 0x10000 && |o.akms| < 0x10000
    && Holds(e.octets, 0, Encode(e.eid, o))
    && e.len as nat >= |Encode(e.eid, o)| && e.recorded == e.len as nat + 2
  }

  /** The index of the first suite in the station's order that the AP allows. */
  ghost predicate FirstAllowed(bss: Bss, eid: byte, own: Offer, o: Offer, k: nat)
    requires own.pairwise != []
  {
    && k < |o.pairwise| && Allowed(bss, eid, own, o.pairwise[k]).Some?
    && forall j | 0 <= j < k :: Allowed(bss, eid, own, o.pairwise[j]).None?
  }

  lemma {:induction false} WalkStopsAt(bss: Bss, eid: byte, suites: seq<Suite>, k: nat)
    requires k < |suites| && Accepted(bss, eid, suites[k]).Some?
    requires forall j | 0 <= j < k :: Accepted(bss, eid, suites[j]).None?
    ensures FirstAccepted(bss, eid, suites) == Accepted(bss, eid, suites[k])
  {
    if k > 0 {
      assert suites[1..][k - 1] == suites[k];
      WalkStopsAt(bss, eid, suites[1..], k - 1);
    }
  }

  lemma PairwiseOffered(bss: Bss, own: Offer, e: Element, o: Offer)
    requires Announces(bss, e.eid, own) && Offers(e, o) && e.len >= 16
    ensures own.pairwise != []
    ensures Pairwise(bss, e).Some? <==> exists k: nat :: FirstAllowed(bss, e.eid, own, o, k)
    ensures forall k: nat | FirstAllowed(bss, e.eid, own, o, k) :: Pairwise(bss, e) == Allowed(bss, e.eid, own, o.pairwise[k])
  {
    AcceptedIsAllowed(bss, e.eid, own, own.group);
    Decoded(e.octets, e.eid, o);
    forall k | 0 <= k < |o.pairwise|
      ensures Accepted(bss, e.eid, o.pairwise[k]) == Allowed(bss, e.eid, own, o.pairwise[k])
    {
      AcceptedIsAllowed(bss, e.eid, own, o.pairwise[k]);
    }
    forall k: nat | FirstAllowed(bss, e.eid, own, o, k)
      ensures Pairwise(bss, e) == Allowed(bss, e.eid, own, o.pairwise[k])
    {
      WalkStopsAt(bss, e.eid, o.pairwise, k);
    }
    FirstOfAccepted(bss, e.eid, o.pairwise);
    if Pairwise(bss, e).Some? {
      var k: nat :| k < |o.pairwise| && Accepted(bss, e.eid, o.pairwise[k]) == Pairwise(bss, e)
                    && forall j | 0 <= j < k :: Accepted(bss, e.eid, o.pairwise[j]).None?;
      assert FirstAllowed(bss, e.eid, own, o, k);
    }
  }

  /** In a mixed BSS the element decides between WPA and WPA2, and the BSS whether keys are pre-shared; any other BSS
      decides alone. */
  predicate SettledOn(own: AuthMode, eid: byte, mode: AuthMode) {
    if own in {WPA1WPA2, WPA1PSKWPA2PSK} then
      && mode in {WPA, WPAPSK, WPA2, WPA2PSK}
      && (mode in {WPA2, WPA2PSK} <==> eid == 48) && (mode in {WPA, WPAPSK} <==> eid == 221)
      && (mode in {WPAPSK, WPA2PSK} <==> own == WPA1PSKWPA2PSK)
    else mode == own
  }

  /** A well-formed element is accepted exactly when the group suite is the BSS's, some offered pairwise
      suite is allowed and some offered AKM is in the BSS's list, whatever the lengths of the lists. The
      cipher recorded is that of the first allowed suite in the station's order. */
  lemma NegotiationExact(bss: Bss, own: Offer, e: Element, o: Offer, authMode: AuthMode, wepStatus: nat)
    requires Announces(bss, e.eid, own) && Offers(e, o)
    ensures own.pairwise != []
    ensures var v := Validate(bss, e, authMode, wepStatus);
            && (v.status == MLME_SUCCESS <==>
                  o.group == own.group
                  && (exists k: nat :: FirstAllowed(bss, e.eid, own, o, k))
                  && AnyOf(o.akms, own.akms))
            && (v.status == MLME_INVALID_GROUP_CIPHER <==> o.group != own.group)
            && (v.status == MLME_INVALID_PAIRWISE_CIPHER <==>
                  o.group == own.group && (e.len < 16 || !exists k: nat :: FirstAllowed(bss, e.eid, own, o, k)))
            && (v.status == MLME_INVALID_AKMP <==>
                  o.group == own.group && e.len >= 16 && (exists k: nat :: FirstAllowed(bss, e.eid, own, o, k))
                  && !AnyOf(o.akms, own.akms))
            && (v.status == MLME_SUCCESS ==>
                  SettledOn(bss.authMode, e.eid, v.authMode)
                  && forall k: nat | FirstAllowed(bss, e.eid, own, o, k) ::
                       Some(v.wepStatus) == Allowed(bss, e.eid, own, o.pairwise[k]))
  {
    AcceptedIsAllowed(bss, e.eid, own, own.group);
    Decoded(e.octets, e.eid, o);
    Decoded(Stored(bss, e.eid), e.eid, own);
    if e.len >= 16 {
      PairwiseOffered(bss, own, e, o);
    } else {
      assert o.pairwise == [] || o.akms == [];
    }
  }

  /** An element whose recorded length is not its own is refused before it is read, and leaves the entry alone. */
  lemma MisrecordedRefused(bss: Bss, e: Element, authMode: AuthMode, wepStatus: nat)
    requires e.recorded != 0
    ensures Validate(bss, e, authMode, wepStatus).status == 1 <==> e.recorded != e.len as nat + 2
    ensures e.recorded != e.len as nat + 2 ==> Validate(bss, e, authMode, wepStatus) == Verdict(1, authMode, wepStatus)
  {
  }

  /** No element with a suite list leaves a station in a mixed mode. */
  lemma SettlesMode(bss: Bss, e: Element, authMode: AuthMode, wepStatus: nat)
    requires e.recorded != 0 && Validate(bss, e, authMode, wepStatus).status == MLME_SUCCESS
    ensures var mode := Validate(bss, e, authMode, wepStatus).authMode;
            && SettledOn(bss.authMode, e.eid, mode)
            && !Mixed(mode)
            && (Mixed(bss.authMode) ==> mode in {WPA, WPAPSK, WPA2, WPA2PSK})
            && (!Mixed(bss.authMode) ==> mode == bss.authMode)
  {
  }
}
