/** The walk over the information elements of an association request (PeerAssocReqCmmSanity of
    ap/ap_sanity.c). */
module AssocWalk {
  import opened Octets
  import opened Wrappers
  import opened Rsn

  const MAX_LEN_OF_SSID: nat := 32
  const MAX_LEN_OF_SUPPORTED_RATES: nat := 12
  const SIZE_HT_CAP_IE: nat := 26
  const SIZE_EXT_CAP: nat := 4
  const MIN_LEN_OF_RSNIE: nat := 18

  const IE_SSID: byte := 0
  const IE_SUPP_RATES: byte := 1
  const IE_HT_CAP: byte := 45
  const IE_EXT_SUPP_RATES: byte := 50
  const IE_EXT_CAPABILITY: byte := 127

  const RATE_DEFAULT: seq<byte> := [0x82, 0x84, 0x8B, 0x96, 0x12, 0x24, 0x48, 0x6C]
  const WPS_OUI: seq<byte> := [0x00, 0x50, 0xF2, 0x04]
  const BROADCOM_HT: seq<byte> := [0x00, 0x90, 0x4C, 0x33]
  const RALINK_OUI: seq<byte> := [0x00, 0x0C, 0x43]
  const WME_INFO_ELEM: seq<byte> := [0x00, 0x50, 0xF2, 0x02, 0x00, 0x01]
  const WPA1_OUI: seq<byte> := [0x00, 0x50, 0xF2, 0x01]
  const WPA2_OUI: seq<byte> := [0x00, 0x0F, 0xAC]
  const RALINK_PLAIN: nat := 0xF000_0000

  /** An element: identifier and octets. */
  datatype Elem = Elem(eid: byte, octets: seq<byte>)

  /** IE_LISTS; `rsn` is what is copied of the RSN element, `rsnLen` its length as recorded in an octet. */
  datatype Lists = Lists(
    ssidSeen: bool, ssid: seq<byte>, ratesSeen: bool, rates: seq<byte>,
    htCap: Option<seq<byte>>, extCap: Option<seq<byte>>, ralink: nat, wmm: bool, rsn: seq<byte>,
    rsnLen: nat)

  const EMPTY: Lists := Lists(false, [], false, [], None, None, 0, false, [], 0)

  // ---- One element ----------------------------------------------------------------------------------

  /** Does the pattern stand at offset `at` of the element, or of what lies behind a short one? */
  predicate Begins(e: Elem, behind: Memory, at: nat, pattern: seq<byte>) {
    forall i | 0 <= i < |pattern| :: Octet(e, behind, at + i) == pattern[i]
  }

  function Octet(e: Elem, behind: Memory, i: nat): byte {
    if i < |e.octets| then e.octets[i] else At(behind, i - |e.octets|)
  }

  function TakeSsid(l: Lists, e: Elem): Option<Lists> {
    if l.ssidSeen then Some(l)
    else if |e.octets| <= MAX_LEN_OF_SSID then Some(l.(ssidSeen := true, ssid := e.octets))
    else None
  }

  /** A list of no rates or of too many is replaced by the default. */
  function TakeRates(l: Lists, e: Elem): Lists {
    l.(ratesSeen := true, rates := if 0 < |e.octets| <= MAX_LEN_OF_SUPPORTED_RATES then e.octets else RATE_DEFAULT)
  }

  /** Extended rates follow the rates so far, as many as fit. */
  function TakeExtRates(l: Lists, e: Elem): Lists
    requires |l.rates| <= MAX_LEN_OF_SUPPORTED_RATES
  {
    if |e.octets| + |l.rates| <= MAX_LEN_OF_SUPPORTED_RATES then l.(rates := l.rates + e.octets)
    else l.(rates := l.rates + e.octets[..MAX_LEN_OF_SUPPORTED_RATES - |l.rates|])
  }

  /** The length of an element of n octets with its header, in an octet. */
  function Recording(n: nat): (r: nat)
    ensures n < 254 ==> r == n + 2
    ensures 254 <= n < 256 ==> r == n - 254
  {
    (n + 2) % 256
  }

  /** Vendor and RSN elements. */
  function TakeVendor(l: Lists, e: Elem, behind: Memory, authMode: AuthMode): Option<Lists> {
    var n := |e.octets|;
    if Begins(e, behind, 0, WPS_OUI) then Some(l)
    else
      var l1 := if Begins(e, behind, 0, BROADCOM_HT) && n == 4 + SIZE_HT_CAP_IE then l.(htCap := Some(e.octets[4..])) else l;
      if Begins(e, behind, 0, RALINK_OUI) && n == 7
      then Some(l1.(ralink := if e.octets[3] != 0 then e.octets[3] as nat else RALINK_PLAIN))
      else if Begins(e, behind, 0, WME_INFO_ELEM) && n == 7 then Some(l1.(wmm := true))
      else if authMode < WPA then Some(l1)
      else if !Begins(e, behind, 0, WPA1_OUI) && !Begins(e, behind, 2, WPA2_OUI) then Some(l1)
      else if n >= MIN_LEN_OF_RSNIE then Some(l1.(rsn := [e.eid, (n % 256) as byte] + e.octets, rsnLen := Recording(n)))
      else None
  }

  predicate Bounded(l: Lists) {
    |l.ssid| <= MAX_LEN_OF_SSID && |l.rates| <= MAX_LEN_OF_SUPPORTED_RATES
  }

  /** The lists after one element; None when the request is refused at once. */
  function Take(l: Lists, e: Elem, behind: Memory, authMode: AuthMode): (r: Option<Lists>)
    requires Bounded(l)
    ensures r.Some? ==> Bounded(r.value)
  {
    if e.eid == IE_SSID then TakeSsid(l, e)
    else if e.eid == IE_SUPP_RATES then Some(TakeRates(l, e))
    else if e.eid == IE_EXT_SUPP_RATES then Some(TakeExtRates(l, e))
    else if e.eid == IE_HT_CAP then
      Some(if |e.octets| >= SIZE_HT_CAP_IE then l.(htCap := Some(e.octets[..SIZE_HT_CAP_IE])) else l)
    else if e.eid == IE_EXT_CAPABILITY then
      Some(if |e.octets| >= SIZE_EXT_CAP then l.(extCap := Some(e.octets[..SIZE_EXT_CAP])) else l)
    else if e.eid == IE_WPA || e.eid == IE_WPA2 then TakeVendor(l, e, behind, authMode)
    else Some(l)
  }

  // ---- The walk ---------------------------------------------------------------------------------------

  function Slice(m: Memory, at: nat, n: nat): (r: seq<byte>)
    ensures |r| == n && forall i | 0 <= i < n :: r[i] == At(m, at + i)
  {
    seq(n, i requires 0 <= i < n => At(m, at + i))
  }

  function ElemAt(m: Memory, p: nat): Elem {
    Elem(At(m, p), Slice(m, p + 2, At(m, p + 1) as nat))
  }

  function Size(m: Memory, p: nat): nat {
    2 + At(m, p + 1) as nat
  }

  function Behind(m: Memory, p: nat): Memory {
    if p <= |m| then m[p..] else []
  }

  /** The loop from offset p: an element that does not fit before `end` stops it. */
  function Walk(m: Memory, p: nat, end: nat, l: Lists, authMode: AuthMode): (r: Option<Lists>)
    requires Bounded(l)
    ensures r.Some? ==> Bounded(r.value)
    decreases end - p
  {
    if p + Size(m, p) > end then Some(l)
    else
      var r := Take(l, ElemAt(m, p), Behind(m, p + Size(m, p)), authMode);
      if r.None? then None else Walk(m, p + Size(m, p), end, r.value, authMode)
  }

  /** The lists of a request that has both mandatory elements. */
  function Sane(r: Option<Lists>): Option<Lists> {
    if r.Some? && r.value.ssidSeen && r.value.ratesSeen then r else None
  }

  /** Does the pattern stand there? The comparison octet by octet. */
  method Compare(m: Memory, at: nat, pattern: seq<byte>) returns (same: bool)
    ensures same <==> forall i | 0 <= i < |pattern| :: At(m, at + i) == pattern[i]
  {
    for i := 0 to |pattern|
      invariant forall k | 0 <= k < i :: At(m, at + k) == pattern[k]
    {
      if At(m, at + i) != pattern[i] {
        return false;
      }
    }
    return true;
  }

  lemma BeginsInMemory(m: Memory, p: nat, at: nat, pattern: seq<byte>)
    ensures Begins(ElemAt(m, p), Behind(m, p + Size(m, p)), at, pattern) <==>
            forall i | 0 <= i < |pattern| :: At(m, p + 2 + at + i) == pattern[i]
  {
    forall i | 0 <= i < |pattern|
      ensures Octet(ElemAt(m, p), Behind(m, p + Size(m, p)), at + i) == pattern[i] <==> At(m, p + 2 + at + i) == pattern[i]
    {
    }
  }

  method Finds(m: Memory, p: nat, at: nat, pattern: seq<byte>) returns (found: bool)
    ensures found == Begins(ElemAt(m, p), Behind(m, p + Size(m, p)), at, pattern)
  {
    BeginsInMemory(m, p, at, pattern);
    found := Compare(m, p + 2 + at, pattern);
  }

  /** The branch for vendor and RSN elements at offset p. */
  method VendorElement(m: Memory, p: nat, l: Lists, authMode: AuthMode) returns (r: Option<Lists>)
    ensures r == TakeVendor(l, ElemAt(m, p), Behind(m, p + Size(m, p)), authMode)
  {
    var len := At(m, p + 1) as nat;
    var lists := l;
    var octets := Slice(m, p + 2, len);
    var wps := Finds(m, p, 0, WPS_OUI);
    if wps {
      return Some(lists);
    }
    var broadcom := Finds(m, p, 0, BROADCOM_HT);
    if broadcom && len == 4 + SIZE_HT_CAP_IE {
      lists := lists.(htCap := Some(octets[4..]));
    }
    var ralink := Finds(m, p, 0, RALINK_OUI);
    if ralink && len == 7 {
      return Some(lists.(ralink := if octets[3] != 0 then octets[3] as nat else RALINK_PLAIN));
    }
    var wme := Finds(m, p, 0, WME_INFO_ELEM);
    if wme && len == 7 {
      return Some(lists.(wmm := true));
    }
    if authMode < WPA {
      return Some(lists);
    }
    var wpa1 := Finds(m, p, 0, WPA1_OUI);
    var wpa2 := Finds(m, p, 2, WPA2_OUI);
    if !wpa1 && !wpa2 {
      return Some(lists);
    }
    if len >= MIN_LEN_OF_RSNIE {
      return Some(lists.(rsn := [At(m, p), At(m, p + 1)] + octets, rsnLen := Recording(len)));
    }
    return None;
  }

  /** The switch over the element at offset p. */
  method TakeElement(m: Memory, p: nat, l: Lists, authMode: AuthMode) returns (r: Option<Lists>)
    requires Bounded(l)
    ensures r == Take(l, ElemAt(m, p), Behind(m, p + Size(m, p)), authMode)
  {
    var e := ElemAt(m, p);
    if e.eid == IE_SSID {
      if l.ssidSeen {
        return Some(l);
      }
      if |e.octets| <= MAX_LEN_OF_SSID {
        return Some(l.(ssidSeen := true, ssid := e.octets));
      }
      return None;
    } else if e.eid == IE_SUPP_RATES {
      if 0 < |e.octets| <= MAX_LEN_OF_SUPPORTED_RATES {
        return Some(l.(ratesSeen := true, rates := e.octets));
      }
      return Some(l.(ratesSeen := true, rates := RATE_DEFAULT));
    } else if e.eid == IE_EXT_SUPP_RATES {
      return Some(TakeExtRates(l, e));
    } else if e.eid == IE_HT_CAP && |e.octets| >= SIZE_HT_CAP_IE {
      return Some(l.(htCap := Some(e.octets[..SIZE_HT_CAP_IE])));
    } else if e.eid == IE_EXT_CAPABILITY && |e.octets| >= SIZE_EXT_CAP {
      return Some(l.(extCap := Some(e.octets[..SIZE_EXT_CAP])));
    } else if e.eid == IE_WPA || e.eid == IE_WPA2 {
      r := VendorElement(m, p, l, authMode);
    } else {
      return Some(l);
    }
  }

  /** PeerAssocReqCmmSanity on the body of a request, `end` octets of the memory `m`; `known` says whether the
      station is in the table. */
  method PeerAssocReqCmmSanity(m: Memory, end: nat, isReassoc: bool, known: bool, authMode: AuthMode)
    returns (lists: Option<Lists>)
    ensures lists == if known then Sane(Walk(m, if isReassoc then 10 else 4, end, EMPTY, authMode)) else None
  {
    if !known {
      return None;
    }
    var l := EMPTY;
    var p := if isReassoc then 10 else 4;
    ghost var whole := Walk(m, p, end, l, authMode);
    while p + At(m, p + 1) as nat + 1 < end
      invariant Bounded(l) && Walk(m, p, end, l, authMode) == whole
      decreases end - p
    {
      var r := TakeElement(m, p, l, authMode);
      if r.None? {
        return None;
      }
      l := r.value;
      p := p + 2 + At(m, p + 1) as nat;
    }
    return Sane(Some(l));
  }

  // ---- Well-formed requests ------------------------------------------------------------------------------

  ghost predicate Fits(es: seq<Elem>) {
    forall i | 0 <= i < |es| :: |es[i].octets| < 256
  }

  function Serialised(e: Elem): seq<byte>
    requires |e.octets| < 256
  {
    [e.eid, |e.octets| as byte] + e.octets
  }

  function Body(es: seq<Elem>): seq<byte>
    requires Fits(es)
  {
    if es == [] then [] else Serialised(es[0]) + Body(es[1..])
  }

  /** The elements taken one after the other, in their order; what follows an element lies behind it. */
  function Fold(es: seq<Elem>, tail: Memory, l: Lists, authMode: AuthMode): (r: Option<Lists>)
    requires Fits(es) && Bounded(l)
    ensures r.Some? ==> Bounded(r.value)
    decreases |es|
  {
    if es == [] then Some(l)
    else
      var r := Take(l, es[0], Body(es[1..]) + tail, authMode);
      if r.None? then None else Fold(es[1..], tail, r.value, authMode)
  }

  lemma ReadElement(m: Memory, p: nat, e: Elem, behind: Memory)
    requires |e.octets| < 256 && p <= |m| && m[p..] == Serialised(e) + behind
    ensures Size(m, p) == |Serialised(e)| && ElemAt(m, p) == e
    ensures p + Size(m, p) <= |m| && m[p + Size(m, p)..] == behind
  {
    var here := Serialised(e) + behind;
    assert forall i: nat | i < |here| :: m[p..][i] == here[i];
    assert At(m, p) == here[0] && At(m, p + 1) == here[1];
    forall i | 0 <= i < |e.octets| ensures At(m, p + 2 + i) == e.octets[i] {
      assert m[p..][2 + i] == here[2 + i];
    }
    assert m[p + |Serialised(e)|..] == m[p..][|Serialised(e)|..];
  }

  lemma Regroup(a: seq<byte>, b: seq<byte>, c: seq<byte>)
    ensures a + b + c == a + (b + c)
  {
  }

  /** An element as the walk meets it, with what lies behind it. */
  datatype Visit = Visit(e: Elem, behind: Memory)

  /** The elements the walk meets from offset p, whatever it makes of them. */
  function Visits(m: Memory, p: nat, end: nat): seq<Visit>
    decreases end - p
  {
    if p + Size(m, p) > end then []
    else [Visit(ElemAt(m, p), Behind(m, p + Size(m, p)))] + Visits(m, p + Size(m, p), end)
  }

  function Visited(es: seq<Elem>, tail: Memory): seq<Visit>
    requires Fits(es)
  {
    if es == [] then [] else [Visit(es[0], Body(es[1..]) + tail)] + Visited(es[1..], tail)
  }

  /** On a well-formed body the walk meets exactly its elements, in their order. */
  lemma {:induction false} VisitsExactly(m: Memory, p: nat, end: nat, es: seq<Elem>, tail: Memory)
    requires Fits(es) && p <= |m| && m[p..] == Body(es) + tail && end == p + |Body(es)|
    ensures Visits(m, p, end) == Visited(es, tail)
    decreases |es|
  {
    if es != [] {
      var rest := Body(es[1..]);
      Regroup(Serialised(es[0]), rest, tail);
      ReadElement(m, p, es[0], rest + tail);
      VisitsExactly(m, p + Size(m, p), end, es[1..], tail);
    }
  }

  function FoldVisits(vs: seq<Visit>, l: Lists, authMode: AuthMode): (r: Option<Lists>)
    requires Bounded(l)
    ensures r.Some? ==> Bounded(r.value)
    decreases |vs|
  {
    if vs == [] then Some(l)
    else
      var r := Take(l, vs[0].e, vs[0].behind, authMode);
      if r.None? then None else FoldVisits(vs[1..], r.value, authMode)
  }

  lemma {:induction false} WalkFoldsVisits(m: Memory, p: nat, end: nat, l: Lists, authMode: AuthMode)
    requires Bounded(l)
    ensures Walk(m, p, end, l, authMode) == FoldVisits(Visits(m, p, end), l, authMode)
    decreases end - p
  {
    if p + Size(m, p) <= end {
      var r := Take(l, ElemAt(m, p), Behind(m, p + Size(m, p)), authMode);
      assert Visits(m, p, end)[1..] == Visits(m, p + Size(m, p), end);
      if r.Some? {
        WalkFoldsVisits(m, p + Size(m, p), end, r.value, authMode);
      }
    }
  }

  lemma {:induction false} FoldOfVisited(es: seq<Elem>, tail: Memory, l: Lists, authMode: AuthMode)
    requires Fits(es) && Bounded(l)
    ensures FoldVisits(Visited(es, tail), l, authMode) == Fold(es, tail, l, authMode)
    decreases |es|
  {
    if es != [] {
      assert Visited(es, tail)[1..] == Visited(es[1..], tail);
      var r := Take(l, es[0], Body(es[1..]) + tail, authMode);
      if r.Some? {
        FoldOfVisited(es[1..], tail, r.value, authMode);
      }
    }
  }

  /** On a well-formed body, whatever lies behind it, the walk gives the fold of exactly its elements, in their
      order. */
  lemma WalkIsFold(m: Memory, p: nat, end: nat, es: seq<Elem>, tail: Memory, l: Lists, authMode: AuthMode)
    requires Fits(es) && Bounded(l) && p <= |m| && m[p..] == Body(es) + tail && end == p + |Body(es)|
    ensures Walk(m, p, end, l, authMode) == Fold(es, tail, l, authMode)
  {
    VisitsExactly(m, p, end, es, tail);
    WalkFoldsVisits(m, p, end, l, authMode);
    FoldOfVisited(es, tail, l, authMode);
  }

  // ---- What the fold gathers ----------------------------------------------------------------------------------

  ghost predicate IsFirstSsid(es: seq<Elem>, i: nat) {
    i < |es| && es[i].eid == IE_SSID && forall j | 0 <= j < i :: es[j].eid != IE_SSID
  }

  lemma TakeKeepsSsid(l: Lists, e: Elem, behind: Memory, authMode: AuthMode)
    requires Bounded(l) && Take(l, e, behind, authMode).Some? && (l.ssidSeen || e.eid != IE_SSID)
    ensures var r := Take(l, e, behind, authMode).value;
            r.ssidSeen == l.ssidSeen && r.ssid == l.ssid
  {
  }

  lemma TakeKeepsRates(l: Lists, e: Elem, behind: Memory, authMode: AuthMode)
    requires Bounded(l) && Take(l, e, behind, authMode).Some? && e.eid != IE_SUPP_RATES
    ensures var r := Take(l, e, behind, authMode).value;
            && r.ratesSeen == l.ratesSeen
            && r.rates == if e.eid == IE_EXT_SUPP_RATES then Cut(l.rates + e.octets) else l.rates
  {
  }

  /** Once an SSID is taken, later ones change nothing. */
  lemma {:induction false} SsidKept(es: seq<Elem>, tail: Memory, l: Lists, authMode: AuthMode)
    requires Fits(es) && Bounded(l) && Fold(es, tail, l, authMode).Some?
    requires l.ssidSeen || forall j | 0 <= j < |es| :: es[j].eid != IE_SSID
    ensures var r := Fold(es, tail, l, authMode).value;
            r.ssidSeen == l.ssidSeen && r.ssid == l.ssid
    decreases |es|
  {
    if es != [] {
      TakeKeepsSsid(l, es[0], Body(es[1..]) + tail, authMode);
      SsidKept(es[1..], tail, Take(l, es[0], Body(es[1..]) + tail, authMode).value, authMode);
    }
  }

  /** The first SSID wins. */
  lemma {:induction false} FirstSsidWins(es: seq<Elem>, tail: Memory, l: Lists, authMode: AuthMode, i: nat)
    requires Fits(es) && Bounded(l) && !l.ssidSeen && Fold(es, tail, l, authMode).Some? && IsFirstSsid(es, i)
    ensures var r := Fold(es, tail, l, authMode).value;
            r.ssidSeen && r.ssid == es[i].octets
    decreases |es|
  {
    var l1 := Take(l, es[0], Body(es[1..]) + tail, authMode).value;
    if i == 0 {
      SsidKept(es[1..], tail, l1, authMode);
    } else {
      assert es[1..][i - 1] == es[i];
      FirstSsidWins(es[1..], tail, l1, authMode, i - 1);
    }
  }

  /** The octets of all extended-rate elements, joined. */
  function ExtRates(es: seq<Elem>): seq<byte> {
    if es == [] then [] else (if es[0].eid == IE_EXT_SUPP_RATES then es[0].octets else []) + ExtRates(es[1..])
  }

  function Cut(s: seq<byte>): (r: seq<byte>)
    ensures |r| <= MAX_LEN_OF_SUPPORTED_RATES
  {
    if |s| <= MAX_LEN_OF_SUPPORTED_RATES then s else s[..MAX_LEN_OF_SUPPORTED_RATES]
  }

  lemma CutTwice(a: seq<byte>, b: seq<byte>, c: seq<byte>)
    ensures Cut(Cut(a + b) + c) == Cut(a + (b + c))
  {
    assert a + b + c == a + (b + c);
  }

  /** Without a further rate element, the extended rates are appended as far as they fit. */
  lemma {:induction false} ExtRatesAppend(es: seq<Elem>, tail: Memory, l: Lists, authMode: AuthMode)
    requires Fits(es) && Bounded(l) && Fold(es, tail, l, authMode).Some?
    requires forall j | 0 <= j < |es| :: es[j].eid != IE_SUPP_RATES
    ensures var r := Fold(es, tail, l, authMode).value;
            r.rates == Cut(l.rates + ExtRates(es)) && r.ratesSeen == l.ratesSeen
    decreases |es|
  {
    if es == [] {
      assert l.rates + [] == l.rates;
    } else {
      var l1 := Take(l, es[0], Body(es[1..]) + tail, authMode).value;
      TakeKeepsRates(l, es[0], Body(es[1..]) + tail, authMode);
      ExtRatesAppend(es[1..], tail, l1, authMode);
      if es[0].eid == IE_EXT_SUPP_RATES {
        CutTwice(l.rates, es[0].octets, ExtRates(es[1..]));
      } else {
        assert [] + ExtRates(es[1..]) == ExtRates(es[1..]);
      }
    }
  }

  function BaseRates(e: Elem): seq<byte> {
    if 0 < |e.octets| <= MAX_LEN_OF_SUPPORTED_RATES then e.octets else RATE_DEFAULT
  }

  /** The last rate element overwrites what was gathered before; the extended rates behind it are appended; the
      rest is cut off. */
  lemma {:induction false} RatesGathered(es: seq<Elem>, tail: Memory, l: Lists, authMode: AuthMode, i: nat)
    requires Fits(es) && Bounded(l) && Fold(es, tail, l, authMode).Some?
    requires i < |es| && es[i].eid == IE_SUPP_RATES && forall j | i < j < |es| :: es[j].eid != IE_SUPP_RATES
    ensures var r := Fold(es, tail, l, authMode).value;
            r.ratesSeen && r.rates == Cut(BaseRates(es[i]) + ExtRates(es[i + 1..]))
    decreases |es|
  {
    var l1 := Take(l, es[0], Body(es[1..]) + tail, authMode).value;
    if i == 0 {
      ExtRatesAppend(es[1..], tail, l1, authMode);
    } else {
      assert es[1..][i - 1] == es[i] && es[1..][i..] == es[i + 1..];
      RatesGathered(es[1..], tail, l1, authMode, i - 1);
    }
  }

  /** Whatever the octets and wherever the walk starts, no more rates and no longer SSID are stored than fit. */
  lemma StoredWithinBounds(m: Memory, p: nat, end: nat, authMode: AuthMode)
    requires Walk(m, p, end, EMPTY, authMode).Some?
    ensures |Walk(m, p, end, EMPTY, authMode).value.rates| <= 12 && |Walk(m, p, end, EMPTY, authMode).value.ssid| <= 32
  {
  }

  predicate Recorded(l: Lists) {
    |l.rsn| <= 257 && l.rsnLen == if |l.rsn| < 256 then |l.rsn| else |l.rsn| - 256
  }

  lemma TakeRsn(l: Lists, e: Elem, behind: Memory, authMode: AuthMode)
    requires Bounded(l) && Take(l, e, behind, authMode).Some?
    ensures var l' := Take(l, e, behind, authMode).value;
            || (l'.rsn == l.rsn && l'.rsnLen == l.rsnLen)
            || (|l'.rsn| == |e.octets| + 2 && l'.rsnLen == Recording(|e.octets|))
  {
  }

  lemma {:induction false} WalkRecords(m: Memory, p: nat, end: nat, l: Lists, authMode: AuthMode)
    requires Bounded(l) && Recorded(l) && Walk(m, p, end, l, authMode).Some?
    ensures Recorded(Walk(m, p, end, l, authMode).value)
    decreases end - p
  {
    if p + Size(m, p) <= end {
      var e, behind := ElemAt(m, p), Behind(m, p + Size(m, p));
      TakeRsn(l, e, behind, authMode);
      WalkRecords(m, p + Size(m, p), end, Take(l, e, behind, authMode).value, authMode);
    }
  }

  /** The recorded length is that of the copied element if and only if it fits an octet: an element of 254 octets
      is recorded as absent, and one of 255 as a single octet. */
  lemma RecordedLength(m: Memory, p: nat, end: nat, authMode: AuthMode)
    requires Walk(m, p, end, EMPTY, authMode).Some?
    ensures var l := Walk(m, p, end, EMPTY, authMode).value;
            && (l.rsnLen == |l.rsn| <==> |l.rsn| < 256)
            && (l.rsn != [] && l.rsnLen == 0 <==> |l.rsn| == 256)
            && (|l.rsn| >= 257 ==> |l.rsn| == 257 && l.rsnLen == 1)
  {
    WalkRecords(m, p, end, EMPTY, authMode);
  }

  /** What lies behind an element matters only for a vendor element of fewer than six octets. */
  lemma BehindIrrelevant(l: Lists, e: Elem, behind: Memory, other: Memory, authMode: AuthMode)
    requires Bounded(l) && (|e.octets| >= 6 || (e.eid != IE_WPA && e.eid != IE_WPA2))
    ensures Take(l, e, behind, authMode) == Take(l, e, other, authMode)
  {
    if e.eid == IE_WPA || e.eid == IE_WPA2 {
      forall i: nat | i < 6 ensures Octet(e, behind, i) == Octet(e, other, i) {
      }
    }
  }

  // ---- The last of each kind ------------------------------------------------------------------------------

  predicate Vendor(e: Elem) {
    e.eid == 221 || e.eid == 48
  }

  /** The copy of an element that is taken for the RSN element: in a BSS from WPA on, at least 18 octets, begun by the
      OUI and type of WPA or holding the OUI of RSN behind the version, and not one of WPS. */
  function RsnOf(e: Elem, authMode: AuthMode): Option<seq<byte>> {
    if Vendor(e) && authMode >= 3 && 18 <= |e.octets| < 256 && e.octets[..4] != [0x00, 0x50, 0xF2, 0x04]
       && (e.octets[..4] == [0x00, 0x50, 0xF2, 0x01] || e.octets[2..5] == [0x00, 0x0F, 0xAC])
    then Some([e.eid, |e.octets| as byte] + e.octets) else None
  }

  /** HT capabilities in their own element, or in Broadcom's. */
  function HtOf(e: Elem): Option<seq<byte>> {
    if e.eid == 45 && |e.octets| >= 26 then Some(e.octets[..26])
    else if Vendor(e) && |e.octets| == 30 && e.octets[..4] == [0x00, 0x90, 0x4C, 0x33] then Some(e.octets[4..])
    else None
  }

  function ExtOf(e: Elem): Option<seq<byte>> {
    if e.eid == 127 && |e.octets| >= 4 then Some(e.octets[..4]) else None
  }

  function RalinkOf(e: Elem): Option<nat> {
    if Vendor(e) && |e.octets| == 7 && e.octets[..3] == [0x00, 0x0C, 0x43]
    then Some(if e.octets[3] == 0 then 0xF000_0000 else e.octets[3] as nat) else None
  }

  predicate Wmm(e: Elem) {
    Vendor(e) && |e.octets| == 7 && e.octets[..6] == [0x00, 0x50, 0xF2, 0x02, 0x00, 0x01]
  }

  function Or<T>(r: Option<T>, other: T): T {
    if r.Some? then r.value else other
  }

  /** What is taken of one element, if the request is not refused for it. */
  ghost predicate Takes(l: Lists, e: Elem, l': Lists, authMode: AuthMode) {
    && l'.rsn == Or(RsnOf(e, authMode), l.rsn)
    && (RsnOf(e, authMode).None? ==> l'.rsnLen == l.rsnLen)
    && l'.htCap == (if HtOf(e).Some? then HtOf(e) else l.htCap)
    && l'.extCap == (if ExtOf(e).Some? then ExtOf(e) else l.extCap)
    && l'.ralink == Or(RalinkOf(e), l.ralink)
    && (l'.wmm <==> l.wmm || Wmm(e))
  }

  /** A pattern inside a long enough element is found where its octets stand. */
  lemma BeginsHere(e: Elem, behind: Memory, at: nat, pattern: seq<byte>)
    requires at + |pattern| <= |e.octets|
    ensures Begins(e, behind, at, pattern) <==> e.octets[at..at + |pattern|] == pattern
  {
    var here := e.octets[at..at + |pattern|];
    if Begins(e, behind, at, pattern) {
      forall i | 0 <= i < |pattern| ensures here[i] == pattern[i] {
        assert Octet(e, behind, at + i) == pattern[i];
      }
      assert here == pattern;
    }
    if here == pattern {
      forall i | 0 <= i < |pattern| ensures Octet(e, behind, at + i) == pattern[i] {
        assert here[i] == e.octets[at + i];
      }
    }
  }

  lemma Beginnings(e: Elem, behind: Memory)
    requires |e.octets| >= 7
    ensures Begins(e, behind, 0, WPS_OUI) <==> e.octets[..4] == WPS_OUI
    ensures Begins(e, behind, 0, BROADCOM_HT) <==> e.octets[..4] == BROADCOM_HT
    ensures Begins(e, behind, 0, RALINK_OUI) <==> e.octets[..3] == RALINK_OUI
    ensures Begins(e, behind, 0, WME_INFO_ELEM) <==> e.octets[..6] == WME_INFO_ELEM
    ensures Begins(e, behind, 0, WPA1_OUI) <==> e.octets[..4] == WPA1_OUI
    ensures Begins(e, behind, 2, WPA2_OUI) <==> e.octets[2..5] == WPA2_OUI
  {
    BeginsHere(e, behind, 0, WPS_OUI);
    BeginsHere(e, behind, 0, BROADCOM_HT);
    BeginsHere(e, behind, 0, RALINK_OUI);
    BeginsHere(e, behind, 0, WME_INFO_ELEM);
    BeginsHere(e, behind, 0, WPA1_OUI);
    BeginsHere(e, behind, 2, WPA2_OUI);
  }

  lemma VendorTakesRsn(l: Lists, e: Elem, behind: Memory, authMode: AuthMode)
    requires Bounded(l) && Vendor(e) && |e.octets| < 256 && TakeVendor(l, e, behind, authMode).Some?
    ensures var l' := TakeVendor(l, e, behind, authMode).value;
            && l'.rsn == Or(RsnOf(e, authMode), l.rsn)
            && (RsnOf(e, authMode).None? ==> l'.rsnLen == l.rsnLen)
            && l'.extCap == l.extCap
  {
    if |e.octets| >= 7 {
      Beginnings(e, behind);
    }
  }

  lemma VendorTakesOthers(l: Lists, e: Elem, behind: Memory, authMode: AuthMode)
    requires Bounded(l) && Vendor(e) && |e.octets| < 256 && TakeVendor(l, e, behind, authMode).Some?
    ensures var l' := TakeVendor(l, e, behind, authMode).value;
            && l'.htCap == (if HtOf(e).Some? then HtOf(e) else l.htCap)
            && l'.ralink == Or(RalinkOf(e), l.ralink)
            && (l'.wmm <==> l.wmm || Wmm(e))
  {
    if |e.octets| >= 7 {
      Beginnings(e, behind);
      FirstOctets(e);
    }
  }

  /** The patterns exclude each other by the octets they begin with. */
  lemma FirstOctets(e: Elem)
    requires |e.octets| >= 7
    ensures e.octets[..4] == WPS_OUI ==> e.octets[..4] != BROADCOM_HT && e.octets[..3] != RALINK_OUI && e.octets[..6] != WME_INFO_ELEM
    ensures e.octets[..4] == BROADCOM_HT ==> e.octets[..4] != WPA1_OUI && e.octets[2..5] != WPA2_OUI
    ensures e.octets[..3] == RALINK_OUI ==> e.octets[..6] != WME_INFO_ELEM
  {
    assert e.octets[..4][2] == e.octets[2] && e.octets[..4][3] == e.octets[3] && e.octets[..4][1] == e.octets[1];
    assert e.octets[..3][1] == e.octets[1] && e.octets[..6][1] == e.octets[1] && e.octets[..6][3] == e.octets[3];
    assert e.octets[2..5][0] == e.octets[2];
  }

  lemma TakeTakes(l: Lists, e: Elem, behind: Memory, authMode: AuthMode)
    requires Bounded(l) && |e.octets| < 256 && Take(l, e, behind, authMode).Some?
    ensures Takes(l, e, Take(l, e, behind, authMode).value, authMode)
  {
    if Vendor(e) {
      VendorTakesRsn(l, e, behind, authMode);
      VendorTakesOthers(l, e, behind, authMode);
    }
  }

  /** The last element of a list that has something to take. */
  function LastRsn(es: seq<Elem>, authMode: AuthMode): Option<seq<byte>> {
    if es == [] then None
    else (var later := LastRsn(es[1..], authMode); if later.Some? then later else RsnOf(es[0], authMode))
  }

  function LastHt(es: seq<Elem>): Option<seq<byte>> {
    if es == [] then None else (var later := LastHt(es[1..]); if later.Some? then later else HtOf(es[0]))
  }

  function LastExt(es: seq<Elem>): Option<seq<byte>> {
    if es == [] then None else (var later := LastExt(es[1..]); if later.Some? then later else ExtOf(es[0]))
  }

  function LastRalink(es: seq<Elem>): Option<nat> {
    if es == [] then None else (var later := LastRalink(es[1..]); if later.Some? then later else RalinkOf(es[0]))
  }

  /** In a request that is not refused, RSN element, HT and extended capabilities and Ralink's octet are those of the last element
      that has one, and WMM is on exactly if some element says so. */
  lemma {:induction false} LastOfEach(es: seq<Elem>, tail: Memory, l: Lists, authMode: AuthMode)
    requires Fits(es) && Bounded(l) && Fold(es, tail, l, authMode).Some?
    ensures var l' := Fold(es, tail, l, authMode).value;
            && l'.rsn == Or(LastRsn(es, authMode), l.rsn)
            && l'.htCap == (if LastHt(es).Some? then LastHt(es) else l.htCap)
            && l'.extCap == (if LastExt(es).Some? then LastExt(es) else l.extCap)
            && l'.ralink == Or(LastRalink(es), l.ralink)
            && (l'.wmm <==> l.wmm || exists i | 0 <= i < |es| :: Wmm(es[i]))
    decreases |es|
  {
    if es != [] {
      var behind := Body(es[1..]) + tail;
      TakeTakes(l, es[0], behind, authMode);
      LastOfEach(es[1..], tail, Take(l, es[0], behind, authMode).value, authMode);
      assert (exists i | 0 <= i < |es| :: Wmm(es[i])) <==> Wmm(es[0]) || exists i | 0 <= i < |es[1..]| :: Wmm(es[1..][i]) by {
        if i :| 0 <= i < |es[1..]| && Wmm(es[1..][i]) {
          assert Wmm(es[i + 1]);
        }
        if i :| 0 <= i < |es| && Wmm(es[i]) && i > 0 {
          assert Wmm(es[1..][i - 1]);
        }
      }
    }
  }

  /** A request that is not refused for an element has its SSID and its rates seen exactly if it holds such elements. */
  lemma {:induction false} SeenExactly(es: seq<Elem>, tail: Memory, l: Lists, authMode: AuthMode)
    requires Fits(es) && Bounded(l) && Fold(es, tail, l, authMode).Some?
    ensures var l' := Fold(es, tail, l, authMode).value;
            && (l'.ssidSeen <==> l.ssidSeen || exists i | 0 <= i < |es| :: es[i].eid == 0)
            && (l'.ratesSeen <==> l.ratesSeen || exists i | 0 <= i < |es| :: es[i].eid == 1)
    decreases |es|
  {
    if es != [] {
      var rest := es[1..];
      var l1 := Take(l, es[0], Body(rest) + tail, authMode).value;
      TakeSees(l, es[0], Body(rest) + tail, authMode);
      SeenExactly(rest, tail, l1, authMode);
      assert es == [es[0]] + rest;
      assert forall i | 0 <= i < |rest| :: rest[i] == es[i + 1];
      assert forall i | 0 < i < |es| :: es[i] == rest[i - 1];
    }
  }

  lemma TakeSees(l: Lists, e: Elem, behind: Memory, authMode: AuthMode)
    requires Bounded(l) && Take(l, e, behind, authMode).Some?
    ensures var l' := Take(l, e, behind, authMode).value;
            (l'.ssidSeen <==> l.ssidSeen || e.eid == 0) && (l'.ratesSeen <==> l.ratesSeen || e.eid == 1)
  {
  }

  /** The request is refused for an element exactly if that is a first SSID of more than 32 octets or, in a BSS from WPA
      on, one that begins like an RSN element but is shorter than 18 octets. */
  lemma RefusedExactly(l: Lists, e: Elem, behind: Memory, authMode: AuthMode)
    requires Bounded(l) && 7 < |e.octets| < 256
    ensures Take(l, e, behind, authMode).None? <==>
              || (e.eid == 0 && !l.ssidSeen && |e.octets| > 32)
              || (Vendor(e) && authMode >= 3 && |e.octets| < 18 && e.octets[..4] != [0x00, 0x50, 0xF2, 0x04]
                  && (e.octets[..4] == [0x00, 0x50, 0xF2, 0x01] || e.octets[2..5] == [0x00, 0x0F, 0xAC]))
  {
    Beginnings(e, behind);
  }

  /** So a well-formed request of a known station is taken exactly if none of its elements is refused and it holds an
      SSID and a rate element. */
  lemma TakenExactly(es: seq<Elem>, tail: Memory, authMode: AuthMode)
    requires Fits(es)
    ensures Sane(Fold(es, tail, EMPTY, authMode)).Some? <==>
              && Fold(es, tail, EMPTY, authMode).Some?
              && (exists i | 0 <= i < |es| :: es[i].eid == 0) && (exists i | 0 <= i < |es| :: es[i].eid == 1)
    ensures Sane(Fold(es, tail, EMPTY, authMode)).Some? ==> Sane(Fold(es, tail, EMPTY, authMode)) == Fold(es, tail, EMPTY, authMode)
  {
    if Fold(es, tail, EMPTY, authMode).Some? {
      SeenExactly(es, tail, EMPTY, authMode);
    }
  }
}
