/** The traffic indication map element that APUpdateBeaconFrame of ap/ap_connect.c writes into the beacon
    buffer, and its decoding by section 7.3.2.6 of IEEE Std 802.11-2007. */
module Tim {
  import opened Octets
  import opened Wrappers

  const IE_TIM: byte := 5
  /** The longest virtual bitmap of the standard, in octets. */
  const MAX_BITMAP: nat := 251

  /** Does octet k count for the scan? Bit 0 of octet 0 stands for group traffic and is masked off. */
  predicate Busy(bitmap: seq<byte>, k: nat)
    requires k < |bitmap|
  {
    if k == 0 then ClearBit(bitmap[0], 0) != 0 else bitmap[k] != 0
  }

  /** The first busy octet above octet 0, or 0. */
  ghost predicate IsFirst(bitmap: seq<byte>, first: nat) {
    && first < |bitmap|
    && (first > 0 ==> Busy(bitmap, first))
    && (forall k | 1 <= k < |bitmap| && (k < first || first == 0) :: !Busy(bitmap, k))
  }

  /** The last busy octet, or 0. */
  ghost predicate IsLast(bitmap: seq<byte>, last: nat) {
    && last < |bitmap|
    && (last > 0 ==> Busy(bitmap, last))
    && (forall k | last < k < |bitmap| :: !Busy(bitmap, k))
  }

  function Control(bitmap: seq<byte>, offset: byte, dtimCount: byte): byte
    requires bitmap != []
  {
    if dtimCount == 0 && Bit(bitmap[0], 0) then SetBit(offset, 0) else offset
  }

  /** The octets of the element that carries bitmap[offset..last + 1]. */
  function Element(bitmap: seq<byte>, dtimCount: byte, dtimPeriod: byte, offset: nat, last: nat): seq<byte>
    requires offset <= last < |bitmap| <= MAX_BITMAP
  {
    [IE_TIM, (3 + (last - offset + 1)) as byte, dtimCount, dtimPeriod, Control(bitmap, offset as byte, dtimCount)]
    + bitmap[offset..last + 1]
  }

  /** The scan loop: the first and the last busy octet, with 0 standing for "none yet". */
  method Scan(bitmap: seq<byte>) returns (timFirst: nat, timLast: nat)
    requires 1 <= |bitmap| <= MAX_BITMAP
    ensures IsFirst(bitmap, timFirst) && IsLast(bitmap, timLast) && timFirst <= timLast
  {
    timFirst, timLast := 0, 0;
    var id := 0;
    while id < |bitmap|
      invariant 0 <= id <= |bitmap|
      invariant timFirst <= timLast < |bitmap| && (timLast > 0 ==> timLast < id)
      invariant timFirst > 0 ==> Busy(bitmap, timFirst)
      invariant forall k | 1 <= k < id && (k < timFirst || timFirst == 0) :: !Busy(bitmap, k)
      invariant timLast > 0 ==> Busy(bitmap, timLast)
      invariant forall k | timLast < k < id :: !Busy(bitmap, k)
    {
      var tim := bitmap[id];
      if id == 0 {
        tim := ClearBit(tim, 0);
      }
      if tim != 0 {
        if timFirst == 0 {
          timFirst := id;
        }
        timLast := id;
      }
      id := id + 1;
    }
  }

  /** The five octets before the partial bitmap. */
  method WriteHead(beacon: array<byte>, at: nat, length: byte, dtimCount: byte, dtimPeriod: byte, offset: byte)
    requires at + 5 <= beacon.Length
    modifies beacon
    ensures beacon[at..at + 5] == [IE_TIM, length, dtimCount, dtimPeriod, offset]
    ensures forall k | 0 <= k < at || at + 5 <= k < beacon.Length :: beacon[k] == old(beacon[k])
  {
    beacon[at], beacon[at + 1] := IE_TIM, length;
    beacon[at + 2], beacon[at + 3] := dtimCount, dtimPeriod;
    beacon[at + 4] := offset;
  }

  /** Copies the partial bitmap. */
  method CopyBitmap(bitmap: seq<byte>, beacon: array<byte>, to: nat, offset: nat, last: nat)
    requires offset <= last < |bitmap| && to + |bitmap| <= beacon.Length
    modifies beacon
    ensures beacon[to..to + (last + 1 - offset)] == bitmap[offset..last + 1]
    ensures forall k | 0 <= k < to || to + |bitmap| <= k < beacon.Length :: beacon[k] == old(beacon[k])
  {
    var i := offset;
    while i <= last
      invariant offset <= i <= last + 1
      invariant beacon[to..to + (i - offset)] == bitmap[offset..i]
      invariant forall k | 0 <= k < to || to + |bitmap| <= k < beacon.Length :: beacon[k] == old(beacon[k])
    {
      beacon[to + (i - offset)] := bitmap[i];
      i := i + 1;
      assert beacon[to..to + (i - offset)] == beacon[to..to + (i - 1 - offset)] + [bitmap[i - 1]];
    }
  }

  /** ORs the group bit into the control octet of a DTIM beacon. */
  method WriteGroupBit(bitmap: seq<byte>, dtimCount: byte, beacon: array<byte>, at: nat)
    requires bitmap != [] && at < beacon.Length
    modifies beacon
    ensures beacon[at] == Control(bitmap, old(beacon[at]), dtimCount)
    ensures forall k | 0 <= k < beacon.Length && k != at :: beacon[k] == old(beacon[k])
  {
    if dtimCount == 0 && Bit(bitmap[0], 0) {
      beacon[at] := SetBit(beacon[at], 0);
    }
  }

  /** TIM part of APUpdateBeaconFrame: scans the bitmap, writes the element at `at`, gives the end of the frame. */
  method UpdateBeacon(bitmap: seq<byte>, dtimCount: byte, dtimPeriod: byte, beacon: array<byte>, at: nat)
    returns (frameLen: nat, ghost first: nat, ghost last: nat)
    requires 1 <= |bitmap| <= MAX_BITMAP && at + 5 + |bitmap| <= beacon.Length
    modifies beacon
    ensures IsFirst(bitmap, first) && IsLast(bitmap, last) && first <= last
    ensures at <= frameLen <= beacon.Length
    ensures beacon[at..frameLen] == Element(bitmap, dtimCount, dtimPeriod, first - first % 2, last)
    ensures forall k | 0 <= k < at || at + 5 + |bitmap| <= k < beacon.Length :: beacon[k] == old(beacon[k])
  {
    var timFirst, timLast := Scan(bitmap);
    first, last := timFirst, timLast;
    if timFirst % 2 == 1 {
      timFirst := timFirst - 1;
    }
    var length := (3 + (timLast - timFirst + 1)) as byte;
    WriteHead(beacon, at, length, dtimCount, dtimPeriod, timFirst as byte);
    ghost var head := beacon[at..at + 5];
    CopyBitmap(bitmap, beacon, at + 5, timFirst, timLast);
    assert beacon[at..at + 5] == head;
    ghost var partial := beacon[at + 5..at + 5 + (timLast + 1 - timFirst)];
    assert beacon[at + 4] == head[4];
    WriteGroupBit(bitmap, dtimCount, beacon, at + 4);
    assert beacon[at..at + 5] == head[4 := beacon[at + 4]];
    assert beacon[at + 5..at + 5 + (timLast + 1 - timFirst)] == partial;
    assert beacon[at + 1] == length;
    frameLen := at + 2 + beacon[at + 1] as nat;
    assert beacon[at..frameLen] == beacon[at..at + 5] + beacon[at + 5..frameLen];
  }

  // ---- Decoding by the standard --------------------------------------------------------

  datatype Decoded = Decoded(count: byte, period: byte, control: byte, partial: seq<byte>)

  function Decode(e: seq<byte>): Option<Decoded> {
    if |e| >= 6 && e[0] == IE_TIM && e[1] as nat == |e| - 2 then Some(Decoded(e[2], e[3], e[4], e[5..])) else None
  }

  /** The first octet of the virtual bitmap that the element carries: the upper seven bits, doubled. */
  function Offset(d: Decoded): nat {
    d.control as nat / 2 * 2
  }

  /** Does the element announce traffic for this association? */
  predicate Announced(d: Decoded, aid: nat) {
    var octet := aid / 8;
    Offset(d) <= octet < Offset(d) + |d.partial| && Bit(d.partial[octet - Offset(d)], aid % 8)
  }

  predicate InBitmap(bitmap: seq<byte>, aid: nat) {
    aid / 8 < |bitmap| && Bit(bitmap[aid / 8], aid % 8)
  }

  /** What the scan's sentinel loses: stations 1 to 7, when octet 1 is idle and a later octet is busy. */
  ghost predicate FirstOctetLost(bitmap: seq<byte>) {
    && |bitmap| > 1 && !Busy(bitmap, 1)
    && exists k :: 2 <= k < |bitmap| && Busy(bitmap, k)
  }

  /** The carried range contains a busy octet unless it is octet 0 and the sentinel lost it. */
  lemma BusyCarried(bitmap: seq<byte>, first: nat, last: nat, k: nat)
    requires IsFirst(bitmap, first) && IsLast(bitmap, last) && first <= last
    requires k < |bitmap| && Busy(bitmap, k)
    ensures first - first % 2 <= k <= last <==> !(k == 0 && FirstOctetLost(bitmap))
  {
    if k == 0 && first >= 2 {
      assert Busy(bitmap, first);
    }
  }

  /** The element decodes to the octets it carries. */
  lemma DecodeHead(bitmap: seq<byte>, dtimCount: byte, dtimPeriod: byte, offset: nat, last: nat)
    requires offset % 2 == 0 && offset <= last < |bitmap| <= MAX_BITMAP
    ensures var d := Decode(Element(bitmap, dtimCount, dtimPeriod, offset, last));
            && d.Some?
            && d.value.count == dtimCount && d.value.period == dtimPeriod
            && Offset(d.value) == offset && d.value.partial == bitmap[offset..last + 1]
            && (Bit(d.value.control, 0) <==> dtimCount == 0 && Bit(bitmap[0], 0))
  {
    assert Element(bitmap, dtimCount, dtimPeriod, offset, last)[5..] == bitmap[offset..last + 1];
    ControlBits(bitmap, offset, dtimCount);
  }

  /** The element decodes, and announces exactly the set associations of the bitmap other than those the
      sentinel loses; the group bit is announced in DTIM beacons only. */
  lemma DecodeElement(bitmap: seq<byte>, dtimCount: byte, dtimPeriod: byte, first: nat, last: nat, aid: nat)
    requires 1 <= |bitmap| <= MAX_BITMAP
    requires IsFirst(bitmap, first) && IsLast(bitmap, last) && first <= last && aid >= 1
    ensures var d := Decode(Element(bitmap, dtimCount, dtimPeriod, first - first % 2, last));
            && d.Some?
            && d.value.count == dtimCount && d.value.period == dtimPeriod
            && (Announced(d.value, aid) <==> InBitmap(bitmap, aid) && !(aid < 8 && FirstOctetLost(bitmap)))
            && (Bit(d.value.control, 0) <==> dtimCount == 0 && Bit(bitmap[0], 0))
  {
    var offset := first - first % 2;
    DecodeHead(bitmap, dtimCount, dtimPeriod, offset, last);
    var octet, bit := aid / 8, aid % 8;
    assert octet == 0 ==> bit > 0;
    assert aid < 8 <==> octet == 0;
    BitCarried(bitmap, first, last, octet, bit);
  }

  /** A set bit is in the carried range unless the sentinel lost its octet. */
  lemma BitCarried(bitmap: seq<byte>, first: nat, last: nat, octet: nat, bit: nat)
    requires IsFirst(bitmap, first) && IsLast(bitmap, last) && first <= last
    requires bit < 8 && (octet == 0 ==> bit > 0)
    ensures var offset := first - first % 2;
            (offset <= octet < offset + |bitmap[offset..last + 1]| && Bit(bitmap[offset..last + 1][octet - offset], bit))
            <==> octet < |bitmap| && Bit(bitmap[octet], bit) && !(octet == 0 && FirstOctetLost(bitmap))
  {
    if octet < |bitmap| {
      OctetBits(bitmap, octet, bit);
      if Busy(bitmap, octet) {
        BusyCarried(bitmap, first, last, octet);
      }
    }
  }

  lemma ControlBits(bitmap: seq<byte>, offset: nat, dtimCount: byte)
    requires bitmap != [] && offset % 2 == 0 && offset < 256
    ensures var c := Control(bitmap, offset as byte, dtimCount);
            && c as nat / 2 * 2 == offset
            && (Bit(c, 0) <==> dtimCount == 0 && Bit(bitmap[0], 0))
  {
  }

  /** A set bit other than the group bit makes its octet busy. */
  lemma OctetBits(bitmap: seq<byte>, k: nat, i: nat)
    requires k < |bitmap| && i < 8 && (k == 0 ==> i > 0)
    ensures Bit(bitmap[k], i) ==> Busy(bitmap, k)
  {
    if k == 0 {
      ZeroByte(ClearBit(bitmap[0], 0));
      assert Bit(ClearBit(bitmap[0], 0), i) == Bit(bitmap[0], i);
    } else {
      ZeroByte(bitmap[k]);
    }
  }

  /** The announced stations are exactly those of the bitmap if and only if octet 0 is not both busy and
      lost. */
  lemma ExactUnlessFirstOctetLost(bitmap: seq<byte>, dtimCount: byte, dtimPeriod: byte, first: nat, last: nat)
    requires 1 <= |bitmap| <= MAX_BITMAP
    requires IsFirst(bitmap, first) && IsLast(bitmap, last) && first <= last
    ensures var e := Element(bitmap, dtimCount, dtimPeriod, first - first % 2, last);
            && Decode(e).Some?
            && ((forall aid: nat | aid >= 1 :: Announced(Decode(e).value, aid) <==> InBitmap(bitmap, aid))
                <==> !(Busy(bitmap, 0) && FirstOctetLost(bitmap)))
  {
    var e := Element(bitmap, dtimCount, dtimPeriod, first - first % 2, last);
    DecodeElement(bitmap, dtimCount, dtimPeriod, first, last, 1);
    var d := Decode(e).value;
    forall aid: nat | aid >= 1
      ensures Announced(d, aid) <==> InBitmap(bitmap, aid) && !(aid < 8 && FirstOctetLost(bitmap))
    {
      DecodeElement(bitmap, dtimCount, dtimPeriod, first, last, aid);
    }
    if Busy(bitmap, 0) {
      ZeroByte(ClearBit(bitmap[0], 0));
      var i: nat :| i < 8 && Bit(ClearBit(bitmap[0], 0), i);
      assert i >= 1 && InBitmap(bitmap, i);
    } else {
      forall aid: nat | 1 <= aid < 8 ensures !InBitmap(bitmap, aid) {
        OctetBits(bitmap, 0, aid);
      }
    }
  }
}
