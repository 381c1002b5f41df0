/** Aggregation of queued packets into one A-MSDU (AP_AMSDU_Frame_Tx of ap/ap_data.c), and its parsing by
    section 8.3.2.2 of IEEE Std 802.11-2012. */
module Amsdu {
  import opened Octets
  import opened Wrappers

  const LENGTH_802_3: nat := 14
  const LENGTH_802_1Q: nat := 4
  const LENGTH_AMSDU_SUBFRAMEHEAD: nat := 14
  const SNAP_802_1H: seq<byte> := [0xAA, 0xAA, 0x03, 0x00, 0x00, 0x00]
  const SNAP_BRIDGE_TUNNEL: seq<byte> := [0xAA, 0xAA, 0x03, 0x00, 0x00, 0xF8]
  const IPX: seq<byte> := [0x81, 0x37]
  const APPLE_TALK: seq<byte> := [0x80, 0xF3]
  const USHORT: nat := 0x10000

  /** A queued packet in 802.3 form; `filled` says whether its transmit block could be filled in. */
  datatype Packet = Packet(filled: bool, vlan: bool, octets: seq<byte>)

  predicate WellFormed(p: Packet) {
    |p.octets| >= LENGTH_802_3 + if p.vlan then LENGTH_802_1Q else 0
  }

  // ---- What a packet carries ---------------------------------------------------------------------

  function DataAt(p: Packet): nat {
    LENGTH_802_3 + if p.vlan then LENGTH_802_1Q else 0
  }

  /** Behind the 802.3 header and the tag. */
  function Data(p: Packet): seq<byte>
    requires WellFormed(p)
  {
    p.octets[DataAt(p)..]
  }

  /** The two octets before the data: type or length. */
  function TypeOf(p: Packet): (t: seq<byte>)
    requires WellFormed(p)
    ensures |t| == 2
  {
    p.octets[DataAt(p) - 2..DataAt(p)]
  }

  /** EXTRA_LLCSNAP_ENCAP_FROM_PKT_OFFSET. */
  function Encap(t: seq<byte>): (r: seq<byte>)
    requires |t| == 2
    ensures |r| == 0 || |r| == 6
  {
    if 256 * t[0] as nat + t[1] as nat > 1500
    then if t == IPX || t == APPLE_TALK then SNAP_BRIDGE_TUNNEL else SNAP_802_1H
    else []
  }

  /** The MSDU: the data, behind an LLC/SNAP header and the type when the packet has a type. */
  function Msdu(p: Packet): seq<byte>
    requires WellFormed(p)
  {
    var encap := Encap(TypeOf(p));
    if encap == [] then Data(p) else encap + TypeOf(p) + Data(p)
  }

  function Be16(n: nat): (r: seq<byte>)
    ensures |r| == 2
  {
    [(n / 256 % 256) as byte, (n % 256) as byte]
  }

  /** DA, SA, length and MSDU. */
  function Subframe(p: Packet): (r: seq<byte>)
    requires WellFormed(p)
    ensures |r| == LENGTH_AMSDU_SUBFRAMEHEAD + |Msdu(p)|
  {
    p.octets[..12] + Be16(|Msdu(p)|) + Msdu(p)
  }

  function Zeros(n: nat): (r: seq<byte>)
    ensures |r| == n && forall i | 0 <= i < n :: r[i] == 0
  {
    if n == 0 then [] else [0] + Zeros(n - 1)
  }

  predicate Aligned(n: nat) {
    n % 4 == 0
  }

  /** Octets from n to the next multiple of four. */
  function Pad(n: nat): (r: nat)
    ensures r < 4 && Aligned(n + r)
  {
    if n % 4 == 0 then 0 else 4 - n % 4
  }

  ghost predicate AllFormed(ps: seq<Packet>) {
    forall i | 0 <= i < |ps| :: WellFormed(ps[i])
  }

  /** A subframe and the octets up to the next multiple of four. */
  function Padded(p: Packet): (r: seq<byte>)
    requires WellFormed(p)
    ensures |r| == |Subframe(p)| + Pad(|Subframe(p)|)
  {
    Subframe(p) + Zeros(Pad(|Subframe(p)|))
  }

  /** The A-MSDU of a list: every subframe but the last is padded. */
  function Joined(ps: seq<Packet>): seq<byte>
    requires AllFormed(ps)
  {
    if ps == [] then [] else if |ps| == 1 then Subframe(ps[0]) else Padded(ps[0]) + Joined(ps[1..])
  }

  function Filled(ps: seq<Packet>): (r: seq<Packet>)
    requires AllFormed(ps)
    ensures AllFormed(r)
  {
    if ps == [] then [] else (if ps[0].filled then [ps[0]] else []) + Filled(ps[1..])
  }

  // ---- The transmit loop ---------------------------------------------------------------------------

  /** The padding owed by the last packet of a list, then the next subframe. */
  function Next(ps: seq<Packet>, p: Packet): seq<byte>
    requires AllFormed(ps) && WellFormed(p) && ps != []
  {
    Zeros(Pad(|Subframe(ps[|ps| - 1])|)) + Subframe(p)
  }

  lemma Regroup(a: seq<byte>, b: seq<byte>, c: seq<byte>)
    ensures a + b + c == a + (b + c)
  {
  }

  lemma {:induction false} JoinedSnoc(ps: seq<Packet>, p: Packet)
    requires AllFormed(ps) && WellFormed(p) && ps != []
    ensures Joined(ps + [p]) == Joined(ps) + Next(ps, p)
  {
    var all := ps + [p];
    assert all[1..] == ps[1..] + [p];
    if |ps| == 1 {
      assert all[1..] == [p];
      Regroup(Subframe(ps[0]), Zeros(Pad(|Subframe(ps[0])|)), Subframe(p));
    } else {
      JoinedSnoc(ps[1..], p);
      Regroup(Padded(ps[0]), Joined(ps[1..]), Next(ps, p));
    }
  }

  lemma {:induction false} FilledSnoc(ps: seq<Packet>, p: Packet)
    requires AllFormed(ps) && WellFormed(p)
    ensures Filled(ps + [p]) == Filled(ps) + if p.filled then [p] else []
  {
    if ps == [] {
      assert Filled([p][1..]) == [];
    } else {
      assert (ps + [p])[1..] == ps[1..] + [p];
      FilledSnoc(ps[1..], p);
    }
  }

  /** One round: the header octets of a subframe (the MAC header or the padding owed, then the subframe head
      and the encapsulation), and the length of its payload. */
  method BuildSubframe(p: Packet, front: seq<byte>) returns (headerBuf: seq<byte>, payloadLen: nat)
    requires WellFormed(p)
    ensures headerBuf + Data(p) == front + Subframe(p)
    ensures payloadLen == |Msdu(p)|
  {
    var srcBufLen := |p.octets| - DataAt(p);
    headerBuf := front + p.octets[..12];
    payloadLen := srcBufLen;
    var encap := Encap(TypeOf(p));
    if encap != [] {
      payloadLen := payloadLen + 8;
      headerBuf := headerBuf + Be16(payloadLen) + encap + TypeOf(p);
    } else {
      headerBuf := headerBuf + Be16(payloadLen);
    }
  }

  /** What is on the way after some packets. */
  function Emitted(header: seq<byte>, hdrPad: nat, done: seq<Packet>): (r: seq<byte>)
    requires AllFormed(done)
    ensures done != [] ==> |r| >= hdrPad
  {
    if done == [] then [] else header + Zeros(hdrPad) + Joined(done)
  }

  lemma EmittedNext(header: seq<byte>, hdrPad: nat, done: seq<Packet>, p: Packet, front: seq<byte>)
    requires AllFormed(done) && WellFormed(p)
    requires front == if done == [] then header + Zeros(hdrPad) else Zeros(Pad(|Subframe(done[|done| - 1])|))
    ensures Emitted(header, hdrPad, done + [p]) == Emitted(header, hdrPad, done) + (front + Subframe(p))
  {
    if done == [] {
      assert Emitted(header, hdrPad, done) + (front + Subframe(p)) == front + Subframe(p);
    } else {
      JoinedSnoc(done, p);
      Regroup(header + Zeros(hdrPad), Joined(done), Next(done, p));
    }
  }

  /** What an unsigned 16-bit variable holds. */
  function Wrap(n: nat): nat {
    n % USHORT
  }

  lemma WrapAdd(total: nat, n: nat, x: nat, sum: nat)
    requires total == Wrap(n) && sum == n + x
    ensures Wrap(total + x) == Wrap(sum)
  {
  }

  /** The octets on the way without the header padding. */
  ghost function Length(header: seq<byte>, hdrPad: nat, done: seq<Packet>): nat
    requires AllFormed(done)
  {
    if done == [] then 0 else |Emitted(header, hdrPad, done)| - hdrPad
  }

  /** One packet: the octets it adds, and its share of the size. */
  method EmitPacket(header: seq<byte>, hdrPad: nat, first: bool, owed: nat, p: Packet, ghost done: seq<Packet>)
    returns (octets: seq<byte>, payloadLen: nat, size: nat)
    requires AllFormed(done) && WellFormed(p) && (first <==> done == [])
    requires !first ==> owed == Pad(|Subframe(done[|done| - 1])|)
    ensures Emitted(header, hdrPad, done + [p]) == Emitted(header, hdrPad, done) + octets
    ensures payloadLen == |Msdu(p)| && Length(header, hdrPad, done + [p]) == Length(header, hdrPad, done) + size
  {
    var front := if first then header + Zeros(hdrPad) else Zeros(owed);
    EmittedNext(header, hdrPad, done, p, front);
    var headerBuf;
    headerBuf, payloadLen := BuildSubframe(p, front);
    var mpduHeaderLen := if first then |headerBuf| - hdrPad else |headerBuf|;
    octets := headerBuf + p.octets[DataAt(p)..];
    size := mpduHeaderLen + (|p.octets| - DataAt(p));
  }

  /** The transmit block between two packets. */
  datatype Block = Block(out: seq<byte>, total: nat, payloadLen: nat, frameNum: nat)

  ghost predicate Progress(header: seq<byte>, hdrPad: nat, blk: Block, done: seq<Packet>)
    requires AllFormed(done)
  {
    && blk.out == Emitted(header, hdrPad, done) && blk.total == Wrap(Length(header, hdrPad, done))
    && blk.frameNum == |done| && (done != [] ==> blk.payloadLen == |Msdu(done[|done| - 1])|)
  }

  /** One packet's round of the loop. */
  method Append(header: seq<byte>, hdrPad: nat, blk: Block, p: Packet, ghost done: seq<Packet>) returns (blk': Block)
    requires AllFormed(done) && WellFormed(p) && Progress(header, hdrPad, blk, done)
    ensures Progress(header, hdrPad, blk', done + [p])
  {
    var octets, payloadLen, size :=
      EmitPacket(header, hdrPad, blk.frameNum == 0, Pad(LENGTH_AMSDU_SUBFRAMEHEAD + blk.payloadLen), p, done);
    ghost var all := done + [p];
    WrapAdd(blk.total, Length(header, hdrPad, done), size, Length(header, hdrPad, all));
    blk' := Block(blk.out + octets, Wrap(blk.total + size), payloadLen, blk.frameNum + 1);
  }

  /** AP_AMSDU_Frame_Tx: `header` is the MAC header, `hdrPad` the padding that aligns it. `totalMPDUSize` is
      an unsigned 16-bit sum. */
  method AmsduFrameTx(header: seq<byte>, hdrPad: nat, queue: seq<Packet>) returns (out: seq<byte>, totalMPDUSize: nat)
    requires AllFormed(queue)
    ensures out == Emitted(header, hdrPad, Filled(queue))
    ensures totalMPDUSize == Wrap(if Filled(queue) == [] then 0 else |out| - hdrPad)
  {
    var blk := Block([], 0, 0, 0);
    ghost var done := [];
    for k := 0 to |queue|
      invariant done == Filled(queue[..k]) && Progress(header, hdrPad, blk, done)
    {
      assert queue[..k + 1] == queue[..k] + [queue[k]];
      FilledSnoc(queue[..k], queue[k]);
      if queue[k].filled {
        blk := Append(header, hdrPad, blk, queue[k], done);
        done := done + [queue[k]];
      }
    }
    assert queue[..|queue|] == queue;
    return blk.out, blk.total;
  }

  // ---- Parsing -----------------------------------------------------------------------------------------

  datatype Sub = Sub(da: seq<byte>, sa: seq<byte>, msdu: seq<byte>)

  /** The subframes of an A-MSDU; None when a subframe is cut short. */
  function Parse(b: seq<byte>): Option<seq<Sub>>
    decreases |b|
  {
    if |b| < LENGTH_AMSDU_SUBFRAMEHEAD then None
    else
      var size := LENGTH_AMSDU_SUBFRAMEHEAD + 256 * b[12] as nat + b[13] as nat;
      if size > |b| then None
      else
        var sub := Sub(b[..6], b[6..12], b[LENGTH_AMSDU_SUBFRAMEHEAD..size]);
        var next := size + Pad(size);
        if next >= |b| then Some([sub])
        else
          var others := Parse(b[next..]);
          if others.None? then None else Some([sub] + others.value)
  }

  function Carried(p: Packet): Sub
    requires WellFormed(p)
  {
    Sub(p.octets[..6], p.octets[6..12], Msdu(p))
  }

  function AllCarried(ps: seq<Packet>): seq<Sub>
    requires AllFormed(ps)
  {
    seq(|ps|, i requires 0 <= i < |ps| => Carried(ps[i]))
  }

  lemma ReadSubframe(p: Packet, tail: seq<byte>)
    requires WellFormed(p) && |Msdu(p)| < USHORT
    ensures var b := Subframe(p) + tail;
            && |b| >= LENGTH_AMSDU_SUBFRAMEHEAD
            && LENGTH_AMSDU_SUBFRAMEHEAD + 256 * b[12] as nat + b[13] as nat == |Subframe(p)|
            && Sub(b[..6], b[6..12], b[LENGTH_AMSDU_SUBFRAMEHEAD..|Subframe(p)|]) == Carried(p)
  {
    var b := Subframe(p) + tail;
    assert b[12] == Be16(|Msdu(p)|)[0] && b[13] == Be16(|Msdu(p)|)[1];
    assert b[..6] == p.octets[..6] && b[6..12] == p.octets[6..12];
    assert b[LENGTH_AMSDU_SUBFRAMEHEAD..|Subframe(p)|] == Msdu(p);
  }

  /** Parsing takes off one padded subframe. */
  lemma ParsePadded(p: Packet, others: seq<byte>)
    requires WellFormed(p) && |Msdu(p)| < USHORT && others != []
    ensures Parse(Padded(p) + others) ==
            if Parse(others).None? then None else Some([Carried(p)] + Parse(others).value)
  {
    var zeros := Zeros(Pad(|Subframe(p)|));
    Regroup(Subframe(p), zeros, others);
    ReadSubframe(p, zeros + others);
    SkipHead(Padded(p), others, 0);
    assert others[0..] == others;
  }

  lemma ParseLast(p: Packet)
    requires WellFormed(p) && |Msdu(p)| < USHORT
    ensures Parse(Subframe(p)) == Some([Carried(p)])
  {
    ReadSubframe(p, []);
    assert Subframe(p) + [] == Subframe(p);
  }

  /** Parsing what was joined gives back every packet's addresses and MSDU, in order, for any number of
      packets whose MSDUs fit the 16-bit length field. */
  lemma {:induction false} RoundTrip(ps: seq<Packet>)
    requires AllFormed(ps) && ps != [] && forall i | 0 <= i < |ps| :: |Msdu(ps[i])| < USHORT
    ensures Parse(Joined(ps)) == Some(AllCarried(ps))
  {
    if |ps| == 1 {
      ParseLast(ps[0]);
      assert AllCarried(ps) == [Carried(ps[0])];
    } else {
      RoundTrip(ps[1..]);
      ParsePadded(ps[0], Joined(ps[1..]));
      assert AllCarried(ps) == [Carried(ps[0])] + AllCarried(ps[1..]);
    }
  }

  /** The whole path: behind the MAC header and its padding the emitted octets parse to the packets that
      could be filled in, and the reported size is the emitted length without the header padding. */
  lemma EmittedParses(header: seq<byte>, hdrPad: nat, done: seq<Packet>, out: seq<byte>)
    requires AllFormed(done) && done != [] && forall i | 0 <= i < |done| :: |Msdu(done[i])| < USHORT
    requires out == Emitted(header, hdrPad, done)
    ensures Parse(out[|header| + hdrPad..]) == Some(AllCarried(done))
  {
    RoundTrip(done);
    assert out[|header| + hdrPad..] == Joined(done);
  }

  /** The padded subframes of a list. */
  function Heads(ps: seq<Packet>): seq<byte>
    requires AllFormed(ps)
  {
    if ps == [] then [] else Padded(ps[0]) + Heads(ps[1..])
  }

  /** Behind the subframes of `ps` the A-MSDU of `ps` and `others` is that of `others`. */
  lemma {:induction false} JoinedSplit(ps: seq<Packet>, others: seq<Packet>)
    requires AllFormed(ps) && AllFormed(others) && others != []
    ensures Joined(ps + others) == Heads(ps) + Joined(others)
  {
    if ps == [] {
      assert ps + others == others;
    } else {
      assert (ps + others)[1..] == ps[1..] + others;
      JoinedSplit(ps[1..], others);
      Regroup(Padded(ps[0]), Heads(ps[1..]), Joined(others));
    }
  }

  /** So every subframe begins on a multiple of four. */
  lemma {:induction false} StartsAligned(ps: seq<Packet>)
    requires AllFormed(ps)
    ensures Aligned(|Heads(ps)|)
  {
    if ps != [] {
      StartsAligned(ps[1..]);
      AlignedSum(|Padded(ps[0])|, |Heads(ps[1..])|);
    }
  }

  lemma AlignedSum(a: nat, b: nat)
    requires Aligned(a) && Aligned(b)
    ensures Aligned(a + b)
  {
  }

  lemma SkipHead(a: seq<byte>, b: seq<byte>, n: nat)
    requires n <= |b|
    ensures (a + b)[|a| + n..] == b[n..]
  {
  }

  /** Which header a packet gets: lengths up to 1500 none, so that the MSDU is the data; AppleTalk's address
      resolution and IPX the bridge-tunnel header, every other type that of RFC 1042, each before type and data. */
  lemma HeaderByType(p: Packet)
    requires WellFormed(p)
    ensures var t := TypeOf(p);
            var n := 256 * t[0] as nat + t[1] as nat;
            Msdu(p) == if n <= 1500 then Data(p)
                       else if t == [0x81, 0x37] || t == [0x80, 0xF3] then [0xAA, 0xAA, 0x03, 0x00, 0x00, 0xF8] + t + Data(p)
                       else [0xAA, 0xAA, 0x03, 0x00, 0x00, 0x00] + t + Data(p)
  {
    assert [] + TypeOf(p) == TypeOf(p);
  }

  /** A packet with a type is recovered from its MSDU: the header names the encapsulation, then come the type
      and the data. */
  lemma TypeRecovered(p: Packet, q: Packet)
    requires WellFormed(p) && WellFormed(q) && Encap(TypeOf(p)) != [] && Encap(TypeOf(q)) != []
    requires Msdu(p) == Msdu(q)
    ensures TypeOf(p) == TypeOf(q) && Data(p) == Data(q)
  {
    assert Msdu(p)[6..8] == TypeOf(p) && Msdu(q)[6..8] == TypeOf(q);
    assert Msdu(p)[8..] == Data(p) && Msdu(q)[8..] == Data(q);
  }
}
