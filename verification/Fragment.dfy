/** Fragmentation of a frame without software encryption (AP_Fragment_Frame_Tx of ap/ap_data.c), and the
    estimate of the number of fragments that APSendPacket reserves. */
module Fragment {
  import opened Octets
  import opened Arithmetic

  const LENGTH_CRC: nat := 4
  const LENGTH_802_11: nat := 24
  const LENGTH_802_3: nat := 14
  const LENGTH_802_1_H: nat := 8
  const MIN_FRAG_THRESHOLD: nat := 256
  /** The fragment number field has four bits, the loop's counter eight. */
  const FRAG_FIELD: nat := 16
  const UCHAR: nat := 256

  /** A fragment on the way: number field, More Fragments, the LLC/SNAP octets in its header buffer, data. */
  datatype Mpdu = Mpdu(number: nat, more: bool, llc: seq<byte>, data: seq<byte>)

  function Body(f: Mpdu): seq<byte> {
    f.llc + f.data
  }

  // ---- What the loop should make ----------------------------------------------------------------

  /** A payload cut into pieces of `size` octets, the last one shorter or equal. */
  function Slices(payload: seq<byte>, size: nat): (r: seq<seq<byte>>)
    requires size > 0
    ensures |r| > 0
  {
    if |payload| <= size then [payload] else [payload[..size]] + Slices(payload[size..], size)
  }

  function Concat(pieces: seq<seq<byte>>): seq<byte> {
    if pieces == [] then [] else pieces[0] + Concat(pieces[1..])
  }

  /** Nothing is lost. */
  lemma {:induction false} SlicesConcat(payload: seq<byte>, size: nat)
    requires size > 0
    ensures Concat(Slices(payload, size)) == payload
  {
    if |payload| <= size {
      assert Concat([payload]) == payload + Concat([]);
    } else {
      SlicesConcat(payload[size..], size);
      assert Slices(payload, size)[1..] == Slices(payload[size..], size);
    }
  }

  /** Every piece but the last is full, and the last is not over-full. */
  lemma {:induction false} SliceSizes(payload: seq<byte>, size: nat, k: nat)
    requires size > 0 && k < |Slices(payload, size)|
    ensures |Slices(payload, size)[k]| <= size
    ensures k + 1 < |Slices(payload, size)| ==> |Slices(payload, size)[k]| == size
    ensures k + 1 == |Slices(payload, size)| && k > 0 ==> |Slices(payload, size)[k]| > 0
  {
    if |payload| > size && k > 0 {
      SliceSizes(payload[size..], size, k - 1);
    }
  }

  /** The number of pieces: one for a short payload, else the quotient rounded up. */
  function Pieces(length: nat, size: nat): (n: nat)
    requires size > 0
  {
    if length <= size then 1 else 1 + Pieces(length - size, size)
  }

  lemma {:induction false} SlicesCount(payload: seq<byte>, size: nat)
    requires size > 0
    ensures |Slices(payload, size)| == Pieces(|payload|, size)
  {
    if |payload| > size {
      SlicesCount(payload[size..], size);
    }
  }

  function Low4(n: nat): nat {
    n % FRAG_FIELD
  }

  function Low8(n: nat): nat {
    n % UCHAR
  }

  lemma LowNext(n: nat)
    ensures Low4(Low4(n) + 1) == Low4(n + 1) && Low8(Low8(n) + 1) == Low8(n + 1)
  {
  }

  // ---- The loop ------------------------------------------------------------------------------------

  /** The fragments so far are the first pieces, with More Fragments set on each. */
  ghost predicate Cut(frags: seq<Mpdu>, pieces: seq<seq<byte>>, llc: seq<byte>) {
    && |frags| <= |pieces|
    && forall k | 0 <= k < |frags| ::
         && frags[k].number == Low4(k) && Body(frags[k]) == pieces[k]
         && (frags[k].more <==> k + 1 < |pieces|)
         && frags[k].llc == if k == 0 then llc else []
  }

  lemma CutNext(frags: seq<Mpdu>, pieces: seq<seq<byte>>, llc: seq<byte>, f: Mpdu)
    requires Cut(frags, pieces, llc) && |frags| < |pieces|
    requires f.number == Low4(|frags|) && Body(f) == pieces[|frags|] && (f.more <==> |frags| + 1 < |pieces|)
    requires f.llc == if frags == [] then llc else []
    ensures Cut(frags + [f], pieces, llc)
  {
  }

  /** One fragment from what remains: full and marked, or the last. */
  method Cutting(freeMpduSize: nat, number: nat, head: seq<byte>, data: seq<byte>, ghost size: nat)
    returns (f: Mpdu, rest: seq<byte>)
    requires size > 0 && size == freeMpduSize + |head|
    ensures f.number == number && f.llc == head
    ensures f.more <==> |data| > freeMpduSize
    ensures f.more ==> |rest| < |data| || freeMpduSize == 0
    ensures Slices(head + data, size) == if f.more then [Body(f)] + Slices(rest, size) else [Body(f)]
    ensures f.more ==> |rest| == |data| - freeMpduSize
  {
    if |data| <= freeMpduSize {
      f, rest := Mpdu(number, false, head, data), [];
    } else {
      assert (head + data)[..size] == head + data[..freeMpduSize] && (head + data)[size..] == data[freeMpduSize..];
      f, rest := Mpdu(number, true, head, data[..freeMpduSize]), data[freeMpduSize..];
    }
  }

  /** AP_Fragment_Frame_Tx: `headerLen` is the MAC header with its QoS octets, `llc` the encapsulation (empty
      or eight octets), `src` the data. Gives the fragments and the number noted on the last one. */
  method FragmentFrameTx(threshold: nat, headerLen: nat, llc: seq<byte>, src: seq<byte>)
    returns (frags: seq<Mpdu>, totalFragNum: nat)
    requires threshold >= MIN_FRAG_THRESHOLD && LENGTH_CRC + headerLen + LENGTH_802_1_H < MIN_FRAG_THRESHOLD
    requires |llc| == 0 || |llc| == LENGTH_802_1_H
    ensures var pieces := Slices(llc + src, threshold - LENGTH_CRC - headerLen);
            |frags| == |pieces| && Cut(frags, pieces, llc)
    ensures totalFragNum == Low8(|frags| - 1)
  {
    ghost var size := threshold - LENGTH_CRC - headerLen;
    ghost var pieces := Slices(llc + src, size);
    var data, mpduHeaderLen, head := src, headerLen + |llc|, llc;
    var fragNum, number := 0, 0;
    frags := [];
    while true
      invariant mpduHeaderLen == headerLen + |head| && |head| <= LENGTH_802_1_H
      invariant head == if frags == [] then llc else []
      invariant fragNum == Low8(|frags|) && number == Low4(|frags|)
      invariant |frags| < |pieces| && pieces[|frags|..] == Slices(head + data, size)
      invariant Cut(frags, pieces, llc)
      decreases |data|
    {
      var f, rest := Cutting(threshold - LENGTH_CRC - mpduHeaderLen, number, head, data, size);
      assert pieces[|frags|] == pieces[|frags|..][0] == Body(f);
      CutNext(frags, pieces, llc, f);
      frags := frags + [f];
      if !f.more {
        totalFragNum := fragNum;
        break;
      }
      assert pieces[|frags|..] == pieces[|frags| - 1..][1..];
      LowNext(|frags| - 1);
      mpduHeaderLen, head, data := mpduHeaderLen - |head|, [], rest;
      fragNum, number := Low8(fragNum + 1), Low4(number + 1);
      assert head + data == rest;
    }
  }

  // ---- What the fragments are worth ------------------------------------------------------------------

  function Bodies(frags: seq<Mpdu>): (r: seq<seq<byte>>)
    ensures |r| == |frags| && forall k | 0 <= k < |r| :: r[k] == Body(frags[k])
  {
    seq(|frags|, k requires 0 <= k < |frags| => Body(frags[k]))
  }

  /** The fragments reassemble to the encapsulated payload, none is over the threshold, More Fragments is clear
      exactly on the last one, and the encapsulation is in the first one only. */
  lemma Reassembles(threshold: nat, headerLen: nat, llc: seq<byte>, src: seq<byte>, frags: seq<Mpdu>)
    requires threshold >= MIN_FRAG_THRESHOLD && LENGTH_CRC + headerLen + LENGTH_802_1_H < MIN_FRAG_THRESHOLD
    requires var pieces := Slices(llc + src, threshold - LENGTH_CRC - headerLen);
             |frags| == |pieces| && Cut(frags, pieces, llc)
    ensures |frags| == Pieces(|llc| + |src|, threshold - LENGTH_CRC - headerLen)
    ensures Concat(Bodies(frags)) == llc + src
    ensures forall k | 0 <= k < |frags| :: headerLen + |Body(frags[k])| + LENGTH_CRC <= threshold
    ensures forall k | 0 <= k < |frags| :: frags[k].more <==> k < |frags| - 1
  {
    var size := threshold - LENGTH_CRC - headerLen;
    var pieces := Slices(llc + src, size);
    assert Bodies(frags) == pieces;
    SlicesConcat(llc + src, size);
    SlicesCount(llc + src, size);
    forall k | 0 <= k < |frags| ensures |Body(frags[k])| <= size {
      SliceSizes(llc + src, size, k);
    }
  }

  /** The numbers run from 0 to n - 1 exactly when at most sixteen fragments are made. */
  lemma NumbersRun(frags: seq<Mpdu>)
    requires forall k | 0 <= k < |frags| :: frags[k].number == Low4(k)
    ensures (forall k | 0 <= k < |frags| :: frags[k].number == k) <==> |frags| <= FRAG_FIELD
  {
    if |frags| > FRAG_FIELD {
      assert frags[FRAG_FIELD].number == 0;
    }
  }

  lemma {:induction false} FewPieces(length: nat, size: nat, n: nat)
    requires size > 0 && length <= n * size && n > 0
    ensures Pieces(length, size) <= n
    decreases n
  {
    if length > size {
      assert n > 1;
      assert length - size <= (n - 1) * size;
      FewPieces(length - size, size, n - 1);
    }
  }

  /** An MSDU of at most the largest size, 2304 octets, with its encapsulation and an eight-octet MIC, makes at most
      sixteen fragments at every threshold, with or without QoS, and their numbers run from 0. */
  lemma LargestMsdu(threshold: nat, headerLen: nat, llc: seq<byte>, src: seq<byte>, frags: seq<Mpdu>)
    requires threshold >= MIN_FRAG_THRESHOLD && headerLen <= 36 && |llc| + |src| <= 2304 + LENGTH_802_1_H + 8
    requires var pieces := Slices(llc + src, threshold - LENGTH_CRC - headerLen);
             |frags| == |pieces| && Cut(frags, pieces, llc)
    ensures |frags| <= FRAG_FIELD && forall k | 0 <= k < |frags| :: frags[k].number == k
  {
    var size, length := threshold - LENGTH_CRC - headerLen, |llc| + |src|;
    assert size >= 216 && 2320 <= 16 * 216 <= 16 * size;
    FewPieces(length, size, 16);
    SlicesCount(llc + src, size);
    NumbersRun(frags);
  }

  // ---- The estimate ------------------------------------------------------------------------------------

  /** The number of fragments reserved for a packet of `total` octets in 802.3 form. */
  function Estimate(threshold: nat, total: nat): nat
    requires threshold > LENGTH_802_11 + LENGTH_CRC && total >= LENGTH_802_3
  {
    var allow := threshold - LENGTH_802_11 - LENGTH_CRC;
    var size := total - LENGTH_802_3 + LENGTH_802_1_H;
    if size >= allow then size / allow + 1 else 1
  }

  lemma {:induction false} PiecesQuotient(length: nat, size: nat)
    requires size > 0 && length > 0
    ensures Pieces(length, size) == (length - 1) / size + 1
  {
    if length > size {
      PiecesQuotient(length - size, size);
      DivStep(length - 1, size);
    } else {
      DivSmall(length - 1, size);
    }
  }

  /** For a frame without QoS, VLAN tag and encryption that gets an LLC/SNAP header, the estimate is the number
      of fragments, or one more exactly when they all come out full. */
  lemma EstimateTight(threshold: nat, total: nat)
    requires threshold >= MIN_FRAG_THRESHOLD && total >= LENGTH_802_3
    ensures var size := threshold - LENGTH_CRC - LENGTH_802_11;
            var length := total - LENGTH_802_3 + LENGTH_802_1_H;
            var n := Pieces(length, size);
            && Estimate(threshold, total) == (if length % size == 0 then n + 1 else n)
            && n <= Estimate(threshold, total) <= n + 1
  {
    var size := threshold - LENGTH_CRC - LENGTH_802_11;
    var length := total - LENGTH_802_3 + LENGTH_802_1_H;
    PiecesQuotient(length, size);
    var q, r := length / size, length % size;
    assert length == size * q + r;
    if r == 0 {
      assert q > 0;
      assert length - 1 == size * (q - 1) + (size - 1);
      DivUnique(length - 1, size, q - 1, size - 1);
    } else {
      DivUnique(length - 1, size, q, r - 1);
    }
    if length < size {
      DivSmall(length, size);
    }
  }
}
