/** Automatic choice of the channel (SelectClearChannelCCA of ap/ap_autoChSel.c): every BSS heard soils the
    channels around its own, and the rules take the cleanest. */
module ChannelSelect {
  import opened Wrappers

  const MAX_NUM_OF_CHANNELS: nat := 59
  const RSSI_TO_DBM_OFFSET: nat := 120
  const CCA_THRESHOLD: nat := 100
  /** The scan table counts with an octet, the false-CCA counter with two. */
  const MAX_BSS: nat := 255
  const MAX_CCA: nat := 65535
  const UNREACHED: nat := 0xFFFF_FFFF

  datatype Ext = None20 | AboveExt | BelowExt

  datatype Bss = Bss(channel: nat, rssi: nat, ext: Ext)

  /** ChannelList: `n` channels, the rest of the array behind them. */
  datatype Band = Band(list: seq<nat>, n: nat, aBand: bool)

  ghost predicate Sound(b: Band) {
    |b.list| == MAX_NUM_OF_CHANNELS && b.n < MAX_NUM_OF_CHANNELS
  }

  // ---- What one BSS soils ----------------------------------------------------------------------------

  /** GetChIdx: the first index of the channel, or the length of the list for a channel that is not in it. */
  function IndexFrom(b: Band, channel: nat, i: nat): (r: nat)
    requires Sound(b) && i <= b.n
    ensures i <= r <= b.n && (r < b.n ==> b.list[r] == channel)
    ensures forall k | i <= k < r :: b.list[k] != channel
    decreases b.n - i
  {
    if i == b.n || b.list[i] == channel then i else IndexFrom(b, channel, i + 1)
  }

  function Index(b: Band, channel: nat): (r: nat)
    requires Sound(b)
    ensures r <= b.n
  {
    IndexFrom(b, channel, 0)
  }

  function Strength(rssi: nat): nat {
    if rssi >= RSSI_TO_DBM_OFFSET - 50 then 50 else if rssi <= RSSI_TO_DBM_OFFSET - 80 then 30 else 40
  }

  function BelowBound(b: Band, e: Ext): nat {
    if e == BelowExt then if b.aBand then 2 else 8 else if b.aBand then 1 else 4
  }

  function AboveBound(b: Band, e: Ext): nat {
    if e == AboveExt then if b.aBand then 2 else 8 else if b.aBand then 1 else 4
  }

  /** No two neighbours from c up to k are more than four channels apart. */
  predicate Close(b: Band, c: nat, k: nat)
    requires Sound(b) && k < MAX_NUM_OF_CHANNELS
  {
    forall l | c < l <= k :: b.list[l] <= b.list[l - 1] + 4
  }

  /** What a BSS adds to channel k. Upwards a gap in the list ends the effect; downwards it only spares the
      channel below it. */
  function Contribution(b: Band, bss: Bss, k: nat): (d: nat)
    requires Sound(b) && k <= MAX_NUM_OF_CHANNELS
    ensures d <= 90
  {
    var c := Index(b, bss.channel);
    if k == c then Strength(bss.rssi) + 40
    else if c < k then
      if k < MAX_NUM_OF_CHANNELS && k - c <= AboveBound(b, bss.ext) && Close(b, c, k) then (9 - (k - c)) * 4 else 0
    else if c - k <= BelowBound(b, bss.ext) && b.list[k + 1] <= b.list[k] + 4 then (9 - (c - k)) * 4
    else 0
  }

  function Total(b: Band, found: seq<Bss>, k: nat): nat
    requires Sound(b) && k <= MAX_NUM_OF_CHANNELS
  {
    if found == [] then 0 else Total(b, found[..|found| - 1], k) + Contribution(b, found[|found| - 1], k)
  }

  // ---- The accumulation loops ----------------------------------------------------------------------------

  method FindIndex(b: Band, channel: nat) returns (idx: nat)
    requires Sound(b)
    ensures idx == Index(b, channel)
  {
    idx := 0;
    while idx < b.n
      invariant idx <= b.n && IndexFrom(b, channel, idx) == Index(b, channel)
    {
      if channel == b.list[idx] {
        break;
      }
      idx := idx + 1;
    }
  }

  /** The loop over the channels above. */
  method SoilAbove(b: Band, bss: Bss, c: nat, dirtyness: array<nat>)
    requires Sound(b) && dirtyness.Length == MAX_NUM_OF_CHANNELS + 1 && c == Index(b, bss.channel)
    modifies dirtyness
    ensures forall k | 0 <= k < dirtyness.Length ::
              dirtyness[k] == old(dirtyness[k]) + if k > c then Contribution(b, bss, k) else 0
  {
    var bound := AboveBound(b, bss.ext);
    var loop := c + 1;
    while loop <= c + bound
      invariant c < loop <= c + bound + 1 && loop <= MAX_NUM_OF_CHANNELS
      invariant Close(b, c, loop - 1)
      invariant forall k | 0 <= k < dirtyness.Length ::
                  dirtyness[k] == old(dirtyness[k]) + if c < k < loop then Contribution(b, bss, k) else 0
    {
      if loop >= MAX_NUM_OF_CHANNELS {
        break;
      }
      if b.list[loop] > b.list[loop - 1] + 4 {
        break;
      }
      dirtyness[loop] := dirtyness[loop] + (9 - (loop - c)) * 4;
      loop := loop + 1;
    }
  }

  /** The loop over the channels below. */
  method SoilBelow(b: Band, bss: Bss, c: nat, dirtyness: array<nat>)
    requires Sound(b) && dirtyness.Length == MAX_NUM_OF_CHANNELS + 1 && c == Index(b, bss.channel)
    modifies dirtyness
    ensures forall k | 0 <= k < dirtyness.Length ::
              dirtyness[k] == old(dirtyness[k]) + if k < c then Contribution(b, bss, k) else 0
  {
    var bound := BelowBound(b, bss.ext);
    var loop := c - 1;
    while loop >= c - bound
      invariant c - bound - 1 <= loop < c && loop >= -1
      invariant forall k | 0 <= k < dirtyness.Length ::
                  dirtyness[k] == old(dirtyness[k]) + if loop < k < c then Contribution(b, bss, k) else 0
    {
      if loop < 0 {
        break;
      }
      if b.list[loop + 1] <= b.list[loop] + 4 {
        dirtyness[loop] := dirtyness[loop] + (9 - (c - loop)) * 4;
      }
      loop := loop - 1;
    }
  }

  /** One entry of the scan table. */
  method Soil(b: Band, bss: Bss, dirtyness: array<nat>)
    requires Sound(b) && dirtyness.Length == MAX_NUM_OF_CHANNELS + 1
    modifies dirtyness
    ensures forall k | 0 <= k < dirtyness.Length :: dirtyness[k] == old(dirtyness[k]) + Contribution(b, bss, k)
  {
    var c := FindIndex(b, bss.channel);
    dirtyness[c] := dirtyness[c] + Strength(bss.rssi);
    dirtyness[c] := dirtyness[c] + 40;
    SoilAbove(b, bss, c, dirtyness);
    SoilBelow(b, bss, c, dirtyness);
  }

  /** The whole scan table, over a cleared array. */
  method Accumulate(b: Band, found: seq<Bss>, dirtyness: array<nat>)
    requires Sound(b) && dirtyness.Length == MAX_NUM_OF_CHANNELS + 1
    requires forall k | 0 <= k < dirtyness.Length :: dirtyness[k] == 0
    modifies dirtyness
    ensures forall k | 0 <= k < dirtyness.Length :: dirtyness[k] == Total(b, found, k)
  {
    for i := 0 to |found|
      invariant forall k | 0 <= k < dirtyness.Length :: dirtyness[k] == Total(b, found[..i], k)
    {
      Soil(b, found[i], dirtyness);
      assert found[..i + 1][..i] == found[..i];
    }
    assert found[..|found|] == found;
  }

  // ---- Order does not matter ---------------------------------------------------------------------------------

  lemma {:induction false} TotalAppend(b: Band, xs: seq<Bss>, ys: seq<Bss>, k: nat)
    requires Sound(b) && k <= MAX_NUM_OF_CHANNELS
    ensures Total(b, xs + ys, k) == Total(b, xs, k) + Total(b, ys, k)
  {
    if ys == [] {
      assert xs + ys == xs;
    } else {
      assert (xs + ys)[..|xs + ys| - 1] == xs + ys[..|ys| - 1];
      TotalAppend(b, xs, ys[..|ys| - 1], k);
    }
  }

  function Without(ys: seq<Bss>, i: nat): (r: seq<Bss>)
    requires i < |ys|
    ensures |r| == |ys| - 1
  {
    ys[..i] + ys[i + 1..]
  }

  /** Taking out one occurrence. */
  lemma TakeOut(b: Band, ys: seq<Bss>, i: nat, k: nat)
    requires Sound(b) && k <= MAX_NUM_OF_CHANNELS && i < |ys|
    ensures Total(b, ys, k) == Total(b, Without(ys, i), k) + Contribution(b, ys[i], k)
    ensures multiset(Without(ys, i)) == multiset(ys) - multiset{ys[i]}
  {
    var front, x, back := ys[..i], ys[i], ys[i + 1..];
    assert ys == front + ([x] + back);
    TotalAppend(b, front, [x] + back, k);
    TotalAppend(b, [x], back, k);
    TotalAppend(b, front, back, k);
    assert [x][..0] == [] && Total(b, [x], k) == Contribution(b, x, k);
  }

  lemma Occurrence(xs: seq<Bss>, ys: seq<Bss>) returns (i: nat)
    requires xs != [] && multiset(xs) == multiset(ys)
    ensures i < |ys| && ys[i] == xs[0]
  {
    assert xs[0] in multiset(ys);
    i :| i < |ys| && ys[i] == xs[0];
  }

  /** The dirtiness depends on what was heard, not on the order of the scan table. */
  lemma {:induction false} OrderFree(b: Band, xs: seq<Bss>, ys: seq<Bss>, k: nat)
    requires Sound(b) && k <= MAX_NUM_OF_CHANNELS && multiset(xs) == multiset(ys)
    ensures Total(b, xs, k) == Total(b, ys, k)
    decreases |xs|
  {
    if xs == [] {
      assert |multiset(ys)| == |ys|;
    } else {
      var i := Occurrence(xs, ys);
      TakeOut(b, ys, i, k);
      TakeOut(b, xs, 0, k);
      OrderFree(b, Without(xs, 0), Without(ys, i), k);
    }
  }

  lemma {:induction false} TotalBound(b: Band, found: seq<Bss>, k: nat)
    requires Sound(b) && k <= MAX_NUM_OF_CHANNELS
    ensures Total(b, found, k) <= 90 * |found|
  {
    if found != [] {
      TotalBound(b, found[..|found| - 1], k);
    }
  }

  // ---- What a BSS adds, by channel numbers ------------------------------------------------------------------

  /** A list of the lower band: consecutive channels. */
  ghost predicate Lower(b: Band) {
    Sound(b) && !b.aBand && b.n > 0 && forall k | 0 <= k < b.n :: b.list[k] == b.list[0] + k
  }

  /** A list of the upper band: neighbours are four numbers apart, or more. */
  ghost predicate Upper(b: Band) {
    && Sound(b) && b.aBand && b.n > 0
    && forall k | 0 < k < b.n :: b.list[k] >= b.list[k - 1] + 4
  }

  /** The strength of a BSS, from -50 dBm up, down to -80 dBm, and between. */
  function Class(dbm: int): nat {
    if dbm >= -50 then 90 else if dbm <= -80 then 70 else 80
  }

  /** In the lower band a BSS adds its class to its own channel, and 36 less four times the distance to every channel
      up to four away, up to eight on the side of its extension. */
  lemma SoilsByDistance(b: Band, bss: Bss, k: nat)
    requires Lower(b) && k < b.n && b.list[0] <= bss.channel < b.list[0] + b.n
    ensures var far: int := b.list[k] - bss.channel;
            Contribution(b, bss, k) ==
              if far == 0 then Class(bss.rssi - 120)
              else if 0 < far <= (if bss.ext == AboveExt then 8 else 4) then 36 - 4 * far
              else if 0 < -far <= (if bss.ext == BelowExt then 8 else 4) then 36 + 4 * far
              else 0
  {
    var c := Index(b, bss.channel);
    assert b.list[bss.channel - b.list[0]] == bss.channel;
    assert c == bss.channel - b.list[0];
    assert k + 1 < b.n ==> b.list[k + 1] == b.list[k] + 1;
    if c < k {
      assert Close(b, c, k);
    }
  }

  /** In the upper band, on the own channel the same; to the channel four numbers away 32, to the one eight away on the
      side of its extension 28; beyond a gap upwards nothing. */
  lemma SoilsUpper(b: Band, bss: Bss, c: nat, k: nat)
    requires Upper(b) && c < b.n && k < b.n && b.list[c] == bss.channel
    requires if k <= c then b.list[c] == b.list[k] + 4 * (c - k) else b.list[k] == b.list[c] + 4 * (k - c)
    ensures var far: int := b.list[k] - bss.channel;
            Contribution(b, bss, k) ==
              if far == 0 then Class(bss.rssi - 120)
              else if far == 4 || far == -4 then 32
              else if (far == 8 && bss.ext == AboveExt) || (far == -8 && bss.ext == BelowExt) then 28
              else 0
  {
    UpperDistinct(b, 0, c);
    assert Index(b, bss.channel) == c;
    UpperSteps(b, if k < c then k else c, if k < c then c else k);
  }

  lemma {:induction false} UpperDistinct(b: Band, i: nat, c: nat)
    requires Upper(b) && i <= c < b.n
    ensures IndexFrom(b, b.list[c], i) == c
    decreases c - i
  {
    if i < c {
      UpperGrows(b, i, c);
      UpperDistinct(b, i + 1, c);
    }
  }

  lemma {:induction false} UpperGrows(b: Band, i: nat, k: nat)
    requires Upper(b) && i <= k < b.n
    ensures b.list[k] >= b.list[i] + 4 * (k - i)
    decreases k
  {
    if i < k {
      UpperGrows(b, i, k - 1);
    }
  }

  /** Four numbers per place in all leaves four numbers for each place. */
  lemma {:induction false} UpperSteps(b: Band, i: nat, k: nat)
    requires Upper(b) && i <= k < b.n && b.list[k] == b.list[i] + 4 * (k - i)
    ensures forall l | i < l <= k :: b.list[l] == b.list[l - 1] + 4
  {
    forall l | i < l <= k ensures b.list[l] == b.list[l - 1] + 4 {
      UpperGrows(b, i, l - 1);
      UpperGrows(b, l, k);
    }
  }

  /** A stronger BSS soils every channel at least as much. */
  lemma StrongerSoilsMore(b: Band, bss: Bss, rssi: nat, k: nat)
    requires Sound(b) && k <= MAX_NUM_OF_CHANNELS && rssi >= bss.rssi
    ensures Contribution(b, bss.(rssi := rssi), k) >= Contribution(b, bss, k)
  {
  }

  // ---- The survey and its costs -----------------------------------------------------------------------------

  /** Per channel: dirtiness, false CCA count, skip mark, and whether its busy time is acceptable. */
  datatype Survey = Survey(band: Band, bw40: bool, dirty: seq<nat>, cca: seq<nat>, skip: seq<bool>, accepted: seq<bool>)

  ghost predicate Surveyed(s: Survey) {
    && Sound(s.band)
    && |s.dirty| == |s.cca| == |s.skip| == |s.accepted| == MAX_NUM_OF_CHANNELS + 1
    && (forall k | 0 <= k < |s.dirty| :: s.dirty[k] <= 90 * MAX_BSS && s.cca[k] <= MAX_CCA)
  }

  /** GetABandChOffset. */
  function ExtOffset(channel: nat): int {
    if channel in {36, 44, 52, 60, 100, 108, 116, 124, 132, 149, 157} then 1
    else if channel in {40, 48, 56, 64, 104, 112, 120, 128, 136, 153, 161} then -1
    else 0
  }

  function At(s: Survey, values: seq<nat>, i: int): nat
    requires Surveyed(s) && |values| == MAX_NUM_OF_CHANNELS + 1
  {
    if 0 <= i < s.band.n then values[i] else 0
  }

  predicate No40(s: Survey, i: nat)
    requires Surveyed(s) && i < s.band.n
  {
    s.bw40 && s.band.aBand && ExtOffset(s.band.list[i]) == 0
  }

  predicate Quiet(s: Survey, i: nat)
    requires Surveyed(s) && i < s.band.n
  {
    !s.skip[i] && s.cca[i] <= CCA_THRESHOLD && s.accepted[i]
  }

  /** Channel 14 ends the scan of Rule 1 in a 40 MHz search of the lower band. */
  predicate Ends(s: Survey, i: nat)
    requires Surveyed(s) && i < s.band.n
  {
    Quiet(s, i) && s.bw40 && !s.band.aBand && s.band.list[i] == 14
  }

  ghost predicate Scanned(s: Survey, i: nat)
    requires Surveyed(s) && i < s.band.n
  {
    forall j: nat | j <= i :: !Ends(s, j)
  }

  /** Dirtiness with the extension channels of a 40 MHz cell. */
  function Cost1(s: Survey, i: nat): nat
    requires Surveyed(s) && i < s.band.n
  {
    var d := s.dirty[i];
    if !s.bw40 then d
    else if s.band.aBand then d + At(s, s.dirty, i + ExtOffset(s.band.list[i]))
    else d + At(s, s.dirty, i - 4) + At(s, s.dirty, i + 4)
  }

  predicate Eligible2(s: Survey, i: nat)
    requires Surveyed(s) && i < s.band.n
  {
    !s.skip[i] && s.cca[i] > CCA_THRESHOLD && !No40(s, i) && s.accepted[i]
  }

  function Cost2(s: Survey, i: nat): nat
    requires Surveyed(s) && i < s.band.n
  {
    var off := ExtOffset(s.band.list[i]);
    s.cca[i] + s.dirty[i] + if off != 0 then At(s, s.cca, i + off) + At(s, s.dirty, i + off) else 0
  }

  ghost predicate Eligible1(s: Survey, i: nat)
    requires Surveyed(s) && i < s.band.n
  {
    Quiet(s, i) && !No40(s, i) && Scanned(s, i)
  }

  /** The lowest index of least cost among the eligible ones below `n`; none if there are none. */
  ghost predicate Best1(s: Survey, n: nat, r: Option<nat>)
    requires Surveyed(s) && n <= s.band.n
  {
    match r
    case None => forall j: nat | j < n :: !Eligible1(s, j)
    case Some(i) => i < n && Eligible1(s, i) && forall j: nat | j < n && Eligible1(s, j) ::
                      if j < i then Cost1(s, i) < Cost1(s, j) else Cost1(s, i) <= Cost1(s, j)
  }

  ghost predicate Best2(s: Survey, n: nat, r: Option<nat>)
    requires Surveyed(s) && n <= s.band.n
  {
    match r
    case None => forall j: nat | j < n :: !Eligible2(s, j)
    case Some(i) => i < n && Eligible2(s, i) && forall j: nat | j < n && Eligible2(s, j) ::
                      if j < i then Cost2(s, i) < Cost2(s, j) else Cost2(s, i) <= Cost2(s, j)
  }

  /** The pairs of the upper band: a channel's extension lies above it exactly if that channel's lies below. */
  lemma ExtensionPairs(channel: nat)
    ensures ExtOffset(channel) == 1 <==> ExtOffset(channel + 4) == -1
    ensures ExtOffset(channel) == 1 ==> ExtOffset(channel + 4) == -1 && channel % 4 == (if channel < 149 then 0 else 1)
  {
  }

  /** The dirtiness of a channel of the lower band by its number; nothing for one that is not listed. */
  function DirtyAt(s: Survey, channel: int): nat
    requires Surveyed(s) && s.band.n > 0
  {
    if s.band.list[0] <= channel < s.band.list[0] + s.band.n then s.dirty[channel - s.band.list[0]] else 0
  }

  /** In the lower band a 40 MHz cell pays for its channel and those four numbers below and above, whichever of the two
      it will extend to; a 20 MHz cell for its channel. */
  lemma CostByChannel(s: Survey, i: nat)
    requires Surveyed(s) && Lower(s.band) && i < s.band.n
    ensures var c: int := s.band.list[i];
            Cost1(s, i) == if s.bw40 then DirtyAt(s, c) + DirtyAt(s, c - 4) + DirtyAt(s, c + 4) else DirtyAt(s, c)
  {
    assert s.band.list[i] == s.band.list[0] + i;
  }

  /** Rule 2 counts false CCAs and dirtiness of a channel and of its partner, at whatever width, where the partner is in
      the list. */
  lemma NoisyCost(s: Survey, i: nat, j: nat)
    requires Surveyed(s) && i < s.band.n && j < s.band.n
    requires (j == i + 1 && s.band.list[j] == s.band.list[i] + 4) || (i == j + 1 && s.band.list[i] == s.band.list[j] + 4)
    ensures var own, both := s.cca[i] + s.dirty[i], s.cca[i] + s.dirty[i] + s.cca[j] + s.dirty[j];
            && (ExtOffset(s.band.list[i]) == j - i ==> Cost2(s, i) == both && Cost2(s, j) == both)
            && (ExtOffset(s.band.list[i]) == 0 ==> Cost2(s, i) == own)
  {
    ExtensionPairs(s.band.list[if i < j then i else j]);
  }

  // ---- The rules -------------------------------------------------------------------------------------------------

  /** Rule 1: least dirtiness among the channels with few false CCAs. */
  method Rule1(s: Survey) returns (candidate: Option<nat>)
    requires Surveyed(s)
    ensures Best1(s, s.band.n, candidate)
  {
    candidate := None;
    var minDirty := UNREACHED;
    var i := 0;
    while i < s.band.n
      invariant i <= s.band.n && Best1(s, i, candidate) && (forall j: nat | j < i :: !Ends(s, j))
      invariant minDirty == if candidate.Some? then Cost1(s, candidate.value) else UNREACHED
    {
      if !s.skip[i] && s.cca[i] <= CCA_THRESHOLD && s.accepted[i] && !No40(s, i) {
        if s.bw40 && !s.band.aBand && s.band.list[i] == 14 {
          assert Ends(s, i);
          break;
        }
        var dirtyness := Cost1(s, i);
        if minDirty > dirtyness {
          minDirty := dirtyness;
          candidate := Some(i);
        }
      }
      i := i + 1;
    }
    assert forall j: nat | i <= j < s.band.n :: !Scanned(s, j);
  }

  /** Rule 2: least false CCAs and dirtiness among the others. */
  method Rule2(s: Survey) returns (candidate: Option<nat>)
    requires Surveyed(s)
    ensures Best2(s, s.band.n, candidate)
  {
    candidate := None;
    var minFalseCca := UNREACHED;
    for i := 0 to s.band.n
      invariant Best2(s, i, candidate)
      invariant minFalseCca == if candidate.Some? then Cost2(s, candidate.value) else UNREACHED
    {
      if !s.skip[i] && s.cca[i] > CCA_THRESHOLD && !No40(s, i) && s.accepted[i] {
        var falseCca := Cost2(s, i);
        if minFalseCca > falseCca {
          minFalseCca := falseCca;
          candidate := Some(i);
        }
      }
    }
  }

  /** Rule 3: from a random place on, the first channel that is neither skipped nor a radar channel to avoid,
      or the last one looked at. */
  method Rule3(b: Band, skipList: seq<nat>, avoid: seq<nat>, base: nat) returns (ch: nat)
    requires Sound(b)
    ensures b.n == 0 ==> ch == 1
    ensures b.n > 0 ==> exists k: nat :: Taken(b, skipList, avoid, base, k) && ch == Looked(b, base, k)
  {
    ch := 1;
    var k := 0;
    while k < b.n
      invariant k <= b.n && forall j: nat | j < k :: Rejected(b, skipList, avoid, base, j)
      invariant k > 0 ==> ch == Looked(b, base, k - 1)
      invariant k == 0 ==> ch == 1
    {
      ch := b.list[(base + k) % b.n];
      if !(ch in skipList || ch in avoid) {
        assert Taken(b, skipList, avoid, base, k) && ch == Looked(b, base, k);
        return;
      }
      assert Rejected(b, skipList, avoid, base, k);
      k := k + 1;
    }
    if b.n > 0 {
      assert Taken(b, skipList, avoid, base, b.n - 1) && ch == Looked(b, base, b.n - 1);
    }
  }

  /** The channel looked at in round k. */
  function Looked(b: Band, base: nat, k: nat): (ch: nat)
    requires Sound(b) && b.n > 0
    ensures exists i: nat :: i < b.n && ch == b.list[i]
  {
    b.list[(base + k) % b.n]
  }

  predicate Rejected(b: Band, skipList: seq<nat>, avoid: seq<nat>, base: nat, k: nat)
    requires Sound(b) && b.n > 0
  {
    Looked(b, base, k) in skipList || Looked(b, base, k) in avoid
  }

  /** Round k is the first that rejects nothing, or the last. */
  ghost predicate Taken(b: Band, skipList: seq<nat>, avoid: seq<nat>, base: nat, k: nat)
    requires Sound(b) && b.n > 0
  {
    && k < b.n && (forall j: nat | j < k :: Rejected(b, skipList, avoid, base, j))
    && (!Rejected(b, skipList, avoid, base, k) || k == b.n - 1)
  }

  /** AutoChannelSkipListSetDirty. */
  method MarkSkipped(b: Band, skipList: seq<nat>) returns (skip: seq<bool>)
    requires Sound(b)
    ensures |skip| == MAX_NUM_OF_CHANNELS + 1
    ensures forall k: nat | k <= MAX_NUM_OF_CHANNELS ::
              skip[k] <==> exists i: nat :: i < |skipList| && k < b.n && Index(b, skipList[i]) == k
  {
    skip := seq(MAX_NUM_OF_CHANNELS + 1, k => false);
    for i := 0 to |skipList|
      invariant |skip| == MAX_NUM_OF_CHANNELS + 1
      invariant forall k: nat | k <= MAX_NUM_OF_CHANNELS ::
                  skip[k] <==> exists j: nat :: j < i && k < b.n && Index(b, skipList[j]) == k
    {
      var idx := FindIndex(b, skipList[i]);
      if idx != b.n {
        skip := skip[idx := true];
      }
    }
  }

  /** The survey the rules work on, after accumulation and marking. */
  ghost predicate SurveyOf(s: Survey, b: Band, bw40: bool, found: seq<Bss>, cca: seq<nat>, accepted: seq<bool>, skipList: seq<nat>)
    requires Sound(b)
  {
    && Surveyed(s) && s.band == b && s.bw40 == bw40 && s.cca == cca && s.accepted == accepted
    && (forall k: nat | k <= MAX_NUM_OF_CHANNELS :: s.dirty[k] == Total(b, found, k))
    && (forall k: nat | k <= MAX_NUM_OF_CHANNELS ::
          s.skip[k] <==> exists i: nat :: i < |skipList| && k < b.n && Index(b, skipList[i]) == k)
  }

  /** The channel is the best of Rule 1; without one, the best of Rule 2; without one, that of Rule 3. */
  ghost predicate Selected(s: Survey, skipList: seq<nat>, avoid: seq<nat>, base: nat, ch: nat)
    requires Surveyed(s)
  {
    var b := s.band;
    if exists j: nat :: j < b.n && Eligible1(s, j)
    then exists i: nat :: i < b.n && Best1(s, b.n, Some(i)) && ch == b.list[i]
    else if exists j: nat :: j < b.n && Eligible2(s, j)
    then exists i: nat :: i < b.n && Best2(s, b.n, Some(i)) && ch == b.list[i]
    else b.n > 0 ==> exists k: nat :: Taken(b, skipList, avoid, base, k) && ch == Looked(b, base, k)
  }

  /** The least cost at the lowest index is at one place only. */
  lemma BestUnique(s: Survey, i: nat, j: nat)
    requires Surveyed(s) && i < s.band.n && j < s.band.n
    ensures Best1(s, s.band.n, Some(i)) && Best1(s, s.band.n, Some(j)) ==> i == j
    ensures Best2(s, s.band.n, Some(i)) && Best2(s, s.band.n, Some(j)) ==> i == j
  {
    assert Best1(s, s.band.n, Some(i)) && Best1(s, s.band.n, Some(j)) ==> Eligible1(s, i) && Eligible1(s, j);
    assert Best2(s, s.band.n, Some(i)) && Best2(s, s.band.n, Some(j)) ==> Eligible2(s, i) && Eligible2(s, j);
  }

  /** A channel of the upper band that has a partner for 40 MHz. */
  predicate Paired(channel: nat) {
    ExtOffset(channel) == 1 || ExtOffset(channel) == -1
  }

  /** What Rule 1 and Rule 2 choose, and when they choose nothing: Rule 1 among the channels with up to a hundred false
      CCAs, Rule 2 among the others; never a skipped channel, one too busy, or, at 40 MHz in the upper band, one
      without a partner. At 40 MHz in the lower band a quiet channel 14 hides itself and what follows it from Rule 1. */
  lemma ChoiceOutcome(s: Survey, r1: Option<nat>, r2: Option<nat>)
    requires Surveyed(s) && Best1(s, s.band.n, r1) && Best2(s, s.band.n, r2)
    ensures r1.Some? ==> s.cca[r1.value] <= 100
    ensures r2.Some? ==> s.cca[r2.value] > 100
    ensures forall r | r in {r1, r2} && r.Some? ::
              !s.skip[r.value] && s.accepted[r.value] && (s.bw40 && s.band.aBand ==> Paired(s.band.list[r.value]))
    ensures forall j: nat | j < s.band.n && !s.skip[j] && s.accepted[j] && (s.bw40 && s.band.aBand ==> Paired(s.band.list[j])) ::
              && (s.cca[j] > 100 ==> r2.Some?)
              && (s.cca[j] <= 100 && !(s.bw40 && !s.band.aBand && HiddenBy14(s, j)) ==> r1.Some?)
  {
    forall j: nat | j < s.band.n && !s.skip[j] && s.accepted[j] && (s.bw40 && s.band.aBand ==> Paired(s.band.list[j]))
      ensures s.cca[j] > 100 ==> r2.Some?
      ensures s.cca[j] <= 100 && !(s.bw40 && !s.band.aBand && HiddenBy14(s, j)) ==> r1.Some?
    {
      assert s.cca[j] > 100 ==> Eligible2(s, j);
      if s.cca[j] <= 100 && !(s.bw40 && !s.band.aBand && HiddenBy14(s, j)) {
        assert forall k: nat | k <= j :: !Ends(s, k);
        assert Eligible1(s, j);
      }
    }
  }

  predicate HiddenBy14(s: Survey, j: nat)
    requires Surveyed(s) && j < s.band.n
  {
    exists k: nat | k <= j :: s.band.list[k] == 14 && !s.skip[k] && s.cca[k] <= 100 && s.accepted[k]
  }

  /** Two scans that heard the same stations in another order lead to the same survey, and so, unless the
      random rule decides, to the same channel. */
  lemma ChoiceOrderFree(s: Survey, t: Survey, b: Band, bw40: bool, xs: seq<Bss>, ys: seq<Bss>, cca: seq<nat>,
                        accepted: seq<bool>, skipList: seq<nat>)
    requires Sound(b) && multiset(xs) == multiset(ys)
    requires SurveyOf(s, b, bw40, xs, cca, accepted, skipList) && SurveyOf(t, b, bw40, ys, cca, accepted, skipList)
    ensures s == t
  {
    forall k: nat | k <= MAX_NUM_OF_CHANNELS ensures s.dirty[k] == t.dirty[k] {
      OrderFree(b, xs, ys, k);
    }
    assert s.dirty == t.dirty && s.skip == t.skip;
  }

  /** A station on a channel that is not in the list is filed behind its end: it still soils the last channel
      of the list, unless a gap of more than four lies between the list and what follows it. */
  lemma UnlistedSoilsLast(b: Band, bss: Bss)
    requires Sound(b) && b.n > 0 && forall i | 0 <= i < b.n :: b.list[i] != bss.channel
    ensures Contribution(b, bss, b.n - 1) == if b.list[b.n] <= b.list[b.n - 1] + 4 then 32 else 0
  {
    assert Index(b, bss.channel) == b.n;
  }

  /** SelectClearChannelCCA. */
  method SelectClearChannel(b: Band, bw40: bool, found: seq<Bss>, cca: seq<nat>, accepted: seq<bool>,
                            skipList: seq<nat>, avoid: seq<nat>, base: nat)
    returns (ch: nat, ghost s: Survey)
    requires Sound(b) && |found| <= MAX_BSS && |cca| == |accepted| == MAX_NUM_OF_CHANNELS + 1
    requires forall k | 0 <= k < |cca| :: cca[k] <= MAX_CCA
    ensures SurveyOf(s, b, bw40, found, cca, accepted, skipList)
    ensures Selected(s, skipList, avoid, base, ch)
    ensures if b.n > 0 then exists i: nat :: i < b.n && ch == b.list[i] else ch == 1
  {
    var dirtyness := new nat[MAX_NUM_OF_CHANNELS + 1](k => 0);
    Accumulate(b, found, dirtyness);
    var skip := MarkSkipped(b, skipList);
    forall k | 0 <= k < dirtyness.Length ensures dirtyness[k] <= 90 * MAX_BSS {
      TotalBound(b, found, k);
    }
    var survey := Survey(b, bw40, dirtyness[..], cca, skip, accepted);
    s := survey;
    var candidate := Rule1(survey);
    if candidate.Some? {
      return b.list[candidate.value], s;
    }
    candidate := Rule2(survey);
    if candidate.Some? {
      return b.list[candidate.value], s;
    }
    ch := Rule3(b, skipList, avoid, base);
  }
}
