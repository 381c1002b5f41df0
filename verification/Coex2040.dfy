/** 20/40 MHz coexistence at start-up: the marks beacons leave during the overlap scan (APPeerBeaconAction of
    ap/ap_sync.c) and the verdict on them (APOverlappingBSSScan of ap/ap.c). */
module Coex2040 {
  import opened Wrappers

  /** EFFECTED_CH_PRIMARY, EFFECTED_CH_SECONDARY and EFFECTED_CH_LEGACY as separate flags. */
  datatype Mark = Mark(primary: bool, secondary: bool, legacy: bool)

  const NO_MARK: Mark := Mark(false, false, false)

  datatype Ext = NoExt | AboveExt | BelowExt

  /** A beacon heard; `ht` when it carries both HT elements. */
  datatype Beacon = Beacon(channel: nat, ht: bool, ext: Ext)

  /** BssCoexApCnt is an octet. */
  const OCTET: nat := 256

  // ---- Marks of one beacon ---------------------------------------------------------------------------

  /** The index of a beacon's secondary channel, when there is one in the list. */
  function Secondary(n: nat, b: Beacon, index: nat): (r: Option<nat>)
    requires index < n
    ensures r.Some? ==> r.value < n
  {
    var step := if b.channel > 14 then 1 else 4;
    match b.ext
    case NoExt => None
    case BelowExt => if index >= step then Some(index - step) else None
    case AboveExt => if index + step < n then Some(index + step) else None
  }

  predicate Distinct(list: seq<nat>) {
    forall i, j | 0 <= i < j < |list| :: list[i] != list[j]
  }

  /** Beacon b has channel k for its own. */
  predicate Own(list: seq<nat>, b: Beacon, k: nat) {
    k < |list| && list[k] == b.channel
  }

  /** Beacon b has channel k for its secondary channel. */
  ghost predicate SecondaryAt(list: seq<nat>, b: Beacon, k: nat) {
    b.ht && exists i: nat :: Own(list, b, i) && Secondary(|list|, b, i) == Some(k)
  }

  /** A beacon that counts towards the threshold: legacy, or on other channels than ours. */
  predicate Foreign(list: seq<nat>, ourChannel: nat, ourExt: Ext, b: Beacon) {
    b.channel in list && (!b.ht || b.channel != ourChannel || b.ext != ourExt)
  }

  /** The octet counter, after one more beacon that counts or does not. */
  function Bumped(count: nat, foreign: bool): (r: nat)
    requires count < OCTET
    ensures r < OCTET
  {
    if foreign then (count + 1) % OCTET else count
  }

  lemma BumpedCount(n: nat, foreign: bool)
    ensures Bumped(n % OCTET, foreign) == (n + if foreign then 1 else 0) % OCTET
  {
  }

  /** What the marks say about the beacons heard. */
  ghost predicate Tells(list: seq<nat>, marks: seq<Mark>, heard: seq<Beacon>)
    requires |marks| == |list|
  {
    forall k: nat | k < |list| ::
      && (marks[k].primary <==> exists b | b in heard :: b.ht && Own(list, b, k))
      && (marks[k].legacy <==> exists b | b in heard :: !b.ht && Own(list, b, k))
      && (marks[k].secondary <==> exists b | b in heard :: SecondaryAt(list, b, k))
  }

  /** The marks one beacon adds, on its own channel at `index` and on its secondary one. */
  ghost predicate Marked(list: seq<nat>, was: seq<Mark>, now: seq<Mark>, b: Beacon, index: nat)
    requires Own(list, b, index)
  {
    && |was| == |now| == |list|
    && forall k: nat | k < |list| ::
         now[k] == Mark(was[k].primary || (b.ht && k == index),
                        was[k].secondary || (b.ht && Secondary(|list|, b, index) == Some(k)),
                        was[k].legacy || (!b.ht && k == index))
  }

  lemma TellsNext(list: seq<nat>, was: seq<Mark>, now: seq<Mark>, b: Beacon, index: nat, heard: seq<Beacon>)
    requires Distinct(list) && |was| == |list| && Own(list, b, index) && Marked(list, was, now, b, index)
    requires Tells(list, was, heard)
    ensures Tells(list, now, heard + [b])
  {
    var all := heard + [b];
    assert forall c :: c in all <==> c in heard || c == b;
    forall k: nat | k < |list|
      ensures (now[k].primary <==> exists c | c in all :: c.ht && Own(list, c, k))
      ensures (now[k].legacy <==> exists c | c in all :: !c.ht && Own(list, c, k))
      ensures (now[k].secondary <==> exists c | c in all :: SecondaryAt(list, c, k))
    {
      assert Own(list, b, k) <==> k == index;
      assert SecondaryAt(list, b, k) <==> b.ht && Secondary(|list|, b, index) == Some(k);
    }
  }

  lemma TellsSame(list: seq<nat>, marks: seq<Mark>, b: Beacon, heard: seq<Beacon>)
    requires |marks| == |list| && Tells(list, marks, heard) && forall k: nat | k < |list| :: !Own(list, b, k)
    ensures Tells(list, marks, heard + [b])
  {
    var all := heard + [b];
    assert forall c :: c in all <==> c in heard || c == b;
  }

  // ---- The scanned range ---------------------------------------------------------------------------------

  /** Indices of the primary and secondary channel, and of the first and last channel scanned. */
  datatype Range = Range(primary: nat, secondary: nat, first: nat, last: nat)

  /** The range of a cell in the lower band whose channel is at `index`. */
  function RangeOf(n: nat, index: nat, above: bool): (r: Range)
    requires index < n
    ensures r.primary == index && r.secondary < n && r.first <= r.primary <= r.last < n && r.first <= r.secondary <= r.last
  {
    if above then
      var sec := if index + 4 < n then index + 4 else n - 1;
      Range(index, sec, if index >= 3 then index - 3 else 0, if sec + 3 < n then sec + 3 else n - 1)
    else
      var sec := if index >= 4 then index - 4 else 0;
      Range(index, sec, if sec >= 3 then sec - 3 else 0, if index + 3 < n then index + 3 else n - 1)
  }

  ghost predicate Disturbs(m: Mark, r: Range, k: nat) {
    ((m.primary || m.legacy) && k != r.primary) || (m.secondary && k != r.secondary)
  }

  /** Some beacon has its own channel in the range away from our primary channel, or its secondary channel away
      from our secondary one. */
  ghost predicate Disturbed(list: seq<nat>, r: Range, heard: seq<Beacon>) {
    exists k: nat, b: Beacon | r.first <= k <= r.last && b in heard :: Away(list, r, b, k)
  }

  ghost predicate Away(list: seq<nat>, r: Range, b: Beacon, k: nat) {
    (Own(list, b, k) && k != r.primary) || (SecondaryAt(list, b, k) && k != r.secondary)
  }

  /** The cell is at `index`, and `needed` says whether the beacons disturb its range. */
  ghost predicate Ours(list: seq<nat>, ourChannel: nat, above: bool, heard: seq<Beacon>, index: nat, needed: bool) {
    && index < |list| && list[index] == ourChannel
    && (needed <==> Disturbed(list, RangeOf(|list|, index, above), heard))
  }

  class OverlapScan {
    /** The listed channels and the marks on them. */
    const list: seq<nat>
    const effected: array<Mark>
    var bssCoexApCnt: nat
    var threshold: nat

    ghost predicate Valid()
      reads this
    {
      effected.Length == |list| && Distinct(list) && bssCoexApCnt < OCTET
    }

    /** The clearing loop before the scan. */
    method Clear()
      requires Valid()
      modifies this`bssCoexApCnt, effected
      ensures Valid() && Tells(list, effected[..], []) && bssCoexApCnt == 0
    {
      for index := 0 to |list|
        invariant forall k | 0 <= k < index :: effected[k] == NO_MARK
      {
        effected[index] := NO_MARK;
      }
      bssCoexApCnt := 0;
    }

    /** The marks of one beacon on its own channel at `index`, and on the secondary one. */
    method MarkAt(b: Beacon, index: nat)
      requires Valid() && Own(list, b, index)
      modifies effected
      ensures Marked(list, old(effected[..]), effected[..], b, index)
    {
      if b.ht {
        effected[index] := effected[index].(primary := true);
        var sec := Secondary(|list|, b, index);
        if sec.Some? {
          effected[sec.value] := effected[sec.value].(secondary := true);
        }
      } else {
        effected[index] := effected[index].(legacy := true);
      }
    }

    /** The loop over the channel list: the beacon's channel is there at most once. */
    method MarkAll(b: Beacon, foreign: bool) returns (ghost at: Option<nat>)
      requires Valid()
      modifies this`bssCoexApCnt, effected
      ensures Valid()
      ensures at.None? ==> effected[..] == old(effected[..]) && bssCoexApCnt == old(bssCoexApCnt)
      ensures at.None? ==> forall k: nat | k < |list| :: !Own(list, b, k)
      ensures at.Some? ==> Own(list, b, at.value) && Marked(list, old(effected[..]), effected[..], b, at.value)
      ensures at.Some? ==> bssCoexApCnt == Bumped(old(bssCoexApCnt), foreign)
    {
      at := None;
      for index := 0 to |list|
        invariant Valid()
        invariant at.None? ==> effected[..] == old(effected[..]) && bssCoexApCnt == old(bssCoexApCnt)
        invariant at.None? ==> forall k: nat | k < index :: !Own(list, b, k)
        invariant at.Some? ==> at.value < index && Own(list, b, at.value)
        invariant at.Some? ==> Marked(list, old(effected[..]), effected[..], b, at.value)
        invariant at.Some? ==> bssCoexApCnt == Bumped(old(bssCoexApCnt), foreign)
      {
        if list[index] == b.channel {
          MarkAt(b, index);
          bssCoexApCnt := Bumped(bssCoexApCnt, foreign);
          at := Some(index);
        }
      }
    }

    /** The overlap-scan part of APPeerBeaconAction. */
    method PeerBeacon(b: Beacon, ourChannel: nat, ourExt: Ext, ghost heard: seq<Beacon>)
      requires Valid() && Tells(list, effected[..], heard)
      modifies this`bssCoexApCnt, effected
      ensures Valid() && Tells(list, effected[..], heard + [b])
      ensures bssCoexApCnt == if b.channel in list && (!b.ht || b.channel != ourChannel || b.ext != ourExt)
                              then (old(bssCoexApCnt) + 1) % 256 else old(bssCoexApCnt)
    {
      ghost var was := effected[..];
      ghost var at := MarkAll(b, !b.ht || ourChannel != b.channel || b.ext != ourExt);
      if at.Some? {
        TellsNext(list, was, effected[..], b, at.value, heard);
        assert b.channel in list;
      } else {
        TellsSame(list, was, b, heard);
        forall k | 0 <= k < |list| ensures list[k] != b.channel {
          assert !Own(list, b, k);
        }
      }
    }

    /** The loop over the scan result. */
    method NeedFallBack(r: Range) returns (needFallBack: bool)
      requires Valid() && r.last < |list|
      ensures needFallBack <==> exists k: nat | r.first <= k <= r.last :: Disturbs(effected[k], r, k)
    {
      needFallBack := false;
      var index := r.first;
      while index <= r.last
        invariant r.first <= index && (index <= r.last + 1 || index == r.first)
        invariant needFallBack <==> exists k: nat | r.first <= k < index && k <= r.last :: Disturbs(effected[k], r, k)
      {
        if (effected[index].primary || effected[index].legacy) && index != r.primary {
          needFallBack := true;
        }
        if effected[index].secondary && index != r.secondary {
          needFallBack := true;
        }
        index := index + 1;
      }
    }

    /** APOverlappingBSSScan for a 40 MHz cell in the lower band, hearing these beacons while it scans: does it
        fall back to 20 MHz? None when its channel is not listed. */
    method OverlappingScan(ourChannel: nat, above: bool, heard: seq<Beacon>) returns (fallBack: Option<bool>, ghost needed: bool)
      requires Valid()
      modifies this`bssCoexApCnt, effected
      ensures Valid()
      ensures fallBack.None? <==> ourChannel !in list
      ensures fallBack.Some? ==> exists index: nat :: Ours(list, ourChannel, above, heard, index, needed)
      ensures fallBack.Some? ==> fallBack.value == (needed && bssCoexApCnt > threshold)
      ensures fallBack.Some? ==> bssCoexApCnt == ForeignCount(list, ourChannel, if above then AboveExt else BelowExt, heard) % OCTET
    {
      needed := false;
      var index := 0;
      while index < |list| && list[index] != ourChannel
        invariant index <= |list| && forall k | 0 <= k < index :: list[k] != ourChannel
      {
        index := index + 1;
      }
      if index == |list| {
        return None, needed;
      }
      var range := RangeOf(|list|, index, above);
      var ourExt := if above then AboveExt else BelowExt;
      Clear();
      for i := 0 to |heard|
        invariant Valid() && Tells(list, effected[..], heard[..i])
        invariant bssCoexApCnt == ForeignCount(list, ourChannel, ourExt, heard[..i]) % OCTET
      {
        assert heard[..i + 1] == heard[..i] + [heard[i]];
        BumpedCount(ForeignCount(list, ourChannel, ourExt, heard[..i]), Foreign(list, ourChannel, ourExt, heard[i]));
        PeerBeacon(heard[i], ourChannel, ourExt, heard[..i]);
        assert heard[..i + 1][..i] == heard[..i];
      }
      assert heard[..|heard|] == heard;
      var needFallBack := NeedFallBack(range);
      MarksDecide(list, effected[..], range, heard);
      needed := needFallBack;
      assert Ours(list, ourChannel, above, heard, index, needed);
      return Some(needFallBack && bssCoexApCnt > threshold), needed;
    }
  }

  // ---- What the verdict is worth -----------------------------------------------------------------------

  /** The beacons that count towards the threshold. */
  function ForeignCount(list: seq<nat>, ourChannel: nat, ourExt: Ext, heard: seq<Beacon>): nat {
    if heard == [] then 0
    else ForeignCount(list, ourChannel, ourExt, heard[..|heard| - 1])
         + if Foreign(list, ourChannel, ourExt, heard[|heard| - 1]) then 1 else 0
  }

  /** The marks disturb the range exactly when the beacons do. */
  lemma MarksDecide(list: seq<nat>, marks: seq<Mark>, r: Range, heard: seq<Beacon>)
    requires |marks| == |list| && Tells(list, marks, heard) && r.last < |list|
    ensures (exists k: nat | r.first <= k <= r.last :: Disturbs(marks[k], r, k)) <==> Disturbed(list, r, heard)
  {
    if k: nat :| r.first <= k <= r.last && Disturbs(marks[k], r, k) {
      if marks[k].primary && k != r.primary {
        var b :| b in heard && b.ht && Own(list, b, k);
        assert Away(list, r, b, k);
      } else if marks[k].legacy && k != r.primary {
        var b :| b in heard && !b.ht && Own(list, b, k);
        assert Away(list, r, b, k);
      } else {
        var b :| b in heard && SecondaryAt(list, b, k);
        assert Away(list, r, b, k);
      }
    }
    if k: nat, b: Beacon :| r.first <= k <= r.last && b in heard && Away(list, r, b, k) {
      assert Disturbs(marks[k], r, k);
    }
  }

  // ---- The permitted formula ---------------------------------------------------------------------------

  /** The centre frequency of a channel of the lower band, in MHz. */
  function Frequency(channel: nat): nat {
    if channel == 14 then 2484 else 2407 + 5 * channel
  }

  /** The channel set C of the formula: the centre of channel k lies within 25 MHz of the middle between those of
      the primary and the secondary channel. */
  predicate Affected(list: seq<nat>, r: Range, k: nat)
    requires r.primary < |list| && r.secondary < |list|
  {
    k < |list| &&
    var twice := Frequency(list[r.primary]) + Frequency(list[r.secondary]);
    twice - 50 <= 2 * Frequency(list[k]) <= twice + 50
  }

  /** A 20/40 MHz beacon on a listed channel has its secondary channel four numbers above or below, as it says. */
  predicate Extends(list: seq<nat>, b: Beacon, k: nat) {
    && b.ht && b.channel in list && k < |list|
    && ((b.ext == AboveExt && list[k] == b.channel + 4) || (b.ext == BelowExt && list[k] + 4 == b.channel))
  }

  /** In the list, the secondary channels by index are those by number. */
  ghost predicate OnGrid(list: seq<nat>) {
    forall b: Beacon, k: nat :: SecondaryAt(list, b, k) <==> Extends(list, b, k)
  }

  /** The channels of C that are the own channel of some 20/40 MHz beacon, or of any beacon, or the secondary
      channel of one. */
  ghost predicate OP(list: seq<nat>, r: Range, heard: seq<Beacon>, c: nat)
    requires r.primary < |list| && r.secondary < |list|
  {
    exists k: nat, b: Beacon | Affected(list, r, k) && b in heard :: list[k] == c && b.ht && Own(list, b, k)
  }

  ghost predicate OT(list: seq<nat>, r: Range, heard: seq<Beacon>, c: nat)
    requires r.primary < |list| && r.secondary < |list|
  {
    exists k: nat, b: Beacon | Affected(list, r, k) && b in heard :: list[k] == c && Own(list, b, k)
  }

  ghost predicate OS(list: seq<nat>, r: Range, heard: seq<Beacon>, c: nat)
    requires r.primary < |list| && r.secondary < |list|
  {
    exists k: nat, b: Beacon | Affected(list, r, k) && b in heard :: list[k] == c && Extends(list, b, k)
  }

  /** The formula "20/40 Operation Permitted" over those sets. */
  ghost predicate Permitted(list: seq<nat>, r: Range, heard: seq<Beacon>)
    requires r.primary < |list| && r.secondary < |list|
  {
    && (forall c | OP(list, r, heard, c) :: c == list[r.primary])
    && (forall c | OT(list, r, heard, c) :: c == list[r.primary])
    && (forall c | OS(list, r, heard, c) :: c == list[r.secondary])
  }

  /** The scan covers channel k exactly when the formula asks about it. */
  predicate Agrees(list: seq<nat>, r: Range, k: nat)
    requires r.primary < |list| && r.secondary < |list|
  {
    r.first <= k <= r.last <==> Affected(list, r, k)
  }

  ghost predicate Covers(list: seq<nat>, r: Range)
    requires r.primary < |list| && r.secondary < |list|
  {
    forall k: nat | k < |list| :: Agrees(list, r, k)
  }

  /** The lists of the regulatory regions in the lower band: consecutive channels up to 13, or 1 to 14, or 14
      alone. */
  ghost predicate Regional(list: seq<nat>) {
    && 0 < |list| <= 14 && list[0] >= 1 && (forall k | 0 <= k < |list| :: list[k] == list[0] + k)
    && (list[0] + |list| <= 14 || list[0] == 1 || list[0] == 14)
    && list[0] + |list| <= 15
  }

  /** Is the scanned range the channel set C? Where the list cuts the cell short it must cut the range on the
      other side too; and channel 14 lies off the grid of the others. */
  predicate Fits(n: nat, index: nat, above: bool) {
    if n == 14 then
      if above then index !in {6, 7, 9, 10} else index in {3, 4, 5, 6, 7, 8, 9, 12}
    else
      if above then index + 3 < n || index <= 3 else index >= 3 || n <= index + 4
  }

  /** A channel on which they differ. */
  function Witness(n: nat, index: nat, above: bool): int {
    if n == 14 && index in {6, 7, 10, 11} && above == (index < 10) then 13
    else if n == 14 && above then index - 3
    else if above then index - 4
    else if index < 3 then index + 4
    else 6
  }

  lemma RangeFits(list: seq<nat>, index: nat, above: bool)
    requires Regional(list) && index < |list| && Fits(|list|, index, above)
    ensures Covers(list, RangeOf(|list|, index, above))
  {
    forall k: nat | k < |list| ensures Agrees(list, RangeOf(|list|, index, above), k) {
      assert list[k] == list[0] + k;
    }
  }

  lemma RangeMisfits(list: seq<nat>, index: nat, above: bool)
    requires Regional(list) && index < |list| && !Fits(|list|, index, above)
    ensures var k := Witness(|list|, index, above);
            0 <= k < |list| && k != index && !Agrees(list, RangeOf(|list|, index, above), k)
  {
  }

  /** The range scanned is the channel set of the formula exactly when it fits. */
  lemma RangeIsChannelSet(list: seq<nat>, index: nat, above: bool)
    requires Regional(list) && index < |list|
    ensures Covers(list, RangeOf(|list|, index, above)) <==> Fits(|list|, index, above)
  {
    if Fits(|list|, index, above) {
      RangeFits(list, index, above);
    } else {
      RangeMisfits(list, index, above);
    }
  }

  lemma RegionalOnGrid(list: seq<nat>)
    requires Regional(list)
    ensures OnGrid(list)
  {
    forall b: Beacon, k: nat ensures SecondaryAt(list, b, k) <==> Extends(list, b, k) {
      if SecondaryAt(list, b, k) {
        var i: nat :| Own(list, b, i) && Secondary(|list|, b, i) == Some(k);
        assert list[i] == list[0] + i && list[k] == list[0] + k;
      }
      if Extends(list, b, k) {
        var i :| 0 <= i < |list| && list[i] == b.channel;
        assert list[i] == list[0] + i && list[k] == list[0] + k;
        assert Own(list, b, i) && Secondary(|list|, b, i) == Some(k);
      }
    }
  }

  /** In the lists of the regions a secondary mark stands on a channel exactly if some 20/40 MHz beacon was heard four
      numbers below with its extension above, or four numbers above with its extension below. */
  lemma SecondaryMarks(list: seq<nat>, marks: seq<Mark>, heard: seq<Beacon>, k: nat)
    requires Regional(list) && |marks| == |list| && Tells(list, marks, heard) && k < |list|
    ensures marks[k].secondary <==> exists b | b in heard :: Extends(list, b, k)
  {
    RegionalOnGrid(list);
    if b :| b in heard && Extends(list, b, k) {
      assert SecondaryAt(list, b, k);
    }
  }

  /** Where it is, the cell is disturbed exactly when 20/40 operation is not permitted. */
  lemma DisturbedIsNotPermitted(list: seq<nat>, r: Range, heard: seq<Beacon>)
    requires Distinct(list) && r.primary < |list| && r.secondary < |list| && r.last < |list| && Covers(list, r)
    requires OnGrid(list)
    ensures Disturbed(list, r, heard) <==> !Permitted(list, r, heard)
  {
    if k: nat, b: Beacon :| r.first <= k <= r.last && b in heard && Away(list, r, b, k) {
      assert Agrees(list, r, k);
      if Own(list, b, k) && k != r.primary {
        assert OT(list, r, heard, list[k]);
      } else {
        assert Extends(list, b, k);
        assert OS(list, r, heard, list[k]);
      }
      assert !Permitted(list, r, heard);
    }
    if c: nat :| (OP(list, r, heard, c) || OT(list, r, heard, c)) && c != list[r.primary] {
      var k: nat, b: Beacon :| Affected(list, r, k) && b in heard && list[k] == c && Own(list, b, k);
      assert Agrees(list, r, k) && Away(list, r, b, k);
    }
    if c: nat :| OS(list, r, heard, c) && c != list[r.secondary] {
      var k: nat, b: Beacon :| Affected(list, r, k) && b in heard && list[k] == c && Extends(list, b, k);
      assert SecondaryAt(list, b, k);
      assert Agrees(list, r, k) && Away(list, r, b, k);
    }
  }

  /** One legacy beacon away from the primary channel tells them apart. */
  lemma LegacyBeacon(list: seq<nat>, r: Range, k: nat)
    requires Distinct(list) && r.primary < |list| && r.secondary < |list| && r.last < |list|
    requires k < |list| && k != r.primary
    ensures Disturbed(list, r, [Beacon(list[k], false, NoExt)]) <==> r.first <= k <= r.last
    ensures Permitted(list, r, [Beacon(list[k], false, NoExt)]) <==> !Affected(list, r, k)
  {
    var b := Beacon(list[k], false, NoExt);
    assert forall j: nat :: Own(list, b, j) <==> j == k;
    if r.first <= k <= r.last {
      assert Away(list, r, b, k);
    }
    if Affected(list, r, k) {
      assert OT(list, r, [b], list[k]);
    }
  }

  /** In the lists of the regions, the verdict of the scan is the formula's on whatever is heard if and only if
      the scanned range fits. */
  lemma VerdictIsFormulaExactly(list: seq<nat>, index: nat, above: bool)
    requires Regional(list) && index < |list|
    ensures var r := RangeOf(|list|, index, above);
            (forall heard :: Disturbed(list, r, heard) <==> !Permitted(list, r, heard)) <==> Fits(|list|, index, above)
  {
    var r := RangeOf(|list|, index, above);
    if Fits(|list|, index, above) {
      RangeFits(list, index, above);
      RegionalOnGrid(list);
      forall heard ensures Disturbed(list, r, heard) <==> !Permitted(list, r, heard) {
        DisturbedIsNotPermitted(list, r, heard);
      }
    } else {
      RangeMisfits(list, index, above);
      var k: nat := Witness(|list|, index, above);
      LegacyBeacon(list, r, k);
    }
  }

  /** Channels 1 to 14, a cell on 7 and 11: a beacon on channel 14 counts as disturbance, though it lies outside
      the cell's 50 MHz. */
  lemma ChannelFourteen(list: seq<nat>)
    requires Regional(list) && |list| == 14
    ensures var r := RangeOf(14, 6, true);
            var heard := [Beacon(14, false, NoExt)];
            Disturbed(list, r, heard) && Permitted(list, r, heard)
  {
    LegacyBeacon(list, RangeOf(14, 6, true), 13);
  }

  /** The verdict depends on which beacons were heard, not on their order or number. */
  lemma VerdictOrderFree(list: seq<nat>, r: Range, xs: seq<Beacon>, ys: seq<Beacon>)
    requires forall b :: b in xs <==> b in ys
    ensures Disturbed(list, r, xs) <==> Disturbed(list, r, ys)
  {
  }
}
