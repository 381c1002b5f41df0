/** What the client-WDS proxy table of common/client_wds.c computes, on values: a hash table of
    record lists over a fixed pool, and the bounded map it has to agree with. */
module ProxySpec {
  import opened Octets
  import opened Wrappers

  const HASH_SIZE: nat := 64
  const POOL_SIZE: nat := 128
  const MAC_TABLE_SIZE: nat := 32
  /** Ticks are unsigned words and wrap around. */
  const TICKS: nat := 0x1_0000_0000

  datatype Rec = Rec(addr: Mac, aid: int, lastRef: nat)

  /** The number of free pool entries and the 64 chains. */
  datatype Tab = Tab(free: nat, chains: seq<seq<Rec>>)

  /** What a caller sees of one address. */
  datatype Ref = Ref(aid: int, lastRef: nat)

  predicate ValidWcid(aid: int) {
    0 < aid < MAC_TABLE_SIZE
  }

  /** The last octet masked with HASH_SIZE - 1. */
  function Hash(mac: Mac): (h: nat)
    ensures h < HASH_SIZE
  {
    mac[5] as int % HASH_SIZE
  }

  /** RTMP_TIME_AFTER: the signed difference b - a of two tick words is negative. */
  predicate TimeAfter(a: int, b: int) {
    (b - a) % TICKS >= TICKS / 2
  }

  predicate Expired(now: nat, lastRef: nat, age: nat) {
    TimeAfter(now, (lastRef + age) % TICKS)
  }

  // ---- The table -----------------------------------------------------------------------

  /** Where the chain holds `mac` first, or its length. */
  function IndexOf(c: seq<Rec>, mac: Mac): (k: nat)
    ensures k <= |c|
    ensures forall i | 0 <= i < k :: c[i].addr != mac
    ensures k < |c| ==> c[k].addr == mac
  {
    if c == [] || c[0].addr == mac then 0 else 1 + IndexOf(c[1..], mac)
  }

  function Touch(c: seq<Rec>, mac: Mac, now: nat): seq<Rec> {
    var k := IndexOf(c, mac);
    if k < |c| then c[k := c[k].(lastRef := now)] else c
  }

  function EmptyTab(capacity: nat): Tab {
    Tab(capacity, seq(HASH_SIZE, _ => []))
  }

  /** The station a lookup answers with: none for an unknown address or an invalid index. */
  function Hit(t: Tab, mac: Mac): Option<int>
    requires |t.chains| == HASH_SIZE
  {
    var c := t.chains[Hash(mac)];
    var k := IndexOf(c, mac);
    if k < |c| && ValidWcid(c[k].aid) then Some(c[k].aid) else None
  }

  function Lookup(t: Tab, mac: Mac, now: nat): Tab
    requires |t.chains| == HASH_SIZE
  {
    t.(chains := t.chains[Hash(mac) := Touch(t.chains[Hash(mac)], mac, now)])
  }

  function Update(t: Tab, aid: int, mac: Mac, now: nat): Tab
    requires |t.chains| == HASH_SIZE
  {
    var looked := Lookup(t, mac, now);
    if Hit(t, mac).Some? || t.free == 0 then looked
    else Tab(t.free - 1, looked.chains[Hash(mac) := looked.chains[Hash(mac)] + [Rec(mac, aid, now)]])
  }

  function Keep(c: seq<Rec>, now: nat, age: nat): (kept: seq<Rec>)
    ensures |kept| <= |c|
  {
    if c == [] then []
    else (if Expired(now, c[0].lastRef, age) then [] else [c[0]]) + Keep(c[1..], now, age)
  }

  function Total(chains: seq<seq<Rec>>): nat {
    if chains == [] then 0 else |chains[0]| + Total(chains[1..])
  }

  function Kept(chains: seq<seq<Rec>>, now: nat, age: nat): (kept: seq<seq<Rec>>)
    ensures |kept| == |chains|
    ensures forall h | 0 <= h < |chains| :: kept[h] == Keep(chains[h], now, age)
    ensures Total(kept) <= Total(chains)
  {
    if chains == [] then [] else [Keep(chains[0], now, age)] + Kept(chains[1..], now, age)
  }

  function Maintain(t: Tab, now: nat, age: nat): Tab {
    var kept := Kept(t.chains, now, age);
    Tab(t.free + (Total(t.chains) - Total(kept)), kept)
  }

  // ---- The bounded map -----------------------------------------------------------------

  type Cache = map<Mac, Ref>

  function CacheLookup(m: Cache, mac: Mac, now: nat): Cache {
    if mac in m then m[mac := Ref(m[mac].aid, now)] else m
  }

  function CacheUpdate(m: Cache, capacity: nat, aid: int, mac: Mac, now: nat): Cache {
    if mac in m then CacheLookup(m, mac, now)
    else if |m| < capacity then m[mac := Ref(aid, now)]
    else m
  }

  function CacheMaintain(m: Cache, now: nat, age: nat): Cache {
    map mac | mac in m && !Expired(now, m[mac].lastRef, age) :: m[mac]
  }

  // ---- The invariant and the view ------------------------------------------------------

  ghost predicate Distinct(c: seq<Rec>) {
    forall i, j | 0 <= i < j < |c| :: c[i].addr != c[j].addr
  }

  ghost predicate ChainOk(c: seq<Rec>, h: nat) {
    && Distinct(c)
    && forall k | 0 <= k < |c| :: Hash(c[k].addr) == h && ValidWcid(c[k].aid)
  }

  ghost predicate TabOk(t: Tab, capacity: nat) {
    && |t.chains| == HASH_SIZE
    && t.free + Total(t.chains) == capacity
    && forall h | 0 <= h < HASH_SIZE :: ChainOk(t.chains[h], h)
  }

  ghost function ChainAddrs(c: seq<Rec>): set<Mac> {
    set k | 0 <= k < |c| :: c[k].addr
  }

  ghost function Addrs(chains: seq<seq<Rec>>): set<Mac> {
    set h, k | 0 <= h < |chains| && 0 <= k < |chains[h]| :: chains[h][k].addr
  }

  /** The map the table stands for: the first record of each address in its own chain. */
  ghost function View(t: Tab): Cache
    requires |t.chains| == HASH_SIZE
  {
    map mac | mac in Addrs(t.chains) && IndexOf(t.chains[Hash(mac)], mac) < |t.chains[Hash(mac)]| ::
      var c := t.chains[Hash(mac)];
      var k := IndexOf(c, mac);
      Ref(c[k].aid, c[k].lastRef)
  }

  /** An address is in the view exactly when its own chain holds it, and a lookup answers from the view. */
  lemma ViewAt(t: Tab, capacity: nat, mac: Mac)
    requires TabOk(t, capacity)
    ensures mac in View(t) <==> IndexOf(t.chains[Hash(mac)], mac) < |t.chains[Hash(mac)]|
    ensures Hit(t, mac) == if mac in View(t) then Some(View(t)[mac].aid) else None
  {
    var c := t.chains[Hash(mac)];
    var k := IndexOf(c, mac);
    assert ChainOk(c, Hash(mac));
    if k < |c| {
      assert c[k].addr in Addrs(t.chains);
    }
  }

  lemma {:induction false} ChainCount(c: seq<Rec>)
    requires Distinct(c)
    ensures |ChainAddrs(c)| == |c|
  {
    if c != [] {
      var n := |c| - 1;
      ChainCount(c[..n]);
      assert ChainAddrs(c) == ChainAddrs(c[..n]) + {c[n].addr};
    }
  }

  lemma AddrsSplit(chains: seq<seq<Rec>>)
    requires chains != []
    ensures Addrs(chains) == ChainAddrs(chains[0]) + Addrs(chains[1..])
  {
    var rest := chains[1..];
    forall mac | mac in Addrs(rest) ensures mac in Addrs(chains) {
      var h, k :| 0 <= h < |rest| && 0 <= k < |rest[h]| && rest[h][k].addr == mac;
      assert chains[h + 1][k].addr == mac;
    }
    forall mac | mac in Addrs(chains) ensures mac in ChainAddrs(chains[0]) + Addrs(rest) {
      var h, k :| 0 <= h < |chains| && 0 <= k < |chains[h]| && chains[h][k].addr == mac;
      if h > 0 {
        assert rest[h - 1][k].addr == mac;
      }
    }
  }

  lemma {:induction false} AddrsCount(chains: seq<seq<Rec>>, base: nat)
    requires forall h | 0 <= h < |chains| :: ChainOk(chains[h], base + h)
    ensures |Addrs(chains)| == Total(chains)
    ensures forall mac | mac in Addrs(chains) :: base <= Hash(mac)
  {
    if chains != [] {
      var first, rest := chains[0], chains[1..];
      forall h | 0 <= h < |rest| ensures ChainOk(rest[h], base + 1 + h) {
        assert ChainOk(chains[h + 1], base + (h + 1));
      }
      AddrsCount(rest, base + 1);
      assert ChainOk(first, base + 0);
      ChainCount(first);
      AddrsSplit(chains);
      assert ChainAddrs(first) !! Addrs(rest);
    }
  }

  /** Every pool entry is counted once: what is not free holds one address of the view. */
  lemma ViewSize(t: Tab, capacity: nat)
    requires TabOk(t, capacity)
    ensures t.free + |View(t)| == capacity
  {
    forall h | 0 <= h < |t.chains| ensures ChainOk(t.chains[h], 0 + h) {
    }
    AddrsCount(t.chains, 0);
    forall mac | mac in Addrs(t.chains) ensures mac in View(t) {
      var h, k :| 0 <= h < |t.chains| && 0 <= k < |t.chains[h]| && t.chains[h][k].addr == mac;
      assert ChainOk(t.chains[h], h);
    }
    assert View(t).Keys == Addrs(t.chains);
  }

  lemma {:induction false} TotalUpdate(chains: seq<seq<Rec>>, h: nat, c: seq<Rec>)
    requires h < |chains|
    ensures Total(chains[h := c]) == Total(chains) - |chains[h]| + |c|
  {
    if h == 0 {
      assert chains[0 := c][1..] == chains[1..];
    } else {
      assert chains[h := c][1..] == chains[1..][h - 1 := c];
      TotalUpdate(chains[1..], h - 1, c);
    }
  }

  /** Replacing one chain keeps the invariant when the chain keeps it and no entry is lost. */
  lemma ReplaceChain(t: Tab, capacity: nat, h: nat, c: seq<Rec>, free: nat)
    requires TabOk(t, capacity) && h < HASH_SIZE
    requires ChainOk(c, h) && free + |c| == t.free + |t.chains[h]|
    ensures TabOk(Tab(free, t.chains[h := c]), capacity)
  {
    var t' := Tab(free, t.chains[h := c]);
    TotalUpdate(t.chains, h, c);
    forall g | 0 <= g < HASH_SIZE ensures ChainOk(t'.chains[g], g) {
      assert ChainOk(t.chains[g], g);
    }
  }

  /** ... and leaves the view as it is at every address the new chain answers alike. */
  lemma ReplaceChainAt(t: Tab, t': Tab, capacity: nat, h: nat, mac: Mac)
    requires TabOk(t, capacity) && TabOk(t', capacity) && h < HASH_SIZE
    requires t'.chains == t.chains[h := t'.chains[h]]
    requires Hash(mac) != h || SameFind(t.chains[h], t'.chains[h], mac)
    ensures mac in View(t) <==> mac in View(t')
    ensures mac in View(t) ==> View(t)[mac] == View(t')[mac]
  {
    ViewAt(t, capacity, mac);
    ViewAt(t', capacity, mac);
  }

  lemma SameCache(m: Cache, n: Cache)
    requires forall mac :: mac in m <==> mac in n
    requires forall mac | mac in m :: m[mac] == n[mac]
    ensures m == n
  {
    assert m.Keys == n.Keys;
  }

  /** Both chains find the same record for the address, or neither finds one. */
  ghost predicate SameFind(c: seq<Rec>, d: seq<Rec>, mac: Mac) {
    var j, k := IndexOf(c, mac), IndexOf(d, mac);
    && (j < |c| <==> k < |d|)
    && (j < |c| ==> c[j] == d[k])
  }

  lemma TouchFinds(c: seq<Rec>, h: nat, mac: Mac, now: nat)
    requires ChainOk(c, h)
    ensures ChainOk(Touch(c, mac, now), h) && |Touch(c, mac, now)| == |c|
    ensures IndexOf(Touch(c, mac, now), mac) == IndexOf(c, mac)
    ensures forall m: Mac | m != mac :: SameFind(c, Touch(c, mac, now), m)
  {
    var d := Touch(c, mac, now);
    assert forall i | 0 <= i < |c| :: d[i].addr == c[i].addr;
    forall m: Mac ensures IndexOf(c, m) == IndexOf(d, m) {
      SameAddrsSameIndex(c, d, m);
    }
  }

  lemma SameAddrsSameIndex(c: seq<Rec>, d: seq<Rec>, mac: Mac)
    requires |c| == |d| && forall i | 0 <= i < |c| :: c[i].addr == d[i].addr
    ensures IndexOf(c, mac) == IndexOf(d, mac)
  {
  }

  lemma LookupRefines(t: Tab, capacity: nat, mac: Mac, now: nat)
    requires TabOk(t, capacity)
    ensures TabOk(Lookup(t, mac, now), capacity)
    ensures View(Lookup(t, mac, now)) == CacheLookup(View(t), mac, now)
  {
    var h := Hash(mac);
    var t' := Lookup(t, mac, now);
    var c := t.chains[h];
    assert ChainOk(c, h);
    TouchFinds(c, h, mac, now);
    ReplaceChain(t, capacity, h, Touch(c, mac, now), t.free);
    var after := CacheLookup(View(t), mac, now);
    forall m: Mac
      ensures m in View(t') <==> m in after
      ensures m in after ==> View(t')[m] == after[m]
    {
      if m != mac {
        ReplaceChainAt(t, t', capacity, h, m);
      } else {
        ViewAt(t, capacity, mac);
        ViewAt(t', capacity, mac);
      }
    }
    SameCache(View(t'), after);
  }

  lemma AppendIndex(c: seq<Rec>, r: Rec, mac: Mac)
    ensures IndexOf(c + [r], mac) ==
            if IndexOf(c, mac) < |c| then IndexOf(c, mac)
            else if r.addr == mac then |c| else |c| + 1
  {
    var d := c + [r];
    assert d[|c|] == r;
    assert forall i | 0 <= i < |c| :: d[i] == c[i];
  }

  /** The table's update is the map's update: a known address keeps its station. */
  lemma UpdateRefines(t: Tab, capacity: nat, aid: int, mac: Mac, now: nat)
    requires TabOk(t, capacity) && ValidWcid(aid)
    ensures TabOk(Update(t, aid, mac, now), capacity)
    ensures View(Update(t, aid, mac, now)) == CacheUpdate(View(t), capacity, aid, mac, now)
  {
    LookupRefines(t, capacity, mac, now);
    ViewAt(t, capacity, mac);
    ViewSize(t, capacity);
    var h := Hash(mac);
    assert ChainOk(t.chains[h], h);
    if Hit(t, mac).None? && t.free > 0 {
      AppendRefines(t, capacity, Rec(mac, aid, now));
      assert Lookup(t, mac, now) == t;
    }
  }

  lemma AppendRefines(t: Tab, capacity: nat, r: Rec)
    requires TabOk(t, capacity) && ValidWcid(r.aid) && t.free > 0 && r.addr !in View(t)
    ensures var h := Hash(r.addr);
            var t' := Tab(t.free - 1, t.chains[h := t.chains[h] + [r]]);
            TabOk(t', capacity) && View(t') == View(t)[r.addr := Ref(r.aid, r.lastRef)]
  {
    var h := Hash(r.addr);
    var c := t.chains[h];
    var t' := Tab(t.free - 1, t.chains[h := c + [r]]);
    ViewAt(t, capacity, r.addr);
    assert ChainOk(c, h);
    ReplaceChain(t, capacity, h, c + [r], t.free - 1);
    var after := View(t)[r.addr := Ref(r.aid, r.lastRef)];
    forall m: Mac
      ensures m in View(t') <==> m in after
      ensures m in after ==> View(t')[m] == after[m]
    {
      AppendIndex(c, r, m);
      if m != r.addr {
        ReplaceChainAt(t, t', capacity, h, m);
      } else {
        ViewAt(t', capacity, m);
      }
    }
    SameCache(View(t'), after);
  }

  lemma {:induction false} KeepStep(c: seq<Rec>, k: nat, now: nat, age: nat)
    requires k < |c|
    ensures Keep(c[..k + 1], now, age) ==
            if Expired(now, c[k].lastRef, age) then Keep(c[..k], now, age) else Keep(c[..k], now, age) + [c[k]]
  {
    if k > 0 {
      KeepStep(c[1..], k - 1, now, age);
      assert c[..k + 1][1..] == c[1..][..k] && c[..k][1..] == c[1..][..k - 1];
    }
  }

  lemma {:induction false} KeepMembers(c: seq<Rec>, now: nat, age: nat)
    ensures forall r :: r in Keep(c, now, age) <==> r in c && !Expired(now, r.lastRef, age)
    ensures Distinct(c) ==> Distinct(Keep(c, now, age))
  {
    if c != [] {
      KeepMembers(c[1..], now, age);
      assert c == [c[0]] + c[1..];
      var kept := Keep(c[1..], now, age);
      if Distinct(c) {
        forall r | r in kept ensures r.addr != c[0].addr {
          assert r in c[1..];
        }
      }
    }
  }

  lemma KeepIndex(c: seq<Rec>, mac: Mac, now: nat, age: nat)
    requires Distinct(c)
    ensures var k, kept := IndexOf(c, mac), Keep(c, now, age);
            var k' := IndexOf(kept, mac);
            && (k' < |kept| <==> k < |c| && !Expired(now, c[k].lastRef, age))
            && (k' < |kept| ==> kept[k'] == c[k])
  {
    KeepMembers(c, now, age);
    var k, kept := IndexOf(c, mac), Keep(c, now, age);
    var k' := IndexOf(kept, mac);
    if k' < |kept| {
      assert kept[k'] in c;
    }
    if k < |c| && !Expired(now, c[k].lastRef, age) {
      assert c[k] in kept;
    }
  }

  lemma MaintainKeepsOk(t: Tab, capacity: nat, now: nat, age: nat)
    requires TabOk(t, capacity)
    ensures TabOk(Maintain(t, now, age), capacity)
  {
    var t' := Maintain(t, now, age);
    forall h | 0 <= h < HASH_SIZE ensures ChainOk(t'.chains[h], h) {
      assert ChainOk(t.chains[h], h);
      KeepMembers(t.chains[h], now, age);
      forall k | 0 <= k < |t'.chains[h]| ensures t'.chains[h][k] in t.chains[h] {
        assert t'.chains[h][k] in t'.chains[h];
      }
    }
  }

  /** Maintenance drops exactly the expired addresses of the map and returns their entries to the pool. */
  lemma MaintainRefines(t: Tab, capacity: nat, now: nat, age: nat)
    requires TabOk(t, capacity)
    ensures TabOk(Maintain(t, now, age), capacity)
    ensures View(Maintain(t, now, age)) == CacheMaintain(View(t), now, age)
  {
    var t', after := Maintain(t, now, age), CacheMaintain(View(t), now, age);
    MaintainKeepsOk(t, capacity, now, age);
    forall mac: Mac
      ensures mac in View(t') <==> mac in after
      ensures mac in View(t') ==> View(t')[mac] == after[mac]
    {
      assert ChainOk(t.chains[Hash(mac)], Hash(mac));
      KeepIndex(t.chains[Hash(mac)], mac, now, age);
      ViewAt(t, capacity, mac);
      ViewAt(t', capacity, mac);
    }
    SameCache(View(t'), after);
  }

  /** The table when maintenance has visited the first k records of chain h. */
  ghost function Visited(t: Tab, h: nat, k: nat, now: nat, age: nat): Tab
    requires h < |t.chains| && k <= |t.chains[h]|
  {
    var c := t.chains[h];
    var kept := Keep(c[..k], now, age);
    Tab(t.free + k - |kept|, t.chains[h := kept + c[k..]])
  }

  /** The table without the record at a position of chain h. */
  ghost function Without(t: Tab, h: nat, at: nat): Tab
    requires h < |t.chains| && at < |t.chains[h]|
  {
    var c := t.chains[h];
    Tab(t.free + 1, t.chains[h := c[..at] + c[at + 1..]])
  }

  lemma VisitedStep(t: Tab, h: nat, k: nat, now: nat, age: nat)
    requires h < |t.chains| && k < |t.chains[h]|
    ensures var c := t.chains[h];
            var here, at := Visited(t, h, k, now, age), |Keep(c[..k], now, age)|;
            && at < |here.chains[h]| && here.chains[h][at] == c[k]
            && Visited(t, h, k + 1, now, age) == (if Expired(now, c[k].lastRef, age) then Without(here, h, at) else here)
            && |Keep(c[..k + 1], now, age)| == (if Expired(now, c[k].lastRef, age) then at else at + 1)
  {
    var c := t.chains[h];
    var kept := Keep(c[..k], now, age);
    KeepStep(c, k, now, age);
    var here := Visited(t, h, k, now, age);
    assert here.chains[h] == kept + c[k..];
    if Expired(now, c[k].lastRef, age) {
      assert here.chains[h := kept + c[k + 1..]] == t.chains[h := kept + c[k + 1..]];
      assert (kept + c[k..])[..|kept|] + (kept + c[k..])[|kept| + 1..] == kept + c[k + 1..];
    } else {
      assert kept + c[k..] == (kept + [c[k]]) + c[k + 1..];
    }
  }

  lemma VisitedEnds(t: Tab, h: nat, now: nat, age: nat)
    requires h < |t.chains|
    ensures Visited(t, h, 0, now, age) == t
    ensures var kept := Keep(t.chains[h], now, age);
            var end := Visited(t, h, |t.chains[h]|, now, age);
            end.chains == t.chains[h := kept] && end.free + Total(end.chains) == t.free + Total(t.chains)
  {
    var c := t.chains[h];
    assert c[..0] == [] && [] + c[0..] == c && t.chains[h := c] == t.chains;
    var kept := Keep(c, now, age);
    assert c[..|c|] == c && kept + c[|c|..] == kept;
    TotalUpdate(t.chains, h, kept);
  }

  // ---- Runs ----------------------------------------------------------------------------

  datatype Op = LookupOp(mac: Mac, now: nat) | UpdateOp(aid: int, mac: Mac, now: nat) | MaintainOp(now: nat)

  function Apply(t: Tab, op: Op, age: nat): (t': Tab)
    requires |t.chains| == HASH_SIZE
    ensures |t'.chains| == HASH_SIZE
  {
    match op
    case LookupOp(mac, now) => Lookup(t, mac, now)
    case UpdateOp(aid, mac, now) => Update(t, aid, mac, now)
    case MaintainOp(now) => Maintain(t, now, age)
  }

  function CacheApply(m: Cache, capacity: nat, op: Op, age: nat): Cache {
    match op
    case LookupOp(mac, now) => CacheLookup(m, mac, now)
    case UpdateOp(aid, mac, now) => CacheUpdate(m, capacity, aid, mac, now)
    case MaintainOp(now) => CacheMaintain(m, now, age)
  }

  function Run(t: Tab, ops: seq<Op>, age: nat): (t': Tab)
    requires |t.chains| == HASH_SIZE
    ensures |t'.chains| == HASH_SIZE
    decreases |ops|
  {
    if ops == [] then t else Run(Apply(t, ops[0], age), ops[1..], age)
  }

  function CacheRun(m: Cache, capacity: nat, ops: seq<Op>, age: nat): Cache
    decreases |ops|
  {
    if ops == [] then m else CacheRun(CacheApply(m, capacity, ops[0], age), capacity, ops[1..], age)
  }

  lemma {:induction false} RunRefines(t: Tab, capacity: nat, ops: seq<Op>, age: nat)
    requires TabOk(t, capacity)
    requires forall op | op in ops && op.UpdateOp? :: 0 < op.aid < 32
    ensures TabOk(Run(t, ops, age), capacity)
    ensures View(Run(t, ops, age)) == CacheRun(View(t), capacity, ops, age)
    decreases |ops|
  {
    if ops != [] {
      match ops[0] {
        case LookupOp(mac, now) => LookupRefines(t, capacity, mac, now);
        case UpdateOp(aid, mac, now) =>
          assert ops[0] in ops;
          UpdateRefines(t, capacity, aid, mac, now);
        case MaintainOp(now) => MaintainRefines(t, capacity, now, age);
      }
      RunRefines(Apply(t, ops[0], age), capacity, ops[1..], age);
    }
  }

  /** Over every run of lookups, updates with valid stations and maintenance, the table is the bounded
      map: same answers, every entry accounted for, no address twice, never more than `capacity`. */
  lemma TableIsBoundedMap(capacity: nat, ops: seq<Op>, age: nat, mac: Mac)
    requires forall op | op in ops && op.UpdateOp? :: 0 < op.aid < 32
    ensures var t, m := Run(EmptyTab(capacity), ops, age), CacheRun(map[], capacity, ops, age);
            && TabOk(t, capacity) && View(t) == m
            && t.free + |m| == capacity
            && Hit(t, mac) == if mac in m then Some(m[mac].aid) else None
  {
    EmptyTotal(EmptyTab(capacity).chains);
    assert View(EmptyTab(capacity)) == map[];
    RunRefines(EmptyTab(capacity), capacity, ops, age);
    var t := Run(EmptyTab(capacity), ops, age);
    ViewAt(t, capacity, mac);
    ViewSize(t, capacity);
  }

  lemma {:induction false} EmptyTotal(chains: seq<seq<Rec>>)
    requires forall h | 0 <= h < |chains| :: chains[h] == []
    ensures Total(chains) == 0
  {
    if chains != [] {
      EmptyTotal(chains[1..]);
    }
  }

  /** Valid stations matter: an update repeats an address exactly when the address is already held for
      an invalid station and an entry is free. */
  lemma UpdateKeepsDistinct(t: Tab, aid: int, mac: Mac, now: nat)
    requires |t.chains| == HASH_SIZE
    requires Distinct(t.chains[Hash(mac)])
    ensures var c := t.chains[Hash(mac)];
            var k := IndexOf(c, mac);
            Distinct(Update(t, aid, mac, now).chains[Hash(mac)])
            <==> !(k < |c| && (c[k].aid <= 0 || c[k].aid >= 32) && t.free > 0)
  {
    var h := Hash(mac);
    var c, s := t.chains[h], Lookup(t, mac, now);
    var k := IndexOf(c, mac);
    assert forall i | 0 <= i < |c| :: s.chains[h][i].addr == c[i].addr;
    assert Distinct(s.chains[h]);
    if Hit(t, mac).None? && t.free > 0 {
      var d := Update(t, aid, mac, now).chains[h];
      assert d == s.chains[h] + [Rec(mac, aid, now)];
      assert d[|c|].addr == mac;
      if k < |c| {
        assert d[k].addr == d[|c|].addr;
      } else {
        assert forall i | 0 <= i < |c| :: d[i].addr == c[i].addr;
      }
    }
  }

  /** The comparison of two words is the sign of their difference as a signed word. */
  lemma AfterIsNegative(a: nat, b: nat, rounds: int, difference: int)
    requires difference == b - a + 0x1_0000_0000 * rounds && -0x8000_0000 <= difference < 0x8000_0000
    ensures TimeAfter(a, b) <==> difference < 0
  {
    ModShift(difference, -rounds);
  }

  /** The wrapped comparison is the real one: for two moments less than half the tick range apart,
      an entry is expired exactly when more than `age` ticks passed. */
  lemma ExpiryIsElapsedTime(past: nat, now: nat, age: nat)
    requires past <= now && now - past < TICKS / 2 && age < TICKS / 2
    ensures Expired(now % TICKS, past % TICKS, age) <==> now - past > age
  {
    ModSum(past, age);
    var d := past + age - now;
    ModDiff(past + age, now);
    if d >= 0 {
      assert d % TICKS == d;
    } else {
      assert d % TICKS == d + TICKS;
    }
  }

  lemma ModSum(a: nat, b: nat)
    ensures (a % TICKS + b) % TICKS == (a + b) % TICKS
  {
    assert a == TICKS * (a / TICKS) + a % TICKS;
    ModShift(a % TICKS + b, a / TICKS);
  }

  lemma ModDiff(a: nat, b: nat)
    ensures (a % TICKS - b % TICKS) % TICKS == (a - b) % TICKS
  {
    assert a == TICKS * (a / TICKS) + a % TICKS;
    assert b == TICKS * (b / TICKS) + b % TICKS;
    ModShift(a % TICKS - b % TICKS, a / TICKS - b / TICKS);
  }

  lemma ModShift(x: int, k: int)
    ensures (x + TICKS * k) % TICKS == x % TICKS
  {
  }
}
