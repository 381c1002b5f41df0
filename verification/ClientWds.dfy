/** The client-WDS proxy table of common/client_wds.c as it lives in memory: a free list and 64 hash
    chains threaded through one pool of entries. Each method is proved against ProxySpec. */
module ClientWds {
  import opened LinkList
  import opened Octets
  import opened ProxySpec
  import opened Wrappers

  ghost predicate ShowsEntry(e: ProxyEntry, r: Rec)
    reads e
  {
    e.addr == r.addr && e.aid == r.aid && e.lastRefTime == r.lastRef
  }

  ghost predicate Shows(nodes: seq<ProxyEntry>, c: seq<Rec>)
    reads nodes
  {
    |nodes| == |c| && forall i | 0 <= i < |c| :: ShowsEntry(nodes[i], c[i])
  }

  /** A list of distinct entries of the pool is no longer than the pool. */
  lemma {:induction false} DistinctFits(nodes: seq<ProxyEntry>, pool: set<ProxyEntry>)
    requires forall i, j | 0 <= i < j < |nodes| :: nodes[i] != nodes[j]
    requires forall n | n in nodes :: n in pool
    ensures |nodes| <= |pool|
  {
    if nodes != [] {
      var last := |nodes| - 1;
      var rest := nodes[..last];
      assert forall n | n in rest :: n in nodes && n != nodes[last];
      DistinctFits(rest, pool - {nodes[last]});
    }
  }

  /** The zeroed pool, linked into the free list. */
  method FillFreeList(free: EntryList) returns (ghost entries: set<ProxyEntry>)
    requires free.Valid() && free.nodes == []
    modifies free
    ensures free.Valid() && fresh(entries)
    ensures |free.nodes| == |entries| == POOL_SIZE
    ensures forall n | n in free.nodes :: n in entries
    ensures forall n | n in entries :: n in free.nodes
  {
    entries := {};
    var i := 0;
    while i < POOL_SIZE
      invariant 0 <= i <= POOL_SIZE
      invariant free.Valid() && |free.nodes| == i == |entries|
      invariant fresh(entries)
      invariant forall n | n in free.nodes :: n in entries
      invariant forall n | n in entries :: n in free.nodes
    {
      var entry := new ProxyEntry();
      free.InsertTail(entry);
      entries := entries + {entry};
      i := i + 1;
    }
  }

  method NewChains() returns (lists: seq<EntryList>)
    ensures |lists| == HASH_SIZE
    ensures forall h | 0 <= h < |lists| :: fresh(lists[h]) && lists[h].Valid() && lists[h].nodes == []
    ensures forall g, h | 0 <= g < h < |lists| :: lists[g] != lists[h]
  {
    lists := [];
    while |lists| < HASH_SIZE
      invariant |lists| <= HASH_SIZE
      invariant forall h | 0 <= h < |lists| :: fresh(lists[h]) && lists[h].Valid() && lists[h].nodes == []
      invariant forall g, h | 0 <= g < h < |lists| :: lists[g] != lists[h]
      decreases HASH_SIZE - |lists|
    {
      var l := new EntryList();
      lists := lists + [l];
    }
  }

  class ProxyTable {
    const free: EntryList
    const chains: seq<EntryList>
    const ageOutTicks: nat

    ghost const pool: set<ProxyEntry>
    /** The list each entry of the pool is on: FREE, the index of a chain, or IN_HAND between two lists. */
    ghost var home: map<ProxyEntry, int>
    ghost var tab: Tab

    static const FREE: int := -1
    static const IN_HAND: int := -2

    ghost predicate OnList(l: EntryList, h: int)
      reads this, l
    {
      && (forall e | e in l.nodes :: e in home && home[e] == h)
      && (forall e | e in home && home[e] == h :: e in l.nodes)
    }

    ghost predicate Shape()
      reads this
    {
      && |chains| == |tab.chains| == HASH_SIZE
      && free !in chains
      && (forall g, h | 0 <= g < h < HASH_SIZE :: chains[g] != chains[h])
      && home.Keys == pool && |pool| <= POOL_SIZE
      && (forall e | e in home :: IN_HAND <= home[e] < HASH_SIZE)
    }

    ghost predicate ChainValid(h: int)
      requires Shape() && 0 <= h < HASH_SIZE
      reads this, chains, pool
    {
      && OnList(chains[h], h)
      && (forall e | e in chains[h].nodes :: e in pool)
      && chains[h].Valid()
      && Shows(chains[h].nodes, tab.chains[h])
    }

    ghost predicate FreeValid()
      requires Shape()
      reads this, free, pool
    {
      && OnList(free, FREE)
      && (forall e | e in free.nodes :: e in pool)
      && free.Valid()
      && tab.free == |free.nodes|
    }

    /** The lists agree with `home` and `tab`; entries may be in hand, on no list. */
    ghost predicate Linked()
      reads this, free, chains, pool
    {
      && Shape()
      && FreeValid()
      && (forall h | 0 <= h < HASH_SIZE :: ChainValid(h))
    }

    /** Every entry of the pool is on exactly one list, and all of them are accounted for. */
    ghost predicate Valid()
      reads this, free, chains, pool
    {
      && Linked()
      && (forall e | e in home :: home[e] != IN_HAND)
      && tab.free + Total(tab.chains) == |pool|
    }

    /** CliWds_ProxyTabInit. When the pool cannot be allocated the table starts without any entry. */
    constructor (poolMade: bool, ticksPerSecond: nat)
      ensures Valid() && fresh(free) && fresh(pool) && (forall l | l in chains :: fresh(l))
      ensures |pool| == (if poolMade then POOL_SIZE else 0)
      ensures tab == EmptyTab(|pool|)
      ensures ageOutTicks == 5000 * ticksPerSecond / 1000
    {
      var freeList := new EntryList();
      ghost var entries: set<ProxyEntry> := {};
      if poolMade {
        entries := FillFreeList(freeList);
      }
      var lists := NewChains();
      free, chains, ageOutTicks := freeList, lists, 5000 * ticksPerSecond / 1000;
      pool, home := entries, map e | e in entries :: FREE;
      tab := EmptyTab(|entries|);
      EmptyTotal(EmptyTab(|entries|).chains);
      new;
      assert FreeValid();
      assert forall h | 0 <= h < HASH_SIZE :: ChainValid(h);
    }

    /** CliWds_ProxyLookup: refreshes the first entry with this address; answers with its station's index. */
    method Lookup(mac: Mac, now: nat) returns (station: Option<int>)
      requires Valid()
      modifies this`tab, pool`lastRefTime
      ensures Valid()
      ensures tab == ProxySpec.Lookup(old(tab), mac, now)
      ensures station == Hit(old(tab), mac)
    {
      var h := Hash(mac);
      ghost var c := tab.chains[h];
      assert ChainValid(h);
      var entry := chains[h].head;
      ghost var k := 0;
      while entry != null
        invariant 0 <= k <= |c|
        invariant entry == if k < |c| then chains[h].nodes[k] else null
        invariant forall i | 0 <= i < k :: c[i].addr != mac
        decreases |c| - k
      {
        assert ShowsEntry(chains[h].nodes[k], c[k]);
        if mac == entry.addr {
          assert IndexOf(c, mac) == k;
          Refresh(entry, h, k, now);
          return if ValidWcid(entry.aid) then Some(entry.aid) else None;
        }
        entry := entry.next;
        k := k + 1;
      }
      assert IndexOf(c, mac) == |c|;
      assert tab.chains[h := c] == tab.chains;
      return None;
    }

    /** Writes the reference time of the k-th entry of a chain. */
    method Refresh(entry: ProxyEntry, ghost h: nat, ghost k: nat, now: nat)
      requires Valid() && h < HASH_SIZE && k < |chains[h].nodes| && entry == chains[h].nodes[k]
      modifies this`tab, entry`lastRefTime
      ensures Valid()
      ensures k < |old(tab).chains[h]|
      ensures tab == old(tab).(chains := old(tab).chains[h := old(tab).chains[h][k := old(tab).chains[h][k].(lastRef := now)]])
    {
      EntryAt(h, k);
      assert ChainValid(h) && entry !in free.nodes;
      ghost var c' := tab.chains[h][k := tab.chains[h][k].(lastRef := now)];
      TotalUpdate(tab.chains, h, c');
      entry.lastRefTime := now;
      tab := tab.(chains := tab.chains[h := c']);
      forall g | 0 <= g < HASH_SIZE && g != h ensures ChainValid(g) {
        assert old(ChainValid(g));
        ChainFramed(g);
      }
      ChainTouched(h);
    }

    /** A chain on which one reference time was rewritten. */
    twostate lemma ChainTouched(h: int)
      requires old(Shape()) && Shape() && 0 <= h < HASH_SIZE && old(ChainValid(h))
      requires SameList(chains[h]) && chains[h].Valid() && home == old(home)
      requires |tab.chains[h]| == |old(tab).chains[h]|
      requires forall i | 0 <= i < |tab.chains[h]| ::
                 && i < |chains[h].nodes|
                 && (ShowsEntry(chains[h].nodes[i], tab.chains[h][i])
                     || (tab.chains[h][i] == old(tab).chains[h][i] && SameEntry(chains[h].nodes[i])))
      ensures ChainValid(h)
    {
      forall i | 0 <= i < |tab.chains[h]| ensures ShowsEntry(chains[h].nodes[i], tab.chains[h][i]) {
        assert old(ShowsEntry(chains[h].nodes[i], tab.chains[h][i]));
      }
    }

    twostate predicate SameList(l: EntryList)
      reads l
    {
      l.nodes == old(l.nodes) && l.head == old(l.head) && l.tail == old(l.tail) && l.size == old(l.size)
    }

    twostate predicate SameEntry(n: ProxyEntry)
      reads n
    {
      n.next == old(n.next) && n.addr == old(n.addr) && n.aid == old(n.aid) && n.lastRefTime == old(n.lastRefTime)
    }

    /** A chain stays valid when neither its list, nor its entries, nor what is recorded of them changes. */
    twostate lemma ChainFramed(g: int)
      requires old(Shape()) && Shape() && 0 <= g < HASH_SIZE
      requires old(ChainValid(g)) && SameList(chains[g])
      requires forall n | n in chains[g].nodes :: SameEntry(n)
      requires forall e | e in pool :: home[e] == g <==> old(home)[e] == g
      requires tab.chains[g] == old(tab).chains[g]
      ensures ChainValid(g)
    {
      forall i | 0 <= i < |tab.chains[g]|
        ensures SameEntry(chains[g].nodes[i]) && old(ShowsEntry(chains[g].nodes[i], tab.chains[g][i]))
      {
        assert chains[g].nodes[i] in chains[g].nodes;
      }
    }

    /** One chain grew by the entry that was in hand; the others did not change. */
    twostate lemma ChainGrew(h: int)
      requires old(Shape()) && Shape() && 0 <= h < HASH_SIZE
      requires forall g | 0 <= g < HASH_SIZE :: old(ChainValid(g))
      requires forall g | 0 <= g < HASH_SIZE && g != h :: SameList(chains[g])
      requires chains[h].Valid() && chains[h].nodes != [] && tab.chains[h] != []
      requires var entry, r := chains[h].nodes[|chains[h].nodes| - 1], tab.chains[h][|tab.chains[h]| - 1];
               && chains[h].nodes == old(chains[h].nodes) + [entry]
               && entry in pool && old(home)[entry] == IN_HAND && home == old(home)[entry := h]
               && (forall n | n in pool && n != entry && old(home)[n] != h :: n.next == old(n.next))
               && ShowsEntry(entry, r)
               && tab == old(tab).(chains := old(tab).chains[h := old(tab).chains[h] + [r]])
      requires forall n | n in pool :: n.addr == old(n.addr) && n.aid == old(n.aid) && n.lastRefTime == old(n.lastRefTime)
      ensures forall g | 0 <= g < HASH_SIZE :: ChainValid(g)
    {
      var nodes, c := old(chains[h].nodes), old(tab).chains[h];
      assert old(ChainValid(h));
      forall i | 0 <= i < |c| ensures ShowsEntry(chains[h].nodes[i], tab.chains[h][i]) {
        assert old(ShowsEntry(nodes[i], c[i])) && nodes[i] in nodes;
      }
      forall g | 0 <= g < HASH_SIZE && g != h ensures ChainValid(g) {
        assert old(ChainValid(g));
        ChainFramed(g);
      }
    }

    /** CliWdsEntyAlloc. */
    method Alloc() returns (entry: ProxyEntry?)
      requires Linked()
      modifies free, this`home, this`tab
      ensures Linked()
      ensures entry == null <==> old(tab).free == 0
      ensures entry == null ==> home == old(home) && tab == old(tab)
      ensures entry != null ==> entry in pool && home == old(home)[entry := IN_HAND] && tab == Tab(old(tab).free - 1, old(tab).chains)
    {
      entry := free.RemoveHead();
      if entry != null {
        assert entry == old(free.nodes)[0];
        home := home[entry := IN_HAND];
        tab := tab.(free := tab.free - 1);
      }
      forall g | 0 <= g < HASH_SIZE ensures ChainValid(g) {
        assert old(ChainValid(g));
      }
    }

    /** CliWdsEntyFree. */
    method Free(entry: ProxyEntry)
      requires Linked() && entry in pool && home[entry] == IN_HAND
      modifies free, this`home, this`tab, pool`next
      ensures Linked()
      ensures home == old(home)[entry := FREE] && tab == Tab(old(tab).free + 1, old(tab).chains)
    {
      DistinctFits(free.nodes, pool);
      free.InsertTail(entry);
      home := home[entry := FREE];
      tab := tab.(free := tab.free + 1);
      forall g | 0 <= g < HASH_SIZE ensures ChainValid(g) {
        assert old(ChainValid(g));
        ChainFramed(g);
      }
    }

    /** Writes an entry that is in hand. */
    method Fill(entry: ProxyEntry, aid: int, mac: Mac, now: nat)
      requires Linked() && entry in pool && home[entry] == IN_HAND
      modifies entry`aid, entry`addr, entry`lastRefTime
      ensures Linked()
      ensures entry.aid == aid && entry.addr == mac && entry.lastRefTime == now
    {
      entry.aid, entry.addr, entry.lastRefTime := aid, mac, now;
      forall g | 0 <= g < HASH_SIZE ensures ChainValid(g) {
        assert old(ChainValid(g));
        ChainFramed(g);
      }
    }

    /** insertTailList on one chain, with what it leaves alone spelled out. */
    method InsertAt(entry: ProxyEntry, h: nat)
      requires Linked() && h < HASH_SIZE && entry in pool && home[entry] == IN_HAND
      modifies chains[h], pool`next
      ensures chains[h].Valid() && chains[h].nodes == old(chains[h].nodes) + [entry]
      ensures forall n | n in pool && n != entry && home[n] != h :: n.next == old(n.next)
    {
      assert ChainValid(h);
      DistinctFits(chains[h].nodes, pool);
      chains[h].InsertTail(entry);
    }

    /** Links an entry that is in hand at the end of a chain. */
    method Link(entry: ProxyEntry, h: nat, ghost r: Rec)
      requires Linked() && h < HASH_SIZE && entry in pool && home[entry] == IN_HAND && ShowsEntry(entry, r)
      modifies chains[h], this`home, this`tab, pool`next
      ensures Linked()
      ensures home == old(home)[entry := h]
      ensures tab == old(tab).(chains := old(tab).chains[h := old(tab).chains[h] + [r]])
    {
      InsertAt(entry, h);
      assert FreeValid();
      home := home[entry := h];
      tab := tab.(chains := tab.chains[h := tab.chains[h] + [r]]);
      assert old(ChainValid(h));
      ChainGrew(h);
    }

    /** Chain h lost its k-th entry, which is now in hand. */
    twostate predicate RemovedAt(h: int, k: int)
      requires 0 <= h < |chains| && h < |old(tab).chains|
      reads this, chains[h]
    {
      && 0 <= k < |old(chains[h].nodes)| == |old(tab).chains[h]|
      && chains[h].nodes == old(chains[h].nodes)[..k] + old(chains[h].nodes)[k + 1..]
      && home == old(home)[old(chains[h].nodes)[k] := IN_HAND]
      && tab == old(tab).(chains := old(tab).chains[h := old(tab).chains[h][..k] + old(tab).chains[h][k + 1..]])
    }

    /** What is left of a chain shows what is left of its records. */
    twostate lemma ChainShrankSelf(h: int)
      requires old(Shape()) && Shape() && 0 <= h < HASH_SIZE
      requires old(ChainValid(h))
      requires chains[h].Valid() && exists k :: RemovedAt(h, k)
      requires forall n | n in pool :: n.addr == old(n.addr) && n.aid == old(n.aid) && n.lastRefTime == old(n.lastRefTime)
      ensures ChainValid(h)
    {
      var k :| RemovedAt(h, k);
      var nodes, c := old(chains[h].nodes), old(tab).chains[h];
      assert old(chains[h].Valid());
      forall i | 0 <= i < |tab.chains[h]|
        ensures chains[h].nodes[i] in pool && ShowsEntry(chains[h].nodes[i], tab.chains[h][i])
      {
        var j := if i < k then i else i + 1;
        assert chains[h].nodes[i] == nodes[j] && tab.chains[h][i] == c[j];
        assert nodes[j] in nodes && old(ShowsEntry(nodes[j], c[j]));
      }
    }

    /** One chain lost an entry; the others did not change. */
    twostate lemma ChainShrank(h: int)
      requires old(Shape()) && Shape() && 0 <= h < HASH_SIZE
      requires forall g | 0 <= g < HASH_SIZE :: old(ChainValid(g))
      requires forall g | 0 <= g < HASH_SIZE && g != h :: SameList(chains[g])
      requires chains[h].Valid() && exists k :: RemovedAt(h, k)
      requires forall n | n in pool && old(home)[n] != h :: n.next == old(n.next)
      requires forall n | n in pool :: n.addr == old(n.addr) && n.aid == old(n.aid) && n.lastRefTime == old(n.lastRefTime)
      ensures forall g | 0 <= g < HASH_SIZE :: ChainValid(g)
    {
      assert old(ChainValid(h));
      ChainShrankSelf(h);
      var k :| RemovedAt(h, k);
      assert old(chains[h].nodes)[k] in old(chains[h].nodes);
      forall g | 0 <= g < HASH_SIZE && g != h ensures ChainValid(g) {
        assert old(ChainValid(g));
        ChainFramed(g);
      }
    }

    /** delEntryList on one chain, with what it leaves alone spelled out. */
    method DeleteAt(entry: ProxyEntry, h: nat, ghost k: nat)
      requires Linked() && h < HASH_SIZE && k < |chains[h].nodes| && entry == chains[h].nodes[k]
      modifies chains[h], pool`next
      ensures chains[h].Valid() && chains[h].nodes == old(chains[h].nodes)[..k] + old(chains[h].nodes)[k + 1..]
      ensures forall n | n in pool && home[n] != h :: n.next == old(n.next)
    {
      assert ChainValid(h);
      var _ := chains[h].Delete(entry);
    }

    /** Takes the k-th entry off its chain. */
    method Unlink(entry: ProxyEntry, h: nat, ghost k: nat)
      requires Linked() && h < HASH_SIZE && k < |chains[h].nodes| && entry == chains[h].nodes[k]
      modifies chains[h], this`home, this`tab, pool`next
      ensures Linked()
      ensures k < |old(tab).chains[h]|
      ensures chains[h].nodes == old(chains[h].nodes)[..k] + old(chains[h].nodes)[k + 1..]
      ensures entry in pool && home == old(home)[entry := IN_HAND]
      ensures tab == old(tab).(chains := old(tab).chains[h := old(tab).chains[h][..k] + old(tab).chains[h][k + 1..]])
    {
      assert ChainValid(h);
      DeleteAt(entry, h, k);
      home := home[entry := IN_HAND];
      tab := tab.(chains := tab.chains[h := tab.chains[h][..k] + tab.chains[h][k + 1..]]);
      assert RemovedAt(h, k);
      ChainShrank(h);
    }

    /** Writes a free entry, if there is one, and links it at the end of the chain of its address. */
    method Append(aid: int, mac: Mac, now: nat)
      requires Valid()
      modifies this`home, this`tab, free, chains[Hash(mac)], pool
      ensures Valid()
      ensures tab == if old(tab).free == 0 then old(tab)
                     else Tab(old(tab).free - 1,
                              old(tab).chains[Hash(mac) := old(tab).chains[Hash(mac)] + [Rec(mac, aid, now)]])
    {
      var entry := Alloc();
      if entry != null {
        ghost var h, r := Hash(mac), Rec(mac, aid, now);
        TotalUpdate(tab.chains, h, tab.chains[h] + [r]);
        Fill(entry, aid, mac, now);
        Link(entry, Hash(mac), r);
      }
    }

    /** CliWds_ProxyTabUpdate: remembers the station behind an address, when an entry is free. */
    method Update(aid: int, mac: Mac, now: nat)
      requires Valid()
      modifies this, free, chains, pool
      ensures Valid()
      ensures tab == ProxySpec.Update(old(tab), aid, mac, now)
    {
      var station := Lookup(mac, now);
      if station.None? {
        Append(aid, mac, now);
      }
    }

    /** Moves the k-th entry of a chain to the free list. */
    method Retire(entry: ProxyEntry, h: nat, ghost k: nat)
      requires Linked() && h < HASH_SIZE && k < |chains[h].nodes| && entry == chains[h].nodes[k]
      modifies chains[h], free, this`home, this`tab, pool`next
      ensures Linked()
      ensures k < |old(tab).chains[h]|
      ensures chains[h].nodes == old(chains[h].nodes)[..k] + old(chains[h].nodes)[k + 1..]
      ensures entry in pool && home == old(home)[entry := FREE]
      ensures tab == Tab(old(tab).free + 1,
                         old(tab).chains[h := old(tab).chains[h][..k] + old(tab).chains[h][k + 1..]])
    {
      Unlink(entry, h, k);
      Free(entry);
    }

    /** The k-th entry of a chain, its record and its successor. */
    lemma EntryAt(h: nat, k: nat)
      requires Linked() && h < HASH_SIZE && k < |chains[h].nodes|
      ensures k < |chains[h].nodes| == |tab.chains[h]|
      ensures ShowsEntry(chains[h].nodes[k], tab.chains[h][k])
      ensures chains[h].nodes[k].next == if k + 1 < |chains[h].nodes| then chains[h].nodes[k + 1] else null
    {
      assert ChainValid(h);
    }

    /** The head of a chain. */
    lemma HeadOf(h: nat)
      requires Linked() && h < HASH_SIZE
      ensures |chains[h].nodes| == |tab.chains[h]|
      ensures chains[h].head == if tab.chains[h] == [] then null else chains[h].nodes[0]
    {
      assert ChainValid(h);
    }

    ghost predicate NoneInHand()
      reads this
    {
      forall e | e in home :: home[e] != IN_HAND
    }

    /** One turn of the inner loop: frees the entry at a position if it expired, and steps on. */
    method Visit(entry: ProxyEntry, h: nat, ghost at: nat, now: nat) returns (next: ProxyEntry?)
      requires Linked() && NoneInHand() && h < HASH_SIZE && at < |tab.chains[h]| == |chains[h].nodes|
      requires entry == chains[h].nodes[at]
      modifies this`home, this`tab, free, chains[h], pool`next
      ensures Linked() && NoneInHand() && |tab.chains[h]| == |chains[h].nodes|
      ensures if Expired(now, old(tab).chains[h][at].lastRef, ageOutTicks) then
                && tab == Without(old(tab), h, at)
                && next == (if at < |chains[h].nodes| then chains[h].nodes[at] else null)
              else
                && tab == old(tab)
                && next == (if at + 1 < |chains[h].nodes| then chains[h].nodes[at + 1] else null)
    {
      EntryAt(h, at);
      next := entry.next;
      if TimeAfter(now, (entry.lastRefTime + ageOutTicks) % TICKS) {
        Retire(entry, h, at);
      }
    }

    /** The state of the inner loop after k records of chain h: `entry` is the next one to visit. */
    ghost predicate AtVisit(before: Tab, h: nat, k: nat, now: nat, entry: ProxyEntry?)
      requires h < |before.chains| && h < HASH_SIZE
      reads this, free, chains, pool
    {
      && Linked() && NoneInHand()
      && k <= |before.chains[h]| && tab == Visited(before, h, k, now, ageOutTicks)
      && |tab.chains[h]| == |chains[h].nodes|
      && entry == if k < |before.chains[h]|
                  then chains[h].nodes[|Keep(before.chains[h][..k], now, ageOutTicks)|]
                  else null
    }

    /** One turn of the inner loop. */
    method Advance(entry: ProxyEntry, h: nat, ghost before: Tab, ghost k: nat, now: nat) returns (next: ProxyEntry?)
      requires h < |before.chains| && h < HASH_SIZE && AtVisit(before, h, k, now, entry)
      modifies this`home, this`tab, free, chains[h], pool`next
      ensures AtVisit(before, h, k + 1, now, next)
    {
      VisitedStep(before, h, k, now, ageOutTicks);
      next := Visit(entry, h, |Keep(before.chains[h][..k], now, ageOutTicks)|, now);
    }

    /** The inner loop of CliWds_ProxyTabMaintain: frees the expired entries of one chain. */
    method MaintainChain(h: nat, now: nat)
      requires Valid() && h < HASH_SIZE
      modifies this`home, this`tab, free, chains[h], pool`next
      ensures Valid()
      ensures tab.chains == old(tab).chains[h := Keep(old(tab).chains[h], now, ageOutTicks)]
    {
      ghost var before := tab;
      ghost var k := 0;
      HeadOf(h);
      VisitedEnds(before, h, now, ageOutTicks);
      var entry := chains[h].head;
      while entry != null
        invariant AtVisit(before, h, k, now, entry)
        decreases |before.chains[h]| - k
      {
        entry := Advance(entry, h, before, k, now);
        k := k + 1;
      }
    }

    /** CliWds_ProxyTabMaintain. */
    method Maintain(now: nat)
      requires Valid()
      modifies this, free, chains, pool
      ensures Valid()
      ensures tab == ProxySpec.Maintain(old(tab), now, ageOutTicks)
    {
      ghost var before := tab;
      var h := 0;
      while h < HASH_SIZE
        invariant 0 <= h <= HASH_SIZE && Valid()
        invariant forall g | 0 <= g < HASH_SIZE ::
                    tab.chains[g] == if g < h then Keep(before.chains[g], now, ageOutTicks) else before.chains[g]
      {
        MaintainChain(h, now);
        h := h + 1;
      }
      assert tab.chains == Kept(before.chains, now, ageOutTicks);
    }
  }
}
