/** The station table as the driver keeps it: entries updated in place, found through hash chains. Each method
    does to the table what the function of the same operation in StationTable does to its value. */
module MacTable {
  import opened Octets
  import opened Wrappers
  import opened Rsn
  import opened StationTable
  import StationLaws
  import StationRuns

  const HASH_TABLE_SIZE: nat := 256

  /** MAC_ADDR_HASH_INDEX: the octets XORed. */
  function HashOf(addr: Mac): (h: nat)
    ensures h < HASH_TABLE_SIZE
  {
    (addr[0] as bv8 ^ addr[1] as bv8 ^ addr[2] as bv8 ^ addr[3] as bv8 ^ addr[4] as bv8 ^ addr[5] as bv8) as nat
  }

  // ---- Chains of entries --------------------------------------------------------------------------

  /** A chain holds clients whose addresses hash to it, each once. */
  ghost predicate ChainOk(content: seq<Entry>, chain: seq<nat>, h: nat) {
    && (forall k | 0 <= k < |chain| :: chain[k] < |content| && content[chain[k]].client && HashOf(content[chain[k]].addr) == h)
    && (forall j, k | 0 <= j < k < |chain| :: chain[j] != chain[k])
  }

  /** Every client is on the chain of its address. */
  ghost predicate Chained(content: seq<Entry>, hash: seq<seq<nat>>) {
    && |hash| == HASH_TABLE_SIZE
    && (forall h: nat | h < HASH_TABLE_SIZE :: ChainOk(content, hash[h], h))
    && (forall i: nat | i < |content| && content[i].client :: i in hash[HashOf(content[i].addr)])
  }

  ghost predicate AllCounted(content: seq<Entry>, staCount: seq<nat>) {
    forall b: nat | b < |staCount| :: staCount[b] == Population(content, b)
  }

  function Without(chain: seq<nat>, i: nat): seq<nat> {
    if chain == [] then [] else if chain[0] == i then chain[1..] else [chain[0]] + Without(chain[1..], i)
  }

  lemma {:induction false} WithoutMembers(chain: seq<nat>, i: nat)
    requires forall j, k | 0 <= j < k < |chain| :: chain[j] != chain[k]
    ensures forall x: nat :: x in Without(chain, i) <==> x in chain && x != i
    ensures forall j, k | 0 <= j < k < |Without(chain, i)| :: Without(chain, i)[j] != Without(chain, i)[k]
  {
    if chain != [] {
      assert chain == [chain[0]] + chain[1..];
      assert chain[0] !in chain[1..];
      if chain[0] != i {
        WithoutMembers(chain[1..], i);
      }
    }
  }

  lemma {:induction false} LookupUnique(content: seq<Entry>, addr: Mac, from: nat, i: nat)
    requires StationLaws.Unique(content) && from <= i < |content| && content[i].client && content[i].addr == addr
    ensures LookupFrom(content, addr, from) == Some(i)
    decreases i - from
  {
    if from < i {
      LookupUnique(content, addr, from + 1, i);
    }
  }

  /** Rewriting other fields of an entry leaves chains and counts right. */
  lemma Rechained(content: seq<Entry>, hash: seq<seq<nat>>, i: nat, e: Entry)
    requires Chained(content, hash) && i < |content| && e.client == content[i].client && e.addr == content[i].addr
    ensures Chained(content[i := e], hash)
  {
    forall h: nat | h < HASH_TABLE_SIZE ensures ChainOk(content[i := e], hash[h], h) {
      assert ChainOk(content, hash[h], h);
    }
  }

  /** An address that no entry of its chain bears is not in the table. */
  lemma OffChain(content: seq<Entry>, hash: seq<seq<nat>>, addr: Mac)
    requires Chained(content, hash)
    requires forall j | 0 <= j < |hash[HashOf(addr)]| ::
               hash[HashOf(addr)][j] < |content| && content[hash[HashOf(addr)][j]].addr != addr
    ensures LookupFrom(content, addr, 0).None?
  {
    forall i: nat | i < |content| && content[i].client ensures content[i].addr != addr {
      assert i in hash[HashOf(content[i].addr)];
    }
  }

  /** A vacancy is on no chain. */
  lemma VacantOffChain(content: seq<Entry>, hash: seq<seq<nat>>, i: nat, h: nat)
    requires Chained(content, hash) && i < |content| && !content[i].client && h < HASH_TABLE_SIZE
    ensures i !in hash[h]
  {
    assert ChainOk(content, hash[h], h);
  }

  lemma Enchained(content: seq<Entry>, hash: seq<seq<nat>>, i: nat, e: Entry)
    requires Chained(content, hash) && i < |content| && !content[i].client && e.client
    ensures var h := HashOf(e.addr);
            Chained(content[i := e], hash[h := hash[h] + [i]])
  {
    var h := HashOf(e.addr);
    var content', hash' := content[i := e], hash[h := hash[h] + [i]];
    forall g: nat | g < HASH_TABLE_SIZE ensures ChainOk(content', hash'[g], g) {
      assert ChainOk(content, hash[g], g);
      VacantOffChain(content, hash, i, g);
    }
  }

  lemma Unchained(content: seq<Entry>, hash: seq<seq<nat>>, i: nat, e: Entry)
    requires Chained(content, hash) && i < |content| && content[i].client && !e.client
    ensures var h := HashOf(content[i].addr);
            Chained(content[i := e], hash[h := Without(hash[h], i)])
  {
    var h := HashOf(content[i].addr);
    var content', hash' := content[i := e], hash[h := Without(hash[h], i)];
    assert ChainOk(content, hash[h], h);
    WithoutMembers(hash[h], i);
    forall g: nat | g < HASH_TABLE_SIZE ensures ChainOk(content', hash'[g], g) {
      assert ChainOk(content, hash[g], g);
      forall k | 0 <= k < |hash'[g]|
        ensures hash'[g][k] < |content'| && content'[hash'[g][k]].client && HashOf(content'[hash'[g][k]].addr) == g
      {
        assert hash'[g][k] in hash'[g];
        assert hash'[g][k] in hash[g];
      }
    }
  }

  /** A client's slot made vacant, off its chain and out of its BSS's count. */
  lemma Vacated(content: seq<Entry>, hash: seq<seq<nat>>, staCount: seq<nat>, i: nat, e: Entry)
    requires Chained(content, hash) && AllCounted(content, staCount) && StationLaws.Unique(content)
    requires i < |content| && content[i].client && content[i].bss < |staCount|
    requires e == content[i].(client := false, addr := ZERO_MAC)
    ensures Chained(content[i := e], hash[HashOf(content[i].addr) := Without(hash[HashOf(content[i].addr)], i)])
    ensures staCount[e.bss] > 0 && AllCounted(content[i := e], staCount[e.bss := staCount[e.bss] - 1])
    ensures StationLaws.Unique(content[i := e])
  {
    Unchained(content, hash, i, e);
    CountedDown(content, staCount, i, e);
  }

  lemma CountedDown(content: seq<Entry>, staCount: seq<nat>, i: nat, e: Entry)
    requires AllCounted(content, staCount) && i < |content| && content[i].client && !e.client
    requires e.bss == content[i].bss < |staCount|
    ensures staCount[e.bss] > 0 && AllCounted(content[i := e], staCount[e.bss := staCount[e.bss] - 1])
  {
    forall b: nat | b < |staCount|
      ensures Population(content[i := e], b) + (if b == e.bss then 1 else 0) == staCount[b]
    {
      StationRuns.PopulationUpdate(content, i, e, b);
    }
  }

  /** The entries with the flags of the first i cleared. */
  ghost function Partly(content: seq<Entry>, i: nat): seq<Entry>
    requires i <= |content|
  {
    Quiet(content)[..i] + content[i..]
  }

  lemma PartlyNext(content: seq<Entry>, i: nat)
    requires i < |content|
    ensures Partly(content, i)[i] == content[i]
    ensures Partly(content, i + 1) ==
            Partly(content, i)[i := if content[i].client then content[i].(cm := false) else content[i]]
  {
  }

  lemma PartlyEnds(content: seq<Entry>)
    ensures Partly(content, 0) == content && Partly(content, |content|) == Quiet(content)
  {
  }

  class MacTab {
    const cfg: seq<Cell>
    const content: array<Entry>
    const hash: array<seq<nat>>
    /** StaCount of each BSS. */
    var staCount: seq<nat>
    var auxAddr: Mac
    var auxText: seq<byte>
    var ban: bool
    var cmTimer: bool
    var acl: seq<Acl>
    ghost var log: seq<Record>

    ghost function State(): Table
      reads this, content
    {
      Table(content[..], auxAddr, auxText, ban, cmTimer, acl, log)
    }

    ghost predicate Valid()
      reads this, content, hash
    {
      && content.Length == TABLE && hash.Length == HASH_TABLE_SIZE
      && Shape(State(), cfg) && StationLaws.Unique(content[..])
      && Chained(content[..], hash[..])
      && |staCount| == |cfg| && AllCounted(content[..], staCount) && !content[0].client
    }

    constructor (cfg: seq<Cell>, acl: seq<Acl>)
      requires |acl| == |cfg| > 0
      ensures Valid() && fresh(content) && fresh(hash) && this.cfg == cfg && this.acl == acl
      ensures StationRuns.Start(State(), cfg)
    {
      this.cfg, this.acl := cfg, acl;
      content := new Entry[TABLE](i => if i == 0 then GroupEntry(VACANT) else VACANT);
      hash := new seq<nat>[HASH_TABLE_SIZE](h => []);
      staCount := seq(|cfg|, b => 0);
      auxAddr, auxText, ban, cmTimer := ZERO_MAC, seq(128, i => 0), false, false;
      log := [];
      new;
      forall b: nat ensures Population(content[..], b) == 0 {
        StationRuns.NobodyCounted(content[..], b);
      }
    }

    // ---- mgmt/mgmt_entrytb.c -----------------------------------------------------------------------

    /** MacTableLookup: walks the chain of the address. */
    method LookupEntry(addr: Mac) returns (found: Option<nat>)
      requires Valid()
      ensures found == Lookup(State(), addr)
    {
      var chain := hash[HashOf(addr)];
      var k := 0;
      assert chain == hash[..][HashOf(addr)];
      assert ChainOk(content[..], chain, HashOf(addr));
      while k < |chain|
        invariant 0 <= k <= |chain|
        invariant forall j | 0 <= j < k :: content[chain[j]].addr != addr
      {
        if content[chain[k]].addr == addr {
          LookupUnique(content[..], addr, 0, chain[k]);
          return Some(chain[k]);
        }
        k := k + 1;
      }
      OffChain(content[..], hash[..], addr);
      return None;
    }

    /** Rewrites fields of an entry other than its type and address. */
    method PutEntry(i: nat, e: Entry)
      requires Valid() && i < TABLE && e.bss == content[i].bss
      requires e.client == content[i].client && e.addr == content[i].addr
      modifies content
      ensures Valid() && State() == Put(old(State()), cfg, i, e)
    {
      Rechained(content[..], hash[..], i, e);
      forall b: nat {:trigger Population(content[..][i := e], b)} | b < |cfg|
        ensures Population(content[..][i := e], b) == Population(content[..], b)
      {
        StationRuns.PopulationUpdate(content[..], i, e, b);
      }
      ghost var was := content[..];
      content[i] := e;
      assert content[..] == was[i := e];
    }

    ghost method Record(r: Record)
      requires Valid()
      modifies this`log
      ensures Valid() && State() == Note(old(State()), cfg, r)
    {
      log := log + [r];
    }

    /** The first vacancy from index 1. */
    method FirstVacancy() returns (v: Option<nat>)
      requires Valid()
      ensures v == Vacancy(content[..], 1)
    {
      for i := 1 to TABLE
        invariant Vacancy(content[..], 1) == Vacancy(content[..], i)
      {
        if !content[i].client {
          return Some(i);
        }
      }
      return None;
    }

    /** Rewrites a slot that is and remains vacant. */
    method PutVacant(i: nat, e: Entry)
      requires Valid() && i < TABLE && !content[i].client && !e.client && e.bss < |cfg|
      modifies content
      ensures Valid() && State() == old(State()).(content := old(content[..])[i := e])
    {
      ghost var was := content[..];
      forall h: nat | h < HASH_TABLE_SIZE ensures ChainOk(was[i := e], hash[..][h], h) {
        assert ChainOk(was, hash[..][h], h);
        VacantOffChain(was, hash[..], i, h);
      }
      forall b: nat {:trigger Population(was[i := e], b)} | b < |cfg|
        ensures Population(was[i := e], b) == Population(was, b)
      {
        StationRuns.PopulationUpdate(was, i, e, b);
      }
      content[i] := e;
      assert content[..] == was[i := e];
    }

    /** Fills a vacancy with a new client, at the end of its chain. */
    method Fill(i: nat, e: Entry)
      requires Valid() && 0 < i < TABLE && !content[i].client && e.client && e.bss < |cfg|
      requires Lookup(State(), e.addr).None?
      modifies this`staCount, content, hash
      ensures Valid() && State() == old(State()).(content := old(content[..])[i := e])
    {
      ghost var was, chains := content[..], hash[..];
      Enchained(was, chains, i, e);
      forall b: nat {:trigger Population(was[i := e], b)} | b < |cfg|
        ensures Population(was[i := e], b) == Population(was, b) + if b == e.bss then 1 else 0
      {
        StationRuns.PopulationUpdate(was, i, e, b);
      }
      var h := HashOf(e.addr);
      content[i] := e;
      hash[h] := hash[h] + [i];
      staCount := staCount[e.bss := staCount[e.bss] + 1];
      assert content[..] == was[i := e];
      assert hash[..] == chains[h := chains[h] + [i]];
    }

    /** MacTableInsertEntry, for a station the table does not know. */
    method InsertEntry(addr: Mac, b: nat) returns (at: Option<nat>)
      requires Valid() && b < |cfg| && Lookup(State(), addr).None?
      modifies this`staCount, this`log, content, hash
      ensures Valid() && (State(), at) == Insert(old(State()), cfg, addr, b)
    {
      var v := FirstVacancy();
      if v.None? {
        return None;
      }
      if cfg[b].maxSta != 0 && staCount[b] >= cfg[b].maxSta {
        PutVacant(v.value, VACANT);
        return None;
      }
      Fill(v.value, NewEntry(cfg, v.value, addr, b));
      log := log + [Inserted(v.value, addr)];
      return v;
    }

    /** Takes an index off the chain of an address. */
    method Unlink(addr: Mac, i: nat)
      requires hash.Length == HASH_TABLE_SIZE
      modifies hash
      ensures hash[..] == old(hash[..])[HashOf(addr) := Without(old(hash[..])[HashOf(addr)], i)]
    {
      var h := HashOf(addr);
      var chain := hash[h];
      var k := 0;
      while k < |chain| && chain[k] != i
        invariant 0 <= k <= |chain|
        invariant Without(chain, i) == chain[..k] + Without(chain[k..], i)
      {
        assert chain[k..][1..] == chain[k + 1..];
        assert chain[..k] + ([chain[k]] + Without(chain[k + 1..], i)) == chain[..k + 1] + Without(chain[k + 1..], i);
        k := k + 1;
      }
      if k < |chain| {
        assert chain[k..][1..] == chain[k + 1..];
        hash[h] := chain[..k] + chain[k + 1..];
      } else {
        assert chain[..k] + Without(chain[k..], i) == chain;
      }
    }

    /** Makes a client's slot vacant. */
    method Vacate(i: nat)
      requires Valid() && i < TABLE && content[i].client
      modifies this`staCount, content, hash
      ensures Valid()
      ensures State() == old(State()).(content := old(content[..])[i := old(content[i]).(client := false, addr := ZERO_MAC)])
    {
      ghost var was, chains := content[..], hash[..];
      var e := content[i].(client := false, addr := ZERO_MAC);
      Vacated(was, chains, staCount, i, e);
      staCount := staCount[e.bss := staCount[e.bss] - 1];
      Unlink(content[i].addr, i);
      content[i] := e;
      assert content[..] == was[i := e];
    }

    /** MacTableDeleteEntry. */
    method DeleteEntry(i: nat, addr: Mac)
      requires Valid()
      modifies this`staCount, content, hash
      ensures Valid() && State() == Delete(old(State()), cfg, i, addr)
    {
      if i < TABLE && content[i].client && content[i].addr == addr {
        Vacate(i);
      }
    }

    /** One turn of MacTableReset, unless the farewell frame of an associated client finds no memory. */
    method ResetEntry(i: nat, memory: seq<bool>) returns (done: bool)
      requires Valid() && i < TABLE && |memory| == TABLE
      modifies this`staCount, content, hash
      ensures Valid() && ResetFrom(old(State()), cfg, i, memory) == if done then ResetFrom(State(), cfg, i + 1, memory) else State()
      ensures done ==> !content[i].client
      ensures forall k | 0 <= k < TABLE && k != i :: content[k] == old(content[k])
    {
      ghost var was := State();
      done := !(content[i].client && content[i].sst == Assoc && !memory[i]);
      if done {
        DeleteEntry(i, content[i].addr);
      }
      forall k | 0 <= k < TABLE ensures content[k] == State().content[k] && old(content[k]) == was.content[k] {
      }
    }

    /** The loop of MacTableReset over the entries: does it reach the end? */
    method ResetEntries(memory: seq<bool>) returns (all: bool)
      requires Valid() && |memory| == TABLE
      modifies this`staCount, content, hash
      ensures Valid() && State() == ResetFrom(old(State()), cfg, 1, memory)
      ensures all ==> StationRuns.NoClient(State())
    {
      for i := 1 to TABLE
        invariant Valid() && ResetFrom(State(), cfg, i, memory) == ResetFrom(old(State()), cfg, 1, memory)
        invariant forall k | 0 <= k < i :: !content[k].client
      {
        var done := ResetEntry(i, memory);
        if !done {
          return false;
        }
      }
      return true;
    }

    /** MacTableReset. */
    method MacTableReset(memory: seq<bool>)
      requires Valid() && |memory| == TABLE
      modifies this`staCount, content, hash
      ensures Valid() && State() == ResetFrom(old(State()), cfg, 1, memory)
    {
      var all := ResetEntries(memory);
      if all {
        staCount := seq(|cfg|, b => 0);
        forall b: nat ensures Population(content[..], b) == 0 {
          StationRuns.NobodyCounted(content[..], b);
        }
      }
    }

    // ---- ap/ap.c --------------------------------------------------------------------------------------

    /** APStop, as far as it changes the table and the countermeasures. */
    method ApStop(memory: seq<bool>)
      requires Valid() && |memory| == TABLE
      modifies this`cmTimer, this`staCount, content, hash
      ensures Valid() && State() == Stop(old(State()), cfg, memory)
    {
      MacTableReset(memory);
      if cmTimer {
        cmTimer := false;
      }
    }

    /** APStartUp, as far as it changes the table. */
    method ApStartUp()
      requires Valid()
      modifies this`log, content
      ensures Valid() && State() == StartUp(old(State()), cfg)
    {
      PutVacant(0, GroupEntry(content[0]));
      Record(Started);
    }

    /** ApCheckAccessControlList. */
    method CheckAccessControlList(addr: Mac, b: nat) returns (pass: bool)
      requires Valid() && b < |cfg|
      ensures pass == Passes(acl[b], addr)
    {
      pass := true;
      if acl[b].policy != 0 {
        pass := acl[b].policy != 1;
        var i := 0;
        while i < |acl[b].list|
          invariant 0 <= i <= |acl[b].list| && addr !in acl[b].list[..i]
          invariant pass == (acl[b].policy != 1)
        {
          if addr == acl[b].list[i] {
            return !pass;
          }
          i := i + 1;
        }
      }
    }

    /** The inner loop of ApUpdateAccessControlList. */
    method Matches(addr: Mac, b: nat) returns (matched: bool)
      requires Valid() && b < |cfg|
      ensures matched == (addr in acl[b].list)
    {
      for i := 0 to |acl[b].list|
        invariant addr !in acl[b].list[..i]
      {
        if addr == acl[b].list[i] {
          return true;
        }
      }
      return false;
    }

    /** ApUpdateAccessControlList. */
    method UpdateAccessControlList(b: nat, memory: seq<bool>)
      requires Valid() && b < |cfg| && |memory| == TABLE
      modifies this`staCount, content, hash
      ensures Valid()
      ensures State() == if acl[b].policy == 0 then old(State()) else PurgeFrom(old(State()), cfg, b, 0, memory)
    {
      if acl[b].policy == 0 {
        return;
      }
      for i := 0 to TABLE
        invariant Valid() && acl == old(acl)
        invariant PurgeFrom(State(), cfg, b, i, memory) == PurgeFrom(old(State()), cfg, b, 0, memory)
      {
        var e := content[i];
        if e.client && e.bss == b {
          var matched := Matches(e.addr, b);
          if (!matched && acl[b].policy == 1) || (matched && acl[b].policy == 2) {
            if e.sst == Assoc && !memory[i] {
              return;
            }
            DeleteEntry(e.aid, e.addr);
          }
        }
      }
    }

    /** A change of the list of one BSS. */
    method SetAcl(b: nat, list: Acl, memory: seq<bool>)
      requires Valid() && b < |cfg| && |memory| == TABLE
      modifies this`acl, this`staCount, content, hash
      ensures Valid() && State() == AclChange(old(State()), cfg, b, list, memory)
    {
      acl := acl[b := list];
      UpdateAccessControlList(b, memory);
    }

    // ---- ap/ap_auth.c -----------------------------------------------------------------------------------

    method FindBssid(bssid: Mac) returns (b: Option<nat>)
      ensures b == FindBss(cfg, bssid, 0)
    {
      for apidx := 0 to |cfg|
        invariant FindBss(cfg, bssid, 0) == FindBss(cfg, bssid, apidx)
      {
        if bssid == cfg[apidx].bssid {
          return Some(apidx);
        }
      }
      return None;
    }

    /** A failed authentication. */
    method RefuseAuth(who: Option<nat>, addr: Mac, status: nat)
      requires Valid() && (who.Some? ==> who.value < TABLE)
      modifies this`staCount, this`log, content, hash
      ensures Valid() && State() == Refuse(old(State()), cfg, who, addr, status)
    {
      Record(Refused(addr, status));
      if who.Some? {
        DeleteEntry(content[who.value].aid, content[who.value].addr);
      }
    }

    /** Drops an entry that belongs to another BSS. */
    method KeepOfBss(bssid: Mac, i: nat) returns (who: Option<nat>)
      requires Valid() && i < TABLE
      modifies this`staCount, content, hash
      ensures Valid() && (State(), who) == OfBss(old(State()), cfg, bssid, i)
    {
      var e := content[i];
      if e.client && cfg[e.bss].bssid != bssid {
        DeleteEntry(e.aid, e.addr);
        return None;
      }
      return Some(i);
    }

    method EnsureEntry(who: Option<nat>, addr: Mac, b: nat) returns (at: Option<nat>)
      requires Valid() && b < |cfg| && (who.Some? ==> who.value < TABLE) && (who.None? ==> Lookup(State(), addr).None?)
      modifies this`staCount, this`log, content, hash
      ensures Valid() && (State(), at) == Ensure(old(State()), cfg, who, addr, b)
    {
      if who.Some? {
        return who;
      }
      at := InsertEntry(addr, b);
    }

    method AdmitOpen(who: Option<nat>, addr: Mac, b: nat)
      requires Valid() && b < |cfg| && (who.Some? ==> who.value < TABLE) && (who.None? ==> Lookup(State(), addr).None?)
      modifies this`staCount, this`log, content, hash
      ensures Valid() && State() == AcceptOpen(old(State()), cfg, who, addr, b)
    {
      var at := EnsureEntry(who, addr, b);
      if at.Some? {
        PutEntry(at.value, content[at.value].(sst := Auth));
        Record(Succeeded(at.value, addr));
      }
    }

    /** The challenge is noted in ApMlmeAux before its frame is built. */
    method IssueChallenge(who: Option<nat>, addr: Mac, b: nat, text: seq<byte>)
      requires Valid() && b < |cfg| && (who.Some? ==> who.value < TABLE) && (who.None? ==> Lookup(State(), addr).None?)
      modifies this`staCount, this`log, this`auxAddr, this`auxText, content, hash
      ensures Valid() && State() == Challenge(old(State()), cfg, who, addr, b, text)
    {
      var at := EnsureEntry(who, addr, b);
      if at.Some? {
        PutEntry(at.value, content[at.value].(sst := NotAuth));
        auxAddr, auxText := addr, text;
        Record(Challenged(at.value, addr, text));
      }
    }

    /** The station's entry in this BSS, if any. */
    method Locate(addr1: Mac, addr2: Mac) returns (who: Option<nat>)
      requires Valid() && StationLaws.Inv(State(), cfg)
      modifies this`staCount, content, hash
      ensures Valid() && (State(), who) == StationLaws.Located(old(State()), cfg, addr1, addr2)
      ensures who.Some? ==> who.value < TABLE
      ensures who.None? ==> Lookup(State(), addr2).None?
    {
      StationLaws.LocatedInv(State(), cfg, addr1, addr2);
      who := LookupEntry(addr2);
      if who.Some? {
        who := KeepOfBss(addr1, who.value);
      }
    }

    /** APPeerAuthReqAtIdleAction. */
    method PeerAuthReq(addr1: Mac, addr2: Mac, alg: nat, up: bool, text: seq<byte>)
      requires Valid() && StationLaws.Inv(State(), cfg)
      modifies this`staCount, this`log, this`auxAddr, this`auxText, content, hash
      ensures Valid() && State() == AuthReq(old(State()), cfg, addr1, addr2, alg, up, text)
    {
      var b := FindBssid(addr1);
      if alg > AUTH_MODE_KEY || b.None? || !up {
        return;
      }
      var who := Locate(addr1, addr2);
      var pass := CheckAccessControlList(addr2, b.value);
      var mode := cfg[b.value].rsn.authMode;
      if !pass {
        RefuseAuth(who, addr2, MLME_UNSPECIFY_FAIL);
      } else if alg == AUTH_MODE_OPEN && mode != SHARED {
        AdmitOpen(who, addr2, b.value);
      } else if alg == AUTH_MODE_KEY && (mode == SHARED || mode == AUTO_SWITCH) {
        IssueChallenge(who, addr2, b.value, text);
      } else {
        RefuseAuth(who, addr2, MLME_ALG_NOT_SUPPORT);
      }
    }

    /** APPeerAuthConfirmAction. */
    method PeerAuthConfirm(addr1: Mac, addr2: Mac, wcid: nat, wep: bool, up: bool, text: seq<byte>)
      requires Valid()
      modifies this`staCount, this`log, content, hash
      ensures Valid() && State() == AuthConfirm(old(State()), cfg, addr1, addr2, wcid, wep, up, text)
    {
      var b := FindBssid(addr1);
      if b.None? || !up || wcid >= TABLE {
        return;
      }
      var who := KeepOfBss(addr1, wcid);
      if who.Some? && addr2 == auxAddr {
        if wep && text == auxText {
          PutEntry(wcid, content[wcid].(sst := Auth));
          Record(Succeeded(wcid, addr2));
        } else {
          RefuseAuth(who, addr2, MLME_REJ_CHALLENGE_FAILURE);
        }
      } else {
        RefuseAuth(who, addr2, MLME_UNSPECIFY_FAIL);
      }
    }

    // ---- ap/ap_assoc.c -------------------------------------------------------------------------------------

    /** APBuildAssociation, with update_associated_mac_entry at its end. */
    method BuildAssociation(i: nat, r: Request) returns (status: nat)
      requires Valid() && i < TABLE
      modifies content
      ensures Valid()
      ensures var (e', code) := Build(old(content[i]), cfg[old(content[i]).bss], r);
              status == code && State() == Put(old(State()), cfg, i, e')
    {
      ghost var was := content[..];
      var cell := cfg[content[i].bss];
      if !r.rateOk {
        assert was[i := content[i]] == was;
        return MLME_ASSOC_REJ_DATA_RATE;
      }
      if content[i].sst == NotAuth {
        assert was[i := content[i]] == was;
        return MLME_ASSOC_REJ_UNABLE_HANDLE_STA;
      }
      var v := ValidateRsnIe(cell.rsn, r.element, content[i].authMode, content[i].wepStatus);
      var e := content[i].(authMode := v.authMode, wepStatus := v.wepStatus);
      if v.status != MLME_SUCCESS {
        status := v.status;
      } else if e.aid == 0 {
        status := MLME_ASSOC_REJ_UNABLE_HANDLE_STA;
      } else if r.element.recorded == 0 && cell.rsn.authMode >= WPA {
        status := MLME_ASSOC_DENY_OUT_SCOPE;
      } else {
        e := Associate(e, cell);
        status := MLME_SUCCESS;
      }
      PutEntry(i, e);
    }

    /** ap_cmm_peer_assoc_req_action: says whether the access control list refused after all. */
    method PeerAssocReq(addr2: Mac, r: Request) returns (refused: bool)
      requires Valid()
      modifies this`log, content
      ensures Valid() && (State(), refused) == AssocReq(old(State()), cfg, addr2, r)
    {
      ghost var was := content[..];
      var found := LookupEntry(addr2);
      if found.None? {
        return false;
      }
      var i := found.value;
      var cell := cfg[content[i].bss];
      PutEntry(i, Renewing(content[i], cell));
      if !r.ssidMatches {
        return false;
      }
      var pass := CheckAccessControlList(addr2, content[i].bss);
      ghost var e := content[i];
      var status := BuildAssociation(i, r);
      assert was[i := e][i := content[..][i]] == was[i := content[..][i]];
      if status == MLME_SUCCESS {
        Record(Associated(i));
      }
      return !pass;
    }

    // ---- ap/ap_wpa.c ------------------------------------------------------------------------------------------

    /** HandleCounterMeasure. */
    method HandleCounterMeasure(i: nat, memory: seq<bool>)
      requires Valid() && i < TABLE && |memory| == TABLE
      modifies this`ban, this`cmTimer, this`staCount, content, hash
      ensures Valid() && State() == MicFailure(old(State()), cfg, i, memory)
    {
      if content[i].wpa < AS_PTKINITDONE || !content[i].gtkDone {
        return;
      }
      PutEntry(i, content[i].(cm := true));
      if cmTimer {
        ExpelAll(memory);
      } else {
        cmTimer := true;
      }
    }

    method ExpelAll(memory: seq<bool>)
      requires Valid() && |memory| == TABLE
      modifies this`ban, this`cmTimer, this`staCount, content, hash
      ensures Valid() && State() == Expel(old(State()), cfg, memory)
    {
      DeauthAll(memory);
      ban, cmTimer := true, true;
    }

    /** The loop over the clients. */
    method DeauthAll(memory: seq<bool>)
      requires Valid() && |memory| == TABLE
      modifies this`staCount, content, hash
      ensures Valid() && State() == DeauthFrom(old(State()), cfg, 0, memory)
    {
      for i := 0 to TABLE
        invariant Valid() && DeauthFrom(State(), cfg, i, memory) == DeauthFrom(old(State()), cfg, 0, memory)
      {
        var e := content[i];
        if e.client && memory[i] {
          DeleteEntry(e.aid, e.addr);
        }
      }
    }

    /** CMTimerExec. */
    method CmTimerExec()
      requires Valid()
      modifies this`ban, this`cmTimer, content
      ensures Valid() && State() == Timeout(old(State()), cfg)
    {
      ban := false;
      QuietAll();
      cmTimer := false;
    }

    method QuietAll()
      requires Valid()
      modifies content
      ensures Valid() && State() == old(State()).(content := Quiet(old(content[..])))
    {
      ghost var t := State();
      PartlyEnds(t.content);
      for i := 0 to TABLE
        invariant Valid() && State() == t.(content := Partly(t.content, i))
      {
        QuietEntry(i, t);
      }
    }

    method QuietEntry(i: nat, ghost t: Table)
      requires Valid() && i < TABLE == |t.content| && State() == t.(content := Partly(t.content, i))
      modifies content
      ensures Valid() && State() == t.(content := Partly(t.content, i + 1))
    {
      PartlyNext(t.content, i);
      assert content[i] == State().content[i];
      if content[i].client && content[i].cm {
        PutEntry(i, content[i].(cm := false));
      } else {
        assert State().content[i := content[i]] == State().content;
      }
    }

    // ---- common/cmm_wpa.c, ap/ap_wpa.c: the port ------------------------------------------------------

    /** PeerPairMsg4Action on a message that passes its checks, in a key handshake of an associated client. */
    method PeerPairMsg4(i: nat)
      requires Valid() && i < TABLE
      modifies this`log, content
      ensures Valid() && State() == Msg4(old(State()), cfg, i)
    {
      var e := content[i];
      if e.client && e.sst == Assoc && e.wpa >= AS_PTKINIT_NEGOTIATING {
        PutEntry(i, e.(filterOpen := true, wpa := AS_PTKINITDONE, secured := true,
                       gtkDone := e.gtkDone || e.authMode == WPA2 || e.authMode == WPA2PSK));
        Record(Released(i));
      }
    }

    /** WpaEAPOLStartAction. */
    method EapolStartAction(addr: Mac, cached: bool, sent: bool)
      requires Valid()
      modifies content
      ensures Valid() && State() == EapolStart(old(State()), cfg, addr, cached, sent)
    {
      var found := LookupEntry(addr);
      if found.Some? {
        var e := content[found.value];
        if !e.secured && e.wpa < AS_PTKSTART
           && (e.authMode == WPAPSK || e.authMode == WPA2PSK || (e.authMode == WPA2 && cached)) {
          PutEntry(found.value, e.(filterOpen := false, wpa := if sent then AS_PTKSTART else AS_INITPSK));
        }
      }
    }

    /** A success packet from the 802.1X daemon. */
    method DaemonSuccess(addr: Mac, keyType: bool)
      requires Valid()
      modifies this`log, content
      ensures Valid() && State() == EapSuccess(old(State()), cfg, addr, keyType)
    {
      var found := LookupEntry(addr);
      if found.None? {
        return;
      }
      var i, e := found.value, content[found.value];
      if e.authMode >= WPA && !keyType {
        if e.sst == Assoc {
          PutEntry(i, e.(wpa := AS_INITPMK));
        }
      } else {
        PutEntry(i, e.(filterOpen := true, wpa := AS_PTKINITDONE, secured := true));
        Record(Released(i));
      }
    }

    // ---- ap/ap_data.c -------------------------------------------------------------------------------------------

    /** APCheckClass2Class3Error. */
    method CheckClassError(wcid: nat, addr2: Mac) returns (error: bool)
      requires Valid()
      modifies this`staCount, content, hash
      ensures Valid() && (State(), error) == ClassCheck(old(State()), cfg, wcid, addr2)
    {
      if wcid >= TABLE {
        var found := LookupEntry(addr2);
        return found.None?;
      }
      if content[wcid].sst == Assoc {
        return false;
      }
      if content[wcid].sst == Auth || content[wcid].client {
        DeleteEntry(content[wcid].aid, addr2);
      }
      return true;
    }

    /** APCheckVaildDataFrame: the index to file a valid frame under. */
    method CheckValidDataFrame(d: Data) returns (at: Option<nat>)
      requires Valid()
      modifies this`staCount, content, hash
      ensures Valid() && (State(), at) == ValidData(old(State()), cfg, d)
    {
      if !d.toDs {
        return None;
      }
      if !d.frDs {
        var error := CheckClassError(d.wcid, d.addr2);
        if error {
          return None;
        }
      }
      var wcid := Refile(d.wcid, d.addr2);
      if ban {
        return None;
      }
      return Some(wcid);
    }

    /** Replaces an index out of range for an associated client. */
    method Refile(wcid: nat, addr2: Mac) returns (i: nat)
      requires Valid()
      ensures i == Refiled(State(), wcid, addr2)
    {
      if wcid >= TABLE {
        var found := LookupEntry(addr2);
        if found.Some? && content[found.value].sst == Assoc {
          return content[found.value].aid;
        }
      }
      return wcid;
    }

    /** APRxDataFrameAnnounce. */
    method AnnounceDataFrame(i: nat, d: Data) returns (up: bool)
      requires Valid() && i < TABLE
      modifies this`staCount, content, hash
      ensures Valid() && (State(), up) == Announce(old(State()), cfg, i, d)
    {
      var e := content[i];
      if d.eapol {
        if e.wpa == AS_AUTHENTICATION {
          PutEntry(i, e.(wpa := AS_AUTHENTICATION2));
        }
        return true;
      }
      if !e.filterOpen {
        if e.client && d.wep && d.late && e.wpa < AS_AUTHENTICATION2 && d.memory {
          DeleteEntry(e.aid, e.addr);
        }
        return false;
      }
      return true;
    }

    /** APHandleRxDataFrame. */
    method HandleRxDataFrame(d: Data) returns (to: Option<nat>)
      requires Valid()
      modifies this`staCount, content, hash
      ensures Valid() && (State(), to) == ReceiveData(old(State()), cfg, d)
    {
      var at := CheckValidDataFrame(d);
      if at.None? || d.frDs || at.value >= TABLE || d.noData {
        return None;
      }
      var up := AnnounceDataFrame(at.value, d);
      return if up then at else None;
    }

    /** APHandleRxMgmtFrame with the handler of the frame as one step. */
    method HandleRxMgmtFrame(f: Mgmt)
      requires Valid() && StationLaws.Inv(State(), cfg)
      modifies this`staCount, this`log, this`auxAddr, this`auxText, content, hash
      ensures Valid() && State() == Receive(old(State()), cfg, f)
    {
      if ban && (f.AuthFrame1? || f.AuthFrame3? || (f.AssocFrame? && !f.reassoc)) {
        return;
      }
      match f
      case AuthFrame1(addr1, addr2, alg, up, text) =>
        PeerAuthReq(addr1, addr2, alg, up, text);
      case AuthFrame3(addr1, addr2, wcid, wep, up, text) =>
        PeerAuthConfirm(addr1, addr2, wcid, wep, up, text);
      case AssocFrame(reassoc, addr2, request) =>
        var refused := PeerAssocReq(addr2, request);
      case DisassocFrame(addr2, wcid) =>
        var found := LookupEntry(addr2);
        if found.Some? {
          DeleteEntry(wcid, addr2);
        }
      case DeauthFrame(addr2, wcid) =>
        DeleteEntry(wcid, addr2);
    }
  }
}
