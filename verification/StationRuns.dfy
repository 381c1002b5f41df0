/** Safety of the station table over whole runs: countermeasures, access control, authentication before
    association, and what data gets through. */
module StationRuns {
  import opened Octets
  import opened Wrappers
  import opened Rsn
  import opened StationTable
  import opened StationLaws

  /** The state after the first start-up. */
  ghost predicate Start(t: Table, cfg: seq<Cell>) {
    && Shape(t, cfg) && t.auxAddr == ZERO_MAC && Blank(t.auxText) && !t.ban && !t.cmTimer && t.log == []
    && t.content[0] == GroupEntry(VACANT) && forall i | 1 <= i < TABLE :: t.content[i] == VACANT
  }

  ghost predicate Valid(t: Table, cfg: seq<Cell>, es: seq<Event>)
    requires Shape(t, cfg)
    decreases |es|
  {
    es == [] || (Enabled(t, cfg, es[0]) && Valid(Step(t, cfg, es[0]), cfg, es[1..]))
  }

  ghost function Run(t: Table, cfg: seq<Cell>, es: seq<Event>): (t': Table)
    requires Shape(t, cfg) && Valid(t, cfg, es)
    ensures Shape(t', cfg)
    decreases |es|
  {
    if es == [] then t else Run(Step(t, cfg, es[0]), cfg, es[1..])
  }

  lemma StartInv(t: Table, cfg: seq<Cell>)
    requires Start(t, cfg)
    ensures Inv(t, cfg)
  {
  }

  /** Every reachable table keeps the invariant: addresses are unique, and no entry is ahead of its log. */
  lemma {:induction false} RunInv(t: Table, cfg: seq<Cell>, es: seq<Event>)
    requires Inv(t, cfg) && Valid(t, cfg, es)
    ensures Inv(Run(t, cfg, es), cfg)
    decreases |es|
  {
    if es != [] {
      StepInv(t, cfg, es[0]);
      RunInv(Step(t, cfg, es[0]), cfg, es[1..]);
    }
  }

  // ---- Countermeasures --------------------------------------------------------------------------

  ghost predicate NoClient(t: Table) {
    forall i | 0 <= i < |t.content| :: !t.content[i].client
  }

  ghost predicate Quarantined(t: Table) {
    t.ban ==> NoClient(t)
  }

  /** Farewell frames of the countermeasures can be allocated. */
  ghost predicate Allocates(e: Event) {
    e.EMic? ==> forall k | 0 <= k < |e.memory| :: e.memory[k]
  }

  /** The ban begins with a counted second failure while the timer runs, and ends with the timer only. */
  lemma BanChanges(t: Table, cfg: seq<Cell>, e: Event)
    requires Inv(t, cfg) && Enabled(t, cfg, e)
    ensures Step(t, cfg, e).ban <==>
              (t.ban && e != ETimer) || (e.EMic? && Keyed(t.content[e.i]) && t.cmTimer)
  {
    match e
    case EMic(i, memory) => MicFailureInv(t, cfg, i, memory);
    case _ =>
  }

  lemma AclBan(t: Table, cfg: seq<Cell>, b: nat, acl: Acl, memory: seq<bool>)
    requires Inv(t, cfg) && b < |cfg| && |memory| == TABLE
    ensures AclChange(t, cfg, b, acl, memory).ban == t.ban && AclChange(t, cfg, b, acl, memory).log == t.log
    ensures AclChange(t, cfg, b, acl, memory).acl == t.acl[b := acl]
  {
    AclSetInv(t, cfg, b, acl);
    PurgeInv(t.(acl := t.acl[b := acl]), cfg, b, 0, memory);
  }

  lemma AclSetInv(t: Table, cfg: seq<Cell>, b: nat, acl: Acl)
    requires Inv(t, cfg) && b < |cfg|
    ensures Inv(t.(acl := t.acl[b := acl]), cfg)
  {
    forall j | 0 <= j < TABLE ensures EntryOk(t.content[j], j, cfg, t.log) {
    }
  }

  lemma StepQuarantined(t: Table, cfg: seq<Cell>, e: Event)
    requires Inv(t, cfg) && Enabled(t, cfg, e) && Quarantined(t) && Allocates(e)
    ensures Quarantined(Step(t, cfg, e))
  {
    StepInv(t, cfg, e);
    BanChanges(t, cfg, e);
    if Step(t, cfg, e).ban && e.EMic? {
      MicFailureInv(t, cfg, e.i, e.memory);
    }
  }

  lemma {:induction false} RunQuarantined(t: Table, cfg: seq<Cell>, es: seq<Event>)
    requires Inv(t, cfg) && Valid(t, cfg, es) && Quarantined(t)
    requires forall k | 0 <= k < |es| :: Allocates(es[k])
    ensures Quarantined(Run(t, cfg, es))
    decreases |es|
  {
    if es != [] {
      StepInv(t, cfg, es[0]);
      StepQuarantined(t, cfg, es[0]);
      RunQuarantined(Step(t, cfg, es[0]), cfg, es[1..]);
    }
  }

  ghost predicate TimerBehind(t: Table) {
    t.ban ==> t.cmTimer
  }

  ghost predicate StopsBan(t: Table, e: Event) {
    e.EStop? && t.ban
  }

  /** A step keeps a timer behind the ban if and only if it is no stop during one. */
  lemma StepTimerExactly(t: Table, cfg: seq<Cell>, e: Event)
    requires Shape(t, cfg) && Enabled(t, cfg, e) && TimerBehind(t)
    ensures TimerBehind(Step(t, cfg, e)) <==> !StopsBan(t, e)
  {
  }

  ghost predicate NoStopInBan(t: Table, cfg: seq<Cell>, es: seq<Event>)
    requires Shape(t, cfg) && Valid(t, cfg, es)
    decreases |es|
  {
    es == [] || (!StopsBan(t, es[0]) && NoStopInBan(Step(t, cfg, es[0]), cfg, es[1..]))
  }

  ghost predicate TimerThroughout(t: Table, cfg: seq<Cell>, es: seq<Event>)
    requires Shape(t, cfg) && Valid(t, cfg, es)
    decreases |es|
  {
    TimerBehind(t) && (es == [] || TimerThroughout(Step(t, cfg, es[0]), cfg, es[1..]))
  }

  /** All along a run a timer runs behind every ban if and only if the access point is never stopped in one. */
  lemma {:induction false} RunTimerExactly(t: Table, cfg: seq<Cell>, es: seq<Event>)
    requires Shape(t, cfg) && Valid(t, cfg, es) && TimerBehind(t)
    ensures TimerThroughout(t, cfg, es) <==> NoStopInBan(t, cfg, es)
    ensures NoStopInBan(t, cfg, es) ==> TimerBehind(Run(t, cfg, es))
    decreases |es|
  {
    if es != [] {
      StepTimerExactly(t, cfg, es[0]);
      if !StopsBan(t, es[0]) {
        RunTimerExactly(Step(t, cfg, es[0]), cfg, es[1..]);
      }
    }
  }

  /** While the ban holds, no station is in the table, no data frame is accepted and no management frame brings a
      station back, reassociation requests included; and the timer that will lift it is running, unless the access
      point was stopped during a ban. */
  lemma BanHolds(t: Table, cfg: seq<Cell>, es: seq<Event>)
    requires Start(t, cfg) && Valid(t, cfg, es)
    requires forall k | 0 <= k < |es| :: Allocates(es[k])
    requires Run(t, cfg, es).ban
    ensures var t' := Run(t, cfg, es);
            && NoClient(t') && (NoStopInBan(t, cfg, es) ==> t'.cmTimer)
            && (forall d :: ValidData(t', cfg, d).1.None? && ReceiveData(t', cfg, d).1.None?)
            && (forall f :: NoClient(Receive(t', cfg, f)))
  {
    StartInv(t, cfg);
    RunInv(t, cfg, es);
    RunQuarantined(t, cfg, es);
    RunTimerExactly(t, cfg, es);
    var t' := Run(t, cfg, es);
    forall d ensures ValidData(t', cfg, d).1.None? && ReceiveData(t', cfg, d).1.None? {
      NoDataInBan(t', cfg, d);
    }
    forall f ensures NoClient(Receive(t', cfg, f)) {
      ReceiveInv(t', cfg, f);
    }
  }

  lemma NoDataInBan(t: Table, cfg: seq<Cell>, d: Data)
    requires Inv(t, cfg) && t.ban
    ensures ValidData(t, cfg, d).1.None? && ReceiveData(t, cfg, d).1.None?
  {
  }

  /** Without the allocations the table is not emptied: a second counted failure leaves no station exactly
      when the farewell frame of every station could be allocated. */
  lemma EmptiedExactly(t: Table, cfg: seq<Cell>, i: nat, memory: seq<bool>)
    requires Inv(t, cfg) && i < TABLE && |memory| == TABLE && Keyed(t.content[i]) && t.cmTimer
    ensures MicFailure(t, cfg, i, memory).ban
    ensures NoClient(MicFailure(t, cfg, i, memory)) <==> forall k | 0 <= k < TABLE && t.content[k].client :: memory[k]
  {
    MicFailureInv(t, cfg, i, memory);
    var t' := MicFailure(t, cfg, i, memory);
    if k :| 0 <= k < TABLE && t.content[k].client && !memory[k] {
      assert t'.content[k].client;
    }
  }

  /** A MIC failure that counts: the station's key handshakes are complete. */
  ghost predicate Counts(t: Table, e: Event) {
    e.EMic? && e.i < |t.content| && Keyed(t.content[e.i])
  }

  ghost predicate Uncounted(t: Table, cfg: seq<Cell>, es: seq<Event>)
    requires Shape(t, cfg) && Valid(t, cfg, es)
    decreases |es|
  {
    es == [] || (!Counts(t, es[0]) && Uncounted(Step(t, cfg, es[0]), cfg, es[1..]))
  }

  /** In a ban without its timer a step leaves both as they are, except a counted MIC failure, which begins the
      timer anew. */
  lemma StrandedStep(t: Table, cfg: seq<Cell>, e: Event)
    requires Shape(t, cfg) && Enabled(t, cfg, e) && t.ban && !t.cmTimer
    ensures Step(t, cfg, e).ban && (Step(t, cfg, e).cmTimer <==> Counts(t, e))
  {
  }

  lemma {:induction false} StrandedRun(t: Table, cfg: seq<Cell>, es: seq<Event>)
    requires Shape(t, cfg) && Valid(t, cfg, es) && t.ban && !t.cmTimer && Uncounted(t, cfg, es)
    ensures Run(t, cfg, es).ban && !Run(t, cfg, es).cmTimer
    decreases |es|
  {
    if es != [] {
      StrandedStep(t, cfg, es[0]);
      StrandedRun(Step(t, cfg, es[0]), cfg, es[1..]);
    }
  }

  /** A ban stranded by a stop outlasts every run without a counted MIC failure, further stops and starts
      included, and no timer runs that would lift it. */
  lemma StopStrandsBan(t: Table, cfg: seq<Cell>, memory: seq<bool>, es: seq<Event>)
    requires Inv(t, cfg) && |memory| == TABLE && Valid(Stop(t, cfg, memory), cfg, es)
    ensures TimerBehind(Stop(t, cfg, memory)) <==> !t.ban
    ensures t.ban && Uncounted(Stop(t, cfg, memory), cfg, es) ==>
              Run(Stop(t, cfg, memory), cfg, es).ban && !Run(Stop(t, cfg, memory), cfg, es).cmTimer
  {
    if t.ban && Uncounted(Stop(t, cfg, memory), cfg, es) {
      StrandedRun(Stop(t, cfg, memory), cfg, es);
    }
  }

  // ---- Stop ------------------------------------------------------------------------------------------

  ghost predicate StaysFrom(t: Table, i: nat) {
    exists k | i <= k < |t.content| :: t.content[k].client
  }

  ghost predicate FarewellFails(t: Table, i: nat, memory: seq<bool>) {
    |memory| == |t.content| && exists k | i <= k < |t.content| :: t.content[k].client && t.content[k].sst == Assoc && !memory[k]
  }

  lemma {:induction false} ResetExact(t: Table, cfg: seq<Cell>, i: nat, memory: seq<bool>)
    requires Shape(t, cfg) && i <= TABLE && |memory| == TABLE
    ensures StaysFrom(ResetFrom(t, cfg, i, memory), i) <==> FarewellFails(t, i, memory)
    ensures forall k | 0 <= k < i :: ResetFrom(t, cfg, i, memory).content[k] == t.content[k]
    decreases TABLE - i
  {
    if i < TABLE {
      var e := t.content[i];
      if e.client && e.sst == Assoc && !memory[i] {
        assert StaysFrom(t, i) && FarewellFails(t, i, memory);
      } else {
        var t1 := Delete(t, cfg, i, e.addr);
        var t' := ResetFrom(t1, cfg, i + 1, memory);
        ResetExact(t1, cfg, i + 1, memory);
        assert !t'.content[i].client;
        assert StaysFrom(t', i) <==> StaysFrom(t', i + 1);
        assert FarewellFails(t1, i + 1, memory) <==> FarewellFails(t, i, memory);
      }
    }
  }

  /** A stop empties the table if and only if the farewell frame of every associated client can be allocated. */
  lemma StopEmptiesExactly(t: Table, cfg: seq<Cell>, memory: seq<bool>)
    requires Inv(t, cfg) && |memory| == TABLE
    ensures NoClient(Stop(t, cfg, memory)) <==>
            forall k | 0 <= k < TABLE && t.content[k].client && t.content[k].sst == Assoc :: memory[k]
  {
    ResetExact(t, cfg, 1, memory);
    StopInv(t, cfg, memory);
    var t1 := ResetFrom(t, cfg, 1, memory);
    assert NoClient(Stop(t, cfg, memory)) <==> !StaysFrom(t1, 1);
  }

  // ---- Access control -----------------------------------------------------------------------------

  /** Every station passes the access control list of its own BSS. */
  ghost predicate AclOk(t: Table, cfg: seq<Cell>)
    requires Shape(t, cfg)
  {
    forall i | 0 <= i < TABLE && t.content[i].client :: Passes(t.acl[t.content[i].bss], t.content[i].addr)
  }

  ghost predicate Refused1(t: Table, i: nat, b: nat, acl: Acl)
    requires i < |t.content|
  {
    t.content[i].client && t.content[i].bss == b && !Passes(acl, t.content[i].addr)
  }

  ghost predicate CleanFrom(t: Table, i: nat, b: nat, acl: Acl) {
    |t.content| == TABLE && forall k | i <= k < TABLE :: !Refused1(t, k, b, acl)
  }

  /** The farewell frame of every refused associated station from index i can be allocated. */
  ghost predicate AllocatedFrom(t: Table, i: nat, b: nat, acl: Acl, memory: seq<bool>) {
    && |t.content| == |memory| == TABLE
    && forall k | i <= k < TABLE && Refused1(t, k, b, acl) && t.content[k].sst == Assoc :: memory[k]
  }

  /** The purge removes every station the list refuses, unless an allocation for an associated one fails. */
  lemma {:induction false} PurgeExact(t: Table, cfg: seq<Cell>, b: nat, i: nat, memory: seq<bool>)
    requires Inv(t, cfg) && b < |cfg| && i <= TABLE && |memory| == TABLE && t.acl[b].policy <= 2
    ensures CleanFrom(PurgeFrom(t, cfg, b, i, memory), i, b, t.acl[b]) <==> AllocatedFrom(t, i, b, t.acl[b], memory)
    ensures forall k | 0 <= k < i :: PurgeFrom(t, cfg, b, i, memory).content[k] == t.content[k]
    decreases TABLE - i
  {
    if i < TABLE {
      var e, acl := t.content[i], t.acl[b];
      var t' := PurgeFrom(t, cfg, b, i, memory);
      assert Unwanted(e, b, acl) <==> Refused1(t, i, b, acl);
      assert CleanFrom(t', i, b, acl) <==> !Refused1(t', i, b, acl) && CleanFrom(t', i + 1, b, acl);
      if !Unwanted(e, b, acl) {
        PurgeExact(t, cfg, b, i + 1, memory);
      } else if e.sst != Assoc || memory[i] {
        DeleteOwn(t, cfg, i);
        PurgeExact(Delete(t, cfg, e.aid, e.addr), cfg, b, i + 1, memory);
      }
    }
  }

  /** A policy other than 0, 1 and 2 checks like a negative list but removes nobody. */
  lemma {:induction false} PurgeIdle(t: Table, cfg: seq<Cell>, b: nat, i: nat, memory: seq<bool>)
    requires Shape(t, cfg) && b < |cfg| && i <= TABLE && |memory| == TABLE && t.acl[b].policy > 2
    ensures PurgeFrom(t, cfg, b, i, memory) == t
    decreases TABLE - i
  {
    if i < TABLE {
      PurgeIdle(t, cfg, b, i + 1, memory);
    }
  }

  /** After a change of a list, every station of the BSS passes it if and only if, for policies 1 and 2, the
      farewell frame of every refused associated station could be allocated, and, for a policy above 2, no
      station is refused. */
  lemma AclChangeExact(t: Table, cfg: seq<Cell>, b: nat, acl: Acl, memory: seq<bool>)
    requires Inv(t, cfg) && b < |cfg| && |memory| == TABLE
    ensures CleanFrom(AclChange(t, cfg, b, acl, memory), 0, b, acl) <==>
            if acl.policy <= 2 then AllocatedFrom(t, 0, b, acl, memory) else CleanFrom(t, 0, b, acl)
  {
    AclSetInv(t, cfg, b, acl);
    var t1 := t.(acl := t.acl[b := acl]);
    forall k | 0 <= k < TABLE ensures Refused1(t1, k, b, acl) == Refused1(t, k, b, acl) {
    }
    if acl.policy == 0 {
      assert CleanFrom(t1, 0, b, acl) && AllocatedFrom(t, 0, b, acl, memory);
    } else if acl.policy <= 2 {
      PurgeExact(t1, cfg, b, 0, memory);
      assert AllocatedFrom(t1, 0, b, acl, memory) <==> AllocatedFrom(t, 0, b, acl, memory);
    } else {
      PurgeIdle(t1, cfg, b, 0, memory);
    }
  }

  /** An ordinary change of a list. */
  ghost predicate PlainChange(e: Event) {
    e.EAcl? ==> e.acl.policy <= 2 && forall k | 0 <= k < |e.memory| :: e.memory[k]
  }

  lemma AclChangeOk(t: Table, cfg: seq<Cell>, b: nat, acl: Acl, memory: seq<bool>)
    requires Inv(t, cfg) && b < |cfg| && |memory| == TABLE && AclOk(t, cfg)
    requires acl.policy <= 2 && forall k | 0 <= k < TABLE :: memory[k]
    ensures AclOk(AclChange(t, cfg, b, acl, memory), cfg)
  {
    AclChangeExact(t, cfg, b, acl, memory);
    AclChangeInv(t, cfg, b, acl, memory);
    AclBan(t, cfg, b, acl, memory);
    var t' := AclChange(t, cfg, b, acl, memory);
    forall i | 0 <= i < TABLE && t'.content[i].client ensures Passes(t'.acl[t'.content[i].bss], t'.content[i].addr) {
      assert !Refused1(t', i, b, acl);
    }
  }

  lemma StepAclOk(t: Table, cfg: seq<Cell>, e: Event)
    requires Inv(t, cfg) && Enabled(t, cfg, e) && AclOk(t, cfg) && PlainChange(e)
    ensures AclOk(Step(t, cfg, e), cfg)
  {
    if e.EAcl? {
      AclChangeOk(t, cfg, e.b, e.acl, e.memory);
    } else {
      StepInv(t, cfg, e);
    }
  }

  lemma {:induction false} RunAclOk(t: Table, cfg: seq<Cell>, es: seq<Event>)
    requires Inv(t, cfg) && Valid(t, cfg, es) && AclOk(t, cfg)
    requires forall k | 0 <= k < |es| :: PlainChange(es[k])
    ensures AclOk(Run(t, cfg, es), cfg)
    decreases |es|
  {
    if es != [] {
      StepInv(t, cfg, es[0]);
      StepAclOk(t, cfg, es[0]);
      RunAclOk(Step(t, cfg, es[0]), cfg, es[1..]);
    }
  }

  /** In every reachable state every station passes its list, so the refusal that follows a completed
      association is never taken. */
  lemma AclHolds(t: Table, cfg: seq<Cell>, es: seq<Event>)
    requires Start(t, cfg) && Valid(t, cfg, es)
    requires forall k | 0 <= k < |es| :: PlainChange(es[k])
    ensures AclOk(Run(t, cfg, es), cfg)
    ensures forall addr2, r :: !AssocReq(Run(t, cfg, es), cfg, addr2, r).1
  {
    StartInv(t, cfg);
    RunAclOk(t, cfg, es);
  }

  // ---- Room ---------------------------------------------------------------------------------------

  /** No BSS has more clients than its limit, where it has one. */
  ghost predicate WithinLimits(t: Table, cfg: seq<Cell>) {
    forall b: nat | b < |cfg| && cfg[b].maxSta != 0 :: Population(t.content, b) <= cfg[b].maxSta
  }

  lemma {:induction false} PopulationThin(c: seq<Entry>, c': seq<Entry>, b: nat)
    requires |c'| == |c| && forall i | 0 <= i < |c| && c'[i].client :: c[i].client && c'[i].bss == c[i].bss
    ensures Population(c', b) <= Population(c, b)
  {
    if c != [] {
      PopulationThin(c[1..], c'[1..], b);
    }
  }

  lemma LimitsThin(t: Table, t': Table, cfg: seq<Cell>)
    requires Thinner(t, t') && WithinLimits(t, cfg)
    ensures WithinLimits(t', cfg)
  {
    forall b: nat | b < |cfg| && cfg[b].maxSta != 0 ensures Population(t'.content, b) <= cfg[b].maxSta {
      PopulationThin(t.content, t'.content, b);
    }
  }

  lemma {:induction false} PopulationUpdate(content: seq<Entry>, i: nat, e: Entry, b: nat)
    requires i < |content|
    ensures Population(content[i := e], b) ==
            Population(content, b) - (if content[i].client && content[i].bss == b then 1 else 0)
            + (if e.client && e.bss == b then 1 else 0)
  {
    if i == 0 {
      assert content[0 := e][1..] == content[1..];
    } else {
      assert content[i := e][1..] == content[1..][i - 1 := e];
      PopulationUpdate(content[1..], i - 1, e, b);
    }
  }

  /** The clients of a BSS. */
  ghost function ClientsOf(content: seq<Entry>, b: nat): set<nat> {
    set i: nat | i < |content| && content[i].client && content[i].bss == b
  }

  lemma {:induction false} PopulationSplit(front: seq<Entry>, e: Entry, b: nat)
    ensures Population(front + [e], b) == Population(front, b) + if e.client && e.bss == b then 1 else 0
  {
    if front == [] {
      assert front + [e] == [e] && [e][1..] == [];
    } else {
      assert (front + [e])[1..] == front[1..] + [e];
      PopulationSplit(front[1..], e, b);
    }
  }

  /** A BSS's station count is the number of its clients. */
  lemma {:induction false} PopulationCounts(content: seq<Entry>, b: nat)
    ensures Population(content, b) == |ClientsOf(content, b)|
    decreases |content|
  {
    if content == [] {
      assert ClientsOf(content, b) == {};
    } else {
      var n := |content| - 1;
      var front := content[..n];
      assert content == front + [content[n]];
      PopulationSplit(front, content[n], b);
      PopulationCounts(front, b);
      assert ClientsOf(content, b) == ClientsOf(front, b) + if content[n].client && content[n].bss == b then {n} else {};
    }
  }

  lemma InsertLimits(t: Table, cfg: seq<Cell>, addr: Mac, b: nat)
    requires Shape(t, cfg) && b < |cfg| && WithinLimits(t, cfg)
    ensures WithinLimits(Insert(t, cfg, addr, b).0, cfg)
  {
    var v := Vacancy(t.content, 1);
    if v.Some? {
      forall c: nat | c < |cfg| && cfg[c].maxSta != 0
        ensures Population(Insert(t, cfg, addr, b).0.content, c) <= cfg[c].maxSta
      {
        PopulationUpdate(t.content, v.value, VACANT, c);
        PopulationUpdate(t.content, v.value, NewEntry(cfg, v.value, addr, b), c);
      }
    }
  }

  lemma AuthReqLimits(t: Table, cfg: seq<Cell>, addr1: Mac, addr2: Mac, alg: nat, up: bool, text: seq<byte>)
    requires Inv(t, cfg) && WithinLimits(t, cfg)
    ensures WithinLimits(AuthReq(t, cfg, addr1, addr2, alg, up, text), cfg)
  {
    var b := FindBss(cfg, addr1, 0);
    if alg <= AUTH_MODE_KEY && b.Some? && up {
      var (t1, who) := Located(t, cfg, addr1, addr2);
      LocatedInv(t, cfg, addr1, addr2);
      LimitsThin(t, t1, cfg);
      RefuseInv(t1, cfg, who, addr2, MLME_UNSPECIFY_FAIL);
      LimitsThin(t1, Refuse(t1, cfg, who, addr2, MLME_UNSPECIFY_FAIL), cfg);
      RefuseInv(t1, cfg, who, addr2, MLME_ALG_NOT_SUPPORT);
      LimitsThin(t1, Refuse(t1, cfg, who, addr2, MLME_ALG_NOT_SUPPORT), cfg);
      AdmitLimits(t1, cfg, who, addr2, b.value, text);
    }
  }

  lemma AdmitLimits(t: Table, cfg: seq<Cell>, who: Option<nat>, addr: Mac, b: nat, text: seq<byte>)
    requires Inv(t, cfg) && WithinLimits(t, cfg) && b < |cfg| && (who.Some? ==> 0 < who.value < TABLE)
    requires who.None? ==> Lookup(t, addr).None?
    ensures WithinLimits(AcceptOpen(t, cfg, who, addr, b), cfg) && WithinLimits(Challenge(t, cfg, who, addr, b, text), cfg)
  {
    var (t1, at) := Ensure(t, cfg, who, addr, b);
    EnsureInv(t, cfg, who, addr, b);
    InsertLimits(t, cfg, addr, b);
    if at.Some? {
      SuccessInv(t1, cfg, at.value, addr);
      LimitsThin(t1, AcceptOpen(t, cfg, who, addr, b), cfg);
      ChallengeInv(t1, cfg, at.value, addr, text);
      LimitsThin(t1, Challenge(t, cfg, who, addr, b, text), cfg);
    }
  }

  lemma StepLimits(t: Table, cfg: seq<Cell>, e: Event)
    requires Inv(t, cfg) && Enabled(t, cfg, e) && WithinLimits(t, cfg)
    ensures WithinLimits(Step(t, cfg, e), cfg)
  {
    if e.EMgmt? && e.f.AuthFrame1? {
      AuthReqLimits(t, cfg, e.f.addr1, e.f.addr2, e.f.alg, e.f.up, e.f.text);
    } else {
      StepInv(t, cfg, e);
      LimitsThin(if e.EAcl? then t.(acl := t.acl[e.b := e.acl]) else t, Step(t, cfg, e), cfg);
    }
  }

  lemma {:induction false} RunLimits(t: Table, cfg: seq<Cell>, es: seq<Event>)
    requires Inv(t, cfg) && Valid(t, cfg, es) && WithinLimits(t, cfg)
    ensures WithinLimits(Run(t, cfg, es), cfg)
    decreases |es|
  {
    if es != [] {
      StepInv(t, cfg, es[0]);
      StepLimits(t, cfg, es[0]);
      RunLimits(Step(t, cfg, es[0]), cfg, es[1..]);
    }
  }

  lemma {:induction false} NobodyCounted(content: seq<Entry>, b: nat)
    requires forall i | 0 <= i < |content| :: !content[i].client
    ensures Population(content, b) == 0
  {
    if content != [] {
      NobodyCounted(content[1..], b);
    }
  }

  /** In every reachable state no BSS is over its limit. */
  lemma LimitsHold(t: Table, cfg: seq<Cell>, es: seq<Event>)
    requires Start(t, cfg) && Valid(t, cfg, es)
    ensures WithinLimits(Run(t, cfg, es), cfg)
    ensures forall b: nat | b < |cfg| && cfg[b].maxSta != 0 :: |ClientsOf(Run(t, cfg, es).content, b)| <= cfg[b].maxSta
  {
    StartInv(t, cfg);
    forall b: nat ensures Population(t.content, b) == 0 {
      NobodyCounted(t.content, b);
    }
    RunLimits(t, cfg, es);
    forall b: nat | b < |cfg| && cfg[b].maxSta != 0 ensures |ClientsOf(Run(t, cfg, es).content, b)| <= cfg[b].maxSta {
      PopulationCounts(Run(t, cfg, es).content, b);
    }
  }

  /** The station has entry i, authenticated, in a BSS with this identifier, and its success is the last record. */
  ghost predicate JustAuthenticated(t: Table, cfg: seq<Cell>, i: nat, bssid: Mac, addr: Mac)
    requires Shape(t, cfg)
  {
    && i < TABLE && t.content[i].client && t.content[i].addr == addr && t.content[i].sst == Auth
    && cfg[t.content[i].bss].bssid == bssid
    && t.log != [] && t.log[|t.log| - 1] == Succeeded(i, addr)
  }

  lemma AcceptOpenOutcome(t: Table, cfg: seq<Cell>, who: Option<nat>, addr: Mac, b: nat)
    requires Inv(t, cfg) && b < |cfg| && (who.None? ==> Lookup(t, addr).None?)
    requires who.Some? ==> who.value < TABLE && t.content[who.value].client && t.content[who.value].addr == addr
                           && cfg[t.content[who.value].bss].bssid == cfg[b].bssid
    ensures var at := Ensure(t, cfg, who, addr, b).1;
            if at.None? then Lookup(AcceptOpen(t, cfg, who, addr, b), addr).None?
            else JustAuthenticated(AcceptOpen(t, cfg, who, addr, b), cfg, at.value, cfg[b].bssid, addr)
  {
  }

  /** An open authentication that the list lets pass ends with the station authenticated in the addressed BSS,
      unless it had no entry there and the table or the BSS is full. */
  lemma OpenAuthSucceeds(t: Table, cfg: seq<Cell>, addr1: Mac, addr2: Mac, text: seq<byte>, b: nat)
    requires Inv(t, cfg) && !t.ban && FindBss(cfg, addr1, 0) == Some(b)
    requires Passes(t.acl[b], addr2) && cfg[b].rsn.authMode != SHARED
    ensures var t' := Receive(t, cfg, AuthFrame1(addr1, addr2, AUTH_MODE_OPEN, true, text));
            var (t1, who) := Located(t, cfg, addr1, addr2);
            var full := Vacancy(t1.content, 1).None? || (cfg[b].maxSta != 0 && Population(t1.content, b) >= cfg[b].maxSta);
            if who.None? && full then Lookup(t', addr2).None?
            else exists i: nat :: JustAuthenticated(t', cfg, i, addr1, addr2)
  {
    var (t1, who) := Located(t, cfg, addr1, addr2);
    LocatedInv(t, cfg, addr1, addr2);
    AcceptOpenOutcome(t1, cfg, who, addr2, b);
    assert Receive(t, cfg, AuthFrame1(addr1, addr2, AUTH_MODE_OPEN, true, text)) == AcceptOpen(t1, cfg, who, addr2, b);
  }

  // ---- Authentication before association ---------------------------------------------------------------

  /** The success on record for a station names that station. */
  ghost predicate NamesOk(t: Table) {
    forall i: nat | i < |t.content| && t.content[i].client && Authenticated(t.log, i) ::
      AuthMark(t.log, i).value.addr == t.content[i].addr
  }

  ghost predicate SameMarks(t: Table, t': Table) {
    forall i: nat :: AuthMark(t'.log, i) == AuthMark(t.log, i)
  }

  lemma NamesThin(t: Table, t': Table)
    requires NamesOk(t) && Thinner(t, t') && SameMarks(t, t')
    ensures NamesOk(t')
  {
    forall i: nat | i < |t'.content| && t'.content[i].client && Authenticated(t'.log, i)
      ensures AuthMark(t'.log, i).value.addr == t'.content[i].addr
    {
      assert AuthMark(t'.log, i) == AuthMark(t.log, i);
    }
  }

  lemma RefuseNames(t: Table, cfg: seq<Cell>, who: Option<nat>, addr: Mac, status: nat)
    requires Inv(t, cfg) && NamesOk(t) && (who.Some? ==> who.value < TABLE)
    ensures NamesOk(Refuse(t, cfg, who, addr, status))
  {
    RefuseInv(t, cfg, who, addr, status);
    Noted(t.log, Refused(addr, status));
    NamesThin(t, Refuse(t, cfg, who, addr, status));
  }

  /** Recording a success under the station's own address, or a challenge, keeps the names right. */
  lemma MarkNames(t: Table, t': Table, i: nat, r: Record)
    requires NamesOk(t) && Thinner(t, t') && t'.log == t.log + [r] && AuthRecord(r, i)
    requires r.Succeeded? && i < |t.content| && t.content[i].client ==> r.addr == t.content[i].addr
    ensures NamesOk(t')
  {
    Noted(t.log, r);
    forall k: nat | k < |t'.content| && t'.content[k].client && Authenticated(t'.log, k)
      ensures AuthMark(t'.log, k).value.addr == t'.content[k].addr
    {
      assert AuthMark(t'.log, k) == if k == i then Some(r) else AuthMark(t.log, k);
    }
  }

  lemma EnsureNames(t: Table, cfg: seq<Cell>, who: Option<nat>, addr: Mac, b: nat)
    requires Inv(t, cfg) && NamesOk(t) && b < |cfg| && (who.None? ==> Lookup(t, addr).None?)
    requires who.Some? ==> who.value < TABLE && t.content[who.value].client && t.content[who.value].addr == addr
    ensures var (t1, at) := Ensure(t, cfg, who, addr, b);
            NamesOk(t1) && (at.Some? ==> t1.content[at.value].client && t1.content[at.value].addr == addr)
  {
    if who.None? {
      InsertInv(t, cfg, addr, b);
      var (t1, at) := Insert(t, cfg, addr, b);
      if at.Some? {
        Noted(t.log, Inserted(at.value, addr));
      }
      forall k: nat | k < TABLE && t1.content[k].client && Authenticated(t1.log, k)
        ensures AuthMark(t1.log, k).value.addr == t1.content[k].addr
      {
      }
    }
  }

  lemma AdmitNames(t: Table, cfg: seq<Cell>, who: Option<nat>, addr: Mac, b: nat, text: seq<byte>)
    requires Inv(t, cfg) && NamesOk(t) && b < |cfg| && (who.None? ==> Lookup(t, addr).None?)
    requires who.Some? ==> who.value < TABLE && t.content[who.value].client && t.content[who.value].addr == addr
    ensures NamesOk(AcceptOpen(t, cfg, who, addr, b)) && NamesOk(Challenge(t, cfg, who, addr, b, text))
  {
    var (t1, at) := Ensure(t, cfg, who, addr, b);
    EnsureInv(t, cfg, who, addr, b);
    EnsureNames(t, cfg, who, addr, b);
    if at.Some? {
      SuccessInv(t1, cfg, at.value, addr);
      MarkNames(t1, AcceptOpen(t, cfg, who, addr, b), at.value, Succeeded(at.value, addr));
      ChallengeInv(t1, cfg, at.value, addr, text);
      MarkNames(t1, Challenge(t, cfg, who, addr, b, text), at.value, Challenged(at.value, addr, text));
    }
  }

  lemma AuthReqNames(t: Table, cfg: seq<Cell>, addr1: Mac, addr2: Mac, alg: nat, up: bool, text: seq<byte>)
    requires Inv(t, cfg) && NamesOk(t)
    ensures NamesOk(AuthReq(t, cfg, addr1, addr2, alg, up, text))
  {
    var b := FindBss(cfg, addr1, 0);
    if alg <= AUTH_MODE_KEY && b.Some? && up {
      var (t1, who) := Located(t, cfg, addr1, addr2);
      LocatedInv(t, cfg, addr1, addr2);
      NamesThin(t, t1);
      RefuseNames(t1, cfg, who, addr2, MLME_UNSPECIFY_FAIL);
      RefuseNames(t1, cfg, who, addr2, MLME_ALG_NOT_SUPPORT);
      AdmitNames(t1, cfg, who, addr2, b.value, text);
    }
  }

  /** A confirmation of the last challenge, reported under the index of another client of the same BSS. */
  ghost predicate MisfiledConfirm(t: Table, cfg: seq<Cell>, addr1: Mac, addr2: Mac, wcid: nat, wep: bool, up: bool, text: seq<byte>)
    requires Shape(t, cfg)
  {
    && FindBss(cfg, addr1, 0).Some? && up && wcid < TABLE && wep && addr2 == t.auxAddr && text == t.auxText
    && t.content[wcid].client && cfg[t.content[wcid].bss].bssid == addr1 && t.content[wcid].addr != addr2
  }

  ghost predicate Misfiled(t: Table, cfg: seq<Cell>, e: Event)
    requires Shape(t, cfg)
  {
    && e.EMgmt? && e.f.AuthFrame3? && !t.ban
    && MisfiledConfirm(t, cfg, e.f.addr1, e.f.addr2, e.f.wcid, e.f.wep, e.f.up, e.f.text)
  }

  /** A confirmation keeps the names right if and only if it is not misfiled: it authenticates another client in
      the sender's name exactly then. */
  lemma ConfirmNamesExactly(t: Table, cfg: seq<Cell>, addr1: Mac, addr2: Mac, wcid: nat, wep: bool, up: bool, text: seq<byte>)
    requires Inv(t, cfg) && NamesOk(t)
    ensures var t' := AuthConfirm(t, cfg, addr1, addr2, wcid, wep, up, text);
            NamesOk(t') <==> !MisfiledConfirm(t, cfg, addr1, addr2, wcid, wep, up, text)
  {
    if MisfiledConfirm(t, cfg, addr1, addr2, wcid, wep, up, text) {
      MisfiledOutcome(t, cfg, addr1, wcid);
    } else if FindBss(cfg, addr1, 0).Some? && up && wcid < TABLE {
      OfBssInv(t, cfg, addr1, wcid);
      var (t1, who) := OfBss(t, cfg, addr1, wcid);
      NamesThin(t, t1);
      RefuseNames(t1, cfg, who, addr2, MLME_REJ_CHALLENGE_FAILURE);
      RefuseNames(t1, cfg, who, addr2, MLME_UNSPECIFY_FAIL);
      if who.Some? && addr2 == t1.auxAddr && wep && text == t1.auxText {
        SuccessInv(t1, cfg, wcid, addr2);
        MarkNames(t1, Note(Put(t1, cfg, wcid, t1.content[wcid].(sst := Auth)), cfg, Succeeded(wcid, addr2)), wcid,
                  Succeeded(wcid, addr2));
      }
    }
  }

  /** The input that goes wrong: the last-challenged station's confirmation under another client's index leaves
      that other client authenticated, on record under the wrong name. */
  lemma MisfiledOutcome(t: Table, cfg: seq<Cell>, addr1: Mac, wcid: nat)
    requires Inv(t, cfg) && wcid < TABLE && t.content[wcid].client && FindBss(cfg, addr1, 0).Some?
    requires cfg[t.content[wcid].bss].bssid == addr1 && t.content[wcid].addr != t.auxAddr
    ensures MisfiledConfirm(t, cfg, addr1, t.auxAddr, wcid, true, true, t.auxText)
    ensures var t' := AuthConfirm(t, cfg, addr1, t.auxAddr, wcid, true, true, t.auxText);
            && t'.content[wcid].client && t'.content[wcid].addr == t.content[wcid].addr && t'.content[wcid].sst == Auth
            && AuthMark(t'.log, wcid) == Some(Succeeded(wcid, t.auxAddr)) && !NamesOk(t')
  {
    Noted(t.log, Succeeded(wcid, t.auxAddr));
  }

  lemma AssocMarks(t: Table, cfg: seq<Cell>, f: Mgmt)
    requires Inv(t, cfg) && !f.AuthFrame1? && !f.AuthFrame3?
    ensures SameMarks(t, Receive(t, cfg, f))
  {
    if f.AssocFrame? && Lookup(t, f.addr2).Some? {
      Noted(t.log, Associated(Lookup(t, f.addr2).value));
    }
  }

  lemma Msg4Marks(t: Table, cfg: seq<Cell>, i: nat)
    requires Inv(t, cfg) && i < TABLE
    ensures SameMarks(t, Msg4(t, cfg, i))
  {
    Noted(t.log, Released(i));
  }

  lemma EapMarks(t: Table, cfg: seq<Cell>, addr: Mac, keyType: bool)
    requires Inv(t, cfg)
    ensures SameMarks(t, EapSuccess(t, cfg, addr, keyType))
  {
    if Lookup(t, addr).Some? {
      Noted(t.log, Released(Lookup(t, addr).value));
    }
  }

  /** Frames apart, only a port release is recorded. */
  lemma LogSame(t: Table, cfg: seq<Cell>, e: Event)
    requires Inv(t, cfg) && Enabled(t, cfg, e) && !e.EMgmt? && !e.EMsg4? && !e.EEapSuccess? && !e.EStartUp?
    ensures Step(t, cfg, e).log == t.log
  {
  }

  lemma StepMarks(t: Table, cfg: seq<Cell>, e: Event)
    requires Inv(t, cfg) && Enabled(t, cfg, e) && !e.EStartUp? && !(e.EMgmt? && (e.f.AuthFrame1? || e.f.AuthFrame3?))
    ensures SameMarks(t, Step(t, cfg, e))
  {
    match e
    case EMgmt(f) => AssocMarks(t, cfg, f);
    case EMsg4(i) => Msg4Marks(t, cfg, i);
    case EEapSuccess(addr, keyType) => EapMarks(t, cfg, addr, keyType);
    case _ => LogSame(t, cfg, e);
  }

  lemma StepNamesExactly(t: Table, cfg: seq<Cell>, e: Event)
    requires Inv(t, cfg) && Enabled(t, cfg, e) && NamesOk(t)
    ensures NamesOk(Step(t, cfg, e)) <==> !Misfiled(t, cfg, e)
  {
    if e.EMgmt? && e.f.AuthFrame1? {
      AuthReqNames(t, cfg, e.f.addr1, e.f.addr2, e.f.alg, e.f.up, e.f.text);
    } else if e.EMgmt? && e.f.AuthFrame3? {
      ConfirmNamesExactly(t, cfg, e.f.addr1, e.f.addr2, e.f.wcid, e.f.wep, e.f.up, e.f.text);
    } else if e.EStartUp? {
      StartUpInv(t, cfg);
      MarkNames(t, StartUp(t, cfg), 0, Started);
    } else {
      StepInv(t, cfg, e);
      StepMarks(t, cfg, e);
      var t0 := if e.EAcl? then t.(acl := t.acl[e.b := e.acl]) else t;
      NamesThin(t0, Step(t, cfg, e));
    }
  }

  ghost predicate NoneMisfiled(t: Table, cfg: seq<Cell>, es: seq<Event>)
    requires Shape(t, cfg) && Valid(t, cfg, es)
    decreases |es|
  {
    es == [] || (!Misfiled(t, cfg, es[0]) && NoneMisfiled(Step(t, cfg, es[0]), cfg, es[1..]))
  }

  ghost predicate NamesThroughout(t: Table, cfg: seq<Cell>, es: seq<Event>)
    requires Shape(t, cfg) && Valid(t, cfg, es)
    decreases |es|
  {
    NamesOk(t) && (es == [] || NamesThroughout(Step(t, cfg, es[0]), cfg, es[1..]))
  }

  /** All along a run every success on record names its own station if and only if no confirmation in it is
      misfiled. */
  lemma {:induction false} RunNamesExactly(t: Table, cfg: seq<Cell>, es: seq<Event>)
    requires Inv(t, cfg) && Valid(t, cfg, es) && NamesOk(t)
    ensures NamesThroughout(t, cfg, es) <==> NoneMisfiled(t, cfg, es)
    ensures NoneMisfiled(t, cfg, es) ==> NamesOk(Run(t, cfg, es))
    decreases |es|
  {
    if es != [] {
      StepInv(t, cfg, es[0]);
      StepNamesExactly(t, cfg, es[0]);
      if !Misfiled(t, cfg, es[0]) {
        RunNamesExactly(Step(t, cfg, es[0]), cfg, es[1..]);
      }
    }
  }

  /** A station is associated, or authenticated, only if the last thing on record for its entry since it was
      inserted, challenges included, is a successful authentication; and throughout the run such a success is
      the station's own if and only if no confirmation is misfiled. */
  lemma AuthenticatedFirst(t: Table, cfg: seq<Cell>, es: seq<Event>, i: nat)
    requires Start(t, cfg) && Valid(t, cfg, es) && i < TABLE
    requires Run(t, cfg, es).content[i].client && Run(t, cfg, es).content[i].sst != NotAuth
    ensures NamesThroughout(t, cfg, es) <==> NoneMisfiled(t, cfg, es)
    ensures var t' := Run(t, cfg, es);
            && Authenticated(t'.log, i)
            && (NoneMisfiled(t, cfg, es) ==> AuthMark(t'.log, i) == Some(Succeeded(i, t'.content[i].addr)))
  {
    StartInv(t, cfg);
    RunInv(t, cfg, es);
    var t' := Run(t, cfg, es);
    assert EntryOk(t'.content[i], i, cfg, t'.log);
    MarkIndex(t'.log, i);
    RunNamesExactly(t, cfg, es);
  }

  lemma {:induction false} MarkIndex(log: seq<Record>, i: nat)
    ensures AuthMark(log, i).Some? ==> AuthRecord(AuthMark(log, i).value, i)
  {
    if log != [] {
      MarkIndex(log[..|log| - 1], i);
    }
  }

  /** A shared-key confirmation succeeds exactly when the frame is encrypted, comes from the station last
      challenged and repeats that challenge, and the entry under the reported index is of the addressed BSS.
      Before the first challenge the blank address and text stand in for it. */
  lemma SharedKeyNeedsLastChallenge(t: Table, cfg: seq<Cell>, addr1: Mac, addr2: Mac, wcid: nat, wep: bool, text: seq<byte>)
    requires Inv(t, cfg) && FindBss(cfg, addr1, 0).Some? && wcid < TABLE
    ensures var t' := AuthConfirm(t, cfg, addr1, addr2, wcid, wep, true, text);
            var e := t.content[wcid];
            (t'.log == t.log + [Succeeded(wcid, addr2)] && t'.content[wcid].sst == Auth) <==>
            && wep && (e.client ==> cfg[e.bss].bssid == addr1)
            && match LastChallenge(t.log)
               case Some(c) => c.addr == addr2 && c.text == text
               case None => addr2 == ZERO_MAC && text == t.auxText && Blank(text)
  {
    var t' := AuthConfirm(t, cfg, addr1, addr2, wcid, wep, true, text);
    var (t1, who) := OfBss(t, cfg, addr1, wcid);
    if who.None? || addr2 != t1.auxAddr || !wep || text != t1.auxText {
      assert t'.log[|t.log|].Refused?;
    }
  }

  /** A successful association closes the data port exactly for the four WPA modes an entry settles on and
      for 802.1X; under WPA-None, which is no mode of an access point, the port stays as it was. */
  lemma PortClosesExactly(e: Entry, cell: Cell, r: Request)
    requires Build(e, cell, r).1 == MLME_SUCCESS
    ensures var e' := Build(e, cell, r).0;
            && (!e'.filterOpen <==> !e.filterOpen || e'.authMode in {WPA, WPAPSK, WPA2, WPA2PSK} || cell.ieee8021x)
            && (Keying(cell) ==> e'.authMode in {WPA, WPAPSK, WPA2, WPA2PSK})
            && (cell.rsn.authMode == WPA_NONE && !cell.ieee8021x ==> e'.filterOpen == e.filterOpen)
  {
    if r.element.recorded != 0 {
      SettlesMode(cell.rsn, r.element, e.authMode, e.wepStatus);
    } else {
      assert cell.rsn.authMode < WPA;
    }
  }

  // ---- Data -----------------------------------------------------------------------------------------------

  /** Filed under an index above 0, an uplink frame is delivered only for an entry associated after its last
      authentication, and a frame other than EAPOL in a protected BSS only after a port release since that
      association; outside a ban in any case. Under index 0 neither is ever on record. */
  lemma DeliveredOnlyFromAssociated(t: Table, cfg: seq<Cell>, es: seq<Event>, d: Data)
    requires Start(t, cfg) && Valid(t, cfg, es) && ReceiveData(Run(t, cfg, es), cfg, d).1.Some?
    ensures var t' := Run(t, cfg, es);
            var i := ReceiveData(t', cfg, d).1.value;
            && !t'.ban && d.toDs && !d.frDs && !d.noData
            && i < TABLE && t'.content[i].sst == Assoc
            && (Authenticated(t'.log, i) <==> i > 0)
            && (!d.eapol && Guarded(cfg[t'.content[i].bss]) ==> (PortReleased(t'.log, i) <==> i > 0))
            && (if d.wcid < TABLE then i == d.wcid else i > 0 && t'.content[i].client && t'.content[i].addr == d.addr2)
  {
    StartInv(t, cfg);
    RunInv(t, cfg, es);
    DataGate(Run(t, cfg, es), cfg, d);
  }

  lemma DataGate(t: Table, cfg: seq<Cell>, d: Data)
    requires Inv(t, cfg) && ReceiveData(t, cfg, d).1.Some?
    ensures var i := ReceiveData(t, cfg, d).1.value;
            && !t.ban && d.toDs && !d.frDs && !d.noData
            && i < TABLE && t.content[i].sst == Assoc
            && (Authenticated(t.log, i) <==> i > 0)
            && (!d.eapol && Guarded(cfg[t.content[i].bss]) ==> (PortReleased(t.log, i) <==> i > 0))
            && (if d.wcid < TABLE then i == d.wcid else i > 0 && t.content[i].client && t.content[i].addr == d.addr2)
  {
    var (t1, at) := ValidData(t, cfg, d);
    assert t1 == t;
    var i := at.value;
    assert EntryOk(t.content[i], i, cfg, t.log);
    if d.wcid >= TABLE {
      RefiledIndex(t, cfg, d.wcid, d.addr2);
    }
  }

  /** Under index 0, in every run: a frame is delivered exactly when it is an uplink frame with data, outside a ban,
      and no confirmation was filed under index 0 since the access point last started. It is for no client. */
  lemma UnderIndexZero(t: Table, cfg: seq<Cell>, es: seq<Event>, d: Data)
    requires Start(t, cfg) && Valid(t, cfg, es) && d.wcid == 0
    ensures var t' := Run(t, cfg, es);
            && (ReceiveData(t', cfg, d).1.Some? <==>
                  d.toDs && !d.frDs && !d.noData && !t'.ban && !Authenticated(t'.log, 0))
            && !t'.content[0].client
  {
    StartInv(t, cfg);
    RunInv(t, cfg, es);
    DeliveredInRange(Run(t, cfg, es), cfg, d);
  }

  /** So from the start on any station is heard under index 0, in a protected BSS as in an open one, with nothing on
      record. */
  lemma HeardFromStart(t: Table, cfg: seq<Cell>, addr: Mac)
    requires Start(t, cfg)
    ensures ReceiveData(t, cfg, Data(true, false, addr, 0, false, false, false, false, false)).1 == Some(0)
    ensures t.log == [] && !Authenticated(t.log, 0) && !PortReleased(t.log, 0) && !t.content[0].client
  {
  }

  lemma RefiledIndex(t: Table, cfg: seq<Cell>, wcid: nat, addr2: Mac)
    requires Inv(t, cfg) && wcid >= TABLE
    ensures var i := Refiled(t, wcid, addr2);
            i < TABLE <==> Lookup(t, addr2).Some? && t.content[Lookup(t, addr2).value].sst == Assoc
    ensures var i := Refiled(t, wcid, addr2);
            i < TABLE ==> t.content[i].client && t.content[i].addr == addr2 && t.content[i].sst == Assoc
  {
    var found := Lookup(t, addr2);
    if found.Some? {
      assert EntryOk(t.content[found.value], found.value, cfg, t.log);
    }
  }

  /** With an index out of range the class check lets the frame of any known station through, associated or
      not, and answers nobody; the frame is delivered exactly when that station is associated and its port
      admits it. Only the missing entry behind the index stops the others. */
  lemma OutOfRangeIndex(t: Table, cfg: seq<Cell>, d: Data)
    requires Inv(t, cfg) && d.wcid >= TABLE && d.toDs && !d.frDs && !d.noData && !t.ban
    ensures ClassCheck(t, cfg, d.wcid, d.addr2) == (t, Lookup(t, d.addr2).None?)
    ensures ReceiveData(t, cfg, d).1.Some? <==>
            var found := Lookup(t, d.addr2);
            found.Some? && t.content[found.value].sst == Assoc && (d.eapol || t.content[found.value].filterOpen)
  {
    RefiledIndex(t, cfg, d.wcid, d.addr2);
    var found := Lookup(t, d.addr2);
    if found.Some? {
      assert EntryOk(t.content[found.value], found.value, cfg, t.log);
    }
  }

  /** The class check of a frame with an index in range: it is in error exactly when the entry is not
      associated, and then the sender's entry under that index is gone. */
  lemma ClassGate(t: Table, cfg: seq<Cell>, wcid: nat, addr2: Mac)
    requires Inv(t, cfg) && wcid < TABLE
    ensures var (t', error) := ClassCheck(t, cfg, wcid, addr2);
            && (error <==> t.content[wcid].sst != Assoc)
            && (!error ==> t' == t)
            && (error ==> !(t'.content[wcid].client && t'.content[wcid].addr == addr2))
            && (error && t'.content != t.content ==> t.content[wcid].client && t.content[wcid].addr == addr2)
  {
    assert EntryOk(t.content[wcid], wcid, cfg, t.log);
    assert EntryOk(t.content[0], 0, cfg, t.log);
  }

  /** The entry under the reported index is associated and its port admits the frame. */
  predicate Admissible(t: Table, d: Data)
    requires d.wcid < |t.content|
  {
    && d.toDs && !d.frDs && !d.noData && !t.ban
    && t.content[d.wcid].sst == Assoc && (d.eapol || t.content[d.wcid].filterOpen)
  }

  /** With an index in range neither the sender's address nor the entry's being anybody's plays a part: the frame
      is delivered exactly when it is admissible, and for a client exactly when the entry is one, too. */
  lemma DeliveredInRange(t: Table, cfg: seq<Cell>, d: Data)
    requires Shape(t, cfg) && d.wcid < TABLE
    ensures var to := ReceiveData(t, cfg, d).1;
            && (to.Some? <==> Admissible(t, d))
            && (to.Some? ==> to.value == d.wcid)
            && (to.Some? && t.content[to.value].client <==> Admissible(t, d) && t.content[d.wcid].client)
  {
  }

  /** Frames filed under an index from `first` on are delivered for clients only. */
  ghost predicate ForClientsOnly(t: Table, cfg: seq<Cell>, first: nat)
    requires Shape(t, cfg)
  {
    forall d: Data | first <= d.wcid < TABLE && ReceiveData(t, cfg, d).1.Some? :: t.content[d.wcid].client
  }

  ghost predicate NoneLeftAssociated(t: Table, first: nat) {
    forall i | first <= i < |t.content| && t.content[i].sst == Assoc :: t.content[i].client
  }

  lemma ForClientsFrom(t: Table, cfg: seq<Cell>, first: nat)
    requires Shape(t, cfg) && !t.ban
    ensures ForClientsOnly(t, cfg, first) <==> NoneLeftAssociated(t, first)
  {
    if ForClientsOnly(t, cfg, first) {
      forall i | first <= i < TABLE && t.content[i].sst == Assoc ensures t.content[i].client {
        var d := Data(true, false, ZERO_MAC, i, false, true, false, false, false);
        DeliveredInRange(t, cfg, d);
      }
    } else {
      var d: Data :| first <= d.wcid < TABLE && ReceiveData(t, cfg, d).1.Some? && !t.content[d.wcid].client;
      DeliveredInRange(t, cfg, d);
    }
  }

  /** Outside a ban, frames filed above index 0 are delivered for clients only if and only if no vacant entry there
      is left associated; at any index if and only if, besides, a confirmation was filed under index 0 since the
      start. */
  lemma ForClientsExactly(t: Table, cfg: seq<Cell>)
    requires Inv(t, cfg) && !t.ban
    ensures ForClientsOnly(t, cfg, 1) <==> NoneLeftAssociated(t, 1)
    ensures ForClientsOnly(t, cfg, 0) <==> NoneLeftAssociated(t, 1) && Authenticated(t.log, 0)
  {
    ForClientsFrom(t, cfg, 1);
    ForClientsFrom(t, cfg, 0);
  }

  /** A deletion keeps it so if and only if the entry it takes is not associated; entry 0 it never takes. */
  lemma DeleteLeavesExactly(t: Table, cfg: seq<Cell>, i: nat, addr: Mac)
    requires Inv(t, cfg) && i < TABLE && NoneLeftAssociated(t, 1)
    ensures var taken := t.content[i].client && t.content[i].addr == addr;
            NoneLeftAssociated(Delete(t, cfg, i, addr), 1) <==> !(taken && t.content[i].sst == Assoc)
    ensures Delete(t, cfg, 0, addr) == t
  {
    var t' := Delete(t, cfg, i, addr);
    assert EntryOk(t.content[i], i, cfg, t.log);
    if t.content[i].client && t.content[i].addr == addr {
      assert !t'.content[i].client && t'.content[i].sst == t.content[i].sst;
    }
  }

  /** Deletion does not reset the state of an entry: frames filed under the index of an associated station
      still pass after it is gone. */
  lemma DeletedStillHeard(t: Table, cfg: seq<Cell>, d: Data)
    requires Inv(t, cfg) && d.wcid < TABLE && d.toDs && !d.frDs && !d.noData && !t.ban
    requires t.content[d.wcid].client && t.content[d.wcid].sst == Assoc && t.content[d.wcid].filterOpen
    ensures var t1 := Delete(t, cfg, d.wcid, t.content[d.wcid].addr);
            !t1.content[d.wcid].client && ReceiveData(t1, cfg, d).1 == Some(d.wcid)
  {
  }
}
