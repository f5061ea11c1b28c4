/**
 Redis may drop a tenant's total set at any point of a run. The total set heals at the next
 broadcast; an operated set stays right exactly as long as no one-key operation meets the loss.
 */
module Eviction {
  import opened Types
  import opened Keys
  import opened Storage
  import opened UnreadCache
  import opened Protocol
  import opened BroadcastAgreement

  datatype Hazard = Serve(e: Event) | Evict(tenant: Tenant)

  function DropTotal(c: Cache, t: Tenant): Cache {
    c.(sets := c.sets - {TotalKey(t)})
  }

  ghost predicate CanServe(s: State, h: Hazard) {
    h.Serve? ==> Enabled(s, h.e)
  }

  function Suffer(s: State, h: Hazard): State {
    match h
    case Serve(e) => Step(s, e)
    case Evict(t) => s.(cache := DropTotal(s.cache, t))
  }

  /** A run from the empty hub: its hazards and the states before and after each of them. */
  ghost predicate HazardRun(hs: seq<Hazard>, ss: seq<State>) {
    && |ss| == |hs| + 1
    && ss[0] == INITIAL
    && forall k | 0 <= k < |hs| :: CanServe(ss[k], hs[k]) && ss[k + 1] == Suffer(ss[k], hs[k])
  }

  predicate EmptyOrExact(db: DB, c: Cache, t: Tenant) {
    Members(c, TotalKey(t)) == {} || Members(c, TotalKey(t)) == BroadcastIds(db, t)
  }

  /** TenantBroadcastIncr rebuilds an empty set and extends an exact one. */
  lemma AddRebuilds(db: DB, c: Cache, t: Tenant, id: NotifyId)
    requires id in BroadcastIds(db, t)
    requires Members(c, TotalKey(t)) == {} || Members(c, TotalKey(t)) + {id} == BroadcastIds(db, t)
    ensures Members(AddBroadcast(db, c, t, id), TotalKey(t)) == BroadcastIds(db, t)
  {
    if Members(c, TotalKey(t)) == {} {
      var added := AddMember(c, TotalKey(t), id);
      assert Members(added, TotalKey(t)) == {id};
      assert AddBroadcast(db, c, t, id) == ReconcileTotal(db, added, t);
    } else {
      AddBroadcastSets(db, c, t, id, TotalKey(t));
    }
  }

  lemma SendRebuilds(db: DB, c: Cache, id: NotifyId, r: Record, t: Tenant)
    requires id !in db.records && r.target == Broadcast && r.targetIds == [] && EmptyOrExact(db, c, t)
    ensures var db' := InsertRecord(db, id, r, []);
            var total := Members(AddBroadcast(db', c, r.tenant, id), TotalKey(t));
            if t == r.tenant then total == BroadcastIds(db', t)
            else total == Members(c, TotalKey(t)) && BroadcastIds(db', t) == BroadcastIds(db, t)
  {
    var db' := InsertRecord(db, id, r, []);
    InsertTotals(db, id, r, [], t);
    if t == r.tenant {
      AddRebuilds(db', c, t, id);
    } else {
      AddBroadcastEither(db', c, r.tenant, id, TotalKey(t));
    }
  }

  lemma CleanupEmptyOrExact(s: State, e: Event, t: Tenant)
    requires Enabled(s, e) && e.op.Cleanup? && EmptyOrExact(s.db, s.cache, t)
    ensures EmptyOrExact(Step(s, e).db, Step(s, e).cache, t)
  {
    CleanupStep(s, e);
    var infos := Infos(s.db, e.op.expired);
    SnapshotSets(Step(s, e).db, s.cache, infos, TotalKey(t));
    if t !in BroadcastTenants(infos) && Members(s.cache, TotalKey(t)) == BroadcastIds(s.db, t) {
      CleanupTotals(s.db, s.cache, e.op.expired, t);
    }
  }

  lemma SendEmptyOrExact(s: State, e: Event, t: Tenant)
    requires TablesOk(s) && Enabled(s, e) && e.op.Send? && ValidDraft(e.op.draft) && EmptyOrExact(s.db, s.cache, t)
    ensures EmptyOrExact(Step(s, e).db, Step(s, e).cache, t)
    ensures e.op.draft.target == Broadcast && e.op.draft.tenant == t ==>
              Members(Step(s, e).cache, TotalKey(t)) == BroadcastIds(Step(s, e).db, t)
  {
    SendStep(s, e);
    var d := e.op.draft;
    var r := RecordOf(d, e.at);
    if d.target == Broadcast {
      assert e.op.rowIds == [];
      SendRebuilds(s.db, s.cache, e.op.id, r, t);
    } else {
      InsertTotals(s.db, e.op.id, r, e.op.rowIds, t);
      CountSendSets(Step(s, e).db, s.cache, d.tenant, d.targetIds, d.sender);
    }
  }

  lemma ServeEmptyOrExact(s: State, e: Event, t: Tenant)
    requires TablesOk(s) && Enabled(s, e) && EmptyOrExact(s.db, s.cache, t)
    ensures EmptyOrExact(Step(s, e).db, Step(s, e).cache, t)
  {
    match e.op
    case Send(_, d, _) => if ValidDraft(d) { SendEmptyOrExact(s, e, t); }
    case Cleanup(_) => CleanupEmptyOrExact(s, e, t);
    case Act(_, _, _, _, _) => ActStep(s, e); assert BroadcastIds(Step(s, e).db, t) == BroadcastIds(s.db, t);
    case UserRead(_, _) => UserOneKeyStep(s, e); assert BroadcastIds(Step(s, e).db, t) == BroadcastIds(s.db, t);
    case UserClear(_, _) => UserOneKeyStep(s, e); assert BroadcastIds(Step(s, e).db, t) == BroadcastIds(s.db, t);
    case TenantRead(_, _) => TenantOneKeyStep(s, e); assert BroadcastIds(Step(s, e).db, t) == BroadcastIds(s.db, t);
    case TenantClear(_, _) => TenantOneKeyStep(s, e); assert BroadcastIds(Step(s, e).db, t) == BroadcastIds(s.db, t);
  }

  lemma HazardKeepsTotals(hs: seq<Hazard>, ss: seq<State>, k: nat, t: Tenant)
    requires HazardRun(hs, ss) && k < |hs| && TablesOk(ss[k]) && EmptyOrExact(ss[k].db, ss[k].cache, t)
    ensures TablesOk(ss[k + 1]) && EmptyOrExact(ss[k + 1].db, ss[k + 1].cache, t)
  {
    if hs[k].Serve? {
      CommitKeepsTables(ss[k], hs[k].e);
      ServeEmptyOrExact(ss[k], hs[k].e, t);
    }
  }

  lemma {:induction false} HazardsKeepTotals(hs: seq<Hazard>, ss: seq<State>, k: nat, t: Tenant)
    requires HazardRun(hs, ss) && k <= |hs|
    ensures TablesOk(ss[k]) && EmptyOrExact(ss[k].db, ss[k].cache, t)
    decreases k
  {
    if k > 0 {
      HazardsKeepTotals(hs, ss, k - 1, t);
      HazardKeepsTotals(hs, ss, k - 1, t);
    }
  }

  predicate Broadcasts(h: Hazard, t: Tenant) {
    h.Serve? && h.e.op.Send? && ValidDraft(h.e.op.draft) && h.e.op.draft.target == Broadcast && h.e.op.draft.tenant == t
  }

  lemma BroadcastHeals(hs: seq<Hazard>, ss: seq<State>, k: nat, t: Tenant)
    requires HazardRun(hs, ss) && k < |hs| && Broadcasts(hs[k], t)
    ensures Members(ss[k + 1].cache, TotalKey(t)) == BroadcastIds(ss[k + 1].db, t)
  {
    HazardsKeepTotals(hs, ss, k, t);
    SendEmptyOrExact(ss[k], hs[k].e, t);
  }

  /**
   Redis may drop any total set at any point: each total set is always empty or exactly the
   tenant's broadcasts, and it is exact right after each broadcast of the tenant.
   */
  lemma EvictedTotalsHeal(hs: seq<Hazard>, ss: seq<State>, k: nat, t: Tenant)
    requires HazardRun(hs, ss) && k <= |hs|
    ensures EmptyOrExact(ss[k].db, ss[k].cache, t)
    ensures k > 0 && Broadcasts(hs[k - 1], t) ==> Members(ss[k].cache, TotalKey(t)) == BroadcastIds(ss[k].db, t)
  {
    HazardsKeepTotals(hs, ss, k, t);
    if k > 0 && Broadcasts(hs[k - 1], t) {
      BroadcastHeals(hs, ss, k - 1, t);
    }
  }

  // ---- The operated sets ----

  /** A tenant one-key operation finds the total set present, or everything already operated on. */
  predicate FindsTotal(s: State, h: Hazard) {
    h.Serve? && (h.e.op.TenantRead? || h.e.op.TenantClear?) ==>
      || Members(s.cache, TotalKey(h.e.op.tenant)) != {}
      || BroadcastIds(s.db, h.e.op.tenant) <= Members(s.cache, OpKey(h.e.op.tenant, h.e.op.user))
  }

  /** Moving a watermark to now and merging total into op agree exactly when the two sets cover the broadcasts. */
  lemma WatermarkOpsIff(db: DB, c: Cache, tenant: Tenant, user: User, m: Mark)
    requires OpsExact(db, c) && Members(c, TotalKey(tenant)) <= BroadcastIds(db, tenant)
    requires forall n | n in db.records :: db.records[n].createdAt <= m.readAt || db.records[n].createdAt <= m.clearAt
    ensures OpsExact(db.(marks := db.marks[(tenant, user) := m]), SyncOp(c, tenant, user))
            <==> BroadcastIds(db, tenant) <= Members(c, TotalKey(tenant)) + Members(c, OpKey(tenant, user))
  {
    var db' := db.(marks := db.marks[(tenant, user) := m]);
    var c' := SyncOp(c, tenant, user);
    forall n, u | IsBroadcast(db, n)
      ensures OpExact(db', c', n, u)
              <==> (n in BroadcastIds(db, tenant) && u == user ==> n in Members(c, TotalKey(tenant)) + Members(c, OpKey(tenant, user)))
    {
      assert RowsFor(db', u, n) == RowsFor(db, u, n);
      assert OpExact(db, c, n, u);
    }
    if OpsExact(db', c') {
      forall n | n in BroadcastIds(db, tenant)
        ensures n in Members(c, TotalKey(tenant)) + Members(c, OpKey(tenant, user))
      {
        assert IsBroadcast(db', n) && OpExact(db', c', n, user);
      }
    }
  }

  /** A bulk status update does not change what is settled. */
  lemma RestatusOpsIff(db: DB, c: Cache, selected: set<RowId>, next: Status)
    ensures OpsExact(Restatus(db, selected, next), c) <==> OpsExact(db, c)
  {
    var db' := Restatus(db, selected, next);
    forall n, u | IsBroadcast(db, n)
      ensures OpExact(db', c, n, u) <==> OpExact(db, c, n, u)
    {
      assert RowsFor(db', u, n) == RowsFor(db, u, n);
    }
    if OpsExact(db', c) {
      forall n, u | IsBroadcast(db, n)
        ensures OpExact(db, c, n, u)
      {
        assert IsBroadcast(db', n) && OpExact(db', c, n, u);
      }
    }
    if OpsExact(db, c) {
      RestatusKeepsOps(db, c, selected, next);
    }
  }

  lemma OneKeyOpsIff(db: DB, c: Cache, tenant: Tenant, user: User, m: Mark, selected: set<RowId>, next: Status)
    requires OpsExact(db, c) && EmptyOrExact(db, c, tenant)
    requires forall n | n in db.records :: db.records[n].createdAt <= m.readAt || db.records[n].createdAt <= m.clearAt
    ensures OpsExact(Restatus(db.(marks := db.marks[(tenant, user) := m]), selected, next), SyncOp(c, tenant, user))
            <==> Members(c, TotalKey(tenant)) != {} || BroadcastIds(db, tenant) <= Members(c, OpKey(tenant, user))
  {
    WatermarkOpsIff(db, c, tenant, user, m);
    RestatusOpsIff(db.(marks := db.marks[(tenant, user) := m]), SyncOp(c, tenant, user), selected, next);
  }

  lemma OneKeyKeepsOpsIff(s: State, e: Event)
    requires TablesOk(s) && Enabled(s, e) && (e.op.TenantRead? || e.op.TenantClear?)
    requires OpsExact(s.db, s.cache) && EmptyOrExact(s.db, s.cache, e.op.tenant)
    ensures OpsExact(Step(s, e).db, Step(s, e).cache) <==> FindsTotal(s, Serve(e))
  {
    TenantOneKeyStep(s, e);
    var t, u := e.op.tenant, e.op.user;
    var m := MarkOf(s.db, t, u);
    if e.op.TenantRead? {
      OneKeyOpsIff(s.db, s.cache, t, u, Mark(e.at, m.clearAt), TenantDirectRows(s.db, t, u), Read);
    } else {
      OneKeyOpsIff(s.db, s.cache, t, u, Mark(m.readAt, e.at), RowsInTenant(s.db, t, u), Deleted);
    }
  }

  /** Whatever is in total, a send leaves every operated set alone. */
  lemma SendOps(db': DB, c: Cache, id: NotifyId, r: Record, t: Tenant, u: User)
    ensures Members(CacheAfterSend(db', c, id, r), OpKey(t, u)) == Members(c, OpKey(t, u))
  {
    if r.target == Broadcast {
      AddBroadcastEither(db', c, r.tenant, id, OpKey(t, u));
    } else {
      CountSendSets(db', c, r.tenant, r.targetIds, r.sender);
    }
  }

  lemma SendKeepsOps(s: State, e: Event)
    requires TablesOk(s) && OpsExact(s.db, s.cache) && OpsIssued(s.cache, s.ids)
    requires Enabled(s, e) && e.op.Send? && ValidDraft(e.op.draft)
    ensures OpsExact(Step(s, e).db, Step(s, e).cache)
  {
    var r := RecordOf(e.op.draft, e.at);
    MarksBelow(s, r.tenant);
    InsertKeepsOps(s.db, s.cache, e.op.id, r, e.op.rowIds);
    SendStep(s, e);
    forall t, u
      ensures Members(Step(s, e).cache, OpKey(t, u)) == Members(s.cache, OpKey(t, u))
    {
      SendOps(Step(s, e).db, s.cache, e.op.id, r, t, u);
    }
    SameSetsOps(Step(s, e).db, s.cache, Step(s, e).cache);
  }

  lemma CleanupOps(s: State, e: Event)
    requires OpsExact(s.db, s.cache) && Enabled(s, e) && e.op.Cleanup?
    ensures OpsExact(Step(s, e).db, Step(s, e).cache)
  {
    CleanupStep(s, e);
    var s' := Step(s, e);
    forall t, u
      ensures Members(s'.cache, OpKey(t, u)) == Members(s.cache, OpKey(t, u))
    {
      SnapshotSets(s'.db, s.cache, Infos(s.db, e.op.expired), OpKey(t, u));
    }
    CleanupKeepsOps(s.db, s.cache, IdSet(e.op.expired), s'.cache);
  }

  lemma RowOps(s: State, e: Event)
    requires TablesOk(s) && OpsExact(s.db, s.cache) && Enabled(s, e) && (e.op.Act? || e.op.UserRead? || e.op.UserClear?)
    ensures OpsExact(Step(s, e).db, Step(s, e).cache)
  {
    var s' := Step(s, e);
    if e.op.Act? {
      if CheckAccess(s.db, e.op.tenant, e.op.user, e.op.id).Granted? {
        UpsertKeepsOps(s.db, s.cache, e.op.user, e.op.id, e.op.next, e.op.newRow);
        if s.db.records[e.op.id].target != Broadcast {
          SameSetsOps(s'.db, s.cache, s'.cache);
        }
      }
    } else {
      RestatusKeepsOps(s.db, s.cache, RowsInTenant(s.db, e.op.tenant, e.op.user), if e.op.UserRead? then Read else Deleted);
      SameSetsOps(s'.db, s.cache, s'.cache);
    }
  }

  /** From exact operated sets a request keeps them exact if and only if it finds the total set. */
  lemma ServeOpsIff(s: State, e: Event)
    requires TablesOk(s) && OpsExact(s.db, s.cache) && OpsIssued(s.cache, s.ids) && Enabled(s, e)
    requires forall t :: EmptyOrExact(s.db, s.cache, t)
    ensures OpsExact(Step(s, e).db, Step(s, e).cache) <==> FindsTotal(s, Serve(e))
  {
    match e.op
    case Send(_, d, _) => if ValidDraft(d) { SendKeepsOps(s, e); }
    case Cleanup(_) => CleanupOps(s, e);
    case TenantRead(_, _) => OneKeyKeepsOpsIff(s, e);
    case TenantClear(_, _) => OneKeyKeepsOpsIff(s, e);
    case _ => RowOps(s, e);
  }

  // ---- Only issued IDs are ever operated on ----

  lemma ServeIssued(s: State, e: Event, t: Tenant, u: User)
    requires TablesOk(s) && Enabled(s, e) && Members(s.cache, OpKey(t, u)) <= s.ids && EmptyOrExact(s.db, s.cache, t)
    ensures Members(Step(s, e).cache, OpKey(t, u)) <= Step(s, e).ids
  {
    match e.op
    case Send(_, d, _) =>
      if ValidDraft(d) {
        SendStep(s, e);
        SendOps(Step(s, e).db, s.cache, e.op.id, RecordOf(d, e.at), t, u);
      }
    case Cleanup(_) =>
      CleanupStep(s, e);
      SnapshotSets(Step(s, e).db, s.cache, Infos(s.db, e.op.expired), OpKey(t, u));
    case Act(_, _, _, _, _) => ActStep(s, e);
    case UserRead(_, _) => UserOneKeyStep(s, e);
    case UserClear(_, _) => UserOneKeyStep(s, e);
    case TenantRead(_, _) => TenantOneKeyStep(s, e);
    case TenantClear(_, _) => TenantOneKeyStep(s, e);
  }

  lemma {:induction false} HazardsIssued(hs: seq<Hazard>, ss: seq<State>, k: nat, t: Tenant, u: User)
    requires HazardRun(hs, ss) && k <= |hs|
    ensures Members(ss[k].cache, OpKey(t, u)) <= ss[k].ids
    decreases k
  {
    if k > 0 {
      HazardsIssued(hs, ss, k - 1, t, u);
      HazardsKeepTotals(hs, ss, k - 1, t);
      if hs[k - 1].Serve? {
        ServeIssued(ss[k - 1], hs[k - 1].e, t, u);
      }
    }
  }

  // ---- Whole runs ----

  lemma HazardOpsIff(hs: seq<Hazard>, ss: seq<State>, k: nat)
    requires HazardRun(hs, ss) && k < |hs| && OpsExact(ss[k].db, ss[k].cache)
    ensures OpsExact(ss[k + 1].db, ss[k + 1].cache) <==> FindsTotal(ss[k], hs[k])
  {
    match hs[k]
    case Evict(_) => SameSetsOps(ss[k].db, ss[k].cache, ss[k + 1].cache);
    case Serve(e) =>
      forall t
        ensures TablesOk(ss[k]) && EmptyOrExact(ss[k].db, ss[k].cache, t)
      {
        HazardsKeepTotals(hs, ss, k, t);
      }
      assert TablesOk(ss[k]) by { HazardsKeepTotals(hs, ss, k, ""); }
      forall t, u
        ensures Members(ss[k].cache, OpKey(t, u)) <= ss[k].ids
      {
        HazardsIssued(hs, ss, k, t, u);
      }
      ServeOpsIff(ss[k], e);
  }

  lemma {:induction false} OpsUpTo(hs: seq<Hazard>, ss: seq<State>, k: nat)
    requires HazardRun(hs, ss) && k <= |hs| && forall j | 0 <= j < k :: FindsTotal(ss[j], hs[j])
    ensures OpsExact(ss[k].db, ss[k].cache)
    decreases k
  {
    if k > 0 {
      OpsUpTo(hs, ss, k - 1);
      HazardOpsIff(hs, ss, k - 1);
    }
  }

  /**
   Under eviction at any point, every operated set is exactly what rows and watermarks settle after
   every prefix of a run if and only if each tenant one-key operation of the run finds the total
   set present or all broadcasts of the tenant already operated on.
   */
  lemma OpsSurviveIff(hs: seq<Hazard>, ss: seq<State>)
    requires HazardRun(hs, ss)
    ensures (forall k | 0 <= k <= |hs| :: OpsExact(ss[k].db, ss[k].cache)) <==> forall k | 0 <= k < |hs| :: FindsTotal(ss[k], hs[k])
  {
    if forall k | 0 <= k < |hs| :: FindsTotal(ss[k], hs[k]) {
      forall k | 0 <= k <= |hs|
        ensures OpsExact(ss[k].db, ss[k].cache)
      {
        OpsUpTo(hs, ss, k);
      }
    }
    if forall k | 0 <= k <= |hs| :: OpsExact(ss[k].db, ss[k].cache) {
      forall k | 0 <= k < |hs|
        ensures FindsTotal(ss[k], hs[k])
      {
        assert OpsExact(ss[k].db, ss[k].cache) && OpsExact(ss[k + 1].db, ss[k + 1].cache);
        HazardOpsIff(hs, ss, k);
      }
    }
  }

  /** On such runs cached and queried unread broadcasts agree again right after the tenant's next broadcast. */
  lemma AgreementHeals(hs: seq<Hazard>, ss: seq<State>, k: nat, t: Tenant, u: User)
    requires HazardRun(hs, ss) && 0 < k <= |hs| && Broadcasts(hs[k - 1], t)
    requires forall j | 0 <= j < k :: FindsTotal(ss[j], hs[j])
    ensures SentByTenant(ss[k].db, CachedUnread(ss[k].cache, t, u)) == QueriedUnread(ss[k].db, t, u)
  {
    OpsUpTo(hs, ss, k);
    EvictedTotalsHeal(hs, ss, k, t);
    HazardsKeepTotals(hs, ss, k, t);
    AgreementFromSets(ss[k].db, ss[k].cache, t, u);
  }

  // ---- A run that breaks agreement ----

  /**
   The operated set does not heal: a broadcast n that is one-key read while the total set is
   lost is counted as unread again once the next broadcast rebuilds the total set.
   */
  lemma ReadDuringEvictionReturns(s: State, t: Tenant, u: User, n: NotifyId, read: Event, send: Event)
    requires TablesOk(s) && n in BroadcastIds(s.db, t) && s.db.records[n].sender == FromTenant
    requires Members(s.cache, TotalKey(t)) == {} && n !in Members(s.cache, OpKey(t, u))
    requires Enabled(s, read) && read.op == TenantRead(t, u)
    requires Enabled(Step(s, read), send) && send.op.Send? && ValidDraft(send.op.draft)
    requires send.op.draft.target == Broadcast && send.op.draft.tenant == t
    ensures var s' := Step(Step(s, read), send);
            n in SentByTenant(s'.db, CachedUnread(s'.cache, t, u)) && n !in QueriedUnread(s'.db, t, u)
  {
    var s1 := Step(s, read);
    CommitKeepsTables(s, read);
    ReadOfLostTotal(s, t, u, n, read);
    SettledStaysCounted(s1, t, u, n, send);
  }

  lemma ReadOfLostTotal(s: State, t: Tenant, u: User, n: NotifyId, read: Event)
    requires TablesOk(s) && n in BroadcastIds(s.db, t) && Members(s.cache, TotalKey(t)) == {}
    requires n !in Members(s.cache, OpKey(t, u)) && Enabled(s, read) && read.op == TenantRead(t, u)
    ensures var s' := Step(s, read);
            && s'.db.records == s.db.records && Settled(s'.db, n, u)
            && Members(s'.cache, TotalKey(t)) == {} && n !in Members(s'.cache, OpKey(t, u))
  {
    TenantOneKeyStep(s, read);
    assert MarkOf(Step(s, read).db, t, u).readAt == read.at;
  }

  lemma SettledStaysCounted(s: State, t: Tenant, u: User, n: NotifyId, send: Event)
    requires TablesOk(s) && n in BroadcastIds(s.db, t) && s.db.records[n].sender == FromTenant && Settled(s.db, n, u)
    requires Members(s.cache, TotalKey(t)) == {} && n !in Members(s.cache, OpKey(t, u))
    requires Enabled(s, send) && send.op.Send? && ValidDraft(send.op.draft)
    requires send.op.draft.target == Broadcast && send.op.draft.tenant == t
    ensures var s' := Step(s, send);
            n in SentByTenant(s'.db, CachedUnread(s'.cache, t, u)) && n !in QueriedUnread(s'.db, t, u)
  {
    var r := RecordOf(send.op.draft, send.at);
    var s' := Step(s, send);
    CommitKeepsTables(s, send);
    SendStep(s, send);
    SendEmptyOrExact(s, send, t);
    InsertTotals(s.db, send.op.id, r, send.op.rowIds, t);
    InsertSettled(s.db, send.op.id, r, send.op.rowIds, n, u);
    AddBroadcastEither(s'.db, s.cache, t, send.op.id, OpKey(t, u));
    QueriedIffUnsettled(s'.db, t, u, n);
  }

  lemma AppendHazard(hs: seq<Hazard>, ss: seq<State>, h: Hazard, s: State)
    requires HazardRun(hs, ss) && CanServe(ss[|hs|], h) && Suffer(ss[|hs|], h) == s
    ensures HazardRun(hs + [h], ss + [s])
  {
    var hs', ss' := hs + [h], ss + [s];
    forall k | 0 <= k < |hs'|
      ensures CanServe(ss'[k], hs'[k]) && ss'[k + 1] == Suffer(ss'[k], hs'[k])
    {
      if k < |hs| {
        assert hs'[k] == hs[k] && ss'[k] == ss[k] && ss'[k + 1] == ss[k + 1];
      }
    }
  }

  function Announce(n: nat): Event {
    Event(n, Send(n, Draft("t", FromTenant, Broadcast, [], None), []))
  }

  const READ := Event(2, TenantRead("t", "1"))

  /** Broadcast 1 is sent and its total set lost. */
  lemma SentAndLost() returns (s: State)
    ensures Survives([Serve(Announce(1))] + [Evict("t")], s) && TablesOk(s) && s.clock == 1 && s.ids == {1}
    ensures 1 in BroadcastIds(s.db, "t") && s.db.records[1].sender == FromTenant
    ensures Members(s.cache, TotalKey("t")) == {} && 1 !in Members(s.cache, OpKey("t", "1"))
  {
    var s1 := Step(INITIAL, Announce(1));
    CommitKeepsTables(INITIAL, Announce(1));
    SendStep(INITIAL, Announce(1));
    AddBroadcastEither(s1.db, EMPTY_CACHE, "t", 1, OpKey("t", "1"));
    assert HazardRun([], [INITIAL]);
    SurviveNext([], INITIAL, Serve(Announce(1)), s1);
    assert [] + [Serve(Announce(1))] == [Serve(Announce(1))];
    s := Suffer(s1, Evict("t"));
    SurviveNext([Serve(Announce(1))], s1, Evict("t"), s);
  }

  lemma ReadAndRebuilt(s2: State) returns (s3: State, s4: State)
    requires TablesOk(s2) && s2.clock == 1 && s2.ids == {1}
    requires 1 in BroadcastIds(s2.db, "t") && s2.db.records[1].sender == FromTenant
    requires Members(s2.cache, TotalKey("t")) == {} && 1 !in Members(s2.cache, OpKey("t", "1"))
    ensures !FindsTotal(s2, Serve(READ))
    ensures CanServe(s2, Serve(READ)) && Suffer(s2, Serve(READ)) == s3
    ensures CanServe(s3, Serve(Announce(3))) && Suffer(s3, Serve(Announce(3))) == s4
    ensures SentByTenant(s4.db, CachedUnread(s4.cache, "t", "1")) != QueriedUnread(s4.db, "t", "1")
  {
    s3 := Step(s2, READ);
    s4 := Step(s3, Announce(3));
    ReadDuringEvictionReturns(s2, "t", "1", 1, READ, Announce(3));
  }

  /** Some run leads from the empty hub through `hs` to `s`. */
  ghost predicate Survives(hs: seq<Hazard>, s: State) {
    exists ss :: HazardRun(hs, ss) && ss[|hs|] == s
  }

  lemma SurviveNext(hs: seq<Hazard>, s: State, h: Hazard, s': State)
    requires Survives(hs, s) && CanServe(s, h) && Suffer(s, h) == s'
    ensures Survives(hs + [h], s')
  {
    var ss :| HazardRun(hs, ss) && ss[|hs|] == s;
    AppendHazard(hs, ss, h, s');
    assert (ss + [s'])[|hs + [h]|] == s';
  }

  /** Sent, lost, one-key read, and rebuilt by the next broadcast: the read broadcast is counted again. */
  lemma LostReadRun() returns (s: State)
    ensures Survives([Serve(Announce(1))] + [Evict("t")] + [Serve(READ)] + [Serve(Announce(3))], s)
    ensures SentByTenant(s.db, CachedUnread(s.cache, "t", "1")) != QueriedUnread(s.db, "t", "1")
  {
    var s2 := SentAndLost();
    var s3, s4 := ReadAndRebuilt(s2);
    var hs := [Serve(Announce(1))] + [Evict("t")];
    SurviveNext(hs, s2, Serve(READ), s3);
    SurviveNext(hs + [Serve(READ)], s3, Serve(Announce(3)), s4);
    s := s4;
  }
}
