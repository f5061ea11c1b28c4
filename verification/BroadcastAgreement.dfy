/**
 Broadcast sets against the tables, over every run in which each request's cache task
 runs before the next request.
 */
module BroadcastAgreement {
  import opened Types
  import opened Keys
  import opened Storage
  import opened UnreadCache
  import opened Protocol
  import opened Inbox

  /** The tenant's broadcasts that the cache counts as unread for the user. */
  function CachedUnread(c: Cache, tenant: Tenant, user: User): set<NotifyId> {
    Members(c, TotalKey(tenant)) - Members(c, OpKey(tenant, user))
  }

  function SentByTenant(db: DB, ids: set<NotifyId>): set<NotifyId> {
    set n | n in ids && n in db.records && db.records[n].sender == FromTenant
  }

  /** The tenant broadcasts that the watermark-and-status query counts as unread. */
  ghost function QueriedUnread(db: DB, tenant: Tenant, user: User): set<NotifyId> {
    set it | it in TenantUnreadItems(db, tenant, user) && db.records[it.notify].target == Broadcast :: it.notify
  }

  predicate IsBroadcast(db: DB, n: NotifyId) {
    n in db.records && db.records[n].target == Broadcast
  }

  ghost predicate TotalsExact(db: DB, c: Cache) {
    forall t :: Members(c, TotalKey(t)) == BroadcastIds(db, t)
  }

  /** A broadcast is in the user's operated set exactly when a row or a watermark settles it. */
  ghost predicate OpExact(db: DB, c: Cache, n: NotifyId, u: User)
    requires n in db.records
  {
    n in Members(c, OpKey(db.records[n].tenant, u)) <==> Settled(db, n, u)
  }

  ghost predicate OpsExact(db: DB, c: Cache) {
    forall n, u | IsBroadcast(db, n) :: OpExact(db, c, n, u)
  }

  ghost predicate OpsIssued(c: Cache, ids: set<NotifyId>) {
    forall t, u :: Members(c, OpKey(t, u)) <= ids
  }

  ghost predicate SetsOk(s: State) {
    TablesOk(s) && TotalsExact(s.db, s.cache) && OpsExact(s.db, s.cache) && OpsIssued(s.cache, s.ids)
  }

  // ---- One lemma per kind of update ----

  lemma InsertTotals(db: DB, id: NotifyId, r: Record, rowIds: seq<RowId>, t: Tenant)
    requires id !in db.records && |rowIds| == |r.targetIds|
    ensures BroadcastIds(InsertRecord(db, id, r, rowIds), t)
            == BroadcastIds(db, t) + (if r.target == Broadcast && r.tenant == t then {id} else {})
  {
  }

  lemma AddBroadcastSets(db: DB, c: Cache, tenant: Tenant, id: NotifyId, k: Key)
    requires id in BroadcastIds(db, tenant)
    requires Members(c, TotalKey(tenant)) + {id} == BroadcastIds(db, tenant)
    ensures Members(AddBroadcast(db, c, tenant, id), k)
            == if k == TotalKey(tenant) then BroadcastIds(db, tenant) else Members(c, k)
  {
  }

  /** TenantBroadcastIncr adds one member or rebuilds the set; it touches no other set. */
  lemma AddBroadcastEither(db: DB, c: Cache, tenant: Tenant, id: NotifyId, k: Key)
    ensures var after := Members(AddBroadcast(db, c, tenant, id), k);
            if k == TotalKey(tenant) then after == Members(c, k) + {id} || after == BroadcastIds(db, tenant)
            else after == Members(c, k)
  {
    assert Members(AddMember(c, TotalKey(tenant), id), TotalKey(tenant)) == Members(c, TotalKey(tenant)) + {id};
  }

  lemma InsertSettled(db: DB, id: NotifyId, r: Record, rowIds: seq<RowId>, n: NotifyId, u: User)
    requires |rowIds| == |r.targetIds| && forall k | k in rowIds :: k !in db.rows
    requires n in db.records && n != id
    ensures Settled(InsertRecord(db, id, r, rowIds), n, u) == Settled(db, n, u)
  {
    InsertRowsKeys(db.rows, id, r.targetIds, rowIds);
    assert RowsFor(InsertRecord(db, id, r, rowIds), u, n) == RowsFor(db, u, n);
  }

  lemma InsertKeepsOps(db: DB, c: Cache, id: NotifyId, r: Record, rowIds: seq<RowId>)
    requires OpsExact(db, c) && |rowIds| == |r.targetIds|
    requires id !in db.records && forall k | k in rowIds :: k !in db.rows
    requires r.target == Broadcast ==> r.targetIds == []
    requires forall k | k in db.rows :: db.rows[k].notify != id
    requires forall u :: id !in Members(c, OpKey(r.tenant, u))
    requires forall u :: MarkOf(db, r.tenant, u).readAt < r.createdAt && MarkOf(db, r.tenant, u).clearAt < r.createdAt
    ensures OpsExact(InsertRecord(db, id, r, rowIds), c)
  {
    var db' := InsertRecord(db, id, r, rowIds);
    forall n, u | IsBroadcast(db', n)
      ensures OpExact(db', c, n, u)
    {
      if n == id {
        if r.target == Broadcast {
          assert db'.rows == db.rows;
          assert RowsFor(db', u, n) == {};
          assert MarkOf(db', r.tenant, u) == MarkOf(db, r.tenant, u);
        }
      } else {
        InsertSettled(db, id, r, rowIds, n, u);
        assert IsBroadcast(db, n) && OpExact(db, c, n, u);
      }
    }
  }

  /** An upsert adds at most a row for its own user and notification. */
  lemma UpsertRows(db: DB, user: User, id: NotifyId, next: Status, newRow: RowId, u: User, n: NotifyId)
    requires newRow !in db.rows
    ensures var found := RowsFor(Upsert(db, user, id, next, newRow), u, n);
            if u == user && n == id then found != {} else found == RowsFor(db, u, n)
  {
    var k := if RowsFor(db, user, id) == {} then newRow else Least(RowsFor(db, user, id));
    assert Upsert(db, user, id, next, newRow).rows[k] == Row(id, user, next);
    if u == user && n == id {
      assert k in RowsFor(Upsert(db, user, id, next, newRow), u, n);
    }
  }

  lemma UpsertKeepsOps(db: DB, c: Cache, user: User, id: NotifyId, next: Status, newRow: RowId)
    requires OpsExact(db, c) && newRow !in db.rows && id in db.records
    ensures var db' := Upsert(db, user, id, next, newRow);
            OpsExact(db', if db.records[id].target == Broadcast
                          then AddMember(c, OpKey(db.records[id].tenant, user), id) else c)
  {
    var db' := Upsert(db, user, id, next, newRow);
    var c' := if db.records[id].target == Broadcast then AddMember(c, OpKey(db.records[id].tenant, user), id) else c;
    forall n, u | IsBroadcast(db', n)
      ensures OpExact(db', c', n, u)
    {
      UpsertRows(db, user, id, next, newRow, u, n);
      assert IsBroadcast(db, n) && OpExact(db, c, n, u);
    }
  }

  /** A bulk status update neither adds nor removes rows. */
  lemma RestatusKeepsOps(db: DB, c: Cache, selected: set<RowId>, next: Status)
    requires OpsExact(db, c)
    ensures OpsExact(Restatus(db, selected, next), c)
  {
    var db' := Restatus(db, selected, next);
    forall n, u | IsBroadcast(db', n)
      ensures OpExact(db', c, n, u)
    {
      assert RowsFor(db', u, n) == RowsFor(db, u, n);
      assert IsBroadcast(db, n) && OpExact(db, c, n, u);
    }
  }

  /** Moving one watermark to now and merging total into op settle the same broadcasts. */
  lemma WatermarkKeepsOps(db: DB, c: Cache, tenant: Tenant, user: User, m: Mark)
    requires OpsExact(db, c) && TotalsExact(db, c)
    requires forall n | n in db.records :: db.records[n].createdAt <= m.readAt || db.records[n].createdAt <= m.clearAt
    ensures OpsExact(db.(marks := db.marks[(tenant, user) := m]), SyncOp(c, tenant, user))
  {
    var db' := db.(marks := db.marks[(tenant, user) := m]);
    var c' := SyncOp(c, tenant, user);
    forall n, u | IsBroadcast(db', n)
      ensures OpExact(db', c', n, u)
    {
      assert RowsFor(db', u, n) == RowsFor(db, u, n);
      assert IsBroadcast(db, n) && OpExact(db, c, n, u);
      if db.records[n].tenant == tenant && u == user {
        assert n in BroadcastIds(db, tenant);
      }
    }
  }

  lemma CleanupTotals(db: DB, c: Cache, expired: seq<NotifyId>, t: Tenant)
    requires forall n | n in expired :: n in db.records
    requires Members(c, TotalKey(t)) == BroadcastIds(db, t)
    ensures var db' := Cleaned(db, IdSet(expired));
            Members(Snapshot(db', c, Infos(db, expired)), TotalKey(t)) == BroadcastIds(db', t)
  {
    var db' := Cleaned(db, IdSet(expired));
    var infos := Infos(db, expired);
    SnapshotSets(db', c, infos, TotalKey(t));
    if t !in BroadcastTenants(infos) {
      BroadcastTenantsMembers(infos, t);
      assert forall i | 0 <= i < |infos| :: infos[i] == db.records[expired[i]];
      assert BroadcastIds(db', t) == BroadcastIds(db, t);
    }
  }

  lemma CleanupKeepsOps(db: DB, c: Cache, ids: set<NotifyId>, c': Cache)
    requires OpsExact(db, c)
    requires forall t, u :: Members(c', OpKey(t, u)) == Members(c, OpKey(t, u))
    ensures OpsExact(Cleaned(db, ids), c')
  {
    var db' := Cleaned(db, ids);
    forall n, u | IsBroadcast(db', n)
      ensures OpExact(db', c', n, u)
    {
      assert RowsFor(db', u, n) == RowsFor(db, u, n);
      assert IsBroadcast(db, n) && OpExact(db, c, n, u);
    }
  }

  // ---- Every step of the protocol ----

  lemma SameSetsOps(db: DB, c: Cache, c': Cache)
    requires OpsExact(db, c)
    requires forall t, u :: Members(c', OpKey(t, u)) == Members(c, OpKey(t, u))
    ensures OpsExact(db, c')
  {
    forall n, u | IsBroadcast(db, n)
      ensures OpExact(db, c', n, u)
    {
      assert OpExact(db, c, n, u);
    }
  }

  lemma SameRecordsTotals(db: DB, db': DB, c: Cache, c': Cache)
    requires TotalsExact(db, c) && db'.records == db.records
    requires forall t :: Members(c', TotalKey(t)) == Members(c, TotalKey(t))
    ensures TotalsExact(db', c')
  {
    forall t
      ensures Members(c', TotalKey(t)) == BroadcastIds(db', t)
    {
      assert BroadcastIds(db', t) == BroadcastIds(db, t);
    }
  }

  lemma MarksBelow(s: State, t: Tenant)
    requires Timely(s)
    ensures forall u :: MarkOf(s.db, t, u).readAt <= s.clock && MarkOf(s.db, t, u).clearAt <= s.clock
  {
  }

  function CacheAfterSend(db': DB, c: Cache, id: NotifyId, r: Record): Cache {
    if r.target == Broadcast then AddBroadcast(db', c, r.tenant, id)
    else CountSend(db', c, r.tenant, r.targetIds, r.sender)
  }

  lemma SendStep(s: State, e: Event)
    requires e.op.Send? && ValidDraft(e.op.draft) && Enabled(s, e)
    ensures var r := RecordOf(e.op.draft, e.at);
            && Step(s, e).db == InsertRecord(s.db, e.op.id, r, e.op.rowIds)
            && Step(s, e).ids == s.ids + {e.op.id}
            && Step(s, e).cache == CacheAfterSend(Step(s, e).db, s.cache, e.op.id, r)
  {
  }

  lemma SendSets(db: DB, c: Cache, id: NotifyId, r: Record, rowIds: seq<RowId>, k: Key)
    requires TotalsExact(db, c) && id !in db.records && |rowIds| == |r.targetIds|
    ensures var db' := InsertRecord(db, id, r, rowIds);
            Members(CacheAfterSend(db', c, id, r), k)
            == if r.target == Broadcast && k == TotalKey(r.tenant) then BroadcastIds(db', r.tenant)
               else Members(c, k)
  {
    var db' := InsertRecord(db, id, r, rowIds);
    if r.target == Broadcast {
      InsertTotals(db, id, r, rowIds, r.tenant);
      assert Members(c, TotalKey(r.tenant)) == BroadcastIds(db, r.tenant);
      AddBroadcastSets(db', c, r.tenant, id, k);
    } else {
      CountSendSets(db', c, r.tenant, r.targetIds, r.sender);
    }
  }

  lemma CountSendSets(db: DB, c: Cache, tenant: Tenant, users: seq<User>, sender: SenderType)
    ensures CountSend(db, c, tenant, users, sender).sets == c.sets
  {
    var keys := CounterKeys(tenant, users, sender);
    IncrExistingKeys(c, keys);
    ReconcileSets(db, IncrExisting(c, keys), tenant, users, sender);
  }

  lemma SendAgrees(db: DB, c: Cache, id: NotifyId, r: Record, rowIds: seq<RowId>)
    requires TotalsExact(db, c) && id !in db.records && |rowIds| == |r.targetIds|
    requires OpsExact(InsertRecord(db, id, r, rowIds), c)
    ensures var db' := InsertRecord(db, id, r, rowIds);
            var c' := CacheAfterSend(db', c, id, r);
            && TotalsExact(db', c')
            && OpsExact(db', c')
            && forall t, u :: Members(c', OpKey(t, u)) == Members(c, OpKey(t, u))
  {
    var db' := InsertRecord(db, id, r, rowIds);
    var c' := CacheAfterSend(db', c, id, r);
    forall t, u
      ensures Members(c', OpKey(t, u)) == Members(c, OpKey(t, u))
    {
      SendSets(db, c, id, r, rowIds, OpKey(t, u));
    }
    SameSetsOps(db', c, c');
    forall t
      ensures Members(c', TotalKey(t)) == BroadcastIds(db', t)
    {
      SendSets(db, c, id, r, rowIds, TotalKey(t));
      InsertTotals(db, id, r, rowIds, t);
    }
  }

  lemma SendKeeps(s: State, e: Event)
    requires SetsOk(s) && Enabled(s, e) && e.op.Send? && ValidDraft(e.op.draft)
    ensures TotalsExact(Step(s, e).db, Step(s, e).cache)
    ensures OpsExact(Step(s, e).db, Step(s, e).cache)
    ensures OpsIssued(Step(s, e).cache, Step(s, e).ids)
  {
    var r := RecordOf(e.op.draft, e.at);
    MarksBelow(s, r.tenant);
    InsertKeepsOps(s.db, s.cache, e.op.id, r, e.op.rowIds);
    SendAgrees(s.db, s.cache, e.op.id, r, e.op.rowIds);
    SendStep(s, e);
  }

  lemma TenantOneKeyAgrees(db: DB, c: Cache, tenant: Tenant, user: User, m: Mark, selected: set<RowId>, next: Status)
    requires OpsExact(db, c) && TotalsExact(db, c)
    requires forall n | n in db.records :: db.records[n].createdAt <= m.readAt || db.records[n].createdAt <= m.clearAt
    ensures var db' := Restatus(db.(marks := db.marks[(tenant, user) := m]), selected, next);
            OpsExact(db', SyncOp(c, tenant, user)) && TotalsExact(db', SyncOp(c, tenant, user))
  {
    var marked := db.(marks := db.marks[(tenant, user) := m]);
    var c' := SyncOp(c, tenant, user);
    WatermarkKeepsOps(db, c, tenant, user, m);
    RestatusKeepsOps(marked, c', selected, next);
    SameRecordsTotals(db, Restatus(marked, selected, next), c, c');
  }

  lemma TenantOneKeyKeeps(s: State, e: Event)
    requires SetsOk(s) && Enabled(s, e) && (e.op.TenantRead? || e.op.TenantClear?)
    ensures TotalsExact(Step(s, e).db, Step(s, e).cache)
    ensures OpsExact(Step(s, e).db, Step(s, e).cache)
    ensures OpsIssued(Step(s, e).cache, Step(s, e).ids)
  {
    var t, u := e.op.tenant, e.op.user;
    var m := MarkOf(s.db, t, u);
    if e.op.TenantRead? {
      TenantOneKeyAgrees(s.db, s.cache, t, u, Mark(e.at, m.clearAt), TenantDirectRows(s.db, t, u), Read);
    } else {
      TenantOneKeyAgrees(s.db, s.cache, t, u, Mark(m.readAt, e.at), RowsInTenant(s.db, t, u), Deleted);
    }
    assert Members(s.cache, TotalKey(t)) <= s.ids by {
      assert Members(s.cache, TotalKey(t)) == BroadcastIds(s.db, t);
    }
  }

  lemma CleanupKeeps(s: State, e: Event)
    requires SetsOk(s) && Enabled(s, e) && e.op.Cleanup?
    ensures TotalsExact(Step(s, e).db, Step(s, e).cache)
    ensures OpsExact(Step(s, e).db, Step(s, e).cache)
    ensures OpsIssued(Step(s, e).cache, Step(s, e).ids)
  {
    CleanupStep(s, e);
    var s' := Step(s, e);
    forall t
      ensures Members(s'.cache, TotalKey(t)) == BroadcastIds(s'.db, t)
    {
      CleanupTotals(s.db, s.cache, e.op.expired, t);
    }
    forall t, u
      ensures Members(s'.cache, OpKey(t, u)) == Members(s.cache, OpKey(t, u))
    {
      SnapshotSets(s'.db, s.cache, Infos(s.db, e.op.expired), OpKey(t, u));
    }
    CleanupKeepsOps(s.db, s.cache, IdSet(e.op.expired), s'.cache);
  }

  lemma RowOpKeeps(s: State, e: Event)
    requires SetsOk(s) && Enabled(s, e) && (e.op.Act? || e.op.UserRead? || e.op.UserClear?)
    ensures TotalsExact(Step(s, e).db, Step(s, e).cache)
    ensures OpsExact(Step(s, e).db, Step(s, e).cache)
    ensures OpsIssued(Step(s, e).cache, Step(s, e).ids)
  {
    var s' := Step(s, e);
    SameRecordsTotals(s.db, s'.db, s.cache, s'.cache);
    if e.op.Act? {
      if CheckAccess(s.db, e.op.tenant, e.op.user, e.op.id).Granted? {
        UpsertKeepsOps(s.db, s.cache, e.op.user, e.op.id, e.op.next, e.op.newRow);
        if s.db.records[e.op.id].target != Broadcast {
          SameSetsOps(s'.db, s.cache, s'.cache);
        }
      }
    } else {
      RestatusKeepsOps(s.db, s.cache, RowsInTenant(s.db, e.op.tenant, e.op.user), if e.op.UserRead? then Read else Deleted);
      SameSetsOps(s'.db, s.cache, s'.cache);
    }
  }

  lemma StepKeepsSets(s: State, e: Event)
    requires SetsOk(s) && Enabled(s, e)
    ensures SetsOk(Step(s, e))
  {
    CommitKeepsTables(s, e);
    match e.op
    case Send(_, d, _) => if ValidDraft(d) { SendKeeps(s, e); }
    case TenantRead(_, _) => TenantOneKeyKeeps(s, e);
    case TenantClear(_, _) => TenantOneKeyKeeps(s, e);
    case Cleanup(_) => CleanupKeeps(s, e);
    case _ => RowOpKeeps(s, e);
  }

  lemma TraceKeepsSets(s: State, es: seq<Event>, ss: seq<State>, k: nat)
    requires Trace(s, es, ss) && k < |es| && SetsOk(ss[k])
    ensures SetsOk(ss[k + 1])
  {
    StepKeepsSets(ss[k], es[k]);
  }

  lemma {:induction false} RunKeepsSets(es: seq<Event>, ss: seq<State>, k: nat)
    requires Trace(INITIAL, es, ss) && k <= |es|
    ensures SetsOk(ss[k])
    decreases k
  {
    if k > 0 {
      RunKeepsSets(es, ss, k - 1);
      TraceKeepsSets(INITIAL, es, ss, k - 1);
    }
  }

  /** A tenant broadcast is counted by the query exactly when nothing has settled it. */
  lemma QueriedIffUnsettled(db: DB, tenant: Tenant, user: User, n: NotifyId)
    requires Fitting(db)
    ensures n in QueriedUnread(db, tenant, user)
            <==> n in SentByTenant(db, BroadcastIds(db, tenant)) && !Settled(db, n, user)
  {
    if n in SentByTenant(db, BroadcastIds(db, tenant)) && !Settled(db, n, user) {
      var it := Item(n, None);
      assert it in TenantUnreadItems(db, tenant, user);
    }
    if n in QueriedUnread(db, tenant, user) {
      var it :| it in TenantUnreadItems(db, tenant, user) && it.notify == n;
    }
  }

  /** Exact sets give the same unread broadcasts on both sides. */
  lemma AgreementFromSets(db: DB, c: Cache, tenant: Tenant, user: User)
    requires Fitting(db) && Members(c, TotalKey(tenant)) == BroadcastIds(db, tenant) && OpsExact(db, c)
    ensures SentByTenant(db, CachedUnread(c, tenant, user)) == QueriedUnread(db, tenant, user)
  {
    forall n
      ensures n in SentByTenant(db, CachedUnread(c, tenant, user)) <==> n in QueriedUnread(db, tenant, user)
    {
      QueriedIffUnsettled(db, tenant, user, n);
      assert IsBroadcast(db, n) ==> OpExact(db, c, n, user);
    }
  }

  /**
   After every prefix of a run of sends, single and one-key operations and cleanups, the tenant-sent
   part of total \ op(user) is exactly the set of broadcasts the inbox query counts as unread.
   */
  lemma BroadcastsAgree(es: seq<Event>, ss: seq<State>, k: nat, tenant: Tenant, user: User)
    requires Trace(INITIAL, es, ss) && k <= |es|
    ensures SentByTenant(ss[k].db, CachedUnread(ss[k].cache, tenant, user)) == QueriedUnread(ss[k].db, tenant, user)
  {
    RunKeepsSets(es, ss, k);
    AgreementFromSets(ss[k].db, ss[k].cache, tenant, user);
  }
}
