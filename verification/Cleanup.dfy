/** The daily cleanup: batches of expired records, each followed by a cache snapshot. */
module CleanupServices {
  import opened Types
  import opened Keys
  import opened Storage
  import opened UnreadCache
  import opened Protocol
  import opened Stores
  import opened UnreadServices
  import opened BroadcastAgreement
  import opened CounterAgreement

  const BATCH_SIZE: nat := 500

  predicate Present(db: DB, ids: seq<NotifyId>) {
    forall n | n in ids :: n in db.records
  }

  /** One batch: delete, then recompute what it touched in the cache. */
  function CleanBatch(db: DB, c: Cache, ids: seq<NotifyId>): (DB, Cache) {
    if Present(db, ids) then
      var db' := Cleaned(db, IdSet(ids));
      (db', Snapshot(db', c, Infos(db, ids)))
    else (db, c)
  }

  function CleanBatches(db: DB, c: Cache, batches: seq<seq<NotifyId>>): (DB, Cache) {
    if batches == [] then (db, c)
    else
      var (db1, c1) := CleanBatches(db, c, batches[..|batches| - 1]);
      CleanBatch(db1, c1, batches[|batches| - 1])
  }

  lemma CleanedTwice(db: DB, a: set<NotifyId>, b: set<NotifyId>)
    ensures Cleaned(Cleaned(db, a), b) == Cleaned(db, a + b)
  {
    assert Cleaned(Cleaned(db, a), b).rows == Cleaned(db, a + b).rows;
    assert Cleaned(Cleaned(db, a), b).records == Cleaned(db, a + b).records;
  }

  lemma ExpiredAfterCleaned(db: DB, ids: set<NotifyId>, now: Time)
    ensures ExpiredIds(Cleaned(db, ids), now) == ExpiredIds(db, now) - ids
  {
  }

  lemma {:induction false} DistinctSize(ids: seq<NotifyId>)
    requires forall i, j | 0 <= i < j < |ids| :: ids[i] != ids[j]
    ensures |IdSet(ids)| == |ids|
    decreases |ids|
  {
    if ids == [] {
      assert IdSet(ids) == {};
    } else {
      var last := |ids| - 1;
      DistinctSize(ids[..last]);
      assert IdSet(ids) == IdSet(ids[..last]) + {ids[last]};
      assert ids[last] !in ids[..last];
    }
  }

  /** Target users gathered per tenant, with the tenants in order of first appearance. */
  datatype Gathered = Gathered(order: seq<Tenant>, users: map<Tenant, seq<User>>)

  function UsersOf(g: Gathered, t: Tenant): seq<User> {
    if t in g.users then g.users[t] else []
  }

  ghost predicate Gathers(g: Gathered, infos: seq<Record>, sender: SenderType) {
    g.order == BucketTenants(infos, sender)
    && g.users.Keys == (set t | t in g.order)
    && forall t :: UsersOf(g, t) == Bucket(infos, t, sender)
  }

  /** Appends the non-empty users not yet seen. */
  method AddUsers(users: seq<User>, seen: seq<User>) returns (r: seq<User>)
    ensures r == Distinct(users, seen)
  {
    r := seen;
    for i := 0 to |users|
      invariant Distinct(users[i..], r) == Distinct(users, seen)
    {
      assert users[i..][1..] == users[i + 1..];
      if users[i] != "" && users[i] !in r {
        r := r + [users[i]];
      }
    }
  }

  method AddInfo(g: Gathered, info: Record, ghost infos: seq<Record>) returns (r: Gathered)
    requires info.target != Broadcast && Gathers(g, infos, info.sender)
    ensures Gathers(r, infos + [info], info.sender)
  {
    ghost var infos' := infos + [info];
    assert infos'[..|infos'| - 1] == infos;
    r := g;
    if info.tenant !in r.users {
      r := Gathered(r.order + [info.tenant], r.users[info.tenant := []]);
    }
    assert r.users[info.tenant] == Bucket(infos, info.tenant, info.sender);
    var users := AddUsers(info.targetIds, r.users[info.tenant]);
    r := r.(users := r.users[info.tenant := users]);
    forall t
      ensures UsersOf(r, t) == Bucket(infos', t, info.sender)
    {
      assert UsersOf(g, t) == Bucket(infos, t, info.sender);
    }
  }

  lemma GathersOther(g: Gathered, infos: seq<Record>, info: Record, sender: SenderType)
    requires Gathers(g, infos, sender) && (info.target == Broadcast || info.sender != sender)
    ensures Gathers(g, infos + [info], sender)
  {
    assert (infos + [info])[..|infos|] == infos;
  }

  /** The first loop of the snapshot: sort the removed records into personal, tenant and broadcast. */
  method Gather(infos: seq<Record>) returns (personal: Gathered, tenant: Gathered, broadcast: seq<Tenant>)
    ensures Gathers(personal, infos, FromUser) && Gathers(tenant, infos, FromTenant) && broadcast == BroadcastTenants(infos)
  {
    personal, tenant, broadcast := Gathered([], map[]), Gathered([], map[]), [];
    for i := 0 to |infos|
      invariant Gathers(personal, infos[..i], FromUser) && Gathers(tenant, infos[..i], FromTenant)
      invariant broadcast == BroadcastTenants(infos[..i])
    {
      var info := infos[i];
      assert infos[..i + 1] == infos[..i] + [info] && infos[..i + 1][..i] == infos[..i];
      if info.target == Broadcast {
        GathersOther(personal, infos[..i], info, FromUser);
        GathersOther(tenant, infos[..i], info, FromTenant);
        if info.tenant !in broadcast {
          broadcast := broadcast + [info.tenant];
        }
      } else if info.sender == FromTenant {
        GathersOther(personal, infos[..i], info, FromUser);
        tenant := AddInfo(tenant, info, infos[..i]);
      } else {
        GathersOther(tenant, infos[..i], info, FromTenant);
        personal := AddInfo(personal, info, infos[..i]);
      }
    }
    assert infos[..|infos|] == infos;
  }

  lemma ReconcileNobody(db: DB, c: Cache, t: Tenant, sender: SenderType)
    ensures Reconcile(db, c, t, [], sender) == c
  {
  }

  lemma GatheredUsers(g: Gathered, infos: seq<Record>, sender: SenderType, i: nat)
    requires Gathers(g, infos, sender) && i < |g.order|
    ensures g.order[i] in g.users && g.users[g.order[i]] == Bucket(infos, g.order[i], sender)
  {
    assert g.users[g.order[i]] == UsersOf(g, g.order[i]);
  }

  /** One more tenant reconciled; nothing happens for an empty bucket. */
  lemma BucketsNext(db: DB, c: Cache, infos: seq<Record>, sender: SenderType, order: seq<Tenant>, i: nat)
    requires i < |order|
    ensures var t, before := order[i], ReconcileBuckets(db, c, infos, sender, order[..i]);
            && ReconcileBuckets(db, c, infos, sender, order[..i + 1]) == Reconcile(db, before, t, Bucket(infos, t, sender), sender)
            && (Bucket(infos, t, sender) == [] ==> Reconcile(db, before, t, Bucket(infos, t, sender), sender) == before)
  {
    assert order[..i + 1][..i] == order[..i];
    ReconcileNobody(db, ReconcileBuckets(db, c, infos, sender, order[..i]), order[i], sender);
  }

  class CleanupService {
    const db: Database
    const redis: Redis
    const unread: UnreadService

    constructor (db: Database, unread: UnreadService)
      requires unread.db == db
      ensures this.db == db && this.unread == unread && this.redis == unread.redis
    {
      this.db := db;
      this.redis := unread.redis;
      this.unread := unread;
    }

    /** One reconcile per tenant with a non-empty bucket. */
    method ReconcileGathered(g: Gathered, sender: SenderType, ghost infos: seq<Record>)
      requires unread.db == db && unread.redis == redis && Gathers(g, infos, sender)
      modifies redis`nums
      ensures redis.View() == ReconcileBuckets(db.View(), old(redis.View()), infos, sender, g.order)
    {
      for i := 0 to |g.order|
        invariant redis.View() == ReconcileBuckets(db.View(), old(redis.View()), infos, sender, g.order[..i])
      {
        GatheredUsers(g, infos, sender, i);
        BucketsNext(db.View(), old(redis.View()), infos, sender, g.order, i);
        var users := g.users[g.order[i]];
        if |users| != 0 {
          var _ := unread.BatchReconcileUsers(g.order[i], users, sender);
        }
      }
      assert g.order[..|g.order|] == g.order;
    }

    method SyncUnreadSnapshot(infos: seq<Record>)
      requires unread.db == db && unread.redis == redis
      modifies redis
      ensures redis.View() == Snapshot(db.View(), old(redis.View()), infos)
    {
      var personal, tenant, broadcast := Gather(infos);
      ReconcileGathered(personal, FromUser, infos);
      ReconcileGathered(tenant, FromTenant, infos);
      ghost var before := redis.View();
      for i := 0 to |broadcast|
        invariant redis.View() == ReconcileTotals(db.View(), before, broadcast[..i])
      {
        assert broadcast[..i + 1][..i] == broadcast[..i];
        unread.ReconcileTenantBroadcastTotal(broadcast[i]);
      }
      assert broadcast[..|broadcast|] == broadcast;
    }

    /** One page of expired records: status rows first, then records, then the snapshot. */
    method CleanPage(now: Time) returns (ids: seq<NotifyId>)
      requires unread.db == db && unread.redis == redis
      modifies db, redis
      ensures ExpiredPage(old(db.View()), now, BATCH_SIZE, ids)
      ensures (db.View(), redis.View()) == CleanBatch(old(db.View()), old(redis.View()), ids)
      ensures db.View() == Cleaned(old(db.View()), IdSet(ids))
    {
      ids := db.ListExpired(now, BATCH_SIZE);
      if |ids| == 0 {
        EmptyPage(db.View(), redis.View());
        return;
      }
      var infos := Infos(db.View(), ids);
      db.DeleteStatusesByNotifyIds(ids);
      db.DeleteRecordsByNotifyIds(ids);
      SyncUnreadSnapshot(infos);
    }

    /**
     Deletes expired records batch by batch until a short or empty page. `cancelled(i)` tells
     whether the context is done when batch i is about to start.
     */
    method RunOnce(now: Time, cancelled: nat -> bool)
      returns (total: nat, completed: bool, ghost removed: set<NotifyId>, ghost batches: seq<seq<NotifyId>>)
      requires unread.db == db && unread.redis == redis
      modifies db, redis
      ensures removed <= ExpiredIds(old(db.View()), now) && total == |removed|
      ensures completed ==> removed == ExpiredIds(old(db.View()), now)
      ensures db.View() == Cleaned(old(db.View()), removed)
      ensures (db.View(), redis.View()) == CleanBatches(old(db.View()), old(redis.View()), batches)
    {
      total := 0;
      removed, batches := {}, [];
      CleanedNone(db.View());
      var round := 0;
      while true
        invariant removed <= ExpiredIds(old(db.View()), now) && total == |removed|
        invariant db.View() == Cleaned(old(db.View()), removed)
        invariant (db.View(), redis.View()) == CleanBatches(old(db.View()), old(redis.View()), batches)
        decreases |ExpiredIds(db.View(), now)|
      {
        if cancelled(round) {
          return total, false, removed, batches;
        }
        round := round + 1;
        ghost var before := db.View();
        var ids := CleanPage(now);
        PageCleaned(old(db.View()), removed, before, now, ids);
        removed, batches := removed + IdSet(ids), batches + [ids];
        assert batches[..|batches| - 1] + [ids] == batches;
        total := total + |ids|;
        if |ids| < BATCH_SIZE {
          break;
        }
      }
      completed := true;
    }
  }

  lemma CleanedNone(db: DB)
    ensures Cleaned(db, {}) == db
  {
    assert Cleaned(db, {}).rows == db.rows && Cleaned(db, {}).records == db.records;
  }

  lemma EmptyPage(db: DB, c: Cache)
    ensures CleanBatch(db, c, []) == (db, c) && Cleaned(db, IdSet([])) == db
  {
    CleanedNone(db);
    assert Infos(db, []) == [] && IdSet([]) == {};
    assert Snapshot(db, c, []) == c;
  }

  /** Bookkeeping of one page: what is removed so far, how much, and what is left. */
  lemma PageCleaned(start: DB, removed: set<NotifyId>, before: DB, now: Time, ids: seq<NotifyId>)
    requires removed <= ExpiredIds(start, now) && before == Cleaned(start, removed) && ExpiredPage(before, now, BATCH_SIZE, ids)
    ensures removed + IdSet(ids) <= ExpiredIds(start, now)
    ensures |removed + IdSet(ids)| == |removed| + |ids|
    ensures Cleaned(before, IdSet(ids)) == Cleaned(start, removed + IdSet(ids))
    ensures |ids| < BATCH_SIZE ==> removed + IdSet(ids) == ExpiredIds(start, now)
    ensures ids != [] ==> |ExpiredIds(Cleaned(before, IdSet(ids)), now)| < |ExpiredIds(before, now)|
  {
    ExpiredAfterCleaned(start, removed, now);
    ExpiredAfterCleaned(before, IdSet(ids), now);
    CleanedTwice(start, removed, IdSet(ids));
    DistinctSize(ids);
    PageSets(ExpiredIds(start, now), removed, IdSet(ids));
    if ids != [] {
      assert ids[0] in IdSet(ids);
    }
  }

  lemma PageSets(expired: set<NotifyId>, removed: set<NotifyId>, page: set<NotifyId>)
    requires removed <= expired && page <= expired - removed
    ensures removed + page <= expired && |removed + page| == |removed| + |page|
    ensures page != {} ==> |expired - removed - page| < |expired - removed|
  {
    assert removed !! page;
    assert expired - removed == (expired - removed - page) + page;
  }

  // ---- What a cleanup preserves ----

  ghost predicate CounterExact(db: DB, c: Cache, t: Tenant, u: User, sender: SenderType) {
    Num(c, CounterKey(t, u, sender)) == CountUnread(db, t, u, sender)
  }

  lemma CleanBatchKeepsCounter(db: DB, c: Cache, ids: seq<NotifyId>, t: Tenant, u: User, sender: SenderType)
    requires Fitting(db) && CanonicalTargets(db) && u != "" && CounterExact(db, c, t, u, sender)
    ensures var (db', c') := CleanBatch(db, c, ids);
            Fitting(db') && CanonicalTargets(db') && CounterExact(db', c', t, u, sender)
  {
    if Present(db, ids) {
      var db' := Cleaned(db, IdSet(ids));
      var infos := Infos(db, ids);
      assert forall k | k in db'.rows :: RowFits(db, db.rows[k]);
      assert CanonicalInfos(infos) by {
        assert forall i | 0 <= i < |infos| :: infos[i] == db.records[ids[i]];
      }
      SnapshotCounters(db', c, infos, t, u, sender);
      if u !in Bucket(infos, t, sender) {
        CleanupUnread(db, ids, t, u, sender);
      }
    }
  }

  /** Cleanup leaves every exact counter of a canonical user exact, personal or tenant, whatever it removes. */
  lemma {:induction false} CleanupKeepsCounters(db: DB, c: Cache, batches: seq<seq<NotifyId>>, t: Tenant, u: User, sender: SenderType)
    requires Fitting(db) && CanonicalTargets(db) && u != "" && CounterExact(db, c, t, u, sender)
    ensures var (db', c') := CleanBatches(db, c, batches);
            Fitting(db') && CanonicalTargets(db') && CounterExact(db', c', t, u, sender)
    decreases |batches|
  {
    if batches != [] {
      var last := |batches| - 1;
      CleanupKeepsCounters(db, c, batches[..last], t, u, sender);
      var (db1, c1) := CleanBatches(db, c, batches[..last]);
      CleanBatchKeepsCounter(db1, c1, batches[last], t, u, sender);
    }
  }

  /** Cleanup leaves every exact total set exact and every user's unread broadcasts in agreement. */
  lemma {:induction false} CleanupKeepsSets(db: DB, c: Cache, batches: seq<seq<NotifyId>>)
    requires TotalsExact(db, c) && OpsExact(db, c)
    ensures var (db', c') := CleanBatches(db, c, batches);
            TotalsExact(db', c') && OpsExact(db', c')
    decreases |batches|
  {
    if batches != [] {
      var last := |batches| - 1;
      CleanupKeepsSets(db, c, batches[..last]);
      var (db1, c1) := CleanBatches(db, c, batches[..last]);
      CleanBatchKeepsSets(db1, c1, batches[last]);
    }
  }

  lemma CleanBatchKeepsSets(db: DB, c: Cache, ids: seq<NotifyId>)
    requires TotalsExact(db, c) && OpsExact(db, c)
    ensures TotalsExact(CleanBatch(db, c, ids).0, CleanBatch(db, c, ids).1)
    ensures OpsExact(CleanBatch(db, c, ids).0, CleanBatch(db, c, ids).1)
  {
    if Present(db, ids) {
      var db' := Cleaned(db, IdSet(ids));
      var c' := Snapshot(db', c, Infos(db, ids));
      forall t
        ensures Members(c', TotalKey(t)) == BroadcastIds(db', t)
      {
        CleanupTotals(db, c, ids, t);
      }
      forall t, u
        ensures Members(c', OpKey(t, u)) == Members(c, OpKey(t, u))
      {
        SnapshotSets(db', c, Infos(db, ids), OpKey(t, u));
      }
      CleanupKeepsOps(db, c, IdSet(ids), c');
    }
  }

  lemma CommitExpires(db: DB, e: Event, now: Time)
    requires ExpiredIds(db, now) == {} && (e.op.Send? ==> e.op.draft.expireAt == None)
    ensures ExpiredIds(Commit(db, e), now) == {}
  {
    var db' := Commit(db, e);
    forall n | n in db'.records
      ensures !Expired(db'.records[n], now)
    {
      CommitRecords(db, e, n);
      assert n in db.records ==> n !in ExpiredIds(db, now);
    }
  }

  /** Sends persist no expiry, so over every run of the hub's own sends no record ever expires. */
  lemma {:induction false} NothingExpires(es: seq<Event>, ss: seq<State>, k: nat, now: Time)
    requires Trace(INITIAL, es, ss) && k <= |es| && forall e | e in es && e.op.Send? :: e.op.draft.expireAt == None
    ensures ExpiredIds(ss[k].db, now) == {}
    decreases k
  {
    if k > 0 {
      NothingExpires(es, ss, k - 1, now);
      CommitExpires(ss[k - 1].db, es[k - 1], now);
    }
  }
}
