/** The unread service: counters and sets in Redis, recomputed from Postgres where needed. */
module UnreadServices {
  import opened Types
  import opened Keys
  import opened UserIds
  import opened Storage
  import opened UnreadCache
  import opened Stores

  datatype FullUnread = FullUnread(personal: int, tenant: int)

  class UnreadService {
    const db: Database
    const redis: Redis

    constructor (db: Database, redis: Redis)
      ensures this.db == db && this.redis == redis
    {
      this.db := db;
      this.redis := redis;
    }

    // ---- Recomputing from the tables ----

    /** The grouped query, each user ID scanned into an int64; None when a scan fails. */
    method BatchCountUnread(tenant: Tenant, users: seq<User>, sender: SenderType) returns (counts: Option<map<string, int>>)
      ensures counts == GroupedCounts(db.View(), tenant, users, sender)
    {
      var resMap: map<string, int> := map[];
      ghost var count := JoinCount(db.View(), tenant, sender);
      for i := 0 to |users|
        invariant GroupBy(Trip, count, users[..i]) == Some(resMap)
      {
        assert users[..i + 1][..i] == users[..i];
        var n := CountUnread(db.View(), tenant, users[i], sender);
        if n != 0 {
          var parsed := ParseInt64(users[i]);
          if parsed.None? {
            GroupByFails(Trip, count, users, i + 1);
            return None;
          }
          resMap := resMap[FormatInt(parsed.value) := n];
        }
      }
      assert users[..|users|] == users;
      counts := Some(resMap);
    }

    /** A failed scan is returned as an error and nothing is written. */
    method BatchReconcileUsers(tenant: Tenant, users: seq<User>, sender: SenderType) returns (ok: bool)
      modifies redis`nums
      ensures ok <==> GroupedCounts(db.View(), tenant, users, sender).Some?
      ensures redis.View() == Reconcile(db.View(), old(redis.View()), tenant, users, sender)
    {
      if |users| == 0 {
        return true;
      }
      var counts := BatchCountUnread(tenant, users, sender);
      if counts.None? {
        return false;
      }
      var kv: map<Key, int> := map[];
      ghost var before := redis.View();
      assert before.nums + kv == before.nums;
      for i := 0 to |users|
        invariant WriteCounts(before, tenant, users[..i], sender, counts.value) == before.(nums := before.nums + kv)
      {
        assert users[..i + 1][..i] == users[..i];
        var key := CounterKey(tenant, users[i], sender);
        var value := CountFor(counts.value, users[i]);
        assert (before.nums + kv)[key := value] == before.nums + kv[key := value];
        kv := kv[key := value];
      }
      assert users[..|users|] == users;
      redis.BatchSetPipeline(kv);
      ok := true;
    }

    method ReconcileTenantBroadcastTotal(tenant: Tenant)
      modifies redis`sets
      ensures redis.View() == ReconcileTotal(db.View(), old(redis.View()), tenant)
    {
      var ids := BroadcastIds(db.View(), tenant);
      redis.SafeReplaceSet(TotalKey(tenant), ids);
    }

    // ---- Updating the cache ----

    method DecrUnread(tenant: Tenant, user: User, sender: SenderType) returns (v: int)
      modifies redis`nums
      ensures redis.View() == DecrFloor(old(redis.View()), CounterKey(tenant, user, sender))
      ensures v == Num(redis.View(), CounterKey(tenant, user, sender))
    {
      v := redis.DecrWithFloor(CounterKey(tenant, user, sender));
    }

    method ClearPersonUnread(tenant: Tenant, user: User)
      modifies redis`nums
      ensures redis.View() == SetNum(old(redis.View()), PersonalKey(tenant, user), 0)
    {
      redis.SetKey(PersonalKey(tenant, user), 0);
    }

    method SyncTenantBroadcastCacheToOp(tenant: Tenant, user: User) returns (n: int)
      modifies redis`sets
      ensures redis.View() == SyncOp(old(redis.View()), tenant, user)
      ensures n == |Members(redis.View(), OpKey(tenant, user))|
    {
      n := redis.SyncTenantBroadcastToOp(TotalKey(tenant), OpKey(tenant, user));
    }

    method MarkUserBroadcastOp(tenant: Tenant, user: User, id: NotifyId)
      modifies redis`sets
      ensures redis.View() == AddMember(old(redis.View()), OpKey(tenant, user), id)
    {
      redis.SAdd(OpKey(tenant, user), id);
    }

    method TenantBroadcastIncr(tenant: Tenant, id: NotifyId) returns (count: int)
      modifies redis`sets
      ensures redis.View() == AddBroadcast(db.View(), old(redis.View()), tenant, id)
      ensures count == |Members(old(redis.View()), TotalKey(tenant)) + {id}|
    {
      var key := TotalKey(tenant);
      redis.SAdd(key, id);
      count := redis.SCard(key);
      if count == 1 {
        ReconcileTenantBroadcastTotal(tenant);
      }
    }

    /** The list of users whose key was missing is collected and then not used. */
    method BatchIncrUserUnread(tenant: Tenant, users: seq<User>, sender: SenderType) returns (ok: bool)
      modifies redis`nums
      ensures ok <==> GroupedCounts(db.View(), tenant, users, sender).Some?
      ensures redis.View() == CountSend(db.View(), old(redis.View()), tenant, users, sender)
    {
      if |users| == 0 {
        assert CounterKeys(tenant, users, sender) == [];
        return true;
      }
      var keys: seq<Key> := [];
      for i := 0 to |users|
        invariant keys == CounterKeys(tenant, users, sender)[..i]
      {
        keys := keys + [CounterKey(tenant, users[i], sender)];
      }
      assert keys == CounterKeys(tenant, users, sender);
      var results := redis.BatchIncrIfExist(keys);
      var needSync: seq<User> := [];
      for i := 0 to |results| {
        if results[i] == -1 {
          needSync := needSync + [users[i]];
        }
      }
      ok := BatchReconcileUsers(tenant, users, sender);
    }

    // ---- Reading the cache ----

    method GetPersonalUnread(tenant: Tenant, user: User) returns (v: int)
      ensures v == Num(redis.View(), PersonalKey(tenant, user)) == FullOf(redis.View(), tenant, user).personal
    {
      v := redis.Get(PersonalKey(tenant, user));
    }

    method GetTenantUnread(tenant: Tenant, user: User) returns (v: int)
      ensures v == FullOf(redis.View(), tenant, user).tenant
      ensures v == Num(redis.View(), TenantKey(tenant, user))
                   + |Members(redis.View(), TotalKey(tenant)) - Members(redis.View(), OpKey(tenant, user))|
    {
      var direct := redis.Get(TenantKey(tenant, user));
      var broadcast := redis.SDiffCount(TotalKey(tenant), OpKey(tenant, user));
      v := direct + broadcast;
    }

    /** The three keys of each user, in a row. */
    method FlattenKeys(tenant: Tenant, users: seq<User>) returns (allKeys: seq<Key>)
      ensures |allKeys| == 3 * |users|
      ensures forall j | 0 <= j < |users| ::
                && allKeys[3 * j] == PersonalKey(tenant, users[j])
                && allKeys[3 * j + 1] == TenantKey(tenant, users[j])
                && allKeys[3 * j + 2] == OpKey(tenant, users[j])
    {
      allKeys := [];
      for i := 0 to |users|
        invariant |allKeys| == 3 * i
        invariant forall j | 0 <= j < i ::
                    && allKeys[3 * j] == PersonalKey(tenant, users[j])
                    && allKeys[3 * j + 1] == TenantKey(tenant, users[j])
                    && allKeys[3 * j + 2] == OpKey(tenant, users[j])
      {
        allKeys := allKeys + [PersonalKey(tenant, users[i]), TenantKey(tenant, users[i]), OpKey(tenant, users[i])];
      }
    }

    /** One script call for all users; each user's entry is what the two single reads would return. */
    method BatchGetFullUnread(tenant: Tenant, users: seq<User>) returns (result: map<User, FullUnread>)
      ensures result.Keys == set u | u in users
      ensures forall u | u in users :: result[u] == FullOf(redis.View(), tenant, u)
      ensures forall u | u in users ::
                result[u] == FullUnread(
                  Num(redis.View(), PersonalKey(tenant, u)),
                  Num(redis.View(), TenantKey(tenant, u))
                  + |Members(redis.View(), TotalKey(tenant)) - Members(redis.View(), OpKey(tenant, u))|)
    {
      result := map[];
      if |users| == 0 {
        return;
      }
      var allKeys := FlattenKeys(tenant, users);
      var flat := redis.BatchGetUnreadDual(TotalKey(tenant), allKeys);
      ghost var view := redis.View();
      ghost var full := u => FullOf(view, tenant, u);
      forall i | 0 <= i < |users|
        ensures FullUnread(flat[2 * i], flat[2 * i + 1]) == full(users[i])
      {
        assert allKeys[3 * i] == PersonalKey(tenant, users[i]);
      }
      result := PairUp(users, flat, full);
    }
  }

  /** Entry i of the flat answer belongs to user i. */
  method PairUp(users: seq<User>, flat: seq<int>, ghost full: User -> FullUnread) returns (result: map<User, FullUnread>)
    requires |flat| == 2 * |users|
    requires forall i {:trigger users[i]} | 0 <= i < |users| :: FullUnread(flat[2 * i], flat[2 * i + 1]) == full(users[i])
    ensures result.Keys == set u | u in users
    ensures forall u | u in users :: result[u] == full(u)
  {
    result := map[];
    for i := 0 to |users|
      invariant forall u | u in result :: u in users && result[u] == full(u)
      invariant forall j | 0 <= j < i :: users[j] in result
    {
      result := result[users[i] := FullUnread(flat[i * 2], flat[i * 2 + 1])];
    }
  }

  /** What GetPersonalUnread and GetTenantUnread return for one user. */
  function FullOf(c: Cache, tenant: Tenant, user: User): FullUnread {
    FullUnread(Num(c, PersonalKey(tenant, user)), TenantUnread(c, TenantKey(tenant, user), TotalKey(tenant), OpKey(tenant, user)))
  }

  /** One failed scan fails every longer grouped result. */
  lemma {:induction false} GroupByFails(trip: User -> Option<string>, count: User -> int, users: seq<User>, i: nat)
    requires i <= |users| && GroupBy(trip, count, users[..i]).None?
    ensures GroupBy(trip, count, users).None?
    decreases |users| - i
  {
    if i == |users| {
      assert users[..i] == users;
    } else {
      assert users[..i + 1][..i] == users[..i];
      GroupByFails(trip, count, users, i + 1);
    }
  }
}
