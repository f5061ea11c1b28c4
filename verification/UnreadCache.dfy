/**
 The Redis side of unread accounting as a value: counters, broadcast sets, and the
 cache updates that the unread service makes from them and from the tables.
 Every Lua script and every Redis command is one function.
 */
module UnreadCache {
  import opened Types
  import opened Keys
  import opened UserIds
  import opened Storage

  datatype Cache = Cache(nums: map<Key, int>, sets: map<Key, set<NotifyId>>)

  const EMPTY_CACHE := Cache(map[], map[])

  /** GET with a missing key read as 0. */
  function Num(c: Cache, k: Key): int {
    if k in c.nums then c.nums[k] else 0
  }

  /** A missing set key is the empty set. */
  function Members(c: Cache, k: Key): set<NotifyId> {
    if k in c.sets then c.sets[k] else {}
  }

  function SetNum(c: Cache, k: Key, v: int): Cache {
    c.(nums := c.nums[k := v])
  }

  /** The decrement script: DECR, then write 0 back when the result is negative. */
  function DecrFloor(c: Cache, k: Key): Cache {
    SetNum(c, k, if Num(c, k) - 1 < 0 then 0 else Num(c, k) - 1)
  }

  function AddMember(c: Cache, k: Key, id: NotifyId): Cache {
    c.(sets := c.sets[k := Members(c, k) + {id}])
  }

  /** Redis keeps no empty set: storing one removes the key. */
  function StoreSet(c: Cache, k: Key, ids: set<NotifyId>): Cache {
    if ids == {} then c.(sets := c.sets - {k}) else c.(sets := c.sets[k := ids])
  }

  /** Batch increment of the keys that exist; missing keys stay missing. */
  function IncrExisting(c: Cache, keys: seq<Key>): Cache {
    if keys == [] then c
    else
      var before := IncrExisting(c, keys[..|keys| - 1]);
      var k := keys[|keys| - 1];
      if k in before.nums then SetNum(before, k, before.nums[k] + 1) else before
  }

  function CounterKey(tenant: Tenant, user: User, sender: SenderType): Key {
    if sender == FromTenant then TenantKey(tenant, user) else PersonalKey(tenant, user)
  }

  function CounterKeys(tenant: Tenant, users: seq<User>, sender: SenderType): seq<Key> {
    seq(|users|, i requires 0 <= i < |users| => CounterKey(tenant, users[i], sender))
  }

  /**
   One entry per user with a non-zero count, under the printed form of the user's int64.
   A user ID that is not an int64 makes the scan of the whole result fail (None).
   */
  function GroupBy(trip: User -> Option<string>, count: User -> int, users: seq<User>): Option<map<string, int>> {
    if users == [] then Some(map[])
    else
      var user := users[|users| - 1];
      var before := GroupBy(trip, count, users[..|users| - 1]);
      if count(user) == 0 || before.None? then before
      else if trip(user).None? then None
      else Some(before.value[trip(user).value := count(user)])
  }

  function JoinCount(db: DB, tenant: Tenant, sender: SenderType): User -> int {
    user => CountUnread(db, tenant, user, sender)
  }

  /** The grouped unread count over `users`. */
  function GroupedCounts(db: DB, tenant: Tenant, users: seq<User>, sender: SenderType): Option<map<string, int>> {
    GroupBy(Trip, JoinCount(db, tenant, sender), users)
  }

  /** Lookup with Go's zero default. */
  function CountFor(counts: map<string, int>, user: User): int {
    if user in counts then counts[user] else 0
  }

  /** BatchReconcileUsers: rewrite every listed user's counter from the grouped result. */
  function Reconcile(db: DB, c: Cache, tenant: Tenant, users: seq<User>, sender: SenderType): Cache {
    match GroupedCounts(db, tenant, users, sender)
    case None => c
    case Some(counts) => WriteCounts(c, tenant, users, sender, counts)
  }

  function WriteCounts(c: Cache, tenant: Tenant, users: seq<User>, sender: SenderType, counts: map<string, int>): Cache {
    if users == [] then c
    else
      var user := users[|users| - 1];
      SetNum(WriteCounts(c, tenant, users[..|users| - 1], sender, counts),
             CounterKey(tenant, user, sender), CountFor(counts, user))
  }

  /** BatchIncrUserUnread: increment what exists, then reconcile all (the missing-key list is not used). */
  function CountSend(db: DB, c: Cache, tenant: Tenant, users: seq<User>, sender: SenderType): Cache {
    Reconcile(db, IncrExisting(c, CounterKeys(tenant, users, sender)), tenant, users, sender)
  }

  function ReconcileTotal(db: DB, c: Cache, tenant: Tenant): Cache {
    StoreSet(c, TotalKey(tenant), BroadcastIds(db, tenant))
  }

  /** TenantBroadcastIncr: a set that was empty before the add is rebuilt from the table. */
  function AddBroadcast(db: DB, c: Cache, tenant: Tenant, id: NotifyId): Cache {
    var added := AddMember(c, TotalKey(tenant), id);
    if |Members(added, TotalKey(tenant))| == 1 then ReconcileTotal(db, added, tenant) else added
  }

  /** Union of the tenant's broadcasts into the user's operated set. */
  function SyncOp(c: Cache, tenant: Tenant, user: User): Cache {
    StoreSet(c, OpKey(tenant, user), Members(c, OpKey(tenant, user)) + Members(c, TotalKey(tenant)))
  }

  // ---- The cache snapshot taken after a cleanup batch ----

  function Distinct(users: seq<User>, seen: seq<User>): seq<User> {
    if users == [] then seen
    else if users[0] == "" || users[0] in seen then Distinct(users[1..], seen)
    else Distinct(users[1..], seen + [users[0]])
  }

  /** Non-empty target users of the removed direct notifications of one tenant and sender type. */
  function Bucket(infos: seq<Record>, tenant: Tenant, sender: SenderType): seq<User> {
    if infos == [] then []
    else
      var info := infos[|infos| - 1];
      var before := Bucket(infos[..|infos| - 1], tenant, sender);
      if info.target != Broadcast && info.tenant == tenant && info.sender == sender
      then Distinct(info.targetIds, before) else before
  }

  /** Tenants of the removed direct notifications of one sender type, in order of first appearance. */
  function BucketTenants(infos: seq<Record>, sender: SenderType): seq<Tenant> {
    if infos == [] then []
    else
      var info := infos[|infos| - 1];
      var before := BucketTenants(infos[..|infos| - 1], sender);
      if info.target != Broadcast && info.sender == sender && info.tenant !in before
      then before + [info.tenant] else before
  }

  function BroadcastTenants(infos: seq<Record>): seq<Tenant> {
    if infos == [] then []
    else
      var info := infos[|infos| - 1];
      var before := BroadcastTenants(infos[..|infos| - 1]);
      if info.target == Broadcast && info.tenant !in before then before + [info.tenant] else before
  }

  function ReconcileBuckets(db: DB, c: Cache, infos: seq<Record>, sender: SenderType, tenants: seq<Tenant>): Cache {
    if tenants == [] then c
    else
      var t := tenants[|tenants| - 1];
      Reconcile(db, ReconcileBuckets(db, c, infos, sender, tenants[..|tenants| - 1]), t, Bucket(infos, t, sender), sender)
  }

  function ReconcileTotals(db: DB, c: Cache, tenants: seq<Tenant>): Cache {
    if tenants == [] then c
    else ReconcileTotal(db, ReconcileTotals(db, c, tenants[..|tenants| - 1]), tenants[|tenants| - 1])
  }

  /** syncUnreadSnapshot: personal counters, then tenant counters, then broadcast totals. */
  function Snapshot(db: DB, c: Cache, infos: seq<Record>): Cache {
    var c1 := ReconcileBuckets(db, c, infos, FromUser, BucketTenants(infos, FromUser));
    var c2 := ReconcileBuckets(db, c1, infos, FromTenant, BucketTenants(infos, FromTenant));
    ReconcileTotals(db, c2, BroadcastTenants(infos))
  }

  // ---- What the cache updates do, key by key ----

  ghost predicate AllCanonical(users: seq<User>) {
    forall u | u in users :: Canonical(u)
  }

  lemma {:induction false} GroupByFixed(trip: User -> Option<string>, count: User -> int, users: seq<User>)
    requires forall u | u in users :: trip(u) == Some(u)
    ensures GroupBy(trip, count, users).Some?
    ensures forall u :: CountFor(GroupBy(trip, count, users).value, u) == if u in users then count(u) else 0
  {
    if users != [] {
      var init, last := users[..|users| - 1], users[|users| - 1];
      assert users == init + [last];
      GroupByFixed(trip, count, init);
    }
  }

  lemma GroupedCountsCanonical(db: DB, tenant: Tenant, users: seq<User>, sender: SenderType, u: User)
    requires AllCanonical(users)
    ensures GroupedCounts(db, tenant, users, sender).Some?
    ensures CountFor(GroupedCounts(db, tenant, users, sender).value, u)
            == if u in users then CountUnread(db, tenant, u, sender) else 0
  {
    forall v | v in users
      ensures Trip(v) == Some(v)
    {
      CanonicalTrips(v);
    }
    GroupByFixed(Trip, JoinCount(db, tenant, sender), users);
  }

  lemma {:induction false} WriteCountsKeys(c: Cache, tenant: Tenant, users: seq<User>, sender: SenderType, counts: map<string, int>)
    ensures WriteCounts(c, tenant, users, sender, counts).sets == c.sets
    ensures forall k :: Num(WriteCounts(c, tenant, users, sender, counts), k)
                        == if k in CounterKeys(tenant, users, sender) then CountFor(counts, k.user) else Num(c, k)
  {
    if users != [] {
      var init, last := users[..|users| - 1], users[|users| - 1];
      WriteCountsKeys(c, tenant, init, sender, counts);
      assert CounterKeys(tenant, users, sender) == CounterKeys(tenant, init, sender) + [CounterKey(tenant, last, sender)];
    }
  }

  lemma {:induction false} IncrExistingKeys(c: Cache, keys: seq<Key>)
    ensures IncrExisting(c, keys).sets == c.sets && IncrExisting(c, keys).nums.Keys == c.nums.Keys
    ensures forall k :: k !in keys ==> Num(IncrExisting(c, keys), k) == Num(c, k)
    ensures forall k :: Num(c, k) <= Num(IncrExisting(c, keys), k)
  {
    if keys != [] {
      IncrExistingKeys(c, keys[..|keys| - 1]);
      assert keys == keys[..|keys| - 1] + [keys[|keys| - 1]];
    }
  }

  lemma CounterKeyIn(tenant: Tenant, users: seq<User>, sender: SenderType, k: Key)
    ensures k in CounterKeys(tenant, users, sender)
            <==> !k.TotalKey? && !k.OpKey? && k == CounterKey(tenant, k.user, sender) && k.user in users
  {
    var keys := CounterKeys(tenant, users, sender);
    if !k.TotalKey? && !k.OpKey? && k == CounterKey(tenant, k.user, sender) && k.user in users {
      var i :| 0 <= i < |users| && users[i] == k.user;
      assert keys[i] == k;
    }
  }

  /** On canonical IDs a reconcile writes each listed user's own join count and nothing else. */
  lemma ReconcileCanonical(db: DB, c: Cache, tenant: Tenant, users: seq<User>, sender: SenderType)
    requires AllCanonical(users)
    ensures Reconcile(db, c, tenant, users, sender).sets == c.sets
    ensures forall k :: Num(Reconcile(db, c, tenant, users, sender), k)
                        == if k in CounterKeys(tenant, users, sender) then CountUnread(db, tenant, k.user, sender) else Num(c, k)
  {
    GroupedCountsCanonical(db, tenant, users, sender, "");
    var counts := GroupedCounts(db, tenant, users, sender).value;
    WriteCountsKeys(c, tenant, users, sender, counts);
    forall k | k in CounterKeys(tenant, users, sender)
      ensures CountFor(counts, k.user) == CountUnread(db, tenant, k.user, sender)
    {
      CounterKeyIn(tenant, users, sender, k);
      GroupedCountsCanonical(db, tenant, users, sender, k.user);
    }
  }

  // ---- Arbitrary user IDs ----

  /** The last listed user with unread rows that prints to `w`: the grouped result is its count. */
  predicate Prevails(trip: User -> Option<string>, count: User -> int, users: seq<User>, i: int, w: User) {
    && 0 <= i < |users|
    && trip(users[i]) == Some(w) && count(users[i]) != 0
    && forall j | i < j < |users| :: trip(users[j]) != Some(w) || count(users[j]) == 0
  }

  lemma GroupByNext(trip: User -> Option<string>, count: User -> int, users: seq<User>, w: User)
    requires users != [] && GroupBy(trip, count, users).Some?
    ensures var last := |users| - 1;
            && GroupBy(trip, count, users[..last]).Some?
            && CountFor(GroupBy(trip, count, users).value, w)
               == if trip(users[last]) == Some(w) && count(users[last]) != 0 then count(users[last])
                  else CountFor(GroupBy(trip, count, users[..last]).value, w)
  {
  }

  lemma {:induction false} PrevailingCount(trip: User -> Option<string>, count: User -> int, users: seq<User>, i: nat, w: User)
    requires GroupBy(trip, count, users).Some? && Prevails(trip, count, users, i, w)
    ensures CountFor(GroupBy(trip, count, users).value, w) == count(users[i])
    decreases |users|
  {
    GroupByNext(trip, count, users, w);
    if i < |users| - 1 {
      PrevailingCount(trip, count, users[..|users| - 1], i, w);
    }
  }

  lemma {:induction false} SomeonePrevails(trip: User -> Option<string>, count: User -> int, users: seq<User>, w: User) returns (i: nat)
    requires GroupBy(trip, count, users).Some? && CountFor(GroupBy(trip, count, users).value, w) != 0
    ensures Prevails(trip, count, users, i, w)
    decreases |users|
  {
    var last := |users| - 1;
    GroupByNext(trip, count, users, w);
    if trip(users[last]) == Some(w) && count(users[last]) != 0 {
      i := last;
    } else {
      i := SomeonePrevails(trip, count, users[..last], w);
    }
  }

  lemma {:induction false} GroupByFailsIff(trip: User -> Option<string>, count: User -> int, users: seq<User>)
    ensures GroupBy(trip, count, users).None? <==> exists v :: v in users && trip(v).None? && count(v) != 0
  {
    if users != [] {
      var init, last := users[..|users| - 1], users[|users| - 1];
      assert users == init + [last];
      GroupByFailsIff(trip, count, init);
    }
  }

  /** A reconcile is abandoned as a whole exactly when some listed user with unread rows is not an int64. */
  lemma ReconcileAbandonedIff(db: DB, c: Cache, tenant: Tenant, users: seq<User>, sender: SenderType)
    ensures GroupedCounts(db, tenant, users, sender).None?
            <==> exists v :: v in users && Trip(v).None? && CountUnread(db, tenant, v, sender) != 0
    ensures GroupedCounts(db, tenant, users, sender).None? ==> Reconcile(db, c, tenant, users, sender) == c
  {
    var count := JoinCount(db, tenant, sender);
    GroupByFailsIff(Trip, count, users);
    assert forall v :: count(v) == CountUnread(db, tenant, v, sender);
  }

  /**
   A reconcile that goes through writes a listed user's own join count if and only if the ID is
   canonical and the last listed user with unread rows that denotes it has as many of them, or the
   ID is not canonical and nothing is unread.
   */
  lemma ReconcileWritesTruthIff(db: DB, c: Cache, tenant: Tenant, users: seq<User>, sender: SenderType, u: User)
    requires u in users && GroupedCounts(db, tenant, users, sender).Some?
    ensures Num(Reconcile(db, c, tenant, users, sender), CounterKey(tenant, u, sender)) == CountUnread(db, tenant, u, sender)
            <==> if Canonical(u)
                 then forall i | Prevails(Trip, JoinCount(db, tenant, sender), users, i, u) ::
                        CountUnread(db, tenant, users[i], sender) == CountUnread(db, tenant, u, sender)
                 else CountUnread(db, tenant, u, sender) == 0
  {
    var count, counts := JoinCount(db, tenant, sender), GroupedCounts(db, tenant, users, sender).value;
    forall i | Prevails(Trip, count, users, i, u)
      ensures CountFor(counts, u) == count(users[i])
    {
      PrevailingCount(Trip, count, users, i, u);
    }
    if CountFor(counts, u) != 0 {
      var i := SomeonePrevails(Trip, count, users, u);
    }
    WriteCountsKeys(c, tenant, users, sender, counts);
    CounterKeyIn(tenant, users, sender, CounterKey(tenant, u, sender));
    if Canonical(u) {
      CanonicalTrips(u);
      OneUserPrevails(Trip, count, users, u);
    } else {
      forall v
        ensures Trip(v) != Some(u)
      {
        if Trip(v) == Some(u) {
          TripIsCanonical(v);
        }
      }
    }
  }

  /** A listed user with unread rows that prints to itself prevails, or someone after it does. */
  lemma {:induction false} OneUserPrevails(trip: User -> Option<string>, count: User -> int, users: seq<User>, u: User)
    requires u in users && trip(u) == Some(u)
    ensures count(u) != 0 ==> exists i :: Prevails(trip, count, users, i, u)
  {
    var last := |users| - 1;
    if trip(users[last]) == Some(u) && count(users[last]) != 0 {
      assert Prevails(trip, count, users, last, u);
    } else if count(u) != 0 {
      assert u in users[..last];
      OneUserPrevails(trip, count, users[..last], u);
      var i :| Prevails(trip, count, users[..last], i, u);
      assert Prevails(trip, count, users, i, u);
    }
  }

  /** Whatever the user IDs, a reconcile leaves the sets alone. */
  lemma ReconcileSets(db: DB, c: Cache, tenant: Tenant, users: seq<User>, sender: SenderType)
    ensures Reconcile(db, c, tenant, users, sender).sets == c.sets
  {
    match GroupedCounts(db, tenant, users, sender)
    case None =>
    case Some(counts) => WriteCountsKeys(c, tenant, users, sender, counts);
  }

  // ---- What the cleanup snapshot does, key by key ----

  ghost predicate Targets(info: Record, tenant: Tenant, sender: SenderType, user: User) {
    info.target != Broadcast && info.tenant == tenant && info.sender == sender && user in info.targetIds
  }

  lemma {:induction false} DistinctMembers(users: seq<User>, seen: seq<User>)
    ensures forall u :: u in Distinct(users, seen) <==> u in seen || (u != "" && u in users)
    decreases |users|
  {
    if users != [] {
      assert users == [users[0]] + users[1..];
      DistinctMembers(users[1..], if users[0] == "" || users[0] in seen then seen else seen + [users[0]]);
    }
  }

  lemma {:induction false} BucketMembers(infos: seq<Record>, tenant: Tenant, sender: SenderType, user: User)
    ensures user in Bucket(infos, tenant, sender)
            <==> user != "" && exists i :: 0 <= i < |infos| && Targets(infos[i], tenant, sender, user)
  {
    if infos != [] {
      var last := |infos| - 1;
      var init := infos[..last];
      BucketMembers(init, tenant, sender, user);
      DistinctMembers(infos[last].targetIds, Bucket(init, tenant, sender));
      assert forall i | 0 <= i < last :: init[i] == infos[i];
      assert Targets(infos[last], tenant, sender, user) && user != "" ==> user in Bucket(infos, tenant, sender);
    }
  }

  lemma {:induction false} BucketTenantsMembers(infos: seq<Record>, sender: SenderType)
    ensures forall info :: info in infos && info.target != Broadcast && info.sender == sender
                           ==> info.tenant in BucketTenants(infos, sender)
  {
    if infos != [] {
      BucketTenantsMembers(infos[..|infos| - 1], sender);
      assert infos == infos[..|infos| - 1] + [infos[|infos| - 1]];
    }
  }

  lemma {:induction false} BroadcastTenantsMembers(infos: seq<Record>, tenant: Tenant)
    ensures tenant in BroadcastTenants(infos)
            <==> exists i :: 0 <= i < |infos| && infos[i].tenant == tenant && infos[i].target == Broadcast
  {
    if infos != [] {
      var last := |infos| - 1;
      BroadcastTenantsMembers(infos[..last], tenant);
      assert forall i | 0 <= i < last :: infos[..last][i] == infos[i];
      assert infos[last].target == Broadcast && infos[last].tenant == tenant ==> tenant in BroadcastTenants(infos);
    }
  }

  ghost predicate CanonicalInfos(infos: seq<Record>) {
    forall info | info in infos :: AllCanonical(info.targetIds)
  }

  lemma BucketCanonical(infos: seq<Record>, tenant: Tenant, sender: SenderType)
    requires CanonicalInfos(infos)
    ensures AllCanonical(Bucket(infos, tenant, sender))
  {
    forall u | u in Bucket(infos, tenant, sender)
      ensures Canonical(u)
    {
      BucketMembers(infos, tenant, sender, u);
    }
  }

  lemma {:induction false} ReconcileBucketsKeys(db: DB, c: Cache, infos: seq<Record>, sender: SenderType, tenants: seq<Tenant>, k: Key)
    requires CanonicalInfos(infos)
    requires k.PersonalKey? || k.TenantKey?
    ensures Num(ReconcileBuckets(db, c, infos, sender, tenants), k)
            == if k == CounterKey(k.tenant, k.user, sender) && k.tenant in tenants && k.user in Bucket(infos, k.tenant, sender)
               then CountUnread(db, k.tenant, k.user, sender) else Num(c, k)
  {
    if tenants != [] {
      var init, t := tenants[..|tenants| - 1], tenants[|tenants| - 1];
      assert tenants == init + [t];
      ReconcileBucketsKeys(db, c, infos, sender, init, k);
      BucketCanonical(infos, t, sender);
      ReconcileCanonical(db, ReconcileBuckets(db, c, infos, sender, init), t, Bucket(infos, t, sender), sender);
      CounterKeyIn(t, Bucket(infos, t, sender), sender, k);
    }
  }

  lemma {:induction false} ReconcileBucketsSets(db: DB, c: Cache, infos: seq<Record>, sender: SenderType, tenants: seq<Tenant>)
    ensures ReconcileBuckets(db, c, infos, sender, tenants).sets == c.sets
  {
    if tenants != [] {
      var init, t := tenants[..|tenants| - 1], tenants[|tenants| - 1];
      ReconcileBucketsSets(db, c, infos, sender, init);
      ReconcileSets(db, ReconcileBuckets(db, c, infos, sender, init), t, Bucket(infos, t, sender), sender);
    }
  }

  lemma {:induction false} ReconcileTotalsKeys(db: DB, c: Cache, tenants: seq<Tenant>, k: Key)
    ensures ReconcileTotals(db, c, tenants).nums == c.nums
    ensures Members(ReconcileTotals(db, c, tenants), k)
            == if k.TotalKey? && k.tenant in tenants then BroadcastIds(db, k.tenant) else Members(c, k)
  {
    if tenants != [] {
      ReconcileTotalsKeys(db, c, tenants[..|tenants| - 1], k);
      assert tenants == tenants[..|tenants| - 1] + [tenants[|tenants| - 1]];
    }
  }

  /** After a snapshot the total set of each affected tenant is the table's; no other set moves. */
  lemma SnapshotSets(db: DB, c: Cache, infos: seq<Record>, k: Key)
    ensures Members(Snapshot(db, c, infos), k)
            == if k.TotalKey? && k.tenant in BroadcastTenants(infos) then BroadcastIds(db, k.tenant) else Members(c, k)
  {
    var c1 := ReconcileBuckets(db, c, infos, FromUser, BucketTenants(infos, FromUser));
    var c2 := ReconcileBuckets(db, c1, infos, FromTenant, BucketTenants(infos, FromTenant));
    ReconcileBucketsSets(db, c, infos, FromUser, BucketTenants(infos, FromUser));
    ReconcileBucketsSets(db, c1, infos, FromTenant, BucketTenants(infos, FromTenant));
    ReconcileTotalsKeys(db, c2, BroadcastTenants(infos), k);
  }

  /** After a snapshot the counter of each affected canonical user is the join count; no other counter moves. */
  lemma SnapshotCounters(db: DB, c: Cache, infos: seq<Record>, tenant: Tenant, user: User, sender: SenderType)
    requires CanonicalInfos(infos)
    ensures Num(Snapshot(db, c, infos), CounterKey(tenant, user, sender))
            == if user in Bucket(infos, tenant, sender) then CountUnread(db, tenant, user, sender)
               else Num(c, CounterKey(tenant, user, sender))
  {
    var k := CounterKey(tenant, user, sender);
    var users, tenants := BucketTenants(infos, FromUser), BucketTenants(infos, FromTenant);
    var c1 := ReconcileBuckets(db, c, infos, FromUser, users);
    var c2 := ReconcileBuckets(db, c1, infos, FromTenant, tenants);
    ReconcileBucketsKeys(db, c, infos, FromUser, users, k);
    ReconcileBucketsKeys(db, c1, infos, FromTenant, tenants, k);
    ReconcileTotalsKeys(db, c2, BroadcastTenants(infos), k);
    BucketMembers(infos, tenant, sender, user);
    BucketTenantsMembers(infos, sender);
  }
}
