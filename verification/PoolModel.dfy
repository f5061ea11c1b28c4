/**
 The nested tenant, user, connection maps of the pool as a value, and the flat map from
 (tenant, user, connection ID) that they stand for.
 */
module PoolModel {
  import opened Types

  type Bucket<C> = map<string, C>
  type Users<C> = map<User, Bucket<C>>
  type Nested<C> = map<Tenant, Users<C>>

  datatype Slot = Slot(tenant: Tenant, user: User, connId: string)

  predicate Has<C>(n: Nested<C>, k: Slot) {
    k.tenant in n && k.user in n[k.tenant] && k.connId in n[k.tenant][k.user]
  }

  function Slots<C>(n: Nested<C>): (r: set<Slot>)
    ensures forall k :: k in r <==> Has(n, k)
  {
    set t, u, id | t in n && u in n[t] && id in n[t][u] :: Slot(t, u, id)
  }

  function Flat<C>(n: Nested<C>): (r: map<Slot, C>)
    ensures r.Keys == Slots(n)
  {
    map k | k in Slots(n) :: n[k.tenant][k.user][k.connId]
  }

  /** No group without users and no user without connections. */
  ghost predicate NoEmpties<C>(n: Nested<C>) {
    forall t | t in n :: n[t] != map[] && forall u | u in n[t] :: n[t][u] != map[]
  }

  // ---- Group operations ----

  function BucketOf<C>(users: Users<C>, u: User): Bucket<C> {
    if u in users then users[u] else map[]
  }

  function Put<C>(users: Users<C>, u: User, id: string, c: C): Users<C> {
    users[u := BucketOf(users, u)[id := c]]
  }

  /** Removes an existing entry and the user's bucket with it when that was the last one. */
  function Take<C>(users: Users<C>, u: User, id: string): Users<C>
    requires u in users
  {
    if users[u] - {id} == map[] then users - {u} else users[u := users[u] - {id}]
  }

  /** Whether an Unregister removes anything: the entry exists and is the exact connection, if one is given. */
  predicate Hits<C(==)>(users: Users<C>, u: User, id: string, exact: Option<C>) {
    u in users && id in users[u] && (exact.None? || exact.value == users[u][id])
  }

  // ---- Manager operations ----

  function GroupOf<C>(n: Nested<C>, t: Tenant): Users<C> {
    if t in n then n[t] else map[]
  }

  function Register<C>(n: Nested<C>, k: Slot, c: C): Nested<C> {
    n[k.tenant := Put(GroupOf(n, k.tenant), k.user, k.connId, c)]
  }

  function Unregister<C(==)>(n: Nested<C>, k: Slot, exact: Option<C>): Nested<C> {
    if k.tenant !in n then n
    else
      var users := n[k.tenant];
      var users' := if Hits(users, k.user, k.connId, exact) then Take(users, k.user, k.connId) else users;
      if users' == map[] then n - {k.tenant} else n[k.tenant := users']
  }

  // ---- Refinement of the flat map ----

  function At<C>(n: Nested<C>, k: Slot): C
    requires Has(n, k)
  {
    n[k.tenant][k.user][k.connId]
  }

  /** Two nested maps with the same entries have the same flat map. */
  lemma FlatEquals<C>(n: Nested<C>, flat: map<Slot, C>)
    requires forall j :: Has(n, j) <==> j in flat
    requires forall j | Has(n, j) :: At(n, j) == flat[j]
    ensures Flat(n) == flat
  {
    assert Flat(n).Keys == flat.Keys;
  }

  lemma RegisterEntry<C>(n: Nested<C>, k: Slot, c: C, j: Slot)
    ensures Has(Register(n, k, c), j) <==> j == k || Has(n, j)
    ensures Has(Register(n, k, c), j) ==> At(Register(n, k, c), j) == if j == k then c else At(n, j)
  {
  }

  lemma RegisterNoEmpties<C>(n: Nested<C>, k: Slot, c: C)
    requires NoEmpties(n)
    ensures NoEmpties(Register(n, k, c))
  {
    var users := Register(n, k, c)[k.tenant];
    assert k.user in users && k.connId in users[k.user];
    assert forall u | u in users && u != k.user :: u in n[k.tenant] && users[u] == n[k.tenant][u];
  }

  /** Register writes one flat entry and leaves no empty group or bucket behind. */
  lemma RegisterRefines<C>(n: Nested<C>, k: Slot, c: C)
    requires NoEmpties(n)
    ensures Flat(Register(n, k, c)) == Flat(n)[k := c] && NoEmpties(Register(n, k, c))
  {
    RegisterNoEmpties(n, k, c);
    forall j
      ensures Has(Register(n, k, c), j) <==> j in Flat(n)[k := c]
      ensures Has(Register(n, k, c), j) ==> At(Register(n, k, c), j) == Flat(n)[k := c][j]
    {
      RegisterEntry(n, k, c, j);
    }
    FlatEquals(Register(n, k, c), Flat(n)[k := c]);
  }

  lemma TakeEntry<C>(users: Users<C>, u: User, id: string, v: User, j: string)
    requires u in users
    ensures var users' := Take(users, u, id);
            && ((v in users' && j in users'[v]) <==> (v in users && j in users[v] && !(v == u && j == id)))
            && (v in users' && j in users'[v] ==> users'[v][j] == users[v][j])
  {
    if users[u] - {id} == map[] {
      assert forall x | x in users[u] :: x == id || x in users[u] - {id};
    }
  }

  lemma TakeNoEmpties<C>(users: Users<C>, u: User, id: string)
    requires u in users && forall v | v in users :: users[v] != map[]
    ensures forall v | v in Take(users, u, id) :: Take(users, u, id)[v] != map[]
  {
  }

  lemma UnregisterEntry<C>(n: Nested<C>, k: Slot, exact: Option<C>, j: Slot)
    ensures Has(Unregister(n, k, exact), j)
            <==> Has(n, j) && !(j == k && (exact.None? || exact.value == At(n, k)))
    ensures Has(Unregister(n, k, exact), j) ==> At(Unregister(n, k, exact), j) == At(n, j)
  {
    if k.tenant in n && Hits(n[k.tenant], k.user, k.connId, exact) {
      TakeEntry(n[k.tenant], k.user, k.connId, j.user, j.connId);
    }
  }

  lemma UnregisterNoEmpties<C>(n: Nested<C>, k: Slot, exact: Option<C>)
    requires NoEmpties(n)
    ensures NoEmpties(Unregister(n, k, exact))
  {
    if k.tenant in n && Hits(n[k.tenant], k.user, k.connId, exact) {
      TakeNoEmpties(n[k.tenant], k.user, k.connId);
    }
  }

  function FlatLeave<C(==)>(flat: map<Slot, C>, k: Slot, exact: Option<C>): map<Slot, C> {
    if k in flat && (exact.None? || exact.value == flat[k]) then flat - {k} else flat
  }

  /** Unregister removes the flat entry exactly when it is the given connection, so a stale leave evicts nobody. */
  lemma UnregisterRefines<C>(n: Nested<C>, k: Slot, exact: Option<C>)
    requires NoEmpties(n)
    ensures NoEmpties(Unregister(n, k, exact))
    ensures Flat(Unregister(n, k, exact)) == FlatLeave(Flat(n), k, exact)
  {
    UnregisterNoEmpties(n, k, exact);
    var n', flat := Unregister(n, k, exact), Flat(n);
    forall j
      ensures Has(n', j) <==> Has(n, j) && !(j == k && (exact.None? || exact.value == flat[k]))
      ensures Has(n', j) ==> At(n', j) == flat[j]
    {
      UnregisterEntry(n, k, exact, j);
    }
    FlatEquals(n', FlatLeave(flat, k, exact));
  }

  /** No connection in two slots. */
  ghost predicate Injective<C>(flat: map<Slot, C>) {
    forall j, k | j in flat && k in flat && flat[j] == flat[k] :: j == k
  }

  lemma InjectivePut<C>(flat: map<Slot, C>, k: Slot, c: C)
    requires Injective(flat) && c !in flat.Values
    ensures Injective(flat[k := c])
  {
    assert forall j | j in flat :: flat[j] in flat.Values;
  }

  lemma LeaveKeepsInjective<C>(flat: map<Slot, C>, k: Slot, exact: Option<C>)
    requires Injective(flat)
    ensures Injective(FlatLeave(flat, k, exact))
    ensures forall j | j in flat :: j in FlatLeave(flat, k, exact) <==> !(j == k && (exact.None? || exact.value == flat[k]))
  {
  }

  // ---- Runs ----

  datatype Call<C> = Join(k: Slot, c: C) | Leave(k: Slot, exact: Option<C>)

  function NestedAfter<C(==)>(calls: seq<Call<C>>): Nested<C> {
    if calls == [] then map[]
    else
      var n := NestedAfter(calls[..|calls| - 1]);
      match calls[|calls| - 1]
      case Join(k, c) => Register(n, k, c)
      case Leave(k, exact) => Unregister(n, k, exact)
  }

  /** The same run on a flat map. */
  function FlatAfter<C(==)>(calls: seq<Call<C>>): map<Slot, C> {
    if calls == [] then map[]
    else
      var flat := FlatAfter(calls[..|calls| - 1]);
      match calls[|calls| - 1]
      case Join(k, c) => flat[k := c]
      case Leave(k, exact) => FlatLeave(flat, k, exact)
  }

  /** Over every run of joins and leaves the nested pool is the flat map, with nothing empty left over. */
  lemma {:induction false} NestedRefinesFlat<C>(calls: seq<Call<C>>)
    ensures NoEmpties(NestedAfter(calls)) && Flat(NestedAfter(calls)) == FlatAfter(calls)
    decreases |calls|
  {
    if calls == [] {
      assert Slots(NestedAfter(calls)) == {};
    } else {
      var n := NestedAfter(calls[..|calls| - 1]);
      NestedRefinesFlat(calls[..|calls| - 1]);
      match calls[|calls| - 1]
      case Join(k, c) => RegisterRefines(n, k, c);
      case Leave(k, exact) => UnregisterRefines(n, k, exact);
    }
  }

  // ---- Counting ----

  lemma {:induction false} BucketSlotsSize(t: Tenant, u: User, ids: set<string>)
    ensures |set id | id in ids :: Slot(t, u, id)| == |ids|
    decreases |ids|
  {
    var slots := set id | id in ids :: Slot(t, u, id);
    if ids == {} {
      assert slots == {};
    } else {
      var x :| x in ids;
      BucketSlotsSize(t, u, ids - {x});
      var rest := set id | id in ids - {x} :: Slot(t, u, id);
      assert slots == rest + {Slot(t, u, x)};
    }
  }

  /** Slots of the users in `us` of tenant t. */
  function UserSlots<C>(n: Nested<C>, t: Tenant, us: set<User>): set<Slot> {
    set k | k in Slots(n) && k.tenant == t && k.user in us
  }

  /** Slots of the tenants in `ts`. */
  function TenantSlots<C>(n: Nested<C>, ts: set<Tenant>): set<Slot> {
    set k | k in Slots(n) && k.tenant in ts
  }

  /** The slots of one user, as keys of the bucket. */
  lemma UserSlotsSplit<C>(n: Nested<C>, t: Tenant, us: set<User>, u: User, more: set<Slot>)
    requires t in n && u in n[t] && u !in us && more == set id | id in n[t][u].Keys :: Slot(t, u, id)
    ensures UserSlots(n, t, us + {u}) == UserSlots(n, t, us) + more && UserSlots(n, t, us) !! more
  {
    forall k
      ensures k in UserSlots(n, t, us + {u}) <==> k in UserSlots(n, t, us) || k in more
    {
      if k in UserSlots(n, t, us + {u}) && k.user == u {
        assert k == Slot(t, u, k.connId);
      }
    }
  }

  lemma UserSlotsGrow<C>(n: Nested<C>, t: Tenant, us: set<User>, u: User)
    requires t in n && u in n[t] && u !in us
    ensures |UserSlots(n, t, us + {u})| == |UserSlots(n, t, us)| + |n[t][u]|
  {
    var more := set id | id in n[t][u].Keys :: Slot(t, u, id);
    BucketSlotsSize(t, u, n[t][u].Keys);
    UserSlotsSplit(n, t, us, u, more);
  }

  lemma TenantSlotsGrow<C>(n: Nested<C>, ts: set<Tenant>, t: Tenant)
    requires t in n && t !in ts
    ensures |TenantSlots(n, ts + {t})| == |TenantSlots(n, ts)| + |UserSlots(n, t, n[t].Keys)|
  {
    assert TenantSlots(n, ts + {t}) == TenantSlots(n, ts) + UserSlots(n, t, n[t].Keys);
    assert TenantSlots(n, ts) !! UserSlots(n, t, n[t].Keys);
  }

  /** Users with a connection, over all tenants. */
  function OnlineUsers<C>(n: Nested<C>): set<User> {
    set k | k in Slots(n) :: k.user
  }

  function OnlineTenants<C>(n: Nested<C>): set<Tenant> {
    set k | k in Slots(n) :: k.tenant
  }

  function OnlineIn<C>(n: Nested<C>, t: Tenant): set<User> {
    set k | k in Slots(n) && k.tenant == t :: k.user
  }

  /** With nothing empty, groups are exactly the online tenants and their keys the online users. */
  lemma OnlineIsKeyed<C>(n: Nested<C>)
    requires NoEmpties(n)
    ensures OnlineTenants(n) == n.Keys
    ensures forall t | t in n :: OnlineIn(n, t) == n[t].Keys
    ensures forall u :: u in OnlineUsers(n) <==> exists t :: t in n && u in n[t]
  {
    forall t, u | t in n && u in n[t]
      ensures exists k :: k in Slots(n) && k.tenant == t && k.user == u
    {
      var id :| id in n[t][u];
      assert Slot(t, u, id) in Slots(n);
    }
    forall t | t in n
      ensures t in OnlineTenants(n)
    {
      var u :| u in n[t];
    }
    forall t | t in n
      ensures OnlineIn(n, t) == n[t].Keys
    {
    }
  }
}
