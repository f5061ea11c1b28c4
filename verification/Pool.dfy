/** The connection pool and the dispatcher's fan-out as objects, one operation at a time. */
module Pools {
  import opened Types
  import M = PoolModel
  import D = Delivery

  /** Append unless the buffer is full. */
  function Offer(channel: seq<D.Message>, m: D.Message): seq<D.Message> {
    if |channel| < D.CHANNEL_BUFFER then channel + [m] else channel
  }

  class Connection {
    var channel: seq<D.Message>
    var closed: bool

    constructor ()
      ensures channel == [] && !closed
    {
      channel, closed := [], false;
    }

    /**
     `data` is None when it is not raw JSON of a message. A send to a closed channel would panic,
     so callers must never write after Close.
     */
    method Write(data: Option<D.Message>) returns (ok: bool)
      requires !closed
      modifies this`channel
      ensures channel == if data.Some? then Offer(old(channel), data.value) else old(channel)
      ensures ok <==> data.Some? && |old(channel)| < D.CHANNEL_BUFFER
    {
      if data.None? {
        return false;
      }
      if |channel| < D.CHANNEL_BUFFER {
        channel := channel + [data.value];
        return true;
      }
      return false;
    }

    method Close()
      modifies this`closed
      ensures closed
    {
      closed := true;
    }
  }

  class Group {
    var users: M.Users<Connection>

    constructor ()
      ensures users == map[]
    {
      users := map[];
    }

    ghost function Occupant(u: User, id: string): set<Connection>
      reads this
    {
      if u in users && id in users[u] then {users[u][id]} else {}
    }

    /** A connection already in the slot is closed and replaced. */
    method Register(u: User, id: string, conn: Connection)
      requires conn !in Occupant(u, id)
      modifies this`users, Occupant(u, id)`closed
      ensures users == M.Put(old(users), u, id, conn)
      ensures forall c | c in old(Occupant(u, id)) :: c.closed
    {
      if u !in users {
        users := users[u := map[]];
      }
      if id in users[u] {
        users[u][id].Close();
      }
      users := users[u := users[u][id := conn]];
    }

    /** Removes and closes the entry if it is the exact connection; tells whether the group is empty. */
    method Unregister(u: User, id: string, exact: Option<Connection>) returns (empty: bool)
      modifies this`users, Occupant(u, id)`closed
      ensures users == if M.Hits(old(users), u, id, exact) then M.Take(old(users), u, id) else old(users)
      ensures forall c | c in old(Occupant(u, id)) :: c.closed <==> M.Hits(old(users), u, id, exact) || old(c.closed)
      ensures empty <==> users == map[]
    {
      if u !in users {
        return |users| == 0;
      }
      var bucket := users[u];
      if id !in bucket {
        return |users| == 0;
      }
      var conn := bucket[id];
      if exact.Some? && conn != exact.value {
        return |users| == 0;
      }
      conn.Close();
      bucket := bucket - {id};
      if |bucket| == 0 {
        users := users - {u};
      } else {
        users := users[u := bucket];
      }
      return |users| == 0;
    }
  }

  ghost predicate AllOpen(flat: map<M.Slot, Connection>)
    reads flat.Values`closed
  {
    forall k | k in flat :: !flat[k].closed
  }

  class Manager {
    var groups: map<Tenant, Group>

    function Nested(): M.Nested<Connection>
      reads this, groups.Values
    {
      map t | t in groups :: groups[t].users
    }

    function Flat(): map<M.Slot, Connection>
      reads this, groups.Values
    {
      M.Flat(Nested())
    }

    ghost function Pooled(): set<Connection>
      reads this, groups.Values
    {
      Flat().Values
    }

    /** Separate groups, nothing empty, each connection in one slot and open. */
    ghost predicate Valid()
      reads this, groups.Values, Pooled()`closed
    {
      && Separate()
      && M.NoEmpties(Nested())
      && M.Injective(Flat())
      && AllOpen(Flat())
    }

    constructor ()
      ensures Valid() && groups == map[] && Flat() == map[]
    {
      groups := map[];
      new;
      assert M.Slots(Nested()) == {};
    }

    method GetOrCreateGroup(name: Tenant) returns (g: Group)
      requires Separate()
      modifies this`groups
      ensures name in groups && groups[name] == g
      ensures name in old(groups) ==> groups == old(groups)
      ensures name !in old(groups) ==> groups == old(groups)[name := g] && fresh(g) && g.users == map[]
      ensures Separate()
    {
      if name in groups {
        return groups[name];
      }
      g := new Group();
      groups := groups[name := g];
    }

    /** What the mapped groups hold after one group's users were replaced. */
    lemma NestedWith(nested: M.Nested<Connection>, t: Tenant)
      requires t in groups && forall s | s in groups && s != t :: s in nested && groups[s].users == nested[s]
      requires groups.Keys == nested.Keys + {t}
      ensures Nested() == nested[t := groups[t].users]
    {
    }

    ghost predicate Separate()
      reads this
    {
      forall s, t | s in groups && t in groups && groups[s] == groups[t] :: s == t
    }

    /** The connection in a slot, as a set. */
    ghost function Occupant(k: M.Slot): set<Connection>
      reads this, groups.Values
    {
      if M.Has(Nested(), k) then {M.At(Nested(), k)} else {}
    }

    /** The body of Register, on the nested maps. */
    method Install(k: M.Slot, conn: Connection)
      requires Separate() && conn !in Occupant(k)
      modifies this, groups.Values, Occupant(k)`closed
      ensures Separate() && Nested() == M.Register(old(Nested()), k, conn)
      ensures forall c | c in old(Occupant(k)) :: c.closed
    {
      ghost var nested := Nested();
      var g := GetOrCreateGroup(k.tenant);
      g.Register(k.user, k.connId, conn);
      NestedWith(nested, k.tenant);
    }

    /** The group section of Unregister. */
    method RemoveFrom(k: M.Slot, exact: Option<Connection>) returns (empty: bool)
      requires Separate() && k.tenant in groups
      modifies groups.Values, Occupant(k)`closed
      ensures var users := old(Nested())[k.tenant];
              var users' := if M.Hits(users, k.user, k.connId, exact) then M.Take(users, k.user, k.connId) else users;
              Nested() == old(Nested())[k.tenant := users'] && (empty <==> users' == map[])
      ensures forall c | c in old(Occupant(k)) ::
                c.closed <==> old(c.closed) || M.Hits(old(Nested())[k.tenant], k.user, k.connId, exact)
    {
      ghost var nested := Nested();
      var g := groups[k.tenant];
      empty := g.Unregister(k.user, k.connId, exact);
      NestedWith(nested, k.tenant);
    }

    /** The reclaim section of Unregister. */
    method Reclaim(name: Tenant)
      requires Separate()
      modifies this`groups
      ensures Separate()
      ensures Nested() == if name in old(Nested()) && old(Nested())[name] == map[] then old(Nested()) - {name} else old(Nested())
    {
      ghost var nested := Nested();
      if name in groups {
        var current := groups[name];
        if |current.users| == 0 {
          groups := groups - {name};
          assert Nested() == nested - {name};
        }
      }
    }

    /** The body of Unregister, on the nested maps. */
    method Uninstall(k: M.Slot, exact: Option<Connection>)
      requires Separate()
      modifies this, groups.Values, Occupant(k)`closed
      ensures Separate() && Nested() == M.Unregister(old(Nested()), k, exact)
      ensures forall c | c in old(Occupant(k)) ::
                c.closed <==> old(c.closed) || M.Hits(old(Nested())[k.tenant], k.user, k.connId, exact)
    {
      ghost var nested := Nested();
      if k.tenant !in groups {
        return;
      }
      var empty := RemoveFrom(k, exact);
      if empty {
        Reclaim(k.tenant);
        assert nested[k.tenant := map[]] - {k.tenant} == nested - {k.tenant};
      }
    }

    lemma OccupantIsFlat(k: M.Slot)
      ensures Occupant(k) == if k in Flat() then {Flat()[k]} else {}
    {
    }

    /** Register on the flat map, before the connections themselves are considered. */
    method InstallFlat(k: M.Slot, conn: Connection)
      requires Separate() && M.NoEmpties(Nested()) && conn !in Occupant(k)
      modifies this, groups.Values, Occupant(k)`closed
      ensures Separate() && M.NoEmpties(Nested()) && Flat() == old(Flat())[k := conn]
      ensures forall c | c in old(Occupant(k)) :: c.closed
    {
      M.RegisterRefines(Nested(), k, conn);
      Install(k, conn);
    }

    method UninstallFlat(k: M.Slot, exact: Option<Connection>)
      requires Separate() && M.NoEmpties(Nested())
      modifies this, groups.Values, Occupant(k)`closed
      ensures Separate() && M.NoEmpties(Nested()) && Flat() == M.FlatLeave(old(Flat()), k, exact)
      ensures forall c | c in old(Occupant(k)) :: c.closed <==> old(c.closed) || exact.None? || exact.value == c
    {
      ghost var nested, occupant := Nested(), Occupant(k);
      M.UnregisterRefines(nested, k, exact);
      HitsOccupant(k, exact);
      Uninstall(k, exact);
    }

    lemma HitsOccupant(k: M.Slot, exact: Option<Connection>)
      ensures forall c | c in Occupant(k) ::
                M.Hits(Nested()[k.tenant], k.user, k.connId, exact) <==> exact.None? || exact.value == c
    {
    }

    /** Joins a connection; a connection it replaces is closed, every other one is untouched. */
    method Register(k: M.Slot, conn: Connection)
      requires Valid() && conn !in Pooled() && !conn.closed
      modifies this, groups.Values, Occupant(k)`closed
      ensures Flat() == old(Flat())[k := conn]
      ensures forall j | j in old(Flat()) :: old(Flat())[j].closed <==> j == k
      ensures Valid()
    {
      ghost var flat := Flat();
      M.InjectivePut(flat, k, conn);
      OccupantIsFlat(k);
      InstallFlat(k, conn);
    }

    /** Leaves with the exact connection; only that entry goes and only that connection is closed. */
    method Unregister(k: M.Slot, exact: Option<Connection>)
      requires Valid()
      modifies this, groups.Values, Occupant(k)`closed
      ensures Flat() == M.FlatLeave(old(Flat()), k, exact)
      ensures forall j | j in old(Flat()) :: old(Flat())[j].closed <==> j !in Flat()
      ensures Valid()
    {
      ghost var flat := Flat();
      M.LeaveKeepsInjective(flat, k, exact);
      OccupantIsFlat(k);
      UninstallFlat(k, exact);
    }

    // ---- Ranges and counts ----

    /** Visits every connection of one user once, in some order. */
    method RangeUser(t: Tenant, u: User) returns (visited: map<M.Slot, Connection>)
      ensures visited == Slice(Flat(), t, Some(u))
    {
      visited := map[];
      if t !in groups || u !in groups[t].users {
        return;
      }
      var bucket := groups[t].users[u];
      visited := VisitBucket(t, u, bucket);
      assert forall k :: k in visited <==> k in Slice(Flat(), t, Some(u));
    }

    /** Visits every connection of the tenant once, user by user. */
    method RangeGroup(t: Tenant) returns (visited: map<M.Slot, Connection>)
      ensures visited == Slice(Flat(), t, None)
    {
      visited := map[];
      if t !in groups {
        return;
      }
      ghost var n := Nested();
      var users := groups[t].users;
      var todo := users.Keys;
      while todo != {}
        invariant todo <= users.Keys
        invariant forall k :: k in visited <==> M.Has(n, k) && k.tenant == t && k.user !in todo
        invariant forall k | k in visited :: visited[k] == M.At(n, k)
        decreases todo
      {
        var u :| u in todo;
        var bucket := VisitBucket(t, u, users[u]);
        visited := visited + bucket;
        todo := todo - {u};
      }
    }

    method Count() returns (total: nat)
      ensures total == |Flat()|
    {
      total := 0;
      var todo := groups.Keys;
      ghost var n := Nested();
      assert M.TenantSlots(n, n.Keys - todo) == {};
      while todo != {}
        invariant todo <= n.Keys && total == |M.TenantSlots(n, n.Keys - todo)|
        decreases todo
      {
        var t :| t in todo;
        var conns := CountUsers(t, groups[t].users, n);
        M.TenantSlotsGrow(n, n.Keys - todo, t);
        assert n.Keys - (todo - {t}) == (n.Keys - todo) + {t};
        total := total + conns;
        todo := todo - {t};
      }
      assert M.TenantSlots(n, n.Keys - todo) == M.Slots(n);
      assert |Flat()| == |Flat().Keys|;
    }

    method GroupCount() returns (count: nat)
      requires Valid()
      ensures count == |M.OnlineTenants(Nested())|
    {
      M.OnlineIsKeyed(Nested());
      count := |groups|;
      assert groups.Keys == Nested().Keys;
    }

    method UserCount() returns (count: nat)
      requires Valid()
      ensures count == |M.OnlineUsers(Nested())|
    {
      count := CountDistinctUsers(Nested());
    }

    method GetOnlineUserIDs(t: Tenant) returns (users: set<User>)
      requires Valid()
      ensures users == M.OnlineIn(Nested(), t)
    {
      M.OnlineIsKeyed(Nested());
      if t !in groups {
        return {};
      }
      users := groups[t].users.Keys;
    }

    /** Per tenant, the number of online users and of connections. */
    method GroupStats() returns (stats: map<Tenant, (nat, nat)>)
      requires Valid()
      ensures stats.Keys == M.OnlineTenants(Nested())
      ensures forall t | t in stats :: stats[t] == (|M.OnlineIn(Nested(), t)|, |Slice(Flat(), t, None)|)
    {
      stats := StatsOf(Nested());
      StatsAreOnline(Nested(), stats);
    }
  }

  /** Group keys and slot counts are the online users and connections of the flat map. */
  lemma StatsAreOnline(n: M.Nested<Connection>, stats: map<Tenant, (nat, nat)>)
    requires M.NoEmpties(n) && stats.Keys == n.Keys
    requires forall t | t in n :: stats[t] == (|n[t].Keys|, |M.UserSlots(n, t, n[t].Keys)|)
    ensures stats.Keys == M.OnlineTenants(n)
    ensures forall t | t in stats :: stats[t] == (|M.OnlineIn(n, t)|, |Slice(M.Flat(n), t, None)|)
  {
    M.OnlineIsKeyed(n);
    forall t | t in stats
      ensures stats[t] == (|M.OnlineIn(n, t)|, |Slice(M.Flat(n), t, None)|)
    {
      SliceSize(n, t);
    }
  }

  /** Distinct users over all groups. */
  method CountDistinctUsers(n: M.Nested<Connection>) returns (count: nat)
    requires M.NoEmpties(n)
    ensures count == |M.OnlineUsers(n)|
  {
    var userSet: set<User> := {};
    var todo := n.Keys;
    while todo != {}
      invariant todo <= n.Keys
      invariant forall u :: u in userSet <==> exists t :: t in n && t !in todo && u in n[t]
      decreases todo
    {
      var t :| t in todo;
      userSet := userSet + n[t].Keys;
      todo := todo - {t};
    }
    M.OnlineIsKeyed(n);
    assert userSet == M.OnlineUsers(n);
    count := |userSet|;
  }

  method StatsOf(n: M.Nested<Connection>) returns (stats: map<Tenant, (nat, nat)>)
    ensures stats.Keys == n.Keys
    ensures forall t | t in n :: stats[t] == (|n[t].Keys|, |M.UserSlots(n, t, n[t].Keys)|)
  {
    stats := map[];
    var todo := n.Keys;
    while todo != {}
      invariant todo <= n.Keys && stats.Keys == n.Keys - todo
      invariant forall t | t in stats :: stats[t] == (|n[t].Keys|, |M.UserSlots(n, t, n[t].Keys)|)
      decreases todo
    {
      var t :| t in todo;
      var conns := CountUsers(t, n[t], n);
      stats := stats[t := (|n[t].Keys|, conns)];
      todo := todo - {t};
    }
  }

  /** The part of the flat map under a tenant, or under one of its users. */
  function Slice(flat: map<M.Slot, Connection>, t: Tenant, range: Option<User>): map<M.Slot, Connection> {
    map k | k in flat && k.tenant == t && (range.None? || range.value == k.user) :: flat[k]
  }

  lemma SliceSize(n: M.Nested<Connection>, t: Tenant)
    requires t in n
    ensures |Slice(M.Flat(n), t, None)| == |M.UserSlots(n, t, n[t].Keys)|
  {
    var slice := Slice(M.Flat(n), t, None);
    assert slice.Keys == M.UserSlots(n, t, n[t].Keys);
    assert |slice| == |slice.Keys|;
  }

  method VisitBucket(t: Tenant, u: User, bucket: M.Bucket<Connection>) returns (visited: map<M.Slot, Connection>)
    ensures forall k :: k in visited <==> k.tenant == t && k.user == u && k.connId in bucket
    ensures forall k | k in visited :: visited[k] == bucket[k.connId]
  {
    visited := map[];
    var todo := bucket.Keys;
    while todo != {}
      invariant todo <= bucket.Keys
      invariant forall k :: k in visited <==> k.tenant == t && k.user == u && k.connId in bucket && k.connId !in todo
      invariant forall k | k in visited :: visited[k] == bucket[k.connId]
      decreases todo
    {
      var id :| id in todo;
      visited := visited[M.Slot(t, u, id) := bucket[id]];
      todo := todo - {id};
    }
  }

  /** The inner counting loop: connections of one tenant. */
  method CountUsers(t: Tenant, users: M.Users<Connection>, ghost n: M.Nested<Connection>) returns (total: nat)
    requires t in n && n[t] == users
    ensures total == |M.UserSlots(n, t, users.Keys)|
  {
    total := 0;
    var todo := users.Keys;
    assert M.UserSlots(n, t, users.Keys - todo) == {};
    while todo != {}
      invariant todo <= users.Keys && total == |M.UserSlots(n, t, users.Keys - todo)|
      decreases todo
    {
      var u :| u in todo;
      M.UserSlotsGrow(n, t, users.Keys - todo, u);
      assert users.Keys - (todo - {u}) == (users.Keys - todo) + {u};
      total := total + |users[u]|;
      todo := todo - {u};
    }
    assert users.Keys - {} == users.Keys;
  }

  // ---- Fan-out ----

  /** k offers of the same message. */
  function Offers(channel: seq<D.Message>, m: D.Message, k: nat): seq<D.Message> {
    if k == 0 then channel else Offer(Offers(channel, m, k - 1), m)
  }

  /** Offers fill the room in the channel with copies at its end and drop the rest. */
  lemma {:induction false} OffersFill(channel: seq<D.Message>, m: D.Message, k: nat)
    requires |channel| <= D.CHANNEL_BUFFER
    ensures var room := D.CHANNEL_BUFFER - |channel|;
            Offers(channel, m, k) == channel + seq(if k <= room then k else room, _ => m)
    decreases k
  {
    if k > 0 {
      OffersFill(channel, m, k - 1);
    }
  }

  /** Writes the message once to every visited connection. */
  method WriteAll(visited: map<M.Slot, Connection>, m: D.Message)
    requires M.Injective(visited) && AllOpen(visited)
    modifies visited.Values`channel
    ensures forall k | k in visited :: visited[k].channel == Offer(old(visited[k].channel), m)
  {
    var todo := visited.Keys;
    while todo != {}
      invariant todo <= visited.Keys
      invariant forall k | k in visited :: visited[k].channel == if k in todo then old(visited[k].channel) else Offer(old(visited[k].channel), m)
      decreases todo
    {
      var k :| k in todo;
      var _ := visited[k].Write(Some(m));
      todo := todo - {k};
    }
  }

  /** Writing a slice changes the channels inside it and no other of the flat map. */
  method WriteSlice(visited: map<M.Slot, Connection>, m: D.Message, ghost flat: map<M.Slot, Connection>, ghost t: Tenant, ghost range: Option<User>)
    requires visited == Slice(flat, t, range) && M.Injective(flat) && AllOpen(flat)
    modifies visited.Values`channel
    ensures forall k | k in flat ::
              flat[k].channel == if Within(k, t, range) then Offer(old(flat[k].channel), m) else old(flat[k].channel)
  {
    SliceIsSound(flat, t, range);
    WriteAll(visited, m);
    assert forall k | k in flat && Within(k, t, range) :: k in visited && visited[k] == flat[k];
  }

  class LocalBroker {
    var queue: seq<D.Message>
    const capacity: nat

    constructor (capacity: nat)
      ensures queue == [] && this.capacity == capacity
    {
      queue := [];
      this.capacity := capacity;
    }

    /** Fails instead of blocking when the buffer is full. */
    method Publish(m: D.Message) returns (ok: bool)
      modifies this`queue
      ensures ok <==> |old(queue)| < capacity
      ensures queue == if ok then old(queue) + [m] else old(queue)
    {
      if |queue| < capacity {
        queue := queue + [m];
        return true;
      }
      return false;
    }
  }

  class Dispatcher {
    const pool: Manager

    constructor (pool: Manager)
      ensures this.pool == pool
    {
      this.pool := pool;
    }

    /** One range of the pool. */
    method RangeOver(t: Tenant, range: Option<User>, ghost flat: map<M.Slot, Connection>) returns (visited: map<M.Slot, Connection>)
      requires pool.Flat() == flat
      ensures visited == Slice(flat, t, range) && visited.Values <= flat.Values
    {
      if range.None? {
        visited := pool.RangeGroup(t);
      } else {
        visited := pool.RangeUser(t, range.value);
      }
      SliceWithin(flat, t, range);
    }

    /** One range, every visited connection written once. */
    method WriteRange(t: Tenant, range: Option<User>, m: D.Message, ghost flat: map<M.Slot, Connection>)
      requires pool.Flat() == flat && M.Injective(flat) && AllOpen(flat)
      modifies flat.Values`channel
      ensures forall k | k in flat ::
                flat[k].channel == if Within(k, t, range) then Offer(old(flat[k].channel), m) else old(flat[k].channel)
    {
      var visited := RangeOver(t, range, flat);
      WriteSlice(visited, m, flat, t, range);
    }

    /** The same; writing to channels leaves the pool itself alone. */
    method WriteRangeFramed(t: Tenant, range: Option<User>, m: D.Message, ghost flat: map<M.Slot, Connection>)
      requires pool.Flat() == flat && M.Injective(flat) && AllOpen(flat)
      modifies flat.Values`channel
      ensures pool.Flat() == flat && AllOpen(flat)
      ensures forall k | k in flat ::
                flat[k].channel == if Within(k, t, range) then Offer(old(flat[k].channel), m) else old(flat[k].channel)
    {
      WriteRange(t, range, m, flat);
    }

    /** The loop over the ranges of a message. */
    method WriteRanges(ranges: seq<Option<User>>, m: D.Message, ghost flat: map<M.Slot, Connection>)
      requires pool.Flat() == flat && M.Injective(flat) && AllOpen(flat)
      modifies flat.Values`channel
      ensures pool.Flat() == flat
      ensures forall k | k in flat :: flat[k].channel == Offers(old(flat[k].channel), m, Share(m, ranges, k))
    {
      assert ranges[..0] == [];
      for i := 0 to |ranges|
        invariant pool.Flat() == flat && AllOpen(flat)
        invariant forall k | k in flat :: flat[k].channel == Offers(old(flat[k].channel), m, Share(m, ranges[..i], k))
      {
        ShareGrows(m, ranges, i);
        WriteRangeFramed(m.tenant, ranges[i], m, flat);
      }
      assert ranges[..|ranges|] == ranges;
    }

    /** The ranges of one message, by what each connection is offered. */
    method WriteMessage(m: D.Message, ghost flat: map<M.Slot, Connection>)
      requires pool.Flat() == flat && M.Injective(flat) && AllOpen(flat)
      modifies flat.Values`channel
      ensures pool.Flat() == flat
      ensures forall k | k in flat ::
                flat[k].channel == if k.tenant != m.tenant then old(flat[k].channel)
                                   else if m.target == Broadcast then Offer(old(flat[k].channel), m)
                                   else Offers(old(flat[k].channel), m, multiset(m.targetIds)[k.user])
    {
      ghost var before := map k | k in flat :: flat[k].channel;
      WriteRanges(D.Ranges(m), m, flat);
      forall k | k in flat
        ensures flat[k].channel == if k.tenant != m.tenant then before[k]
                                   else if m.target == Broadcast then Offer(before[k], m)
                                   else Offers(before[k], m, multiset(m.targetIds)[k.user])
      {
        OffersFor(before[k], m, k);
      }
    }

    /**
     The fan-out of one message: a broadcast is offered once to every connection of its tenant, any
     other message once per listing of the connection's user; other tenants' connections are untouched.
     */
    method Process(m: D.Message)
      requires pool.Valid()
      modifies pool.Pooled()`channel
      ensures pool.Flat() == old(pool.Flat())
      ensures forall k | k in pool.Flat() ::
                pool.Flat()[k].channel == if k.tenant != m.tenant then old(pool.Flat()[k].channel)
                                          else if m.target == Broadcast then Offer(old(pool.Flat()[k].channel), m)
                                          else Offers(old(pool.Flat()[k].channel), m, multiset(m.targetIds)[k.user])
    {
      WriteMessage(m, pool.Flat());
    }
  }

  /** What the ranges of a message come to for one channel. */
  lemma OffersFor(channel: seq<D.Message>, m: D.Message, k: M.Slot)
    ensures Offers(channel, m, Share(m, D.Ranges(m), k))
            == if k.tenant != m.tenant then channel
               else if m.target == Broadcast then Offer(channel, m)
               else Offers(channel, m, multiset(m.targetIds)[k.user])
  {
    D.SharePerMessage(m, D.Address(k.tenant, k.user));
    assert Offers(channel, m, 0) == channel;
    assert Offers(channel, m, 1) == Offer(Offers(channel, m, 0), m);
  }

  // ---- The same queue and channels in module Delivery ----

  /** A range step writes to each reached channel as Connection.Write does, and to no other. */
  lemma RangeStepOffers(h: D.Hub, c: D.Conn)
    requires D.Sound(h) && D.CanAct(h, D.Range) && c in h.channel
    ensures c in D.Apply(h, D.Range).channel
    ensures D.Apply(h, D.Range).channel[c] == if D.Reached(h, c) then Offer(h.channel[c], h.work.m) else h.channel[c]
    ensures D.Reached(h, c) && Offer(h.channel[c], h.work.m) == h.channel[c] <==> D.Drops(h, D.Range, c)
  {
  }

  /** A publish step extends the queue as LocalBroker.Publish does with the broker's capacity. */
  lemma PublishStepAppends(h: D.Hub, m: D.Message)
    requires D.Sound(h)
    ensures D.Accepts(h, D.Publish(m)) <==> |h.queue| < D.BROKER_BUFFER
    ensures D.Apply(h, D.Publish(m)).queue == if |h.queue| < D.BROKER_BUFFER then h.queue + [m] else h.queue
  {
  }

  predicate Within(k: M.Slot, t: Tenant, range: Option<User>) {
    k.tenant == t && (range.None? || range.value == k.user)
  }

  lemma ShareGrows(m: D.Message, ranges: seq<Option<User>>, i: nat)
    requires i < |ranges|
    ensures forall k :: Share(m, ranges[..i + 1], k) == Share(m, ranges[..i], k) + (if Within(k, m.tenant, ranges[i]) then 1 else 0)
  {
    assert ranges[..i + 1] == ranges[..i] + [ranges[i]];
    forall k
      ensures Share(m, ranges[..i + 1], k) == Share(m, ranges[..i], k) + (if Within(k, m.tenant, ranges[i]) then 1 else 0)
    {
      CopiesSnoc(m, ranges[..i], ranges[i], D.Address(k.tenant, k.user));
    }
  }

  /** How many of the ranges reach a slot. */
  ghost function Share(m: D.Message, ranges: seq<Option<User>>, k: M.Slot): nat {
    |D.Copies(m, ranges, D.Address(k.tenant, k.user))|
  }

  lemma SliceWithin(flat: map<M.Slot, Connection>, t: Tenant, range: Option<User>)
    ensures Slice(flat, t, range).Values <= flat.Values
  {
  }

  lemma SliceIsSound(flat: map<M.Slot, Connection>, t: Tenant, range: Option<User>)
    requires M.Injective(flat) && AllOpen(flat)
    ensures M.Injective(Slice(flat, t, range)) && AllOpen(Slice(flat, t, range))
    ensures forall k | k in flat && k !in Slice(flat, t, range) :: flat[k] !in Slice(flat, t, range).Values
  {
  }

  lemma {:induction false} CopiesSnoc(m: D.Message, ranges: seq<Option<User>>, last: Option<User>, a: D.Address)
    ensures |D.Copies(m, ranges + [last], a)| == |D.Copies(m, ranges, a)| + (if D.Matches(m, last, a) then 1 else 0)
    decreases |ranges|
  {
    if ranges == [] {
      assert ranges + [last] == [last] && [last][1..] == [];
    } else {
      CopiesSnoc(m, ranges[1..], last, a);
      assert (ranges + [last])[0] == ranges[0] && (ranges + [last])[1..] == ranges[1..] + [last];
    }
  }
}
