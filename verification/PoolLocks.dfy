/**
 The connection pool at the granularity of its locks. Each step is one critical section of
 globalMu or of one group's mutex, or one Write made while a group is read-locked. Any number
 of connections join and leave, and any number of fan-outs walk the groups, at the same time.
 */
module PoolLocks {
  import opened Types

  type Conn = nat
  type GroupRef = nat
  type FanId = nat

  datatype Slot = Slot(user: User, connId: string)

  /** Where the goroutine that owns a connection stands. */
  datatype Pc =
    | HoldsGroup(g: GroupRef)
    | Joined
    | Leaving(g: GroupRef)
    | Emptied
    | Checking
    | Dropping(g: GroupRef)
    | Left

  datatype Life = Life(tenant: Tenant, slot: Slot, pc: Pc)

  /** A fan-out over one user, or over the whole group. */
  datatype Fan = Fetched(g: GroupRef, only: Option<User>) | Walking(g: GroupRef, todo: set<Conn>)

  /**
   `members` holds every group ever made, mapped or dropped; `owner` is the tenant it was made
   for. `holder` is the connection whose reclaim section has globalMu.
   */
  datatype Pool = Pool(
    groups: map<Tenant, GroupRef>,
    members: map<GroupRef, map<Slot, Conn>>,
    owner: map<GroupRef, Tenant>,
    lives: map<Conn, Life>,
    closes: multiset<Conn>,
    holder: Option<Conn>,
    fans: map<FanId, Fan>)

  const EMPTY_POOL := Pool(map[], map[], map[], map[], multiset{}, None, map[])

  datatype Section =
    | Open(c: Conn, tenant: Tenant, slot: Slot, newGroup: GroupRef)
    | Register(c: Conn)
    | LeaveGet(c: Conn)
    | Unregister(c: Conn)
    | ReclaimLock(c: Conn)
    | ReclaimCheck(c: Conn)
    | ReclaimDrop(c: Conn)
    | FanGet(f: FanId, tenant: Tenant, only: Option<User>)
    | FanLock(f: FanId)
    | FanWrite(f: FanId, target: Conn)
    | FanDone(f: FanId)

  predicate ReadLocked(p: Pool, g: GroupRef) {
    exists f | f in p.fans :: p.fans[f].Walking? && p.fans[f].g == g
  }

  predicate At(p: Pool, c: Conn, pc: Pc) {
    c in p.lives && p.lives[c].pc == pc
  }

  /** globalMu sections wait for a reclaim section; write sections of a group wait for its readers. */
  predicate CanRun(p: Pool, x: Section) {
    match x
    case Open(c, _, _, newGroup) => c !in p.lives && newGroup !in p.members && p.holder.None?
    case Register(c) => c in p.lives && p.lives[c].pc.HoldsGroup? && !ReadLocked(p, p.lives[c].pc.g)
    case LeaveGet(c) => At(p, c, Joined) && p.holder.None?
    case Unregister(c) => c in p.lives && p.lives[c].pc.Leaving? && !ReadLocked(p, p.lives[c].pc.g)
    case ReclaimLock(c) => At(p, c, Emptied) && p.holder.None?
    case ReclaimCheck(c) => At(p, c, Checking)
    case ReclaimDrop(c) => c in p.lives && p.lives[c].pc.Dropping?
    case FanGet(f, _, _) => f !in p.fans && p.holder.None?
    case FanLock(f) => f in p.fans && p.fans[f].Fetched?
    case FanWrite(f, target) => f in p.fans && p.fans[f].Walking? && target in p.fans[f].todo
    case FanDone(f) => f in p.fans && p.fans[f].Walking? && p.fans[f].todo == {}
  }

  function MembersOf(p: Pool, g: GroupRef): map<Slot, Conn> {
    if g in p.members then p.members[g] else map[]
  }

  function Moved(p: Pool, c: Conn, pc: Pc): map<Conn, Life>
    requires c in p.lives
  {
    p.lives[c := p.lives[c].(pc := pc)]
  }

  function Selected(m: map<Slot, Conn>, only: Option<User>): set<Conn> {
    set slot | slot in m && (only.None? || slot.user == only.value) :: m[slot]
  }

  // ---- The critical sections ----

  /** getOrCreateGroup under globalMu. */
  function DoOpen(p: Pool, c: Conn, tenant: Tenant, slot: Slot, newGroup: GroupRef): Pool {
    if tenant in p.groups then p.(lives := p.lives[c := Life(tenant, slot, HoldsGroup(p.groups[tenant]))])
    else p.(groups := p.groups[tenant := newGroup],
            members := p.members[newGroup := map[]],
            owner := p.owner[newGroup := tenant],
            lives := p.lives[c := Life(tenant, slot, HoldsGroup(newGroup))])
  }

  /** Group.Register under the group's mutex: an old connection in the slot is closed. */
  function DoRegister(p: Pool, c: Conn): Pool
    requires c in p.lives && p.lives[c].pc.HoldsGroup?
  {
    var g, slot := p.lives[c].pc.g, p.lives[c].slot;
    var m := MembersOf(p, g);
    p.(members := p.members[g := m[slot := c]],
       closes := p.closes + (if slot in m then multiset{m[slot]} else multiset{}),
       lives := Moved(p, c, Joined))
  }

  /** getGroup at the start of Unregister. */
  function DoLeaveGet(p: Pool, c: Conn): Pool
    requires c in p.lives
  {
    var t := p.lives[c].tenant;
    p.(lives := Moved(p, c, if t in p.groups then Leaving(p.groups[t]) else Left))
  }

  /** Group.Unregister under the group's mutex: only the exact connection is removed and closed. */
  function DoUnregister(p: Pool, c: Conn): Pool
    requires c in p.lives && p.lives[c].pc.Leaving?
  {
    var g, slot := p.lives[c].pc.g, p.lives[c].slot;
    var m := MembersOf(p, g);
    var hit := slot in m && m[slot] == c;
    var m' := if hit then m - {slot} else m;
    p.(members := p.members[g := m'],
       closes := p.closes + (if hit then multiset{c} else multiset{}),
       lives := Moved(p, c, if m' == map[] then Emptied else Left))
  }

  /** The emptiness test of the reclaim section. */
  function DoCheck(p: Pool, c: Conn): Pool
    requires c in p.lives
  {
    var t := p.lives[c].tenant;
    if t in p.groups && MembersOf(p, p.groups[t]) == map[]
    then p.(lives := Moved(p, c, Dropping(p.groups[t])))
    else p.(holder := None, lives := Moved(p, c, Left))
  }

  /** The delete of the reclaim section. */
  function DoDrop(p: Pool, c: Conn): Pool
    requires c in p.lives
  {
    p.(groups := p.groups - {p.lives[c].tenant}, holder := None, lives := Moved(p, c, Left))
  }

  function DoFanGet(p: Pool, f: FanId, tenant: Tenant, only: Option<User>): Pool {
    if tenant in p.groups then p.(fans := p.fans[f := Fetched(p.groups[tenant], only)]) else p
  }

  /** RLock of the group: the walk covers what is registered then. */
  function DoFanLock(p: Pool, f: FanId): Pool
    requires f in p.fans && p.fans[f].Fetched?
  {
    var g := p.fans[f].g;
    p.(fans := p.fans[f := Walking(g, Selected(MembersOf(p, g), p.fans[f].only))])
  }

  function DoFanWrite(p: Pool, f: FanId, target: Conn): Pool
    requires f in p.fans && p.fans[f].Walking?
  {
    p.(fans := p.fans[f := Walking(p.fans[f].g, p.fans[f].todo - {target})])
  }

  function Run(p: Pool, x: Section): Pool
    requires CanRun(p, x)
  {
    match x
    case Open(c, tenant, slot, newGroup) => DoOpen(p, c, tenant, slot, newGroup)
    case Register(c) => DoRegister(p, c)
    case LeaveGet(c) => DoLeaveGet(p, c)
    case Unregister(c) => DoUnregister(p, c)
    case ReclaimLock(c) => p.(holder := Some(c), lives := Moved(p, c, Checking))
    case ReclaimCheck(c) => DoCheck(p, c)
    case ReclaimDrop(c) => DoDrop(p, c)
    case FanGet(f, tenant, only) => DoFanGet(p, f, tenant, only)
    case FanLock(f) => DoFanLock(p, f)
    case FanWrite(f, target) => DoFanWrite(p, f, target)
    case FanDone(f) => p.(fans := p.fans - {f})
  }

  predicate ValidSections(p: Pool, xs: seq<Section>)
    decreases |xs|
  {
    xs == [] || (CanRun(p, xs[0]) && ValidSections(Run(p, xs[0]), xs[1..]))
  }

  function RunAll(p: Pool, xs: seq<Section>): Pool
    requires ValidSections(p, xs)
    decreases |xs|
  {
    if xs == [] then p else RunAll(Run(p, xs[0]), xs[1..])
  }

  // ---- What every section keeps ----

  predicate In(p: Pool, g: GroupRef, slot: Slot, c: Conn) {
    g in p.members && slot in p.members[g] && p.members[g][slot] == c
  }

  /** A pooled connection has registered, sits under its own slot and tenant, and is open. */
  ghost predicate PooledOk(p: Pool) {
    forall g, slot, c | In(p, g, slot, c) ::
      && c in p.lives
      && !p.lives[c].pc.HoldsGroup?
      && p.lives[c].slot == slot
      && g in p.owner && p.owner[g] == p.lives[c].tenant
      && p.closes[c] == 0
  }

  ghost predicate PooledOnce(p: Pool) {
    forall g, h, slot, c | In(p, g, slot, c) && In(p, h, slot, c) :: g == h
  }

  ghost predicate ClosedOnce(p: Pool) {
    forall c :: p.closes[c] <= 1 && (p.closes[c] == 1 ==> c in p.lives && !p.lives[c].pc.HoldsGroup?)
  }

  ghost predicate RefsOk(p: Pool) {
    && p.owner.Keys == p.members.Keys
    && (forall t | t in p.groups :: p.groups[t] in p.owner && p.owner[p.groups[t]] == t)
    && (forall c | c in p.lives && p.lives[c].pc.HoldsGroup? ::
          p.lives[c].pc.g in p.owner && p.owner[p.lives[c].pc.g] == p.lives[c].tenant)
    && (forall c | c in p.lives && p.lives[c].pc.Leaving? ::
          p.lives[c].pc.g in p.owner && p.owner[p.lives[c].pc.g] == p.lives[c].tenant)
    && (forall f | f in p.fans :: p.fans[f].g in p.members)
  }

  /** What a fan-out still has to write is in the group it holds. */
  ghost predicate FansOk(p: Pool) {
    forall f, c | f in p.fans && p.fans[f].Walking? && c in p.fans[f].todo ::
      c in p.lives && In(p, p.fans[f].g, p.lives[c].slot, c)
  }

  ghost predicate PoolOk(p: Pool) {
    PooledOk(p) && PooledOnce(p) && ClosedOnce(p) && RefsOk(p) && FansOk(p)
  }

  /** `p'` pools and closes the same connections as `p` and lets none go back before its registration. */
  ghost predicate SamePooling(p: Pool, p': Pool) {
    && (forall g, slot, c :: In(p', g, slot, c) <==> In(p, g, slot, c))
    && (forall g | g in p.owner :: g in p'.owner && p'.owner[g] == p.owner[g])
    && p'.closes == p.closes
    && (forall c | c in p.lives ::
          && c in p'.lives
          && p'.lives[c].tenant == p.lives[c].tenant
          && p'.lives[c].slot == p.lives[c].slot
          && (p'.lives[c].pc.HoldsGroup? ==> p.lives[c].pc.HoldsGroup?))
  }

  lemma Frame(p: Pool, p': Pool)
    requires PoolOk(p) && SamePooling(p, p')
    ensures PooledOk(p') && PooledOnce(p') && ClosedOnce(p')
    ensures p'.fans == p.fans ==> FansOk(p')
  {
    if p'.fans == p.fans {
      forall f, c | f in p'.fans && p'.fans[f].Walking? && c in p'.fans[f].todo
        ensures c in p'.lives && In(p', p'.fans[f].g, p'.lives[c].slot, c)
      {
        assert In(p, p.fans[f].g, p.lives[c].slot, c);
      }
    }
  }

  /** Writers of a group exclude its readers, so fan-outs elsewhere keep their targets. */
  lemma FansElsewhere(p: Pool, p': Pool, g: GroupRef)
    requires FansOk(p) && !ReadLocked(p, g) && p'.fans == p.fans
    requires forall c | c in p.lives :: c in p'.lives && p'.lives[c].slot == p.lives[c].slot
    requires forall h, slot, c | In(p, h, slot, c) && h != g :: In(p', h, slot, c)
    ensures FansOk(p')
  {
    forall f, c | f in p'.fans && p'.fans[f].Walking? && c in p'.fans[f].todo
      ensures c in p'.lives && In(p', p'.fans[f].g, p'.lives[c].slot, c)
    {
      assert In(p, p.fans[f].g, p.lives[c].slot, c);
    }
  }

  lemma RegisterMembers(p: Pool, c: Conn, h: GroupRef, s: Slot, d: Conn)
    requires c in p.lives && p.lives[c].pc.HoldsGroup?
    ensures var g, slot := p.lives[c].pc.g, p.lives[c].slot;
            In(DoRegister(p, c), h, s, d) <==> if h == g && s == slot then d == c else In(p, h, s, d)
  {
  }

  lemma RegisterPooled(p: Pool, p': Pool, c: Conn)
    requires PoolOk(p) && c in p.lives && p.lives[c].pc.HoldsGroup? && p' == DoRegister(p, c)
    requires var g, slot := p.lives[c].pc.g, p.lives[c].slot;
             forall h, s, d :: In(p', h, s, d) <==> if h == g && s == slot then d == c else In(p, h, s, d)
    ensures PooledOk(p') && PooledOnce(p') && ClosedOnce(p')
  {
    var g, slot := p.lives[c].pc.g, p.lives[c].slot;
    assert p.closes[c] == 0;
    if slot in p.members[g] {
      var replaced := p.members[g][slot];
      assert In(p, g, slot, replaced) && replaced != c && p.closes[replaced] == 0;
    }
  }

  lemma RegisterKeeps(p: Pool, c: Conn)
    requires PoolOk(p) && c in p.lives && p.lives[c].pc.HoldsGroup? && !ReadLocked(p, p.lives[c].pc.g)
    ensures PoolOk(DoRegister(p, c))
  {
    var p' := DoRegister(p, c);
    var g, slot := p.lives[c].pc.g, p.lives[c].slot;
    forall h, s, d
      ensures In(p', h, s, d) <==> if h == g && s == slot then d == c else In(p, h, s, d)
    {
      RegisterMembers(p, c, h, s, d);
    }
    RegisterPooled(p, p', c);
    FansElsewhere(p, p', g);
  }

  lemma UnregisterMembers(p: Pool, c: Conn, h: GroupRef, s: Slot, d: Conn)
    requires c in p.lives && p.lives[c].pc.Leaving?
    ensures In(DoUnregister(p, c), h, s, d)
            <==> In(p, h, s, d) && !(h == p.lives[c].pc.g && s == p.lives[c].slot && d == c)
  {
  }

  lemma UnregisterPooled(p: Pool, p': Pool, c: Conn)
    requires PoolOk(p) && c in p.lives && p.lives[c].pc.Leaving? && p' == DoUnregister(p, c)
    requires forall h, s, d :: In(p', h, s, d) <==> In(p, h, s, d) && !(h == p.lives[c].pc.g && s == p.lives[c].slot && d == c)
    ensures PooledOk(p') && PooledOnce(p')
  {
    forall h, s, d | In(p', h, s, d)
      ensures p'.closes[d] == 0 && p'.lives[d].tenant == p.lives[d].tenant && p'.lives[d].slot == p.lives[d].slot
    {
      assert In(p, h, s, d) && s == p.lives[d].slot;
      assert d == c ==> !In(p, p.lives[c].pc.g, p.lives[c].slot, c);
    }
  }

  lemma UnregisterKeeps(p: Pool, c: Conn)
    requires PoolOk(p) && c in p.lives && p.lives[c].pc.Leaving? && !ReadLocked(p, p.lives[c].pc.g)
    ensures PoolOk(DoUnregister(p, c))
  {
    var p' := DoUnregister(p, c);
    var g, slot := p.lives[c].pc.g, p.lives[c].slot;
    forall h, s, d
      ensures In(p', h, s, d) <==> In(p, h, s, d) && !(h == g && s == slot && d == c)
    {
      UnregisterMembers(p, c, h, s, d);
    }
    UnregisterPooled(p, p', c);
    assert ClosedOnce(p') by {
      assert In(p, g, slot, c) ==> p.closes[c] == 0;
    }
    FansElsewhere(p, p', g);
  }

  lemma OpenKeeps(p: Pool, c: Conn, tenant: Tenant, slot: Slot, newGroup: GroupRef)
    requires PoolOk(p) && c !in p.lives && newGroup !in p.members
    ensures PoolOk(DoOpen(p, c, tenant, slot, newGroup))
  {
    if tenant in p.groups {
      LifeKeeps(p, c, Life(tenant, slot, HoldsGroup(p.groups[tenant])));
    } else {
      var q := p.(groups := p.groups[tenant := newGroup], members := p.members[newGroup := map[]], owner := p.owner[newGroup := tenant]);
      NewGroupKeeps(p, q, tenant, newGroup);
      LifeKeeps(q, c, Life(tenant, slot, HoldsGroup(newGroup)));
    }
  }

  lemma NewGroupKeeps(p: Pool, q: Pool, tenant: Tenant, g: GroupRef)
    requires PoolOk(p) && g !in p.members
    requires q == p.(groups := p.groups[tenant := g], members := p.members[g := map[]], owner := p.owner[g := tenant])
    ensures PoolOk(q)
  {
    assert SamePooling(p, q);
    Frame(p, q);
  }

  lemma LifeKeeps(p: Pool, c: Conn, life: Life)
    requires PoolOk(p) && c !in p.lives && life.pc.HoldsGroup?
    requires life.pc.g in p.owner && p.owner[life.pc.g] == life.tenant
    ensures PoolOk(p.(lives := p.lives[c := life]))
  {
    var q := p.(lives := p.lives[c := life]);
    assert SamePooling(p, q);
    Frame(p, q);
  }

  lemma FanLockKeeps(p: Pool, f: FanId)
    requires PoolOk(p) && f in p.fans && p.fans[f].Fetched?
    ensures PoolOk(DoFanLock(p, f))
  {
    var p' := DoFanLock(p, f);
    assert SamePooling(p, p');
    Frame(p, p');
    forall h, c | h in p'.fans && p'.fans[h].Walking? && c in p'.fans[h].todo
      ensures c in p'.lives && In(p', p'.fans[h].g, p'.lives[c].slot, c)
    {
      if h == f {
        var m := MembersOf(p, p.fans[f].g);
        var slot :| slot in m && m[slot] == c;
        assert In(p, p.fans[f].g, slot, c);
      } else {
        assert In(p, p.fans[h].g, p.lives[c].slot, c);
      }
    }
  }

  /** A change of fans that only forgets targets. */
  lemma FewerTargets(p: Pool, p': Pool)
    requires PoolOk(p) && p' == p.(fans := p'.fans)
    requires forall f | f in p'.fans :: p'.fans[f].g in p.members
    requires forall f | f in p'.fans && p'.fans[f].Walking? ::
               f in p.fans && p.fans[f].Walking? && p.fans[f].g == p'.fans[f].g && p'.fans[f].todo <= p.fans[f].todo
    ensures PoolOk(p')
  {
    assert SamePooling(p, p');
    Frame(p, p');
    forall f, c | f in p'.fans && p'.fans[f].Walking? && c in p'.fans[f].todo
      ensures c in p'.lives && In(p', p'.fans[f].g, p'.lives[c].slot, c)
    {
      assert In(p, p.fans[f].g, p.lives[c].slot, c);
    }
  }

  /** A change of one program counter, the lock holder and the group map. */
  lemma MovedKeeps(p: Pool, p': Pool, c: Conn, pc: Pc)
    requires PoolOk(p) && c in p.lives && !pc.HoldsGroup?
    requires p' == p.(groups := p'.groups, holder := p'.holder, lives := Moved(p, c, pc))
    requires forall t | t in p'.groups :: t in p.groups && p'.groups[t] == p.groups[t]
    requires pc.Leaving? ==> pc.g in p.owner && p.owner[pc.g] == p.lives[c].tenant
    ensures PoolOk(p')
  {
    assert SamePooling(p, p');
    Frame(p, p');
  }

  lemma FanKeeps(p: Pool, x: Section)
    requires PoolOk(p) && CanRun(p, x) && (x.FanGet? || x.FanLock? || x.FanWrite? || x.FanDone?)
    ensures PoolOk(Run(p, x))
  {
    if x.FanLock? {
      FanLockKeeps(p, x.f);
    } else {
      FewerTargets(p, Run(p, x));
    }
  }

  lemma SectionKeepsPool(p: Pool, x: Section)
    requires PoolOk(p) && CanRun(p, x)
    ensures PoolOk(Run(p, x))
  {
    match x
    case Open(c, tenant, slot, newGroup) => OpenKeeps(p, c, tenant, slot, newGroup);
    case Register(c) => RegisterKeeps(p, c);
    case LeaveGet(c) => MovedKeeps(p, Run(p, x), c, Run(p, x).lives[c].pc);
    case Unregister(c) => UnregisterKeeps(p, c);
    case ReclaimLock(c) => MovedKeeps(p, Run(p, x), c, Checking);
    case ReclaimCheck(c) => MovedKeeps(p, Run(p, x), c, Run(p, x).lives[c].pc);
    case ReclaimDrop(c) => MovedKeeps(p, Run(p, x), c, Left);
    case _ => FanKeeps(p, x);
  }

  lemma {:induction false} RunsKeepPool(p: Pool, xs: seq<Section>)
    requires PoolOk(p) && ValidSections(p, xs)
    ensures PoolOk(RunAll(p, xs))
    decreases |xs|
  {
    if xs != [] {
      SectionKeepsPool(p, xs[0]);
      RunsKeepPool(Run(p, xs[0]), xs[1..]);
    }
  }

  /**
   In every interleaving of joins, leaves and fan-outs, no Write reaches a closed connection and
   no connection is closed twice, whether or not its group is still mapped.
   */
  lemma NoWriteAfterClose(xs: seq<Section>, f: FanId, target: Conn)
    requires ValidSections(EMPTY_POOL, xs)
    ensures forall c :: RunAll(EMPTY_POOL, xs).closes[c] <= 1
    ensures CanRun(RunAll(EMPTY_POOL, xs), FanWrite(f, target)) ==> RunAll(EMPTY_POOL, xs).closes[target] == 0
  {
    EmptyPoolOk();
    RunsKeepPool(EMPTY_POOL, xs);
    WritesAreOpen(RunAll(EMPTY_POOL, xs), f, target);
  }

  lemma EmptyPoolOk()
    ensures PoolOk(EMPTY_POOL)
  {
  }

  lemma WritesAreOpen(p: Pool, f: FanId, target: Conn)
    requires PoolOk(p)
    ensures CanRun(p, FanWrite(f, target)) ==> p.closes[target] == 0
  {
    if CanRun(p, FanWrite(f, target)) {
      assert In(p, p.fans[f].g, p.lives[target].slot, target);
    }
  }

  // ---- Who can be reached ----

  predicate Mapped(p: Pool, c: Conn)
    requires c in p.lives
  {
    var l := p.lives[c];
    l.tenant in p.groups && In(p, p.groups[l.tenant], l.slot, c)
  }

  /**
   A joining connection holds the mapped group; a connection that has joined and not yet left
   is in the mapped group unless it was replaced; a connection that has left is closed.
   */
  ghost predicate Placed(p: Pool, c: Conn)
    requires c in p.lives
  {
    var l := p.lives[c];
    match l.pc
    case HoldsGroup(g) => l.tenant in p.groups && p.groups[l.tenant] == g
    case Joined => p.closes[c] > 0 || Mapped(p, c)
    case Leaving(g) => p.closes[c] > 0 || (Mapped(p, c) && p.groups[l.tenant] == g)
    case _ => p.closes[c] > 0
  }

  ghost predicate AllReachable(p: Pool) {
    forall c | c in p.lives :: Placed(p, c)
  }

  /** globalMu excludes: only the holder is in a reclaim section, and it drops the mapped group. */
  ghost predicate LockOk(p: Pool) {
    forall c | c in p.lives && (p.lives[c].pc.Checking? || p.lives[c].pc.Dropping?) ::
      && p.holder == Some(c)
      && (p.lives[c].pc.Dropping? ==> p.lives[c].tenant in p.groups && p.groups[p.lives[c].tenant] == p.lives[c].pc.g)
  }

  /** Nobody holds the group and nobody is in it. */
  ghost predicate Deserted(p: Pool, g: GroupRef) {
    && MembersOf(p, g) == map[]
    && forall c | c in p.lives :: p.lives[c].pc != HoldsGroup(g)
  }

  /** A drop strands someone unless the group is deserted at that moment. */
  ghost predicate CleanDrop(p: Pool, x: Section)
    requires CanRun(p, x)
  {
    x.ReclaimDrop? ==> Deserted(p, p.lives[x.c].pc.g)
  }

  lemma ReclaimKeepsLock(p: Pool, x: Section)
    requires LockOk(p) && CanRun(p, x) && (x.ReclaimLock? || x.ReclaimCheck? || x.ReclaimDrop?)
    ensures LockOk(Run(p, x))
  {
  }

  lemma OthersKeepLock(p: Pool, p': Pool)
    requires LockOk(p) && p'.holder == p.holder
    requires forall c | c in p'.lives && (p'.lives[c].pc.Checking? || p'.lives[c].pc.Dropping?) ::
               c in p.lives && p'.lives[c] == p.lives[c]
    requires forall t | t in p.groups :: t in p'.groups && p'.groups[t] == p.groups[t]
    ensures LockOk(p')
  {
  }

  lemma SectionKeepsLock(p: Pool, x: Section)
    requires LockOk(p) && CanRun(p, x)
    ensures LockOk(Run(p, x))
  {
    match x
    case ReclaimLock(_) => ReclaimKeepsLock(p, x);
    case ReclaimCheck(_) => ReclaimKeepsLock(p, x);
    case ReclaimDrop(_) => ReclaimKeepsLock(p, x);
    case Open(c, tenant, slot, newGroup) => OthersKeepLock(p, DoOpen(p, c, tenant, slot, newGroup));
    case Register(c) => OthersKeepLock(p, DoRegister(p, c));
    case LeaveGet(c) => OthersKeepLock(p, DoLeaveGet(p, c));
    case Unregister(c) => OthersKeepLock(p, DoUnregister(p, c));
    case _ => OthersKeepLock(p, Run(p, x));
  }

  lemma DropReachableIff(p: Pool, c: Conn)
    requires PoolOk(p) && LockOk(p) && AllReachable(p) && CanRun(p, ReclaimDrop(c))
    ensures AllReachable(Run(p, ReclaimDrop(c))) <==> Deserted(p, p.lives[c].pc.g)
  {
    var p', t, g := Run(p, ReclaimDrop(c)), p.lives[c].tenant, p.lives[c].pc.g;
    if Deserted(p, g) {
      forall d | d in p'.lives
        ensures Placed(p', d)
      {
        assert Placed(p, d);
      }
    } else if MembersOf(p, g) != map[] {
      var slot :| slot in p.members[g];
      var d := p.members[g][slot];
      assert In(p, g, slot, d) && Placed(p, d);
      assert !Placed(p', d);
    } else {
      var d :| d in p.lives && p.lives[d].pc == HoldsGroup(g);
      assert Placed(p, d) && !Placed(p', d);
    }
  }

  lemma RegisterReachable(p: Pool, c: Conn)
    requires PoolOk(p) && AllReachable(p) && CanRun(p, Register(c))
    ensures AllReachable(Run(p, Register(c)))
  {
    var p' := DoRegister(p, c);
    var g, slot := p.lives[c].pc.g, p.lives[c].slot;
    forall d | d in p'.lives
      ensures Placed(p', d)
    {
      assert Placed(p, d) && Placed(p, c);
      RegisterMembers(p, c, if p.lives[d].tenant in p.groups then p.groups[p.lives[d].tenant] else g, p.lives[d].slot, d);
    }
  }

  lemma UnregisterReachable(p: Pool, c: Conn)
    requires PoolOk(p) && AllReachable(p) && CanRun(p, Unregister(c))
    ensures AllReachable(Run(p, Unregister(c)))
  {
    var p' := DoUnregister(p, c);
    forall d | d in p'.lives
      ensures Placed(p', d)
    {
      assert Placed(p, d);
      if p.lives[d].tenant in p.groups {
        UnregisterMembers(p, c, p.groups[p.lives[d].tenant], p.lives[d].slot, d);
      }
    }
  }

  /** Sections that touch neither groups nor closes place everyone but `c` as before. */
  lemma OthersStayPlaced(p: Pool, p': Pool, c: Conn)
    requires AllReachable(p) && p'.members == p.members && p'.closes == p.closes
    requires forall t | t in p.groups :: t in p'.groups && p'.groups[t] == p.groups[t]
    requires forall d | d in p'.lives && d != c :: d in p.lives && p'.lives[d] == p.lives[d]
    requires c in p'.lives ==> Placed(p', c)
    ensures AllReachable(p')
  {
    forall d | d in p'.lives && d != c
      ensures Placed(p', d)
    {
      assert Placed(p, d);
    }
  }

  lemma OpenReachable(p: Pool, c: Conn, tenant: Tenant, slot: Slot, newGroup: GroupRef)
    requires AllReachable(p) && RefsOk(p) && CanRun(p, Open(c, tenant, slot, newGroup))
    ensures AllReachable(DoOpen(p, c, tenant, slot, newGroup))
  {
    var p' := DoOpen(p, c, tenant, slot, newGroup);
    forall d | d in p'.lives && d != c
      ensures Placed(p', d)
    {
      assert Placed(p, d);
      assert tenant !in p.groups ==> p.lives[d].tenant == tenant ==> p.closes[d] > 0;
    }
  }

  lemma ManagerReachable(p: Pool, x: Section)
    requires PoolOk(p) && AllReachable(p) && CanRun(p, x) && (x.LeaveGet? || x.ReclaimLock? || x.ReclaimCheck?)
    ensures AllReachable(Run(p, x))
  {
    assert Placed(p, x.c);
    OthersStayPlaced(p, Run(p, x), x.c);
  }

  lemma FanReachable(p: Pool, x: Section)
    requires AllReachable(p) && CanRun(p, x) && (x.FanGet? || x.FanLock? || x.FanWrite? || x.FanDone?)
    ensures AllReachable(Run(p, x))
  {
    var p' := Run(p, x);
    forall d | d in p'.lives
      ensures Placed(p', d)
    {
      assert Placed(p, d);
    }
  }

  /** From a state where everyone is reachable, a section strands someone exactly when it is an unclean drop. */
  lemma StrandsIffUncleanDrop(p: Pool, x: Section)
    requires PoolOk(p) && LockOk(p) && AllReachable(p) && CanRun(p, x)
    ensures AllReachable(Run(p, x)) <==> CleanDrop(p, x)
  {
    match x
    case ReclaimDrop(c) => DropReachableIff(p, c);
    case Register(c) => RegisterReachable(p, c);
    case Unregister(c) => UnregisterReachable(p, c);
    case Open(c, tenant, slot, newGroup) => OpenReachable(p, c, tenant, slot, newGroup);
    case LeaveGet(_) => ManagerReachable(p, x);
    case ReclaimLock(_) => ManagerReachable(p, x);
    case ReclaimCheck(_) => ManagerReachable(p, x);
    case _ => FanReachable(p, x);
  }

  ghost predicate CleanRun(p: Pool, xs: seq<Section>)
    requires ValidSections(p, xs)
    decreases |xs|
  {
    xs == [] || (CleanDrop(p, xs[0]) && CleanRun(Run(p, xs[0]), xs[1..]))
  }

  ghost predicate AlwaysReachable(p: Pool, xs: seq<Section>)
    requires ValidSections(p, xs)
    decreases |xs|
  {
    AllReachable(p) && (xs == [] || AlwaysReachable(Run(p, xs[0]), xs[1..]))
  }

  /**
   Over every interleaving: each joined and not yet left connection stays in the group mapped
   under its tenant throughout if and only if every drop finds its group deserted.
   */
  lemma {:induction false} ReachableIffClean(p: Pool, xs: seq<Section>)
    requires PoolOk(p) && LockOk(p) && AllReachable(p) && ValidSections(p, xs)
    ensures AlwaysReachable(p, xs) <==> CleanRun(p, xs)
    decreases |xs|
  {
    if xs != [] {
      SectionKeepsPool(p, xs[0]);
      SectionKeepsLock(p, xs[0]);
      StrandsIffUncleanDrop(p, xs[0]);
      if CleanDrop(p, xs[0]) {
        ReachableIffClean(Run(p, xs[0]), xs[1..]);
      }
    }
  }

  // ---- A condition on the emptiness test, and a run that breaks it ----

  /** No join stands between getOrCreateGroup and the end of Group.Register when the test runs. */
  ghost predicate QuietCheck(p: Pool, x: Section)
    requires CanRun(p, x)
  {
    x.ReclaimCheck? ==>
      forall d | d in p.lives && p.lives[d].tenant == p.lives[x.c].tenant :: !p.lives[d].pc.HoldsGroup?
  }

  ghost predicate QuietRun(p: Pool, xs: seq<Section>)
    requires ValidSections(p, xs)
    decreases |xs|
  {
    xs == [] || (QuietCheck(p, xs[0]) && QuietRun(Run(p, xs[0]), xs[1..]))
  }

  ghost predicate DropsDeserted(p: Pool) {
    forall c | c in p.lives && p.lives[c].pc.Dropping? :: Deserted(p, p.lives[c].pc.g)
  }

  lemma DesertedStays(p: Pool, x: Section, g: GroupRef)
    requires RefsOk(p) && CanRun(p, x) && !x.Open? && Deserted(p, g)
    ensures Deserted(Run(p, x), g)
  {
    var p' := Run(p, x);
    if x.Register? {
      assert p.lives[x.c].pc.g != g;
    }
    assert MembersOf(p', g) == map[];
  }

  /** Who is about to drop after a section was about to before, or has just passed a quiet test. */
  lemma DroppingBefore(p: Pool, x: Section, c: Conn)
    requires RefsOk(p) && LockOk(p) && DropsDeserted(p) && CanRun(p, x) && QuietCheck(p, x)
    requires c in Run(p, x).lives && Run(p, x).lives[c].pc.Dropping?
    ensures Deserted(p, Run(p, x).lives[c].pc.g) && !x.Open?
  {
    if x.ReclaimCheck? && x.c == c {
      assert MembersOf(p, p.groups[p.lives[c].tenant]) == map[];
    } else {
      OnlyChecksDrop(p, x, c);
    }
  }

  lemma OnlyChecksDrop(p: Pool, x: Section, c: Conn)
    requires CanRun(p, x) && !(x.ReclaimCheck? && x.c == c) && c in Run(p, x).lives && Run(p, x).lives[c].pc.Dropping?
    ensures c in p.lives && p.lives[c] == Run(p, x).lives[c]
  {
  }

  lemma QuietKeepsDrops(p: Pool, x: Section)
    requires RefsOk(p) && LockOk(p) && DropsDeserted(p) && CanRun(p, x) && QuietCheck(p, x)
    ensures DropsDeserted(Run(p, x))
  {
    forall c | c in Run(p, x).lives && Run(p, x).lives[c].pc.Dropping?
      ensures Deserted(Run(p, x), Run(p, x).lives[c].pc.g)
    {
      DroppingBefore(p, x, c);
      DesertedStays(p, x, Run(p, x).lives[c].pc.g);
    }
  }

  /** If no join window overlaps an emptiness test, every drop is clean, so everyone stays reachable. */
  lemma {:induction false} QuietRunsStayReachable(p: Pool, xs: seq<Section>)
    requires PoolOk(p) && LockOk(p) && DropsDeserted(p) && AllReachable(p)
    requires ValidSections(p, xs) && QuietRun(p, xs)
    ensures AlwaysReachable(p, xs)
    decreases |xs|
  {
    if xs != [] {
      SectionKeepsPool(p, xs[0]);
      SectionKeepsLock(p, xs[0]);
      QuietKeepsDrops(p, xs[0]);
      StrandsIffUncleanDrop(p, xs[0]);
      QuietRunsStayReachable(Run(p, xs[0]), xs[1..]);
    }
  }

  /** A join overtaken by the drop of the group it holds ends up open, joined and unreachable. */
  lemma OvertakenJoinIsLost(p: Pool, c: Conn, d: Conn)
    requires PoolOk(p) && LockOk(p) && CanRun(p, ReclaimDrop(c)) && d in p.lives
    requires p.lives[d].pc == HoldsGroup(p.lives[c].pc.g) && !ReadLocked(p, p.lives[c].pc.g)
    ensures var dropped := Run(p, ReclaimDrop(c));
            && CanRun(dropped, Register(d))
            && (var p' := Run(dropped, Register(d));
                d in p'.lives && p'.lives[d].pc == Joined && p'.closes[d] == 0 && !Mapped(p', d))
  {
    var dropped := Run(p, ReclaimDrop(c));
    assert dropped.fans == p.fans && c != d;
    var g, slot := p.lives[c].pc.g, p.lives[d].slot;
    assert slot in p.members[g] ==> In(p, g, slot, p.members[g][slot]);
  }

  lemma {:induction false} AppendSection(p: Pool, xs: seq<Section>, x: Section)
    requires ValidSections(p, xs) && CanRun(RunAll(p, xs), x)
    ensures ValidSections(p, xs + [x]) && RunAll(p, xs + [x]) == Run(RunAll(p, xs), x)
    decreases |xs|
  {
    if xs == [] {
      assert xs + [x] == [x] && [x][1..] == [];
    } else {
      AppendSection(Run(p, xs[0]), xs[1..], x);
      assert (xs + [x])[0] == xs[0] && (xs + [x])[1..] == xs[1..] + [x];
    }
  }

  lemma {:induction false} RunsKeepLock(p: Pool, xs: seq<Section>)
    requires LockOk(p) && ValidSections(p, xs)
    ensures LockOk(RunAll(p, xs))
    decreases |xs|
  {
    if xs != [] {
      SectionKeepsLock(p, xs[0]);
      RunsKeepLock(Run(p, xs[0]), xs[1..]);
    }
  }

  /** One tenant, one group 0 and no fan-out. */
  function OneGroup(m: map<Slot, Conn>, lives: map<Conn, Life>, closes: multiset<Conn>, holder: Option<Conn>): Pool {
    Pool(map["t" := 0], map[0 := m], map[0 := "t"], lives, closes, holder, map[])
  }

  const FIRST := Slot("u", "a")
  const SECOND := Slot("u", "b")
  const JOINING := Life("t", SECOND, HoldsGroup(0))

  lemma JoinFirst() returns (xs: seq<Section>)
    ensures ValidSections(EMPTY_POOL, xs)
    ensures RunAll(EMPTY_POOL, xs) == OneGroup(map[FIRST := 1], map[1 := Life("t", FIRST, Joined)], multiset{}, None)
  {
    var holding := OneGroup(map[], map[1 := Life("t", FIRST, HoldsGroup(0))], multiset{}, None);
    AppendSection(EMPTY_POOL, [], Open(1, "t", FIRST, 0));
    xs := [] + [Open(1, "t", FIRST, 0)];
    assert RunAll(EMPTY_POOL, xs) == holding;
    AppendSection(EMPTY_POOL, xs, Register(1));
    xs := xs + [Register(1)];
  }

  /** The first connection joins and leaves; the group it leaves is empty. */
  lemma JoinAndLeave() returns (xs: seq<Section>)
    ensures ValidSections(EMPTY_POOL, xs)
    ensures RunAll(EMPTY_POOL, xs) == OneGroup(map[], map[1 := Life("t", FIRST, Emptied)], multiset{1}, None)
  {
    xs := JoinFirst();
    AppendSection(EMPTY_POOL, xs, LeaveGet(1));
    xs := xs + [LeaveGet(1)];
    assert RunAll(EMPTY_POOL, xs) == OneGroup(map[FIRST := 1], map[1 := Life("t", FIRST, Leaving(0))], multiset{}, None);
    AppendSection(EMPTY_POOL, xs, Unregister(1));
    xs := xs + [Unregister(1)];
    assert map[FIRST := 1] - {FIRST} == map[];
  }

  /** A second join fetches the group; then the first connection's reclaim section finds it empty. */
  lemma OverlapSetup() returns (xs: seq<Section>)
    ensures ValidSections(EMPTY_POOL, xs)
    ensures RunAll(EMPTY_POOL, xs) == OneGroup(map[], map[1 := Life("t", FIRST, Dropping(0)), 2 := JOINING], multiset{1}, Some(1))
  {
    xs := JoinAndLeave();
    AppendSection(EMPTY_POOL, xs, Open(2, "t", SECOND, 5));
    xs := xs + [Open(2, "t", SECOND, 5)];
    assert RunAll(EMPTY_POOL, xs) == OneGroup(map[], map[1 := Life("t", FIRST, Emptied), 2 := JOINING], multiset{1}, None);
    AppendSection(EMPTY_POOL, xs, ReclaimLock(1));
    xs := xs + [ReclaimLock(1)];
    assert RunAll(EMPTY_POOL, xs) == OneGroup(map[], map[1 := Life("t", FIRST, Checking), 2 := JOINING], multiset{1}, Some(1));
    AppendSection(EMPTY_POOL, xs, ReclaimCheck(1));
    xs := xs + [ReclaimCheck(1)];
  }

  /** The drop overtakes the second join: it ends up joined, open and in no mapped group. */
  lemma LostJoinRun() returns (xs: seq<Section>)
    ensures ValidSections(EMPTY_POOL, xs)
    ensures var p := RunAll(EMPTY_POOL, xs);
            2 in p.lives && p.lives[2].pc == Joined && p.closes[2] == 0 && !Mapped(p, 2)
  {
    xs := OverlapSetup();
    EmptyPoolOk();
    RunsKeepPool(EMPTY_POOL, xs);
    RunsKeepLock(EMPTY_POOL, xs);
    OvertakenJoinIsLost(RunAll(EMPTY_POOL, xs), 1, 2);
    AppendSection(EMPTY_POOL, xs, ReclaimDrop(1));
    xs := xs + [ReclaimDrop(1)];
    AppendSection(EMPTY_POOL, xs, Register(2));
    xs := xs + [Register(2)];
  }
}
