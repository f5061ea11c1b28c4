/**
 A user's cached personal or tenant counter against the number of the user's unread direct
 rows from that kind of sender, over every run in which each request's cache task runs
 before the next request.
 */
module CounterAgreement {
  import opened Types
  import opened UserIds
  import opened Storage
  import opened UnreadCache
  import opened Protocol

  function Counter(c: Cache, t: Tenant, u: User, kind: SenderType): int {
    Num(c, CounterKey(t, u, kind))
  }

  function Truth(db: DB, t: Tenant, u: User, kind: SenderType): nat {
    CountUnread(db, t, u, kind)
  }

  predicate Within(s: State, t: Tenant, u: User, kind: SenderType) {
    0 <= Counter(s.cache, t, u, kind) <= Truth(s.db, t, u, kind)
  }

  predicate Exact(s: State, t: Tenant, u: User, kind: SenderType) {
    Counter(s.cache, t, u, kind) == Truth(s.db, t, u, kind)
  }

  predicate Same(s: State, s': State, t: Tenant, u: User, kind: SenderType) {
    && Counter(s'.cache, t, u, kind) == Counter(s.cache, t, u, kind)
    && Truth(s'.db, t, u, kind) == Truth(s.db, t, u, kind)
  }

  ghost predicate CanonicalTargets(db: DB) {
    forall n | n in db.records :: AllCanonical(db.records[n].targetIds)
  }

  ghost predicate CanonicalEvent(e: Event) {
    e.op.Send? ==> AllCanonical(e.op.draft.targetIds)
  }

  // ---- What each update does to the unread rows of one user ----

  predicate Direct(r: Record, kind: SenderType) {
    r.sender == kind && r.target != Broadcast
  }

  predicate Addresses(r: Record, t: Tenant, u: User, kind: SenderType) {
    Direct(r, kind) && r.tenant == t && u in r.targetIds
  }

  lemma InsertUnread(db: DB, id: NotifyId, r: Record, rowIds: seq<RowId>, t: Tenant, u: User, kind: SenderType)
    requires |rowIds| == |r.targetIds| && id !in db.records && forall k | k in rowIds :: k !in db.rows
    requires forall k | k in db.rows :: db.rows[k].notify in db.records
    ensures UnreadRows(db, t, u, kind) <= UnreadRows(InsertRecord(db, id, r, rowIds), t, u, kind)
    ensures !Addresses(r, t, u, kind) ==>
              UnreadRows(InsertRecord(db, id, r, rowIds), t, u, kind) == UnreadRows(db, t, u, kind)
  {
    InsertRowsKeys(db.rows, id, r.targetIds, rowIds);
  }

  /** The row a single operation would rewrite exists and is still unread. */
  predicate UnreadHit(db: DB, user: User, id: NotifyId) {
    var found := RowsFor(db, user, id);
    found != {} && db.rows[Least(found)].status == Unread
  }

  lemma UpsertTruth(db: DB, user: User, id: NotifyId, next: Status, newRow: RowId, t: Tenant, u: User, kind: SenderType)
    requires id in db.records && next != Unread && newRow !in db.rows
    ensures Truth(Upsert(db, user, id, next, newRow), t, u, kind)
            == Truth(db, t, u, kind) - (if Direct(db.records[id], kind) && t == db.records[id].tenant && u == user
                                           && UnreadHit(db, user, id) then 1 else 0)
  {
    var k := if RowsFor(db, user, id) == {} then newRow else Least(RowsFor(db, user, id));
    var before := UnreadRows(db, t, u, kind);
    var after := UnreadRows(Upsert(db, user, id, next, newRow), t, u, kind);
    assert after == before - {k};
    assert k in before <==> Direct(db.records[id], kind) && t == db.records[id].tenant && u == user && UnreadHit(db, user, id);
  }

  /** Cleanup removes no unread direct row of a user outside the bucket. */
  lemma CleanupUnread(db: DB, expired: seq<NotifyId>, t: Tenant, u: User, kind: SenderType)
    requires Fitting(db) && u != ""
    requires forall n | n in expired :: n in db.records
    requires u !in Bucket(Infos(db, expired), t, kind)
    ensures UnreadRows(Cleaned(db, IdSet(expired)), t, u, kind) == UnreadRows(db, t, u, kind)
  {
    var infos := Infos(db, expired);
    forall k | k in UnreadRows(db, t, u, kind)
      ensures db.rows[k].notify !in expired
    {
      BucketMembers(infos, t, kind, u);
      assert RowFits(db, db.rows[k]);
      assert forall i | 0 <= i < |infos| :: infos[i] == db.records[expired[i]];
      assert Targets(db.records[db.rows[k].notify], t, kind, u);
    }
  }

  lemma NobodyHasNoRows(db: DB, t: Tenant, kind: SenderType)
    requires Fitting(db) && CanonicalTargets(db)
    ensures UnreadRows(db, t, "", kind) == {}
  {
    assert !Canonical("");
    forall k | k in db.rows
      ensures !CountsUnread(db, t, "", kind, db.rows[k])
    {
      assert RowFits(db, db.rows[k]);
    }
  }

  // ---- Counter and truth of one user after each kind of request ----

  lemma SendCounters(s: State, e: Event, t: Tenant, u: User, kind: SenderType)
    requires TablesOk(s) && Enabled(s, e) && CanonicalEvent(e) && e.op.Send? && ValidDraft(e.op.draft)
    ensures Truth(s.db, t, u, kind) <= Truth(Step(s, e).db, t, u, kind)
    ensures if Addresses(RecordOf(e.op.draft, e.at), t, u, kind) then Exact(Step(s, e), t, u, kind)
            else Same(s, Step(s, e), t, u, kind)
  {
    var d := e.op.draft;
    var r := RecordOf(d, e.at);
    var db' := InsertRecord(s.db, e.op.id, r, e.op.rowIds);
    assert forall k | k in s.db.rows :: RowFits(s.db, s.db.rows[k]);
    InsertUnread(s.db, e.op.id, r, e.op.rowIds, t, u, kind);
    SubsetSize(UnreadRows(s.db, t, u, kind), UnreadRows(db', t, u, kind));
    if d.target != Broadcast {
      CountSendCounter(db', s.cache, d.tenant, d.targetIds, d.sender, t, u, kind);
    }
  }

  lemma CountSendCounter(db: DB, c: Cache, tenant: Tenant, users: seq<User>, sender: SenderType, t: Tenant, u: User, kind: SenderType)
    requires AllCanonical(users)
    ensures Counter(CountSend(db, c, tenant, users, sender), t, u, kind)
            == if sender == kind && t == tenant && u in users then Truth(db, t, u, kind) else Counter(c, t, u, kind)
  {
    var keys := CounterKeys(tenant, users, sender);
    CounterKeyIn(tenant, users, sender, CounterKey(t, u, kind));
    IncrExistingKeys(c, keys);
    ReconcileCanonical(db, IncrExisting(c, keys), tenant, users, sender);
  }

  /** A granted single operation of this user on a direct record of this kind. */
  predicate ActsOn(s: State, e: Event, t: Tenant, u: User, kind: SenderType) {
    && e.op.Act?
    && e.op.tenant == t
    && e.op.user == u
    && CheckAccess(s.db, t, u, e.op.id).Granted?
    && Direct(s.db.records[e.op.id], kind)
  }

  lemma ActCounters(s: State, e: Event, t: Tenant, u: User, kind: SenderType)
    requires TablesOk(s) && Enabled(s, e) && e.op.Act?
    ensures if ActsOn(s, e, t, u, kind)
            then && Counter(Step(s, e).cache, t, u, kind)
                    == (if Counter(s.cache, t, u, kind) - 1 < 0 then 0 else Counter(s.cache, t, u, kind) - 1)
                 && Truth(Step(s, e).db, t, u, kind) == Truth(s.db, t, u, kind) - (if UnreadHit(s.db, u, e.op.id) then 1 else 0)
            else Same(s, Step(s, e), t, u, kind)
  {
    ActStep(s, e);
    if CheckAccess(s.db, e.op.tenant, e.op.user, e.op.id).Granted? {
      UpsertTruth(s.db, e.op.user, e.op.id, e.op.next, e.op.newRow, t, u, kind);
    }
  }

  predicate OneKey(op: Op) {
    op.UserRead? || op.UserClear? || op.TenantRead? || op.TenantClear?
  }

  /** One-key operations that settle every direct row of this kind: all but the tenant read of personal rows. */
  predicate Wipes(op: Op, t: Tenant, u: User, kind: SenderType) {
    OneKey(op) && op.tenant == t && op.user == u && (op.TenantRead? ==> kind == FromTenant)
  }

  /** One-key operations that reset the counter: the user ones, and only the personal counter. */
  predicate Resets(op: Op, t: Tenant, u: User, kind: SenderType) {
    (op.UserRead? || op.UserClear?) && op.tenant == t && op.user == u && kind == FromUser
  }

  /**
   Settles the rows but leaves the counter: the tenant clear for the personal counter, all
   four one-key operations for the tenant counter.
   */
  predicate Strands(op: Op, t: Tenant, u: User, kind: SenderType) {
    Wipes(op, t, u, kind) && !Resets(op, t, u, kind)
  }

  lemma OneKeyRows(db: DB, tenant: Tenant, user: User, t: Tenant, u: User, kind: SenderType)
    ensures UnreadRows(db, t, u, kind) - RowsInTenant(db, tenant, user)
            == if t == tenant && u == user then {} else UnreadRows(db, t, u, kind)
    ensures UnreadRows(db, t, u, kind) - TenantDirectRows(db, tenant, user)
            == if t == tenant && u == user && kind == FromTenant then {} else UnreadRows(db, t, u, kind)
  {
  }

  lemma RestatusRows(db: DB, selected: set<RowId>, next: Status, t: Tenant, u: User, kind: SenderType)
    requires next != Unread
    ensures UnreadRows(Restatus(db, selected, next), t, u, kind) == UnreadRows(db, t, u, kind) - selected
  {
  }

  lemma RestatusTruth(db: DB, tenant: Tenant, user: User, next: Status, t: Tenant, u: User, kind: SenderType)
    requires next != Unread
    ensures Truth(Restatus(db, RowsInTenant(db, tenant, user), next), t, u, kind)
            == if t == tenant && u == user then 0 else Truth(db, t, u, kind)
    ensures Truth(Restatus(db, TenantDirectRows(db, tenant, user), next), t, u, kind)
            == if t == tenant && u == user && kind == FromTenant then 0 else Truth(db, t, u, kind)
  {
    OneKeyRows(db, tenant, user, t, u, kind);
    RestatusRows(db, RowsInTenant(db, tenant, user), next, t, u, kind);
    RestatusRows(db, TenantDirectRows(db, tenant, user), next, t, u, kind);
  }

  /** Watermarks do not count. */
  lemma SameTruth(db: DB, db': DB, t: Tenant, u: User, kind: SenderType)
    requires db'.records == db.records && db'.rows == db.rows
    ensures Truth(db', t, u, kind) == Truth(db, t, u, kind)
  {
    assert UnreadRows(db', t, u, kind) == UnreadRows(db, t, u, kind);
  }

  lemma UserOneKeyCounters(s: State, e: Event, t: Tenant, u: User, kind: SenderType)
    requires e.op.UserRead? || e.op.UserClear?
    ensures Counter(Step(s, e).cache, t, u, kind) == if Resets(e.op, t, u, kind) then 0 else Counter(s.cache, t, u, kind)
    ensures Truth(Step(s, e).db, t, u, kind) == if Wipes(e.op, t, u, kind) then 0 else Truth(s.db, t, u, kind)
  {
    UserOneKeyStep(s, e);
    RestatusTruth(s.db, e.op.tenant, e.op.user, if e.op.UserRead? then Read else Deleted, t, u, kind);
  }

  lemma TenantReadTruth(db: DB, tenant: Tenant, user: User, at: Time, t: Tenant, u: User, kind: SenderType)
    ensures Truth(Restatus(SetReadAt(db, tenant, user, at), TenantDirectRows(db, tenant, user), Read), t, u, kind)
            == if t == tenant && u == user && kind == FromTenant then 0 else Truth(db, t, u, kind)
  {
    var selected := TenantDirectRows(db, tenant, user);
    SameTruth(Restatus(db, selected, Read), Restatus(SetReadAt(db, tenant, user, at), selected, Read), t, u, kind);
    RestatusTruth(db, tenant, user, Read, t, u, kind);
  }

  lemma TenantClearTruth(db: DB, tenant: Tenant, user: User, at: Time, t: Tenant, u: User, kind: SenderType)
    ensures Truth(Restatus(SetClearAt(db, tenant, user, at), RowsInTenant(db, tenant, user), Deleted), t, u, kind)
            == if t == tenant && u == user then 0 else Truth(db, t, u, kind)
  {
    var selected := RowsInTenant(db, tenant, user);
    SameTruth(Restatus(db, selected, Deleted), Restatus(SetClearAt(db, tenant, user, at), selected, Deleted), t, u, kind);
    RestatusTruth(db, tenant, user, Deleted, t, u, kind);
  }

  lemma TenantOneKeyTruth(db: DB, e: Event, t: Tenant, u: User, kind: SenderType)
    requires e.op.TenantRead? || e.op.TenantClear?
    ensures Truth(Commit(db, e), t, u, kind) == if Wipes(e.op, t, u, kind) then 0 else Truth(db, t, u, kind)
  {
    match e.op {
      case TenantRead(tenant, user) => TenantReadTruth(db, tenant, user, e.at, t, u, kind);
      case TenantClear(tenant, user) => TenantClearTruth(db, tenant, user, e.at, t, u, kind);
    }
  }

  lemma TenantOneKeyNums(s: State, e: Event)
    requires e.op.TenantRead? || e.op.TenantClear?
    ensures Step(s, e).cache.nums == s.cache.nums
  {
  }

  lemma TenantOneKeyCounters(s: State, e: Event, t: Tenant, u: User, kind: SenderType)
    requires e.op.TenantRead? || e.op.TenantClear?
    ensures Counter(Step(s, e).cache, t, u, kind) == Counter(s.cache, t, u, kind)
    ensures Truth(Step(s, e).db, t, u, kind) == if Wipes(e.op, t, u, kind) then 0 else Truth(s.db, t, u, kind)
  {
    TenantOneKeyNums(s, e);
    TenantOneKeyTruth(s.db, e, t, u, kind);
  }

  lemma CleanupCounters(s: State, e: Event, t: Tenant, u: User, kind: SenderType)
    requires TablesOk(s) && Enabled(s, e) && e.op.Cleanup? && CanonicalTargets(s.db)
    ensures Exact(Step(s, e), t, u, kind) || Same(s, Step(s, e), t, u, kind)
  {
    CleanupStep(s, e);
    CommitKeepsTables(s, e);
    var infos := Infos(s.db, e.op.expired);
    SnapshotCounters(Step(s, e).db, s.cache, infos, t, u, kind);
    if u !in Bucket(infos, t, kind) {
      if u == "" {
        NobodyHasNoRows(s.db, t, kind);
        NobodyHasNoRows(Step(s, e).db, t, kind);
      } else {
        CleanupUnread(s.db, e.op.expired, t, u, kind);
      }
    }
  }

  // ---- Every step, every run ----

  lemma StepKeepsCanonical(s: State, e: Event)
    requires CanonicalTargets(s.db) && CanonicalEvent(e)
    ensures CanonicalTargets(Step(s, e).db)
  {
    forall n | n in Commit(s.db, e).records
      ensures AllCanonical(Commit(s.db, e).records[n].targetIds)
    {
      CommitRecords(s.db, e, n);
    }
  }

  /** What moving from `s` to `s'` by `e` does to a counter within bounds, and to an exact one. */
  predicate Judged(s: State, e: Event, s': State, t: Tenant, u: User, kind: SenderType) {
    && 0 <= Counter(s'.cache, t, u, kind)
    && (Within(s', t, u, kind) <==> (Strands(e.op, t, u, kind) ==> Counter(s.cache, t, u, kind) == 0))
    && (Exact(s, t, u, kind) ==> (Exact(s', t, u, kind) <==> KeepsExact(s, e, t, u, kind)))
  }

  lemma SendJudged(s: State, e: Event, t: Tenant, u: User, kind: SenderType)
    requires TablesOk(s) && Enabled(s, e) && CanonicalEvent(e) && e.op.Send? && Within(s, t, u, kind)
    ensures Judged(s, e, Step(s, e), t, u, kind)
  {
    if ValidDraft(e.op.draft) {
      SendCounters(s, e, t, u, kind);
    }
  }

  lemma UserOneKeyJudged(s: State, e: Event, t: Tenant, u: User, kind: SenderType)
    requires (e.op.UserRead? || e.op.UserClear?) && Within(s, t, u, kind)
    ensures Judged(s, e, Step(s, e), t, u, kind)
  {
    UserOneKeyCounters(s, e, t, u, kind);
  }

  lemma TenantOneKeyJudged(s: State, e: Event, t: Tenant, u: User, kind: SenderType)
    requires (e.op.TenantRead? || e.op.TenantClear?) && Within(s, t, u, kind)
    ensures Judged(s, e, Step(s, e), t, u, kind)
  {
    TenantOneKeyCounters(s, e, t, u, kind);
  }

  lemma ActJudged(s: State, e: Event, t: Tenant, u: User, kind: SenderType)
    requires TablesOk(s) && Enabled(s, e) && e.op.Act? && Within(s, t, u, kind)
    ensures Judged(s, e, Step(s, e), t, u, kind)
  {
    ActCounters(s, e, t, u, kind);
  }

  /**
   A request keeps the counter within bounds exactly when it does not strand a non-zero
   counter, and keeps an exact counter exact exactly under KeepsExact.
   */
  lemma StepCounters(s: State, e: Event, t: Tenant, u: User, kind: SenderType)
    requires TablesOk(s) && CanonicalTargets(s.db) && Enabled(s, e) && CanonicalEvent(e) && Within(s, t, u, kind)
    ensures Judged(s, e, Step(s, e), t, u, kind)
  {
    match e.op
    case Send(_, d, _) => SendJudged(s, e, t, u, kind);
    case Act(_, _, _, _, _) => ActJudged(s, e, t, u, kind);
    case Cleanup(_) => CleanupCounters(s, e, t, u, kind);
    case UserRead(_, _) => UserOneKeyJudged(s, e, t, u, kind);
    case UserClear(_, _) => UserOneKeyJudged(s, e, t, u, kind);
    case _ => TenantOneKeyJudged(s, e, t, u, kind);
  }

  /** The requests that can leave an exact counter wrong, and when they do not. */
  predicate KeepsExact(s: State, e: Event, t: Tenant, u: User, kind: SenderType) {
    && (ActsOn(s, e, t, u, kind) ==> UnreadHit(s.db, u, e.op.id) || Truth(s.db, t, u, kind) == 0)
    && (Strands(e.op, t, u, kind) ==> Truth(s.db, t, u, kind) == 0)
  }

  lemma TraceCounters(es: seq<Event>, ss: seq<State>, k: nat, t: Tenant, u: User, kind: SenderType)
    requires Trace(INITIAL, es, ss) && k < |es| && CanonicalEvent(es[k])
    requires TablesOk(ss[k]) && CanonicalTargets(ss[k].db) && Within(ss[k], t, u, kind)
    ensures Judged(ss[k], es[k], ss[k + 1], t, u, kind)
  {
    StepCounters(ss[k], es[k], t, u, kind);
  }

  lemma {:induction false} RunKeepsCanonical(es: seq<Event>, ss: seq<State>, k: nat)
    requires Trace(INITIAL, es, ss) && k <= |es| && forall e | e in es :: CanonicalEvent(e)
    ensures CanonicalTargets(ss[k].db)
    decreases k
  {
    if k > 0 {
      RunKeepsCanonical(es, ss, k - 1);
      StepKeepsCanonical(ss[k - 1], es[k - 1]);
    }
  }

  /** What each event of a run of canonical users does to a counter within bounds. */
  lemma RunJudged(es: seq<Event>, ss: seq<State>, k: nat, t: Tenant, u: User, kind: SenderType)
    requires Trace(INITIAL, es, ss) && k < |es| && (forall e | e in es :: CanonicalEvent(e)) && Within(ss[k], t, u, kind)
    ensures Judged(ss[k], es[k], ss[k + 1], t, u, kind)
  {
    RunKeepsTables(INITIAL, es, ss, k);
    RunKeepsCanonical(es, ss, k);
    TraceCounters(es, ss, k, t, u, kind);
  }

  /**
   Over every run of canonical users: a personal counter whose user never tenant-clears, and a
   tenant counter whose user makes no one-key operation, lies between 0 and the unread rows.
   */
  lemma {:induction false} CounterBounded(es: seq<Event>, ss: seq<State>, k: nat, t: Tenant, u: User, kind: SenderType)
    requires Trace(INITIAL, es, ss) && k <= |es| && forall e | e in es :: CanonicalEvent(e) && !Strands(e.op, t, u, kind)
    ensures Within(ss[k], t, u, kind)
    decreases k
  {
    if k > 0 {
      CounterBounded(es, ss, k - 1, t, u, kind);
      RunJudged(es, ss, k - 1, t, u, kind);
    }
  }

  lemma {:induction false} ExactUpTo(es: seq<Event>, ss: seq<State>, k: nat, t: Tenant, u: User, kind: SenderType)
    requires Trace(INITIAL, es, ss) && k <= |es| && forall e | e in es :: CanonicalEvent(e)
    requires forall j | 0 <= j < k :: KeepsExact(ss[j], es[j], t, u, kind)
    ensures Exact(ss[k], t, u, kind)
    decreases k
  {
    if k > 0 {
      ExactUpTo(es, ss, k - 1, t, u, kind);
      RunJudged(es, ss, k - 1, t, u, kind);
    }
  }

  /**
   A personal or tenant counter is exact after every prefix of a run if and only if no single
   operation hits an already settled row while the user has unread rows left, and no operation
   that strands the counter meets unread rows.
   */
  lemma CountersExactIff(es: seq<Event>, ss: seq<State>, t: Tenant, u: User, kind: SenderType)
    requires Trace(INITIAL, es, ss) && forall e | e in es :: CanonicalEvent(e)
    ensures (forall k | 0 <= k <= |es| :: Exact(ss[k], t, u, kind)) <==> forall k | 0 <= k < |es| :: KeepsExact(ss[k], es[k], t, u, kind)
  {
    if forall k | 0 <= k < |es| :: KeepsExact(ss[k], es[k], t, u, kind) {
      forall k | 0 <= k <= |es|
        ensures Exact(ss[k], t, u, kind)
      {
        ExactUpTo(es, ss, k, t, u, kind);
      }
    }
    if forall k | 0 <= k <= |es| :: Exact(ss[k], t, u, kind) {
      forall k | 0 <= k < |es|
        ensures KeepsExact(ss[k], es[k], t, u, kind)
      {
        assert Exact(ss[k], t, u, kind) && Exact(ss[k + 1], t, u, kind);
        RunJudged(es, ss, k, t, u, kind);
      }
    }
  }

  // ---- Runs that leave a counter wrong ----

  function DirectSend(n: nat, kind: SenderType): Event {
    Event(n, Send(n, Draft("t", kind, Single, ["1"], None), [n]))
  }

  lemma DirectSendRows(db: DB, n: nat)
    ensures InsertRows(db.rows, n, ["1"], [n]) == db.rows[n := Row(n, "1", Unread)]
  {
    assert ["1"][..0] == [] && [n][..0] == [];
  }

  lemma DirectSendStep(s: State, n: nat, kind: SenderType)
    requires s.clock < n && n !in s.ids && n !in s.rowIds
    ensures Enabled(s, DirectSend(n, kind)) && CanonicalEvent(DirectSend(n, kind))
    ensures var s' := Step(s, DirectSend(n, kind));
            && s'.db.rows == s.db.rows[n := Row(n, "1", Unread)]
            && s'.db.records == s.db.records[n := Record("t", kind, Single, ["1"], n, None)]
            && s'.db.marks == s.db.marks && s'.clock == n && s'.ids == s.ids + {n} && s'.rowIds == s.rowIds + {n}
  {
    assert Canonical("1") by { PrintThenParse(1); }
    DirectSendRows(s.db, n);
  }

  /** One more direct notification to user 1. */
  lemma SendOne(es: seq<Event>, s: State, n: nat, kind: SenderType) returns (s': State)
    requires Reaches(es, s) && TablesOk(s) && s.clock < n && n !in s.ids && n !in s.rowIds
    ensures Reaches(es + [DirectSend(n, kind)], s') && TablesOk(s') && Exact(s', "t", "1", kind)
    ensures s'.db.rows == s.db.rows[n := Row(n, "1", Unread)]
    ensures s'.db.records == s.db.records[n := Record("t", kind, Single, ["1"], n, None)]
    ensures s'.db.marks == s.db.marks && s'.clock == n && s'.ids == s.ids + {n} && s'.rowIds == s.rowIds + {n}
  {
    var e := DirectSend(n, kind);
    DirectSendStep(s, n, kind);
    CommitKeepsTables(s, e);
    SendCounters(s, e, "t", "1", kind);
    s' := Step(s, e);
    ReachNext(es, s, e, s');
  }

  function ReadFirst(at: Time): Event {
    Event(at, Act("t", "1", 1, Read, at))
  }

  /** User 1 reads notification 1, read already or not. */
  lemma ReadOne(es: seq<Event>, s: State, at: Time, kind: SenderType) returns (s': State)
    requires Reaches(es, s) && TablesOk(s) && s.clock < at && at !in s.rowIds && RowsFor(s.db, "1", 1) == {1}
    requires CheckAccess(s.db, "t", "1", 1) == Granted(Record("t", kind, Single, ["1"], 1, None))
    ensures Reaches(es + [ReadFirst(at)], s') && TablesOk(s') && s'.clock == at && s'.rowIds == s.rowIds + {at}
    ensures RowsFor(s'.db, "1", 1) == {1} && s'.db.records == s.db.records && s'.db.rows[1].status == Read
    ensures Counter(s'.cache, "t", "1", kind)
            == if Counter(s.cache, "t", "1", kind) - 1 < 0 then 0 else Counter(s.cache, "t", "1", kind) - 1
    ensures Truth(s'.db, "t", "1", kind) == Truth(s.db, "t", "1", kind) - (if s.db.rows[1].status == Unread then 1 else 0)
  {
    var e := ReadFirst(at);
    CommitKeepsTables(s, e);
    ActCounters(s, e, "t", "1", kind);
    ActStep(s, e);
    assert Least(RowsFor(s.db, "1", 1)) == 1;
    s' := Step(s, e);
    ReachNext(es, s, e, s');
  }

  lemma TwoUnread(db: DB, kind: SenderType)
    requires db.rows == map[1 := Row(1, "1", Unread), 2 := Row(2, "1", Unread)]
    requires 1 in db.records && db.records[1] == Record("t", kind, Single, ["1"], 1, None)
    requires 2 in db.records && db.records[2] == Record("t", kind, Single, ["1"], 2, None)
    ensures Truth(db, "t", "1", kind) == 2 && RowsFor(db, "1", 1) == {1}
    ensures CheckAccess(db, "t", "1", 1) == Granted(db.records[1])
  {
    assert UnreadRows(db, "t", "1", kind) == {1, 2};
    assert "1" in db.records[1].targetIds;
  }

  lemma TwoSends(kind: SenderType) returns (s: State)
    ensures Reaches([DirectSend(1, kind)] + [DirectSend(2, kind)], s)
    ensures TablesOk(s) && s.clock == 2 && s.rowIds == {1, 2} && RowsFor(s.db, "1", 1) == {1} && s.db.rows[1].status == Unread
    ensures CheckAccess(s.db, "t", "1", 1) == Granted(Record("t", kind, Single, ["1"], 1, None))
    ensures Counter(s.cache, "t", "1", kind) == 2 && Truth(s.db, "t", "1", kind) == 2
  {
    ReachNothing();
    s := SendOne([], INITIAL, 1, kind);
    assert [] + [DirectSend(1, kind)] == [DirectSend(1, kind)];
    s := SendOne([DirectSend(1, kind)], s, 2, kind);
    TwoUnread(s.db, kind);
  }

  /** Two sends to one user, then the same read twice: the counter says 0, one row is unread. */
  lemma RepeatedReadRun(kind: SenderType) returns (es: seq<Event>, s: State)
    ensures es == [DirectSend(1, kind)] + [DirectSend(2, kind)] + [ReadFirst(3)] + [ReadFirst(4)]
    ensures Reaches(es, s) && Counter(s.cache, "t", "1", kind) == 0 && Truth(s.db, "t", "1", kind) == 1
  {
    s := TwoSends(kind);
    es := [DirectSend(1, kind)] + [DirectSend(2, kind)];
    s := ReadOne(es, s, 3, kind);
    es := es + [ReadFirst(3)];
    s := ReadOne(es, s, 4, kind);
    es := es + [ReadFirst(4)];
  }

  /** One direct send, then any operation that strands the counter: it says 1, nothing is unread. */
  lemma StrandedRun(op: Op, kind: SenderType) returns (es: seq<Event>, s: State)
    requires Strands(op, "t", "1", kind)
    ensures es == [DirectSend(1, kind)] + [Event(2, op)]
    ensures Reaches(es, s) && Counter(s.cache, "t", "1", kind) == 1 && Truth(s.db, "t", "1", kind) == 0
  {
    ReachNothing();
    var s1 := SendOne([], INITIAL, 1, kind);
    es := [DirectSend(1, kind)];
    assert [] + es == es;
    assert UnreadRows(s1.db, "t", "1", kind) == {1};
    if op.UserRead? || op.UserClear? {
      UserOneKeyCounters(s1, Event(2, op), "t", "1", kind);
    } else {
      TenantOneKeyCounters(s1, Event(2, op), "t", "1", kind);
    }
    s := Step(s1, Event(2, op));
    ReachNext(es, s1, Event(2, op), s);
    es := es + [Event(2, op)];
  }
}
