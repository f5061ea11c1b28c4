/**
 Broadcast sets when every request leaves its cache task behind and tasks run late in any order.
 What the sets hold of a broadcast that is still there follows from the order of the moves, and
 the unread broadcasts agree with the tables exactly when that order keeps step.
 */
module LateSync {
  import opened Types
  import opened Keys
  import opened Storage
  import opened UnreadCache
  import opened Protocol
  import opened BroadcastAgreement
  import opened Detached

  /** No cleanup removes the notification. */
  predicate Spares(m: Move, n: NotifyId) {
    m.Request? && m.e.op.Cleanup? ==> n !in m.e.op.expired
  }

  ghost predicate SparingRun(ms: seq<Move>, hist: seq<Async>, n: NotifyId) {
    Run(ms, hist) && forall m | m in ms :: Spares(m, n)
  }

  // ---- What happens in a run, in terms of its moves ----

  /** A broadcast is committed. */
  predicate Sends(m: Move, t: Tenant, n: NotifyId) {
    && m.Request? && m.e.op.Send? && m.e.op.id == n
    && ValidDraft(m.e.op.draft) && m.e.op.draft.target == Broadcast && m.e.op.draft.tenant == t
  }

  /** A user's tenant one-key read or clear is committed. */
  predicate Sweeps(m: Move, t: Tenant, u: User) {
    m.Request? && (m.e.op == TenantRead(t, u) || m.e.op == TenantClear(t, u))
  }

  /** A user's single operation on a broadcast is requested. */
  predicate Acts(m: Move, t: Tenant, u: User, n: NotifyId) {
    m.Request? && m.e.op.Act? && m.e.op.tenant == t && m.e.op.user == u && m.e.op.id == n
  }

  predicate Adds(m: Move, t: Tenant) {
    m.RunTask? && m.task.AddTotal? && m.task.tenant == t
  }

  predicate Sent(ms: seq<Move>, k: nat, t: Tenant, n: NotifyId)
    requires k <= |ms|
  {
    exists j | 0 <= j < k :: Sends(ms[j], t, n)
  }

  /** The first `k` moves ran the add task of the broadcast. */
  predicate Added(ms: seq<Move>, k: nat, t: Tenant, n: NotifyId)
    requires k <= |ms|
  {
    exists j | 0 <= j < k :: ms[j] == RunTask(AddTotal(t, n))
  }

  /** The task rewrites the total set from the tables: a cleanup snapshot, or an add that finds nothing else in it. */
  predicate Rebuilds(c: Cache, task: Task, t: Tenant) {
    match task
    case AddTotal(tenant, id) => tenant == t && Members(c, TotalKey(t)) <= {id}
    case TakeSnapshot(infos) => t in BroadcastTenants(infos)
    case _ => false
  }

  predicate Refreshes(ms: seq<Move>, hist: seq<Async>, i: nat, t: Tenant)
    requires i < |ms| && |hist| == |ms| + 1
  {
    ms[i].RunTask? && Rebuilds(hist[i].s.cache, ms[i].task, t)
  }

  /** A broadcast enters the total set by its own add, or by a rewrite after it was sent. */
  predicate Enters(ms: seq<Move>, hist: seq<Async>, i: nat, t: Tenant, n: NotifyId)
    requires i < |ms| && |hist| == |ms| + 1
  {
    ms[i] == RunTask(AddTotal(t, n)) || (Refreshes(ms, hist, i, t) && Sent(ms, i, t, n))
  }

  predicate Entered(ms: seq<Move>, hist: seq<Async>, k: nat, t: Tenant, n: NotifyId)
    requires k <= |ms| && |hist| == |ms| + 1
  {
    exists i | 0 <= i < k :: Enters(ms, hist, i, t, n)
  }

  /** The user swept after the broadcast was sent. */
  predicate Swept(ms: seq<Move>, k: nat, t: Tenant, u: User, n: NotifyId)
    requires k <= |ms|
  {
    exists i | 0 <= i < k :: Sweeps(ms[i], t, u) && Sent(ms, i, t, n)
  }

  /** A sweep's task ran after the broadcast had entered the total set. */
  predicate Synced(ms: seq<Move>, hist: seq<Async>, k: nat, t: Tenant, u: User, n: NotifyId)
    requires k <= |ms| && |hist| == |ms| + 1
  {
    exists i | 0 <= i < k :: ms[i] == RunTask(SyncAll(t, u)) && Entered(ms, hist, i, t, n)
  }

  /** The user read or deleted the broadcast by itself. */
  predicate Acted(ms: seq<Move>, k: nat, t: Tenant, u: User, n: NotifyId)
    requires k <= |ms|
  {
    exists i | 0 <= i < k :: Acts(ms[i], t, u, n) && u != "" && t != "" && Sent(ms, i, t, n)
  }

  predicate OpRan(ms: seq<Move>, k: nat, t: Tenant, u: User, n: NotifyId)
    requires k <= |ms|
  {
    exists i | 0 <= i < k :: ms[i] == RunTask(MarkOp(t, u, n))
  }

  // ---- The tables ----

  lemma {:induction false} TablesStayOk(ms: seq<Move>, hist: seq<Async>, k: nat)
    requires Run(ms, hist) && k <= |ms|
    ensures TablesOk(hist[k].s)
    decreases k
  {
    if k > 0 {
      TablesStayOk(ms, hist, k - 1);
      if ms[k - 1].Request? {
        CommitKeepsTables(hist[k - 1].s, ms[k - 1].e);
      }
    }
  }

  /** The user's watermarks settle the broadcast. */
  predicate ByMark(db: DB, t: Tenant, u: User, n: NotifyId)
    requires n in db.records
  {
    var m := MarkOf(db, t, u);
    db.records[n].createdAt <= m.readAt || db.records[n].createdAt <= m.clearAt
  }

  lemma OneKeyOperated(db: DB, selected: set<RowId>, next: Status, marks: map<(Tenant, User), Mark>, t: Tenant, u: User, n: NotifyId)
    ensures var db' := Restatus(db.(marks := marks), selected, next);
            && BroadcastIds(db', t) == BroadcastIds(db, t)
            && RowsFor(db', u, n) == RowsFor(db, u, n)
            && Operated(db', t, u, n) == Operated(db, t, u, n)
  {
  }

  lemma CleanedOperated(db: DB, ids: set<NotifyId>, t: Tenant, u: User, n: NotifyId)
    requires n !in ids
    ensures n in BroadcastIds(Cleaned(db, ids), t) <==> n in BroadcastIds(db, t)
    ensures RowsFor(Cleaned(db, ids), u, n) == RowsFor(db, u, n)
  {
  }

  /** A commit adds at most its own broadcast and at most its own single operation. */
  lemma CommitBroadcasts(s: State, e: Event, t: Tenant, u: User, n: NotifyId)
    requires TablesOk(s) && Enabled(s, e) && Spares(Request(e), n)
    ensures n in BroadcastIds(Commit(s.db, e), t) <==> n in BroadcastIds(s.db, t) || TaskFor(s.db, e) == Some(AddTotal(t, n))
    ensures Operated(Commit(s.db, e), t, u, n) <==> Operated(s.db, t, u, n) || TaskFor(s.db, e) == Some(MarkOp(t, u, n))
  {
    match e.op
    case Send(_, _, _) => CommitOperated(s, e, t, u, n);
    case Act(_, _, _, _, _) => CommitOperated(s, e, t, u, n);
    case UserRead(a, b) => OneKeyOperated(s.db, RowsInTenant(s.db, a, b), Read, s.db.marks, t, u, n);
    case UserClear(a, b) => OneKeyOperated(s.db, RowsInTenant(s.db, a, b), Deleted, s.db.marks, t, u, n);
    case TenantRead(a, b) => OneKeyOperated(s.db, TenantDirectRows(s.db, a, b), Read, SetReadAt(s.db, a, b, e.at).marks, t, u, n);
    case TenantClear(a, b) => OneKeyOperated(s.db, RowsInTenant(s.db, a, b), Deleted, SetClearAt(s.db, a, b, e.at).marks, t, u, n);
    case Cleanup(expired) => CleanedOperated(s.db, IdSet(expired), t, u, n);
  }

  /** Which request leaves which set task. */
  lemma TaskIff(db: DB, e: Event, t: Tenant, u: User, n: NotifyId)
    ensures TaskFor(db, e) == Some(AddTotal(t, n)) <==> Sends(Request(e), t, n)
    ensures TaskFor(db, e) == Some(MarkOp(t, u, n)) <==> Acts(Request(e), t, u, n) && u != "" && t != "" && n in BroadcastIds(db, t)
    ensures TaskFor(db, e) == Some(SyncAll(t, u)) <==> Sweeps(Request(e), t, u)
  {
  }

  lemma SendMarks(s: State, e: Event, t: Tenant, u: User, n: NotifyId)
    requires TablesOk(s) && Enabled(s, e) && e.op.Send? && n in Commit(s.db, e).records
    ensures ByMark(Commit(s.db, e), t, u, n) <==> n in s.db.records && ByMark(s.db, t, u, n)
  {
    MarksBelow(s, t);
  }

  lemma SweepMarks(s: State, e: Event, t: Tenant, u: User, n: NotifyId)
    requires TablesOk(s) && Enabled(s, e) && (e.op.TenantRead? || e.op.TenantClear?) && n in s.db.records
    ensures n in Commit(s.db, e).records
    ensures ByMark(Commit(s.db, e), t, u, n) <==> ByMark(s.db, t, u, n) || Sweeps(Request(e), t, u)
  {
    MarksBelow(s, t);
  }

  lemma CommitMarks(s: State, e: Event, t: Tenant, u: User, n: NotifyId)
    requires TablesOk(s) && Enabled(s, e) && n in Commit(s.db, e).records
    ensures ByMark(Commit(s.db, e), t, u, n) <==> n in s.db.records && (ByMark(s.db, t, u, n) || Sweeps(Request(e), t, u))
  {
    match e.op
    case Send(_, _, _) => SendMarks(s, e, t, u, n);
    case TenantRead(_, _) => SweepMarks(s, e, t, u, n);
    case TenantClear(_, _) => SweepMarks(s, e, t, u, n);
    case _ =>
  }

  /** What the first `k` moves say of one broadcast, and what the tables say. */
  ghost predicate TablesTell(ms: seq<Move>, k: nat, db: DB, t: Tenant, u: User, n: NotifyId)
    requires k <= |ms|
  {
    && (n in BroadcastIds(db, t) <==> Sent(ms, k, t, n))
    && (Operated(db, t, u, n) <==> Acted(ms, k, t, u, n))
    && (n in BroadcastIds(db, t) ==> (ByMark(db, t, u, n) <==> Swept(ms, k, t, u, n)))
  }

  lemma SentNext(ms: seq<Move>, k: nat, t: Tenant, u: User, n: NotifyId)
    requires k < |ms|
    ensures Sent(ms, k + 1, t, n) <==> Sent(ms, k, t, n) || Sends(ms[k], t, n)
    ensures Acted(ms, k + 1, t, u, n) <==> Acted(ms, k, t, u, n) || (Acts(ms[k], t, u, n) && u != "" && t != "" && Sent(ms, k, t, n))
    ensures Swept(ms, k + 1, t, u, n) <==> Swept(ms, k, t, u, n) || (Sweeps(ms[k], t, u) && Sent(ms, k, t, n))
  {
  }

  lemma RequestTells(ms: seq<Move>, k: nat, s: State, e: Event, t: Tenant, u: User, n: NotifyId)
    requires k < |ms| && ms[k] == Request(e) && TablesOk(s) && Enabled(s, e) && Spares(Request(e), n)
    requires TablesTell(ms, k, s.db, t, u, n)
    ensures TablesTell(ms, k + 1, Commit(s.db, e), t, u, n)
  {
    SentNext(ms, k, t, u, n);
    CommitBroadcasts(s, e, t, u, n);
    TaskIff(s.db, e, t, u, n);
    if n in BroadcastIds(Commit(s.db, e), t) {
      CommitMarks(s, e, t, u, n);
      if n in s.db.records {
        SentInTenant(s, e, t, n);
      }
      assert Swept(ms, k, t, u, n) ==> Sent(ms, k, t, n);
    }
  }

  lemma SentInTenant(s: State, e: Event, t: Tenant, n: NotifyId)
    requires TablesOk(s) && Enabled(s, e) && n in s.db.records && n in BroadcastIds(Commit(s.db, e), t)
    ensures n in BroadcastIds(s.db, t)
  {
    CommitRecords(s.db, e, n);
  }

  lemma {:induction false} TablesByMoves(ms: seq<Move>, hist: seq<Async>, k: nat, t: Tenant, u: User, n: NotifyId)
    requires SparingRun(ms, hist, n) && k <= |ms|
    ensures TablesTell(ms, k, hist[k].s.db, t, u, n)
    decreases k
  {
    if k > 0 {
      TablesByMoves(ms, hist, k - 1, t, u, n);
      TablesStayOk(ms, hist, k - 1);
      SentNext(ms, k - 1, t, u, n);
      assert Spares(ms[k - 1], n);
      if ms[k - 1].Request? {
        RequestTells(ms, k - 1, hist[k - 1].s, ms[k - 1].e, t, u, n);
      }
    }
  }

  lemma SentIff(ms: seq<Move>, hist: seq<Async>, k: nat, t: Tenant, n: NotifyId)
    requires SparingRun(ms, hist, n) && k <= |ms|
    ensures n in BroadcastIds(hist[k].s.db, t) <==> Sent(ms, k, t, n)
  {
    TablesByMoves(ms, hist, k, t, "", n);
  }

  // ---- The waiting tasks ----

  lemma PendingNext(a: Async, m: Move, task: Task)
    requires CanMove(a, m)
    ensures Next(a, m).pending[task]
            == a.pending[task] + (if m.Request? && TaskFor(a.s.db, m.e) == Some(task) then 1 else 0) - (if m == RunTask(task) then 1 else 0)
  {
  }

  lemma AddedNext(ms: seq<Move>, k: nat, t: Tenant, u: User, n: NotifyId)
    requires k < |ms|
    ensures Added(ms, k + 1, t, n) <==> Added(ms, k, t, n) || ms[k] == RunTask(AddTotal(t, n))
    ensures OpRan(ms, k + 1, t, u, n) <==> OpRan(ms, k, t, u, n) || ms[k] == RunTask(MarkOp(t, u, n))
  {
  }

  ghost predicate Waits(ms: seq<Move>, k: nat, pending: multiset<Task>, t: Tenant, n: NotifyId)
    requires k <= |ms|
  {
    && (Added(ms, k, t, n) ==> Sent(ms, k, t, n))
    && pending[AddTotal(t, n)] == if Sent(ms, k, t, n) && !Added(ms, k, t, n) then 1 else 0
  }

  lemma FreshSend(s: State, e: Event, t: Tenant, n: NotifyId)
    requires TablesOk(s) && Enabled(s, e) && Sends(Request(e), t, n)
    ensures n !in BroadcastIds(s.db, t)
  {
  }

  lemma WaitsNext(ms: seq<Move>, hist: seq<Async>, k: nat, t: Tenant, n: NotifyId)
    requires SparingRun(ms, hist, n) && k < |ms| && Waits(ms, k, hist[k].pending, t, n)
    ensures Waits(ms, k + 1, hist[k + 1].pending, t, n)
  {
    var a, m := hist[k], ms[k];
    SentNext(ms, k, t, "", n);
    AddedNext(ms, k, t, "", n);
    PendingNext(a, m, AddTotal(t, n));
    if m.Request? {
      TaskIff(a.s.db, m.e, t, "", n);
      if Sends(m, t, n) {
        SentIff(ms, hist, k, t, n);
        TablesStayOk(ms, hist, k);
        FreshSend(a.s, m.e, t, n);
      }
    }
  }

  /** The add task of a broadcast waits, once, from the commit until it runs. */
  lemma {:induction false} AddWaits(ms: seq<Move>, hist: seq<Async>, k: nat, t: Tenant, n: NotifyId)
    requires SparingRun(ms, hist, n) && k <= |ms|
    ensures Waits(ms, k, hist[k].pending, t, n)
    decreases k
  {
    if k > 0 {
      AddWaits(ms, hist, k - 1, t, n);
      WaitsNext(ms, hist, k - 1, t, n);
    }
  }

  /** The task of a single operation waits from the commit until it runs. */
  lemma {:induction false} OpWaits(ms: seq<Move>, hist: seq<Async>, k: nat, t: Tenant, u: User, n: NotifyId)
    requires SparingRun(ms, hist, n) && k <= |ms|
    ensures MarkOp(t, u, n) in hist[k].pending || OpRan(ms, k, t, u, n) <==> Acted(ms, k, t, u, n)
    decreases k
  {
    if k > 0 {
      var j, m := k - 1, ms[k - 1];
      OpWaits(ms, hist, j, t, u, n);
      TablesByMoves(ms, hist, j, t, u, n);
      SentNext(ms, j, t, u, n);
      AddedNext(ms, j, t, u, n);
      PendingNext(hist[j], m, MarkOp(t, u, n));
      if m.Request? {
        TaskIff(hist[j].s.db, m.e, t, u, n);
      }
    }
  }

  // ---- The sets ----

  lemma EnteredNext(ms: seq<Move>, hist: seq<Async>, k: nat, t: Tenant, n: NotifyId)
    requires k < |ms| && |hist| == |ms| + 1
    ensures Entered(ms, hist, k + 1, t, n) <==> Entered(ms, hist, k, t, n) || Enters(ms, hist, k, t, n)
  {
  }

  lemma SyncedNext(ms: seq<Move>, hist: seq<Async>, k: nat, t: Tenant, u: User, n: NotifyId)
    requires k < |ms| && |hist| == |ms| + 1
    ensures Synced(ms, hist, k + 1, t, u, n)
            <==> Synced(ms, hist, k, t, u, n) || (ms[k] == RunTask(SyncAll(t, u)) && Entered(ms, hist, k, t, n))
  {
  }

  lemma SingletonIff(total: set<NotifyId>, id: NotifyId)
    ensures |total + {id}| == 1 <==> total <= {id}
  {
    if total <= {id} {
      assert total + {id} == {id};
    } else {
      var other :| other in total && other != id;
      assert |{other, id}| == 2;
      SubsetSize({other, id}, total + {id});
    }
  }

  /** A task rewrites the total set from the tables, adds one member, or leaves it alone. */
  lemma AnyTaskTotal(db: DB, c: Cache, task: Task, t: Tenant)
    ensures Members(Exec(db, c, task), TotalKey(t))
            == if Rebuilds(c, task, t) then BroadcastIds(db, t)
               else Members(c, TotalKey(t)) + if task.AddTotal? && task.tenant == t then {task.id} else {}
  {
    if task.TakeSnapshot? {
      SnapshotSets(db, c, task.infos, TotalKey(t));
    } else {
      TaskTotal(db, c, task, t);
      if task.AddTotal? {
        SingletonIff(Members(c, TotalKey(t)), task.id);
      }
    }
  }

  lemma EnteredWasSent(ms: seq<Move>, hist: seq<Async>, k: nat, t: Tenant, n: NotifyId)
    requires SparingRun(ms, hist, n) && k <= |ms| && Entered(ms, hist, k, t, n)
    ensures Sent(ms, k, t, n)
  {
    var i :| 0 <= i < k && Enters(ms, hist, i, t, n);
    if ms[i] == RunTask(AddTotal(t, n)) {
      AddWaits(ms, hist, k, t, n);
    } else {
      var j :| 0 <= j < i && Sends(ms[j], t, n);
    }
  }

  lemma TotalStep(ms: seq<Move>, hist: seq<Async>, k: nat, t: Tenant, n: NotifyId)
    requires SparingRun(ms, hist, n) && k < |ms|
    requires n in Members(hist[k].s.cache, TotalKey(t)) <==> Entered(ms, hist, k, t, n)
    ensures n in Members(hist[k + 1].s.cache, TotalKey(t)) <==> Entered(ms, hist, k + 1, t, n)
  {
    EnteredNext(ms, hist, k, t, n);
    if ms[k].RunTask? {
      AnyTaskTotal(hist[k].s.db, hist[k].s.cache, ms[k].task, t);
      SentIff(ms, hist, k, t, n);
      AddWaits(ms, hist, k, t, n);
      if Entered(ms, hist, k, t, n) {
        EnteredWasSent(ms, hist, k, t, n);
      }
    }
  }

  /** Of a broadcast that no cleanup removes, the total set holds it exactly once it has entered. */
  lemma {:induction false} TotalByMoves(ms: seq<Move>, hist: seq<Async>, k: nat, t: Tenant, n: NotifyId)
    requires SparingRun(ms, hist, n) && k <= |ms|
    ensures n in Members(hist[k].s.cache, TotalKey(t)) <==> Entered(ms, hist, k, t, n)
    decreases k
  {
    if k > 0 {
      TotalByMoves(ms, hist, k - 1, t, n);
      TotalStep(ms, hist, k - 1, t, n);
    }
  }

  // ---- Without cleanup ----

  predicate AnyAdded(ms: seq<Move>, k: nat, t: Tenant)
    requires k <= |ms|
  {
    exists j | 0 <= j < k :: Adds(ms[j], t)
  }

  ghost predicate NoSnapshots(ms: seq<Move>) {
    forall m | m in ms :: m.RunTask? ==> !m.task.TakeSnapshot?
  }

  lemma NothingEntered(ms: seq<Move>, hist: seq<Async>, k: nat, t: Tenant, n: NotifyId)
    requires k <= |ms| && |hist| == |ms| + 1 && NoSnapshots(ms) && !AnyAdded(ms, k, t)
    ensures !Entered(ms, hist, k, t, n)
  {
    forall i | 0 <= i < k
      ensures !Enters(ms, hist, i, t, n)
    {
      assert ms[i] in ms && !Adds(ms[i], t);
    }
  }

  /**
   In a run without cleanup the rewriting task is the tenant's first add: what the total set holds
   then depends on nothing but the order of the moves.
   */
  lemma FirstAddRefreshes(ms: seq<Move>, hist: seq<Async>, i: nat, t: Tenant)
    requires Run(ms, hist) && NoSnapshots(ms) && (forall m | m in ms :: m.Request? ==> !m.e.op.Cleanup?)
    requires i < |ms| && Adds(ms[i], t)
    ensures Refreshes(ms, hist, i, t) <==> !AnyAdded(ms, i, t)
  {
    var total, id := Members(hist[i].s.cache, TotalKey(t)), ms[i].task.id;
    if AnyAdded(ms, i, t) {
      var j :| 0 <= j < i && Adds(ms[j], t);
      var other := ms[j].task.id;
      assert SparingRun(ms, hist, other) && SparingRun(ms, hist, id);
      assert ms[j] == RunTask(AddTotal(t, other)) && Enters(ms, hist, j, t, other);
      TotalByMoves(ms, hist, i, t, other);
      AddWaits(ms, hist, i, t, id);
      assert other in total && other != id;
    } else {
      forall n
        ensures n !in total
      {
        assert SparingRun(ms, hist, n);
        NothingEntered(ms, hist, i, t, n);
        TotalByMoves(ms, hist, i, t, n);
      }
    }
  }

  // ---- The operated sets ----

  lemma AnyTaskOp(db: DB, c: Cache, task: Task, t: Tenant, u: User)
    ensures Members(Exec(db, c, task), OpKey(t, u))
            == Members(c, OpKey(t, u)) + (if task == SyncAll(t, u) then Members(c, TotalKey(t))
                                          else if task.MarkOp? && task.tenant == t && task.user == u then {task.id} else {})
  {
    if task.TakeSnapshot? {
      SnapshotSets(db, c, task.infos, OpKey(t, u));
    } else {
      TaskOp(db, c, task, t, u);
    }
  }

  lemma OpStep(ms: seq<Move>, hist: seq<Async>, k: nat, t: Tenant, u: User, n: NotifyId)
    requires SparingRun(ms, hist, n) && k < |ms|
    requires n in Members(hist[k].s.cache, OpKey(t, u)) <==> OpRan(ms, k, t, u, n) || Synced(ms, hist, k, t, u, n)
    ensures n in Members(hist[k + 1].s.cache, OpKey(t, u)) <==> OpRan(ms, k + 1, t, u, n) || Synced(ms, hist, k + 1, t, u, n)
  {
    AddedNext(ms, k, t, u, n);
    SyncedNext(ms, hist, k, t, u, n);
    if ms[k].RunTask? {
      TotalByMoves(ms, hist, k, t, n);
      AnyTaskOp(hist[k].s.db, hist[k].s.cache, ms[k].task, t, u);
    }
  }

  /** A user's operated set holds exactly the broadcasts marked by their own task or synced. */
  lemma {:induction false} OpByMoves(ms: seq<Move>, hist: seq<Async>, k: nat, t: Tenant, u: User, n: NotifyId)
    requires SparingRun(ms, hist, n) && k <= |ms|
    ensures n in Members(hist[k].s.cache, OpKey(t, u)) <==> OpRan(ms, k, t, u, n) || Synced(ms, hist, k, t, u, n)
    decreases k
  {
    if k > 0 {
      OpByMoves(ms, hist, k - 1, t, u, n);
      OpStep(ms, hist, k - 1, t, u, n);
    }
  }

  // ---- Agreement ----

  /** Settled by a sweep if and only if put into the operated set by a sweep's task, unless acted on singly. */
  predicate InStep(ms: seq<Move>, hist: seq<Async>, t: Tenant, u: User, n: NotifyId)
    requires |hist| == |ms| + 1
  {
    Acted(ms, |ms|, t, u, n) || (Swept(ms, |ms|, t, u, n) <==> Synced(ms, hist, |ms|, t, u, n))
  }

  ghost predicate Gone(a: Async, n: NotifyId) {
    n in a.s.ids && n !in a.s.db.records
  }

  lemma GoneNext(ms: seq<Move>, hist: seq<Async>, k: nat, n: NotifyId)
    requires Run(ms, hist) && k < |ms| && Gone(hist[k], n)
    ensures Gone(hist[k + 1], n)
  {
    if ms[k].Request? && n in Commit(hist[k].s.db, ms[k].e).records {
      CommitRecords(hist[k].s.db, ms[k].e, n);
    }
  }

  lemma {:induction false} GoneForGood(ms: seq<Move>, hist: seq<Async>, i: nat, k: nat, n: NotifyId)
    requires Run(ms, hist) && i <= k <= |ms| && Gone(hist[i], n)
    ensures Gone(hist[k], n)
    decreases k
  {
    if i < k {
      GoneForGood(ms, hist, i, k - 1, n);
      GoneNext(ms, hist, k - 1, n);
    }
  }

  lemma CleanupRemoves(ms: seq<Move>, hist: seq<Async>, k: nat, n: NotifyId)
    requires Run(ms, hist) && k < |ms| && !Spares(ms[k], n)
    ensures Gone(hist[k + 1], n)
  {
    TablesStayOk(ms, hist, k);
    assert n in ExpiredIds(hist[k].s.db, ms[k].e.at);
  }

  /** No cleanup of the run has removed what is still there at its end. */
  lemma LiveIsSpared(ms: seq<Move>, hist: seq<Async>, n: NotifyId)
    requires Run(ms, hist) && n in hist[|ms|].s.db.records
    ensures SparingRun(ms, hist, n)
  {
    forall m | m in ms
      ensures Spares(m, n)
    {
      var k :| 0 <= k < |ms| && ms[k] == m;
      if !Spares(m, n) {
        CleanupRemoves(ms, hist, k, n);
        GoneForGood(ms, hist, k + 1, |ms|, n);
      }
    }
  }

  lemma BroadcastAtEnd(ms: seq<Move>, hist: seq<Async>, t: Tenant, u: User, n: NotifyId)
    requires SparingRun(ms, hist, n) && hist[|ms|].pending == multiset{} && n in BroadcastIds(hist[|ms|].s.db, t)
    ensures n in Members(hist[|ms|].s.cache, TotalKey(t))
    ensures n in Members(hist[|ms|].s.cache, OpKey(t, u)) <==> Acted(ms, |ms|, t, u, n) || Synced(ms, hist, |ms|, t, u, n)
    ensures Settled(hist[|ms|].s.db, n, u) <==> Acted(ms, |ms|, t, u, n) || Swept(ms, |ms|, t, u, n)
  {
    var k := |ms|;
    TablesByMoves(ms, hist, k, t, u, n);
    AddWaits(ms, hist, k, t, n);
    AddedEnters(ms, hist, k, t, n);
    TotalByMoves(ms, hist, k, t, n);
    OpWaits(ms, hist, k, t, u, n);
    OpByMoves(ms, hist, k, t, u, n);
  }

  lemma AddedEnters(ms: seq<Move>, hist: seq<Async>, k: nat, t: Tenant, n: NotifyId)
    requires k <= |ms| && |hist| == |ms| + 1 && Added(ms, k, t, n)
    ensures Entered(ms, hist, k, t, n)
  {
    var j :| 0 <= j < k && ms[j] == RunTask(AddTotal(t, n));
    assert Enters(ms, hist, j, t, n);
  }

  /** A notification that is still there and in a tenant's total set is a broadcast of the tenant. */
  lemma OnlyBroadcasts(ms: seq<Move>, hist: seq<Async>, t: Tenant, n: NotifyId)
    requires SparingRun(ms, hist, n) && n in Members(hist[|ms|].s.cache, TotalKey(t))
    ensures n in BroadcastIds(hist[|ms|].s.db, t)
  {
    TotalByMoves(ms, hist, |ms|, t, n);
    EnteredWasSent(ms, hist, |ms|, t, n);
    SentIff(ms, hist, |ms|, t, n);
  }

  /** What the two sides say of one notification that is still there. */
  lemma LiveAgreesIff(ms: seq<Move>, hist: seq<Async>, t: Tenant, u: User, n: NotifyId)
    requires Run(ms, hist) && hist[|ms|].pending == multiset{} && n in hist[|ms|].s.db.records
    ensures var s := hist[|ms|].s;
            var cached, queried := SentByTenant(s.db, CachedUnread(s.cache, t, u)), QueriedUnread(s.db, t, u);
            if n in SentByTenant(s.db, BroadcastIds(s.db, t)) then (n in cached <==> n in queried) <==> InStep(ms, hist, t, u, n)
            else n !in cached && n !in queried
  {
    var s := hist[|ms|].s;
    LiveIsSpared(ms, hist, n);
    TablesStayOk(ms, hist, |ms|);
    QueriedIffUnsettled(s.db, t, u, n);
    if n in BroadcastIds(s.db, t) {
      BroadcastAtEnd(ms, hist, t, u, n);
    } else if n in Members(s.cache, TotalKey(t)) {
      OnlyBroadcasts(ms, hist, t, n);
    }
  }

  /**
   With every task done, cached and queried unread broadcasts of a user agree if and only if for each
   broadcast of the tenant that the user did not act on singly: the user swept after it was sent
   exactly when one of the user's sweep tasks ran after it had entered the total set.
   */
  lemma LateSweepsAgreeIff(ms: seq<Move>, hist: seq<Async>, t: Tenant, u: User)
    requires Run(ms, hist) && hist[|ms|].pending == multiset{}
    ensures var s := hist[|ms|].s;
            SentByTenant(s.db, CachedUnread(s.cache, t, u)) == QueriedUnread(s.db, t, u)
            <==> forall n | n in SentByTenant(s.db, BroadcastIds(s.db, t)) :: InStep(ms, hist, t, u, n)
  {
    var s := hist[|ms|].s;
    var cached, queried := SentByTenant(s.db, CachedUnread(s.cache, t, u)), QueriedUnread(s.db, t, u);
    TablesStayOk(ms, hist, |ms|);
    forall n
      ensures n in cached || n in queried ==> n in SentByTenant(s.db, BroadcastIds(s.db, t))
      ensures n in SentByTenant(s.db, BroadcastIds(s.db, t)) ==> ((n in cached <==> n in queried) <==> InStep(ms, hist, t, u, n))
    {
      if n in s.db.records {
        LiveAgreesIff(ms, hist, t, u, n);
      } else {
        QueriedIffUnsettled(s.db, t, u, n);
      }
    }
  }

  // ---- One sweep task ----

  /** The operated set claims nothing unsettled, and what it misses still has a task waiting. */
  ghost predicate OpRight(a: Async, t: Tenant, u: User) {
    forall n | n in BroadcastIds(a.s.db, t) ::
      && (n in Members(a.s.cache, OpKey(t, u)) ==> Settled(a.s.db, n, u))
      && (Settled(a.s.db, n, u) ==> n in Members(a.s.cache, OpKey(t, u)) || MarkOp(t, u, n) in a.pending || SyncAll(t, u) in a.pending)
  }

  /** Settled by a watermark only, and no other task will put it into the operated set. */
  ghost predicate OwedToSync(a: Async, t: Tenant, u: User, n: NotifyId) {
    && n in BroadcastIds(a.s.db, t)
    && Settled(a.s.db, n, u)
    && n !in Members(a.s.cache, OpKey(t, u))
    && MarkOp(t, u, n) !in a.pending
    && a.pending[SyncAll(t, u)] == 1
  }

  /**
   A sweep task keeps the operated set right if and only if everything in the total set is settled
   and everything that only this task can still deliver has entered the total set.
   */
  lemma SyncKeepsOpIff(a: Async, t: Tenant, u: User)
    requires OpRight(a, t, u) && SyncAll(t, u) in a.pending && Members(a.s.cache, TotalKey(t)) <= BroadcastIds(a.s.db, t)
    ensures OpRight(Next(a, RunTask(SyncAll(t, u))), t, u)
            <==> && (forall n | n in Members(a.s.cache, TotalKey(t)) :: Settled(a.s.db, n, u))
                 && (forall n | OwedToSync(a, t, u, n) :: n in Members(a.s.cache, TotalKey(t)))
  {
    var a' := Next(a, RunTask(SyncAll(t, u)));
    assert a'.s.db == a.s.db;
    forall n | n in BroadcastIds(a.s.db, t)
      ensures n in Members(a'.s.cache, OpKey(t, u)) <==> n in Members(a.s.cache, OpKey(t, u)) || n in Members(a.s.cache, TotalKey(t))
      ensures MarkOp(t, u, n) in a'.pending <==> MarkOp(t, u, n) in a.pending
    {
      TaskOp(a.s.db, a.s.cache, SyncAll(t, u), t, u);
      PendingNext(a, RunTask(SyncAll(t, u)), MarkOp(t, u, n));
    }
    PendingNext(a, RunTask(SyncAll(t, u)), SyncAll(t, u));
  }

  // ---- Two runs out of step ----

  const DRAFT := Draft("t", FromTenant, Broadcast, [], None)

  const SWEEP_FIRST := [Request(Event(1, TenantRead("t", "1"))), Request(Event(2, Send(7, DRAFT, [])))]
  const SEND_FIRST := [Request(Event(1, Send(7, DRAFT, []))), Request(Event(2, TenantRead("t", "1")))]
  const BOTH := multiset{SyncAll("t", "1"), AddTotal("t", 7)}

  lemma SendMove(a: Async, at: Time) returns (a': Async)
    requires a.s.clock < at && a.s.ids == {} && a.s.db.records == map[]
    ensures var m := Request(Event(at, Send(7, DRAFT, []))); CanMove(a, m) && Next(a, m) == a'
    ensures a'.pending == a.pending + multiset{AddTotal("t", 7)}
    ensures a'.s.clock == at && a'.s.db.records == map[7 := RecordOf(DRAFT, at)]
  {
    a' := Next(a, Request(Event(at, Send(7, DRAFT, []))));
  }

  lemma SweepMove(a: Async, at: Time) returns (a': Async)
    requires a.s.clock < at
    ensures var m := Request(Event(at, TenantRead("t", "1"))); CanMove(a, m) && Next(a, m) == a'
    ensures a'.pending == a.pending + multiset{SyncAll("t", "1")}
    ensures a'.s.clock == at && a'.s.ids == a.s.ids && a'.s.db.records == a.s.db.records
  {
    a' := Next(a, Request(Event(at, TenantRead("t", "1"))));
  }

  lemma SweepThenSend() returns (hist: seq<Async>)
    ensures Run(SWEEP_FIRST, hist) && hist[2].s.db.records == map[7 := RecordOf(DRAFT, 2)] && hist[2].pending == BOTH
  {
    var a1 := SweepMove(START, 1);
    var a2 := SendMove(a1, 2);
    TwoMoves([], [START], SWEEP_FIRST[0], a1, SWEEP_FIRST[1], a2);
    assert [] + [SWEEP_FIRST[0]] + [SWEEP_FIRST[1]] == SWEEP_FIRST;
    hist := [START] + [a1] + [a2];
  }

  lemma SendThenSweep() returns (hist: seq<Async>)
    ensures Run(SEND_FIRST, hist) && hist[2].s.db.records == map[7 := RecordOf(DRAFT, 1)] && hist[2].pending == BOTH
  {
    var a1 := SendMove(START, 1);
    var a2 := SweepMove(a1, 2);
    TwoMoves([], [START], SEND_FIRST[0], a1, SEND_FIRST[1], a2);
    assert [] + [SEND_FIRST[0]] + [SEND_FIRST[1]] == SEND_FIRST;
    hist := [START] + [a1] + [a2];
  }

  /** Both waiting tasks run, `x` before `y`. */
  lemma RunBoth(ms: seq<Move>, hist: seq<Async>, x: Task, y: Task) returns (hist': seq<Async>)
    requires Run(ms, hist) && |ms| == 2 && hist[2].pending == multiset{x, y}
    ensures Run(ms + [RunTask(x)] + [RunTask(y)], hist') && hist'[4].pending == multiset{}
    ensures hist'[4].s.db == hist[2].s.db
  {
    var a3 := Next(hist[2], RunTask(x));
    assert a3.pending == multiset{y};
    var a4 := Next(a3, RunTask(y));
    TwoMoves(ms, hist, RunTask(x), a3, RunTask(y), a4);
    hist' := hist + [a3] + [a4];
  }

  lemma OutOfStep(ms: seq<Move>, hist: seq<Async>, at: Time)
    requires Run(ms, hist) && hist[|ms|].pending == multiset{} && hist[|ms|].s.db.records == map[7 := RecordOf(DRAFT, at)]
    requires !InStep(ms, hist, "t", "1", 7)
    ensures var s := hist[|ms|].s; SentByTenant(s.db, CachedUnread(s.cache, "t", "1")) != QueriedUnread(s.db, "t", "1")
  {
    LateSweepsAgreeIff(ms, hist, "t", "1");
    assert 7 in SentByTenant(hist[|ms|].s.db, BroadcastIds(hist[|ms|].s.db, "t"));
  }

  const HIDING := [SWEEP_FIRST[0], SWEEP_FIRST[1], RunTask(AddTotal("t", 7)), RunTask(SyncAll("t", "1"))]
  const RETURNING := [SEND_FIRST[0], SEND_FIRST[1], RunTask(SyncAll("t", "1")), RunTask(AddTotal("t", 7))]

  lemma HidingOutOfStep(hist: seq<Async>)
    requires |hist| == 5
    ensures !InStep(HIDING, hist, "t", "1", 7)
  {
    assert Enters(HIDING, hist, 2, "t", 7) && HIDING[3] == RunTask(SyncAll("t", "1"));
    assert Synced(HIDING, hist, 4, "t", "1", 7);
  }

  lemma ReturningOutOfStep(hist: seq<Async>)
    requires |hist| == 5
    ensures !InStep(RETURNING, hist, "t", "1", 7)
  {
    assert Sends(RETURNING[0], "t", 7) && Sweeps(RETURNING[1], "t", "1");
    assert Swept(RETURNING, 4, "t", "1", 7);
  }

  /** A sweep, then a broadcast, its add and the sweep's task: the new broadcast is hidden. */
  lemma HiddenBroadcastRun() returns (hist: seq<Async>)
    ensures Run(HIDING, hist) && hist[4].pending == multiset{}
    ensures var s := hist[4].s; SentByTenant(s.db, CachedUnread(s.cache, "t", "1")) != QueriedUnread(s.db, "t", "1")
  {
    var front := SweepThenSend();
    hist := RunBoth(SWEEP_FIRST, front, AddTotal("t", 7), SyncAll("t", "1"));
    assert SWEEP_FIRST + [RunTask(AddTotal("t", 7))] + [RunTask(SyncAll("t", "1"))] == HIDING;
    HidingOutOfStep(hist);
    OutOfStep(HIDING, hist, 2);
  }

  /** A broadcast, then a sweep whose task runs before the broadcast's add: the read broadcast is counted. */
  lemma ReturningBroadcastRun() returns (hist: seq<Async>)
    ensures Run(RETURNING, hist) && hist[4].pending == multiset{}
    ensures var s := hist[4].s; SentByTenant(s.db, CachedUnread(s.cache, "t", "1")) != QueriedUnread(s.db, "t", "1")
  {
    var front := SendThenSweep();
    hist := RunBoth(SEND_FIRST, front, SyncAll("t", "1"), AddTotal("t", 7));
    assert SEND_FIRST + [RunTask(SyncAll("t", "1"))] + [RunTask(AddTotal("t", 7))] == RETURNING;
    ReturningOutOfStep(hist);
    OutOfStep(RETURNING, hist, 1);
  }
}
