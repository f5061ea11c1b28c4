/**
 The same requests with their cache tasks detached: a task waits in a bag and may run
 after any number of later commits and other tasks, in any order. A task is one atomic step.
 */
module Detached {
  import opened Types
  import opened Keys
  import opened Storage
  import opened UnreadCache
  import opened Protocol
  import opened BroadcastAgreement

  datatype Async = Async(s: State, pending: multiset<Task>)

  datatype Move = Request(e: Event) | RunTask(task: Task)

  const START := Async(INITIAL, multiset{})

  ghost predicate CanMove(a: Async, m: Move) {
    match m
    case Request(e) => Enabled(a.s, e)
    case RunTask(task) => task in a.pending
  }

  function Next(a: Async, m: Move): Async {
    match m
    case Request(e) =>
      Async(CommitTo(a.s, e), a.pending + match TaskFor(a.s.db, e) case None => multiset{} case Some(task) => multiset{task})
    case RunTask(task) =>
      Async(a.s.(cache := Exec(a.s.db, a.s.cache, task)), a.pending - multiset{task})
  }

  /** A run from the empty hub: its moves and the states before and after each of them. */
  ghost predicate Run(ms: seq<Move>, hist: seq<Async>) {
    && |hist| == |ms| + 1
    && hist[0] == START
    && forall k {:trigger hist[k], ms[k]} | 0 <= k < |ms| :: CanMove(hist[k], ms[k]) && hist[k + 1] == Next(hist[k], ms[k])
  }

  lemma AppendMove(ms: seq<Move>, hist: seq<Async>, m: Move, a: Async)
    requires Run(ms, hist) && CanMove(hist[|ms|], m) && Next(hist[|ms|], m) == a
    ensures Run(ms + [m], hist + [a])
  {
    var ms', hist' := ms + [m], hist + [a];
    forall k | 0 <= k < |ms'|
      ensures CanMove(hist'[k], ms'[k]) && hist'[k + 1] == Next(hist'[k], ms'[k])
    {
      if k < |ms| {
        assert ms'[k] == ms[k] && hist'[k] == hist[k] && hist'[k + 1] == hist[k + 1];
      }
    }
  }

  lemma TwoMoves(ms: seq<Move>, hist: seq<Async>, x: Move, a1: Async, y: Move, a2: Async)
    requires Run(ms, hist) && CanMove(hist[|ms|], x) && Next(hist[|ms|], x) == a1 && CanMove(a1, y) && Next(a1, y) == a2
    ensures Run(ms + [x] + [y], hist + [a1] + [a2])
  {
    AppendMove(ms, hist, x, a1);
    AppendMove(ms + [x], hist + [a1], y, a2);
  }

  /** Some run leads from the empty hub through `ms` to `a`. */
  ghost predicate Leads(ms: seq<Move>, a: Async) {
    exists hist :: Run(ms, hist) && hist[|ms|] == a
  }

  lemma LeadsNext(ms: seq<Move>, a: Async, m: Move, a': Async)
    requires Leads(ms, a) && CanMove(a, m) && Next(a, m) == a'
    ensures Leads(ms + [m], a')
  {
    var hist :| Run(ms, hist) && hist[|ms|] == a;
    AppendMove(ms, hist, m, a');
    assert (hist + [a'])[|ms + [m]|] == a';
  }

  // ---- Broadcast sets under detached tasks ----

  /** Sends and single operations only: no watermark moves. */
  predicate SendOrAct(m: Move) {
    m.Request? ==> m.e.op.Send? || m.e.op.Act?
  }

  /** A broadcast missing from the total set still has its task waiting. */
  ghost predicate TotalLag(db: DB, c: Cache, pending: multiset<Task>, t: Tenant, n: NotifyId) {
    && (n in Members(c, TotalKey(t)) ==> n in BroadcastIds(db, t))
    && (AddTotal(t, n) in pending ==> n in BroadcastIds(db, t))
    && (n in BroadcastIds(db, t) ==> n in Members(c, TotalKey(t)) || AddTotal(t, n) in pending)
  }

  /** The user has a row on this broadcast of this tenant. */
  ghost predicate Operated(db: DB, t: Tenant, u: User, n: NotifyId) {
    n in BroadcastIds(db, t) && RowsFor(db, u, n) != {}
  }

  ghost predicate OpLag(db: DB, c: Cache, pending: multiset<Task>, t: Tenant, u: User, n: NotifyId) {
    && (n in Members(c, OpKey(t, u)) ==> Operated(db, t, u, n))
    && (MarkOp(t, u, n) in pending ==> Operated(db, t, u, n))
    && (Operated(db, t, u, n) ==> n in Members(c, OpKey(t, u)) || MarkOp(t, u, n) in pending)
  }

  ghost predicate NoOneKey(a: Async) {
    && a.s.db.marks == map[]
    && forall task | task in a.pending :: !task.SyncAll? && !task.TakeSnapshot?
  }

  ghost predicate LagOk(a: Async) {
    && TablesOk(a.s)
    && NoOneKey(a)
    && (forall t, n :: TotalLag(a.s.db, a.s.cache, a.pending, t, n))
    && (forall t, u, n :: OpLag(a.s.db, a.s.cache, a.pending, t, u, n))
  }

  lemma CommitOperated(s: State, e: Event, t: Tenant, u: User, n: NotifyId)
    requires TablesOk(s) && Enabled(s, e) && (e.op.Send? || e.op.Act?)
    ensures n in BroadcastIds(Commit(s.db, e), t)
            <==> n in BroadcastIds(s.db, t) || TaskFor(s.db, e) == Some(AddTotal(t, n))
    ensures Operated(Commit(s.db, e), t, u, n)
            <==> Operated(s.db, t, u, n) || TaskFor(s.db, e) == Some(MarkOp(t, u, n))
  {
    if e.op.Send? {
      if ValidDraft(e.op.draft) {
        var r := RecordOf(e.op.draft, e.at);
        InsertTotals(s.db, e.op.id, r, e.op.rowIds, t);
        InsertRowsKeys(s.db.rows, e.op.id, r.targetIds, e.op.rowIds);
        InsertOperated(s.db, e.op.id, r, e.op.rowIds, t, u, n);
      }
    } else if CheckAccess(s.db, e.op.tenant, e.op.user, e.op.id).Granted? {
      UpsertRows(s.db, e.op.user, e.op.id, e.op.next, e.op.newRow, u, n);
      var db' := Upsert(s.db, e.op.user, e.op.id, e.op.next, e.op.newRow);
      assert BroadcastIds(db', t) == BroadcastIds(s.db, t);
    }
  }

  lemma InsertOperated(db: DB, id: NotifyId, r: Record, rowIds: seq<RowId>, t: Tenant, u: User, n: NotifyId)
    requires Fitting(db) && id !in db.records && |rowIds| == |r.targetIds| && forall k | k in rowIds :: k !in db.rows
    requires r.target == Broadcast ==> r.targetIds == []
    ensures Operated(InsertRecord(db, id, r, rowIds), t, u, n) == Operated(db, t, u, n)
  {
    var db' := InsertRecord(db, id, r, rowIds);
    InsertTotals(db, id, r, rowIds, t);
    InsertRowsKeys(db.rows, id, r.targetIds, rowIds);
    if n == id {
      if r.target == Broadcast {
        assert db'.rows == db.rows;
        assert forall k | k in db.rows :: RowFits(db, db.rows[k]);
        assert RowsFor(db', u, n) == {};
      }
    } else {
      assert RowsFor(db', u, n) == RowsFor(db, u, n);
    }
  }

  lemma RequestKeepsLag(a: Async, e: Event)
    requires LagOk(a) && Enabled(a.s, e) && (e.op.Send? || e.op.Act?)
    ensures LagOk(Next(a, Request(e)))
  {
    CommitKeepsTables(a.s, e);
    var a' := Next(a, Request(e));
    forall t, n
      ensures TotalLag(a'.s.db, a'.s.cache, a'.pending, t, n)
    {
      assert TotalLag(a.s.db, a.s.cache, a.pending, t, n);
      CommitOperated(a.s, e, t, "", n);
    }
    forall t, u, n
      ensures OpLag(a'.s.db, a'.s.cache, a'.pending, t, u, n)
    {
      assert OpLag(a.s.db, a.s.cache, a.pending, t, u, n);
      CommitOperated(a.s, e, t, u, n);
    }
  }

  /** Counter tasks touch no set. */
  lemma CounterTaskSets(db: DB, c: Cache, task: Task)
    requires task.CountUsers? || task.Decrement? || task.ClearPersonal?
    ensures Exec(db, c, task).sets == c.sets
  {
    if task.CountUsers? {
      CountSendSets(db, c, task.tenant, task.users, task.sender);
    }
  }

  lemma AddTotalMembers(db: DB, c: Cache, tenant: Tenant, id: NotifyId, t: Tenant)
    ensures Members(AddBroadcast(db, c, tenant, id), TotalKey(t))
            == if tenant != t then Members(c, TotalKey(t))
               else if |Members(c, TotalKey(t)) + {id}| == 1 then BroadcastIds(db, t)
               else Members(c, TotalKey(t)) + {id}
  {
    assert Members(AddMember(c, TotalKey(tenant), id), TotalKey(tenant)) == Members(c, TotalKey(tenant)) + {id};
  }

  /** A task adds one member, rebuilds the total set, or leaves it alone. */
  lemma TaskTotal(db: DB, c: Cache, task: Task, t: Tenant)
    requires !task.TakeSnapshot?
    ensures Members(Exec(db, c, task), TotalKey(t))
            == if !(task.AddTotal? && task.tenant == t) then Members(c, TotalKey(t))
               else if |Members(c, TotalKey(t)) + {task.id}| == 1 then BroadcastIds(db, t)
               else Members(c, TotalKey(t)) + {task.id}
  {
    match task
    case AddTotal(tenant, id) => AddTotalMembers(db, c, tenant, id, t);
    case MarkOp(_, _, _) =>
    case SyncAll(_, _) =>
    case _ => CounterTaskSets(db, c, task);
  }

  /** A task marks one broadcast, merges the total set into a user's operated set, or leaves it alone. */
  lemma TaskOp(db: DB, c: Cache, task: Task, t: Tenant, u: User)
    requires !task.TakeSnapshot?
    ensures Members(Exec(db, c, task), OpKey(t, u))
            == Members(c, OpKey(t, u)) + (if task == SyncAll(t, u) then Members(c, TotalKey(t))
                                          else if task.MarkOp? && task.tenant == t && task.user == u then {task.id} else {})
  {
    match task
    case AddTotal(tenant, id) => AddBroadcastEither(db, c, tenant, id, OpKey(t, u));
    case MarkOp(_, _, _) =>
    case SyncAll(_, _) =>
    case _ => CounterTaskSets(db, c, task);
  }

  lemma TaskKeepsTotalLag(db: DB, c: Cache, pending: multiset<Task>, task: Task, t: Tenant, n: NotifyId)
    requires task in pending && !task.TakeSnapshot? && (forall n :: TotalLag(db, c, pending, t, n))
    ensures TotalLag(db, Exec(db, c, task), pending - multiset{task}, t, n)
  {
    assert TotalLag(db, c, pending, t, n);
    TaskTotal(db, c, task, t);
    assert task.AddTotal? && task.tenant == t ==> TotalLag(db, c, pending, t, task.id);
  }

  lemma TaskKeepsOpLag(db: DB, c: Cache, pending: multiset<Task>, task: Task, t: Tenant, u: User, n: NotifyId)
    requires task in pending && !task.SyncAll? && !task.TakeSnapshot? && OpLag(db, c, pending, t, u, n)
    ensures OpLag(db, Exec(db, c, task), pending - multiset{task}, t, u, n)
  {
    TaskOp(db, c, task, t, u);
  }

  lemma TaskKeepsLag(a: Async, task: Task)
    requires LagOk(a) && task in a.pending
    ensures LagOk(Next(a, RunTask(task)))
  {
    var a' := Next(a, RunTask(task));
    assert forall x :: x in a'.pending ==> x in a.pending;
    forall t, n
      ensures TotalLag(a'.s.db, a'.s.cache, a'.pending, t, n)
    {
      TaskKeepsTotalLag(a.s.db, a.s.cache, a.pending, task, t, n);
    }
    forall t, u, n
      ensures OpLag(a'.s.db, a'.s.cache, a'.pending, t, u, n)
    {
      assert OpLag(a.s.db, a.s.cache, a.pending, t, u, n);
      TaskKeepsOpLag(a.s.db, a.s.cache, a.pending, task, t, u, n);
    }
  }

  lemma {:induction false} MovesKeepLag(ms: seq<Move>, hist: seq<Async>, k: nat)
    requires Run(ms, hist) && k <= |ms| && forall m | m in ms :: SendOrAct(m)
    ensures LagOk(hist[k])
    decreases k
  {
    if k > 0 {
      MovesKeepLag(ms, hist, k - 1);
      assert SendOrAct(ms[k - 1]);
      match ms[k - 1] {
        case Request(e) => RequestKeepsLag(hist[k - 1], e);
        case RunTask(task) => TaskKeepsLag(hist[k - 1], task);
      }
    }
  }

  lemma LagEndsExact(a: Async)
    requires LagOk(a) && a.pending == multiset{}
    ensures TotalsExact(a.s.db, a.s.cache) && OpsExact(a.s.db, a.s.cache)
  {
    var db, c := a.s.db, a.s.cache;
    forall t
      ensures Members(c, TotalKey(t)) == BroadcastIds(db, t)
    {
      forall n
        ensures n in Members(c, TotalKey(t)) <==> n in BroadcastIds(db, t)
      {
        assert TotalLag(db, c, a.pending, t, n);
      }
    }
    forall n, u | IsBroadcast(db, n)
      ensures OpExact(db, c, n, u)
    {
      assert OpLag(db, c, a.pending, db.records[n].tenant, u, n);
    }
  }

  /**
   Sends and single operations with detached tasks in any order: once every task has run,
   total is the table's broadcasts, op is what rows settle, and the unread sets agree.
   */
  lemma DetachedBroadcastsAgree(ms: seq<Move>, hist: seq<Async>, tenant: Tenant, user: User)
    requires Run(ms, hist) && forall m | m in ms :: SendOrAct(m)
    requires hist[|ms|].pending == multiset{}
    ensures var s := hist[|ms|].s;
            && TotalsExact(s.db, s.cache)
            && OpsExact(s.db, s.cache)
            && SentByTenant(s.db, CachedUnread(s.cache, tenant, user)) == QueriedUnread(s.db, tenant, user)
  {
    MovesKeepLag(ms, hist, |ms|);
    LagEndsExact(hist[|ms|]);
    AgreementFromSets(hist[|ms|].s.db, hist[|ms|].s.cache, tenant, user);
  }
}
