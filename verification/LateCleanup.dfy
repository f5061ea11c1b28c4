/**
 The total set when cleanup too leaves its snapshot behind. An add task that runs after its
 broadcast has been removed puts it back; this module says when the total set ends exact.
 */
module LateCleanup {
  import opened Types
  import opened Keys
  import opened Storage
  import opened UnreadCache
  import opened Protocol
  import opened Detached
  import opened LateSync

  /** In the tenant's total set without being one of its broadcasts. */
  predicate Stale(a: Async, t: Tenant, n: NotifyId) {
    n in Members(a.s.cache, TotalKey(t)) && n !in BroadcastIds(a.s.db, t)
  }

  /** An add that finds its broadcast removed and other members in the total set. */
  predicate AddsLate(ms: seq<Move>, hist: seq<Async>, i: nat, t: Tenant)
    requires i < |ms| && |hist| == |ms| + 1
  {
    Adds(ms[i], t) && !Refreshes(ms, hist, i, t) && ms[i].task.id !in BroadcastIds(hist[i].s.db, t)
  }

  /** A cleanup that removes a broadcast from the tables while the total set holds it. */
  predicate Orphans(ms: seq<Move>, hist: seq<Async>, i: nat, t: Tenant, n: NotifyId)
    requires i < |ms| && |hist| == |ms| + 1
  {
    !Spares(ms[i], n) && n in BroadcastIds(hist[i].s.db, t) && n in Members(hist[i].s.cache, TotalKey(t))
  }

  predicate MakesStale(ms: seq<Move>, hist: seq<Async>, i: nat, t: Tenant, n: NotifyId)
    requires i < |ms| && |hist| == |ms| + 1
  {
    (AddsLate(ms, hist, i, t) && ms[i].task.id == n) || Orphans(ms, hist, i, t, n)
  }

  predicate RefreshedAfter(ms: seq<Move>, hist: seq<Async>, i: int, k: nat, t: Tenant)
    requires k <= |ms| && |hist| == |ms| + 1
  {
    exists j | i < j < k :: 0 <= j && Refreshes(ms, hist, j, t)
  }

  // ---- Only issued IDs reach the total set ----

  predicate Issued(a: Async, t: Tenant, n: NotifyId) {
    n in Members(a.s.cache, TotalKey(t)) || AddTotal(t, n) in a.pending ==> n in a.s.ids
  }

  lemma IssuedNext(ms: seq<Move>, hist: seq<Async>, k: nat, t: Tenant, n: NotifyId)
    requires Run(ms, hist) && k < |ms| && Issued(hist[k], t, n)
    ensures Issued(hist[k + 1], t, n)
  {
    var a, m := hist[k], ms[k];
    TablesStayOk(ms, hist, k);
    PendingNext(a, m, AddTotal(t, n));
    match m
    case Request(e) => TaskIff(a.s.db, e, t, "", n);
    case RunTask(task) => AnyTaskTotal(a.s.db, a.s.cache, task, t);
  }

  lemma {:induction false} AlwaysIssued(ms: seq<Move>, hist: seq<Async>, k: nat, t: Tenant, n: NotifyId)
    requires Run(ms, hist) && k <= |ms|
    ensures Issued(hist[k], t, n)
    decreases k
  {
    if k > 0 {
      AlwaysIssued(ms, hist, k - 1, t, n);
      IssuedNext(ms, hist, k - 1, t, n);
    }
  }

  // ---- How a member turns stale and stops being so ----

  lemma RequestStale(s: State, e: Event, t: Tenant, n: NotifyId)
    requires TablesOk(s) && Enabled(s, e) && n in s.ids
    ensures n in BroadcastIds(Commit(s.db, e), t) <==> n in BroadcastIds(s.db, t) && Spares(Request(e), n)
  {
    if e.op.Cleanup? && n in e.op.expired {
      assert n in ExpiredIds(s.db, e.at);
    } else {
      CommitBroadcasts(s, e, t, "", n);
      TaskIff(s.db, e, t, "", n);
    }
  }

  lemma StaleNext(ms: seq<Move>, hist: seq<Async>, k: nat, t: Tenant, n: NotifyId)
    requires Run(ms, hist) && k < |ms|
    ensures Stale(hist[k + 1], t, n) <==> MakesStale(ms, hist, k, t, n) || (Stale(hist[k], t, n) && !Refreshes(ms, hist, k, t))
  {
    var a, m := hist[k], ms[k];
    AlwaysIssued(ms, hist, k, t, n);
    match m
    case Request(e) =>
      TablesStayOk(ms, hist, k);
      if n in Members(a.s.cache, TotalKey(t)) {
        RequestStale(a.s, e, t, n);
      }
    case RunTask(task) => AnyTaskTotal(a.s.db, a.s.cache, task, t);
  }

  ghost predicate StaleByMoves(ms: seq<Move>, hist: seq<Async>, k: nat, t: Tenant, n: NotifyId)
    requires k <= |ms| && |hist| == |ms| + 1
  {
    exists i | 0 <= i < k :: MakesStale(ms, hist, i, t, n) && !RefreshedAfter(ms, hist, i, k, t)
  }

  lemma RefreshedNext(ms: seq<Move>, hist: seq<Async>, i: nat, k: nat, t: Tenant)
    requires i <= k < |ms| && |hist| == |ms| + 1
    ensures RefreshedAfter(ms, hist, i, k + 1, t) <==> RefreshedAfter(ms, hist, i, k, t) || (i < k && Refreshes(ms, hist, k, t))
  {
  }

  lemma StaleByNext(ms: seq<Move>, hist: seq<Async>, k: nat, t: Tenant, n: NotifyId)
    requires k < |ms| && |hist| == |ms| + 1
    ensures StaleByMoves(ms, hist, k + 1, t, n)
            <==> MakesStale(ms, hist, k, t, n) || (StaleByMoves(ms, hist, k, t, n) && !Refreshes(ms, hist, k, t))
  {
    if MakesStale(ms, hist, k, t, n) {
      RefreshedNext(ms, hist, k, k, t);
    }
    forall i | 0 <= i < k
      ensures RefreshedAfter(ms, hist, i, k + 1, t) <==> RefreshedAfter(ms, hist, i, k, t) || Refreshes(ms, hist, k, t)
    {
      RefreshedNext(ms, hist, i, k, t);
    }
  }

  /** A member is stale exactly when something made it so and no rewrite has run since. */
  lemma {:induction false} StaleIff(ms: seq<Move>, hist: seq<Async>, k: nat, t: Tenant, n: NotifyId)
    requires Run(ms, hist) && k <= |ms|
    ensures Stale(hist[k], t, n) <==> StaleByMoves(ms, hist, k, t, n)
    decreases k
  {
    if k > 0 {
      StaleIff(ms, hist, k - 1, t, n);
      StaleStep(ms, hist, k - 1, t, n);
    }
  }

  lemma StaleStep(ms: seq<Move>, hist: seq<Async>, k: nat, t: Tenant, n: NotifyId)
    requires Run(ms, hist) && k < |ms| && (Stale(hist[k], t, n) <==> StaleByMoves(ms, hist, k, t, n))
    ensures Stale(hist[k + 1], t, n) <==> StaleByMoves(ms, hist, k + 1, t, n)
  {
    StaleNext(ms, hist, k, t, n);
    StaleByNext(ms, hist, k, t, n);
  }

  // ---- The end of a run ----

  lemma WaitingNext(ms: seq<Move>, hist: seq<Async>, k: nat, task: Task)
    requires Run(ms, hist) && k < |ms| && task in hist[k].pending && ms[k] != RunTask(task)
    ensures task in hist[k + 1].pending
  {
    PendingNext(hist[k], ms[k], task);
  }

  /** With no task left at the end, every waiting task has run. */
  lemma {:induction false} WaitingRuns(ms: seq<Move>, hist: seq<Async>, k: nat, task: Task) returns (j: nat)
    requires Run(ms, hist) && k <= |ms| && task in hist[k].pending && hist[|ms|].pending == multiset{}
    ensures k <= j < |ms| && ms[j] == RunTask(task)
    decreases |ms| - k
  {
    if ms[k] == RunTask(task) {
      j := k;
    } else {
      WaitingNext(ms, hist, k, task);
      j := WaitingRuns(ms, hist, k + 1, task);
    }
  }

  lemma OrphanSnapshot(s: State, e: Event, t: Tenant, n: NotifyId)
    requires Enabled(s, e) && e.op.Cleanup? && n in e.op.expired && n in BroadcastIds(s.db, t)
    ensures TaskFor(s.db, e).Some? && TaskFor(s.db, e).value.TakeSnapshot?
    ensures t in BroadcastTenants(TaskFor(s.db, e).value.infos)
  {
    var infos := Infos(s.db, e.op.expired);
    BroadcastTenantsMembers(infos, t);
    var i :| 0 <= i < |e.op.expired| && e.op.expired[i] == n;
    assert infos[i].tenant == t && infos[i].target == Broadcast;
  }

  /** The cleanup's own snapshot takes care of what it orphans. */
  lemma OrphanIsRefreshed(ms: seq<Move>, hist: seq<Async>, i: nat, t: Tenant, n: NotifyId)
    requires Run(ms, hist) && hist[|ms|].pending == multiset{} && i < |ms| && Orphans(ms, hist, i, t, n)
    ensures RefreshedAfter(ms, hist, i, |ms|, t)
  {
    var e := ms[i].e;
    OrphanSnapshot(hist[i].s, e, t, n);
    var task := TaskFor(hist[i].s.db, e).value;
    PendingNext(hist[i], ms[i], task);
    var j := WaitingRuns(ms, hist, i + 1, task);
    assert Refreshes(ms, hist, j, t);
  }

  lemma LateAddEndsStale(ms: seq<Move>, hist: seq<Async>, i: nat, t: Tenant)
    requires Run(ms, hist) && i < |ms| && AddsLate(ms, hist, i, t) && !RefreshedAfter(ms, hist, i, |ms|, t)
    ensures Members(hist[|ms|].s.cache, TotalKey(t)) != BroadcastIds(hist[|ms|].s.db, t)
  {
    var n := ms[i].task.id;
    assert MakesStale(ms, hist, i, t, n);
    StaleIff(ms, hist, |ms|, t, n);
  }

  lemma StaleEndIsLateAdd(ms: seq<Move>, hist: seq<Async>, t: Tenant, n: NotifyId) returns (i: nat)
    requires Run(ms, hist) && hist[|ms|].pending == multiset{} && Stale(hist[|ms|], t, n)
    ensures i < |ms| && AddsLate(ms, hist, i, t) && !RefreshedAfter(ms, hist, i, |ms|, t)
  {
    StaleIff(ms, hist, |ms|, t, n);
    i :| 0 <= i < |ms| && MakesStale(ms, hist, i, t, n) && !RefreshedAfter(ms, hist, i, |ms|, t);
    if Orphans(ms, hist, i, t, n) {
      OrphanIsRefreshed(ms, hist, i, t, n);
    }
  }

  /**
   All requests, tasks in any order: with every task done, a tenant's total set is exactly its
   broadcasts if and only if every add that found its broadcast removed and other members in the
   set was followed by a task that rewrites the set.
   */
  lemma TotalEndsExactIff(ms: seq<Move>, hist: seq<Async>, t: Tenant)
    requires Run(ms, hist) && hist[|ms|].pending == multiset{}
    ensures Members(hist[|ms|].s.cache, TotalKey(t)) == BroadcastIds(hist[|ms|].s.db, t)
            <==> forall i | 0 <= i < |ms| && AddsLate(ms, hist, i, t) :: RefreshedAfter(ms, hist, i, |ms|, t)
  {
    if i :| 0 <= i < |ms| && AddsLate(ms, hist, i, t) && !RefreshedAfter(ms, hist, i, |ms|, t) {
      LateAddEndsStale(ms, hist, i, t);
    } else {
      forall n
        ensures n in Members(hist[|ms|].s.cache, TotalKey(t)) <==> n in BroadcastIds(hist[|ms|].s.db, t)
      {
        if n in BroadcastIds(hist[|ms|].s.db, t) {
          LiveIsSpared(ms, hist, n);
          BroadcastAtEnd(ms, hist, t, "", n);
        } else if Stale(hist[|ms|], t, n) {
          var i := StaleEndIsLateAdd(ms, hist, t, n);
        }
      }
    }
  }

  // ---- A run that puts a removed broadcast back ----

  const BRIEF := Draft("t", FromTenant, Broadcast, [], Some(3))
  const LASTING := Draft("t", FromTenant, Broadcast, [], None)
  const BRIEF_INFO := RecordOf(BRIEF, 1)

  lemma SendOne(ms: seq<Move>, a: Async, n: NotifyId, at: Time, draft: Draft) returns (a': Async)
    requires Leads(ms, a) && a.s.clock < at && n !in a.s.ids && (draft == BRIEF || draft == LASTING)
    ensures Leads(ms + [Request(Event(at, Send(n, draft, [])))], a')
    ensures a'.s.clock == at && a'.s.ids == a.s.ids + {n} && a'.pending == a.pending + multiset{AddTotal("t", n)}
    ensures a'.s.db.records == a.s.db.records[n := RecordOf(draft, at)]
  {
    var m := Request(Event(at, Send(n, draft, [])));
    a' := Next(a, m);
    LeadsNext(ms, a, m, a');
  }

  lemma RunOne(ms: seq<Move>, a: Async, task: Task) returns (a': Async)
    requires Leads(ms, a) && task in a.pending
    ensures Leads(ms + [RunTask(task)], a') && a'.s.db == a.s.db && a'.s.clock == a.s.clock && a'.pending == a.pending - multiset{task}
    ensures Members(a'.s.cache, TotalKey("t"))
            == if Rebuilds(a.s.cache, task, "t") then BroadcastIds(a.s.db, "t")
               else Members(a.s.cache, TotalKey("t")) + if task.AddTotal? && task.tenant == "t" then {task.id} else {}
  {
    AnyTaskTotal(a.s.db, a.s.cache, task, "t");
    a' := Next(a, RunTask(task));
    LeadsNext(ms, a, RunTask(task), a');
  }

  lemma RemoveBrief(ms: seq<Move>, a: Async) returns (a': Async)
    requires Leads(ms, a) && a.s.clock < 4 && a.s.db.records == map[7 := BRIEF_INFO, 8 := RecordOf(LASTING, 2)]
    ensures Leads(ms + [Request(Event(4, Cleanup([7])))], a') && a'.pending == a.pending + multiset{TakeSnapshot([BRIEF_INFO])}
    ensures BroadcastIds(a'.s.db, "t") == {8}
  {
    var m := Request(Event(4, Cleanup([7])));
    assert Infos(a.s.db, [7]) == [BRIEF_INFO];
    a' := Next(a, m);
    LeadsNext(ms, a, m, a');
  }

  const SENDS := [] + [Request(Event(1, Send(7, BRIEF, [])))] + [Request(Event(2, Send(8, LASTING, [])))]

  lemma BothSent() returns (a: Async)
    ensures Leads(SENDS, a) && a.s.clock == 2 && a.pending == multiset{AddTotal("t", 7), AddTotal("t", 8)}
    ensures a.s.db.records == map[7 := BRIEF_INFO, 8 := RecordOf(LASTING, 2)]
  {
    assert Run([], [START]) && [START][0] == START;
    a := SendOne([], START, 7, 1, BRIEF);
    a := SendOne([] + [Request(Event(1, Send(7, BRIEF, [])))], a, 8, 2, LASTING);
  }

  const REMOVES := SENDS + [RunTask(AddTotal("t", 8))] + [Request(Event(4, Cleanup([7])))]

  lemma BriefRemoved() returns (a: Async)
    ensures Leads(REMOVES, a) && a.pending == multiset{AddTotal("t", 7), TakeSnapshot([BRIEF_INFO])}
    ensures BroadcastIds(a.s.db, "t") == {8}
  {
    a := BothSent();
    a := RunOne(SENDS, a, AddTotal("t", 8));
    a := RemoveBrief(SENDS + [RunTask(AddTotal("t", 8))], a);
  }

  /** Broadcast 7 is removed and the snapshot taken before its own add runs: with all tasks done it is in total again. */
  lemma PutBackRun() returns (a: Async)
    ensures Leads(REMOVES + [RunTask(TakeSnapshot([BRIEF_INFO]))] + [RunTask(AddTotal("t", 7))], a) && a.pending == multiset{}
    ensures Members(a.s.cache, TotalKey("t")) == {7, 8} && BroadcastIds(a.s.db, "t") == {8}
  {
    a := BriefRemoved();
    BroadcastTenantsMembers([BRIEF_INFO], "t");
    a := RunOne(REMOVES, a, TakeSnapshot([BRIEF_INFO]));
    a := RunOne(REMOVES + [RunTask(TakeSnapshot([BRIEF_INFO]))], a, AddTotal("t", 7));
  }
}
