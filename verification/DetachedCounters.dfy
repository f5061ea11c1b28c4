/** A personal or tenant counter when cache tasks are detached and run late, in any order. */
module DetachedCounters {
  import opened Types
  import opened Keys
  import opened UserIds
  import opened Storage
  import opened UnreadCache
  import opened Protocol
  import opened CounterAgreement
  import opened AnyIds
  import opened Detached

  ghost predicate CanonicalTask(task: Task) {
    && (task.CountUsers? ==> AllCanonical(task.users))
    && (task.TakeSnapshot? ==> CanonicalInfos(task.infos))
  }

  /** A waiting task will overwrite the user's counter. */
  ghost predicate Covers(task: Task, t: Tenant, u: User, kind: SenderType) {
    || (kind == FromUser && task == ClearPersonal(t, u))
    || (task.TakeSnapshot? && u in Bucket(task.infos, t, kind))
  }

  ghost predicate Covered(pending: multiset<Task>, t: Tenant, u: User, kind: SenderType) {
    exists task :: task in pending && Covers(task, t, u, kind)
  }

  /**
   Unless an overwrite is still waiting, the counter exceeds the truth by at most
   the decrements still waiting.
   */
  ghost predicate CounterLag(db: DB, c: Cache, pending: multiset<Task>, t: Tenant, u: User, kind: SenderType) {
    && 0 <= Counter(c, t, u, kind)
    && (Covered(pending, t, u, kind) || Counter(c, t, u, kind) <= Truth(db, t, u, kind) + pending[Decrement(t, u, kind)])
  }

  ghost predicate CountersLag(a: Async, t: Tenant, u: User, kind: SenderType) {
    && TablesOk(a.s)
    && CanonicalTargets(a.s.db)
    && (forall task | task in a.pending :: CanonicalTask(task))
    && CounterLag(a.s.db, a.s.cache, a.pending, t, u, kind)
  }

  ghost predicate Allowed(m: Move, t: Tenant, u: User, kind: SenderType) {
    m.Request? ==> CanonicalEvent(m.e) && !Strands(m.e.op, t, u, kind)
  }

  function Left(db: DB, e: Event): multiset<Task> {
    match TaskFor(db, e) case None => multiset{} case Some(task) => multiset{task}
  }

  /** What a commit can do to the truth, and which task it leaves to make up for it. */
  lemma CommitTruth(s: State, e: Event, t: Tenant, u: User, kind: SenderType)
    requires TablesOk(s) && CanonicalTargets(s.db) && Enabled(s, e) && CanonicalEvent(e) && !Strands(e.op, t, u, kind)
    ensures || Covered(Left(s.db, e), t, u, kind)
            || Truth(s.db, t, u, kind) <= Truth(Commit(s.db, e), t, u, kind) + Left(s.db, e)[Decrement(t, u, kind)]
  {
    assert Step(s, e).db == Commit(s.db, e);
    match e.op
    case Send(_, d, _) => if ValidDraft(d) { SendCounters(s, e, t, u, kind); }
    case Act(_, _, _, _, _) => ActCounters(s, e, t, u, kind);
    case Cleanup(_) => CleanupTruth(s, e, t, u, kind);
    case UserRead(_, _) => UserOneKeyTruth(s, e, t, u, kind);
    case UserClear(_, _) => UserOneKeyTruth(s, e, t, u, kind);
    case _ => TenantOneKeyCounters(s, e, t, u, kind);
  }

  lemma UserOneKeyTruth(s: State, e: Event, t: Tenant, u: User, kind: SenderType)
    requires (e.op.UserRead? || e.op.UserClear?) && !Strands(e.op, t, u, kind)
    ensures Covered(Left(s.db, e), t, u, kind) || Truth(Step(s, e).db, t, u, kind) == Truth(s.db, t, u, kind)
  {
    UserOneKeyCounters(s, e, t, u, kind);
    if Resets(e.op, t, u, kind) {
      assert ClearPersonal(t, u) in Left(s.db, e);
    }
  }

  lemma CleanupTruth(s: State, e: Event, t: Tenant, u: User, kind: SenderType)
    requires TablesOk(s) && CanonicalTargets(s.db) && Enabled(s, e) && e.op.Cleanup?
    ensures Covered(Left(s.db, e), t, u, kind) || Truth(Step(s, e).db, t, u, kind) == Truth(s.db, t, u, kind)
  {
    CleanupStep(s, e);
    var infos := Infos(s.db, e.op.expired);
    if u in Bucket(infos, t, kind) {
      assert TakeSnapshot(infos) in Left(s.db, e);
    } else if u == "" {
      CommitKeepsTables(s, e);
      NobodyHasNoRows(s.db, t, kind);
      NobodyHasNoRows(Step(s, e).db, t, kind);
    } else {
      CleanupUnread(s.db, e.op.expired, t, u, kind);
    }
  }

  lemma LeftIsCanonical(s: State, e: Event)
    requires CanonicalTargets(s.db) && CanonicalEvent(e)
    ensures forall task | task in Left(s.db, e) :: CanonicalTask(task)
  {
    if e.op.Cleanup? && forall n | n in e.op.expired :: n in s.db.records {
      var infos := Infos(s.db, e.op.expired);
      assert forall i | 0 <= i < |infos| :: infos[i] == s.db.records[e.op.expired[i]];
    }
  }

  lemma CoveredMore(p: multiset<Task>, q: multiset<Task>, t: Tenant, u: User, kind: SenderType)
    requires Covered(p, t, u, kind)
    ensures Covered(p + q, t, u, kind) && Covered(q + p, t, u, kind)
  {
    var task :| task in p && Covers(task, t, u, kind);
    assert task in p + q && task in q + p;
  }

  lemma RequestKeepsCounterLag(a: Async, e: Event, t: Tenant, u: User, kind: SenderType)
    requires CountersLag(a, t, u, kind) && Enabled(a.s, e) && Allowed(Request(e), t, u, kind)
    ensures CountersLag(Next(a, Request(e)), t, u, kind)
  {
    CommitKeepsTables(a.s, e);
    StepKeepsCanonical(a.s, e);
    LeftIsCanonical(a.s, e);
    CommitTruth(a.s, e, t, u, kind);
    var left := Left(a.s.db, e);
    if Covered(a.pending, t, u, kind) {
      CoveredMore(a.pending, left, t, u, kind);
    } else if Covered(left, t, u, kind) {
      CoveredMore(left, a.pending, t, u, kind);
    }
  }

  /** The task overwrites the counter: a recount or snapshot that lists the user, or a reset. */
  predicate Rewrites(task: Task, t: Tenant, u: User, kind: SenderType) {
    match task
    case CountUsers(tenant, users, sender) => tenant == t && sender == kind && u in users
    case TakeSnapshot(infos) => u in Bucket(infos, t, kind)
    case ClearPersonal(tenant, user) => kind == FromUser && tenant == t && user == u
    case _ => false
  }

  /** The counter after a task: overwritten by the truth, reset, decremented above 0, or untouched. */
  lemma TaskCounter(db: DB, c: Cache, task: Task, t: Tenant, u: User, kind: SenderType)
    requires CanonicalTask(task) && 0 <= Counter(c, t, u, kind)
    ensures Counter(Exec(db, c, task), t, u, kind)
            == if Rewrites(task, t, u, kind) then (if task.ClearPersonal? then 0 else Truth(db, t, u, kind))
               else if task == Decrement(t, u, kind) then (if Counter(c, t, u, kind) == 0 then 0 else Counter(c, t, u, kind) - 1)
               else Counter(c, t, u, kind)
  {
    match task
    case CountUsers(tenant, users, sender) => CountSendCounter(db, c, tenant, users, sender, t, u, kind);
    case TakeSnapshot(infos) => SnapshotCounters(db, c, infos, t, u, kind);
    case Decrement(_, _, _) =>
    case ClearPersonal(_, _) =>
    case _ => SetTaskCounters(db, c, task);
  }

  /** Set tasks touch no counter. */
  lemma SetTaskCounters(db: DB, c: Cache, task: Task)
    requires task.AddTotal? || task.MarkOp? || task.SyncAll?
    ensures Exec(db, c, task).nums == c.nums
  {
  }

  lemma TaskKeepsCounterLag(a: Async, task: Task, t: Tenant, u: User, kind: SenderType)
    requires CountersLag(a, t, u, kind) && task in a.pending
    ensures CountersLag(Next(a, RunTask(task)), t, u, kind)
  {
    var rest := a.pending - multiset{task};
    assert forall x | x in rest :: x in a.pending;
    TaskCounter(a.s.db, a.s.cache, task, t, u, kind);
    if Covered(a.pending, t, u, kind) && !Covers(task, t, u, kind) {
      var other :| other in a.pending && Covers(other, t, u, kind);
      assert other in rest;
    }
  }

  lemma {:induction false} MovesKeepCounterLag(ms: seq<Move>, hist: seq<Async>, k: nat, t: Tenant, u: User, kind: SenderType)
    requires Run(ms, hist) && k <= |ms| && forall m | m in ms :: Allowed(m, t, u, kind)
    ensures CountersLag(hist[k], t, u, kind)
    decreases k
  {
    if k > 0 {
      MovesKeepCounterLag(ms, hist, k - 1, t, u, kind);
      assert Allowed(ms[k - 1], t, u, kind);
      match ms[k - 1] {
        case Request(e) => RequestKeepsCounterLag(hist[k - 1], e, t, u, kind);
        case RunTask(task) => TaskKeepsCounterLag(hist[k - 1], task, t, u, kind);
      }
    }
  }

  /**
   All requests of canonical users, cache tasks detached and run in any order, and no operation
   that strands this counter: once every task has run, a personal or tenant counter lies between
   0 and the number of the user's unread rows of that kind.
   */
  lemma DetachedCounterBounded(ms: seq<Move>, hist: seq<Async>, t: Tenant, u: User, kind: SenderType)
    requires Run(ms, hist) && forall m | m in ms :: Allowed(m, t, u, kind)
    requires hist[|ms|].pending == multiset{}
    ensures Within(hist[|ms|].s, t, u, kind)
  {
    MovesKeepCounterLag(ms, hist, |ms|, t, u, kind);
  }

  // ---- The counter in terms of the moves ----

  ghost predicate CanonicalRun(ms: seq<Move>, hist: seq<Async>) {
    Run(ms, hist) && forall m | m in ms && m.Request? :: CanonicalEvent(m.e)
  }

  ghost predicate SoundPending(a: Async) {
    TablesOk(a.s) && CanonicalTargets(a.s.db) && forall task | task in a.pending :: CanonicalTask(task)
  }

  lemma RequestKeepsSound(a: Async, e: Event)
    requires SoundPending(a) && Enabled(a.s, e) && CanonicalEvent(e)
    ensures SoundPending(Next(a, Request(e)))
  {
    CommitKeepsTables(a.s, e);
    StepKeepsCanonical(a.s, e);
    LeftIsCanonical(a.s, e);
  }

  lemma TraceKeepsSound(ms: seq<Move>, hist: seq<Async>, k: nat)
    requires CanonicalRun(ms, hist) && k < |ms| && SoundPending(hist[k])
    ensures SoundPending(hist[k + 1])
  {
    assert ms[k] in ms;
    match ms[k]
    case Request(e) => RequestKeepsSound(hist[k], e);
    case RunTask(task) => assert forall x | x in hist[k].pending - multiset{task} :: x in hist[k].pending;
  }

  lemma {:induction false} RunKeepsSound(ms: seq<Move>, hist: seq<Async>, k: nat)
    requires CanonicalRun(ms, hist) && k <= |ms|
    ensures SoundPending(hist[k])
    decreases k
  {
    if k > 0 {
      RunKeepsSound(ms, hist, k - 1);
      TraceKeepsSound(ms, hist, k - 1);
    }
  }

  // ---- The unread rows in terms of the requests ----

  /** The unread rows that a cleanup takes away. */
  function Expiring(db: DB, expired: seq<NotifyId>, t: Tenant, u: User, kind: SenderType): set<RowId> {
    set k | k in UnreadRows(db, t, u, kind) && db.rows[k].notify in expired
  }

  /** How many unread rows a request adds, or settles and removes when negative. */
  function Change(s: State, e: Event, t: Tenant, u: User, kind: SenderType): int {
    match e.op
    case Send(_, d, _) => if SendsTo(e, t, u, kind) then multiset(d.targetIds)[u] else 0
    case Act(_, _, id, _, _) => if ActsOn(s, e, t, u, kind) && UnreadHit(s.db, u, id) then -1 else 0
    case Cleanup(expired) => -|Expiring(s.db, expired, t, u, kind)|
    case _ => if Wipes(e.op, t, u, kind) then 0 - Truth(s.db, t, u, kind) as int else 0
  }

  lemma CleanupChange(db: DB, expired: seq<NotifyId>, t: Tenant, u: User, kind: SenderType)
    ensures Truth(Cleaned(db, IdSet(expired)), t, u, kind) == Truth(db, t, u, kind) - |Expiring(db, expired, t, u, kind)|
  {
    var before, gone := UnreadRows(db, t, u, kind), Expiring(db, expired, t, u, kind);
    assert UnreadRows(Cleaned(db, IdSet(expired)), t, u, kind) == before - gone;
    assert before == (before - gone) + gone;
  }

  lemma SendChange(s: State, e: Event, t: Tenant, u: User, kind: SenderType)
    requires TablesOk(s) && Enabled(s, e) && e.op.Send?
    ensures Truth(Commit(s.db, e), t, u, kind) == Truth(s.db, t, u, kind) + Change(s, e, t, u, kind)
  {
    if ValidDraft(e.op.draft) {
      var r := RecordOf(e.op.draft, e.at);
      if Addresses(r, t, u, kind) {
        SendTruth(s.db, e.op.id, r, e.op.rowIds, t, u, kind);
      } else {
        assert forall k | k in s.db.rows :: RowFits(s.db, s.db.rows[k]);
        InsertUnread(s.db, e.op.id, r, e.op.rowIds, t, u, kind);
      }
    }
  }

  lemma CommitChange(s: State, e: Event, t: Tenant, u: User, kind: SenderType)
    requires TablesOk(s) && Enabled(s, e)
    ensures Truth(Commit(s.db, e), t, u, kind) == Truth(s.db, t, u, kind) + Change(s, e, t, u, kind)
  {
    assert Step(s, e).db == Commit(s.db, e);
    match e.op
    case Send(_, _, _) => SendChange(s, e, t, u, kind);
    case Act(_, _, _, _, _) => ActCounters(s, e, t, u, kind);
    case Cleanup(expired) => CleanupChange(s.db, expired, t, u, kind);
    case UserRead(_, _) => UserOneKeyCounters(s, e, t, u, kind);
    case UserClear(_, _) => UserOneKeyCounters(s, e, t, u, kind);
    case _ => TenantOneKeyCounters(s, e, t, u, kind);
  }

  // ---- The account of one counter ----

  /** What one move does to a counter and to the unread rows it counts. */
  datatype Entry = Recount | Reset | Decr | Rows(change: int)

  function EntryOf(a: Async, m: Move, t: Tenant, u: User, kind: SenderType): Entry {
    match m
    case Request(e) => Rows(Change(a.s, e, t, u, kind))
    case RunTask(task) =>
      if Rewrites(task, t, u, kind) then (if task.ClearPersonal? then Reset else Recount)
      else if task == Decrement(t, u, kind) then Decr
      else Rows(0)
  }

  /** `l` says of every move what it does. */
  ghost predicate Account(l: seq<Entry>, ms: seq<Move>, hist: seq<Async>, t: Tenant, u: User, kind: SenderType) {
    && |hist| == |ms| + 1 == |l| + 1
    && forall k {:trigger l[k], ms[k]} | 0 <= k < |ms| :: l[k] == EntryOf(hist[k], ms[k], t, u, kind)
  }

  lemma EveryRunHasAccount(ms: seq<Move>, hist: seq<Async>, t: Tenant, u: User, kind: SenderType) returns (l: seq<Entry>)
    requires |hist| == |ms| + 1
    ensures Account(l, ms, hist, t, u, kind)
  {
    l := seq(|ms|, k requires 0 <= k < |ms| => EntryOf(hist[k], ms[k], t, u, kind));
  }

  /** The unread rows after the first `k` moves. */
  function RowsAt(l: seq<Entry>, k: nat): int
    requires k <= |l|
  {
    if k == 0 then 0 else RowsAt(l, k - 1) + if l[k - 1].Rows? then l[k - 1].change else 0
  }

  function Floored(n: int): nat {
    if n < 0 then 0 else n
  }

  /** The last of the first `k` moves that overwrites the counter, or -1. */
  function LastOverwrite(l: seq<Entry>, k: nat): (j: int)
    requires k <= |l|
    ensures -1 <= j < k && (j >= 0 ==> l[j].Recount? || l[j].Reset?)
  {
    if k == 0 then -1 else if l[k - 1].Recount? || l[k - 1].Reset? then k - 1 else LastOverwrite(l, k - 1)
  }

  /** The decrements run from move `j` on, before move `k`. */
  function DecrementsRun(l: seq<Entry>, j: nat, k: nat): nat
    requires k <= |l|
    decreases k
  {
    if k <= j then 0 else DecrementsRun(l, j, k - 1) + if l[k - 1].Decr? then 1 else 0
  }

  /** What the overwrite at move `j` wrote: the rows it found, or 0 for a reset or for none. */
  function Written(l: seq<Entry>, j: int): int
    requires -1 <= j < |l|
  {
    if j < 0 || l[j].Reset? then 0 else RowsAt(l, j)
  }

  /** What its last overwrite wrote, less the decrements run since, floored at 0. */
  function CounterAt(l: seq<Entry>, k: nat): nat
    requires k <= |l|
  {
    var j := LastOverwrite(l, k);
    Floored(Written(l, j) - DecrementsRun(l, j + 1, k))
  }

  /** The rows added less those settled or removed by the requests from move `j` on, before move `k`. */
  function NetChange(l: seq<Entry>, j: nat, k: nat): int
    requires k <= |l|
    decreases k
  {
    if k <= j then 0 else NetChange(l, j, k - 1) + if l[k - 1].Rows? then l[k - 1].change else 0
  }

  lemma {:induction false} RowsSince(l: seq<Entry>, j: nat, k: nat)
    requires j < k <= |l| && !l[j].Rows?
    ensures RowsAt(l, k) == RowsAt(l, j) + NetChange(l, j + 1, k)
    decreases k
  {
    if j + 1 < k {
      RowsSince(l, j, k - 1);
    }
  }

  lemma CounterNext(l: seq<Entry>, k: nat)
    requires k < |l|
    ensures CounterAt(l, k + 1) == match l[k]
                                   case Recount => Floored(RowsAt(l, k))
                                   case Reset => 0
                                   case Decr => Floored(CounterAt(l, k) - 1)
                                   case Rows(_) => CounterAt(l, k)
  {
  }

  lemma AccountStep(ms: seq<Move>, hist: seq<Async>, k: nat, t: Tenant, u: User, kind: SenderType)
    requires CanonicalRun(ms, hist) && k < |ms| && 0 <= Counter(hist[k].s.cache, t, u, kind)
    ensures var x := EntryOf(hist[k], ms[k], t, u, kind);
            var counter, truth := Counter(hist[k].s.cache, t, u, kind), Truth(hist[k].s.db, t, u, kind);
            && Counter(hist[k + 1].s.cache, t, u, kind)
               == (match x case Recount => truth case Reset => 0 case Decr => Floored(counter - 1) case Rows(_) => counter)
            && Truth(hist[k + 1].s.db, t, u, kind) == truth + if x.Rows? then x.change else 0
  {
    RunKeepsSound(ms, hist, k);
    match ms[k]
    case Request(e) => CommitChange(hist[k].s, e, t, u, kind);
    case RunTask(task) => TaskCounter(hist[k].s.db, hist[k].s.cache, task, t, u, kind);
  }

  /** Counter and unread rows at a point of a run are what the account says. */
  ghost predicate Accounted(a: Async, l: seq<Entry>, k: nat, t: Tenant, u: User, kind: SenderType)
    requires k <= |l|
  {
    Counter(a.s.cache, t, u, kind) == CounterAt(l, k) && Truth(a.s.db, t, u, kind) == RowsAt(l, k)
  }

  lemma AccountNext(ms: seq<Move>, hist: seq<Async>, l: seq<Entry>, k: nat, t: Tenant, u: User, kind: SenderType)
    requires CanonicalRun(ms, hist) && Account(l, ms, hist, t, u, kind) && k < |ms| && Accounted(hist[k], l, k, t, u, kind)
    ensures Accounted(hist[k + 1], l, k + 1, t, u, kind)
  {
    AccountStep(ms, hist, k, t, u, kind);
    assert l[k] == EntryOf(hist[k], ms[k], t, u, kind);
    CounterNext(l, k);
  }

  lemma AccountStart(l: seq<Entry>, t: Tenant, u: User, kind: SenderType)
    ensures Accounted(START, l, 0, t, u, kind)
  {
    assert UnreadRows(EMPTY_DB, t, u, kind) == {};
  }

  /**
   Over every run of canonical users, all requests and any order of the tasks: at every point a
   counter is what its last overwrite wrote, less the decrements run since, floored at 0.
   */
  lemma {:induction false} CounterByMoves(ms: seq<Move>, hist: seq<Async>, l: seq<Entry>, k: nat, t: Tenant, u: User, kind: SenderType)
    requires CanonicalRun(ms, hist) && Account(l, ms, hist, t, u, kind) && k <= |ms|
    ensures Counter(hist[k].s.cache, t, u, kind) == CounterAt(l, k) && Truth(hist[k].s.db, t, u, kind) == RowsAt(l, k)
    decreases k
  {
    if k == 0 {
      AccountStart(l, t, u, kind);
    } else {
      CounterByMoves(ms, hist, l, k - 1, t, u, kind);
      AccountNext(ms, hist, l, k - 1, t, u, kind);
    }
  }

  /** No overwrite yet, a reset as the last one, or decrements run since that make up for the rows settled since. */
  predicate Balanced(l: seq<Entry>, k: nat)
    requires k <= |l|
  {
    var j := LastOverwrite(l, k);
    j < 0 || l[j].Reset? || 0 <= NetChange(l, j + 1, k) + DecrementsRun(l, j + 1, k)
  }

  lemma BalancedIff(l: seq<Entry>, k: nat)
    requires k <= |l| && 0 <= RowsAt(l, k)
    ensures CounterAt(l, k) <= RowsAt(l, k) <==> Balanced(l, k)
  {
    var j := LastOverwrite(l, k);
    if j >= 0 {
      RowsSince(l, j, k);
    }
  }

  /**
   Over every run of canonical users, all requests, tasks in any order: at every point a counter is
   within the unread rows if and only if its last overwrite was a reset, or there was none, or the
   rows settled or removed since outnumber the rows added since by at most the decrements run since.
   */
  lemma DetachedWithinIff(ms: seq<Move>, hist: seq<Async>, l: seq<Entry>, k: nat, t: Tenant, u: User, kind: SenderType)
    requires CanonicalRun(ms, hist) && Account(l, ms, hist, t, u, kind) && k <= |ms|
    ensures Within(hist[k].s, t, u, kind) <==> Balanced(l, k)
  {
    CounterByMoves(ms, hist, l, k, t, u, kind);
    BalancedIff(l, k);
  }

  /** In particular, runs without a stranding operation are balanced once every task has run. */
  lemma NothingStrandedIsBalanced(ms: seq<Move>, hist: seq<Async>, t: Tenant, u: User, kind: SenderType) returns (l: seq<Entry>)
    requires Run(ms, hist) && (forall m | m in ms :: Allowed(m, t, u, kind)) && hist[|ms|].pending == multiset{}
    ensures Account(l, ms, hist, t, u, kind) && Balanced(l, |ms|)
  {
    l := EveryRunHasAccount(ms, hist, t, u, kind);
    assert forall m | m in ms && m.Request? :: Allowed(m, t, u, kind);
    DetachedCounterBounded(ms, hist, t, u, kind);
    DetachedWithinIff(ms, hist, l, |ms|, t, u, kind);
  }

  // ---- IDs of any form ----

  /**
   A late recount of any list that finds the user's counter within bounds leaves it there if and only
   if it goes through and counts nobody with more unread rows under the user's ID, or is abandoned and
   a counter that exists has room for the user's occurrences in the list.
   */
  lemma LateRecountIff(db: DB, c: Cache, t: Tenant, users: seq<User>, kind: SenderType, u: User)
    requires u in users && 0 <= Counter(c, t, u, kind) <= Truth(db, t, u, kind)
    ensures 0 <= Counter(Exec(db, c, CountUsers(t, users, kind)), t, u, kind) <= Truth(db, t, u, kind)
            <==> if GroupedCounts(db, t, users, kind).Some? then NotOutdone(db, t, users, kind, u)
                 else CounterKey(t, u, kind) in c.nums ==> Counter(c, t, u, kind) + multiset(users)[u] <= Truth(db, t, u, kind)
  {
    var keys := CounterKeys(t, users, kind);
    if GroupedCounts(db, t, users, kind).Some? {
      RecountWithinIff(db, IncrExisting(c, keys), t, users, kind, u);
    } else {
      IncrExactly(c, keys, CounterKey(t, u, kind));
      KeysOf(t, users, kind, u);
    }
  }

  // ---- An ID that is not an int64 ----

  const MIXED := Event(1, Send(1, Draft("t", FromUser, Multiple, ["5", "a"], None), [1, 2]))
  const ALONE := Event(2, Send(2, Draft("t", FromUser, Single, ["5"], None), [3]))
  const RECOUNT_MIXED := CountUsers("t", ["5", "a"], FromUser)
  const RECOUNT_ALONE := CountUsers("t", ["5"], FromUser)
  const LATE := [Request(MIXED), Request(ALONE), RunTask(RECOUNT_ALONE), RunTask(RECOUNT_MIXED)]
  const BOTH_SENT: DB :=
    DB(map[1 := RecordOf(MIXED.op.draft, 1), 2 := RecordOf(ALONE.op.draft, 2)],
       map[1 := Row(1, "5", Unread), 2 := Row(1, "a", Unread), 3 := Row(2, "5", Unread)], map[])

  lemma BothSentTruth()
    ensures Truth(BOTH_SENT, "t", "5", FromUser) == 2 && Truth(BOTH_SENT, "t", "a", FromUser) == 1
  {
    assert UnreadRows(BOTH_SENT, "t", "5", FromUser) == {1, 3};
    assert UnreadRows(BOTH_SENT, "t", "a", FromUser) == {2};
  }

  /** The recount of the single send goes through and counts both notifications. */
  lemma RecountAlone(c: Cache)
    ensures var c' := Exec(BOTH_SENT, c, RECOUNT_ALONE); PersonalKey("t", "5") in c'.nums && c'.nums[PersonalKey("t", "5")] == 2
  {
    BothSentTruth();
    assert Canonical("5") by { PrintThenParse(5); }
    CountSendCounter(BOTH_SENT, c, "t", ["5"], FromUser, "t", "5", FromUser);
    GroupedCountsCanonical(BOTH_SENT, "t", ["5"], FromUser, "5");
  }

  /** The recount of the mixed send is abandoned after its increment. */
  lemma RecountMixed(c: Cache)
    requires PersonalKey("t", "5") in c.nums && c.nums[PersonalKey("t", "5")] == 2
    ensures Counter(Exec(BOTH_SENT, c, RECOUNT_MIXED), "t", "5", FromUser) >= 3
  {
    BothSentTruth();
    var users := ["5", "a"];
    assert Trip("a").None? by { assert !IsDigits("a"); }
    assert "a" in users;
    ReconcileAbandonedIff(BOTH_SENT, IncrExisting(c, CounterKeys("t", users, FromUser)), "t", users, FromUser);
    var keys := CounterKeys("t", users, FromUser);
    assert keys == [PersonalKey("t", "5"), PersonalKey("t", "a")];
    assert keys[..1] == [PersonalKey("t", "5")] && keys[..1][..0] == [];
    assert IncrExisting(c, keys[..1]) == SetNum(c, PersonalKey("t", "5"), 3);
  }

  lemma SendMixed() returns (a: Async)
    ensures CanMove(START, LATE[0]) && Next(START, LATE[0]) == a && a.pending == multiset{RECOUNT_MIXED} && a.s.clock == 1
    ensures a.s.db == DB(map[1 := RecordOf(MIXED.op.draft, 1)], map[1 := Row(1, "5", Unread), 2 := Row(1, "a", Unread)], map[])
    ensures a.s.cache == EMPTY_CACHE && a.s.ids == {1} && a.s.rowIds == {1, 2}
  {
    assert ["5", "a"][..1] == ["5"] && [1, 2][..1] == [1] && ["5"][..0] == [] && [1][..0] == [];
    assert InsertRows(map[], 1, ["5"], [1]) == map[1 := Row(1, "5", Unread)];
    a := Next(START, LATE[0]);
    assert a.s.rowIds == {1, 2};
    assert a.s.ids == {1};
  }

  lemma SendAlone(a: Async) returns (a': Async)
    requires a.s.clock == 1 && a.s.ids == {1} && a.s.rowIds == {1, 2} && a.pending == multiset{RECOUNT_MIXED}
    requires a.s.db == DB(map[1 := RecordOf(MIXED.op.draft, 1)], map[1 := Row(1, "5", Unread), 2 := Row(1, "a", Unread)], map[])
    ensures CanMove(a, LATE[1]) && Next(a, LATE[1]) == a' && a'.pending == multiset{RECOUNT_MIXED, RECOUNT_ALONE}
    ensures a'.s.db == BOTH_SENT && a'.s.cache == a.s.cache
  {
    assert ["5"][..0] == [] && [3][..0] == [];
    a' := Next(a, LATE[1]);
    assert a'.s.db.rows == BOTH_SENT.rows;
  }

  lemma RecountBoth(a: Async) returns (a1: Async, a2: Async)
    requires a.s.db == BOTH_SENT && a.pending == multiset{RECOUNT_MIXED, RECOUNT_ALONE}
    ensures CanMove(a, LATE[2]) && Next(a, LATE[2]) == a1 && CanMove(a1, LATE[3]) && Next(a1, LATE[3]) == a2
    ensures a2.pending == multiset{} && !Within(a2.s, "t", "5", FromUser)
  {
    a1 := Next(a, LATE[2]);
    a2 := Next(a1, LATE[3]);
    RecountAlone(a.s.cache);
    RecountMixed(a1.s.cache);
    BothSentTruth();
  }

  lemma BothSent() returns (a: Async)
    ensures Leads([LATE[0]] + [LATE[1]], a)
    ensures a.s.db == BOTH_SENT && a.pending == multiset{RECOUNT_MIXED, RECOUNT_ALONE}
  {
    var a1 := SendMixed();
    a := SendAlone(a1);
    assert Run([], [START]);
    LeadsNext([], START, LATE[0], a1);
    assert [] + [LATE[0]] == [LATE[0]];
    LeadsNext([LATE[0]], a1, LATE[1], a);
  }

  /**
   With detached tasks a list that holds an ID that is not an int64 can break the bound for its other
   users: a late increment whose recount is abandoned counts what an earlier recount has counted already.
   */
  lemma AbandonedRecountRun() returns (a: Async)
    ensures Leads([LATE[0]] + [LATE[1]] + [LATE[2]] + [LATE[3]], a)
    ensures a.pending == multiset{} && !Within(a.s, "t", "5", FromUser)
  {
    var a2 := BothSent();
    var a3, a4 := RecountBoth(a2);
    var ms := [LATE[0]] + [LATE[1]];
    LeadsNext(ms, a2, LATE[2], a3);
    LeadsNext(ms + [LATE[2]], a3, LATE[3], a4);
    a := a4;
  }
}
