/**
 The hub's operations as a protocol: each request commits to the tables and leaves
 one cache task behind. `Step` is a request whose task runs before the next request;
 module Detached lets tasks run late and in any order.
 */
module Protocol {
  import opened Types
  import opened Keys
  import opened Storage
  import opened UnreadCache

  /** What a send request asks for. */
  datatype Draft = Draft(
    tenant: Tenant,
    sender: SenderType,
    target: TargetType,
    targetIds: seq<User>,
    expireAt: Option<Time>)

  predicate ValidDraft(d: Draft) {
    && d.tenant != ""
    && match d.target
       case Single => |d.targetIds| == 1 && d.targetIds[0] != ""
       case Multiple => |d.targetIds| != 0
       case Broadcast => |d.targetIds| == 0
  }

  function RecordOf(d: Draft, at: Time): Record {
    Record(d.tenant, d.sender, d.target, d.targetIds, at, d.expireAt)
  }

  datatype AccessError = BadRequest | NotFound | Forbidden

  datatype Access = Granted(record: Record) | Denied(error: AccessError)

  /** validateNotifyAccess, in the order of its checks. */
  function CheckAccess(db: DB, tenant: Tenant, user: User, id: NotifyId): Access {
    if user == "" || tenant == "" then Denied(BadRequest)
    else if id !in db.records then Denied(NotFound)
    else if db.records[id].tenant != tenant then Denied(Forbidden)
    else if db.records[id].target != Broadcast && user !in db.records[id].targetIds then Denied(Forbidden)
    else Granted(db.records[id])
  }

  datatype Op =
    | Send(id: NotifyId, draft: Draft, rowIds: seq<RowId>)
    | Act(tenant: Tenant, user: User, id: NotifyId, next: Status, newRow: RowId)
    | UserRead(tenant: Tenant, user: User)
    | UserClear(tenant: Tenant, user: User)
    | TenantRead(tenant: Tenant, user: User)
    | TenantClear(tenant: Tenant, user: User)
    | Cleanup(expired: seq<NotifyId>)

  datatype Event = Event(at: Time, op: Op)

  datatype Task =
    | AddTotal(tenant: Tenant, id: NotifyId)
    | CountUsers(tenant: Tenant, users: seq<User>, sender: SenderType)
    | MarkOp(tenant: Tenant, user: User, id: NotifyId)
    | Decrement(tenant: Tenant, user: User, sender: SenderType)
    | ClearPersonal(tenant: Tenant, user: User)
    | SyncAll(tenant: Tenant, user: User)
    | TakeSnapshot(infos: seq<Record>)

  /** The committed effect on the tables. A rejected request changes nothing. */
  function Commit(db: DB, e: Event): DB {
    match e.op
    case Send(id, d, rowIds) =>
      if ValidDraft(d) && |rowIds| == |d.targetIds| then InsertRecord(db, id, RecordOf(d, e.at), rowIds) else db
    case Act(t, u, id, next, newRow) =>
      if CheckAccess(db, t, u, id).Granted? then Upsert(db, u, id, next, newRow) else db
    case UserRead(t, u) => Restatus(db, RowsInTenant(db, t, u), Read)
    case UserClear(t, u) => Restatus(db, RowsInTenant(db, t, u), Deleted)
    case TenantRead(t, u) => Restatus(SetReadAt(db, t, u, e.at), TenantDirectRows(db, t, u), Read)
    case TenantClear(t, u) => Restatus(SetClearAt(db, t, u, e.at), RowsInTenant(db, t, u), Deleted)
    case Cleanup(expired) => Cleaned(db, IdSet(expired))
  }

  /** A cleanup batch deletes the status rows first, then the records. */
  function Cleaned(db: DB, ids: set<NotifyId>): DB {
    DeleteRecords(DeleteStatuses(db, ids), ids)
  }

  function Infos(db: DB, ids: seq<NotifyId>): seq<Record>
    requires forall n | n in ids :: n in db.records
  {
    seq(|ids|, i requires 0 <= i < |ids| => db.records[ids[i]])
  }

  /** The cache task a request leaves behind, decided on the tables it found. */
  function TaskFor(db: DB, e: Event): Option<Task> {
    match e.op
    case Send(id, d, rowIds) =>
      if !ValidDraft(d) then None
      else if d.target == Broadcast then Some(AddTotal(d.tenant, id))
      else Some(CountUsers(d.tenant, d.targetIds, d.sender))
    case Act(t, u, id, _, _) =>
      if !CheckAccess(db, t, u, id).Granted? then None
      else if db.records[id].target == Broadcast then Some(MarkOp(t, u, id))
      else Some(Decrement(t, u, db.records[id].sender))
    case UserRead(t, u) => Some(ClearPersonal(t, u))
    case UserClear(t, u) => Some(ClearPersonal(t, u))
    case TenantRead(t, u) => Some(SyncAll(t, u))
    case TenantClear(t, u) => Some(SyncAll(t, u))
    case Cleanup(expired) =>
      if forall n | n in expired :: n in db.records then Some(TakeSnapshot(Infos(db, expired))) else None
  }

  /** Running one cache task against the tables as they are when it runs. */
  function Exec(db: DB, c: Cache, task: Task): Cache {
    match task
    case AddTotal(t, id) => AddBroadcast(db, c, t, id)
    case CountUsers(t, users, sender) => CountSend(db, c, t, users, sender)
    case MarkOp(t, u, id) => AddMember(c, OpKey(t, u), id)
    case Decrement(t, u, sender) => DecrFloor(c, CounterKey(t, u, sender))
    case ClearPersonal(t, u) => SetNum(c, PersonalKey(t, u), 0)
    case SyncAll(t, u) => SyncOp(c, t, u)
    case TakeSnapshot(infos) => Snapshot(db, c, infos)
  }

  /** `ids` and `rowIds` are every key ever handed out: UUIDs are never reused. */
  datatype State = State(db: DB, cache: Cache, clock: Time, ids: set<NotifyId>, rowIds: set<RowId>)

  const INITIAL := State(EMPTY_DB, EMPTY_CACHE, 0, {}, {})

  /** Strictly increasing clock, fresh keys, cleanup only of records expired by then. */
  ghost predicate Enabled(s: State, e: Event) {
    && s.clock < e.at
    && match e.op
       case Send(id, d, rowIds) =>
         && id !in s.ids
         && |rowIds| == |d.targetIds|
         && (forall k | k in rowIds :: k !in s.rowIds)
         && (forall i, j | 0 <= i < j < |rowIds| :: rowIds[i] != rowIds[j])
       case Act(_, _, _, next, newRow) => next != Unread && newRow !in s.rowIds
       case Cleanup(expired) => forall n | n in expired :: n in ExpiredIds(s.db, e.at)
       case _ => true
  }

  function CommitTo(s: State, e: Event): State {
    State(
      Commit(s.db, e),
      s.cache,
      e.at,
      s.ids + (if e.op.Send? then {e.op.id} else {}),
      s.rowIds + match e.op
                 case Send(_, _, rowIds) => (set k | k in rowIds)
                 case Act(_, _, _, _, newRow) => {newRow}
                 case _ => {})
  }

  function Step(s: State, e: Event): State {
    var s' := CommitTo(s, e);
    match TaskFor(s.db, e)
    case None => s'
    case Some(task) => s'.(cache := Exec(s'.db, s.cache, task))
  }

  // ---- Step, one kind of request at a time ----

  lemma ActStep(s: State, e: Event)
    requires e.op.Act?
    ensures if CheckAccess(s.db, e.op.tenant, e.op.user, e.op.id).Granted?
            then && Step(s, e).db == Upsert(s.db, e.op.user, e.op.id, e.op.next, e.op.newRow)
                 && Step(s, e).cache == (if s.db.records[e.op.id].target == Broadcast
                                         then AddMember(s.cache, OpKey(e.op.tenant, e.op.user), e.op.id)
                                         else DecrFloor(s.cache, CounterKey(e.op.tenant, e.op.user, s.db.records[e.op.id].sender)))
            else Step(s, e).db == s.db && Step(s, e).cache == s.cache
  {
  }

  lemma UserOneKeyStep(s: State, e: Event)
    requires e.op.UserRead? || e.op.UserClear?
    ensures Step(s, e).db == Restatus(s.db, RowsInTenant(s.db, e.op.tenant, e.op.user), if e.op.UserRead? then Read else Deleted)
    ensures Step(s, e).cache == SetNum(s.cache, PersonalKey(e.op.tenant, e.op.user), 0)
  {
  }

  lemma TenantOneKeyStep(s: State, e: Event)
    requires e.op.TenantRead? || e.op.TenantClear?
    ensures Step(s, e).db == if e.op.TenantRead?
                             then Restatus(SetReadAt(s.db, e.op.tenant, e.op.user, e.at), TenantDirectRows(s.db, e.op.tenant, e.op.user), Read)
                             else Restatus(SetClearAt(s.db, e.op.tenant, e.op.user, e.at), RowsInTenant(s.db, e.op.tenant, e.op.user), Deleted)
    ensures Step(s, e).cache == SyncOp(s.cache, e.op.tenant, e.op.user)
  {
  }

  lemma CleanupStep(s: State, e: Event)
    requires e.op.Cleanup? && Enabled(s, e)
    ensures Step(s, e).db == Cleaned(s.db, IdSet(e.op.expired))
    ensures Step(s, e).cache == Snapshot(Step(s, e).db, s.cache, Infos(s.db, e.op.expired))
  {
  }

  /** A run from `s`: its events and the states before and after each of them. */
  ghost predicate Trace(s: State, es: seq<Event>, ss: seq<State>) {
    && |ss| == |es| + 1
    && ss[0] == s
    && forall k {:trigger es[k]} | 0 <= k < |es| :: Enabled(ss[k], es[k]) && ss[k + 1] == Step(ss[k], es[k])
  }

  lemma AppendEvent(s: State, es: seq<Event>, ss: seq<State>, e: Event, s': State)
    requires Trace(s, es, ss) && Enabled(ss[|es|], e) && Step(ss[|es|], e) == s'
    ensures Trace(s, es + [e], ss + [s'])
  {
    var es', ss' := es + [e], ss + [s'];
    forall k | 0 <= k < |es'|
      ensures Enabled(ss'[k], es'[k]) && ss'[k + 1] == Step(ss'[k], es'[k])
    {
      if k < |es| {
        assert es'[k] == es[k] && ss'[k] == ss[k] && ss'[k + 1] == ss[k + 1];
      }
    }
  }

  /** Some run leads from the empty hub through `es` to `s`. */
  ghost predicate Reaches(es: seq<Event>, s: State) {
    exists ss :: Trace(INITIAL, es, ss) && ss[|es|] == s
  }

  lemma ReachNothing()
    ensures Reaches([], INITIAL)
  {
    assert Trace(INITIAL, [], [INITIAL]);
  }

  lemma ReachNext(es: seq<Event>, s: State, e: Event, s': State)
    requires Reaches(es, s) && Enabled(s, e) && Step(s, e) == s'
    ensures Reaches(es + [e], s')
  {
    var ss :| Trace(INITIAL, es, ss) && ss[|es|] == s;
    AppendEvent(INITIAL, es, ss, e, s');
    assert (ss + [s'])[|es + [e]|] == s';
  }

  // ---- The table invariant ----

  ghost predicate Settled(db: DB, id: NotifyId, user: User)
    requires id in db.records
  {
    var r := db.records[id];
    var m := MarkOf(db, r.tenant, user);
    RowsFor(db, user, id) != {} || r.createdAt <= m.readAt || r.createdAt <= m.clearAt
  }

  ghost predicate RowFits(db: DB, row: Row) {
    && row.notify in db.records
    && (var r := db.records[row.notify];
        if r.target == Broadcast then row.status != Unread
        else row.user in r.targetIds
             && (r.sender == FromTenant && row.status == Unread ==>
                   && MarkOf(db, r.tenant, row.user).readAt < r.createdAt
                   && MarkOf(db, r.tenant, row.user).clearAt < r.createdAt))
  }

  ghost predicate Keyed(s: State) {
    s.db.records.Keys <= s.ids && s.db.rows.Keys <= s.rowIds
  }

  ghost predicate Timely(s: State) {
    && (forall n | n in s.db.records :: 0 < s.db.records[n].createdAt <= s.clock)
    && (forall p | p in s.db.marks :: s.db.marks[p].readAt <= s.clock && s.db.marks[p].clearAt <= s.clock)
  }

  ghost predicate Fitting(db: DB) {
    forall k | k in db.rows :: RowFits(db, db.rows[k])
  }

  /**
   No orphan row, no unread row on a broadcast, no row for a user who was not a target,
   and no unread tenant row older than one of the user's watermarks.
   */
  ghost predicate TablesOk(s: State) {
    Keyed(s) && Timely(s) && Fitting(s.db)
  }

  /** A commit adds at most the sent record and rewrites none. */
  lemma CommitRecords(db: DB, e: Event, n: NotifyId)
    requires n in Commit(db, e).records
    ensures || (n in db.records && Commit(db, e).records[n] == db.records[n])
            || (e.op.Send? && n == e.op.id && Commit(db, e).records[n] == RecordOf(e.op.draft, e.at))
  {
  }

  lemma SendKeepsFitting(s: State, e: Event)
    requires TablesOk(s) && Enabled(s, e) && e.op.Send?
    ensures Fitting(Commit(s.db, e))
  {
    if ValidDraft(e.op.draft) {
      InsertRowsKeys(s.db.rows, e.op.id, e.op.draft.targetIds, e.op.rowIds);
      var db' := Commit(s.db, e);
      forall k | k in db'.rows
        ensures RowFits(db', db'.rows[k])
      {
        if k in e.op.rowIds {
          assert db'.rows[k].user in e.op.draft.targetIds;
        } else {
          assert RowFits(s.db, s.db.rows[k]);
        }
      }
    }
  }

  lemma CommitKeepsFitting(s: State, e: Event)
    requires TablesOk(s) && Enabled(s, e)
    ensures Fitting(Commit(s.db, e))
  {
    if e.op.Send? {
      SendKeepsFitting(s, e);
    } else {
      var db' := Commit(s.db, e);
      forall k | k in db'.rows
        ensures RowFits(db', db'.rows[k])
      {
        if k in s.db.rows {
          assert RowFits(s.db, s.db.rows[k]);
        }
      }
    }
  }

  lemma CommitKeepsTables(s: State, e: Event)
    requires TablesOk(s) && Enabled(s, e)
    ensures TablesOk(CommitTo(s, e))
  {
    CommitKeepsFitting(s, e);
    if e.op.Send? && ValidDraft(e.op.draft) {
      InsertRowsKeys(s.db.rows, e.op.id, e.op.draft.targetIds, e.op.rowIds);
    }
  }

  lemma TraceKeepsTables(s: State, es: seq<Event>, ss: seq<State>, k: nat)
    requires Trace(s, es, ss) && k < |es| && TablesOk(ss[k])
    ensures TablesOk(ss[k + 1])
  {
    CommitKeepsTables(ss[k], es[k]);
  }

  lemma {:induction false} RunKeepsTables(s: State, es: seq<Event>, ss: seq<State>, k: nat)
    requires TablesOk(s) && Trace(s, es, ss) && k <= |es|
    ensures TablesOk(ss[k])
    decreases k
  {
    if k > 0 {
      RunKeepsTables(s, es, ss, k - 1);
      TraceKeepsTables(s, es, ss, k - 1);
    }
  }
}
