/** What the inboxes show, over every run of the protocol. */
module InboxHistory {
  import opened Types
  import opened Storage
  import opened Protocol
  import opened Inbox
  import opened Paging

  // ---- The unread count is the number of items shown unread ----

  ghost function ShownUnreadItems(db: DB, tenant: Tenant, user: User): set<Item> {
    set it | it in TenantInbox(db, tenant, user) && ShownStatus(db, tenant, user, it) == Unread
  }

  /** The counting CASE and the display CASE select the same items of every sound table state. */
  lemma CountedIsShown(db: DB, tenant: Tenant, user: User)
    requires Fitting(db)
    ensures TenantUnreadItems(db, tenant, user) == ShownUnreadItems(db, tenant, user)
  {
    forall it | it in TenantInbox(db, tenant, user)
      ensures CountedUnread(db, tenant, user, it) <==> ShownStatus(db, tenant, user, it) == Unread
    {
      if it.row.Some? {
        assert RowFits(db, db.rows[it.row.value]);
      }
    }
  }

  ghost function CreatedAt(db: DB): Item -> int {
    (it: Item) => if it.notify in db.records then db.records[it.notify].createdAt else 0
  }

  ghost function IsShownUnread(db: DB, tenant: Tenant, user: User): Item -> bool {
    (it: Item) => it in ShownUnreadItems(db, tenant, user)
  }

  /**
   After any run: list the tenant inbox in any order by creation time, cut it into pages of any
   size; the items shown unread over all pages are as many as unread_cnt.
   */
  lemma UnreadCountMatchesPages(es: seq<Event>, ss: seq<State>, k: nat, tenant: Tenant, user: User,
                                listing: int -> seq<Item>, items: seq<Item>, size: int)
    requires Trace(INITIAL, es, ss) && k <= |es|
    requires forall i :: listing(i) == items
    requires Listing(items, TenantInbox(ss[k].db, tenant, user), CreatedAt(ss[k].db))
    ensures PagesTotal(|items|, size) >= 0
    ensures CountIf(Tiled(listing, size, PagesTotal(|items|, size)), IsShownUnread(ss[k].db, tenant, user))
            == |TenantUnreadItems(ss[k].db, tenant, user)|
  {
    var db := ss[k].db;
    RunKeepsTables(INITIAL, es, ss, k);
    PagesCoverResult(listing, items, size);
    CountedIsShown(db, tenant, user);
    CountIfIsSize(items, TenantInbox(db, tenant, user), CreatedAt(db), IsShownUnread(db, tenant, user), ShownUnreadItems(db, tenant, user));
  }

  // ---- No ties when every send names each user once ----

  ghost predicate DistinctTimes(db: DB) {
    forall m, n | m in db.records && n in db.records && db.records[m].createdAt == db.records[n].createdAt :: m == n
  }

  ghost predicate UniqueRows(db: DB) {
    forall j, k | j in db.rows && k in db.rows && db.rows[j].user == db.rows[k].user && db.rows[j].notify == db.rows[k].notify :: j == k
  }

  ghost predicate DistinctTargets(e: Event) {
    e.op.Send? ==> forall i, j | 0 <= i < j < |e.op.draft.targetIds| :: e.op.draft.targetIds[i] != e.op.draft.targetIds[j]
  }

  lemma {:induction false} InsertedRow(rows: map<RowId, Row>, id: NotifyId, users: seq<User>, rowIds: seq<RowId>, i: nat)
    requires |users| == |rowIds| && i < |users|
    requires forall p, q | 0 <= p < q < |rowIds| :: rowIds[p] != rowIds[q]
    ensures rowIds[i] in InsertRows(rows, id, users, rowIds)
    ensures InsertRows(rows, id, users, rowIds)[rowIds[i]] == Row(id, users[i], Unread)
    decreases |users|
  {
    var last := |users| - 1;
    if i < last {
      InsertedRow(rows, id, users[..last], rowIds[..last], i);
    }
  }

  lemma SendKeepsUnique(s: State, e: Event)
    requires TablesOk(s) && UniqueRows(s.db) && Enabled(s, e) && DistinctTargets(e) && e.op.Send? && ValidDraft(e.op.draft)
    ensures UniqueRows(Commit(s.db, e))
  {
    var users, rowIds := e.op.draft.targetIds, e.op.rowIds;
    var rows' := Commit(s.db, e).rows;
    InsertRowsKeys(s.db.rows, e.op.id, users, rowIds);
    forall j, k | j in rows' && k in rows' && rows'[j].user == rows'[k].user && rows'[j].notify == rows'[k].notify
      ensures j == k
    {
      if j in rowIds && k in rowIds {
        var p :| 0 <= p < |rowIds| && rowIds[p] == j;
        var q :| 0 <= q < |rowIds| && rowIds[q] == k;
        InsertedRow(s.db.rows, e.op.id, users, rowIds, p);
        InsertedRow(s.db.rows, e.op.id, users, rowIds, q);
      } else {
        assert j in s.db.rows ==> RowFits(s.db, s.db.rows[j]);
        assert k in s.db.rows ==> RowFits(s.db, s.db.rows[k]);
      }
    }
  }

  lemma UpsertKeepsUnique(db: DB, user: User, id: NotifyId, next: Status, newRow: RowId)
    requires UniqueRows(db) && newRow !in db.rows
    ensures UniqueRows(Upsert(db, user, id, next, newRow))
  {
    var found := RowsFor(db, user, id);
    var db' := Upsert(db, user, id, next, newRow);
    forall j, k | j in db'.rows && k in db'.rows && db'.rows[j].user == db'.rows[k].user && db'.rows[j].notify == db'.rows[k].notify
      ensures j == k
    {
      assert j in db.rows && db'.rows[j].user == user && db'.rows[j].notify == id ==> j in found;
      assert k in db.rows && db'.rows[k].user == user && db'.rows[k].notify == id ==> k in found;
    }
  }

  lemma CommitKeepsUnique(s: State, e: Event)
    requires TablesOk(s) && UniqueRows(s.db) && Enabled(s, e) && DistinctTargets(e)
    ensures UniqueRows(Commit(s.db, e))
  {
    match e.op
    case Send(_, d, _) => if ValidDraft(d) { SendKeepsUnique(s, e); }
    case Act(t, u, id, next, newRow) => if CheckAccess(s.db, t, u, id).Granted? { UpsertKeepsUnique(s.db, u, id, next, newRow); }
    case _ => NoNewRows(s.db, e);
  }

  /** One-key operations and cleanup add no row and keep each row's user and notification. */
  lemma NoNewRows(db: DB, e: Event)
    requires !e.op.Send? && !e.op.Act?
    ensures var rows' := Commit(db, e).rows;
            forall k | k in rows' ::
              k in db.rows && rows'[k].user == db.rows[k].user && rows'[k].notify == db.rows[k].notify
              && (rows'[k].status == Unread ==> db.rows[k].status == Unread)
  {
  }

  lemma CommitKeepsTimes(s: State, e: Event)
    requires TablesOk(s) && DistinctTimes(s.db) && Enabled(s, e)
    ensures DistinctTimes(Commit(s.db, e))
  {
    var db' := Commit(s.db, e);
    forall m, n | m in db'.records && n in db'.records && db'.records[m].createdAt == db'.records[n].createdAt
      ensures m == n
    {
      CommitRecords(s.db, e, m);
      CommitRecords(s.db, e, n);
    }
  }

  lemma TraceKeepsTieFree(es: seq<Event>, ss: seq<State>, k: nat)
    requires Trace(INITIAL, es, ss) && k < |es| && DistinctTargets(es[k])
    requires TablesOk(ss[k]) && UniqueRows(ss[k].db) && DistinctTimes(ss[k].db)
    ensures UniqueRows(ss[k + 1].db) && DistinctTimes(ss[k + 1].db)
  {
    CommitKeepsUnique(ss[k], es[k]);
    CommitKeepsTimes(ss[k], es[k]);
  }

  lemma {:induction false} RunKeepsTieFree(es: seq<Event>, ss: seq<State>, k: nat)
    requires Trace(INITIAL, es, ss) && k <= |es| && forall e | e in es :: DistinctTargets(e)
    ensures UniqueRows(ss[k].db) && DistinctTimes(ss[k].db)
    decreases k
  {
    if k > 0 {
      RunKeepsTieFree(es, ss, k - 1);
      RunKeepsTables(INITIAL, es, ss, k - 1);
      TraceKeepsTieFree(es, ss, k - 1);
    }
  }

  /**
   When no send of the run names a user twice, creation times order the inbox without ties:
   pages fetched by separate queries, each sorting on its own, join into one listing.
   */
  lemma SeparateQueriesTile(es: seq<Event>, ss: seq<State>, k: nat, tenant: Tenant, user: User, listing: int -> seq<Item>, size: int)
    requires Trace(INITIAL, es, ss) && k <= |es| && forall e | e in es :: DistinctTargets(e)
    requires forall i :: Listing(listing(i), TenantInbox(ss[k].db, tenant, user), CreatedAt(ss[k].db))
    ensures PagesTotal(|listing(1)|, size) >= 0
    ensures Tiled(listing, size, PagesTotal(|listing(1)|, size)) == listing(1)
  {
    RunKeepsTieFree(es, ss, k);
    var db := ss[k].db;
    var inbox := TenantInbox(db, tenant, user);
    forall x, y | x in inbox && y in inbox && CreatedAt(db)(x) == CreatedAt(db)(y)
      ensures x == y
    {
      assert x.notify == y.notify;
    }
    forall i
      ensures listing(i) == listing(1)
    {
      ListingIsUnique(listing(i), listing(1), inbox, CreatedAt(db));
    }
    PagesCoverResult(listing, listing(1), size);
  }

  // ---- Nothing becomes unread again ----

  /** Some row of the user for the notification is unread. */
  predicate RowUnread(db: DB, user: User, id: NotifyId) {
    exists k | k in db.rows :: db.rows[k] == Row(id, user, Unread)
  }

  /** When an inbox shows the notification unread: an unread row, or an unsettled broadcast without rows. */
  lemma ShownUnreadIff(db: DB, tenant: Tenant, user: User, id: NotifyId)
    requires Fitting(db)
    ensures ShownUnread(db, tenant, user, id)
            <==> && id in db.records && db.records[id].tenant == tenant
                 && (var r, m := db.records[id], MarkOf(db, tenant, user);
                     && (r.sender == FromTenant ==> m.clearAt < r.createdAt)
                     && (RowUnread(db, user, id)
                         || (RowsFor(db, user, id) == {} && r.target == Broadcast && (r.sender == FromTenant ==> m.readAt < r.createdAt))))
  {
    if id in db.records && db.records[id].tenant == tenant {
      if RowUnread(db, user, id) {
        var k :| k in db.rows && db.rows[k] == Row(id, user, Unread);
        assert InJoin(db, user, Item(id, Some(k)));
      } else if RowsFor(db, user, id) == {} {
        assert InJoin(db, user, Item(id, None));
      }
    }
  }

  /** No commit gives an old notification an unread row, or takes its last row while keeping it. */
  lemma CommitRows(s: State, e: Event, user: User, id: NotifyId)
    requires TablesOk(s) && Enabled(s, e) && id in s.ids && id in Commit(s.db, e).records
    ensures RowUnread(Commit(s.db, e), user, id) ==> RowUnread(s.db, user, id)
    ensures RowsFor(Commit(s.db, e), user, id) == {} ==> RowsFor(s.db, user, id) == {}
  {
    var db' := Commit(s.db, e);
    match e.op {
      case Send(_, d, rowIds) =>
        if ValidDraft(d) {
          InsertRowsKeys(s.db.rows, e.op.id, d.targetIds, rowIds);
        }
      case Act(_, _, _, _, _) =>
      case _ => NoNewRows(s.db, e);
    }
    if k :| k in RowsFor(s.db, user, id) {
      KeptRow(s, e, k);
      assert k in RowsFor(db', user, id);
    }
  }

  lemma KeptRow(s: State, e: Event, k: RowId)
    requires TablesOk(s) && Enabled(s, e) && k in s.db.rows && s.db.rows[k].notify in Commit(s.db, e).records
    ensures var rows' := Commit(s.db, e).rows;
            k in rows' && rows'[k].user == s.db.rows[k].user && rows'[k].notify == s.db.rows[k].notify
  {
    if e.op.Send? && ValidDraft(e.op.draft) {
      InsertRowsKeys(s.db.rows, e.op.id, e.op.draft.targetIds, e.op.rowIds);
    }
  }

  /** Watermarks only move forward. */
  lemma CommitMarks(s: State, e: Event, tenant: Tenant, user: User)
    requires Timely(s) && Enabled(s, e)
    ensures var m, m' := MarkOf(s.db, tenant, user), MarkOf(Commit(s.db, e), tenant, user);
            m.readAt <= m'.readAt && m.clearAt <= m'.clearAt
  {
  }

  lemma StepNeverUnreadAgain(s: State, e: Event, tenant: Tenant, user: User, id: NotifyId)
    requires TablesOk(s) && Enabled(s, e) && id in s.ids && !ShownUnread(s.db, tenant, user, id)
    ensures !ShownUnread(Step(s, e).db, tenant, user, id)
  {
    CommitKeepsTables(s, e);
    ShownUnreadIff(s.db, tenant, user, id);
    ShownUnreadIff(Commit(s.db, e), tenant, user, id);
    CommitMarks(s, e, tenant, user);
    if id in Commit(s.db, e).records {
      CommitRecords(s.db, e, id);
      CommitRows(s, e, user, id);
    }
  }

  lemma TraceNeverUnread(es: seq<Event>, ss: seq<State>, k: nat, tenant: Tenant, user: User, id: NotifyId)
    requires Trace(INITIAL, es, ss) && k < |es| && TablesOk(ss[k]) && id in ss[k].ids && !ShownUnread(ss[k].db, tenant, user, id)
    ensures id in ss[k + 1].ids && !ShownUnread(ss[k + 1].db, tenant, user, id)
  {
    StepNeverUnreadAgain(ss[k], es[k], tenant, user, id);
  }

  /** Once no inbox shows a sent notification unread for a user, none ever does again. */
  lemma {:induction false} NeverUnreadAgain(es: seq<Event>, ss: seq<State>, i: nat, j: nat, tenant: Tenant, user: User, id: NotifyId)
    requires Trace(INITIAL, es, ss) && i <= j <= |es| && id in ss[i].ids && !ShownUnread(ss[i].db, tenant, user, id)
    ensures id in ss[j].ids && !ShownUnread(ss[j].db, tenant, user, id)
    decreases j
  {
    if i < j {
      NeverUnreadAgain(es, ss, i, j - 1, tenant, user, id);
      RunKeepsTables(INITIAL, es, ss, j - 1);
      TraceNeverUnread(es, ss, j - 1, tenant, user, id);
    }
  }

  /** Sent before the user's clear watermark, or removed since. */
  predicate Cleared(s: State, tenant: Tenant, user: User, id: NotifyId) {
    id in s.ids && (id in s.db.records ==> s.db.records[id].createdAt <= MarkOf(s.db, tenant, user).clearAt)
  }

  lemma StepKeepsCleared(s: State, e: Event, tenant: Tenant, user: User, id: NotifyId)
    requires TablesOk(s) && Enabled(s, e) && Cleared(s, tenant, user, id)
    ensures Cleared(CommitTo(s, e), tenant, user, id)
  {
    CommitMarks(s, e, tenant, user);
    if id in Commit(s.db, e).records {
      CommitRecords(s.db, e, id);
    }
  }

  lemma TraceKeepsCleared(es: seq<Event>, ss: seq<State>, k: nat, tenant: Tenant, user: User, id: NotifyId)
    requires Trace(INITIAL, es, ss) && k < |es| && TablesOk(ss[k]) && Cleared(ss[k], tenant, user, id)
    ensures Cleared(ss[k + 1], tenant, user, id)
  {
    StepKeepsCleared(ss[k], es[k], tenant, user, id);
  }

  lemma {:induction false} StaysCleared(es: seq<Event>, ss: seq<State>, i: nat, j: nat, tenant: Tenant, user: User, id: NotifyId)
    requires Trace(INITIAL, es, ss) && i <= j <= |es| && Cleared(ss[i], tenant, user, id)
    ensures Cleared(ss[j], tenant, user, id)
    decreases j
  {
    if i < j {
      StaysCleared(es, ss, i, j - 1, tenant, user, id);
      RunKeepsTables(INITIAL, es, ss, j - 1);
      TraceKeepsCleared(es, ss, j - 1, tenant, user, id);
    }
  }

  /** A tenant notification created at or before the user's clear watermark never returns to the tenant inbox. */
  lemma ClearedNeverReturns(es: seq<Event>, ss: seq<State>, i: nat, j: nat, tenant: Tenant, user: User, id: NotifyId)
    requires Trace(INITIAL, es, ss) && i <= j <= |es| && Cleared(ss[i], tenant, user, id)
    ensures forall it | it in TenantInbox(ss[j].db, tenant, user) :: it.notify != id
  {
    StaysCleared(es, ss, i, j, tenant, user, id);
  }

  /**
   A cleanup that stops between its two deletes leaves no row without a record, but it brings
   back as unread exactly those of its broadcasts that no watermark settles.
   */
  lemma HalfCleanup(db: DB, ids: set<NotifyId>, tenant: Tenant, user: User, id: NotifyId)
    requires Fitting(db) && id in ids && id in db.records && db.records[id].tenant == tenant
    ensures Fitting(DeleteStatuses(db, ids))
    ensures ShownUnread(DeleteStatuses(db, ids), tenant, user, id)
            <==> && db.records[id].target == Broadcast
                 && (db.records[id].sender == FromTenant ==>
                       && MarkOf(db, tenant, user).readAt < db.records[id].createdAt
                       && MarkOf(db, tenant, user).clearAt < db.records[id].createdAt)
  {
    var db' := DeleteStatuses(db, ids);
    assert forall k | k in db'.rows :: RowFits(db, db.rows[k]);
    ShownUnreadIff(db', tenant, user, id);
    assert RowsFor(db', user, id) == {};
  }
}
