/**
 What each request does to the tables, field by field, and what the inboxes show for it
 afterwards. Everything here is said of rows, records and watermarks themselves.
 */
module Effects {
  import opened Types
  import opened Storage
  import opened Protocol
  import opened Inbox
  import opened InboxHistory
  import opened CounterAgreement
  import opened AnyIds
  import opened Paging

  // ---- Sends ----

  /** A send is stored exactly when it names a tenant and targets that fit its kind; otherwise it changes nothing. */
  lemma SendCommits(s: State, e: Event)
    requires Enabled(s, e) && e.op.Send?
    ensures var d, id, db' := e.op.draft, e.op.id, Commit(s.db, e);
            var fits := match d.target
                        case Single => exists u :: u != "" && d.targetIds == [u]
                        case Multiple => d.targetIds != []
                        case Broadcast => d.targetIds == [];
            if d.tenant != "" && fits
            then && db'.records == s.db.records[id := Record(d.tenant, d.sender, d.target, d.targetIds, e.at, d.expireAt)]
                 && db'.rows.Keys == s.db.rows.Keys + (set k | k in e.op.rowIds)
                 && (forall i | 0 <= i < |d.targetIds| :: db'.rows[e.op.rowIds[i]] == Row(id, d.targetIds[i], Unread))
                 && (forall k | k in s.db.rows && k !in e.op.rowIds :: db'.rows[k] == s.db.rows[k])
                 && db'.marks == s.db.marks
            else db' == s.db
  {
    var d := e.op.draft;
    if d.target == Single && |d.targetIds| == 1 {
      assert d.targetIds == [d.targetIds[0]];
    }
    if ValidDraft(d) {
      InsertRowsKeys(s.db.rows, e.op.id, d.targetIds, e.op.rowIds);
      forall i | 0 <= i < |d.targetIds|
        ensures Commit(s.db, e).rows[e.op.rowIds[i]] == Row(e.op.id, d.targetIds[i], Unread)
      {
        InsertedRow(s.db.rows, e.op.id, d.targetIds, e.op.rowIds, i);
      }
    }
  }

  ghost predicate ValidSend(s: State, e: Event) {
    TablesOk(s) && Enabled(s, e) && e.op.Send? && ValidDraft(e.op.draft)
  }

  /** Each row of a direct send is listed unread in its addressee's inbox of the sender's kind, and only there. */
  lemma DirectSendArrives(s: State, e: Event, i: nat)
    requires ValidSend(s, e) && i < |e.op.draft.targetIds|
    ensures var d, u, db' := e.op.draft, e.op.draft.targetIds[i], Commit(s.db, e);
            var it := Item(e.op.id, Some(e.op.rowIds[i]));
            && (InTenantInbox(db', d.tenant, u, it) <==> d.sender == FromTenant)
            && (InPersonalInbox(db', d.tenant, u, it) <==> d.sender == FromUser)
            && (d.sender == FromTenant ==> it in TenantUnreadItems(db', d.tenant, u) && ShownStatus(db', d.tenant, u, it) == Unread)
            && (d.sender == FromUser ==> PersonalShownStatus(db', u, it) == Unread)
  {
    SendCommits(s, e);
    MarkBelow(s, e.op.draft.tenant, e.op.draft.targetIds[i]);
    var it := Item(e.op.id, Some(e.op.rowIds[i]));
    assert InJoin(Commit(s.db, e), e.op.draft.targetIds[i], it);
  }

  lemma MarkBelow(s: State, t: Tenant, u: User)
    requires Timely(s)
    ensures MarkOf(s.db, t, u).readAt <= s.clock && MarkOf(s.db, t, u).clearAt <= s.clock
  {
  }

  /** A broadcast is listed unread, without a row, in every user's inbox of the sender's kind, and only there. */
  lemma BroadcastArrives(s: State, e: Event, u: User)
    requires ValidSend(s, e) && e.op.draft.target == Broadcast
    ensures var d, db', it := e.op.draft, Commit(s.db, e), Item(e.op.id, None);
            && InJoin(db', u, it)
            && (InTenantInbox(db', d.tenant, u, it) <==> d.sender == FromTenant)
            && (InPersonalInbox(db', d.tenant, u, it) <==> d.sender == FromUser)
            && ShownStatus(db', d.tenant, u, it) == Unread && PersonalShownStatus(db', u, it) == Unread
  {
    SendCommits(s, e);
    MarkBelow(s, e.op.draft.tenant, u);
    assert forall k | k in s.db.rows :: RowFits(s.db, s.db.rows[k]);
    assert RowsFor(Commit(s.db, e), u, e.op.id) == {};
  }

  /** A direct send is in nobody else's inbox, and in no other tenant's. */
  lemma DirectSendReachesNoOther(s: State, e: Event, t: Tenant, u: User, row: Option<RowId>)
    requires ValidSend(s, e) && e.op.draft.target != Broadcast && (t != e.op.draft.tenant || u !in e.op.draft.targetIds)
    ensures var db', it := Commit(s.db, e), Item(e.op.id, row);
            !InTenantInbox(db', t, u, it) && !InPersonalInbox(db', t, u, it)
  {
    SendCommits(s, e);
    assert forall k | k in s.db.rows :: RowFits(s.db, s.db.rows[k]);
    InsertRowsKeys(s.db.rows, e.op.id, e.op.draft.targetIds, e.op.rowIds);
  }

  /** A direct send raises the unread count of its own kind by the user's occurrences, and no other count. */
  lemma DirectSendCounts(s: State, e: Event, t: Tenant, u: User, kind: SenderType)
    requires ValidSend(s, e)
    ensures var d := e.op.draft;
            CountUnread(Commit(s.db, e), t, u, kind)
            == CountUnread(s.db, t, u, kind)
               + if d.target != Broadcast && d.tenant == t && d.sender == kind then multiset(d.targetIds)[u] else 0
  {
    var r := RecordOf(e.op.draft, e.at);
    if Addresses(r, t, u, kind) {
      SendTruth(s.db, e.op.id, r, e.op.rowIds, t, u, kind);
    } else {
      assert forall k | k in s.db.rows :: RowFits(s.db, s.db.rows[k]);
      InsertUnread(s.db, e.op.id, r, e.op.rowIds, t, u, kind);
    }
  }

  // ---- Access ----

  /** Each answer has its own condition; a grant carries the stored record. */
  lemma AccessIff(db: DB, t: Tenant, u: User, id: NotifyId)
    ensures CheckAccess(db, t, u, id) == Denied(BadRequest) <==> u == "" || t == ""
    ensures CheckAccess(db, t, u, id) == Denied(NotFound) <==> u != "" && t != "" && id !in db.records
    ensures CheckAccess(db, t, u, id) == Denied(Forbidden)
            <==> && u != "" && t != "" && id in db.records
                 && (db.records[id].tenant != t || (db.records[id].target != Broadcast && u !in db.records[id].targetIds))
    ensures CheckAccess(db, t, u, id).Granted?
            <==> && u != "" && t != "" && id in db.records && db.records[id].tenant == t
                 && (db.records[id].target == Broadcast || u in db.records[id].targetIds)
    ensures CheckAccess(db, t, u, id).Granted? ==> CheckAccess(db, t, u, id).record == db.records[id]
  {
  }

  /** Event j is the send that stored the record. */
  ghost predicate StoredBy(es: seq<Event>, j: int, id: NotifyId, r: Record) {
    && 0 <= j < |es|
    && es[j].op.Send? && es[j].op.id == id
    && es[j].op.draft == Draft(r.tenant, r.sender, r.target, r.targetIds, r.expireAt) && es[j].at == r.createdAt
  }

  lemma NewRecord(s: State, e: Event, id: NotifyId)
    requires Enabled(s, e) && id in Commit(s.db, e).records
    ensures || (id in s.db.records && Commit(s.db, e).records[id] == s.db.records[id])
            || (&& e.op.Send? && e.op.id == id && e.op.draft.tenant != ""
                && Commit(s.db, e).records[id] == Record(e.op.draft.tenant, e.op.draft.sender, e.op.draft.target,
                                                         e.op.draft.targetIds, e.at, e.op.draft.expireAt))
  {
    if e.op.Send? {
      SendCommits(s, e);
    } else {
      CommitRecords(s.db, e, id);
    }
  }

  lemma TraceRecord(es: seq<Event>, ss: seq<State>, k: nat, id: NotifyId)
    requires Trace(INITIAL, es, ss) && k < |es| && id in ss[k + 1].db.records
    ensures || (id in ss[k].db.records && ss[k + 1].db.records[id] == ss[k].db.records[id])
            || (StoredBy(es, k, id, ss[k + 1].db.records[id]) && ss[k + 1].db.records[id].tenant != "")
  {
    NewRecord(ss[k], es[k], id);
  }

  lemma NothingAtStart(es: seq<Event>, ss: seq<State>)
    requires Trace(INITIAL, es, ss)
    ensures ss[0].db.records == map[]
  {
  }

  /** Every record is what its send asked for, and its tenant is not empty. */
  lemma {:induction false} RecordIsItsSend(es: seq<Event>, ss: seq<State>, k: nat, id: NotifyId, r: Record) returns (j: nat)
    requires Trace(INITIAL, es, ss) && k <= |es| && id in ss[k].db.records && ss[k].db.records[id] == r
    ensures j < k && StoredBy(es, j, id, r) && r.tenant != ""
    decreases k
  {
    NothingAtStart(es, ss);
    TraceRecord(es, ss, k - 1, id);
    if StoredBy(es, k - 1, id, r) && r.tenant != "" {
      j := k - 1;
    } else {
      j := RecordIsItsSend(es, ss, k - 1, id, r);
    }
  }

  lemma {:induction false} IssuedStays(es: seq<Event>, ss: seq<State>, j: nat, k: nat, id: NotifyId)
    requires Trace(INITIAL, es, ss) && j <= k <= |es| && id in ss[j].ids
    ensures id in ss[k].ids
    decreases k
  {
    if j < k {
      IssuedStays(es, ss, j, k - 1, id);
      assert Enabled(ss[k - 1], es[k - 1]);
    }
  }

  lemma SendIssues(es: seq<Event>, ss: seq<State>, j: nat)
    requires Trace(INITIAL, es, ss) && j < |es| && es[j].op.Send?
    ensures es[j].op.id !in ss[j].ids && es[j].op.id in ss[j + 1].ids
  {
  }

  /** An ID is sent once. */
  lemma OneSend(es: seq<Event>, ss: seq<State>, i: nat, j: nat)
    requires Trace(INITIAL, es, ss) && i < |es| && j < |es| && es[i].op.Send? && es[j].op.Send? && es[i].op.id == es[j].op.id
    ensures i == j
  {
    SendIssues(es, ss, i);
    SendIssues(es, ss, j);
    if i < j {
      IssuedStays(es, ss, i + 1, j, es[i].op.id);
    } else if j < i {
      IssuedStays(es, ss, j + 1, i, es[j].op.id);
    }
  }

  /**
   Over every run, while the notification is there: a non-empty user of tenant t is granted if and only
   if its send was made in t and was a broadcast or listed the user.
   */
  lemma GrantedIffSendListed(es: seq<Event>, ss: seq<State>, j: nat, k: nat, t: Tenant, u: User)
    requires Trace(INITIAL, es, ss) && j < |es| && k <= |es| && es[j].op.Send? && es[j].op.id in ss[k].db.records && u != ""
    ensures var d := es[j].op.draft;
            CheckAccess(ss[k].db, t, u, es[j].op.id).Granted? <==> d.tenant == t && (d.target == Broadcast || u in d.targetIds)
  {
    var id := es[j].op.id;
    var i := RecordIsItsSend(es, ss, k, id, ss[k].db.records[id]);
    OneSend(es, ss, i, j);
    AccessIff(ss[k].db, t, u, id);
  }

  // ---- Single operations ----

  predicate IsRowOf(row: Row, u: User, id: NotifyId) {
    row.user == u && row.notify == id
  }

  /** `k` is the first row of the user for the notification. */
  predicate First(db: DB, u: User, id: NotifyId, k: RowId) {
    k in db.rows && IsRowOf(db.rows[k], u, id) && forall j | j in db.rows && IsRowOf(db.rows[j], u, id) :: k <= j
  }

  /** A granted operation sets the user's first row, or makes one, and changes nothing else; a denied one changes nothing. */
  lemma ActCommits(s: State, e: Event)
    requires Enabled(s, e) && e.op.Act?
    ensures var u, id, db' := e.op.user, e.op.id, Commit(s.db, e);
            if CheckAccess(s.db, e.op.tenant, u, id).Granted?
            then && db'.records == s.db.records && db'.marks == s.db.marks
                 && (forall k | First(s.db, u, id, k) :: db'.rows == s.db.rows[k := Row(id, u, e.op.next)])
                 && ((forall k | k in s.db.rows :: !IsRowOf(s.db.rows[k], u, id)) ==> db'.rows == s.db.rows[e.op.newRow := Row(id, u, e.op.next)])
            else db' == s.db
  {
    var u, id := e.op.user, e.op.id;
    var found := RowsFor(s.db, u, id);
    forall k | First(s.db, u, id, k)
      ensures k in found && Least(found) == k
    {
      assert k in found;
    }
    if forall k | k in s.db.rows :: !IsRowOf(s.db.rows[k], u, id) {
      assert found == {};
    }
  }

  lemma SendMakesRow(s: State, e: Event, u: User)
    requires Enabled(s, e) && e.op.Send? && ValidDraft(e.op.draft) && u in e.op.draft.targetIds
    ensures RowsFor(Commit(s.db, e), u, e.op.id) != {}
  {
    SendCommits(s, e);
    var i :| 0 <= i < |e.op.draft.targetIds| && e.op.draft.targetIds[i] == u;
    assert e.op.rowIds[i] in RowsFor(Commit(s.db, e), u, e.op.id);
  }

  lemma TraceKeepsRow(es: seq<Event>, ss: seq<State>, k: nat, u: User, id: NotifyId)
    requires Trace(INITIAL, es, ss) && k < |es| && id in ss[k].ids && id in ss[k + 1].db.records
    ensures RowsFor(ss[k].db, u, id) != {} ==> RowsFor(ss[k + 1].db, u, id) != {}
  {
    RunKeepsTables(INITIAL, es, ss, k);
    CommitRows(ss[k], es[k], u, id);
  }

  lemma TraceKeepsThere(es: seq<Event>, ss: seq<State>, k: nat, id: NotifyId)
    requires Trace(INITIAL, es, ss) && k < |es| && id in ss[k].ids && id in ss[k + 1].db.records
    ensures id in ss[k].db.records
  {
    NewRecord(ss[k], es[k], id);
  }

  /** While a direct notification is there, every listed user has a row for it. */
  lemma {:induction false} ListedUserHasRow(es: seq<Event>, ss: seq<State>, j: nat, k: nat, u: User)
    requires Trace(INITIAL, es, ss) && j < k <= |es| && es[j].op.Send? && ValidDraft(es[j].op.draft)
    requires u in es[j].op.draft.targetIds && es[j].op.id in ss[k].db.records
    ensures RowsFor(ss[k].db, u, es[j].op.id) != {}
    decreases k
  {
    if k == j + 1 {
      SendMakesRow(ss[j], es[j], u);
    } else {
      SendIssues(es, ss, j);
      IssuedStays(es, ss, j + 1, k - 1, es[j].op.id);
      TraceKeepsThere(es, ss, k - 1, es[j].op.id);
      ListedUserHasRow(es, ss, j, k - 1, u);
      TraceKeepsRow(es, ss, k - 1, u, es[j].op.id);
    }
  }

  /**
   After any valid direct send, and while the notification is there, a listed user's read or delete
   goes through and sets the user's first row.
   */
  lemma ListedUserCanAct(es: seq<Event>, ss: seq<State>, j: nat, k: nat, e: Event)
    requires Trace(INITIAL, es, ss) && j < k <= |es| && es[j].op.Send? && ValidDraft(es[j].op.draft)
    requires Enabled(ss[k], e) && e.op.Act? && e.op.id == es[j].op.id && e.op.tenant == es[j].op.draft.tenant
    requires e.op.user != "" && e.op.user in es[j].op.draft.targetIds && e.op.id in ss[k].db.records
    ensures exists first :: First(ss[k].db, e.op.user, e.op.id, first)
    ensures forall first | First(ss[k].db, e.op.user, e.op.id, first) ::
              Commit(ss[k].db, e).rows == ss[k].db.rows[first := Row(e.op.id, e.op.user, e.op.next)]
  {
    GrantedIffSendListed(es, ss, j, k, e.op.tenant, e.op.user);
    ListedUserHasRow(es, ss, j, k, e.op.user);
    FirstExists(ss[k].db, e.op.user, e.op.id);
    ActCommits(ss[k], e);
  }

  lemma FirstExists(db: DB, u: User, id: NotifyId)
    requires RowsFor(db, u, id) != {}
    ensures First(db, u, id, Least(RowsFor(db, u, id)))
  {
    assert forall j | j in db.rows && IsRowOf(db.rows[j], u, id) :: j in RowsFor(db, u, id);
  }

  // ---- One-key operations ----

  /** A row of the user on a record of the tenant. */
  predicate Mine(db: DB, row: Row, t: Tenant, u: User) {
    row.user == u && row.notify in db.records && db.records[row.notify].tenant == t
  }

  /** On a direct record sent by the tenant. */
  predicate OnTenantDirect(db: DB, row: Row) {
    row.notify in db.records && db.records[row.notify].sender == FromTenant && db.records[row.notify].target != Broadcast
  }

  /** The row after a one-key operation of (t, u). */
  function RowAfter(db: DB, op: Op, row: Row): Row
    requires OneKey(op)
  {
    match op
    case UserRead(t, u) => if Mine(db, row, t, u) then Row(row.notify, row.user, Read) else row
    case TenantRead(t, u) => if Mine(db, row, t, u) && OnTenantDirect(db, row) then Row(row.notify, row.user, Read) else row
    case UserClear(t, u) => if Mine(db, row, t, u) then Row(row.notify, row.user, Deleted) else row
    case TenantClear(t, u) => if Mine(db, row, t, u) then Row(row.notify, row.user, Deleted) else row
  }

  /** A one-key operation rewrites exactly its rows, to read or to deleted, and touches no record. */
  lemma OneKeyCommits(db: DB, e: Event)
    requires OneKey(e.op)
    ensures Commit(db, e).records == db.records && Commit(db, e).rows.Keys == db.rows.Keys
    ensures forall k | k in db.rows :: Commit(db, e).rows[k] == RowAfter(db, e.op, db.rows[k])
  {
  }

  /** The two tenant operations set one watermark of their user to now; no other watermark moves under any request. */
  lemma MarksAfter(db: DB, e: Event, t: Tenant, u: User)
    ensures MarkOf(Commit(db, e), t, u).readAt == if e.op == TenantRead(t, u) then e.at else MarkOf(db, t, u).readAt
    ensures MarkOf(Commit(db, e), t, u).clearAt == if e.op == TenantClear(t, u) then e.at else MarkOf(db, t, u).clearAt
  {
  }

  /** After a one-key clear no inbox of the tenant lists anything that the user has a row for. */
  lemma ClearHidesRows(db: DB, e: Event, it: Item)
    requires (e.op.UserClear? || e.op.TenantClear?) && it.row.Some?
    ensures var db' := Commit(db, e);
            !InTenantInbox(db', e.op.tenant, e.op.user, it) && !InPersonalInbox(db', e.op.tenant, e.op.user, it)
  {
    OneKeyCommits(db, e);
    if it.row.value in db.rows {
      assert Commit(db, e).rows[it.row.value] == RowAfter(db, e.op, db.rows[it.row.value]);
    }
  }

  /** After a tenant one-key clear the user's tenant inbox is empty. */
  lemma TenantClearEmpties(s: State, e: Event)
    requires TablesOk(s) && Enabled(s, e) && e.op.TenantClear?
    ensures TenantInbox(Commit(s.db, e), e.op.tenant, e.op.user) == {}
  {
    MarksAfter(s.db, e, e.op.tenant, e.op.user);
    OneKeyCommits(s.db, e);
  }

  /** After a tenant one-key read nothing in the user's tenant inbox is counted or shown unread. */
  lemma TenantReadLeavesNoneUnread(s: State, e: Event)
    requires TablesOk(s) && Enabled(s, e) && e.op.TenantRead?
    ensures TenantUnreadItems(Commit(s.db, e), e.op.tenant, e.op.user) == {}
    ensures forall it | it in TenantInbox(Commit(s.db, e), e.op.tenant, e.op.user) ::
              ShownStatus(Commit(s.db, e), e.op.tenant, e.op.user, it) == Read
  {
    var db', t, u := Commit(s.db, e), e.op.tenant, e.op.user;
    MarksAfter(s.db, e, t, u);
    OneKeyCommits(s.db, e);
    forall it | it in TenantInbox(db', t, u)
      ensures !CountedUnread(db', t, u, it) && ShownStatus(db', t, u, it) == Read
    {
      if it.row.Some? {
        assert db'.rows[it.row.value] == RowAfter(s.db, e.op, s.db.rows[it.row.value]);
        assert RowFits(s.db, s.db.rows[it.row.value]);
      }
    }
  }

  /** After a user one-key read every listed notification with a row is shown read in both inboxes. */
  lemma UserReadShowsRead(db: DB, e: Event, it: Item)
    requires e.op.UserRead? && it.row.Some?
    ensures var db', t, u := Commit(db, e), e.op.tenant, e.op.user;
            && (InTenantInbox(db', t, u, it) ==> ShownStatus(db', t, u, it) == Read)
            && (InPersonalInbox(db', t, u, it) ==> PersonalShownStatus(db', u, it) == Read)
  {
    OneKeyCommits(db, e);
    if it.row.value in db.rows {
      assert Commit(db, e).rows[it.row.value] == RowAfter(db, e.op, db.rows[it.row.value]);
    }
  }

  // ---- Cleanup ----

  /** A cleanup batch takes away exactly the listed records and their rows. */
  lemma CleanupCommits(db: DB, e: Event)
    requires e.op.Cleanup?
    ensures forall n :: n in Commit(db, e).records <==> n in db.records && n !in e.op.expired
    ensures forall n | n in Commit(db, e).records :: Commit(db, e).records[n] == db.records[n]
    ensures forall k :: k in Commit(db, e).rows <==> k in db.rows && db.rows[k].notify !in e.op.expired
    ensures forall k | k in Commit(db, e).rows :: Commit(db, e).rows[k] == db.rows[k]
    ensures Commit(db, e).marks == db.marks
  {
  }

  // ---- Order of the inbox ----

  /** A listing of the tenant inbox shows newer notifications before older ones. */
  lemma NewestFirst(db: DB, tenant: Tenant, user: User, items: seq<Item>, i: nat, j: nat)
    requires Listing(items, TenantInbox(db, tenant, user), CreatedAt(db)) && i < j < |items|
    ensures items[i].notify in db.records && items[j].notify in db.records
    ensures db.records[items[i].notify].createdAt >= db.records[items[j].notify].createdAt
  {
    assert items[i] in items && items[j] in items;
    assert items[i] in TenantInbox(db, tenant, user) && items[j] in TenantInbox(db, tenant, user);
    assert CreatedAt(db)(items[i]) >= CreatedAt(db)(items[j]);
  }
}
