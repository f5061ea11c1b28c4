/**
 Deleted notifications that come back. Three requests rewrite deleted rows: the user one-key
 read, the tenant one-key read and a single read. This module says exactly when an inbox lists
 a deleted notification again, over one request and over every run.
 */
module Revival {
  import opened Types
  import opened Storage
  import opened Protocol
  import opened Inbox
  import opened InboxHistory
  import opened CounterAgreement

  // ---- One row, one request ----

  /** The request rewrites this row of `user` for `id` to read. */
  predicate Revives(db: DB, e: Event, k: RowId)
    requires k in db.rows && db.rows[k].notify in db.records
  {
    var row, r := db.rows[k], db.records[db.rows[k].notify];
    match e.op
    case UserRead(t, u) => t == r.tenant && u == row.user
    case TenantRead(t, u) => t == r.tenant && u == row.user && r.sender == FromTenant && r.target != Broadcast
    case Act(t, u, id, next, _) =>
      && u == row.user && id == row.notify && next == Read
      && CheckAccess(db, t, u, id).Granted?
      && k in RowsFor(db, u, id) && k == Least(RowsFor(db, u, id))
    case _ => false
  }

  lemma OneKeyRow(db: DB, e: Event, k: RowId)
    requires OneKey(e.op) && k in db.rows && db.rows[k].notify in db.records && db.rows[k].status == Deleted
    ensures k in Commit(db, e).rows && Commit(db, e).rows[k] == db.rows[k].(status := if Revives(db, e, k) then Read else Deleted)
  {
    match e.op
    case UserRead(t, u) => assert Revives(db, e, k) <==> k in RowsInTenant(db, t, u);
    case UserClear(t, u) =>
    case TenantRead(t, u) => assert Revives(db, e, k) <==> k in TenantDirectRows(db, t, u);
    case TenantClear(t, u) =>
  }

  /** A deleted row turns read under a reviving request, stays deleted under any other, or goes with its record. */
  lemma DeletedRowStep(s: State, e: Event, k: RowId)
    requires TablesOk(s) && Enabled(s, e) && k in s.db.rows && s.db.rows[k].status == Deleted && s.db.rows[k].notify in s.db.records
    ensures k in Commit(s.db, e).rows <==> s.db.rows[k].notify in Commit(s.db, e).records
    ensures k in Commit(s.db, e).rows ==>
              Commit(s.db, e).rows[k] == s.db.rows[k].(status := if Revives(s.db, e, k) then Read else Deleted)
  {
    match e.op
    case Send(_, d, rowIds) =>
      if ValidDraft(d) {
        InsertRowsKeys(s.db.rows, e.op.id, d.targetIds, rowIds);
      }
    case Act(_, _, _, _, _) =>
    case Cleanup(_) =>
    case _ => OneKeyRow(s.db, e, k);
  }

  // ---- One notification ----

  /** Some inbox of the user lists the notification. */
  ghost predicate Listed(db: DB, tenant: Tenant, user: User, id: NotifyId) {
    exists row :: InTenantInbox(db, tenant, user, Item(id, row)) || InPersonalInbox(db, tenant, user, Item(id, row))
  }

  /** No clear watermark of the user hides the record: always so for one sent by a user. */
  predicate Exposed(db: DB, user: User, id: NotifyId)
    requires id in db.records
  {
    db.records[id].sender == FromUser || MarkOf(db, db.records[id].tenant, user).clearAt < db.records[id].createdAt
  }

  predicate AllDeleted(db: DB, user: User, id: NotifyId) {
    forall k | k in RowsFor(db, user, id) :: db.rows[k].status == Deleted
  }

  /** With rows of the user, a notification is listed exactly when one of them is not deleted and no watermark hides it. */
  lemma ListedIff(db: DB, tenant: Tenant, user: User, id: NotifyId)
    requires id in db.records && db.records[id].tenant == tenant && RowsFor(db, user, id) != {}
    ensures Listed(db, tenant, user, id) <==> !AllDeleted(db, user, id) && Exposed(db, user, id)
  {
    if !AllDeleted(db, user, id) && Exposed(db, user, id) {
      var k :| k in RowsFor(db, user, id) && db.rows[k].status != Deleted;
      var it := Item(id, Some(k));
      assert InJoin(db, user, it);
      assert InTenantInbox(db, tenant, user, it) || InPersonalInbox(db, tenant, user, it);
    }
    if row :| InTenantInbox(db, tenant, user, Item(id, row)) || InPersonalInbox(db, tenant, user, Item(id, row)) {
      assert InJoin(db, user, Item(id, row)) && row.Some?;
      assert row.value in RowsFor(db, user, id) && db.rows[row.value].status != Deleted;
    }
  }

  /** The request rewrites some row of the user for the notification. */
  predicate RevivesOne(db: DB, e: Event, user: User, id: NotifyId)
    requires id in db.records
  {
    var r := db.records[id];
    match e.op
    case UserRead(t, u) => t == r.tenant && u == user
    case TenantRead(t, u) => t == r.tenant && u == user && r.sender == FromTenant && r.target != Broadcast
    case Act(t, u, n, next, _) => u == user && n == id && next == Read && CheckAccess(db, t, u, n).Granted?
    case _ => false
  }

  lemma RevivesSome(db: DB, e: Event, user: User, id: NotifyId)
    requires id in db.records && RowsFor(db, user, id) != {}
    ensures RevivesOne(db, e, user, id) <==> exists k :: k in RowsFor(db, user, id) && Revives(db, e, k)
  {
    var k := Least(RowsFor(db, user, id));
    assert RevivesOne(db, e, user, id) ==> Revives(db, e, k);
  }

  /** The rows of the user for a notification that is deleted and kept: the same ones, deleted unless revived. */
  lemma DeletedStep(s: State, e: Event, user: User, id: NotifyId)
    requires TablesOk(s) && Enabled(s, e) && id in s.db.records && id in Commit(s.db, e).records
    requires RowsFor(s.db, user, id) != {} && AllDeleted(s.db, user, id)
    ensures RowsFor(Commit(s.db, e), user, id) != {}
    ensures AllDeleted(Commit(s.db, e), user, id) <==> !RevivesOne(s.db, e, user, id)
  {
    var db' := Commit(s.db, e);
    SameRows(s, e, user, id);
    forall k | k in RowsFor(s.db, user, id)
      ensures db'.rows[k].status == if Revives(s.db, e, k) then Read else Deleted
    {
      DeletedRowStep(s, e, k);
    }
    RevivesSome(s.db, e, user, id);
    if k :| k in RowsFor(s.db, user, id) && Revives(s.db, e, k) {
      assert k in RowsFor(db', user, id) && db'.rows[k].status == Read;
    }
  }

  /** A user with rows for a kept notification keeps them and gets no others. */
  lemma SameRows(s: State, e: Event, user: User, id: NotifyId)
    requires TablesOk(s) && Enabled(s, e) && id in s.db.records && id in Commit(s.db, e).records && RowsFor(s.db, user, id) != {}
    ensures RowsFor(Commit(s.db, e), user, id) == RowsFor(s.db, user, id)
  {
    forall k
      ensures k in RowsFor(Commit(s.db, e), user, id) <==> k in RowsFor(s.db, user, id)
    {
      if k in RowsFor(s.db, user, id) {
        KeptRow(s, e, k);
      }
      if k in RowsFor(Commit(s.db, e), user, id) {
        OldRow(s, e, k, user, id);
      }
    }
  }

  lemma OldRow(s: State, e: Event, k: RowId, user: User, id: NotifyId)
    requires TablesOk(s) && Enabled(s, e) && id in s.db.records && RowsFor(s.db, user, id) != {}
    requires k in RowsFor(Commit(s.db, e), user, id)
    ensures k in RowsFor(s.db, user, id)
  {
    match e.op
    case Send(_, d, rowIds) =>
      if ValidDraft(d) {
        InsertRowsKeys(s.db.rows, e.op.id, d.targetIds, rowIds);
      }
    case Act(_, _, _, _, _) =>
    case _ => NoNewRows(s.db, e);
  }

  /**
   One request on a notification whose rows are all deleted and which is not removed: an inbox lists
   it afterwards if and only if the request revives a row and no clear watermark hides the record.
   */
  lemma ComesBackIff(s: State, e: Event, user: User, id: NotifyId)
    requires TablesOk(s) && Enabled(s, e) && id in s.db.records && id in Commit(s.db, e).records
    requires RowsFor(s.db, user, id) != {} && AllDeleted(s.db, user, id)
    ensures var tenant := s.db.records[id].tenant;
            && !Listed(s.db, tenant, user, id)
            && (Listed(Commit(s.db, e), tenant, user, id) <==> RevivesOne(s.db, e, user, id) && Exposed(s.db, user, id))
  {
    var db' := Commit(s.db, e);
    CommitRecords(s.db, e, id);
    DeletedStep(s, e, user, id);
    ListedIff(s.db, s.db.records[id].tenant, user, id);
    ListedIff(db', s.db.records[id].tenant, user, id);
    if RevivesOne(s.db, e, user, id) {
      RevivingKeepsClear(s.db, e, user, id);
    }
  }

  /** No reviving request moves the clear watermark. */
  lemma RevivingKeepsClear(db: DB, e: Event, user: User, id: NotifyId)
    requires id in db.records && RevivesOne(db, e, user, id)
    ensures MarkOf(Commit(db, e), db.records[id].tenant, user).clearAt == MarkOf(db, db.records[id].tenant, user).clearAt
  {
  }

  // ---- Whole runs ----

  /** Removed for good, or hidden for good, or deleted. */
  ghost predicate Away(s: State, tenant: Tenant, user: User, id: NotifyId) {
    && id in s.ids
    && (id in s.db.records ==>
          && s.db.records[id].tenant == tenant
          && RowsFor(s.db, user, id) != {}
          && (AllDeleted(s.db, user, id) || !Exposed(s.db, user, id)))
  }

  /** A reviving request finds the record gone or hidden by the clear watermark. */
  predicate StaysAway(s: State, e: Event, user: User, id: NotifyId) {
    id in s.db.records && RevivesOne(s.db, e, user, id) ==> !Exposed(s.db, user, id)
  }

  lemma AwayIsUnlisted(s: State, tenant: Tenant, user: User, id: NotifyId)
    requires Away(s, tenant, user, id)
    ensures !Listed(s.db, tenant, user, id)
  {
    if id in s.db.records {
      ListedIff(s.db, tenant, user, id);
    }
  }

  lemma HiddenStaysHidden(s: State, e: Event, user: User, id: NotifyId)
    requires TablesOk(s) && Enabled(s, e) && id in s.db.records && id in Commit(s.db, e).records && !Exposed(s.db, user, id)
    ensures !Exposed(Commit(s.db, e), user, id)
  {
    CommitRecords(s.db, e, id);
    CommitMarks(s, e, s.db.records[id].tenant, user);
  }

  /** From away, one request brings the notification back if and only if it does not stay away. */
  lemma AwayStep(s: State, e: Event, tenant: Tenant, user: User, id: NotifyId)
    requires TablesOk(s) && Enabled(s, e) && Away(s, tenant, user, id)
    ensures StaysAway(s, e, user, id) ==> Away(Step(s, e), tenant, user, id)
    ensures Listed(Step(s, e).db, tenant, user, id) <==> !StaysAway(s, e, user, id)
  {
    if id in Commit(s.db, e).records {
      CommitRecords(s.db, e, id);
      if Exposed(s.db, user, id) {
        DeletedStep(s, e, user, id);
        ComesBackIff(s, e, user, id);
      } else {
        SameRows(s, e, user, id);
        HiddenStaysHidden(s, e, user, id);
        AwayIsUnlisted(Step(s, e), tenant, user, id);
      }
    } else {
      RevivingKeepsRecord(s.db, e, user, id);
    }
  }

  lemma RevivingKeepsRecord(db: DB, e: Event, user: User, id: NotifyId)
    ensures id in db.records && RevivesOne(db, e, user, id) ==> id in Commit(db, e).records
  {
  }

  lemma TraceAway(es: seq<Event>, ss: seq<State>, k: nat, tenant: Tenant, user: User, id: NotifyId)
    requires Trace(INITIAL, es, ss) && k < |es| && Away(ss[k], tenant, user, id)
    ensures StaysAway(ss[k], es[k], user, id) ==> Away(ss[k + 1], tenant, user, id)
    ensures Listed(ss[k + 1].db, tenant, user, id) <==> !StaysAway(ss[k], es[k], user, id)
  {
    RunKeepsTables(INITIAL, es, ss, k);
    AwayStep(ss[k], es[k], tenant, user, id);
  }

  lemma TraceStaysAway(es: seq<Event>, ss: seq<State>, k: nat, tenant: Tenant, user: User, id: NotifyId)
    requires Trace(INITIAL, es, ss) && k < |es| && Away(ss[k], tenant, user, id) && StaysAway(ss[k], es[k], user, id)
    ensures Away(ss[k + 1], tenant, user, id)
  {
    TraceAway(es, ss, k, tenant, user, id);
  }

  lemma TraceUnlisted(es: seq<Event>, ss: seq<State>, k: nat, tenant: Tenant, user: User, id: NotifyId)
    requires Trace(INITIAL, es, ss) && k < |es| && Away(ss[k], tenant, user, id) && !Listed(ss[k + 1].db, tenant, user, id)
    ensures StaysAway(ss[k], es[k], user, id) && Away(ss[k + 1], tenant, user, id)
  {
    TraceAway(es, ss, k, tenant, user, id);
  }

  lemma {:induction false} AwayUpTo(es: seq<Event>, ss: seq<State>, i: nat, j: nat, tenant: Tenant, user: User, id: NotifyId)
    requires Trace(INITIAL, es, ss) && i <= j <= |es| && Away(ss[i], tenant, user, id)
    requires forall k {:trigger es[k]} | i <= k < j :: StaysAway(ss[k], es[k], user, id)
    ensures Away(ss[j], tenant, user, id)
    decreases j
  {
    if i < j {
      AwayUpTo(es, ss, i, j - 1, tenant, user, id);
      TraceStaysAway(es, ss, j - 1, tenant, user, id);
    }
  }

  lemma {:induction false} KeptAwayUpTo(es: seq<Event>, ss: seq<State>, i: nat, j: nat, tenant: Tenant, user: User, id: NotifyId)
    requires Trace(INITIAL, es, ss) && i <= j <= |es| && Away(ss[i], tenant, user, id)
    requires forall k | i <= k <= |es| :: !Listed(ss[k].db, tenant, user, id)
    ensures Away(ss[j], tenant, user, id) && forall k {:trigger es[k]} | i <= k < j :: StaysAway(ss[k], es[k], user, id)
    decreases j
  {
    if i < j {
      KeptAwayUpTo(es, ss, i, j - 1, tenant, user, id);
      TraceUnlisted(es, ss, j - 1, tenant, user, id);
    }
  }

  /**
   From a prefix on at which all of the user's rows of a notification are deleted, no inbox lists it
   after any later prefix if and only if every later user one-key read, tenant one-key read of a
   direct tenant notification and single read of it finds the record gone, or sent by the tenant at
   or before the user's clear watermark.
   */
  lemma DeletedStaysAwayIff(es: seq<Event>, ss: seq<State>, i: nat, user: User, id: NotifyId)
    requires Trace(INITIAL, es, ss) && i <= |es| && id in ss[i].db.records
    requires RowsFor(ss[i].db, user, id) != {} && AllDeleted(ss[i].db, user, id)
    ensures (forall j | i <= j <= |es| :: !Listed(ss[j].db, ss[i].db.records[id].tenant, user, id))
            <==> forall j {:trigger es[j]} | i <= j < |es| :: StaysAway(ss[j], es[j], user, id)
  {
    var tenant := ss[i].db.records[id].tenant;
    RunKeepsTables(INITIAL, es, ss, i);
    if forall j {:trigger es[j]} | i <= j < |es| :: StaysAway(ss[j], es[j], user, id) {
      forall j | i <= j <= |es|
        ensures !Listed(ss[j].db, tenant, user, id)
      {
        AwayUpTo(es, ss, i, j, tenant, user, id);
        AwayIsUnlisted(ss[j], tenant, user, id);
      }
    }
    if forall j | i <= j <= |es| :: !Listed(ss[j].db, tenant, user, id) {
      KeptAwayUpTo(es, ss, i, |es|, tenant, user, id);
    }
  }

  // ---- Runs that bring a deleted notification back ----

  const DELETE := Event(2, Act("t", "1", 1, Deleted, 2))

  /** One direct notification to user 1, deleted by the user. */
  lemma DeletedByUser(kind: SenderType) returns (s: State)
    ensures Reaches([DirectSend(1, kind)] + [DELETE], s) && TablesOk(s) && s.clock == 2 && s.rowIds == {1, 2}
    ensures s.db.records == map[1 := Record("t", kind, Single, ["1"], 1, None)] && s.db.marks == map[]
    ensures RowsFor(s.db, "1", 1) == {1} && AllDeleted(s.db, "1", 1)
  {
    ReachNothing();
    var s1 := SendOne([], INITIAL, 1, kind);
    assert [] + [DirectSend(1, kind)] == [DirectSend(1, kind)];
    s := DeleteOne(s1, kind);
  }

  lemma DeleteOne(s1: State, kind: SenderType) returns (s: State)
    requires Reaches([DirectSend(1, kind)], s1) && TablesOk(s1) && s1.clock == 1 && s1.rowIds == {1} && s1.db.marks == map[]
    requires s1.db.records == map[1 := Record("t", kind, Single, ["1"], 1, None)] && s1.db.rows == map[1 := Row(1, "1", Unread)]
    ensures Reaches([DirectSend(1, kind)] + [DELETE], s) && TablesOk(s) && s.clock == 2 && s.rowIds == {1, 2}
    ensures s.db.records == s1.db.records && s.db.marks == map[]
    ensures RowsFor(s.db, "1", 1) == {1} && AllDeleted(s.db, "1", 1)
  {
    assert RowsFor(s1.db, "1", 1) == {1};
    assert "1" in s1.db.records[1].targetIds;
    CommitKeepsTables(s1, DELETE);
    ActStep(s1, DELETE);
    s := Step(s1, DELETE);
    ReachNext([DirectSend(1, kind)], s1, DELETE, s);
    assert s.db.rows == map[1 := Row(1, "1", Deleted)];
  }

  /** Send, delete, then any request that revives it: the notification is listed again. */
  lemma RevivedRun(kind: SenderType, op: Op) returns (es: seq<Event>, s: State)
    requires || op == UserRead("t", "1")
             || (op == TenantRead("t", "1") && kind == FromTenant)
             || op == Act("t", "1", 1, Read, 3)
    ensures es == [DirectSend(1, kind)] + [DELETE] + [Event(3, op)] && Reaches(es, s)
    ensures Listed(s.db, "t", "1", 1)
  {
    var e := Event(3, op);
    var s2 := DeletedByUser(kind);
    assert "1" in s2.db.records[1].targetIds;
    assert RevivesOne(s2.db, e, "1", 1) && Exposed(s2.db, "1", 1);
    RevivingKeepsRecord(s2.db, e, "1", 1);
    ComesBackIff(s2, e, "1", 1);
    s := Step(s2, e);
    es := [DirectSend(1, kind)] + [DELETE];
    ReachNext(es, s2, e, s);
    es := es + [e];
  }
}
