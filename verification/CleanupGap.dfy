/**
 A cleanup batch as the source makes it: the transaction handle is unused, so the delete of the
 status rows and the delete of the records are two commits, and requests may be served between.
 */
module CleanupGap {
  import opened Types
  import opened Storage
  import opened UnreadCache
  import opened Protocol

  /** A request, or a batch with the requests served between its two deletes and the states they lead through. */
  datatype Phase = Served(e: Event) | Batch(at: Time, expired: seq<NotifyId>, during: seq<Event>, states: seq<State>)

  /** The state between the two deletes, before any request is served there. */
  function RowsGone(s: State, at: Time, expired: seq<NotifyId>): State {
    s.(db := DeleteStatuses(s.db, IdSet(expired)), clock := at)
  }

  ghost predicate CanPhase(s: State, p: Phase) {
    match p
    case Served(e) => Enabled(s, e) && !e.op.Cleanup?
    case Batch(at, expired, during, states) =>
      && s.clock < at
      && (forall n | n in expired :: n in ExpiredIds(s.db, at))
      && Trace(RowsGone(s, at, expired), during, states)
      && (forall e | e in during :: !e.op.Cleanup?)
  }

  function RecordsGone(s: State, expired: seq<NotifyId>, infos: seq<Record>): State {
    var db := DeleteRecords(s.db, IdSet(expired));
    s.(db := db, cache := Snapshot(db, s.cache, infos))
  }

  ghost function Pass(s: State, p: Phase): State
    requires CanPhase(s, p)
  {
    match p
    case Served(e) => Step(s, e)
    case Batch(at, expired, during, states) => RecordsGone(states[|during|], expired, Infos(s.db, expired))
  }

  /** A batch without requests in between is the cleanup step of the protocol. */
  lemma QuietBatchIsCleanup(s: State, at: Time, expired: seq<NotifyId>)
    requires CanPhase(s, Batch(at, expired, [], [RowsGone(s, at, expired)]))
    ensures Pass(s, Batch(at, expired, [], [RowsGone(s, at, expired)])) == Step(s, Event(at, Cleanup(expired)))
  {
    CleanupStep(s, Event(at, Cleanup(expired)));
  }

  // ---- Rows on the notifications being removed ----

  predicate Touched(db: DB, ids: set<NotifyId>) {
    exists k | k in db.rows :: db.rows[k].notify in ids
  }

  /** A granted single operation on a notification of the batch. */
  predicate Touches(db: DB, e: Event, ids: set<NotifyId>) {
    e.op.Act? && e.op.id in ids && CheckAccess(db, e.op.tenant, e.op.user, e.op.id).Granted?
  }

  predicate SameRecords(db: DB, db': DB, ids: set<NotifyId>) {
    forall n | n in ids :: n in db.records && n in db'.records && db'.records[n] == db.records[n]
  }

  lemma SendTouched(s: State, e: Event, ids: set<NotifyId>)
    requires TablesOk(s) && Enabled(s, e) && e.op.Send? && ids <= s.db.records.Keys
    ensures Touched(Commit(s.db, e), ids) <==> Touched(s.db, ids)
  {
    if ValidDraft(e.op.draft) {
      InsertRowsKeys(s.db.rows, e.op.id, e.op.draft.targetIds, e.op.rowIds);
      var db' := Commit(s.db, e);
      forall k | k in s.db.rows
        ensures k in db'.rows && db'.rows[k] == s.db.rows[k]
      {
      }
      if k :| k in db'.rows && db'.rows[k].notify in ids {
        assert k in s.db.rows;
      }
    }
  }

  lemma UpsertTouched(db: DB, user: User, id: NotifyId, next: Status, newRow: RowId, ids: set<NotifyId>)
    requires newRow !in db.rows
    ensures Touched(Upsert(db, user, id, next, newRow), ids) <==> Touched(db, ids) || id in ids
  {
    var found := RowsFor(db, user, id);
    var k := if found == {} then newRow else Least(found);
    var db' := Upsert(db, user, id, next, newRow);
    assert db'.rows[k] == Row(id, user, next);
    forall j | j in db.rows
      ensures j in db'.rows && db'.rows[j].notify == db.rows[j].notify
    {
    }
    if j :| j in db'.rows && db'.rows[j].notify in ids {
      assert j != k ==> j in db.rows;
    }
  }

  lemma RestatusTouched(db: DB, marks: map<(Tenant, User), Mark>, selected: set<RowId>, next: Status, ids: set<NotifyId>)
    ensures Touched(Restatus(db.(marks := marks), selected, next), ids) <==> Touched(db, ids)
  {
    var db' := Restatus(db.(marks := marks), selected, next);
    assert forall k | k in db.rows :: k in db'.rows && db'.rows[k].notify == db.rows[k].notify;
    if k :| k in db'.rows && db'.rows[k].notify in ids {
      assert db.rows[k].notify in ids;
    }
  }

  /** Only a granted single operation puts a row on a notification of the batch. */
  lemma CommitTouched(s: State, e: Event, ids: set<NotifyId>)
    requires TablesOk(s) && Enabled(s, e) && !e.op.Cleanup? && ids <= s.db.records.Keys
    ensures Touched(Commit(s.db, e), ids) <==> Touched(s.db, ids) || Touches(s.db, e, ids)
  {
    match e.op
    case Send(_, _, _) => SendTouched(s, e, ids);
    case Act(t, u, id, next, newRow) =>
      if CheckAccess(s.db, t, u, id).Granted? {
        UpsertTouched(s.db, u, id, next, newRow, ids);
      }
    case UserRead(t, u) => RestatusTouched(s.db, s.db.marks, RowsInTenant(s.db, t, u), Read, ids);
    case UserClear(t, u) => RestatusTouched(s.db, s.db.marks, RowsInTenant(s.db, t, u), Deleted, ids);
    case TenantRead(t, u) => RestatusTouched(s.db, SetReadAt(s.db, t, u, e.at).marks, TenantDirectRows(s.db, t, u), Read, ids);
    case TenantClear(t, u) => RestatusTouched(s.db, SetClearAt(s.db, t, u, e.at).marks, RowsInTenant(s.db, t, u), Deleted, ids);
  }

  lemma CommitSameRecords(s: State, e: Event, ids: set<NotifyId>)
    requires TablesOk(s) && Enabled(s, e) && !e.op.Cleanup? && ids <= s.db.records.Keys
    ensures SameRecords(s.db, Commit(s.db, e), ids)
  {
    assert forall n | n in ids :: n in s.ids;
  }

  lemma SameAccess(db: DB, db': DB, e: Event, ids: set<NotifyId>)
    requires SameRecords(db, db', ids)
    ensures Touches(db', e, ids) <==> Touches(db, e, ids)
  {
  }

  lemma TraceTouched(s: State, es: seq<Event>, ss: seq<State>, k: nat, ids: set<NotifyId>)
    requires Trace(s, es, ss) && k < |es| && !es[k].op.Cleanup? && TablesOk(ss[k]) && SameRecords(s.db, ss[k].db, ids)
    ensures SameRecords(s.db, ss[k + 1].db, ids)
    ensures Touched(ss[k + 1].db, ids) <==> Touched(ss[k].db, ids) || Touches(s.db, es[k], ids)
  {
    assert ids <= ss[k].db.records.Keys;
    CommitTouched(ss[k], es[k], ids);
    CommitSameRecords(ss[k], es[k], ids);
    SameAccess(s.db, ss[k].db, es[k], ids);
  }

  /** Over the requests served in the gap: a row appears exactly when one of them is such an operation. */
  lemma {:induction false} RunTouched(s: State, es: seq<Event>, ss: seq<State>, k: nat, ids: set<NotifyId>)
    requires TablesOk(s) && Trace(s, es, ss) && k <= |es| && ids <= s.db.records.Keys && forall e | e in es :: !e.op.Cleanup?
    ensures SameRecords(s.db, ss[k].db, ids)
    ensures Touched(ss[k].db, ids) <==> Touched(s.db, ids) || exists j | 0 <= j < k :: Touches(s.db, es[j], ids)
    decreases k
  {
    if k > 0 {
      RunTouched(s, es, ss, k - 1, ids);
      RunKeepsTables(s, es, ss, k - 1);
      TraceTouched(s, es, ss, k - 1, ids);
    }
  }

  // ---- The two deletes ----

  lemma RowsGoneOk(s: State, at: Time, expired: seq<NotifyId>)
    requires TablesOk(s) && s.clock < at
    ensures TablesOk(RowsGone(s, at, expired)) && !Touched(RowsGone(s, at, expired).db, IdSet(expired))
  {
    var s' := RowsGone(s, at, expired);
    forall k | k in s'.db.rows
      ensures RowFits(s'.db, s'.db.rows[k])
    {
      assert RowFits(s.db, s.db.rows[k]);
    }
  }

  /** Deleting the records leaves the tables sound exactly when no row refers to them. */
  lemma RecordsGoneOkIff(s: State, expired: seq<NotifyId>, infos: seq<Record>)
    requires TablesOk(s)
    ensures TablesOk(RecordsGone(s, expired, infos)) <==> !Touched(s.db, IdSet(expired))
  {
    var db' := RecordsGone(s, expired, infos).db;
    if Touched(s.db, IdSet(expired)) {
      var k :| k in s.db.rows && s.db.rows[k].notify in IdSet(expired);
      assert !RowFits(db', db'.rows[k]);
    } else {
      forall k | k in db'.rows
        ensures RowFits(db', db'.rows[k])
      {
        assert RowFits(s.db, s.db.rows[k]);
      }
    }
  }

  /** No request served in the gap is a granted single operation on a notification of the batch. */
  ghost predicate CleanGap(s: State, p: Phase) {
    p.Batch? ==> forall e | e in p.during :: !Touches(s.db, e, IdSet(p.expired))
  }

  /** A batch leaves no orphan row, and the tables sound, if and only if its gap is clean. */
  lemma BatchKeepsTablesIff(s: State, p: Phase)
    requires TablesOk(s) && CanPhase(s, p) && p.Batch?
    ensures TablesOk(Pass(s, p)) <==> CleanGap(s, p)
  {
    var s1, ids, n := RowsGone(s, p.at, p.expired), IdSet(p.expired), |p.during|;
    RowsGoneOk(s, p.at, p.expired);
    RunKeepsTables(s1, p.during, p.states, n);
    RunTouched(s1, p.during, p.states, n, ids);
    RecordsGoneOkIff(p.states[n], p.expired, Infos(s.db, p.expired));
    forall e
      ensures Touches(s1.db, e, ids) <==> Touches(s.db, e, ids)
    {
      SameAccess(s.db, s1.db, e, ids);
    }
  }

  // ---- Whole runs ----

  ghost predicate PhaseRun(ps: seq<Phase>, ss: seq<State>) {
    && |ss| == |ps| + 1
    && ss[0] == INITIAL
    && forall k | 0 <= k < |ps| :: CanPhase(ss[k], ps[k]) && ss[k + 1] == Pass(ss[k], ps[k])
  }

  lemma PhaseKeepsTablesIff(ps: seq<Phase>, ss: seq<State>, k: nat)
    requires PhaseRun(ps, ss) && k < |ps| && TablesOk(ss[k])
    ensures TablesOk(ss[k + 1]) <==> CleanGap(ss[k], ps[k])
  {
    match ps[k]
    case Served(e) => CommitKeepsTables(ss[k], e);
    case Batch(_, _, _, _) => BatchKeepsTablesIff(ss[k], ps[k]);
  }

  lemma {:induction false} TablesUpTo(ps: seq<Phase>, ss: seq<State>, k: nat)
    requires PhaseRun(ps, ss) && k <= |ps| && forall j | 0 <= j < k :: CleanGap(ss[j], ps[j])
    ensures TablesOk(ss[k])
    decreases k
  {
    if k > 0 {
      TablesUpTo(ps, ss, k - 1);
      PhaseKeepsTablesIff(ps, ss, k - 1);
    }
  }

  /**
   Over every run with the two deletes apart, the tables are sound after every phase if and only if
   no granted single operation on an expiring notification is served between its two deletes.
   */
  lemma GapsKeepTablesIff(ps: seq<Phase>, ss: seq<State>)
    requires PhaseRun(ps, ss)
    ensures (forall k | 0 <= k <= |ps| :: TablesOk(ss[k])) <==> forall k | 0 <= k < |ps| :: CleanGap(ss[k], ps[k])
  {
    if forall k | 0 <= k < |ps| :: CleanGap(ss[k], ps[k]) {
      forall k | 0 <= k <= |ps|
        ensures TablesOk(ss[k])
      {
        TablesUpTo(ps, ss, k);
      }
    }
    if forall k | 0 <= k <= |ps| :: TablesOk(ss[k]) {
      forall k | 0 <= k < |ps|
        ensures CleanGap(ss[k], ps[k])
      {
        assert TablesOk(ss[k]) && TablesOk(ss[k + 1]);
        PhaseKeepsTablesIff(ps, ss, k);
      }
    }
  }

  // ---- An orphan row ----

  const BRIEF := Event(1, Send(7, Draft("t", FromTenant, Broadcast, [], Some(2)), []))
  const READ := Event(3, Act("t", "1", 7, Read, 5))

  lemma BriefSent() returns (s: State)
    ensures Reaches([BRIEF], s) && TablesOk(s) && s.clock == 1 && s.rowIds == {}
    ensures s.db.records == map[7 := RecordOf(BRIEF.op.draft, 1)]
  {
    CommitKeepsTables(INITIAL, BRIEF);
    s := Step(INITIAL, BRIEF);
    ReachNothing();
    ReachNext([], INITIAL, BRIEF, s);
    assert [] + [BRIEF] == [BRIEF];
  }

  lemma ReadInGap(s: State) returns (p: Phase)
    requires s.clock == 1 && s.rowIds == {} && s.db.records == map[7 := RecordOf(BRIEF.op.draft, 1)]
    ensures p.Batch? && p.during == [READ] && CanPhase(s, p) && !CleanGap(s, p)
  {
    var s1 := RowsGone(s, 2, [7]);
    assert Enabled(s1, READ);
    p := Batch(2, [7], [READ], [s1, Step(s1, READ)]);
    assert READ in p.during && Touches(s.db, READ, IdSet([7]));
  }

  /** A broadcast expires, and a user reads it between the two deletes. */
  lemma OrphanRun() returns (s: State, p: Phase)
    ensures Reaches([BRIEF], s) && p.Batch? && p.during == [READ] && CanPhase(s, p) && !TablesOk(Pass(s, p))
  {
    s := BriefSent();
    p := ReadInGap(s);
    BatchKeepsTablesIff(s, p);
  }
}
