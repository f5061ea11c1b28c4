/**
 The counter bound for user IDs of any form. A recount may be abandoned because some listed user
 is not an int64, and writes 0 for an ID that is not canonical; neither lets a counter exceed the
 unread rows. Only a listed user with more unread rows that denotes the same int64 does.
 */
module AnyIds {
  import opened Types
  import opened Keys
  import opened UserIds
  import opened Storage
  import opened UnreadCache
  import opened Protocol
  import opened CounterAgreement

  /** If the recount goes through, whoever it counts under the user's ID has no more unread rows than the user. */
  ghost predicate NotOutdone(db: DB, t: Tenant, users: seq<User>, kind: SenderType, u: User) {
    GroupedCounts(db, t, users, kind).Some? ==>
      forall i | Prevails(Trip, JoinCount(db, t, kind), users, i, u) :: Truth(db, t, users[i], kind) <= Truth(db, t, u, kind)
  }

  // ---- Increments ----

  lemma {:induction false} IncrAtMost(c: Cache, keys: seq<Key>, k: Key)
    ensures Num(c, k) <= Num(IncrExisting(c, keys), k) <= Num(c, k) + multiset(keys)[k]
  {
    if keys != [] {
      var last := |keys| - 1;
      IncrAtMost(c, keys[..last], k);
      assert keys == keys[..last] + [keys[last]];
    }
  }

  lemma {:induction false} KeysOf(t: Tenant, users: seq<User>, kind: SenderType, u: User)
    ensures multiset(CounterKeys(t, users, kind))[CounterKey(t, u, kind)] == multiset(users)[u]
  {
    if users != [] {
      var last := |users| - 1;
      KeysOf(t, users[..last], kind, u);
      assert users == users[..last] + [users[last]];
      assert CounterKeys(t, users, kind) == CounterKeys(t, users[..last], kind) + [CounterKey(t, users[last], kind)];
    }
  }

  // ---- New rows ----

  ghost function RowsOf(rows: map<RowId, Row>, id: NotifyId, u: User): set<RowId> {
    set k | k in rows && rows[k].notify == id && rows[k].user == u && rows[k].status == Unread
  }

  lemma RowsOfInsert(rows: map<RowId, Row>, id: NotifyId, k: RowId, user: User, u: User)
    requires k !in rows
    ensures RowsOf(rows[k := Row(id, user, Unread)], id, u) == RowsOf(rows, id, u) + (if user == u then {k} else {})
  {
  }

  /** A send makes one unread row per occurrence of the user. */
  lemma {:induction false} OneRowPerOccurrence(rows: map<RowId, Row>, id: NotifyId, users: seq<User>, rowIds: seq<RowId>, u: User)
    requires |users| == |rowIds| && (forall k | k in rowIds :: k !in rows) && RowsOf(rows, id, u) == {}
    requires forall i, j | 0 <= i < j < |rowIds| :: rowIds[i] != rowIds[j]
    ensures |RowsOf(InsertRows(rows, id, users, rowIds), id, u)| == multiset(users)[u]
  {
    if users != [] {
      var last := |users| - 1;
      var k, before := rowIds[last], InsertRows(rows, id, users[..last], rowIds[..last]);
      OneRowPerOccurrence(rows, id, users[..last], rowIds[..last], u);
      FreshKey(rows, id, users, rowIds);
      RowsOfInsert(before, id, k, users[last], u);
      assert users == users[..last] + [users[last]];
    }
  }

  lemma FreshKey(rows: map<RowId, Row>, id: NotifyId, users: seq<User>, rowIds: seq<RowId>)
    requires |users| == |rowIds| > 0 && (forall k | k in rowIds :: k !in rows)
    requires forall i, j | 0 <= i < j < |rowIds| :: rowIds[i] != rowIds[j]
    ensures rowIds[|users| - 1] !in InsertRows(rows, id, users[..|users| - 1], rowIds[..|users| - 1])
  {
    InsertRowsKeys(rows, id, users[..|users| - 1], rowIds[..|users| - 1]);
  }

  /** After a send the user's unread rows are the old ones and the new ones. */
  lemma UnreadSplit(db: DB, id: NotifyId, r: Record, rowIds: seq<RowId>, t: Tenant, u: User, kind: SenderType)
    requires Fitting(db) && |rowIds| == |r.targetIds| && id !in db.records && forall k | k in rowIds :: k !in db.rows
    requires Addresses(r, t, u, kind)
    ensures var db' := InsertRecord(db, id, r, rowIds);
            && UnreadRows(db', t, u, kind) == UnreadRows(db, t, u, kind) + RowsOf(db'.rows, id, u)
            && UnreadRows(db, t, u, kind) !! RowsOf(db'.rows, id, u)
  {
    var db' := InsertRecord(db, id, r, rowIds);
    InsertRowsKeys(db.rows, id, r.targetIds, rowIds);
    forall k
      ensures k in UnreadRows(db', t, u, kind) <==> k in UnreadRows(db, t, u, kind) || k in RowsOf(db'.rows, id, u)
      ensures !(k in UnreadRows(db, t, u, kind) && k in RowsOf(db'.rows, id, u))
    {
      if k in db.rows {
        assert RowFits(db, db.rows[k]);
      }
    }
  }

  lemma SendTruth(db: DB, id: NotifyId, r: Record, rowIds: seq<RowId>, t: Tenant, u: User, kind: SenderType)
    requires Fitting(db) && |rowIds| == |r.targetIds| && id !in db.records && forall k | k in rowIds :: k !in db.rows
    requires forall i, j | 0 <= i < j < |rowIds| :: rowIds[i] != rowIds[j]
    requires Addresses(r, t, u, kind)
    ensures Truth(InsertRecord(db, id, r, rowIds), t, u, kind) == Truth(db, t, u, kind) + multiset(r.targetIds)[u]
  {
    assert RowsOf(db.rows, id, u) == {} by {
      assert forall k | k in db.rows :: RowFits(db, db.rows[k]);
    }
    OneRowPerOccurrence(db.rows, id, r.targetIds, rowIds, u);
    UnreadSplit(db, id, r, rowIds, t, u, kind);
  }

  // ---- One send ----

  lemma RecountWithinIff(db: DB, c: Cache, t: Tenant, users: seq<User>, kind: SenderType, u: User)
    requires u in users && GroupedCounts(db, t, users, kind).Some?
    ensures 0 <= Counter(Reconcile(db, c, t, users, kind), t, u, kind)
    ensures Counter(Reconcile(db, c, t, users, kind), t, u, kind) <= Truth(db, t, u, kind) <==> NotOutdone(db, t, users, kind, u)
  {
    var counts, count := GroupedCounts(db, t, users, kind).value, JoinCount(db, t, kind);
    WriteCountsKeys(c, t, users, kind, counts);
    CounterKeyIn(t, users, kind, CounterKey(t, u, kind));
    forall i | Prevails(Trip, count, users, i, u)
      ensures CountFor(counts, u) == Truth(db, t, users[i], kind)
    {
      PrevailingCount(Trip, count, users, i, u);
    }
    if CountFor(counts, u) != 0 {
      var i := SomeonePrevails(Trip, count, users, u);
    }
  }

  /** After a send to the user: counted right up to the bound, or abandoned after the increments. */
  lemma CountSendWithinIff(db: DB, c: Cache, t: Tenant, users: seq<User>, kind: SenderType, u: User)
    requires u in users && 0 <= Counter(c, t, u, kind) && Counter(c, t, u, kind) + multiset(users)[u] <= Truth(db, t, u, kind)
    ensures 0 <= Counter(CountSend(db, c, t, users, kind), t, u, kind)
    ensures Counter(CountSend(db, c, t, users, kind), t, u, kind) <= Truth(db, t, u, kind) <==> NotOutdone(db, t, users, kind, u)
  {
    var keys := CounterKeys(t, users, kind);
    if GroupedCounts(db, t, users, kind).Some? {
      RecountWithinIff(db, IncrExisting(c, keys), t, users, kind, u);
    } else {
      IncrAtMost(c, keys, CounterKey(t, u, kind));
      KeysOf(t, users, kind, u);
    }
  }

  /** A send leaves the counters of everybody else alone. */
  lemma CountSendOthers(db: DB, c: Cache, tenant: Tenant, users: seq<User>, sender: SenderType, t: Tenant, u: User, kind: SenderType)
    requires !(sender == kind && tenant == t && u in users)
    ensures Counter(CountSend(db, c, tenant, users, sender), t, u, kind) == Counter(c, t, u, kind)
  {
    var keys := CounterKeys(tenant, users, sender);
    CounterKeyIn(tenant, users, sender, CounterKey(t, u, kind));
    IncrExistingKeys(c, keys);
    match GroupedCounts(db, tenant, users, sender)
    case None =>
    case Some(counts) => WriteCountsKeys(IncrExisting(c, keys), tenant, users, sender, counts);
  }

  lemma InsertWithinIff(db: DB, c: Cache, id: NotifyId, r: Record, rowIds: seq<RowId>, t: Tenant, u: User, kind: SenderType)
    requires Fitting(db) && |rowIds| == |r.targetIds| && id !in db.records && forall k | k in rowIds :: k !in db.rows
    requires forall i, j | 0 <= i < j < |rowIds| :: rowIds[i] != rowIds[j]
    requires r.target != Broadcast && 0 <= Counter(c, t, u, kind) <= Truth(db, t, u, kind)
    ensures var db' := InsertRecord(db, id, r, rowIds);
            0 <= Counter(CountSend(db', c, r.tenant, r.targetIds, r.sender), t, u, kind) <= Truth(db', t, u, kind)
            <==> (Addresses(r, t, u, kind) ==> NotOutdone(db', t, r.targetIds, kind, u))
  {
    var db' := InsertRecord(db, id, r, rowIds);
    if Addresses(r, t, u, kind) {
      SendTruth(db, id, r, rowIds, t, u, kind);
      CountSendWithinIff(db', c, t, r.targetIds, kind, u);
    } else {
      CountSendOthers(db', c, r.tenant, r.targetIds, r.sender, t, u, kind);
      assert forall k | k in db.rows :: RowFits(db, db.rows[k]);
      InsertUnread(db, id, r, rowIds, t, u, kind);
    }
  }

  /** The user is among the targets of a direct send of this kind. */
  predicate SendsTo(e: Event, t: Tenant, u: User, kind: SenderType) {
    e.op.Send? && ValidDraft(e.op.draft) && Addresses(RecordOf(e.op.draft, e.at), t, u, kind)
  }

  lemma SendWithinIff(s: State, e: Event, t: Tenant, u: User, kind: SenderType)
    requires TablesOk(s) && Enabled(s, e) && Within(s, t, u, kind) && e.op.Send? && ValidDraft(e.op.draft)
    ensures Within(Step(s, e), t, u, kind)
            <==> (SendsTo(e, t, u, kind) ==> NotOutdone(Commit(s.db, e), t, e.op.draft.targetIds, kind, u))
  {
    var r := RecordOf(e.op.draft, e.at);
    if r.target == Broadcast {
      BroadcastWithin(s, e, t, u, kind);
    } else {
      InsertWithinIff(s.db, s.cache, e.op.id, r, e.op.rowIds, t, u, kind);
    }
  }

  lemma BroadcastWithin(s: State, e: Event, t: Tenant, u: User, kind: SenderType)
    requires TablesOk(s) && Enabled(s, e) && Within(s, t, u, kind)
    requires e.op.Send? && ValidDraft(e.op.draft) && e.op.draft.target == Broadcast
    ensures Within(Step(s, e), t, u, kind)
  {
    assert AllCanonical(e.op.draft.targetIds);
    SendCounters(s, e, t, u, kind);
  }

  // ---- Whole runs ----

  /** A send as the service makes it: with no stored expiry. */
  predicate Plain(e: Event) {
    e.op.Send? ==> e.op.draft.expireAt.None?
  }

  predicate NoExpiry(db: DB) {
    forall n | n in db.records :: db.records[n].expireAt.None?
  }

  /** Nothing expires, so a cleanup finds nothing and changes nothing. */
  lemma IdleCleanup(s: State, e: Event)
    requires NoExpiry(s.db) && Enabled(s, e) && e.op.Cleanup?
    ensures Step(s, e).db == s.db && Step(s, e).cache == s.cache
  {
    CleanupStep(s, e);
    assert |e.op.expired| > 0 ==> e.op.expired[0] in ExpiredIds(s.db, e.at);
    assert Infos(s.db, []) == [];
    assert Step(s, e).db.rows == s.db.rows && Step(s, e).db.records == s.db.records;
  }

  /** The requests that can push a counter over the unread rows, and when they do not. */
  ghost predicate KeepsWithin(s: State, e: Event, t: Tenant, u: User, kind: SenderType) {
    && (SendsTo(e, t, u, kind) ==> NotOutdone(Commit(s.db, e), t, e.op.draft.targetIds, kind, u))
    && (Strands(e.op, t, u, kind) ==> Counter(s.cache, t, u, kind) == 0)
  }

  lemma PlainStepIff(s: State, e: Event, t: Tenant, u: User, kind: SenderType)
    requires TablesOk(s) && NoExpiry(s.db) && Enabled(s, e) && Within(s, t, u, kind)
    ensures Within(Step(s, e), t, u, kind) <==> KeepsWithin(s, e, t, u, kind)
  {
    match e.op
    case Send(_, d, _) => if ValidDraft(d) { SendWithinIff(s, e, t, u, kind); }
    case Act(_, _, _, _, _) => ActJudged(s, e, t, u, kind);
    case Cleanup(_) => IdleCleanup(s, e);
    case UserRead(_, _) => UserOneKeyJudged(s, e, t, u, kind);
    case UserClear(_, _) => UserOneKeyJudged(s, e, t, u, kind);
    case _ => TenantOneKeyJudged(s, e, t, u, kind);
  }

  lemma StepNoExpiry(s: State, e: Event)
    requires NoExpiry(s.db) && Plain(e)
    ensures NoExpiry(Commit(s.db, e))
  {
    forall n | n in Commit(s.db, e).records
      ensures Commit(s.db, e).records[n].expireAt.None?
    {
      CommitRecords(s.db, e, n);
    }
  }

  lemma {:induction false} RunNoExpiry(es: seq<Event>, ss: seq<State>, k: nat)
    requires Trace(INITIAL, es, ss) && k <= |es| && forall e | e in es :: Plain(e)
    ensures NoExpiry(ss[k].db)
    decreases k
  {
    if k > 0 {
      RunNoExpiry(es, ss, k - 1);
      StepNoExpiry(ss[k - 1], es[k - 1]);
    }
  }

  lemma RunWithinIff(es: seq<Event>, ss: seq<State>, k: nat, t: Tenant, u: User, kind: SenderType)
    requires Trace(INITIAL, es, ss) && k < |es| && (forall e | e in es :: Plain(e)) && Within(ss[k], t, u, kind)
    ensures Within(ss[k + 1], t, u, kind) <==> KeepsWithin(ss[k], es[k], t, u, kind)
  {
    RunKeepsTables(INITIAL, es, ss, k);
    RunNoExpiry(es, ss, k);
    PlainStepIff(ss[k], es[k], t, u, kind);
  }

  lemma {:induction false} WithinUpTo(es: seq<Event>, ss: seq<State>, k: nat, t: Tenant, u: User, kind: SenderType)
    requires Trace(INITIAL, es, ss) && k <= |es| && forall e | e in es :: Plain(e)
    requires forall j | 0 <= j < k :: KeepsWithin(ss[j], es[j], t, u, kind)
    ensures Within(ss[k], t, u, kind)
    decreases k
  {
    if k > 0 {
      WithinUpTo(es, ss, k - 1, t, u, kind);
      RunWithinIff(es, ss, k - 1, t, u, kind);
    }
  }

  /**
   Over every run of the service's own sends, user IDs of any form: a counter lies between 0 and the
   unread rows after every prefix if and only if no recount of a send to the user is outdone by a
   listed user of the same int64 with more unread rows, and no stranding operation finds it above 0.
   */
  lemma AnyIdBoundedIff(es: seq<Event>, ss: seq<State>, t: Tenant, u: User, kind: SenderType)
    requires Trace(INITIAL, es, ss) && forall e | e in es :: Plain(e)
    ensures (forall k | 0 <= k <= |es| :: Within(ss[k], t, u, kind)) <==> forall k | 0 <= k < |es| :: KeepsWithin(ss[k], es[k], t, u, kind)
  {
    if forall k | 0 <= k < |es| :: KeepsWithin(ss[k], es[k], t, u, kind) {
      forall k | 0 <= k <= |es|
        ensures Within(ss[k], t, u, kind)
      {
        WithinUpTo(es, ss, k, t, u, kind);
      }
    }
    if forall k | 0 <= k <= |es| :: Within(ss[k], t, u, kind) {
      forall k | 0 <= k < |es|
        ensures KeepsWithin(ss[k], es[k], t, u, kind)
      {
        assert Within(ss[k], t, u, kind) && Within(ss[k + 1], t, u, kind);
        RunWithinIff(es, ss, k, t, u, kind);
      }
    }
  }

  /** No two listed IDs denote the same int64. */
  ghost predicate Apart(users: seq<User>) {
    forall v, w | v in users && w in users && Trip(v).Some? && Trip(v) == Trip(w) :: v == w
  }

  lemma ApartNotOutdone(db: DB, t: Tenant, users: seq<User>, kind: SenderType, u: User)
    requires u in users && Apart(users)
    ensures NotOutdone(db, t, users, kind, u)
  {
    forall i | Prevails(Trip, JoinCount(db, t, kind), users, i, u)
      ensures users[i] == u
    {
      TripIsCanonical(users[i]);
      CanonicalTrips(u);
    }
  }

  /** In particular the bound holds when no send lists two IDs of one int64 and nothing strands the counter. */
  lemma AnyIdBounded(es: seq<Event>, ss: seq<State>, k: nat, t: Tenant, u: User, kind: SenderType)
    requires Trace(INITIAL, es, ss) && k <= |es| && forall e | e in es :: Plain(e) && !Strands(e.op, t, u, kind)
    requires forall e | e in es && e.op.Send? :: Apart(e.op.draft.targetIds)
    ensures Within(ss[k], t, u, kind)
  {
    forall j | 0 <= j < k
      ensures KeepsWithin(ss[j], es[j], t, u, kind)
    {
      if SendsTo(es[j], t, u, kind) {
        ApartNotOutdone(Commit(ss[j].db, es[j]), t, es[j].op.draft.targetIds, kind, u);
      }
    }
    WithinUpTo(es, ss, k, t, u, kind);
  }

  // ---- Exact counters ----

  /** The send leaves an exact counter exact: counted as the user, or abandoned with the counter there to be incremented. */
  ghost predicate RightCount(db: DB, c: Cache, t: Tenant, users: seq<User>, kind: SenderType, u: User) {
    if GroupedCounts(db, t, users, kind).Some?
    then Canonical(u) && forall i | Prevails(Trip, JoinCount(db, t, kind), users, i, u) :: Truth(db, t, users[i], kind) == Truth(db, t, u, kind)
    else CounterKey(t, u, kind) in c.nums
  }

  lemma {:induction false} IncrExactly(c: Cache, keys: seq<Key>, k: Key)
    ensures IncrExisting(c, keys).nums.Keys == c.nums.Keys
    ensures Num(IncrExisting(c, keys), k) == Num(c, k) + if k in c.nums then multiset(keys)[k] else 0
  {
    if keys != [] {
      var last := |keys| - 1;
      IncrExactly(c, keys[..last], k);
      IncrExactly(c, keys[..last], keys[last]);
      assert keys == keys[..last] + [keys[last]];
    }
  }

  lemma CountSendExactIff(db: DB, c: Cache, t: Tenant, users: seq<User>, kind: SenderType, u: User)
    requires u in users && Counter(c, t, u, kind) + multiset(users)[u] == Truth(db, t, u, kind)
    requires Counter(c, t, u, kind) >= 0
    ensures Counter(CountSend(db, c, t, users, kind), t, u, kind) == Truth(db, t, u, kind) <==> RightCount(db, c, t, users, kind, u)
  {
    var keys := CounterKeys(t, users, kind);
    if GroupedCounts(db, t, users, kind).Some? {
      ReconcileWritesTruthIff(db, IncrExisting(c, keys), t, users, kind, u);
    } else {
      IncrExactly(c, keys, CounterKey(t, u, kind));
      KeysOf(t, users, kind, u);
    }
  }

  lemma InsertExactIff(db: DB, c: Cache, id: NotifyId, r: Record, rowIds: seq<RowId>, t: Tenant, u: User, kind: SenderType)
    requires Fitting(db) && |rowIds| == |r.targetIds| && id !in db.records && forall k | k in rowIds :: k !in db.rows
    requires forall i, j | 0 <= i < j < |rowIds| :: rowIds[i] != rowIds[j]
    requires r.target != Broadcast && Counter(c, t, u, kind) == Truth(db, t, u, kind)
    ensures var db' := InsertRecord(db, id, r, rowIds);
            Counter(CountSend(db', c, r.tenant, r.targetIds, r.sender), t, u, kind) == Truth(db', t, u, kind)
            <==> (Addresses(r, t, u, kind) ==> RightCount(db', c, t, r.targetIds, kind, u))
  {
    var db' := InsertRecord(db, id, r, rowIds);
    if Addresses(r, t, u, kind) {
      SendTruth(db, id, r, rowIds, t, u, kind);
      CountSendExactIff(db', c, t, r.targetIds, kind, u);
    } else {
      CountSendOthers(db', c, r.tenant, r.targetIds, r.sender, t, u, kind);
      assert forall k | k in db.rows :: RowFits(db, db.rows[k]);
      InsertUnread(db, id, r, rowIds, t, u, kind);
    }
  }

  lemma SendExactIff(s: State, e: Event, t: Tenant, u: User, kind: SenderType)
    requires TablesOk(s) && Enabled(s, e) && Exact(s, t, u, kind) && e.op.Send? && ValidDraft(e.op.draft)
    ensures Exact(Step(s, e), t, u, kind)
            <==> (SendsTo(e, t, u, kind) ==> RightCount(Commit(s.db, e), s.cache, t, e.op.draft.targetIds, kind, u))
  {
    var r := RecordOf(e.op.draft, e.at);
    if r.target == Broadcast {
      assert AllCanonical(e.op.draft.targetIds);
      SendCounters(s, e, t, u, kind);
    } else {
      InsertExactIff(s.db, s.cache, e.op.id, r, e.op.rowIds, t, u, kind);
    }
  }

  /** The requests that can leave an exact counter wrong, whatever the IDs, and when they do not. */
  ghost predicate KeepsAnyExact(s: State, e: Event, t: Tenant, u: User, kind: SenderType) {
    && (SendsTo(e, t, u, kind) ==> RightCount(Commit(s.db, e), s.cache, t, e.op.draft.targetIds, kind, u))
    && KeepsExact(s, e, t, u, kind)
  }

  lemma PlainExactIff(s: State, e: Event, t: Tenant, u: User, kind: SenderType)
    requires TablesOk(s) && NoExpiry(s.db) && Enabled(s, e) && Exact(s, t, u, kind)
    ensures Exact(Step(s, e), t, u, kind) <==> KeepsAnyExact(s, e, t, u, kind)
  {
    match e.op
    case Send(_, d, _) => if ValidDraft(d) { SendExactIff(s, e, t, u, kind); }
    case Act(_, _, _, _, _) => ActJudged(s, e, t, u, kind);
    case Cleanup(_) => IdleCleanup(s, e);
    case UserRead(_, _) => UserOneKeyJudged(s, e, t, u, kind);
    case UserClear(_, _) => UserOneKeyJudged(s, e, t, u, kind);
    case _ => TenantOneKeyJudged(s, e, t, u, kind);
  }

  lemma RunExactIff(es: seq<Event>, ss: seq<State>, k: nat, t: Tenant, u: User, kind: SenderType)
    requires Trace(INITIAL, es, ss) && k < |es| && (forall e | e in es :: Plain(e)) && Exact(ss[k], t, u, kind)
    ensures Exact(ss[k + 1], t, u, kind) <==> KeepsAnyExact(ss[k], es[k], t, u, kind)
  {
    RunKeepsTables(INITIAL, es, ss, k);
    RunNoExpiry(es, ss, k);
    PlainExactIff(ss[k], es[k], t, u, kind);
  }

  lemma {:induction false} AnyExactUpTo(es: seq<Event>, ss: seq<State>, k: nat, t: Tenant, u: User, kind: SenderType)
    requires Trace(INITIAL, es, ss) && k <= |es| && forall e | e in es :: Plain(e)
    requires forall j {:trigger es[j]} | 0 <= j < k :: KeepsAnyExact(ss[j], es[j], t, u, kind)
    ensures Exact(ss[k], t, u, kind)
    decreases k
  {
    if k > 0 {
      AnyExactUpTo(es, ss, k - 1, t, u, kind);
      RunExactIff(es, ss, k - 1, t, u, kind);
    }
  }

  /**
   Over every run of the service's own sends, user IDs of any form: a counter is exact after every
   prefix if and only if every send to the user counts right, no single operation hits a settled
   row while the user has unread rows left, and no stranding operation meets unread rows.
   */
  lemma AnyIdExactIff(es: seq<Event>, ss: seq<State>, t: Tenant, u: User, kind: SenderType)
    requires Trace(INITIAL, es, ss) && forall e | e in es :: Plain(e)
    ensures (forall k | 0 <= k <= |es| :: Exact(ss[k], t, u, kind))
            <==> forall k {:trigger es[k]} | 0 <= k < |es| :: KeepsAnyExact(ss[k], es[k], t, u, kind)
  {
    if forall k {:trigger es[k]} | 0 <= k < |es| :: KeepsAnyExact(ss[k], es[k], t, u, kind) {
      forall k | 0 <= k <= |es|
        ensures Exact(ss[k], t, u, kind)
      {
        AnyExactUpTo(es, ss, k, t, u, kind);
      }
    }
    if forall k | 0 <= k <= |es| :: Exact(ss[k], t, u, kind) {
      forall k | 0 <= k < |es|
        ensures KeepsAnyExact(ss[k], es[k], t, u, kind)
      {
        assert Exact(ss[k], t, u, kind) && Exact(ss[k + 1], t, u, kind);
        RunExactIff(es, ss, k, t, u, kind);
      }
    }
  }

  // ---- An ID as the integration guide has them ----

  const GUIDE := Event(1, Send(1, Draft("t", FromUser, Single, ["user123"], None), [1]))

  /** One send to user123: the recount is abandoned, the counter stays missing, one row is unread. */
  lemma GuideIdRun() returns (s: State)
    ensures Reaches([GUIDE], s) && Counter(s.cache, "t", "user123", FromUser) == 0 && Truth(s.db, "t", "user123", FromUser) == 1
  {
    s := Step(INITIAL, GUIDE);
    assert Enabled(INITIAL, GUIDE);
    ReachNothing();
    ReachNext([], INITIAL, GUIDE, s);
    assert [] + [GUIDE] == [GUIDE];
    assert ["user123"][..0] == [] && [1][..0] == [];
    assert s.db.rows == map[1 := Row(1, "user123", Unread)];
    GuideRecount(s.db);
  }

  lemma GuideRecount(db: DB)
    requires db.rows == map[1 := Row(1, "user123", Unread)] && db.records == map[1 := RecordOf(GUIDE.op.draft, 1)]
    ensures Truth(db, "t", "user123", FromUser) == 1
    ensures Counter(CountSend(db, EMPTY_CACHE, "t", ["user123"], FromUser), "t", "user123", FromUser) == 0
  {
    assert UnreadRows(db, "t", "user123", FromUser) == {1};
    assert Trip("user123").None? by { assert "user123"[0] == 'u'; }
    var keys := CounterKeys("t", ["user123"], FromUser);
    assert "user123" in ["user123"];
    ReconcileAbandonedIff(db, IncrExisting(EMPTY_CACHE, keys), "t", ["user123"], FromUser);
    IncrExactly(EMPTY_CACHE, keys, PersonalKey("t", "user123"));
  }

  // ---- Two IDs of one int64 ----

  const CLASH := Event(1, Send(1, Draft("t", FromUser, Multiple, ["7", "07", "07"], None), [1, 2, 3]))
  const CLASH_ROWS: map<RowId, Row> := map[1 := Row(1, "7", Unread), 2 := Row(1, "07", Unread), 3 := Row(1, "07", Unread)]

  lemma BothMeanSeven()
    ensures Trip("7") == Some("7") && Trip("07") == Some("7")
  {
    assert Value("0") == 0 && Value("7") == 7 by { assert "0"[..0] == "" && "7"[..0] == ""; }
    assert Value("07") == 7 by { assert "07"[..1] == "0"; }
  }

  lemma ClashTruth(db: DB)
    requires db.rows == CLASH_ROWS && db.records == map[1 := RecordOf(CLASH.op.draft, 1)]
    ensures Truth(db, "t", "7", FromUser) == 1 && Truth(db, "t", "07", FromUser) == 2
  {
    assert UnreadRows(db, "t", "7", FromUser) == {1};
    assert UnreadRows(db, "t", "07", FromUser) == {2, 3};
  }

  /** The recount writes the larger count of "07" under "7". */
  lemma ClashRecount(db: DB, c: Cache)
    requires Truth(db, "t", "7", FromUser) == 1 && Truth(db, "t", "07", FromUser) == 2
    ensures Counter(Reconcile(db, c, "t", ["7", "07", "07"], FromUser), "t", "7", FromUser) == 2
  {
    var users, count := ["7", "07", "07"], JoinCount(db, "t", FromUser);
    BothMeanSeven();
    ReconcileAbandonedIff(db, c, "t", users, FromUser);
    assert count("07") == 2;
    assert Prevails(Trip, count, users, 2, "7");
    PrevailingCount(Trip, count, users, 2, "7");
    WriteCountsKeys(c, "t", users, FromUser, GroupedCounts(db, "t", users, FromUser).value);
    CounterKeyIn("t", users, FromUser, PersonalKey("t", "7"));
  }

  lemma ClashRows()
    ensures InsertRows(map[], 1, ["7", "07", "07"], [1, 2, 3]) == CLASH_ROWS
  {
    assert ["7", "07", "07"][..2] == ["7", "07"] && [1, 2, 3][..2] == [1, 2];
    assert ["7", "07"][..1] == ["7"] && [1, 2][..1] == [1];
    assert ["7"][..0] == [] && [1][..0] == [];
    assert InsertRows(map[], 1, ["7"], [1]) == map[1 := Row(1, "7", Unread)];
    assert InsertRows(map[], 1, ["7", "07"], [1, 2]) == map[1 := Row(1, "7", Unread), 2 := Row(1, "07", Unread)];
  }

  /** One send that lists "7" once and "07" twice: the counter of "7" says 2, one row is unread. */
  lemma ClashRun() returns (s: State)
    ensures Reaches([CLASH], s) && Counter(s.cache, "t", "7", FromUser) == 2 && Truth(s.db, "t", "7", FromUser) == 1
  {
    s := Step(INITIAL, CLASH);
    ClashRows();
    assert Enabled(INITIAL, CLASH);
    ReachNothing();
    ReachNext([], INITIAL, CLASH, s);
    assert [] + [CLASH] == [CLASH];
    assert s.db.rows == CLASH_ROWS && s.db.records == map[1 := RecordOf(CLASH.op.draft, 1)];
    ClashTruth(s.db);
    ClashRecount(s.db, IncrExisting(EMPTY_CACHE, CounterKeys("t", ["7", "07", "07"], FromUser)));
  }
}
