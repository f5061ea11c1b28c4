/**
 The tenant figure pushed to users, counter + |total \ op|, against the unread_cnt of the
 tenant inbox query.
 */
module TenantFigure {
  import opened Types
  import opened Keys
  import opened Storage
  import opened UnreadCache
  import opened Protocol
  import opened Inbox
  import opened BroadcastAgreement
  import opened CounterAgreement
  import opened UnreadServices

  ghost function Image<A, B>(s: set<A>, f: A -> B): set<B> {
    set x | x in s :: f(x)
  }

  lemma {:induction false} ImageSize<A, B>(s: set<A>, f: A -> B)
    requires forall x, y | x in s && y in s && f(x) == f(y) :: x == y
    ensures |Image(s, f)| == |s|
    decreases |s|
  {
    if s == {} {
      assert Image(s, f) == {};
    } else {
      var x :| x in s;
      ImageSize(s - {x}, f);
      assert Image(s, f) == Image(s - {x}, f) + {f(x)};
    }
  }

  ghost function Bare(): NotifyId -> Item {
    (n: NotifyId) => Item(n, None)
  }

  ghost function Owned(db: DB): RowId -> Item {
    (k: RowId) => Item(if k in db.rows then db.rows[k].notify else 0, Some(k))
  }

  /** The counted items are the unsettled broadcasts and the unread direct rows. */
  lemma UnreadItemsSplit(db: DB, tenant: Tenant, user: User)
    requires Fitting(db)
    ensures TenantUnreadItems(db, tenant, user)
            == Image(QueriedUnread(db, tenant, user), Bare())
               + Image(UnreadRows(db, tenant, user, FromTenant), Owned(db))
  {
    var bare := Image(QueriedUnread(db, tenant, user), Bare());
    var owned := Image(UnreadRows(db, tenant, user, FromTenant), Owned(db));
    forall it
      ensures it in TenantUnreadItems(db, tenant, user) <==> it in bare + owned
    {
      if it in TenantUnreadItems(db, tenant, user) {
        if it.row.Some? {
          assert RowFits(db, db.rows[it.row.value]);
          assert Owned(db)(it.row.value) == it;
        } else {
          assert it.notify in QueriedUnread(db, tenant, user);
          assert Bare()(it.notify) == it;
        }
      }
      if it in bare {
        QueriedIffUnsettled(db, tenant, user, it.notify);
      }
      if it in owned {
        assert RowFits(db, db.rows[it.row.value]);
      }
    }
  }

  lemma DisjointImages(items: set<Item>, ns: set<NotifyId>, ks: set<RowId>, f: NotifyId -> Item, g: RowId -> Item)
    requires items == Image(ns, f) + Image(ks, g)
    requires forall n: NotifyId :: f(n).notify == n && f(n).row == None
    requires forall k: RowId :: g(k).row == Some(k)
    ensures |items| == |ns| + |ks|
  {
    ImageSize(ns, f);
    ImageSize(ks, g);
    assert forall it | it in Image(ns, f) :: it.row == None;
    assert Image(ns, f) !! Image(ks, g);
  }

  lemma UnreadCountSplits(db: DB, tenant: Tenant, user: User)
    requires Fitting(db)
    ensures |TenantUnreadItems(db, tenant, user)|
            == |QueriedUnread(db, tenant, user)| + CountUnread(db, tenant, user, FromTenant)
  {
    UnreadItemsSplit(db, tenant, user);
    DisjointImages(TenantUnreadItems(db, tenant, user), QueriedUnread(db, tenant, user),
                   UnreadRows(db, tenant, user, FromTenant), Bare(), Owned(db));
  }

  // ---- When the figure is right ----

  /** The tenant figure: the tenant counter plus the broadcasts not yet operated on. */
  function Figure(s: State, t: Tenant, u: User): int {
    Counter(s.cache, t, u, FromTenant) + |CachedUnread(s.cache, t, u)|
  }

  ghost predicate FigureExact(s: State, t: Tenant, u: User) {
    Figure(s, t, u) == |TenantUnreadItems(s.db, t, u)|
  }

  /** Unsettled broadcasts that a user sent: in the tenant's total set, but not in the tenant inbox. */
  ghost function Foreign(db: DB, t: Tenant, u: User): set<NotifyId> {
    set n | n in BroadcastIds(db, t) && db.records[n].sender == FromUser && !Settled(db, n, u)
  }

  lemma PartSize(all: set<NotifyId>, part: set<NotifyId>)
    requires part <= all
    ensures |all| == |part| + |all - part|
  {
    assert all == part + (all - part);
  }

  lemma ForeignRest(db: DB, c: Cache, t: Tenant, u: User)
    requires TotalsExact(db, c) && OpsExact(db, c)
    ensures CachedUnread(c, t, u) - SentByTenant(db, CachedUnread(c, t, u)) == Foreign(db, t, u)
  {
    assert Members(c, TotalKey(t)) == BroadcastIds(db, t);
    assert forall n | n in BroadcastIds(db, t) :: IsBroadcast(db, n) && OpExact(db, c, n, u);
  }

  /** With the broadcast sets exact, the figure errs by the counter's error plus the foreign broadcasts. */
  lemma FigureSplits(s: State, t: Tenant, u: User)
    requires SetsOk(s)
    ensures Figure(s, t, u) - |TenantUnreadItems(s.db, t, u)|
            == Counter(s.cache, t, u, FromTenant) - Truth(s.db, t, u, FromTenant) + |Foreign(s.db, t, u)|
  {
    var unread := CachedUnread(s.cache, t, u);
    AgreementFromSets(s.db, s.cache, t, u);
    ForeignRest(s.db, s.cache, t, u);
    UnreadCountSplits(s.db, t, u);
    PartSize(unread, SentByTenant(s.db, unread));
  }

  predicate UserBroadcast(e: Event, t: Tenant) {
    e.op.Send? && ValidDraft(e.op.draft) && e.op.draft.target == Broadcast && e.op.draft.sender == FromUser && e.op.draft.tenant == t
  }

  predicate KeepsFigure(s: State, e: Event, t: Tenant, u: User) {
    KeepsExact(s, e, t, u, FromTenant) && !UserBroadcast(e, t)
  }

  lemma RunSplits(es: seq<Event>, ss: seq<State>, k: nat, t: Tenant, u: User)
    requires Trace(INITIAL, es, ss) && k <= |es|
    ensures FigureExact(ss[k], t, u)
            <==> Counter(ss[k].cache, t, u, FromTenant) + |Foreign(ss[k].db, t, u)| == Truth(ss[k].db, t, u, FromTenant)
  {
    RunKeepsSets(es, ss, k);
    FigureSplits(ss[k], t, u);
  }

  /**
   On runs that keep the tenant counter exact, the figure equals the inbox's unread_cnt if and
   only if every broadcast that a user sent is settled for this user.
   */
  lemma TenantFigureExactIff(es: seq<Event>, ss: seq<State>, k: nat, t: Tenant, u: User)
    requires Trace(INITIAL, es, ss) && k <= |es| && forall e | e in es :: CanonicalEvent(e)
    requires forall j | 0 <= j < k :: KeepsExact(ss[j], es[j], t, u, FromTenant)
    ensures FigureExact(ss[k], t, u) <==> Foreign(ss[k].db, t, u) == {}
  {
    ExactUpTo(es, ss, k, t, u, FromTenant);
    RunSplits(es, ss, k, t, u);
  }

  /** Every broadcast of the tenant was sent by the tenant. */
  predicate OnlyOwn(db: DB, t: Tenant) {
    forall n | n in BroadcastIds(db, t) :: db.records[n].sender == FromTenant
  }

  lemma CommitOnlyOwn(db: DB, e: Event, t: Tenant)
    requires !UserBroadcast(e, t) && OnlyOwn(db, t)
    ensures OnlyOwn(Commit(db, e), t)
  {
    var db' := Commit(db, e);
    forall n | n in BroadcastIds(db', t)
      ensures db'.records[n].sender == FromTenant
    {
      CommitRecords(db, e, n);
      assert n in db.records ==> n in BroadcastIds(db, t) || db'.records[n] != db.records[n];
    }
  }

  lemma TraceOnlyOwn(es: seq<Event>, ss: seq<State>, k: nat, t: Tenant)
    requires Trace(INITIAL, es, ss) && k < |es| && !UserBroadcast(es[k], t) && OnlyOwn(ss[k].db, t)
    ensures OnlyOwn(ss[k + 1].db, t)
  {
    CommitOnlyOwn(ss[k].db, es[k], t);
  }

  lemma {:induction false} NoForeign(es: seq<Event>, ss: seq<State>, k: nat, t: Tenant)
    requires Trace(INITIAL, es, ss) && k <= |es| && forall j | 0 <= j < k :: !UserBroadcast(es[j], t)
    ensures OnlyOwn(ss[k].db, t)
    decreases k
  {
    if k > 0 {
      NoForeign(es, ss, k - 1, t);
      TraceOnlyOwn(es, ss, k - 1, t);
    }
  }

  /** A user's broadcast leaves counter and direct rows alone. */
  lemma UserBroadcastSame(s: State, e: Event, t: Tenant, u: User)
    requires TablesOk(s) && Enabled(s, e) && UserBroadcast(e, t)
    ensures Same(s, Step(s, e), t, u, FromTenant)
  {
    assert AllCanonical(e.op.draft.targetIds);
    SendCounters(s, e, t, u, FromTenant);
  }

  lemma NewBroadcastUnsettled(s: State, id: NotifyId, r: Record, u: User)
    requires TablesOk(s) && id !in s.ids && s.clock < r.createdAt && r.targetIds == []
    ensures !Settled(InsertRecord(s.db, id, r, []), id, u)
  {
    var db' := InsertRecord(s.db, id, r, []);
    MarksBelow(s, r.tenant);
    assert db'.rows == s.db.rows;
    assert forall k | k in s.db.rows :: RowFits(s.db, s.db.rows[k]);
    assert RowsFor(db', u, id) == {};
    assert MarkOf(db', r.tenant, u) == MarkOf(s.db, r.tenant, u);
  }

  /** A user's broadcast is foreign as soon as it is sent. */
  lemma UserBroadcastIsForeign(s: State, e: Event, t: Tenant, u: User)
    requires TablesOk(s) && Enabled(s, e) && UserBroadcast(e, t)
    ensures Foreign(Step(s, e).db, t, u) != {}
  {
    var r := RecordOf(e.op.draft, e.at);
    SendStep(s, e);
    NewBroadcastUnsettled(s, e.op.id, r, u);
    assert e.op.id in Foreign(InsertRecord(s.db, e.op.id, r, []), t, u);
  }

  lemma RunForeign(es: seq<Event>, ss: seq<State>, k: nat, t: Tenant, u: User)
    requires Trace(INITIAL, es, ss) && k < |es| && UserBroadcast(es[k], t)
    ensures Same(ss[k], ss[k + 1], t, u, FromTenant) && |Foreign(ss[k + 1].db, t, u)| > 0
  {
    RunKeepsTables(INITIAL, es, ss, k);
    UserBroadcastSame(ss[k], es[k], t, u);
    UserBroadcastIsForeign(ss[k], es[k], t, u);
  }

  lemma ForeignFree(es: seq<Event>, ss: seq<State>, k: nat, t: Tenant, u: User)
    requires Trace(INITIAL, es, ss) && k <= |es| && forall j | 0 <= j < k :: !UserBroadcast(es[j], t)
    ensures |Foreign(ss[k].db, t, u)| == 0
  {
    NoForeign(es, ss, k, t);
    assert Foreign(ss[k].db, t, u) == {};
  }

  lemma CounterNext(es: seq<Event>, ss: seq<State>, k: nat, t: Tenant, u: User)
    requires Trace(INITIAL, es, ss) && k < |es| && (forall e | e in es :: CanonicalEvent(e)) && Exact(ss[k], t, u, FromTenant)
    ensures Exact(ss[k + 1], t, u, FromTenant) <==> KeepsExact(ss[k], es[k], t, u, FromTenant)
  {
    RunJudged(es, ss, k, t, u, FromTenant);
  }

  /** What one event does to the figure, from an exact counter and no foreign broadcast. */
  lemma FigureJudged(s: State, e: Event, s': State, t: Tenant, u: User)
    requires FigureExact(s', t, u) <==> Counter(s'.cache, t, u, FromTenant) + |Foreign(s'.db, t, u)| == Truth(s'.db, t, u, FromTenant)
    requires Exact(s, t, u, FromTenant) && (Exact(s', t, u, FromTenant) <==> KeepsExact(s, e, t, u, FromTenant))
    requires if UserBroadcast(e, t) then Same(s, s', t, u, FromTenant) && |Foreign(s'.db, t, u)| > 0 else |Foreign(s'.db, t, u)| == 0
    ensures FigureExact(s', t, u) <==> KeepsFigure(s, e, t, u)
  {
  }

  lemma ForeignNext(es: seq<Event>, ss: seq<State>, k: nat, t: Tenant, u: User)
    requires Trace(INITIAL, es, ss) && k < |es| && forall j | 0 <= j < k :: !UserBroadcast(es[j], t)
    ensures if UserBroadcast(es[k], t) then Same(ss[k], ss[k + 1], t, u, FromTenant) && |Foreign(ss[k + 1].db, t, u)| > 0
            else |Foreign(ss[k + 1].db, t, u)| == 0
  {
    if UserBroadcast(es[k], t) {
      RunForeign(es, ss, k, t, u);
    } else {
      ForeignFree(es, ss, k + 1, t, u);
    }
  }

  lemma FigureStep(es: seq<Event>, ss: seq<State>, k: nat, t: Tenant, u: User)
    requires Trace(INITIAL, es, ss) && k < |es| && forall e | e in es :: CanonicalEvent(e)
    requires Exact(ss[k], t, u, FromTenant) && forall j | 0 <= j < k :: !UserBroadcast(es[j], t)
    ensures FigureExact(ss[k + 1], t, u) <==> KeepsFigure(ss[k], es[k], t, u)
  {
    RunSplits(es, ss, k + 1, t, u);
    CounterNext(es, ss, k, t, u);
    ForeignNext(es, ss, k, t, u);
    FigureJudged(ss[k], es[k], ss[k + 1], t, u);
  }

  lemma FigureNext(es: seq<Event>, ss: seq<State>, k: nat, t: Tenant, u: User)
    requires Trace(INITIAL, es, ss) && k < |es| && forall e | e in es :: CanonicalEvent(e)
    requires forall j | 0 <= j < k :: KeepsFigure(ss[j], es[j], t, u)
    ensures FigureExact(ss[k + 1], t, u) <==> KeepsFigure(ss[k], es[k], t, u)
  {
    ExactUpTo(es, ss, k, t, u, FromTenant);
    FigureStep(es, ss, k, t, u);
  }

  lemma {:induction false} KeptUpTo(es: seq<Event>, ss: seq<State>, k: nat, t: Tenant, u: User)
    requires Trace(INITIAL, es, ss) && k <= |es| && forall e | e in es :: CanonicalEvent(e)
    requires forall j | 0 <= j <= |es| :: FigureExact(ss[j], t, u)
    ensures forall j | 0 <= j < k :: KeepsFigure(ss[j], es[j], t, u)
    decreases k
  {
    if k > 0 {
      KeptUpTo(es, ss, k - 1, t, u);
      KeptNext(es, ss, k - 1, t, u);
    }
  }

  lemma KeptNext(es: seq<Event>, ss: seq<State>, k: nat, t: Tenant, u: User)
    requires Trace(INITIAL, es, ss) && k < |es| && (forall e | e in es :: CanonicalEvent(e)) && FigureExact(ss[k + 1], t, u)
    requires forall j | 0 <= j < k :: KeepsFigure(ss[j], es[j], t, u)
    ensures KeepsFigure(ss[k], es[k], t, u)
  {
    FigureNext(es, ss, k, t, u);
  }

  lemma KeptMeansExact(es: seq<Event>, ss: seq<State>, k: nat, t: Tenant, u: User)
    requires Trace(INITIAL, es, ss) && k <= |es| && forall e | e in es :: CanonicalEvent(e)
    requires forall j | 0 <= j < k :: KeepsFigure(ss[j], es[j], t, u)
    ensures FigureExact(ss[k], t, u)
  {
    if k == 0 {
      ExactAtStart(t, u);
    } else {
      FigureNext(es, ss, k - 1, t, u);
    }
  }

  lemma ExactAtStart(t: Tenant, u: User)
    ensures Exact(INITIAL, t, u, FromTenant) && FigureExact(INITIAL, t, u)
  {
    assert UnreadRows(EMPTY_DB, t, u, FromTenant) == {};
    assert TenantUnreadItems(EMPTY_DB, t, u) == {};
  }

  /**
   The figure equals unread_cnt after every prefix of a run if and only if no user broadcasts in
   the tenant, no single operation of the user hits a settled direct row while others are unread,
   and none of the user's one-key operations meets an unread direct row of the tenant.
   */
  lemma FigureExactThroughoutIff(es: seq<Event>, ss: seq<State>, t: Tenant, u: User)
    requires Trace(INITIAL, es, ss) && forall e | e in es :: CanonicalEvent(e)
    ensures (forall k | 0 <= k <= |es| :: FigureExact(ss[k], t, u)) <==> forall k | 0 <= k < |es| :: KeepsFigure(ss[k], es[k], t, u)
  {
    if forall k | 0 <= k <= |es| :: FigureExact(ss[k], t, u) {
      KeptUpTo(es, ss, |es|, t, u);
    }
    if forall k | 0 <= k < |es| :: KeepsFigure(ss[k], es[k], t, u) {
      forall k | 0 <= k <= |es|
        ensures FigureExact(ss[k], t, u)
      {
        KeptMeansExact(es, ss, k, t, u);
      }
    }
  }

  lemma ReachedSplits(es: seq<Event>, s: State, t: Tenant, u: User)
    requires Reaches(es, s)
    ensures FigureExact(s, t, u) <==> Counter(s.cache, t, u, FromTenant) + |Foreign(s.db, t, u)| == Truth(s.db, t, u, FromTenant)
  {
    var ss :| Trace(INITIAL, es, ss) && ss[|es|] == s;
    RunSplits(es, ss, |es|, t, u);
  }

  /** One direct notification of the tenant, then any of the four one-key operations: the figure is wrong. */
  lemma StrandedFigureRun(op: Op) returns (es: seq<Event>, s: State)
    requires OneKey(op) && op.tenant == "t" && op.user == "1"
    ensures es == [DirectSend(1, FromTenant)] + [Event(2, op)]
    ensures Reaches(es, s) && !FigureExact(s, "t", "1")
  {
    es, s := StrandedRun(op, FromTenant);
    ReachedSplits(es, s, "t", "1");
  }

  /** One broadcast sent by a user makes the figure wrong for everyone in the tenant. */
  lemma UserBroadcastRun(u: User) returns (e: Event, s: State)
    ensures UserBroadcast(e, "t") && Reaches([e], s) && !FigureExact(s, "t", u)
  {
    e := Event(1, Send(7, Draft("t", FromUser, Broadcast, [], None), []));
    s := Step(INITIAL, e);
    ReachNothing();
    ReachNext([], INITIAL, e, s);
    assert [] + [e] == [e];
    ExactAtStart("t", u);
    UserBroadcastSame(INITIAL, e, "t", u);
    UserBroadcastIsForeign(INITIAL, e, "t", u);
    ReachedSplits([e], s, "t", u);
  }

  // ---- What the service answers ----

  /** The answers of GetPersonalUnread and GetTenantUnread are the personal counter and the figure. */
  lemma ServedFigures(s: State, t: Tenant, u: User)
    ensures FullOf(s.cache, t, u).personal == Counter(s.cache, t, u, FromUser)
    ensures FullOf(s.cache, t, u).tenant == Counter(s.cache, t, u, FromTenant) + |CachedUnread(s.cache, t, u)| == Figure(s, t, u)
  {
  }

  /** On runs that keep the figure, the tenant answer is the inbox's unread_cnt at every point. */
  lemma ServedIsUnreadCount(es: seq<Event>, ss: seq<State>, k: nat, t: Tenant, u: User)
    requires Trace(INITIAL, es, ss) && k <= |es| && forall e | e in es :: CanonicalEvent(e)
    requires forall j {:trigger es[j]} | 0 <= j < k :: KeepsFigure(ss[j], es[j], t, u)
    ensures FullOf(ss[k].cache, t, u).tenant == |TenantUnreadItems(ss[k].db, t, u)|
  {
    KeptMeansExact(es, ss, k, t, u);
    ServedFigures(ss[k], t, u);
  }

  /** On runs that keep the personal counter, the personal answer is the number of unread direct rows from users. */
  lemma ServedIsPersonalCount(es: seq<Event>, ss: seq<State>, k: nat, t: Tenant, u: User)
    requires Trace(INITIAL, es, ss) && k <= |es| && forall e | e in es :: CanonicalEvent(e)
    requires forall j {:trigger es[j]} | 0 <= j < k :: KeepsExact(ss[j], es[j], t, u, FromUser)
    ensures FullOf(ss[k].cache, t, u).personal == CountUnread(ss[k].db, t, u, FromUser)
  {
    ExactUpTo(es, ss, k, t, u, FromUser);
    ServedFigures(ss[k], t, u);
  }
}
