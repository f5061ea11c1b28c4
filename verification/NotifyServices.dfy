/** Sending notifications and changing their status: the request side of the protocol. */
module NotifyServices {
  import opened Types
  import opened Storage
  import opened UnreadCache
  import opened Protocol
  import opened Stores
  import opened UnreadServices
  import opened Inbox
  import opened Effects

  // ---- Sending ----

  /** A send request as received; sender types other than 0 and 1 are refused. */
  datatype SendProp = SendProp(
    tenant: Tenant,
    senderType: int,
    target: TargetType,
    targetIds: seq<User>,
    ttlSeconds: Option<int>)

  datatype SendError = BadSend | BadConfig

  datatype SendOutcome = Refused(error: SendError) | Sent(ttlSeconds: int, expireTime: Option<int>, task: Task)

  function SenderOf(senderType: int): SenderType {
    if senderType == 1 then FromTenant else FromUser
  }

  /** The stored draft: the requested lifetime is reported to the caller but never stored. */
  function StoredDraft(p: SendProp): Draft {
    Draft(p.tenant, SenderOf(p.senderType), p.target, p.targetIds, None)
  }

  /** Why a send request is refused, if it is; the default lifetime depends on the sender type. */
  function Refusal(p: SendProp, userTtl: int, tenantTtl: int): Option<SendError> {
    if (p.senderType != 0 && p.senderType != 1) || (p.ttlSeconds.Some? && p.ttlSeconds.value < 0) || !ValidDraft(StoredDraft(p))
    then Some(BadSend)
    else if p.ttlSeconds.None? && (if p.senderType == 0 then userTtl else tenantTtl) < 0 then Some(BadConfig)
    else None
  }

  /** Each refusal has its own condition, spelled out in the fields of the request. */
  lemma RefusalIff(p: SendProp, userTtl: int, tenantTtl: int)
    ensures var ill := || p.tenant == ""
                       || (p.senderType != 0 && p.senderType != 1)
                       || (p.ttlSeconds.Some? && p.ttlSeconds.value < 0)
                       || (p.target == Single && (|p.targetIds| != 1 || p.targetIds[0] == ""))
                       || (p.target == Multiple && p.targetIds == [])
                       || (p.target == Broadcast && p.targetIds != []);
            && (Refusal(p, userTtl, tenantTtl) == Some(BadSend) <==> ill)
            && (Refusal(p, userTtl, tenantTtl) == Some(BadConfig)
                <==> !ill && p.ttlSeconds.None? && ((p.senderType == 0 && userTtl < 0) || (p.senderType == 1 && tenantTtl < 0)))
  {
  }

  /**
   A direct request of sender type 1 is listed unread in each addressee's tenant inbox and raises the
   tenant count; one of sender type 0 the personal ones.
   */
  lemma SentArrives(s: State, p: SendProp, id: NotifyId, rowIds: seq<RowId>, now: Time, i: nat)
    requires var e := Event(now, Send(id, StoredDraft(p), rowIds)); ValidSend(s, e) && i < |p.targetIds|
    requires p.senderType == 0 || p.senderType == 1
    ensures var db', u := Commit(s.db, Event(now, Send(id, StoredDraft(p), rowIds))), p.targetIds[i];
            var it := Item(id, Some(rowIds[i]));
            && (InTenantInbox(db', p.tenant, u, it) <==> p.senderType == 1)
            && (InPersonalInbox(db', p.tenant, u, it) <==> p.senderType == 0)
            && (p.senderType == 1 ==> ShownStatus(db', p.tenant, u, it) == Unread)
            && (p.senderType == 0 ==> PersonalShownStatus(db', u, it) == Unread)
            && CountUnread(db', p.tenant, u, FromTenant)
               == CountUnread(s.db, p.tenant, u, FromTenant) + (if p.senderType == 1 then multiset(p.targetIds)[u] else 0)
            && CountUnread(db', p.tenant, u, FromUser)
               == CountUnread(s.db, p.tenant, u, FromUser) + (if p.senderType == 0 then multiset(p.targetIds)[u] else 0)
  {
    var e := Event(now, Send(id, StoredDraft(p), rowIds));
    DirectSendArrives(s, e, i);
    DirectSendCounts(s, e, p.tenant, p.targetIds[i], FromTenant);
    DirectSendCounts(s, e, p.tenant, p.targetIds[i], FromUser);
  }

  class SenderService {
    const db: Database
    const unread: UnreadService

    constructor (db: Database, unread: UnreadService)
      requires unread.db == db
      ensures this.db == db && this.unread == unread
    {
      this.db := db;
      this.unread := unread;
    }

    method ValidateSendProp(p: SendProp) returns (ok: bool)
      ensures ok <==> (p.senderType == 0 || p.senderType == 1) && (p.ttlSeconds.Some? ==> p.ttlSeconds.value >= 0) && ValidDraft(StoredDraft(p))
    {
      if p.tenant == "" {
        return false;
      }
      if p.senderType != 0 && p.senderType != 1 {
        return false;
      }
      if p.ttlSeconds.Some? && p.ttlSeconds.value < 0 {
        return false;
      }
      match p.target
      case Single => return |p.targetIds| == 1 && p.targetIds[0] != "";
      case Multiple => return |p.targetIds| != 0;
      case Broadcast => return |p.targetIds| == 0;
    }

    /** Validation, lifetime, then the record and its status rows in one transaction. */
    method Transmit(p: SendProp, id: NotifyId, rowIds: seq<RowId>, now: Time, userTtl: int, tenantTtl: int) returns (r: SendOutcome)
      requires |rowIds| == |p.targetIds|
      modifies db
      ensures r.Refused? <==> Refusal(p, userTtl, tenantTtl).Some?
      ensures r.Refused? ==> r.error == Refusal(p, userTtl, tenantTtl).value && db.View() == old(db.View())
      ensures r.Sent? ==>
                && db.View() == Commit(old(db.View()), Event(now, Send(id, StoredDraft(p), rowIds)))
                && Some(r.task) == TaskFor(old(db.View()), Event(now, Send(id, StoredDraft(p), rowIds)))
                && db.View().records[id].expireAt == None
      ensures r.Sent? ==>
                var sender := if p.senderType == 1 then FromTenant else FromUser;
                && db.View().records == old(db.View()).records[id := Record(p.tenant, sender, p.target, p.targetIds, now, None)]
                && r.task == if p.target == Broadcast then AddTotal(p.tenant, id) else CountUsers(p.tenant, p.targetIds, sender)
      ensures r.Sent? ==>
                && r.ttlSeconds == (if p.ttlSeconds.Some? then p.ttlSeconds.value else if p.senderType == 0 then userTtl else tenantTtl)
                && r.ttlSeconds >= 0
                && r.expireTime == if r.ttlSeconds == 0 then None else Some(now + r.ttlSeconds)
    {
      var ok := ValidateSendProp(p);
      if !ok {
        return Refused(BadSend);
      }
      var ttl := 0;
      if p.ttlSeconds.Some? {
        ttl := p.ttlSeconds.value;
      } else {
        ttl := if p.senderType == 0 then userTtl else tenantTtl;
        if ttl < 0 {
          return Refused(BadConfig);
        }
      }
      var expireTime := if ttl == 0 then None else Some(now + ttl);
      var sender := SenderOf(p.senderType);
      db.Create(id, Record(p.tenant, sender, p.target, p.targetIds, now, None));
      if p.target == Single || p.target == Multiple {
        var statuses: seq<Row> := [];
        for i := 0 to |p.targetIds|
          invariant |statuses| == i && forall j | 0 <= j < i :: statuses[j] == Row(id, p.targetIds[j], Unread)
        {
          statuses := statuses + [Row(id, p.targetIds[i], Unread)];
        }
        db.CreateBulk(statuses, rowIds, id, p.targetIds);
      }
      var task := if p.target == Broadcast then AddTotal(p.tenant, id) else CountUsers(p.tenant, p.targetIds, sender);
      return Sent(ttl, expireTime, task);
    }

    /** The cache part of SendNotify's goroutine. */
    method UpdateUnread(task: Task)
      requires unread.db == db && (task.AddTotal? || task.CountUsers?)
      modifies unread.redis
      ensures unread.redis.View() == Exec(db.View(), old(unread.redis.View()), task)
    {
      match task {
        case AddTotal(tenant, id) =>
          var _ := unread.TenantBroadcastIncr(tenant, id);
        case CountUsers(tenant, users, sender) =>
          var _ := unread.BatchIncrUserUnread(tenant, users, sender);
        case _ =>
      }
    }
  }

  // ---- Changing status ----

  /** True exactly when the user is listed. */
  method ContainsUser(users: seq<User>, target: User) returns (found: bool)
    ensures found <==> target in users
  {
    for i := 0 to |users|
      invariant forall j | 0 <= j < i :: users[j] != target
    {
      if users[i] == target {
        return true;
      }
    }
    return false;
  }

  class StatusService {
    const db: Database
    const unread: UnreadService

    constructor (db: Database, unread: UnreadService)
      requires unread.db == db
      ensures this.db == db && this.unread == unread
    {
      this.db := db;
      this.unread := unread;
    }

    /** `notifyId` is None when the text is empty or not a UUID. */
    method ValidateNotifyAccess(tenant: Tenant, user: User, notifyId: Option<NotifyId>) returns (access: Access)
      ensures access == if notifyId.None? then Denied(BadRequest) else CheckAccess(db.View(), tenant, user, notifyId.value)
    {
      if user == "" || tenant == "" {
        return Denied(BadRequest);
      }
      if notifyId.None? {
        return Denied(BadRequest);
      }
      var id := notifyId.value;
      var found := db.FindById(id);
      if found.None? {
        return Denied(NotFound);
      }
      var record := found.value;
      if record.tenant != tenant {
        return Denied(Forbidden);
      }
      if record.target == Single || record.target == Multiple {
        var listed := ContainsUser(record.targetIds, user);
        if !listed {
          return Denied(Forbidden);
        }
      }
      return Granted(record);
    }

    /** MarkRead and DeleteNotify: check access, upsert the row, leave a cache task. */
    method ExecStatusUpdate(tenant: Tenant, user: User, notifyId: Option<NotifyId>, next: Status, newRow: RowId, ghost now: Time)
      returns (access: Access, task: Option<Task>)
      modifies db`rows
      ensures notifyId.None? ==> access == Denied(BadRequest) && db.View() == old(db.View()) && task.None?
      ensures notifyId.Some? ==>
                var e := Event(now, Act(tenant, user, notifyId.value, next, newRow));
                && access == CheckAccess(old(db.View()), tenant, user, notifyId.value)
                && db.View() == Commit(old(db.View()), e)
                && task == TaskFor(old(db.View()), e)
    {
      access := ValidateNotifyAccess(tenant, user, notifyId);
      if access.Denied? {
        return access, None;
      }
      var id := notifyId.value;
      db.UpsertByUserAndNotify(user, id, next, newRow);
      if access.record.target == Broadcast {
        task := Some(MarkOp(access.record.tenant, user, id));
      } else {
        task := Some(Decrement(access.record.tenant, user, access.record.sender));
      }
    }

    method UserBatchMarkRead(tenant: Tenant, user: User, ghost now: Time) returns (task: Task)
      modifies db`rows
      ensures db.View() == Commit(old(db.View()), Event(now, UserRead(tenant, user)))
      ensures Some(task) == TaskFor(old(db.View()), Event(now, UserRead(tenant, user)))
    {
      db.BatchMarkReadByUser(user, tenant);
      task := ClearPersonal(tenant, user);
    }

    /** Watermark first, then the rows, in one transaction. */
    method TenantBatchMarkRead(tenant: Tenant, user: User, now: Time) returns (task: Task)
      modifies db`rows, db`marks
      ensures db.View() == Commit(old(db.View()), Event(now, TenantRead(tenant, user)))
      ensures Some(task) == TaskFor(old(db.View()), Event(now, TenantRead(tenant, user)))
    {
      db.UpsertTenantReadAt(tenant, user, now);
      assert TenantDirectRows(db.View(), tenant, user) == TenantDirectRows(old(db.View()), tenant, user);
      db.BatchMarkTenantNonBroadcastReadByUser(user, tenant);
      task := SyncAll(tenant, user);
    }

    method UserBatchDelete(tenant: Tenant, user: User, ghost now: Time) returns (task: Task)
      modifies db`rows
      ensures db.View() == Commit(old(db.View()), Event(now, UserClear(tenant, user)))
      ensures Some(task) == TaskFor(old(db.View()), Event(now, UserClear(tenant, user)))
    {
      db.BatchMarkDeleteUserNotifyByUser(user, tenant);
      task := ClearPersonal(tenant, user);
    }

    /** Deletes all of the user's rows in the tenant, personal ones included. */
    method TenantBatchDelete(tenant: Tenant, user: User, now: Time) returns (task: Task)
      modifies db`rows, db`marks
      ensures db.View() == Commit(old(db.View()), Event(now, TenantClear(tenant, user)))
      ensures Some(task) == TaskFor(old(db.View()), Event(now, TenantClear(tenant, user)))
    {
      db.UpsertTenantClearAt(tenant, user, now);
      assert RowsInTenant(db.View(), tenant, user) == RowsInTenant(old(db.View()), tenant, user);
      db.BatchMarkDeleteUserNotifyByUser(user, tenant);
      task := SyncAll(tenant, user);
    }

    /** The goroutines that single and one-key operations leave behind; the pushed figure is the fresh cached one. */
    method UpdateCache(task: Task) returns (pushed: int)
      requires unread.db == db && (task.MarkOp? || task.Decrement? || task.ClearPersonal? || task.SyncAll?)
      modifies unread.redis
      ensures unread.redis.View() == Exec(db.View(), old(unread.redis.View()), task)
      ensures task.MarkOp? || task.SyncAll? ==> pushed == FullOf(unread.redis.View(), task.tenant, task.user).tenant
      ensures task.Decrement? ==> pushed == Num(unread.redis.View(), CounterKey(task.tenant, task.user, task.sender))
      ensures task.ClearPersonal? ==> pushed == 0
    {
      match task {
        case MarkOp(tenant, user, id) =>
          unread.MarkUserBroadcastOp(tenant, user, id);
          pushed := unread.GetTenantUnread(tenant, user);
        case Decrement(tenant, user, sender) =>
          pushed := unread.DecrUnread(tenant, user, sender);
        case ClearPersonal(tenant, user) =>
          unread.ClearPersonUnread(tenant, user);
          pushed := 0;
        case SyncAll(tenant, user) =>
          var _ := unread.SyncTenantBroadcastCacheToOp(tenant, user);
          pushed := unread.GetTenantUnread(tenant, user);
        case _ =>
          pushed := 0;
      }
    }
  }
}
