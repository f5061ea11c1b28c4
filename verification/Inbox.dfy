/**
 The inbox queries: a LEFT JOIN of notifications with one user's status rows,
 filtered by the watermarks, counted and listed page by page.
 */
module Inbox {
  import opened Types
  import opened Storage

  /** One joined line: a notification with one of the user's rows, or with none. */
  datatype Item = Item(notify: NotifyId, row: Option<RowId>)

  ghost predicate InJoin(db: DB, user: User, it: Item) {
    && it.notify in db.records
    && match it.row
       case None => RowsFor(db, user, it.notify) == {}
       case Some(k) => k in RowsFor(db, user, it.notify)
  }

  function Joined(db: DB, user: User): (r: set<Item>)
    ensures forall it :: it in r <==> InJoin(db, user, it)
  {
    (set n | n in db.records && RowsFor(db, user, n) == {} :: Item(n, None))
    + (set k | k in db.rows && db.rows[k].user == user && db.rows[k].notify in db.records
         :: Item(db.rows[k].notify, Some(k)))
  }

  /** The joined status column; None is SQL NULL. */
  function StatusOf(db: DB, it: Item): Option<Status>
    requires it.row.Some? ==> it.row.value in db.rows
  {
    match it.row
    case None => None
    case Some(k) => Some(db.rows[k].status)
  }

  /** WHERE clauses of the tenant inbox. */
  ghost predicate InTenantInbox(db: DB, tenant: Tenant, user: User, it: Item) {
    && InJoin(db, user, it)
    && db.records[it.notify].tenant == tenant
    && db.records[it.notify].sender == FromTenant
    && MarkOf(db, tenant, user).clearAt < db.records[it.notify].createdAt
    && StatusOf(db, it) != Some(Deleted)
    && (StatusOf(db, it) != None || db.records[it.notify].target == Broadcast)
  }

  ghost function TenantInbox(db: DB, tenant: Tenant, user: User): set<Item> {
    set it | it in Joined(db, user) && InTenantInbox(db, tenant, user, it)
  }

  /** The CASE of the unread_cnt sum: not read by row and newer than the read watermark. */
  ghost predicate CountedUnread(db: DB, tenant: Tenant, user: User, it: Item)
    requires InJoin(db, user, it)
  {
    StatusOf(db, it) != Some(Read) && MarkOf(db, tenant, user).readAt < db.records[it.notify].createdAt
  }

  ghost function TenantUnreadItems(db: DB, tenant: Tenant, user: User): set<Item> {
    set it | it in TenantInbox(db, tenant, user) && CountedUnread(db, tenant, user, it)
  }

  /** The status shown for a listed item: the row's, else read or unread by the read watermark. */
  ghost function ShownStatus(db: DB, tenant: Tenant, user: User, it: Item): Status
    requires InJoin(db, user, it)
  {
    if StatusOf(db, it).Some? then StatusOf(db, it).value
    else if db.records[it.notify].createdAt <= MarkOf(db, tenant, user).readAt then Read
    else Unread
  }

  /** WHERE clauses of the personal inbox: sent by users, no watermarks. */
  ghost predicate InPersonalInbox(db: DB, tenant: Tenant, user: User, it: Item) {
    && InJoin(db, user, it)
    && db.records[it.notify].tenant == tenant
    && db.records[it.notify].sender == FromUser
    && StatusOf(db, it) != Some(Deleted)
    && (StatusOf(db, it) != None || db.records[it.notify].target == Broadcast)
  }

  /** The personal page shows the row's status, and 0 (unread) for NULL. */
  ghost function PersonalShownStatus(db: DB, user: User, it: Item): Status
    requires InJoin(db, user, it)
  {
    if StatusOf(db, it).Some? then StatusOf(db, it).value else Unread
  }

  /** Notifications that some inbox lists as unread for the user. */
  ghost predicate ShownUnread(db: DB, tenant: Tenant, user: User, id: NotifyId) {
    exists row ::
      var it := Item(id, row);
      || (InTenantInbox(db, tenant, user, it) && ShownStatus(db, tenant, user, it) == Unread)
      || (InPersonalInbox(db, tenant, user, it) && PersonalShownStatus(db, user, it) == Unread)
  }
}
