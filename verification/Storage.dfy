/**
 The three Postgres tables as one value, the SQL queries as functions of it and
 the SQL updates as functions between values.
 */
module Storage {
  import opened Types

  datatype Record = Record(
    tenant: Tenant,
    sender: SenderType,
    target: TargetType,
    targetIds: seq<User>,
    createdAt: Time,
    expireAt: Option<Time>)

  datatype Row = Row(notify: NotifyId, user: User, status: Status)

  datatype Mark = Mark(readAt: Time, clearAt: Time)

  datatype DB = DB(
    records: map<NotifyId, Record>,
    rows: map<RowId, Row>,
    marks: map<(Tenant, User), Mark>)

  const EMPTY_DB := DB(map[], map[], map[])

  // ---- Point queries ----

  /** The user's watermarks; both are the zero time when there is no watermark row. */
  function MarkOf(db: DB, tenant: Tenant, user: User): Mark {
    if (tenant, user) in db.marks then db.marks[(tenant, user)] else Mark(0, 0)
  }

  /** All status rows of one user for one notification. */
  function RowsFor(db: DB, user: User, id: NotifyId): set<RowId> {
    set k | k in db.rows && db.rows[k].user == user && db.rows[k].notify == id
  }

  /** `First` orders by primary key: the least of a non-empty set of row keys. */
  function Least(s: set<nat>): (m: nat)
    requires s != {}
    ensures m in s && forall k | k in s :: m <= k
  {
    assert exists m :: m in s && forall k | k in s :: m <= k by {
      var x :| x in s;
      HasLeast(s, x);
    }
    var m :| m in s && forall k | k in s :: m <= k;
    m
  }

  lemma {:induction false} HasLeast(s: set<nat>, x: nat)
    requires x in s
    ensures exists m :: m in s && forall k | k in s :: m <= k
    decreases x
  {
    if y :| y in s && y < x {
      HasLeast(s, y);
    } else {
      assert forall k | k in s :: x <= k;
    }
  }

  // ---- Unread counts (non-broadcast) ----

  predicate CountsUnread(db: DB, tenant: Tenant, user: User, sender: SenderType, row: Row) {
    && row.user == user
    && row.status == Unread
    && row.notify in db.records
    && db.records[row.notify].tenant == tenant
    && db.records[row.notify].sender == sender
    && db.records[row.notify].target != Broadcast
  }

  function UnreadRows(db: DB, tenant: Tenant, user: User, sender: SenderType): set<RowId> {
    set k | k in db.rows && CountsUnread(db, tenant, user, sender, db.rows[k])
  }

  /** CountUnreadUser and CountUnreadTenant: the per-user join count. */
  function CountUnread(db: DB, tenant: Tenant, user: User, sender: SenderType): nat {
    |UnreadRows(db, tenant, user, sender)|
  }

  /** CountBroadcastTotalByTenant: every broadcast of the tenant, whoever sent it. */
  function BroadcastIds(db: DB, tenant: Tenant): set<NotifyId> {
    set n | n in db.records && db.records[n].tenant == tenant && db.records[n].target == Broadcast
  }

  // ---- Updates ----

  /** Inserts the rows `rowIds[i]` for `users[i]`, all unread. */
  function InsertRows(rows: map<RowId, Row>, id: NotifyId, users: seq<User>, rowIds: seq<RowId>): map<RowId, Row>
    requires |users| == |rowIds|
  {
    if users == [] then rows
    else
      var last := |users| - 1;
      InsertRows(rows, id, users[..last], rowIds[..last])[rowIds[last] := Row(id, users[last], Unread)]
  }

  function InsertRecord(db: DB, id: NotifyId, record: Record, rowIds: seq<RowId>): DB
    requires |record.targetIds| == |rowIds|
  {
    db.(records := db.records[id := record],
        rows := InsertRows(db.rows, id, record.targetIds, rowIds))
  }

  /** UpsertByUserAndNotify: rewrite the first matching row, else create `newRow`. */
  function Upsert(db: DB, user: User, id: NotifyId, next: Status, newRow: RowId): DB {
    var found := RowsFor(db, user, id);
    var k := if found == {} then newRow else Least(found);
    db.(rows := db.rows[k := Row(id, user, next)])
  }

  /** Rows of `user` whose notification belongs to `tenant`, any sender and target type. */
  function RowsInTenant(db: DB, tenant: Tenant, user: User): set<RowId> {
    set k | k in db.rows && db.rows[k].user == user && db.rows[k].notify in db.records
            && db.records[db.rows[k].notify].tenant == tenant
  }

  /** The part of RowsInTenant sent by the tenant to named users. */
  function TenantDirectRows(db: DB, tenant: Tenant, user: User): set<RowId> {
    set k | k in RowsInTenant(db, tenant, user)
            && db.records[db.rows[k].notify].target != Broadcast
            && db.records[db.rows[k].notify].sender == FromTenant
  }

  /** UPDATE notify_status SET status = next WHERE row IN selected. */
  function Restatus(db: DB, selected: set<RowId>, next: Status): DB {
    db.(rows := map k | k in db.rows :: if k in selected then db.rows[k].(status := next) else db.rows[k])
  }

  function SetReadAt(db: DB, tenant: Tenant, user: User, at: Time): DB {
    db.(marks := db.marks[(tenant, user) := Mark(at, MarkOf(db, tenant, user).clearAt)])
  }

  function SetClearAt(db: DB, tenant: Tenant, user: User, at: Time): DB {
    db.(marks := db.marks[(tenant, user) := Mark(MarkOf(db, tenant, user).readAt, at)])
  }

  /** Records whose expiry has passed; a record without expiry never expires. */
  predicate Expired(record: Record, before: Time) {
    record.expireAt.Some? && record.expireAt.value <= before
  }

  function ExpiredIds(db: DB, before: Time): set<NotifyId> {
    set n | n in db.records && Expired(db.records[n], before)
  }

  function IdSet(ids: seq<NotifyId>): set<NotifyId> {
    set n | n in ids
  }

  function DeleteStatuses(db: DB, ids: set<NotifyId>): DB {
    db.(rows := map k | k in db.rows && db.rows[k].notify !in ids :: db.rows[k])
  }

  function DeleteRecords(db: DB, ids: set<NotifyId>): DB {
    db.(records := db.records - ids)
  }

  lemma SubsetSize<T>(part: set<T>, all: set<T>)
    requires part <= all
    ensures |part| <= |all|
  {
    assert all == part + (all - part);
  }

  /** What inserting the rows of one send does, key by key. */
  lemma {:induction false} InsertRowsKeys(rows: map<RowId, Row>, id: NotifyId, users: seq<User>, rowIds: seq<RowId>)
    requires |users| == |rowIds|
    ensures InsertRows(rows, id, users, rowIds).Keys == rows.Keys + (set k | k in rowIds)
    ensures forall k | k in rows && k !in rowIds :: InsertRows(rows, id, users, rowIds)[k] == rows[k]
    ensures forall k | k in rowIds ::
              var row := InsertRows(rows, id, users, rowIds)[k];
              row.notify == id && row.status == Unread && row.user in users
  {
    if users != [] {
      var last := |users| - 1;
      InsertRowsKeys(rows, id, users[..last], rowIds[..last]);
      assert rowIds == rowIds[..last] + [rowIds[last]];
      assert users == users[..last] + [users[last]];
    }
  }
}
