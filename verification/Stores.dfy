/** The two stores as objects: the Postgres repositories and the Redis repository. */
module Stores {
  import opened Types
  import opened Keys
  import opened Storage
  import opened UnreadCache

  // ---- Postgres ----

  predicate Expires(db: DB, n: NotifyId) {
    n in db.records && db.records[n].expireAt.Some?
  }

  function ExpiryOf(db: DB, n: NotifyId): Time {
    if Expires(db, n) then db.records[n].expireAt.value else 0
  }

  /** A page of ListExpiredNotifyInfos: distinct expired records, earliest first, as many as fit. */
  ghost predicate ExpiredPage(db: DB, before: Time, limit: nat, ids: seq<NotifyId>) {
    && (forall n | n in ids :: n in ExpiredIds(db, before))
    && (forall i, j | 0 <= i < j < |ids| :: ids[i] != ids[j])
    && (forall i, j | 0 <= i < j < |ids| :: ExpiryOf(db, ids[i]) <= ExpiryOf(db, ids[j]))
    && (forall i, m | 0 <= i < |ids| && m in ExpiredIds(db, before) && m !in ids :: ExpiryOf(db, ids[i]) <= ExpiryOf(db, m))
    && (|ids| == limit || forall m | m in ExpiredIds(db, before) :: m in ids)
    && |ids| <= limit
  }

  /** Such a page in the fields of the records: what is left out expires no earlier, and only for lack of room. */
  lemma EarliestListed(db: DB, before: Time, limit: nat, ids: seq<NotifyId>, i: nat, m: NotifyId)
    requires ExpiredPage(db, before, limit, ids) && i < |ids|
    requires m in db.records && db.records[m].expireAt.Some? && db.records[m].expireAt.value <= before
    ensures ids[i] in db.records && db.records[ids[i]].expireAt.Some? && db.records[ids[i]].expireAt.value <= before
    ensures m !in ids ==> |ids| == limit && db.records[ids[i]].expireAt.value <= db.records[m].expireAt.value
    ensures forall j | i < j < |ids| && ids[j] == m :: db.records[ids[i]].expireAt.value <= db.records[m].expireAt.value
  {
    assert ids[i] in ids && m in ExpiredIds(db, before);
    assert ids[i] in ExpiredIds(db, before);
  }

  lemma {:induction false} EarliestExists(db: DB, s: set<NotifyId>, n: NotifyId)
    requires n in s
    ensures exists m :: m in s && forall k | k in s :: ExpiryOf(db, m) <= ExpiryOf(db, k)
    decreases ExpiryOf(db, n)
  {
    if m :| m in s && ExpiryOf(db, m) < ExpiryOf(db, n) {
      EarliestExists(db, s, m);
    } else {
      assert forall k | k in s :: ExpiryOf(db, n) <= ExpiryOf(db, k);
    }
  }

  class Database {
    var records: map<NotifyId, Record>
    var rows: map<RowId, Row>
    var marks: map<(Tenant, User), Mark>

    function View(): DB
      reads this
    {
      DB(records, rows, marks)
    }

    constructor ()
      ensures View() == EMPTY_DB
    {
      records, rows, marks := map[], map[], map[];
    }

    method FindById(id: NotifyId) returns (found: Option<Record>)
      ensures found == if id in records then Some(records[id]) else None
    {
      if id in records {
        return Some(records[id]);
      }
      return None;
    }

    method Create(id: NotifyId, record: Record)
      modifies this`records
      ensures records == old(records)[id := record]
    {
      records := records[id := record];
    }

    /** One insert per status row. */
    method CreateBulk(statuses: seq<Row>, rowIds: seq<RowId>, ghost id: NotifyId, ghost users: seq<User>)
      requires |statuses| == |rowIds| == |users|
      requires forall i | 0 <= i < |statuses| :: statuses[i] == Row(id, users[i], Unread)
      modifies this`rows
      ensures rows == InsertRows(old(rows), id, users, rowIds)
    {
      for i := 0 to |statuses|
        invariant rows == InsertRows(old(rows), id, users[..i], rowIds[..i])
      {
        assert users[..i + 1][..i] == users[..i] && rowIds[..i + 1][..i] == rowIds[..i];
        rows := rows[rowIds[i] := statuses[i]];
      }
      assert users[..|users|] == users && rowIds[..|rowIds|] == rowIds;
    }

    /** First matching row by primary key. */
    method FindByUserAndNotify(user: User, id: NotifyId) returns (found: Option<RowId>)
      ensures found.None? <==> RowsFor(View(), user, id) == {}
      ensures found.Some? ==> found.value in RowsFor(View(), user, id) && forall k | k in RowsFor(View(), user, id) :: found.value <= k
    {
      var matching := RowsFor(View(), user, id);
      if matching == {} {
        return None;
      }
      return Some(Least(matching));
    }

    method UpsertByUserAndNotify(user: User, id: NotifyId, next: Status, newRow: RowId)
      modifies this`rows
      ensures View() == Upsert(old(View()), user, id, next, newRow)
    {
      var found := FindByUserAndNotify(user, id);
      if found.None? {
        rows := rows[newRow := Row(id, user, next)];
      } else {
        var row := rows[found.value];
        rows := rows[found.value := row.(status := next)];
      }
    }

    method UpdateStatus(selected: set<RowId>, next: Status)
      modifies this`rows
      ensures View() == Restatus(old(View()), selected, next)
    {
      rows := map k | k in rows :: if k in selected then rows[k].(status := next) else rows[k];
    }

    method BatchMarkReadByUser(user: User, tenant: Tenant)
      modifies this`rows
      ensures View() == Restatus(old(View()), RowsInTenant(old(View()), tenant, user), Read)
    {
      UpdateStatus(RowsInTenant(View(), tenant, user), Read);
    }

    method BatchMarkTenantNonBroadcastReadByUser(user: User, tenant: Tenant)
      modifies this`rows
      ensures View() == Restatus(old(View()), TenantDirectRows(old(View()), tenant, user), Read)
    {
      UpdateStatus(TenantDirectRows(View(), tenant, user), Read);
    }

    method BatchMarkDeleteUserNotifyByUser(user: User, tenant: Tenant)
      modifies this`rows
      ensures View() == Restatus(old(View()), RowsInTenant(old(View()), tenant, user), Deleted)
    {
      UpdateStatus(RowsInTenant(View(), tenant, user), Deleted);
    }

    /** Insert with only the read column set, or overwrite that column. */
    method UpsertTenantReadAt(tenant: Tenant, user: User, at: Time)
      modifies this`marks
      ensures View() == SetReadAt(old(View()), tenant, user, at)
    {
      if (tenant, user) in marks {
        marks := marks[(tenant, user) := marks[(tenant, user)].(readAt := at)];
      } else {
        marks := marks[(tenant, user) := Mark(at, 0)];
      }
    }

    method UpsertTenantClearAt(tenant: Tenant, user: User, at: Time)
      modifies this`marks
      ensures View() == SetClearAt(old(View()), tenant, user, at)
    {
      if (tenant, user) in marks {
        marks := marks[(tenant, user) := marks[(tenant, user)].(clearAt := at)];
      } else {
        marks := marks[(tenant, user) := Mark(0, at)];
      }
    }

    /** Expired records by expiry, up to the limit. Ties come in any order. */
    method ListExpired(before: Time, limit: nat) returns (ids: seq<NotifyId>)
      ensures ExpiredPage(View(), before, limit, ids)
    {
      ids := [];
      var left := ExpiredIds(View(), before);
      while |ids| < limit && left != {}
        invariant |ids| <= limit
        invariant forall n :: n in ExpiredIds(View(), before) <==> n in left || n in ids
        invariant forall n | n in ids :: n !in left
        invariant forall i, j | 0 <= i < j < |ids| :: ids[i] != ids[j] && ExpiryOf(View(), ids[i]) <= ExpiryOf(View(), ids[j])
        invariant forall i, m | 0 <= i < |ids| && m in left :: ExpiryOf(View(), ids[i]) <= ExpiryOf(View(), m)
        decreases left
      {
        assert exists m :: m in left && forall k | k in left :: ExpiryOf(View(), m) <= ExpiryOf(View(), k) by {
          var x :| x in left;
          EarliestExists(View(), left, x);
        }
        var n :| n in left && forall k | k in left :: ExpiryOf(View(), n) <= ExpiryOf(View(), k);
        ids := ids + [n];
        left := left - {n};
      }
    }

    method DeleteStatusesByNotifyIds(ids: seq<NotifyId>)
      modifies this`rows
      ensures View() == DeleteStatuses(old(View()), IdSet(ids))
    {
      if |ids| != 0 {
        rows := map k | k in rows && rows[k].notify !in ids :: rows[k];
      } else {
        assert rows == map k | k in rows && rows[k].notify !in IdSet(ids) :: rows[k];
      }
    }

    method DeleteRecordsByNotifyIds(ids: seq<NotifyId>)
      modifies this`records
      ensures View() == DeleteRecords(old(View()), IdSet(ids))
    {
      if |ids| != 0 {
        records := records - IdSet(ids);
      }
    }
  }

  // ---- Redis ----

  /** SCARD minus SINTERCARD is the size of the difference. */
  lemma CardMinusInter(total: set<NotifyId>, op: set<NotifyId>)
    ensures |total| - |total * op| == |total - op|
  {
    assert total == (total * op) + (total - op);
    assert (total * op) !! (total - op);
  }

  /** A tenant counter plus the broadcasts not yet operated on. */
  function TenantUnread(c: Cache, counter: Key, total: Key, op: Key): int {
    Num(c, counter) + |Members(c, total) - Members(c, op)|
  }

  class Redis {
    var nums: map<Key, int>
    var sets: map<Key, set<NotifyId>>

    function View(): Cache
      reads this
    {
      Cache(nums, sets)
    }

    constructor ()
      ensures View() == EMPTY_CACHE
    {
      nums, sets := map[], map[];
    }

    /** Missing keys read as 0. */
    method Get(k: Key) returns (v: int)
      ensures v == Num(View(), k)
    {
      if k !in nums {
        return 0;
      }
      return nums[k];
    }

    method SetKey(k: Key, v: int)
      modifies this`nums
      ensures View() == SetNum(old(View()), k, v)
    {
      nums := nums[k := v];
    }

    /** DECR, then SET 0 when the counter went negative. */
    method DecrWithFloor(k: Key) returns (v: int)
      modifies this`nums
      ensures View() == DecrFloor(old(View()), k)
      ensures v == Num(View(), k) && v >= 0
    {
      v := (if k in nums then nums[k] else 0) - 1;
      nums := nums[k := v];
      if v < 0 {
        nums := nums[k := 0];
        v := 0;
      }
    }

    method SAdd(k: Key, id: NotifyId)
      modifies this`sets
      ensures View() == AddMember(old(View()), k, id)
    {
      var members := if k in sets then sets[k] else {};
      sets := sets[k := members + {id}];
    }

    method SCard(k: Key) returns (n: int)
      ensures n == |Members(View(), k)|
    {
      n := if k in sets then |sets[k]| else 0;
    }

    method SInterCard(a: Key, b: Key) returns (n: int)
      ensures n == |Members(View(), a) * Members(View(), b)|
    {
      var x := if a in sets then sets[a] else {};
      var y := if b in sets then sets[b] else {};
      n := |x * y|;
    }

    /** DEL for an empty replacement, else a temporary set renamed over the key. */
    method SafeReplaceSet(k: Key, ids: set<NotifyId>)
      modifies this`sets
      ensures View() == StoreSet(old(View()), k, ids)
    {
      if |ids| == 0 {
        sets := sets - {k};
        return;
      }
      sets := sets[k := ids];
    }

    method BatchSetPipeline(kv: map<Key, int>)
      modifies this`nums
      ensures nums == old(nums) + kv
    {
      var todo := kv.Keys;
      while todo != {}
        invariant todo <= kv.Keys
        invariant nums.Keys == old(nums).Keys + (kv.Keys - todo)
        invariant forall k | k in nums :: nums[k] == if k in kv && k !in todo then kv[k] else old(nums)[k]
        decreases todo
      {
        var k :| k in todo;
        nums := nums[k := kv[k]];
        todo := todo - {k};
      }
    }

    /** Per key: INCR if it exists and answer the new value, else answer -1. */
    method BatchIncrIfExist(keys: seq<Key>) returns (results: seq<int>)
      modifies this`nums
      ensures View() == IncrExisting(old(View()), keys)
      ensures |results| == |keys|
      ensures forall i | 0 <= i < |keys| ::
                results[i] == if keys[i] in old(nums) then Num(IncrExisting(old(View()), keys[..i + 1]), keys[i]) else -1
    {
      results := [];
      for i := 0 to |keys|
        invariant |results| == i && nums.Keys == old(nums).Keys
        invariant forall j | 0 <= j < i ::
                    results[j] == if keys[j] in old(nums) then Num(IncrExisting(old(View()), keys[..j + 1]), keys[j]) else -1
        invariant View() == IncrExisting(old(View()), keys[..i])
      {
        assert keys[..i + 1][..i] == keys[..i];
        if keys[i] in nums {
          nums := nums[keys[i] := nums[keys[i]] + 1];
          results := results + [nums[keys[i]]];
        } else {
          results := results + [-1];
        }
      }
      assert keys[..|keys|] == keys;
    }

    /** The difference-count script; its negative floor is never taken. */
    method SDiffCount(totalKey: Key, opKey: Key) returns (unread: int)
      ensures unread == |Members(View(), totalKey) - Members(View(), opKey)|
    {
      var total := SCard(totalKey);
      if total == 0 {
        return 0;
      }
      var inter := SInterCard(totalKey, opKey);
      CardMinusInter(Members(View(), totalKey), Members(View(), opKey));
      unread := total - inter;
      if unread < 0 {
        assert false;
      }
    }

    /** SUNIONSTORE op op total; the answer is the size of the stored set. */
    method SyncTenantBroadcastToOp(totalKey: Key, opKey: Key) returns (n: int)
      modifies this`sets
      ensures View() == StoreSet(old(View()), opKey, Members(old(View()), opKey) + Members(old(View()), totalKey))
      ensures n == |Members(View(), opKey)|
    {
      var members := (if opKey in sets then sets[opKey] else {}) + (if totalKey in sets then sets[totalKey] else {});
      if members == {} {
        sets := sets - {opKey};
      } else {
        sets := sets[opKey := members];
      }
      n := |members|;
    }

    /** The batch script: keys come in threes, answers go out in twos. */
    method BatchGetUnreadDual(totalKey: Key, argv: seq<Key>) returns (res: seq<int>)
      requires |argv| % 3 == 0
      ensures |res| == |argv| / 3 * 2
      ensures forall j | 0 <= j < |argv| / 3 ::
                && res[2 * j] == Num(View(), argv[3 * j])
                && res[2 * j + 1] == TenantUnread(View(), argv[3 * j + 1], totalKey, argv[3 * j + 2])
                                  == Num(View(), argv[3 * j + 1]) + |Members(View(), totalKey) - Members(View(), argv[3 * j + 2])|
    {
      var total := SCard(totalKey);
      res := [];
      var i := 0;
      while i < |argv|
        invariant 0 <= i <= |argv| && i % 3 == 0
        invariant |res| == i / 3 * 2
        invariant forall j | 0 <= j < i / 3 ::
                    && res[2 * j] == Num(View(), argv[3 * j])
                    && res[2 * j + 1] == TenantUnread(View(), argv[3 * j + 1], totalKey, argv[3 * j + 2])
      {
        var personal := Get(argv[i]);
        var point := Get(argv[i + 1]);
        var inter := 0;
        if total > 0 {
          inter := SInterCard(totalKey, argv[i + 2]);
        }
        CardMinusInter(Members(View(), totalKey), Members(View(), argv[i + 2]));
        res := res + [personal, point + (total - inter)];
        i := i + 3;
      }
    }
  }
}
