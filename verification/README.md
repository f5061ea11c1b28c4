# Notification hub: a Dafny model

A multi-tenant notification hub stores notifications in Postgres, keeps unread figures in Redis
and pushes both to browsers over long-lived connections. This project models the parts whose
correctness spans several functions, as values with proofs about every run and as objects
proved against those values.

**Unread accounting.** The tables hold notification records, per-user status rows and per-user
read and clear watermarks. The cache holds a personal counter and a tenant counter per user, the
set of all broadcasts of a tenant ("total") and the set of broadcasts each user has dealt with
("op"). Every request commits to the tables and leaves one cache task behind.

- `Storage`, `Inbox`: the tables as one value, the SQL queries and updates as functions.
- `UnreadCache`, `UserIds`, `Keys`: the cache as a value, the scripts and commands as functions,
  the int64 trip of user IDs, the textual keys.
- `Protocol`: requests, tasks, and runs in which each task runs before the next request.
- `Effects`: what each request does to rows, records and watermarks, and what the inboxes show for it.
- `BroadcastAgreement`, `CounterAgreement`, `AnyIds`, `TenantFigure`, `InboxHistory`, `Revival`: what every
  such run keeps, exactly when the counters and the tenant figure are right, and when a deleted
  notification comes back.
- `Detached`, `DetachedCounters`, `LateSync`, `LateCleanup`: the same requests with tasks that run late and in
  any order.
- `Eviction`, `SplitReconcile`, `CleanupGap`: lost cache keys, a rebuild cut into its accesses, a cleanup
  batch cut between its two deletes.
- `Stores`, `UnreadServices`, `NotifyServices`, `CleanupServices`: the repositories and services as
  classes, each method tied to the functions above.

**Live delivery.**

- `PoolModel`, `Pools`: the nested connection pool as a value that refines a flat map, and as classes
  with the broker and the dispatcher's fan-out.
- `PoolLocks`: the pool at the granularity of its locks, any number of joins, leaves and fan-outs at once.
- `Delivery`: bounded broker queue, single dispatcher, bounded channels.

**Small machines.** `Tickets` (one-time tickets), `Sessions` (session store with sweep), `Paging`.

Modelling decisions:

- Times are natural numbers, 0 being the zero time; requests carry strictly increasing times.
- UUIDs are numbers and are never reused. Status rows are kept by primary key, so a send that names a
  user twice makes two rows, and `First` is the row with the least key.
- A send step may carry any expiry, which covers every table content; `SenderService.Transmit` shows
  that the service itself always stores none, and `NothingExpires` what follows from that.
- Redis keys are a datatype; `Keys.RenderIsInjective` says when that is the same as the key strings.
- Each Lua script and Redis command is one step. The grouped counts are taken in the order of the user
  list, and cleanup visits tenants in order of first appearance; the order matters only when two user
  IDs denote the same int64.
- A run is a sequence of steps together with the states before and after each step, so a theorem about a
  run speaks of every prefix by its index. A "stranding" operation settles a user's direct rows without
  resetting the counter: the tenant clear for the personal counter, all four one-key operations for the
  tenant counter.
- A rebuild of the total set goes through a singleflight group: within one process a second task joins the
  rebuild in progress, across processes each makes its own. `SplitReconcile` allows both at every point.
- Clocks, random bytes, generated IDs, configuration values and context cancellation are parameters.

Where the code differs from its documentation or evident intent, the code is modelled:

- The integration guide uses user IDs such as `user123`. The grouped counts scan user IDs into an
  int64, and one such user with an unread row makes the recount of the whole list fail
  (`UnreadCache.ReconcileAbandonedIff`).
- The tenant one-key clear is documented to delete the tenant's direct notifications; it deletes all of
  the user's rows in the tenant, personal ones included (`CounterAgreement.StepCounters`).
- One-key reads and a single read also rewrite deleted rows to read, so a deleted notification can be listed
  again (`Revival.DeletedStaysAwayIff`).
- A requested lifetime is reported to the sender but not stored (`NotifyServices.SenderService.Transmit`).

## Model

| member | source | states |
|---|---|---|
| BroadcastAgreement.BroadcastsAgree | internal/repository/record.go:200-221 | After every run of sends, single and one-key operations and cleanups, the tenant-sent part of total minus op is exactly the set of broadcasts the watermark-and-status query counts as unread |
| BroadcastAgreement.StepKeepsSets | internal/service/status.go:102-212 | Every request with its cache task keeps total equal to the table's broadcasts and op equal to what rows and watermarks settle |
| BroadcastAgreement.WatermarkKeepsOps | internal/logic/unread.go:149-155 | Moving a watermark to now and merging total into op settle the same broadcasts |
| BroadcastAgreement.QueriedIffUnsettled | internal/repository/record.go:254-277 | A tenant broadcast is counted unread if and only if no row and no watermark settles it |
| BroadcastAgreement.CleanupTotals | internal/tasks/notify_cleanup.go:183-188 | The snapshot after a cleanup batch leaves an exact total set exact, affected tenant or not |
| TenantFigure.TenantFigureExactIff | internal/constant/app.go:44-47 | On every run whose requests keep the tenant counter exact, counter plus the size of total minus op equals the inbox's unread_cnt if and only if every broadcast sent by a user is settled |
| TenantFigure.FigureExactThroughoutIff | internal/logic/unread.go:237-247 | The figure equals unread_cnt after every prefix of a run if and only if no user broadcasts in the tenant, no single operation hits a settled direct row while others are unread, and no one-key operation of the user meets an unread direct row |
| TenantFigure.ServedFigures | internal/logic/unread.go:232-287 | The two answers per user are the personal counter and the tenant counter plus the size of total minus op |
| TenantFigure.ServedIsUnreadCount | internal/logic/unread.go:237-247 | On runs that keep the figure, the tenant answer is the inbox's unread_cnt at every point |
| TenantFigure.ServedIsPersonalCount | internal/logic/unread.go:232-234 | On runs that keep the personal counter, the personal answer is the number of unread direct rows from users |
| TenantFigure.StrandedFigureRun | internal/service/status.go:86-148 | One direct notification and then any of the four one-key operations leaves the figure wrong |
| TenantFigure.UserBroadcastRun | internal/service/sender.go:150-167 | One broadcast sent by a user makes the figure wrong for everybody in the tenant |
| TenantFigure.UnreadCountSplits | internal/repository/record.go:262-277 | In every sound table state unread_cnt is the number of unsettled tenant broadcasts plus the direct unread count |
| Detached.DetachedBroadcastsAgree | internal/logic/sender.go:47-67 | Sends and single operations with detached tasks in any order: once all tasks have run, total, op and the unread sets agree with the tables |
| Detached.TaskKeepsLag | internal/service/status.go:188-212 | Any waiting task may run at any time: a broadcast missing from total or op still has its own task waiting |
| DetachedCounters.DetachedCounterBounded | internal/service/status.go:213-219 | Tasks detached in any order, canonical users, no operation that strands the counter: once all tasks have run, a personal or tenant counter is between 0 and the unread rows |
| DetachedCounters.CounterByMoves | internal/logic/unread.go:103-160 | All requests of canonical users, tasks in any order: at every point a counter is what its last recount, snapshot or reset wrote, less the decrements run since, floored at 0, and the unread rows are the sum of the requests' changes |
| DetachedCounters.DetachedWithinIff | internal/service/status.go:213-226 | At every point of such a run the counter is within the unread rows if and only if it was never recounted, was last reset, or the rows settled or removed since the last recount outnumber those added by at most the decrements run since |
| DetachedCounters.NothingStrandedIsBalanced | internal/service/status.go:151-226 | Runs without a stranding operation meet that condition once all tasks have run |
| DetachedCounters.CommitChange | internal/repository/status.go:56-126 | How many unread rows of the user each request adds, settles or removes |
| DetachedCounters.LateRecountIff | internal/logic/unread.go:197-224 | IDs of any form: a late recount keeps the bound if and only if it goes through and counts nobody with more unread rows under the user's ID, or is abandoned and an existing counter has room for the user's occurrences |
| DetachedCounters.AbandonedRecountRun | internal/logic/unread.go:197-224 | With an ID that is not an int64 and a late task, a counter ends above the unread rows |
| DetachedCounters.TaskCounter | internal/logic/unread.go:139-160 | A task rewrites the counter to the unread rows, resets it, decrements it above 0, or leaves it alone, and which of these |
| CounterAgreement.CounterBounded | internal/logic/unread.go:103-134 | Over every run of canonical users, 0 <= counter <= unread rows, for a personal counter whose user never tenant-clears and a tenant counter whose user makes no one-key operation |
| CounterAgreement.CountersExactIff | internal/service/status.go:213-226 | A personal or tenant counter is exact after every prefix of a run if and only if no single operation hits a settled row while the user has unread rows left, and no stranding operation meets unread rows |
| CounterAgreement.StepCounters | internal/service/status.go:71-148 | One request: a counter within bounds stays so if and only if a stranding operation finds it 0, and an exact one stays exact if and only if the request keeps it so |
| CounterAgreement.ActCounters | internal/repository/status.go:56-78 | A repeated single operation decrements the counter again while the unread rows stay as they are |
| CounterAgreement.TenantOneKeyCounters | internal/repository/status.go:104-126 | Tenant one-key operations settle the direct rows and leave both counters alone |
| CounterAgreement.UserOneKeyCounters | internal/repository/status.go:96-118 | User one-key operations settle the tenant's direct rows too but reset the personal counter only |
| CounterAgreement.StrandedRun | internal/service/status.go:162-174 | One send and one stranding operation: the counter says 1, nothing is unread |
| CounterAgreement.RepeatedReadRun | internal/service/status.go:213-226 | Two sends and the same read twice: the counter says 0, one row is unread |
| AnyIds.AnyIdBoundedIff | internal/repository/unread_db.go:72-96 | User IDs of any form, sends as the service stores them: 0 <= counter <= unread rows after every prefix of a run if and only if no recount of a send to the user counts a listed user of the same int64 with more unread rows, and no stranding operation finds the counter above 0 |
| AnyIds.AnyIdBounded | internal/logic/unread.go:103-134 | The bound holds over every such run in which no send lists two IDs of one int64 and nothing strands the counter |
| AnyIds.AnyIdExactIff | internal/logic/unread.go:197-224 | User IDs of any form: a counter is exact after every prefix of a run if and only if every send to the user counts right, no single operation hits a settled row while others are unread, and no stranding operation meets unread rows |
| AnyIds.GuideIdRun | internal/repository/unread_db.go:99-117 | One send to user123: no counter is written, one row is unread |
| AnyIds.ClashRun | internal/repository/unread_db.go:91-96 | A send that lists "7" and "07" leaves the counter of "7" above its unread rows |
| Eviction.EvictedTotalsHeal | internal/logic/unread.go:173-188 | If Redis may drop total sets at any point, each is always empty or exact, and exact right after each broadcast of the tenant |
| Eviction.OneKeyKeepsOpsIff | internal/repository/unread_cache.go:265-271 | A tenant one-key operation keeps the operated sets exact if and only if it finds the total set present or all broadcasts already operated on |
| Eviction.OpsSurviveIff | internal/service/status.go:162-174 | Under eviction at any point, the operated sets are exact after every prefix of a run if and only if each tenant one-key operation of the run finds so |
| Eviction.AgreementHeals | internal/logic/unread.go:173-188 | On such runs cache and query agree again right after the tenant's next broadcast |
| Eviction.ReadDuringEvictionReturns | internal/repository/unread_cache.go:265-271 | Any broadcast read by one key while total is lost is counted again after the next broadcast |
| Eviction.LostReadRun | internal/repository/unread_cache.go:265-271 | Such a run from the empty hub |
| LateSync.LateSweepsAgreeIff | internal/service/status.go:151-174 | All requests, cleanup included, tasks detached in any order: once all have run, cache and query agree for a user if and only if, for each broadcast not acted on singly, the user's one-key operation came after its commit exactly when a one-key task ran after it had entered total |
| LateSync.TotalByMoves | internal/logic/unread.go:173-188 | At every point total holds a broadcast that is never removed exactly if its own add task has run or a task has rewritten the set since its commit |
| LateSync.FirstAddRefreshes | internal/logic/unread.go:181-186 | Without cleanup the add that rewrites the set is the tenant's first |
| LateCleanup.TotalEndsExactIff | internal/tasks/notify_cleanup.go:183-188 | All requests, all tasks done: total is exactly the table's broadcasts if and only if every add that found its broadcast removed and other members in the set was followed by a task that rewrites the set |
| LateCleanup.StaleIff | internal/logic/unread.go:173-188 | At every point a member of total has no record if and only if a cleanup or a late add made it so and no task has rewritten the set since |
| LateCleanup.PutBackRun | internal/logic/sender.go:47-67 | A broadcast is removed and the snapshot taken before its own add runs: it is in total again with all tasks done |
| LateSync.OpByMoves | internal/logic/unread.go:149-193 | At every point op holds a broadcast that is never removed exactly if its own task marked it or a one-key task ran while it was in total |
| LateSync.SyncKeepsOpIff | internal/logic/unread.go:149-155 | One one-key task keeps op right if and only if everything in total is settled and everything that only this task can deliver is in total |
| LateSync.HiddenBroadcastRun | internal/service/status.go:151-174 | All tasks done: a broadcast sent after the one-key read is hidden |
| LateSync.ReturningBroadcastRun | internal/service/status.go:151-174 | All tasks done: a broadcast sent before the one-key read is still counted |
| SplitReconcile.NeverPhantom | internal/logic/unread.go:173-188 | With the broadcast task cut into its accesses, total never holds an ID that was not broadcast |
| SplitReconcile.NothingLostIff | internal/logic/unread.go:81-100 | Every broadcast stays in total from its add on, over every prefix, if and only if no add of a broadcast that a load did not see falls between that load and its replace |
| SplitReconcile.EndsExactIff | internal/repository/unread_cache.go:114-131 | With all tasks done, total is exact if and only if every replace that left out a broadcast was followed by its add or by a replace that has it |
| SplitReconcile.StaleReplaceRun | internal/logic/unread.go:173-188 | A run with all tasks done and a broadcast missing from total |
| Protocol.CommitKeepsTables | internal/service/sender.go:169-193 | Every commit keeps: no orphan row, no unread row on a broadcast, rows only for targets, no unread tenant row older than a watermark |
| Protocol.RunKeepsTables | internal/service/status.go:102-118 | The same over every run, a cleanup batch taken as one step |
| Effects.SendCommits | internal/service/sender.go:46-71 | A send with a tenant and fitting targets stores one record with its fields and one unread row per listed user, in order; any other send changes nothing |
| Effects.DirectSendArrives | internal/service/sender.go:169-193 | Each row of a direct send is listed unread in its addressee's inbox of the sender's kind, and not in the other |
| Effects.BroadcastArrives | internal/repository/record.go:254-309 | A broadcast is listed unread in every user's inbox of the sender's kind, and not in the other |
| Effects.DirectSendReachesNoOther | internal/repository/record.go:254-260 | A direct send is listed for no other user and in no other tenant |
| Effects.DirectSendCounts | internal/repository/unread_db.go:21-44 | A send raises the unread count of its own kind by the user's occurrences and no other count |
| Effects.ActCommits | internal/repository/status.go:56-78 | A granted single operation sets the user's first row to the new status, or makes one, and changes nothing else |
| Effects.OneKeyCommits | internal/repository/status.go:96-126 | A one-key operation rewrites exactly its own rows, to read or to deleted |
| Effects.MarksAfter | internal/repository/watermark.go:24-45 | Only the tenant one-key operations move a watermark: one column of their own user, to now |
| Effects.ClearHidesRows | internal/service/status.go:121-148 | After a one-key clear no inbox of the tenant lists anything the user has a row for |
| Effects.TenantClearEmpties | internal/service/status.go:132-148 | After a tenant one-key clear the user's tenant inbox is empty |
| Effects.TenantReadLeavesNoneUnread | internal/service/status.go:102-118 | After a tenant one-key read nothing in the tenant inbox is counted or shown unread |
| Effects.UserReadShowsRead | internal/service/status.go:91-99 | After a user one-key read everything listed with a row is shown read in both inboxes |
| Effects.CleanupCommits | internal/tasks/notify_cleanup.go:91-99 | A batch takes away exactly the listed records and their rows |
| Effects.AccessIff | internal/service/status.go:232-266 | Each answer of the access check has its own condition |
| Effects.RecordIsItsSend | internal/service/sender.go:150-167 | Over every run each record has the fields and the time of the send that stored it |
| Effects.GrantedIffSendListed | internal/service/status.go:257-263 | Over every run, while a notification is there, a non-empty user is granted if and only if its send was made in the user's tenant and was a broadcast or listed the user |
| Effects.ListedUserCanAct | internal/service/status.go:71-84 | After any valid direct send, and while it is there, every listed non-empty user's read or delete sets the user's first row |
| CleanupGap.GapsKeepTablesIff | internal/tasks/notify_cleanup.go:91-99 | With the two deletes of a batch as separate commits, the tables stay sound over a run if and only if no granted single operation on an expiring notification is served between them |
| CleanupGap.BatchKeepsTablesIff | internal/tasks/notify_cleanup.go:91-99 | The same for one batch |
| CleanupGap.QuietBatchIsCleanup | internal/tasks/notify_cleanup.go:91-104 | A batch with nothing served in between is the one-step cleanup |
| CleanupGap.OrphanRun | internal/tasks/notify_cleanup.go:91-99 | A read served between the two deletes leaves a row without a record |
| InboxHistory.UnreadCountMatchesPages | internal/repository/record.go:254-309 | After every run, for every page size, the items shown unread over all pages of the tenant inbox are as many as unread_cnt |
| InboxHistory.CountedIsShown | internal/repository/record.go:284-305 | The counting CASE and the display CASE select the same items |
| InboxHistory.SeparateQueriesTile | internal/repository/record.go:306-309 | If no send names a user twice, pages fetched and sorted by separate queries join into one listing |
| InboxHistory.NeverUnreadAgain | internal/repository/status.go:56-126 | Over every run, once no inbox shows a notification unread for a user, none ever does again |
| InboxHistory.ClearedNeverReturns | internal/repository/watermark.go:36-45 | A tenant notification at or before the clear watermark never returns to the tenant inbox |
| InboxHistory.ShownUnreadIff | internal/repository/record.go:112-117 | When an inbox shows a notification unread, in terms of rows and watermarks |
| InboxHistory.HalfCleanup | internal/tasks/notify_cleanup.go:91-99 | A cleanup stopped between its deletes leaves no orphan row and brings back exactly the broadcasts no watermark settles |
| Revival.ComesBackIff | internal/repository/status.go:56-118 | One request on a deleted notification that is not removed: an inbox lists it afterwards if and only if the request revives one of the user's rows and the clear watermark does not hide the record |
| Revival.DeletedRowStep | internal/repository/status.go:73-110 | A deleted row turns read under a user one-key read of its tenant, a tenant one-key read if it is a direct tenant row, or a granted single read that picks it; it stays deleted under every other request or goes with its record |
| Revival.DeletedStaysAwayIff | internal/service/status.go:61-118 | From a prefix with all of the user's rows deleted, no inbox lists the notification after any later prefix if and only if every later reviving request finds the record gone, or tenant-sent and at or before the clear watermark |
| Revival.RevivedRun | internal/repository/status.go:96-110 | Send, delete, then any of the three reviving requests: the notification is listed again |
| Paging.PagesCoverResult | internal/repository/record.go:306-330 | Pages 1 to PagesTotal make up the result without gap or repeat, and exactly the later pages are empty |
| Paging.Page | internal/repository/record.go:232-237 | A page holds at most its size, with defaults for bad page numbers and sizes |
| Paging.PageAt | internal/repository/record.go:232-237 | Entry k of page i is entry (i - 1) * size + k of the result; page numbers and sizes below 1 mean page 1 and size 10 |
| Paging.ListingIsUnique | internal/repository/record.go:138-141 | Without ties in creation time the ordered result is unique |
| Effects.NewestFirst | internal/repository/record.go:306-309 | A listing of the tenant inbox shows newer notifications before older ones |
| UserIds.TripIsIdentityIffCanonical | internal/repository/unread_db.go:72-75 | The int64-then-"%d" trip is the identity exactly on canonical int64 decimals |
| UserIds.PrintThenParse | internal/repository/unread_db.go:91-94 | Every int64 survives printing and parsing, and its printed form is canonical |
| UserIds.SignedParse | internal/repository/unread_db.go:72-75 | A signed run of digits scans to the signed value when that fits int64, and not at all otherwise |
| UserIds.SignsAndZeros | internal/repository/unread_db.go:72-75 | A plus sign or a leading zero does not change the number a text scans to |
| UserIds.OnlyDigitsParse | internal/repository/unread_db.go:72-75 | Only a non-empty run of digits, signed or not, scans |
| UnreadCache.ReconcileCanonical | internal/logic/unread.go:103-134 | On canonical IDs a reconcile writes each listed user's join count, 0 for users missing from the grouped result, and nothing else |
| UnreadCache.ReconcileWritesTruthIff | internal/repository/unread_db.go:78-96 | For every list that scans, a listed user's right number is written if and only if the ID is canonical and the last listed user with unread rows that denotes it has as many, or the ID is not canonical and nothing is unread |
| UnreadCache.ReconcileAbandonedIff | internal/repository/unread_db.go:99-117 | A reconcile is abandoned as a whole if and only if a listed user with unread rows is not an int64 |
| UnreadCache.SnapshotCounters | internal/tasks/notify_cleanup.go:157-182 | The cleanup snapshot rewrites exactly the counters of affected users, each to its join count |
| UnreadCache.SnapshotSets | internal/tasks/notify_cleanup.go:183-188 | The cleanup snapshot rewrites exactly the total sets of tenants that lost a broadcast |
| Keys.RenderIsInjective | internal/constant/app.go:50-67 | Key strings determine family, tenant and user when tenants contain no colon |
| Keys.FamiliesAreDisjoint | internal/constant/app.go:30-42 | Keys of different families never collide, whatever the tenants contain |
| Keys.ColonTenantsCollide | internal/constant/app.go:50-52 | With a colon in a tenant ID two users can share one counter |
| Keys.CollideIffNested | internal/constant/app.go:50-67 | Two distinct keys of one family render the same if and only if one tenant and a colon begin the other tenant and the user takes up the rest |
| Keys.TenantsCollideIff | internal/constant/app.go:50-67 | Two tenants share a key for some users if and only if one of them followed by a colon begins the other |
| Stores.Database.UpsertByUserAndNotify | internal/repository/status.go:56-78 | Rewrites the first matching row, else creates one |
| Stores.Database.FindByUserAndNotify | internal/repository/status.go:37-44 | Returns the matching row with the least key, or none if and only if there is none |
| Stores.Database.CreateBulk | internal/repository/status.go:52-54 | Inserts one unread row per listed user |
| Stores.Database.BatchMarkReadByUser | internal/repository/status.go:96-101 | Marks all of the user's rows in the tenant read, deleted ones included |
| Stores.Database.BatchMarkTenantNonBroadcastReadByUser | internal/repository/status.go:104-110 | Marks the tenant's direct rows of the user read |
| Stores.Database.BatchMarkDeleteUserNotifyByUser | internal/repository/status.go:113-118 | Marks all of the user's rows in the tenant deleted |
| Stores.Database.UpsertTenantReadAt | internal/repository/watermark.go:24-33 | Sets the read watermark and keeps the clear watermark |
| Stores.Database.UpsertTenantClearAt | internal/repository/watermark.go:36-45 | Sets the clear watermark and keeps the read watermark |
| Stores.Database.ListExpired | internal/repository/record.go:61-72 | Distinct expired records, earliest first, all of them unless the limit is reached, none later than one left out |
| Stores.EarliestListed | internal/repository/record.go:61-72 | In stored expiry times: a listed record is expired, one listed or left out after it expires no earlier, and none is left out while there is room |
| Stores.Database.DeleteStatusesByNotifyIds | internal/repository/status.go:88-93 | Removes exactly the rows of the listed notifications |
| Stores.Database.DeleteRecordsByNotifyIds | internal/repository/record.go:74-79 | Removes exactly the listed records |
| Stores.CardMinusInter | internal/repository/unread_cache.go:36-57 | SCARD minus SINTERCARD is the size of the set difference |
| Stores.Redis.DecrWithFloor | internal/repository/unread_cache.go:26-35 | Decrements and never leaves a negative counter |
| Stores.Redis.SDiffCount | internal/repository/unread_cache.go:36-57 | Returns the size of total minus op; the negative floor is never taken |
| Stores.Redis.SafeReplaceSet | internal/repository/unread_cache.go:114-131 | Replaces a set, an empty replacement deleting the key |
| Stores.Redis.BatchSetPipeline | internal/repository/unread_cache.go:134-145 | Writes every entry and no other key |
| Stores.Redis.BatchIncrIfExist | internal/repository/unread_cache.go:147-219 | Increments the keys that exist, once per occurrence, answers each with its value at that point and missing ones with -1 |
| Stores.Redis.SyncTenantBroadcastToOp | internal/repository/unread_cache.go:265-271 | Stores the union of op and total as op and returns its size |
| Stores.Redis.BatchGetUnreadDual | pkg/lua/batch_get_unread.lua:4-24 | Keys in threes, answers in twos: entry j is user j's personal counter and tenant figure |
| UnreadServices.UnreadService.BatchCountUnread | internal/repository/unread_db.go:78-117 | The grouped counts, keyed by the printed int64, or failure |
| UnreadServices.UnreadService.BatchReconcileUsers | internal/logic/unread.go:103-134 | Writes the reconciled counters in one pipeline, or fails with nothing written exactly when the scan fails |
| UnreadServices.UnreadService.ReconcileTenantBroadcastTotal | internal/logic/unread.go:81-100 | Replaces total by the table's broadcasts |
| UnreadServices.UnreadService.TenantBroadcastIncr | internal/logic/unread.go:173-188 | Adds the broadcast, rebuilds a set that was empty before, and returns the size after the add |
| UnreadServices.UnreadService.BatchIncrUserUnread | internal/logic/unread.go:197-224 | Increments existing counters, then reconciles every listed user |
| UnreadServices.UnreadService.GetPersonalUnread | internal/logic/unread.go:232-234 | The personal counter, 0 when missing |
| UnreadServices.UnreadService.GetTenantUnread | internal/logic/unread.go:237-247 | Counter plus the size of total minus op |
| UnreadServices.UnreadService.BatchGetFullUnread | internal/logic/unread.go:259-287 | For every cache and user list, each user's entry is what the two single reads return |
| NotifyServices.SenderService.ValidateSendProp | internal/service/sender.go:46-71 | Accepts exactly the well-formed requests |
| NotifyServices.SenderService.Transmit | internal/service/sender.go:142-203 | Refuses exactly the ill-formed requests, else stores the record under the sender of the request, one unread row per target and no expiry, leaves the matching cache task, and answers the requested or default lifetime |
| NotifyServices.RefusalIff | internal/service/sender.go:46-100 | Each refusal has its own condition on the fields of the request and the default lifetimes |
| NotifyServices.SentArrives | internal/service/sender.go:157-167 | A direct request of sender type 1 is listed unread in each addressee's tenant inbox and raises the tenant count, one of type 0 the personal ones |
| NotifyServices.SenderService.UpdateUnread | internal/logic/sender.go:55-67 | Runs the send's cache task |
| NotifyServices.ContainsUser | internal/service/status.go:268-275 | True if and only if the user is listed |
| NotifyServices.StatusService.ValidateNotifyAccess | internal/service/status.go:232-266 | Grants or denies with the error of the first check that fails, an empty or malformed ID included |
| NotifyServices.StatusService.ExecStatusUpdate | internal/service/status.go:71-84 | Commits the single operation and leaves its cache task; a denied one or a malformed ID changes nothing |
| NotifyServices.StatusService.UserBatchMarkRead | internal/service/status.go:91-99 | Commits the user one-key read and leaves the counter reset |
| NotifyServices.StatusService.TenantBatchMarkRead | internal/service/status.go:102-118 | Commits watermark and rows of the tenant one-key read |
| NotifyServices.StatusService.UserBatchDelete | internal/service/status.go:121-129 | Commits the user one-key clear |
| NotifyServices.StatusService.TenantBatchDelete | internal/service/status.go:132-148 | Commits the clear watermark and deletes all of the user's rows in the tenant |
| NotifyServices.StatusService.UpdateCache | internal/service/status.go:151-229 | Runs the cache task of a single or one-key operation and returns the pushed figure |
| CleanupServices.CleanupService.RunOnce | internal/tasks/notify_cleanup.go:67-115 | Terminates by the number of expired records; when not cancelled removes exactly the records expired at its start with their rows and returns their number; when cancelled, a subset and its number |
| CleanupServices.CleanupService.SyncUnreadSnapshot | internal/tasks/notify_cleanup.go:125-189 | Sorts the removed records and recomputes counters and total sets |
| CleanupServices.CleanupKeepsCounters | internal/tasks/notify_cleanup.go:157-182 | Any sequence of cleanup batches leaves every exact counter of a canonical user exact, personal or tenant |
| CleanupServices.CleanupKeepsSets | internal/tasks/notify_cleanup.go:183-188 | Any sequence of cleanup batches keeps total and op in agreement with the tables |
| CleanupServices.NothingExpires | internal/service/sender.go:150-167 | Over every run of the service's own sends no record ever expires |
| PoolModel.NestedRefinesFlat | pkg/pool/manager.go:47-74 | Over every run of joins and leaves the nested pool is the flat map, with no empty group or bucket |
| PoolModel.RegisterRefines | pkg/pool/group.go:12-29 | Register writes one flat entry |
| PoolModel.UnregisterRefines | pkg/pool/group.go:32-58 | Unregister removes an entry exactly when it is the given connection |
| PoolModel.OnlineIsKeyed | pkg/pool/manager.go:129-162 | With nothing empty, group and user keys are exactly the online tenants and users |
| Pools.Connection.Write | internal/service/hub.go:33-48 | Appends a decodable message unless the buffer is full, and reports every refusal |
| Pools.Group.Register | pkg/pool/group.go:12-29 | Puts the connection in its slot and closes the one it replaces |
| Pools.Group.Unregister | pkg/pool/group.go:32-58 | Removes and closes the exact connection and tells whether the group is empty |
| Pools.Manager.Register | pkg/pool/manager.go:47-50 | Adds one flat entry, closes exactly the replaced connection, keeps the pool sound |
| Pools.Manager.Unregister | pkg/pool/manager.go:53-74 | Removes at most the exact connection, closes exactly what it removes, reclaims an empty group |
| Pools.Manager.RangeUser | pkg/pool/manager.go:77-83 | Visits exactly the user's slice of the flat map, each entry once |
| Pools.Manager.RangeGroup | pkg/pool/manager.go:86-102 | Visits exactly the tenant's slice, each entry once |
| Pools.Manager.Count | pkg/pool/manager.go:105-118 | The number of flat entries |
| Pools.Manager.UserCount | pkg/pool/manager.go:129-142 | The number of distinct online users over all tenants |
| Pools.Manager.GroupCount | pkg/pool/manager.go:121-126 | The number of online tenants |
| Pools.Manager.GetOnlineUserIDs | pkg/pool/manager.go:145-162 | The online users of a tenant |
| Pools.Manager.GroupStats | pkg/pool/manager.go:165-185 | Per tenant the numbers of online users and of connections |
| Pools.LocalBroker.Publish | internal/dispatch/broker_local.go:15-22 | Appends, or fails exactly when the buffer is full |
| Pools.Dispatcher.Process | internal/dispatch/dispatcher.go:126-144 | Offers a broadcast once to every pooled connection of its tenant, any other message once per listing of the connection's user, and leaves other tenants' connections untouched |
| Pools.OffersFill | internal/service/hub.go:42-47 | Offers fill the room in a channel with copies at its end, the rest is dropped |
| Pools.RangeStepOffers | internal/dispatch/dispatcher.go:126-144 | A range step of the delivery runs writes what the connection's own Write would write, and drops exactly when that leaves the channel as it was |
| Pools.PublishStepAppends | internal/dispatch/broker_local.go:15-22 | A publish step of the delivery runs extends the queue as the broker's own publish does |
| PoolLocks.NoWriteAfterClose | internal/service/hub.go:33-55 | In every lock-granular interleaving no Write reaches a closed connection and none is closed twice, mapped group or not |
| PoolLocks.SectionKeepsPool | pkg/pool/group.go:12-72 | Every critical section keeps pooled connections open, in one slot, under their own tenant |
| PoolLocks.ReachableIffClean | pkg/pool/manager.go:53-74 | Over every interleaving, every joined and not yet left connection stays in its tenant's mapped group if and only if each drop finds its group deserted |
| PoolLocks.StrandsIffUncleanDrop | pkg/pool/manager.go:65-73 | A section strands a connection if and only if it drops a group that someone holds or is in |
| PoolLocks.QuietRunsStayReachable | pkg/pool/manager.go:22-36 | If no join window overlaps an emptiness test, everyone stays reachable |
| PoolLocks.OvertakenJoinIsLost | pkg/pool/manager.go:47-50 | A join overtaken by the drop of its group ends up joined, open and unreachable |
| PoolLocks.LostJoinRun | pkg/pool/manager.go:47-74 | A run that ends so |
| Delivery.DeliveryInOrder | internal/dispatch/dispatcher.go:126-144 | In every run a connection is given an order-preserving subsequence of the accepted messages addressed to it, never another tenant's |
| Delivery.DeliveryConserved | internal/dispatch/dispatcher.go:64-68 | While a connection stays in its tenant's mapped group with room in its channel, given plus outstanding grows by exactly the accepted messages addressed to it |
| Delivery.DroppedAccounts | internal/service/hub.go:42-47 | While a connection stays joined, what it is due plus the ranges that reached it full accounts for every accepted message addressed to it |
| Delivery.DeliveryConservedIff | internal/service/hub.go:42-47 | Delivery to a joined connection is conserved if and only if no range reached it with a full channel |
| Delivery.RangeWalksMapped | pkg/pool/manager.go:77-102 | A fan-out that gets and locks its group walks exactly the mapped connections that a range reaches |
| Delivery.StrandedIsUnheard | pkg/pool/manager.go:53-74 | A connection that is not mapped, such as a join that lost its group, is reached by no range and outside the conservation law |
| Delivery.QuiescentDeliveryIsWhole | internal/dispatch/broker_local.go:15-22 | With queue and dispatcher idle it has been given all of them |
| Delivery.OneCopyPerOccurrence | internal/dispatch/dispatcher.go:129-135 | A direct message counts once per occurrence of the user among its targets |
| Delivery.SharePerMessage | internal/dispatch/dispatcher.go:126-144 | One message holds nothing for another tenant, one copy of a broadcast for everyone in its tenant, else one copy per listing of the user |
| Tickets.AcceptedAtMostApplied | internal/service/ticket.go:88-115 | Over every run a ticket is accepted at most as often as it was applied for |
| Tickets.AcceptanceIsBacked | internal/service/ticket.go:49-85 | Each acceptance falls within the lifetime of an application for the same ticket and yields the tenant and user applied for |
| Tickets.FreshTicketIsAccepted | internal/service/ticket.go:93-114 | An unused ticket is accepted at any time inside its lifetime |
| Tickets.TicketRoundTrip | internal/service/ticket.go:118-164 | Framing the nonce in front and cutting it off again recovers the subscriber |
| Tickets.TicketService.ApplyTicket | internal/service/ticket.go:49-85 | Issues the ticket and starts its lifetime |
| Tickets.TicketService.VerifyTicket | internal/service/ticket.go:88-115 | Consumes the ticket and returns its verdict; an empty ticket is refused untouched |
| Sessions.SweepIsUnobservable | pkg/session/session.go:65-102 | For every run of calls a swept store answers like one that is never swept |
| Sessions.FoundIff | pkg/session/session.go:65-102 | In every run, sweeps included, an ID is found exactly when it was created less than a lifetime ago and neither created again nor deleted since, with the tenant and time of that creation |
| Sessions.Store.Sweep | pkg/session/session.go:118-127 | Deletes exactly the stale sessions |
| Sessions.Store.Get | pkg/session/session.go:74-89 | Finds exactly the known sessions inside their lifetime |
| Sessions.Store.Create | pkg/session/session.go:65-71 | Stores the session with its creation time |
| Sessions.Store.Delete | pkg/session/session.go:98-102 | Forgets the session |

## Left out

- HTTP and gRPC handlers, generated protobuf code, JWT and login, configuration, logging, the dashboard: transport and field copying.
- Redis Pub/Sub broker: its behaviour rests on a client library that is not part of this model; the local broker carries the queue properties.
- Messages pushed after a cache update (unread figures, then the notification): only the pushed figure of status changes is modelled; the push order adds easy members only.
- Notification text, titles, sender IDs and event types: no operation depends on them.
- The UUID syntax of notification IDs: a malformed ID is a missing one, and so refused, but the parser is not modelled.
- I/O errors of Postgres and Redis and expiring contexts, except the failed int64 scan and the cancellation of cleanup.
- Concurrent upserts of the same row: each table transaction is one step.
- ReconcilePersonalUnread and ReconcileTenantUnread: nothing calls them.
- SSE writing, heartbeats and the cleanup's daily timer: I/O and one line of arithmetic.
- AES-GCM, base64 and JSON: parameters with their inverse laws; only the nonce framing is modelled.
- JSON decoding of payloads: `Write` is told whether the payload decodes.
- SplitReconcile.NeverPhantom: one tenant, without cleanup; other tenants use other keys.
- Protocol.RunKeepsTables: the two deletes of a cleanup batch are one step; `CleanupGap` takes them apart.
- Delivery.DeliveryInOrder: a range over the pool is one step; a read by a connection's own loop falls before or after it.
- PoolLocks.NoWriteAfterClose: group contents are one flat map per group; `PoolModel` relates nested and flat.
