/**
 The broadcast task of one tenant cut at its Redis and table accesses: add the member, read
 the size, read the table, replace the set. Any number of tasks interleave with each other
 and with commits of new broadcasts. A task that finds a rebuild in progress may join it
 instead of rebuilding: within one process it always does, across processes never.
 */
module SplitReconcile {
  import opened Types

  /** Where a detached broadcast task stands. */
  datatype Worker = Adding(id: NotifyId) | Counting | Loading | Replacing(ids: set<NotifyId>)

  datatype Race = Race(table: set<NotifyId>, total: set<NotifyId>, workers: multiset<Worker>)

  const IDLE := Race({}, {}, multiset{})

  /** Join is a task that waits for a rebuild in progress instead of making its own. */
  datatype Turn = Broadcasted(id: NotifyId) | Work(w: Worker) | Join

  /** Another task of the tenant is rebuilding the total set. */
  ghost predicate InFlight(workers: multiset<Worker>) {
    Loading in workers || exists ids :: Replacing(ids) in workers
  }

  ghost predicate CanTurn(r: Race, turn: Turn) {
    match turn
    case Broadcasted(id) => id !in r.table
    case Work(w) => w in r.workers
    case Join => Loading in r.workers && InFlight(r.workers - multiset{Loading})
  }

  /** One access of a worker: its effect on the total set and what the worker does next. */
  function Advance(r: Race, w: Worker): Race {
    var rest := r.workers - multiset{w};
    match w
    case Adding(id) => Race(r.table, r.total + {id}, rest + multiset{Counting})
    case Counting => r.(workers := if |r.total| == 1 then rest + multiset{Loading} else rest)
    case Loading => r.(workers := rest + multiset{Replacing(r.table)})
    case Replacing(ids) => Race(r.table, ids, rest)
  }

  function Take(r: Race, turn: Turn): Race {
    match turn
    case Broadcasted(id) => Race(r.table + {id}, r.total, r.workers + multiset{Adding(id)})
    case Work(w) => Advance(r, w)
    case Join => r.(workers := r.workers - multiset{Loading})
  }

  /** A run from the empty hub: its turns and the states before and after each of them. */
  ghost predicate Run(turns: seq<Turn>, rs: seq<Race>) {
    && |rs| == |turns| + 1
    && rs[0] == IDLE
    && forall k {:trigger turns[k]} | 0 <= k < |turns| :: CanTurn(rs[k], turns[k]) && rs[k + 1] == Take(rs[k], turns[k])
  }

  /** Nothing is ever counted that was not broadcast. */
  ghost predicate NoPhantom(r: Race) {
    r.total <= r.table && forall w | w in r.workers :: WorkerOk(r, w)
  }

  /** Every broadcast is in the total set or still has its add ahead. */
  ghost predicate NothingLost(r: Race) {
    forall id | id in r.table :: id in r.total || Adding(id) in r.workers
  }

  ghost predicate WorkerOk(r: Race, w: Worker) {
    (w.Adding? ==> w.id in r.table) && (w.Replacing? ==> w.ids <= r.table)
  }

  lemma TurnKeepsNoPhantom(r: Race, turn: Turn)
    requires NoPhantom(r) && CanTurn(r, turn)
    ensures NoPhantom(Take(r, turn))
  {
    var r' := Take(r, turn);
    forall w | w in r'.workers
      ensures WorkerOk(r', w)
    {
      if w in r.workers {
        assert WorkerOk(r, w);
      }
    }
    if turn.Work? {
      assert WorkerOk(r, turn.w);
    }
  }

  /** Over every interleaving the total set is a subset of the tenant's broadcasts. */
  lemma {:induction false} NeverPhantom(turns: seq<Turn>, rs: seq<Race>, k: nat)
    requires Run(turns, rs) && k <= |turns|
    ensures NoPhantom(rs[k])
    decreases k
  {
    if k > 0 {
      NeverPhantom(turns, rs, k - 1);
      TurnKeepsNoPhantom(rs[k - 1], turns[k - 1]);
    }
  }

  // ---- The interleaving ----

  /** The broadcasts committed in the first `k` turns. */
  function Sent(turns: seq<Turn>, k: nat): set<NotifyId>
    requires k <= |turns|
  {
    set j | 0 <= j < k && turns[j].Broadcasted? :: turns[j].id
  }

  predicate Added(turns: seq<Turn>, k: nat, id: NotifyId)
    requires k <= |turns|
  {
    exists j | 0 <= j < k :: turns[j] == Work(Adding(id))
  }

  /** A load among the first `k` turns that saw exactly `ids`. */
  predicate Loaded(turns: seq<Turn>, k: nat, ids: set<NotifyId>)
    requires k <= |turns|
  {
    exists l | 0 <= l < k :: turns[l] == Work(Loading) && Sent(turns, l) == ids
  }

  /** The state in terms of the turns: who is in the table, whose add is ahead, what a replace will write. */
  ghost predicate Recorded(turns: seq<Turn>, k: nat, r: Race)
    requires k <= |turns|
  {
    && r.table == Sent(turns, k)
    && (forall id :: Added(turns, k, id) ==> id in r.table)
    && (forall id :: r.workers[Adding(id)] == if id in r.table && !Added(turns, k, id) then 1 else 0)
    && (forall ids :: Replacing(ids) in r.workers ==> Loaded(turns, k, ids))
  }

  lemma SentNext(turns: seq<Turn>, k: nat)
    requires k < |turns|
    ensures Sent(turns, k + 1) == Sent(turns, k) + (if turns[k].Broadcasted? then {turns[k].id} else {})
  {
  }

  lemma LoadedNext(turns: seq<Turn>, k: nat, ids: set<NotifyId>)
    requires k < |turns| && (Loaded(turns, k, ids) || (turns[k] == Work(Loading) && Sent(turns, k) == ids))
    ensures Loaded(turns, k + 1, ids)
  {
  }

  /** What a turn does to the workers, seen from the table on. */
  lemma WorkersNext(r: Race, turn: Turn, id: NotifyId, ids: set<NotifyId>)
    requires CanTurn(r, turn)
    ensures Take(r, turn).workers[Adding(id)]
            == r.workers[Adding(id)] + (if turn == Broadcasted(id) then 1 else 0) - (if turn == Work(Adding(id)) then 1 else 0)
    ensures Replacing(ids) in Take(r, turn).workers ==>
              Replacing(ids) in r.workers || (turn == Work(Loading) && ids == r.table)
  {
    match turn
    case Broadcasted(_) =>
    case Join =>
    case Work(w) =>
      match w
      case Adding(_) =>
      case Counting =>
      case Loading =>
      case Replacing(_) =>
  }

  lemma TurnRecorded(turns: seq<Turn>, k: nat, r: Race)
    requires k < |turns| && Recorded(turns, k, r) && CanTurn(r, turns[k])
    ensures Recorded(turns, k + 1, Take(r, turns[k]))
  {
    var turn, r' := turns[k], Take(r, turns[k]);
    SentNext(turns, k);
    assert r'.table == Sent(turns, k + 1);
    forall id
      ensures Added(turns, k + 1, id) ==> id in r'.table
      ensures r'.workers[Adding(id)] == if id in r'.table && !Added(turns, k + 1, id) then 1 else 0
    {
      AddedNext(turns, k, id);
      WorkersNext(r, turn, id, {});
    }
    forall ids | Replacing(ids) in r'.workers
      ensures Loaded(turns, k + 1, ids)
    {
      WorkersNext(r, turn, 0, ids);
      LoadedNext(turns, k, ids);
    }
  }

  lemma AddedNext(turns: seq<Turn>, k: nat, id: NotifyId)
    requires k < |turns|
    ensures Added(turns, k + 1, id) <==> Added(turns, k, id) || turns[k] == Work(Adding(id))
  {
  }

  lemma {:induction false} RunRecorded(turns: seq<Turn>, rs: seq<Race>, k: nat)
    requires Run(turns, rs) && k <= |turns|
    ensures Recorded(turns, k, rs[k])
    decreases k
  {
    if k > 0 {
      RunRecorded(turns, rs, k - 1);
      TurnRecorded(turns, k - 1, rs[k - 1]);
    } else {
      assert Sent(turns, 0) == {};
    }
  }

  /**
   Between the load at `l` and the replace by what it saw at `k`, the add at `i` puts in a
   broadcast that the load did not see.
   */
  predicate Overtaken(turns: seq<Turn>, l: nat, i: nat, k: nat)
    requires l < i < k < |turns|
  {
    && turns[l] == Work(Loading)
    && turns[k] == Work(Replacing(Sent(turns, l)))
    && turns[i].Work? && turns[i].w.Adding? && turns[i].w.id !in Sent(turns, l)
  }

  lemma WorkLoses(r: Race, w: Worker)
    requires NothingLost(r) && w in r.workers && !w.Replacing?
    ensures NothingLost(Advance(r, w))
  {
    var r' := Advance(r, w);
    forall id | id in r.table
      ensures id in r'.total || Adding(id) in r'.workers
    {
      WorkersNext(r, Work(w), id, {});
    }
  }

  /** What a turn can lose, by the state it finds. */
  lemma TurnLoses(r: Race, turn: Turn)
    requires NothingLost(r) && CanTurn(r, turn)
    ensures NothingLost(Take(r, turn))
            <==> (turn.Work? && turn.w.Replacing? ==> forall id | id in r.table :: id in turn.w.ids || Adding(id) in r.workers)
  {
    var r' := Take(r, turn);
    match turn
    case Broadcasted(_) => assert forall id | id in r'.table :: id in r.table || Adding(id) in r'.workers;
    case Join => assert forall id :: Adding(id) in r'.workers <==> Adding(id) in r.workers;
    case Work(w) =>
      if w.Replacing? {
        assert forall id :: Adding(id) in r'.workers <==> Adding(id) in r.workers;
      } else {
        WorkLoses(r, w);
      }
  }

  /** A load sees every broadcast whose add came before it. */
  lemma AddedIsSeen(turns: seq<Turn>, rs: seq<Race>, i: nat, l: nat, id: NotifyId)
    requires Run(turns, rs) && i <= l <= |turns| && i < |turns| && turns[i] == Work(Adding(id))
    ensures id in Sent(turns, l)
  {
    RunRecorded(turns, rs, i);
    assert Adding(id) in rs[i].workers;
    var j :| 0 <= j < i && turns[j].Broadcasted? && turns[j].id == id;
    assert turns[j].id in Sent(turns, l);
  }

  lemma ReplaceWasLoaded(turns: seq<Turn>, rs: seq<Race>, k: nat, ids: set<NotifyId>)
    requires Run(turns, rs) && k <= |turns| && Replacing(ids) in rs[k].workers
    ensures Loaded(turns, k, ids)
  {
    RunRecorded(turns, rs, k);
  }

  lemma AddIsDone(turns: seq<Turn>, rs: seq<Race>, k: nat, id: NotifyId)
    requires Run(turns, rs) && k <= |turns| && id in rs[k].table && Adding(id) !in rs[k].workers
    ensures Added(turns, k, id)
  {
    RunRecorded(turns, rs, k);
    assert rs[k].workers[Adding(id)] == 0;
  }

  /** An add of a broadcast that a load did not see comes after the load. */
  lemma UnseenComesLater(turns: seq<Turn>, rs: seq<Race>, l: nat, i: nat, id: NotifyId)
    requires Run(turns, rs) && l < |turns| && i < |turns| && turns[i] == Work(Adding(id)) && id !in Sent(turns, l)
    ensures l < i
  {
    if i <= l {
      AddedIsSeen(turns, rs, i, l, id);
    }
  }

  lemma LoadOf(turns: seq<Turn>, rs: seq<Race>, k: nat, ids: set<NotifyId>) returns (l: nat)
    requires Run(turns, rs) && k < |turns| && turns[k] == Work(Replacing(ids))
    ensures l < k && turns[l] == Work(Loading) && Sent(turns, l) == ids
  {
    ReplaceWasLoaded(turns, rs, k, ids);
    l :| 0 <= l < k && turns[l] == Work(Loading) && Sent(turns, l) == ids;
  }

  /** A broadcast that a replace is about to lose has overtaken the load. */
  lemma LostIsOvertaken(turns: seq<Turn>, rs: seq<Race>, k: nat, ids: set<NotifyId>, id: NotifyId) returns (l: nat, i: nat)
    requires Run(turns, rs) && k < |turns| && turns[k] == Work(Replacing(ids))
    requires id in rs[k].table && id !in ids && Adding(id) !in rs[k].workers
    ensures l < i < k && Overtaken(turns, l, i, k)
  {
    l := LoadOf(turns, rs, k, ids);
    AddIsDone(turns, rs, k, id);
    i :| 0 <= i < k && turns[i] == Work(Adding(id));
    UnseenComesLater(turns, rs, l, i, id);
  }

  /** What has overtaken the load is lost by the replace. */
  lemma OvertakenIsLost(turns: seq<Turn>, rs: seq<Race>, l: nat, i: nat, k: nat)
    requires Run(turns, rs) && l < i < k < |turns| && Overtaken(turns, l, i, k)
    ensures turns[i].w.id in rs[k].table && Adding(turns[i].w.id) !in rs[k].workers
  {
    RunRecorded(turns, rs, k);
    assert Added(turns, k, turns[i].w.id);
  }

  /** A replace loses something exactly when its load was overtaken. */
  lemma ReplaceLosesIff(turns: seq<Turn>, rs: seq<Race>, k: nat)
    requires Run(turns, rs) && k < |turns| && NothingLost(rs[k])
    ensures NothingLost(rs[k + 1]) <==> forall l, i | 0 <= l < i < k :: !Overtaken(turns, l, i, k)
  {
    var r, turn := rs[k], turns[k];
    TurnLoses(r, turn);
    if turn.Work? && turn.w.Replacing? {
      if id :| id in r.table && id !in turn.w.ids && Adding(id) !in r.workers {
        var l, i := LostIsOvertaken(turns, rs, k, turn.w.ids, id);
      }
      if l, i :| 0 <= l < i < k && Overtaken(turns, l, i, k) {
        OvertakenIsLost(turns, rs, l, i, k);
      }
    }
  }

  /**
   Over every interleaving: each broadcast stays in the total set from its add on if and only if no
   add of a broadcast unseen by a load falls between that load and the replace it leads to.
   */
  lemma NothingLostIff(turns: seq<Turn>, rs: seq<Race>)
    requires Run(turns, rs)
    ensures (forall k | 0 <= k <= |turns| :: NothingLost(rs[k]))
            <==> forall l, i, k | 0 <= l < i < k < |turns| :: !Overtaken(turns, l, i, k)
  {
    if forall l, i, k | 0 <= l < i < k < |turns| :: !Overtaken(turns, l, i, k) {
      forall k | 0 <= k <= |turns|
        ensures NothingLost(rs[k])
      {
        NothingLostUpTo(turns, rs, k);
      }
    }
    if forall k | 0 <= k <= |turns| :: NothingLost(rs[k]) {
      forall l, i, k | 0 <= l < i < k < |turns|
        ensures !Overtaken(turns, l, i, k)
      {
        assert NothingLost(rs[k]) && NothingLost(rs[k + 1]);
        ReplaceLosesIff(turns, rs, k);
      }
    }
  }

  lemma {:induction false} NothingLostUpTo(turns: seq<Turn>, rs: seq<Race>, k: nat)
    requires Run(turns, rs) && k <= |turns|
    requires forall l, i, k | 0 <= l < i < k < |turns| :: !Overtaken(turns, l, i, k)
    ensures NothingLost(rs[k])
    decreases k
  {
    if k > 0 {
      NothingLostUpTo(turns, rs, k - 1);
      ReplaceLosesIff(turns, rs, k - 1);
    }
  }

  // ---- The end of a run ----

  predicate Puts(turn: Turn, id: NotifyId) {
    turn == Work(Adding(id)) || (turn.Work? && turn.w.Replacing? && id in turn.w.ids)
  }

  predicate Removes(turn: Turn, id: NotifyId) {
    turn.Work? && turn.w.Replacing? && id !in turn.w.ids
  }

  /** The last of the first `k` turns to decide on `id` put it in. */
  predicate PutLast(turns: seq<Turn>, k: nat, id: NotifyId)
    requires k <= |turns|
  {
    exists w | 0 <= w < k :: Puts(turns[w], id) && forall v | w < v < k :: !Removes(turns[v], id)
  }

  lemma TotalNext(r: Race, turn: Turn, id: NotifyId)
    ensures id in Take(r, turn).total <==> Puts(turn, id) || (id in r.total && !Removes(turn, id))
  {
  }

  lemma PutLastNext(turns: seq<Turn>, k: nat, id: NotifyId)
    requires k < |turns|
    ensures PutLast(turns, k + 1, id) <==> Puts(turns[k], id) || (PutLast(turns, k, id) && !Removes(turns[k], id))
  {
    if PutLast(turns, k, id) && !Removes(turns[k], id) {
      var w :| 0 <= w < k && Puts(turns[w], id) && forall v | w < v < k :: !Removes(turns[v], id);
      assert forall v | w < v < k + 1 :: !Removes(turns[v], id);
    }
    if PutLast(turns, k + 1, id) && !Puts(turns[k], id) {
      var w :| 0 <= w < k + 1 && Puts(turns[w], id) && forall v | w < v < k + 1 :: !Removes(turns[v], id);
      assert w < k;
    }
  }

  lemma {:induction false} InTotalIff(turns: seq<Turn>, rs: seq<Race>, k: nat, id: NotifyId)
    requires Run(turns, rs) && k <= |turns|
    ensures id in rs[k].total <==> PutLast(turns, k, id)
    decreases k
  {
    if k > 0 {
      InTotalIff(turns, rs, k - 1, id);
      TotalNext(rs[k - 1], turns[k - 1], id);
      PutLastNext(turns, k - 1, id);
    }
  }

  /** Every replace that leaves `id` out is made good by a later add or replace. */
  predicate Repaired(turns: seq<Turn>, id: NotifyId) {
    forall k | 0 <= k < |turns| && Removes(turns[k], id) :: exists w | k < w < |turns| :: Puts(turns[w], id)
  }

  lemma {:induction false} LastRemoval(turns: seq<Turn>, k: nat, id: NotifyId) returns (v: int)
    requires k <= |turns|
    ensures -1 <= v < k && (v >= 0 ==> Removes(turns[v], id)) && forall j | v < j < k :: !Removes(turns[j], id)
    decreases k
  {
    if k == 0 {
      v := -1;
    } else if Removes(turns[k - 1], id) {
      v := k - 1;
    } else {
      v := LastRemoval(turns, k - 1, id);
    }
  }

  lemma PutLastIffRepaired(turns: seq<Turn>, id: NotifyId)
    requires Added(turns, |turns|, id)
    ensures PutLast(turns, |turns|, id) <==> Repaired(turns, id)
  {
    if PutLast(turns, |turns|, id) {
      var w :| 0 <= w < |turns| && Puts(turns[w], id) && forall v | w < v < |turns| :: !Removes(turns[v], id);
      forall k | 0 <= k < |turns| && Removes(turns[k], id)
        ensures exists w | k < w < |turns| :: Puts(turns[w], id)
      {
        assert k < w;
      }
    }
    if Repaired(turns, id) {
      var v := LastRemoval(turns, |turns|, id);
      if v >= 0 {
        var w :| v < w < |turns| && Puts(turns[w], id);
      } else {
        var w :| 0 <= w < |turns| && turns[w] == Work(Adding(id));
        assert Puts(turns[w], id);
      }
    }
  }

  /**
   With all tasks done, the total set is exact if and only if every replace that left out a
   broadcast was followed by an add of that broadcast or a replace that has it.
   */
  lemma EndsExactIff(turns: seq<Turn>, rs: seq<Race>)
    requires Run(turns, rs) && rs[|turns|].workers == multiset{}
    ensures rs[|turns|].total == rs[|turns|].table
            <==> forall id | id in Sent(turns, |turns|) :: Repaired(turns, id)
  {
    var r := rs[|turns|];
    NeverPhantom(turns, rs, |turns|);
    RunRecorded(turns, rs, |turns|);
    forall id | id in r.table
      ensures id in r.total <==> Repaired(turns, id)
    {
      assert r.workers[Adding(id)] == 0;
      InTotalIff(turns, rs, |turns|, id);
      PutLastIffRepaired(turns, id);
    }
  }

  // ---- A run that loses a broadcast ----

  lemma AppendTurn(turns: seq<Turn>, rs: seq<Race>, x: Turn, r: Race)
    requires Run(turns, rs) && CanTurn(rs[|turns|], x) && Take(rs[|turns|], x) == r
    ensures Run(turns + [x], rs + [r])
  {
    var turns', rs' := turns + [x], rs + [r];
    forall k | 0 <= k < |turns'|
      ensures CanTurn(rs'[k], turns'[k]) && rs'[k + 1] == Take(rs'[k], turns'[k])
    {
      if k < |turns| {
        assert turns'[k] == turns[k] && rs'[k] == rs[k] && rs'[k + 1] == rs[k + 1];
      }
    }
  }

  const R1 := Race({1}, {}, multiset{Adding(1)})
  const R2 := Race({1}, {1}, multiset{Counting})
  const R3 := Race({1}, {1}, multiset{Loading})
  const R4 := Race({1}, {1}, multiset{Replacing({1})})
  const R5 := Race({1, 2}, {1}, multiset{Replacing({1}), Adding(2)})
  const R6 := Race({1, 2}, {1, 2}, multiset{Replacing({1}), Counting})
  const R7 := Race({1, 2}, {1, 2}, multiset{Replacing({1})})
  const R8 := Race({1, 2}, {1}, multiset{})

  /** Broadcast 1 is added alone, so its task reads the table. */
  lemma FirstTask() returns (turns: seq<Turn>, rs: seq<Race>)
    ensures Run(turns, rs) && rs[|turns|] == R4
  {
    turns, rs := [], [IDLE];
    AppendTurn(turns, rs, Broadcasted(1), R1);
    turns, rs := turns + [Broadcasted(1)], rs + [R1];
    AppendTurn(turns, rs, Work(Adding(1)), R2);
    turns, rs := turns + [Work(Adding(1))], rs + [R2];
    AppendTurn(turns, rs, Work(Counting), R3);
    turns, rs := turns + [Work(Counting)], rs + [R3];
    AppendTurn(turns, rs, Work(Loading), R4);
    turns, rs := turns + [Work(Loading)], rs + [R4];
  }

  /** Broadcast 2 is committed and added before the first task replaces the set. */
  lemma SecondAdd() returns (turns: seq<Turn>, rs: seq<Race>)
    ensures Run(turns, rs) && rs[|turns|] == R6
  {
    turns, rs := FirstTask();
    AppendTurn(turns, rs, Broadcasted(2), R5);
    turns, rs := turns + [Broadcasted(2)], rs + [R5];
    AppendTurn(turns, rs, Work(Adding(2)), R6);
    turns, rs := turns + [Work(Adding(2))], rs + [R6];
  }

  /** With all tasks done, the total set has lost broadcast 2. */
  lemma StaleReplaceRun() returns (turns: seq<Turn>, rs: seq<Race>)
    ensures Run(turns, rs) && rs[|turns|].workers == multiset{}
    ensures rs[|turns|].total == {1} && rs[|turns|].table == {1, 2}
  {
    turns, rs := SecondAdd();
    assert |{1, 2}| == 2;
    AppendTurn(turns, rs, Work(Counting), R7);
    turns, rs := turns + [Work(Counting)], rs + [R7];
    AppendTurn(turns, rs, Work(Replacing({1})), R8);
    turns, rs := turns + [Work(Replacing({1}))], rs + [R8];
  }
}
