/** The in-memory session store and its background sweep. */
module Sessions {
  import opened Types

  datatype Session = Session(tenantId: Tenant, createdAt: int)

  type Table = map<string, Session>

  predicate Stale(e: Session, ttl: int, now: int) {
    now - e.createdAt >= ttl
  }

  /** A lookup ignores the empty ID, unknown IDs and sessions at or past their lifetime. */
  function Lookup(data: Table, ttl: int, id: string, now: int): Option<Session> {
    if id == "" || id !in data || Stale(data[id], ttl, now) then None else Some(data[id])
  }

  function Swept(data: Table, ttl: int, now: int): Table {
    map id | id in data && !Stale(data[id], ttl, now) :: data[id]
  }

  class Store {
    var data: Table
    var ttl: int

    constructor (ttl: int)
      ensures data == map[] && this.ttl == ttl
    {
      data := map[];
      this.ttl := ttl;
    }

    method Create(id: string, tenantId: Tenant, now: int)
      modifies this`data
      ensures data == old(data)[id := Session(tenantId, now)]
    {
      data := data[id := Session(tenantId, now)];
    }

    method Get(id: string, now: int) returns (found: Option<Session>)
      ensures found == Lookup(data, ttl, id, now)
    {
      if id == "" {
        return None;
      }
      if id !in data {
        return None;
      }
      var e := data[id];
      if now - e.createdAt >= ttl {
        return None;
      }
      return Some(e);
    }

    method Delete(id: string)
      modifies this`data
      ensures data == old(data) - {id}
    {
      data := data - {id};
    }

    /** Visits every entry in some order and deletes the stale ones. */
    method Sweep(now: int)
      modifies this`data
      ensures data == Swept(old(data), ttl, now)
    {
      var todo := data.Keys;
      while todo != {}
        invariant todo <= old(data).Keys
        invariant forall id :: id in data <==> id in old(data) && (id in todo || !Stale(old(data)[id], ttl, now))
        invariant forall id | id in data :: data[id] == old(data)[id]
        decreases todo
      {
        var id :| id in todo;
        if now - data[id].createdAt >= ttl {
          data := data - {id};
        }
        todo := todo - {id};
      }
    }
  }

  // ---- A swept store looks like one that is never swept ----

  datatype Call =
    | Create(id: string, tenantId: Tenant)
    | Get(id: string)
    | Delete(id: string)
    | Sweep

  datatype Timed = Timed(at: int, call: Call)

  function Effect(data: Table, ttl: int, t: Timed): Table {
    match t.call
    case Create(id, tenantId) => data[id := Session(tenantId, t.at)]
    case Get(_) => data
    case Delete(id) => data - {id}
    case Sweep => Swept(data, ttl, t.at)
  }

  function Answer(data: Table, ttl: int, t: Timed): Option<Session> {
    if t.call.Get? then Lookup(data, ttl, t.call.id, t.at) else None
  }

  /** Every answer of a run; `sweeping` tells whether sweeps do anything. */
  function Answers(data: Table, ttl: int, ts: seq<Timed>, sweeping: bool): seq<Option<Session>>
    decreases |ts|
  {
    if ts == [] then []
    else
      var next := if ts[0].call.Sweep? && !sweeping then data else Effect(data, ttl, ts[0]);
      [Answer(data, ttl, ts[0])] + Answers(next, ttl, ts[1..], sweeping)
  }

  ghost predicate Chronological(ts: seq<Timed>, from: int) {
    && (forall i | 0 <= i < |ts| :: from <= ts[i].at)
    && (forall i, j | 0 <= i < j < |ts| :: ts[i].at <= ts[j].at)
  }

  /** The swept table lacks only sessions that are stale by now. */
  ghost predicate Shadows(swept: Table, full: Table, ttl: int, now: int) {
    && (forall id | id in swept :: id in full && full[id] == swept[id])
    && (forall id | id in full && id !in swept :: Stale(full[id], ttl, now))
  }

  lemma {:induction false} ShadowsAnswerAlike(swept: Table, full: Table, ttl: int, ts: seq<Timed>, now: int)
    requires Shadows(swept, full, ttl, now) && Chronological(ts, now)
    ensures Answers(swept, ttl, ts, true) == Answers(full, ttl, ts, false)
    decreases |ts|
  {
    if ts != [] {
      var t := ts[0];
      var full' := if t.call.Sweep? then full else Effect(full, ttl, t);
      assert Shadows(Effect(swept, ttl, t), full', ttl, t.at);
      assert Chronological(ts[1..], t.at);
      ShadowsAnswerAlike(Effect(swept, ttl, t), full', ttl, ts[1..], t.at);
    }
  }

  /** With a fixed lifetime and a clock that never runs back, no run of calls can tell when sweeps happen. */
  lemma SweepIsUnobservable(ttl: int, ts: seq<Timed>, start: int)
    requires Chronological(ts, start)
    ensures Answers(map[], ttl, ts, true) == Answers(map[], ttl, ts, false)
  {
    ShadowsAnswerAlike(map[], map[], ttl, ts, start);
  }

  // ---- When a session is found ----

  /** The table that the calls before call `i` leave when sweeps do nothing. */
  function TableAt(data: Table, ttl: int, ts: seq<Timed>, i: nat): Table
    requires i <= |ts|
  {
    if i == 0 then data
    else if ts[i - 1].call.Sweep? then TableAt(data, ttl, ts, i - 1)
    else Effect(TableAt(data, ttl, ts, i - 1), ttl, ts[i - 1])
  }

  lemma {:induction false} TableShift(data: Table, ttl: int, ts: seq<Timed>, i: nat)
    requires i < |ts|
    ensures var next := if ts[0].call.Sweep? then data else Effect(data, ttl, ts[0]);
            TableAt(data, ttl, ts, i + 1) == TableAt(next, ttl, ts[1..], i)
    decreases i
  {
    if i > 0 {
      TableShift(data, ttl, ts, i - 1);
      assert ts[1..][i - 1] == ts[i];
    }
  }

  lemma {:induction false} AnswerAt(data: Table, ttl: int, ts: seq<Timed>, i: nat)
    requires i < |ts|
    ensures |Answers(data, ttl, ts, false)| == |ts|
    ensures Answers(data, ttl, ts, false)[i] == Answer(TableAt(data, ttl, ts, i), ttl, ts[i])
    decreases |ts|
  {
    var next := if ts[0].call.Sweep? then data else Effect(data, ttl, ts[0]);
    if |ts| > 1 {
      AnswerAt(next, ttl, ts[1..], if i > 0 then i - 1 else 0);
    }
    if i > 0 {
      TableShift(data, ttl, ts, i - 1);
    }
  }

  predicate Touches(t: Timed, id: string) {
    (t.call.Create? || t.call.Delete?) && t.call.id == id
  }

  /** Call `j` created the session and nothing before call `i` created it again or deleted it. */
  predicate LastCreated(ts: seq<Timed>, j: int, i: nat, id: string)
    requires i <= |ts|
  {
    0 <= j < i && Touches(ts[j], id) && ts[j].call.Create? && forall l | j < l < i :: !Touches(ts[l], id)
  }

  lemma {:induction false} StoredIff(ttl: int, ts: seq<Timed>, i: nat, id: string, e: Session)
    requires i <= |ts|
    ensures (id in TableAt(map[], ttl, ts, i) && TableAt(map[], ttl, ts, i)[id] == e)
            <==> exists j :: LastCreated(ts, j, i, id) && e == Session(ts[j].call.tenantId, ts[j].at)
    decreases i
  {
    if i > 0 {
      StoredIff(ttl, ts, i - 1, id, e);
      if Touches(ts[i - 1], id) {
        if ts[i - 1].call.Create? {
          assert LastCreated(ts, i - 1, i, id);
        }
      } else {
        forall j
          ensures LastCreated(ts, j, i, id) <==> LastCreated(ts, j, i - 1, id)
        {
        }
      }
    }
  }

  /**
   In every run, sweeps included, a non-empty ID is found exactly when it was created less than a
   lifetime ago and neither created again nor deleted since, with the tenant and time of that creation.
   */
  lemma FoundIff(ttl: int, ts: seq<Timed>, start: int, i: nat, e: Session)
    requires Chronological(ts, start) && i < |ts| && ts[i].call.Get?
    ensures |Answers(map[], ttl, ts, true)| == |ts|
    ensures Answers(map[], ttl, ts, true)[i] == Some(e)
            <==> && ts[i].call.id != ""
                 && exists j :: LastCreated(ts, j, i, ts[i].call.id) && e == Session(ts[j].call.tenantId, ts[j].at) && ts[i].at - ts[j].at < ttl
  {
    SweepIsUnobservable(ttl, ts, start);
    AnswerAt(map[], ttl, ts, i);
    StoredIff(ttl, ts, i, ts[i].call.id, e);
  }
}
