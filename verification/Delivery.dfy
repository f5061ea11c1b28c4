/**
 Live delivery in local mode: the bounded broker queue, the single dispatcher loop and the
 bounded channel of each connection. One step is one publish, one queue take, one range over
 the pool, one read by a connection's own loop, or one join or leave.
 */
module Delivery {
  import opened Types
  import L = PoolLocks

  type Conn = nat

  const BROKER_BUFFER: nat := 1000
  const CHANNEL_BUFFER: nat := 100

  datatype Message = Message(tenant: Tenant, target: TargetType, targetIds: seq<User>, payload: string)

  datatype Address = Address(tenant: Tenant, user: User)

  /** The ranges that process makes: one per listed user, or one over the whole group. */
  function Ranges(m: Message): seq<Option<User>> {
    if m.target == Broadcast then [None] else seq(|m.targetIds|, i requires 0 <= i < |m.targetIds| => Some(m.targetIds[i]))
  }

  /** The message the dispatcher is processing and the ranges it has still to make. */
  datatype Work = Idle | Busy(m: Message, rest: seq<Option<User>>)

  datatype Hub = Hub(
    queue: seq<Message>,
    work: Work,
    joined: set<Conn>,
    home: map<Conn, Address>,
    channel: map<Conn, seq<Message>>,
    received: map<Conn, seq<Message>>)

  const QUIET := Hub([], Idle, {}, map[], map[], map[])

  datatype Act =
    | Publish(m: Message)
    | Take
    | Range
    | Drain(c: Conn)
    | Join(c: Conn, a: Address)
    | Leave(c: Conn)

  ghost predicate Sound(h: Hub) {
    h.joined <= h.home.Keys && h.channel.Keys == h.home.Keys && h.received.Keys == h.home.Keys
    && (h.work.Busy? ==> h.work.rest != [])
  }

  predicate CanAct(h: Hub, x: Act) {
    match x
    case Publish(_) => true
    case Take => h.work.Idle? && h.queue != []
    case Range => h.work.Busy?
    case Drain(c) => c in h.channel && h.channel[c] != []
    case Join(c, _) => c !in h.home
    case Leave(c) => c in h.joined
  }

  /** Publish succeeds exactly when the buffer has room. */
  predicate Accepts(h: Hub, x: Act) {
    x.Publish? && |h.queue| < BROKER_BUFFER
  }

  /** A range reaches the connections of the tenant, or of one user of the tenant. */
  predicate Matches(m: Message, range: Option<User>, a: Address) {
    a.tenant == m.tenant && (range.None? || range.value == a.user)
  }

  predicate Reached(h: Hub, c: Conn)
    requires Sound(h)
  {
    h.work.Busy? && c in h.joined && Matches(h.work.m, h.work.rest[0], h.home[c])
  }

  predicate Full(h: Hub, c: Conn) {
    c in h.channel && |h.channel[c]| >= CHANNEL_BUFFER
  }

  function Apply(h: Hub, x: Act): Hub
    requires Sound(h) && CanAct(h, x)
  {
    match x
    case Publish(m) => if |h.queue| < BROKER_BUFFER then h.(queue := h.queue + [m]) else h
    case Take => h.(queue := h.queue[1..], work := if Ranges(h.queue[0]) == [] then Idle else Busy(h.queue[0], Ranges(h.queue[0])))
    case Range =>
      h.(work := if |h.work.rest| == 1 then Idle else Busy(h.work.m, h.work.rest[1..]),
         channel := map c | c in h.channel ::
           if Reached(h, c) && !Full(h, c) then h.channel[c] + [h.work.m] else h.channel[c])
    case Drain(c) =>
      h.(channel := h.channel[c := h.channel[c][1..]], received := h.received[c := h.received[c] + [h.channel[c][0]]])
    case Join(c, a) =>
      h.(joined := h.joined + {c}, home := h.home[c := a], channel := h.channel[c := []], received := h.received[c := []])
    case Leave(c) => h.(joined := h.joined - {c})
  }

  ghost predicate ValidActs(h: Hub, xs: seq<Act>)
    decreases |xs|
  {
    Sound(h) && (xs == [] || (CanAct(h, xs[0]) && ValidActs(Apply(h, xs[0]), xs[1..])))
  }

  ghost function After(h: Hub, xs: seq<Act>): Hub
    requires ValidActs(h, xs)
    decreases |xs|
  {
    if xs == [] then h else After(Apply(h, xs[0]), xs[1..])
  }

  /** The messages whose Publish succeeded along a run, in order. */
  ghost function Accepted(h: Hub, xs: seq<Act>): seq<Message>
    requires ValidActs(h, xs)
    decreases |xs|
  {
    if xs == [] then []
    else (if Accepts(h, xs[0]) then [xs[0].m] else []) + Accepted(Apply(h, xs[0]), xs[1..])
  }

  // ---- What is addressed to whom ----

  /** The message once per remaining range that matches the address. */
  function Copies(m: Message, ranges: seq<Option<User>>, a: Address): seq<Message> {
    if ranges == [] then [] else (if Matches(m, ranges[0], a) then [m] else []) + Copies(m, ranges[1..], a)
  }

  /** All copies of all messages addressed to `a`, in order. */
  function Addressed(ms: seq<Message>, a: Address): seq<Message> {
    if ms == [] then [] else Copies(ms[0], Ranges(ms[0]), a) + Addressed(ms[1..], a)
  }

  function InHand(w: Work, a: Address): seq<Message> {
    if w.Idle? then [] else Copies(w.m, w.rest, a)
  }

  /** Still to come for the address: the rest of the current message, then the queue. */
  function Outstanding(h: Hub, a: Address): seq<Message> {
    InHand(h.work, a) + Addressed(h.queue, a)
  }

  /** What the connection has been given: read already, then buffered. */
  function Given(h: Hub, c: Conn): seq<Message>
    requires c in h.channel && c in h.received
  {
    h.received[c] + h.channel[c]
  }

  lemma ActKeepsSound(h: Hub, x: Act)
    requires Sound(h) && CanAct(h, x)
    ensures Sound(Apply(h, x))
  {
  }

  lemma AddressedCons(m: Message, rest: seq<Message>, a: Address)
    ensures Addressed([m] + rest, a) == Copies(m, Ranges(m), a) + Addressed(rest, a)
  {
    assert ([m] + rest)[0] == m && ([m] + rest)[1..] == rest;
  }

  lemma {:induction false} AddressedAppend(xs: seq<Message>, ys: seq<Message>, a: Address)
    ensures Addressed(xs + ys, a) == Addressed(xs, a) + Addressed(ys, a)
    decreases |xs|
  {
    if xs == [] {
      assert xs + ys == ys;
    } else {
      var m, rest := xs[0], xs[1..];
      assert xs == [m] + rest && xs + ys == [m] + (rest + ys);
      AddressedAppend(rest, ys, a);
      AddressedCons(m, rest, a);
      AddressedCons(m, rest + ys, a);
      Regroup(Copies(m, Ranges(m), a), Addressed(rest, a), Addressed(ys, a));
    }
  }

  lemma TakeOutstanding(h: Hub, a: Address)
    requires Sound(h) && CanAct(h, Take)
    ensures Outstanding(Apply(h, Take), a) == Outstanding(h, a)
  {
    var m, rest := h.queue[0], h.queue[1..];
    assert InHand(Apply(h, Take).work, a) == Copies(m, Ranges(m), a);
    assert Addressed(h.queue, a) == Copies(m, Ranges(m), a) + Addressed(rest, a);
    assert InHand(h.work, a) == [];
  }

  /** A range takes its own copy off what is outstanding for the addresses it matches. */
  lemma RangeOutstanding(h: Hub, a: Address)
    requires Sound(h) && CanAct(h, Range)
    ensures Outstanding(h, a) == (if Matches(h.work.m, h.work.rest[0], a) then [h.work.m] else []) + Outstanding(Apply(h, Range), a)
  {
    var rest := h.work.rest[1..];
    var first := if Matches(h.work.m, h.work.rest[0], a) then [h.work.m] else [];
    assert InHand(Apply(h, Range).work, a) == Copies(h.work.m, rest, a);
    assert InHand(h.work, a) == first + Copies(h.work.m, rest, a);
    Regroup(first, Copies(h.work.m, rest, a), Addressed(h.queue, a));
  }

  lemma PublishOutstanding(h: Hub, m: Message, a: Address)
    requires Sound(h)
    ensures Outstanding(Apply(h, Publish(m)), a) == Outstanding(h, a) + Addressed(if Accepts(h, Publish(m)) then [m] else [], a)
  {
    if Accepts(h, Publish(m)) {
      AddressedAppend(h.queue, [m], a);
      Regroup(InHand(h.work, a), Addressed(h.queue, a), Addressed([m], a));
    } else {
      assert Outstanding(h, a) + [] == Outstanding(h, a);
    }
  }

  /** Every other step adds to what is outstanding exactly what it gets accepted. */
  lemma OutstandingStep(h: Hub, x: Act, a: Address)
    requires Sound(h) && CanAct(h, x) && !x.Range?
    ensures Outstanding(Apply(h, x), a) == Outstanding(h, a) + Addressed(if Accepts(h, x) then [x.m] else [], a)
  {
    if x.Publish? {
      PublishOutstanding(h, x.m, a);
    } else {
      if x.Take? {
        TakeOutstanding(h, a);
      }
      assert Outstanding(h, a) + [] == Outstanding(h, a);
    }
  }

  lemma GivenStep(h: Hub, x: Act, c: Conn)
    requires Sound(h) && CanAct(h, x) && c in h.home
    ensures c in Apply(h, x).home && Apply(h, x).home[c] == h.home[c]
    ensures c in Apply(h, x).channel && c in Apply(h, x).received
    ensures Given(Apply(h, x), c) == Given(h, c) + (if x.Range? && Reached(h, c) && !Full(h, c) then [h.work.m] else [])
  {
  }

  // ---- Nothing is lost while joined and never full ----

  /** The connection stays joined over the run and is never reached with a full channel. */
  ghost predicate Attentive(h: Hub, xs: seq<Act>, c: Conn)
    requires ValidActs(h, xs)
    decreases |xs|
  {
    c in h.joined
    && (xs == [] || (&& (xs[0].Range? && Reached(h, c) ==> !Full(h, c))
                     && Attentive(Apply(h, xs[0]), xs[1..], c)))
  }

  /** Given and outstanding together. */
  function Due(h: Hub, c: Conn): seq<Message>
    requires c in h.home && c in h.channel && c in h.received
  {
    Given(h, c) + Outstanding(h, h.home[c])
  }

  lemma Regroup(x: seq<Message>, y: seq<Message>, z: seq<Message>)
    ensures x + (y + z) == (x + y) + z
  {
  }

  lemma DueStep(h: Hub, x: Act, c: Conn)
    requires Sound(h) && CanAct(h, x) && c in h.joined && (x.Range? && Reached(h, c) ==> !Full(h, c))
    ensures Sound(Apply(h, x)) && c in Apply(h, x).home && Apply(h, x).home[c] == h.home[c]
    ensures Due(Apply(h, x), c) == Due(h, c) + Addressed(if Accepts(h, x) then [x.m] else [], h.home[c])
  {
    ActKeepsSound(h, x);
    GivenStep(h, x, c);
    var a := h.home[c];
    if x.Range? {
      RangeOutstanding(h, a);
      Regroup(Given(h, c), if Reached(h, c) then [h.work.m] else [], Outstanding(Apply(h, x), a));
      assert Due(h, c) + [] == Due(h, c);
    } else {
      OutstandingStep(h, x, a);
      Regroup(Given(h, c), Outstanding(h, a), Addressed(if Accepts(h, x) then [x.m] else [], a));
    }
  }

  /**
   Over any run during which a connection stays joined and its channel has room: what it has been
   given plus what is outstanding for it grows by exactly the accepted messages addressed to it.
   */
  lemma {:induction false} DeliveryConserved(h: Hub, xs: seq<Act>, c: Conn)
    requires ValidActs(h, xs) && Attentive(h, xs, c)
    ensures Sound(After(h, xs)) && c in h.home && c in After(h, xs).home && After(h, xs).home[c] == h.home[c]
    ensures Due(After(h, xs), c) == Due(h, c) + Addressed(Accepted(h, xs), h.home[c])
    decreases |xs|
  {
    if xs == [] {
      assert Due(h, c) + [] == Due(h, c);
    } else {
      var x, h1 := xs[0], Apply(h, xs[0]);
      DueStep(h, x, c);
      DeliveryConserved(h1, xs[1..], c);
      ExtendAccepted(Due(h, c), if Accepts(h, x) then [x.m] else [], Accepted(h1, xs[1..]), h.home[c]);
    }
  }

  lemma ExtendAccepted(due: seq<Message>, xs: seq<Message>, ys: seq<Message>, a: Address)
    ensures due + Addressed(xs, a) + Addressed(ys, a) == due + Addressed(xs + ys, a)
  {
    AddressedAppend(xs, ys, a);
  }

  // ---- What is lost while joined ----

  /** The connection stays joined over the run. */
  ghost predicate Stays(h: Hub, xs: seq<Act>, c: Conn)
    requires ValidActs(h, xs)
    decreases |xs|
  {
    c in h.joined && (xs == [] || Stays(Apply(h, xs[0]), xs[1..], c))
  }

  predicate Drops(h: Hub, x: Act, c: Conn)
    requires Sound(h)
  {
    x.Range? && Reached(h, c) && Full(h, c)
  }

  /** How many ranges of the run reach the connection with a full channel. */
  ghost function Dropped(h: Hub, xs: seq<Act>, c: Conn): nat
    requires ValidActs(h, xs)
    decreases |xs|
  {
    if xs == [] then 0 else (if Drops(h, xs[0], c) then 1 else 0) + Dropped(Apply(h, xs[0]), xs[1..], c)
  }

  lemma {:induction false} AttentiveIffNoneDropped(h: Hub, xs: seq<Act>, c: Conn)
    requires ValidActs(h, xs)
    ensures Attentive(h, xs, c) <==> Stays(h, xs, c) && Dropped(h, xs, c) == 0
    decreases |xs|
  {
    if xs != [] {
      AttentiveIffNoneDropped(Apply(h, xs[0]), xs[1..], c);
    }
  }

  lemma DueSizeStep(h: Hub, x: Act, c: Conn)
    requires Sound(h) && CanAct(h, x) && c in h.joined
    ensures Sound(Apply(h, x)) && c in Apply(h, x).home && Apply(h, x).home[c] == h.home[c]
    ensures |Due(Apply(h, x), c)| + (if Drops(h, x, c) then 1 else 0)
            == |Due(h, c)| + |Addressed(if Accepts(h, x) then [x.m] else [], h.home[c])|
  {
    if Drops(h, x, c) {
      ActKeepsSound(h, x);
      GivenStep(h, x, c);
      RangeOutstanding(h, h.home[c]);
    } else {
      DueStep(h, x, c);
    }
  }

  /** While a connection stays joined, what it is due and what it was dropped account for everything accepted for it. */
  lemma {:induction false} DroppedAccounts(h: Hub, xs: seq<Act>, c: Conn)
    requires ValidActs(h, xs) && Stays(h, xs, c)
    ensures Sound(After(h, xs)) && c in h.home && c in After(h, xs).home && After(h, xs).home[c] == h.home[c]
    ensures |Due(After(h, xs), c)| + Dropped(h, xs, c) == |Due(h, c)| + |Addressed(Accepted(h, xs), h.home[c])|
    decreases |xs|
  {
    if xs != [] {
      var x, h1 := xs[0], Apply(h, xs[0]);
      DueSizeStep(h, x, c);
      DroppedAccounts(h1, xs[1..], c);
      AddressedAppend(if Accepts(h, x) then [x.m] else [], Accepted(h1, xs[1..]), h.home[c]);
    }
  }

  /** Delivery to a joined connection is conserved if and only if no range reached it with a full channel. */
  lemma DeliveryConservedIff(h: Hub, xs: seq<Act>, c: Conn)
    requires ValidActs(h, xs) && Stays(h, xs, c)
    ensures Sound(After(h, xs)) && c in h.home && c in After(h, xs).home
    ensures Due(After(h, xs), c) == Due(h, c) + Addressed(Accepted(h, xs), h.home[c]) <==> Dropped(h, xs, c) == 0
  {
    DroppedAccounts(h, xs, c);
    AttentiveIffNoneDropped(h, xs, c);
    if Dropped(h, xs, c) == 0 {
      DeliveryConserved(h, xs, c);
    }
  }

  /** With the queue drained and the dispatcher idle, an attentive connection has been given everything accepted for it. */
  lemma QuiescentDeliveryIsWhole(h: Hub, xs: seq<Act>, c: Conn)
    requires ValidActs(h, xs) && Attentive(h, xs, c)
    requires h.queue == [] && h.work.Idle? && After(h, xs).queue == [] && After(h, xs).work.Idle?
    ensures Sound(After(h, xs)) && c in h.home && c in After(h, xs).home
    ensures Given(After(h, xs), c) == Given(h, c) + Addressed(Accepted(h, xs), h.home[c])
  {
    DeliveryConserved(h, xs, c);
    assert Due(h, c) == Given(h, c) && Due(After(h, xs), c) == Given(After(h, xs), c);
  }

  // ---- Order and multiplicity in every run ----

  /** `xs` sits inside `ys` at the strictly increasing positions `at`. */
  ghost predicate Embeds(xs: seq<Message>, ys: seq<Message>, at: seq<nat>) {
    && |at| == |xs|
    && (forall i, j | 0 <= i < j < |at| :: at[i] < at[j])
    && (forall i | 0 <= i < |at| :: at[i] < |ys| && ys[at[i]] == xs[i])
  }

  ghost predicate Subsequence(xs: seq<Message>, ys: seq<Message>) {
    exists at :: Embeds(xs, ys, at)
  }

  lemma EmbedsItself(xs: seq<Message>)
    ensures Subsequence(xs, xs)
  {
    assert Embeds(xs, xs, seq(|xs|, i requires 0 <= i < |xs| => i));
  }

  lemma DropOne(xs: seq<Message>, m: Message, zs: seq<Message>, ys: seq<Message>)
    requires Subsequence(xs + ([m] + zs), ys)
    ensures Subsequence(xs + zs, ys)
  {
    var at :| Embeds(xs + ([m] + zs), ys, at);
    var at' := at[..|xs|] + at[|xs| + 1..];
    forall i | 0 <= i < |at'|
      ensures at'[i] < |ys| && ys[at'[i]] == (xs + zs)[i]
    {
      var j := if i < |xs| then i else i + 1;
      assert at'[i] == at[j] && (xs + ([m] + zs))[j] == (xs + zs)[i];
    }
    assert Embeds(xs + zs, ys, at');
  }

  lemma ExtendBoth(xs: seq<Message>, ys: seq<Message>, zs: seq<Message>)
    requires Subsequence(xs, ys)
    ensures Subsequence(xs + zs, ys + zs)
  {
    var at :| Embeds(xs, ys, at);
    var at' := at + seq(|zs|, i requires 0 <= i < |zs| => |ys| + i);
    assert Embeds(xs + zs, ys + zs, at');
  }

  lemma SuffixEmbeds(xs: seq<Message>, zs: seq<Message>, ys: seq<Message>)
    requires Subsequence(xs + zs, ys)
    ensures Subsequence(xs, ys) && Subsequence(zs, ys)
  {
    var at :| Embeds(xs + zs, ys, at);
    assert Embeds(xs, ys, at[..|xs|]) by {
      assert forall i | 0 <= i < |xs| :: (xs + zs)[i] == xs[i];
    }
    assert Embeds(zs, ys, at[|xs|..]) by {
      assert forall i | 0 <= i < |zs| :: (xs + zs)[|xs| + i] == zs[i];
    }
  }

  /** With `sent` accepted so far: what is due, or merely outstanding, is in order inside what was accepted. */
  ghost predicate InOrder(h: Hub, sent: seq<Message>) {
    && Sound(h)
    && (forall a :: Subsequence(Outstanding(h, a), Addressed(sent, a)))
    && (forall c | c in h.home :: Subsequence(Due(h, c), Addressed(sent, h.home[c])))
  }

  lemma OutstandingInOrder(h: Hub, x: Act, sent: seq<Message>, a: Address)
    requires Sound(h) && CanAct(h, x) && Subsequence(Outstanding(h, a), Addressed(sent, a))
    ensures Subsequence(Outstanding(Apply(h, x), a), Addressed(sent + (if Accepts(h, x) then [x.m] else []), a))
  {
    var head := if Accepts(h, x) then [x.m] else [];
    AddressedAppend(sent, head, a);
    if x.Range? {
      RangeOutstanding(h, a);
      SuffixEmbeds(if Matches(h.work.m, h.work.rest[0], a) then [h.work.m] else [], Outstanding(Apply(h, x), a), Addressed(sent, a));
      assert sent + head == sent;
    } else {
      OutstandingStep(h, x, a);
      ExtendBoth(Outstanding(h, a), Addressed(sent, a), Addressed(head, a));
    }
  }

  lemma RangeDueInOrder(h: Hub, sent: seq<Message>, c: Conn)
    requires Sound(h) && CanAct(h, Range) && c in h.home && Subsequence(Due(h, c), Addressed(sent, h.home[c]))
    ensures c in Apply(h, Range).channel && c in Apply(h, Range).received && Apply(h, Range).home[c] == h.home[c]
    ensures Subsequence(Due(Apply(h, Range), c), Addressed(sent, h.home[c]))
  {
    var a, h' := h.home[c], Apply(h, Range);
    GivenStep(h, Range, c);
    RangeOutstanding(h, a);
    if !Matches(h.work.m, h.work.rest[0], a) {
      assert Due(h', c) == Due(h, c);
    } else if Reached(h, c) && !Full(h, c) {
      Regroup(Given(h, c), [h.work.m], Outstanding(h', a));
    } else {
      assert Given(h', c) == Given(h, c);
      DropOne(Given(h, c), h.work.m, Outstanding(h', a), Addressed(sent, a));
    }
  }

  lemma DueInOrder(h: Hub, x: Act, sent: seq<Message>, c: Conn)
    requires Sound(h) && CanAct(h, x) && c in h.home && Subsequence(Due(h, c), Addressed(sent, h.home[c]))
    ensures c in Apply(h, x).channel && c in Apply(h, x).received && Apply(h, x).home[c] == h.home[c]
    ensures Subsequence(Due(Apply(h, x), c), Addressed(sent + (if Accepts(h, x) then [x.m] else []), h.home[c]))
  {
    var a, head := h.home[c], if Accepts(h, x) then [x.m] else [];
    if x.Range? {
      RangeDueInOrder(h, sent, c);
      assert sent + head == sent;
    } else {
      GivenStep(h, x, c);
      OutstandingStep(h, x, a);
      AddressedAppend(sent, head, a);
      ExtendBoth(Due(h, c), Addressed(sent, a), Addressed(head, a));
      Regroup(Given(h, c), Outstanding(h, a), Addressed(head, a));
      assert Given(Apply(h, x), c) == Given(h, c);
    }
  }

  lemma ActKeepsOrder(h: Hub, x: Act, sent: seq<Message>)
    requires InOrder(h, sent) && CanAct(h, x)
    ensures InOrder(Apply(h, x), sent + (if Accepts(h, x) then [x.m] else []))
  {
    var h' := Apply(h, x);
    var sent' := sent + (if Accepts(h, x) then [x.m] else []);
    ActKeepsSound(h, x);
    forall a
      ensures Subsequence(Outstanding(h', a), Addressed(sent', a))
    {
      OutstandingInOrder(h, x, sent, a);
    }
    forall c | c in h'.home
      ensures Subsequence(Due(h', c), Addressed(sent', h'.home[c]))
    {
      if c in h.home {
        DueInOrder(h, x, sent, c);
      } else {
        assert Given(h', c) == [] && Due(h', c) == Outstanding(h', h'.home[c]);
      }
    }
  }

  lemma {:induction false} ActsKeepOrder(h: Hub, xs: seq<Act>, sent: seq<Message>)
    requires InOrder(h, sent) && ValidActs(h, xs)
    ensures InOrder(After(h, xs), sent + Accepted(h, xs))
    decreases |xs|
  {
    if xs == [] {
      assert sent + Accepted(h, xs) == sent;
    } else {
      var h1, head := Apply(h, xs[0]), if Accepts(h, xs[0]) then [xs[0].m] else [];
      ActKeepsOrder(h, xs[0], sent);
      ActsKeepOrder(h1, xs[1..], sent + head);
      AcceptedStep(h, xs);
      Regroup(sent, head, Accepted(h1, xs[1..]));
    }
  }

  lemma AcceptedStep(h: Hub, xs: seq<Act>)
    requires ValidActs(h, xs) && xs != []
    ensures Accepted(h, xs) == (if Accepts(h, xs[0]) then [xs[0].m] else []) + Accepted(Apply(h, xs[0]), xs[1..])
    ensures After(h, xs) == After(Apply(h, xs[0]), xs[1..])
  {
  }

  lemma {:induction false} CopiesAreAddressed(m: Message, ranges: seq<Option<User>>, a: Address)
    ensures forall x | x in Copies(m, ranges, a) :: x == m && m.tenant == a.tenant
    ensures m.tenant != a.tenant ==> Copies(m, ranges, a) == []
    ensures |Copies(m, ranges, a)| <= |ranges|
    decreases |ranges|
  {
    if ranges != [] {
      CopiesAreAddressed(m, ranges[1..], a);
    }
  }

  /** A connection's share of one message: each occurrence of its user among the targets, or one for a broadcast. */
  lemma {:induction false} OneCopyPerOccurrence(m: Message, a: Address, users: seq<User>, ranges: seq<Option<User>>)
    requires a.tenant == m.tenant && |ranges| == |users| && forall i | 0 <= i < |users| :: ranges[i] == Some(users[i])
    ensures |Copies(m, ranges, a)| == multiset(users)[a.user]
    decreases |users|
  {
    if users != [] {
      OneCopyPerOccurrence(m, a, users[1..], ranges[1..]);
      assert users == [users[0]] + users[1..];
    }
  }

  /** One message, one address: nothing from another tenant, one copy of a broadcast, else one per listing of the user. */
  lemma SharePerMessage(m: Message, a: Address)
    ensures |Addressed([m], a)| == |Copies(m, Ranges(m), a)|
                                == if a.tenant != m.tenant then 0 else if m.target == Broadcast then 1 else multiset(m.targetIds)[a.user]
  {
    assert Addressed([m], a) == Copies(m, Ranges(m), a) + [];
    if a.tenant == m.tenant {
      if m.target == Broadcast {
        assert Ranges(m)[1..] == [];
      } else {
        OneCopyPerOccurrence(m, a, m.targetIds, Ranges(m));
      }
    } else {
      CopiesAreAddressed(m, Ranges(m), a);
    }
  }

  lemma {:induction false} AddressedStaysHome(ms: seq<Message>, a: Address)
    ensures forall m | m in Addressed(ms, a) :: m.tenant == a.tenant && m in ms
    decreases |ms|
  {
    if ms != [] {
      CopiesAreAddressed(ms[0], Ranges(ms[0]), a);
      AddressedStaysHome(ms[1..], a);
    }
  }

  /**
   In every run, full buffers, joins and leaves included: what a connection is given is an
   order-preserving subsequence of the accepted messages addressed to its tenant and user,
   once at most per matching range, and never a message of another tenant.
   */
  lemma DeliveryInOrder(xs: seq<Act>, c: Conn)
    requires ValidActs(QUIET, xs) && c in After(QUIET, xs).home
    ensures var h := After(QUIET, xs);
            && Sound(h)
            && Subsequence(Given(h, c), Addressed(Accepted(QUIET, xs), h.home[c]))
            && forall m | m in Given(h, c) :: m.tenant == h.home[c].tenant && m in Accepted(QUIET, xs)
  {
    var h, sent := After(QUIET, xs), Accepted(QUIET, xs);
    assert forall a :: Outstanding(QUIET, a) == [];
    EmbedsItself([]);
    ActsKeepOrder(QUIET, xs, []);
    assert [] + sent == sent;
    SuffixEmbeds(Given(h, c), Outstanding(h, h.home[c]), Addressed(sent, h.home[c]));
    AddressedStaysHome(sent, h.home[c]);
  }

  // ---- Joined means mapped ----

  /** `joined` holds the connections that sit in the group mapped under their tenant. */
  ghost predicate Mirrors(h: Hub, p: L.Pool) {
    && Sound(h)
    && (forall c :: c in h.joined <==> c in p.lives && L.Mapped(p, c))
    && (forall c | c in h.joined :: h.home[c] == Address(p.lives[c].tenant, p.lives[c].slot.user))
  }

  /** A fan-out that gets and locks its group in such a pool walks exactly the connections that a range reaches. */
  lemma RangeWalksMapped(h: Hub, p: L.Pool, f: L.FanId, c: Conn)
    requires Mirrors(h, p) && L.PoolOk(p) && p.holder.None? && f !in p.fans && h.work.Busy?
    ensures var got := L.Run(p, L.FanGet(f, h.work.m.tenant, h.work.rest[0]));
            Reached(h, c) <==> f in got.fans && c in L.Run(got, L.FanLock(f)).fans[f].todo
  {
    var t, only := h.work.m.tenant, h.work.rest[0];
    if t in p.groups {
      var m := L.MembersOf(p, p.groups[t]);
      if c in L.Selected(m, only) {
        var slot :| slot in m && m[slot] == c && (only.None? || slot.user == only.value);
        assert L.In(p, p.groups[t], slot, c);
      }
      if Reached(h, c) {
        assert L.In(p, p.groups[t], p.lives[c].slot, c);
        assert m[p.lives[c].slot] == c;
      }
    }
  }

  /** A connection that is not mapped, such as one whose join lost its group, is reached by no range and never attentive. */
  lemma StrandedIsUnheard(h: Hub, p: L.Pool, xs: seq<Act>, c: Conn)
    requires Mirrors(h, p) && c in p.lives && !L.Mapped(p, c) && ValidActs(h, xs)
    ensures !Reached(h, c) && !Attentive(h, xs, c)
  {
  }
}
