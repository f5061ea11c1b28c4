/**
 One-time tickets: a ticket is the encrypted subscriber, valid while its Redis key lives and
 consumed by the first verification. AES-GCM, base64url (section 5 of RFC 4648) and JSON are
 parameters bound only by their inverse laws; the nonce framing is modelled.
 */
module Tickets {
  import opened Types

  type Bytes = seq<bv8>

  const NONCE_SIZE: nat := 12

  datatype Content = Content(tenant: Tenant, userId: User)

  datatype Codec = Codec(
    seal: (Bytes, Bytes) -> Bytes,
    open: (Bytes, Bytes) -> Option<Bytes>,
    encode: Bytes -> string,
    decode: string -> Option<Bytes>,
    marshal: Content -> Bytes,
    unmarshal: Bytes -> Option<Content>)

  ghost predicate Lawful(c: Codec) {
    && (forall nonce, plain :: c.open(nonce, c.seal(nonce, plain)) == Some(plain))
    && (forall data :: c.decode(c.encode(data)) == Some(data))
    && (forall data :: data != [] ==> c.encode(data) != "")
    && (forall content :: c.unmarshal(c.marshal(content)) == Some(content))
  }

  /** The nonce in front of the sealed text, in base64url. */
  function Encrypt(c: Codec, nonce: Bytes, plain: Bytes): string {
    c.encode(nonce + c.seal(nonce, plain))
  }

  function Decrypt(c: Codec, ticket: string): Option<Bytes> {
    match c.decode(ticket)
    case None => None
    case Some(data) =>
      if |data| < NONCE_SIZE then None else c.open(data[..NONCE_SIZE], data[NONCE_SIZE..])
  }

  function TicketFor(c: Codec, nonce: Bytes, content: Content): string {
    Encrypt(c, nonce, c.marshal(content))
  }

  function ContentOf(c: Codec, ticket: string): Option<Content> {
    match Decrypt(c, ticket)
    case None => None
    case Some(plain) => c.unmarshal(plain)
  }

  /** Cutting the nonce off again recovers the subscriber from any ticket issued for it. */
  lemma TicketRoundTrip(c: Codec, nonce: Bytes, content: Content)
    requires Lawful(c) && |nonce| == NONCE_SIZE
    ensures ContentOf(c, TicketFor(c, nonce, content)) == Some(content)
    ensures TicketFor(c, nonce, content) != ""
  {
    var sealed := c.seal(nonce, c.marshal(content));
    var data := nonce + sealed;
    assert data[..NONCE_SIZE] == nonce && data[NONCE_SIZE..] == sealed;
  }

  /** Redis keys of unused tickets with their expiry; a zero lifetime means no expiry. */
  type Live = map<string, Option<Time>>

  function Expiry(ttl: nat, at: Time): Option<Time> {
    if ttl == 0 then None else Some(at + ttl)
  }

  predicate Usable(live: Live, ticket: string, at: Time) {
    ticket in live && (live[ticket].None? || at < live[ticket].value)
  }

  /** GETDEL then decryption; an empty ticket is refused before Redis is asked. */
  function Verdict(c: Codec, live: Live, ticket: string, at: Time): Option<Content> {
    if ticket == "" || !Usable(live, ticket, at) then None else ContentOf(c, ticket)
  }

  class TicketService {
    var live: Live
    const codec: Codec
    const ttl: nat

    constructor (codec: Codec, ttl: nat)
      ensures live == map[] && this.codec == codec && this.ttl == ttl
    {
      live := map[];
      this.codec := codec;
      this.ttl := ttl;
    }

    method ApplyTicket(tenant: Tenant, userId: User, nonce: Bytes, now: Time) returns (ticket: string)
      modifies this`live
      ensures ticket == TicketFor(codec, nonce, Content(tenant, userId))
      ensures live == old(live)[ticket := Expiry(ttl, now)]
    {
      var plain := codec.marshal(Content(tenant, userId));
      ticket := codec.encode(nonce + codec.seal(nonce, plain));
      live := live[ticket := Expiry(ttl, now)];
    }

    method VerifyTicket(ticket: string, now: Time) returns (content: Option<Content>)
      modifies this`live
      ensures content == Verdict(codec, old(live), ticket, now)
      ensures live == if ticket == "" then old(live) else old(live) - {ticket}
    {
      if ticket == "" {
        return None;
      }
      var usable := Usable(live, ticket, now);
      live := live - {ticket};
      if !usable {
        return None;
      }
      var plain := Decrypt(codec, ticket);
      if plain.None? {
        return None;
      }
      content := codec.unmarshal(plain.value);
    }
  }

  // ---- Runs ----

  datatype Request = Apply(content: Content, nonce: Bytes) | Verify(ticket: string)

  datatype Timed = Timed(at: Time, req: Request)

  /** The live tickets after a history, oldest request first. */
  function LiveAfter(c: Codec, ttl: nat, ts: seq<Timed>): Live {
    if ts == [] then map[]
    else
      var live, t := LiveAfter(c, ttl, ts[..|ts| - 1]), ts[|ts| - 1];
      match t.req
      case Apply(content, nonce) => live[TicketFor(c, nonce, content) := Expiry(ttl, t.at)]
      case Verify(ticket) => if ticket == "" then live else live - {ticket}
  }

  predicate Applies(c: Codec, t: Timed, ticket: string) {
    t.req.Apply? && TicketFor(c, t.req.nonce, t.req.content) == ticket
  }

  /** Request i of the history is a verification of the ticket that succeeds. */
  predicate Accepts(c: Codec, ttl: nat, ts: seq<Timed>, i: nat, ticket: string)
    requires i < |ts|
  {
    ts[i].req == Verify(ticket) && Verdict(c, LiveAfter(c, ttl, ts[..i]), ticket, ts[i].at).Some?
  }

  function Applied(c: Codec, ts: seq<Timed>, ticket: string): nat {
    if ts == [] then 0
    else Applied(c, ts[..|ts| - 1], ticket) + (if Applies(c, ts[|ts| - 1], ticket) then 1 else 0)
  }

  function Accepted(c: Codec, ttl: nat, ts: seq<Timed>, ticket: string): nat {
    if ts == [] then 0
    else Accepted(c, ttl, ts[..|ts| - 1], ticket) + (if Accepts(c, ttl, ts, |ts| - 1, ticket) then 1 else 0)
  }

  ghost predicate Chronological(ts: seq<Timed>) {
    forall i, j | 0 <= i < j < |ts| :: ts[i].at <= ts[j].at
  }

  ghost predicate ProperNonces(ts: seq<Timed>) {
    forall i | 0 <= i < |ts| && ts[i].req.Apply? :: |ts[i].req.nonce| == NONCE_SIZE
  }

  /** A ticket is accepted at most as often as it was applied for; a live one has an application to spare. */
  lemma {:induction false} AcceptedAtMostApplied(c: Codec, ttl: nat, ts: seq<Timed>, ticket: string)
    ensures Accepted(c, ttl, ts, ticket) + (if ticket in LiveAfter(c, ttl, ts) then 1 else 0) <= Applied(c, ts, ticket)
    decreases |ts|
  {
    if ts != [] {
      AcceptedAtMostApplied(c, ttl, ts[..|ts| - 1], ticket);
    }
  }

  /** A live ticket carries the expiry of some application in the history. */
  lemma {:induction false} LiveWasApplied(c: Codec, ttl: nat, ts: seq<Timed>, ticket: string) returns (k: nat)
    requires ticket in LiveAfter(c, ttl, ts)
    ensures k < |ts| && Applies(c, ts[k], ticket) && LiveAfter(c, ttl, ts)[ticket] == Expiry(ttl, ts[k].at)
    decreases |ts|
  {
    var last := |ts| - 1;
    if Applies(c, ts[last], ticket) {
      k := last;
    } else {
      k := LiveWasApplied(c, ttl, ts[..last], ticket);
    }
  }

  /**
   Over every run: each accepted verification has an earlier application for the same ticket
   within the lifetime, and yields the tenant and user that was applied for.
   */
  lemma AcceptanceIsBacked(c: Codec, ttl: nat, ts: seq<Timed>, i: nat, ticket: string) returns (k: nat)
    requires Lawful(c) && 0 < ttl && Chronological(ts) && ProperNonces(ts) && i < |ts| && Accepts(c, ttl, ts, i, ticket)
    ensures k < i && Applies(c, ts[k], ticket)
    ensures ts[k].at <= ts[i].at < ts[k].at + ttl
    ensures Verdict(c, LiveAfter(c, ttl, ts[..i]), ticket, ts[i].at) == Some(ts[k].req.content)
  {
    k := LiveWasApplied(c, ttl, ts[..i], ticket);
    TicketRoundTrip(c, ts[k].req.nonce, ts[k].req.content);
  }

  /** An unused ticket is accepted at any time inside its lifetime. */
  lemma FreshTicketIsAccepted(c: Codec, ttl: nat, ts: seq<Timed>, content: Content, nonce: Bytes, at: Time, later: Time)
    requires Lawful(c) && |nonce| == NONCE_SIZE && at <= later && (0 < ttl ==> later < at + ttl)
    ensures var ticket := TicketFor(c, nonce, content);
            Verdict(c, LiveAfter(c, ttl, ts + [Timed(at, Apply(content, nonce))]), ticket, later) == Some(content)
  {
    TicketRoundTrip(c, nonce, content);
    var ts' := ts + [Timed(at, Apply(content, nonce))];
    assert ts'[..|ts'| - 1] == ts;
  }
}
